/** The two pools of equal blocks carved from one region, their free lists threaded through
    a header word of each block: request blocks (mreqb_pool_create and friends, mreqb.c)
    and packet buffers (mf_memp.c). Memory is an array of 32-bit words from the region's
    base on; a pointer is a word index plus one, so that 0 is NULL. */
module FixedPools {

  function Ptr(list: seq<nat>, i: nat): nat {
    if i < |list| then list[i] + 1 else 0
  }

  /** The list that starts at `head` and runs through the header words. */
  predicate Linked(mem: seq<int>, head: int, list: seq<nat>) {
    && head == Ptr(list, 0)
    && (forall i | 0 <= i < |list| :: list[i] < |mem| && mem[list[i]] == Ptr(list, i + 1))
    && forall i, j | 0 <= i < j < |list| :: list[i] != list[j]
  }

  /** The list is all there is to see: whoever follows the pointers finds it. */
  lemma {:induction false} LinkedUnique(mem: seq<int>, head: int, a: seq<nat>, b: seq<nat>)
    requires Linked(mem, head, a) && Linked(mem, head, b)
    ensures a == b
    decreases |a|
  {
    if a != [] {
      var n := mem[a[0]];
      assert a[0] == b[0] && n == Ptr(a, 1) == Ptr(b, 1);
      LinkedTail(mem, head, a);
      LinkedTail(mem, head, b);
      LinkedUnique(mem, n, a[1..], b[1..]);
      assert a == [a[0]] + a[1..] && b == [b[0]] + b[1..];
    }
  }

  lemma LinkedTail(mem: seq<int>, head: int, list: seq<nat>)
    requires Linked(mem, head, list) && list != []
    ensures Linked(mem, mem[list[0]], list[1..])
    ensures list[0] !in list[1..]
  {
    var rest := list[1..];
    assert mem[list[0]] == Ptr(rest, 0);
    forall i | 0 <= i < |rest| ensures rest[i] < |mem| && mem[rest[i]] == Ptr(rest, i + 1) {
      assert rest[i] == list[i + 1];
    }
    forall i, j | 0 <= i < j < |rest| ensures rest[i] != rest[j] {
      assert rest[i] == list[i + 1] && rest[j] == list[j + 1];
    }
  }

  lemma LinkedPush(mem: seq<int>, head: int, list: seq<nat>, h: nat)
    requires Linked(mem, head, list) && h < |mem| && h !in list
    ensures Linked(mem[h := head], h + 1, [h] + list)
  {
    var ext, mem1 := [h] + list, mem[h := head];
    forall i | 0 <= i < |ext| ensures ext[i] < |mem1| && mem1[ext[i]] == Ptr(ext, i + 1) {
      if i > 0 {
        assert ext[i] == list[i - 1];
      }
    }
    forall i, j | 0 <= i < j < |ext| ensures ext[i] != ext[j] {
      assert ext[j] == list[j - 1];
    }
  }

  /** Words outside the headers in use by the list do not matter to it. */
  lemma LinkedFrame(mem: seq<int>, mem1: seq<int>, head: int, list: seq<nat>)
    requires Linked(mem, head, list) && |mem1| == |mem|
    requires forall i | 0 <= i < |list| :: mem1[list[i]] == mem[list[i]]
    ensures Linked(mem1, head, list)
  {
  }

  // ---------------------------------------------------------------- carving the regions

  /** sizeof(struct mreqb) + sizeof(struct mreqb_memnode) on a 32-bit machine, in bytes and
      in words. */
  const MREQB_SIZE: nat := 152 + 4
  const MREQB_WORDS: nat := 39

  /** The number of blocks is kept in 16 bits; without any, one is handed out all the same. */
  function Carves(len: nat): (n: nat)
    ensures n >= 1
  {
    var num := (len / MREQB_SIZE) % 0x1_0000;
    if num == 0 then 1 else num
  }

  /** Where block j has its header. */
  function Header(j: nat, words: nat): nat {
    j * words
  }

  function Headers(n: nat, words: nat): seq<nat> {
    seq(n, j requires 0 <= j < n => Header(j, words))
  }

  /** Block j is inside a region of len bytes. */
  predicate Inside(j: nat, len: nat) {
    (j + 1) * MREQB_SIZE <= len
  }

  /** The pool is exactly the blocks that fit if and only if there is at least one and
      their number fits 16 bits. */
  lemma CarvesRegionIff(len: nat)
    ensures (forall j | 0 <= j :: j < Carves(len) <==> Inside(j, len)) <==> MREQB_SIZE <= len < 0x1_0000 * MREQB_SIZE
  {
    var q, r := len / MREQB_SIZE, len % MREQB_SIZE;
    assert len == q * MREQB_SIZE + r;
    forall j | 0 <= j ensures Inside(j, len) <==> j < q {
    }
    if len < MREQB_SIZE {
      assert 0 < Carves(len) && !Inside(0, len);
    } else if len >= 0x1_0000 * MREQB_SIZE {
      assert q >= 0x1_0000;
      assert !(q - 1 < Carves(len)) && Inside(q - 1, len);
    }
  }

  /** The number of blocks wraps: 65536 blocks more make no difference, and a region for exactly
      65536 of them is one block. */
  lemma CarvesWraps(len: nat)
    ensures Carves(len + 0x1_0000 * 156) == Carves(len)
    ensures Carves(0x1_0000 * 156) == 1
    ensures 156 <= len < 0x1_0000 * 156 ==> Carves(len) == len / 156
  {
    var q, r := len / 156, len % 156;
    assert len + 0x1_0000 * 156 == (q + 0x1_0000) * 156 + r;
    DivIs(len + 0x1_0000 * 156, q + 0x1_0000, r);
  }

  lemma DivIs(x: nat, q: nat, r: nat)
    requires x == q * 156 + r && r < 156
    ensures x / 156 == q
  {
  }

  class MreqbPool {
    const mem: array<int>
    const blocks: nat
    var freeHead: int
    var event: bool
    ghost var free: seq<nat>

    ghost predicate Valid()
      reads this, mem
    {
      && Linked(mem[..], freeHead, free)
      && forall i | 0 <= i < |free| :: free[i] in Headers(blocks, MREQB_WORDS)
    }

    /** mreqb_pool_create, its allocation succeeding, in memory that holds what it carves. */
    constructor (mem: array<int>, len: nat)
      requires MREQB_WORDS * Carves(len) <= mem.Length
      modifies mem
      ensures Valid() && this.mem == mem && blocks == Carves(len) && free == Headers(blocks, MREQB_WORDS) && !event
      ensures |free| == blocks && forall i | 0 <= i < blocks :: free[i] == 39 * i
    {
      var num := (len / MREQB_SIZE) % 0x1_0000;
      var m, chunk := 0, 0;
      var i := 0;
      while i < num
        invariant 0 <= i <= num && m == i * MREQB_WORDS && chunk == (if i == 0 then 0 else m - MREQB_WORDS)
        invariant forall j | 0 <= j < i :: mem[j * MREQB_WORDS] == (j + 1) * MREQB_WORDS + 1
      {
        mem[m] := m + MREQB_WORDS + 1;
        chunk := m;
        m := m + MREQB_WORDS;
        i := i + 1;
      }
      mem[chunk] := 0;
      this.mem, freeHead, event := mem, 1, false;
      blocks := Carves(len);
      free := Headers(Carves(len), MREQB_WORDS);
    }

    /** mreqb_pool_alloc: the first free block, its link cleared, or NULL. */
    method Alloc() returns (rq: int)
      requires Valid()
      modifies this`freeHead, this`free, mem
      ensures Valid()
      ensures old(free) == [] ==> rq == 0 && free == [] && mem[..] == old(mem[..])
      ensures old(free) != [] ==>
                && free == old(free[1..]) && rq == old(free[0]) + 2
                && mem[..] == old(mem[..])[old(free[0]) := 0]
    {
      var m := freeHead;
      rq := 0;
      if m != 0 {
        LinkedTail(mem[..], freeHead, free);
        ghost var before := mem[..];
        freeHead := mem[m - 1];
        mem[m - 1] := 0;
        rq := m + 1;
        free := free[1..];
        LinkedFrame(before, mem[..], freeHead, free);
      }
    }

    /** mreqb_pool_free of a block in use; the event is raised when none was free. */
    method Free(rq: int)
      requires Valid() && 2 <= rq && rq - 2 in Headers(blocks, MREQB_WORDS) && rq - 2 !in free && rq - 2 < mem.Length
      modifies this`freeHead, this`free, this`event, mem
      ensures Valid() && free == [rq - 2] + old(free)
      ensures event == (old(event) || old(free) == [])
      ensures mem[..] == old(mem[..])[rq - 2 := old(freeHead)]
    {
      var m := rq - 1;
      LinkedPush(mem[..], freeHead, free, rq - 2);
      mem[m - 1] := freeHead;
      freeHead := m;
      if mem[m - 1] == 0 {
        event := true;
      }
      free := [rq - 2] + free;
    }
  }

  // ------------------------------------------------------------------------- mf_memp.c

  /** Every block, the last carved first. */
  function CarvedDown(n: nat, words: nat): seq<nat> {
    if n == 0 then [] else [Header(n - 1, words)] + CarvedDown(n - 1, words)
  }

  lemma {:induction false} CarvedDownAt(n: nat, words: nat, i: nat)
    requires i < n
    ensures |CarvedDown(n, words)| == n && CarvedDown(n, words)[i] == (n - 1 - i) * words
  {
    if i > 0 {
      CarvedDownAt(n - 1, words, i - 1);
    } else if n > 1 {
      CarvedDownAt(n - 1, words, 0);
    }
  }

  lemma {:induction false} CarvedDownLength(n: nat, words: nat)
    ensures |CarvedDown(n, words)| == n
  {
    if n > 0 {
      CarvedDownLength(n - 1, words);
    }
  }

  /** One pool of mf_memp.c: `num` elements of `words` words each, header included. */
  class Memp {
    const mem: array<int>
    const num: nat
    const words: nat
    var tab: int
    ghost var free: seq<nat>

    ghost predicate Valid()
      reads this, mem
    {
      Linked(mem[..], tab, free) && forall i | 0 <= i < |free| :: free[i] in Headers(num, words)
    }

    /** The inner loop of mf_memp_init. */
    constructor (mem: array<int>, num: nat, words: nat)
      requires 0 < words && Header(num, words) <= mem.Length
      modifies mem
      ensures Valid() && this.mem == mem && this.num == num && this.words == words
      ensures free == CarvedDown(num, words)
      ensures |free| == num && forall i | 0 <= i < num :: free[i] == (num - 1 - i) * words
    {
      var head, memp, j := 0, 0, 0;
      ghost var list: seq<nat> := [];
      hide Header, Linked;
      HeaderSteps(0, num, words);
      NothingLinked(mem[..]);
      while j < num
        invariant 0 <= j <= num && memp == Header(j, words)
        invariant Linked(mem[..], head, list) && list == CarvedDown(j, words)
        invariant forall i | 0 <= i < |list| :: list[i] < memp && list[i] in Headers(num, words)
      {
        HeaderSteps(j, num, words);
        LinkedPush(mem[..], head, list, memp);
        assert Headers(num, words)[j] == memp;
        list := [memp] + list;
        mem[memp] := head;
        head := memp + 1;
        memp := memp + words;
        j := j + 1;
      }
      CarvedDownLength(num, words);
      forall i | 0 <= i < num ensures list[i] == (num - 1 - i) * words {
        CarvedDownAt(num, words, i);
      }
      this.mem, this.num, this.words, tab, free := mem, num, words, head, list;
    }

    /** mf_memp_alloc */
    method Alloc() returns (p: int)
      requires Valid()
      modifies this`tab, this`free
      ensures Valid()
      ensures old(free) == [] ==> p == 0 && free == []
      ensures old(free) != [] ==> free == old(free[1..]) && p == old(free[0]) + 2
    {
      p := 0;
      var memp := tab;
      if memp != 0 {
        LinkedTail(mem[..], tab, free);
        tab := mem[memp - 1];
        p := memp + 1;
        free := free[1..];
      }
    }

    /** mf_memp_free of an element in use; NULL is let through. */
    method Free(p: int)
      requires Valid()
      requires p != 0 ==> 2 <= p && p - 2 in Headers(num, words) && p - 2 !in free && p - 2 < mem.Length
      modifies this`tab, this`free, mem
      ensures Valid()
      ensures p == 0 ==> free == old(free) && mem[..] == old(mem[..])
      ensures p != 0 ==> free == [p - 2] + old(free) && mem[..] == old(mem[..])[p - 2 := old(tab)]
    {
      if p == 0 {
        return;
      }
      var memp := p - 1;
      LinkedPush(mem[..], tab, free, p - 2);
      mem[memp - 1] := tab;
      tab := memp;
      free := [p - 2] + free;
    }
  }

  lemma HeaderSteps(j: nat, num: nat, words: nat)
    requires j <= num && 0 < words
    ensures Header(0, words) == 0
    ensures Header(j + 1, words) == Header(j, words) + words
    ensures j < num ==> Header(j, words) + words <= Header(num, words)
  {
    if j < num {
      Monotone(j + 1, num, words);
    }
  }

  lemma NothingLinked(mem: seq<int>)
    ensures Linked(mem, 0, [])
  {
  }

  lemma Monotone(a: nat, b: nat, words: nat)
    requires a <= b
    ensures a * words <= b * words
  {
    assert b * words == a * words + (b - a) * words;
  }

  /** No header write touches a word of any block's payload. */
  lemma {:induction false} PayloadIsNoHeader(j: nat, k: nat, n: nat, words: nat)
    requires k + 1 < words
    ensures j * words + 1 + k !in Headers(n, words)
  {
    forall i | 0 <= i < n ensures Headers(n, words)[i] != j * words + 1 + k {
      HeaderApart(i, j, k, words);
    }
  }

  lemma HeaderApart(i: nat, j: nat, k: nat, words: nat)
    requires k + 1 < words
    ensures i * words != j * words + 1 + k
  {
    if i <= j {
      Monotone(i, j, words);
    } else {
      Monotone(j + 1, i, words);
      assert (j + 1) * words == j * words + words;
    }
  }
}
