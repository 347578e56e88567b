/** The boundary-tag heap of mreqb.c without its bytes: a row of chunks between the
    two ends of the pool, the chunks handed out, and the order of the free list.
    Positions and payload sizes count 4-byte words; a chunk at word c has a two-word
    header and its payload starts at c + 2. */
module Tiling {
  import opened Basics

  /** `end` is the position of the tail sentinel's header. */
  datatype Heap = Heap(end: nat, size: map<nat, nat>, live: set<nat>, free: seq<nat>)

  function Next(size: map<nat, nat>, c: nat): nat
    requires c in size
  {
    c + 2 + size[c]
  }

  /** The chunks cover [0, end) without gap or overlap, each with a payload that can
      hold a list node. */
  ghost predicate Tiled(end: nat, size: map<nat, nat>) {
    && 0 in size
    && (forall c {:trigger Next(size, c)} | c in size ::
          size[c] >= 2 && (Next(size, c) == end || (Next(size, c) < end && Next(size, c) in size)))
    && (forall c, d {:trigger Next(size, c), d in size} | c in size && d in size && c < d ::
          Next(size, c) <= d)
  }

  ghost predicate Distinct<T>(s: seq<T>) {
    forall i, j | 0 <= i < j < |s| :: s[i] != s[j]
  }

  /** The free list holds exactly the chunks that are not live, each once. */
  ghost predicate FreeList(size: map<nat, nat>, live: set<nat>, free: seq<nat>) {
    && live <= size.Keys
    && Distinct(free)
    && (forall c :: c in free <==> c in size && c !in live)
  }

  /** No two free chunks touch. */
  ghost predicate Coalesced(size: map<nat, nat>, live: set<nat>) {
    forall c {:trigger Next(size, c)} | c in size && c !in live :: Next(size, c) in size ==> Next(size, c) in live
  }

  ghost predicate WellFormed(h: Heap) {
    && Tiled(h.end, h.size)
    && FreeList(h.size, h.live, h.free)
    && Coalesced(h.size, h.live)
  }

  /** The heap that pool creation leaves: one free chunk. */
  function Fresh(end: nat): (h: Heap)
    requires end >= 4
    ensures WellFormed(h)
  {
    assert [0][0] == 0;
    Heap(end, map[0 := end - 2], {}, [0])
  }

  /** Chunk c and the chunk behind it become one. */
  function Merge(size: map<nat, nat>, c: nat): map<nat, nat>
    requires c in size && Next(size, c) in size
  {
    var n := Next(size, c);
    (size - {n})[c := size[c] + size[n] + 2]
  }

  /** Chunk c keeps `need` words; the rest becomes a chunk of its own. */
  function Split(size: map<nat, nat>, c: nat, need: nat): map<nat, nat>
    requires c in size && need + 2 <= size[c]
  {
    size[c := need][c + 2 + need := size[c] - need - 2]
  }

  /** Index of the first chunk on the free list from index i on that can hold `need`
      words; the length of the list when there is none. */
  function FirstFit(h: Heap, need: nat, i: nat := 0): (k: nat)
    requires forall c | c in h.free :: c in h.size
    requires i <= |h.free|
    ensures i <= k <= |h.free|
    ensures forall j | i <= j < k :: h.size[h.free[j]] < need
    ensures k < |h.free| ==> h.size[h.free[k]] >= need
    decreases |h.free| - i
  {
    if i == |h.free| || h.size[h.free[i]] >= need then i else FirstFit(h, need, i + 1)
  }

  /** Hand out the free chunk at index k of the free list, split when what is left
      over can be a chunk of its own. */
  function TakeAt(h: Heap, need: nat, k: nat): (r: Heap)
    requires k < |h.free| && h.free[k] in h.size && need <= h.size[h.free[k]]
  {
    var c := h.free[k];
    if h.size[c] - need < 4 then
      h.(live := h.live + {c}, free := Without(h.free, k))
    else
      Heap(h.end, Split(h.size, c, need), h.live + {c}, Without(h.free, k) + [c + 2 + need])
  }

  /** First-fit allocation: the chunk handed out and the new heap, or None. */
  function Alloc(h: Heap, need: nat): (r: Option<(nat, Heap)>)
    requires forall c | c in h.free :: c in h.size
  {
    var k := FirstFit(h, need);
    if k == |h.free| then None else Some((h.free[k], TakeAt(h, need, k)))
  }

  function IndexOf(s: seq<nat>, x: nat): (i: nat)
    requires x in s
    ensures i < |s| && s[i] == x
  {
    if s[0] == x then 0 else 1 + IndexOf(s[1..], x)
  }

  /** Take the chunk behind c off the free list and merge it into c, if it is free. */
  function Absorb(h: Heap, c: nat): (r: Heap)
    requires c in h.size
    ensures c in r.size
  {
    var n := Next(h.size, c);
    if n in h.free && n in h.size then
      h.(size := Merge(h.size, c), free := Without(h.free, IndexOf(h.free, n)))
    else
      h
  }

  ghost predicate FreeBefore(h: Heap, c: nat, p: nat) {
    p in h.size && p in h.free && Next(h.size, p) == c
  }

  /** The free chunk that stops where c starts, if there is one. */
  ghost function Before(h: Heap, c: nat): (r: Option<nat>)
    ensures r.Some? ==> FreeBefore(h, c, r.value)
    ensures r.None? ==> forall p :: !FreeBefore(h, c, p)
  {
    if exists p :: FreeBefore(h, c, p) then
      var p :| FreeBefore(h, c, p); Some(p)
    else
      None
  }

  /** Give chunk c back, merging it with its free neighbours on both sides. */
  ghost function Free(h: Heap, c: nat): (r: Heap)
    requires c in h.size
  {
    var a := Absorb(h, c);
    match Before(a, c)
    case Some(p) => a.(size := Merge(a.size, p), live := a.live - {c})
    case None => a.(live := a.live - {c}, free := a.free + [c])
  }

  // ---------------------------------------------------------------- geometry

  lemma MergeTiled(end: nat, size: map<nat, nat>, c: nat)
    requires Tiled(end, size) && c in size && Next(size, c) in size
    ensures Tiled(end, Merge(size, c))
    ensures Next(Merge(size, c), c) == Next(size, Next(size, c))
  {
    var n := Next(size, c);
    var m := Merge(size, c);
    assert c < n < Next(size, n);
    forall d | d in m
      ensures m[d] >= 2 && (Next(m, d) == end || (Next(m, d) < end && Next(m, d) in m))
    {
      if d != c {
        assert d != n && Next(m, d) == Next(size, d);
        assert Next(size, d) != n by {
          if d < c { assert Next(size, d) <= c; } else { assert Next(size, c) <= d; }
        }
      }
    }
    forall d, e | d in m && e in m && d < e ensures Next(m, d) <= e {
      if d == c {
        assert Next(size, c) <= e;
        assert Next(size, n) <= e;
      } else {
        assert Next(m, d) == Next(size, d);
      }
    }
  }

  lemma SplitTiled(end: nat, size: map<nat, nat>, c: nat, need: nat)
    requires Tiled(end, size) && c in size && need >= 2 && need + 4 <= size[c]
    ensures Tiled(end, Split(size, c, need))
    ensures c + 2 + need !in size
    ensures Next(Split(size, c, need), c + 2 + need) == Next(size, c)
  {
    var s := c + 2 + need;
    var m := Split(size, c, need);
    assert c < s < Next(size, c);
    assert s !in size;
    assert Next(m, s) == Next(size, c) && Next(m, c) == s;
    forall d | d in m
      ensures m[d] >= 2 && (Next(m, d) == end || (Next(m, d) < end && Next(m, d) in m))
    {
      if d != c && d != s {
        assert Next(m, d) == Next(size, d);
      }
    }
    forall d, e | d in m && e in m && d < e ensures Next(m, d) <= e {
      if d != c && d != s {
        assert Next(m, d) == Next(size, d);
        if e == s {
          assert d < c;
          assert Next(size, d) <= c;
        }
      } else if e != s {
        assert Next(size, c) <= e;
      }
    }
  }

  /** Whatever starts a chunk other than the first is where another chunk stops. */
  lemma Predecessor(end: nat, size: map<nat, nat>, c: nat, from: nat := 0) returns (p: nat)
    requires Tiled(end, size) && c in size && from in size && from < c
    ensures p in size && Next(size, p) == c
    decreases c - from
  {
    p := from;
    if Next(size, from) != c {
      assert Next(size, from) <= c < Next(size, c);
      p := Predecessor(end, size, c, Next(size, from));
    }
  }

  // ---------------------------------------------------------- single operations

  lemma WithoutElements(s: seq<nat>, i: nat)
    requires i < |s| && Distinct(s)
    ensures Distinct(Without(s, i))
    ensures forall x :: x in Without(s, i) <==> x in s && x != s[i]
  {
    var r := Without(s, i);
    assert forall j | 0 <= j < |r| :: r[j] == if j < i then s[j] else s[j + 1];
    forall x | x in r ensures x in s && x != s[i] {
      var j :| 0 <= j < |r| && r[j] == x;
      assert x == s[if j < i then j else j + 1];
    }
    forall x | x in s && x != s[i] ensures x in r {
      var j :| 0 <= j < |s| && s[j] == x;
      assert r[if j < i then j else j - 1] == x;
    }
  }

  lemma AppendElements(s: seq<nat>, x: nat)
    requires Distinct(s) && x !in s
    ensures Distinct(s + [x])
    ensures forall y :: y in s + [x] <==> y in s || y == x
  {
  }

  /** An allocation fails exactly when no free chunk is large enough; otherwise it
      hands out a formerly free chunk of at least the size asked for and at most
      three words (12 bytes) more, disturbs no other live chunk, and keeps the heap
      well formed. */
  lemma AllocOutcome(h: Heap, need: nat)
    requires WellFormed(h) && need >= 2
    ensures Alloc(h, need).None? <==> forall c | c in h.size && c !in h.live :: h.size[c] < need
    ensures Alloc(h, need).Some? ==>
              var (c, r) := Alloc(h, need).value;
              && WellFormed(r) && r.end == h.end
              && c in h.size && c !in h.live && r.live == h.live + {c}
              && c in r.size && need <= r.size[c] <= need + 3
              && forall d | d in h.live :: d in r.size && r.size[d] == h.size[d]
  {
    var k := FirstFit(h, need);
    if k == |h.free| {
      forall c | c in h.size && c !in h.live ensures h.size[c] < need {
        assert c in h.free;
        assert h.size[h.free[IndexOf(h.free, c)]] < need;
      }
    } else {
      TakeWellFormed(h, need, k);
    }
  }

  lemma TakeWellFormed(h: Heap, need: nat, k: nat)
    requires WellFormed(h) && need >= 2 && k < |h.free| && need <= h.size[h.free[k]]
    ensures WellFormed(TakeAt(h, need, k))
    ensures forall d | d in h.live :: d in TakeAt(h, need, k).size && TakeAt(h, need, k).size[d] == h.size[d]
  {
    var c := h.free[k];
    assert c in h.free;
    WithoutElements(h.free, k);
    if h.size[c] - need >= 4 {
      SplitTiled(h.end, h.size, c, need);
      AppendElements(Without(h.free, k), c + 2 + need);
      SplitCoalesced(h, need, c);
    }
  }

  lemma SplitCoalesced(h: Heap, need: nat, c: nat)
    requires WellFormed(h) && need >= 2 && c in h.size && c !in h.live && need + 4 <= h.size[c]
    ensures Coalesced(Split(h.size, c, need), h.live + {c})
  {
    SplitTiled(h.end, h.size, c, need);
    assert Next(h.size, c) in h.size ==> Next(h.size, c) in h.live;
    var s, size := c + 2 + need, Split(h.size, c, need);
    forall d | d in size && d !in h.live + {c} && Next(size, d) in size ensures Next(size, d) in h.live + {c} {
      if d != s {
        assert Next(size, d) == Next(h.size, d);
        assert Next(h.size, d) == h.end || Next(h.size, d) in h.size;
      }
    }
  }

  /** Which chunk an allocation hands out, and what becomes of the free list: the first chunk on
      it that is large enough, cut to size when four words or more are left over; the others
      keep their order, and what was cut off joins them at the end. */
  lemma AllocTakesFirst(h: Heap, need: nat) returns (k: nat)
    requires WellFormed(h) && Alloc(h, need).Some?
    ensures k < |h.free| && (forall j | 0 <= j <= k :: h.free[j] in h.size)
    ensures (forall j | 0 <= j < k :: h.size[h.free[j]] < need) && h.size[h.free[k]] >= need
    ensures var (c, r) := Alloc(h, need).value;
            && c == h.free[k] && c in r.size
            && (h.size[c] < need + 4 ==> r.size == h.size && r.free == h.free[..k] + h.free[k + 1..])
            && (h.size[c] >= need + 4 ==>
                  && r.size[c] == need && c + 2 + need in r.size && r.size[c + 2 + need] == h.size[c] - need - 2
                  && r.free == h.free[..k] + h.free[k + 1..] + [c + 2 + need])
  {
    k := FirstFit(h, need);
    assert forall j | 0 <= j < |h.free| :: h.free[j] in h.free;
  }

  /** What becomes of the free list when a chunk is given back: its free successor leaves it;
      the chunk joins it at the end unless it has a free predecessor, which stays where it is;
      the others keep their order. */
  lemma FreeListOrder(h: Heap, c: nat) returns (kept: seq<nat>)
    requires WellFormed(h) && c in h.live
    ensures var n := c + 2 + h.size[c];
            && (n !in h.free ==> kept == h.free)
            && (n in h.free ==>
                  exists i :: 0 <= i < |h.free| && h.free[i] == n && kept == h.free[..i] + h.free[i + 1..])
    ensures (forall p | p in h.free :: p in h.size)
    ensures (forall p | p in h.free :: p + 2 + h.size[p] != c) ==> Free(h, c).free == kept + [c]
    ensures (exists p :: p in h.free && p + 2 + h.size[p] == c) ==> Free(h, c).free == kept
  {
    kept := Absorb(h, c).free;
    if c + 2 + h.size[c] in h.free {
      var i := IndexOf(h.free, c + 2 + h.size[c]);
      assert h.free[i] == c + 2 + h.size[c] && kept == h.free[..i] + h.free[i + 1..];
    }
    BeforeIs(h, c);
    hide WellFormed, FreeBefore, Absorb;
  }

  lemma BeforeIs(h: Heap, c: nat)
    requires WellFormed(h) && c in h.live
    ensures forall p | p in h.free :: p in h.size
    ensures Before(Absorb(h, c), c).Some? <==> exists p :: p in h.free && p + 2 + h.size[p] == c
  {
    AbsorbOutcome(h, c);
    hide Absorb;
    var b := Before(Absorb(h, c), c);
    if b.Some? {
      assert FreeBefore(h, c, b.value);
    } else {
      forall p | p in h.free ensures p + 2 + h.size[p] != c {
        assert !FreeBefore(h, c, p);
      }
    }
  }

  /** Freeing a live chunk keeps the heap well formed, makes that chunk and no other
      not live, and disturbs no other live chunk. */
  lemma {:induction false} FreeOutcome(h: Heap, c: nat)
    requires WellFormed(h) && c in h.live
    ensures WellFormed(Free(h, c)) && Free(h, c).end == h.end
    ensures Free(h, c).live == h.live - {c}
    ensures forall d | d in h.live && d != c :: d in Free(h, c).size && Free(h, c).size[d] == h.size[d]
  {
    AbsorbOutcome(h, c);
    var a := Absorb(h, c);
    match Before(a, c)
    case Some(p) => MergeBefore(a, c, p);
    case None =>
      AppendElements(a.free, c);
      forall d | d in a.size && d !in a.live ensures Next(a.size, d) != c {
        assert d in a.free && !FreeBefore(a, c, d);
      }
  }

  lemma MergeBefore(a: Heap, c: nat, p: nat)
    requires WellFormed(a) && c in a.live && FreeBefore(a, c, p)
    requires Next(a.size, c) in a.size ==> Next(a.size, c) in a.live
    ensures var r := a.(size := Merge(a.size, p), live := a.live - {c});
            && WellFormed(r)
            && forall d | d in a.live && d != c :: d in r.size && r.size[d] == a.size[d]
  {
    MergeTiled(a.end, a.size, p);
    var size, live := Merge(a.size, p), a.live - {c};
    assert Next(size, p) == Next(a.size, c) != c;
    forall d | d in size && d !in live && Next(size, d) in size ensures Next(size, d) in live {
      if d != p {
        assert Next(size, d) == Next(a.size, d);
        assert Next(a.size, d) != c by {
          if d < p { assert Next(a.size, d) <= p; } else { assert Next(a.size, p) <= d; }
        }
      }
    }
  }

  lemma AbsorbOutcome(h: Heap, c: nat)
    requires WellFormed(h) && c in h.live
    ensures var a := Absorb(h, c);
            && WellFormed(a) && a.end == h.end && a.live == h.live && c in a.size
            && (Next(a.size, c) in a.size ==> Next(a.size, c) in a.live)
            && (forall d | d in h.live && d != c :: d in a.size && a.size[d] == h.size[d])
            && (forall p :: FreeBefore(h, c, p) <==> FreeBefore(a, c, p))
  {
    var n := Next(h.size, c);
    var a := Absorb(h, c);
    if n in h.free {
      MergeTiled(h.end, h.size, c);
      WithoutElements(h.free, IndexOf(h.free, n));
      assert Next(a.size, c) == Next(h.size, n);
      forall d | d in a.size && d !in a.live && Next(a.size, d) in a.size ensures Next(a.size, d) in a.live {
        assert d != c && Next(h.size, d) == Next(a.size, d);
      }
    }
  }

  // ------------------------------------------------------------------ whole runs

  /** With nothing live, what is left is the single chunk that creation made. */
  lemma NothingLive(h: Heap)
    requires WellFormed(h) && h.live == {}
    ensures h.end >= 4 && h == Fresh(h.end)
  {
    assert Next(h.size, 0) == h.end;
    forall c | c in h.size ensures c == 0 {
      assert c < Next(h.size, c);
    }
    assert h.size == map[0 := h.end - 2];
    assert 0 in h.free;
    var last := |h.free| - 1;
    assert h.free[0] in h.free && h.free[last] in h.free;
    assert h.free[0] == h.free[last];
  }

  /** What a client of the pool can do; freeing a chunk it does not hold is not among
      the things the source provides for, so such a step is skipped. */
  datatype Op = Get(need: nat) | Put(c: nat)

  ghost function Run(h: Heap, ops: seq<Op>): (r: Heap)
    requires WellFormed(h) && forall i | 0 <= i < |ops| :: ops[i].Get? ==> ops[i].need >= 2
    ensures WellFormed(r) && r.end == h.end
  {
    if ops == [] then h
    else
      var g := Run(h, ops[..|ops| - 1]);
      match ops[|ops| - 1]
      case Get(need) =>
        AllocOutcome(g, need);
        var a := Alloc(g, need);
        if a.Some? then a.value.1 else g
      case Put(c) =>
        if c in g.live then FreeOutcome(g, c); Free(g, c) else g
  }

  ghost function FreeAll(h: Heap, cs: seq<nat>): (r: Heap)
    requires WellFormed(h) && Distinct(cs) && forall c | c in cs :: c in h.live
    ensures WellFormed(r) && r.end == h.end && r.live == h.live - (set c | c in cs)
    decreases |cs|
  {
    if cs == [] then h
    else
      FreeOutcome(h, cs[0]);
      assert forall c | c in cs[1..] :: c in cs && c != cs[0];
      FreeAll(Free(h, cs[0]), cs[1..])
  }

  /** After any run whatever, giving back every live chunk in any order leaves the
      heap exactly as creation made it: one free chunk of the original size. */
  lemma {:induction false} EverythingReturned(end: nat, ops: seq<Op>, cs: seq<nat>)
    requires end >= 4 && forall i | 0 <= i < |ops| :: ops[i].Get? ==> ops[i].need >= 2
    requires Distinct(cs) && forall c :: c in cs <==> c in Run(Fresh(end), ops).live
    ensures FreeAll(Run(Fresh(end), ops), cs) == Fresh(end)
  {
    NothingLive(FreeAll(Run(Fresh(end), ops), cs));
  }

  /** In any well-formed heap the payloads of two live chunks share no word, and each
      lies inside the pool. */
  lemma LiveDisjoint(h: Heap, c: nat, d: nat, w: nat)
    requires WellFormed(h) && c in h.live && d in h.live && c != d
    requires c + 2 <= w < c + 2 + h.size[c]
    ensures w < h.end
    ensures !(d <= w < d + 2 + h.size[d])
  {
    assert Next(h.size, c) <= h.end;
    if c < d { assert Next(h.size, c) <= d; } else { assert Next(h.size, d) <= c; }
  }

  /** Allocating and at once giving back restores every chunk boundary and the set of
      live chunks; only the place of the chunk on the free list changes, to the end. */
  lemma {:induction false} AllocThenFree(h: Heap, need: nat)
    requires WellFormed(h) && need >= 2 && Alloc(h, need).Some?
    ensures var (c, r) := Alloc(h, need).value;
            && c in r.size
            && Free(r, c) == h.(free := Without(h.free, FirstFit(h, need)) + [c])
  {
    var (c, r) := Alloc(h, need).value;
    var k := FirstFit(h, need);
    assert c in h.free && Next(h.size, c) == c + 2 + h.size[c];
    AllocOutcome(h, need);
    WithoutElements(h.free, k);
    AbsorbUndoesTake(h, need, k);
    var a := Absorb(r, c);
    forall p | p in a.free && p in a.size ensures Next(a.size, p) != c {
      assert p in h.size && p !in h.live;
    }
    assert a.live - {c} == h.live;
  }

  lemma TakeLast(s: seq<nat>, x: nat)
    requires x !in s
    ensures IndexOf(s + [x], x) == |s|
    ensures Without(s + [x], |s|) == s
  {
    var i := IndexOf(s + [x], x);
    assert (s + [x])[i] == x;
    forall j | 0 <= j < |s| ensures s[j] != x { assert s[j] in s; }
  }

  lemma MergeSplit(end: nat, size: map<nat, nat>, c: nat, need: nat)
    requires Tiled(end, size) && c in size && need >= 2 && need + 4 <= size[c]
    ensures Next(Split(size, c, need), c) == c + 2 + need
    ensures Merge(Split(size, c, need), c) == size
  {
    SplitTiled(end, size, c, need);
    var m := Merge(Split(size, c, need), c);
    assert m.Keys == size.Keys;
  }

  lemma AbsorbUndoesTake(h: Heap, need: nat, k: nat)
    requires WellFormed(h) && need >= 2 && k < |h.free| && need <= h.size[h.free[k]]
    requires WellFormed(TakeAt(h, need, k))
    ensures Absorb(TakeAt(h, need, k), h.free[k]) == Heap(h.end, h.size, h.live + {h.free[k]}, Without(h.free, k))
  {
    var c := h.free[k];
    var r := TakeAt(h, need, k);
    assert c in h.free;
    WithoutElements(h.free, k);
    if h.size[c] - need >= 4 {
      SplitTiled(h.end, h.size, c, need);
      MergeSplit(h.end, h.size, c, need);
      TakeLast(Without(h.free, k), c + 2 + need);
    } else {
      assert Next(r.size, c) == Next(h.size, c);
    }
  }
}
