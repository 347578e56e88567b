/** The in-band form of the boundary-tag heap: headers with a used bit in the low bits
    of the size word, and a circular doubly linked free list threaded through the
    payloads of the free chunks. Addresses count 4-byte words from the aligned start of
    the pool; sizes in headers are bytes, as in the source. Address 0 can never be a
    list node and stands for the list head, which lives outside the pool. */
module EdataPool {
  import opened Basics
  import opened Tiling

  type Word = x: int | 0 <= x < 0x1_0000_0000

  /** The pool's words together with `free_list.next` and `free_list.prev`. */
  datatype Store = Store(m: seq<Word>, first: Word, last: Word)

  // ------------------------------------------------------------ representation

  function NodeAt(f: seq<nat>, i: int): int {
    if 0 <= i < |f| then f[i] + 2 else 0
  }

  ghost predicate Spaced(f: seq<nat>) {
    forall i, j | 0 <= i < j < |f| :: f[i] + 2 <= f[j] || f[j] + 2 <= f[i]
  }

  ghost predicate LinkAt(m: seq<Word>, f: seq<nat>, i: nat)
    requires i < |f|
  {
    f[i] + 3 < |m| && m[f[i] + 2] == NodeAt(f, i + 1) && m[f[i] + 3] == NodeAt(f, i - 1)
  }

  ghost predicate Links(st: Store, f: seq<nat>) {
    && st.first == NodeAt(f, 0)
    && st.last == NodeAt(f, |f| - 1)
    && forall i {:trigger LinkAt(st.m, f, i)} | 0 <= i < |f| :: LinkAt(st.m, f, i)
  }

  function Tag(used: set<nat>, c: nat): nat {
    if c in used then 1 else 0
  }

  /** The size word of chunk c, with its used bit, and its copy behind the payload. */
  ghost predicate HeaderAt(m: seq<Word>, end: nat, size: map<nat, nat>, used: set<nat>, c: nat)
    requires |m| == end + 2 && c in size
  {
    Next(size, c) <= end && m[c + 1] == 4 * size[c] + Tag(used, c) && m[Next(size, c)] == m[c + 1]
  }

  ghost predicate Headers(m: seq<Word>, end: nat, size: map<nat, nat>, used: set<nat>) {
    && |m| == end + 2
    && m[0] == 1 && m[end + 1] == 1
    && forall c {:trigger Next(size, c)} | c in size :: HeaderAt(m, end, size, used, c)
  }

  lemma HeadersFrom(m: seq<Word>, end: nat, size: map<nat, nat>, used: set<nat>)
    requires |m| == end + 2 && m[0] == 1 && m[end + 1] == 1
    requires forall c | c in size :: HeaderAt(m, end, size, used, c)
    ensures Headers(m, end, size, used)
  {
    hide HeaderAt;
  }

  ghost predicate Represents(st: Store, h: Heap) {
    && WellFormed(h)
    && Headers(st.m, h.end, h.size, h.live)
    && Links(st, h.free)
  }

  /** k is not one of the two words of a node on the list. */
  ghost predicate OffList(f: seq<nat>, k: nat) {
    forall j | 0 <= j < |f| :: k != f[j] + 2 && k != f[j] + 3
  }

  // --------------------------------------------------------- list.h on the words

  function WithNext(st: Store, a: nat, v: Word): Store
    requires a < |st.m|
  {
    if a == 0 then st.(first := v) else st.(m := st.m[a := v])
  }

  function WithPrev(st: Store, a: nat, v: Word): Store
    requires a + 1 < |st.m|
  {
    if a == 0 then st.(last := v) else st.(m := st.m[a + 1 := v])
  }

  ghost predicate IsNode(st: Store, a: nat) {
    && 0 < a && a + 1 < |st.m|
    && st.m[a] + 1 < |st.m| && st.m[a + 1] + 1 < |st.m|
  }

  /** list_del */
  ghost function Unlink(st: Store, a: nat): Store
    requires IsNode(st, a)
  {
    WithPrev(WithNext(st, st.m[a + 1], st.m[a]), st.m[a], st.m[a + 1])
  }

  /** list_add_tail on the free list */
  ghost function LinkLast(st: Store, a: Word): Store
    requires 0 < a && a + 1 < |st.m| && st.last + 1 < |st.m|
  {
    WithNext(Store(st.m[a := 0][a + 1 := st.last], st.first, a), st.last, a)
  }

  /** set_chunk_size */
  ghost function SetSize(m: seq<Word>, c: nat, v: Word): (r: seq<Word>)
    requires c + 2 + v / 4 < |m|
    ensures |r| == |m|
  {
    m[c + 1 := v][c + 2 + v / 4 := v]
  }

  /** The nodes of a list do not overlap, so two of them are at the same place only if
      they are the same node. */
  lemma NodesApart(f: seq<nat>, i: nat, j: int)
    requires Spaced(f) && i < |f|
    ensures NodeAt(f, j) == f[i] + 2 <==> i == j
    ensures NodeAt(f, j) != f[i] + 1 && NodeAt(f, j) != f[i] + 3
  {
    if 0 <= j < |f| {
      if i < j { assert f[i] + 2 <= f[j] || f[j] + 2 <= f[i]; }
      if j < i { assert f[j] + 2 <= f[i] || f[i] + 2 <= f[j]; }
    }
  }

  /** list_del rewrites one word of each neighbour, or of the head, and nothing else. */
  lemma UnlinkWords(st: Store, f: seq<nat>, i: nat)
    requires Links(st, f) && i < |f|
    ensures IsNode(st, f[i] + 2)
    ensures var r, p, n := Unlink(st, f[i] + 2), NodeAt(f, i - 1), NodeAt(f, i + 1);
            && |r.m| == |st.m|
            && r.first == (if p == 0 then n else st.first) && r.last == (if n == 0 then p else st.last)
            && forall k: nat | k < |st.m| ::
                 r.m[k] == if k == n + 1 && n != 0 then p else if k == p && p != 0 then n else st.m[k]
  {
    assert LinkAt(st.m, f, i);
    assert i > 0 ==> LinkAt(st.m, f, i - 1);
    assert i + 1 < |f| ==> LinkAt(st.m, f, i + 1);
  }

  lemma UnlinkLinks(st: Store, f: seq<nat>, i: nat)
    requires Links(st, f) && Spaced(f) && i < |f|
    ensures IsNode(st, f[i] + 2)
    ensures Links(Unlink(st, f[i] + 2), Without(f, i))
  {
    var g := Without(f, i);
    UnlinkWords(st, f, i);
    var r := Unlink(st, f[i] + 2);
    forall j | 0 <= j < |g| ensures LinkAt(r.m, g, j) {
      UnlinkOther(st, f, i, if j < i then j else j + 1);
    }
  }

  lemma UnlinkOther(st: Store, f: seq<nat>, i: nat, o: nat)
    requires Links(st, f) && Spaced(f) && i < |f| && o < |f| && o != i
    requires IsNode(st, f[i] + 2)
    ensures LinkAt(Unlink(st, f[i] + 2).m, Without(f, i), if o < i then o else o - 1)
  {
    UnlinkWords(st, f, i);
    assert LinkAt(st.m, f, o);
    hide Links, Unlink, IsNode;
    NodesApart(f, o, i - 1);
    NodesApart(f, o, i + 1);
  }

  lemma LinkLastLinks(st: Store, f: seq<nat>, c: nat)
    requires Links(st, f) && Spaced(f + [c]) && c + 3 < |st.m| <= 0x1_0000_0000
    ensures st.last + 1 < |st.m|
    ensures Links(LinkLast(st, c + 2), f + [c])
    ensures |LinkLast(st, c + 2).m| == |st.m|
    ensures forall k: nat | k < |st.m| && OffList(f, k) && k != c + 2 && k != c + 3 ::
              LinkLast(st, c + 2).m[k] == st.m[k]
  {
    var g := f + [c];
    var p := NodeAt(f, |f| - 1);
    assert |f| > 0 ==> LinkAt(st.m, f, |f| - 1);
    var r := LinkLast(st, c + 2);
    assert p == NodeAt(g, |f| - 1) && g[|f|] == c;
    NodesApart(g, |f|, |f| - 1);
    forall j | 0 <= j < |g| ensures LinkAt(r.m, g, j) {
      if j < |f| {
        assert g[j] == f[j] && LinkAt(st.m, f, j);
        NodesApart(g, j, |f| - 1);
        NodesApart(g, j, |f|);
      }
    }
  }

  // ------------------------------------------------------------------- headers

  ghost predicate HeaderWord(end: nat, size: map<nat, nat>, k: nat) {
    k == end || k == end + 1 || k in size || (k > 0 && k - 1 in size)
  }

  /** The payload of c holds no header word. */
  lemma PayloadNotHeader(end: nat, size: map<nat, nat>, c: nat, w: nat)
    requires Tiled(end, size) && c in size && c + 2 <= w < Next(size, c)
    ensures !HeaderWord(end, size, w) && w < end
  {
    assert w in size ==> c < w;
    assert w - 1 in size ==> c < w - 1;
  }

  /** Two chunks, and so their headers, are at least four words apart. */
  lemma ChunksApart(end: nat, size: map<nat, nat>, c: nat, d: nat)
    requires Tiled(end, size) && c in size && d in size && c != d
    ensures c + 4 <= d || d + 4 <= c
    ensures Next(size, c) != Next(size, d)
    ensures Next(size, c) != d + 1 && Next(size, d) != c + 1
    ensures c + 4 <= end && d + 4 <= end
    ensures Next(size, c) >= c + 4 && Next(size, d) >= d + 4
  {
    assert Next(size, c) >= c + 4 && Next(size, d) >= d + 4;
    if c < d { assert Next(size, c) <= d; } else { assert Next(size, d) <= c; }
  }

  lemma HeadersFrame(m: seq<Word>, m': seq<Word>, end: nat, size: map<nat, nat>, used: set<nat>)
    requires Tiled(end, size) && Headers(m, end, size, used) && |m'| == |m|
    requires forall k: nat | k < |m| && HeaderWord(end, size, k) :: m'[k] == m[k]
    ensures Headers(m', end, size, used)
  {
    assert HeaderWord(end, size, 0);
    assert HeaderWord(end, size, end + 1);
    forall c | c in size
      ensures Next(size, c) <= end && m'[c + 1] == 4 * size[c] + Tag(used, c) && m'[Next(size, c)] == m'[c + 1]
    {
      assert Next(size, c) <= end;
      assert HeaderWord(end, size, c + 1) && HeaderWord(end, size, Next(size, c));
    }
  }

  lemma NodesInFreePayloads(h: Heap, k: nat)
    requires WellFormed(h)
    requires HeaderWord(h.end, h.size, k) || exists d :: InPayload(h.size, h.live, d, k)
    ensures OffList(h.free, k)
  {
    forall j | 0 <= j < |h.free| ensures k != h.free[j] + 2 && k != h.free[j] + 3 {
      var c := h.free[j];
      assert c in h.free && Next(h.size, c) >= c + 4;
      if HeaderWord(h.end, h.size, k) {
        if c + 2 <= k < Next(h.size, c) { PayloadNotHeader(h.end, h.size, c, k); assert false; }
      } else {
        var d :| InPayload(h.size, h.live, d, k);
        ChunksApart(h.end, h.size, c, d);
        if c < d { assert Next(h.size, c) <= d; } else { assert Next(h.size, d) <= c; }
      }
    }
  }

  /** w is a payload word of chunk d, one of `cs`. */
  ghost predicate InPayload(size: map<nat, nat>, cs: set<nat>, d: nat, w: nat) {
    d in cs && d in size && d + 2 <= w < Next(size, d)
  }

  lemma FreeSpaced(h: Heap)
    requires WellFormed(h)
    ensures Spaced(h.free)
  {
    forall i, j | 0 <= i < j < |h.free| ensures h.free[i] + 2 <= h.free[j] || h.free[j] + 2 <= h.free[i] {
      assert h.free[i] in h.free && h.free[j] in h.free;
      ChunksApart(h.end, h.size, h.free[i], h.free[j]);
    }
  }

  ghost function Marked(used: set<nat>, c: nat, tag: nat): set<nat> {
    if tag == 1 then used + {c} else used - {c}
  }

  /** set_chunk_size with an unchanged size sets or clears the used bit. */
  lemma MarkHeaders(m: seq<Word>, end: nat, size: map<nat, nat>, used: set<nat>, c: nat, v: Word, tag: nat)
    requires Tiled(end, size) && Headers(m, end, size, used) && c in size && tag < 2 && v == 4 * size[c] + tag
    ensures c + 2 + v / 4 < |m|
    ensures Headers(SetSize(m, c, v), end, size, Marked(used, c, tag))
  {
    var m', used' := SetSize(m, c, v), Marked(used, c, tag);
    assert Next(size, c) <= end && Next(size, c) >= c + 4;
    SentinelsStay(m, end, size, used, c, v);
    hide Tiled, Headers;
    forall d | d in size ensures HeaderAt(m', end, size, used', d) {
      MarkedHeader(m, end, size, used, c, v, tag, d);
    }
    HeadersFrom(m', end, size, used');
  }

  lemma MarkedHeader(m: seq<Word>, end: nat, size: map<nat, nat>, used: set<nat>, c: nat, v: Word, tag: nat, d: nat)
    requires Tiled(end, size) && Headers(m, end, size, used) && c in size && d in size
    requires tag < 2 && v == 4 * size[c] + tag
    requires c + 2 + v / 4 < |m|
    ensures |m| == end + 2 && HeaderAt(SetSize(m, c, v), end, size, Marked(used, c, tag), d)
  {
    assert Next(size, c) <= end && Next(size, d) >= d + 4 && Next(size, c) >= c + 4;
    if d != c { ChunksApart(end, size, c, d); }
  }

  /** set_chunk_size over a chunk and its successor merges the two. */
  lemma MergeHeaders(m: seq<Word>, end: nat, size: map<nat, nat>, used: set<nat>, c: nat, v: Word)
    requires Tiled(end, size) && Headers(m, end, size, used) && c in size && Next(size, c) in size
    requires v == 4 * (size[c] + size[Next(size, c)] + 2)
    ensures c + 2 + v / 4 < |m|
    ensures Headers(SetSize(m, c, v), end, Merge(size, c), used - {c})
  {
    var n := Next(size, c);
    assert Next(size, n) <= end && n >= c + 4 && Next(size, n) >= n + 4;
    var size', used', m' := Merge(size, c), used - {c}, SetSize(m, c, v);
    MergeTiled(end, size, c);
    assert HeaderAt(m', end, size', used', c);
    hide Tiled, Headers, HeaderAt, Merge, SetSize;
    forall d | d in size' ensures HeaderAt(m', end, size', used', d) {
      if d != c {
        MergedHeader(m, end, size, used, c, v, d);
      }
    }
    SentinelsStay(m, end, size, used, c, v);
    HeadersFrom(m', end, size', used');
  }

  lemma SentinelsStay(m: seq<Word>, end: nat, size: map<nat, nat>, used: set<nat>, c: nat, v: Word)
    requires Headers(m, end, size, used) && 4 <= c + 2 + v / 4 <= end && c < end
    ensures var m' := SetSize(m, c, v); |m'| == end + 2 && m'[0] == 1 && m'[end + 1] == 1
  {
  }

  lemma MergedHeader(m: seq<Word>, end: nat, size: map<nat, nat>, used: set<nat>, c: nat, v: Word, d: nat)
    requires Tiled(end, size) && Headers(m, end, size, used) && c in size && Next(size, c) in size
    requires v == 4 * (size[c] + size[Next(size, c)] + 2) && c + 2 + v / 4 < |m|
    requires d in Merge(size, c) && d != c
    ensures |m| == end + 2
    ensures HeaderAt(SetSize(m, c, v), end, Merge(size, c), used - {c}, d)
  {
    hide Tiled, SetSize, Headers;
    MergeHeaderAt(m, end, size, used, c, v, d);
    SameLengths(m, end, size, used);
  }

  lemma SameLengths(m: seq<Word>, end: nat, size: map<nat, nat>, used: set<nat>)
    requires Headers(m, end, size, used)
    ensures |m| == end + 2
  {
  }

  lemma MergeHeaderAt(m: seq<Word>, end: nat, size: map<nat, nat>, used: set<nat>, c: nat, v: Word, d: nat)
    requires Tiled(end, size) && Headers(m, end, size, used) && c in size && Next(size, c) in size
    requires c + 2 + v / 4 < |m| && c + 2 + v / 4 == Next(size, Next(size, c))
    requires d in size && d != c && d != Next(size, c)
    ensures Next(size, d) <= end && d + 1 < |m|
    ensures SetSize(m, c, v)[d + 1] == m[d + 1] == 4 * size[d] + Tag(used, d)
    ensures SetSize(m, c, v)[Next(size, d)] == m[Next(size, d)] == m[d + 1]
  {
    ChunksApart(end, size, c, d);
    ChunksApart(end, size, Next(size, c), d);
  }

  ghost predicate CutFits(m: seq<Word>, c: nat, need: nat, v: Word, w: Word) {
    c + 2 + v / 4 < |m| && c + 2 + need + 3 < |m| && c + 2 + need + 2 + w / 4 < |m|
  }

  /** The two set_chunk_size calls of a split: on the chunk, then on what is left. */
  ghost function CutWords(m: seq<Word>, c: nat, need: nat, v: Word, w: Word): (r: seq<Word>)
    requires CutFits(m, c, need, v, w)
    ensures |r| == |m|
  {
    SetSize(SetSize(m, c, v), c + 2 + need, w)
  }

  /** One word after the two calls. */
  lemma CutWord(m: seq<Word>, c: nat, need: nat, v: Word, w: Word, k: nat)
    requires CutFits(m, c, need, v, w) && v / 4 == need && need >= 2 && k < |m|
    ensures var s := c + 2 + need;
            CutWords(m, c, need, v, w)[k] ==
              if k == s + 1 || k == s + 2 + w / 4 then w else if k == c + 1 || k == s then v else m[k]
  {
  }

  /** A split leaves right headers. */
  lemma SplitHeaders(m: seq<Word>, end: nat, size: map<nat, nat>, used: set<nat>, c: nat, need: nat, v: Word, w: Word)
    requires Tiled(end, size) && Headers(m, end, size, used) && c in size && need >= 2 && need + 4 <= size[c]
    requires v == 4 * need + 1 && w == 4 * (size[c] - need - 2)
    ensures CutFits(m, c, need, v, w)
    ensures Headers(CutWords(m, c, need, v, w), end, Split(size, c, need), used + {c} - {c + 2 + need})
  {
    var s := c + 2 + need;
    SplitSentinels(m, end, size, used, c, need, v, w);
    var size', used' := Split(size, c, need), used + {c} - {s};
    var m' := CutWords(m, c, need, v, w);
    hide Tiled, CutWords, CutFits, Split, Headers, HeaderAt;
    forall d | d in size' ensures HeaderAt(m', end, size', used', d) {
      SplitHeaderAt(m, end, size, used, c, need, v, w, d);
    }
    HeadersFrom(m', end, size', used');
  }

  lemma SplitSentinels(m: seq<Word>, end: nat, size: map<nat, nat>, used: set<nat>, c: nat, need: nat, v: Word, w: Word)
    requires Headers(m, end, size, used) && c in size && need >= 2 && need + 4 <= size[c]
    requires v == 4 * need + 1 && w == 4 * (size[c] - need - 2)
    ensures CutFits(m, c, need, v, w) && |m| == end + 2
    ensures CutWords(m, c, need, v, w)[0] == 1 && CutWords(m, c, need, v, w)[end + 1] == 1
  {
    assert Next(size, c) <= end && v / 4 == need && w / 4 == size[c] - need - 2;
    hide CutWords;
    CutWord(m, c, need, v, w, 0);
    CutWord(m, c, need, v, w, end + 1);
  }

  lemma SplitHeaderAt(m: seq<Word>, end: nat, size: map<nat, nat>, used: set<nat>, c: nat, need: nat,
                      v: Word, w: Word, d: nat)
    requires Tiled(end, size) && Headers(m, end, size, used) && c in size && need >= 2 && need + 4 <= size[c]
    requires v == 4 * need + 1 && w == 4 * (size[c] - need - 2) && CutFits(m, c, need, v, w)
    requires d in Split(size, c, need)
    ensures |m| == end + 2
    ensures HeaderAt(CutWords(m, c, need, v, w), end, Split(size, c, need), used + {c} - {c + 2 + need}, d)
  {
    var s, size' := c + 2 + need, Split(size, c, need);
    assert v / 4 == need && w / 4 == size[c] - need - 2;
    assert Next(size, c) <= end;
    SplitTiled(end, size, c, need);
    if d != c && d != s {
      assert Next(size', d) == Next(size, d) <= end;
      ChunksApart(end, size, c, d);
      ChunksApart(end, size', s, d);
    }
    hide Tiled, CutWords;
    CutWord(m, c, need, v, w, d + 1);
    CutWord(m, c, need, v, w, Next(size', d));
  }

  // -------------------------------------------------- whole operations on the words

  lemma LinksFrame(st: Store, m': seq<Word>, f: seq<nat>)
    requires Links(st, f) && |m'| == |st.m|
    requires forall k: nat | k < |m'| && m'[k] != st.m[k] :: OffList(f, k)
    ensures Links(st.(m := m'), f)
  {
    forall i | 0 <= i < |f| ensures LinkAt(m', f, i) {
      assert LinkAt(st.m, f, i);
      assert !OffList(f, f[i] + 2) && !OffList(f, f[i] + 3);
    }
  }

  /** No payload word of the chunks `cs` differs between the two memories. */
  ghost predicate KeepsPayloads(m: seq<Word>, m': seq<Word>, size: map<nat, nat>, cs: set<nat>) {
    && |m'| == |m|
    && forall d: nat, w: nat {:trigger InPayload(size, cs, d, w)} |
         InPayload(size, cs, d, w) && w < |m| :: m'[w] == m[w]
  }

  lemma OffListShrinks(f: seq<nat>, i: nat, k: nat)
    requires i < |f| && OffList(f, k)
    ensures OffList(Without(f, i), k)
  {
    var g := Without(f, i);
    forall j | 0 <= j < |g| ensures k != g[j] + 2 && k != g[j] + 3 {
      assert g[j] == f[if j < i then j else j + 1];
    }
  }

  /** Taking a node off the free list changes no header word and no live payload. */
  lemma UnlinkFrame(st: Store, h: Heap, i: nat)
    requires WellFormed(h) && Links(st, h.free) && i < |h.free|
    ensures IsNode(st, h.free[i] + 2)
    ensures var r := Unlink(st, h.free[i] + 2);
            && Links(r, Without(h.free, i))
            && KeepsPayloads(st.m, r.m, h.size, h.live)
            && forall k: nat | k < |st.m| && HeaderWord(h.end, h.size, k) :: r.m[k] == st.m[k]
  {
    FreeSpaced(h);
    UnlinkLinks(st, h.free, i);
    UnlinkWords(st, h.free, i);
    var r := Unlink(st, h.free[i] + 2);
    forall k: nat | k < |st.m| && OffList(h.free, k) ensures r.m[k] == st.m[k] {
      assert i > 0 ==> k != h.free[i - 1] + 2;
      assert i + 1 < |h.free| ==> k != h.free[i + 1] + 3;
    }
    forall k: nat | k < |st.m| && HeaderWord(h.end, h.size, k) ensures r.m[k] == st.m[k] {
      NodesInFreePayloads(h, k);
    }
    forall d: nat, w: nat | InPayload(h.size, h.live, d, w) && w < |st.m| ensures r.m[w] == st.m[w] {
      NodesInFreePayloads(h, w);
    }
  }

  lemma UnlinkKeeps(st: Store, h: Heap, i: nat)
    requires Represents(st, h) && i < |h.free|
    ensures IsNode(st, h.free[i] + 2)
    ensures var r := Unlink(st, h.free[i] + 2);
            && Headers(r.m, h.end, h.size, h.live)
            && Links(r, Without(h.free, i))
            && KeepsPayloads(st.m, r.m, h.size, h.live)
  {
    UnlinkFrame(st, h, i);
    HeadersFrame(st.m, Unlink(st, h.free[i] + 2).m, h.end, h.size, h.live);
  }

  /** A word that is on neither the free list f nor any live payload of h. */
  ghost predicate Spare(h: Heap, f: seq<nat>, k: nat) {
    OffList(f, k) && forall d: nat :: !InPayload(h.size, h.live, d, k)
  }

  lemma HeaderIsSpare(h: Heap, k: nat)
    requires WellFormed(h) && HeaderWord(h.end, h.size, k)
    ensures Spare(h, h.free, k)
    ensures forall i: nat | i < |h.free| :: Spare(h, Without(h.free, i), k)
  {
    NodesInFreePayloads(h, k);
    forall d: nat ensures !InPayload(h.size, h.live, d, k) {
      if InPayload(h.size, h.live, d, k) { PayloadNotHeader(h.end, h.size, d, k); assert false; }
    }
    forall i: nat | i < |h.free| ensures OffList(Without(h.free, i), k) {
      OffListShrinks(h.free, i, k);
    }
  }

  /** The payload of a chunk taken off the free list is spare. */
  lemma TakenIsSpare(h: Heap, i: nat, k: nat)
    requires WellFormed(h) && i < |h.free| && h.free[i] + 2 <= k < h.free[i] + 2 + h.size[h.free[i]]
    ensures Spare(h, Without(h.free, i), k)
  {
    var c := h.free[i];
    assert c in h.free && Next(h.size, c) == c + 2 + h.size[c];
    WithoutElements(h.free, i);
    var g := Without(h.free, i);
    forall j | 0 <= j < |g| ensures k != g[j] + 2 && k != g[j] + 3 {
      assert g[j] in g;
      ChunksApart(h.end, h.size, c, g[j]);
      PayloadsApart(h, c, g[j]);
    }
    forall d: nat | d in h.live && d in h.size ensures !InPayload(h.size, h.live, d, k) {
      PayloadsApart(h, c, d);
    }
  }

  lemma PayloadsApart(h: Heap, c: nat, d: nat)
    requires WellFormed(h) && c in h.size && d in h.size && c != d
    ensures Next(h.size, c) <= d || Next(h.size, d) <= c
    ensures Next(h.size, c) >= c + 4 && Next(h.size, d) >= d + 4
  {
    if c < d { assert Next(h.size, c) <= d; } else { assert Next(h.size, d) <= c; }
  }

  /** set_chunk_size on two spare words keeps the list and the live payloads. */
  lemma SetSizeKeeps(r: Store, h: Heap, f: seq<nat>, c: nat, v: Word)
    requires Links(r, f) && c + 2 + v / 4 < |r.m|
    requires Spare(h, f, c + 1) && Spare(h, f, c + 2 + v / 4)
    ensures Links(r.(m := SetSize(r.m, c, v)), f)
    ensures KeepsPayloads(r.m, SetSize(r.m, c, v), h.size, h.live)
  {
    LinksFrame(r, SetSize(r.m, c, v), f);
  }

  lemma KeepsSelf(m: seq<Word>, size: map<nat, nat>, cs: set<nat>)
    ensures KeepsPayloads(m, m, size, cs)
  {
  }

  lemma KeepsPayloadsChain(m0: seq<Word>, m1: seq<Word>, m2: seq<Word>, size: map<nat, nat>, cs: set<nat>)
    requires KeepsPayloads(m0, m1, size, cs) && KeepsPayloads(m1, m2, size, cs)
    ensures KeepsPayloads(m0, m2, size, cs)
  {
  }

  /** Allocation of a whole chunk. */
  lemma TakeWhole(st: Store, h: Heap, need: nat, k: nat, v: Word)
    requires Represents(st, h) && k < |h.free| && need >= 2 && need <= h.size[h.free[k]] < need + 4
    requires v == 4 * h.size[h.free[k]] + 1
    ensures IsNode(st, h.free[k] + 2)
    ensures var r, c := Unlink(st, h.free[k] + 2), h.free[k];
            && c + 2 + v / 4 < |r.m|
            && Represents(r.(m := SetSize(r.m, c, v)), TakeAt(h, need, k))
            && KeepsPayloads(st.m, SetSize(r.m, c, v), h.size, h.live)
  {
    var c := h.free[k];
    assert c in h.free && Next(h.size, c) <= h.end;
    UnlinkKeeps(st, h, k);
    TakeWellFormed(h, need, k);
    var r := Unlink(st, c + 2);
    MarkHeaders(r.m, h.end, h.size, h.live, c, v, 1);
    HeaderIsSpare(h, c + 1);
    HeaderIsSpare(h, Next(h.size, c));
    SetSizeKeeps(r, h, Without(h.free, k), c, v);
    KeepsPayloadsChain(st.m, r.m, SetSize(r.m, c, v), h.size, h.live);
  }

  /** The two set_chunk_size calls of a splitting allocation, after the chunk has left
      the free list; `w` is the size word of the rest. */
  lemma CutChunk(st: Store, h: Heap, need: nat, k: nat, v: Word, w: Word)
    requires Represents(st, h) && k < |h.free| && need >= 2 && need + 4 <= h.size[h.free[k]]
    requires v == 4 * need + 1 && w == 4 * (h.size[h.free[k]] - need - 2)
    ensures IsNode(st, h.free[k] + 2)
    ensures var r, c := Unlink(st, h.free[k] + 2), h.free[k];
            && |r.m| == |st.m| && CutFits(r.m, c, need, v, w)
            && var m := CutWords(r.m, c, need, v, w);
            && Headers(m, h.end, Split(h.size, c, need), h.live + {c})
            && Links(r.(m := m), Without(h.free, k))
            && KeepsPayloads(st.m, m, h.size, h.live)
  {
    var c, s := h.free[k], h.free[k] + 2 + need;
    assert h.free[k] in h.free && Next(h.size, c) <= h.end;
    assert h.live + {c} - {s} == h.live + {c} by { SplitTiled(h.end, h.size, c, need); }
    hide Tiled, FreeList, Coalesced, Headers, Links, Spare, HeaderWord, KeepsPayloads, Unlink, CutWords;
    hide CutFits, Without, Split;
    UnlinkKeeps(st, h, k);
    var r := Unlink(st, c + 2);
    SameLength(st.m, r.m, h);
    SplitHeaders(r.m, h.end, h.size, h.live, c, need, v, w);
    hide WellFormed, Represents;
    CutKeeps(r, h, need, k, v, w);
    KeepsPayloadsChain(st.m, r.m, CutWords(r.m, c, need, v, w), h.size, h.live);
  }

  lemma SameLength(m: seq<Word>, m': seq<Word>, h: Heap)
    requires KeepsPayloads(m, m', h.size, h.live)
    ensures |m'| == |m|
  {
  }

  /** Words of a chunk off the list, and the header behind it, may change. */
  lemma CutKeeps(r: Store, h: Heap, need: nat, k: nat, v: Word, w: Word)
    requires WellFormed(h) && k < |h.free| && need >= 2 && need + 4 <= h.size[h.free[k]]
    requires Links(r, Without(h.free, k)) && |r.m| == h.end + 2
    requires v == 4 * need + 1 && w == 4 * (h.size[h.free[k]] - need - 2)
    ensures var c := h.free[k];
            && CutFits(r.m, c, need, v, w)
            && var m := CutWords(r.m, c, need, v, w);
            && Links(r.(m := m), Without(h.free, k))
            && KeepsPayloads(r.m, m, h.size, h.live)
  {
    var c, s, f := h.free[k], h.free[k] + 2 + need, Without(h.free, k);
    assert h.free[k] in h.free && Next(h.size, c) <= h.end;
    assert HeaderWord(h.end, h.size, c + 1) && HeaderWord(h.end, h.size, Next(h.size, c));
    hide Tiled, FreeList, Coalesced, Links, Spare, HeaderWord, KeepsPayloads, Without;
    HeaderIsSpare(h, c + 1);
    HeaderIsSpare(h, Next(h.size, c));
    TakenIsSpare(h, k, s);
    TakenIsSpare(h, k, s + 1);
    hide WellFormed;
    SetSizeKeeps(r, h, f, c, v);
    var r1 := r.(m := SetSize(r.m, c, v));
    SetSizeKeeps(r1, h, f, s, w);
    hide SetSize;
    KeepsPayloadsChain(r.m, r1.m, SetSize(r1.m, s, w), h.size, h.live);
  }

  /** A splitting allocation on the words: the node leaves the free list, the chunk is cut
      after `need` words, and the rest joins the list. */
  ghost predicate CanCut(st: Store, c: nat, need: nat, v: Word, w: Word) {
    && IsNode(st, c + 2)
    && var r := Unlink(st, c + 2);
       |r.m| == |st.m| && CutFits(r.m, c, need, v, w) && c + 2 + need + 3 < |r.m| && r.last + 1 < |r.m| <= 0x4000_0000
  }

  ghost function Cut(st: Store, c: nat, need: nat, v: Word, w: Word): Store
    requires CanCut(st, c, need, v, w)
  {
    var r := Unlink(st, c + 2);
    LinkLast(r.(m := CutWords(r.m, c, need, v, w)), c + 2 + need + 2)
  }

  /** Allocation that splits a chunk. */
  lemma TakeSplit(st: Store, h: Heap, need: nat, k: nat, v: Word, w: Word)
    requires Represents(st, h) && k < |h.free| && need >= 2 && need + 4 <= h.size[h.free[k]]
    requires v == 4 * need + 1 && w == 4 * (h.size[h.free[k]] - need - 2)
    requires |st.m| <= 0x4000_0000
    ensures CanCut(st, h.free[k], need, v, w)
    ensures Represents(Cut(st, h.free[k], need, v, w), TakeAt(h, need, k))
    ensures KeepsPayloads(st.m, Cut(st, h.free[k], need, v, w).m, h.size, h.live)
  {
    hide Tiled, FreeList, Coalesced, Headers, Links, KeepsPayloads, Unlink, TakeAt, Split, CutWords, CutFits, LinkLast,
      IsNode, Without, WellFormed, Represents;
    RepresentsWellFormed(st, h);
    TakeAtSplit(h, need, k);
    CutChunk(st, h, need, k, v, w);
    var c, s := h.free[k], h.free[k] + 2 + need;
    var r := Unlink(st, c + 2);
    RestJoins(st, r.(m := CutWords(r.m, c, need, v, w)), h, TakeAt(h, need, k), Without(h.free, k), s);
  }

  lemma RepresentsWellFormed(st: Store, h: Heap)
    requires Represents(st, h)
    ensures WellFormed(h)
  {
  }

  /** The rest of a split chunk joins the list. */
  lemma RestJoins(st: Store, r: Store, h: Heap, g: Heap, f: seq<nat>, s: nat)
    requires WellFormed(g) && g.free == f + [s] && Headers(r.m, g.end, g.size, g.live) && Links(r, f)
    requires KeepsPayloads(st.m, r.m, h.size, h.live) && |st.m| <= 0x4000_0000
    requires forall d | d in h.live :: d in g.live && d in g.size && d in h.size && g.size[d] == h.size[d]
    ensures s + 3 < |r.m| && r.last + 1 < |r.m| && |r.m| <= 0x4000_0000
    ensures Represents(LinkLast(r, s + 2), g)
    ensures KeepsPayloads(st.m, LinkLast(r, s + 2).m, h.size, h.live)
  {
    hide WellFormed, Represents, Headers, Links;
    JoinList(r, g, f, s);
    hide LinkLast;
    KeepsSameSizes(r.m, LinkLast(r, s + 2).m, h, g);
    KeepsPayloadsChain(st.m, r.m, LinkLast(r, s + 2).m, h.size, h.live);
  }

  lemma TakeAtSplit(h: Heap, need: nat, k: nat)
    requires WellFormed(h) && k < |h.free| && need >= 2 && need + 4 <= h.size[h.free[k]]
    ensures h.free[k] in h.size
    ensures var c, g := h.free[k], TakeAt(h, need, k);
            && WellFormed(g) && g.end == h.end && g.live == h.live + {c} && g.size == Split(h.size, c, need)
            && g.free == Without<nat>(h.free, k) + [c + 2 + need]
            && forall d | d in h.live :: d in g.live && d in g.size && d in h.size && g.size[d] == h.size[d]
  {
    assert h.free[k] in h.free;
    TakeWellFormed(h, need, k);
  }

  /** list_add_tail of a chunk that is marked free but not on the list yet. */
  lemma JoinList(st: Store, g: Heap, f: seq<nat>, c: nat)
    requires WellFormed(g) && g.free == f + [c] && Headers(st.m, g.end, g.size, g.live) && Links(st, f)
    requires |st.m| <= 0x4000_0000
    ensures c + 3 < |st.m| && st.last + 1 < |st.m|
    ensures Represents(LinkLast(st, c + 2), g)
    ensures KeepsPayloads(st.m, LinkLast(st, c + 2).m, g.size, g.live)
  {
    FreeSpaced(g);
    assert g.free[|f|] == c && c in g.free;
    assert Next(g.size, c) >= c + 4;
    LinkLastLinks(st, f, c);
    LinkLastKeeps(st, LinkLast(st, c + 2), g, f, c);
  }

  lemma KeepsSameSizes(m: seq<Word>, m': seq<Word>, h: Heap, g: Heap)
    requires KeepsPayloads(m, m', g.size, g.live)
    requires forall d | d in h.live :: d in g.live && d in g.size && d in h.size && g.size[d] == h.size[d]
    ensures KeepsPayloads(m, m', h.size, h.live)
  {
    forall d: nat, w: nat | InPayload(h.size, h.live, d, w) && w < |m| ensures m'[w] == m[w] {
      assert InPayload(g.size, g.live, d, w);
    }
  }

  /** Appending chunk c, free and off the list, keeps headers and live payloads. */
  lemma LinkLastKeeps(st: Store, q: Store, g: Heap, f: seq<nat>, c: nat)
    requires WellFormed(g) && g.free == f + [c] && Headers(st.m, g.end, g.size, g.live)
    requires |q.m| == |st.m|
    requires forall k: nat | k < |st.m| && OffList(f, k) && k != c + 2 && k != c + 3 :: q.m[k] == st.m[k]
    ensures Headers(q.m, g.end, g.size, g.live)
    ensures KeepsPayloads(st.m, q.m, g.size, g.live)
  {
    forall k: nat | OffList(g.free, k) ensures OffList(f, k) && k != c + 2 && k != c + 3 {
      assert g.free[|f|] == c;
      forall j | 0 <= j < |f| ensures k != f[j] + 2 && k != f[j] + 3 { assert g.free[j] == f[j]; }
    }
    forall k: nat | k < |st.m| && HeaderWord(g.end, g.size, k) ensures q.m[k] == st.m[k] {
      NodesInFreePayloads(g, k);
    }
    HeadersFrame(st.m, q.m, g.end, g.size, g.live);
    forall d: nat, w: nat | InPayload(g.size, g.live, d, w) && w < |st.m| ensures q.m[w] == st.m[w] {
      NodesInFreePayloads(g, w);
    }
  }

  // ------------------------------------------------------------------- freeing

  /** First half of a free: the chunk swallows a free successor, which then leaves the
      free list, or just loses its used bit. */
  ghost predicate HalfFreed(st: Store, h: Heap, c: nat, m0: seq<Word>)
    requires c in h.size
  {
    var a := Absorb(h, c);
    && Headers(st.m, h.end, a.size, h.live - {c})
    && Links(st, a.free)
    && KeepsPayloads(m0, st.m, h.size, h.live - {c})
  }

  lemma UnmarkOnly(st: Store, h: Heap, c: nat, v: Word)
    requires Represents(st, h) && c in h.live && v == 4 * h.size[c]
    requires Next(h.size, c) !in h.free
    ensures c + 2 + v / 4 < |st.m|
    ensures HalfFreed(st.(m := SetSize(st.m, c, v)), h, c, st.m)
  {
    assert Next(h.size, c) <= h.end;
    MarkHeaders(st.m, h.end, h.size, h.live, c, v, 0);
    HeaderIsSpare(h, c + 1);
    HeaderIsSpare(h, Next(h.size, c));
    SetSizeKeeps(st, h, h.free, c, v);
    KeepsFewer(st.m, SetSize(st.m, c, v), h.size, h.live, h.live - {c});
  }

  lemma KeepsFewer(m: seq<Word>, m': seq<Word>, size: map<nat, nat>, cs: set<nat>, ds: set<nat>)
    requires KeepsPayloads(m, m', size, cs) && ds <= cs
    ensures KeepsPayloads(m, m', size, ds)
  {
    forall d: nat, w: nat | InPayload(size, ds, d, w) && w < |m| ensures m'[w] == m[w] {
      assert InPayload(size, cs, d, w);
    }
  }

  lemma SwallowSuccessor(st: Store, h: Heap, c: nat, v: Word)
    requires Represents(st, h) && c in h.live && Next(h.size, c) in h.free
    requires v == 4 * (h.size[c] + h.size[Next(h.size, c)] + 2)
    ensures c + 2 + v / 4 < |st.m|
    ensures var m1 := SetSize(st.m, c, v);
            && IsNode(st.(m := m1), Next(h.size, c) + 2)
            && HalfFreed(Unlink(st.(m := m1), Next(h.size, c) + 2), h, c, st.m)
  {
    var n := Next(h.size, c);
    var i := IndexOf(h.free, n);
    assert Next(h.size, n) <= h.end;
    MergeHeaders(st.m, h.end, h.size, h.live, c, v);
    HeaderIsSpare(h, c + 1);
    HeaderIsSpare(h, Next(h.size, n));
    SetSizeKeeps(st, h, h.free, c, v);
    var st1 := st.(m := SetSize(st.m, c, v));
    UnlinkFrame(st1, h, i);
    var r := Unlink(st1, n + 2);
    FewerHeaders(st1.m, r.m, h, c);
    KeepsPayloadsChain(st.m, st1.m, r.m, h.size, h.live);
    KeepsFewer(st.m, r.m, h.size, h.live, h.live - {c});
  }

  lemma FewerHeaders(m: seq<Word>, m': seq<Word>, h: Heap, c: nat)
    requires WellFormed(h) && c in h.size && Next(h.size, c) in h.size
    requires Headers(m, h.end, Merge(h.size, c), h.live - {c}) && |m'| == |m|
    requires forall k: nat | k < |m| && HeaderWord(h.end, h.size, k) :: m'[k] == m[k]
    ensures Headers(m', h.end, Merge(h.size, c), h.live - {c})
  {
    MergeTiled(h.end, h.size, c);
    forall k: nat | k < |m| && HeaderWord(h.end, Merge(h.size, c), k) ensures m'[k] == m[k] {
      assert HeaderWord(h.end, h.size, k);
    }
    HeadersFrame(m, m', h.end, Merge(h.size, c), h.live - {c});
  }

  /** Second half, when the chunk in front is free: it swallows the freed chunk. */
  lemma SwallowedByPredecessor(st: Store, h: Heap, c: nat, p: nat, v: Word, m0: seq<Word>)
    requires WellFormed(h) && c in h.live && HalfFreed(st, h, c, m0)
    requires FreeBefore(Absorb(h, c), c, p)
    requires c in Absorb(h, c).size && v == 4 * (Absorb(h, c).size[p] + Absorb(h, c).size[c] + 2)
    ensures p + 2 + v / 4 < |st.m|
    ensures Represents(st.(m := SetSize(st.m, p, v)), Free(h, c))
    ensures KeepsPayloads(m0, SetSize(st.m, p, v), h.size, h.live - {c})
  {
    FreeOutcome(h, c);
    AbsorbOutcome(h, c);
    var a := Absorb(h, c);
    BeforeIs(a, c, p);
    MergeHeaders(st.m, h.end, a.size, h.live - {c}, p, v);
    assert h.live - {c} - {p} == h.live - {c};
    HeaderIsSpare(a, p + 1);
    assert Next(a.size, p) == c && Next(a.size, c) <= a.end;
    HeaderIsSpare(a, Next(a.size, c));
    SetSizeKeeps(st, a, a.free, p, v);
    KeepsSameSizes(st.m, SetSize(st.m, p, v), h.(live := h.live - {c}), a);
    KeepsPayloadsChain(m0, st.m, SetSize(st.m, p, v), h.size, h.live - {c});
  }

  lemma BeforeIs(a: Heap, c: nat, p: nat)
    requires WellFormed(a) && FreeBefore(a, c, p)
    ensures Before(a, c) == Some(p)
  {
    var q := Before(a, c).value;
    if q != p { ChunksApart(a.end, a.size, p, q); }
  }

  /** Second half, when the chunk in front is not free: the freed chunk joins the list. */
  lemma JoinsFreeList(st: Store, h: Heap, c: nat, m0: seq<Word>)
    requires WellFormed(h) && c in h.live && HalfFreed(st, h, c, m0) && |st.m| <= 0x4000_0000
    requires forall p: nat :: !FreeBefore(Absorb(h, c), c, p)
    ensures c + 3 < |st.m| && st.last + 1 < |st.m|
    ensures Represents(LinkLast(st, c + 2), Free(h, c))
    ensures KeepsPayloads(m0, LinkLast(st, c + 2).m, h.size, h.live - {c})
  {
    FreeOutcome(h, c);
    var a, g := Absorb(h, c), Free(h, c);
    JoinList(st, g, a.free, c);
    KeepsSameSizes(st.m, LinkLast(st, c + 2).m, h.(live := h.live - {c}), g);
    KeepsPayloadsChain(m0, st.m, LinkLast(st, c + 2).m, h.size, h.live - {c});
  }

  // ----------------------------------------------------------------- the pool itself

  const WORD_SIZE: nat := 4

  function AlignUp(x: nat, size: nat): nat
    requires size > 0
  {
    (x + size - 1) / size * size
  }

  function AlignDown(x: nat, size: nat): nat
    requires size > 0
  {
    x / size * size
  }

  /** The nearest multiples of the word size, above and below. */
  lemma WordAligned(x: nat)
    ensures AlignUp(x, 4) % 4 == 0 && x <= AlignUp(x, 4) < x + 4
    ensures AlignDown(x, 4) % 4 == 0 && x - 4 < AlignDown(x, 4) <= x
  {
  }

  /** LIST_NODE_ALIGN in 32-bit arithmetic: the sum wraps. */
  function ListNodeAlign(size: Word): Word {
    (size + 7) % 0x1_0000_0000 / 8 * 8
  }

  /** The rounded size can hold the request and a list node exactly for the sizes the
      pool is meant for; outside that range rounding wraps or yields an empty chunk. */
  lemma RoundingIsSafe(size: Word)
    ensures ListNodeAlign(size) >= size && ListNodeAlign(size) >= 8 <==> 0 < size <= 0xFFFF_FFF8
    ensures ListNodeAlign(size) % 8 == 0 && ListNodeAlign(size) <= size + 7
  {
    if size <= 0xFFFF_FFF8 {
      assert (size + 7) % 0x1_0000_0000 == size + 7;
    } else {
      assert (size + 7) % 0x1_0000_0000 == size + 7 - 0x1_0000_0000;
    }
  }

  lemma Rounded(size: Word)
    requires 0 < size <= 0xFFFF_FFF8
    ensures ListNodeAlign(size) % 4 == 0 && ListNodeAlign(size) >= 8
  {
    hide ListNodeAlign;
    RoundingIsSafe(size);
    EightIsFour(ListNodeAlign(size));
  }

  lemma EightIsFour(v: nat)
    requires v % 8 == 0
    ensures v % 4 == 0
  {
    var q := v / 8;
    assert v == 4 * (2 * q);
  }

  lemma CurrSizeIn(m: seq<Word>, h: Heap, c: nat)
    requires WellFormed(h) && Headers(m, h.end, h.size, h.live) && c in h.size && c !in h.live
    ensures c + 2 + h.size[c] <= h.end && |m| == h.end + 2
    ensures m[c + 1] == 4 * h.size[c]
  {
    assert Next(h.size, c) <= h.end;
  }

  lemma CurrSize(st: Store, h: Heap, k: nat)
    requires Represents(st, h) && k < |h.free|
    ensures h.free[k] in h.size && h.free[k] !in h.live
    ensures h.free[k] + 2 + h.size[h.free[k]] <= h.end && |st.m| == h.end + 2
    ensures st.m[h.free[k] + 1] == 4 * h.size[h.free[k]]
  {
    assert h.free[k] in h.free;
    CurrSizeIn(st.m, h, h.free[k]);
  }

  /** Taking the node off the list leaves its chunk's size word as it was. */
  lemma UsedWord(st: Store, h: Heap, k: nat)
    requires Represents(st, h) && k < |h.free|
    ensures h.free[k] in h.size && h.free[k] !in h.live
    ensures h.free[k] + 2 + h.size[h.free[k]] <= h.end && |st.m| == h.end + 2
    ensures IsNode(st, h.free[k] + 2)
    ensures st.m[h.free[k] + 1] == Unlink(st, h.free[k] + 2).m[h.free[k] + 1] == 4 * h.size[h.free[k]]
  {
    CurrSize(st, h, k);
    UnlinkKeeps(st, h, k);
    CurrSizeIn(Unlink(st, h.free[k] + 2).m, h, h.free[k]);
  }

  lemma AllocIs(h: Heap, need: nat)
    requires WellFormed(h)
    ensures forall c | c in h.free :: c in h.size
    ensures var k := FirstFit(h, need);
            && k <= |h.free|
            && NodeAt(h.free, k) == (if k == |h.free| then 0 else h.free[k] + 2)
            && Tiling.Alloc(h, need) == if k == |h.free| then None else Some((h.free[k], TakeAt(h, need, k)))
  {
  }

  /** What stands in the words: each chunk's size in bytes with bit 0 set while it is live, once
      in front of its payload and once behind it, between two sentinels of size 0 that are in
      use for good. */
  lemma ReadHeader(st: Store, h: Heap, c: nat)
    requires Represents(st, h) && c in h.size
    ensures |st.m| == h.end + 2 && c + 2 + h.size[c] <= h.end
    ensures st.m[0] == 1 && st.m[h.end + 1] == 1
    ensures st.m[c + 1] / 4 == h.size[c] && st.m[c + 1] % 4 == (if c in h.live then 1 else 0)
    ensures st.m[c + 2 + h.size[c]] == st.m[c + 1]
  {
    assert Next(h.size, c) == c + 2 + h.size[c];
  }

  /** And in the payload of each free chunk: the address of the next node on the free list and
      that of the one before, 0 for the head, which has the first and the last. */
  lemma ReadNode(st: Store, h: Heap, i: nat)
    requires Represents(st, h) && i < |h.free|
    ensures h.free[i] + 3 < |st.m|
    ensures st.m[h.free[i] + 2] == if i + 1 < |h.free| then h.free[i + 1] + 2 else 0
    ensures st.m[h.free[i] + 3] == if i > 0 then h.free[i - 1] + 2 else 0
    ensures st.first == h.free[0] + 2 && st.last == h.free[|h.free| - 1] + 2
  {
    assert LinkAt(st.m, h.free, i);
  }

  lemma ReadPayload(m: seq<Word>, m': seq<Word>, size: map<nat, nat>, cs: set<nat>, d: nat, w: nat)
    requires KeepsPayloads(m, m', size, cs) && d in cs && d in size && d + 2 <= w < d + 2 + size[d] && w < |m|
    ensures |m'| == |m| && m'[w] == m[w]
  {
    assert InPayload(size, cs, d, w);
  }

  class Pool {
    const base: nat
    const mem: array<Word>
    var first: Word
    var last: Word
    ghost var heap: Heap

    ghost function Words(): Store
      reads this, mem
    {
      Store(mem[..], first, last)
    }

    ghost predicate Valid()
      reads this, mem
    {
      mem.Length <= 0x4000_0000 && Represents(Words(), heap)
    }

    /** edata_pool_create over the bytes [base, base + len). */
    constructor (base: nat, len: nat)
      requires base + len < 0x1_0000_0000
      requires AlignDown(base + len, WORD_SIZE) - AlignUp(base, WORD_SIZE) >= 24
      ensures Valid() && fresh(mem)
      ensures this.base == base
      ensures mem.Length == (AlignDown(base + len, WORD_SIZE) - AlignUp(base, WORD_SIZE)) / WORD_SIZE
      ensures heap == Fresh(mem.Length - 2)
    {
      var start := AlignUp(base, WORD_SIZE);
      var end := AlignDown(base + len, WORD_SIZE);
      var n := (end - start) / WORD_SIZE;
      this.base := base;
      mem := new Word[n];
      first, last := 2, 2;
      heap := Fresh(n - 2);
      new;
      var tail := n - 2;
      mem[0] := 1;
      mem[1] := 4 * (tail - 2);
      mem[tail] := mem[1];
      mem[tail + 1] := 1;
      mem[2], mem[3] := 0, 0;
      assert Next(heap.size, 0) == tail;
      assert LinkAt(mem[..], heap.free, 0);
    }

    method SetChunkSize(p: nat, size: Word)
      requires p + 2 + size / 4 < mem.Length
      modifies mem
      ensures mem[..] == SetSize(old(mem[..]), p, size)
    {
      mem[p + 1] := size;
      var succ := p + 2 + mem[p + 1] / 4;
      mem[succ] := size;
    }

    /** The `next` and `prev` fields of the list head or of a node. */
    method SetNext(a: nat, v: Word)
      requires a < mem.Length
      modifies mem, this`first
      ensures Words() == WithNext(old(Words()), a, v)
    {
      if a == 0 { first := v; } else { mem[a] := v; }
    }

    method SetPrev(a: nat, v: Word)
      requires a + 1 < mem.Length
      modifies mem, this`last
      ensures Words() == WithPrev(old(Words()), a, v)
    {
      if a == 0 { last := v; } else { mem[a + 1] := v; }
    }

    method ListDel(a: nat)
      requires IsNode(Words(), a)
      modifies mem, this`first, this`last
      ensures Words() == Unlink(old(Words()), a)
    {
      var next, prev := mem[a], mem[a + 1];
      SetNext(prev, next);
      SetPrev(next, prev);
    }

    method ListAddTail(a: Word)
      requires 0 < a && a + 1 < mem.Length && last + 1 < mem.Length
      modifies mem, this`first, this`last
      ensures Words() == LinkLast(old(Words()), a)
    {
      var prev := last;
      last := a;
      mem[a] := 0;
      mem[a + 1] := prev;
      SetNext(prev, a);
    }

    /** First-fit search of the free list: the node found, or the list head. */
    method FindFit(allocSize: Word) returns (a: nat)
      requires Valid() && allocSize % 4 == 0
      ensures a == NodeAt(heap.free, FirstFit(heap, allocSize / 4))
    {
      ghost var i := 0;
      a := first;
      while a != 0
        invariant i <= |heap.free| && a == NodeAt(heap.free, i)
        invariant forall j | 0 <= j < i :: heap.size[heap.free[j]] < allocSize / 4
        decreases |heap.free| - i
      {
        assert LinkAt(mem[..], heap.free, i);
        assert heap.free[i] in heap.free && Next(heap.size, heap.free[i]) <= heap.end;
        if mem[a - 1] >= allocSize {
          break;
        }
        a := mem[a];
        i := i + 1;
      }
    }

    lemma HeapWellFormed()
      requires Valid()
      ensures WellFormed(heap)
    {
      hide WellFormed;
    }

    /** edata_pool_alloc; 0 is the NULL result. */
    method Alloc(size: Word) returns (p: nat)
      requires Valid() && 0 < size <= 0xFFFF_FFF8
      modifies this`first, this`last, this`heap, mem
      ensures Valid()
      ensures match Tiling.Alloc(old(heap), ListNodeAlign(size) / 4)
              case None => p == 0 && heap == old(heap) && Words() == old(Words())
              case Some((c, h)) => p == c + 2 && heap == h
      ensures KeepsPayloads(old(mem[..]), mem[..], old(heap.size), old(heap.live))
    {
      hide Valid, WellFormed, Represents, TakeAt, FirstFit, KeepsPayloads, ListNodeAlign, Tiling.Alloc, NodeAt;
      HeapWellFormed();
      Rounded(size);
      var allocSize := ListNodeAlign(size);
      p := FindFit(allocSize);
      AllocIs(heap, allocSize / 4);
      KeepsSelf(mem[..], heap.size, heap.live);
      if p != 0 {
        DoAlloc(p - 2, allocSize);
      }
    }

    /** The `do_alloc` part of edata_pool_alloc, on the chunk the search stopped at. */
    method DoAlloc(curr: nat, allocSize: Word)
      requires Valid() && allocSize % 4 == 0 && allocSize >= 8
      requires FirstFit(heap, allocSize / 4) < |heap.free| && curr == heap.free[FirstFit(heap, allocSize / 4)]
      modifies this`first, this`last, this`heap, mem
      ensures Valid()
      ensures heap == TakeAt(old(heap), allocSize / 4, FirstFit(old(heap), allocSize / 4))
      ensures KeepsPayloads(old(mem[..]), mem[..], old(heap.size), old(heap.live))
    {
      ghost var k := FirstFit(heap, allocSize / 4);
      CurrSize(Words(), heap, k);
      var rest := mem[curr + 1] - allocSize;
      if rest < 16 {
        TakeNode(curr, allocSize, k);
      } else {
        TakeAndSplitNode(curr, allocSize, rest, k, allocSize / 4);
      }
      heap := TakeAt(heap, allocSize / 4, k);
    }

    method TakeNode(curr: nat, allocSize: Word, ghost k: nat)
      requires Valid() && allocSize % 4 == 0 && allocSize >= 8
      requires k < |heap.free| && curr == heap.free[k] && allocSize / 4 <= heap.size[curr] < allocSize / 4 + 4
      modifies this`first, this`last, mem
      ensures Represents(Words(), TakeAt(heap, allocSize / 4, k))
      ensures KeepsPayloads(old(mem[..]), mem[..], heap.size, heap.live)
    {
      hide Tiled, FreeList, Coalesced, Headers, Links, TakeAt, KeepsPayloads;
      UsedWord(Words(), heap, k);
      ghost var v: Word := 4 * heap.size[curr] + 1;
      TakeWhole(Words(), heap, allocSize / 4, k, v);
      MarkUsed(curr, v);
    }

    method TakeAndSplitNode(curr: nat, allocSize: Word, rest: Word, ghost k: nat, ghost need: nat)
      requires Valid() && allocSize == 4 * need && need >= 2
      requires k < |heap.free| && curr == heap.free[k]
      requires need + 4 <= heap.size[curr] && rest == 4 * (heap.size[curr] - need)
      modifies this`first, this`last, mem
      ensures Represents(Words(), TakeAt(heap, need, k))
      ensures KeepsPayloads(old(mem[..]), mem[..], heap.size, heap.live)
    {
      hide WellFormed, Represents, Headers, Links, TakeAt, KeepsPayloads, Cut, CanCut, Tiled, FreeList;
      hide Coalesced, Split;
      CurrSize(Words(), heap, k);
      TakeSplit(Words(), heap, need, k, allocSize + 1, rest - 8);
      CutAndMark(curr, allocSize, rest, need, heap.size[curr] - need);
    }

    method MarkUsed(curr: nat, ghost v: Word)
      requires IsNode(Words(), curr + 2) && curr + 2 + v / 4 < mem.Length
      requires Unlink(Words(), curr + 2).m[curr + 1] as int + 1 == v
      modifies this`first, this`last, mem
      ensures var r := Unlink(old(Words()), curr + 2); Words() == r.(m := SetSize(r.m, curr, v))
    {
      ListDel(curr + 2);
      assert mem[..][curr + 1] == v - 1;
      SetChunkSize(curr, mem[curr + 1] + 1);
    }

    method CutAndMark(curr: nat, allocSize: Word, rest: Word, ghost need: nat, ghost left: nat)
      requires allocSize == 4 * need && rest == 4 * left && left >= 4 && allocSize + 1 < 0x1_0000_0000
      requires CanCut(Words(), curr, need, allocSize + 1, rest - 8)
      modifies this`first, this`last, mem
      ensures Words() == Cut(old(Words()), curr, need, allocSize + 1, rest - 8)
    {
      hide Unlink, IsNode, CutWords, CutFits, LinkLast;
      ListDel(curr + 2);
      CutInPlace(curr, allocSize, rest, need, left);
      ListAddTail(curr + 2 + allocSize / 4 + 2);
    }

    /** The two set_chunk_size calls of a splitting allocation. */
    method CutInPlace(curr: nat, allocSize: Word, rest: Word, ghost need: nat, ghost left: nat)
      requires allocSize == 4 * need && rest == 4 * left && left >= 4 && allocSize + 1 < 0x1_0000_0000
      requires CutFits(mem[..], curr, need, allocSize + 1, rest - 8)
      modifies mem
      ensures mem[..] == CutWords(old(mem[..]), curr, need, allocSize + 1, rest - 8)
    {
      assert (allocSize + 1) / 4 == need && (rest - 8) / 4 == left - 2;
      hide SetSize;
      SetChunkSize(curr, allocSize + 1);
      var succ := curr + 2 + allocSize / 4;
      SetChunkSize(succ, rest - 8);
    }

    /** edata_pool_free */
    method Free(p: nat)
      requires Valid() && p >= 2 && p - 2 in heap.live
      modifies this`first, this`last, this`heap, mem
      ensures Valid()
      ensures heap == Tiling.Free(old(heap), p - 2)
      ensures KeepsPayloads(old(mem[..]), mem[..], old(heap.size), old(heap.live) - {p - 2})
    {
      var curr := p - 2;
      FreeOutcome(heap, curr);
      UnmarkOrSwallow(curr);
      ghost var a := Absorb(heap, curr);
      MergeBackOrJoin(curr, old(mem[..]));
      heap := Tiling.Free(heap, curr);
    }

    /** The part of edata_pool_free that looks at the chunk in front. */
    method MergeBackOrJoin(curr: nat, ghost before: seq<Word>)
      requires mem.Length <= 0x4000_0000 && WellFormed(heap) && curr in heap.live
      requires HalfFreed(Words(), heap, curr, before)
      modifies this`first, this`last, mem
      ensures Represents(Words(), Tiling.Free(heap, curr))
      ensures KeepsPayloads(before, mem[..], heap.size, heap.live - {curr})
    {
      hide WellFormed, HalfFreed, Represents, KeepsPayloads, Absorb;
      PreviousHeader(Words(), heap, curr, before);
      if mem[curr] % 4 == 0 {
        MergeBack(curr, before);
      } else {
        Join(curr, before);
      }
    }

    method MergeBack(curr: nat, ghost before: seq<Word>)
      requires mem.Length <= 0x4000_0000 && WellFormed(heap) && curr in heap.live
      requires HalfFreed(Words(), heap, curr, before) && curr + 1 < mem.Length && mem[curr] % 4 == 0
      modifies mem
      ensures Represents(Words(), Tiling.Free(heap, curr))
      ensures KeepsPayloads(before, mem[..], heap.size, heap.live - {curr})
    {
      hide WellFormed, HalfFreed, Represents, KeepsPayloads, Absorb;
      PreviousHeader(Words(), heap, curr, before);
      var prev := curr - 2 - mem[curr] / 4;
      PreviousFits(Words(), heap, curr, prev, before);
      ghost var words := Words();
      ghost var c, p := Absorb(heap, curr).size[curr], Absorb(heap, curr).size[prev];
      assert words.m[prev + 1] == mem[prev + 1] == 4 * p && words.m[curr + 1] == mem[curr + 1] == 4 * c;
      var total := mem[prev + 1] + mem[curr + 1] + 8;
      hide SetSize, FreeBefore;
      SwallowedByPredecessor(words, heap, curr, prev, total, before);
      SetChunkSize(prev, total);
    }

    method Join(curr: nat, ghost before: seq<Word>)
      requires mem.Length <= 0x4000_0000 && WellFormed(heap) && curr in heap.live
      requires HalfFreed(Words(), heap, curr, before)
      requires forall p: nat :: !FreeBefore(Absorb(heap, curr), curr, p)
      modifies this`first, this`last, mem
      ensures Represents(Words(), Tiling.Free(heap, curr))
      ensures KeepsPayloads(before, mem[..], heap.size, heap.live - {curr})
    {
      hide WellFormed, HalfFreed, Represents, KeepsPayloads, Absorb, LinkLast;
      JoinsFreeList(Words(), heap, curr, before);
      ListAddTail(curr + 2);
    }

    /** The part of edata_pool_free that looks at the chunk behind. */
    method UnmarkOrSwallow(curr: nat)
      requires Valid() && curr in heap.live
      modifies this`first, this`last, mem
      ensures HalfFreed(Words(), heap, curr, old(mem[..]))
    {
      assert Next(heap.size, curr) <= heap.end;
      var currSize := mem[curr + 1] / 4 * 4;
      var succ := curr + 2 + mem[curr + 1] / 4;
      assert succ == Next(heap.size, curr) && currSize == 4 * heap.size[curr];
      assert succ in heap.size ==> Next(heap.size, succ) <= heap.end;
      if mem[succ + 1] % 4 == 0 {
        var total := currSize + mem[succ + 1] + 8;
        SwallowSuccessor(Words(), heap, curr, total);
        SetChunkSize(curr, total);
        ListDel(succ + 2);
      } else {
        UnmarkOnly(Words(), heap, curr, currSize);
        SetChunkSize(curr, currSize);
      }
    }
  }

  /** The copy of its predecessor's size word tells a chunk whether it can merge
      backwards, and where to. */
  lemma PreviousHeader(st: Store, h: Heap, c: nat, m0: seq<Word>)
    requires WellFormed(h) && c in h.live && HalfFreed(st, h, c, m0)
    ensures c + 1 < |st.m| && c in Absorb(h, c).size
    ensures st.m[c] % 4 != 0 ==> forall p: nat :: !FreeBefore(Absorb(h, c), c, p)
    ensures st.m[c] % 4 == 0 ==>
              var p := c - 2 - st.m[c] / 4;
              p >= 0 && FreeBefore(Absorb(h, c), c, p)
              && st.m[p + 1] == 4 * Absorb(h, c).size[p] && st.m[c + 1] == 4 * Absorb(h, c).size[c]
  {
    hide WellFormed, Absorb, HalfFreed, FreeBefore, Next;
    LiveChunk(h, c);
    AbsorbOutcome(h, c);
    var a := Absorb(h, c);
    OwnHeader(st, h, c, m0);
    if c == 0 {
      NoneBeforeFirst(a, st, h, m0);
    } else {
      var p := PreviousChunk(a, c);
      PreviousInside(st, h, c, p, m0);
      CopyOfPrevious(st, h, c, p, m0);
      OnlyPredecessor(a, c, p);
      IsFreePrevious(a, c, p, h.live, st.m[c]);
    }
  }

  lemma LiveChunk(h: Heap, c: nat)
    requires WellFormed(h) && c in h.live
    ensures c in h.size
  {
    hide Tiled, Coalesced, Distinct;
  }

  lemma NoneBeforeFirst(a: Heap, st: Store, h: Heap, m0: seq<Word>)
    requires WellFormed(h) && 0 in h.live && HalfFreed(st, h, 0, m0) && a == Absorb(h, 0)
    ensures (forall q: nat :: !FreeBefore(a, 0, q)) && st.m[0] % 4 != 0
  {
    hide WellFormed, Absorb, Links, KeepsPayloads;
  }

  lemma PreviousChunk(a: Heap, c: nat) returns (p: nat)
    requires WellFormed(a) && c in a.size && c > 0
    ensures p in a.size && Next(a.size, p) == c && p + 2 <= c
  {
    p := Predecessor(a.end, a.size, c);
  }

  lemma PreviousInside(st: Store, h: Heap, c: nat, p: nat, m0: seq<Word>)
    requires WellFormed(h) && c in h.live && HalfFreed(st, h, c, m0) && p + 2 <= c
    requires p in Absorb(h, c).size && Next(Absorb(h, c).size, p) == c
    ensures c < |st.m| && p + 1 < |st.m|
  {
    hide WellFormed, Absorb, Links, KeepsPayloads;
    LiveChunk(h, c);
    assert Next(Absorb(h, c).size, p) == c;
  }

  /** The used bit in the copied size word tells, and its size locates, the chunk in front. */
  lemma IsFreePrevious(a: Heap, c: nat, p: nat, live: set<nat>, w: Word)
    requires a.live == live && p in a.size && Next(a.size, p) == c && w == 4 * a.size[p] + Tag(live, p)
    requires forall q: nat :: FreeBefore(a, c, q) <==> q == p && p !in a.live
    ensures w % 4 != 0 ==> forall q: nat :: !FreeBefore(a, c, q)
    ensures w % 4 == 0 ==> c - 2 - w / 4 == p && FreeBefore(a, c, p) && w == 4 * a.size[p]
  {
    hide FreeBefore;
  }

  lemma OwnHeader(st: Store, h: Heap, c: nat, m0: seq<Word>)
    requires WellFormed(h) && c in h.live && HalfFreed(st, h, c, m0)
    ensures c in Absorb(h, c).size && c + 1 < |st.m| && st.m[c + 1] == 4 * Absorb(h, c).size[c]
  {
    assert Next(Absorb(h, c).size, c) <= h.end;
  }

  lemma CopyOfPrevious(st: Store, h: Heap, c: nat, p: nat, m0: seq<Word>)
    requires WellFormed(h) && c in h.live && HalfFreed(st, h, c, m0)
    requires p in Absorb(h, c).size && Next(Absorb(h, c).size, p) == c && c < |st.m| && p + 1 < |st.m|
    ensures st.m[c] == st.m[p + 1] == 4 * Absorb(h, c).size[p] + Tag(h.live, p)
  {
    assert Next(Absorb(h, c).size, p) <= h.end;
  }

  /** The merged size is a size of the pool, so its word does not wrap. */
  lemma PreviousFits(st: Store, h: Heap, c: nat, p: nat, m0: seq<Word>)
    requires WellFormed(h) && c in h.live && HalfFreed(st, h, c, m0) && |st.m| <= 0x4000_0000
    requires FreeBefore(Absorb(h, c), c, p)
    ensures c in h.size && c in Absorb(h, c).size && p in Absorb(h, c).size
    ensures 4 * (Absorb(h, c).size[p] + Absorb(h, c).size[c] + 2) < 0x1_0000_0000
  {
    AbsorbOutcome(h, c);
    var a := Absorb(h, c);
    assert Next(a.size, p) == c && Next(a.size, c) <= a.end;
  }

  lemma OnlyPredecessor(a: Heap, c: nat, p: nat)
    requires WellFormed(a) && c in a.size && p in a.size && Next(a.size, p) == c
    ensures forall q: nat :: FreeBefore(a, c, q) <==> q == p && p !in a.live
  {
    forall q: nat | FreeBefore(a, c, q) ensures q == p {
      if q != p { ChunksApart(a.end, a.size, p, q); }
    }
  }
}
