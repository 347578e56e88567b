/** The two 4096-byte rings that hold output until the serial line is up: the AT ring of
    mbser_at.c, filled in blocks, and the log ring of mbser_log.c, filled one byte at a
    time. Their indices run freely in 32-bit arithmetic. */
module SerialRing {
  import opened Basics
  import S = MbSerial

  type U32 = x: int | 0 <= x < 0x1_0000_0000

  function Add32(a: int, b: int): U32 {
    (a + b) % 0x1_0000_0000
  }

  function Sub32(a: U32, b: U32): U32 {
    if a >= b then a - b else a - b + 0x1_0000_0000
  }

  /** _ALIGN_UP(x, 4096) on unsigned */
  function AlignUp(x: U32): U32 {
    Add32(x, 4095) / 4096 * 4096
  }

  /** Conversion of an unsigned argument to the `int` parameter of mf_mbserial_send. */
  function ToInt(x: U32): int {
    if x < 0x8000_0000 then x else x - 0x1_0000_0000
  }

  /** ATSEND_BUF, LOG_BUF */
  function At(buf: seq<Byte>, idx: int): Byte
    requires |buf| == 4096
  {
    buf[idx % 4096]
  }

  lemma AddZero(a: U32)
    ensures Add32(a, 0) == a
  {
  }

  lemma AddAdd(a: int, i: int, j: int)
    ensures Add32(Add32(a, i), j) == Add32(a, i + j)
  {
    var q, r := (a + i) / 0x1_0000_0000, (a + i) % 0x1_0000_0000;
    var p, o := (r + j) / 0x1_0000_0000, (r + j) % 0x1_0000_0000;
    assert a + (i + j) == 0x1_0000_0000 * (q + p) + o;
  }

  /** The n bytes of the ring from free-running index `start` on. */
  function Stored(buf: seq<Byte>, start: int, n: nat): (r: seq<Byte>)
    requires |buf| == 4096
    ensures |r| == n
  {
    seq<Byte>(n, i requires 0 <= i < n => At(buf, start + i))
  }

  /** The last 4096 bytes of a stream, all a ring can keep. */
  function Last(s: seq<Byte>): (r: seq<Byte>)
    ensures |r| <= 4096
  {
    if |s| <= 4096 then s else s[|s| - 4096..]
  }

  lemma LastAbsorbs(a: seq<Byte>, b: seq<Byte>)
    ensures Last(Last(a) + b) == Last(a + b)
    ensures Last(a + Last(b)) == Last(a + b)
  {
  }

  /** What a ring that keeps Last after every write ends up with. */
  function KeepLast(ws: seq<seq<Byte>>): seq<Byte> {
    if ws == [] then [] else Last(KeepLast(ws[..|ws| - 1]) + ws[|ws| - 1])
  }

  function Bytes(s: seq<Byte>): seq<seq<Byte>> {
    seq(|s|, i requires 0 <= i < |s| => [s[i]])
  }

  /** However a stream is cut into writes, whole blocks or single bytes, a ring empty
      before them keeps exactly its last 4096 bytes. */
  lemma {:induction false} WritesKeepLast(ws: seq<seq<Byte>>)
    ensures KeepLast(ws) == Last(Concat(ws)) == Concat(ws)[|Concat(ws)| - Min(|Concat(ws)|, 4096)..]
  {
    if ws != [] {
      WritesKeepLast(ws[..|ws| - 1]);
      LastAbsorbs(Concat(ws[..|ws| - 1]), ws[|ws| - 1]);
    }
  }

  lemma {:induction false} ConcatBytes(s: seq<Byte>)
    ensures Concat(Bytes(s)) == s
  {
    if s != [] {
      var n := |s| - 1;
      assert Bytes(s)[..n] == Bytes(s[..n]);
      ConcatBytes(s[..n]);
      assert s == s[..n] + [s[n]];
    }
  }

  /** The block-filled ring refines the byte-filled one. */
  lemma BlocksLikeBytes(ws: seq<seq<Byte>>)
    ensures KeepLast(ws) == KeepLast(Bytes(Concat(ws)))
  {
    WritesKeepLast(ws);
    WritesKeepLast(Bytes(Concat(ws)));
    ConcatBytes(Concat(ws));
  }

  lemma ModIs(x: int, k: int, m: int)
    requires x == 4096 * k + m && 0 <= m < 4096
    ensures x % 4096 == m
  {
  }

  /** The ring offset of an index does not care that the index has wrapped. */
  lemma Mod4096(x: int)
    ensures (x % 0x1_0000_0000) % 4096 == x % 4096
  {
    var q, y := x / 0x1_0000_0000, x % 0x1_0000_0000;
    ModIs(x, 1048576 * q + y / 4096, y % 4096);
  }

  // -------------------------------------------------------------------------- flushing

  /** mf_mbserial_send of `len` bytes at offset `off`: nothing when len is not positive. */
  function Piece(buf: seq<Byte>, off: nat, len: int): seq<seq<Byte>>
    requires off <= |buf| && off + len <= |buf|
  {
    if len <= 0 then [] else [buf[off..off + len]]
  }

  /** Both indices lie strictly inside the last page below 2^32, in order. */
  predicate InLastPage(start: U32, end: U32) {
    0xFFFF_F000 < start < end
  }

  /** The first and the second length a flush asks for. */
  function FirstLen(start: U32, end: U32): int {
    if AlignUp(start) < end then ToInt(Sub32(AlignUp(start), start)) else ToInt(Sub32(end, start))
  }

  function SecondLen(start: U32, end: U32): int {
    if AlignUp(start) < end then ToInt(Sub32(end, AlignUp(start))) else 0
  }

  /** Rounding up reaches the next page start, which is 0 past the last page. */
  lemma AlignUpIs(x: U32)
    ensures x > 0xFFFF_F000 ==> AlignUp(x) == 0
    ensures x <= 0xFFFF_F000 ==> x <= AlignUp(x) < x + 4096
    ensures AlignUp(x) % 4096 == 0
  {
    ModIs(AlignUp(x), Add32(x, 4095) / 4096, 0);
  }

  lemma FlushLengths(start: U32, end: U32)
    requires 0 < Sub32(end, start) <= 4096
    ensures start % 4096 + FirstLen(start, end) <= 4096 && SecondLen(start, end) <= 4096
    ensures !InLastPage(start, end) ==>
              && FirstLen(start, end) >= 0 && SecondLen(start, end) >= 0
              && FirstLen(start, end) + SecondLen(start, end) == Sub32(end, start)
              && (SecondLen(start, end) > 0 ==> (start + FirstLen(start, end)) % 4096 == 0)
    ensures InLastPage(start, end) ==>
              SecondLen(start, end) <= 0 && FirstLen(start, end) == 0x1_0000_0000 - start > Sub32(end, start)
  {
    AlignUpIs(start);
    var k, m := start / 4096, start % 4096;
    assert start == 4096 * k + m;
    var b := AlignUp(start);
    assert b == 4096 * (b / 4096);
    if start > 0xFFFF_F000 {
      assert Sub32(b, start) == 0x1_0000_0000 - start;
      if b < end { ModIs(start + FirstLen(start, end), 1048576, 0); }
    } else {
      assert Sub32(b, start) == b - start;
      if b < end { ModIs(start + FirstLen(start, end), b / 4096, 0); }
    }
  }

  function FlushPieces(buf: seq<Byte>, start: U32, end: U32): (r: seq<seq<Byte>>)
    requires |buf| == 4096 && Sub32(end, start) <= 4096
    ensures |r| <= 2
  {
    if start == end then []
    else
      FlushLengths(start, end);
      Piece(buf, start % 4096, FirstLen(start, end)) + Piece(buf, AlignUp(start) % 4096, SecondLen(start, end))
  }

  lemma PieceIsStored(buf: seq<Byte>, off: nat, start: int, len: nat)
    requires |buf| == 4096 && off + len <= 4096 && start % 4096 == off
    ensures Piece(buf, off, len) == Part(Stored(buf, start, len))
  {
    var p := buf[off..off + len];
    forall i | 0 <= i < len ensures p[i] == At(buf, start + i) {
      ModIs(start + i, start / 4096, off + i);
    }
    hide At;
    assert p == Stored(buf, start, len);
  }

  function Part(s: seq<Byte>): seq<seq<Byte>> {
    if s == [] then [] else [s]
  }

  /** The pieces of a flush are the ring's bytes from `start` on, then from the boundary on. */
  lemma FlushAsStored(buf: seq<Byte>, start: U32, end: U32)
    requires |buf| == 4096 && 0 < Sub32(end, start) <= 4096
    ensures FirstLen(start, end) >= 0
    ensures var b := if SecondLen(start, end) > 0 then SecondLen(start, end) else 0;
            FlushPieces(buf, start, end) == StoredParts(buf, start, FirstLen(start, end), b)
  {
    FlushLengths(start, end);
    AlignUpIs(start);
    var a, b := FirstLen(start, end), SecondLen(start, end);
    hide FirstLen, SecondLen, Sub32, InLastPage, AlignUp, Stored;
    PieceIsStored(buf, start % 4096, start, a);
    if b > 0 {
      PieceIsStored(buf, 0, start + a, b);
    }
  }

  function StoredParts(buf: seq<Byte>, start: int, a: nat, b: nat): seq<seq<Byte>>
    requires |buf| == 4096
  {
    Part(Stored(buf, start, a)) + Part(Stored(buf, start + a, b))
  }

  lemma StoredPartsConcat(buf: seq<Byte>, start: int, a: nat, b: nat)
    requires |buf| == 4096
    ensures Concat(StoredParts(buf, start, a, b)) == Stored(buf, start, a + b)
    ensures forall p | p in StoredParts(buf, start, a, b) :: p != []
  {
    hide Stored, Concat;
    var p, q := Stored(buf, start, a), Stored(buf, start + a, b);
    ConcatPart(p);
    ConcatPart(q);
    ConcatAppend(Part(p), Part(q));
    StoredSplit(buf, start, a, b);
  }

  /** A flush sends exactly the buffered bytes, in order, if and only if the indices are
      not both strictly inside the last page below 2^32; there the rounded-up boundary
      wraps to 0 and bytes past the end go out. */
  lemma FlushExact(buf: seq<Byte>, start: U32, end: U32)
    requires |buf| == 4096 && Sub32(end, start) <= 4096
    ensures Concat(FlushPieces(buf, start, end)) == Stored(buf, start, Sub32(end, start)) <==> !InLastPage(start, end)
    ensures forall p | p in FlushPieces(buf, start, end) :: p != []
  {
    if start != end {
      FlushLengths(start, end);
      FlushAsStored(buf, start, end);
      var a, b := FirstLen(start, end), SecondLen(start, end);
      hide *;
      StoredPartsConcat(buf, start, a, if b > 0 then b else 0);
      StoredDiffers(buf, start, a + if b > 0 then b else 0, Sub32(end, start));
    } else {
      assert Stored(buf, start, 0) == [];
    }
  }

  lemma StoredDiffers(buf: seq<Byte>, start: int, m: nat, n: nat)
    requires |buf| == 4096
    ensures Stored(buf, start, m) == Stored(buf, start, n) <==> m == n
  {
  }

  lemma ConcatPart(s: seq<Byte>)
    ensures Concat(Part(s)) == s
  {
    if s != [] {
      ConcatOne(s);
    }
  }

  lemma StoredSplit(buf: seq<Byte>, start: int, a: nat, b: nat)
    requires |buf| == 4096
    ensures Stored(buf, start, a) + Stored(buf, start + a, b) == Stored(buf, start, a + b)
  {
    hide At;
    var s := Stored(buf, start, a + b);
    forall i | 0 <= i < b ensures At(buf, start + a + i) == s[a..][i] {
      assert start + a + i == start + (a + i);
    }
    assert s[a..] == Stored(buf, start + a, b) && s[..a] == Stored(buf, start, a);
  }

  // ------------------------------------------------------------------------- writing

  /** s was written from index v on, and of it the ring still holds the last 4096 bytes. */
  ghost predicate Recent(buf: seq<Byte>, v: int, s: seq<Byte>) {
    && |buf| == 4096
    && forall k {:trigger s[k]} | 0 <= k < |s| && |s| - 4096 <= k :: At(buf, v + k) == s[k]
  }

  lemma StoredIsRecent(buf: seq<Byte>, v: int, n: nat)
    requires |buf| == 4096
    ensures Recent(buf, v, Stored(buf, v, n))
  {
  }

  /** Copying d to the place the next byte goes to, without crossing the buffer's end. */
  lemma RecentWrite(b0: seq<Byte>, b1: seq<Byte>, v: int, s: seq<Byte>, off: nat, d: seq<Byte>)
    requires Recent(b0, v, s) && off == (v + |s|) % 4096 && off + |d| <= 4096
    requires b1 == b0[..off] + d + b0[off + |d|..]
    ensures Recent(b1, v, s + d)
  {
    var t := s + d;
    forall k | 0 <= k < |t| && |t| - 4096 <= k ensures At(b1, v + k) == t[k] {
      if k < |s| {
        var p := (v + k) % 4096;
        Outside(v, k, |s|, |d|);
        assert s[k] == b0[p];
      } else {
        ModIs(v + k, (v + |s|) / 4096, off + (k - |s|));
      }
    }
  }

  /** An index less than a buffer length before the write keeps its place. */
  lemma Outside(v: int, k: int, n: int, len: nat)
    requires k < n && n + len - 4096 <= k && (v + n) % 4096 + len <= 4096
    ensures !((v + n) % 4096 <= (v + k) % 4096 < (v + n) % 4096 + len)
  {
    var q, r := (v + n) / 4096, (v + n) % 4096;
    var p, o := (v + k) / 4096, (v + k) % 4096;
    assert n - k == 4096 * (q - p) + r - o;
  }

  /** What the ring holds, counted from where its last bytes start. */
  lemma RecentIsLast(buf: seq<Byte>, v: int, s: seq<Byte>)
    requires Recent(buf, v, s)
    ensures Stored(buf, v + |s| - |Last(s)|, |Last(s)|) == Last(s)
  {
    hide At;
    var m := |s| - |Last(s)|;
    forall i | 0 <= i < |Last(s)| ensures At(buf, v + |s| - |Last(s)| + i) == Last(s)[i] {
      assert Last(s)[i] == s[m + i] && v + |s| - |Last(s)| + i == v + (m + i);
    }
  }

  lemma StoredWrap(buf: seq<Byte>, a: int, b: int, n: nat)
    requires |buf| == 4096 && a % 4096 == b % 4096
    ensures Stored(buf, a, n) == Stored(buf, b, n)
  {
    var s, t := Stored(buf, a, n), Stored(buf, b, n);
    forall i | 0 <= i < n ensures s[i] == t[i] {
      SameOffset(a, b, i);
      assert At(buf, a + i) == At(buf, b + i);
    }
  }

  lemma SameOffset(a: int, b: int, i: int)
    requires a % 4096 == b % 4096
    ensures (a + i) % 4096 == (b + i) % 4096
  {
    ModIs(b + i, (a + i) / 4096 + b / 4096 - a / 4096, (a + i) % 4096);
  }

  /** Closing a run of writes: the indices are reduced modulo 2^32 and the start moves up
      when more than a buffer has been written. */
  lemma Settle(buf: seq<Byte>, v: U32, s: seq<Byte>, start: U32, end: U32)
    requires Recent(buf, v, s) && |s| <= 8192
    requires end == Add32(v, |s|)
    requires start == if Sub32(end, v) > 4096 then Sub32(end, 4096) else v
    ensures Sub32(end, start) == |Last(s)|
    ensures Stored(buf, start, Sub32(end, start)) == Last(s)
  {
    assert Sub32(end, v) == |s|;
    RecentIsLast(buf, v, s);
    if |s| > 4096 {
      assert start == Add32(v, |s| - 4096);
      Mod4096(v + |s| - 4096);
      StoredWrap(buf, start, v + |s| - 4096, 4096);
    }
  }

  /** The buffer after d has been written into the ring from free-running index `end` on. */
  function PutAll(buf: seq<Byte>, end: U32, d: seq<Byte>): (r: seq<Byte>)
    requires |buf| == 4096
    ensures |r| == 4096
    decreases |d|
  {
    if d == [] then buf
    else
      var n := |d| - 1;
      PutAll(buf, end, d[..n])[Add32(end, n) % 4096 := d[n]]
  }

  lemma {:induction false} PutAppend(buf: seq<Byte>, end: U32, x: seq<Byte>, y: seq<Byte>)
    requires |buf| == 4096
    ensures PutAll(buf, end, x + y) == PutAll(PutAll(buf, end, x), Add32(end, |x|), y)
    decreases |y|
  {
    if y == [] {
      assert x + y == x;
    } else {
      var n := |y| - 1;
      assert (x + y)[..|x| + n] == x + y[..n];
      PutAppend(buf, end, x, y[..n]);
      AddAdd(end, |x|, n);
    }
  }

  lemma OffsetAfter(end: U32, n: nat)
    requires end % 4096 + n < 4096
    ensures Add32(end, n) % 4096 == end % 4096 + n
  {
    Mod4096(end + n);
    ModIs(end + n, end / 4096, end % 4096 + n);
  }

  /** A block that does not cross the buffer's end is written by one copy. */
  lemma {:induction false} CopyIsPut(buf: seq<Byte>, end: U32, d: seq<Byte>)
    requires |buf| == 4096 && end % 4096 + |d| <= 4096
    ensures PutAll(buf, end, d) == buf[..end % 4096] + d + buf[end % 4096 + |d|..]
    decreases |d|
  {
    if d != [] {
      var n := |d| - 1;
      CopyIsPut(buf, end, d[..n]);
      OffsetAfter(end, n);
    }
  }

  /** Writing extends what the ring holds. */
  lemma {:induction false} PutRecent(buf: seq<Byte>, v: U32, s: seq<Byte>, d: seq<Byte>)
    requires Recent(buf, v, s)
    ensures Recent(PutAll(buf, Add32(v, |s|), d), v, s + d)
    decreases |d|
  {
    if d == [] {
      assert s + d == s;
    } else {
      var n := |d| - 1;
      PutRecent(buf, v, s, d[..n]);
      var b0 := PutAll(buf, Add32(v, |s|), d[..n]);
      AddAdd(v, |s|, n);
      Mod4096(v + |s| + n);
      var off := (v + |s| + n) % 4096;
      hide Recent, Add32;
      OneByte(b0, off, d[n]);
      RecentWrite(b0, b0[off := d[n]], v, s + d[..n], off, [d[n]]);
      assert s + d[..n] + [d[n]] == s + d;
    }
  }

  lemma OneByte(b: seq<Byte>, off: nat, c: Byte)
    requires off < |b|
    ensures b[off := c] == b[..off] + [c] + b[off + 1..]
  {
  }

  /** The start index after a run of writes up to `end`. */
  function StartAfter(start: U32, end: U32): U32 {
    if Sub32(end, start) > 4096 then Sub32(end, 4096) else start
  }

  /** A ring written in one run holds the last 4096 bytes of its old contents and the data,
      although only the end of a long message is written. */
  lemma CachedHolds(buf: seq<Byte>, start: U32, end: U32, data: seq<Byte>)
    requires |buf| == 4096 && Sub32(end, start) <= 4096
    ensures var e := Add32(end, |Last(data)|);
            && Sub32(e, StartAfter(start, e)) <= 4096
            && Stored(PutAll(buf, end, Last(data)), StartAfter(start, e), Sub32(e, StartAfter(start, e)))
               == Last(Stored(buf, start, Sub32(end, start)) + data)
  {
    var s, d := Stored(buf, start, Sub32(end, start)), Last(data);
    StoredIsRecent(buf, start, |s|);
    EndIs(start, end);
    PutRecent(buf, start, s, d);
    EndMoves(start, end, s, data);
    hide Recent, PutAll, Add32, Stored;
    Settle(PutAll(buf, end, d), start, s + d, StartAfter(start, Add32(end, |d|)), Add32(end, |d|));
    LastAbsorbs(s, data);
  }

  // --------------------------------------------------------------------------- the ring

  /** The ring both files declare: asb_start, asb_end and log_start, log_end. */
  class Ring {
    const buf: array<Byte>
    var start: U32
    var end: U32

    ghost predicate Valid()
      reads this
    {
      buf.Length == 4096 && Sub32(end, start) <= 4096
    }

    ghost function Contents(): seq<Byte>
      requires Valid()
      reads this, buf
    {
      Stored(buf[..], start, Sub32(end, start))
    }

    /** The static indices start at 0; `at` says where a run happens to be. */
    constructor (at: U32)
      ensures Valid() && fresh(buf) && Contents() == [] && start == end == at
    {
      buf := new Byte[4096];
      start, end := at, at;
    }

    /** emit_log_char */
    method EmitLogChar(c: Byte)
      requires Valid()
      modifies buf, this`start, this`end
      ensures Valid() && end == Add32(old(end), 1)
      ensures Contents() == Last(old(Contents()) + [c])
    {
      ghost var v, s := start, Contents();
      ghost var b0, off := buf[..], end % 4096;
      Mod4096(v + |s|);
      StoredIsRecent(b0, v, |s|);
      buf[end % 4096] := c;
      RecentWrite(b0, buf[..], v, s, off, [c]);
      end := Add32(end, 1);
      if Sub32(end, start) > 4096 {
        start := Sub32(end, 4096);
      }
      Settle(buf[..], v, s + [c], start, end);
    }

    /** cache_log_buf */
    method CacheLogBuf(data: seq<Byte>)
      requires Valid()
      modifies buf, this`start, this`end
      ensures Valid() && end == Add32(old(end), |data|)
      ensures Contents() == Last(old(Contents()) + data)
    {
      var i := 0;
      assert Contents() + [] == Contents();
      AddZero(end);
      hide Add32, Sub32, Last, Contents;
      while i < |data|
        invariant 0 <= i <= |data| && Valid()
        invariant end == Add32(old(end), i)
        invariant Contents() == Last(old(Contents()) + data[..i])
      {
        AddAdd(old(end), i, 1);
        ghost var before := old(Contents()) + data[..i];
        EmitLogChar(data[i]);
        assert old(Contents()) + data[..i + 1] == before + [data[i]];
        LastAbsorbs(before, [data[i]]);
        i := i + 1;
      }
      assert data[..i] == data;
    }

    /** memcpy into the ring; the caller keeps it on one side of the buffer's end. */
    method CopyIn(off: nat, d: seq<Byte>)
      requires buf.Length == 4096 && off + |d| <= 4096
      modifies buf
      ensures buf[..] == old(buf[..off]) + d + old(buf[off + |d|..])
    {
      forall i | 0 <= i < |d| {
        buf[off + i] := d[i];
      }
    }

    /** One round of the copying loop: as much as fits before the buffer's end. */
    method CopyChunk(psrc: seq<Byte>) returns (copyLen: nat)
      requires psrc != [] && buf.Length == 4096
      modifies buf, this`end
      ensures 0 < copyLen <= |psrc|
      ensures buf[..] == PutAll(old(buf[..]), old(end), psrc[..copyLen]) && end == Add32(old(end), copyLen)
    {
      SpaceLeft(end);
      var boundary := AlignUp(Add32(end, 1));
      var space := ToInt(Sub32(boundary, end));
      copyLen := if space < |psrc| then space else |psrc|;
      hide AlignUp, Sub32, ToInt;
      CopyIsPut(buf[..], end, psrc[..copyLen]);
      CopyIn(end % 4096, psrc[..copyLen]);
      end := Add32(end, copyLen);
    }

    /** cache_atsend_buffer up to the unlock: of a long message only the last 4096 bytes
        are copied, in chunks that end at the buffer's end. */
    method CacheAtSend(data: seq<Byte>)
      requires Valid()
      modifies buf, this`start, this`end
      ensures Valid() && Contents() == Last(old(Contents()) + data)
      ensures buf[..] == PutAll(old(buf[..]), old(end), Last(data))
      ensures end == Add32(old(end), |Last(data)|)
      ensures start == StartAfter(old(start), end)
    {
      var psrc := Last(data);
      ghost var src, done, buf0 := psrc, 0, buf[..];
      AddZero(end);
      assert src[..0] == [];
      hide Add32, Last;
      while psrc != []
        invariant done <= |src| && psrc == src[done..]
        invariant start == old(start) && end == Add32(old(end), done)
        invariant buf[..] == PutAll(buf0, old(end), src[..done])
        decreases |psrc|
      {
        var copyLen := CopyChunk(psrc);
        PutAppend(buf0, old(end), src[..done], psrc[..copyLen]);
        AddAdd(old(end), done, copyLen);
        assert src[..done] + psrc[..copyLen] == src[..done + copyLen];
        psrc := psrc[copyLen..];
        done := done + copyLen;
      }
      assert src[..done] == src;
      if Sub32(end, start) > 4096 {
        start := Sub32(end, 4096);
      }
      CachedHolds(buf0, old(start), old(end), data);
    }

    /** flush_buffered_at and flush_log_buf, with the calls of mf_mbserial_send that carry
        bytes: what goes out is FlushPieces, and the ring is empty afterwards. */
    method Flush() returns (sent: seq<seq<Byte>>)
      requires Valid()
      modifies this`start
      ensures Valid() && end == old(end) && start == end && Contents() == []
      ensures sent == FlushPieces(buf[..], old(start), old(end))
    {
      sent := [];
      while start != end
        invariant Valid() && end == old(end)
        invariant sent == (if start == old(start) && old(start) != end then []
                           else FlushPieces(buf[..], old(start), old(end)))
        invariant start == old(start) || start == end
        decreases if start == end then 0 else 1
      {
        var s, e := start, end;
        start := end;
        FlushLengths(s, e);
        var boundary := AlignUp(s);
        if boundary < e {
          sent := sent + Piece(buf[..], s % 4096, ToInt(Sub32(boundary, s)));
          sent := sent + Piece(buf[..], boundary % 4096, ToInt(Sub32(e, boundary)));
        } else {
          sent := sent + Piece(buf[..], s % 4096, ToInt(Sub32(e, s)));
        }
      }
    }
  }

  lemma EndIs(start: U32, end: U32)
    ensures end == Add32(start, Sub32(end, start))
  {
  }

  lemma EndMoves(v: U32, end: U32, s: seq<Byte>, data: seq<Byte>)
    requires |s| == Sub32(end, v)
    ensures |Last(data)| == if |data| <= 4096 then |data| else 4096
    ensures Add32(v, |s| + |Last(data)|) == Add32(end, |Last(data)|)
  {
    AddAdd(v, |s|, |Last(data)|);
    EndIs(v, end);
  }

  /** The chunk a copy may fill runs to the next page start and is never empty. */
  lemma SpaceLeft(end: U32)
    ensures var space := ToInt(Sub32(AlignUp(Add32(end, 1)), end));
            0 < space <= 4096 && end % 4096 + space <= 4096
  {
    AlignUpIs(Add32(end, 1));
  }

  // ----------------------------------------------------------------- the line over time

  /** How many of the bytes mf_mbserial_send takes with so many blocks free, the port being up. */
  function Took(data: seq<Byte>, blocks: nat): (n: nat)
    ensures n <= |data| && (n + 511) / 512 <= blocks
  {
    S.Taken(true, |data|, blocks)
  }

  /** The bytes taken, and the blocks left, when some pieces are sent one after another. */
  function Passed(ps: seq<seq<Byte>>, blocks: nat): seq<Byte> {
    if ps == [] then []
    else
      var n := |ps| - 1;
      Passed(ps[..n], blocks) + ps[n][..Took(ps[n], Left(ps[..n], blocks))]
  }

  function Left(ps: seq<seq<Byte>>, blocks: nat): nat {
    if ps == [] then blocks
    else
      var n := |ps| - 1;
      Left(ps[..n], blocks) - (Took(ps[n], Left(ps[..n], blocks)) + 511) / 512
  }

  /** The AT line: up or down, the ring that holds bytes back while it is down, the bytes that
      mf_mbserial_send has taken, and the free blocks of the reserve pool. */
  datatype Line = Line(up: bool, buf: seq<Byte>, start: U32, end: U32, out: seq<Byte>, blocks: nat)

  /** Other lines use blocks, and the peer returns them: Pool is any change of their number. */
  datatype Event = Write(data: seq<Byte>) | Startup | Shutdown | Pool(blocks: nat)

  predicate Ok(l: Line) {
    |l.buf| == 4096 && Sub32(l.end, l.start) <= 4096 && (l.up ==> l.start == l.end)
  }

  function Held(l: Line): seq<Byte>
    requires Ok(l)
  {
    Stored(l.buf, l.start, Sub32(l.end, l.start))
  }

  /** Passed on, then held back. */
  function Total(l: Line): seq<Byte>
    requires Ok(l)
  {
    l.out + Held(l)
  }

  function Step(l: Line, e: Event): (r: Line)
    requires Ok(l)
    ensures Ok(r)
  {
    match e
    case Write(data) =>
      if l.up then l.(out := l.out + Passed([data], l.blocks), blocks := Left([data], l.blocks))
      else
        CachedHolds(l.buf, l.start, l.end, data);
        var end := Add32(l.end, |Last(data)|);
        l.(buf := PutAll(l.buf, l.end, Last(data)), end := end, start := StartAfter(l.start, end))
    case Startup =>
      var ps := FlushPieces(l.buf, l.start, l.end);
      l.(up := true, start := l.end, out := l.out + Passed(ps, l.blocks), blocks := Left(ps, l.blocks))
    case Shutdown => l.(up := false)
    case Pool(blocks) => l.(blocks := blocks)
  }

  function AfterEvents(l: Line, es: seq<Event>): (r: Line)
    requires Ok(l)
    ensures Ok(r)
  {
    if es == [] then l else Step(AfterEvents(l, es[..|es| - 1]), es[|es| - 1])
  }

  /** The bytes that mf_ATSend reports as sent: all while the line is down, and what
      mf_mbserial_send takes while it is up. */
  function Reported(l: Line, e: Event): seq<Byte> {
    match e
    case Write(data) => if l.up then data[..Took(data, l.blocks)] else data
    case _ => []
  }

  function AllReported(l: Line, es: seq<Event>): seq<Byte>
    requires Ok(l)
  {
    if es == [] then []
    else AllReported(l, es[..|es| - 1]) + Reported(AfterEvents(l, es[..|es| - 1]), es[|es| - 1])
  }

  /** A write while the line is down overfills the ring. */
  predicate Overfills(l: Line, e: Event)
    requires Ok(l)
  {
    e.Write? && !l.up && |Held(l)| + |e.data| > 4096
  }

  function BlocksFor(len: int): int {
    (len + 511) / 512
  }

  /** The blocks that passing on all that is held takes: one for each 512 bytes begun, in each
      of the two pieces. */
  function Needed(l: Line): int
    requires Ok(l)
  {
    if l.start == l.end then 0
    else if InLastPage(l.start, l.end) then BlocksFor(|Held(l)|)
    else BlocksFor(FirstLen(l.start, l.end)) + BlocksFor(SecondLen(l.start, l.end))
  }

  /** A startup finds fewer blocks than it takes. */
  predicate FallsShort(l: Line, e: Event)
    requires Ok(l)
  {
    e.Startup? && l.blocks < Needed(l)
  }

  /** A startup finds both indices strictly inside the last page below 2^32, and blocks for
      more than what is held. */
  predicate SendsMore(l: Line, e: Event)
    requires Ok(l)
  {
    e.Startup? && InLastPage(l.start, l.end) && 512 * l.blocks > |Held(l)|
  }

  predicate Drops(l: Line, e: Event)
    requires Ok(l)
  {
    Overfills(l, e) || FallsShort(l, e)
  }

  predicate NeverDrops(l: Line, es: seq<Event>)
    requires Ok(l)
  {
    es == [] || (NeverDrops(l, es[..|es| - 1]) && !Drops(AfterEvents(l, es[..|es| - 1]), es[|es| - 1]))
  }

  predicate NeverSendsMore(l: Line, es: seq<Event>)
    requires Ok(l)
  {
    es == [] || (NeverSendsMore(l, es[..|es| - 1]) && !SendsMore(AfterEvents(l, es[..|es| - 1]), es[|es| - 1]))
  }

  /** Everything reported as sent since l, after what l had, has been passed on or is held, in
      order. */
  predicate Kept(l: Line, es: seq<Event>)
    requires Ok(l)
  {
    Total(AfterEvents(l, es)) == Total(l) + AllReported(l, es)
  }

  predicate AlwaysKept(l: Line, es: seq<Event>)
    requires Ok(l)
  {
    Kept(l, es) && (es == [] || AlwaysKept(l, es[..|es| - 1]))
  }

  lemma PassedOne(p: seq<Byte>, blocks: nat)
    ensures Passed([p], blocks) == p[..Took(p, blocks)] && Left([p], blocks) == blocks - (Took(p, blocks) + 511) / 512
  {
    assert [p][..0] == [];
  }

  /** Two pieces: once the first is cut short nothing of the second goes out, so what goes out
      is a prefix, and all of it exactly when there are blocks for both. */
  lemma PassedParts(p: seq<Byte>, q: seq<Byte>, blocks: nat)
    ensures var r := Passed(Part(p) + Part(q), blocks);
            && r <= p + q
            && (r == p + q <==> blocks >= BlocksFor(|p|) + BlocksFor(|q|))
    ensures q == [] ==> Passed(Part(p) + Part(q), blocks) == p[..Took(p, blocks)]
  {
    PassedOne(p, blocks);
    PassedOne(q, blocks);
    S.TakenAll(|p|, blocks);
    if p != [] && q != [] {
      assert [p, q][..1] == [p];
      var left := Left([p], blocks);
      S.TakenAll(|q|, left);
      PassedPrefix(p, q, Took(p, blocks), Took(q, left));
    } else if p == [] {
      S.TakenAll(|q|, blocks);
    }
  }

  lemma PassedPrefix(p: seq<Byte>, q: seq<Byte>, n: nat, m: nat)
    requires n <= |p| && m <= |q| && (n < |p| ==> m == 0)
    ensures p[..n] + q[..m] <= p + q
    ensures p[..n] + q[..m] == p + q <==> n == |p| && m == |q|
  {
    var r := p[..n] + q[..m];
    assert forall i | 0 <= i < |r| :: r[i] == (p + q)[i];
    if r == p + q {
      assert |r| == |p| + |q|;
    }
  }

  lemma PassesOffLastPage(l: Line)
    requires Ok(l) && l.start != l.end && !InLastPage(l.start, l.end)
    ensures var r := Passed(FlushPieces(l.buf, l.start, l.end), l.blocks);
            r <= Held(l) && (r == Held(l) <==> l.blocks >= Needed(l))
  {
    FlushLengths(l.start, l.end);
    FlushAsStored(l.buf, l.start, l.end);
    var a, b := FirstLen(l.start, l.end), SecondLen(l.start, l.end);
    hide FirstLen, SecondLen, InLastPage, FlushPieces, Stored, At, Passed, Sub32, Part;
    StoredSplit(l.buf, l.start, a, b);
    PassedParts(Stored(l.buf, l.start, a), Stored(l.buf, l.start + a, b), l.blocks);
  }

  lemma PassesInLastPage(l: Line)
    requires Ok(l) && InLastPage(l.start, l.end)
    ensures var r, h, n := Passed(FlushPieces(l.buf, l.start, l.end), l.blocks), |Held(l)|, 512 * l.blocks;
            && (r == Held(l) <==> n == h)
            && (|r| < h <==> n < h)
            && (|r| > h <==> n > h)
  {
    FlushLengths(l.start, l.end);
    FlushAsStored(l.buf, l.start, l.end);
    var a, h := FirstLen(l.start, l.end), Sub32(l.end, l.start);
    hide FirstLen, SecondLen, InLastPage, FlushPieces, Stored, At, Passed, Sub32, Part;
    PassedParts(Stored(l.buf, l.start, a), Stored(l.buf, l.start + a, 0), l.blocks);
    var k := Took(Stored(l.buf, l.start, a), l.blocks);
    StoredFront(l.buf, l.start, a, k);
    StoredDiffers(l.buf, l.start, k, h);
  }

  /** What a startup passes on of what is held. */
  lemma StartupPasses(l: Line)
    requires Ok(l)
    ensures var r, h := Passed(FlushPieces(l.buf, l.start, l.end), l.blocks), Held(l);
            && (r == h <==> !FallsShort(l, Startup) && !SendsMore(l, Startup))
            && (|r| < |h| <==> FallsShort(l, Startup))
            && (|r| > |h| <==> SendsMore(l, Startup))
  {
    if l.start == l.end {
      assert Held(l) == [] && FlushPieces(l.buf, l.start, l.end) == [];
    } else {
      hide FirstLen, SecondLen, FlushPieces, Passed;
      if InLastPage(l.start, l.end) {
        PassesInLastPage(l);
      } else {
        PassesOffLastPage(l);
      }
      hide Stored, InLastPage, Sub32;
    }
  }

  lemma StoredFront(buf: seq<Byte>, start: int, n: nat, m: nat)
    requires |buf| == 4096 && m <= n
    ensures Stored(buf, start, n)[..m] == Stored(buf, start, m)
  {
  }

  lemma {:induction false} WriteTotal(l: Line, data: seq<Byte>)
    requires Ok(l)
    ensures var r, t := Step(l, Write(data)), Total(l) + Reported(l, Write(data));
            && (Total(r) == t <==> !Overfills(l, Write(data)))
            && (|Total(r)| < |t| <==> Overfills(l, Write(data)))
            && |Total(r)| <= |t|
  {
    if l.up {
      HeldWhileUp(l);
      WriteWhileUp(l, data);
      hide Step, Held, Reported;
      assert l.out + [] + data[..Min(|data|, 512 * l.blocks)] == l.out + data[..Min(|data|, 512 * l.blocks)] + [];
    } else {
      WriteWhileDown(l, data);
      hide Step, Held, Reported;
      NewestOf(l.out, Held(l), data);
    }
  }

  lemma HeldWhileUp(l: Line)
    requires Ok(l) && l.up
    ensures Held(l) == []
  {
  }

  lemma NewestOf(out: seq<Byte>, held: seq<Byte>, data: seq<Byte>)
    ensures var s := held + data;
            var r, t := out + s[|s| - Min(|s|, 4096)..], out + held + data;
            && (r == t <==> |s| <= 4096) && (|r| < |t| <==> |s| > 4096) && |r| <= |t|
  {
    var s := held + data;
    if |s| <= 4096 {
      assert s[0..] == s;
    }
    Assoc(out, held, data);
  }

  lemma {:induction false} StartupTotal(l: Line)
    requires Ok(l)
    ensures var r := Step(l, Startup);
            && (Total(r) == Total(l) <==> !FallsShort(l, Startup) && !SendsMore(l, Startup))
            && (|Total(r)| < |Total(l)| <==> FallsShort(l, Startup))
            && (|Total(r)| > |Total(l)| <==> SendsMore(l, Startup))
  {
    var r, sent := Step(l, Startup), Passed(FlushPieces(l.buf, l.start, l.end), l.blocks);
    StartupPasses(l);
    assert Held(r) == [];
    hide FlushPieces, Passed, Left, Stored, FallsShort, SendsMore;
    assert l.out + sent + [] == l.out + sent;
    AppendCancels(l.out, sent, Held(l));
  }

  /** What each event does to the total. */
  lemma {:induction false} StepTotal(l: Line, e: Event)
    requires Ok(l)
    ensures var t, r := Total(l) + Reported(l, e), Total(Step(l, e));
            && (r == t <==> !Drops(l, e) && !SendsMore(l, e))
            && (|r| < |t| <==> Drops(l, e))
            && (|r| > |t| <==> SendsMore(l, e))
  {
    match e
    case Write(data) =>
      WriteTotal(l, data);
    case Startup =>
      StartupTotal(l);
      assert Total(l) + [] == Total(l);
    case Shutdown =>
      assert Total(l) + [] == Total(l);
    case Pool(_) =>
      assert Total(l) + [] == Total(l);
  }

  lemma TotalMore(l: Line, es: seq<Event>)
    requires Ok(l) && es != []
    ensures var n := |es| - 1;
            Total(l) + AllReported(l, es)
            == (Total(l) + AllReported(l, es[..n])) + Reported(AfterEvents(l, es[..n]), es[n])
  {
    hide Total, Reported, AfterEvents;
  }

  /** While no startup sends more than is held: everything reported as sent is passed on or
      held, in order, if and only if no write overfilled the ring and no startup fell short of
      blocks; else there are fewer bytes. */
  lemma {:induction false} NothingDroppedIff(l: Line, es: seq<Event>)
    requires Ok(l) && NeverSendsMore(l, es)
    ensures |Total(AfterEvents(l, es))| <= |Total(l)| + |AllReported(l, es)|
    ensures Kept(l, es) <==> NeverDrops(l, es)
    ensures |Total(AfterEvents(l, es))| == |Total(l)| + |AllReported(l, es)| <==> NeverDrops(l, es)
  {
    if es == [] {
      assert Total(l) + [] == Total(l);
    } else {
      var n := |es| - 1;
      NothingDroppedIff(l, es[..n]);
      StepTotal(AfterEvents(l, es[..n]), es[n]);
      TotalMore(l, es);
      hide Total, Step, Drops, SendsMore, Reported;
    }
  }

  /** While nothing is dropped: everything reported as sent and nothing else is passed on or
      held, if and only if no startup sent more than was held; else there are more bytes. */
  lemma {:induction false} NothingAddedIff(l: Line, es: seq<Event>)
    requires Ok(l) && NeverDrops(l, es)
    ensures |Total(AfterEvents(l, es))| >= |Total(l)| + |AllReported(l, es)|
    ensures Kept(l, es) <==> NeverSendsMore(l, es)
    ensures |Total(AfterEvents(l, es))| == |Total(l)| + |AllReported(l, es)| <==> NeverSendsMore(l, es)
  {
    if es == [] {
      assert Total(l) + [] == Total(l);
    } else {
      var n := |es| - 1;
      NothingAddedIff(l, es[..n]);
      StepTotal(AfterEvents(l, es[..n]), es[n]);
      TotalMore(l, es);
      hide Total, Step, Drops, SendsMore, Reported;
    }
  }

  /** For every line and every sequence of writes, startups, shutdowns and changes of the pool:
      at every moment what was reported as sent is passed on or held, in order and nothing
      else, if and only if no write overfilled the ring, no startup fell short of blocks, and
      no startup in the last page had blocks for more than was held. */
  lemma {:induction false} AlwaysKeptIff(l: Line, es: seq<Event>)
    requires Ok(l)
    ensures AlwaysKept(l, es) <==> NeverDrops(l, es) && NeverSendsMore(l, es)
  {
    if es == [] {
      assert Total(l) + [] == Total(l);
    } else {
      var n := |es| - 1;
      AlwaysKeptIff(l, es[..n]);
      StepTotal(AfterEvents(l, es[..n]), es[n]);
      TotalMore(l, es);
      hide Total, Step, Drops, SendsMore, Reported;
      if AlwaysKept(l, es[..n]) {
        KeptLast(l, es[..n]);
      }
    }
  }

  lemma KeptLast(l: Line, es: seq<Event>)
    requires Ok(l) && AlwaysKept(l, es)
    ensures Kept(l, es)
  {
  }

  /** One byte written at the start of the last page and flushed, with a block free: it always
      fits, and yet more than it goes out. */
  lemma {:induction false} LastPageAddsBytes(buf: seq<Byte>, c: Byte, blocks: nat)
    requires |buf| == 4096 && blocks > 0
    ensures var l, es := Line(false, buf, 0xFFFF_F001, 0xFFFF_F001, [], blocks), [Write([c]), Startup];
            Ok(l) && NeverDrops(l, es) && !NeverSendsMore(l, es) && !Kept(l, es)
  {
    var l, es := Line(false, buf, 0xFFFF_F001, 0xFFFF_F001, [], blocks), [Write([c]), Startup];
    OneByteHeld(l, c);
    TwoEvents(l, es[0], es[1]);
    hide Step, NeverDrops, NeverSendsMore, Kept, Held;
    NothingAddedIff(l, es);
  }

  lemma OneByteHeld(l: Line, c: Byte)
    requires Ok(l) && !l.up && l.start == l.end == 0xFFFF_F001
    ensures var m := Step(l, Write([c]));
            m.end == 0xFFFF_F002 && m.start == 0xFFFF_F001 && |Held(m)| == 1 && m.blocks == l.blocks && |Held(l)| == 0
  {
    hide PutAll, Stored;
  }

  /** Whatever is held when the line comes up without a free block is lost, although the writes
      reported it as sent. */
  lemma {:induction false} NoBlocksLoseAll(l: Line)
    requires Ok(l) && l.blocks == 0
    ensures Total(Step(l, Startup)) == l.out
    ensures Kept(l, [Startup]) <==> Held(l) == []
  {
    var ps := FlushPieces(l.buf, l.start, l.end);
    PassedNone(ps);
    var r := Step(l, Startup);
    assert Held(r) == [];
    hide FlushPieces, Passed, Left, Stored;
    assert [Startup][..0] == [] && AfterEvents(l, [Startup]) == r;
    assert l.out + [] + [] == l.out + [];
    assert AllReported(l, [Startup]) == [];
    assert Total(l) + [] == Total(l);
    AppendCancels(l.out, [], Held(l));
  }

  lemma {:induction false} PassedNone(ps: seq<seq<Byte>>)
    ensures Passed(ps, 0) == [] && Left(ps, 0) == 0
  {
    if ps != [] {
      PassedNone(ps[..|ps| - 1]);
    }
  }

  lemma TwoEvents(l: Line, e: Event, f: Event)
    requires Ok(l)
    ensures var m := Step(l, e);
            && AfterEvents(l, [e, f]) == Step(m, f)
            && (NeverDrops(l, [e, f]) <==> !Drops(l, e) && !Drops(m, f))
            && (NeverSendsMore(l, [e, f]) <==> !SendsMore(l, e) && !SendsMore(m, f))
  {
    hide Step, Drops, SendsMore;
    assert [e, f][..1] == [e] && [e][..0] == [];
    assert AfterEvents(l, []) == l && NeverDrops(l, []) && NeverSendsMore(l, []);
    assert AfterEvents(l, [e]) == Step(l, e);
    assert NeverDrops(l, [e]) <==> !Drops(l, e);
    assert NeverSendsMore(l, [e]) <==> !SendsMore(l, e);
  }

  /** Some startup has no shutdown behind it, or the line was up and there is no shutdown. */
  ghost predicate LastToldUp(es: seq<Event>, up: bool) {
    || (exists i :: 0 <= i < |es| && es[i].Startup? && forall j | i < j < |es| :: !es[j].Shutdown?)
    || (up && forall j | 0 <= j < |es| :: !es[j].Shutdown?)
  }

  lemma LastToldMore(es: seq<Event>, e: Event, up: bool)
    ensures LastToldUp(es + [e], up) <==> e.Startup? || (LastToldUp(es, up) && !e.Shutdown?)
  {
    var all, n := es + [e], |es|;
    assert forall i | 0 <= i < n :: all[i] == es[i];
    assert all[n] == e;
    if LastToldUp(es, up) && !e.Shutdown? && !(up && forall j | 0 <= j < |es| :: !es[j].Shutdown?) {
      var i :| 0 <= i < |es| && es[i].Startup? && forall j | i < j < |es| :: !es[j].Shutdown?;
      assert all[i].Startup? && forall j | i < j < |all| :: !all[j].Shutdown?;
    }
  }

  /** For every sequence of events the line is up exactly when some startup has no shutdown
      behind it, or it was up and there was no shutdown. */
  lemma {:induction false} OpenAsLastTold(l: Line, es: seq<Event>)
    requires Ok(l)
    ensures AfterEvents(l, es).up <==>
            || (exists i :: 0 <= i < |es| && es[i].Startup? && forall j | i < j < |es| :: !es[j].Shutdown?)
            || (l.up && forall j | 0 <= j < |es| :: !es[j].Shutdown?)
  {
    hide AfterEvents;
    UpIsLastTold(l, es);
  }

  lemma NothingTold(up: bool)
    ensures LastToldUp([], up) == up
  {
  }

  lemma {:induction false} UpIsLastTold(l: Line, es: seq<Event>)
    requires Ok(l)
    ensures AfterEvents(l, es).up <==> LastToldUp(es, l.up)
  {
    hide Step, LastToldUp, Ok;
    if es == [] {
      NothingTold(l.up);
    } else {
      var n := |es| - 1;
      UpIsLastTold(l, es[..n]);
      UpStep(AfterEvents(l, es[..n]), es[n]);
      LastToldMore(es[..n], es[n], l.up);
      assert es[..n] + [es[n]] == es;
    }
  }

  lemma UpStep(l: Line, e: Event)
    requires Ok(l)
    ensures Step(l, e).up == (e.Startup? || (l.up && !e.Shutdown?))
  {
  }

  /** A write while the line is up: 512 bytes for each free block go out at once and are
      reported, each 512 begun use up a block, and nothing is held. */
  lemma {:induction false} WriteWhileUp(l: Line, data: seq<Byte>)
    requires Ok(l) && l.up
    ensures var r, n := Step(l, Write(data)), Min(|data|, 512 * l.blocks);
            && r.up && Held(r) == [] && r.out == l.out + data[..n] && r.blocks == l.blocks - (n + 511) / 512
            && Reported(l, Write(data)) == data[..n]
  {
    PassedOne(data, l.blocks);
  }

  /** A write while the line is down: nothing goes out, all is reported, and the ring ends up
      with the newest 4096 bytes of what it held and the data. */
  lemma {:induction false} WriteWhileDown(l: Line, data: seq<Byte>)
    requires Ok(l) && !l.up
    ensures var r, s := Step(l, Write(data)), Held(l) + data;
            && !r.up && r.out == l.out && r.blocks == l.blocks && Reported(l, Write(data)) == data
            && Held(r) == s[|s| - Min(|s|, 4096)..]
  {
    HeldAfterWrite(l, data);
    NewestIs(Held(l) + data);
    hide Held, Last, PutAll, Stored, Add32, Sub32, StartAfter;
  }

  lemma HeldAfterWrite(l: Line, data: seq<Byte>)
    requires Ok(l) && !l.up
    ensures Held(Step(l, Write(data))) == Last(Held(l) + data)
  {
    hide PutAll, Stored, Add32, Sub32, StartAfter, Last;
    CachedHolds(l.buf, l.start, l.end, data);
  }

  lemma NewestIs(s: seq<Byte>)
    ensures Last(s) == s[|s| - Min(|s|, 4096)..]
  {
  }

  /** From a startup on, and until the next shutdown, each write extends what has gone out by
      exactly what it reports, and nothing is held any more. */
  lemma {:induction false} OpenPassesOn(l: Line, es: seq<Event>)
    requires Ok(l) && forall i | 0 <= i < |es| :: !es[i].Shutdown?
    ensures var m := Step(l, Startup);
            var r := AfterEvents(m, es);
            r.up && Held(r) == [] && r.out == m.out + AllReported(m, es)
  {
    var m := Step(l, Startup);
    if es == [] {
      assert m.out + [] == m.out;
    } else {
      var n := |es| - 1;
      OpenPassesOn(l, es[..n]);
      var s := AfterEvents(m, es[..n]);
      if es[n].Write? {
        WriteWhileUp(s, es[n].data);
        Assoc(m.out, AllReported(m, es[..n]), Reported(s, es[n]));
      } else {
        assert m.out + (AllReported(m, es[..n]) + []) == s.out && s.out + [] == s.out;
      }
    }
  }

  /** The AT port of mbser_at.c; `sent` is what mf_mbserial_send has taken, `blocks` the free
      blocks of its reserve pool. */
  class AtPort {
    const channel: bool
    const ring: Ring
    var canSend: bool
    var sent: seq<Byte>
    var blocks: nat

    ghost predicate Valid()
      reads this, ring
    {
      ring.Valid() && (canSend ==> ring.start == ring.end)
    }

    ghost function View(): (l: Line)
      requires Valid()
      reads this, ring, ring.buf
      ensures Ok(l)
    {
      Line(canSend, ring.buf[..], ring.start, ring.end, sent, blocks)
    }

    /** Down and with nothing held, wherever the indices stand; `channel` says whether
        mf_mbserial_get has given a channel. */
    constructor (at: U32, channel: bool, blocks: nat)
      ensures Valid() && fresh(ring) && fresh(ring.buf) && this.channel == channel
      ensures View() == Line(false, ring.buf[..], at, at, [], blocks)
    {
      this.channel := channel;
      this.blocks := blocks;
      ring := new Ring(at);
      canSend := false;
      sent := [];
    }

    /** mf_mbserial_send on the channel, up, with the effect that Sender.MfMbserialSend of
        MbSerial has. */
    method MbserialSend(data: seq<Byte>) returns (doneBytes: nat)
      modifies this`sent, this`blocks
      ensures doneBytes == Took(data, old(blocks))
      ensures sent == old(sent) + data[..doneBytes] && blocks == old(blocks) - (doneBytes + 511) / 512
    {
      doneBytes := Took(data, blocks);
      sent, blocks := sent + data[..doneBytes], blocks - (doneBytes + 511) / 512;
    }

    /** The calls of mf_mbserial_send in flush_buffered_at, which ignores their results. */
    method SendPieces(pieces: seq<seq<Byte>>)
      modifies this`sent, this`blocks
      ensures sent == old(sent) + Passed(pieces, old(blocks)) && blocks == Left(pieces, old(blocks))
    {
      ghost var was, free := sent, blocks;
      assert was + [] == was;
      for i := 0 to |pieces|
        invariant sent == was + Passed(pieces[..i], free) && blocks == Left(pieces[..i], free)
      {
        assert pieces[..i + 1][..i] == pieces[..i];
        var taken := MbserialSend(pieces[i]);
        Assoc(was, Passed(pieces[..i], free), pieces[i][..taken]);
      }
      assert pieces[..|pieces|] == pieces;
    }

    /** mf_ATSend */
    method AtSend(data: seq<Byte>) returns (ret: int)
      requires Valid()
      modifies this`sent, this`blocks, ring`start, ring`end, ring.buf
      ensures Valid()
      ensures !channel ==> ret == 0 && View() == old(View())
      ensures channel ==> ret == |Reported(old(View()), Write(data))| && View() == Step(old(View()), Write(data))
    {
      if !channel {
        return 0;
      }
      if canSend {
        PassedOne(data, blocks);
        ret := MbserialSend(data);
      } else {
        ring.CacheAtSend(data);
        ret := |data|;
      }
    }

    /** The startup event: what was held goes out as far as there are blocks, whatever
        mf_mbserial_send says about it, and the line opens. */
    method OnStartup()
      requires Valid()
      modifies this`sent, this`blocks, this`canSend, ring`start
      ensures Valid() && View() == Step(old(View()), Startup) && canSend && ring.Contents() == []
    {
      hide FlushPieces, Passed, Left;
      var pieces := ring.Flush();
      SendPieces(pieces);
      canSend := true;
    }

    /** Blocks are used for other lines or come back. */
    method SetBlocks(blocks: nat)
      requires Valid()
      modifies this`blocks
      ensures Valid() && View() == Step(old(View()), Pool(blocks))
    {
      this.blocks := blocks;
    }

    method OnShutdown()
      requires Valid()
      modifies this`canSend
      ensures Valid() && View() == Step(old(View()), Shutdown) && !canSend
    {
      canSend := false;
    }
  }

  /** Any sequence of calls on a port with a channel takes it through the states of the line. */
  method Play(port: AtPort, es: seq<Event>)
    requires port.Valid() && port.channel
    modifies port`sent, port`blocks, port`canSend, port.ring`start, port.ring`end, port.ring.buf
    ensures port.Valid() && port.View() == AfterEvents(old(port.View()), es)
  {
    ghost var l := port.View();
    hide Step, PutAll, FlushPieces;
    for i := 0 to |es|
      invariant port.Valid() && port.View() == AfterEvents(l, es[..i])
    {
      assert es[..i + 1][..i] == es[..i];
      match es[i] {
        case Write(data) => var _ := port.AtSend(data);
        case Startup => port.OnStartup();
        case Shutdown => port.OnShutdown();
        case Pool(blocks) => port.SetBlocks(blocks);
      }
    }
    assert es[..|es|] == es;
  }

  lemma AppendCancels(a: seq<Byte>, b: seq<Byte>, c: seq<Byte>)
    ensures a + b == a + c <==> b == c
  {
    if a + b == a + c {
      assert b == (a + b)[|a|..] && c == (a + c)[|a|..];
    }
  }
}
