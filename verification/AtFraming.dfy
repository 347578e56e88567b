/** The receive side of the AT port (mbser_at.c): received chunks are cut into lines that
    end with CR or CR LF, what is left waits in atrecv_buf for the next chunk. */
module AtFraming {
  import opened Basics

  const NUL: Byte := 0
  const LF: Byte := 10
  const CR: Byte := 13
  const ATRECV_BUF_LEN: nat := 1024

  /** Neither a CR nor a NUL before index k. */
  predicate NoneOf(s: seq<Byte>, k: nat)
    requires k <= |s|
  {
    forall i | 0 <= i < k :: s[i] != CR && s[i] != NUL
  }

  /** strnchr for '\r': the first CR, unless a NUL comes before it. */
  function FindCr(s: seq<Byte>): (k: int)
    ensures -1 <= k < |s|
    ensures k >= 0 ==> s[k] == CR && NoneOf(s, k)
    ensures k < 0 && CR in s ==> exists i, j :: 0 <= i < j < |s| && s[i] == NUL && s[j] == CR
  {
    if s == [] || s[0] == NUL then -1
    else if s[0] == CR then 0
    else
      var k := FindCr(s[1..]);
      if k < 0 then -1 else k + 1
  }

  method StrNChr(s: seq<Byte>) returns (k: int)
    ensures k == FindCr(s)
  {
    k := 0;
    while k < |s| && s[k] != NUL
      invariant 0 <= k <= |s|
      invariant FindCr(s) == if FindCr(s[k..]) < 0 then -1 else k + FindCr(s[k..])
    {
      if s[k] == CR {
        return;
      }
      assert s[k..][1..] == s[k + 1..];
      k := k + 1;
    }
    k := -1;
  }

  /** The line takes the LF along when it is in the same chunk. */
  function LineLen(s: seq<Byte>, k: nat): (n: nat)
    requires k < |s|
    ensures k < n <= |s|
  {
    if k + 1 < |s| && s[k + 1] == LF then k + 2 else k + 1
  }

  /** Lines handed to mf_ATCmdRx, and what waits for more input. */
  datatype Framed = Framed(lines: seq<seq<Byte>>, residue: seq<Byte>)

  function Then(lines: seq<seq<Byte>>, f: Framed): Framed {
    Framed(lines + f.lines, f.residue)
  }

  lemma ThenThen(a: seq<seq<Byte>>, b: seq<seq<Byte>>, f: Framed)
    ensures Then(a, Then(b, f)) == Then(a + b, f)
  {
    assert a + (b + f.lines) == a + b + f.lines;
  }

  /** One chunk. */
  function Feed(residue: seq<Byte>, s: seq<Byte>): Framed
    decreases |s|
  {
    var k := FindCr(s);
    if k < 0 then Framed([], residue + s)
    else Then([residue + s[..LineLen(s, k)]], Feed([], s[LineLen(s, k)..]))
  }

  /** Chunk after chunk. */
  function FeedAll(residue: seq<Byte>, cs: seq<seq<Byte>>): Framed
    decreases |cs|
  {
    if cs == [] then Framed([], residue)
    else
      var f := Feed(residue, cs[0]);
      Then(f.lines, FeedAll(f.residue, cs[1..]))
  }

  // -------------------------------------------------------------------- nothing is lost

  function Total(f: Framed): seq<Byte> {
    Concat(f.lines) + f.residue
  }

  lemma TotalThen(lines: seq<seq<Byte>>, f: Framed)
    ensures Total(Then(lines, f)) == Concat(lines) + Total(f)
  {
    ConcatAppend(lines, f.lines);
    hide Concat;
    Assoc(Concat(lines), Concat(f.lines), f.residue);
  }

  lemma {:induction false} FeedKeepsAll(residue: seq<Byte>, s: seq<Byte>)
    ensures Total(Feed(residue, s)) == residue + s
    decreases |s|
  {
    var k := FindCr(s);
    FeedRound(residue, s);
    hide Feed, FindCr, Fits, Concat;
    if k >= 0 {
      var n := LineLen(s, k);
      FeedKeepsAll([], s[n..]);
      TotalThen([residue + s[..n]], Feed([], s[n..]));
      ConcatOne(residue + s[..n]);
      assert [] + s[n..] == s[n..] && s == s[..n] + s[n..];
      Assoc(residue, s[..n], s[n..]);
    } else {
      NoLines();
      assert [] + (residue + s) == residue + s;
    }
  }

  lemma NoLines()
    ensures Concat<Byte>([]) == []
  {
  }

  lemma ConcatFirst(cs: seq<seq<Byte>>)
    requires cs != []
    ensures Concat(cs) == cs[0] + Concat(cs[1..])
  {
    assert cs == [cs[0]] + cs[1..];
    ConcatAppend([cs[0]], cs[1..]);
    ConcatOne(cs[0]);
  }

  /** The lines and the residue, one after another, are all the input received, whatever
      bytes it holds and however it is cut. */
  lemma {:induction false} NothingLost(residue: seq<Byte>, cs: seq<seq<Byte>>)
    ensures Total(FeedAll(residue, cs)) == residue + Concat(cs)
    decreases |cs|
  {
    if cs != [] {
      var f := Feed(residue, cs[0]);
      FeedKeepsAll(residue, cs[0]);
      NothingLost(f.residue, cs[1..]);
      TotalThen(f.lines, FeedAll(f.residue, cs[1..]));
      ConcatFirst(cs);
      hide Concat, Feed, FindCr;
      Assoc(Concat(f.lines), f.residue, Concat(cs[1..]));
      Assoc(residue, cs[0], Concat(cs[1..]));
    }
  }

  // ----------------------------------------------------------------- the shape of a line

  /** Exactly one CR, at the end or just before a final LF. */
  predicate IsLine(l: seq<Byte>) {
    || (|l| >= 1 && l[|l| - 1] == CR && CR !in l[..|l| - 1])
    || (|l| >= 2 && l[|l| - 1] == LF && l[|l| - 2] == CR && CR !in l[..|l| - 2])
  }

  predicate WellFramed(f: Framed) {
    (forall l | l in f.lines :: IsLine(l)) && CR !in f.residue
  }

  /** No CR follows a NUL; NUL-free input is clean. */
  predicate Clean(s: seq<Byte>) {
    forall i, j | 0 <= i < j < |s| :: s[i] == NUL ==> s[j] != CR
  }

  lemma LineIff(residue: seq<Byte>, s: seq<Byte>, k: nat)
    requires k < |s| && s[k] == CR && NoneOf(s, k)
    ensures IsLine(residue + s[..LineLen(s, k)]) <==> CR !in residue
  {
    var n := LineLen(s, k);
    var l := residue + s[..n];
    assert l[|residue| + k] == CR;
    if CR !in residue {
      assert l[..|residue| + k] == residue + s[..k];
    } else {
      var j :| 0 <= j < |residue| && residue[j] == CR;
      assert l[..|l| - 1][j] == CR;
      if n == k + 2 {
        assert l[..|l| - 2][j] == CR;
      }
    }
  }

  lemma ThenWellFramed(lines: seq<seq<Byte>>, f: Framed)
    ensures WellFramed(Then(lines, f)) <==> (forall l | l in lines :: IsLine(l)) && WellFramed(f)
  {
  }

  lemma CleanRest(s: seq<Byte>, k: nat)
    requires k < |s| && s[k] == CR && NoneOf(s, k)
    ensures Clean(s) <==> Clean(s[LineLen(s, k)..])
  {
    var n := LineLen(s, k);
    var t := s[n..];
    if Clean(s) {
      forall i, j | 0 <= i < j < |t| ensures t[i] == NUL ==> t[j] != CR {
        assert t[i] == s[n + i] && t[j] == s[n + j];
      }
    }
    if Clean(t) {
      forall i, j | 0 <= i < j < |s| ensures s[i] == NUL ==> s[j] != CR {
        if i >= n {
          assert t[i - n] == s[i] && t[j - n] == s[j];
        }
      }
    }
  }

  lemma {:induction false} FeedWellFramed(residue: seq<Byte>, s: seq<Byte>)
    ensures WellFramed(Feed(residue, s)) <==> CR !in residue && Clean(s)
    decreases |s|
  {
    var k := FindCr(s);
    if k >= 0 {
      var n := LineLen(s, k);
      var line, rest := [residue + s[..n]], Feed([], s[n..]);
      FeedWellFramed([], s[n..]);
      ThenWellFramed(line, rest);
      LineIff(residue, s, k);
      CleanRest(s, k);
    } else {
      FirstCr(s);
    }
  }

  /** Clean input has its CR found whenever it has one. */
  lemma FirstCr(s: seq<Byte>)
    ensures FindCr(s) < 0 ==> (Clean(s) <==> CR !in s)
  {
  }

  /** For every run: each delivered line has its one CR at the end or just before a final
      LF, and the residue has none, if and only if no chunk has a CR after a NUL. */
  lemma {:induction false} FramingIffClean(residue: seq<Byte>, cs: seq<seq<Byte>>)
    ensures WellFramed(FeedAll(residue, cs)) <==> CR !in residue && forall c | c in cs :: Clean(c)
    decreases |cs|
  {
    if cs != [] {
      var f := Feed(residue, cs[0]);
      FeedWellFramed(residue, cs[0]);
      FramingIffClean(f.residue, cs[1..]);
      ThenWellFramed(f.lines, FeedAll(f.residue, cs[1..]));
      assert cs == [cs[0]] + cs[1..];
    }
  }

  // ------------------------------------------------------------------ cutting the input

  /** A cut between the CR and the LF of one line end. */
  predicate SplitsPair(a: seq<Byte>, b: seq<Byte>) {
    a != [] && b != [] && a[|a| - 1] == CR && b[0] == LF
  }

  lemma CleanParts(a: seq<Byte>, b: seq<Byte>)
    requires Clean(a + b)
    ensures Clean(a) && Clean(b)
    ensures NUL in a ==> CR !in b
  {
    var s := a + b;
    assert forall i | 0 <= i < |a| :: a[i] == s[i];
    assert forall i | 0 <= i < |b| :: b[i] == s[|a| + i];
  }

  /** The search in front of more input. */
  lemma FindAppend(a: seq<Byte>, b: seq<Byte>)
    requires Clean(a + b)
    ensures FindCr(a) >= 0 ==> FindCr(a + b) == FindCr(a)
    ensures FindCr(a) < 0 ==> FindCr(a + b) == if FindCr(b) < 0 then -1 else |a| + FindCr(b)
  {
    var s := a + b;
    CleanParts(a, b);
    FirstCr(a);
    FirstCr(b);
    FirstCr(s);
    assert FindCr(a) < 0 ==> CR !in a;
    var j := FindCr(s);
    if FindCr(a) >= 0 {
      assert s[FindCr(a)] == CR;
      assert forall i | 0 <= i < FindCr(a) :: s[i] == a[i];
    } else if FindCr(b) >= 0 {
      assert s[|a| + FindCr(b)] == CR;
      assert forall i | 0 <= i < FindCr(b) :: s[|a| + i] == b[i];
      assert j >= |a| && b[j - |a|] == CR;
    } else {
      assert CR !in s;
    }
  }

  /** Feeding a and then b is feeding them at once when the cut does not split a pair. */
  lemma {:induction false} FeedAppend(residue: seq<Byte>, a: seq<Byte>, b: seq<Byte>)
    requires Clean(a + b) && !SplitsPair(a, b)
    ensures var f := Feed(residue, a); Feed(residue, a + b) == Then(f.lines, Feed(f.residue, b))
    decreases |a|
  {
    var s, k := a + b, FindCr(a);
    FindAppend(a, b);
    if k >= 0 {
      var n := LineLen(a, k);
      CleanRest(s, k);
      assert LineLen(s, k) == n && s[..n] == a[..n] && s[n..] == a[n..] + b;
      FeedAppend([], a[n..], b);
      var f := Feed([], a[n..]);
      ThenThen([residue + a[..n]], f.lines, Feed(f.residue, b));
    } else {
      FeedLate(residue, a, b);
    }
  }

  lemma FeedLate(residue: seq<Byte>, a: seq<Byte>, b: seq<Byte>)
    requires FindCr(a) < 0 && FindCr(a + b) == if FindCr(b) < 0 then -1 else |a| + FindCr(b)
    ensures Feed(residue, a + b) == Then([], Feed(residue + a, b))
  {
    var s, j := a + b, FindCr(b);
    ThenNone(Feed(residue + a, b));
    hide FindCr, NoneOf;
    if j >= 0 {
      var n := LineLen(b, j);
      assert LineLen(s, |a| + j) == |a| + n;
      hide LineLen;
      assert s[|a| + n..] == b[n..];
      assert s[..|a| + n] == a + b[..n];
      Assoc(residue, a, b[..n]);
    } else {
      Assoc(residue, a, b);
    }
  }

  lemma ThenNone(f: Framed)
    ensures Then([], f) == f
  {
    assert [] + f.lines == f.lines;
  }

  /** The last line of f is in its place another line in g. */
  predicate Shows(f: Framed, g: Framed) {
    0 < |f.lines| <= |g.lines| && f.lines[|f.lines| - 1] != g.lines[|f.lines| - 1]
  }

  lemma ShowsBehind(line: seq<Byte>, f: Framed, g: Framed)
    requires Shows(f, g)
    ensures Shows(Then([line], f), Then([line], g))
  {
    var n := |f.lines|;
    assert ([line] + f.lines)[n] == f.lines[n - 1] && ([line] + g.lines)[n] == g.lines[n - 1];
  }

  /** The first line end of a split input, with and without what follows. */
  lemma SplitFinds(a: seq<Byte>, b: seq<Byte>)
    requires Clean(a + b) && SplitsPair(a, b)
    ensures var s, k := a + b, FindCr(a);
            && k >= 0 && FindCr(s) == k
            && var n := LineLen(a, k);
               && (n < |a| ==> Clean(s[n..]) && SplitsPair(a[n..], b))
               && (n == |a| ==> LineLen(s, k) == n + 1)
  {
    hide FindCr, NoneOf, Clean;
    var s, k := a + b, FindCr(a);
    FindAppend(a, b);
    CleanParts(a, b);
    EndsWithCr(a);
    if LineLen(a, k) < |a| {
      CleanRest(s, k);
      CutLater(a, b, k);
    }
  }

  lemma EndsWithCr(a: seq<Byte>)
    requires Clean(a) && a != [] && a[|a| - 1] == CR
    ensures FindCr(a) >= 0
  {
    FirstCr(a);
  }

  /** A cut through a pair shows: the line before the cut ends at its CR, uncut it has the
      LF as well. */
  lemma {:induction false} SplitShows(residue: seq<Byte>, a: seq<Byte>, b: seq<Byte>)
    requires Clean(a + b) && SplitsPair(a, b)
    ensures Shows(Feed(residue, a), Feed(residue, a + b))
    decreases |a|
  {
    hide Feed, FindCr, NoneOf, Fits, Clean, SplitsPair;
    var s, k := a + b, FindCr(a);
    SplitFinds(a, b);
    FeedRound(residue, a);
    FeedRound(residue, s);
    var n := LineLen(a, k);
    if n < |a| {
      CutLater(a, b, k);
      hide Shows, Then, LineLen;
      SplitShows([], a[n..], b);
      ShowsBehind(residue + a[..n], Feed([], a[n..]), Feed([], s[n..]));
    } else {
      FeedNothing([]);
      hide LineLen;
      assert a[n..] == [];
      assert |residue + s[..n + 1]| != |residue + a[..n]|;
    }
  }

  /** A line that ends before the cut is the same with more input behind it. */
  lemma CutLater(a: seq<Byte>, b: seq<Byte>, k: nat)
    requires k < |a| && LineLen(a, k) < |a|
    ensures var n := LineLen(a, k);
            LineLen(a + b, k) == n && (a + b)[..n] == a[..n] && (a + b)[n..] == a[n..] + b
  {
  }

  /** Somewhere in the sequence of chunks a cut goes through a pair. */
  predicate SomeSplit(cs: seq<seq<Byte>>) {
    cs != [] && (SplitsPair(cs[0], Concat(cs[1..])) || SomeSplit(cs[1..]))
  }

  /** The result does not depend on how clean input is cut, if and only if no cut goes
      between a CR and its LF. */
  lemma {:induction false} ChunkingIsInvisible(residue: seq<Byte>, cs: seq<seq<Byte>>)
    requires Clean(Concat(cs))
    ensures FeedAll(residue, cs) == Feed(residue, Concat(cs)) <==> !SomeSplit(cs)
    decreases |cs|
  {
    if cs != [] {
      var c, rest := cs[0], Concat(cs[1..]);
      ConcatFirst(cs);
      CleanParts(c, rest);
      var f := Feed(residue, c);
      if SplitsPair(c, rest) {
        SplitShows(residue, c, rest);
      } else {
        FeedAppend(residue, c, rest);
        ChunkingIsInvisible(f.residue, cs[1..]);
        ThenCancels(f.lines, FeedAll(f.residue, cs[1..]), Feed(f.residue, rest));
      }
    }
  }

  lemma ThenCancels(lines: seq<seq<Byte>>, f: Framed, g: Framed)
    ensures Then(lines, f) == Then(lines, g) <==> f == g
  {
    if Then(lines, f) == Then(lines, g) {
      assert f.lines == (lines + f.lines)[|lines|..] && g.lines == (lines + g.lines)[|lines|..];
    }
  }

  // ------------------------------------------------------------------------ the buffer

  /** Nothing in this chunk overruns atrecv_buf, which the source does not check. */
  predicate Fits(residue: seq<Byte>, s: seq<Byte>)
    decreases |s|
  {
    var k := FindCr(s);
    if k < 0 then |residue| + |s| <= ATRECV_BUF_LEN
    else |residue| + LineLen(s, k) <= ATRECV_BUF_LEN && Fits([], s[LineLen(s, k)..])
  }

  /** The buffer suffices exactly when every line and the residue do. */
  lemma {:induction false} FitsIffLinesDo(residue: seq<Byte>, s: seq<Byte>)
    ensures Fits(residue, s) <==>
            var f := Feed(residue, s);
            |f.residue| <= ATRECV_BUF_LEN && forall l | l in f.lines :: |l| <= ATRECV_BUF_LEN
    decreases |s|
  {
    var k := FindCr(s);
    if k >= 0 {
      var n := LineLen(s, k);
      var f := Feed([], s[n..]);
      FitsIffLinesDo([], s[n..]);
      assert Feed(residue, s).lines == [residue + s[..n]] + f.lines;
      assert |(residue + s[..n])| == |residue| + n;
    }
  }

  /** atrecv_buf and arb_end; `delivered` is what mf_ATCmdRx has been given. */
  class Framer {
    const atrecvBuf: array<Byte>
    var arbEnd: nat
    var delivered: seq<seq<Byte>>

    ghost predicate Valid()
      reads this
    {
      atrecvBuf.Length == ATRECV_BUF_LEN && arbEnd <= ATRECV_BUF_LEN
    }

    ghost function View(): Framed
      requires Valid()
      reads this, atrecvBuf
    {
      Framed(delivered, atrecvBuf[..arbEnd])
    }

    constructor ()
      ensures Valid() && fresh(atrecvBuf) && View() == Framed([], [])
    {
      atrecvBuf := new Byte[ATRECV_BUF_LEN];
      arbEnd := 0;
      delivered := [];
    }

    /** memcpy to &atrecv_buf[arb_end] and the move of arb_end. */
    method Append(d: seq<Byte>)
      requires Valid() && arbEnd + |d| <= ATRECV_BUF_LEN
      modifies atrecvBuf, this`arbEnd
      ensures Valid() && View() == Framed(old(View()).lines, old(View()).residue + d)
    {
      forall i | 0 <= i < |d| {
        atrecvBuf[arbEnd + i] := d[i];
      }
      assert atrecvBuf[arbEnd..arbEnd + |d|] == d;
      arbEnd := arbEnd + |d|;
    }

    /** mf_ATCmdRx with the buffered line. */
    method Deliver()
      requires Valid()
      modifies this`delivered, this`arbEnd
      ensures Valid() && View() == Framed(old(View()).lines + [old(View()).residue], [])
    {
      delivered := delivered + [atrecvBuf[..arbEnd]];
      arbEnd := 0;
    }

    /** One round of cache_atrecv_buffer: up to the next line end, or all that is left. */
    method Round(p: seq<Byte>) returns (rest: seq<Byte>)
      requires Valid() && p != [] && Fits(View().residue, p)
      modifies this`delivered, this`arbEnd, atrecvBuf
      ensures Valid() && |rest| < |p| && Fits(View().residue, rest)
      ensures Then(View().lines, Feed(View().residue, rest)) == Then(old(View()).lines, Feed(old(View()).residue, p))
    {
      ghost var v := View();
      FeedRound(v.residue, p);
      var k := StrNChr(p);
      hide Feed, Fits, FindCr;
      if k >= 0 {
        var num := k + 1;
        if num < |p| && p[k + 1] == LF {
          num := num + 1;
        }
        Append(p[..num]);
        Deliver();
        rest := p[num..];
        ThenThen(v.lines, [v.residue + p[..num]], Feed([], rest));
      } else {
        Append(p);
        rest := [];
        FeedNothing(v.residue + p);
      }
    }

    /** cache_atrecv_buffer */
    method CacheAtRecv(buf: seq<Byte>)
      requires Valid() && Fits(View().residue, buf)
      modifies this, atrecvBuf
      ensures Valid() && View() == Then(old(View()).lines, Feed(old(View()).residue, buf))
    {
      var p := buf;
      hide Feed, Fits;
      while p != []
        invariant Valid() && Fits(View().residue, p)
        invariant Then(View().lines, Feed(View().residue, p)) == Then(old(View()).lines, Feed(old(View()).residue, buf))
        decreases |p|
      {
        p := Round(p);
      }
      FeedNothing(View().residue);
    }
  }

  lemma FeedRound(residue: seq<Byte>, p: seq<Byte>)
    ensures var k := FindCr(p);
            if k < 0 then
              Feed(residue, p) == Framed([], residue + p) && (Fits(residue, p) ==> |residue| + |p| <= ATRECV_BUF_LEN)
            else
              var n := LineLen(p, k);
              && Feed(residue, p) == Then([residue + p[..n]], Feed([], p[n..]))
              && (Fits(residue, p) ==> |residue| + n <= ATRECV_BUF_LEN && Fits([], p[n..]))
  {
  }

  lemma FeedNothing(residue: seq<Byte>)
    ensures Feed(residue, []) == Framed([], residue)
    ensures |residue| <= ATRECV_BUF_LEN ==> Fits(residue, [])
  {
    assert residue + [] == residue;
  }
}
