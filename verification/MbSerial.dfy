/** The virtual serial port (mf_mbserial.c) over a reserve pool of request blocks
    (mreqb_reservep.c): a send is cut into payloads of at most 512 bytes, one block each,
    as long as the pool has blocks; the peer hands each payload to its notifiers. */
module MbSerial {
  import opened Basics

  const PRE_ALLOC_DATA_SIZE: nat := 512
  const PRE_ALLOC_MREQ_NUM: nat := 32
  const MAX_MBSERIAL_NUM: nat := 8
  const C_SERIAL_REQUEST: nat := 2
  const MBSERIAL_CMD_STARTUP: nat := 0
  const MBSERIAL_CMD_SHUTDOWN: nat := 1
  const MBSERIAL_CMD_DATA_TRANSFER: nat := 2

  /** What a DATA_TRANSFER block means to the peer. */
  datatype Packet = Packet(line: nat, payload: seq<Byte>)

  /** The packets one accepted stretch of bytes becomes. */
  function Fragments(line: nat, d: seq<Byte>): seq<Packet> {
    if d == [] then []
    else
      var n := Min(PRE_ALLOC_DATA_SIZE, |d|);
      [Packet(line, d[..n])] + Fragments(line, d[n..])
  }

  lemma {:induction false} FragmentSizes(line: nat, d: seq<Byte>)
    ensures forall p | p in Fragments(line, d) :: p.line == line && 1 <= |p.payload| <= PRE_ALLOC_DATA_SIZE
    decreases |d|
  {
    if d != [] {
      FragmentSizes(line, d[Min(PRE_ALLOC_DATA_SIZE, |d|)..]);
    }
  }

  /** The bytes a sequence of packets carries on one line. */
  function Stream(line: nat, ps: seq<Packet>): seq<Byte> {
    if ps == [] then []
    else Stream(line, ps[..|ps| - 1]) + (if ps[|ps| - 1].line == line then ps[|ps| - 1].payload else [])
  }

  lemma {:induction false} StreamAppend(line: nat, p: seq<Packet>, q: seq<Packet>)
    ensures Stream(line, p + q) == Stream(line, p) + Stream(line, q)
    decreases |q|
  {
    if q == [] {
      assert p + q == p;
    } else {
      var n := |q| - 1;
      assert (p + q)[..|p| + n] == p + q[..n];
      StreamAppend(line, p, q[..n]);
    }
  }

  lemma StreamOne(line: nat, p: Packet)
    ensures Stream(line, [p]) == if p.line == line then p.payload else []
  {
    assert [p][..0] == [];
  }

  /** Cutting loses nothing, adds nothing to other lines, and takes the fewest blocks. */
  lemma {:induction false} FragmentsKeepBytes(line: nat, d: seq<Byte>, other: nat)
    ensures Stream(other, Fragments(line, d)) == if other == line then d else []
    ensures |Fragments(line, d)| == (|d| + 511) / 512
    decreases |d|
  {
    if d == [] {
      StreamNone(other);
    } else {
      var n := Min(PRE_ALLOC_DATA_SIZE, |d|);
      FragmentsKeepBytes(line, d[n..], other);
      StreamAppend(other, [Packet(line, d[..n])], Fragments(line, d[n..]));
      StreamOne(other, Packet(line, d[..n]));
      hide Stream;
      assert d == d[..n] + d[n..];
      FewestMore(|d|);
    }
  }

  lemma StreamNone(line: nat)
    ensures Stream(line, []) == []
  {
  }

  lemma FewestMore(len: nat)
    requires len > 0
    ensures 1 + (len - Min(PRE_ALLOC_DATA_SIZE, len) + 511) / 512 == (len + 511) / 512
  {
  }

  // -------------------------------------------------------------------- request blocks

  const MREQB_MAGIC: nat := 0x4251_4552

  /** A request block; argc is |args|, `context` is a pointer as a word, and `completes` says
      that a completion is set. Its list node is the subject of ListHead. */
  class Mreqb {
    var magic: nat
    var cmd: nat
    var subcmd: nat
    var args: seq<int>
    var cacheUpdates: seq<(int, int)>
    var result: int
    var prio: int
    var context: int
    var completes: bool
    const extraData: array<Byte>

    /** MREQB_GET_ARG: argv starts out as zeros. */
    function GetArg(i: nat): int
      reads this
    {
      if i < |args| then args[i] else 0
    }

    ghost predicate Blank()
      reads this
    {
      && magic == MREQB_MAGIC && cmd == 0 && subcmd == 0 && args == [] && cacheUpdates == []
      && result == 0 && prio == 0 && context == 0 && !completes
    }

    /** What the peer reads out of the block: the command, argument 0 and 1, the data. */
    ghost predicate Carries(p: Packet)
      reads this, extraData
    {
      && magic == MREQB_MAGIC && cmd == C_SERIAL_REQUEST && subcmd == MBSERIAL_CMD_DATA_TRANSFER
      && args == [p.line, |p.payload|]
      && |p.payload| <= extraData.Length && extraData[..|p.payload|] == p.payload
    }

    ghost predicate Holds(p: Packet)
      reads this, extraData
    {
      && magic == 0x4251_4552 && cmd == 2 && subcmd == 2 && |args| == 2
      && args[0] == p.line && args[1] == |p.payload| <= extraData.Length
      && extraData[..args[1]] == p.payload
    }

    lemma CarriesAll(p: Packet)
      requires Carries(p)
      ensures Holds(p)
    {
    }

    constructor (extraDataSize: nat)
      ensures Blank() && fresh(extraData) && extraData.Length == extraDataSize
    {
      magic, cmd, subcmd, args, cacheUpdates := MREQB_MAGIC, 0, 0, [], [];
      result, prio, context, completes := 0, 0, 0, false;
      extraData := new Byte[extraDataSize];
    }

    /** mreqb_reinit: all zero but for the magic number and the extra data. */
    method Reinit()
      modifies this
      ensures Blank()
      ensures magic == 0x4251_4552 && cmd == 0 && subcmd == 0 && args == [] && cacheUpdates == []
      ensures result == 0 && prio == 0 && context == 0 && !completes
    {
      magic, cmd, subcmd, args, cacheUpdates := MREQB_MAGIC, 0, 0, [], [];
      result, prio, context, completes := 0, 0, 0, false;
    }

    /** MREQB_PUSH_ARG: argv has eight places. */
    method PushArg(a: int)
      requires |args| < 8
      modifies this`args
      ensures args == old(args) + [a]
    {
      args := args + [a];
    }

    /** The data and the command of one fragment. */
    method Fill(line: nat, d: seq<Byte>)
      requires Blank() && |d| <= extraData.Length
      modifies this, extraData
      ensures Carries(Packet(line, d))
      ensures cmd == 2 && subcmd == 2 && GetArg(0) == line && GetArg(1) == |d| && completes
      ensures extraData[..|d|] == d
    {
      forall i | 0 <= i < |d| {
        extraData[i] := d[i];
      }
      cmd := C_SERIAL_REQUEST;
      subcmd := MBSERIAL_CMD_DATA_TRANSFER;
      PushArg(line);
      PushArg(|d|);
      completes := true;
    }
  }

  /** No two places of the list share a block or its data. */
  ghost predicate Apart(rs: seq<Mreqb>) {
    forall i, j | 0 <= i < j < |rs| :: rs[i] != rs[j] && rs[i].extraData != rs[j].extraData
  }

  ghost function Footprint(rs: seq<Mreqb>): set<object> {
    (set r: Mreqb | r in rs :: r as object) + (set r: Mreqb | r in rs :: r.extraData as object)
  }

  /** Taking the first block to the end of the other list. */
  lemma ApartMove(r: Mreqb, free: seq<Mreqb>, used: seq<Mreqb>)
    requires Apart([r] + free + used)
    ensures Apart(free + (used + [r])) && Apart(free)
    ensures forall q | q in free || q in used :: q != r && q.extraData != r.extraData
  {
    var a, b := [r] + free + used, free + (used + [r]);
    var n := |free| + |used|;
    assert a[0] == r && b[n] == r;
    assert forall i | 0 <= i < n :: b[i] == a[i + 1];
    assert forall i | 0 <= i < |free| :: free[i] == a[i + 1];
    assert forall i | 0 <= i < |used| :: used[i] == a[|free| + i + 1];
  }

  class ReservePool {
    const extraDataSize: nat
    var free: seq<Mreqb>

    ghost predicate Valid()
      reads this, free
    {
      && Apart(free)
      && forall r | r in free :: r.Blank() && r.extraData.Length == extraDataSize
    }

    /** mreqb_reservepool_create */
    constructor (preallocNum: nat, extraDataSize: nat)
      ensures Valid() && |free| == preallocNum && this.extraDataSize == extraDataSize
      ensures forall r | r in free :: fresh(r) && fresh(r.extraData)
    {
      this.extraDataSize := extraDataSize;
      free := [];
      new;
      for i := 0 to preallocNum
        invariant Valid() && |free| == i
        invariant forall r | r in free :: fresh(r) && fresh(r.extraData)
      {
        var mreq := new Mreqb(extraDataSize);
        free := free + [mreq];
      }
    }

    /** mreqb_reservepool_alloc: the block freed longest ago, or NULL. */
    method Alloc() returns (mreq: Mreqb?)
      requires Valid()
      modifies this`free
      ensures Valid()
      ensures mreq == null <==> old(free) == []
      ensures mreq == null ==> free == []
      ensures mreq != null ==> old(free) == [mreq] + free && mreq !in free && mreq.Blank()
    {
      if free == [] {
        mreq := null;
      } else {
        mreq := free[0];
        free := free[1..];
      }
    }

    /** mreqb_reservepool_free: whatever the peer left in it, the block is as new. */
    method Free(mreq: Mreqb)
      requires Valid() && Apart(free + [mreq]) && mreq.extraData.Length == extraDataSize
      modifies this`free, mreq
      ensures Valid() && free == old(free) + [mreq]
    {
      assert forall i | 0 <= i < |free| :: (free + [mreq])[i] == free[i];
      assert (free + [mreq])[|free|] == mreq;
      mreq.Reinit();
      free := free + [mreq];
    }
  }

  // ----------------------------------------------------------------------- sending

  const PORT_STATUS_UP: bv32 := 1

  class Port {
    const line: nat
    var status: bv32

    constructor (line: nat)
      ensures this.line == line && status == 0
    {
      this.line, status := line, 0;
    }

    predicate Up()
      reads this
    {
      status & PORT_STATUS_UP != 0
    }
  }

  /** How many bytes a send takes: none when there are none or nobody listens, else all
      that the free blocks have room for. */
  function Taken(up: bool, len: int, blocks: nat): nat {
    if len <= 0 || !up then 0 else Min(len, PRE_ALLOC_DATA_SIZE * blocks)
  }

  lemma TakenAll(len: nat, blocks: nat)
    ensures Taken(true, len, blocks) == len <==> blocks >= (len + 511) / 512
  {
  }

  /** The sending side: the pool, and the blocks handed to mreqb_submit with the packets
      they carry. `wire` is the whole history of packets. */
  class Sender {
    const pool: ReservePool
    var inFlight: seq<Mreqb>
    var packets: seq<Packet>
    var wire: seq<Packet>

    ghost predicate Valid()
      reads this, pool, pool.free, inFlight, set r | r in inFlight :: r.extraData
    {
      && pool.Valid() && pool.extraDataSize == PRE_ALLOC_DATA_SIZE
      && Apart(pool.free + inFlight)
      && (forall r | r in inFlight :: r.extraData.Length == PRE_ALLOC_DATA_SIZE)
      && |inFlight| == |packets|
      && forall k | 0 <= k < |inFlight| :: inFlight[k].Carries(packets[k])
    }

    constructor ()
      ensures Valid() && |pool.free| == PRE_ALLOC_MREQ_NUM && inFlight == [] && wire == []
      ensures fresh(pool) && fresh(Footprint(pool.free))
    {
      pool := new ReservePool(PRE_ALLOC_MREQ_NUM, PRE_ALLOC_DATA_SIZE);
      inFlight, packets, wire := [], [], [];
    }

    /** One round of the loop of mf_mbserial_send; n is 0 when the pool is empty. */
    method SendOne(line: nat, psrc: seq<Byte>) returns (n: nat)
      requires Valid() && psrc != []
      modifies this`inFlight, this`packets, this`wire, pool`free, Footprint(pool.free)
      ensures Valid()
      ensures old(pool.free) == [] ==>
                n == 0 && pool.free == [] && inFlight == old(inFlight) && packets == old(packets) && wire == old(wire)
      ensures old(pool.free) != [] ==>
                && n == Min(PRE_ALLOC_DATA_SIZE, |psrc|)
                && |pool.free| == |old(pool.free)| - 1 && inFlight + pool.free == old(inFlight + pool.free)
                && Footprint(pool.free) <= old(Footprint(pool.free))
                && packets == old(packets) + [Packet(line, psrc[..n])]
                && wire == old(wire) + [Packet(line, psrc[..n])]
    {
      ghost var was := pool.free;
      var request := pool.Alloc();
      if request == null {
        assert pool.free == was == [] && Apart(pool.free + inFlight);
        return 0;
      }
      ApartMove(request, pool.free, inFlight);
      hide Apart;
      assert request in was;
      n := Min(PRE_ALLOC_DATA_SIZE, |psrc|);
      var p := Packet(line, psrc[..n]);
      request.Fill(line, psrc[..n]);
      inFlight, packets, wire := inFlight + [request], packets + [p], wire + [p];
    }

    /** What the blocks in flight hold, field by field: magic number, command, line, length
        and data of their packets. */
    lemma InFlightReads()
      requires Valid()
      ensures |packets| == |inFlight|
      ensures forall k | 0 <= k < |inFlight| ::
                var b, p := inFlight[k], packets[k];
                && b.magic == 0x4251_4552 && b.cmd == 2 && b.subcmd == 2 && |b.args| == 2
                && b.args[0] == p.line && b.args[1] == |p.payload| <= b.extraData.Length
                && b.extraData[..b.args[1]] == p.payload
    {
      hide Apart;
      forall k | 0 <= k < |inFlight|
        ensures inFlight[k].Holds(packets[k])
      {
        inFlight[k].CarriesAll(packets[k]);
      }
    }

    /** The loop of mf_mbserial_send. */
    method SendAll(line: nat, psrc: seq<Byte>) returns (doneBytes: nat)
      requires Valid()
      modifies this`inFlight, this`packets, this`wire, pool`free, Footprint(pool.free)
      ensures Valid()
      ensures doneBytes == Min(|psrc|, PRE_ALLOC_DATA_SIZE * |old(pool.free)|)
      ensures wire == old(wire) + Fragments(line, psrc[..doneBytes])
      ensures packets == old(packets) + Fragments(line, psrc[..doneBytes])
      ensures var m := (doneBytes + 511) / 512;
              pool.free == old(pool.free[m..]) && inFlight == old(inFlight) + old(pool.free[..m])
    {
      var tailLen := |psrc|;
      doneBytes := 0;
      ghost var was, m := pool.free, 0;
      ghost var goal := psrc[..Min(|psrc|, PRE_ALLOC_DATA_SIZE * |was|)];
      hide Apart, Valid, Fragments, Progress, Footprint;
      ProgressStarts(|psrc|);
      assert goal[0..] == goal;
      while tailLen > 0
        invariant Valid() && tailLen == |psrc| - doneBytes
        invariant m <= |was| && Progress(doneBytes, |psrc|, m)
        invariant |pool.free| == |was| - m && inFlight + pool.free == old(inFlight) + was
        invariant Footprint(pool.free) <= Footprint(was)
        invariant doneBytes <= |goal|
        invariant wire + Fragments(line, goal[doneBytes..]) == old(wire) + Fragments(line, goal)
        invariant packets + Fragments(line, goal[doneBytes..]) == old(packets) + Fragments(line, goal)
      {
        ProgressStep(doneBytes, |psrc|, m, |was|);
        ghost var wire0, packets0 := wire, packets;
        var tmpLen := SendOne(line, psrc[doneBytes..]);
        if tmpLen == 0 {
          break;
        }
        FragmentsStep(line, psrc, |goal|, doneBytes, tmpLen, wire0);
        FragmentsStep(line, psrc, |goal|, doneBytes, tmpLen, packets0);
        doneBytes := doneBytes + tmpLen;
        tailLen := tailLen - tmpLen;
        m := m + 1;
      }
      ProgressEnds(doneBytes, |psrc|, m, |was|);
      FragmentsNone(line, goal[doneBytes..], wire);
      FragmentsNone(line, goal[doneBytes..], packets);
      BlocksMoved(old(inFlight), was, inFlight, pool.free, m);
    }

    /** mf_mbserial_send: the accepted bytes go out as the fewest packets, in order, using
        up the blocks from the front of the pool; the rest is refused only for want of
        blocks. */
    method MfMbserialSend(mp: Port, data: Option<seq<Byte>>, len: int) returns (doneBytes: nat)
      requires Valid() && (data.Some? ==> len <= |data.value|)
      modifies this`inFlight, this`packets, this`wire, pool`free, Footprint(pool.free)
      ensures Valid()
      ensures doneBytes == Taken(data.Some? && mp.Up(), len, |old(pool.free)|)
      ensures var ps := if data.None? then [] else Fragments(mp.line, data.value[..doneBytes]);
              wire == old(wire) + ps && packets == old(packets) + ps
      ensures var m := (doneBytes + 511) / 512;
              pool.free == old(pool.free[m..]) && inFlight == old(inFlight) + old(pool.free[..m])
      ensures |inFlight| == |packets|
      ensures forall k | 0 <= k < |inFlight| ::
                var b, p := inFlight[k], packets[k];
                && b.cmd == 2 && b.subcmd == 2 && |b.args| == 2
                && b.args[0] == p.line && b.args[1] == |p.payload| <= b.extraData.Length
                && b.extraData[..b.args[1]] == p.payload
    {
      InFlightReads();
      if len <= 0 || data.None? {
        return 0;
      }
      if !mp.Up() {
        return 0;
      }
      hide Apart, Valid;
      doneBytes := SendAll(mp.line, data.value[..len]);
      InFlightReads();
      assert data.value[..len][..doneBytes] == data.value[..doneBytes];
    }

    /** put_mreqb, the completion of the k-th block in flight: it goes to the end of the
        pool as new, and no other block or its data is touched. */
    method PutMreqb(k: nat)
      requires Valid() && k < |inFlight|
      modifies this`inFlight, this`packets, pool`free, inFlight[k]
      ensures Valid()
      ensures pool.free == old(pool.free) + [old(inFlight[k])]
      ensures inFlight == old(inFlight[..k] + inFlight[k + 1..]) && packets == old(packets[..k] + packets[k + 1..])
    {
      var mreq := inFlight[k];
      ApartTake(pool.free, inFlight, k);
      hide Apart;
      inFlight, packets := inFlight[..k] + inFlight[k + 1..], packets[..k] + packets[k + 1..];
      pool.Free(mreq);
    }
  }

  /** Taking the k-th block of one list to the end of the other. */
  lemma ApartTake(free: seq<Mreqb>, used: seq<Mreqb>, k: nat)
    requires Apart(free + used) && k < |used|
    ensures Apart(free + [used[k]]) && Apart(free + [used[k]] + (used[..k] + used[k + 1..]))
    ensures forall q | q in free || q in used[..k] + used[k + 1..] :: q != used[k] && q.extraData != used[k].extraData
  {
    var a, n := free + used, |free|;
    var rest := used[..k] + used[k + 1..];
    var b := free + [used[k]];
    var c := b + rest;
    assert forall i | 0 <= i < |rest| :: rest[i] == used[if i < k then i else i + 1];
    ApartMap(a, b, seq(|b|, i requires 0 <= i < |b| => if i < n then i else n + k));
    ApartMap(a, c, seq(|c|, i requires 0 <= i < |c| =>
                       if i < n then i else if i == n then n + k else if i <= n + k then i - 1 else i));
    assert c[n] == used[k];
    forall q | q in free || q in rest ensures q != used[k] && q.extraData != used[k].extraData {
      if q in free {
        var i :| 0 <= i < n && free[i] == q;
        assert c[i] == q;
      } else {
        var i :| 0 <= i < |rest| && rest[i] == q;
        assert c[n + 1 + i] == q;
      }
    }
  }

  lemma ApartMap(a: seq<Mreqb>, b: seq<Mreqb>, places: seq<nat>)
    requires Apart(a) && |places| == |b|
    requires forall i | 0 <= i < |b| :: places[i] < |a| && b[i] == a[places[i]]
    requires forall i, j | 0 <= i < j < |b| :: places[i] != places[j]
    ensures Apart(b)
  {
  }

  /** After m blocks: all of them full, but for the last when it takes the end. */
  predicate Progress(done: int, len: int, m: nat) {
    done == Min(len, PRE_ALLOC_DATA_SIZE * m) && (m > 0 ==> PRE_ALLOC_DATA_SIZE * (m - 1) < len)
  }

  lemma ProgressStarts(len: nat)
    ensures Progress(0, len, 0)
  {
  }

  lemma ProgressStep(done: nat, len: nat, m: nat, blocks: nat)
    requires Progress(done, len, m) && done < len && m <= blocks
    ensures done <= Min(len, PRE_ALLOC_DATA_SIZE * blocks)
    ensures m < blocks ==>
              && done + Min(PRE_ALLOC_DATA_SIZE, len - done) <= Min(len, PRE_ALLOC_DATA_SIZE * blocks)
              && Progress(done + Min(PRE_ALLOC_DATA_SIZE, len - done), len, m + 1)
  {
  }

  lemma ProgressEnds(done: nat, len: nat, m: nat, blocks: nat)
    requires Progress(done, len, m) && m <= blocks && (done == len || m == blocks)
    ensures done == Min(len, PRE_ALLOC_DATA_SIZE * blocks) && m == (done + 511) / 512
  {
  }

  lemma BlocksMoved<T>(used0: seq<T>, free0: seq<T>, used: seq<T>, free: seq<T>, m: nat)
    requires used + free == used0 + free0 && |free| == |free0| - m && m <= |free0|
    ensures used == used0 + free0[..m] && free == free0[m..]
  {
    var a, b := used + free, used0 + free0;
    var n := |used|;
    assert n == |used0| + m;
    assert used == a[..n] && free == a[n..];
    assert b[..n] == used0 + free0[..m] && b[n..] == free0[m..];
  }

  lemma FragmentsNone(line: nat, none: seq<Byte>, ps: seq<Packet>)
    requires none == []
    ensures ps + Fragments(line, none) == ps
  {
  }

  /** The next fragment of the bytes to be accepted, the first `goal` ones. */
  lemma FragmentsStep(line: nat, psrc: seq<Byte>, goal: nat, done: nat, n: nat, sent: seq<Packet>)
    requires done < goal <= |psrc| && n == Min(PRE_ALLOC_DATA_SIZE, |psrc| - done) && done + n <= goal
    ensures sent + Fragments(line, psrc[..goal][done..])
            == sent + [Packet(line, psrc[done..][..n])] + Fragments(line, psrc[..goal][done + n..])
  {
    var rest := psrc[..goal][done..];
    assert rest[..n] == psrc[done..][..n] && rest[n..] == psrc[..goal][done + n..];
  }

  // ---------------------------------------------------------- sends on several lines

  /** A call of mf_mbserial_send under way on a line; the port lock allows one at a time. */
  datatype Call = Idle | Sending(data: seq<Byte>, done: nat)

  /** `accepted` is the history of what returned calls have taken. */
  datatype LineState = LineState(up: bool, call: Call, accepted: seq<Byte>)

  datatype State = State(free: nat, out: nat, lines: seq<LineState>, wire: seq<Packet>)

  /** One round of the loop, or the end of it, is one step; blocks come back at any time. */
  datatype Step = Begin(line: nat, data: seq<Byte>) | Fragment(line: nat) | Return(line: nat) | Recycle
                | Status(line: nat, up: bool)

  function Init(): State {
    State(PRE_ALLOC_MREQ_NUM, 0, seq(MAX_MBSERIAL_NUM, i => LineState(false, Idle, [])), [])
  }

  predicate Enabled(s: State, t: Step) {
    match t
    case Begin(l, data) => l < |s.lines| && s.lines[l].up && s.lines[l].call == Idle && data != []
    case Fragment(l) =>
      l < |s.lines| && s.lines[l].call.Sending? && s.lines[l].call.done < |s.lines[l].call.data| && s.free > 0
    case Return(l) =>
      l < |s.lines| && s.lines[l].call.Sending? && (s.lines[l].call.done >= |s.lines[l].call.data| || s.free == 0)
    case Recycle => s.out > 0
    case Status(l, up) => l < |s.lines|
  }

  /** The bytes the call under way has put on the wire. */
  function Underway(c: Call): seq<Byte> {
    if c.Sending? && c.done <= |c.data| then c.data[..c.done] else []
  }

  function Do(s: State, t: Step): State
    requires Enabled(s, t)
  {
    match t
    case Begin(l, data) => s.(lines := s.lines[l := s.lines[l].(call := Sending(data, 0))])
    case Fragment(l) =>
      var c := s.lines[l].call;
      var n := Min(PRE_ALLOC_DATA_SIZE, |c.data| - c.done);
      s.(free := s.free - 1, out := s.out + 1,
      lines := s.lines[l := s.lines[l].(call := Sending(c.data, c.done + n))],
      wire := s.wire + [Packet(l, c.data[c.done..][..n])])
    case Return(l) =>
      s.(lines := s.lines[l := s.lines[l].(call := Idle, accepted := s.lines[l].accepted + Underway(s.lines[l].call))])
    case Recycle => s.(free := s.free + 1, out := s.out - 1)
    case Status(l, up) => s.(lines := s.lines[l := s.lines[l].(up := up)])
  }

  function After(ts: seq<Step>): Option<State> {
    if ts == [] then Some(Init())
    else
      match After(ts[..|ts| - 1])
      case None => None
      case Some(s) => if Enabled(s, ts[|ts| - 1]) then Some(Do(s, ts[|ts| - 1])) else None
  }

  /** What one line has taken is what is on the wire for it. */
  predicate LineInv(l: LineState, stream: seq<Byte>) {
    && stream == l.accepted + Underway(l.call)
    && (l.call.Sending? ==> l.call.done <= |l.call.data|)
  }

  ghost predicate Inv(s: State) {
    && s.free + s.out == PRE_ALLOC_MREQ_NUM && |s.lines| == MAX_MBSERIAL_NUM
    && (forall l | 0 <= l < |s.lines| :: LineInv(s.lines[l], Stream(l, s.wire)))
    && forall p | p in s.wire :: p.line < MAX_MBSERIAL_NUM && 1 <= |p.payload| <= PRE_ALLOC_DATA_SIZE
  }

  lemma FragmentLine(l: LineState, stream: seq<Byte>, n: nat)
    requires LineInv(l, stream) && l.call.Sending? && l.call.done + n <= |l.call.data|
    ensures LineInv(l.(call := Sending(l.call.data, l.call.done + n)), stream + l.call.data[l.call.done..][..n])
  {
    var d, done, p := l.call.data, l.call.done, l.call.data[l.call.done..][..n];
    assert d[..done + n] == d[..done] + p;
    assert l.accepted + (d[..done] + p) == l.accepted + d[..done] + p;
  }

  function NextPacket(s: State, l: nat): Packet
    requires Enabled(s, Fragment(l))
  {
    var c := s.lines[l].call;
    Packet(l, c.data[c.done..][..Min(PRE_ALLOC_DATA_SIZE, |c.data| - c.done)])
  }

  lemma FragmentState(s: State, l: nat)
    requires Enabled(s, Fragment(l))
    ensures var r, c := Do(s, Fragment(l)), s.lines[l].call;
            && r.wire == s.wire + [NextPacket(s, l)] && |r.lines| == |s.lines|
            && r.lines[l] == s.lines[l].(call := Sending(c.data, c.done + |NextPacket(s, l).payload|))
            && forall i | 0 <= i < |s.lines| && i != l :: r.lines[i] == s.lines[i]
  {
  }

  lemma FragmentAt(s: State, l: nat, i: nat)
    requires Enabled(s, Fragment(l)) && i < |s.lines|
    requires LineInv(s.lines[i], Stream(i, s.wire))
    ensures |Do(s, Fragment(l)).lines| == |s.lines|
    ensures LineInv(Do(s, Fragment(l)).lines[i], Stream(i, Do(s, Fragment(l)).wire))
  {
    var p := NextPacket(s, l);
    FragmentState(s, l);
    StreamAppend(i, s.wire, [p]);
    StreamOne(i, p);
    if i == l {
      FragmentLine(s.lines[l], Stream(l, s.wire), |p.payload|);
    }
    hide Stream, LineInv, Do;
    assert Stream(i, s.wire) + [] == Stream(i, s.wire);
  }

  lemma FragmentInv(s: State, l: nat)
    requires Inv(s) && Enabled(s, Fragment(l))
    ensures Inv(Do(s, Fragment(l)))
  {
    var r := Do(s, Fragment(l));
    hide Stream, LineInv;
    forall i | 0 <= i < |r.lines| ensures LineInv(r.lines[i], Stream(i, r.wire)) {
      assert LineInv(s.lines[i], Stream(i, s.wire));
      FragmentAt(s, l, i);
    }
    assert r.wire == s.wire + [NextPacket(s, l)];
  }

  lemma StepInv(s: State, t: Step)
    requires Inv(s) && Enabled(s, t)
    ensures Inv(Do(s, t))
  {
    match t
    case Fragment(l) => FragmentInv(s, l);
    case Begin(l, _) =>
      var r := Do(s, t);
      hide Stream;
      forall i | 0 <= i < |r.lines| ensures LineInv(r.lines[i], Stream(i, r.wire)) {
        assert LineInv(s.lines[i], Stream(i, s.wire));
      }
    case Return(l) =>
      var r := Do(s, t);
      hide Stream;
      forall i | 0 <= i < |r.lines| ensures LineInv(r.lines[i], Stream(i, r.wire)) {
        assert LineInv(s.lines[i], Stream(i, s.wire));
      }
    case Recycle =>
    case Status(l, up) =>
      var r := Do(s, t);
      hide Stream;
      forall i | 0 <= i < |r.lines| ensures LineInv(r.lines[i], Stream(i, r.wire)) {
        assert LineInv(s.lines[i], Stream(i, s.wire));
      }
  }

  lemma {:induction false} RunInv(ts: seq<Step>)
    requires After(ts).Some?
    ensures Inv(After(ts).value)
  {
    if ts != [] {
      RunInv(ts[..|ts| - 1]);
      StepInv(After(ts[..|ts| - 1]).value, ts[|ts| - 1]);
    }
  }

  /** However the lines take turns: on each line the payloads sent, one after another, are
      the prefixes accepted by the calls so far and by the one under way. */
  lemma {:induction false} StreamPreserved(ts: seq<Step>, line: nat)
    requires After(ts).Some? && line < MAX_MBSERIAL_NUM
    ensures var s := After(ts).value;
            && |s.lines| == MAX_MBSERIAL_NUM
            && Stream(line, s.wire) == s.lines[line].accepted + Underway(s.lines[line].call)
            && forall p | p in s.wire :: 1 <= |p.payload| <= PRE_ALLOC_DATA_SIZE
  {
    RunInv(ts);
    assert LineInv(After(ts).value.lines[line], Stream(line, After(ts).value.wire));
  }

  /** The rounds of one call with no other line and no block coming back in between. */
  function Rounds(s: State, l: nat): State
    requires l < |s.lines|
    decreases s.free
  {
    if Enabled(s, Fragment(l)) then Rounds(Do(s, Fragment(l)), l) else s
  }

  /** Undisturbed, a call does what Sender.SendAll does. */
  lemma {:induction false} CallAlone(s: State, l: nat)
    requires l < |s.lines| && s.lines[l].call.Sending? && s.lines[l].call.done <= |s.lines[l].call.data|
    ensures var c, r := s.lines[l].call, Rounds(s, l);
            var goal := Goal(c, s.free);
            && r.wire == s.wire + Fragments(l, c.data[..goal][c.done..])
            && r.lines == s.lines[l := s.lines[l].(call := Sending(c.data, goal))]
            && r.free == s.free - (goal - c.done + 511) / 512
    decreases s.free
  {
    var c := s.lines[l].call;
    var goal := Goal(c, s.free);
    if Enabled(s, Fragment(l)) {
      var s1 := Do(s, Fragment(l));
      var c1 := s1.lines[l].call;
      assert Goal(c1, s1.free) == goal;
      CallAlone(s1, l);
      hide Fragments;
      FragmentsStep(l, c.data, goal, c.done, c1.done - c.done, s.wire);
      assert s1.lines[l := s1.lines[l].(call := Sending(c.data, goal))]
             == s.lines[l := s.lines[l].(call := Sending(c.data, goal))];
    } else {
      assert s.lines[l := s.lines[l]] == s.lines;
      FragmentsNone(l, c.data[..goal][c.done..], s.wire);
    }
  }

  /** Where a call ends that is left alone with so many blocks. */
  function Goal(c: Call, blocks: nat): (g: nat)
    requires c.Sending? && c.done <= |c.data|
    ensures c.done <= g <= |c.data|
  {
    Min(|c.data|, c.done + PRE_ALLOC_DATA_SIZE * blocks)
  }

  // ----------------------------------------------------------------------- receiving

  datatype Event = DataAvail(data: seq<Byte>) | StartedUp | ShutDown

  /** The status word and its bit 0. */
  predicate UpBit(status: bv32) {
    status & PORT_STATUS_UP != 0
  }

  function SetUp(status: bv32): (r: bv32)
    ensures UpBit(r) && r & 0xFFFF_FFFE == status & 0xFFFF_FFFE
  {
    status | PORT_STATUS_UP
  }

  function SetDown(status: bv32): (r: bv32)
    ensures !UpBit(r) && r & 0xFFFF_FFFE == status & 0xFFFF_FFFE
  {
    status & !PORT_STATUS_UP
  }

  /** A port as the requests of the peer change it; `events` is what its notifiers saw. */
  datatype PeerPort = PeerPort(status: bv32, events: seq<Event>)

  datatype Request = Request(subcmd: nat, line: nat, data: seq<Byte>)

  /** allports and what is done with it. */
  class Ports {
    var allports: seq<Option<PeerPort>>

    predicate Valid()
      reads this
    {
      |allports| == MAX_MBSERIAL_NUM
    }

    constructor ()
      ensures Valid() && forall l | 0 <= l < |allports| :: allports[l] == None
    {
      allports := seq(MAX_MBSERIAL_NUM, i => None);
    }

    /** mf_mbserial_get, its allocation succeeding: an open port is left as it is. */
    method MbserialGet(line: nat) returns (ok: bool)
      requires Valid()
      modifies this
      ensures Valid() && ok == (line < MAX_MBSERIAL_NUM)
      ensures !ok ==> allports == old(allports)
      ensures ok ==> allports == old(allports)[line := Some(old(allports)[line].GetOr(PeerPort(0, [])))]
    {
      ok := line < MAX_MBSERIAL_NUM;
      if ok && allports[line] == None {
        allports := allports[line := Some(PeerPort(0, []))];
      }
    }

    /** handle_mbserial_request */
    method HandleRequest(r: Request) returns (ret: int)
      requires Valid()
      modifies this
      ensures Valid() && allports == Handled(old(allports), r)
      ensures ret == if r.line < MAX_MBSERIAL_NUM && old(allports)[r.line].Some? && r.subcmd <= 2 then 0 else -1
      ensures ret != 0 ==> allports == old(allports)
      ensures ret == 0 ==>
                && allports[r.line].Some?
                && (forall l | 0 <= l < |allports| && l != r.line :: allports[l] == old(allports)[l])
                && var p, q := old(allports)[r.line].value, allports[r.line].value;
                   && (r.subcmd == 0 ==> q.events == p.events + [StartedUp] && UpBit(q.status))
                   && (r.subcmd == 1 ==> q.events == p.events + [ShutDown] && !UpBit(q.status))
                   && (r.subcmd == 2 ==> q.events == p.events + [DataAvail(r.data)] && q.status == p.status)
    {
      if r.line >= MAX_MBSERIAL_NUM {
        return -1;
      }
      if allports[r.line] == None {
        return -1;
      }
      var port := allports[r.line].value;
      if r.subcmd == MBSERIAL_CMD_STARTUP {
        port := port.(status := SetUp(port.status));
        port := port.(events := port.events + [StartedUp]);
      } else if r.subcmd == MBSERIAL_CMD_SHUTDOWN {
        port := port.(status := SetDown(port.status));
        port := port.(events := port.events + [ShutDown]);
      } else if r.subcmd == MBSERIAL_CMD_DATA_TRANSFER {
        port := port.(events := port.events + [DataAvail(r.data)]);
      } else {
        return -1;
      }
      allports := allports[r.line := Some(port)];
      ret := 0;
    }

    /** handle_mbserial_request as it reads the block: argument 0 is the line, argument 1 the
        length. */
    method HandleMreqb(reqb: Mreqb) returns (ret: int)
      requires Valid() && reqb.GetArg(0) >= 0 && 0 <= reqb.GetArg(1) <= reqb.extraData.Length
      modifies this
      ensures Valid()
      ensures var r := Request(reqb.subcmd, reqb.GetArg(0), reqb.extraData[..reqb.GetArg(1)]);
              && allports == Handled(old(allports), r)
              && ret == if r.line < MAX_MBSERIAL_NUM && old(allports)[r.line].Some? && r.subcmd <= 2 then 0 else -1
    {
      var cmd, line := reqb.subcmd, reqb.GetArg(0);
      var len := reqb.GetArg(1);
      ret := HandleRequest(Request(cmd, line, reqb.extraData[..len]));
    }
  }

  /** A block filled for a line and some data, once handled, is those data for the notifiers
      of that line, and nothing for anybody else. */
  method FilledIsDelivered(reqb: Mreqb, ports: Ports, line: nat, d: seq<Byte>) returns (ret: int)
    requires reqb.Blank() && |d| <= reqb.extraData.Length && ports.Valid()
    requires line < |ports.allports| && ports.allports[line].Some?
    modifies reqb, reqb.extraData, ports
    ensures ret == 0 && ports.Valid() && ports.allports[line].Some?
    ensures ports.allports[line].value.events == old(ports.allports[line].value.events) + [DataAvail(d)]
    ensures ports.allports[line].value.status == old(ports.allports[line].value.status)
    ensures forall l | 0 <= l < |ports.allports| && l != line :: ports.allports[l] == old(ports.allports[l])
  {
    reqb.Fill(line, d);
    ret := ports.HandleMreqb(reqb);
  }

  /** What a known command does to an open port. */
  function Served(p: PeerPort, subcmd: nat, data: seq<Byte>): PeerPort {
    if subcmd == MBSERIAL_CMD_STARTUP then PeerPort(SetUp(p.status), p.events + [StartedUp])
    else if subcmd == MBSERIAL_CMD_SHUTDOWN then PeerPort(SetDown(p.status), p.events + [ShutDown])
    else PeerPort(p.status, p.events + [DataAvail(data)])
  }

  /** A request for an open port, with a known command, changes that port only. */
  function Handled(ports: seq<Option<PeerPort>>, r: Request): seq<Option<PeerPort>> {
    if r.line >= |ports| || ports[r.line] == None || r.subcmd > 2 then ports
    else ports[r.line := Some(Served(ports[r.line].value, r.subcmd, r.data))]
  }

  function HandledAll(ports: seq<Option<PeerPort>>, rs: seq<Request>): seq<Option<PeerPort>> {
    if rs == [] then ports else Handled(HandledAll(ports, rs[..|rs| - 1]), rs[|rs| - 1])
  }

  function DataOf(es: seq<Event>): seq<Byte> {
    if es == [] then []
    else DataOf(es[..|es| - 1]) + (if es[|es| - 1].DataAvail? then es[|es| - 1].data else [])
  }

  /** The packets among the requests. */
  function DataPackets(rs: seq<Request>): seq<Packet> {
    if rs == [] then []
    else
      var r := rs[|rs| - 1];
      DataPackets(rs[..|rs| - 1])
      + (if r.subcmd == MBSERIAL_CMD_DATA_TRANSFER then [Packet(r.line, r.data)] else [])
  }

  /** The state the last startup or shutdown of the line leaves it in. */
  function UpAfter(rs: seq<Request>, line: nat, up: bool): bool {
    if rs == [] then up
    else
      var r := rs[|rs| - 1];
      if r.line == line && r.subcmd == MBSERIAL_CMD_STARTUP then true
      else if r.line == line && r.subcmd == MBSERIAL_CMD_SHUTDOWN then false
      else UpAfter(rs[..|rs| - 1], line, up)
  }

  /** The requests that concern an open port of the line. */
  function Concerning(rs: seq<Request>, line: nat): seq<Request> {
    if rs == [] then []
    else
      var r := rs[|rs| - 1];
      Concerning(rs[..|rs| - 1], line) + (if r.line == line && r.subcmd <= 2 then [r] else [])
  }

  /** The events that tell the notifiers of the requests, one for each, in order. */
  ghost predicate Tells(es: seq<Event>, rs: seq<Request>) {
    && |es| == |rs|
    && forall i | 0 <= i < |es| ::
         && (es[i].StartedUp? <==> rs[i].subcmd == 0)
         && (es[i].ShutDown? <==> rs[i].subcmd == 1)
         && (es[i].DataAvail? <==> rs[i].subcmd == 2)
         && (es[i].DataAvail? ==> es[i].data == rs[i].data)
  }

  /** The last of the startups and shutdowns told is a startup, or there is none and the port
      was up. */
  ghost predicate LastToldUp(es: seq<Event>, up: bool) {
    || (exists i :: 0 <= i < |es| && es[i].StartedUp? && forall j | i < j < |es| :: !es[j].ShutDown?)
    || (up && forall j | 0 <= j < |es| :: !es[j].ShutDown?)
  }

  /** q is the port p after its notifiers have been told of the requests. */
  ghost predicate Told(p: PeerPort, q: Option<PeerPort>, rs: seq<Request>, line: nat) {
    && q.Some? && p.events <= q.value.events
    && var es := q.value.events[|p.events|..];
       && Tells(es, Concerning(rs, line))
       && (UpBit(q.value.status) <==> LastToldUp(es, UpBit(p.status)))
  }

  lemma LastToldMore(es: seq<Event>, e: Event, up: bool)
    ensures LastToldUp(es + [e], up) <==> e.StartedUp? || (LastToldUp(es, up) && !e.ShutDown?)
  {
    var all, n := es + [e], |es|;
    assert forall i | 0 <= i < n :: all[i] == es[i];
    assert all[n] == e;
    if LastToldUp(es, up) && !e.ShutDown? && !(up && forall j | 0 <= j < |es| :: !es[j].ShutDown?) {
      var i :| 0 <= i < |es| && es[i].StartedUp? && forall j | i < j < |es| :: !es[j].ShutDown?;
      assert all[i].StartedUp? && forall j | i < j < |all| :: !all[j].ShutDown?;
    }
  }

  lemma ServedTells(q: PeerPort, r: Request) returns (e: Event)
    requires r.subcmd <= 2
    ensures var q1 := Served(q, r.subcmd, r.data);
            && q1.events == q.events + [e] && Tells([e], [r])
            && (UpBit(q1.status) <==> e.StartedUp? || (UpBit(q.status) && !e.ShutDown?))
  {
    e := Served(q, r.subcmd, r.data).events[|q.events|];
    ServedPort(q, r);
    hide UpBit, SetUp, SetDown;
  }

  lemma TellsMore(es: seq<Event>, rs: seq<Request>, e: Event, r: Request)
    requires Tells(es, rs) && Tells([e], [r])
    ensures Tells(es + [e], rs + [r])
  {
    assert [e][0] == e && [r][0] == r;
  }

  lemma ConcerningMore(rs: seq<Request>, r: Request, line: nat)
    ensures Concerning(rs + [r], line)
            == Concerning(rs, line) + (if r.line == line && r.subcmd <= 2 then [r] else [])
  {
    assert (rs + [r])[..|rs|] == rs;
  }

  lemma ToldMore(p: PeerPort, q: PeerPort, rs: seq<Request>, r: Request, line: nat)
    requires Told(p, Some(q), rs, line)
    ensures Told(p, Some(if r.line == line && r.subcmd <= 2 then Served(q, r.subcmd, r.data) else q), rs + [r], line)
  {
    hide UpBit, Served, LastToldUp, Tells, Concerning;
    var es := q.events[|p.events|..];
    ConcerningMore(rs, r, line);
    if r.line == line && r.subcmd <= 2 {
      var e := ServedTells(q, r);
      assert (q.events + [e])[|p.events|..] == es + [e];
      LastToldMore(es, e, UpBit(p.status));
      TellsMore(es, Concerning(rs, line), e, r);
    } else {
      assert Concerning(rs, line) + [] == Concerning(rs, line);
    }
  }

  lemma ToldNothing(p: PeerPort, line: nat)
    ensures Told(p, Some(p), [], line)
  {
  }

  /** For every sequence of requests: the notifiers of an open port are told of exactly the
      requests that concern it, one for one and in order, and the port is up exactly when the
      last startup or shutdown they were told of is a startup. */
  lemma {:induction false} NotifiersTold(ports: seq<Option<PeerPort>>, rs: seq<Request>, line: nat)
    requires line < |ports| && ports[line].Some?
    ensures |HandledAll(ports, rs)| == |ports| && HandledAll(ports, rs)[line].Some?
    ensures var p, q, cs := ports[line].value, HandledAll(ports, rs)[line].value, Concerning(rs, line);
            && p.events <= q.events
            && var es := q.events[|p.events|..];
               && |es| == |cs|
               && (forall i | 0 <= i < |es| ::
                     && (es[i] == StartedUp <==> cs[i].subcmd == 0)
                     && (es[i] == ShutDown <==> cs[i].subcmd == 1)
                     && (cs[i].subcmd == 2 ==> es[i] == DataAvail(cs[i].data)))
               && (UpBit(q.status) <==>
                     || (exists i :: 0 <= i < |es| && es[i].StartedUp? && forall j | i < j < |es| :: !es[j].ShutDown?)
                     || (UpBit(p.status) && forall j | 0 <= j < |es| :: !es[j].ShutDown?))
  {
    hide HandledAll, Concerning, UpBit;
    AllTold(ports, rs, line);
  }

  lemma {:induction false} AllTold(ports: seq<Option<PeerPort>>, rs: seq<Request>, line: nat)
    requires line < |ports| && ports[line].Some?
    ensures |HandledAll(ports, rs)| == |ports|
    ensures Told(ports[line].value, HandledAll(ports, rs)[line], rs, line)
  {
    hide Told, Served;
    if rs == [] {
      ToldNothing(ports[line].value, line);
    } else {
      var n := |rs| - 1;
      AllTold(ports, rs[..n], line);
      var before := HandledAll(ports, rs[..n]);
      ToldIsOpen(ports[line].value, before[line], rs[..n], line);
      ToldMore(ports[line].value, before[line].value, rs[..n], rs[n], line);
      HandledAt(before, rs[n], line);
      assert rs[..n] + [rs[n]] == rs;
    }
  }

  lemma ToldIsOpen(p: PeerPort, q: Option<PeerPort>, rs: seq<Request>, line: nat)
    requires Told(p, q, rs, line)
    ensures q.Some?
  {
  }

  lemma DataPacketsOne(r: Request)
    ensures DataPackets([r]) == if r.subcmd == MBSERIAL_CMD_DATA_TRANSFER then [Packet(r.line, r.data)] else []
  {
    assert [r][..0] == [];
  }

  lemma UpAfterOne(r: Request, line: nat, up: bool)
    ensures UpAfter([r], line, up) ==
            if r.line == line && r.subcmd == MBSERIAL_CMD_STARTUP then true
            else if r.line == line && r.subcmd == MBSERIAL_CMD_SHUTDOWN then false
            else up
  {
    assert [r][..0] == [];
  }

  /** q is what the requests make of the open port p: its notifiers have seen exactly the
      line's payloads, in order, and it is up exactly when the last startup or shutdown for
      it was a startup. */
  predicate Serves(p: PeerPort, q: Option<PeerPort>, rs: seq<Request>, line: nat) {
    && q.Some?
    && UpBit(q.value.status) == UpAfter(rs, line, UpBit(p.status))
    && DataOf(q.value.events) == DataOf(p.events) + Stream(line, DataPackets(rs))
  }

  lemma DataOfMore(es: seq<Event>, e: Event)
    ensures DataOf(es + [e]) == DataOf(es) + (if e.DataAvail? then e.data else [])
  {
    assert (es + [e])[..|es|] == es;
  }

  lemma ServedPort(p: PeerPort, r: Request)
    requires r.subcmd <= 2
    ensures var q := Served(p, r.subcmd, r.data);
            && UpBit(q.status) == (if r.subcmd == MBSERIAL_CMD_STARTUP then true
                                   else if r.subcmd == MBSERIAL_CMD_SHUTDOWN then false
                                   else UpBit(p.status))
            && DataOf(q.events) == DataOf(p.events) + (if r.subcmd == MBSERIAL_CMD_DATA_TRANSFER then r.data else [])
  {
    hide UpBit, SetUp, SetDown, DataOf;
    DataOfMore(p.events, StartedUp);
    DataOfMore(p.events, ShutDown);
    DataOfMore(p.events, DataAvail(r.data));
  }

  lemma HandledAt(ports: seq<Option<PeerPort>>, r: Request, line: nat)
    requires line < |ports| && ports[line].Some?
    ensures |Handled(ports, r)| == |ports|
    ensures Handled(ports, r)[line] ==
            if r.line == line && r.subcmd <= 2 then Some(Served(ports[line].value, r.subcmd, r.data)) else ports[line]
  {
    hide Served;
  }

  lemma ServesIdle(p: PeerPort, r: Request, line: nat)
    requires r.line != line || r.subcmd > 2
    ensures Serves(p, Some(p), [r], line)
  {
    DataPacketsOne(r);
    UpAfterOne(r, line, UpBit(p.status));
    StreamOne(line, Packet(r.line, r.data));
    NoPackets(line);
    hide UpBit, UpAfter, DataPackets, DataOf, Stream;
    assert DataOf(p.events) + [] == DataOf(p.events);
  }

  lemma ServesBusy(p: PeerPort, r: Request)
    requires r.subcmd <= 2
    ensures Serves(p, Some(Served(p, r.subcmd, r.data)), [r], r.line)
  {
    ServedPort(p, r);
    DataPacketsOne(r);
    UpAfterOne(r, r.line, UpBit(p.status));
    StreamOne(r.line, Packet(r.line, r.data));
    NoPackets(r.line);
    hide UpBit, UpAfter, DataPackets, DataOf, Stream, Served;
  }

  lemma HandledOne(ports: seq<Option<PeerPort>>, r: Request, line: nat)
    requires line < |ports| && ports[line].Some?
    ensures |Handled(ports, r)| == |ports|
    ensures Serves(ports[line].value, Handled(ports, r)[line], [r], line)
  {
    hide Handled, Serves, Served;
    HandledAt(ports, r, line);
    if r.line == line && r.subcmd <= 2 {
      ServesBusy(ports[line].value, r);
    } else {
      ServesIdle(ports[line].value, r, line);
    }
  }

  lemma NoPackets(line: nat)
    ensures Stream(line, []) == []
  {
  }

  lemma ServesThen(p: PeerPort, q: PeerPort, q1: Option<PeerPort>, rs: seq<Request>, r: Request, line: nat)
    requires Serves(p, Some(q), rs, line) && Serves(q, q1, [r], line)
    ensures Serves(p, q1, rs + [r], line)
  {
    ServedMore(rs, r, line, UpBit(p.status));
    hide UpBit, DataOf, Stream, DataPackets, UpAfter;
    Assoc(DataOf(p.events), Stream(line, DataPackets(rs)), Stream(line, DataPackets([r])));
  }

  lemma ServedMore(rs: seq<Request>, r: Request, line: nat, up: bool)
    ensures UpAfter(rs + [r], line, up) == UpAfter([r], line, UpAfter(rs, line, up))
    ensures Stream(line, DataPackets(rs + [r])) == Stream(line, DataPackets(rs)) + Stream(line, DataPackets([r]))
  {
    var all := rs + [r];
    assert all[..|rs|] == rs;
    DataPacketsOne(r);
    UpAfterOne(r, line, UpAfter(rs, line, up));
    assert DataPackets(all) == DataPackets(rs) + DataPackets([r]);
    StreamAppend(line, DataPackets(rs), DataPackets([r]));
  }

  lemma ServesNothing(p: PeerPort, line: nat)
    ensures Serves(p, Some(p), [], line)
  {
    assert DataOf(p.events) + [] == DataOf(p.events);
  }

  /** For every sequence of requests, whatever their lines and commands, every open port is
      served in order. */
  lemma {:induction false} DeliveredInOrder(ports: seq<Option<PeerPort>>, rs: seq<Request>, line: nat)
    requires line < |ports| && ports[line].Some?
    ensures |HandledAll(ports, rs)| == |ports|
    ensures Serves(ports[line].value, HandledAll(ports, rs)[line], rs, line)
  {
    hide DataOf, Stream, DataPackets, UpAfter, UpBit;
    if rs == [] {
      ServesNothing(ports[line].value, line);
    } else {
      var n := |rs| - 1;
      var before := HandledAll(ports, rs[..n]);
      DeliveredInOrder(ports, rs[..n], line);
      assert before[line].Some?;
      HandledOne(before, rs[n], line);
      hide Serves, Handled;
      ServesThen(ports[line].value, before[line].value, Handled(before, rs[n])[line], rs[..n], rs[n], line);
      assert rs[..n] + [rs[n]] == rs;
    }
  }

  lemma {:induction false} DataPacketsAppend(a: seq<Request>, b: seq<Request>)
    ensures DataPackets(a + b) == DataPackets(a) + DataPackets(b)
    decreases |b|
  {
    if b == [] {
      assert a + b == a;
    } else {
      var n := |b| - 1;
      assert (a + b)[..|a| + n] == a + b[..n];
      DataPacketsAppend(a, b[..n]);
    }
  }
}
