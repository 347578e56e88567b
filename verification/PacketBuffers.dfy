/** The life of a packet buffer (mf_memp.c, mf_nbuf.c, nbuf_queue.c, mf_mbnetif.c): who holds
    references to it, in every interleaving of the receive handler, the forward thread,
    transmitting threads and completions. One step is one locked region. */
module PacketBuffers {
  import opened Basics
  import opened Counting

  const NETBUF_NUM: nat := 128
  const PREALLOC_MREQB_NUM: nat := 128

  /** Where a reference is: with a thread, the receive handler, the forward backlog, with
      mf_NetifPacketXmitAsync before it has its request block, with a request in flight, a
      completion that has returned its block, or past the exit of mf_NetifPacketXmitAsync
      that finds no block. */
  datatype Place = User | Handler | Backlog | Xmit | InFlight | Completing | Forgotten

  datatype Holder = Holder(id: nat, place: Place)

  /** `refs` gives each buffer's count; `others` are request blocks used for other things. */
  datatype State = State(free: seq<nat>, refs: seq<int>, holders: seq<Holder>, blocks: nat, others: nat)

  datatype Step =
    | Alloc(to: Place)
    | HandlerPut(k: nat) | Forward(k: nat)
    | Ref(k: nat, to: Place) | Drop(k: nat)
    | XmitSubmit(k: nat) | XmitNoBlock(k: nat) | XmitDone(k: nat)
    | BlockTake | BlockGive

  /** mf_memp_init carves the buffers one after another, each to the front of the list. */
  function Carved(n: nat): seq<nat> {
    if n == 0 then [] else [n - 1] + Carved(n - 1)
  }

  function Init(): State {
    State(Carved(NETBUF_NUM), seq(NETBUF_NUM, _ => 0), [], PREALLOC_MREQB_NUM, 0)
  }

  predicate At(s: State, k: nat, p: Place) {
    k < |s.holders| && s.holders[k].place == p
  }

  /** A thread allocates for itself, the handler for the packet it received; a thread that
      holds a buffer may take a second reference, for itself or for a transmission; threads
      and completions drop what they hold. */
  predicate Enabled(s: State, t: Step) {
    match t
    case Alloc(to) => s.free != [] && to in {User, Handler}
    case HandlerPut(k) => At(s, k, Handler)
    case Forward(k) => At(s, k, Backlog)
    case Ref(k, to) => At(s, k, User) && to in {User, Xmit}
    case Drop(k) => At(s, k, User) || At(s, k, Completing)
    case XmitSubmit(k) => At(s, k, Xmit) && s.blocks > 0
    case XmitNoBlock(k) => At(s, k, Xmit) && s.blocks == 0
    case XmitDone(k) => At(s, k, InFlight)
    case BlockTake => s.blocks > 0
    case BlockGive => s.others > 0
  }

  predicate InRange(s: State) {
    && (forall k | 0 <= k < |s.holders| :: s.holders[k].id < |s.refs|)
    && forall k | 0 <= k < |s.free| :: s.free[k] < |s.refs|
  }

  /** mf_netbuf_alloc */
  function DoAlloc(s: State, to: Place): State
    requires InRange(s) && s.free != []
  {
    var id := s.free[0];
    s.(free := s.free[1..], refs := s.refs[id := 1], holders := s.holders + [Holder(id, to)])
  }

  /** mf_netbuf_ref */
  function DoRef(s: State, k: nat, to: Place): State
    requires InRange(s) && k < |s.holders|
  {
    var id := s.holders[k].id;
    s.(refs := s.refs[id := s.refs[id] + 1], holders := s.holders + [Holder(id, to)])
  }

  /** mf_netbuf_free: the buffer goes back when its count reaches zero. */
  function DoDrop(s: State, k: nat): State
    requires InRange(s) && k < |s.holders|
  {
    var id := s.holders[k].id;
    var ref := s.refs[id] - 1;
    s.(refs := s.refs[id := ref], holders := Without(s.holders, k), free := if ref == 0 then [id] + s.free else s.free)
  }

  /** Handing a reference over leaves the count alone. */
  function Hand(s: State, k: nat, to: Place): State
    requires k < |s.holders|
  {
    s.(holders := s.holders[k := Holder(s.holders[k].id, to)])
  }

  function Do(s: State, t: Step): State
    requires InRange(s) && Enabled(s, t)
  {
    match t
    case Alloc(to) => DoAlloc(s, to)
    case HandlerPut(k) => Hand(s, k, Backlog)
    case Forward(k) => Hand(s, k, User)
    case Ref(k, to) => DoRef(s, k, to)
    case Drop(k) => DoDrop(s, k)
    case XmitSubmit(k) => Hand(s, k, InFlight).(blocks := s.blocks - 1)
    case XmitNoBlock(k) => Hand(s, k, Forgotten)
    case XmitDone(k) => Hand(s, k, Completing).(blocks := s.blocks + 1)
    case BlockTake => s.(blocks := s.blocks - 1, others := s.others + 1)
    case BlockGive => s.(blocks := s.blocks + 1, others := s.others - 1)
  }

  // --------------------------------------------------------------------- counting holders

  datatype Query = OfBuffer(id: nat) | Unforwarded(id: nat) | Lost(id: nat) | LostAll | Flying

  predicate Matches(q: Query, h: Holder) {
    match q
    case OfBuffer(id) => h.id == id
    case Unforwarded(id) => h.id == id && h.place in {Handler, Backlog}
    case Lost(id) => h.id == id && h.place == Forgotten
    case LostAll => h.place == Forgotten
    case Flying => h.place == InFlight
  }

  function Tally(hs: seq<Holder>, q: Query): nat {
    if hs == [] then 0 else Tally(hs[..|hs| - 1], q) + Is(Matches(q, hs[|hs| - 1]))
  }

  lemma TallyAdd(hs: seq<Holder>, h: Holder, q: Query)
    ensures Tally(hs + [h], q) == Tally(hs, q) + Is(Matches(q, h))
  {
    assert (hs + [h])[..|hs|] == hs;
  }

  lemma {:induction false} TallyConcat(a: seq<Holder>, b: seq<Holder>, q: Query)
    ensures Tally(a + b, q) == Tally(a, q) + Tally(b, q)
    decreases |b|
  {
    if b == [] {
      assert a + b == a;
    } else {
      var n := |b| - 1;
      assert (a + b)[..|a| + n] == a + b[..n];
      TallyConcat(a, b[..n], q);
    }
  }

  lemma TallySplit(hs: seq<Holder>, k: nat, h: Holder, q: Query)
    requires k < |hs|
    ensures Tally(hs[k := h], q) == Tally(Without(hs, k), q) + Is(Matches(q, h))
  {
    var a, b := hs[..k], hs[k + 1..];
    assert hs[k := h] == a + [h] + b;
    TallyConcat(a + [h], b, q);
    TallyConcat(a, b, q);
    TallyAdd(a, h, q);
  }

  lemma TallyWithout(hs: seq<Holder>, k: nat, q: Query)
    requires k < |hs|
    ensures Tally(hs, q) == Tally(Without(hs, k), q) + Is(Matches(q, hs[k]))
  {
    assert hs[k := hs[k]] == hs;
    TallySplit(hs, k, hs[k], q);
  }

  lemma {:induction false} TallyHas(hs: seq<Holder>, k: nat, q: Query)
    requires k < |hs| && Matches(q, hs[k])
    ensures Tally(hs, q) > 0
  {
    TallyWithout(hs, k, q);
  }

  // ---------------------------------------------------------------------------- invariant

  /** The truth about one buffer: its count is the number of its holders, it is in the free
      list once or not at all, the former exactly when nobody holds it, and at most one
      holder is the handler or the backlog. */
  predicate BufferInv(s: State, id: nat)
    requires id < |s.refs|
  {
    && s.refs[id] == Tally(s.holders, OfBuffer(id))
    && Count(s.free, id) == Is(Tally(s.holders, OfBuffer(id)) == 0)
    && Tally(s.holders, Unforwarded(id)) <= 1
  }

  ghost predicate Inv(s: State) {
    && |s.refs| == NETBUF_NUM && InRange(s)
    && (forall id | 0 <= id < NETBUF_NUM :: BufferInv(s, id))
    && s.blocks + s.others + Tally(s.holders, Flying) == PREALLOC_MREQB_NUM
  }

  lemma {:induction false} TallySub(hs: seq<Holder>, id: nat)
    ensures Tally(hs, Unforwarded(id)) <= Tally(hs, OfBuffer(id))
    ensures Tally(hs, Lost(id)) <= Tally(hs, OfBuffer(id))
  {
    if hs != [] {
      TallySub(hs[..|hs| - 1], id);
    }
  }

  lemma AllocInv(s: State, to: Place)
    requires Inv(s) && Enabled(s, Alloc(to))
    ensures Inv(Do(s, Alloc(to)))
  {
    var r, h := Do(s, Alloc(to)), Holder(s.free[0], to);
    assert s.free == [s.free[0]] + s.free[1..];
    forall id | 0 <= id < NETBUF_NUM ensures BufferInv(r, id) {
      assert BufferInv(s, id);
      CountAdd(s.free[1..], s.free[0], id);
      TallyAdd(s.holders, h, OfBuffer(id));
      TallyAdd(s.holders, h, Unforwarded(id));
      TallySub(s.holders, id);
    }
    TallyAdd(s.holders, h, Flying);
  }

  lemma RefBuffer(s: State, k: nat, to: Place, id: nat)
    requires Inv(s) && Enabled(s, Ref(k, to)) && id < NETBUF_NUM
    ensures BufferInv(Do(s, Ref(k, to)), id)
  {
    var h := Holder(s.holders[k].id, to);
    TallyHas(s.holders, k, OfBuffer(h.id));
    assert BufferInv(s, id);
    TallyAdd(s.holders, h, OfBuffer(id));
    TallyAdd(s.holders, h, Unforwarded(id));
  }

  lemma RefInv(s: State, k: nat, to: Place)
    requires Inv(s) && Enabled(s, Ref(k, to))
    ensures Inv(Do(s, Ref(k, to)))
  {
    var r, h := Do(s, Ref(k, to)), Holder(s.holders[k].id, to);
    forall id | 0 <= id < NETBUF_NUM ensures BufferInv(r, id) {
      RefBuffer(s, k, to, id);
    }
    TallyAdd(s.holders, h, Flying);
  }

  lemma DropInv(s: State, k: nat)
    requires Inv(s) && Enabled(s, Drop(k))
    ensures Inv(Do(s, Drop(k)))
  {
    var r, h := Do(s, Drop(k)), s.holders[k];
    TallyHas(s.holders, k, OfBuffer(h.id));
    hide Tally, Count;
    forall id | 0 <= id < NETBUF_NUM ensures BufferInv(r, id) {
      assert BufferInv(s, id);
      TallyWithout(s.holders, k, OfBuffer(id));
      TallyWithout(s.holders, k, Unforwarded(id));
      CountAdd(s.free, h.id, id);
    }
    TallyWithout(s.holders, k, Flying);
  }

  /** Only the handler hands on to the backlog, and only what it alone has queued. */
  lemma HandInv(s: State, k: nat, to: Place)
    requires Inv(s) && k < |s.holders|
    requires s.holders[k].place in {Handler, Backlog} || to !in {Handler, Backlog}
    ensures var r := Hand(s, k, to);
            && |r.refs| == NETBUF_NUM && InRange(r)
            && (forall id | 0 <= id < NETBUF_NUM :: BufferInv(r, id))
            && Tally(r.holders, Flying)
               == Tally(s.holders, Flying) - Is(s.holders[k].place == InFlight) + Is(to == InFlight)
  {
    var r, h := Hand(s, k, to), Holder(s.holders[k].id, to);
    forall id | 0 <= id < NETBUF_NUM ensures BufferInv(r, id) {
      assert BufferInv(s, id);
      TallySplit(s.holders, k, h, OfBuffer(id));
      TallySplit(s.holders, k, h, Unforwarded(id));
      TallyWithout(s.holders, k, OfBuffer(id));
      TallyWithout(s.holders, k, Unforwarded(id));
    }
    TallySplit(s.holders, k, h, Flying);
    TallyWithout(s.holders, k, Flying);
  }

  lemma StepInv(s: State, t: Step)
    requires Inv(s) && Enabled(s, t)
    ensures Inv(Do(s, t))
  {
    hide Tally, BufferInv;
    match t
    case Alloc(to) => AllocInv(s, to);
    case Ref(k, to) => RefInv(s, k, to);
    case Drop(k) => DropInv(s, k);
    case HandlerPut(k) => HandInv(s, k, Backlog);
    case Forward(k) => HandInv(s, k, User);
    case XmitSubmit(k) =>
      HandInv(s, k, InFlight);
      SameBuffers(Hand(s, k, InFlight), Do(s, t));
    case XmitNoBlock(k) => HandInv(s, k, Forgotten);
    case XmitDone(k) =>
      HandInv(s, k, Completing);
      SameBuffers(Hand(s, k, Completing), Do(s, t));
    case _ => SameBuffers(s, Do(s, t));
  }

  lemma SameBuffers(s: State, r: State)
    requires InRange(s) && r.free == s.free && r.refs == s.refs && r.holders == s.holders
    ensures forall id | 0 <= id < |s.refs| :: BufferInv(r, id) == BufferInv(s, id)
  {
  }

  lemma {:induction false} CarvedOnce(n: nat, id: nat)
    ensures Count(Carved(n), id) == Is(id < n)
    ensures forall k | 0 <= k < |Carved(n)| :: Carved(n)[k] < n
  {
    if n > 0 {
      CarvedOnce(n - 1, id);
      CountAdd<nat>(Carved(n - 1), n - 1, id);
    }
  }

  lemma InitInv()
    ensures Inv(Init())
  {
    var s := Init();
    hide Carved;
    forall id | 0 <= id < NETBUF_NUM ensures BufferInv(s, id) {
      CarvedOnce(NETBUF_NUM, id);
    }
    CarvedOnce(NETBUF_NUM, 0);
  }

  function After(ts: seq<Step>): Option<State> {
    if ts == [] then Some(Init())
    else
      match After(ts[..|ts| - 1])
      case None => None
      case Some(s) => if InRange(s) && Enabled(s, ts[|ts| - 1]) then Some(Do(s, ts[|ts| - 1])) else None
  }

  lemma {:induction false} RunInv(ts: seq<Step>)
    requires After(ts).Some?
    ensures Inv(After(ts).value)
  {
    if ts == [] {
      InitInv();
    } else {
      RunInv(ts[..|ts| - 1]);
      StepInv(After(ts[..|ts| - 1]).value, ts[|ts| - 1]);
    }
  }

  // ------------------------------------------------------------------------- main results

  /** Buffers below n that somebody holds. */
  function Live(s: State, n: nat): nat
    requires n <= |s.refs|
  {
    if n == 0 then 0 else Live(s, n - 1) + Is(s.refs[n - 1] > 0)
  }

  function Total(q: seq<nat>, n: nat): nat {
    if n == 0 then 0 else Total(q, n - 1) + Count<nat>(q, n - 1)
  }

  lemma {:induction false} TotalAdd(q: seq<nat>, x: nat, n: nat)
    ensures Total([x] + q, n) == Total(q, n) + Is(x < n)
  {
    if n > 0 {
      TotalAdd(q, x, n - 1);
      CountAdd<nat>(q, x, n - 1);
    }
  }

  lemma {:induction false} TotalNone(n: nat)
    ensures Total([], n) == 0
  {
    if n > 0 {
      TotalNone(n - 1);
    }
  }

  lemma {:induction false} TotalIsLength(q: seq<nat>, n: nat)
    requires forall k | 0 <= k < |q| :: q[k] < n
    ensures Total(q, n) == |q|
    decreases |q|
  {
    if q == [] {
      TotalNone(n);
    } else {
      assert q == [q[0]] + q[1..];
      TotalIsLength(q[1..], n);
      TotalAdd(q[1..], q[0], n);
    }
  }

  lemma {:induction false} FreeAndLive(s: State, n: nat)
    requires Inv(s) && n <= NETBUF_NUM
    ensures Total(s.free, n) + Live(s, n) == n
  {
    if n > 0 {
      FreeAndLive(s, n - 1);
      assert BufferInv(s, n - 1);
    }
  }

  /** In every run: free list and live buffers together are the pool; no buffer is in the
      free list and with a holder; the free list holds no buffer twice; every count is the
      number of holders; no buffer waits in the backlog twice. */
  lemma {:induction false} Conservation(ts: seq<Step>, id: nat)
    requires After(ts).Some? && id < NETBUF_NUM
    ensures var s := After(ts).value;
            && |s.refs| == NETBUF_NUM
            && |s.free| + Live(s, NETBUF_NUM) == NETBUF_NUM
            && Count(s.free, id) <= 1
            && (Count(s.free, id) == 1 <==> Tally(s.holders, OfBuffer(id)) == 0)
            && s.refs[id] == Tally(s.holders, OfBuffer(id))
            && Tally(s.holders, Unforwarded(id)) <= 1
            && s.blocks + s.others + Tally(s.holders, Flying) == PREALLOC_MREQB_NUM
  {
    var s := After(ts).value;
    RunInv(ts);
    hide Tally, After;
    FreeAndLive(s, NETBUF_NUM);
    TotalIsLength(s.free, NETBUF_NUM);
    assert BufferInv(s, id);
  }

  /** The pool is a stack: the buffer that a step returns is the one the next allocation hands
      out, which leaves the free list as it was before the step. */
  lemma LastReturnedIsNext(s: State, k: nat, to: Place)
    requires Inv(s) && Enabled(s, Drop(k)) && s.refs[s.holders[k].id] == 1 && to in {User, Handler}
    ensures var r, id := Do(s, Drop(k)), s.holders[k].id;
            && InRange(r) && Enabled(r, Alloc(to))
            && var a := Do(r, Alloc(to));
               && a.free == s.free && |a.holders| == |s.holders|
               && a.holders[|a.holders| - 1] == Holder(id, to) && a.refs[id] == 1
  {
    StepInv(s, Drop(k));
  }

  /** A received packet's reference goes from the handler to the backlog and from there to the
      forward thread, which alone can drop it; the count stays what it was. */
  lemma ReceivePath(s: State, k: nat)
    requires Inv(s) && At(s, k, Handler)
    ensures Enabled(s, HandlerPut(k)) && !Enabled(s, Drop(k))
    ensures var a := Do(s, HandlerPut(k));
            && InRange(a) && Enabled(a, Forward(k)) && !Enabled(a, Drop(k))
            && var b := Do(a, Forward(k));
               && InRange(b) && Enabled(b, Drop(k))
               && b == s.(holders := s.holders[k := Holder(s.holders[k].id, User)])
  {
    StepInv(s, HandlerPut(k));
  }

  /** A transmission's reference is with its request block until that is completed, and is
      dropped only then; the block is back before. */
  lemma TransmitPath(s: State, k: nat)
    requires Inv(s) && At(s, k, Xmit) && s.blocks > 0
    ensures Enabled(s, XmitSubmit(k)) && !Enabled(s, XmitNoBlock(k)) && !Enabled(s, Drop(k))
    ensures var a := Do(s, XmitSubmit(k));
            && InRange(a) && a.blocks == s.blocks - 1 && Enabled(a, XmitDone(k)) && !Enabled(a, Drop(k))
            && var b := Do(a, XmitDone(k));
               && InRange(b) && Enabled(b, Drop(k))
               && b == s.(holders := s.holders[k := Holder(s.holders[k].id, Completing)])
  {
    StepInv(s, XmitSubmit(k));
  }

  /** The first allocations hand out the buffers from the last one carved down. */
  lemma {:induction false} CarvedFromTheEnd(n: nat, i: nat)
    requires i < n
    ensures |Carved(n)| == n && Carved(n)[i] == n - 1 - i
  {
    CarvedLength(n);
    if i > 0 {
      CarvedFromTheEnd(n - 1, i - 1);
    }
  }

  /** When nothing but allocating, taking more references and other uses of request blocks can
      happen, everything has been let go of. */
  ghost predicate AtRest(s: State)
    requires InRange(s)
  {
    forall t :: Enabled(s, t) ==> t.Alloc? || t.Ref? || t.BlockTake? || t.BlockGive?
  }

  lemma RestIsQuiet(s: State)
    requires InRange(s)
    ensures AtRest(s) <==> Quiet(s)
  {
    if AtRest(s) {
      forall k | 0 <= k < |s.holders| ensures s.holders[k].place == Forgotten {
        assert !Enabled(s, HandlerPut(k)) && !Enabled(s, Forward(k)) && !Enabled(s, Drop(k));
        assert !Enabled(s, XmitSubmit(k)) && !Enabled(s, XmitNoBlock(k)) && !Enabled(s, XmitDone(k));
      }
    }
  }

  /** A step returns a buffer to the free list exactly when it takes the last holder away. */
  lemma ReturnsWithLastHolder(s: State, t: Step, id: nat)
    requires Inv(s) && Enabled(s, t) && id < NETBUF_NUM
    ensures var r := Do(s, t);
            (Count(s.free, id) == 0 && Count(r.free, id) == 1)
            <==> (Tally(s.holders, OfBuffer(id)) > 0 && Tally(r.holders, OfBuffer(id)) == 0)
  {
    StepInv(s, t);
    assert BufferInv(s, id) && BufferInv(Do(s, t), id);
  }

  /** A reference left behind at the exit for want of a request block is never dropped. */
  lemma ForgottenStays(s: State, t: Step, id: nat)
    requires Inv(s) && Enabled(s, t) && id < NETBUF_NUM && Tally(s.holders, Lost(id)) > 0
    ensures Tally(Do(s, t).holders, Lost(id)) >= Tally(s.holders, Lost(id))
  {
    var hs, q := s.holders, Lost(id);
    hide Tally;
    match t
    case Alloc(to) => TallyAdd(hs, Holder(s.free[0], to), q);
    case Ref(k, to) => TallyAdd(hs, Holder(hs[k].id, to), q);
    case Drop(k) => TallyWithout(hs, k, q);
    case HandlerPut(k) => TallyMove(hs, k, Backlog, q);
    case Forward(k) => TallyMove(hs, k, User, q);
    case XmitSubmit(k) => TallyMove(hs, k, InFlight, q);
    case XmitNoBlock(k) => TallyMove(hs, k, Forgotten, q);
    case XmitDone(k) => TallyMove(hs, k, Completing, q);
    case _ =>
  }

  lemma TallyMove(hs: seq<Holder>, k: nat, to: Place, q: Query)
    requires k < |hs|
    ensures var h := Holder(hs[k].id, to);
            Tally(hs[k := h], q) == Tally(hs, q) - Is(Matches(q, hs[k])) + Is(Matches(q, h))
  {
    TallySplit(hs, k, Holder(hs[k].id, to), q);
    TallyWithout(hs, k, q);
  }

  /** The forgotten references grow by one exactly at the exit without request block. */
  lemma {:induction false} ForgottenGrows(s: State, t: Step)
    requires InRange(s) && Enabled(s, t)
    ensures Tally(Do(s, t).holders, LostAll) == Tally(s.holders, LostAll) + Is(t.XmitNoBlock?)
  {
    var hs, q := s.holders, LostAll;
    hide Tally;
    match t
    case Alloc(to) => TallyAdd(hs, Holder(s.free[0], to), q);
    case Ref(k, to) => TallyAdd(hs, Holder(hs[k].id, to), q);
    case Drop(k) => TallyWithout(hs, k, q);
    case HandlerPut(k) => TallyMove(hs, k, Backlog, q);
    case Forward(k) => TallyMove(hs, k, User, q);
    case XmitSubmit(k) => TallyMove(hs, k, InFlight, q);
    case XmitNoBlock(k) => TallyMove(hs, k, Forgotten, q);
    case XmitDone(k) => TallyMove(hs, k, Completing, q);
    case _ =>
  }

  /** How often a run takes that exit. */
  function Exits(ts: seq<Step>): nat {
    if ts == [] then 0 else Exits(ts[..|ts| - 1]) + Is(ts[|ts| - 1].XmitNoBlock?)
  }

  lemma {:induction false} ForgottenIsExits(ts: seq<Step>)
    requires After(ts).Some?
    ensures Tally(After(ts).value.holders, LostAll) == Exits(ts)
  {
    if ts != [] {
      ForgottenIsExits(ts[..|ts| - 1]);
      ForgottenGrows(After(ts[..|ts| - 1]).value, ts[|ts| - 1]);
    }
  }

  lemma {:induction false} ExitsIff(ts: seq<Step>)
    ensures Exits(ts) == 0 <==> forall i | 0 <= i < |ts| :: !ts[i].XmitNoBlock?
  {
    if ts != [] {
      var n := |ts| - 1;
      ExitsIff(ts[..n]);
      assert forall i | 0 <= i < n :: ts[..n][i] == ts[i];
    }
  }

  /** Threads, handler, backlog, requests and completions have let go of everything. */
  predicate Quiet(s: State) {
    forall k | 0 <= k < |s.holders| :: s.holders[k].place == Forgotten
  }

  /** For every run that ends quiet: the whole pool is back if and only if no transmission
      ever left by the exit that finds no request block. */
  lemma {:induction false} AllBackIffNothingForgotten(ts: seq<Step>)
    requires After(ts).Some? && Quiet(After(ts).value)
    ensures |After(ts).value.free| == NETBUF_NUM <==> forall i | 0 <= i < |ts| :: !ts[i].XmitNoBlock?
  {
    var s := After(ts).value;
    RunInv(ts);
    ForgottenIsExits(ts);
    ExitsIff(ts);
    hide After, Exits;
    AllBackIffNoHolders(s);
    if s.holders != [] {
      TallyHas(s.holders, 0, LostAll);
    }
  }

  lemma AllBackIffNoHolders(s: State)
    requires Inv(s) && Quiet(s)
    ensures |s.free| == NETBUF_NUM <==> s.holders == []
  {
    FreeAndLive(s, NETBUF_NUM);
    TotalIsLength(s.free, NETBUF_NUM);
    if s.holders == [] {
      NobodyLive(s, NETBUF_NUM);
    } else {
      var id := s.holders[0].id;
      TallyHas(s.holders, 0, OfBuffer(id));
      assert BufferInv(s, id);
      SomebodyLive(s, NETBUF_NUM, id);
    }
  }

  lemma {:induction false} NobodyLive(s: State, n: nat)
    requires Inv(s) && n <= NETBUF_NUM && s.holders == []
    ensures Live(s, n) == 0
  {
    if n > 0 {
      NobodyLive(s, n - 1);
      assert BufferInv(s, n - 1);
    }
  }

  lemma {:induction false} SomebodyLive(s: State, n: nat, id: nat)
    requires id < n <= |s.refs| && s.refs[id] > 0
    ensures Live(s, n) > 0
  {
    if id < n - 1 {
      SomebodyLive(s, n - 1, id);
    }
  }

  lemma Extend(ts: seq<Step>, t: Step)
    requires After(ts).Some? && InRange(After(ts).value) && Enabled(After(ts).value, t)
    ensures After(ts + [t]) == Some(Do(After(ts).value, t))
    ensures Exits(ts + [t]) == Exits(ts) + Is(t.XmitNoBlock?)
  {
    assert (ts + [t])[..|ts|] == ts;
  }

  lemma TakeOne(ts: seq<Step>, s: State)
    requires After(ts) == Some(s) && InRange(s) && s.blocks > 0
    ensures After(ts + [BlockTake]) == Some(s.(blocks := s.blocks - 1, others := s.others + 1))
    ensures Exits(ts + [BlockTake]) == Exits(ts)
  {
    hide After, Exits, InRange;
    Extend(ts, BlockTake);
  }

  /** Other users can take all request blocks. */
  lemma {:induction false} TakeBlocks(n: nat) returns (ts: seq<Step>)
    requires n <= PREALLOC_MREQB_NUM
    ensures After(ts) == Some(Init().(blocks := PREALLOC_MREQB_NUM - n, others := n)) && Exits(ts) == 0
  {
    hide InRange, Init;
    if n == 0 {
      ts := [];
      NoBlocksTaken();
    } else {
      hide After, Exits;
      var rs := TakeBlocks(n - 1);
      InitInRange(n - 1);
      TakeOne(rs, Init().(blocks := PREALLOC_MREQB_NUM - (n - 1), others := n - 1));
      ts := rs + [BlockTake];
    }
  }

  lemma NoBlocksTaken()
    ensures Init().(blocks := PREALLOC_MREQB_NUM, others := 0) == Init()
  {
    hide Carved;
  }

  lemma InitInRange(n: nat)
    requires n <= PREALLOC_MREQB_NUM
    ensures InRange(Init().(blocks := PREALLOC_MREQB_NUM - n, others := n))
  {
    hide Carved;
    CarvedOnce(NETBUF_NUM, 0);
  }

  /** A transmission by that exit, from a state with nobody holding anything. */
  lemma {:induction false} TakeExit(ts: seq<Step>, s: State) returns (rs: seq<Step>)
    requires After(ts) == Some(s) && InRange(s) && s.holders == [] && s.blocks == 0
    requires s.free != [] && s.refs[s.free[0]] == 0
    ensures After(rs).Some? && Exits(rs) == Exits(ts) + 1
    ensures After(rs).value.holders == [Holder(s.free[0], Forgotten)] && After(rs).value.free == s.free[1..]
  {
    hide After, Exits;
    var id := s.free[0];
    Extend(ts, Alloc(User));
    rs := ts + [Alloc(User)];
    var s1 := DoAlloc(s, User);
    assert s1.holders == [Holder(id, User)];
    Extend(rs, Ref(0, Xmit));
    rs := rs + [Ref(0, Xmit)];
    var s2 := DoRef(s1, 0, Xmit);
    assert s2.holders == [Holder(id, User), Holder(id, Xmit)] && s2.refs[id] == 2;
    Extend(rs, XmitNoBlock(1));
    rs := rs + [XmitNoBlock(1)];
    var s3 := Hand(s2, 1, Forgotten);
    assert s3.holders == [Holder(id, User), Holder(id, Forgotten)];
    Extend(rs, Drop(0));
    rs := rs + [Drop(0)];
    assert Without(s3.holders, 0) == [Holder(id, Forgotten)];
  }

  /** The exit is reachable: with every request block in other use, a transmission leaves by
      it, and when the thread has dropped its own reference the pool is quiet and a buffer
      short for good. */
  lemma {:induction false} ExitLosesBuffer() returns (ts: seq<Step>)
    ensures After(ts).Some? && Quiet(After(ts).value) && Exits(ts) == 1
    ensures |After(ts).value.free| == NETBUF_NUM - 1
  {
    hide Carved, After, Exits, Init;
    ts := TakeBlocks(PREALLOC_MREQB_NUM);
    InitInRange(PREALLOC_MREQB_NUM);
    InitStart();
    ts := TakeExit(ts, Init().(blocks := 0, others := PREALLOC_MREQB_NUM));
  }

  lemma InitStart()
    ensures var s := Init(); |s.free| == NETBUF_NUM && s.holders == [] && s.free[0] < |s.refs| && s.refs[s.free[0]] == 0
  {
    hide Carved;
    CarvedLength(NETBUF_NUM);
    CarvedOnce(NETBUF_NUM, 0);
  }

  lemma {:induction false} CarvedLength(n: nat)
    ensures |Carved(n)| == n
  {
    if n > 0 {
      CarvedLength(n - 1);
    }
  }
}
