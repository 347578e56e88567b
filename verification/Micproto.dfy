/** MICPROTO between two CPUs that run the same code. A request block travels
    owner -> output list -> batch -> mailbox -> peer's input thread -> handler (at once
    or deferred) -> peer's output list -> batch -> mailbox -> owner's input thread ->
    worker -> completion. A step is one locked region, one mailbox operation or one
    access to shared worker state; any order of enabled steps of both CPUs is a run. */
module Micproto {
  import opened Basics
  import opened Counting
  import O = OutputPath
  import W = WorkerPool

  datatype Side = Cpu1 | Cpu2

  function Peer(e: Side): Side {
    if e == Cpu1 then Cpu2 else Cpu1
  }

  /** The fields of struct mreqb the protocol itself uses: RESPONSE_BIT of cmd, and
      result. `owner` is the CPU whose pool the block comes from. */
  datatype Block = Block(owner: Side, response: bool, result: int)

  /** struct sync_mreqb_context on the stack of a waiting submitter. */
  datatype Context = Context(done: bool, status: int)

  /** The input thread: at the mailbox, or inside process_request. */
  datatype Input = Listening | Handling(id: nat)

  /** One CPU: blocks its clients own, output path, messages in its mailbox towards the
      peer, input thread, handlers that returned MREQB_RET_PENDING, workers, statistics.
      `taken` (history) is what the peer has taken out of the mailbox, `asked` (history) the
      part of it that the peer has passed to process_request. */
  datatype End = End(
    owned: set<nat>, out: O.State, wire: seq<nat>, taken: seq<nat>, asked: seq<nat>,
    input: Input, deferred: seq<nat>, pool: W.State,
    submitCount: nat, completeCount: nat, receiveCount: nat, givebackCount: nat)

  datatype Event =
    | Submitted(id: nat, blocking: bool)
    | GivenBack(id: nat, status: int)
    | Completed(id: nat, result: int)
    | Returned(id: nat, status: int)

  datatype State = State(cpu1: End, cpu2: End, blocks: map<nat, Block>, waiting: map<nat, Context>, log: seq<Event>)

  function At(s: State, e: Side): End {
    if e == Cpu1 then s.cpu1 else s.cpu2
  }

  function With(s: State, e: Side, d: End): State {
    if e == Cpu1 then s.(cpu1 := d) else s.(cpu2 := d)
  }

  datatype Step =
    | Submit(id: nat, blocking: bool)
    | Output(o: O.Step)
    | Push
    | Receive
    | HandleNow(status: int)
    | Defer
    | GivebackDeferred(k: nat, status: int)
    | Pool(u: W.Step)
    | Complete(w: nat)
    | Return(id: nat)

  // ------------------------------------------------------------------------- steps

  predicate Enabled(s: State, e: Side, t: Step) {
    var d := At(s, e);
    match t
    case Submit(id, _) => id in d.owned && id in s.blocks && id !in s.waiting
    case Output(o) => !o.Insert? && !o.PushOk? && O.Enabled(d.out, o)
    case Push => d.out.pc == O.Pushing && d.out.batch != []
    case Receive =>
      d.input.Listening? && d.pool.d.Free? && At(s, Peer(e)).wire != [] && At(s, Peer(e)).wire[0] in s.blocks
    case HandleNow(_) => d.input.Handling? && d.input.id in s.blocks
    case Defer => d.input.Handling?
    case GivebackDeferred(k, _) => k < |d.deferred| && d.deferred[k] in s.blocks
    case Pool(u) => !u.Dispatch? && !u.Complete? && W.Enabled(d.pool, u)
    case Complete(w) => W.Enabled(d.pool, W.Complete(w)) && d.pool.ws[w].pc.id in s.blocks
    case Return(id) => id in d.owned && id in s.waiting && s.waiting[id].done
  }

  /** mreqb_submit up to the unlock; raising the flag is a step of its own. */
  function Enqueue(d: End, id: nat, response: bool): End {
    d.(out := O.DoInsert(d.out, O.Msg(id, response)),
    submitCount := if response then d.submitCount else d.submitCount + 1)
  }

  /** mreqb_giveback */
  function Giveback(s: State, e: Side, d: End, id: nat, status: int): State
    requires id in s.blocks
  {
    With(s, e, Enqueue(d.(givebackCount := d.givebackCount + 1), id, true))
    .(blocks := s.blocks[id := s.blocks[id].(result := status, response := true)],
      log := s.log + [GivenBack(id, status)])
  }

  function Do(s: State, e: Side, t: Step): (r: State)
    requires Enabled(s, e, t)
  {
    var d := At(s, e);
    match t
    case Submit(id, blocking) =>
      // the client has bound a command, which clears the response bit
      With(s, e, Enqueue(d.(owned := d.owned - {id}), id, false))
      .(blocks := s.blocks[id := s.blocks[id].(response := false)],
        waiting := if blocking then s.waiting[id := Context(false, 0)] else s.waiting,
        log := s.log + [Submitted(id, blocking)])
    case Output(o) => With(s, e, d.(out := O.Do(d.out, o)))
    case Push => With(s, e, d.(out := O.DoPush(d.out), wire := d.wire + [d.out.batch[0].id]))
    case Receive => DoReceive(s, e)
    case HandleNow(status) => Giveback(s, e, d.(input := Listening), d.input.id, status)
    case Defer => With(s, e, d.(input := Listening, deferred := d.deferred + [d.input.id]))
    case GivebackDeferred(k, status) => Giveback(s, e, d.(deferred := Without(d.deferred, k)), d.deferred[k], status)
    case Pool(u) => With(s, e, d.(pool := W.Do(d.pool, u)))
    case Complete(w) => DoComplete(s, e, w)
    case Return(id) => s.(waiting := s.waiting - {id}, log := s.log + [Returned(id, s.waiting[id].status)])
  }

  /** The peer takes the next message; it tells a request from a response by the block. */
  function Take(d: End, response: bool): End
    requires d.wire != []
  {
    var id := d.wire[0];
    d.(wire := d.wire[1..], taken := d.taken + [id], asked := if response then d.asked else d.asked + [id])
  }

  /** One round of input_thread, up to the dispatcher or the handler. */
  function DoReceive(s: State, e: Side): State
    requires Enabled(s, e, Receive)
  {
    var from := At(s, Peer(e));
    var id := from.wire[0];
    var d := At(s, e);
    var s1 := With(s, Peer(e), Take(from, s.blocks[id].response));
    if s.blocks[id].response then
      With(s1, e, d.(completeCount := d.completeCount + 1, pool := W.Do(d.pool, W.Dispatch(id))))
    else
      With(s1, e, d.(receiveCount := d.receiveCount + 1, input := Handling(id)))
  }

  /** process_complete in worker w: the callback gives the block back to its client. */
  function DoComplete(s: State, e: Side, w: nat): State
    requires Enabled(s, e, Complete(w))
  {
    var d := At(s, e);
    var id := d.pool.ws[w].pc.id;
    var result := s.blocks[id].result;
    With(s, e, d.(pool := W.Do(d.pool, W.Complete(w)), owned := d.owned + {id}))
    .(waiting := if id in s.waiting then s.waiting[id := Context(true, result)] else s.waiting,
      log := s.log + [Completed(id, result)])
  }

  // ------------------------------------------------- what the events of a block must be

  /** How far a block has got, read off the events alone. */
  datatype Stage = Idle | Sent(blocking: bool) | Given(blocking: bool, status: int) | Signalled(status: int) | Wrong

  /** Only submit, giveback, completion with the status given back, and, for a blocking
      submitter, return of that status are in order; anything else is Wrong for good. */
  function NextStage(g: Stage, ev: Event): Stage {
    match (g, ev)
    case (Idle, Submitted(_, blocking)) => Sent(blocking)
    case (Sent(blocking), GivenBack(_, status)) => Given(blocking, status)
    case (Given(blocking, status), Completed(_, result)) =>
      if result != status then Wrong else if blocking then Signalled(status) else Idle
    case (Signalled(status), Returned(_, v)) => if v == status then Idle else Wrong
    case (_, _) => Wrong
  }

  /** The stage of block x after the first n events. */
  function StageAt(log: seq<Event>, n: nat, x: nat): Stage
    requires n <= |log|
  {
    if n == 0 then Idle
    else if log[n - 1].id == x then NextStage(StageAt(log, n - 1, x), log[n - 1])
    else StageAt(log, n - 1, x)
  }

  function StageOf(log: seq<Event>, x: nat): Stage {
    StageAt(log, |log|, x)
  }

  lemma {:induction false} StagePrefix(log: seq<Event>, more: seq<Event>, n: nat, x: nat)
    requires n <= |log|
    ensures StageAt(log + more, n, x) == StageAt(log, n, x)
  {
    if n > 0 { StagePrefix(log, more, n - 1, x); }
  }

  lemma StageAppend(log: seq<Event>, ev: Event, x: nat)
    ensures StageOf(log + [ev], x) == if ev.id == x then NextStage(StageOf(log, x), ev) else StageOf(log, x)
  {
    StagePrefix(log, [ev], |log|, x);
  }

  // -------------------------------------------------------------------- where a block is

  function InOutput(o: O.State, x: nat, r: bool): nat {
    Count(o.pending, O.Msg(x, r)) + Count(o.batch, O.Msg(x, r))
  }

  /** How often block x is in each kind of place of one CPU: with its client, in the
      output path as request or as response, in the mailbox, with a handler, with the
      worker pool. */
  datatype Spot = Spot(owned: nat, request: nat, response: nat, wire: nat, handler: nat, worker: nat)

  function SpotOf(d: End, x: nat): Spot {
    Spot(Is(x in d.owned), InOutput(d.out, x, false), InOutput(d.out, x, true), Count(d.wire, x),
         Is(d.input == Handling(x)) + Count(d.deferred, x), W.Held(d.pool, x))
  }

  function Total(p: Spot): nat {
    p.owned + p.request + p.response + p.wire + p.handler + p.worker
  }

  /** Block b moves from e to its peer in the right state: requests leave their owner,
      responses return to it. */
  predicate Travels(b: Block, e: Side) {
    b.response <==> b.owner != e
  }

  /** What being in each of the places of CPU e says about a block. */
  predicate PlacedRight(p: Spot, e: Side, b: Block) {
    && (p.owned > 0 ==> b.owner == e)
    && (p.response > 0 ==> b.response && Travels(b, e))
    && (p.request > 0 ==> !b.response && Travels(b, e))
    && (p.wire > 0 ==> Travels(b, e))
    && (p.handler > 0 ==> !b.response && b.owner != e)
    && (p.worker > 0 ==> b.response && b.owner == e)
  }

  /** All the system knows about block x. */
  datatype Profile = Profile(p1: Spot, p2: Spot, block: Option<Block>, context: Option<Context>, stage: Stage)

  function ProfileOf(s: State, x: nat): Profile {
    Profile(SpotOf(s.cpu1, x), SpotOf(s.cpu2, x),
            if x in s.blocks then Some(s.blocks[x]) else None,
            if x in s.waiting then Some(s.waiting[x]) else None,
            StageOf(s.log, x))
  }

  function SpotAt(f: Profile, e: Side): Spot {
    if e == Cpu1 then f.p1 else f.p2
  }

  function WithSpot(f: Profile, e: Side, p: Spot): Profile {
    if e == Cpu1 then f.(p1 := p) else f.(p2 := p)
  }

  /** With its client a block is Idle, or its blocking submitter has yet to return with
      the status that was given back; under way it is Sent or Given, as its response
      bit says. */
  predicate OnStage(f: Profile)
    requires f.block.Some?
  {
    var b := f.block.value;
    if SpotAt(f, b.owner).owned > 0 then
      match f.context
      case None => f.stage == Idle
      case Some(c) => c.done && f.stage == Signalled(c.status)
    else
      && (f.context.Some? ==> !f.context.value.done)
      && f.stage == if b.response then Given(f.context.Some?, b.result) else Sent(f.context.Some?)
  }

  /** The invariant for one block: it is in exactly one place of the whole system, that
      place fits its state, and its events so far are in order. */
  predicate Fits(f: Profile) {
    && Total(f.p1) + Total(f.p2) == Is(f.block.Some?)
    && (f.block.Some? ==>
          PlacedRight(f.p1, Cpu1, f.block.value) && PlacedRight(f.p2, Cpu2, f.block.value) && OnStage(f))
  }

  ghost predicate BlockInv(s: State, x: nat) {
    Fits(ProfileOf(s, x))
  }

  function Ids(ms: seq<O.Msg>): seq<nat> {
    seq(|ms|, i requires 0 <= i < |ms| => ms[i].id)
  }

  /** The invariant of one CPU: its output path and worker pool are in order, the peer
      takes messages in the order they were put, and the statistics of requests being
      handled agree with what is being handled. */
  ghost predicate EndInv(d: End) {
    && O.Inv(d.out) && W.Inv(d.pool)
    && d.taken + d.wire == Ids(d.out.sent)
    && d.receiveCount == d.givebackCount + Is(d.input.Handling?) + |d.deferred|
  }

  // ------------------------------------------------------- every step keeps the invariant

  // The effect of a step on the profile of the block it concerns.

  function AfterSubmit(f: Profile, e: Side, x: nat, blocking: bool): Profile
    requires f.block.Some?
  {
    var p := SpotAt(f, e);
    WithSpot(f, e, p.(owned := 0, request := p.request + 1))
    .(block := Some(f.block.value.(response := false)),
      context := if blocking then Some(Context(false, 0)) else f.context,
      stage := NextStage(f.stage, Submitted(x, blocking)))
  }

  function AfterPush(f: Profile, e: Side, response: bool): Profile
    requires if response then SpotAt(f, e).response > 0 else SpotAt(f, e).request > 0
  {
    var p := SpotAt(f, e);
    WithSpot(f, e, if response then p.(response := p.response - 1, wire := p.wire + 1)
                   else p.(request := p.request - 1, wire := p.wire + 1))
  }

  function AfterReceive(f: Profile, e: Side): Profile
    requires f.block.Some? && SpotAt(f, Peer(e)).wire > 0
  {
    var from, to := SpotAt(f, Peer(e)), SpotAt(f, e);
    WithSpot(WithSpot(f, Peer(e), from.(wire := from.wire - 1)), e,
             if f.block.value.response then to.(worker := to.worker + 1) else to.(handler := to.handler + 1))
  }

  function AfterGiveback(f: Profile, e: Side, x: nat, status: int): Profile
    requires f.block.Some? && SpotAt(f, e).handler > 0
  {
    var p := SpotAt(f, e);
    WithSpot(f, e, p.(handler := p.handler - 1, response := p.response + 1))
    .(block := Some(f.block.value.(response := true, result := status)),
      stage := NextStage(f.stage, GivenBack(x, status)))
  }

  function AfterComplete(f: Profile, e: Side, x: nat): Profile
    requires f.block.Some? && SpotAt(f, e).worker > 0
  {
    var p := SpotAt(f, e);
    WithSpot(f, e, p.(worker := p.worker - 1, owned := 1))
    .(context := if f.context.Some? then Some(Context(true, f.block.value.result)) else None,
      stage := NextStage(f.stage, Completed(x, f.block.value.result)))
  }

  // Each effect keeps the invariant of the block.

  lemma SubmitFits(f: Profile, e: Side, x: nat, blocking: bool)
    requires Fits(f) && f.block.Some? && SpotAt(f, e).owned > 0 && f.context.None?
    ensures Fits(AfterSubmit(f, e, x, blocking))
  {
  }

  lemma PushFits(f: Profile, e: Side, response: bool)
    requires Fits(f) && if response then SpotAt(f, e).response > 0 else SpotAt(f, e).request > 0
    ensures Fits(AfterPush(f, e, response))
  {
  }

  lemma ReceiveFits(f: Profile, e: Side)
    requires Fits(f) && f.block.Some? && SpotAt(f, Peer(e)).wire > 0
    ensures Fits(AfterReceive(f, e))
  {
  }

  lemma GivebackFits(f: Profile, e: Side, x: nat, status: int)
    requires Fits(f) && f.block.Some? && SpotAt(f, e).handler > 0
    ensures Fits(AfterGiveback(f, e, x, status))
  {
  }

  lemma CompleteFits(f: Profile, e: Side, x: nat)
    requires Fits(f) && f.block.Some? && SpotAt(f, e).worker > 0
    ensures Fits(AfterComplete(f, e, x))
  {
  }

  lemma ReturnFits(f: Profile, e: Side, x: nat)
    requires Fits(f) && SpotAt(f, e).owned > 0 && f.context.Some?
    ensures Fits(f.(context := None, stage := NextStage(f.stage, Returned(x, f.context.value.status))))
  {
  }

  lemma EnqueueSpot(d: End, id: nat, r: bool, x: nat)
    ensures var p := SpotOf(d, x);
            SpotOf(Enqueue(d, id, r), x) ==
              if x != id then p else if r then p.(response := p.response + 1) else p.(request := p.request + 1)
  {
    CountAdd(d.out.pending, O.Msg(id, r), O.Msg(x, true));
    CountAdd(d.out.pending, O.Msg(id, r), O.Msg(x, false));
  }

  lemma DisownedSpot(d: End, id: nat, x: nat)
    requires id in d.owned
    ensures SpotOf(d, id).owned > 0
    ensures var p := SpotOf(d, x);
            SpotOf(d.(owned := d.owned - {id}), x) == if x == id then p.(owned := 0) else p
  {
  }

  lemma CounterSpot(d: End, n: nat, x: nat)
    ensures SpotOf(d.(givebackCount := n), x) == SpotOf(d, x)
  {
  }

  lemma OutputCount(o: O.State, t: O.Step, x: nat, r: bool)
    requires (o.pc == O.Pushing <==> o.batch != []) && O.Enabled(o, t) && !t.Insert? && !t.PushOk?
    ensures InOutput(O.Do(o, t), x, r) == InOutput(o, x, r)
  {
  }

  lemma OutputProfile(s: State, e: Side, o: O.Step, x: nat)
    requires (At(s, e).out.pc == O.Pushing <==> At(s, e).out.batch != []) && Enabled(s, e, Output(o))
    ensures ProfileOf(Do(s, e, Output(o)), x) == ProfileOf(s, x)
  {
    OutputCount(At(s, e).out, o, x, false);
    OutputCount(At(s, e).out, o, x, true);
  }

  lemma PushSpot(d: End, x: nat)
    requires d.out.batch != []
    ensures var d' := d.(out := O.DoPush(d.out), wire := d.wire + [d.out.batch[0].id]);
            var p, m := SpotOf(d, x), d.out.batch[0];
            && (m.id != x ==> SpotOf(d', x) == p)
            && (m == O.Msg(x, true) ==>
                  p.response > 0 && SpotOf(d', x) == p.(response := p.response - 1, wire := p.wire + 1))
            && (m == O.Msg(x, false) ==>
                  p.request > 0 && SpotOf(d', x) == p.(request := p.request - 1, wire := p.wire + 1))
  {
    CountAdd(d.wire, d.out.batch[0].id, x);
  }

  lemma PushProfile(s: State, e: Side, x: nat)
    requires Enabled(s, e, Push)
    ensures var m, f := At(s, e).out.batch[0], ProfileOf(s, x);
            if m.id != x then ProfileOf(Do(s, e, Push), x) == f
            else (if m.response then SpotAt(f, e).response > 0 else SpotAt(f, e).request > 0)
                 && ProfileOf(Do(s, e, Push), x) == AfterPush(f, e, m.response)
  {
    hide SpotOf;
    PushSpot(At(s, e), x);
  }

  lemma SubmitProfile(s: State, e: Side, id: nat, blocking: bool, x: nat)
    requires Enabled(s, e, Submit(id, blocking))
    ensures var f := ProfileOf(s, x);
            if x != id then ProfileOf(Do(s, e, Submit(id, blocking)), x) == f
            else
              && SpotAt(f, e).owned > 0 && f.context.None?
              && ProfileOf(Do(s, e, Submit(id, blocking)), x) == AfterSubmit(f, e, x, blocking)
  {
    hide SpotOf;
    var d := At(s, e).(owned := At(s, e).owned - {id});
    DisownedSpot(At(s, e), id, x);
    EnqueueSpot(d, id, false, x);
    StageAppend(s.log, Submitted(id, blocking), x);
  }

  lemma GivebackProfile(s: State, e: Side, d: End, id: nat, status: int, x: nat)
    requires id in s.blocks
    requires x != id ==> SpotOf(d, x) == SpotOf(At(s, e), x)
    requires x == id ==> var p := SpotOf(At(s, e), x); p.handler > 0 && SpotOf(d, x) == p.(handler := p.handler - 1)
    ensures var f := ProfileOf(s, x);
            ProfileOf(Giveback(s, e, d, id, status), x) == if x != id then f else AfterGiveback(f, e, x, status)
  {
    hide SpotOf, StageAt, Giveback;
    GivebackState(s, e, d, id, status);
    CounterSpot(d, d.givebackCount + 1, x);
    EnqueueSpot(d.(givebackCount := d.givebackCount + 1), id, true, x);
    StageAppend(s.log, GivenBack(id, status), x);
    hide Enqueue;
  }

  lemma GivebackState(s: State, e: Side, d: End, id: nat, status: int)
    requires id in s.blocks
    ensures var r := Giveback(s, e, d, id, status);
            && At(r, e) == Enqueue(d.(givebackCount := d.givebackCount + 1), id, true)
            && At(r, Peer(e)) == At(s, Peer(e))
            && r.blocks == s.blocks[id := s.blocks[id].(result := status, response := true)]
            && r.waiting == s.waiting && r.log == s.log + [GivenBack(id, status)]
  {
  }

  lemma HandlerProfile(s: State, e: Side, t: Step, x: nat)
    requires Enabled(s, e, t) && (t.HandleNow? || t.GivebackDeferred?)
    ensures var f, id := ProfileOf(s, x), if t.HandleNow? then At(s, e).input.id else At(s, e).deferred[t.k];
            if x != id then ProfileOf(Do(s, e, t), x) == f
            else SpotAt(f, e).handler > 0 && ProfileOf(Do(s, e, t), x) == AfterGiveback(f, e, x, t.status)
  {
    var d := At(s, e);
    if t.HandleNow? {
      GivebackProfile(s, e, d.(input := Listening), d.input.id, t.status, x);
    } else {
      CountWithout(d.deferred, t.k, x);
      GivebackProfile(s, e, d.(deferred := Without(d.deferred, t.k)), d.deferred[t.k], t.status, x);
    }
  }

  lemma DeferProfile(s: State, e: Side, x: nat)
    requires Enabled(s, e, Defer)
    ensures ProfileOf(Do(s, e, Defer), x) == ProfileOf(s, x)
  {
    CountAdd(At(s, e).deferred, At(s, e).input.id, x);
  }

  lemma PoolProfile(s: State, e: Side, u: W.Step, x: nat)
    requires W.Inv(At(s, e).pool) && Enabled(s, e, Pool(u))
    ensures ProfileOf(Do(s, e, Pool(u)), x) == ProfileOf(s, x)
  {
    W.HeldStep(At(s, e).pool, u, x);
  }

  lemma TailSpot(d: End, response: bool, x: nat)
    requires d.wire != []
    ensures var p := SpotOf(d, x);
            SpotOf(Take(d, response), x) == p.(wire := p.wire - Is(d.wire[0] == x))
  {
  }

  lemma DispatchSpot(d: End, id: nat, n: nat, x: nat)
    requires W.Inv(d.pool) && W.Enabled(d.pool, W.Dispatch(id))
    ensures var p := SpotOf(d, x);
            SpotOf(d.(completeCount := n, pool := W.Do(d.pool, W.Dispatch(id))), x)
            == p.(worker := p.worker + Is(id == x))
  {
    W.HeldStep(d.pool, W.Dispatch(id), x);
  }

  lemma HandleSpot(d: End, id: nat, n: nat, x: nat)
    requires d.input.Listening?
    ensures var p := SpotOf(d, x);
            SpotOf(d.(receiveCount := n, input := Handling(id)), x) == p.(handler := p.handler + Is(id == x))
  {
  }

  lemma ReceiveProfile(s: State, e: Side, x: nat)
    requires W.Inv(At(s, e).pool) && Enabled(s, e, Receive)
    ensures var f := ProfileOf(s, x);
            if x != At(s, Peer(e)).wire[0] then ProfileOf(Do(s, e, Receive), x) == f
            else SpotAt(f, Peer(e)).wire > 0 && ProfileOf(Do(s, e, Receive), x) == AfterReceive(f, e)
  {
    hide SpotOf, W.Inv, StageOf;
    var from, id := At(s, Peer(e)), At(s, Peer(e)).wire[0];
    TailSpot(from, s.blocks[id].response, x);
    if s.blocks[id].response {
      DispatchSpot(At(s, e), id, At(s, e).completeCount + 1, x);
    } else {
      HandleSpot(At(s, e), id, At(s, e).receiveCount + 1, x);
    }
    var r := Do(s, e, Receive);
    hide Do, DoReceive;
    if e == Cpu1 {
      assert SpotOf(r.cpu2, x) == SpotOf(Take(from, s.blocks[id].response), x);
    } else {
      assert SpotOf(r.cpu1, x) == SpotOf(Take(from, s.blocks[id].response), x);
    }
  }

  lemma CompleteSpot(d: End, w: nat, x: nat)
    requires W.Inv(d.pool) && W.Enabled(d.pool, W.Complete(w))
    ensures var p, id := SpotOf(d, x), d.pool.ws[w].pc.id;
            var q := SpotOf(d.(pool := W.Do(d.pool, W.Complete(w)), owned := d.owned + {id}), x);
            if x != id then q == p else p.worker > 0 && q == p.(worker := p.worker - 1, owned := 1)
  {
    W.HeldStep(d.pool, W.Complete(w), x);
    W.HoldingIsHeld(d.pool, w);
  }

  lemma CompleteProfile(s: State, e: Side, w: nat, x: nat)
    requires W.Inv(At(s, e).pool) && Enabled(s, e, Complete(w))
    ensures var f := ProfileOf(s, x);
            if x != At(s, e).pool.ws[w].pc.id then ProfileOf(Do(s, e, Complete(w)), x) == f
            else SpotAt(f, e).worker > 0 && ProfileOf(Do(s, e, Complete(w)), x) == AfterComplete(f, e, x)
  {
    hide SpotOf, W.Inv;
    CompleteSpot(At(s, e), w, x);
    var id := At(s, e).pool.ws[w].pc.id;
    StageAppend(s.log, Completed(id, s.blocks[id].result), x);
  }

  lemma ReturnProfile(s: State, e: Side, id: nat, x: nat)
    requires Enabled(s, e, Return(id))
    ensures var f := ProfileOf(s, x);
            if x != id then ProfileOf(Do(s, e, Return(id)), x) == f
            else SpotAt(f, e).owned > 0 && f.context == Some(s.waiting[id])
                 && ProfileOf(Do(s, e, Return(id)), x) ==
                      f.(context := None, stage := NextStage(f.stage, Returned(x, s.waiting[id].status)))
  {
    StageAppend(s.log, Returned(id, s.waiting[id].status), x);
  }

  lemma BatchPending(o: O.State)
    requires O.Inv(o)
    ensures o.pc == O.Pushing <==> o.batch != []
  {
  }

  /** Every step of either CPU keeps every block's invariant. */
  lemma {:induction false} StepKeepsBlock(s: State, e: Side, t: Step, x: nat)
    requires EndInv(At(s, e)) && Enabled(s, e, t) && BlockInv(s, x)
    ensures BlockInv(Do(s, e, t), x)
  {
    var f := ProfileOf(s, x);
    hide SpotOf, Fits, O.Inv, W.Inv, Do;
    match t
    case Submit(id, blocking) =>
      SubmitProfile(s, e, id, blocking, x);
      if x == id { SubmitFits(f, e, x, blocking); }
    case Output(o) =>
      BatchPending(At(s, e).out);
      OutputProfile(s, e, o, x);
    case Push =>
      PushProfile(s, e, x);
      if x == At(s, e).out.batch[0].id { PushFits(f, e, At(s, e).out.batch[0].response); }
    case Receive =>
      ReceiveProfile(s, e, x);
      if x == At(s, Peer(e)).wire[0] { ReceiveFits(f, e); }
    case HandleNow(status) =>
      HandlerProfile(s, e, t, x);
      if x == At(s, e).input.id { GivebackFits(f, e, x, status); }
    case Defer => DeferProfile(s, e, x);
    case GivebackDeferred(k, status) =>
      HandlerProfile(s, e, t, x);
      if x == At(s, e).deferred[k] { GivebackFits(f, e, x, status); }
    case Pool(u) => PoolProfile(s, e, u, x);
    case Complete(w) =>
      CompleteProfile(s, e, w, x);
      if x == At(s, e).pool.ws[w].pc.id { CompleteFits(f, e, x); }
    case Return(id) =>
      ReturnProfile(s, e, id, x);
      if x == id { ReturnFits(f, e, x); }
  }

  lemma OutputEnd(d: End, o: O.Step)
    requires EndInv(d) && O.Enabled(d.out, o) && !o.Insert? && !o.PushOk?
    ensures EndInv(d.(out := O.Do(d.out, o)))
  {
    O.StepInv(d.out, o);
  }

  lemma PushEnd(d: End)
    requires EndInv(d) && d.out.pc == O.Pushing && d.out.batch != []
    ensures EndInv(d.(out := O.DoPush(d.out), wire := d.wire + [d.out.batch[0].id]))
  {
    O.StepInv(d.out, O.PushOk);
    var sent, m := d.out.sent, d.out.batch[0];
    assert Ids(sent + [m]) == Ids(sent) + [m.id];
    assert d.taken + (d.wire + [m.id]) == (d.taken + d.wire) + [m.id];
  }

  lemma EnqueueEnd(d: End, id: nat, r: bool)
    requires EndInv(d)
    ensures EndInv(Enqueue(d, id, r))
  {
    O.StepInv(d.out, O.Insert(O.Msg(id, r)));
  }

  lemma GivebackEnd(d: End, d': End, id: nat)
    requires EndInv(d) && d' == d.(input := d'.input, deferred := d'.deferred, givebackCount := d.givebackCount + 1)
    requires Is(d.input.Handling?) + |d.deferred| == Is(d'.input.Handling?) + |d'.deferred| + 1
    ensures EndInv(Enqueue(d', id, true))
  {
    hide O.Inv, W.Inv;
    EnqueueEnd(d', id, true);
  }

  lemma PoolEnd(d: End, u: W.Step, owned: set<nat>, n: nat)
    requires EndInv(d) && W.Enabled(d.pool, u)
    ensures EndInv(d.(pool := W.Do(d.pool, u), owned := owned, completeCount := n))
  {
    W.StepInv(d.pool, u);
  }

  lemma TakeEnd(d: End, response: bool)
    requires EndInv(d) && d.wire != []
    ensures EndInv(Take(d, response))
  {
    assert d.taken + [d.wire[0]] + d.wire[1..] == d.taken + d.wire;
  }

  /** Every step keeps the invariants of both CPUs. */
  lemma {:induction false} StepKeepsEnds(s: State, e: Side, t: Step)
    requires EndInv(s.cpu1) && EndInv(s.cpu2) && Enabled(s, e, t)
    ensures EndInv(Do(s, e, t).cpu1) && EndInv(Do(s, e, t).cpu2)
  {
    hide O.Inv, W.Inv;
    var d := At(s, e);
    match t
    case Submit(id, _) => EnqueueEnd(d.(owned := d.owned - {id}), id, false);
    case Output(o) => OutputEnd(d, o);
    case Push => PushEnd(d);
    case Receive =>
      var id := At(s, Peer(e)).wire[0];
      TakeEnd(At(s, Peer(e)), s.blocks[id].response);
      if s.blocks[id].response { PoolEnd(d, W.Dispatch(id), d.owned, d.completeCount + 1); }
    case HandleNow(_) =>
      GivebackEnd(d, d.(input := Listening, givebackCount := d.givebackCount + 1), d.input.id);
    case Defer =>
    case GivebackDeferred(k, _) =>
      GivebackEnd(d, d.(deferred := Without(d.deferred, k), givebackCount := d.givebackCount + 1), d.deferred[k]);
    case Pool(u) => PoolEnd(d, u, d.owned, d.completeCount);
    case Complete(w) => PoolEnd(d, W.Complete(w), d.owned + {d.pool.ws[w].pc.id}, d.completeCount);
    case Return(_) =>
  }

  // ---------------------------------------------------------------------- statistics

  /** Block x of CPU e has been submitted and its response has not been received. */
  predicate Away(f: Profile, e: Side) {
    f.block.Some? && f.block.value.owner == e && SpotAt(f, e).owned == 0 && SpotAt(f, e).worker == 0
  }

  ghost function InFlight(s: State, e: Side): set<nat> {
    set x | x in s.blocks && Away(ProfileOf(s, x), e)
  }

  /** An in-flight block is in exactly one of: its owner's output path or mailbox, the
      peer's handlers, the peer's output path or mailbox. */
  lemma InFlightPlaces(f: Profile, e: Side)
    requires Fits(f) && Away(f, e)
    ensures SpotAt(f, e).request + SpotAt(f, e).wire + SpotAt(f, Peer(e)).handler
            + SpotAt(f, Peer(e)).response + SpotAt(f, Peer(e)).wire == 1
  {
  }

  /** The step by side a that starts a flight of a block of e, and the one that ends it. */
  ghost predicate Starts(a: Side, t: Step, e: Side, x: nat) {
    t.Submit? && a == e && t.id == x
  }

  ghost predicate Ends(s: State, a: Side, t: Step, e: Side, x: nat)
    requires Enabled(s, a, t)
  {
    t.Receive? && a == e && x == At(s, Peer(a)).wire[0] && s.blocks[x].response
  }

  lemma SubmitAway(f: Profile, a: Side, x: nat, blocking: bool, e: Side)
    requires Fits(f) && SpotAt(f, a).owned > 0 && f.context.None?
    ensures Away(AfterSubmit(f, a, x, blocking), e) <==> a == e
    ensures !Away(f, e)
  {
  }

  lemma ReceiveAway(f: Profile, a: Side, e: Side)
    requires Fits(f) && f.block.Some? && SpotAt(f, Peer(a)).wire > 0
    ensures Away(AfterReceive(f, a), e) <==> Away(f, e) && !(a == e && f.block.value.response)
    ensures a == e && f.block.value.response ==> Away(f, e)
  {
  }

  lemma OthersAway(f: Profile, a: Side, x: nat, response: bool, status: int, e: Side)
    requires Fits(f) && f.block.Some?
    ensures SpotAt(f, a).request > 0 ==> (Away(AfterPush(f, a, false), e) <==> Away(f, e))
    ensures SpotAt(f, a).response > 0 ==> (Away(AfterPush(f, a, true), e) <==> Away(f, e))
    ensures SpotAt(f, a).handler > 0 ==> (Away(AfterGiveback(f, a, x, status), e) <==> Away(f, e))
    ensures SpotAt(f, a).worker > 0 ==> (Away(AfterComplete(f, a, x), e) <==> Away(f, e))
  {
  }

  /** How a step changes the set of blocks in flight, block by block. */
  lemma StepAway(s: State, a: Side, t: Step, e: Side, x: nat)
    requires EndInv(At(s, a)) && Enabled(s, a, t) && BlockInv(s, x) && x in s.blocks
    ensures Starts(a, t, e, x) ==> !Away(ProfileOf(s, x), e) && Away(ProfileOf(Do(s, a, t), x), e)
    ensures Ends(s, a, t, e, x) ==> Away(ProfileOf(s, x), e) && !Away(ProfileOf(Do(s, a, t), x), e)
    ensures !Starts(a, t, e, x) && !Ends(s, a, t, e, x) ==>
              (Away(ProfileOf(Do(s, a, t), x), e) <==> Away(ProfileOf(s, x), e))
  {
    var f := ProfileOf(s, x);
    hide SpotOf, Fits, O.Inv, W.Inv, Do, Away;
    OthersAway(f, a, x, false, if t.HandleNow? || t.GivebackDeferred? then t.status else 0, e);
    match t
    case Submit(id, blocking) =>
      SubmitProfile(s, a, id, blocking, x);
      if x == id { SubmitAway(f, a, x, blocking, e); }
    case Output(o) =>
      BatchPending(At(s, a).out);
      OutputProfile(s, a, o, x);
    case Push => PushProfile(s, a, x);
    case Receive =>
      ReceiveProfile(s, a, x);
      if x == At(s, Peer(a)).wire[0] { ReceiveAway(f, a, e); }
    case HandleNow(_) => HandlerProfile(s, a, t, x);
    case Defer => DeferProfile(s, a, x);
    case GivebackDeferred(_, _) => HandlerProfile(s, a, t, x);
    case Pool(u) => PoolProfile(s, a, u, x);
    case Complete(w) => CompleteProfile(s, a, w, x);
    case Return(id) =>
      ReturnProfile(s, a, id, x);
      AwayIgnoresContext(f, f.(context := None, stage := NextStage(f.stage, Returned(x, s.waiting[id].status))), e);
  }

  lemma AwayIgnoresContext(f: Profile, g: Profile, e: Side)
    requires g == f.(context := g.context, stage := g.stage)
    ensures Away(f, e) <==> Away(g, e)
  {
  }

  lemma KeysKept(s: State, a: Side, t: Step)
    requires Enabled(s, a, t)
    ensures Do(s, a, t).blocks.Keys == s.blocks.Keys
  {
  }

  /** submit_count grows with a flight that starts, complete_count with one that ends. */
  lemma CountersMove(s: State, a: Side, t: Step, e: Side)
    requires Enabled(s, a, t)
    ensures At(Do(s, a, t), e).submitCount == At(s, e).submitCount + Is(t.Submit? && a == e)
    ensures At(Do(s, a, t), e).completeCount ==
              At(s, e).completeCount + Is(t.Receive? && a == e && s.blocks[At(s, Peer(a)).wire[0]].response)
  {
  }

  /** The sets before and after differ as StepAway says block by block. */
  lemma FlightSets(s: State, a: Side, t: Step, e: Side)
    requires EndInv(At(s, a)) && Enabled(s, a, t) && forall x: nat :: BlockInv(s, x)
    ensures forall x: nat :: Starts(a, t, e, x) && x in s.blocks ==>
                               x !in InFlight(s, e) && x in InFlight(Do(s, a, t), e)
    ensures forall x: nat :: x in s.blocks && Ends(s, a, t, e, x) ==>
                               x in InFlight(s, e) && x !in InFlight(Do(s, a, t), e)
    ensures forall x: nat :: x in s.blocks && !Starts(a, t, e, x) && !Ends(s, a, t, e, x) ==>
              (x in InFlight(Do(s, a, t), e) <==> x in InFlight(s, e))
    ensures InFlight(s, e) <= s.blocks.Keys && InFlight(Do(s, a, t), e) <= s.blocks.Keys
  {
    KeysKept(s, a, t);
    hide Do, Away, ProfileOf, EndInv, BlockInv, Starts, Ends, Enabled;
    forall x: nat | x in s.blocks
      ensures Starts(a, t, e, x) ==> x !in InFlight(s, e) && x in InFlight(Do(s, a, t), e)
      ensures Ends(s, a, t, e, x) ==> x in InFlight(s, e) && x !in InFlight(Do(s, a, t), e)
      ensures !Starts(a, t, e, x) && !Ends(s, a, t, e, x) ==> (x in InFlight(Do(s, a, t), e) <==> x in InFlight(s, e))
    {
      StepAway(s, a, t, e, x);
    }
  }

  lemma GrowsBy(small: set<nat>, large: set<nat>, x: nat)
    requires x in large && x !in small
    requires forall y | y in small || y in large :: y != x ==> (y in small <==> y in large)
    ensures |large| == |small| + 1
  {
    assert large == small + {x};
  }

  lemma FlightsMove(s: State, a: Side, t: Step, e: Side)
    requires EndInv(At(s, a)) && Enabled(s, a, t) && forall x: nat :: BlockInv(s, x)
    ensures |InFlight(Do(s, a, t), e)| + Is(t.Receive? && a == e && s.blocks[At(s, Peer(a)).wire[0]].response)
              == |InFlight(s, e)| + Is(t.Submit? && a == e)
  {
    hide InFlight, Do, EndInv, BlockInv, At;
    FlightSets(s, a, t, e);
    if t.Submit? && a == e {
      assert Starts(a, t, e, t.id) && t.id in s.blocks;
      GrowsBy(InFlight(s, e), InFlight(Do(s, a, t), e), t.id);
    } else if t.Receive? && a == e && s.blocks[At(s, Peer(a)).wire[0]].response {
      var id := At(s, Peer(a)).wire[0];
      assert Ends(s, a, t, e, id);
      GrowsBy(InFlight(Do(s, a, t), e), InFlight(s, e), id);
    } else {
      assert InFlight(Do(s, a, t), e) == InFlight(s, e);
    }
  }

  // ------------------------------------------------------------- what the peer is asked

  /** A message is marked as what its block is to the sender: request of its own block,
      response for a block of the peer. */
  predicate RightLabel(s: State, e: Side, m: O.Msg) {
    m.id in s.blocks && (m.response <==> s.blocks[m.id].owner != e)
  }

  predicate Labelled(s: State, e: Side, ms: seq<O.Msg>) {
    forall i | 0 <= i < |ms| :: RightLabel(s, e, ms[i])
  }

  /** The peer has handed on exactly the requests among the messages it has taken. */
  predicate AskedRight(d: End) {
    |d.taken| <= |d.out.sent| && d.asked == Ids(O.Requests(d.out.sent[..|d.taken|]))
  }

  predicate LabelInv(s: State, e: Side) {
    var d := At(s, e);
    && Labelled(s, e, d.out.pending) && Labelled(s, e, d.out.batch) && Labelled(s, e, d.out.sent)
    && AskedRight(d)
  }

  predicate SameOwners(s: State, r: State) {
    forall x | x in s.blocks :: x in r.blocks && r.blocks[x].owner == s.blocks[x].owner
  }

  lemma OwnersKept(s: State, a: Side, t: Step)
    requires Enabled(s, a, t)
    ensures SameOwners(s, Do(s, a, t))
  {
  }

  /** Nothing that matters here has changed. */
  lemma LabelSame(s: State, r: State, e: Side)
    requires LabelInv(s, e) && SameOwners(s, r)
    requires At(r, e).out.pending == At(s, e).out.pending && At(r, e).out.batch == At(s, e).out.batch
    requires At(r, e).out.sent == At(s, e).out.sent && At(r, e).taken == At(s, e).taken
    requires At(r, e).asked == At(s, e).asked
    ensures LabelInv(r, e)
  {
  }

  lemma LabelEnqueue(s: State, r: State, e: Side, m: O.Msg)
    requires LabelInv(s, e) && SameOwners(s, r) && RightLabel(s, e, m)
    requires At(r, e).out == O.DoInsert(At(s, e).out, m)
    requires At(r, e).taken == At(s, e).taken && At(r, e).asked == At(s, e).asked
    ensures LabelInv(r, e)
  {
  }

  lemma LabelOutput(s: State, r: State, e: Side, o: O.Step)
    requires LabelInv(s, e) && SameOwners(s, r) && !o.Insert? && !o.PushOk? && O.Enabled(At(s, e).out, o)
    requires At(r, e).out == O.Do(At(s, e).out, o)
    requires At(r, e).taken == At(s, e).taken && At(r, e).asked == At(s, e).asked
    ensures LabelInv(r, e)
  {
  }

  lemma LabelPush(s: State, r: State, e: Side)
    requires LabelInv(s, e) && SameOwners(s, r) && At(s, e).out.batch != []
    requires At(r, e).out == O.DoPush(At(s, e).out)
    requires At(r, e).taken == At(s, e).taken && At(r, e).asked == At(s, e).asked
    ensures LabelInv(r, e)
  {
    var d, n := At(s, e), |At(s, e).taken|;
    assert At(r, e).out.sent[..n] == d.out.sent[..n];
  }

  /** The block's own response bit says the same as the message. */
  lemma LabelTake(s: State, r: State, e: Side)
    requires LabelInv(s, e) && SameOwners(s, r)
    requires At(s, e).wire != [] && At(s, e).taken + At(s, e).wire == Ids(At(s, e).out.sent)
    requires At(s, e).wire[0] in s.blocks && Travels(s.blocks[At(s, e).wire[0]], e)
    requires At(r, e) == Take(At(s, e), s.blocks[At(s, e).wire[0]].response)
    ensures LabelInv(r, e)
  {
    var d := At(s, e);
    var n, sent := |d.taken|, d.out.sent;
    assert (d.taken + d.wire)[n] == d.wire[0] && |d.taken + d.wire| == |sent|;
    assert Ids(sent)[n] == sent[n].id;
    assert RightLabel(s, e, sent[n]);
    assert sent[..n + 1][..n] == sent[..n] && sent[..n + 1][n] == sent[n];
    RequestsMore(sent[..n], sent[n]);
    assert sent[..n + 1] == sent[..n] + [sent[n]];
  }

  lemma RequestsMore(ms: seq<O.Msg>, m: O.Msg)
    ensures Ids(O.Requests(ms + [m])) == Ids(O.Requests(ms)) + (if m.response then [] else [m.id])
  {
    assert (ms + [m])[..|ms|] == ms;
  }

  /** A block in the mailbox of e, with e's client, or with a handler of e. */
  lemma PlaceSaysOwner(s: State, e: Side, x: nat)
    requires BlockInv(s, x) && x in s.blocks
    ensures SpotOf(At(s, e), x).wire > 0 ==> Travels(s.blocks[x], e)
    ensures SpotOf(At(s, e), x).owned > 0 ==> s.blocks[x].owner == e
    ensures SpotOf(At(s, e), x).handler > 0 ==> s.blocks[x].owner != e
  {
    hide SpotOf, OnStage;
  }

  lemma LabelGiveback(s: State, e: Side, d: End, id: nat, status: int)
    requires BlockInv(s, id) && id in s.blocks && SpotOf(At(s, e), id).handler > 0 && LabelInv(s, e)
    requires d == At(s, e).(input := d.input, deferred := d.deferred)
    ensures LabelInv(Giveback(s, e, d, id, status), e)
  {
    PlaceSaysOwner(s, e, id);
    GivebackState(s, e, d, id, status);
    hide LabelInv, Giveback, SpotOf;
    LabelEnqueue(s, Giveback(s, e, d, id, status), e, O.Msg(id, true));
  }

  /** A step of CPU e itself. */
  lemma LabelOwn(s: State, e: Side, t: Step)
    requires (forall x: nat :: BlockInv(s, x)) && Enabled(s, e, t) && LabelInv(s, e)
    ensures LabelInv(Do(s, e, t), e)
  {
    var r, d := Do(s, e, t), At(s, e);
    OwnersKept(s, e, t);
    hide BlockInv, LabelInv, SameOwners, Giveback;
    match t
    case Submit(id, _) =>
      PlaceSaysOwner(s, e, id);
      LabelEnqueue(s, r, e, O.Msg(id, false));
    case Output(o) => LabelOutput(s, r, e, o);
    case Push => LabelPush(s, r, e);
    case HandleNow(status) => LabelGiveback(s, e, d.(input := Listening), d.input.id, status);
    case GivebackDeferred(k, status) =>
      CountPositive(d.deferred, k);
      LabelGiveback(s, e, d.(deferred := Without(d.deferred, k)), d.deferred[k], status);
    case _ => LabelSame(s, r, e);
  }

  /** A step of its peer. */
  lemma LabelOther(s: State, e: Side, t: Step)
    requires (forall x: nat :: BlockInv(s, x)) && EndInv(At(s, e)) && Enabled(s, Peer(e), t) && LabelInv(s, e)
    ensures LabelInv(Do(s, Peer(e), t), e)
  {
    var r, d := Do(s, Peer(e), t), At(s, e);
    OwnersKept(s, Peer(e), t);
    hide BlockInv, LabelInv, SameOwners, O.Inv, W.Inv;
    if t.Receive? {
      PlaceSaysOwner(s, e, d.wire[0]);
      CountPositive(d.wire, 0);
      LabelTake(s, r, e);
    } else {
      LabelSame(s, r, e);
    }
  }

  lemma LabelStep(s: State, a: Side, t: Step, e: Side)
    requires (forall x: nat :: BlockInv(s, x)) && EndInv(At(s, e)) && Enabled(s, a, t) && LabelInv(s, e)
    ensures LabelInv(Do(s, a, t), e)
  {
    hide BlockInv, EndInv, LabelInv, Do, Enabled;
    if a == e {
      LabelOwn(s, e, t);
    } else {
      LabelOther(s, e, t);
    }
  }

  // ---------------------------------------------------------------------- whole runs

  ghost predicate Inv(s: State) {
    && (forall x: nat :: BlockInv(s, x))
    && LabelInv(s, Cpu1) && LabelInv(s, Cpu2)
    && EndInv(s.cpu1) && EndInv(s.cpu2)
    && s.cpu1.submitCount == s.cpu1.completeCount + |InFlight(s, Cpu1)|
    && s.cpu2.submitCount == s.cpu2.completeCount + |InFlight(s, Cpu2)|
  }

  lemma {:induction false} StepInv(s: State, a: Side, t: Step)
    requires Inv(s) && Enabled(s, a, t)
    ensures Inv(Do(s, a, t))
  {
    hide BlockInv, EndInv, LabelInv, Do, InFlight;
    forall x: nat ensures BlockInv(Do(s, a, t), x) { StepKeepsBlock(s, a, t, x); }
    LabelStep(s, a, t, Cpu1);
    LabelStep(s, a, t, Cpu2);
    StepKeepsEnds(s, a, t);
    CountersMove(s, a, t, Cpu1);
    CountersMove(s, a, t, Cpu2);
    FlightsMove(s, a, t, Cpu1);
    FlightsMove(s, a, t, Cpu2);
  }

  function FreshEnd(owned: set<nat>): End {
    End(owned, O.Init, [], [], [], Listening, [], W.Init, 0, 0, 0, 0)
  }

  /** Two CPUs after initialisation, each client holding the blocks of its own CPU. */
  function Init(owners: map<nat, Side>): State {
    State(FreshEnd(set x | x in owners && owners[x] == Cpu1), FreshEnd(set x | x in owners && owners[x] == Cpu2),
          map x | x in owners :: Block(owners[x], false, 0), map[], [])
  }

  function After(owners: map<nat, Side>, ts: seq<(Side, Step)>): (r: Option<State>) {
    if ts == [] then Some(Init(owners))
    else
      match After(owners, ts[..|ts| - 1])
      case None => None
      case Some(s) =>
        var (a, t) := ts[|ts| - 1];
        if Enabled(s, a, t) then Some(Do(s, a, t)) else None
  }

  lemma InitInv(owners: map<nat, Side>)
    ensures Inv(Init(owners))
  {
    var s := Init(owners);
    InitEnd(s.cpu1.owned);
    InitEnd(s.cpu2.owned);
    assert Ids(O.Requests([])) == [] && O.Init.sent[..0] == [];
    assert LabelInv(s, Cpu1) && LabelInv(s, Cpu2);
    hide LabelInv, EndInv, BlockInv, Away, ProfileOf;
    forall x: nat
      ensures BlockInv(s, x) && !Away(ProfileOf(s, x), Cpu1) && !Away(ProfileOf(s, x), Cpu2)
    {
      InitBlock(owners, x);
    }
    assert InFlight(s, Cpu1) == {} && InFlight(s, Cpu2) == {};
  }

  lemma InitBlock(owners: map<nat, Side>, x: nat)
    ensures var s := Init(owners);
            BlockInv(s, x) && !Away(ProfileOf(s, x), Cpu1) && !Away(ProfileOf(s, x), Cpu2)
  {
    var s := Init(owners);
    InitSpot(s.cpu1.owned, x);
    InitSpot(s.cpu2.owned, x);
    hide SpotOf, Total, Fits, Away;
    OwnedFits(ProfileOf(s, x));
  }

  /** The block is with its client and nowhere else. */
  predicate OnlyOwned(p: Spot) {
    Total(p) == p.owned && p.request == 0 && p.response == 0 && p.wire == 0 && p.handler == 0 && p.worker == 0
  }

  lemma OwnedFits(f: Profile)
    requires f.context.None? && f.stage.Idle? && OnlyOwned(f.p1) && OnlyOwned(f.p2)
    requires if f.block.None? then f.p1.owned == f.p2.owned == 0
             else f.p1.owned == Is(f.block.value.owner == Cpu1) && f.p2.owned == Is(f.block.value.owner == Cpu2)
    ensures Fits(f) && !Away(f, Cpu1) && !Away(f, Cpu2)
  {
    hide Total;
  }

  lemma InitSpot(owned: set<nat>, x: nat)
    ensures OnlyOwned(SpotOf(FreshEnd(owned), x))
    ensures SpotOf(FreshEnd(owned), x).owned == Is(x in owned)
  {
    W.HeldInit(x);
  }

  lemma InitEnd(owned: set<nat>)
    ensures EndInv(FreshEnd(owned))
  {
    O.InitInv();
    W.InitInv();
    assert Ids([]) == [];
  }

  lemma {:induction false} RunInv(owners: map<nat, Side>, ts: seq<(Side, Step)>)
    requires After(owners, ts).Some?
    ensures Inv(After(owners, ts).value)
    ensures After(owners, ts).value.blocks.Keys == owners.Keys
  {
    if ts == [] {
      InitInv(owners);
    } else {
      var n := |ts| - 1;
      RunInv(owners, ts[..n]);
      var s := After(owners, ts[..n]).value;
      KeysKept(s, ts[n].0, ts[n].1);
      StepInv(s, ts[n].0, ts[n].1);
    }
  }

  /** What a giveback does, at once or for a deferred request: the block carries the status that
      the handler gave, and the response bit, and is pending in front of all that was pending
      on this CPU. */
  lemma GivesItsStatus(s: State, e: Side, t: Step)
    requires Enabled(s, e, t) && (t.HandleNow? || t.GivebackDeferred?)
    ensures var r, d := Do(s, e, t), At(s, e);
            var id := if t.HandleNow? then d.input.id else d.deferred[t.k];
            && id in r.blocks && r.blocks[id] == s.blocks[id].(result := t.status, response := true)
            && r.log == s.log + [GivenBack(id, t.status)]
            && At(r, e).out.pending == [O.Msg(id, true)] + d.out.pending
            && At(r, Peer(e)) == At(s, Peer(e))
  {
  }

  /** In every interleaving each block is in exactly one place of the two CPUs, and
      nothing that is not a block is anywhere. */
  lemma {:induction false} ExactlyOnePlace(owners: map<nat, Side>, ts: seq<(Side, Step)>, x: nat)
    requires After(owners, ts).Some?
    ensures var s := After(owners, ts).value;
            Total(SpotOf(s.cpu1, x)) + Total(SpotOf(s.cpu2, x)) == Is(x in owners)
  {
    RunInv(owners, ts);
    assert BlockInv(After(owners, ts).value, x);
  }

  /** The statistics of each CPU count its blocks in flight and the peer's blocks it is
      handling. */
  lemma {:induction false} StatisticsAgree(owners: map<nat, Side>, ts: seq<(Side, Step)>, e: Side)
    requires After(owners, ts).Some?
    ensures var s := After(owners, ts).value;
            && At(s, e).submitCount - At(s, e).completeCount == |InFlight(s, e)|
            && At(s, e).receiveCount - At(s, e).givebackCount == Is(At(s, e).input.Handling?) + |At(s, e).deferred|
  {
    RunInv(owners, ts);
  }

  /** Events of block x among the first n of the log. */
  function Submits(log: seq<Event>, n: nat, x: nat): nat
    requires n <= |log|
  {
    if n == 0 then 0 else Submits(log, n - 1, x) + Is(log[n - 1].id == x && log[n - 1].Submitted?)
  }

  function Givebacks(log: seq<Event>, n: nat, x: nat): nat
    requires n <= |log|
  {
    if n == 0 then 0 else Givebacks(log, n - 1, x) + Is(log[n - 1].id == x && log[n - 1].GivenBack?)
  }

  function Completions(log: seq<Event>, n: nat, x: nat): nat
    requires n <= |log|
  {
    if n == 0 then 0 else Completions(log, n - 1, x) + Is(log[n - 1].id == x && log[n - 1].Completed?)
  }

  /** The status of the latest giveback of x among the first n events; 0 before any. */
  function LastStatus(log: seq<Event>, n: nat, x: nat): int
    requires n <= |log|
  {
    if n == 0 then 0
    else if log[n - 1].id == x && log[n - 1].GivenBack? then log[n - 1].status
    else LastStatus(log, n - 1, x)
  }

  lemma WrongStaysWrong(log: seq<Event>, n: nat, m: nat, x: nat)
    requires n <= m <= |log|
    ensures StageAt(log, n, x) == Wrong ==> StageAt(log, m, x) == Wrong
  {
    if n < m { WrongStaysWrong(log, n, m - 1, x); }
  }

  /** What a stage other than Wrong means: so far every submit but the one under way has
      been given back once and completed once, and the status on its way is the one of
      the latest giveback. */
  lemma {:induction false} StageCounts(log: seq<Event>, n: nat, x: nat)
    requires n <= |log| && StageAt(log, n, x) != Wrong
    ensures var g := StageAt(log, n, x);
            && Submits(log, n, x) == Givebacks(log, n, x) + Is(g.Sent?)
            && Givebacks(log, n, x) == Completions(log, n, x) + Is(g.Given?)
            && (g.Given? || g.Signalled? ==> g.status == LastStatus(log, n, x))
  {
    if n > 0 {
      WrongStaysWrong(log, n - 1, n, x);
      StageCounts(log, n - 1, x);
    }
  }

  /** In every run and for every block, at every moment of the log: completions never
      outrun givebacks nor givebacks submits, at most one submission is under way, and a
      completion or a return reports exactly the status given back last. */
  lemma {:induction false} CompleteOncePerSubmit(owners: map<nat, Side>, ts: seq<(Side, Step)>, x: nat, n: nat)
    requires After(owners, ts).Some? && x in owners && n <= |After(owners, ts).value.log|
    ensures var log := After(owners, ts).value.log;
            && Completions(log, n, x) <= Givebacks(log, n, x) <= Submits(log, n, x) <= Completions(log, n, x) + 1
            && (n > 0 && log[n - 1].id == x ==>
                  && (log[n - 1].Completed? ==> log[n - 1].result == LastStatus(log, n - 1, x)
                                                && Completions(log, n, x) == Submits(log, n, x))
                  && (log[n - 1].Returned? ==> log[n - 1].status == LastStatus(log, n - 1, x)
                                                && Completions(log, n, x) == Submits(log, n, x)))
  {
    RunInv(owners, ts);
    var s := After(owners, ts).value;
    assert BlockInv(s, x) && x in s.blocks.Keys;
    NeverWrong(s, x);
    hide BlockInv, Inv, After;
    OncePerSubmit(s.log, n, x);
  }

  lemma OncePerSubmit(log: seq<Event>, n: nat, x: nat)
    requires n <= |log| && StageOf(log, x) != Wrong
    ensures Completions(log, n, x) <= Givebacks(log, n, x) <= Submits(log, n, x) <= Completions(log, n, x) + 1
    ensures n > 0 && log[n - 1].id == x && log[n - 1].Completed? ==>
              log[n - 1].result == LastStatus(log, n - 1, x) && Completions(log, n, x) == Submits(log, n, x)
    ensures n > 0 && log[n - 1].id == x && log[n - 1].Returned? ==>
              log[n - 1].status == LastStatus(log, n - 1, x) && Completions(log, n, x) == Submits(log, n, x)
  {
    WrongStaysWrong(log, n, |log|, x);
    StageCounts(log, n, x);
    if n > 0 {
      WrongStaysWrong(log, n - 1, n, x);
      StageCounts(log, n - 1, x);
    }
  }

  lemma NeverWrong(s: State, x: nat)
    requires BlockInv(s, x) && x in s.blocks
    ensures StageOf(s.log, x) != Wrong
  {
    hide SpotOf;
  }

  /** mreqb_submit_and_wait with no timeout returns the status the peer gave back for
      that very block. */
  lemma {:induction false} WaiterGetsItsStatus(owners: map<nat, Side>, ts: seq<(Side, Step)>, e: Side, id: nat)
    requires After(owners, ts).Some? && Enabled(After(owners, ts).value, e, Return(id))
    ensures var s := After(owners, ts).value;
            id in owners ==> s.waiting[id].status == LastStatus(s.log, |s.log|, id)
  {
    RunInv(owners, ts);
    var s := After(owners, ts).value;
    if id in owners {
      assert BlockInv(s, id) && id in s.blocks.Keys;
      WaiterStage(s, e, id);
      StageCounts(s.log, |s.log|, id);
    }
  }

  lemma WaiterStage(s: State, e: Side, id: nat)
    requires BlockInv(s, id) && id in s.blocks && id in At(s, e).owned && id in s.waiting
    ensures StageOf(s.log, id) == Signalled(s.waiting[id].status)
  {
  }

  /** The requests the peer has handed to its handlers are, block by block and in order, a
      prefix of the requests submitted: those among the messages it has taken. */
  lemma {:induction false} RequestsArriveInOrder(owners: map<nat, Side>, ts: seq<(Side, Step)>, e: Side)
    requires After(owners, ts).Some?
    ensures var d := At(After(owners, ts).value, e);
            && d.taken + d.wire == Ids(d.out.sent)
            && |d.taken| <= |d.out.sent|
            && d.asked == Ids(O.Requests(d.out.sent[..|d.taken|]))
            && O.Requests(d.out.sent[..|d.taken|]) <= O.Requests(d.out.submitted)
            && d.asked <= Ids(O.Requests(d.out.submitted))
  {
    RunInv(owners, ts);
    var s := After(owners, ts).value;
    hide After, BlockInv, W.Inv, InFlight;
    assert LabelInv(s, e) && EndInv(At(s, e));
    AskedIsPrefix(At(s, e));
  }

  lemma AskedIsPrefix(d: End)
    requires O.Inv(d.out) && AskedRight(d)
    ensures O.Requests(d.out.sent[..|d.taken|]) <= O.Requests(d.out.submitted)
    ensures d.asked <= Ids(O.Requests(d.out.submitted))
  {
    var n, sent := |d.taken|, d.out.sent;
    O.RequestsFlow(d.out);
    O.RequestsConcat(sent[..n], sent[n..]);
    assert sent == sent[..n] + sent[n..];
    hide O.Inv, O.Requests;
    var a, b := O.Requests(sent[..n]), O.Requests(d.out.submitted);
    assert a <= b;
    IdsPrefix(a, b);
  }

  lemma IdsPrefix(a: seq<O.Msg>, b: seq<O.Msg>)
    requires a <= b
    ensures Ids(a) <= Ids(b)
  {
  }

  // --------------------------------------------------------- one request there and back

  // ------------------------------------------------------------------- where it can stop

  lemma OutputRests(s: State, e: Side)
    requires EndInv(At(s, e)) && !Enabled(s, e, Push)
    requires !Enabled(s, e, Output(O.Check)) && !Enabled(s, e, Output(O.Wake)) && !Enabled(s, e, Output(O.Signal))
    ensures At(s, e).out.batch == [] && At(s, e).out.pending == []
  {
    hide W.Inv, O.Arrange, O.Batches, Concat, Ids;
  }

  lemma InputRests(s: State, e: Side)
    requires EndInv(At(s, e)) && (At(s, Peer(e)).wire == [] || At(s, Peer(e)).wire[0] in s.blocks)
    requires !Enabled(s, e, Receive) && !Enabled(s, e, Defer) && !Enabled(s, e, Pool(W.Advance))
    ensures At(s, e).input == Listening && At(s, Peer(e)).wire == []
  {
    hide O.Inv, Ids;
    assert At(s, e).pool.d == W.Free;
  }

  /** Whatever is in some place is a block of the system. */
  lemma PlacedIsBlock(s: State, e: Side, x: nat)
    requires BlockInv(s, x) && Total(SpotOf(At(s, e), x)) > 0
    ensures x in s.blocks
  {
    hide SpotOf, OnStage, PlacedRight, Total;
  }

  lemma KnownPlaces(s: State, e: Side)
    requires forall x: nat :: BlockInv(s, x)
    ensures At(s, e).wire == [] || At(s, e).wire[0] in s.blocks
    ensures At(s, e).deferred == [] || At(s, e).deferred[0] in s.blocks
    ensures forall w | 0 <= w < |At(s, e).pool.ws| && At(s, e).pool.ws[w].pc.Holding? ::
              At(s, e).pool.ws[w].pc.id in s.blocks
  {
    hide BlockInv;
    var d := At(s, e);
    if d.wire != [] {
      CountPositive(d.wire, 0);
      PlacedIsBlock(s, e, d.wire[0]);
    }
    if d.deferred != [] {
      CountPositive(d.deferred, 0);
      PlacedIsBlock(s, e, d.deferred[0]);
    }
    forall w | 0 <= w < |d.pool.ws| && d.pool.ws[w].pc.Holding? ensures d.pool.ws[w].pc.id in s.blocks {
      W.HoldingIsHeld(d.pool, w);
      PlacedIsBlock(s, e, d.pool.ws[w].pc.id);
    }
  }

  /** Nothing can happen on either CPU but new submissions and the return of waiters. */
  ghost predicate Resting(s: State) {
    forall e, t :: Enabled(s, e, t) ==> t.Submit? || t.Return?
  }

  lemma PoolRests(s: State, e: Side)
    requires (forall u :: !Enabled(s, e, Pool(u))) && (forall w :: !Enabled(s, e, Complete(w)))
    requires forall w | 0 <= w < |At(s, e).pool.ws| && At(s, e).pool.ws[w].pc.Holding? ::
               At(s, e).pool.ws[w].pc.id in s.blocks
    ensures forall u :: W.Enabled(At(s, e).pool, u) ==> u.Dispatch?
  {
    forall u ensures W.Enabled(At(s, e).pool, u) ==> u.Dispatch? {
      assert !Enabled(s, e, Pool(u));
      if u.Complete? {
        assert !Enabled(s, e, Complete(u.w));
      }
    }
  }

  lemma SpotAtRest(d: End, x: nat)
    requires d.out.batch == [] && d.out.pending == [] && d.input == Listening && d.deferred == []
    requires d.pool.d == W.Free && W.HeldByFirst(d.pool.ws, |d.pool.ws|, x) == 0
    ensures SpotOf(d, x) == Spot(Is(x in d.owned), 0, 0, Count(d.wire, x), 0, Count(d.pool.pending, x))
  {
  }

  lemma EndRests(s: State, e: Side, x: nat)
    requires Inv(s) && Resting(s)
    ensures var d := At(s, e);
            SpotOf(d, x) == Spot(Is(x in d.owned), 0, 0, Count(d.wire, x), 0, Count(d.pool.pending, x))
    ensures At(s, Peer(e)).wire == []
  {
    hide BlockInv, LabelInv, EndInv, W.Enabled, W.Inv, SpotOf, InFlight, O.Enabled;
    var d := At(s, e);
    KnownPlaces(s, e);
    KnownPlaces(s, Peer(e));
    assert !Enabled(s, e, Push) && !Enabled(s, e, Output(O.Check)) && !Enabled(s, e, Output(O.Wake));
    assert !Enabled(s, e, Output(O.Signal)) && !Enabled(s, e, Receive) && !Enabled(s, e, Defer);
    assert !Enabled(s, e, Pool(W.Advance)) && !Enabled(s, e, GivebackDeferred(0, 0));
    OutputRests(s, e);
    InputRests(s, e);
    assert d.deferred == [];
    hide Enabled;
    PoolRests(s, e);
    EndPool(d);
    W.RestIsSleep(d.pool);
    W.SleepersHoldNothing(d.pool, |d.pool.ws|, x);
    SpotAtRest(d, x);
  }

  lemma EndPool(d: End)
    requires EndInv(d)
    ensures W.Inv(d.pool)
  {
  }

  /** Wherever a run can come to rest, with nothing enabled but submissions and the return of
      waiters: each block is with its client or stranded in the worker queue of its own CPU,
      once in all. So the hand-over to the workers is the one place where a block can get
      stuck. */
  lemma {:induction false} RestsHomeOrStranded(owners: map<nat, Side>, ts: seq<(Side, Step)>, x: nat)
    requires After(owners, ts).Some? && Resting(After(owners, ts).value) && x in owners
    ensures var s := After(owners, ts).value;
            && x in s.blocks
            && var d, p := At(s, s.blocks[x].owner), At(s, Peer(s.blocks[x].owner));
               && Is(x in d.owned) + Count(d.pool.pending, x) == 1
               && x !in p.owned && Count(p.pool.pending, x) == 0
  {
    hide After, Resting, BlockInv, SpotOf, LabelInv, EndInv, InFlight;
    var s := After(owners, ts).value;
    RunInv(owners, ts);
    EndRests(s, Cpu1, x);
    EndRests(s, Cpu2, x);
    HomeOrStranded(s, x);
  }

  lemma HomeOrStranded(s: State, x: nat)
    requires BlockInv(s, x) && x in s.blocks && s.cpu1.wire == [] && s.cpu2.wire == []
    requires SpotOf(s.cpu1, x) == Spot(Is(x in s.cpu1.owned), 0, 0, 0, 0, Count(s.cpu1.pool.pending, x))
    requires SpotOf(s.cpu2, x) == Spot(Is(x in s.cpu2.owned), 0, 0, 0, 0, Count(s.cpu2.pool.pending, x))
    ensures var d, p := At(s, s.blocks[x].owner), At(s, Peer(s.blocks[x].owner));
            && Is(x in d.owned) + Count(d.pool.pending, x) == 1
            && x !in p.owned && Count(p.pool.pending, x) == 0
  {
    hide SpotOf, Fits, StageOf, Count;
    HomeOrStrandedSpot(ProfileOf(s, x));
  }

  lemma HomeOrStrandedSpot(f: Profile)
    requires Fits(f) && f.block.Some?
    requires f.p1 == Spot(f.p1.owned, 0, 0, 0, 0, f.p1.worker) && f.p2 == Spot(f.p2.owned, 0, 0, 0, 0, f.p2.worker)
    ensures var d, p := SpotAt(f, f.block.value.owner), SpotAt(f, Peer(f.block.value.owner));
            d.owned + d.worker == 1 && p.owned == 0 && p.worker == 0
  {
    hide OnStage;
  }

  lemma Extend(owners: map<nat, Side>, ts: seq<(Side, Step)>, a: Side, t: Step)
    requires After(owners, ts).Some? && Enabled(After(owners, ts).value, a, t)
    ensures After(owners, ts + [(a, t)]) == Some(Do(After(owners, ts).value, a, t))
  {
    assert (ts + [(a, t)])[..|ts|] == ts;
  }

  /** The output thread of e takes the one message there is and puts it in the mailbox. */
  lemma Transport(owners: map<nat, Side>, ts: seq<(Side, Step)>, e: Side, m: O.Msg) returns (rs: seq<(Side, Step)>)
    requires After(owners, ts).Some?
    requires var o := At(After(owners, ts).value, e).out; o.pc == O.Top && o.pending == [m] && o.batch == []
    ensures After(owners, rs).Some?
    ensures var s, r := After(owners, ts).value, After(owners, rs).value;
            && r == With(s, e, At(s, e).(out := At(r, e).out, wire := At(s, e).wire + [m.id]))
            && At(r, e).out.pc == O.Top && At(r, e).out.pending == [] && At(r, e).out.batch == []
  {
    Extend(owners, ts, e, Output(O.Check));
    rs := ts + [(e, Output(O.Check))];
    hide After;
    Extend(owners, rs, e, Push);
    rs := rs + [(e, Push)];
  }

  /** A CPU at rest, with the blocks `owned` and nothing under way. */
  predicate AtRest(d: End, owned: set<nat>) {
    && d.owned == owned && d.out.pc == O.Top && d.out.pending == [] && d.out.batch == []
    && d.wire == [] && d.input == Listening && d.pool == W.Init
  }

  lemma FirstSubmit(x: nat) returns (ts: seq<(Side, Step)>)
    ensures After(map[x := Cpu1], ts).Some?
    ensures var s := After(map[x := Cpu1], ts).value;
            && AtRest(s.cpu1.(out := s.cpu1.out.(pending := [])), {}) && AtRest(s.cpu2, {})
            && s.cpu1.out.pending == [O.Msg(x, false)]
            && s.blocks == map[x := Block(Cpu1, false, 0)] && s.waiting == map[x := Context(false, 0)]
            && s.log == [Submitted(x, true)]
  {
    var owners := map[x := Cpu1];
    assert Init(owners).cpu1.owned == {x} && Init(owners).cpu2.owned == {};
    Extend(owners, [], Cpu1, Submit(x, true));
    ts := [] + [(Cpu1, Submit(x, true))];
  }

  /** There: a blocking request reaches the peer's mailbox reader and is handled at once. */
  lemma There(x: nat, status: int) returns (ts: seq<(Side, Step)>)
    ensures After(map[x := Cpu1], ts).Some?
    ensures var s := After(map[x := Cpu1], ts).value;
            && AtRest(s.cpu1, {}) && AtRest(s.cpu2.(out := s.cpu2.out.(pending := [])), {})
            && s.cpu2.out.pending == [O.Msg(x, true)]
            && s.blocks == map[x := Block(Cpu1, true, status)] && s.waiting == map[x := Context(false, 0)]
            && s.log == [Submitted(x, true), GivenBack(x, status)]
  {
    var owners := map[x := Cpu1];
    hide After;
    ts := FirstSubmit(x);
    ts := Transport(owners, ts, Cpu1, O.Msg(x, false));
    Extend(owners, ts, Cpu2, Receive);
    ts := ts + [(Cpu2, Receive)];
    Extend(owners, ts, Cpu2, HandleNow(status));
    ts := ts + [(Cpu2, HandleNow(status))];
  }

  /** A worker of CPU e takes over the response x that has just been dispatched. */
  lemma WorkerTakes(owners: map<nat, Side>, ts: seq<(Side, Step)>, e: Side, x: nat) returns (rs: seq<(Side, Step)>)
    requires After(owners, ts).Some? && At(After(owners, ts).value, e).pool == W.Init.(d := W.Scan(x, 0))
    ensures After(owners, rs).Some?
    ensures var s, r := After(owners, ts).value, After(owners, rs).value;
            && r == With(s, e, At(s, e).(pool := At(r, e).pool))
            && |At(r, e).pool.ws| == 4 && At(r, e).pool.ws[0].pc == W.Holding(x) && At(r, e).pool.d == W.Free
  {
    hide After;
    rs := ts;
    for i := 0 to 4
      invariant After(owners, rs).Some?
      invariant After(owners, rs).value == WithPool(After(owners, ts).value, e, HandedOver(x, i))
    {
      Extend(owners, rs, e, Pool(W.Advance));
      rs := rs + [(e, Pool(W.Advance))];
    }
    Extend(owners, rs, e, Pool(W.SemWait(0)));
    rs := rs + [(e, Pool(W.SemWait(0)))];
    Extend(owners, rs, e, Pool(W.Read(0)));
    rs := rs + [(e, Pool(W.Read(0)))];
  }

  function WithPool(s: State, e: Side, p: W.State): State {
    With(s, e, At(s, e).(pool := p))
  }

  /** The pool after i accesses of the dispatcher that hands x to the first worker. */
  function HandedOver(x: nat, i: nat): W.State {
    var w := W.Worker(i > 2, if i > 3 then 1 else 0, if i > 1 then x else 0, i > 1, W.AtWait);
    W.State([w, W.IDLE, W.IDLE, W.IDLE], [],
            if i == 0 then W.Scan(x, 0) else if i == 1 then W.Store(x, 0) else if i == 2 then W.Mark(0)
            else if i == 3 then W.Post(0) else W.Free, {})
  }

  /** There is a run in which a blocking request makes the whole round and its submitter
      returns with the status the handler gave. */
  lemma ThereAndBack(x: nat, status: int) returns (ts: seq<(Side, Step)>)
    ensures After(map[x := Cpu1], ts).Some?
    ensures var s := After(map[x := Cpu1], ts).value;
            && s.log == [Submitted(x, true), GivenBack(x, status), Completed(x, status), Returned(x, status)]
            && s.cpu1.owned == {x} && s.waiting == map[]
  {
    var owners := map[x := Cpu1];
    ts := There(x, status);
    hide After;
    ts := Transport(owners, ts, Cpu2, O.Msg(x, true));
    Extend(owners, ts, Cpu1, Receive);
    ts := ts + [(Cpu1, Receive)];
    ts := WorkerTakes(owners, ts, Cpu1, x);
    Extend(owners, ts, Cpu1, Complete(0));
    ts := ts + [(Cpu1, Complete(0))];
    Extend(owners, ts, Cpu1, Return(x));
    ts := ts + [(Cpu1, Return(x))];
  }
}
