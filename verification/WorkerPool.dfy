/** The hand-over of responses from the input thread to the four pool threads, one step
    per shared access: the dispatcher reads `running` flags one worker at a time, and
    data, flag and semaphore are set in three separate steps while the workers run. */
module WorkerPool {
  import opened Basics
  import opened Counting

  const MAX_CONCURRENT_HANDLES: nat := 4

  /** AtWait: before or at the semaphore. Woke: past it, `data` not read yet. Holding: a
      response to complete. Done: completed, before the locked look at input_pending.
      Leaving: about to clear `running`. */
  datatype WorkerPc = AtWait | Woke | Holding(id: nat) | Done | Leaving

  /** `full` (history) says that `data` holds a response nobody has read yet. */
  datatype Worker = Worker(running: bool, sem: nat, data: nat, full: bool, pc: WorkerPc)

  /** Scan(i): about to look at worker i. Store, Mark, Post: worker i was seen idle, and
      data, flag, semaphore are next. Queue: all were seen running. */
  datatype DispatchPc =
    | Free | Scan(id: nat, i: nat) | Store(id: nat, i: nat) | Mark(i: nat) | Post(i: nat) | Queue(id: nat)

  /** `seen` (history) is the set of workers the present scan saw running. */
  datatype State = State(ws: seq<Worker>, pending: seq<nat>, d: DispatchPc, seen: set<nat>)

  datatype Step =
    | Dispatch(id: nat) | Advance | SemWait(w: nat) | Read(w: nat) | Complete(w: nat) | PickNext(w: nat) | Leave(w: nat)

  const IDLE: Worker := Worker(false, 0, 0, false, AtWait)

  const Init := State([IDLE, IDLE, IDLE, IDLE], [], Free, {})

  predicate Enabled(s: State, t: Step) {
    match t
    case Dispatch(_) => s.d.Free?
    case Advance => s.d.Free? == false && (s.d.Queue? || s.d.i < |s.ws|)
    case SemWait(w) => w < |s.ws| && s.ws[w].pc.AtWait? && s.ws[w].sem > 0
    case Read(w) => w < |s.ws| && s.ws[w].pc.Woke?
    case Complete(w) => w < |s.ws| && s.ws[w].pc.Holding?
    case PickNext(w) => w < |s.ws| && s.ws[w].pc.Done?
    case Leave(w) => w < |s.ws| && s.ws[w].pc.Leaving?
  }

  function Do(s: State, t: Step): (r: State)
    requires Enabled(s, t)
  {
    match t
    case Dispatch(id) => s.(d := Scan(id, 0), seen := {})
    case Advance => DoDispatch(s)
    case SemWait(w) => s.(ws := s.ws[w := s.ws[w].(sem := s.ws[w].sem - 1, pc := Woke)])
    case Read(w) => s.(ws := s.ws[w := s.ws[w].(pc := Holding(s.ws[w].data), full := false)])
    case Complete(w) => s.(ws := s.ws[w := s.ws[w].(pc := Done)])
    case PickNext(w) =>
      if s.pending != [] then
        s.(ws := s.ws[w := s.ws[w].(pc := Holding(s.pending[0]))], pending := s.pending[1..])
      else
        s.(ws := s.ws[w := s.ws[w].(pc := Leaving)])
    case Leave(w) => s.(ws := s.ws[w := s.ws[w].(running := false, pc := AtWait)])
  }

  function DoDispatch(s: State): (r: State)
    requires Enabled(s, Advance)
  {
    match s.d
    case Scan(id, i) =>
      if !s.ws[i].running then s.(d := Store(id, i))
      else if i + 1 < |s.ws| then s.(d := Scan(id, i + 1), seen := s.seen + {i})
      else s.(d := Queue(id), seen := s.seen + {i})
    case Store(id, i) => s.(ws := s.ws[i := s.ws[i].(data := id, full := true)], d := Mark(i))
    case Mark(i) => s.(ws := s.ws[i := s.ws[i].(running := true)], d := Post(i))
    case Post(i) => s.(ws := s.ws[i := s.ws[i].(sem := s.ws[i].sem + 1)], d := Free)
    case Queue(id) => s.(pending := s.pending + [id], d := Free)
  }

  // ------------------------------------------------------------------- invariant

  /** The phases a worker goes through, as the dispatcher at `d` may find them. */
  ghost predicate WorkerInv(w: Worker, i: nat, d: DispatchPc) {
    && w.sem <= 1
    && (!w.running ==> w.sem == 0 && w.pc.AtWait? && (w.full <==> d == Mark(i)))
    && (d.Store? && d.i == i ==> !w.running)
    && (d.Mark? && d.i == i ==> !w.running)
    && (d.Post? && d.i == i ==> w.running && w.sem == 0 && w.pc.AtWait? && w.full)
    && (w.running && w.pc.AtWait? ==> w.full && (w.sem == 1 <==> d != Post(i)))
    && (w.pc.Woke? ==> w.full)
    && (!w.pc.AtWait? ==> w.sem == 0)
    && (w.pc.Holding? || w.pc.Done? || w.pc.Leaving? ==> !w.full)
  }

  ghost predicate Inv(s: State) {
    && |s.ws| == MAX_CONCURRENT_HANDLES
    && (forall i {:trigger s.ws[i]} | 0 <= i < |s.ws| :: WorkerInv(s.ws[i], i, s.d))
    && (s.d.Free? || s.d.Queue? || s.d.i < |s.ws|)
    && (s.d.Scan? || s.d.Store? ==> forall j: nat :: j in s.seen <==> j < s.d.i)
    && (s.d.Queue? ==> forall j: nat :: j in s.seen <==> j < |s.ws|)
  }

  lemma InitInv()
    ensures Inv(Init)
  {
  }

  lemma {:induction false} StepInv(s: State, t: Step)
    requires Inv(s) && Enabled(s, t)
    ensures Inv(Do(s, t))
  {
    var r := Do(s, t);
    forall i | 0 <= i < |s.ws| ensures WorkerInv(r.ws[i], i, r.d) {
      assert WorkerInv(s.ws[i], i, s.d);
    }
  }

  // ---------------------------------------------------- where the responses are

  /** How many times worker w holds the response x: unread in `data`, or being completed. */
  function HeldBy(w: Worker, x: nat): nat {
    Is(w.full && w.data == x) + Is(w.pc == Holding(x))
  }

  /** The same over the first n workers. */
  function HeldByFirst(ws: seq<Worker>, n: nat, x: nat): nat
    requires n <= |ws|
  {
    if n == 0 then 0 else HeldByFirst(ws, n - 1, x) + HeldBy(ws[n - 1], x)
  }

  function HeldByDispatcher(d: DispatchPc, x: nat): nat {
    Is((d.Scan? || d.Store? || d.Queue?) && d.id == x)
  }

  /** How many times x has been dispatched and not completed yet. */
  function Held(s: State, x: nat): nat {
    HeldByDispatcher(s.d, x) + HeldByFirst(s.ws, |s.ws|, x) + Count(s.pending, x)
  }

  lemma {:induction false} HeldByFirstUpdate(ws: seq<Worker>, n: nat, i: nat, w: Worker, x: nat)
    requires i < |ws| && n <= |ws|
    ensures HeldByFirst(ws[i := w], n, x) ==
              HeldByFirst(ws, n, x) + (if i < n then HeldBy(w, x) as int - HeldBy(ws[i], x) else 0)
  {
    if n > 0 { HeldByFirstUpdate(ws, n - 1, i, w, x); }
  }

  function Adds(t: Step, x: nat): nat {
    Is(t.Dispatch? && t.id == x)
  }

  function Removes(s: State, t: Step, x: nat): nat
    requires Enabled(s, t)
  {
    Is(t.Complete? && s.ws[t.w].pc.id == x)
  }

  /** Only a dispatch adds a response and only its completion removes one: none is
      dropped, duplicated, or overwritten in a data slot. */
  lemma HeldStep(s: State, t: Step, x: nat)
    requires Inv(s) && Enabled(s, t)
    ensures Held(Do(s, t), x) == Held(s, x) + Adds(t, x) - Removes(s, t, x)
  {
    var r := Do(s, t);
    match t
    case Dispatch(_) =>
    case Advance => HeldAdvance(s, x);
    case SemWait(w) => HeldByFirstUpdate(s.ws, |s.ws|, w, r.ws[w], x);
    case Read(w) => HeldByFirstUpdate(s.ws, |s.ws|, w, r.ws[w], x);
    case Complete(w) => HeldByFirstUpdate(s.ws, |s.ws|, w, r.ws[w], x);
    case PickNext(w) =>
      HeldByFirstUpdate(s.ws, |s.ws|, w, r.ws[w], x);
    case Leave(w) => HeldByFirstUpdate(s.ws, |s.ws|, w, r.ws[w], x);
  }

  lemma HeldAdvance(s: State, x: nat)
    requires Inv(s) && Enabled(s, Advance)
    ensures Held(DoDispatch(s), x) == Held(s, x)
  {
    var r := DoDispatch(s);
    if s.d.Queue? {
      CountAdd(s.pending, s.d.id, x);
    } else if !s.d.Scan? {
      var i := s.d.i;
      assert WorkerInv(s.ws[i], i, s.d);
      HeldByFirstUpdate(s.ws, |s.ws|, i, r.ws[i], x);
    }
  }

  lemma HoldingIsHeld(s: State, w: nat)
    requires w < |s.ws| && s.ws[w].pc.Holding?
    ensures Held(s, s.ws[w].pc.id) > 0
  {
    HeldByFirstUpdate(s.ws, |s.ws|, w, IDLE, s.ws[w].pc.id);
  }

  // -------------------------------------------------------------------- whole runs

  function After(ts: seq<Step>): (r: Option<State>) {
    if ts == [] then Some(Init)
    else
      match After(ts[..|ts| - 1])
      case None => None
      case Some(s) => if Enabled(s, ts[|ts| - 1]) then Some(Do(s, ts[|ts| - 1])) else None
  }

  /** How often x was dispatched in a run, and how often completed. */
  function Dispatched(ts: seq<Step>, x: nat): nat {
    if ts == [] then 0 else Dispatched(ts[..|ts| - 1], x) + Adds(ts[|ts| - 1], x)
  }

  function Completed(ts: seq<Step>, x: nat): nat
    requires After(ts).Some?
  {
    if ts == [] then 0
    else
      Completed(ts[..|ts| - 1], x) + Removes(After(ts[..|ts| - 1]).value, ts[|ts| - 1], x)
  }

  lemma HeldInit(x: nat)
    ensures Held(Init, x) == 0
  {
    IdleHoldsNothing(Init.ws, 4, x);
  }

  lemma {:induction false} IdleHoldsNothing(ws: seq<Worker>, n: nat, x: nat)
    requires n <= |ws| && forall i | 0 <= i < |ws| :: ws[i] == IDLE
    ensures HeldByFirst(ws, n, x) == 0
  {
    if n > 0 { IdleHoldsNothing(ws, n - 1, x); }
  }

  lemma {:induction false} RunInv(ts: seq<Step>)
    requires After(ts).Some?
    ensures Inv(After(ts).value)
  {
    if ts != [] {
      RunInv(ts[..|ts| - 1]);
      StepInv(After(ts[..|ts| - 1]).value, ts[|ts| - 1]);
    }
  }

  /** In every interleaving, what was dispatched is what was completed together with
      what is still held: each response is completed at most once and never lost. */
  lemma {:induction false} EveryResponseOnce(ts: seq<Step>, x: nat)
    requires After(ts).Some?
    ensures Dispatched(ts, x) == Completed(ts, x) + Held(After(ts).value, x)
  {
    if ts == [] {
      HeldInit(x);
    } else {
      EveryResponseOnce(ts[..|ts| - 1], x);
      RunInv(ts[..|ts| - 1]);
      HeldStep(After(ts[..|ts| - 1]).value, ts[|ts| - 1], x);
    }
  }

  /** The responses put on the queue in a run, and those that workers have taken from it, in
      the order in which that happened. */
  function QueuedIds(ts: seq<Step>): seq<nat>
    requires After(ts).Some?
  {
    if ts == [] then []
    else
      var s, t := After(ts[..|ts| - 1]).value, ts[|ts| - 1];
      QueuedIds(ts[..|ts| - 1]) + (if t.Advance? && s.d.Queue? then [s.d.id] else [])
  }

  function PickedIds(ts: seq<Step>): seq<nat>
    requires After(ts).Some?
  {
    if ts == [] then []
    else
      var r, t := After(ts).value, ts[|ts| - 1];
      PickedIds(ts[..|ts| - 1])
      + (if t.PickNext? && t.w < |r.ws| && r.ws[t.w].pc.Holding? then [r.ws[t.w].pc.id] else [])
  }

  /** In every interleaving the queue is first in, first out: what workers have taken from it
      and hold, followed by what is on it, is what was put on it. */
  lemma {:induction false} PickedInOrder(ts: seq<Step>)
    requires After(ts).Some?
    ensures PickedIds(ts) + After(ts).value.pending == QueuedIds(ts)
  {
    if ts != [] {
      var n := |ts| - 1;
      PickedInOrder(ts[..n]);
      var s := After(ts[..n]).value;
      assert s.pending != [] ==> s.pending == [s.pending[0]] + s.pending[1..];
      QueueStep(s, ts[n], PickedIds(ts[..n]), QueuedIds(ts[..n]));
    }
  }

  lemma QueueStep(s: State, t: Step, picked: seq<nat>, queued: seq<nat>)
    requires Enabled(s, t) && picked + s.pending == queued
    ensures var r := Do(s, t);
            picked
            + (if t.PickNext? && t.w < |r.ws| && r.ws[t.w].pc.Holding? then [r.ws[t.w].pc.id] else [])
            + r.pending
            == queued + (if t.Advance? && s.d.Queue? then [s.d.id] else [])
  {
    if t.PickNext? && s.pending != [] {
      assert s.pending == [s.pending[0]] + s.pending[1..];
    }
  }

  /** The handshake guarantees, at every moment of every run: an idle worker has a clear
      semaphore; the dispatcher writes a data slot only when the worker has consumed the
      previous response, and only after it saw all workers in front of it running; and a
      response goes to the queue only after the scan saw every worker running. */
  lemma {:induction false} Handshake(ts: seq<Step>)
    requires After(ts).Some?
    ensures var s := After(ts).value;
            && (forall i | 0 <= i < |s.ws| :: !s.ws[i].running ==> s.ws[i].sem == 0)
            && (s.d.Store? ==> s.d.i < |s.ws| && !s.ws[s.d.i].full && s.ws[s.d.i].pc.AtWait?)
            && (s.d.Store? ==> forall j: nat :: j in s.seen <==> j < s.d.i)
            && (s.d.Queue? ==> s.seen == {0, 1, 2, 3})
  {
    RunInv(ts);
    HandshakeInv(After(ts).value);
  }

  lemma HandshakeInv(s: State)
    requires Inv(s)
    ensures forall i | 0 <= i < |s.ws| :: !s.ws[i].running ==> s.ws[i].sem == 0
    ensures s.d.Store? ==> s.d.i < |s.ws| && !s.ws[s.d.i].full && s.ws[s.d.i].pc.AtWait?
    ensures s.d.Store? ==> forall j: nat :: j in s.seen <==> j < s.d.i
    ensures s.d.Queue? ==> s.seen == {0, 1, 2, 3}
  {
    forall i | 0 <= i < |s.ws| ensures !s.ws[i].running ==> s.ws[i].sem == 0 {
      assert WorkerInv(s.ws[i], i, s.d);
    }
  }

  // ------------------------------------------------ what the hand-over does not promise

  /** Worker w will still look at the queue before it goes to sleep. */
  predicate WillLook(w: Worker) {
    w.running && !w.pc.Leaving?
  }

  /** Somebody will look at the queue, if there is anything in it. */
  predicate Attended(s: State) {
    s.pending == [] || exists i :: 0 <= i < |s.ws| && WillLook(s.ws[i])
  }

  /** The step that queues a response when no worker will look any more. */
  predicate Strands(s: State, t: Step) {
    t.Advance? && s.d.Queue? && forall i | 0 <= i < |s.ws| :: !WillLook(s.ws[i])
  }

  /** Queueing with every worker on its way to sleep is the one step that leaves the queue
      unattended. */
  lemma {:induction false} AttendedStep(s: State, t: Step)
    requires Inv(s) && Enabled(s, t) && Attended(s)
    ensures Attended(Do(s, t)) <==> !Strands(s, t)
  {
    var r := Do(s, t);
    if !Strands(s, t) && r.pending != [] {
      if t.Advance? && s.d.Queue? {
        var i :| 0 <= i < |s.ws| && WillLook(s.ws[i]);
        assert WillLook(r.ws[i]);
      } else {
        assert s.pending != [];
        var i :| 0 <= i < |s.ws| && WillLook(s.ws[i]);
        assert WorkerInv(s.ws[i], i, s.d);
        assert WillLook(r.ws[i]);
      }
    }
  }

  /** For every run: the queue was attended at every moment if and only if no response was
      queued while all workers were on their way to sleep. */
  lemma {:induction false} AttendedIffNeverStrands(ts: seq<Step>)
    requires After(ts).Some?
    ensures AlwaysAttended(ts) <==> NeverStrands(ts)
  {
    if ts != [] {
      var n := |ts| - 1;
      AttendedIffNeverStrands(ts[..n]);
      RunInv(ts[..n]);
      if AlwaysAttended(ts[..n]) {
        AttendedLast(ts[..n]);
        AttendedStep(After(ts[..n]).value, ts[n]);
      }
    }
  }

  /** At the start and after every step so far. */
  predicate AlwaysAttended(ts: seq<Step>)
    requires After(ts).Some?
  {
    Attended(After(ts).value) && (ts == [] || AlwaysAttended(ts[..|ts| - 1]))
  }

  predicate NeverStrands(ts: seq<Step>)
    requires After(ts).Some?
  {
    ts == [] || (!Strands(After(ts[..|ts| - 1]).value, ts[|ts| - 1]) && NeverStrands(ts[..|ts| - 1]))
  }

  lemma AttendedLast(ts: seq<Step>)
    requires After(ts).Some? && AlwaysAttended(ts)
    ensures Attended(After(ts).value)
  {
  }

  /** A response waits in the queue while every worker sleeps and none will be woken. */
  ghost predicate Stranded(s: State) {
    && s.pending != [] && s.d == Free
    && forall i | 0 <= i < |s.ws| :: s.ws[i].pc == AtWait && s.ws[i].sem == 0
  }

  /** Unattended, with no dispatch under way, the queue stays as it is and unattended until
      the next response is dispatched; all that is left to happen is that the workers go to
      sleep, and when they have, the responses in it are stranded. */
  lemma {:induction false} UnattendedWaits(s: State, t: Step)
    requires Inv(s) && Enabled(s, t) && !Attended(s) && s.d == Free && !t.Dispatch?
    ensures t.Leave?
    ensures var r := Do(s, t); !Attended(r) && r.pending == s.pending && r.d == Free
  {
    forall i | 0 <= i < |s.ws| ensures !WillLook(Do(s, t).ws[i]) {
      assert WorkerInv(s.ws[i], i, s.d) && !WillLook(s.ws[i]);
    }
  }

  /** With everybody asleep and no dispatch under way, stranded is exactly unattended. */
  lemma {:induction false} StrandedIffUnattended(s: State)
    requires Inv(s) && s.d == Free && forall i | 0 <= i < |s.ws| :: s.ws[i].pc == AtWait && s.ws[i].sem == 0
    ensures Stranded(s) <==> !Attended(s)
    ensures Attended(s) <==> s.pending == []
  {
    forall i | 0 <= i < |s.ws| ensures !WillLook(s.ws[i]) {
      assert WorkerInv(s.ws[i], i, s.d);
    }
  }

  /** When nothing but a dispatch can happen, dispatcher and workers are asleep, and what they
      hold is the queue. */
  lemma {:induction false} RestIsSleep(s: State)
    requires Inv(s) && forall t :: Enabled(s, t) ==> t.Dispatch?
    ensures s.d == Free && forall i | 0 <= i < |s.ws| :: s.ws[i].pc == AtWait && s.ws[i].sem == 0
  {
    assert !Enabled(s, Advance);
    forall i | 0 <= i < |s.ws| ensures s.ws[i].pc == AtWait && s.ws[i].sem == 0 {
      assert !Enabled(s, SemWait(i)) && !Enabled(s, Read(i)) && !Enabled(s, Complete(i));
      assert !Enabled(s, PickNext(i)) && !Enabled(s, Leave(i));
    }
  }

  lemma {:induction false} SleepersHoldNothing(s: State, n: nat, x: nat)
    requires Inv(s) && s.d == Free && n <= |s.ws|
    requires forall i | 0 <= i < |s.ws| :: s.ws[i].pc == AtWait && s.ws[i].sem == 0
    ensures HeldByFirst(s.ws, n, x) == 0
  {
    if n > 0 {
      SleepersHoldNothing(s, n - 1, x);
      assert WorkerInv(s.ws[n - 1], n - 1, s.d);
    }
  }

  /** Nothing but the arrival of another response can happen then. */
  lemma StrandedIsStuck(s: State, t: Step)
    requires Stranded(s) && Enabled(s, t)
    ensures t.Dispatch?
  {
  }

  lemma Extend(ts: seq<Step>, t: Step)
    requires After(ts).Some? && Enabled(After(ts).value, t)
    ensures After(ts + [t]) == Some(Do(After(ts).value, t))
  {
    assert (ts + [t])[..|ts|] == ts;
  }

  const BUSY: Worker := Worker(true, 0, 5, false, Done)

  /** The first n workers have completed response 5 and not looked at the queue yet. */
  ghost predicate FirstBusy(s: State, n: nat) {
    && |s.ws| == 4 && n <= 4 && s.pending == []
    && forall i | 0 <= i < 4 :: s.ws[i] == if i < n then BUSY else IDLE
  }

  lemma {:induction false} ScanPast(ts: seq<Step>, n: nat, i: nat) returns (rs: seq<Step>)
    requires After(ts).Some? && FirstBusy(After(ts).value, n) && i <= n && i < 4 && After(ts).value.d == Scan(5, i)
    ensures After(rs).Some? && FirstBusy(After(rs).value, n)
    ensures After(rs).value.d == if n < 4 then Scan(5, n) else Queue(5)
    decreases n - i
  {
    rs := ts;
    if i < n {
      Extend(ts, Advance);
      rs := ts + [Advance];
      if i + 1 < 4 { rs := ScanPast(rs, n, i + 1); }
    }
  }

  lemma OccupyNext(ts: seq<Step>, n: nat) returns (rs: seq<Step>)
    requires After(ts).Some? && n < 4 && FirstBusy(After(ts).value, n) && After(ts).value.d == Free
    ensures After(rs).Some? && FirstBusy(After(rs).value, n + 1) && After(rs).value.d == Free
  {
    Extend(ts, Dispatch(5));
    rs := ScanPast(ts + [Dispatch(5)], n, 0);
    rs := HandOver(rs, n);
    rs := Finish(rs, n);
  }

  lemma HandOver(ts: seq<Step>, n: nat) returns (rs: seq<Step>)
    requires After(ts).Some? && n < 4 && FirstBusy(After(ts).value, n) && After(ts).value.d == Scan(5, n)
    ensures After(rs).Some?
    ensures var s, r := After(ts).value, After(rs).value;
            r.ws == s.ws[n := Worker(true, 1, 5, true, AtWait)] && r.pending == [] && r.d == Free
  {
    rs := ts;
    Extend(rs, Advance);
    rs := rs + [Advance];
    Extend(rs, Advance);
    rs := rs + [Advance];
    Extend(rs, Advance);
    rs := rs + [Advance];
    Extend(rs, Advance);
    rs := rs + [Advance];
  }

  lemma Finish(ts: seq<Step>, n: nat) returns (rs: seq<Step>)
    requires After(ts).Some? && n < |After(ts).value.ws|
    requires After(ts).value.ws[n] == Worker(true, 1, 5, true, AtWait)
    ensures After(rs).Some? && After(rs).value == After(ts).value.(ws := After(ts).value.ws[n := BUSY])
  {
    rs := ts;
    Extend(rs, SemWait(n));
    rs := rs + [SemWait(n)];
    Extend(rs, Read(n));
    rs := rs + [Read(n)];
    Extend(rs, Complete(n));
    rs := rs + [Complete(n)];
  }

  lemma {:induction false} OccupyAll(n: nat) returns (ts: seq<Step>)
    requires n <= 4
    ensures After(ts).Some? && FirstBusy(After(ts).value, n) && After(ts).value.d == Free
  {
    if n == 0 {
      ts := [];
    } else {
      ts := OccupyAll(n - 1);
      ts := OccupyNext(ts, n - 1);
    }
  }

  /** Every worker below n has found the queue empty, or has gone on to sleep. */
  lemma {:induction false} AllMoveOn(ts: seq<Step>, n: nat, sleep: bool) returns (rs: seq<Step>)
    requires After(ts).Some? && n <= 4 && |After(ts).value.ws| == 4
    requires forall i | 0 <= i < n :: After(ts).value.ws[i].pc == if sleep then Leaving else Done
    requires forall i | 0 <= i < 4 :: After(ts).value.ws[i].sem == 0
    requires !sleep ==> After(ts).value.pending == []
    ensures After(rs).Some? && |After(rs).value.ws| == 4
    ensures After(rs).value.d == After(ts).value.d && After(rs).value.pending == After(ts).value.pending
    ensures forall i | 0 <= i < 4 :: After(rs).value.ws[i].sem == 0
    ensures forall i | 0 <= i < n :: After(rs).value.ws[i].pc == if sleep then AtWait else Leaving
    ensures forall i | n <= i < 4 :: After(rs).value.ws[i] == After(ts).value.ws[i]
  {
    if n == 0 {
      rs := ts;
    } else {
      rs := AllMoveOn(ts, n - 1, sleep);
      var t := if sleep then Leave(n - 1) else PickNext(n - 1);
      Extend(rs, t);
      rs := rs + [t];
    }
  }

  /** The hand-over is safe but not live: a response queued after the last worker has
      looked and before it clears `running` stays in the queue with all workers asleep,
      until another response happens to arrive. */
  lemma ResponseCanBeStranded() returns (ts: seq<Step>)
    ensures After(ts).Some? && Stranded(After(ts).value)
  {
    ts := OccupyAll(4);
    Extend(ts, Dispatch(5));
    ts := ScanPast(ts + [Dispatch(5)], 4, 0);
    ts := AllMoveOn(ts, 4, false);
    Extend(ts, Advance);
    ts := AllMoveOn(ts + [Advance], 4, true);
  }
}
