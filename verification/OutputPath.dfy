/** How a CPU's messages get from mreqb_submit to its mailbox: producers insert into the
    locked pending list and then raise the output flag; the output thread swaps the
    whole list for an empty one and pushes it, one message at a time. One step is one
    locked region, one flag operation or one mailbox attempt. */
module OutputPath {
  import opened Basics

  datatype Msg = Msg(id: nat, response: bool)

  /** Where the output thread stands: before the locked test of the list; having seen it
      empty, at the flag wait; or pushing a batch. */
  datatype Pc = Top | Sleepy | Pushing

  /** `sent` and `submitted` are histories; `segments` splits the submissions of the
      batches taken so far, `current` those since the last swap. */
  datatype State = State(
    pending: seq<Msg>, unsignalled: nat, flag: bool, pc: Pc, batch: seq<Msg>,
    sent: seq<Msg>, submitted: seq<Msg>, segments: seq<seq<Msg>>, current: seq<Msg>)

  datatype Step = Insert(m: Msg) | Signal | Check | Wake | PushOk | PushRefused

  const Init := State([], 0, false, Top, [], [], [], [], [])

  predicate Enabled(s: State, t: Step) {
    match t
    case Insert(_) => true
    case Signal => s.unsignalled > 0
    case Check => s.pc == Top
    case Wake => s.pc == Sleepy && s.flag
    case PushOk => s.pc == Pushing && s.batch != []
    case PushRefused => s.pc == Pushing
  }

  function DoInsert(s: State, m: Msg): (r: State) {
    s.(pending := if m.response then [m] + s.pending else s.pending + [m],
    unsignalled := s.unsignalled + 1, submitted := s.submitted + [m], current := s.current + [m])
  }

  function DoCheck(s: State): (r: State) {
    if s.pending == [] then s.(pc := Sleepy)
    else s.(pc := Pushing, batch := s.pending, pending := [], segments := s.segments + [s.current], current := [])
  }

  function DoPush(s: State): (r: State)
    requires s.batch != []
  {
    s.(sent := s.sent + [s.batch[0]], batch := s.batch[1..], pc := if |s.batch| == 1 then Top else Pushing)
  }

  function Do(s: State, t: Step): (r: State)
    requires Enabled(s, t)
  {
    match t
    case Insert(m) => DoInsert(s, m)
    case Signal => s.(unsignalled := s.unsignalled - 1, flag := true)
    case Check => DoCheck(s)
    case Wake => s.(flag := false, pc := Top)
    case PushOk => DoPush(s)
    case PushRefused => s
  }

  // ---------------------------------------------------------- the order of a batch

  function Requests(ms: seq<Msg>): (r: seq<Msg>) {
    if ms == [] then []
    else if ms[|ms| - 1].response then Requests(ms[..|ms| - 1])
    else Requests(ms[..|ms| - 1]) + [ms[|ms| - 1]]
  }

  function ResponsesNewestFirst(ms: seq<Msg>): (r: seq<Msg>) {
    if ms == [] then []
    else if ms[|ms| - 1].response then [ms[|ms| - 1]] + ResponsesNewestFirst(ms[..|ms| - 1])
    else ResponsesNewestFirst(ms[..|ms| - 1])
  }

  /** What a batch looks like: responses newest first, then requests oldest first. */
  function Arrange(ms: seq<Msg>): (r: seq<Msg>) {
    ResponsesNewestFirst(ms) + Requests(ms)
  }

  function Batches(segments: seq<seq<Msg>>): (r: seq<Msg>) {
    if segments == [] then []
    else Batches(segments[..|segments| - 1]) + Arrange(segments[|segments| - 1])
  }

  lemma ArrangeInsert(ms: seq<Msg>, m: Msg)
    ensures Arrange(ms + [m]) == if m.response then [m] + Arrange(ms) else Arrange(ms) + [m]
  {
    assert (ms + [m])[..|ms|] == ms;
  }

  lemma {:induction false} RequestsConcat(a: seq<Msg>, b: seq<Msg>)
    ensures Requests(a + b) == Requests(a) + Requests(b)
  {
    if b == [] {
      assert a + b == a;
    } else {
      var n := |b| - 1;
      assert (a + b)[..|a + b| - 1] == a + b[..n];
      RequestsConcat(a, b[..n]);
    }
  }

  lemma {:induction false} NoRequestsAmongResponses(ms: seq<Msg>)
    ensures Requests(ResponsesNewestFirst(ms)) == []
    ensures Requests(Requests(ms)) == Requests(ms)
  {
    if ms != [] {
      var n := |ms| - 1;
      NoRequestsAmongResponses(ms[..n]);
      if ms[n].response {
        RequestsConcat([ms[n]], ResponsesNewestFirst(ms[..n]));
        assert [ms[n]][..0] == [];
      } else {
        RequestsConcat(Requests(ms[..n]), [ms[n]]);
        assert [ms[n]][..0] == [];
      }
    }
  }

  lemma RequestsOfArranged(ms: seq<Msg>)
    ensures Requests(Arrange(ms)) == Requests(ms)
  {
    RequestsConcat(ResponsesNewestFirst(ms), Requests(ms));
    NoRequestsAmongResponses(ms);
  }

  lemma {:induction false} ArrangePermutes(ms: seq<Msg>)
    ensures multiset(Arrange(ms)) == multiset(ms)
  {
    if ms != [] {
      var n := |ms| - 1;
      assert ms == ms[..n] + [ms[n]];
      ArrangePermutes(ms[..n]);
    }
  }

  /** The mailbox order across all batches keeps requests in submission order. */
  lemma {:induction false} RequestsOfBatches(segments: seq<seq<Msg>>)
    ensures Requests(Batches(segments)) == Requests(Concat(segments))
  {
    if segments != [] {
      var n := |segments| - 1;
      RequestsOfBatches(segments[..n]);
      RequestsConcat(Batches(segments[..n]), Arrange(segments[n]));
      RequestsConcat(Concat(segments[..n]), segments[n]);
      RequestsOfArranged(segments[n]);
    }
  }

  // ------------------------------------------------------------------- invariant

  ghost predicate Inv(s: State) {
    && (s.pc == Pushing <==> s.batch != [])
    && s.submitted == Concat(s.segments) + s.current
    && s.pending == Arrange(s.current)
    && s.sent + s.batch == Batches(s.segments)
    // no lost wakeup: whoever sleeps on a non-empty list will be woken
    && (s.pc == Sleepy && s.pending != [] ==> s.flag || s.unsignalled > 0)
  }

  lemma InitInv()
    ensures Inv(Init)
  {
  }

  lemma InsertInv(s: State, m: Msg)
    requires Inv(s)
    ensures Inv(DoInsert(s, m))
  {
    ArrangeInsert(s.current, m);
    hide Arrange, Batches, Concat;
    assert Concat(s.segments) + (s.current + [m]) == (Concat(s.segments) + s.current) + [m];
  }

  lemma CheckInv(s: State)
    requires Inv(s) && s.pc == Top
    ensures Inv(DoCheck(s))
  {
    if s.pending != [] {
      var r := DoCheck(s);
      assert r.segments[..|s.segments|] == s.segments;
      assert Batches(r.segments) == Batches(s.segments) + Arrange(s.current);
      assert Concat(r.segments) == Concat(s.segments) + s.current;
      assert Arrange([]) == [];
      hide Arrange, Batches, Concat;
      assert s.batch == [] && s.sent + s.batch == s.sent;
      assert r.submitted == Concat(r.segments) + [];
    }
  }

  lemma PushInv(s: State)
    requires Inv(s) && s.pc == Pushing
    ensures s.batch != [] && Inv(DoPush(s))
  {
    hide Arrange, Batches, Concat;
    assert s.batch == [s.batch[0]] + s.batch[1..];
    assert s.sent + [s.batch[0]] + s.batch[1..] == s.sent + s.batch;
  }

  lemma {:induction false} StepInv(s: State, t: Step)
    requires Inv(s) && Enabled(s, t)
    ensures Inv(Do(s, t))
  {
    match t
    case Insert(m) => InsertInv(s, m);
    case Check => CheckInv(s);
    case PushOk => PushInv(s);
    case _ =>
  }

  /** The state a sequence of steps leads to, if each is enabled in its turn: steps in
      any order, so every interleaving of producers and output thread is one. */
  function After(ts: seq<Step>): (r: Option<State>) {
    if ts == [] then Some(Init)
    else
      match After(ts[..|ts| - 1])
      case None => None
      case Some(s) => if Enabled(s, ts[|ts| - 1]) then Some(Do(s, ts[|ts| - 1])) else None
  }

  lemma {:induction false} RunInv(ts: seq<Step>)
    requires After(ts).Some?
    ensures Inv(After(ts).value)
  {
    if ts != [] {
      RunInv(ts[..|ts| - 1]);
      StepInv(After(ts[..|ts| - 1]).value, ts[|ts| - 1]);
    }
  }

  /** In every run the requests put into the mailbox so far are a prefix of the requests
      submitted, in that order, whatever batches they travelled in. */
  lemma {:induction false} RequestsInSubmissionOrder(ts: seq<Step>)
    requires After(ts).Some?
    ensures Requests(After(ts).value.sent) <= Requests(After(ts).value.submitted)
  {
    RunInv(ts);
    RequestsFlow(After(ts).value);
  }

  lemma RequestsFlow(s: State)
    requires Inv(s)
    ensures Requests(s.sent) + Requests(s.batch) + Requests(s.pending) == Requests(s.submitted)
  {
    RequestsConcat(s.sent, s.batch);
    RequestsOfBatches(s.segments);
    RequestsConcat(Concat(s.segments), s.current);
    RequestsOfArranged(s.current);
  }

  /** Every batch the output thread has taken went out, or is going out, as responses
      newest first followed by requests oldest first. */
  lemma {:induction false} BatchesAreArranged(ts: seq<Step>)
    requires After(ts).Some?
    ensures var s := After(ts).value;
            s.sent + s.batch == Batches(s.segments) && Concat(s.segments) <= s.submitted
  {
    RunInv(ts);
  }

  /** Where an insertion puts a message: a response in front of all that is pending, a request
      behind it. */
  lemma InsertPlace(s: State, m: Msg)
    ensures var r, n := DoInsert(s, m), |s.pending|;
            && |r.pending| == n + 1
            && (m.response ==> r.pending[0] == m && r.pending[1..] == s.pending)
            && (!m.response ==> r.pending[n] == m && r.pending[..n] == s.pending)
  {
  }

  /** No request stands in front of a response. */
  ghost predicate ResponsesLead(q: seq<Msg>) {
    forall i, j | 0 <= i < j < |q| && q[j].response :: q[i].response
  }

  lemma LeadStep(s: State, t: Step)
    requires Enabled(s, t) && ResponsesLead(s.pending) && ResponsesLead(s.batch)
    ensures ResponsesLead(Do(s, t).pending) && ResponsesLead(Do(s, t).batch)
  {
    if t.Insert? {
      InsertPlace(s, t.m);
    }
  }

  lemma {:induction false} LeadInRuns(ts: seq<Step>)
    requires After(ts).Some?
    ensures ResponsesLead(After(ts).value.pending) && ResponsesLead(After(ts).value.batch)
  {
    if ts != [] {
      LeadInRuns(ts[..|ts| - 1]);
      LeadStep(After(ts[..|ts| - 1]).value, ts[|ts| - 1]);
    }
  }

  /** In every run no request is pushed, or waits to be pushed, in front of a response that is
      pending with it: responses overtake. */
  lemma {:induction false} ResponsesOvertake(ts: seq<Step>)
    requires After(ts).Some?
    ensures var s := After(ts).value;
            && (forall i, j | 0 <= i < j < |s.pending| && s.pending[j].response :: s.pending[i].response)
            && (forall i, j | 0 <= i < j < |s.batch| && s.batch[j].response :: s.batch[i].response)
  {
    hide After;
    LeadInRuns(ts);
  }

  /** How often the flag was raised in a run, and how often the output thread was woken. */
  function Signals(ts: seq<Step>): nat {
    if ts == [] then 0 else Signals(ts[..|ts| - 1]) + (if ts[|ts| - 1].Signal? then 1 else 0)
  }

  function Wakes(ts: seq<Step>): nat {
    if ts == [] then 0 else Wakes(ts[..|ts| - 1]) + (if ts[|ts| - 1].Wake? then 1 else 0)
  }

  /** In every run each insertion raises the flag once, now or later, and each raising of the
      flag wakes the thread at most once. */
  lemma {:induction false} OneSignalEach(ts: seq<Step>)
    requires After(ts).Some?
    ensures var s := After(ts).value;
            && Signals(ts) + s.unsignalled == |s.submitted|
            && Wakes(ts) + (if s.flag then 1 else 0) <= Signals(ts)
  {
    if ts != [] {
      OneSignalEach(ts[..|ts| - 1]);
    }
  }

  lemma {:induction false} BatchesPermute(segments: seq<seq<Msg>>)
    ensures multiset(Batches(segments)) == multiset(Concat(segments))
  {
    if segments != [] {
      BatchesPermute(segments[..|segments| - 1]);
      ArrangePermutes(segments[|segments| - 1]);
    }
  }

  /** Nothing is lost or sent twice on the way. */
  lemma Conservation(s: State)
    requires Inv(s)
    ensures multiset(s.sent) + multiset(s.batch) + multiset(s.pending) == multiset(s.submitted)
  {
    BatchesPermute(s.segments);
    ArrangePermutes(s.current);
    assert multiset(s.sent + s.batch) == multiset(s.sent) + multiset(s.batch);
  }

  /** A sleeping output thread with work pending can be woken: the flag is up, or a
      producer that has inserted has yet to raise it. */
  lemma {:induction false} NoLostWakeup(ts: seq<Step>)
    requires After(ts).Some? && After(ts).value.pc == Sleepy && After(ts).value.pending != []
    ensures var s := After(ts).value;
            Enabled(s, Wake) || (Enabled(s, Signal) && Enabled(Do(s, Signal), Wake))
  {
    RunInv(ts);
  }

  /** The pushes of one whole batch, each accepted. */
  function PushAll(s: State): State
    decreases |s.batch|
  {
    if s.batch == [] then s else PushAll(DoPush(s))
  }

  /** A round of the output thread moves the pending list to the mailbox in list order. That
      the pointer code does it is ListHead.OutputRound. */
  lemma {:induction false} RoundSends(s: State)
    requires s.pc == Pushing && s.batch != []
    ensures PushAll(s) == s.(sent := s.sent + s.batch, batch := [], pc := Top)
    decreases |s.batch|
  {
    var r := DoPush(s);
    assert s.sent + s.batch == r.sent + r.batch;
    if r.batch != [] { RoundSends(r); }
  }
}
