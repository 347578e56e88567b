/** The three blocking queues of the library, with their different signalling: mreqb_fifo
    raises its flag after every put, outside the lock; nbuf_queue and the block pool
    raise it inside the protected region, and only when the queue was empty. A consumer
    that finds the queue empty goes to wait for the flag, which waiting clears. */
module Wakeup {
  import opened Basics
  import opened Counting

  datatype Kind = MreqbFifo | NbufQueue | BlockPool

  datatype Pc = Trying | Sleepy

  /** `put` and `got` are histories. */
  datatype State = State(queue: seq<nat>, flag: bool, unsignalled: nat, pcs: seq<Pc>, put: seq<nat>, got: seq<nat>)

  datatype Step = Put(x: nat) | Signal | Get(c: nat) | Wake(c: nat)

  function Init(consumers: nat): State {
    State([], false, 0, seq(consumers, _ => Trying), [], [])
  }

  predicate Enabled(s: State, t: Step) {
    match t
    case Put(_) => true
    case Signal => s.unsignalled > 0
    case Get(c) => c < |s.pcs| && s.pcs[c] == Trying
    case Wake(c) => c < |s.pcs| && s.pcs[c] == Sleepy && s.flag
  }

  function DoPut(k: Kind, s: State, x: nat): State {
    match k
    case MreqbFifo => s.(queue := s.queue + [x], unsignalled := s.unsignalled + 1, put := s.put + [x])
    case NbufQueue => s.(queue := s.queue + [x], flag := s.flag || |s.queue| + 1 == 1, put := s.put + [x])
    case BlockPool => s.(queue := [x] + s.queue, flag := s.flag || s.queue == [], put := s.put + [x])
  }

  function Do(k: Kind, s: State, t: Step): State
    requires Enabled(s, t)
  {
    match t
    case Put(x) => DoPut(k, s, x)
    case Signal => s.(unsignalled := s.unsignalled - 1, flag := true)
    case Get(c) =>
      if s.queue == [] then s.(pcs := s.pcs[c := Sleepy])
      else s.(queue := s.queue[1..], got := s.got + [s.queue[0]])
    case Wake(c) => s.(pcs := s.pcs[c := Trying], flag := false)
  }

  function After(k: Kind, consumers: nat, ts: seq<Step>): (r: Option<State>) {
    if ts == [] then Some(Init(consumers))
    else
      match After(k, consumers, ts[..|ts| - 1])
      case None => None
      case Some(s) => if Enabled(s, ts[|ts| - 1]) then Some(Do(k, s, ts[|ts| - 1])) else None
  }

  /** Consumer c sleeps although there is something to take, and nobody is about to wake
      anyone. */
  predicate Forgotten(s: State, c: nat)
    requires c < |s.pcs|
  {
    s.pcs[c] == Sleepy && s.queue != [] && !s.flag && s.unsignalled == 0
  }

  ghost predicate Inv(k: Kind, s: State) {
    && (k != MreqbFifo ==> s.unsignalled == 0)
    && (|s.pcs| == 1 ==> !Forgotten(s, 0))
    && (k != BlockPool ==> s.got + s.queue == s.put)
    && (forall x :: Count(s.got, x) + Count(s.queue, x) == Count(s.put, x))
  }

  lemma StepInv(k: Kind, s: State, t: Step)
    requires Inv(k, s) && Enabled(s, t)
    ensures Inv(k, Do(k, s, t))
  {
    forall x ensures Count(Do(k, s, t).got, x) + Count(Do(k, s, t).queue, x) == Count(Do(k, s, t).put, x) {
      StepCount(k, s, t, x);
    }
    hide Count;
    match t
    case Put(x) =>
      assert s.got + (s.queue + [x]) == (s.got + s.queue) + [x];
    case Get(c) =>
      if s.queue != [] {
        assert s.got + [s.queue[0]] + s.queue[1..] == s.got + s.queue;
      }
    case _ =>
  }

  lemma StepCount(k: Kind, s: State, t: Step, x: nat)
    requires Enabled(s, t) && Count(s.got, x) + Count(s.queue, x) == Count(s.put, x)
    ensures Count(Do(k, s, t).got, x) + Count(Do(k, s, t).queue, x) == Count(Do(k, s, t).put, x)
  {
    match t
    case Put(y) =>
      CountAdd(s.queue, y, x);
      CountAdd(s.put, y, x);
    case Get(c) =>
      if s.queue != [] { CountAdd(s.got, s.queue[0], x); }
    case _ =>
  }

  lemma {:induction false} RunInv(k: Kind, consumers: nat, ts: seq<Step>)
    requires After(k, consumers, ts).Some?
    ensures Inv(k, After(k, consumers, ts).value)
    ensures |After(k, consumers, ts).value.pcs| == consumers
  {
    if ts != [] {
      RunInv(k, consumers, ts[..|ts| - 1]);
      StepInv(k, After(k, consumers, ts[..|ts| - 1]).value, ts[|ts| - 1]);
    }
  }

  /** With one consumer no wakeup is lost, whichever way the queue signals and however
      many producers there are. */
  lemma {:induction false} NoLostWakeup(k: Kind, ts: seq<Step>)
    requires After(k, 1, ts).Some?
    ensures |After(k, 1, ts).value.pcs| == 1 && !Forgotten(After(k, 1, ts).value, 0)
  {
    RunInv(k, 1, ts);
  }

  /** When each of the three raises its flag: the FIFO of request blocks after every put and as
      a step of its own; the packet queue and the block pool with the put, and only when there
      was nothing in them. */
  lemma WhoSignals(k: Kind, s: State, x: nat)
    ensures var r := Do(k, s, Put(x));
            && (k == MreqbFifo ==> r.flag == s.flag && r.unsignalled == s.unsignalled + 1)
            && (k == NbufQueue || k == BlockPool ==>
                  r.flag == (s.flag || s.queue == []) && r.unsignalled == s.unsignalled)
  {
  }

  /** Taking right after putting: the block pool gives the same block back, the queues the
      oldest. */
  lemma PutThenGet(k: Kind, s: State, x: nat, c: nat)
    requires c < |s.pcs| && s.pcs[c] == Trying
    ensures var r := Do(k, Do(k, s, Put(x)), Get(c));
            && (k == BlockPool ==> r.got == s.got + [x] && r.queue == s.queue)
            && (k != BlockPool && s.queue == [] ==> r.got == s.got + [x] && r.queue == [])
            && (k != BlockPool && s.queue != [] ==> r.got == s.got + [s.queue[0]] && r.queue == s.queue[1..] + [x])
  {
  }

  /** Both queues are first in, first out; the pool only keeps its blocks. */
  lemma {:induction false} NothingLost(k: Kind, consumers: nat, ts: seq<Step>)
    requires After(k, consumers, ts).Some?
    ensures var s := After(k, consumers, ts).value;
            && (k != BlockPool ==> s.got + s.queue == s.put)
            && forall x :: Count(s.got, x) + Count(s.queue, x) == Count(s.put, x)
  {
    RunInv(k, consumers, ts);
  }

  lemma Extend(k: Kind, n: nat, ts: seq<Step>, t: Step)
    requires After(k, n, ts).Some? && Enabled(After(k, n, ts).value, t)
    ensures After(k, n, ts + [t]) == Some(Do(k, After(k, n, ts).value, t))
  {
    assert (ts + [t])[..|ts|] == ts;
  }

  /** With two or more consumers every one of the queues can forget one: two puts make one
      wakeup, since the flag is a single bit that waiting clears. */
  lemma {:induction false} TwoConsumersCanBeForgotten(k: Kind, n: nat) returns (ts: seq<Step>)
    requires n >= 2
    ensures After(k, n, ts).Some? && |After(k, n, ts).value.pcs| == n
    ensures Forgotten(After(k, n, ts).value, 1)
  {
    ts := [];
    Extend(k, n, ts, Get(0));
    ts := ts + [Get(0)];
    Extend(k, n, ts, Get(1));
    ts := ts + [Get(1)];
    assert After(k, n, ts).value == State([], false, 0, Init(n).pcs[0 := Sleepy][1 := Sleepy], [], []);
    Extend(k, n, ts, Put(7));
    ts := ts + [Put(7)];
    Extend(k, n, ts, Put(8));
    ts := ts + [Put(8)];
    if k == MreqbFifo {
      Extend(k, n, ts, Signal);
      ts := ts + [Signal];
      Extend(k, n, ts, Signal);
      ts := ts + [Signal];
    }
    var s := After(k, n, ts).value;
    assert s.flag && s.unsignalled == 0 && |s.queue| == 2 && s.pcs == Init(n).pcs[0 := Sleepy][1 := Sleepy];
    Extend(k, n, ts, Wake(0));
    ts := ts + [Wake(0)];
    Extend(k, n, ts, Get(0));
    ts := ts + [Get(0)];
  }

  /** Some run ends with one of n consumers asleep beside a queue that is not empty, and
      nobody about to wake anyone. */
  ghost predicate CanForget(k: Kind, n: nat) {
    exists ts, c :: RunForgets(k, n, ts, c)
  }

  ghost predicate RunForgets(k: Kind, n: nat, ts: seq<Step>, c: nat) {
    After(k, n, ts).Some? && c < |After(k, n, ts).value.pcs| && Forgotten(After(k, n, ts).value, c)
  }

  /** For each of the three queues: no consumer can be forgotten if and only if there is at
      most one. */
  lemma {:induction false} ForgetsIffSeveral(k: Kind, n: nat)
    ensures CanForget(k, n) <==> n >= 2
  {
    if n >= 2 {
      var ts := TwoConsumersCanBeForgotten(k, n);
      assert RunForgets(k, n, ts, 1);
    } else {
      forall ts, c ensures !RunForgets(k, n, ts, c) {
        if After(k, n, ts).Some? {
          RunInv(k, n, ts);
        }
      }
    }
  }
}
