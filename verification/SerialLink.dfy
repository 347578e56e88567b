/** The serial lines of two CPUs over the protocol that carries them, in one state: what the
    clients fill into their request blocks, the sends on each line, the FIFO of the thread
    that dispatches serial requests, and the ports it serves (mf_mbserial.c on micproto.c).
    What a handler reads is what the block holds at that moment, whoever wrote it. */
module SerialLink {
  import opened Basics
  import opened Counting
  import B = MbSerial
  import M = Micproto
  import O = OutputPath

  /** What a request block carries: a serial request, or something for another handler. */
  type Content = Option<B.Request>

  /** The dispatch thread: at the FIFO; with a block; having handled it. */
  datatype Thread = Idle | Took(id: nat) | Done(id: nat)

  /** The serial side of one CPU: its sends, the FIFO and the thread that serve its peer, and
      its ports. Histories: `tags` is what was in each request block when it was submitted,
      `heard` what was in each when it was received from the peer, `handled` what the
      dispatch thread has read out of blocks and served, `since` how much of that came
      before each open port was opened. */
  datatype Half = Half(
    send: B.State, fifo: seq<nat>, thread: Thread, ports: seq<Option<B.PeerPort>>,
    tags: seq<Content>, heard: seq<Content>, handled: seq<B.Request>, since: map<nat, nat>)

  /** `cargo` is what the blocks hold. */
  datatype State = State(m: M.State, cargo: map<nat, Content>, h1: Half, h2: Half)

  function At(s: State, e: M.Side): Half {
    if e == M.Cpu1 then s.h1 else s.h2
  }

  function With(s: State, e: M.Side, h: Half): State {
    if e == M.Cpu1 then s.(h1 := h) else s.(h2 := h)
  }

  function Cargo(s: State, x: nat): Content {
    if x in s.cargo then s.cargo[x] else None
  }

  /** Fill: a client fills a block of its own with anything but serial data and submits it.
      Send: one round of mf_mbserial_send. Sender: a call begins or ends, or a block is back
      in the pool. Open: mf_mbserial_get. Protocol: any step of micproto.c, the handler of
      serial requests always deferring. Take, Handle, Answer: the dispatch thread. */
  datatype Step =
    | Fill(id: nat, blocking: bool, v: Content)
    | Send(line: nat, id: nat)
    | Sender(u: B.Step)
    | Open(line: nat)
    | Protocol(t: M.Step)
    | Take
    | Handle
    | Answer(k: nat, status: int)

  predicate Enabled(s: State, a: M.Side, t: Step) {
    var h, d := At(s, a), M.At(s.m, a);
    match t
    case Fill(id, blocking, v) =>
      M.Enabled(s.m, a, M.Submit(id, blocking)) && (v.Some? ==> v.value.subcmd != B.MBSERIAL_CMD_DATA_TRANSFER)
    case Send(line, id) => M.Enabled(s.m, a, M.Submit(id, false)) && B.Enabled(h.send, B.Fragment(line))
    case Sender(u) => !u.Fragment? && !u.Status? && B.Enabled(h.send, u)
    case Open(line) => line < |h.ports|
    case Protocol(u) =>
      && M.Enabled(s.m, a, u) && !u.Submit?
      && (u.HandleNow? ==> Cargo(s, d.input.id).None?)
      && (u.GivebackDeferred? ==> Cargo(s, d.deferred[u.k]).None?)
    case Take => h.thread == Idle && h.fifo != []
    case Handle => h.thread.Took? && Cargo(s, h.thread.id).Some?
    case Answer(k, status) =>
      h.thread.Done? && M.Enabled(s.m, a, M.GivebackDeferred(k, status)) && d.deferred[k] == h.thread.id
  }

  /** A filled block is submitted. */
  function Submitted(s: State, a: M.Side, id: nat, blocking: bool, v: Content): State
    requires M.Enabled(s.m, a, M.Submit(id, blocking))
  {
    With(s.(m := M.Do(s.m, a, M.Submit(id, blocking)), cargo := s.cargo[id := v]), a,
         At(s, a).(tags := At(s, a).tags + [v]))
  }

  /** The block `a` is about to receive is a request of its peer. */
  predicate Hears(s: State, a: M.Side, t: M.Step) {
    t.Receive? && M.Enabled(s.m, a, t) && !s.m.blocks[M.At(s.m, M.Peer(a)).wire[0]].response
  }

  function DoProtocol(s: State, a: M.Side, t: M.Step): State
    requires M.Enabled(s.m, a, t)
  {
    var h, r := At(s, a), s.(m := M.Do(s.m, a, t));
    if Hears(s, a, t) then
      With(r, a, h.(heard := h.heard + [Cargo(s, M.At(s.m, M.Peer(a)).wire[0])]))
    else if t.Defer? && Cargo(s, M.At(s.m, a).input.id).Some? then
      With(r, a, h.(fifo := h.fifo + [M.At(s.m, a).input.id]))
    else r
  }

  /** A port is up for sending exactly as the peer's requests have left it. */
  function WithStatus(send: B.State, ports: seq<Option<B.PeerPort>>, line: nat): B.State {
    if line < |ports| && ports[line].Some? && B.Enabled(send, B.Status(line, true)) then
      B.Do(send, B.Status(line, B.UpBit(ports[line].value.status)))
    else send
  }

  const NewPort: B.PeerPort := B.PeerPort(0, [])

  function DoOpen(h: Half, line: nat): Half
    requires line < |h.ports|
  {
    if h.ports[line].Some? then h
    else h.(ports := h.ports[line := Some(NewPort)], since := h.since[line := |h.handled|])
  }

  /** handle_mbserial_request on what the block holds. */
  function DoHandle(h: Half, r: B.Request): Half
    requires h.thread.Took?
  {
    var ports := B.Handled(h.ports, r);
    h.(handled := h.handled + [r], ports := ports, send := WithStatus(h.send, ports, r.line),
    thread := Done(h.thread.id))
  }

  function Do(s: State, a: M.Side, t: Step): State
    requires Enabled(s, a, t)
  {
    var h := At(s, a);
    match t
    case Fill(id, blocking, v) => Submitted(s, a, id, blocking, v)
    case Send(line, id) =>
      var p := B.NextPacket(h.send, line);
      var r := Submitted(s, a, id, false, Some(B.Request(B.MBSERIAL_CMD_DATA_TRANSFER, line, p.payload)));
      With(r, a, At(r, a).(send := B.Do(h.send, B.Fragment(line))))
    case Sender(u) => With(s, a, h.(send := B.Do(h.send, u)))
    case Open(line) => With(s, a, DoOpen(h, line))
    case Protocol(u) => DoProtocol(s, a, u)
    case Take => With(s, a, h.(thread := Took(h.fifo[0]), fifo := h.fifo[1..]))
    case Handle => With(s, a, DoHandle(h, Cargo(s, h.thread.id).value))
    case Answer(k, status) =>
      With(s.(m := M.Do(s.m, a, M.GivebackDeferred(k, status))), a, h.(thread := Idle))
  }

  // ---------------------------------------------------------------------- the invariant

  /** The serial requests among some contents. */
  function Serial(c: seq<Content>): seq<B.Request> {
    if c == [] then []
    else Serial(c[..|c| - 1]) + (if c[|c| - 1].Some? then [c[|c| - 1].value] else [])
  }

  /** What some blocks hold now. */
  function Held(s: State, ids: seq<nat>): seq<Content> {
    seq(|ids|, i requires 0 <= i < |ids| => Cargo(s, ids[i]))
  }

  function Asking(m: M.State, e: M.Side): seq<O.Msg> {
    O.Requests(M.At(m, e).out.submitted)
  }

  /** Requests of CPU e that its peer has not been asked yet still hold what was filled in,
      and what the peer has heard is what was filled in, in order. */
  ghost predicate TagsInv(s: State, e: M.Side) {
    var reqs, n, tags := Asking(s.m, e), |M.At(s.m, e).asked|, At(s, e).tags;
    && |tags| == |reqs| && n <= |reqs|
    && At(s, M.Peer(e)).heard == tags[..n]
    && forall i | n <= i < |reqs| :: Cargo(s, reqs[i].id) == tags[i]
  }

  /** The blocks with CPU r that the dispatch thread has yet to handle, oldest first. */
  function Waiting(s: State, r: M.Side): seq<nat> {
    var h, d := At(s, r), M.At(s.m, r);
    (if h.thread.Took? then [h.thread.id] else []) + h.fifo + (if d.input.Handling? then [d.input.id] else [])
  }

  function WithThread(h: Half, x: nat): nat {
    Is(h.thread == Took(x) || h.thread == Done(x))
  }

  /** Handled, and then what the waiting blocks hold, is all that was heard; the thread and its
      FIFO have only deferred blocks, each as often as it was deferred. */
  ghost predicate QueueInv(s: State, r: M.Side) {
    var h, d := At(s, r), M.At(s.m, r);
    && Serial(h.heard) == h.handled + Serial(Held(s, Waiting(s, r)))
    && (forall x: nat :: Count(h.fifo, x) + WithThread(h, x) <= Count(d.deferred, x))
    && (forall i | 0 <= i < |h.fifo| :: Cargo(s, h.fifo[i]).Some?)
    && (h.thread.Took? ==> Cargo(s, h.thread.id).Some?)
    && (h.thread.Done? ==> Cargo(s, h.thread.id).Some?)
  }

  /** A port that is open has served what has been handled since it was opened, and its line
      takes sends exactly while it is up. */
  ghost predicate PortInv(h: Half, l: nat) {
    && l < |h.ports| && l < |h.send.lines|
    && (h.ports[l].None? ==> !h.send.lines[l].up)
    && (h.ports[l].Some? ==>
          && l in h.since && h.since[l] <= |h.handled|
          && B.Serves(NewPort, h.ports[l], h.handled[h.since[l]..], l)
          && B.Told(NewPort, h.ports[l], h.handled[h.since[l]..], l)
          && h.send.lines[l].up == B.UpBit(h.ports[l].value.status))
  }

  ghost predicate HalfInv(h: Half) {
    && B.Inv(h.send) && B.DataPackets(Serial(h.tags)) == h.send.wire
    && |h.ports| == B.MAX_MBSERIAL_NUM
    && forall l: nat | l < B.MAX_MBSERIAL_NUM :: PortInv(h, l)
  }

  ghost predicate Inv(s: State) {
    && M.Inv(s.m)
    && TagsInv(s, M.Cpu1) && TagsInv(s, M.Cpu2)
    && QueueInv(s, M.Cpu1) && QueueInv(s, M.Cpu2)
    && HalfInv(s.h1) && HalfInv(s.h2)
  }

  lemma SerialMore(c: seq<Content>, v: Content)
    ensures Serial(c + [v]) == Serial(c) + (if v.Some? then [v.value] else [])
  {
    assert (c + [v])[..|c|] == c;
  }

  lemma {:induction false} SerialAppend(a: seq<Content>, b: seq<Content>)
    ensures Serial(a + b) == Serial(a) + Serial(b)
    decreases |b|
  {
    if b == [] {
      assert a + b == a;
    } else {
      var n := |b| - 1;
      assert (a + b)[..|a| + n] == a + b[..n];
      SerialAppend(a, b[..n]);
    }
  }

  // ------------------------------------------------------- where an unasked request is

  lemma {:induction false} InRequests(ms: seq<O.Msg>, i: nat) returns (j: nat)
    requires i < |O.Requests(ms)|
    ensures j < |ms| && ms[j] == O.Requests(ms)[i] && !ms[j].response
  {
    var n := |ms| - 1;
    if i < |O.Requests(ms[..n])| {
      j := InRequests(ms[..n], i);
    } else {
      j := n;
    }
  }

  lemma {:induction false} CountIn<T>(q: seq<T>, x: T)
    requires x in q
    ensures Count(q, x) > 0
  {
    var k :| 0 <= k < |q| && q[k] == x;
    CountPositive(q, k);
  }

  /** The messages are in order at the end of this CPU. */
  predicate InOrder(d: M.End) {
    d.taken + d.wire == M.Ids(d.out.sent) && M.AskedRight(d)
  }

  /** The requests not asked yet, by where they are. */
  function Unasked(d: M.End): seq<O.Msg>
    requires |d.taken| <= |d.out.sent|
  {
    O.Requests(d.out.sent[|d.taken|..]) + O.Requests(d.out.batch) + O.Requests(d.out.pending)
  }

  lemma UnaskedParts(d: M.End)
    requires O.Inv(d.out) && InOrder(d)
    ensures var reqs, n := O.Requests(d.out.submitted), |d.asked|;
            && |d.taken| <= |d.out.sent| && d.wire == M.Ids(d.out.sent[|d.taken|..])
            && n <= |reqs| && d.asked == M.Ids(reqs[..n]) && reqs[n..] == Unasked(d)
  {
    var sent, n := d.out.sent, |d.taken|;
    O.RequestsFlow(d.out);
    O.RequestsConcat(sent[..n], sent[n..]);
    assert sent == sent[..n] + sent[n..];
    IdsParts(sent, n);
    assert d.wire == (d.taken + d.wire)[n..];
    IdsLength(O.Requests(sent[..n]));
    Regroup(O.Requests(sent[..n]), O.Requests(sent[n..]), O.Requests(d.out.batch), O.Requests(d.out.pending));
  }

  lemma Regroup(a: seq<O.Msg>, b: seq<O.Msg>, c: seq<O.Msg>, d: seq<O.Msg>)
    ensures (a + b + c + d)[..|a|] == a && (a + b + c + d)[|a|..] == b + c + d
  {
  }

  lemma IdsLength(ms: seq<O.Msg>)
    ensures |M.Ids(ms)| == |ms|
  {
  }

  lemma IdsParts(ms: seq<O.Msg>, n: nat)
    requires n <= |ms|
    ensures M.Ids(ms)[n..] == M.Ids(ms[n..]) && M.Ids(ms)[..n] == M.Ids(ms[..n])
  {
  }

  lemma UnaskedSpot(d: M.End, k: nat)
    requires |d.taken| <= |d.out.sent| && d.wire == M.Ids(d.out.sent[|d.taken|..]) && k < |Unasked(d)|
    ensures var p := M.SpotOf(d, Unasked(d)[k].id); p.request + p.wire > 0
  {
    var x, later := Unasked(d)[k].id, d.out.sent[|d.taken|..];
    var a, b := |O.Requests(later)|, |O.Requests(d.out.batch)|;
    if k < a {
      var j := InRequests(later, k);
      CountPositive(d.wire, j);
    } else if k < a + b {
      var j := InRequests(d.out.batch, k - a);
      CountIn(d.out.batch, O.Msg(x, false));
    } else {
      var j := InRequests(d.out.pending, k - a - b);
      CountIn(d.out.pending, O.Msg(x, false));
    }
  }

  lemma MInvParts(m: M.State, e: M.Side)
    requires M.Inv(m)
    ensures O.Inv(M.At(m, e).out) && InOrder(M.At(m, e))
  {
    assert M.EndInv(M.At(m, e)) && M.LabelInv(m, e);
    hide M.BlockInv, M.Inv, M.Labelled;
  }

  lemma MInvBlock(m: M.State, x: nat)
    requires M.Inv(m)
    ensures M.BlockInv(m, x)
  {
    hide M.BlockInv;
  }

  /** Such a request is in the output path or the mailbox of its CPU, so no client has it and
      no handler. */
  lemma UnaskedAway(m: M.State, e: M.Side, i: nat)
    requires M.Inv(m) && |M.At(m, e).asked| <= i < |Asking(m, e)|
    ensures var x := Asking(m, e)[i].id;
            && x !in m.cpu1.owned && x !in m.cpu2.owned
            && M.SpotOf(m.cpu1, x).handler == 0 && M.SpotOf(m.cpu2, x).handler == 0
  {
    hide M.Inv, M.BlockInv, O.Inv, InOrder, Unasked, M.SpotOf, O.Requests;
    var d, x := M.At(m, e), Asking(m, e)[i].id;
    MInvParts(m, e);
    MInvBlock(m, x);
    UnaskedParts(d);
    var k := i - |d.asked|;
    assert Unasked(d)[k] == O.Requests(d.out.submitted)[i];
    UnaskedSpot(d, k);
    Elsewhere(m, e, x);
  }

  /** A block in one place is in no other. */
  lemma Elsewhere(m: M.State, e: M.Side, x: nat)
    requires M.BlockInv(m, x) && M.SpotOf(M.At(m, e), x).request + M.SpotOf(M.At(m, e), x).wire > 0
    ensures x !in m.cpu1.owned && x !in m.cpu2.owned
    ensures M.SpotOf(m.cpu1, x).handler == 0 && M.SpotOf(m.cpu2, x).handler == 0
  {
    hide M.OnStage, M.PlacedRight;
    assert M.SpotOf(m.cpu1, x).owned == Is(x in m.cpu1.owned) && M.SpotOf(m.cpu2, x).owned == Is(x in m.cpu2.owned);
    hide M.SpotOf;
  }

  // -------------------------------------------------------- steps: what has been filled in

  lemma SubmitAsks(m: M.State, a: M.Side, id: nat, blocking: bool, e: M.Side)
    requires M.Enabled(m, a, M.Submit(id, blocking))
    ensures var r := M.Do(m, a, M.Submit(id, blocking));
            && Asking(r, e) == Asking(m, e) + (if a == e then [O.Msg(id, false)] else [])
            && M.At(r, e).asked == M.At(m, e).asked
            && M.At(r, e).input == M.At(m, e).input && M.At(r, e).deferred == M.At(m, e).deferred
    ensures id in m.cpu1.owned || id in m.cpu2.owned
  {
    var o := M.At(m, a).out.submitted;
    assert (o + [O.Msg(id, false)])[..|o|] == o;
  }

  /** Only a response can be submitted by the protocol itself. */
  lemma ProtocolSubmits(m: M.State, a: M.Side, t: M.Step, e: M.Side)
    requires M.Enabled(m, a, t) && !t.Submit?
    ensures var o, o1 := M.At(m, e).out.submitted, M.At(M.Do(m, a, t), e).out.submitted;
            o1 == o || exists x :: o1 == o + [O.Msg(x, true)]
  {
  }

  lemma ProtocolAsks(m: M.State, a: M.Side, t: M.Step, e: M.Side)
    requires M.Enabled(m, a, t) && !t.Submit?
    ensures var r, d := M.Do(m, a, t), M.At(m, e);
            && Asking(r, e) == Asking(m, e)
            && M.At(r, e).asked ==
               d.asked + (if t.Receive? && e == M.Peer(a) && !m.blocks[d.wire[0]].response then [d.wire[0]] else [])
  {
    ProtocolSubmits(m, a, t, e);
    var o := M.At(m, e).out.submitted;
    forall x ensures O.Requests(o + [O.Msg(x, true)]) == O.Requests(o) {
      assert (o + [O.Msg(x, true)])[..|o|] == o;
    }
    hide O.Requests;
  }

  /** What a protocol step does to the handlers of CPU r. */
  lemma ProtocolHandlers(m: M.State, a: M.Side, t: M.Step, r: M.Side)
    requires M.Enabled(m, a, t) && !t.Submit?
    ensures var d, d1 := M.At(m, r), M.At(M.Do(m, a, t), r);
            if a != r then d1.input == d.input && d1.deferred == d.deferred
            else
              match t
              case Receive =>
                && d.input.Listening? && d1.deferred == d.deferred
                && var id := M.At(m, M.Peer(a)).wire[0];
                   d1.input == if m.blocks[id].response then d.input else M.Handling(id)
              case HandleNow(_) => d1.input == M.Listening && d1.deferred == d.deferred
              case Defer => d1.input == M.Listening && d1.deferred == d.deferred + [d.input.id]
              case GivebackDeferred(k, _) => d1.input == d.input && d1.deferred == Without(d.deferred, k)
              case _ => d1.input == d.input && d1.deferred == d.deferred
  {
  }

  lemma TagsSame(s: State, r: State, e: M.Side)
    requires TagsInv(s, e) && Asking(r.m, e) == Asking(s.m, e) && M.At(r.m, e).asked == M.At(s.m, e).asked
    requires At(r, e).tags == At(s, e).tags && At(r, M.Peer(e)).heard == At(s, M.Peer(e)).heard && r.cargo == s.cargo
    ensures TagsInv(r, e)
  {
    hide Asking;
  }

  lemma SubmittedState(s: State, a: M.Side, id: nat, blocking: bool, v: Content, e: M.Side)
    requires M.Enabled(s.m, a, M.Submit(id, blocking))
    ensures var z, h := Submitted(s, a, id, blocking, v), At(s, e);
            && z.m == M.Do(s.m, a, M.Submit(id, blocking)) && z.cargo == s.cargo[id := v]
            && At(z, e) == (if a == e then h.(tags := h.tags + [v]) else h)
  {
    hide M.Do, M.Enabled;
  }

  /** Filling a block that no unasked request is in, and submitting it when `own`. */
  lemma TagsFilled(s: State, z: State, e: M.Side, id: nat, v: Content, own: bool)
    requires TagsInv(s, e) && z.cargo == s.cargo[id := v]
    requires Asking(z.m, e) == Asking(s.m, e) + (if own then [O.Msg(id, false)] else [])
    requires M.At(z.m, e).asked == M.At(s.m, e).asked && At(z, M.Peer(e)).heard == At(s, M.Peer(e)).heard
    requires At(z, e).tags == At(s, e).tags + (if own then [v] else [])
    requires forall i | |M.At(s.m, e).asked| <= i < |Asking(s.m, e)| :: Asking(s.m, e)[i].id != id
    ensures TagsInv(z, e)
  {
    hide Asking, At, M.At;
  }

  lemma UnaskedNotOwned(m: M.State, e: M.Side, id: nat)
    requires M.Inv(m) && (id in m.cpu1.owned || id in m.cpu2.owned)
    ensures forall i | |M.At(m, e).asked| <= i < |Asking(m, e)| :: Asking(m, e)[i].id != id
  {
    hide M.Inv, Asking, M.At, M.SpotOf;
    forall i | |M.At(m, e).asked| <= i < |Asking(m, e)| ensures Asking(m, e)[i].id != id {
      UnaskedAway(m, e, i);
    }
  }

  /** Submitting fills a block that no unasked request is in. */
  lemma TagsSubmitted(s: State, a: M.Side, id: nat, blocking: bool, v: Content, e: M.Side)
    requires M.Inv(s.m) && TagsInv(s, e) && M.Enabled(s.m, a, M.Submit(id, blocking))
    ensures TagsInv(Submitted(s, a, id, blocking, v), e)
  {
    hide M.Inv, M.Enabled, M.Do, Asking, Submitted, TagsInv;
    SubmitAsks(s.m, a, id, blocking, e);
    UnaskedNotOwned(s.m, e, id);
    SubmittedState(s, a, id, blocking, v, e);
    SubmittedState(s, a, id, blocking, v, M.Peer(e));
    TagsFilled(s, Submitted(s, a, id, blocking, v), e, id, v, a == e);
  }

  lemma ProtocolState(s: State, a: M.Side, t: M.Step, e: M.Side)
    requires M.Enabled(s.m, a, t)
    ensures var z, h := DoProtocol(s, a, t), At(s, e);
            && z.m == M.Do(s.m, a, t) && z.cargo == s.cargo
            && At(z, e) ==
               if a != e then h
               else if Hears(s, a, t) then h.(heard := h.heard + [Cargo(s, M.At(s.m, M.Peer(a)).wire[0])])
               else if t.Defer? && Cargo(s, M.At(s.m, a).input.id).Some? then
                 h.(fifo := h.fifo + [M.At(s.m, a).input.id])
               else h
  {
    hide M.Do, Cargo;
  }

  /** The peer hears what was filled into the next request. */
  lemma TagsHeard(s: State, z: State, e: M.Side, id: nat)
    requires TagsInv(s, e) && z.cargo == s.cargo && Asking(z.m, e) == Asking(s.m, e) && At(z, e).tags == At(s, e).tags
    requires M.At(z.m, e).asked == M.At(s.m, e).asked + [id]
    requires At(z, M.Peer(e)).heard == At(s, M.Peer(e)).heard + [Cargo(s, id)]
    requires |M.At(z.m, e).asked| <= |Asking(z.m, e)|
    requires M.At(z.m, e).asked == M.Ids(Asking(z.m, e)[..|M.At(z.m, e).asked|])
    ensures TagsInv(z, e)
  {
    hide Asking, At, M.At;
    var reqs, n := Asking(s.m, e), |M.At(s.m, e).asked|;
    assert M.At(z.m, e).asked[n] == id && M.Ids(reqs[..n + 1])[n] == reqs[n].id;
    assert At(s, e).tags[..n + 1] == At(s, e).tags[..n] + [At(s, e).tags[n]];
  }

  lemma AskedParts(m: M.State, e: M.Side)
    requires M.Inv(m)
    ensures |M.At(m, e).asked| <= |Asking(m, e)|
    ensures M.At(m, e).asked == M.Ids(Asking(m, e)[..|M.At(m, e).asked|])
  {
    MInvParts(m, e);
    UnaskedParts(M.At(m, e));
    hide M.Inv, O.Inv, InOrder, Unasked, O.Requests;
  }

  /** The request received is the next one, and its block holds what was filled in. */
  lemma TagsProtocol(s: State, a: M.Side, t: M.Step, e: M.Side)
    requires M.Enabled(s.m, a, t) && !t.Submit? && TagsInv(s, e) && M.Inv(M.Do(s.m, a, t))
    ensures TagsInv(DoProtocol(s, a, t), e)
  {
    hide M.Inv, M.Do, Asking, DoProtocol, TagsInv, M.Ids;
    var z := DoProtocol(s, a, t);
    ProtocolAsks(s.m, a, t, e);
    AskedParts(M.Do(s.m, a, t), e);
    ProtocolState(s, a, t, e);
    ProtocolState(s, a, t, M.Peer(e));
    if Hears(s, a, t) && e == M.Peer(a) {
      TagsHeard(s, z, e, M.At(s.m, e).wire[0]);
    } else {
      TagsSame(s, z, e);
    }
  }

  // ------------------------------------------------------------ steps: what waits with the peer

  lemma QueueSame(s: State, z: State, r: M.Side)
    requires QueueInv(s, r) && z.cargo == s.cargo
    requires M.At(z.m, r).input == M.At(s.m, r).input && M.At(z.m, r).deferred == M.At(s.m, r).deferred
    requires At(z, r).heard == At(s, r).heard && At(z, r).handled == At(s, r).handled
    requires At(z, r).fifo == At(s, r).fifo && At(z, r).thread == At(s, r).thread
    ensures QueueInv(z, r)
  {
    assert Waiting(z, r) == Waiting(s, r);
    assert Held(z, Waiting(z, r)) == Held(s, Waiting(s, r));
  }

  lemma HandlerElsewhere(m: M.State, r: M.Side, x: nat)
    requires M.Inv(m) && (Count(M.At(m, r).deferred, x) > 0 || M.At(m, r).input == M.Handling(x))
    ensures x !in m.cpu1.owned && x !in m.cpu2.owned
    ensures Count(M.At(m, r).deferred, x) <= 1
  {
    MInvBlock(m, x);
    hide M.Inv, M.OnStage, M.PlacedRight;
  }

  /** No waiting block is with a client. */
  lemma WaitingAway(s: State, r: M.Side, i: nat)
    requires M.Inv(s.m) && QueueInv(s, r) && i < |Waiting(s, r)|
    ensures Waiting(s, r)[i] !in s.m.cpu1.owned && Waiting(s, r)[i] !in s.m.cpu2.owned
  {
    hide M.Inv, Serial, Held, Cargo, At, M.At;
    var h, d, x := At(s, r), M.At(s.m, r), Waiting(s, r)[i];
    assert Count(h.fifo, x) + WithThread(h, x) <= Count(d.deferred, x);
    if x in h.fifo {
      CountIn(h.fifo, x);
    }
    HandlerElsewhere(s.m, r, x);
  }

  /** Filling a block that is with its client. */
  lemma QueueFilled(s: State, z: State, r: M.Side, id: nat, v: Content)
    requires M.Inv(s.m) && QueueInv(s, r) && (id in s.m.cpu1.owned || id in s.m.cpu2.owned)
    requires z.cargo == s.cargo[id := v]
    requires M.At(z.m, r).input == M.At(s.m, r).input && M.At(z.m, r).deferred == M.At(s.m, r).deferred
    requires At(z, r).heard == At(s, r).heard && At(z, r).handled == At(s, r).handled
    requires At(z, r).fifo == At(s, r).fifo && At(z, r).thread == At(s, r).thread
    ensures QueueInv(z, r)
  {
    var w := Waiting(s, r);
    assert Waiting(z, r) == w && Held(z, w) == Held(s, w) by {
      hide M.Inv, QueueInv;
      forall i | 0 <= i < |w| ensures w[i] != id {
        WaitingAway(s, r, i);
      }
    }
    hide Waiting, M.Inv, Held, Serial;
    FilledKeeps(s, z, r, id);
  }

  /** The rest of the invariant, for a block that is with its client. */
  lemma FilledKeeps(s: State, z: State, r: M.Side, id: nat)
    requires M.Inv(s.m) && QueueInv(s, r) && (id in s.m.cpu1.owned || id in s.m.cpu2.owned)
    requires forall x | x != id :: Cargo(z, x) == Cargo(s, x)
    requires At(z, r).fifo == At(s, r).fifo && At(z, r).thread == At(s, r).thread
    ensures forall i | 0 <= i < |At(z, r).fifo| :: Cargo(z, At(z, r).fifo[i]).Some?
    ensures At(z, r).thread != Idle ==> Cargo(z, At(z, r).thread.id).Some?
  {
    hide M.Inv, Waiting, Held, Serial, Cargo;
    var h, d := At(s, r), M.At(s.m, r);
    assert Count(h.fifo, id) + WithThread(h, id) <= Count(d.deferred, id);
    if Count(d.deferred, id) > 0 {
      HandlerElsewhere(s.m, r, id);
    }
    forall i | 0 <= i < |h.fifo| ensures h.fifo[i] != id {
      if h.fifo[i] == id {
        CountPositive(h.fifo, i);
      }
    }
  }

  lemma QueueSubmitted(s: State, a: M.Side, id: nat, blocking: bool, v: Content, r: M.Side)
    requires M.Inv(s.m) && QueueInv(s, r) && M.Enabled(s.m, a, M.Submit(id, blocking))
    ensures QueueInv(Submitted(s, a, id, blocking, v), r)
  {
    hide M.Do, M.Inv, M.Enabled, Asking, Submitted, QueueInv;
    SubmitAsks(s.m, a, id, blocking, r);
    SubmittedState(s, a, id, blocking, v, r);
    QueueFilled(s, Submitted(s, a, id, blocking, v), r, id, v);
  }

  lemma HeldMore(s: State, ids: seq<nat>, x: nat)
    ensures Serial(Held(s, ids + [x])) == Serial(Held(s, ids)) + (if Cargo(s, x).Some? then [Cargo(s, x).value] else [])
  {
    SerialMore(Held(s, ids), Cargo(s, x));
    assert Held(s, ids + [x]) == Held(s, ids) + [Cargo(s, x)];
  }

  lemma HeldFirst(s: State, x: nat, ids: seq<nat>)
    ensures Serial(Held(s, [x] + ids)) == (if Cargo(s, x).Some? then [Cargo(s, x).value] else []) + Serial(Held(s, ids))
  {
    SerialAppend([Cargo(s, x)], Held(s, ids));
    SerialMore([], Cargo(s, x));
    assert Held(s, [x] + ids) == [Cargo(s, x)] + Held(s, ids) && [] + [Cargo(s, x)] == [Cargo(s, x)];
  }

  lemma {:induction false} Absent<T>(q: seq<T>, x: T)
    requires x !in q
    ensures Count(q, x) == 0
  {
    if q != [] {
      Absent(q[1..], x);
    }
  }

  lemma HeldSame(s: State, z: State, ids: seq<nat>)
    requires z.cargo == s.cargo
    ensures Held(z, ids) == Held(s, ids)
  {
  }

  /** Every serial request received waits. */
  lemma QueueHeard(s: State, z: State, r: M.Side, id: nat)
    requires QueueInv(s, r) && z.cargo == s.cargo && At(z, r) == At(s, r).(heard := At(s, r).heard + [Cargo(s, id)])
    requires M.At(s.m, r).input.Listening? && M.At(z.m, r).input == M.Handling(id)
    requires M.At(z.m, r).deferred == M.At(s.m, r).deferred
    ensures QueueInv(z, r)
  {
    hide Serial, Held, M.At, At;
    var w := Waiting(s, r);
    assert Waiting(z, r) == w + [id];
    HeldSame(s, z, w + [id]);
    HeldAndHeard(s, At(s, r).heard, At(s, r).handled, w, id);
    hide Waiting;
  }

  lemma HeldAndHeard(s: State, heard: seq<Content>, handled: seq<B.Request>, w: seq<nat>, id: nat)
    requires Serial(heard) == handled + Serial(Held(s, w))
    ensures Serial(heard + [Cargo(s, id)]) == handled + Serial(Held(s, w + [id]))
  {
    hide Serial, Held, Cargo;
    HeldMore(s, w, id);
    SerialMore(heard, Cargo(s, id));
    Assoc(handled, Serial(Held(s, w)), if Cargo(s, id).Some? then [Cargo(s, id).value] else []);
  }

  /** A serial request goes from the input thread to the end of the FIFO. */
  lemma QueueDeferred(s: State, z: State, r: M.Side, id: nat)
    requires QueueInv(s, r) && z.cargo == s.cargo && At(z, r) == At(s, r).(fifo := At(s, r).fifo + [id])
    requires M.At(s.m, r).input == M.Handling(id) && Cargo(s, id).Some? && M.At(z.m, r).input.Listening?
    requires M.At(z.m, r).deferred == M.At(s.m, r).deferred + [id]
    ensures QueueInv(z, r)
  {
    var h, d := At(s, r), M.At(s.m, r).deferred;
    assert Waiting(z, r) == Waiting(s, r);
    hide Serial, Held, Waiting, M.At;
    HeldSame(s, z, Waiting(s, r));
    forall x: nat ensures Count(At(z, r).fifo, x) + WithThread(At(z, r), x) <= Count(d + [id], x) {
      assert Count(h.fifo, x) + WithThread(h, x) <= Count(d, x);
      CountAdd(h.fifo, id, x);
      CountAdd(d, id, x);
    }
  }

  /** A request of another kind leaves the input thread, answered or deferred. */
  lemma QueueOther(s: State, z: State, r: M.Side, id: nat)
    requires QueueInv(s, r) && z.cargo == s.cargo && At(z, r) == At(s, r)
    requires M.At(s.m, r).input == M.Handling(id) && Cargo(s, id).None? && M.At(z.m, r).input.Listening?
    requires M.At(z.m, r).deferred == M.At(s.m, r).deferred || M.At(z.m, r).deferred == M.At(s.m, r).deferred + [id]
    ensures QueueInv(z, r)
  {
    var h, d := At(s, r), M.At(s.m, r).deferred;
    var w := Waiting(z, r);
    assert Waiting(s, r) == w + [id];
    hide Serial, Held, Waiting, M.At;
    HeldSame(s, z, w);
    HeldMore(s, w, id);
    forall x: nat ensures Count(h.fifo, x) + WithThread(h, x) <= Count(M.At(z.m, r).deferred, x) {
      assert Count(h.fifo, x) + WithThread(h, x) <= Count(d, x);
      CountAdd(d, id, x);
    }
  }

  /** A deferred request of another kind is given back. */
  lemma QueueGivenBack(s: State, z: State, r: M.Side, k: nat)
    requires QueueInv(s, r) && z.cargo == s.cargo && At(z, r) == At(s, r)
    requires M.At(z.m, r).input == M.At(s.m, r).input
    requires k < |M.At(s.m, r).deferred| && Cargo(s, M.At(s.m, r).deferred[k]).None?
    requires M.At(z.m, r).deferred == Without(M.At(s.m, r).deferred, k)
    ensures QueueInv(z, r)
  {
    var h, d := At(s, r), M.At(s.m, r).deferred;
    assert Waiting(z, r) == Waiting(s, r);
    hide Serial, Held, Waiting, M.At, Cargo;
    HeldSame(s, z, Waiting(s, r));
    Absent(h.fifo, d[k]);
    forall x: nat ensures Count(h.fifo, x) + WithThread(h, x) <= Count(Without(d, k), x) {
      assert Count(h.fifo, x) + WithThread(h, x) <= Count(d, x);
      CountWithout(d, k, x);
    }
  }

  /** The dispatch thread gives the block it has handled back. */
  lemma QueueAnswered(s: State, z: State, r: M.Side, k: nat)
    requires QueueInv(s, r) && z.cargo == s.cargo && At(z, r) == At(s, r).(thread := Idle)
    requires M.At(z.m, r).input == M.At(s.m, r).input
    requires k < |M.At(s.m, r).deferred| && At(s, r).thread == Done(M.At(s.m, r).deferred[k])
    requires M.At(z.m, r).deferred == Without(M.At(s.m, r).deferred, k)
    ensures QueueInv(z, r)
  {
    var h, d := At(s, r), M.At(s.m, r).deferred;
    assert Waiting(z, r) == Waiting(s, r);
    hide Serial, Held, Waiting, M.At, Cargo;
    HeldSame(s, z, Waiting(s, r));
    forall x: nat ensures Count(h.fifo, x) <= Count(Without(d, k), x) {
      assert Count(h.fifo, x) + WithThread(h, x) <= Count(d, x);
      CountWithout(d, k, x);
    }
  }

  lemma QueueTaken(s: State, z: State, r: M.Side)
    requires QueueInv(s, r) && z.cargo == s.cargo && z.m == s.m && At(s, r).thread == Idle && At(s, r).fifo != []
    requires At(z, r) == At(s, r).(thread := Took(At(s, r).fifo[0]), fifo := At(s, r).fifo[1..])
    ensures QueueInv(z, r)
  {
    var h, d := At(s, r), M.At(s.m, r).deferred;
    assert Waiting(z, r) == Waiting(s, r);
    hide Serial, Held, Waiting, M.At, Cargo;
    HeldSame(s, z, Waiting(s, r));
    forall x: nat ensures Count(At(z, r).fifo, x) + WithThread(At(z, r), x) <= Count(d, x) {
      assert Count(h.fifo, x) + WithThread(h, x) <= Count(d, x);
      assert h.fifo == [h.fifo[0]] + h.fifo[1..];
      CountAdd(h.fifo[1..], h.fifo[0], x);
    }
  }

  /** What the dispatch thread reads is the oldest serial request not handled yet. */
  lemma QueueHandled(s: State, z: State, r: M.Side, id: nat)
    requires QueueInv(s, r) && z.cargo == s.cargo && z.m == s.m && At(s, r).thread == Took(id) && Cargo(s, id).Some?
    requires At(z, r).thread == Done(id) && At(z, r).handled == At(s, r).handled + [Cargo(s, id).value]
    requires At(z, r).fifo == At(s, r).fifo && At(z, r).heard == At(s, r).heard
    ensures QueueInv(z, r)
  {
    var h, d, w := At(s, r), M.At(s.m, r).deferred, Waiting(z, r);
    assert Waiting(s, r) == [id] + w;
    hide Serial, Held, Waiting, M.At, Cargo;
    HeldSame(s, z, w);
    HeldFirst(s, id, w);
    Assoc(h.handled, [Cargo(s, id).value], Serial(Held(s, w)));
    forall x: nat ensures Count(h.fifo, x) + WithThread(At(z, r), x) <= Count(d, x) {
      assert Count(h.fifo, x) + WithThread(h, x) <= Count(d, x);
    }
  }

  lemma QueueProtocol(s: State, a: M.Side, t: M.Step, r: M.Side)
    requires QueueInv(s, r) && Enabled(s, a, Protocol(t))
    ensures QueueInv(DoProtocol(s, a, t), r)
  {
    hide M.Do, QueueInv, DoProtocol, Cargo;
    var z := DoProtocol(s, a, t);
    ProtocolHandlers(s.m, a, t, r);
    ProtocolState(s, a, t, r);
    if a != r {
      QueueSame(s, z, r);
    } else {
      var d := M.At(s.m, r);
      match t
      case Receive =>
        if Hears(s, a, t) {
          QueueHeard(s, z, r, M.At(s.m, M.Peer(a)).wire[0]);
        } else {
          QueueSame(s, z, r);
        }
      case HandleNow(_) => QueueOther(s, z, r, d.input.id);
      case Defer =>
        if Cargo(s, d.input.id).Some? {
          QueueDeferred(s, z, r, d.input.id);
        } else {
          QueueOther(s, z, r, d.input.id);
        }
      case GivebackDeferred(k, _) => QueueGivenBack(s, z, r, k);
      case _ => QueueSame(s, z, r);
    }
  }

  // --------------------------------------------------------------- steps: one CPU's serial side

  /** A block with nothing the senders account for. */
  lemma HalfFilled(h: Half, v: Content)
    requires HalfInv(h) && (v.Some? ==> v.value.subcmd != B.MBSERIAL_CMD_DATA_TRANSFER)
    ensures HalfInv(h.(tags := h.tags + [v]))
  {
    hide B.Inv, Serial, PortInv, B.DataPackets;
    var z := h.(tags := h.tags + [v]);
    SerialMore(h.tags, v);
    if v.Some? {
      B.DataPacketsAppend(Serial(h.tags), [v.value]);
      B.DataPacketsOne(v.value);
      assert B.DataPackets(Serial(h.tags)) + [] == h.send.wire;
    } else {
      assert Serial(h.tags) + [] == Serial(h.tags);
    }
    assert B.DataPackets(Serial(z.tags)) == h.send.wire;
    forall l: nat | l < B.MAX_MBSERIAL_NUM ensures PortInv(z, l) {
      assert PortInv(h, l);
      LineKept(h, l);
      PortSame(h, z, l);
    }
  }

  /** A change that leaves the port and what is handled alone. */
  lemma PortSame(h: Half, z: Half, l: nat)
    requires PortInv(h, l) && z.ports == h.ports && z.handled == h.handled && z.since == h.since
    requires |z.send.lines| == |h.send.lines| && z.send.lines[l].up == h.send.lines[l].up
    ensures PortInv(z, l)
  {
    hide B.Serves, B.Told;
  }

  lemma HalfSent(h: Half, line: nat)
    requires HalfInv(h) && B.Enabled(h.send, B.Fragment(line))
    ensures var p := B.NextPacket(h.send, line);
            HalfInv(h.(tags := h.tags + [Some(B.Request(B.MBSERIAL_CMD_DATA_TRANSFER, line, p.payload))],
                       send := B.Do(h.send, B.Fragment(line))))
  {
    var r := B.Request(B.MBSERIAL_CMD_DATA_TRANSFER, line, B.NextPacket(h.send, line).payload);
    var z := h.(tags := h.tags + [Some(r)], send := B.Do(h.send, B.Fragment(line)));
    B.StepInv(h.send, B.Fragment(line));
    B.FragmentState(h.send, line);
    SerialMore(h.tags, Some(r));
    B.DataPacketsAppend(Serial(h.tags), [r]);
    B.DataPacketsOne(r);
    hide B.Inv, B.DataPackets, Serial, PortInv, B.Do;
    forall l: nat | l < B.MAX_MBSERIAL_NUM ensures PortInv(z, l) {
      assert PortInv(h, l);
      LineKept(h, l);
      PortSame(h, z, l);
    }
  }

  lemma LineKept(h: Half, l: nat)
    requires PortInv(h, l)
    ensures l < |h.send.lines|
  {
    hide B.Serves, B.Told;
  }

  lemma SenderState(send: B.State, u: B.Step, l: nat)
    requires B.Enabled(send, u) && !u.Fragment? && !u.Status? && l < |send.lines|
    ensures var z := B.Do(send, u);
            z.wire == send.wire && |z.lines| == |send.lines| && z.lines[l].up == send.lines[l].up
  {
  }

  lemma HalfSender(h: Half, u: B.Step)
    requires HalfInv(h) && B.Enabled(h.send, u) && !u.Fragment? && !u.Status?
    ensures HalfInv(h.(send := B.Do(h.send, u)))
  {
    var z := h.(send := B.Do(h.send, u));
    B.StepInv(h.send, u);
    hide B.Inv, B.DataPackets, Serial, PortInv, B.Do, B.Enabled;
    forall l: nat | l < B.MAX_MBSERIAL_NUM ensures PortInv(z, l) && z.send.wire == h.send.wire {
      assert PortInv(h, l);
      LineKept(h, l);
      SenderState(h.send, u, l);
      PortSame(h, z, l);
    }
    assert PortInv(z, 0);
  }

  lemma HalfOpened(h: Half, line: nat)
    requires HalfInv(h) && line < |h.ports|
    ensures HalfInv(DoOpen(h, line))
  {
    var z := DoOpen(h, line);
    hide B.Inv, B.DataPackets, Serial;
    forall l: nat | l < B.MAX_MBSERIAL_NUM ensures PortInv(z, l) {
      assert PortInv(h, l);
      if l == line && h.ports[l].None? {
        NewServes(l);
        assert h.handled[|h.handled|..] == [];
      }
    }
  }

  lemma NewServes(l: nat)
    ensures B.Serves(NewPort, Some(NewPort), [], l) && !B.UpBit(NewPort.status)
    ensures B.Told(NewPort, Some(NewPort), [], l)
  {
    B.ToldNothing(NewPort, l);
    hide B.Told;
    assert B.DataPackets([]) == [] && B.Stream(l, []) == [] && B.DataOf([]) == [];
    assert NewPort.status & 1 == 0;
  }

  lemma StatusState(send: B.State, ports: seq<Option<B.PeerPort>>, line: nat)
    requires B.Inv(send) && |ports| == |send.lines|
    ensures var z := WithStatus(send, ports, line);
            && B.Inv(z) && z.wire == send.wire && |z.lines| == |send.lines|
            && forall l | 0 <= l < |z.lines| ::
                 z.lines[l].up ==
                   if l == line && ports[l].Some? then B.UpBit(ports[l].value.status) else send.lines[l].up
  {
    hide B.Inv, B.UpBit;
    if line < |ports| && ports[line].Some? {
      B.StepInv(send, B.Status(line, B.UpBit(ports[line].value.status)));
    }
  }

  lemma HalfHandled(h: Half, r: B.Request)
    requires HalfInv(h) && h.thread.Took?
    ensures HalfInv(DoHandle(h, r))
  {
    var z := DoHandle(h, r);
    assert |z.ports| == |h.ports|;
    assert |h.send.lines| == |h.ports|;
    StatusState(h.send, z.ports, r.line);
    hide B.Inv, B.DataPackets, Serial, PortInv, B.Handled, WithStatus, B.UpBit;
    forall l: nat | l < B.MAX_MBSERIAL_NUM ensures PortInv(z, l) {
      assert PortInv(h, l);
      PortHandled(h, z, r, l);
    }
  }

  lemma PortHandled(h: Half, z: Half, r: B.Request, l: nat)
    requires PortInv(h, l) && z.ports == B.Handled(h.ports, r) && z.handled == h.handled + [r] && z.since == h.since
    requires |z.ports| == |h.ports| == |z.send.lines| == |h.send.lines|
    requires z.send.lines[l].up ==
             if l == r.line && z.ports[l].Some? then B.UpBit(z.ports[l].value.status) else h.send.lines[l].up
    ensures PortInv(z, l)
  {
    hide B.Serves, B.UpBit, B.Served, B.Told;
    if h.ports[l].Some? {
      var n := h.since[l];
      B.HandledAt(h.ports, r, l);
      B.ToldMore(NewPort, h.ports[l].value, h.handled[n..], r, l);
      B.HandledOne(h.ports, r, l);
      B.ServesThen(NewPort, h.ports[l].value, z.ports[l], h.handled[n..], r, l);
      assert h.handled[n..] + [r] == z.handled[n..];
      StillOpen(h.ports, r, l);
    }
  }

  lemma StillOpen(ports: seq<Option<B.PeerPort>>, r: B.Request, l: nat)
    requires l < |ports| && ports[l].Some?
    ensures |B.Handled(ports, r)| == |ports| && B.Handled(ports, r)[l].Some?
    ensures l != r.line ==> B.Handled(ports, r)[l] == ports[l]
  {
    hide B.Served;
  }

  lemma HalfSame(h: Half, z: Half)
    requires HalfInv(h) && z.send == h.send && z.tags == h.tags && z.ports == h.ports
    requires z.handled == h.handled && z.since == h.since
    ensures HalfInv(z)
  {
    hide B.Inv, B.DataPackets, Serial, PortInv;
    forall l: nat | l < B.MAX_MBSERIAL_NUM ensures PortInv(z, l) {
      assert PortInv(h, l);
      LineKept(h, l);
      PortSame(h, z, l);
    }
  }

  // ------------------------------------------------------------------------- whole runs

  lemma StepProtocolInv(s: State, a: M.Side, t: Step)
    requires M.Inv(s.m) && Enabled(s, a, t)
    ensures M.Inv(Do(s, a, t).m)
  {
    hide M.Inv, M.Do, M.Enabled, B.Do, B.Enabled, DoHandle, DoOpen;
    match t
    case Fill(id, blocking, v) =>
      M.StepInv(s.m, a, M.Submit(id, blocking));
    case Send(line, id) =>
      M.StepInv(s.m, a, M.Submit(id, false));
    case Protocol(u) =>
      M.StepInv(s.m, a, u);
      ProtocolState(s, a, u, a);
    case Answer(k, status) =>
      M.StepInv(s.m, a, M.GivebackDeferred(k, status));
    case _ =>
  }

  function Sent(h: Half, line: nat): Content
    requires B.Enabled(h.send, B.Fragment(line))
  {
    Some(B.Request(B.MBSERIAL_CMD_DATA_TRANSFER, line, B.NextPacket(h.send, line).payload))
  }

  /** What a step other than a step of micproto.c does to the half of CPU e. */
  function HalfAfter(h: Half, c: Content, t: Step): Half {
    match t
    case Fill(_, _, v) => h.(tags := h.tags + [v])
    case Send(line, _) =>
      if B.Enabled(h.send, B.Fragment(line)) then
        h.(tags := h.tags + [Sent(h, line)], send := B.Do(h.send, B.Fragment(line)))
      else h
    case Sender(u) => if B.Enabled(h.send, u) then h.(send := B.Do(h.send, u)) else h
    case Open(line) => if line < |h.ports| then DoOpen(h, line) else h
    case Protocol(_) => h
    case Take => if h.fifo != [] then h.(thread := Took(h.fifo[0]), fifo := h.fifo[1..]) else h
    case Handle => if h.thread.Took? && c.Some? then DoHandle(h, c.value) else h
    case Answer(_, _) => h.(thread := Idle)
  }

  lemma StepState(s: State, a: M.Side, t: Step, e: M.Side)
    requires Enabled(s, a, t) && !t.Protocol?
    ensures var z, h := Do(s, a, t), At(s, a);
            && At(z, e) ==
               (if a == e then HalfAfter(h, if h.thread.Took? then Cargo(s, h.thread.id) else None, t) else At(s, e))
            && (t.Fill? || t.Send? || z.cargo == s.cargo)
            && z.m == match t
                      case Fill(id, blocking, _) => M.Do(s.m, a, M.Submit(id, blocking))
                      case Send(_, id) => M.Do(s.m, a, M.Submit(id, false))
                      case Answer(k, status) => M.Do(s.m, a, M.GivebackDeferred(k, status))
                      case _ => s.m
  {
    hide M.Do, M.Enabled, B.Do, B.Enabled, DoHandle, DoOpen, Cargo;
  }

  lemma StepTags(s: State, a: M.Side, t: Step, e: M.Side)
    requires M.Inv(s.m) && TagsInv(s, e) && Enabled(s, a, t)
    ensures TagsInv(Do(s, a, t), e)
  {
    hide M.Inv, M.Do, M.Enabled, B.Do, B.Enabled, DoHandle, DoOpen, TagsInv, Asking;
    match t
    case Fill(id, blocking, v) =>
      TagsSubmitted(s, a, id, blocking, v, e);
    case Send(line, id) =>
      var r := Submitted(s, a, id, false, Sent(At(s, a), line));
      TagsSubmitted(s, a, id, false, Sent(At(s, a), line), e);
      TagsSame(r, Do(s, a, t), e);
    case Protocol(u) =>
      M.StepInv(s.m, a, u);
      TagsProtocol(s, a, u, e);
    case Answer(k, status) =>
      ProtocolAsks(s.m, a, M.GivebackDeferred(k, status), e);
      StepState(s, a, t, e);
      StepState(s, a, t, M.Peer(e));
      TagsSame(s, Do(s, a, t), e);
    case _ =>
      StepState(s, a, t, e);
      StepState(s, a, t, M.Peer(e));
      HalfKeeps(s, a, t);
      TagsSame(s, Do(s, a, t), e);
  }

  /** Steps inside one half fill nothing in and hear nothing. */
  lemma HalfKeeps(s: State, a: M.Side, t: Step)
    requires Enabled(s, a, t) && (t.Sender? || t.Open? || t.Take? || t.Handle? || t.Answer?)
    ensures At(Do(s, a, t), a).tags == At(s, a).tags && At(Do(s, a, t), a).heard == At(s, a).heard
  {
    hide M.Do, M.Enabled, B.Do, B.Enabled, WithStatus, B.Handled;
  }

  lemma AnswerPlace(s: State, a: M.Side, k: nat, status: int)
    requires Enabled(s, a, Answer(k, status))
    ensures k < |M.At(s.m, a).deferred| && At(s, a).thread == Done(M.At(s.m, a).deferred[k])
  {
  }

  lemma StepQueue(s: State, a: M.Side, t: Step, r: M.Side)
    requires M.Inv(s.m) && QueueInv(s, r) && Enabled(s, a, t)
    ensures QueueInv(Do(s, a, t), r)
  {
    hide M.Inv, M.Do, M.Enabled, B.Do, B.Enabled, WithStatus, B.Handled, QueueInv;
    var z := Do(s, a, t);
    match t
    case Fill(id, blocking, v) =>
      QueueSubmitted(s, a, id, blocking, v, r);
    case Send(line, id) =>
      QueueSubmitted(s, a, id, false, Sent(At(s, a), line), r);
      QueueSame(Submitted(s, a, id, false, Sent(At(s, a), line)), z, r);
    case Protocol(u) =>
      QueueProtocol(s, a, u, r);
    case Take =>
      if a == r { QueueTaken(s, z, r); } else { QueueSame(s, z, r); }
    case Handle =>
      if a == r { QueueHandled(s, z, r, At(s, r).thread.id); } else { QueueSame(s, z, r); }
    case Answer(k, status) =>
      ProtocolHandlers(s.m, a, M.GivebackDeferred(k, status), r);
      StepState(s, a, t, r);
      AnswerPlace(s, a, k, status);
      if a == r { QueueAnswered(s, z, r, k); } else { QueueSame(s, z, r); }
    case _ =>
      QueueSame(s, z, r);
  }

  lemma StepHalf(s: State, a: M.Side, t: Step, e: M.Side)
    requires HalfInv(At(s, e)) && Enabled(s, a, t)
    ensures HalfInv(At(Do(s, a, t), e))
  {
    hide M.Do, M.Enabled, B.Do, HalfInv, DoHandle, DoOpen, Cargo;
    if t.Protocol? {
      ProtocolState(s, a, t.t, e);
      HalfSame(At(s, e), At(Do(s, a, t), e));
    } else {
      StepState(s, a, t, e);
      var h := At(s, a);
      if a == e {
        match t
        case Fill(_, _, v) => HalfFilled(h, v);
        case Send(line, _) => HalfSent(h, line);
        case Sender(u) => HalfSender(h, u);
        case Open(line) => HalfOpened(h, line);
        case Handle => HalfHandled(h, Cargo(s, h.thread.id).value);
        case Take => HalfSame(h, At(Do(s, a, t), e));
        case Answer(_, _) => HalfSame(h, At(Do(s, a, t), e));
        case Protocol(_) =>
      }
    }
  }

  /** Every step of either CPU keeps the blocks unread until they have been read. */
  lemma {:induction false} StepInv(s: State, a: M.Side, t: Step)
    requires Inv(s) && Enabled(s, a, t)
    ensures Inv(Do(s, a, t))
  {
    hide M.Inv, TagsInv, QueueInv, HalfInv, Do, Enabled;
    StepProtocolInv(s, a, t);
    StepTags(s, a, t, M.Cpu1);
    StepTags(s, a, t, M.Cpu2);
    StepQueue(s, a, t, M.Cpu1);
    StepQueue(s, a, t, M.Cpu2);
    StepHalf(s, a, t, M.Cpu1);
    StepHalf(s, a, t, M.Cpu2);
  }

  function FreshHalf(): Half {
    Half(B.Init(), [], Idle, seq(B.MAX_MBSERIAL_NUM, i => None), [], [], [], map[])
  }

  /** After initialisation: no port is open, and the blocks are with the clients. */
  function Init(owners: map<nat, M.Side>): State {
    State(M.Init(owners), map[], FreshHalf(), FreshHalf())
  }

  function After(owners: map<nat, M.Side>, ts: seq<(M.Side, Step)>): (r: Option<State>) {
    if ts == [] then Some(Init(owners))
    else
      match After(owners, ts[..|ts| - 1])
      case None => None
      case Some(s) =>
        var (a, t) := ts[|ts| - 1];
        if Enabled(s, a, t) then Some(Do(s, a, t)) else None
  }

  lemma FreshHalfInv()
    ensures HalfInv(FreshHalf())
  {
    B.RunInv([]);
    assert B.DataPackets(Serial([])) == [];
  }

  lemma InitInv(owners: map<nat, M.Side>)
    ensures Inv(Init(owners))
  {
    var s := Init(owners);
    M.InitInv(owners);
    FreshHalfInv();
    hide M.Inv, HalfInv;
    assert Asking(s.m, M.Cpu1) == [] && Asking(s.m, M.Cpu2) == [];
    assert Held(s, []) == [];
  }

  lemma {:induction false} RunInv(owners: map<nat, M.Side>, ts: seq<(M.Side, Step)>)
    requires After(owners, ts).Some?
    ensures Inv(After(owners, ts).value)
  {
    hide Inv, Enabled, Do, Init;
    if ts == [] {
      InitInv(owners);
    } else {
      var n := |ts| - 1;
      RunInv(owners, ts[..n]);
      StepInv(After(owners, ts[..n]).value, ts[n].0, ts[n].1);
    }
  }

  /** In every run: what the peer has received from CPU e is what was in its request blocks
      when they were submitted, in that order; the blocks the peer has yet to receive still
      hold what was filled in; and what it has read out for its serial ports, followed by what
      the blocks waiting there hold, is all the serial requests it has received. */
  lemma {:induction false} HeardInOrder(owners: map<nat, M.Side>, ts: seq<(M.Side, Step)>, e: M.Side)
    requires After(owners, ts).Some?
    ensures var s := After(owners, ts).value;
            var r, reqs, tags, n := M.Peer(e), Asking(s.m, e), At(s, e).tags, |M.At(s.m, e).asked|;
            && |tags| == |reqs| && n <= |reqs| && At(s, r).heard == tags[..n] && Held(s, M.Ids(reqs[n..])) == tags[n..]
            && At(s, r).handled + Serial(Held(s, Waiting(s, r))) == Serial(At(s, r).heard)
  {
    hide M.Inv, HalfInv, Serial, Waiting, Asking, After;
    RunInv(owners, ts);
  }

  /** In every run a client can submit only blocks that nobody has yet to read: neither the
      peer, for a request on its way, nor any handler, nor a dispatch thread. */
  lemma {:induction false} FilledAtHome(owners: map<nat, M.Side>, ts: seq<(M.Side, Step)>, a: M.Side, id: nat,
                                        blocking: bool, e: M.Side)
    requires After(owners, ts).Some? && M.Enabled(After(owners, ts).value.m, a, M.Submit(id, blocking))
    ensures var s := After(owners, ts).value;
            && id !in Waiting(s, e) && id !in M.At(s.m, e).deferred && M.At(s.m, e).input != M.Handling(id)
            && forall i | |M.At(s.m, e).asked| <= i < |Asking(s.m, e)| :: Asking(s.m, e)[i].id != id
  {
    hide M.Inv, HalfInv, Waiting, Asking, After, TagsInv, QueueInv, Count, M.EndInv, M.BlockInv;
    var s := After(owners, ts).value;
    RunInv(owners, ts);
    UnaskedNotOwned(s.m, e, id);
    if id in M.At(s.m, e).deferred {
      CountIn(M.At(s.m, e).deferred, id);
    }
    if id in M.At(s.m, e).deferred || M.At(s.m, e).input == M.Handling(id) {
      HandlerElsewhere(s.m, e, id);
    }
    forall i | 0 <= i < |Waiting(s, e)| ensures Waiting(s, e)[i] != id {
      WaitingAway(s, e, i);
    }
  }

  /** The serial stream of one line in some blocks' contents. */
  function StreamIn(c: seq<Content>, line: nat): seq<Byte> {
    B.Stream(line, B.DataPackets(Serial(c)))
  }

  /** The serial stream of one line in what the blocks of some messages hold now. */
  function Carried(s: State, ms: seq<O.Msg>, line: nat): seq<Byte> {
    StreamIn(Held(s, M.Ids(ms)), line)
  }

  lemma StreamInAppend(a: seq<Content>, b: seq<Content>, line: nat)
    ensures StreamIn(a + b, line) == StreamIn(a, line) + StreamIn(b, line)
  {
    SerialAppend(a, b);
    B.DataPacketsAppend(Serial(a), Serial(b));
    B.StreamAppend(line, B.DataPackets(Serial(a)), B.DataPackets(Serial(b)));
  }

  lemma CarriedAppend(s: State, a: seq<O.Msg>, b: seq<O.Msg>, line: nat)
    ensures Carried(s, a + b, line) == Carried(s, a, line) + Carried(s, b, line)
  {
    assert Held(s, M.Ids(a + b)) == Held(s, M.Ids(a)) + Held(s, M.Ids(b));
    hide StreamIn, Held;
    StreamInAppend(Held(s, M.Ids(a)), Held(s, M.Ids(b)), line);
  }

  /** The requests of CPU e in its mailbox. */
  function InMailbox(d: M.End): seq<O.Msg> {
    if |d.taken| <= |d.out.sent| then O.Requests(d.out.sent[|d.taken|..]) else []
  }

  lemma LineStream(h: Half, line: nat)
    requires HalfInv(h) && line < B.MAX_MBSERIAL_NUM
    ensures |h.send.lines| == B.MAX_MBSERIAL_NUM
    ensures StreamIn(h.tags, line) == h.send.lines[line].accepted + B.Underway(h.send.lines[line].call)
  {
    hide PortInv, Serial, B.DataPackets, B.Stream, B.Underway;
    assert B.LineInv(h.send.lines[line], B.Stream(line, h.send.wire));
  }

  lemma UnaskedStream(s: State, e: M.Side, line: nat)
    requires M.Inv(s.m) && TagsInv(s, e)
    ensures var d, tags := M.At(s.m, e), At(s, e).tags;
            && |d.taken| <= |d.out.sent| && d.wire == M.Ids(d.out.sent[|d.taken|..]) && |d.asked| <= |tags|
            && At(s, M.Peer(e)).heard == tags[..|d.asked|]
            && StreamIn(tags[|d.asked|..], line)
               == Carried(s, InMailbox(d), line) + Carried(s, O.Requests(d.out.batch), line)
                  + Carried(s, O.Requests(d.out.pending), line)
  {
    hide M.Inv, StreamIn, O.Requests;
    var d, n := M.At(s.m, e), |M.At(s.m, e).asked|;
    MInvParts(s.m, e);
    hide O.Inv, InOrder;
    UnaskedParts(d);
    var mail, batch, pending := InMailbox(d), O.Requests(d.out.batch), O.Requests(d.out.pending);
    assert Unasked(d) == mail + batch + pending && Asking(s.m, e)[n..] == Unasked(d);
    assert Held(s, M.Ids(Unasked(d))) == At(s, e).tags[n..];
    CarriedAppend(s, mail + batch, pending, line);
    CarriedAppend(s, mail, batch, line);
  }

  /** In every run, on every line: what the peer has received, what the request blocks in the
      mailbox hold now, those in the batch and those in the pending list, in this order, make
      up the bytes that the calls on this side have accepted. */
  lemma {:induction false} StreamThroughMailbox(owners: map<nat, M.Side>, ts: seq<(M.Side, Step)>, e: M.Side, line: nat)
    requires After(owners, ts).Some? && line < B.MAX_MBSERIAL_NUM
    ensures var s := After(owners, ts).value;
            var d, send := M.At(s.m, e), At(s, e).send;
            && |d.taken| <= |d.out.sent| && d.wire == M.Ids(d.out.sent[|d.taken|..])
            && |send.lines| == B.MAX_MBSERIAL_NUM
            && StreamIn(At(s, M.Peer(e)).heard, line)
               + (Carried(s, InMailbox(d), line) + Carried(s, O.Requests(d.out.batch), line)
                  + Carried(s, O.Requests(d.out.pending), line))
               == send.lines[line].accepted + B.Underway(send.lines[line].call)
  {
    hide M.Inv, StreamIn, O.Requests, HalfInv, TagsInv, QueueInv, After, Carried, InMailbox, B.Underway;
    RunInv(owners, ts);
    var s := After(owners, ts).value;
    var tags, n := At(s, e).tags, |M.At(s.m, e).asked|;
    LineStream(At(s, e), line);
    UnaskedStream(s, e, line);
    StreamInAppend(tags[..n], tags[n..], line);
    assert tags == tags[..n] + tags[n..];
  }

  /** What an open port has been given, behind what came too early for it, and what the
      waiting blocks hold, is what has been received for the line. */
  lemma PortStream(s: State, r: M.Side, line: nat)
    requires QueueInv(s, r) && PortInv(At(s, r), line) && At(s, r).ports[line].Some?
    ensures var h := At(s, r);
            && line in h.since && h.since[line] <= |h.handled|
            && B.Stream(line, B.DataPackets(h.handled[..h.since[line]])) + B.DataOf(h.ports[line].value.events)
               + StreamIn(Held(s, Waiting(s, r)), line)
               == StreamIn(h.heard, line)
  {
    hide Serial, Waiting, Held, B.DataPackets, B.Stream, B.UpBit, B.UpAfter;
    var h, w := At(s, r), Serial(Held(s, Waiting(s, r)));
    var n := h.since[line];
    B.DataPacketsAppend(h.handled, w);
    B.StreamAppend(line, B.DataPackets(h.handled), B.DataPackets(w));
    assert h.handled == h.handled[..n] + h.handled[n..];
    B.DataPacketsAppend(h.handled[..n], h.handled[n..]);
    B.StreamAppend(line, B.DataPackets(h.handled[..n]), B.DataPackets(h.handled[n..]));
    NothingSeen();
    assert [] + B.Stream(line, B.DataPackets(h.handled[n..])) == B.DataOf(h.ports[line].value.events);
  }

  lemma NothingSeen()
    ensures B.DataOf(NewPort.events) == []
  {
  }

  /** From one user to the other, in every run of the two CPUs: what came before the port was
      opened, the bytes its notifiers have been given, and what the blocks waiting for the
      dispatch thread, in the mailbox, in the batch and in the pending list hold now, in this
      order, are the bytes the calls on the other side have accepted for the line. Nothing is
      lost, doubled or reordered, whichever blocks carry it and however often they are used. */
  lemma {:induction false} EndToEnd(owners: map<nat, M.Side>, ts: seq<(M.Side, Step)>, e: M.Side, line: nat)
    requires After(owners, ts).Some? && line < |At(After(owners, ts).value, M.Peer(e)).ports|
    requires At(After(owners, ts).value, M.Peer(e)).ports[line].Some?
    ensures var s := After(owners, ts).value;
            var d, h, send := M.At(s.m, e), At(s, M.Peer(e)), At(s, e).send;
            && line in h.since && h.since[line] <= |h.handled|
            && line < B.MAX_MBSERIAL_NUM == |send.lines|
            && B.Stream(line, B.DataPackets(h.handled[..h.since[line]])) + B.DataOf(h.ports[line].value.events)
               + StreamIn(Held(s, Waiting(s, M.Peer(e))), line)
               + (Carried(s, InMailbox(d), line) + Carried(s, O.Requests(d.out.batch), line)
                  + Carried(s, O.Requests(d.out.pending), line))
               == send.lines[line].accepted + B.Underway(send.lines[line].call)
  {
    hide M.Inv, StreamIn, O.Requests, TagsInv, QueueInv, After, Carried, InMailbox, B.Underway, PortInv;
    hide Serial, Held, Waiting, B.DataOf, B.DataPackets, B.Stream, B.Inv;
    RunInv(owners, ts);
    var s := After(owners, ts).value;
    StreamThroughMailbox(owners, ts, e, line);
    PortStream(s, M.Peer(e), line);
  }

  /** Nothing can happen but what clients, senders and users start: the protocol threads and the
      dispatch threads have nothing left to do. */
  ghost predicate Resting(s: State) {
    forall a, t :: Enabled(s, a, t) ==>
      t.Fill? || t.Send? || t.Sender? || t.Open? || (t.Protocol? && (t.t.Return? || t.t.Submit?))
  }

  lemma ProtocolRests(s: State, a: M.Side, u: M.Step)
    requires Resting(s) && !u.Submit? && !u.Return? && !u.HandleNow? && !u.GivebackDeferred?
    ensures !M.Enabled(s.m, a, u)
  {
    assert !Enabled(s, a, Protocol(u));
    hide M.Enabled;
  }

  lemma EndsRest(s: State, e: M.Side)
    requires M.Inv(s.m) && Resting(s)
    ensures var d := M.At(s.m, e);
            d.out.batch == [] && d.out.pending == [] && d.wire == [] && M.At(s.m, M.Peer(e)).input == M.Listening
  {
    hide M.BlockInv, M.LabelInv, M.EndInv, Resting, M.Enabled, M.InFlight;
    var r := M.Peer(e);
    assert M.Peer(r) == e && M.EndInv(M.At(s.m, e)) && M.EndInv(M.At(s.m, r));
    M.KnownPlaces(s.m, e);
    ProtocolRests(s, e, M.Push);
    ProtocolRests(s, e, M.Output(O.Check));
    ProtocolRests(s, e, M.Output(O.Wake));
    ProtocolRests(s, e, M.Output(O.Signal));
    M.OutputRests(s.m, e);
    ProtocolRests(s, r, M.Receive);
    ProtocolRests(s, r, M.Defer);
    ProtocolRests(s, r, M.Pool(M.W.Advance));
    M.InputRests(s.m, r);
  }

  /** A block that the dispatch thread has handled can be given back. */
  lemma HandledIsDeferred(s: State, r: M.Side) returns (k: nat)
    requires M.Inv(s.m) && QueueInv(s, r) && At(s, r).thread.Done?
    ensures Enabled(s, r, Answer(k, 0))
  {
    hide M.Inv, M.BlockInv, Serial, Held, Waiting, Cargo;
    var h, d := At(s, r), M.At(s.m, r);
    var x := h.thread.id;
    assert Count(h.fifo, x) + WithThread(h, x) <= Count(d.deferred, x);
    k := PlaceOf(d.deferred, x);
    MInvBlock(s.m, x);
    HandlerSpot(s.m, r, x);
    M.PlacedIsBlock(s.m, r, x);
  }

  lemma HandlerSpot(m: M.State, r: M.Side, x: nat)
    requires Count(M.At(m, r).deferred, x) > 0
    ensures M.Total(M.SpotOf(M.At(m, r), x)) > 0
  {
  }

  lemma {:induction false} PlaceOf(q: seq<nat>, x: nat) returns (k: nat)
    requires Count(q, x) > 0
    ensures k < |q| && q[k] == x
  {
    if q[0] == x {
      k := 0;
    } else {
      k := PlaceOf(q[1..], x);
      k := k + 1;
    }
  }

  lemma ThreadRests(s: State, r: M.Side)
    requires M.Inv(s.m) && QueueInv(s, r) && Resting(s) && M.At(s.m, r).input == M.Listening
    ensures Waiting(s, r) == []
  {
    hide M.Inv, Serial, Held, Count;
    var h := At(s, r);
    assert !Enabled(s, r, Take) && !Enabled(s, r, Handle);
    if h.thread.Done? {
      var k := HandledIsDeferred(s, r);
      assert false;
    }
  }

  /** Wherever a run comes to rest everything has arrived: what came too early for an open port
      and what its notifiers were given are exactly the bytes the calls on the other side have
      accepted for the line. */
  lemma {:induction false} AllDeliveredAtRest(owners: map<nat, M.Side>, ts: seq<(M.Side, Step)>, e: M.Side, line: nat)
    requires After(owners, ts).Some? && Resting(After(owners, ts).value)
    requires line < |At(After(owners, ts).value, M.Peer(e)).ports|
    requires At(After(owners, ts).value, M.Peer(e)).ports[line].Some?
    ensures var s := After(owners, ts).value;
            var h, send := At(s, M.Peer(e)), At(s, e).send;
            && line in h.since && h.since[line] <= |h.handled| && line < |send.lines|
            && B.Stream(line, B.DataPackets(h.handled[..h.since[line]])) + B.DataOf(h.ports[line].value.events)
               == send.lines[line].accepted + B.Underway(send.lines[line].call)
  {
    hide M.Inv, TagsInv, QueueInv, After, B.Underway, HalfInv, Resting;
    hide B.DataOf, B.DataPackets, B.Stream, B.Inv, Waiting;
    var s := After(owners, ts).value;
    RunInv(owners, ts);
    EndToEnd(owners, ts, e, line);
    StreamThroughMailbox(owners, ts, e, line);
    EndsRest(s, e);
    ThreadRests(s, M.Peer(e));
    NothingCarried(s, M.At(s.m, e), M.Peer(e), line);
    hide StreamIn, Carried, InMailbox, O.Requests, Held;
    var h := At(s, M.Peer(e));
    DropEmpty(B.Stream(line, B.DataPackets(h.handled[..h.since[line]])) + B.DataOf(h.ports[line].value.events));
  }

  lemma DropEmpty(a: seq<Byte>)
    ensures a + [] + ([] + [] + []) == a
  {
  }

  lemma NothingCarried(s: State, d: M.End, r: M.Side, line: nat)
    requires d.out.batch == [] && d.out.pending == [] && d.wire == [] && Waiting(s, r) == []
    requires |d.taken| <= |d.out.sent| && d.wire == M.Ids(d.out.sent[|d.taken|..])
    ensures StreamIn(Held(s, Waiting(s, r)), line) == [] && Carried(s, InMailbox(d), line) == []
    ensures Carried(s, O.Requests(d.out.batch), line) == [] && Carried(s, O.Requests(d.out.pending), line) == []
  {
    hide Waiting;
    assert |d.out.sent[|d.taken|..]| == |M.Ids(d.out.sent[|d.taken|..])| == 0;
    assert StreamIn([], line) == [];
    assert Held(s, []) == [] && M.Ids([]) == [];
  }

  /** In every run the notifiers of an open port have been told of exactly the requests handled
      since it was opened that concern it, one for one and in order; and the line takes sends
      exactly while the last startup or shutdown they were told of is a startup. */
  lemma {:induction false} NotifiersTold(owners: map<nat, M.Side>, ts: seq<(M.Side, Step)>, e: M.Side, line: nat)
    requires After(owners, ts).Some? && line < |At(After(owners, ts).value, e).ports|
    requires At(After(owners, ts).value, e).ports[line].Some?
    ensures var h := At(After(owners, ts).value, e);
            var es := h.ports[line].value.events;
            && line in h.since && h.since[line] <= |h.handled| && line < |h.send.lines|
            && B.Tells(es, B.Concerning(h.handled[h.since[line]..], line))
            && (h.send.lines[line].up <==>
                exists i :: 0 <= i < |es| && es[i].StartedUp? && forall j | i < j < |es| :: !es[j].ShutDown?)
  {
    hide M.Inv, TagsInv, QueueInv, After, Serial, B.Inv, B.Serves, B.DataPackets, B.UpBit, B.Concerning, B.Tells;
    RunInv(owners, ts);
    var h := At(After(owners, ts).value, e);
    assert PortInv(h, line);
    NewServes(line);
    var es := h.ports[line].value.events;
    assert es[0..] == es;
  }

  /** In every run a line takes sends exactly while its port is open and the last startup or
      shutdown handled for it since it was opened was a startup. */
  lemma {:induction false} UpAsLastTold(owners: map<nat, M.Side>, ts: seq<(M.Side, Step)>, e: M.Side, line: nat)
    requires After(owners, ts).Some? && line < B.MAX_MBSERIAL_NUM
    ensures var h := At(After(owners, ts).value, e);
            && |h.send.lines| == |h.ports| == B.MAX_MBSERIAL_NUM
            && h.send.lines[line].up ==
               (h.ports[line].Some? && line in h.since && h.since[line] <= |h.handled|
                && B.UpAfter(h.handled[h.since[line]..], line, false))
            && forall data :: Enabled(After(owners, ts).value, e, Sender(B.Begin(line, data))) <==>
                 h.send.lines[line].up && h.send.lines[line].call == B.Idle && data != []
  {
    hide M.Inv, TagsInv, QueueInv, After, Serial, B.DataOf, B.DataPackets, B.Stream, B.UpAfter, B.UpBit;
    RunInv(owners, ts);
    var h := At(After(owners, ts).value, e);
    assert PortInv(h, line);
    NewServes(line);
  }
}
