/** The receive path of the mailbox driver (p4a_mbox.c) and the address coding of its
    messages (mf_mailbox.h). The interrupt handler moves messages from the hardware FIFO
    to a bounded soft FIFO; a message that does not fit is kept in a static variable, with
    the receive interrupt off, until mf_mbox_msg_get has made room. */
module MailboxRx {
  import opened Basics

  type Word = x: int | 0 <= x < 0x1_0000_0000

  /** What ~MESSAGE_HEAD_MSK leaves: the low 28 bits. */
  function Low28(w: Word): Word {
    w % 0x1000_0000
  }

  /** COVER_TO_ADDR, in_msg_fixup: never 0, so 0 can stand for no message. */
  function Decode(msg: Word): (addr: Word)
    ensures addr != 0
  {
    Low28(msg) + 0x4000_0000
  }

  /** COVER_TO_MSG, out_msg_fixup: MESSAGE_TYPE_MSG and CHIP_TYPE_ARM_M in the head. */
  function Encode(addr: Word): Word {
    Low28(addr) + 0xA000_0000
  }

  /** A block address survives the trip exactly when it lies in the shared quarter-gigabyte. */
  lemma RoundTrip(addr: Word)
    ensures Decode(Encode(addr)) == addr <==> 0x4000_0000 <= addr < 0x5000_0000
  {
    assert Low28(Encode(addr)) == Low28(addr);
  }

  /** The head of a message: bit 31 for a message, and 01 for the sender in bits 30 and 29; the
      low 28 bits are those of the address. */
  lemma EncodeHead(addr: Word)
    ensures Encode(addr) / 0x1000_0000 == 10 && Encode(addr) % 0x1000_0000 == addr % 0x1000_0000
  {
  }

  /** Whatever arrives decodes into that quarter-gigabyte. */
  lemma DecodeRange(msg: Word)
    ensures 0x4000_0000 <= Decode(msg) < 0x5000_0000
  {
  }

  function Decoded(raw: seq<Word>): (r: seq<Word>)
    ensures |r| == |raw|
  {
    seq(|raw|, i requires 0 <= i < |raw| => Decode(raw[i]))
  }

  lemma DecodedAppend(a: seq<Word>, b: seq<Word>)
    ensures Decoded(a + b) == Decoded(a) + Decoded(b)
  {
  }

  // ------------------------------------------------------------------- the state machine

  /** The handler: not running, before the test of the hardware FIFO, or at push_msg. */
  datatype Handler = Idle | AtTest | AtPush

  /** mf_mbox_msg_get: waiting for a message; with one, before the test of inmbox_full;
      about to clear it; about to enable the interrupt. */
  datatype Getter = Waiting | Took | Clearing | Enabling

  /** `delivered` and `arrived` are histories. */
  datatype State = State(
    hw: seq<Word>, soft: seq<Word>, saved: Word, full: bool, irq: bool,
    handler: Handler, getter: Getter, delivered: seq<Word>, arrived: seq<Word>)

  datatype Step = Arrive(raw: Word) | Interrupt | HandlerStep | GetStep

  const Init := State([], [], 0, false, true, Idle, Waiting, [], [])

  /** The handler preempts the getting thread; the peer can write at any time. Whether the
      device raises the interrupt is left open, only the mask counts. */
  predicate Enabled(s: State, t: Step) {
    match t
    case Arrive(_) => true
    case Interrupt => s.handler == Idle && s.irq
    case HandlerStep => s.handler != Idle
    case GetStep => s.handler == Idle && (s.getter == Waiting ==> s.soft != [])
  }

  function HandlerDo(cap: nat, s: State): State
    requires s.handler != Idle
  {
    if s.handler == AtTest then
      if s.hw == [] then s.(saved := 0, handler := Idle)
      else s.(saved := Decode(s.hw[0]), hw := s.hw[1..], handler := AtPush)
    else if |s.soft| < cap then s.(soft := s.soft + [s.saved], handler := AtTest)
    else s.(irq := false, full := true, handler := Idle)
  }

  function GetDo(s: State): State
    requires s.getter == Waiting ==> s.soft != []
  {
    match s.getter
    case Waiting => s.(delivered := s.delivered + [s.soft[0]], soft := s.soft[1..], getter := Took)
    case Took => s.(getter := if s.full then Clearing else Waiting)
    case Clearing => s.(full := false, getter := Enabling)
    case Enabling => s.(irq := true, getter := Waiting)
  }

  function Do(cap: nat, s: State, t: Step): State
    requires Enabled(s, t)
  {
    match t
    case Arrive(raw) => s.(hw := s.hw + [raw], arrived := s.arrived + [raw])
    case Interrupt => s.(handler := if s.saved != 0 then AtPush else AtTest)
    case HandlerStep => HandlerDo(cap, s)
    case GetStep => GetDo(s)
  }

  function After(cap: nat, ts: seq<Step>): Option<State> {
    if ts == [] then Some(Init)
    else
      match After(cap, ts[..|ts| - 1])
      case None => None
      case Some(s) => if Enabled(s, ts[|ts| - 1]) then Some(Do(cap, s, ts[|ts| - 1])) else None
  }

  /** The message out of the hardware but not yet in the soft FIFO. The variable keeps its
      value after the push; what it then holds is no longer pending. */
  function Saved(s: State): seq<Word> {
    if s.handler == AtTest || s.saved == 0 then [] else [s.saved]
  }

  function OnTheWay(s: State): seq<Word> {
    s.delivered + s.soft + Saved(s) + Decoded(s.hw)
  }

  ghost predicate Inv(cap: nat, s: State) {
    && OnTheWay(s) == Decoded(s.arrived)
    && |s.soft| <= cap
    && (s.handler == AtPush ==> s.saved != 0)
    && (s.handler != Idle ==> s.irq)
    // the interrupt is off only with a message saved and a getter bound to turn it on
    && (!s.irq ==> s.saved != 0 && (s.full || s.getter == Enabling))
    && (s.full ==> !s.irq && (|s.soft| == cap || (|s.soft| == cap - 1 && s.getter in {Took, Clearing})))
    && (s.getter == Clearing ==> s.full)
    && (s.getter == Enabling ==> !s.full && !s.irq)
  }

  lemma Shift(a: seq<Word>, b: seq<Word>, w: Word, c: seq<Word>)
    ensures a + b + [w] + c == a + (b + [w]) + [] + c
    ensures a + b + [] + ([w] + c) == a + b + [w] + c
    ensures (a + [w]) + b + c == a + ([w] + b) + c
  {
  }

  lemma HandlerInv(cap: nat, s: State)
    requires Inv(cap, s) && s.handler != Idle
    ensures Inv(cap, HandlerDo(cap, s))
  {
    if s.handler == AtTest && s.hw != [] {
      var w, rest := s.hw[0], s.hw[1..];
      assert Decoded(s.hw) == [Decode(w)] + Decoded(rest);
      hide Decode, Decoded;
      Shift(s.delivered, s.soft, Decode(w), Decoded(rest));
    } else if s.handler == AtPush {
      hide Decoded;
      Shift(s.delivered, s.soft, s.saved, Decoded(s.hw));
    }
  }

  lemma GetInv(cap: nat, s: State)
    requires Inv(cap, s) && Enabled(s, GetStep)
    ensures Inv(cap, GetDo(s))
  {
    if s.getter == Waiting {
      assert s.soft == [s.soft[0]] + s.soft[1..];
      hide Decoded;
      Shift(s.delivered, s.soft[1..], s.soft[0], Saved(s));
    }
  }

  lemma StepInv(cap: nat, s: State, t: Step)
    requires Inv(cap, s) && Enabled(s, t)
    ensures Inv(cap, Do(cap, s, t))
  {
    match t
    case Arrive(raw) =>
      DecodedAppend(s.hw, [raw]);
      DecodedAppend(s.arrived, [raw]);
      hide Decoded, Decode;
      assert OnTheWay(s) + Decoded([raw]) == s.delivered + s.soft + Saved(s) + (Decoded(s.hw) + Decoded([raw]));
    case Interrupt =>
    case HandlerStep => HandlerInv(cap, s);
    case GetStep => GetInv(cap, s);
  }

  lemma {:induction false} RunInv(cap: nat, ts: seq<Step>)
    requires After(cap, ts).Some?
    ensures Inv(cap, After(cap, ts).value)
  {
    if ts != [] {
      RunInv(cap, ts[..|ts| - 1]);
      StepInv(cap, After(cap, ts[..|ts| - 1]).value, ts[|ts| - 1]);
    }
  }

  /** In every run nothing is lost, doubled or reordered: delivered, soft FIFO, saved message
      and hardware FIFO together are the decoded messages that arrived. */
  lemma {:induction false} NothingLostOrReordered(cap: nat, ts: seq<Step>)
    requires After(cap, ts).Some?
    ensures var s := After(cap, ts).value;
            s.delivered + s.soft + Saved(s) + Decoded(s.hw) == Decoded(s.arrived)
  {
    RunInv(cap, ts);
  }

  /** The receive interrupt is never left off with the getter waiting on an empty soft FIFO,
      so while anything is undelivered somebody can act. */
  lemma {:induction false} NeverStuckOff(cap: nat, ts: seq<Step>)
    requires cap > 0 && After(cap, ts).Some?
    ensures var s := After(cap, ts).value;
            && (s.getter == Waiting && s.soft == [] ==> s.irq)
            && (Enabled(s, Interrupt) || Enabled(s, HandlerStep) || Enabled(s, GetStep))
  {
    RunInv(cap, ts);
  }

  lemma Extend(cap: nat, ts: seq<Step>, s: State, t: Step)
    requires After(cap, ts) == Some(s) && Enabled(s, t)
    ensures After(cap, ts + [t]) == Some(Do(cap, s, t))
  {
    assert (ts + [t])[..|ts|] == ts;
  }

  // -------------------------------------------------------- what a saved message waits for

  /** A saved message leaves by the handler alone, with the handler not at work: every other
      step leaves it where it is. */
  lemma {:induction false} OnlyHandlerReleases(cap: nat, s: State, t: Step)
    requires Inv(cap, s) && Enabled(s, t) && s.handler == Idle && Saved(s) != []
    ensures !t.Interrupt? ==> Saved(Do(cap, s, t)) == Saved(s) && Do(cap, s, t).handler == Idle
    ensures t.Interrupt? ==> Do(cap, s, t).handler == AtPush && s.irq
  {
  }

  /** All messages arrive while the driver is at rest. */
  lemma {:induction false} ArriveAll(cap: nat, ms: seq<Word>) returns (ts: seq<Step>)
    ensures After(cap, ts) == Some(Init.(hw := ms, arrived := ms))
    decreases |ms|
  {
    ts := [];
    if ms != [] {
      var n := |ms| - 1;
      ts := ArriveAll(cap, ms[..n]);
      hide After;
      Extend(cap, ts, Init.(hw := ms[..n], arrived := ms[..n]), Arrive(ms[n]));
      ts := ts + [Arrive(ms[n])];
      assert ms[..n] + [ms[n]] == ms;
    }
  }

  /** In the handler's loop with k messages of ms moved to the soft FIFO. */
  function Filling(ms: seq<Word>, k: nat, saved: Word): State
    requires k <= |ms|
  {
    State(ms[k..], Decoded(ms[..k]), saved, false, true, AtTest, Waiting, [], ms)
  }

  /** The soft FIFO full, its next message saved and the interrupt off. */
  function Kept(ms: seq<Word>): State
    requires ms != []
  {
    var n := |ms| - 1;
    State([], Decoded(ms[..n]), Decode(ms[n]), true, false, Idle, Waiting, [], ms)
  }

  lemma {:induction false} Fill(ms: seq<Word>, k: nat) returns (ts: seq<Step>, saved: Word)
    requires k < |ms|
    ensures After(|ms| - 1, ts) == Some(Filling(ms, k, saved))
    decreases k
  {
    var cap := |ms| - 1;
    if k == 0 {
      ts := ArriveAll(cap, ms);
      hide After;
      Extend(cap, ts, Init.(hw := ms, arrived := ms), Interrupt);
      ts := ts + [Interrupt];
      saved := 0;
      assert ms[0..] == ms && ms[..0] == [];
    } else {
      ts, saved := Fill(ms, k - 1);
      hide After, Decode;
      FillStep(ms, k - 1, saved);
      var s := Filling(ms, k - 1, saved);
      var s1 := HandlerDo(cap, s);
      hide Filling, HandlerDo;
      Extend(cap, ts, s, HandlerStep);
      ts := ts + [HandlerStep];
      Extend(cap, ts, s1, HandlerStep);
      ts := ts + [HandlerStep];
      saved := Decode(ms[k - 1]);
    }
  }

  /** One round of the loop while there is room. */
  lemma FillStep(ms: seq<Word>, k: nat, saved: Word)
    requires k < |ms| - 1
    ensures var s := HandlerDo(|ms| - 1, Filling(ms, k, saved));
            s.handler == AtPush && HandlerDo(|ms| - 1, s) == Filling(ms, k + 1, Decode(ms[k]))
  {
    DecodedAppend(ms[..k], [ms[k]]);
    assert ms[..k] + [ms[k]] == ms[..k + 1] && ms[k..][0] == ms[k] && ms[k..][1..] == ms[k + 1..];
  }

  lemma KeepStep(ms: seq<Word>, saved: Word)
    requires ms != []
    ensures var s := HandlerDo(|ms| - 1, Filling(ms, |ms| - 1, saved));
            s.handler == AtPush && HandlerDo(|ms| - 1, s) == Kept(ms)
  {
    var n := |ms| - 1;
    assert ms[n..][0] == ms[n] && ms[n..][1..] == [];
  }

  lemma {:induction false} OneIsKept(ms: seq<Word>) returns (ts: seq<Step>)
    requires ms != []
    ensures After(|ms| - 1, ts) == Some(Kept(ms))
  {
    var cap, saved := |ms| - 1, 0;
    ts, saved := Fill(ms, |ms| - 1);
    KeepStep(ms, saved);
    var s := Filling(ms, cap, saved);
    var s1 := HandlerDo(cap, s);
    hide After, Filling, Kept, HandlerDo;
    Extend(cap, ts, s, HandlerStep);
    ts := ts + [HandlerStep];
    Extend(cap, ts, s1, HandlerStep);
    ts := ts + [HandlerStep];
  }

  /** The getter takes all there is in the soft FIFO. */
  lemma {:induction false} TakeAll(cap: nat, ts: seq<Step>, s: State) returns (rs: seq<Step>)
    requires After(cap, ts) == Some(s) && s.handler == Idle && s.getter == Waiting
    requires s.full == !s.irq && (s.full ==> s.soft != [])
    ensures After(cap, rs) == Some(s.(soft := [], delivered := s.delivered + s.soft, full := false, irq := true))
    decreases |s.soft|
  {
    rs := ts;
    if s.soft == [] {
      assert s.delivered + s.soft == s.delivered;
    } else {
      hide After;
      var s1 := GetDo(s);
      Extend(cap, rs, s, GetStep);
      rs := rs + [GetStep];
      var s2 := GetDo(s1);
      Extend(cap, rs, s1, GetStep);
      rs := rs + [GetStep];
      if s.full {
        var s3 := GetDo(s2);
        Extend(cap, rs, s2, GetStep);
        rs := rs + [GetStep];
        Extend(cap, rs, s3, GetStep);
        rs := rs + [GetStep];
        s2 := GetDo(s3);
      }
      assert s.delivered + [s.soft[0]] + s.soft[1..] == s.delivered + s.soft;
      rs := TakeAll(cap, rs, s2);
    }
  }

  /** A saved message needs one more interrupt. For every capacity of the soft FIFO: one
      message more than it holds, and a run can reach a state in which the getter waits,
      both FIFOs are empty, the receive interrupt is on and the last message is still in the
      static variable, so that nothing but the handler can bring it out. */
  lemma {:induction false} SavedMessageNeedsInterrupt(cap: nat, ms: seq<Word>) returns (ts: seq<Step>)
    requires cap > 0 && |ms| == cap + 1
    ensures After(cap, ts).Some?
    ensures var s := After(cap, ts).value;
            && s.hw == [] && s.soft == [] && s.irq && s.handler == Idle && s.getter == Waiting
            && s.delivered == Decoded(ms[..cap]) && Saved(s) == [Decode(ms[cap])]
  {
    ts := OneIsKept(ms);
    var s := Kept(ms);
    hide After, Decode;
    ts := TakeAll(cap, ts, s);
    assert [] + Decoded(ms[..cap]) == Decoded(ms[..cap]);
  }

  // ------------------------------------------------------------------ one whole interrupt

  /** The messages the handler still has to move, oldest first. */
  function Waiters(s: State): seq<Word> {
    Saved(s) + Decoded(s.hw)
  }

  /** The messages keep their order on the way from s to r. */
  ghost predicate Moves(s: State, r: State) {
    && r.soft + Waiters(r) == s.soft + Waiters(s)
    && |r.hw| <= |s.hw| && r.hw == s.hw[|s.hw| - |r.hw|..]
    && r.getter == s.getter && r.delivered == s.delivered && r.arrived == s.arrived
  }

  ghost predicate Quiet(s: State, r: State) {
    Moves(s, r) && r.irq == s.irq && r.full == s.full
  }

  /** The soft FIFO is filled as far as it goes, and only when it is full does a message
      stay in the static variable, with the interrupt off and the rest left in the hardware. */
  ghost predicate Settled(cap: nat, s: State, r: State) {
    && r.handler == Idle
    && (|s.soft| + |Waiters(s)| <= cap ==> r.saved == 0 && r.hw == [] && r.irq == s.irq && r.full == s.full)
    && (|s.soft| + |Waiters(s)| > cap ==> r.saved != 0 && |r.soft| == cap && !r.irq && r.full)
  }

  /** r is what a whole handler run makes of s. */
  ghost predicate Drains(cap: nat, s: State, r: State) {
    Moves(s, r) && Settled(cap, s, r)
  }

  /** A step that goes on, and one that ends the run. */
  predicate GoesOn(cap: nat, s: State) {
    (s.handler == AtTest && s.hw != []) || (s.handler == AtPush && s.saved != 0 && |s.soft| < cap)
  }

  predicate Ends(cap: nat, s: State) {
    |s.soft| <= cap
    && ((s.handler == AtTest && s.hw == []) || (s.handler == AtPush && s.saved != 0 && |s.soft| == cap))
  }

  lemma HandlerGoesOn(cap: nat, s: State)
    requires GoesOn(cap, s)
    ensures Quiet(s, HandlerDo(cap, s))
  {
    if s.handler == AtTest {
      assert Decoded(s.hw) == [Decode(s.hw[0])] + Decoded(s.hw[1..]);
    } else {
      assert s.hw[0..] == s.hw;
      hide Decoded;
      assert s.soft + ([s.saved] + Decoded(s.hw)) == s.soft + [s.saved] + ([] + Decoded(s.hw));
    }
  }

  lemma HandlerEnds(cap: nat, s: State)
    requires Ends(cap, s)
    ensures Drains(cap, s, HandlerDo(cap, s))
    ensures s.handler == AtTest ==> HandlerDo(cap, s) == s.(saved := 0, handler := Idle)
  {
    assert s.hw[0..] == s.hw;
  }

  lemma DrainsFurther(cap: nat, s: State, r: State, e: State)
    requires Quiet(s, r) && Drains(cap, r, e)
    ensures Drains(cap, s, e)
  {
    hide Waiters;
    assert |r.soft + Waiters(r)| == |s.soft + Waiters(s)|;
  }

  /** The handler's steps with nothing arriving in between. */
  function RunHandler(cap: nat, s: State): State
    decreases |s.hw|, if s.handler == AtPush then 1 else 0
  {
    if GoesOn(cap, s) then RunHandler(cap, HandlerDo(cap, s)) else if s.handler == Idle then s else HandlerDo(cap, s)
  }

  lemma {:induction false} HandlerDrains(cap: nat, s: State)
    requires |s.soft| <= cap && s.handler != Idle && (s.handler == AtPush ==> s.saved != 0)
    ensures Drains(cap, s, RunHandler(cap, s))
    decreases |s.hw|, if s.handler == AtPush then 1 else 0
  {
    if GoesOn(cap, s) {
      var r := HandlerDo(cap, s);
      HandlerGoesOn(cap, s);
      HandlerDrains(cap, r);
      hide Drains, Moves;
      DrainsFurther(cap, s, r, RunHandler(cap, r));
    } else {
      HandlerEnds(cap, s);
    }
  }

  /** A handler run keeps a message back exactly when the soft FIFO has no room for all that
      wait, the one already saved included; only then is the interrupt off afterwards. */
  lemma {:induction false} KeptBackIff(cap: nat, s: State)
    requires |s.soft| <= cap && s.handler != Idle && s.irq && (s.handler == AtPush ==> s.saved != 0)
    ensures var r := RunHandler(cap, s);
            && (Saved(r) != [] <==> |s.soft| + |Waiters(s)| > cap)
            && (!r.irq <==> |s.soft| + |Waiters(s)| > cap)
  {
    hide RunHandler, Moves, HandlerDo, Decode, Waiters, Decoded, GoesOn, Ends;
    HandlerDrains(cap, s);
    SettledKeeps(cap, s, RunHandler(cap, s));
  }

  lemma SettledKeeps(cap: nat, s: State, r: State)
    requires Settled(cap, s, r)
    ensures Saved(r) == if |s.soft| + |Waiters(s)| > cap then [r.saved] else []
    ensures s.irq ==> (!r.irq <==> |s.soft| + |Waiters(s)| > cap)
  {
    hide Waiters;
  }

  /** In plain words: the order of all messages is kept; if all fit the soft FIFO they are in it
      and nothing is saved or switched off, else it is full, the next message is saved and the
      interrupt is off. */
  lemma DrainsMeans(cap: nat, s: State, r: State)
    requires Drains(cap, s, r) && s.handler == Idle
    ensures var kept := if s.saved == 0 then [] else [s.saved];
            var all := s.soft + kept + Decoded(s.hw);
            && r.handler == Idle
            && r.soft + (if r.saved == 0 then [] else [r.saved]) + Decoded(r.hw) == all
            && (|all| <= cap ==> r.soft == all && r.saved == 0 && r.hw == [] && r.irq == s.irq && r.full == s.full)
            && (|all| > cap ==> |r.soft| == cap && r.soft == all[..cap] && r.saved == all[cap] && !r.irq && r.full)
  {
    var kept := if s.saved == 0 then [] else [s.saved];
    Assoc(s.soft, kept, Decoded(s.hw));
    Assoc(r.soft, if r.saved == 0 then [] else [r.saved], Decoded(r.hw));
    assert r.hw == [] ==> r.soft + [] + [] == r.soft;
  }

  lemma MovesThen(s: State, r: State, e: State)
    requires Quiet(s, r) && Quiet(r, e)
    ensures Quiet(s, e)
  {
    hide Waiters;
  }

  /** Entering the handler changes no message. */
  lemma HandlerStarts(s: State)
    requires s.handler == Idle
    ensures Quiet(s, s.(handler := if s.saved != 0 then AtPush else AtTest))
  {
    assert s.hw[0..] == s.hw;
  }

  /** The driver's fields and its two entry points, a whole call at a time. */
  class P4aMbox {
    const cap: nat
    var hw: seq<Word>
    var soft: seq<Word>
    var msg: Word
    var inmboxFull: bool
    var rxEnabled: bool

    ghost predicate Valid()
      reads this
    {
      |soft| <= cap
    }

    /** The driver's state with its handler at the given place. */
    ghost function At(h: Handler): State
      reads this
    {
      State(hw, soft, msg, inmboxFull, rxEnabled, h, Waiting, [], [])
    }

    constructor (cap: nat)
      ensures Valid() && At(Idle) == Init && this.cap == cap
    {
      this.cap := cap;
      hw, soft, msg, inmboxFull, rxEnabled := [], [], 0, false, true;
    }

    /** msg = in_msg_fixup(mbox_fifo_read(mbox)) */
    method ReadMsg()
      requires Valid() && hw != []
      modifies this`msg, this`hw
      ensures Valid() && msg != 0 && |hw| < |old(hw)|
      ensures At(AtPush) == HandlerDo(cap, old(At(AtTest)))
    {
      msg := Decode(hw[0]);
      hw := hw[1..];
    }

    /** cyg_mbox_tryput and what is done when it fails. */
    method PushMsg() returns (pushed: bool)
      requires Valid() && msg != 0
      modifies this`soft, this`rxEnabled, this`inmboxFull
      ensures Valid() && pushed == (|old(soft)| < cap)
      ensures At(if pushed then AtTest else Idle) == HandlerDo(cap, old(At(AtPush)))
    {
      pushed := |soft| < cap;
      if pushed {
        soft := soft + [msg];
      } else {
        rxEnabled := false;
        inmboxFull := true;
      }
    }

    /** One round of the interrupt handler's loop. */
    method Round(pushing: bool) returns (pushed: bool)
      requires Valid() && if pushing then msg != 0 else hw != []
      modifies this
      ensures Valid() && |hw| == |old(hw)| - (if pushing then 0 else 1)
      ensures pushed ==> Quiet(old(At(if pushing then AtPush else AtTest)), At(AtTest))
      ensures !pushed ==> Drains(cap, old(At(if pushing then AtPush else AtTest)), At(Idle))
    {
      ghost var s := At(if pushing then AtPush else AtTest);
      ghost var r := s;
      if !pushing {
        HandlerGoesOn(cap, s);
        r := HandlerDo(cap, s);
        ReadMsg();
      }
      pushed := PushMsg();
      if pushed {
        HandlerGoesOn(cap, r);
        hide Moves;
        if !pushing { MovesThen(s, r, HandlerDo(cap, r)); }
      } else {
        HandlerEnds(cap, r);
        hide Moves, Settled, Drains;
        if !pushing { DrainsFurther(cap, s, r, HandlerDo(cap, r)); }
      }
    }

    /** A round carries on what the run that began at `start` has done so far. */
    method NextRound(pushing: bool, ghost start: State) returns (pushed: bool)
      requires Valid() && if pushing then msg != 0 else hw != []
      requires Quiet(start, At(if pushing then AtPush else AtTest))
      modifies this
      ensures Valid() && |hw| == |old(hw)| - (if pushing then 0 else 1)
      ensures if pushed then Quiet(start, At(AtTest)) else Drains(cap, start, At(Idle))
    {
      ghost var v := At(if pushing then AtPush else AtTest);
      hide Quiet, Drains, Decode;
      pushed := Round(pushing);
      if pushed {
        MovesThen(start, v, At(AtTest));
      } else {
        DrainsFurther(cap, start, v, At(Idle));
      }
    }

    /** The hardware FIFO is found empty. */
    method Finish(ghost start: State)
      requires Valid() && hw == [] && Quiet(start, At(AtTest))
      modifies this`msg
      ensures Valid() && Drains(cap, start, At(Idle))
    {
      HandlerEnds(cap, At(AtTest));
      ghost var v := At(AtTest);
      msg := 0;
      hide Quiet, Drains, Decode;
      DrainsFurther(cap, start, v, At(Idle));
    }

    /** The loop of __mbox_rx_interrupt; the first round starts at push_msg when a message was
        kept. */
    method Loop()
      requires Valid()
      modifies this
      ensures Valid()
      ensures Drains(cap, old(At(Idle)), At(Idle))
    {
      var pushing := msg != 0;
      HandlerStarts(At(Idle));
      ghost var start := At(Idle);
      hide Quiet, Drains, Decode;
      while pushing || hw != []
        invariant Valid() && (pushing ==> msg != 0)
        invariant Quiet(start, At(if pushing then AtPush else AtTest))
        decreases 2 * |hw| + if pushing then 1 else 0
      {
        var pushed := NextRound(pushing, start);
        if !pushed {
          return;
        }
        pushing := false;
      }
      Finish(start);
    }

    /** __mbox_rx_interrupt */
    method RxInterrupt()
      requires Valid()
      modifies this
      ensures Valid()
      ensures Drains(cap, old(At(Idle)), At(Idle))
      ensures soft + (if msg == 0 then [] else [msg]) + Decoded(hw)
              == old(soft) + (if old(msg) == 0 then [] else [old(msg)]) + Decoded(old(hw))
      ensures var n := |old(soft)| + (if old(msg) == 0 then 0 else 1) + |old(hw)|;
              && (n <= cap ==> msg == 0 && hw == [] && rxEnabled == old(rxEnabled) && inmboxFull == old(inmboxFull))
              && (n > cap ==> |soft| == cap && msg != 0 && !rxEnabled && inmboxFull)
    {
      hide Drains, Decode;
      ghost var start := At(Idle);
      Loop();
      DrainsMeans(cap, start, At(Idle));
    }

    /** mf_mbox_msg_get; an empty soft FIFO would block. */
    method MsgGet() returns (m: Word)
      requires Valid() && soft != []
      modifies this
      ensures Valid() && [m] + soft == old(soft) && hw == old(hw) && msg == old(msg)
      ensures !inmboxFull && rxEnabled == (old(rxEnabled) || old(inmboxFull))
    {
      m := soft[0];
      soft := soft[1..];
      if inmboxFull {
        inmboxFull := false;
        rxEnabled := true;
      }
    }
  }
}
