/** The circular doubly linked lists of micproto.c on the heap: insertion by
    mreqb_submit, the head replacement of the output thread, and its walk over the ring
    that is left when the temporary head has gone. A request block is identified with
    the list node inside it. */
module ListHead {
  import O = OutputPath

  class Node {
    var next: Node
    var prev: Node

    /** INIT_LIST_HEAD */
    constructor ()
      ensures fresh(this) && next == this && prev == this
    {
      next, prev := this, this;
    }
  }

  predicate SelfLinked(n: Node)
    reads n
  {
    n.next == n && n.prev == n
  }

  function Following(i: nat, n: nat): nat
    requires i < n
  {
    if i + 1 == n then 0 else i + 1
  }

  /** The nodes are distinct and linked both ways in this cyclic order. */
  ghost predicate Ring(ns: seq<Node>)
    reads ns
  {
    && (forall i, j | 0 <= i < j < |ns| :: ns[i] != ns[j])
    && (forall i {:trigger ns[i].next} | 0 <= i < |ns| :: ns[i].next == ns[Following(i, |ns|)])
    && (forall i {:trigger ns[Following(i, |ns|)].prev} | 0 <= i < |ns| :: ns[Following(i, |ns|)].prev == ns[i])
  }

  /** A list: head h followed by the elements q. */
  ghost predicate List(h: Node, q: seq<Node>)
    reads [h] + q
  {
    Ring([h] + q)
  }

  /** __list_add: put e between two neighbours. */
  method Link(e: Node, prev: Node, next: Node)
    modifies e, prev, next
    ensures e != prev && e != next && prev != next ==>
              && prev.next == e && e.prev == prev && e.next == next && next.prev == e
              && prev.prev == old(prev.prev) && next.next == old(next.next)
    ensures e != prev && prev == next ==>
              prev.next == e && e.prev == prev && e.next == prev && prev.prev == e
  {
    next.prev := e;
    e.next := next;
    e.prev := prev;
    prev.next := e;
  }

  /** The nodes are distinct and linked both ways in this order. */
  ghost predicate Chain(ns: seq<Node>)
    reads ns
  {
    && (forall i, j | 0 <= i < j < |ns| :: ns[i] != ns[j])
    && (forall i {:trigger ns[i].next} | 0 <= i < |ns| - 1 :: ns[i].next == ns[i + 1])
    && (forall i {:trigger ns[i].prev} | 0 < i < |ns| :: ns[i].prev == ns[i - 1])
  }

  /** A ring is a chain whose ends are linked. */
  lemma RingIsChain(ns: seq<Node>)
    requires ns != []
    ensures Ring(ns) <==> Chain(ns) && ns[|ns| - 1].next == ns[0] && ns[0].prev == ns[|ns| - 1]
  {
    var n := |ns|;
    if Ring(ns) {
      assert ns[Following(n - 1, n)].prev == ns[n - 1];
      forall i | 0 < i < n ensures ns[i].prev == ns[i - 1] {
        assert ns[Following(i - 1, n)].prev == ns[i - 1];
      }
    }
  }

  /** A ring has no first element. */
  lemma Rotate(a: seq<Node>, b: seq<Node>)
    requires Ring(a + b)
    ensures Ring(b + a)
  {
    var ns, ms := a + b, b + a;
    var n := |ns|;
    forall i | 0 <= i < n
      ensures ms[i].next == ms[Following(i, n)] && ms[Following(i, n)].prev == ms[i]
    {
      var o := if i < |b| then |a| + i else i - |b|;
      assert ms[i] == ns[o] && ms[Following(i, n)] == ns[Following(o, n)];
    }
    forall i, j | 0 <= i < j < n ensures ms[i] != ms[j] {
      assert ms[i] == ns[if i < |b| then |a| + i else i - |b|];
      assert ms[j] == ns[if j < |b| then |a| + j else j - |b|];
    }
  }

  /** Insert e between the last and the first node of a ring. */
  method Insert(e: Node, last: Node, first: Node, ghost ns: seq<Node>)
    requires ns != [] && Ring(ns) && e !in ns && first == ns[0] && last == ns[|ns| - 1]
    modifies e, ns
    ensures Ring(ns + [e])
  {
    RingIsChain(ns);
    hide Ring;
    Link(e, last, first);
    RingIsChain(ns + [e]);
  }

  method ListAddTail(e: Node, h: Node, ghost q: seq<Node>)
    requires List(h, q) && e != h && e !in q
    modifies e, h, q
    ensures List(h, q + [e])
  {
    ghost var ns := [h] + q;
    assert h.prev == ns[|q|] by { assert ns[Following(|q|, |ns|)] == h; }
    Insert(e, h.prev, h, ns);
    assert ns + [e] == [h] + (q + [e]);
  }

  /** list_add: at the front. */
  method ListAdd(e: Node, h: Node, ghost q: seq<Node>)
    requires List(h, q) && e != h && e !in q
    modifies e, h, q
    ensures List(h, [e] + q)
  {
    Rotate([h], q);
    ghost var ns := q + [h];
    assert ns[|q|] == h && h.next == ns[0];
    Insert(e, h, h.next, ns);
    assert ns + [e] == q + [h, e];
    Rotate(q, [h, e]);
    assert [h, e] + q == [h] + ([e] + q);
  }

  /** list_del: the others stay a ring; e keeps its stale links. */
  method ListDel(e: Node, ghost rest: seq<Node>)
    requires Ring([e] + rest)
    modifies e, rest
    ensures Ring(rest)
    ensures e.next == old(e.next) && e.prev == old(e.prev)
  {
    Around(e, rest);
    var next, prev := e.next, e.prev;
    prev.next := next;
    next.prev := prev;
  }

  /** The neighbours of one node of a ring, and the links among the others. */
  lemma Around(e: Node, rest: seq<Node>)
    requires Ring([e] + rest)
    ensures e !in rest && forall i, j | 0 <= i < j < |rest| :: rest[i] != rest[j]
    ensures if rest == [] then e.next == e.prev == e else e.next == rest[0] && e.prev == rest[|rest| - 1]
    ensures forall i | 0 <= i < |rest| - 1 :: rest[i].next == rest[i + 1] && rest[i + 1].prev == rest[i]
  {
    var ns, n := [e] + rest, |rest|;
    assert ns[0] == e && e.next == ns[Following(0, n + 1)];
    assert ns[Following(n, n + 1)] == e;
    forall i | 0 <= i < n ensures rest[i] == ns[i + 1] && rest[i] != ns[0] {
    }
    forall i | 0 <= i < n - 1 ensures rest[i].next == rest[i + 1] && rest[i + 1].prev == rest[i] {
      assert ns[i + 1].next == ns[Following(i + 1, n + 1)] && ns[Following(i + 1, n + 1)].prev == ns[i + 1];
    }
  }

  method ListDelInit(e: Node, ghost rest: seq<Node>)
    requires Ring([e] + rest)
    modifies e, rest
    ensures Ring(rest) && e.next == e && e.prev == e
  {
    Around(e, rest);
    ListDel(e, rest);
    e.next, e.prev := e, e;
  }

  /** list_replace: the new head takes the place of the old one, also in an empty list. */
  method ListReplace(oldHead: Node, newHead: Node, ghost q: seq<Node>)
    requires List(oldHead, q) && newHead != oldHead && newHead !in q
    modifies oldHead, newHead, q
    ensures List(newHead, q)
  {
    ghost var ns := [oldHead] + q;
    ghost var n := |q|;
    assert ns[0] == oldHead && oldHead.next == ns[Following(0, n + 1)];
    assert oldHead.prev == ns[n] by { assert ns[Following(n, n + 1)] == oldHead; }
    newHead.next := oldHead.next;
    newHead.next.prev := newHead;
    newHead.prev := oldHead.prev;
    newHead.prev.next := newHead;
    ghost var ms := [newHead] + q;
    assert forall i | 1 <= i <= n :: ms[i] == ns[i];
  }

  /** The mailbox towards the peer. It may refuse a message while it is full; how often
      it will is unknown to the sender but finite. */
  class Mailbox {
    var sent: seq<Node>
    var refusals: nat

    /** mf_mbox_msg_put. An accepted block belongs to the peer at once, so nothing is
        promised about its fields from then on. */
    method Put(n: Node) returns (accepted: bool)
      requires n.next == n && n.prev == n
      modifies this, n
      ensures accepted ==> sent == old(sent) + [n]
      ensures !accepted ==> sent == old(sent) && refusals < old(refusals) && unchanged(n)
    {
      if refusals > 0 {
        refusals := refusals - 1;
        accepted := false;
      } else {
        sent := sent + [n];
        accepted := true;
      }
    }
  }

  /** The messages that some nodes stand for in OutputPath. */
  ghost function Messages(q: seq<Node>, tag: map<Node, O.Msg>): seq<O.Msg> {
    seq(|q|, i requires 0 <= i < |q| => if q[i] in tag then tag[q[i]] else O.Msg(0, false))
  }

  /** The heap stands for state s of OutputPath, as far as the pending list goes. */
  ghost predicate Shows(s: O.State, pending: Node, q: seq<Node>, tag: map<Node, O.Msg>)
    reads [pending] + q
  {
    List(pending, q) && s.pending == Messages(q, tag)
  }

  lemma MessagesJoin(p: seq<Node>, q: seq<Node>, tag: map<Node, O.Msg>)
    ensures Messages(p + q, tag) == Messages(p, tag) + Messages(q, tag)
  {
  }

  lemma NewLabel(e: Node, q: seq<Node>, tag: map<Node, O.Msg>, m: O.Msg)
    requires e !in q
    ensures Messages(q, tag[e := m]) == Messages(q, tag) && Messages([e], tag[e := m]) == [m]
  {
  }

  /** The locked insertion of mreqb_submit: O.DoInsert of the message that e stands for. */
  method Submit(e: Node, response: bool, pending: Node, ghost q: seq<Node>,
                ghost s: O.State, ghost tag: map<Node, O.Msg>, ghost m: O.Msg)
    requires Shows(s, pending, q, tag) && e != pending && e !in q && m.response == response
    modifies e, pending, q
    ensures List(pending, if response then [e] + q else q + [e])
    ensures Shows(O.DoInsert(s, m), pending, if response then [e] + q else q + [e], tag[e := m])
  {
    hide List, Messages;
    NewLabel(e, q, tag, m);
    MessagesJoin([e], q, tag[e := m]);
    MessagesJoin(q, [e], tag[e := m]);
    if !response {
      ListAddTail(e, pending, q);
    } else {
      ListAdd(e, pending, q);
    }
  }

  /** Take the first node of a ring without head off it, leaving it self-linked. */
  method Detach(cur: Node, ghost rest: seq<Node>) returns (next: Node?)
    requires Ring([cur] + rest)
    modifies cur, rest
    ensures Ring(rest) && SelfLinked(cur) && cur !in rest
    ensures next == if rest == [] then null else rest[0]
  {
    RingEnds(cur, rest);
    next := null;
    if cur.next != cur {
      next := cur.next;
      ListDelInit(cur, rest);
    }
  }

  lemma RingEnds(cur: Node, rest: seq<Node>)
    requires Ring([cur] + rest)
    ensures cur !in rest
    ensures rest == [] ==> SelfLinked(cur) && Ring(rest)
    ensures rest != [] ==> cur.next == rest[0] && cur.next != cur
  {
    Around(cur, rest);
  }

  /** The push loop of output_thread over a ring without head, from one of its nodes: every
      node goes into the mailbox exactly once, in ring order, self-linked when it does. Each
      round is one O.DoPush, so that all of them are O.PushAll. */
  method PushRing(first: Node, mbox: Mailbox, ghost q: seq<Node>, ghost s: O.State, ghost tag: map<Node, O.Msg>)
    returns (ghost r: O.State)
    requires q != [] && Ring(q) && first == q[0] && s.batch == Messages(q, tag)
    modifies mbox, q
    ensures mbox.sent == old(mbox.sent) + q
    ensures r == O.PushAll(s) && r.batch == []
  {
    var cur: Node? := first;
    ghost var i := 0;
    hide Ring, Messages, O.DoPush;
    assert q[0..] == q;
    r := s;
    while cur != null
      invariant 0 <= i <= |q|
      invariant mbox.sent == old(mbox.sent) + q[..i]
      invariant Ring(q[i..])
      invariant cur == if i < |q| then q[i] else null
      invariant r.batch == Messages(q[i..], tag) && O.PushAll(r) == O.PushAll(s)
      decreases |q| - i
    {
      ghost var rest := q[i + 1..];
      assert q[i..] == [cur] + rest;
      var next := Detach(cur, rest);
      PushOne(cur, mbox);
      r := Pushed(r, cur, rest, tag);
      assert q[..i + 1] == q[..i] + [q[i]];
      cur := next;
      i := i + 1;
    }
    assert q[..i] == q;
    NoMessages(q[i..], tag);
  }

  /** The batch without its first message. */
  lemma Pushed(s: O.State, cur: Node, rest: seq<Node>, tag: map<Node, O.Msg>) returns (r: O.State)
    requires s.batch == Messages([cur] + rest, tag)
    ensures r.batch == Messages(rest, tag) && s.batch != [] && r == O.DoPush(s)
    ensures O.PushAll(r) == O.PushAll(s)
  {
    MessagesJoin([cur], rest, tag);
    r := O.DoPush(s);
  }

  lemma NoMessages(q: seq<Node>, tag: map<Node, O.Msg>)
    requires q == []
    ensures Messages(q, tag) == []
  {
  }

  /** Retry until the mailbox takes the message. */
  method PushOne(n: Node, mbox: Mailbox)
    requires n.next == n && n.prev == n
    modifies mbox, n
    ensures mbox.sent == old(mbox.sent) + [n]
  {
    var accepted := mbox.Put(n);
    while !accepted
      invariant if accepted then mbox.sent == old(mbox.sent) + [n]
                else mbox.sent == old(mbox.sent) && n.next == n && n.prev == n
      decreases if accepted then 0 else 1, mbox.refusals
    {
      accepted := mbox.Put(n);
    }
  }

  /** Swap the pending list for an empty one: the batch hangs off a temporary head. */
  method TakeBatch(pending: Node, ghost q: seq<Node>) returns (temp: Node)
    requires List(pending, q) && q != []
    modifies pending, q
    ensures fresh(temp) && List(temp, q) && temp.next == q[0]
    ensures SelfLinked(pending) && pending !in q
  {
    HeadApart(pending, q);
    hide List, Ring;
    temp := new Node();
    ListReplace(pending, temp, q);
    FirstElement(temp, q);
    assert pending !in [temp] + q;
    pending.next, pending.prev := pending, pending;
  }

  lemma HeadApart(h: Node, q: seq<Node>)
    requires List(h, q)
    ensures h !in q
  {
    Around(h, q);
  }

  lemma FirstElement(h: Node, q: seq<Node>)
    requires List(h, q) && q != []
    ensures h.next == q[0]
  {
    assert ([h] + q)[0] == h && h.next == ([h] + q)[Following(0, |q| + 1)];
  }

  /** One round of output_thread with work pending: the whole list goes out in list order
      and the pending list is left empty. On the state of OutputPath it is O.DoCheck and then
      O.PushAll, and what O.RoundSends says of that is true of the heap. */
  method OutputRound(pending: Node, mbox: Mailbox, ghost q: seq<Node>, ghost s: O.State, ghost tag: map<Node, O.Msg>)
    requires Shows(s, pending, q, tag) && q != []
    modifies pending, q, mbox
    ensures List(pending, [])
    ensures mbox.sent == old(mbox.sent) + q
    ensures Shows(O.PushAll(O.DoCheck(s)), pending, [], tag)
    ensures O.PushAll(O.DoCheck(s)).sent == s.sent + Messages(mbox.sent[|old(mbox.sent)|..], tag)
  {
    var temp := TakeBatch(pending, q);
    hide List, Messages, O.PushAll;
    SomeMessages(q, tag);
    var first := temp.next;
    DropHead(temp, q);
    ghost var r := PushRing(first, mbox, q, O.DoCheck(s), tag);
    O.RoundSends(O.DoCheck(s));
    EmptyList(pending);
    NoMessages([], tag);
  }

  lemma SomeMessages(q: seq<Node>, tag: map<Node, O.Msg>)
    requires q != []
    ensures Messages(q, tag) != []
  {
  }

  method DropHead(head: Node, ghost q: seq<Node>)
    requires List(head, q)
    modifies head, q
    ensures Ring(q)
  {
    ListDel(head, q);
  }

  lemma EmptyList(h: Node)
    requires SelfLinked(h)
    ensures List(h, [])
  {
    assert [h] + [] == [h];
  }
}
