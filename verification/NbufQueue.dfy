/** Packet buffers as objects: the FIFO that keeps a pointer to its last link
    (nbuf_queue.c), the reference counts (mf_nbuf.c), and the receive side that moves
    buffers from the free list to the forward backlog and on (mf_mbnetif.c). */
module NbufQueue {
  import opened Basics

  const MF_NETBUF_SIZE: int := 64
  const MF_PACKETBUF_SIZE: int := 2048 - 64
  const MF_NETBUF_PAD: int := 32

  /** The block of one buffer. */
  type NetBlock = s: seq<Byte> | |s| == 2048 witness seq(2048, _ => 0)

  /** struct mf_nbuf and the block it is the header of, with the header's own bytes left
      out of account; the four cursors are offsets from the start of the block. */
  class Nbuf {
    var block: NetBlock
    var next: Nbuf?
    var head: int
    var end: int
    var data: int
    var tail: int
    var len: int
    var ref: int

    /** The payload lies between the cursors, and they inside the block. */
    predicate InOrder()
      reads this
    {
      && MF_NETBUF_SIZE == head <= data && data + len == tail && 0 <= len
      && tail <= end == MF_NETBUF_SIZE + MF_PACKETBUF_SIZE
    }

    /** The payload. */
    function Payload(): seq<Byte>
      requires InOrder()
      reads this
    {
      block[data..tail]
    }

    predicate Empty()
      reads this
    {
      InOrder() && len == 0 && data == head + MF_NETBUF_PAD
    }

    /** memset and the cursor set-up of mf_netbuf_alloc. */
    method Reset()
      modifies this
      ensures next == null && ref == 1 && Empty()
      ensures head == 64 && data == tail == 64 + 32 && end == 2048 && len == 0
    {
      next, len := null, 0;
      head := MF_NETBUF_SIZE;
      data := head;
      tail := data;
      end := tail + MF_PACKETBUF_SIZE;
      ref := 1;
      data, tail := data + MF_NETBUF_PAD, tail + MF_NETBUF_PAD;
    }

    /** memcpy to the data cursor; the packet has to fit. */
    method CopyIn(packet: seq<Byte>)
      requires InOrder() && data + |packet| <= end
      modifies this`block
      ensures InOrder() && block == old(block[..data]) + packet + old(block[data + |packet|..])
    {
      block := block[..data] + packet + block[data + |packet|..];
    }

    /** mf_netbuf_put */
    method Put(n: nat)
      requires InOrder() && tail + n <= end
      modifies this`tail, this`len
      ensures InOrder() && len == old(len) + n && tail == old(tail) + n
    {
      tail := tail + n;
      len := len + n;
    }
  }

  ghost predicate Distinct(ns: seq<Nbuf>) {
    forall i, j | 0 <= i < j < |ns| :: ns[i] != ns[j]
  }

  function From(es: seq<Nbuf>, i: nat): Nbuf? {
    if i < |es| then es[i] else null
  }

  /** Which pointer `last` points to. */
  datatype Link = HeadLink | NextOf(n: Nbuf)

  class Queue {
    var head: Nbuf?
    var last: Link
    var elemNum: int
    var event: bool
    ghost var elems: seq<Nbuf>

    /** The chain from `head` is `elems`, and `last` is the link at its end. */
    ghost predicate Valid()
      reads this, elems
    {
      && Distinct(elems)
      && elemNum == |elems|
      && head == From(elems, 0)
      && (forall i | 0 <= i < |elems| :: elems[i].next == From(elems, i + 1))
      && last == if elems == [] then HeadLink else NextOf(elems[|elems| - 1])
    }

    /** mf_nbuf_queue_create */
    constructor ()
      ensures Valid() && elems == [] && !event
    {
      head, last, elemNum, event, elems := null, HeadLink, 0, false, [];
    }

    /** mf_nbuf_queue_put: the buffer comes with a null link, as allocation and the queue
        leave it; the event is raised when the queue was empty. */
    method Put(nbuf: Nbuf)
      requires Valid() && nbuf !in elems && nbuf.next == null
      modifies this, set n | n in elems && last == NextOf(n)
      ensures Valid() && elems == old(elems) + [nbuf]
      ensures event == (old(event) || old(elems) == [])
      ensures forall n | n in old(elems) :: n.ref == old(n.ref)
    {
      match last {
        case HeadLink => head := nbuf;
        case NextOf(n) => n.next := nbuf;
      }
      last := NextOf(nbuf);
      elemNum := elemNum + 1;
      if elemNum == 1 {
        event := true;
      }
      elems := elems + [nbuf];
    }

    /** mf_nbuf_queue_get: the oldest, its link cleared, or NULL. */
    method Get() returns (nbuf: Nbuf?)
      requires Valid()
      modifies this, set n | n in elems && n == head
      ensures Valid() && event == old(event)
      ensures old(elems) == [] ==> nbuf == null && elems == []
      ensures old(elems) != [] ==>
                && nbuf != null && [nbuf] + elems == old(elems) && nbuf !in elems
                && nbuf.next == null && nbuf.ref == old(nbuf.ref)
    {
      nbuf := head;
      if nbuf != null {
        head := nbuf.next;
        if head == null {
          last := HeadLink;
        }
        nbuf.next := null;
        elemNum := elemNum - 1;
        elems := elems[1..];
      }
    }
  }

  lemma DistinctTail(a: Nbuf, rest: seq<Nbuf>)
    requires Distinct([a] + rest)
    ensures a !in rest && Distinct(rest)
  {
    var all := [a] + rest;
    assert forall i | 0 <= i < |rest| :: rest[i] == all[i + 1];
    assert all[0] == a;
  }

  /** A buffer in front that is not yet among the others. */
  lemma DistinctAdd(a: Nbuf, rest: seq<Nbuf>)
    requires Distinct(rest) && a !in rest
    ensures Distinct([a] + rest)
  {
  }

  /** Moving one element between the two lists, the order apart. */
  lemma DistinctSwap(a: seq<Nbuf>, b: seq<Nbuf>, x: Nbuf)
    requires Distinct(a + b) && x !in a && x !in b
    ensures Distinct(a + (b + [x])) && Distinct([x] + a + b)
  {
    var ab, c, d := a + b, a + (b + [x]), [x] + a + b;
    assert c == ab + [x] && d == [x] + ab;
  }

  /** The receive side: the free list of the NETBUF pool and the forward backlog. */
  class Netif {
    var free: seq<Nbuf>
    const backlog: Queue

    /** No buffer is in both lists, and references are counted where they matter. */
    ghost predicate Valid()
      reads this, backlog, backlog.elems, free
    {
      && backlog.Valid()
      && Distinct(free + backlog.elems)
      && (forall n | n in free :: n.ref == 0)
      && forall n | n in backlog.elems :: n.ref >= 1
    }

    constructor (carved: seq<Nbuf>)
      requires Distinct(carved) && forall n | n in carved :: n.ref == 0
      ensures Valid() && free == carved && fresh(backlog) && backlog.elems == []
    {
      free := carved;
      backlog := new Queue();
      new;
      assert carved + [] == carved;
    }

    /** mf_netbuf_alloc */
    method NetbufAlloc() returns (nb: Nbuf?)
      requires Valid()
      modifies this`free, set n | n in free && n == free[0]
      ensures Valid() && backlog.elems == old(backlog.elems)
      ensures old(free) == [] ==> nb == null && free == []
      ensures old(free) != [] ==>
                && nb != null && [nb] + free == old(free) && nb !in free && nb !in backlog.elems
                && nb.ref == 1 && nb.next == null && nb.Empty()
                && nb.head == 64 && nb.data == nb.tail == 64 + 32 && nb.end == 2048 && nb.len == 0
    {
      if free == [] {
        return null;
      }
      nb := free[0];
      ghost var rest := free[1..] + backlog.elems;
      assert free + backlog.elems == [nb] + rest;
      DistinctTail(nb, rest);
      free := free[1..];
      nb.Reset();
    }

    /** mf_netbuf_ref */
    method NetbufRef(p: Nbuf?)
      requires Valid() && p !in free
      modifies if p == null then {} else {p}
      ensures Valid() && free == old(free) && backlog.elems == old(backlog.elems)
      ensures p != null ==> p.ref == old(p.ref) + 1 && p.next == old(p.next) && p.len == old(p.len)
    {
      if p != null {
        p.ref := p.ref + 1;
      }
    }

    /** mf_netbuf_free by a holder: the queue's reference is not the one dropped. */
    method NetbufFree(p: Nbuf?)
      requires Valid()
      requires p != null ==> p !in free && p.ref >= (if p in backlog.elems then 2 else 1)
      modifies this`free, if p == null then {} else {p}
      ensures Valid() && backlog.elems == old(backlog.elems)
      ensures p == null ==> free == old(free)
      ensures p != null ==> p.ref == old(p.ref) - 1 && free == if p.ref == 0 then [p] + old(free) else old(free)
    {
      if p != null {
        p.ref := p.ref - 1;
        if p.ref == 0 {
          DistinctAdd(p, free + backlog.elems);
          assert [p] + free + backlog.elems == [p] + (free + backlog.elems);
          free := [p] + free;
        }
      }
    }

    /** handle_new_ip_packet for a packet that fits; without a free buffer it is dropped. */
    method HandleNewIpPacket(packet: seq<Byte>) returns (ret: int)
      requires Valid() && |packet| <= MF_PACKETBUF_SIZE - MF_NETBUF_PAD
      modifies this`free, backlog, backlog.elems, set n | n in free && n == free[0]
      ensures Valid() && ret == 0
      ensures old(free) == [] ==> free == [] && backlog.elems == old(backlog.elems)
      ensures old(free) != [] ==>
                var nbuf := old(free)[0];
                && free == old(free[1..]) && backlog.elems == old(backlog.elems) + [nbuf]
                && nbuf.ref == 1 && nbuf.InOrder() && nbuf.Payload() == packet
                && nbuf.data == 64 + 32 && nbuf.len == |packet| && nbuf.tail == 64 + 32 + |packet| <= 2048
                && nbuf.block[64 + 32..64 + 32 + |packet|] == packet
                && backlog.event == (old(backlog.event) || old(backlog.elems) == [])
    {
      ret := 0;
      var nbuf := NetbufAlloc();
      if nbuf != null {
        nbuf.CopyIn(packet);
        nbuf.Put(|packet|);
        assert nbuf == old(free[0]) && nbuf.Payload() == packet;
        DistinctSwap(free, backlog.elems, nbuf);
        backlog.Put(nbuf);
      }
    }

    /** The forward thread's get: the reference moves from the queue to the thread. */
    method Forward() returns (nbuf: Nbuf?)
      requires Valid()
      modifies backlog, set n | n in backlog.elems && n == backlog.head
      ensures Valid() && free == old(free)
      ensures old(backlog.elems) == [] ==> nbuf == null && backlog.elems == []
      ensures old(backlog.elems) != [] ==>
                && nbuf != null && [nbuf] + backlog.elems == old(backlog.elems)
                && nbuf !in free && nbuf !in backlog.elems && nbuf.ref == old(nbuf.ref) >= 1 && nbuf.next == null
    {
      ghost var before := backlog.elems;
      nbuf := backlog.Get();
      if nbuf != null {
        DistinctOut(free, nbuf, backlog.elems);
      }
    }
  }

  lemma DistinctOut(a: seq<Nbuf>, x: Nbuf, b: seq<Nbuf>)
    requires Distinct(a + ([x] + b))
    ensures Distinct(a + b) && x !in a && x !in b
  {
    var all, rest := a + ([x] + b), a + b;
    assert forall i | 0 <= i < |rest| :: rest[i] == all[if i < |a| then i else i + 1];
    assert all[|a|] == x;
    assert forall i | 0 <= i < |a| :: a[i] == all[i];
    assert forall i | 0 <= i < |b| :: b[i] == all[|a| + 1 + i];
  }
}
