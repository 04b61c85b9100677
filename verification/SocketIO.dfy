/** Message queues of connected sockets as values. */
module Messages {
  type Message = seq<bv8>

  datatype Result =
    | Sent(count: nat) | Received(count: nat) | NoPeer | NoMemory | NoBuffers | NotConnected | WouldBlock

  /** A receiver with a buffer of `len` bytes gets at most that much of a message. */
  function Truncate(m: Message, len: nat): (r: Message)
    ensures |r| == if |m| <= len then |m| else len
    ensures r <= m
  {
    if |m| <= len then m else m[..len]
  }

  /** send(): the message joins the end of the queue, or nothing changes. */
  ghost predicate SendStep(q: seq<Message>, m: Message, r: Result, q': seq<Message>) {
    if r.Sent? then r.count == |m| && q' == q + [m] else q' == q
  }

  /** recv(): the oldest message, cut to the buffer; peeking leaves it queued. */
  ghost predicate RecvStep(q: seq<Message>, len: nat, peek: bool, r: Result, out: Message, q': seq<Message>) {
    if r.Received? then q != [] && out == Truncate(q[0], len) && r.count == |out| && q' == if peek then q else q[1..]
    else q' == q
  }

  /** The queues at the two ends of a connection. */
  datatype Pair = Pair(left: seq<Message>, right: seq<Message>)

  function QueueAt(p: Pair, right: bool): seq<Message> {
    if right then p.right else p.left
  }

  /** A call by the left or the right end: messages sent by one end are queued at the other. */
  datatype Event =
    | Send(right: bool, message: Message, result: Result)
    | Recv(right: bool, len: nat, peek: bool, result: Result, out: Message)

  ghost predicate Step(p: Pair, e: Event, p': Pair) {
    match e
    case Send(right, m, r) =>
      SendStep(QueueAt(p, !right), m, r, QueueAt(p', !right)) && QueueAt(p', right) == QueueAt(p, right)
    case Recv(right, len, peek, r, out) =>
      RecvStep(QueueAt(p, right), len, peek, r, out, QueueAt(p', right)) && QueueAt(p', !right) == QueueAt(p, !right)
  }

  ghost predicate Run(ps: seq<Pair>, es: seq<Event>) {
    |ps| == |es| + 1 && forall i {:trigger es[i]} :: 0 <= i < |es| ==> Step(ps[i], es[i], ps[i + 1])
  }

  /** What a call adds to the messages sent towards an end. */
  ghost function Adds(e: Event, right: bool): seq<Message> {
    if e.Send? && e.right != right && e.result.Sent? then [e.message] else []
  }

  /** What a call removes at an end whose queue is `q`. */
  ghost function Removes(e: Event, q: seq<Message>, right: bool): seq<Message> {
    if e.Recv? && e.right == right && e.result.Received? && !e.peek && q != [] then [q[0]] else []
  }

  /** The messages that the first `k` calls sent towards an end. */
  ghost function SentTo(es: seq<Event>, right: bool, k: nat): seq<Message>
    requires k <= |es|
  {
    if k == 0 then [] else SentTo(es, right, k - 1) + Adds(es[k - 1], right)
  }

  /** The messages that the first `k` calls removed at an end. */
  ghost function TakenAt(ps: seq<Pair>, es: seq<Event>, right: bool, k: nat): seq<Message>
    requires k <= |es| < |ps|
  {
    if k == 0 then [] else TakenAt(ps, es, right, k - 1) + Removes(es[k - 1], QueueAt(ps[k - 1], right), right)
  }

  lemma StepConserves(p: Pair, e: Event, p': Pair, right: bool)
    requires Step(p, e, p')
    ensures Removes(e, QueueAt(p, right), right) + QueueAt(p', right) == QueueAt(p, right) + Adds(e, right)
  {
    var q := QueueAt(p, right);
    if Removes(e, q, right) != [] {
      assert [q[0]] + q[1..] == q;
    }
  }

  /** Nothing is lost, duplicated or reordered: taken, then still queued, is what was queued and sent. */
  lemma {:induction false} Conserved(ps: seq<Pair>, es: seq<Event>, right: bool, k: nat)
    requires Run(ps, es) && k <= |es|
    ensures TakenAt(ps, es, right, k) + QueueAt(ps[k], right) == QueueAt(ps[0], right) + SentTo(es, right, k)
  {
    if k != 0 {
      Conserved(ps, es, right, k - 1);
      StepConserves(ps[k - 1], es[k - 1], ps[k], right);
      Regroup(TakenAt(ps, es, right, k - 1), Removes(es[k - 1], QueueAt(ps[k - 1], right), right),
              QueueAt(ps[k - 1], right), QueueAt(ps[k], right), QueueAt(ps[0], right), SentTo(es, right, k - 1),
              Adds(es[k - 1], right));
    }
  }

  lemma Regroup(taken: seq<Message>, x: seq<Message>, q: seq<Message>, q': seq<Message>, start: seq<Message>,
                sent: seq<Message>, y: seq<Message>)
    requires taken + q == start + sent && x + q' == q + y
    ensures (taken + x) + q' == start + (sent + y)
  {
    calc {
      (taken + x) + q';
      taken + (x + q');
      taken + q + y;
      start + (sent + y);
    }
  }

  /** The k-th message taken is the k-th message sent, and the receiver saw it cut only to its own buffer. */
  lemma ReceivedInOrder(ps: seq<Pair>, es: seq<Event>, right: bool, k: nat)
    requires Run(ps, es) && QueueAt(ps[0], right) == [] && k < |es| && es[k].Recv? && es[k].right == right
    requires es[k].result.Received?
    ensures |TakenAt(ps, es, right, k)| < |SentTo(es, right, k)|
    ensures es[k].out == Truncate(SentTo(es, right, k)[|TakenAt(ps, es, right, k)|], es[k].len)
    ensures TakenAt(ps, es, right, k) <= SentTo(es, right, k)
  {
    Conserved(ps, es, right, k);
    assert Step(ps[k], es[k], ps[k + 1]);
    var taken, q := TakenAt(ps, es, right, k), QueueAt(ps[k], right);
    assert taken + q == SentTo(es, right, k);
    assert (taken + q)[|taken|] == q[0];
  }
}

/** send() and recv() on the descriptors (src/ipc/sockio.c). */
module SocketIO {
  import opened Messages

  const SOCKET_IO_BACKLOG := 64

  class Endpoint {
    var peer: Endpoint?
    const local: bool
    var inbound: array?<Message>
    var inboundLen: array?<nat>
    var inboundMax: nat
    var inboundCount: nat

    ghost predicate Valid()
      reads this, inbound, inboundLen
    {
      && (inboundMax != 0 ==> inbound != null && inboundLen != null)
      && (inboundMax != 0 ==> inboundMax <= inbound.Length && inboundMax <= inboundLen.Length)
      && inboundCount <= inboundMax
      && forall i :: 0 <= i < inboundCount ==> |inbound[i]| == inboundLen[i]
    }

    /** The messages waiting to be received, oldest first. */
    ghost function Queue(): seq<Message>
      requires Valid()
      reads this, inbound, inboundLen
    {
      if inboundMax == 0 then [] else inbound[..inboundCount]
    }

    constructor (local: bool)
      ensures Valid() && Queue() == [] && peer == null && this.local == local && inbound == null && inboundLen == null
    {
      this.local, peer := local, null;
      inbound, inboundLen, inboundMax, inboundCount := null, null, 0, 0;
    }

    /** A connection: the two ends point at each other and keep their messages in memory of their own. */
    ghost predicate Linked()
      reads this, inbound, inboundLen, peer, if peer == null then null else peer.inbound,
            if peer == null then null else peer.inboundLen
    {
      && peer != null && peer != this && peer.peer == this
      && Valid() && peer.Valid()
      && (inbound != null ==> inbound != peer.inbound)
      && (inboundLen != null ==> inboundLen != peer.inboundLen)
    }

    /** The connection, with this end on the right or on the left. */
    ghost function View(right: bool): Pair
      requires Linked()
      reads this, inbound, inboundLen, peer, if peer == null then null else peer.inbound,
            if peer == null then null else peer.inboundLen
    {
      if right then Pair(peer.Queue(), Queue()) else Pair(Queue(), peer.Queue())
    }

    /** What accept() does to the waiting socket and the new one. */
    method Link(other: Endpoint)
      requires Valid() && other.Valid() && other != this && other.inbound == null && other.inboundLen == null
      modifies this`peer, other`peer
      ensures Linked() && peer == other && View(false) == Pair(old(Queue()), [])
    {
      peer, other.peer := other, this;
    }

    /** The lists do not exist yet or are full: the next message needs them allocated. */
    ghost predicate NeedsLists()
      reads this
    {
      inbound == null || inboundLen == null || inboundMax == 0 || inboundCount >= inboundMax
    }

    /** The lists are created on first use; `listOk` and `lensOk` say whether memory was found. */
    method Prepare(listOk: bool, lensOk: bool) returns (ok: bool)
      requires Valid() && (inbound == null || inboundLen == null || inboundMax == 0)
      modifies this`inbound, this`inboundLen, this`inboundMax, this`inboundCount
      ensures Valid() && Queue() == old(Queue()) == []
      ensures ok == (listOk && lensOk) && (ok ==> inboundMax == 64)
      ensures (inbound == null || fresh(inbound)) && (inboundLen == null || fresh(inboundLen))
    {
      if listOk {
        inbound := new Message[SOCKET_IO_BACKLOG](_ => []);
      } else {
        inbound := null;
      }
      if lensOk {
        inboundLen := new nat[SOCKET_IO_BACKLOG](_ => 0);
      } else {
        inboundLen := null;
      }
      if inbound == null || inboundLen == null {
        return false;
      }
      inboundMax := SOCKET_IO_BACKLOG;
      inboundCount := 0;
      return true;
    }

    /** Both lists double; the waiting messages move along. */
    method Grow(listOk: bool, lensOk: bool) returns (ok: bool)
      requires Valid() && 0 < inboundMax
      modifies this`inbound, this`inboundLen, this`inboundMax
      ensures Valid() && Queue() == old(Queue()) && 0 < inboundMax
      ensures ok == (listOk && lensOk) && (ok ==> inboundMax == 2 * old(inboundMax))
      ensures inbound == old(inbound) || fresh(inbound)
      ensures inboundLen == old(inboundLen) || fresh(inboundLen)
    {
      if !listOk {
        return false;
      }
      var list := new Message[inboundMax * 2](_ => []);
      forall i | 0 <= i < inboundMax {
        list[i] := inbound[i];
      }
      inbound := list;
      assert Queue() == old(Queue());
      if !lensOk {
        return false;
      }
      var lens := new nat[inboundMax * 2](_ => 0);
      forall i | 0 <= i < inboundMax {
        lens[i] := inboundLen[i];
      }
      inboundLen := lens;
      inboundMax := inboundMax * 2;
      assert inbound[..inboundCount] == old(Queue());
      return true;
    }

    method Append(message: Message)
      requires Valid() && inboundCount < inboundMax
      modifies this`inboundCount, inbound, inboundLen
      ensures Valid() && Queue() == old(Queue()) + [message]
    {
      inbound[inboundCount] := message;
      inboundLen[inboundCount] := |message|;
      inboundCount := inboundCount + 1;
    }

    /** The oldest message leaves; the others and their lengths move up. */
    method Shift()
      requires Valid() && 0 < inboundCount
      modifies this`inboundCount, inbound, inboundLen
      ensures Valid() && Queue() == old(Queue())[1..]
    {
      inboundCount := inboundCount - 1;
      ghost var q := inbound[..inboundCount + 1];
      forall i | 0 <= i < inboundCount {
        inbound[i] := inbound[i + 1];
      }
      forall i | 0 <= i < inboundCount {
        inboundLen[i] := inboundLen[i + 1];
      }
      assert inbound[..inboundCount] == q[1..];
    }

    /** recv() by this end into a buffer of `len` bytes. */
    method Recv(len: nat, peek: bool) returns (r: Result, out: Message)
      requires Valid() && (peer != null ==> Linked())
      modifies this`inboundCount, inbound, inboundLen
      ensures Valid() && RecvStep(old(Queue()), len, peek, r, out, Queue())
      ensures r.NoPeer? <==> peer == null
      ensures r.WouldBlock? <==> peer != null && old(Queue()) == []
      ensures r.NotConnected? <==> peer != null && old(Queue()) != [] && !local
      ensures r.Received? <==> peer != null && old(Queue()) != [] && local
      ensures peer != null ==> Linked() && forall right :: Step(old(View(right)), Event.Recv(right, len, peek, r, out), View(right))
    {
      out := [];
      if peer == null {
        return NoPeer, [];
      }
      if inboundCount == 0 || inbound == null || inboundLen == null {
        return WouldBlock, [];
      }
      if !local {
        return NotConnected, [];
      }
      var message := inbound[0];
      var length := inboundLen[0];
      if length > len {
        length := len;
      }
      out := message[..length];
      if !peek {
        Shift();
      }
      return Received(length), out;
    }

    /** A message arrives at this end; the flags say which allocations succeed. */
    method Deliver(buffer: Message, listOk: bool, lensOk: bool, messageOk: bool) returns (r: Result)
      requires Valid()
      modifies this`inbound, this`inboundLen, this`inboundMax, this`inboundCount, inbound, inboundLen
      ensures Valid() && SendStep(old(Queue()), buffer, r, Queue())
      ensures (inbound == old(inbound) || inbound == null || fresh(inbound))
      ensures (inboundLen == old(inboundLen) || inboundLen == null || fresh(inboundLen))
      ensures r.NoMemory? <==> old(NeedsLists()) && !(listOk && lensOk)
      ensures r.NoBuffers? <==> !r.NoMemory? && (buffer == [] || !messageOk)
      ensures r.NoMemory? || r.NoBuffers? || r.Sent?
    {
      if inbound == null || inboundLen == null || inboundMax == 0 {
        var ok := Prepare(listOk, lensOk);
        if !ok {
          return NoMemory;
        }
      }
      if inboundCount >= inboundMax {
        var ok := Grow(listOk, lensOk);
        if !ok {
          return NoMemory;
        }
      }
      if buffer == [] || !messageOk {
        return NoBuffers;
      }
      Append(buffer);
      return Sent(|buffer|);
    }

    /** send() by this end. */
    method Send(buffer: Message, listOk: bool, lensOk: bool, messageOk: bool) returns (r: Result)
      requires peer != null ==> Linked()
      modifies peer, if peer == null then null else peer.inbound, if peer == null then null else peer.inboundLen
      ensures peer == old(peer) && (peer == null <==> r.NoPeer?)
      ensures peer != null ==> peer.inbound == old(peer.inbound) || peer.inbound == null || fresh(peer.inbound)
      ensures peer != null ==> peer.inboundLen == old(peer.inboundLen) || peer.inboundLen == null || fresh(peer.inboundLen)
      ensures peer != null ==> Linked() && SendStep(old(peer.Queue()), buffer, r, peer.Queue())
      ensures peer != null ==> forall right :: Step(old(View(right)), Event.Send(right, buffer, r), View(right))
      ensures r.NotConnected? <==> peer != null && !local
      ensures r.NoMemory? <==> peer != null && local && old(peer.NeedsLists()) && !(listOk && lensOk)
      ensures r.NoBuffers? <==> peer != null && local && !r.NoMemory? && (buffer == [] || !messageOk)
      ensures r.NoPeer? || r.NotConnected? || r.NoMemory? || r.NoBuffers? || r.Sent?
    {
      if peer == null {
        return NoPeer;
      }
      if !local {
        return NotConnected;
      }
      r := peer.Deliver(buffer, listOk, lensOk, messageOk);
    }
  }
}
