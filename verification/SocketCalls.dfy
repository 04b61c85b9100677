/** send() and recv() from the system call down to the message queue: who goes on running and who waits. */
module SocketCalls {
  import opened Requests
  import opened Dispatchers
  import SyscallMachine
  import opened SyscallView
  import opened SyscallQueue
  import opened Messages
  import opened SocketIO

  /** The number a call returns: bytes moved, or a negative error code of src/include/errno.h. */
  function StatusOf(r: Result): int {
    match r
    case Sent(n) => n
    case Received(n) => n
    case NoPeer => -17
    case NotConnected => -53
    case NoMemory => -48
    case NoBuffers => -42
    case WouldBlock => -75
  }

  const RECV := 51
  const SEND := 52

  /** MSG_PEEK among the flags of recv(). */
  predicate Peeks(flags: nat) {
    flags % 2 == 1
  }

  /** The bytes of a buffer that the call may touch. */
  lemma BufferInUser(number: nat, p: Params, n: nat)
    requires number in {51, 52} && PointersOk(number, p) && p.b + p.c < 0x1_0000_0000_0000_0000 && n <= p.c
    ensures InUserMemory(Pointer(p.b, n))
  {
    CheckedMemory(number, p);
    AcceptedInUserIff(Pointer(p.b, p.c));
    forall a: nat | p.b <= a < p.b + n
      ensures UserAddress(a)
    {
    }
  }

  /** The caller waits for its turn: it is blocked with its request at the end of the queue. */
  ghost predicate Waits(k: Kernel, t: nat, q: seq<nat>)
    reads k
  {
    t in k.threads && k.threads[t].status.Blocked? && k.queue == q + [t]
  }

  /** The caller goes on, and the queue is as it was. */
  ghost predicate GoesOn(k: Kernel, t: nat, q: seq<nat>)
    reads k
  {
    t in k.threads && k.threads[t].status.Running? && k.queue == q
  }

  predicate Blocks(status: int, nonblock: bool) {
    status in {-6, -75} && !nonblock
  }

  lemma CallLeaves(th: Thread, number: nat, p: Params, env: Env, th': Thread)
    requires number in {51, 52} && th.status.Running? && !th.queued && !th.external && PointersOk(number, p)
    requires th' == Handled(th, number, p, OutcomeOf(number, p, env))
    ensures th'.queued <==> Blocks(env.status, env.nonblock)
    ensures th'.status == if Blocks(env.status, env.nonblock) then Blocked else Running
  {
    HandledWhere(th, number, p, env);
  }

  lemma ServiceLeaves(th: Thread, signal: Signal, env: Env, th': Thread)
    requires th.number == RECV && PointersOk(RECV, th.params) && !Strikes(th, signal)
    requires th.status.Blocked? && !th.external && !th.unblock
    requires th' == Served(th, signal, OutcomeOf(th.number, th.params, env))
    ensures th'.queued <==> Blocks(env.status, env.nonblock)
    ensures th'.status == if Blocks(env.status, env.nonblock) then Blocked else Queued
    ensures SyscallMachine.Serviceable(Request(th.number, th.params), false, env)
  {
    ServedWhere(th, signal, env);
    ServedAs(th, signal, OutcomeOf(th.number, th.params, env));
  }

  /** The dispatcher of recv() or send() with the status of the inner call. */
  method Enter(k: Kernel, t: nat, number: nat, p: Params, status: int, nonblock: bool)
    requires k.Valid() && t in k.threads && k.threads[t].status.Running? && PointersOk(number, p) && number in {51, 52}
    modifies k
    ensures k.Valid()
    ensures if Blocks(status, nonblock) then Waits(k, t, old(k.queue)) else GoesOn(k, t, old(k.queue))
  {
    var env := Env(status, nonblock, false);
    ghost var th := k.threads[t];
    assert !th.queued && !th.external by {
      assert k.View().status[t].Running?;
    }
    k.Handle(t, number, p, env);
    CallLeaves(th, number, p, env, k.threads[t]);
  }

  /** What recv() leaves of the messages `q`, and its status: would-block exactly when there is none. */
  ghost predicate Fetched(q: seq<Message>, p: Params, r: Result, out: Message, q': seq<Message>, status: int) {
    && RecvStep(q, p.c, p.d % 2 == 1, r, out, q') && (r.Received? <==> q != [])
    && (status in {-6, -75} <==> q == [])
  }

  /** The inner call. */
  method Fetch(e: Endpoint, p: Params) returns (r: Result, out: Message, status: int)
    requires e.Linked() && e.local
    modifies e`inboundCount, e.inbound, e.inboundLen
    ensures e.Linked() && Fetched(old(e.Queue()), p, r, out, e.Queue(), status)
  {
    r, out := e.Recv(p.c, Peeks(p.d));
    status := StatusOf(r);
  }

  /**
   recv() on one end of a local connection. The call is finished if and only if a message waits or the
   descriptor is non-blocking; otherwise the caller is blocked, and its request is once in the queue, at its end.
   */
  method ReceiveCall(k: Kernel, e: Endpoint, t: nat, p: Params, nonblock: bool)
    returns (r: Result, out: Message, status: int)
    requires k.Valid() && t in k.threads && k.threads[t].status.Running? && PointersOk(RECV, p)
    requires e.Linked() && e.local
    modifies k, e`inboundCount, e.inbound, e.inboundLen
    ensures k.Valid() && e.Linked()
    ensures if old(e.Queue()) == [] && !nonblock then Waits(k, t, old(k.queue)) else GoesOn(k, t, old(k.queue))
    ensures Fetched(old(e.Queue()), p, r, out, e.Queue(), status)
    ensures p.b + p.c < 0x1_0000_0000_0000_0000 && r.Received? ==> InUserMemory(Pointer(p.b, |out|))
  {
    r, out, status := Fetch(e, p);
    Enter(k, t, RECV, p, status, nonblock);
    if p.b + p.c < 0x1_0000_0000_0000_0000 && r.Received? {
      BufferInUser(RECV, p, |out|);
    }
  }

  method Post(e: Endpoint, message: Message, listOk: bool, lensOk: bool, messageOk: bool) returns (r: Result, status: int)
    requires e.Linked()
    modifies e.peer, e.peer.inbound, e.peer.inboundLen
    ensures e.peer == old(e.peer) && e.Linked() && SendStep(old(e.peer.Queue()), message, r, e.peer.Queue())
    ensures status !in {-6, -75} && (e.local && listOk && lensOk && messageOk && message != [] ==> r.Sent?)
  {
    r := e.Send(message, listOk, lensOk, messageOk);
    status := StatusOf(r);
  }

  /** send() never waits, whatever its descriptor; the message joins the queue of the other end or an error is returned. */
  method SendCall(k: Kernel, e: Endpoint, t: nat, p: Params, message: Message, nonblock: bool, listOk: bool, lensOk: bool, messageOk: bool)
    returns (r: Result, status: int)
    requires k.Valid() && t in k.threads && k.threads[t].status.Running? && PointersOk(SEND, p) && |message| == p.c
    requires e.Linked()
    modifies k, e.peer, e.peer.inbound, e.peer.inboundLen
    ensures k.Valid() && e.peer == old(e.peer) && e.Linked() && GoesOn(k, t, old(k.queue))
    ensures SendStep(old(e.peer.Queue()), message, r, e.peer.Queue())
    ensures e.local && listOk && lensOk && messageOk && message != [] ==> r.Sent?
    ensures p.b + p.c < 0x1_0000_0000_0000_0000 ==> InUserMemory(Pointer(p.b, |message|))
  {
    r, status := Post(e, message, listOk, lensOk, messageOk);
    Enter(k, t, SEND, p, status, nonblock);
    if p.b + p.c < 0x1_0000_0000_0000_0000 {
      BufferInUser(SEND, p, |message|);
    }
  }

  /** A kernel thread takes up the recv() at the head of the queue, with the status of the inner call. */
  method TakeUp(k: Kernel, signal: Signal, status: int, nonblock: bool)
    requires k.Valid() && k.queue != [] && k.queue[0] in k.threads
    requires var th := k.threads[k.queue[0]]; th.number == RECV && PointersOk(RECV, th.params) && !Strikes(th, signal)
    modifies k
    ensures k.Valid()
    ensures var t := old(k.queue)[0];
            if Blocks(status, nonblock) then Waits(k, t, old(k.queue)[1..])
            else t in k.threads && k.threads[t].status.Queued? && k.queue == old(k.queue)[1..]
  {
    ghost var t := k.queue[0];
    ghost var th := k.threads[t];
    var env := Env(status, nonblock, false);
    assert th.status.Blocked? && !th.external && !th.unblock by {
      assert t in k.queue && t in k.View().status;
    }
    ServiceLeaves(th, signal, env, Served(th, signal, OutcomeOf(th.number, th.params, env)));
    var worked := k.Process(signal, env);
  }

  /** The service of a waiting recv(): the thread is ready again if and only if a message waits, else its turn comes later. */
  method ReceiveService(k: Kernel, e: Endpoint, signal: Signal, p: Params)
    returns (r: Result, out: Message, status: int)
    requires k.Valid() && k.queue != [] && k.queue[0] in k.threads
    requires var th := k.threads[k.queue[0]]; th.number == RECV && th.params == p && PointersOk(RECV, p) && !Strikes(th, signal)
    requires e.Linked() && e.local
    modifies k, e`inboundCount, e.inbound, e.inboundLen
    ensures k.Valid() && e.Linked()
    ensures var t := old(k.queue)[0];
            if old(e.Queue()) == [] then Waits(k, t, old(k.queue)[1..])
            else t in k.threads && k.threads[t].status.Queued? && k.queue == old(k.queue)[1..]
    ensures Fetched(old(e.Queue()), p, r, out, e.Queue(), status)
  {
    r, out, status := Fetch(e, p);
    TakeUp(k, signal, status, false);
  }

  /** A message sent to a waiting receiver: its next service hands the message over and makes it ready. */
  method HandOver(k: Kernel, e: Endpoint, message: Message, signal: Signal, p: Params) returns (out: Message)
    requires k.Valid() && k.queue != [] && k.queue[0] in k.threads
    requires var th := k.threads[k.queue[0]]; th.number == RECV && th.params == p && PointersOk(RECV, p) && !Strikes(th, signal)
    requires e.Linked() && e.local && e.peer.local && e.peer.Queue() == [] && message != []
    modifies k, e.peer, e.peer.inbound, e.peer.inboundLen
    ensures k.Valid() && out == Truncate(message, p.c)
    ensures var t := old(k.queue)[0]; t in k.threads && k.threads[t].status.Queued? && k.queue == old(k.queue)[1..]
  {
    var sent := e.Send(message, true, true, true);
    assert e.peer.Linked();
    var r, status;
    r, out, status := ReceiveService(k, e.peer, signal, p);
  }
}
