/** Threads and their system call requests as the kernel's records hold them (src/include/kernel/syscalls.h). */
module Requests {
  datatype Status = Queued | Running | Blocked | Zombie

  /** The four parameter registers of a call. */
  datatype Params = Params(a: nat, b: nat, c: nat, d: nat)

  datatype Request = Request(number: nat, params: Params)

  /** One thread with its embedded request; `next` is the thread whose request follows, zero for none. */
  datatype Thread = Thread(
    status: Status, number: nat, params: Params, busy: bool, queued: bool, unblock: bool, external: bool, retry: bool, next: nat,
    pending: nat, handling: bool)

  type Table = map<nat, Thread>

  const MAX_SYSCALL := 66

  /** Calls that are dispatched at once instead of being queued. */
  predicate Immediate(number: nat) {
    48 <= number <= 52 || 18 <= number <= 19 || number == 22
  }

  predicate Defined(number: nat) {
    number <= MAX_SYSCALL && number !in {10, 11, 32, 36}
  }

  /** What a dispatcher does with its request. */
  datatype Outcome =
    | Done               // a result or an error: unblock
    | Retry(mark: bool)  // would block: back into the queue, some dispatchers also set retry
    | Relay              // sent to a server
    | Kill               // exit(), or a bad pointer: the thread is terminated
    | KillRetry          // terminated, then put back into the queue
    | KillDone           // terminated, then marked to be unblocked
    | Stall              // would block on a non-blocking descriptor in read() or write(): nothing is set

  /** The effect a pending signal has when it is taken. */
  datatype Signal = Ignored | Fatal | Caught

  /** A pending signal terminates the thread when it is taken now. */
  predicate Strikes(th: Thread, signal: Signal) {
    signal.Fatal? && 0 < th.pending && !th.handling
  }

  /** signalHandle, as far as it touches the thread. */
  function Signalled(th: Thread, signal: Signal): (r: Thread)
    ensures r.status == if Strikes(th, signal) then Zombie else th.status
  {
    if th.handling || th.pending == 0 then th
    else
      var taken := th.(pending := th.pending - 1);
      match signal
      case Ignored => taken
      case Fatal => taken.(status := Zombie)
      case Caught => taken.(handling := true)
  }

  /** Thread and request in their final state: a result, an error, a wait or a relay. */
  predicate Regular(o: Outcome) {
    o.Done? || o.Retry? || o.Relay?
  }

  predicate Deadly(o: Outcome) {
    o.Kill? || o.KillRetry? || o.KillDone?
  }

  function At(q: seq<nat>, i: nat): nat {
    if i < |q| then q[i] else 0
  }

  /** Following `next` from `head` visits `q` and ends in null. */
  ghost predicate Chain(threads: Table, head: nat, q: seq<nat>) {
    && head == At(q, 0)
    && (forall i :: 0 <= i < |q| ==> q[i] in threads && q[i] != 0)
    && (forall i :: 0 <= i < |q| ==> threads[q[i]].next == At(q, i + 1))
  }

  ghost predicate Distinct(q: seq<nat>) {
    forall i, j :: 0 <= i < j < |q| ==> q[i] != q[j]
  }

  /** Changing anything but links keeps the list. */
  lemma ChainSame(a: Table, b: Table, head: nat, q: seq<nat>)
    requires Chain(a, head, q)
    requires forall t :: t in a ==> t in b && (t in q ==> b[t].next == a[t].next)
    ensures Chain(b, head, q)
  {
    forall i | 0 <= i < |q|
      ensures b[q[i]].next == At(q, i + 1)
    {
      assert a[q[i]].next == At(q, i + 1);
    }
  }

  /** Two positions with the same request would continue alike for ever, so a null-terminated list has no repeats. */
  lemma {:induction false} SameTail(threads: Table, head: nat, q: seq<nat>, i: nat, j: nat, k: nat)
    requires Chain(threads, head, q) && i < j < |q| && q[i] == q[j] && j + k <= |q|
    ensures At(q, i + k) == At(q, j + k)
  {
    if k != 0 {
      SameTail(threads, head, q, i, j, k - 1);
      assert threads[q[i + k - 1]].next == At(q, i + k);
      assert threads[q[j + k - 1]].next == At(q, j + k);
    }
  }

  lemma ChainDistinct(threads: Table, head: nat, q: seq<nat>)
    requires Chain(threads, head, q)
    ensures Distinct(q)
  {
    forall i, j | 0 <= i < j < |q|
      ensures q[i] != q[j]
    {
      if q[i] == q[j] {
        SameTail(threads, head, q, i, j, |q| - j);
        assert false;
      }
    }
  }

  /** The pointers determine the queue. */
  lemma {:induction false} ChainUnique(threads: Table, head: nat, q: seq<nat>, r: seq<nat>)
    requires Chain(threads, head, q) && Chain(threads, head, r)
    ensures q == r
  {
    var i := 0;
    while i < |q|
      invariant i <= |q| && i <= |r| && q[..i] == r[..i] && At(q, i) == At(r, i)
    {
      i := i + 1;
      assert threads[q[i - 1]].next == At(q, i) == At(r, i);
    }
  }

  /** The fields syscallEnqueue sets in the request it appends. */
  function Enqueued(th: Thread): Thread {
    th.(queued := true, unblock := false, busy := false, retry := th.retry || th.status.Blocked?)
  }

  /** The table and head after syscallEnqueue(t) whose walk ended at `last` (zero when the list was empty). */
  function Appended(threads: Table, last: nat, t: nat): Table
    requires t in threads && (last != 0 ==> last in threads)
  {
    var u := threads[t := Enqueued(threads[t])];
    if last == 0 then u else u[last := u[last].(next := t)]
  }

  /** Appending a request that is not in the list yields the list with it at the end exactly when its link is null. */
  lemma AppendIff(threads: Table, head: nat, q: seq<nat>, t: nat)
    requires Chain(threads, head, q) && t in threads && t != 0 && t !in q
    ensures var last := if q == [] then 0 else q[|q| - 1];
            Chain(Appended(threads, last, t), if q == [] then t else head, q + [t]) <==> threads[t].next == 0
  {
    ChainDistinct(threads, head, q);
    var last := if q == [] then 0 else q[|q| - 1];
    var u := Appended(threads, last, t);
    var r := q + [t];
    assert u[t].next == threads[t].next && r[|q|] == t && At(r, |q| + 1) == 0;
    if threads[t].next == 0 {
      forall i | 0 <= i < |r|
        ensures u[r[i]].next == At(r, i + 1)
      {
        assert i < |q| - 1 ==> threads[q[i]].next == At(q, i + 1);
      }
    }
  }

  lemma AppendChain(threads: Table, head: nat, q: seq<nat>, last: nat, t: nat)
    requires Chain(threads, head, q) && t in threads && t != 0 && t !in q && threads[t].next == 0
    requires last == if q == [] then 0 else q[|q| - 1]
    ensures Chain(Appended(threads, last, t), if q == [] then t else head, q + [t])
    ensures last != t && Appended(threads, last, t)[t] == Enqueued(threads[t])
    ensures Appended(threads, last, t).Keys == threads.Keys
    ensures forall u :: u in threads && u != t ==>
              Appended(threads, last, t)[u] == threads[u].(next := Appended(threads, last, t)[u].next)
  {
    AppendIff(threads, head, q, t);
  }

  /** Why the list needs that: a request taken off the front of a longer list and appended unchanged closes a cycle. */
  lemma StaleLinkCycles(threads: Table, head: nat, q: seq<nat>, r: seq<nat>)
    requires Chain(threads, head, q) && 2 <= |q|
    ensures !Chain(Appended(threads, q[|q| - 1], q[0]), q[1], r)
  {
    ChainDistinct(threads, head, q);
    var u := Appended(threads, q[|q| - 1], q[0]);
    if Chain(u, q[1], r) {
      ChainDistinct(u, q[1], r);
      var i := 0;
      while i < |q| - 1
        invariant i <= |q| - 1 && i < |r| && r[i] == At(q[1..] + [q[0]], i)
      {
        assert u[r[i]].next == At(r, i + 1);
        i := i + 1;
      }
      assert false;
    }
  }

  /** A request record after its dispatcher returned. */
  function Dispatched(th: Thread, o: Outcome): Thread {
    match o
    case Done => th.(unblock := true)
    case Retry(mark) => Enqueued(th.(next := 0, retry := th.retry || mark))
    case Relay => th.(external := true, unblock := false)
    case Kill => th.(status := Zombie)
    case KillRetry => Enqueued(th.(status := Zombie, next := 0))
    case KillDone => th.(status := Zombie, unblock := true)
    case Stall => th
  }

  /** syscallHandle's own decision after a direct dispatch. */
  function Settled(th: Thread): Thread {
    th.(status := if th.unblock then Running else Blocked)
  }

  /** The request waits in exactly one place if the thread is blocked, in none otherwise. */
  predicate Accounted(th: Thread) {
    th.status.Blocked? == (th.queued || th.external) && !(th.queued && th.external)
  }

  /** syscallProcess's own decision, for a blocked thread whose unblock flag was cleared when it was queued. */
  function Woken(th: Thread): Thread {
    if th.status.Blocked? && th.unblock then th.(status := Queued, busy := false) else th
  }
}

/** The dispatch table (src/syscalls/dispatch.c): what a call does to its request, from its arguments. */
module Dispatchers {
  import opened Requests

  const USER_BASE_ADDRESS := 0x40_0000
  const USER_LIMIT_ADDRESS := 0xFFFF_7FFF_FFFF_FFFF
  const MAX_FILE_PATH := 2048
  const EAGAIN := 6
  const EINPROGRESS := 26
  const EWOULDBLOCK := 75

  const READ := 18
  const WRITE := 19
  const ACCEPT := 50
  const IOCTL := 63

  datatype Pointer = Pointer(base: nat, length: nat)

  /** syscallVerifyPointer: the end address is computed in 64 bits. */
  predicate PointerOk(p: Pointer) {
    USER_BASE_ADDRESS <= p.base && (p.base + p.length) % 0x1_0000_0000_0000_0000 <= USER_LIMIT_ADDRESS
  }

  /** User programs live from 4 MiB up to the kernel base. */
  predicate UserAddress(a: nat) {
    0x40_0000 <= a < 0xFFFF_8000_0000_0000
  }

  /** What the check is for: every byte of the stretch belongs to the user half. */
  ghost predicate InUserMemory(p: Pointer) {
    forall a: nat | p.base <= a < p.base + p.length :: UserAddress(a)
  }

  /** A stretch that passes the check lies in user memory if and only if its end does not wrap around. */
  lemma AcceptedInUserIff(p: Pointer)
    requires p.base < 0x1_0000_0000_0000_0000 && PointerOk(p)
    ensures InUserMemory(p) <==> p.base + p.length < 0x1_0000_0000_0000_0000
  {
    if 0x1_0000_0000_0000_0000 <= p.base + p.length {
      assert !UserAddress(p.base + p.length - 1);
    }
  }

  /** Nothing else is lost by the check than stretches that end with the last byte of user memory. */
  lemma RefusedInUserIff(p: Pointer)
    requires 0 < p.length && InUserMemory(p)
    ensures PointerOk(p) <==> p.base + p.length != USER_LIMIT_ADDRESS + 1
  {
    assert UserAddress(p.base) && UserAddress(p.base + p.length - 1);
  }

  /** A send() whose buffer covers the whole kernel half passes the check. */
  lemma KernelStretchAccepted()
    ensures PointersOk(51, Params(3, 0xFFFF_8000_0000_0000, 0x8000_0000_0000, 0))
    ensures !InUserMemory(Pointer(0xFFFF_8000_0000_0000, 0x8000_0000_0000))
  {
    assert !UserAddress(0xFFFF_8000_0000_0000);
  }

  function Path(base: nat): Pointer {
    Pointer(base, MAX_FILE_PATH)
  }

  function Optional(base: nat, length: nat): seq<Pointer> {
    if base == 0 then [] else [Pointer(base, length)]
  }

  /** The user memory a call names, with the sizes of the structures expected there. */
  function Pointers(number: nat, p: Params): seq<Pointer> {
    match number
    case 3 => [Pointer(p.b, 4)]
    case 4 => [Path(p.a), Pointer(p.b, 1024), Pointer(p.c, 1024)]
    case 13 => [Pointer(p.a, 16)]
    case 16 => [Path(p.a)]
    case 18 => [Pointer(p.b, p.c)]
    case 19 => [Pointer(p.b, p.c)]
    case 20 => [Path(p.a), Pointer(p.b, 96)]
    case 21 => [Pointer(p.b, 96)]
    case 23 => [Path(p.a)]
    case 24 => [Path(p.a)]
    case 25 => [Path(p.a), Path(p.b)]
    case 26 => [Path(p.a)]
    case 27 => [Path(p.a), Path(p.b)]
    case 28 => [Path(p.a), Pointer(p.b, p.c)]
    case 30 => [Path(p.a)]
    case 31 => [Path(p.a)] + Optional(p.b, 16)
    case 33 => [Path(p.a)]
    case 35 => [Path(p.a), Path(p.b), Pointer(p.c, 32)]
    case 37 => if p.b == 0x8000 then [Path(p.c)] else []
    case 38 => [Path(p.a)]
    case 40 => [Pointer(p.b, 8), Pointer(p.c, 8)]
    case 44 => [Path(p.a), Pointer(p.b, 88)]
    case 45 => [Pointer(p.b, 88)]
    case 47 => [Pointer(p.b, p.c)]
    case 48 => [Pointer(p.b, p.c)]
    case 50 => if p.b == 0 then [] else [Pointer(p.b, 514), Pointer(p.c, 8)]
    case 51 => [Pointer(p.b, p.c)]
    case 52 => [Pointer(p.b, p.c)]
    case 54 => Optional(p.b, 24) + Optional(p.c, 24)
    case 56 => Optional(p.b, 8) + Optional(p.c, 8)
    case 58 => [Pointer(p.a, 40)]
    case 62 => [Pointer(p.b, 536)]
    case 63 => if p.b / 2 % 2 == 1 then [Pointer(p.c, 8)] else []
    case _ => []
  }

  predicate PointersOk(number: nat, p: Params) {
    forall i :: 0 <= i < |Pointers(number, p)| ==> PointerOk(Pointers(number, p)[i])
  }

  /** The forms the dispatchers come in. */
  datatype Shape =
    | Exiting | Plain | Waiting | Relayed | Inquiring | Reading | Writing | Connecting | Transferring | Accepting | Controlling

  function ShapeOf(number: nat): Shape {
    if number == 0 then Exiting
    else if number == 3 then Waiting
    else if number == 18 then Reading
    else if number == 19 then Writing
    else if number == 21 then Inquiring
    else if number == 47 then Connecting
    else if number == 50 then Accepting
    else if number == 51 || number == 52 then Transferring
    else if number == 63 then Controlling
    else if number in {4, 16, 17, 20, 23, 24, 25, 26, 27, 28, 30, 31, 33, 35, 38, 40, 43, 44, 45, 58, 60} then Relayed
    else Plain
  }

  /** What the dispatcher meets: the status of the inner call, and the flags of the descriptor. */
  datatype Env = Env(status: int, nonblock: bool, device: bool)

  predicate WouldBlock(status: int) {
    status == -EWOULDBLOCK || status == -EAGAIN
  }

  /** What the dispatcher of a call does when its pointers are good. */
  function Answer(shape: Shape, p: Params, env: Env): Outcome {
    match shape
    case Exiting => Kill
    case Plain => Done
    case Waiting => if env.status == 0 && p.c / 2 % 2 == 0 then Retry(true) else Done
    case Relayed => if env.status == 0 then Relay else Done
    case Inquiring => if env.status < 0 || env.status == 1 then Done else Relay
    case Reading =>
      if WouldBlock(env.status) then (if env.nonblock then Stall else Retry(true))
      else if env.status != 0 then Done else Relay
    case Writing =>
      if WouldBlock(env.status) then (if env.nonblock then Stall else Retry(true))
      else if env.status != 0 || env.device then Done else Relay
    case Connecting => if WouldBlock(env.status) || env.status == -EINPROGRESS then Retry(false) else Done
    case Transferring => if WouldBlock(env.status) && !env.nonblock then Retry(false) else Done
    case Accepting => if WouldBlock(env.status) && !env.nonblock then Retry(false) else Done
    case Controlling => if env.status == 0 then Relay else Done
  }

  /** A failed pointer check terminates the thread; accept() and ioctl() go on afterwards. */
  function Failure(shape: Shape, env: Env): Outcome {
    match shape
    case Accepting => if env.nonblock then KillDone else KillRetry
    case Controlling => KillDone
    case _ => Kill
  }

  function OutcomeOf(number: nat, p: Params, env: Env): Outcome {
    var shape := ShapeOf(number);
    if PointersOk(number, p) then Answer(shape, p, env) else Failure(shape, env)
  }

  predicate ReadsOrWrites(number: nat) {
    number == READ || number == WRITE
  }

  // ---------------------------------------------------------------- outcomes by call number and arguments

  /** The calls that wait for something: a child, a connection, a message, room or data. */
  predicate MustWait(number: nat, p: Params, env: Env) {
    || (number == 3 && env.status == 0 && !NoHang(p.c))
    || (number == 47 && env.status in {-6, -26, -75})
    || (number in {18, 19, 50, 51, 52} && env.status in {-6, -75} && !env.nonblock)
  }

  /** WNOHANG among the options of waitpid(). */
  predicate NoHang(options: nat) {
    options / 2 % 2 == 1
  }

  /** The calls that a server has to answer: file system calls, and reads and writes that moved no data yet. */
  predicate NeedsServer(number: nat, env: Env) {
    || (number in {4, 16, 17, 18, 20, 23, 24, 25, 26, 27, 28, 30, 31, 33, 35, 38, 40, 43, 44, 45, 58, 60, 63} && env.status == 0)
    || (number == 19 && env.status == 0 && !env.device)
    || (number == 21 && (env.status == 0 || 1 < env.status))
  }

  /**
   For every call number: with good pointers it goes back into the queue exactly when it must wait, is sent
   to a server exactly when it needs one, and is otherwise finished at once, exit() and stalled calls apart.
   */
  lemma WaitsIff(number: nat, p: Params, env: Env)
    requires PointersOk(number, p)
    ensures var o := OutcomeOf(number, p, env);
            && (o.Retry? <==> MustWait(number, p, env))
            && (o.Relay? <==> NeedsServer(number, env))
            && (o.Done? <==> number != 0 && !MustWait(number, p, env) && !NeedsServer(number, env)
                             && !(number in {18, 19} && env.nonblock && env.status in {-6, -75}))
            && (o.Retry? ==> (o.mark <==> number in {3, 18, 19}))
  {
  }

  /** The structures that calls name besides paths and buffers, by parameter and size. */
  predicate StructuresOk(number: nat, p: Params) {
    && (number == 3 ==> PointerOk(Pointer(p.b, 4)))
    && (number == 4 ==> PointerOk(Pointer(p.b, 1024)) && PointerOk(Pointer(p.c, 1024)))
    && (number == 13 ==> PointerOk(Pointer(p.a, 16)))
    && (number in {20, 21} ==> PointerOk(Pointer(p.b, 96)))
    && (number == 31 && p.b != 0 ==> PointerOk(Pointer(p.b, 16)))
    && (number == 35 ==> PointerOk(Pointer(p.c, 32)))
    && (number == 40 ==> PointerOk(Pointer(p.b, 8)) && PointerOk(Pointer(p.c, 8)))
    && (number in {44, 45} ==> PointerOk(Pointer(p.b, 88)))
    && (number == 50 && p.b != 0 ==> PointerOk(Pointer(p.b, 514)) && PointerOk(Pointer(p.c, 8)))
    && (number == 54 ==> (p.b != 0 ==> PointerOk(Pointer(p.b, 24))) && (p.c != 0 ==> PointerOk(Pointer(p.c, 24))))
    && (number == 56 ==> (p.b != 0 ==> PointerOk(Pointer(p.b, 8))) && (p.c != 0 ==> PointerOk(Pointer(p.c, 8))))
    && (number == 58 ==> PointerOk(Pointer(p.a, 40)))
    && (number == 62 ==> PointerOk(Pointer(p.b, 536)))
    && (number == 63 && p.b / 2 % 2 == 1 ==> PointerOk(Pointer(p.c, 8)))
  }

  lemma AllOf(ps: seq<Pointer>)
    ensures |ps| == 0 ==> forall i :: 0 <= i < |ps| ==> PointerOk(ps[i])
    ensures |ps| == 1 ==> ((forall i :: 0 <= i < |ps| ==> PointerOk(ps[i])) <==> PointerOk(ps[0]))
    ensures |ps| == 2 ==> ((forall i :: 0 <= i < |ps| ==> PointerOk(ps[i])) <==> PointerOk(ps[0]) && PointerOk(ps[1]))
    ensures |ps| == 3 ==>
              ((forall i :: 0 <= i < |ps| ==> PointerOk(ps[i])) <==> PointerOk(ps[0]) && PointerOk(ps[1]) && PointerOk(ps[2]))
  {
  }

  /** What is checked before a call: its paths of 2048 bytes, its buffer over its whole length, its structures. */
  lemma CheckedMemory(number: nat, p: Params)
    ensures PointersOk(number, p) <==>
            && (number in {4, 16, 20, 23, 24, 25, 26, 27, 28, 30, 31, 33, 35, 38, 44} ==> PointerOk(Pointer(p.a, 2048)))
            && (number in {25, 27, 35} ==> PointerOk(Pointer(p.b, 2048)))
            && (number == 37 && p.b == 0x8000 ==> PointerOk(Pointer(p.c, 2048)))
            && (number in {18, 19, 28, 47, 48, 51, 52} ==> PointerOk(Pointer(p.b, p.c)))
            && StructuresOk(number, p)
  {
    AllOf(Pointers(number, p));
  }

  /** The irregular outcomes, each with the arguments that lead to it. */
  lemma OutcomeKinds(number: nat, p: Params, env: Env)
    ensures var o := OutcomeOf(number, p, env);
            && (Deadly(o) <==> number == 0 || !PointersOk(number, p))
            && (o.KillRetry? <==> number == ACCEPT && !PointersOk(number, p) && !env.nonblock)
            && (o.KillDone? <==> !PointersOk(number, p) && (number == IOCTL || (number == ACCEPT && env.nonblock)))
            && (o.Stall? <==> ReadsOrWrites(number) && PointersOk(number, p) && env.nonblock && WouldBlock(env.status))
  {
  }

  /** With good pointers and no would-block on a non-blocking file, and only then, a call ends regularly. */
  lemma RegularIff(number: nat, p: Params, env: Env)
    ensures Regular(OutcomeOf(number, p, env)) <==>
            && number != 0 && PointersOk(number, p)
            && !(ReadsOrWrites(number) && env.nonblock && WouldBlock(env.status))
  {
    OutcomeKinds(number, p, env);
  }

  // ---------------------------------------------------------------- direct and queued dispatch

  /** The request is accounted for, and a thread that was terminated is dead. */
  predicate Kept(o: Outcome, th: Thread) {
    Accounted(th) && (Deadly(o) ==> th.status.Zombie?)
  }

  predicate DirectKept(th: Thread, number: nat, p: Params, env: Env) {
    Kept(OutcomeOf(number, p, env), Settled(Dispatched(th, OutcomeOf(number, p, env))))
  }

  predicate DirectSafe(th: Thread, number: nat, p: Params, nonblock: bool) {
    PointersOk(number, p) && (ReadsOrWrites(number) && nonblock ==> th.unblock)
  }

  lemma SettledKept(th: Thread, o: Outcome)
    requires th.status.Running? && Accounted(th)
    ensures Kept(o, Settled(Dispatched(th, o))) <==> !Deadly(o) && (o.Stall? ==> th.unblock)
  {
  }

  /**
   Direct dispatch is sound whatever the inner call returns if and only if the pointers are good and, for read()
   and write() on a non-blocking descriptor, the flag of an earlier finished call happens to be left over.
   */
  lemma DirectIff(th: Thread, number: nat, p: Params, nonblock: bool)
    requires Immediate(number) && th.status.Running? && Accounted(th)
    ensures DirectSafe(th, number, p, nonblock) <==>
            forall env: Env | env.nonblock == nonblock :: DirectKept(th, number, p, env)
  {
    forall env: Env | env.nonblock == nonblock
      ensures DirectKept(th, number, p, env) <==>
              PointersOk(number, p) && (ReadsOrWrites(number) && nonblock && WouldBlock(env.status) ==> th.unblock)
    {
      OutcomeKinds(number, p, env);
      SettledKept(th, OutcomeOf(number, p, env));
    }
    assert DirectKept(th, number, p, Env(-EWOULDBLOCK, nonblock, false)) <==> DirectSafe(th, number, p, nonblock);
  }

  lemma SettledRuns(th: Thread, o: Outcome)
    requires Deadly(o)
    ensures Dispatched(th, o).status.Zombie?
    ensures Settled(Dispatched(th, o)).status ==
            if o.KillDone? || (o.Kill? && th.unblock) then Running else Blocked
  {
  }

  /** Every bad pointer in a direct call: the thread is terminated, and then runs on or waits for ever. */
  lemma BadPointerRevives(th: Thread, number: nat, p: Params, env: Env)
    requires Immediate(number) && !PointersOk(number, p)
    ensures Dispatched(th, OutcomeOf(number, p, env)).status.Zombie?
    ensures Settled(Dispatched(th, OutcomeOf(number, p, env))).status ==
            if (if number == ACCEPT then env.nonblock else th.unblock) then Running else Blocked
  {
    OutcomeKinds(number, p, env);
    SettledRuns(th, OutcomeOf(number, p, env));
  }

  /** For example recv() into a null buffer. */
  lemma NullBufferRevives(th: Thread, env: Env)
    requires th.unblock
    ensures Settled(Dispatched(th, OutcomeOf(51, Params(3, 0, 64, 0), env))).status.Running?
  {
    var p := Params(3, 0, 64, 0);
    assert !PointerOk(Pointers(51, p)[0]);
    BadPointerRevives(th, 51, p, env);
  }

  predicate QueuedKept(th: Thread, number: nat, p: Params, env: Env) {
    Kept(OutcomeOf(number, p, env), Woken(Dispatched(th, OutcomeOf(number, p, env))))
  }

  predicate QueuedSafe(number: nat, p: Params, nonblock: bool) {
    && (number == ACCEPT ==> PointersOk(number, p) || nonblock)
    && (ReadsOrWrites(number) && nonblock ==> !PointersOk(number, p))
  }

  lemma WokenKept(th: Thread, o: Outcome)
    requires th.status.Blocked? && !th.queued && !th.external && !th.unblock
    ensures Kept(o, Woken(Dispatched(th, o))) <==> !o.KillRetry? && !o.Stall?
    ensures Deadly(o) ==> Woken(Dispatched(th, o)).status.Zombie?
  {
  }

  /** Queued dispatch loses track of a request for exactly two families of calls, and never revives a thread. */
  lemma QueuedIff(th: Thread, number: nat, p: Params, nonblock: bool)
    requires th.status.Blocked? && !th.queued && !th.external && !th.unblock
    ensures QueuedSafe(number, p, nonblock) <==>
            forall env: Env | env.nonblock == nonblock :: QueuedKept(th, number, p, env)
    ensures forall env: Env :: Deadly(OutcomeOf(number, p, env)) ==>
              Woken(Dispatched(th, OutcomeOf(number, p, env))).status.Zombie?
  {
    forall env: Env
      ensures QueuedKept(th, number, p, env) <==>
              && !(number == ACCEPT && !PointersOk(number, p) && !env.nonblock)
              && !(ReadsOrWrites(number) && PointersOk(number, p) && env.nonblock && WouldBlock(env.status))
      ensures Deadly(OutcomeOf(number, p, env)) ==> Woken(Dispatched(th, OutcomeOf(number, p, env))).status.Zombie?
    {
      OutcomeKinds(number, p, env);
      WokenKept(th, OutcomeOf(number, p, env));
    }
    assert QueuedKept(th, number, p, Env(-EWOULDBLOCK, nonblock, false)) <==> QueuedSafe(number, p, nonblock);
  }

  // ---------------------------------------------------------------- answers of servers

  datatype Reply = Finish | Again

  /** handleSyscallResponse: only read and write commands are tried again. */
  function ReplyOf(command: nat, status: int, nonblock: bool): Reply {
    if (command == COMMAND_READ || command == COMMAND_WRITE) && WouldBlock(status) && !nonblock then Again else Finish
  }

  const COMMAND_READ := 0x8005
  const COMMAND_WRITE := 0x8006
}

/** The queue and the blocked threads as an abstract machine: no pointers, no flags. */
module SyscallMachine {
  import opened Requests
  import opened Dispatchers

  datatype Machine = Machine(status: map<nat, Status>, calls: map<nat, Request>, queue: seq<nat>, external: set<nat>)

  datatype Event =
    | Spawn(t: nat)
    | Resume(t: nat)
    | Preempt(t: nat)
    | Perish(t: nat)
    | Call(t: nat, number: nat, params: Params, env: Env)
    | Serve(struck: bool, env: Env)
    | Respond(t: nat, command: nat, status: int, nonblock: bool)

  /** A thread is blocked exactly when its request is in the queue or with a server, never both and at most once. */
  ghost predicate MachineOk(m: Machine) {
    && Distinct(m.queue)
    && (forall t :: t in m.queue || t in m.external ==> t in m.status)
    && (forall t :: t in m.status ==> (m.status[t].Blocked? <==> t in m.queue || t in m.external))
    && (forall t :: t in m.queue ==> t !in m.external)
  }

  /** The caller's part for a call that is dispatched at once: good pointers, and files opened for blocking. */
  predicate Careful(number: nat, p: Params, nonblock: bool) {
    PointersOk(number, p) && (ReadsOrWrites(number) ==> !nonblock)
  }

  /** What happens to a call that a kernel thread takes off the queue. */
  function ServedOutcome(call: Request, struck: bool, env: Env): Outcome {
    if !Defined(call.number) || struck then Kill else OutcomeOf(call.number, call.params, env)
  }

  /** The outcomes that leave thread and request in a state the kernel can account for. */
  predicate Proceeds(o: Outcome) {
    Regular(o) || o.Kill? || o.KillDone?
  }

  ghost function After(m: Machine, t: nat, o: Outcome, ready: Status): Machine {
    match o
    case Done => m.(status := m.status[t := ready])
    case Retry(_) => m.(status := m.status[t := Blocked], queue := m.queue + [t])
    case Relay => m.(status := m.status[t := Blocked], external := m.external + {t})
    case _ => m.(status := m.status[t := Zombie])
  }

  ghost predicate Settles(m: Machine, t: nat, o: Outcome, ready: Status, m': Machine) {
    Proceeds(o) && m' == After(m, t, o, ready)
  }

  ghost predicate Step(m: Machine, e: Event, m': Machine) {
    match e
    case Spawn(t) =>
      && t != 0 && t !in m.status && t in m'.calls
      && m' == m.(status := m.status[t := Queued], calls := m.calls[t := m'.calls[t]])
    case Resume(t) => t in m.status && m.status[t].Queued? && m' == m.(status := m.status[t := Running])
    case Preempt(t) => t in m.status && m.status[t].Running? && m' == m.(status := m.status[t := Queued])
    case Perish(t) =>
      t in m.status && (m.status[t].Queued? || m.status[t].Running?) && m' == m.(status := m.status[t := Zombie])
    case Call(t, number, p, env) =>
      && (Immediate(number) ==> Careful(number, p, env.nonblock))
      && CallStep(m, t, Request(number, p), if Immediate(number) then OutcomeOf(number, p, env) else Retry(false), m')
    case Serve(struck, env) =>
      if m.queue == [] then m' == m
      else m.queue[0] in m.calls && ServeStep(m, ServedOutcome(m.calls[m.queue[0]], struck, env), m')
    case Respond(t, command, status, nonblock) => RespondStep(m, t, ReplyOf(command, status, nonblock), m')
  }

  ghost predicate CallStep(m: Machine, t: nat, call: Request, o: Outcome, m': Machine) {
    && t in m.status && m.status[t].Running?
    && Settles(m.(calls := m.calls[t := call]), t, o, Running, m')
  }

  ghost predicate ServeStep(m: Machine, o: Outcome, m': Machine)
    requires m.queue != []
  {
    m.queue[0] in m.status && Settles(m.(queue := m.queue[1..]), m.queue[0], o, Queued, m')
  }

  ghost predicate RespondStep(m: Machine, t: nat, reply: Reply, m': Machine) {
    if t !in m.external then m' == m
    else
      && t in m.status
      && Settles(m.(external := m.external - {t}), t, if reply.Again? then Retry(true) else Done, Queued, m')
  }

  lemma TailOf(q: seq<nat>)
    requires q != [] && Distinct(q)
    ensures Distinct(q[1..]) && q[0] !in q[1..] && forall t :: t in q <==> t == q[0] || t in q[1..]
  {
    assert q == [q[0]] + q[1..];
  }

  lemma SettlesKeeps(m: Machine, t: nat, o: Outcome, ready: Status, m': Machine)
    requires t in m.status && t !in m.queue && t !in m.external && !ready.Blocked?
    requires Distinct(m.queue)
    requires forall u :: u in m.queue || u in m.external ==> u in m.status
    requires forall u :: u in m.status && u != t ==> (m.status[u].Blocked? <==> u in m.queue || u in m.external)
    requires forall u :: u in m.queue ==> u !in m.external
    requires Settles(m, t, o, ready, m')
    ensures MachineOk(m')
  {
  }

  lemma CallKeeps(m: Machine, t: nat, call: Request, o: Outcome, m': Machine)
    requires MachineOk(m) && CallStep(m, t, call, o, m')
    ensures MachineOk(m')
  {
    SettlesKeeps(m.(calls := m.calls[t := call]), t, o, Running, m');
  }

  lemma ServeKeeps(m: Machine, o: Outcome, m': Machine)
    requires MachineOk(m) && m.queue != [] && ServeStep(m, o, m')
    ensures MachineOk(m')
  {
    TailOf(m.queue);
    SettlesKeeps(m.(queue := m.queue[1..]), m.queue[0], o, Queued, m');
  }

  lemma RespondKeeps(m: Machine, t: nat, reply: Reply, m': Machine)
    requires MachineOk(m) && RespondStep(m, t, reply, m')
    ensures MachineOk(m')
  {
    if t in m.external {
      SettlesKeeps(m.(external := m.external - {t}), t, if reply.Again? then Retry(true) else Done, Queued, m');
    }
  }

  lemma StepKeeps(m: Machine, e: Event, m': Machine)
    requires MachineOk(m) && Step(m, e, m')
    ensures MachineOk(m')
  {
    match e
    case Call(t, number, p, env) =>
      CallKeeps(m, t, Request(number, p), if Immediate(number) then OutcomeOf(number, p, env) else Retry(false), m');
    case Serve(struck, env) =>
      if m.queue != [] {
        ServeKeeps(m, ServedOutcome(m.calls[m.queue[0]], struck, env), m');
      }
    case Respond(t, command, status, nonblock) => RespondKeeps(m, t, ReplyOf(command, status, nonblock), m');
    case _ =>
  }

  /** The arguments for which a service ends well: no would-block on a non-blocking file, no bad accept(). */
  predicate Serviceable(call: Request, struck: bool, env: Env) {
    || !Defined(call.number) || struck
    || (if PointersOk(call.number, call.params)
        then !(ReadsOrWrites(call.number) && env.nonblock && WouldBlock(env.status))
        else call.number == ACCEPT ==> env.nonblock)
  }

  lemma ServiceableIff(call: Request, struck: bool, env: Env)
    ensures Serviceable(call, struck, env) <==> Proceeds(ServedOutcome(call, struck, env))
  {
    OutcomeKinds(call.number, call.params, env);
  }

  /** A service goes through exactly when the call neither stalls nor queues a terminated thread again. */
  lemma ServeEnabled(m: Machine, struck: bool, env: Env)
    requires MachineOk(m) && m.queue != [] && m.queue[0] in m.calls
    ensures (exists m' :: Step(m, Serve(struck, env), m')) <==> Serviceable(m.calls[m.queue[0]], struck, env)
  {
    var t := m.queue[0];
    var o := ServedOutcome(m.calls[t], struck, env);
    ServiceableIff(m.calls[t], struck, env);
    if Proceeds(o) {
      assert Step(m, Serve(struck, env), After(m.(queue := m.queue[1..]), t, o, Queued));
    }
  }

  ghost predicate Run(ms: seq<Machine>, es: seq<Event>) {
    |ms| == |es| + 1 && forall i {:trigger es[i]} :: 0 <= i < |es| ==> Step(ms[i], es[i], ms[i + 1])
  }

  lemma {:induction false} RunKeeps(ms: seq<Machine>, es: seq<Event>, n: nat)
    requires Run(ms, es) && MachineOk(ms[0]) && n <= |es|
    ensures MachineOk(ms[n])
  {
    if n != 0 {
      RunKeeps(ms, es, n - 1);
      StepKeeps(ms[n - 1], es[n - 1], ms[n]);
    }
  }

  /** Over every run, a terminated thread is never made runnable again. */
  lemma {:induction false} ZombieForever(ms: seq<Machine>, es: seq<Event>, i: nat, j: nat, t: nat)
    requires Run(ms, es) && MachineOk(ms[0]) && i <= j <= |es|
    requires t in ms[i].status && ms[i].status[t].Zombie?
    ensures t in ms[j].status && ms[j].status[t].Zombie?
    decreases j - i
  {
    if i < j {
      ZombieForever(ms, es, i, j - 1, t);
      RunKeeps(ms, es, j - 1);
      assert Step(ms[j - 1], es[j - 1], ms[j]);
    }
  }

  /** How many times the kernel threads took a request off the queue. */
  function Serves(es: seq<Event>): nat {
    if es == [] then 0 else Serves(es[..|es| - 1]) + if es[|es| - 1].Serve? then 1 else 0
  }

  lemma Advances(m: Machine, e: Event, m': Machine, k: nat)
    requires Step(m, e, m') && k < |m.queue| && (e.Serve? ==> 0 < k)
    ensures var k' := if e.Serve? then k - 1 else k;
            k' < |m'.queue| && m'.queue[k'] == m.queue[k]
  {
  }

  lemma {:induction false} PlaceAfter(ms: seq<Machine>, es: seq<Event>, n: nat, k: nat)
    requires Run(ms, es) && n <= |es| && k < |ms[0].queue| && Serves(es[..n]) <= k
    ensures k - Serves(es[..n]) < |ms[n].queue| && ms[n].queue[k - Serves(es[..n])] == ms[0].queue[k]
  {
    if n != 0 {
      assert es[..n][..n - 1] == es[..n - 1] && es[..n][n - 1] == es[n - 1];
      PlaceAfter(ms, es, n - 1, k);
      assert Step(ms[n - 1], es[n - 1], ms[n]);
      Advances(ms[n - 1], es[n - 1], ms[n], k - Serves(es[..n - 1]));
    }
  }

  /** First come, first served: a request with k others in front of it is at the head after exactly k services. */
  lemma ServedInOrder(ms: seq<Machine>, es: seq<Event>, k: nat)
    requires Run(ms, es) && k < |ms[0].queue| && Serves(es) <= k
    ensures k - Serves(es) < |ms[|es|].queue| && ms[|es|].queue[k - Serves(es)] == ms[0].queue[k]
  {
    assert es[..|es|] == es;
    PlaceAfter(ms, es, |es|, k);
  }

  /** Nothing but the kernel's own service or a server's answer ends a wait. */
  lemma {:induction false} WaitsUntilServed(ms: seq<Machine>, es: seq<Event>, t: nat)
    requires Run(ms, es) && MachineOk(ms[0]) && t in ms[0].status && ms[0].status[t].Blocked?
    requires t !in ms[0].external ==> exists k :: 0 <= k < |ms[0].queue| && ms[0].queue[k] == t && Serves(es) <= k
    requires forall i :: 0 <= i < |es| ==> !(es[i].Respond? && es[i].t == t)
    ensures t in ms[|es|].status && ms[|es|].status[t].Blocked?
    ensures t in ms[0].external ==> t in ms[|es|].external
  {
    RunKeeps(ms, es, |es|);
    if t !in ms[0].external {
      var k :| 0 <= k < |ms[0].queue| && ms[0].queue[k] == t && Serves(es) <= k;
      ServedInOrder(ms, es, k);
      assert t in ms[|es|].queue;
    } else {
      StaysExternal(ms, es, |es|, t);
    }
  }

  lemma {:induction false} StaysExternal(ms: seq<Machine>, es: seq<Event>, n: nat, t: nat)
    requires Run(ms, es) && MachineOk(ms[0]) && t in ms[0].external && n <= |es|
    requires forall i :: 0 <= i < |es| ==> !(es[i].Respond? && es[i].t == t)
    ensures t in ms[n].external
  {
    if n != 0 {
      StaysExternal(ms, es, n - 1, t);
      RunKeeps(ms, es, n - 1);
      assert Step(ms[n - 1], es[n - 1], ms[n]);
    }
  }
}

/** The concrete records seen as the abstract machine. */
module SyscallView {
  import opened Requests
  import opened Dispatchers
  import opened SyscallMachine

  ghost function ViewOf(threads: Table, q: seq<nat>): Machine {
    Machine(map t | t in threads :: threads[t].status, map t | t in threads :: Request(threads[t].number, threads[t].params),
            q, set t | t in threads && threads[t].external)
  }

  ghost predicate FlagsOk(threads: Table, q: seq<nat>) {
    forall t :: t in threads ==> (threads[t].queued <==> t in q) && (threads[t].queued ==> !threads[t].unblock)
  }

  /** Only `t` changed, apart from list links. */
  ghost predicate OnlyThread(a: Table, b: Table, t: nat) {
    t in a && b.Keys == a.Keys && forall u :: u in a && u != t ==> b[u] == a[u].(next := b[u].next)
  }

  lemma ViewStatus(a: Table, q: seq<nat>, b: Table, r: seq<nat>, t: nat)
    requires OnlyThread(a, b, t)
    ensures ViewOf(b, r).status == ViewOf(a, q).status[t := b[t].status]
  {
  }

  lemma ViewCalls(a: Table, q: seq<nat>, b: Table, r: seq<nat>, t: nat)
    requires OnlyThread(a, b, t)
    ensures ViewOf(b, r).calls == ViewOf(a, q).calls[t := Request(b[t].number, b[t].params)]
    ensures t in ViewOf(a, q).calls && ViewOf(a, q).calls[t] == Request(a[t].number, a[t].params)
  {
  }

  lemma ViewExternal(a: Table, q: seq<nat>, b: Table, r: seq<nat>, t: nat)
    requires OnlyThread(a, b, t)
    ensures ViewOf(b, r).external == if b[t].external then ViewOf(a, q).external + {t} else ViewOf(a, q).external - {t}
    ensures t in ViewOf(a, q).external <==> a[t].external
  {
  }

  /** The view after a change of one thread, as a change of the view before. */
  ghost function Viewed(m: Machine, r: seq<nat>, t: nat, th: Thread): Machine {
    Machine(m.status[t := th.status], m.calls[t := Request(th.number, th.params)], r,
            if th.external then m.external + {t} else m.external - {t})
  }

  lemma ViewAfter(a: Table, q: seq<nat>, b: Table, r: seq<nat>, t: nat)
    requires OnlyThread(a, b, t)
    ensures ViewOf(b, r) == Viewed(ViewOf(a, q), r, t, b[t])
    ensures t in ViewOf(a, q).status && ViewOf(a, q).status[t] == a[t].status
    ensures t in ViewOf(a, q).calls && ViewOf(a, q).calls[t] == Request(a[t].number, a[t].params)
  {
    ViewStatus(a, q, b, r, t);
    ViewCalls(a, q, b, r, t);
    ViewExternal(a, q, b, r, t);
  }

  lemma OnlyTrans(a: Table, b: Table, c: Table, t: nat)
    requires OnlyThread(a, b, t) && OnlyThread(b, c, t)
    ensures OnlyThread(a, c, t)
  {
  }

  lemma FlagsAfter(a: Table, q: seq<nat>, b: Table, r: seq<nat>, t: nat)
    requires OnlyThread(a, b, t) && FlagsOk(a, q)
    requires r == if b[t].queued && t !in q then q + [t] else q
    requires (b[t].queued || t !in q) && (b[t].queued ==> !b[t].unblock)
    ensures FlagsOk(b, r)
  {
    forall u | u in b
      ensures (b[u].queued <==> u in r) && (b[u].queued ==> !b[u].unblock)
    {
      assert u != t ==> b[u].queued == a[u].queued;
    }
  }

  // ---------------------------------------------------------------- a call

  /** platformCreateSyscallContext */
  function Created(th: Thread, number: nat, p: Params): Thread {
    th.(next := 0, busy := false, number := number, params := p, retry := false)
  }

  /** The caller's record after syscallHandle, for every call; `o` is the outcome of a direct dispatch. */
  function Handled(th: Thread, number: nat, p: Params, o: Outcome): Thread {
    var created := Created(th, number, p);
    if Immediate(number) then Settled(Dispatched(created, o)) else Enqueued(created).(status := Blocked)
  }

  /**
   Where a call with good pointers leaves its caller: socket calls, read, write and lseek go on running unless
   they must wait, in the queue or for a server; every other call waits in the queue first.
   */
  lemma HandledWhere(th: Thread, number: nat, p: Params, env: Env)
    requires th.status.Running? && !th.queued && !th.external && PointersOk(number, p)
    ensures var r, direct := Handled(th, number, p, OutcomeOf(number, p, env)), number in {18, 19, 22, 48, 49, 50, 51, 52};
            && r.number == number && r.params == p
            && !r.busy && (r.retry <==> number in {18, 19} && MustWait(number, p, env))
            && (r.queued <==> !direct || MustWait(number, p, env))
            && (r.external <==> direct && NeedsServer(number, env))
            && (r.status.Blocked? <==> !r.status.Running?)
            && (number !in {18, 19} || !env.nonblock ==> (r.status.Running? <==> !r.queued && !r.external))
  {
    WaitsIff(number, p, env);
  }

  lemma HandledSteps(m: Machine, t: nat, th: Thread, number: nat, p: Params, o: Outcome, r: seq<nat>)
    requires MachineOk(m) && t in m.status && m.status[t].Running? && th.status.Running? && !th.queued && !th.external
    requires Immediate(number) ==> Regular(o)
    requires var th' := Handled(th, number, p, o); r == if th'.queued then m.queue + [t] else m.queue
    ensures var th' := Handled(th, number, p, o);
            CallStep(m, t, Request(number, p), if Immediate(number) then o else Retry(false), Viewed(m, r, t, th'))
            && (th'.queued ==> !th'.unblock)
  {
    assert t !in m.queue && t !in m.external;
    assert m.external - {t} == m.external;
  }

  lemma CallBuilt(a: Table, q: seq<nat>, b: Table, r: seq<nat>, t: nat, number: nat, p: Params, env: Env)
    requires FlagsOk(a, q) && MachineOk(ViewOf(a, q)) && OnlyThread(a, b, t) && a[t].status.Running?
    requires Immediate(number) ==> Careful(number, p, env.nonblock)
    requires b[t] == Handled(a[t], number, p, OutcomeOf(number, p, env))
    requires r == if b[t].queued then q + [t] else q
    ensures FlagsOk(b, r) && MachineOk(ViewOf(b, r)) && Step(ViewOf(a, q), Call(t, number, p, env), ViewOf(b, r))
  {
    ViewAfter(a, q, b, r, t);
    assert t !in q && t !in ViewOf(a, q).external;
    if Immediate(number) {
      RegularIff(number, p, env);
    }
    var o := OutcomeOf(number, p, env);
    HandledSteps(ViewOf(a, q), t, a[t], number, p, o, r);
    CallKeeps(ViewOf(a, q), t, Request(number, p), if Immediate(number) then o else Retry(false), ViewOf(b, r));
    FlagsAfter(a, q, b, r, t);
  }

  // ---------------------------------------------------------------- a service

  /** The record of a request after syscallProcess, for every call and every outcome of its dispatcher. */
  function Served(th: Thread, signal: Signal, o: Outcome): Thread {
    var taken := th.(busy := true, queued := false);
    if !Defined(th.number) then taken.(status := Zombie)
    else if Signalled(taken, signal).status.Zombie? then Signalled(taken, signal)
    else Woken(Dispatched(Signalled(taken, signal), o))
  }

  /**
   Where the service of a queued call leaves its thread: dead when the call is undefined or a signal strikes; with
   good pointers ready again, unless it must wait, in the queue or for a server, or was exit().
   */
  lemma ServedWhere(th: Thread, signal: Signal, env: Env)
    requires th.status.Blocked? && !th.external && !th.unblock
    ensures var r := Served(th, signal, OutcomeOf(th.number, th.params, env));
            && (th.number > 66 || th.number in {10, 11, 32, 36} || Strikes(th, signal) ==> r.status.Zombie? && !r.queued && !r.external)
            && (r.queued || r.status.Queued? ==> !r.busy)
            && (th.number <= 66 && th.number !in {10, 11, 32, 36} && !Strikes(th, signal) && PointersOk(th.number, th.params) ==>
                  && (r.queued <==> MustWait(th.number, th.params, env)) && (r.queued ==> r.retry)
                  && (r.external <==> NeedsServer(th.number, env))
                  && (r.status.Zombie? <==> th.number == 0)
                  && (th.number !in {0, 18, 19} ==> (r.status.Queued? <==> !r.queued && !r.external)))
  {
    ServedAs(th, signal, OutcomeOf(th.number, th.params, env));
    if PointersOk(th.number, th.params) {
      WaitsIff(th.number, th.params, env);
    }
  }

  lemma ServedAs(th: Thread, signal: Signal, o: Outcome)
    requires th.status.Blocked? && !th.external && !th.unblock
    ensures var o' := if !Defined(th.number) || Strikes(th, signal) then Kill else o;
            var r := Served(th, signal, o);
            && r.number == th.number && r.params == th.params
            && r.queued == (o'.Retry? || o'.KillRetry?) && (r.queued ==> !r.unblock)
            && r.external == o'.Relay?
            && r.status == if o'.Done? then Queued else if o'.Retry? || o'.Relay? || o'.Stall? then Blocked else Zombie
  {
  }

  lemma ServedSteps(m: Machine, t: nat, th: Thread, o: Outcome, r: seq<nat>)
    requires MachineOk(m) && m.queue != [] && t == m.queue[0] && t in m.calls && m.calls[t] == Request(th.number, th.params)
    requires Proceeds(o) && r == if o.Retry? then m.queue[1..] + [t] else m.queue[1..]
    requires th.external == o.Relay?
    requires th.status == if o.Done? then Queued else if o.Retry? || o.Relay? then Blocked else Zombie
    ensures ServeStep(m, o, Viewed(m, r, t, th))
  {
    assert t in m.queue && t !in m.external;
    assert m.external - {t} == m.external;
    assert m.calls[t := m.calls[t]] == m.calls;
  }

  /** The first request was served. */
  lemma ServeBuilt(a: Table, q: seq<nat>, b: Table, r: seq<nat>, t: nat, signal: Signal, env: Env)
    requires FlagsOk(a, q) && MachineOk(ViewOf(a, q)) && q != [] && t == q[0] && OnlyThread(a, b, t)
    requires b[t] == Served(a[t], signal, OutcomeOf(a[t].number, a[t].params, env))
    requires Proceeds(ServedOutcome(Request(a[t].number, a[t].params), Strikes(a[t], signal), env))
    requires r == if b[t].queued then q[1..] + [t] else q[1..]
    ensures FlagsOk(b, r) && MachineOk(ViewOf(b, r))
    ensures Step(ViewOf(a, q), Serve(Strikes(a[t], signal), env), ViewOf(b, r))
  {
    var m := ViewOf(a, q);
    ViewAfter(a, q, b, r, t);
    TailOf(q);
    assert t in q && t !in m.external;
    ServedAs(a[t], signal, OutcomeOf(a[t].number, a[t].params, env));
    var o := ServedOutcome(Request(a[t].number, a[t].params), Strikes(a[t], signal), env);
    ServedSteps(m, t, b[t], o, r);
    ServeKeeps(m, o, ViewOf(b, r));
    FlagsServed(a, q, b, r, t);
  }

  lemma FlagsServed(a: Table, q: seq<nat>, b: Table, r: seq<nat>, t: nat)
    requires OnlyThread(a, b, t) && FlagsOk(a, q) && q != [] && t == q[0] && Distinct(q)
    requires r == if b[t].queued then q[1..] + [t] else q[1..]
    requires b[t].queued ==> !b[t].unblock
    ensures FlagsOk(b, r)
  {
    TailOf(q);
    var a' := a[t := a[t].(queued := false)];
    FlagsAfter(a', q[1..], b, r, t);
  }

  // ---------------------------------------------------------------- an answer

  function Responded(th: Thread, reply: Reply): Thread {
    var answered := th.(external := false, unblock := true);
    if reply.Again? then Dispatched(answered, Retry(true)) else answered.(status := Queued)
  }

  /**
   Where the answer of a server leaves the thread: waiting in the queue again for a read or write that would block
   on a blocking descriptor, ready otherwise.
   */
  lemma RespondedWhere(th: Thread, command: nat, status: int, nonblock: bool)
    requires th.status.Blocked? && th.external && !th.queued
    ensures var r, again := Responded(th, ReplyOf(command, status, nonblock)),
                            command in {0x8005, 0x8006} && status in {-6, -75} && !nonblock;
            && !r.external && (r.queued <==> again) && r.number == th.number && r.params == th.params
            && (r.queued ==> r.retry && !r.busy)
            && r.status == if again then Blocked else Queued
  {
  }

  lemma RespondedSteps(m: Machine, t: nat, th: Thread, reply: Reply, r: seq<nat>)
    requires MachineOk(m) && t in m.external && t in m.status && th.status.Blocked? && !th.queued
    requires t in m.calls && m.calls[t] == Request(th.number, th.params)
    requires r == if reply.Again? then m.queue + [t] else m.queue
    ensures RespondStep(m, t, reply, Viewed(m, r, t, Responded(th, reply)))
    ensures var th' := Responded(th, reply); th'.queued == reply.Again? && (th'.queued ==> !th'.unblock)
  {
    assert m.calls[t := m.calls[t]] == m.calls;
  }

  lemma RespondBuilt(a: Table, q: seq<nat>, b: Table, r: seq<nat>, t: nat, reply: Reply)
    requires FlagsOk(a, q) && MachineOk(ViewOf(a, q)) && OnlyThread(a, b, t) && a[t].external && a[t].status.Blocked?
    requires b[t] == Responded(a[t], reply) && r == if reply.Again? then q + [t] else q
    ensures FlagsOk(b, r) && MachineOk(ViewOf(b, r)) && RespondStep(ViewOf(a, q), t, reply, ViewOf(b, r))
  {
    var m := ViewOf(a, q);
    ViewAfter(a, q, b, r, t);
    assert t in m.external && t !in q;
    RespondedSteps(m, t, a[t], reply, r);
    RespondKeeps(m, t, reply, ViewOf(b, r));
    FlagsAfter(a, q, b, r, t);
  }

  // ---------------------------------------------------------------- the scheduler's moves

  /** The event behind a change of status by the scheduler. */
  function Moved(t: nat, status: Status): Event {
    if status.Running? then Resume(t) else if status.Queued? then Preempt(t) else Perish(t)
  }

  lemma MoveBuilt(a: Table, q: seq<nat>, b: Table, t: nat, status: Status)
    requires FlagsOk(a, q) && MachineOk(ViewOf(a, q)) && OnlyThread(a, b, t)
    requires b[t] == a[t].(status := status) && !status.Blocked? && status != a[t].status
    requires a[t].status.Queued? || a[t].status.Running?
    ensures FlagsOk(b, q) && MachineOk(ViewOf(b, q)) && Step(ViewOf(a, q), Moved(t, status), ViewOf(b, q))
  {
    ViewAfter(a, q, b, q, t);
    assert t !in q;
    FlagsAfter(a, q, b, q, t);
    StepKeeps(ViewOf(a, q), Moved(t, status), ViewOf(b, q));
  }

  lemma SpawnView(a: Table, q: seq<nat>, t: nat, th: Thread)
    requires t !in a && !th.external
    ensures ViewOf(a[t := th], q) == Viewed(ViewOf(a, q), q, t, th)
  {
    var m, m' := ViewOf(a, q), ViewOf(a[t := th], q);
    assert m'.status == m.status[t := th.status];
    assert m'.calls == m.calls[t := Request(th.number, th.params)];
    assert m'.external == m.external - {t};
  }

  lemma SpawnBuilt(a: Table, q: seq<nat>, t: nat, th: Thread)
    requires FlagsOk(a, q) && MachineOk(ViewOf(a, q)) && t !in a && t != 0
    requires th.status.Queued? && !th.queued && !th.external
    ensures FlagsOk(a[t := th], q) && MachineOk(ViewOf(a[t := th], q))
    ensures Step(ViewOf(a, q), Spawn(t), ViewOf(a[t := th], q))
  {
    var m, m' := ViewOf(a, q), ViewOf(a[t := th], q);
    SpawnView(a, q, t, th);
    assert t !in m.status && t !in q && t !in m.external;
    assert m.external - {t} == m.external;
    StepKeeps(m, Spawn(t), m');
  }
}

/** src/syscalls/queue.c and the response handling of src/servers/syscalls.c on one CPU. */
module SyscallQueue {
  import opened Requests
  import opened Dispatchers
  import opened SyscallMachine
  import opened SyscallView

  class Kernel {
    var threads: Table
    var head: nat
    ghost var queue: seq<nat>

    ghost function View(): Machine
      reads this
    {
      ViewOf(threads, queue)
    }

    ghost predicate Listed()
      reads this
    {
      Chain(threads, head, queue)
    }

    ghost predicate Valid()
      reads this
    {
      0 !in threads && Listed() && FlagsOk(threads, queue) && MachineOk(View())
    }

    constructor ()
      ensures Valid() && threads == map[] && queue == []
    {
      threads, head, queue := map[], 0, [];
    }

    /** A new thread, its record cleared. */
    method Spawn(t: nat)
      requires Valid() && t != 0 && t !in threads
      modifies this
      ensures Valid() && Step(old(View()), SyscallMachine.Spawn(t), View()) && queue == old(queue)
    {
      ghost var a := threads;
      var th := Thread(Queued, 0, Params(0, 0, 0, 0), false, false, false, false, false, 0, 0, false);
      SpawnBuilt(threads, queue, t, th);
      threads := threads[t := th];
      ChainSame(a, threads, head, queue);
    }

    /** The moves schedule() makes: to running, back to ready, and out by a fatal signal. */
    method Move(t: nat, status: Status)
      requires Valid() && t in threads && !status.Blocked? && status != threads[t].status
      requires threads[t].status.Queued? || threads[t].status.Running?
      modifies this`threads
      ensures Valid()
      ensures Step(old(View()), Moved(t, status), View())
    {
      ghost var a := threads;
      SetStatus(t, status);
      MoveBuilt(a, queue, threads, t, status);
    }

    /** The walk to the end of the list. */
    method Last() returns (q: nat)
      requires Listed() && queue != []
      ensures q == queue[|queue| - 1] && q in threads
    {
      q := head;
      ghost var i := 0;
      while threads[q].next != 0
        invariant i < |queue| && q == queue[i] && q in threads
        decreases |queue| - i
      {
        assert threads[queue[i]].next == At(queue, i + 1);
        q := threads[q].next;
        i := i + 1;
      }
      assert threads[queue[i]].next == At(queue, i + 1);
    }

    /** syscallEnqueue */
    method Enqueue(t: nat)
      requires Listed() && t in threads && t != 0 && t !in queue && threads[t].next == 0
      modifies this
      ensures Listed() && queue == old(queue) + [t]
      ensures OnlyThread(old(threads), threads, t) && threads[t] == Enqueued(old(threads)[t])
    {
      var last := 0;
      if head != 0 {
        last := Last();
      }
      AppendChain(threads, head, queue, last, t);
      var th := threads[t].(queued := true, unblock := false, busy := false);
      if th.status.Blocked? {
        th := th.(retry := true);
      }
      threads := threads[t := th];
      if last == 0 {
        head := t;
      } else {
        threads := threads[last := threads[last].(next := t)];
      }
      queue := queue + [t];
      assert threads == Appended(old(threads), last, t);
    }

    /** syscallDequeue; zero is NULL */
    method Dequeue() returns (t: nat)
      requires Listed()
      modifies this
      ensures old(queue) == [] ==> t == 0 && threads == old(threads) && queue == []
      ensures old(queue) != [] ==> t == old(queue)[0] && queue == old(queue)[1..]
      ensures old(queue) != [] ==> t in old(threads) && t != 0
                                   && threads == old(threads)[t := old(threads)[t].(busy := true, queued := false)]
      ensures Listed()
    {
      if head == 0 {
        return 0;
      }
      t := head;
      ghost var q := queue;
      assert threads[q[0]].next == At(q, 1);
      head := threads[head].next;
      threads := threads[t := threads[t].(busy := true, queued := false)];
      queue := queue[1..];
      forall i | 0 <= i < |queue|
        ensures threads[queue[i]].next == At(queue, i + 1)
      {
        assert threads[q[i + 1]].next == At(q, i + 2);
      }
    }

    /** signalHandle: takes one pending signal, which at most terminates the thread. */
    method SignalHandle(t: nat, signal: Signal)
      requires Listed() && t in threads
      modifies this`threads
      ensures Listed() && OnlyThread(old(threads), threads, t) && threads[t] == Signalled(old(threads)[t], signal)
    {
      if threads[t].handling || threads[t].pending == 0 {
        return;
      }
      ghost var a := threads;
      var th := threads[t].(pending := threads[t].pending - 1);
      match signal {
        case Ignored =>
        case Fatal => th := th.(status := Zombie);
        case Caught => th := th.(handling := true);
      }
      threads := threads[t := th];
      ChainSame(a, threads, head, queue);
    }

    /** Puts the record of `t` back without touching the list. */
    method Store(t: nat, th: Thread)
      requires Listed() && t in threads && (t in queue ==> th.next == threads[t].next)
      modifies this`threads
      ensures Listed() && OnlyThread(old(threads), threads, t) && threads[t] == th
    {
      ghost var a := threads;
      threads := threads[t := th];
      ChainSame(a, threads, head, queue);
    }

    method SetStatus(t: nat, status: Status)
      requires Listed() && t in threads
      modifies this`threads
      ensures Listed() && OnlyThread(old(threads), threads, t)
      ensures threads[t] == old(threads)[t].(status := status)
    {
      Store(t, threads[t].(status := status));
    }

    /** syscallVerifyPointer over the pointers of a call: the first bad one decides. */
    static method VerifyPointers(pointers: seq<Pointer>) returns (ok: bool)
      ensures ok <==> forall i :: 0 <= i < |pointers| ==> PointerOk(pointers[i])
      ensures ok ==> forall i | 0 <= i < |pointers| && pointers[i].base < 0x1_0000_0000_0000_0000 ::
                       InUserMemory(pointers[i]) <==> pointers[i].base + pointers[i].length < 0x1_0000_0000_0000_0000
    {
      for i := 0 to |pointers|
        invariant forall j :: 0 <= j < i ==> PointerOk(pointers[j])
        invariant forall j | 0 <= j < i && pointers[j].base < 0x1_0000_0000_0000_0000 ::
                    InUserMemory(pointers[j]) <==> pointers[j].base + pointers[j].length < 0x1_0000_0000_0000_0000
      {
        var end := (pointers[i].base + pointers[i].length) % 0x1_0000_0000_0000_0000;
        if pointers[i].base < USER_BASE_ADDRESS || end > USER_LIMIT_ADDRESS {
          return false;
        }
        if pointers[i].base < 0x1_0000_0000_0000_0000 {
          AcceptedInUserIff(pointers[i]);
        }
      }
      return true;
    }

    /** Back into the queue with a cleared link. */
    method Requeue(t: nat, mark: bool)
      requires Listed() && t in threads && t != 0 && t !in queue
      modifies this
      ensures Listed() && OnlyThread(old(threads), threads, t) && queue == old(queue) + [t]
      ensures threads[t] == Enqueued(old(threads)[t].(next := 0, retry := old(threads)[t].retry || mark))
    {
      ghost var a := threads;
      var th := threads[t].(unblock := false, busy := false, queued := true, next := 0);
      if mark {
        th := th.(retry := true);
      }
      Store(t, th);
      ghost var b := threads;
      Enqueue(t);
      OnlyTrans(a, b, threads, t);
    }

    /** What a dispatcher that passed its checks does. */
    method Conclude(t: nat, o: Outcome)
      requires Listed() && t in threads && t != 0 && t !in queue && !threads[t].queued
      modifies this
      ensures Listed() && OnlyThread(old(threads), threads, t) && threads[t] == Dispatched(old(threads)[t], o)
      ensures queue == if threads[t].queued then old(queue) + [t] else old(queue)
    {
      match o
      case Done => Store(t, threads[t].(unblock := true));
      case Retry(mark) => Requeue(t, mark);
      case Relay => Store(t, threads[t].(external := true, unblock := false));
      case Kill => SetStatus(t, Zombie);
      case KillRetry =>
        ghost var a := threads;
        SetStatus(t, Zombie);
        ghost var b := threads;
        Requeue(t, false);
        OnlyTrans(a, b, threads, t);
      case KillDone => Store(t, threads[t].(status := Zombie, unblock := true));
      case Stall =>
    }

    /** One entry of the dispatch table: the pointer checks, then the case distinctions of its form. */
    method Dispatch(t: nat, env: Env, ghost o: Outcome)
      requires Listed() && t in threads && t != 0 && t !in queue && !threads[t].queued
      requires o == OutcomeOf(threads[t].number, threads[t].params, env)
      modifies this
      ensures Listed() && OnlyThread(old(threads), threads, t) && threads[t] == Dispatched(old(threads)[t], o)
      ensures queue == if threads[t].queued then old(queue) + [t] else old(queue)
    {
      var number, p := threads[t].number, threads[t].params;
      var ok := VerifyPointers(Pointers(number, p));
      Conclude(t, if ok then Dispatchers.Answer(ShapeOf(number), p, env) else Failure(ShapeOf(number), env));
    }

    /** A call that is dispatched at once, and the status it leaves. */
    method Perform(t: nat, env: Env, ghost o: Outcome)
      requires Listed() && t in threads && t != 0 && t !in queue && !threads[t].queued
      requires o == OutcomeOf(threads[t].number, threads[t].params, env)
      modifies this
      ensures Listed() && OnlyThread(old(threads), threads, t)
      ensures threads[t] == Settled(Dispatched(old(threads)[t], o))
      ensures queue == if threads[t].queued then old(queue) + [t] else old(queue)
    {
      ghost var b := threads;
      Dispatch(t, env, o);
      ghost var c := threads;
      SetStatus(t, if threads[t].unblock then Running else Blocked);
      OnlyTrans(b, c, threads, t);
    }

    /** A call that waits in the queue. */
    method Await(t: nat)
      requires Listed() && t in threads && t != 0 && t !in queue && threads[t].next == 0
      modifies this
      ensures Listed() && OnlyThread(old(threads), threads, t) && queue == old(queue) + [t]
      ensures threads[t] == Enqueued(old(threads)[t]).(status := Blocked)
    {
      ghost var b := threads;
      Enqueue(t);
      ghost var c := threads;
      SetStatus(t, Blocked);
      OnlyTrans(b, c, threads, t);
    }

    method Enter(t: nat, number: nat, p: Params, env: Env)
      requires Listed() && t in threads && t != 0 && t !in queue && !threads[t].queued
      modifies this
      ensures Listed() && OnlyThread(old(threads), threads, t)
      ensures threads[t] == Handled(old(threads)[t], number, p, OutcomeOf(number, p, env))
      ensures queue == if threads[t].queued then old(queue) + [t] else old(queue)
    {
      ghost var a := threads;
      Store(t, Created(threads[t], number, p));
      ghost var b := threads;
      if Immediate(number) {
        Perform(t, env, OutcomeOf(number, p, env));
      } else {
        Await(t);
      }
      OnlyTrans(a, b, threads, t);
    }

    /** syscallHandle: the running thread makes a call. */
    method Handle(t: nat, number: nat, p: Params, env: Env)
      requires Valid() && t in threads && threads[t].status.Running?
      modifies this
      ensures Listed() && OnlyThread(old(threads), threads, t)
      ensures threads[t] == Handled(old(threads)[t], number, p, OutcomeOf(number, p, env))
      ensures queue == if threads[t].queued then old(queue) + [t] else old(queue)
      ensures !Immediate(number) || Careful(number, p, env.nonblock) ==>
                Valid() && Step(old(View()), Call(t, number, p, env), View())
    {
      ghost var a, q := threads, queue;
      assert t !in q && !a[t].queued by {
        assert View().status[t].Running?;
      }
      Enter(t, number, p, env);
      if !Immediate(number) || Careful(number, p, env.nonblock) {
        CallBuilt(a, q, threads, queue, t, number, p, env);
      }
    }

    /** The middle of syscallProcess: the undefined call, the signal check and the dispatcher. */
    method Act(t: nat, signal: Signal, env: Env, ghost o: Outcome)
      requires Listed() && t in threads && t != 0 && t !in queue && !threads[t].queued && threads[t].status.Blocked?
      requires o == OutcomeOf(threads[t].number, threads[t].params, env)
      modifies this
      ensures Listed() && OnlyThread(old(threads), threads, t)
      ensures var th := old(threads)[t];
              threads[t] == if !Defined(th.number) then th.(status := Zombie)
                            else if Signalled(th, signal).status.Zombie? then Signalled(th, signal)
                            else Dispatched(Signalled(th, signal), o)
      ensures queue == if threads[t].queued then old(queue) + [t] else old(queue)
    {
      ghost var a := threads;
      if !Defined(threads[t].number) {
        SetStatus(t, Zombie);
        return;
      }
      SignalHandle(t, signal);
      ghost var b := threads;
      if threads[t].status.Zombie? {
        return;
      } else if threads[t].status.Queued? {
        // the re-enqueue with a stale link: signalHandle never makes a blocked thread runnable
        assert false;
      } else {
        Dispatch(t, env, o);
        OnlyTrans(a, b, threads, t);
      }
    }

    /** The end of syscallProcess. */
    method Wake(t: nat)
      requires Listed() && t in threads
      modifies this`threads
      ensures Listed() && OnlyThread(old(threads), threads, t) && threads[t] == Woken(old(threads)[t])
    {
      if threads[t].status.Blocked? && threads[t].unblock {
        Store(t, threads[t].(status := Queued, busy := false));
      }
    }

    /** syscallDequeue on a list that is known not to be empty. */
    method Take() returns (t: nat)
      requires Valid() && queue != []
      modifies this
      ensures Listed() && OnlyThread(old(threads), threads, t) && t == old(queue)[0] && queue == old(queue)[1..]
      ensures t != 0 && t !in queue && threads[t] == old(threads)[t].(busy := true, queued := false)
      ensures threads[t].status.Blocked?
    {
      ghost var m := View();
      TailOf(queue);
      assert queue[0] in m.queue && queue[0] in m.status;
      t := Dequeue();
    }

    method Finish(t: nat, signal: Signal, env: Env, ghost th: Thread, ghost o: Outcome)
      requires Listed() && t in threads && t != 0 && t !in queue && threads[t] == th.(busy := true, queued := false)
      requires th.status.Blocked? && o == OutcomeOf(th.number, th.params, env)
      modifies this
      ensures Listed() && OnlyThread(old(threads), threads, t) && threads[t] == Served(th, signal, o)
      ensures queue == if threads[t].queued then old(queue) + [t] else old(queue)
    {
      ghost var b := threads;
      Act(t, signal, env, o);
      ghost var c := threads;
      Wake(t);
      OnlyTrans(b, c, threads, t);
    }

    /** syscallProcess: a kernel thread takes and serves the first request. */
    method Process(signal: Signal, env: Env) returns (worked: bool)
      requires Valid()
      modifies this
      ensures Listed() && worked == (old(queue) != [])
      ensures !worked ==> threads == old(threads) && queue == []
      ensures worked ==>
                var t := old(queue)[0];
                var th := old(threads)[t];
                && OnlyThread(old(threads), threads, t)
                && threads[t] == Served(th, signal, OutcomeOf(th.number, th.params, env))
                && queue == (if threads[t].queued then old(queue)[1..] + [t] else old(queue)[1..])
      ensures worked ==>
                var th := old(threads)[old(queue)[0]];
                Serviceable(Request(th.number, th.params), Strikes(th, signal), env) ==>
                  Valid() && Step(old(View()), Serve(Strikes(th, signal), env), View())
    {
      if head == 0 {
        return false;
      }
      ghost var a, q := threads, queue;
      var t := Take();
      if !threads[t].status.Blocked? {
        assert false;
        return false;
      }
      ghost var b := threads;
      Finish(t, signal, env, a[t], OutcomeOf(a[t].number, a[t].params, env));
      OnlyTrans(a, b, threads, t);
      if Serviceable(Request(a[t].number, a[t].params), Strikes(a[t], signal), env) {
        ServiceableIff(Request(a[t].number, a[t].params), Strikes(a[t], signal), env);
        ServeBuilt(a, q, threads, queue, t, signal, env);
      }
      worked := true;
    }

    /** The answer reaches the record: the thread becomes ready, or its request goes back into the queue. */
    method Answer(t: nat, reply: Reply)
      requires Listed() && t in threads && t != 0 && t !in queue && !threads[t].queued
      modifies this
      ensures Listed() && OnlyThread(old(threads), threads, t) && threads[t] == Responded(old(threads)[t], reply)
      ensures queue == if reply.Again? then old(queue) + [t] else old(queue)
    {
      ghost var a := threads;
      Store(t, threads[t].(external := false, unblock := true));
      ghost var b := threads;
      if reply.Again? {
        Requeue(t, true);
      } else {
        SetStatus(t, Queued);
      }
      OnlyTrans(a, b, threads, t);
    }

    /** handleSyscallResponse: a server answers the call of thread `t`. */
    method Respond(t: nat, command: nat, status: int, nonblock: bool)
      requires Valid()
      modifies this
      ensures Valid() && Step(old(View()), SyscallMachine.Respond(t, command, status, nonblock), View())
    {
      if t !in threads || !threads[t].external || !threads[t].status.Blocked? {
        return;
      }
      ghost var a, q := threads, queue;
      assert t !in q by {
        assert t in View().external;
      }
      Answer(t, ReplyOf(command, status, nonblock));
      RespondBuilt(a, q, threads, queue, t, ReplyOf(command, status, nonblock));
    }
  }
}
