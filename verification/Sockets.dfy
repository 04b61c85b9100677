/** Local stream sockets: listening, waiting and connected (src/ipc/connection.c, src/ipc/sockinit.c). */
module SocketSpec {
  /** The 512 bytes of sa_data; unused ones are zero. */
  type Address = s: seq<char> | |s| == 512 witness seq(512, _ => 0 as char)

  function Blank(): Address {
    seq(512, _ => 0 as char)
  }

  /** A socket descriptor; `peer` is the connected socket, zero for none, and `backlog` is empty when not allocated. */
  datatype Socket = Socket(
    family: nat, data: Address, length: nat, listener: bool,
    backlogMax: nat, backlogCount: nat, backlog: seq<nat>, peer: nat)

  type Net = map<nat, Socket>

  datatype Result =
    | Success | WouldBlock | InProgress | IsConnected | Refused | NoAddress | NoFamily | Invalid | NoBuffers | NoFiles

  const DEFAULT_BACKLOG := 1024

  /** memcmp over the first `n` bytes of two addresses. */
  predicate Agree(a: Address, b: Address, n: nat) {
    forall i :: 0 <= i < n && i < 512 ==> a[i] == b[i]
  }

  function Created(family: nat): Socket {
    Socket(family, Blank(), 0, false, 0, 0, [], 0)
  }

  /** bind() copies `len` bytes: the family, then the beginning of the address. */
  function Bound(s: Socket, data: Address, len: nat): Socket {
    var n := if len > 514 then 514 else len;
    s.(data := if n < 2 then s.data else data[..n - 2] + s.data[n - 2..], length := n)
  }

  ghost predicate BindStep(n: Net, s: nat, family: nat, data: Address, len: nat, r: Result, n': Net) {
    && s in n
    && if family != n[s].family then r == NoFamily && n' == n else r == Success && n' == n[s := Bound(n[s], data, len)]
  }

  /** The connections waiting for accept(), oldest first. */
  function Waiting(s: Socket): seq<nat> {
    if s.backlogCount <= |s.backlog| then s.backlog[..s.backlogCount] else []
  }

  predicate Listens(s: Socket) {
    s.listener && s.backlogMax != 0 && s.backlog != []
  }

  predicate RoomLeft(s: Socket) {
    s.backlogCount < s.backlogMax
  }

  ghost predicate BacklogOk(s: Socket) {
    (s.backlog == [] || |s.backlog| == s.backlogMax) && s.backlogCount <= |s.backlog|
  }

  /** Connected sockets point at each other. */
  ghost predicate Mutual(n: Net) {
    forall s :: s in n && n[s].peer != 0 ==> n[s].peer in n && n[n[s].peer].peer == s
  }

  ghost predicate WaitsAt(n: Net, l: nat, i: nat, s: nat) {
    l in n && i < |Waiting(n[l])| && Waiting(n[l])[i] == s
  }

  /** Waiting sockets are open and not connected, and wait in one place. */
  ghost predicate WaitersOk(n: Net) {
    && (forall l, i, s :: WaitsAt(n, l, i, s) ==> s in n && n[s].peer == 0)
    && (forall l, i, l', i', s :: WaitsAt(n, l, i, s) && WaitsAt(n, l', i', s) ==> l == l' && i == i')
  }

  ghost predicate NetOk(n: Net) {
    0 !in n && (forall s :: s in n ==> BacklogOk(n[s])) && Mutual(n) && WaitersOk(n)
  }

  ghost predicate IsWaiting(n: Net, s: nat) {
    exists l, i :: WaitsAt(n, l, i, s)
  }

  /** A connection that looks like `self`: its address agrees with self's on self's own length. */
  ghost predicate LooksQueued(n: Net, self: nat, found: nat)
    requires self in n && found in n
  {
    exists i :: 0 <= i < |Waiting(n[found])| && Waiting(n[found])[i] in n
                && Agree(n[Waiting(n[found])[i]].data, n[self].data, n[self].length)
  }

  /** connect(): `found` is the socket registered under the address, zero for none. */
  ghost function ConnectResult(n: Net, self: nat, found: nat, data: Address, len: nat): Result
    requires self in n && (found != 0 ==> found in n) && (n[self].peer != 0 ==> n[self].peer in n)
  {
    if found == 0 then NoAddress
    else if n[self].peer != 0 then (if Agree(n[n[self].peer].data, data, len) then Success else IsConnected)
    else if n[self].family != n[found].family then NoFamily
    else if !Listens(n[found]) || !RoomLeft(n[found]) then Refused
    else if LooksQueued(n, self, found) then InProgress
    else WouldBlock
  }

  /** Each answer of connect(), by the state before the call. */
  lemma ConnectAnswers(n: Net, self: nat, found: nat, data: Address, len: nat)
    requires self in n && (found != 0 ==> found in n) && (n[self].peer != 0 ==> n[self].peer in n)
    ensures var r := ConnectResult(n, self, found, data, len);
            && (r.NoAddress? <==> found == 0)
            && (r.Success? <==> found != 0 && n[self].peer != 0 && Agree(n[n[self].peer].data, data, len))
            && (r.IsConnected? <==> found != 0 && n[self].peer != 0 && !Agree(n[n[self].peer].data, data, len))
            && (r.NoFamily? <==> found != 0 && n[self].peer == 0 && n[self].family != n[found].family)
            && (r.Refused? <==> found != 0 && n[self].peer == 0 && n[self].family == n[found].family
                                && !(Listens(n[found]) && RoomLeft(n[found])))
            && (r.InProgress? <==> found != 0 && n[self].peer == 0 && n[self].family == n[found].family
                                   && Listens(n[found]) && RoomLeft(n[found]) && LooksQueued(n, self, found))
  {
  }

  /** bind() fills the front of the address and leaves the rest; a later comparison over that part agrees. */
  lemma BoundAgrees(s: Socket, data: Address, len: nat)
    ensures var b := Bound(s, data, len);
            && b.length == (if len < 514 then len else 514) && b == s.(data := b.data, length := b.length)
            && (2 <= b.length ==> Agree(b.data, data, b.length - 2))
            && forall i :: b.length <= i + 2 && 0 <= i < 512 ==> b.data[i] == s.data[i]
  {
  }

  /** connect() puts `self` into the backlog of `found`. */
  ghost predicate Joins(n: Net, self: nat, found: nat)
    requires self in n && (found != 0 ==> found in n)
  {
    && found != 0 && n[self].peer == 0 && n[self].family == n[found].family
    && Listens(n[found]) && RoomLeft(n[found]) && !LooksQueued(n, self, found)
  }

  /** Only the listener's backlog changes, by one connection at its end, and only when the call would block. */
  ghost predicate ConnectStep(n: Net, self: nat, found: nat, r: Result, n': Net) {
    if r.WouldBlock? then
      && found in n && found in n' && n' == n[found := n'[found]]
      && n'[found] == n[found].(backlog := n'[found].backlog, backlogCount := n[found].backlogCount + 1)
      && |n'[found].backlog| == |n[found].backlog| && Waiting(n'[found]) == Waiting(n[found]) + [self]
    else n' == n
  }

  ghost predicate ListenStep(n: Net, l: nat, max: int, r: Result, n': Net) {
    && l in n && l in n' && n' == n[l := n'[l]] && Waiting(n'[l]) == []
    && n'[l] == n[l].(backlogMax := if 0 < max then max else 1024, backlogCount := 0,
                      backlog := n'[l].backlog, listener := n[l].listener || r.Success?)
    && (if r.Success? then |n'[l].backlog| == n'[l].backlogMax && Listens(n'[l]) else r.NoBuffers? && n'[l].backlog == [])
  }

  /** accept(): the oldest waiting connection and the new socket `a` become peers. */
  ghost predicate AcceptStep(n: Net, l: nat, a: nat, r: Result, n': Net) {
    if r.Success? then
      && l in n && l in n' && a !in n && a in n' && a != 0 && Waiting(n[l]) != []
      && var w := Waiting(n[l])[0];
      && w in n && w in n' && n'.Keys == n.Keys + {a}
      && n'[a] == Socket(n[l].family, n[l].data, n[l].length, false, 0, 0, [], w) && n'[w].peer == a
      && Waiting(n'[l]) == Waiting(n[l])[1..] && BacklogOk(n'[l]) && |n'[l].backlog| == |n[l].backlog|
      && n'[l] == n[l].(backlog := n'[l].backlog, backlogCount := n'[l].backlogCount, peer := n'[l].peer)
      && (l != w ==> n'[l].peer == n[l].peer && n'[w] == n[w].(peer := a))
      && (forall s :: s in n && s != l && s != w ==> n'[s] == n[s])
    else n' == n
  }

  /** closeSocket() on the last reference. */
  ghost function Unlinked(n: Net, s: nat): Net
    requires s in n
  {
    var m := if n[s].peer in n then n[n[s].peer := n[n[s].peer].(peer := 0)] else n;
    m - {s}
  }

  /**
   A connect keeps the network well formed exactly when it does not put a socket into a second backlog: the
   socket waits already, it is not connected, and `found` has its family, listens, has room left and holds no
   connection that looks like it.
   */
  lemma ConnectKeeps(n: Net, self: nat, found: nat, data: Address, len: nat, n': Net)
    requires NetOk(n) && self in n && (found != 0 ==> found in n)
    requires ConnectStep(n, self, found, ConnectResult(n, self, found, data, len), n')
    ensures ConnectResult(n, self, found, data, len).WouldBlock? <==> Joins(n, self, found)
    ensures NetOk(n') <==> !(IsWaiting(n, self) && Joins(n, self, found))
  {
    if ConnectResult(n, self, found, data, len).WouldBlock? {
      var k := |Waiting(n[found])|;
      forall l, i, s
        ensures WaitsAt(n', l, i, s) <==> WaitsAt(n, l, i, s) || (l == found && i == k && s == self)
      {
      }
      assert WaitsAt(n', found, k, self);
      if IsWaiting(n, self) {
        var l, i :| WaitsAt(n, l, i, self);
        assert WaitsAt(n', l, i, self);
        assert !WaitersOk(n');
      } else {
        forall l, i, l', i', s | WaitsAt(n', l, i, s) && WaitsAt(n', l', i', s)
          ensures l == l' && i == i'
        {
        }
        assert Mutual(n');
      }
    }
  }

  lemma ListenKeeps(n: Net, l: nat, max: int, r: Result, n': Net)
    requires NetOk(n) && ListenStep(n, l, max, r, n')
    ensures NetOk(n')
  {
    forall m, i, s
      ensures WaitsAt(n', m, i, s) <==> WaitsAt(n, m, i, s) && m != l
    {
    }
  }

  /** Accepting keeps peer links mutual exactly when the waiting socket is not connected to another one already. */
  lemma AcceptMutualIff(n: Net, l: nat, a: nat, n': Net)
    requires 0 !in n && Mutual(n) && AcceptStep(n, l, a, Success, n')
    ensures var w := Waiting(n[l])[0];
            Mutual(n') <==> n[w].peer == 0 || n[w].peer == w
  {
    var w := Waiting(n[l])[0];
    var x := n[w].peer;
    forall s | s in n && s != w
      ensures n'[s].peer == n[s].peer && n[s].peer != a
    {
    }
    if x != 0 && x != w {
      assert x in n && n[x].peer == w;
      assert n'[x].peer == w && n'[w].peer == a;
    }
  }

  /** accept() keeps the network well formed; the new socket is of the listener's family and carries its address. */
  lemma AcceptKeeps(n: Net, l: nat, a: nat, r: Result, n': Net)
    requires NetOk(n) && AcceptStep(n, l, a, r, n')
    ensures NetOk(n')
    ensures r.Success? ==> n'[a].family == n[l].family && n'[a].data == n[l].data && n'[a].length == n[l].length
  {
    if r.Success? {
      var w := Waiting(n[l])[0];
      assert WaitsAt(n, l, 0, w);
      AcceptMutualIff(n, l, a, n');
      AcceptWaits(n, l, a, n');
      forall s | s in n'
        ensures BacklogOk(n'[s])
      {
      }
    }
  }

  lemma AcceptWaits(n: Net, l: nat, a: nat, n': Net)
    requires NetOk(n) && AcceptStep(n, l, a, Success, n')
    ensures WaitersOk(n')
  {
    var w := Waiting(n[l])[0];
    assert WaitsAt(n, l, 0, w);
    forall m, i: nat, s | WaitsAt(n', m, i, s)
      ensures WaitsAt(n, m, if m == l then i + 1 else i, s) && s != w && s in n && n'[s].peer == 0
    {
      assert WaitsAt(n, m, if m == l then i + 1 else i, s);
    }
  }

  /** Closing keeps the network well formed exactly when the socket waits in no other socket's backlog. */
  lemma CloseKeeps(n: Net, s: nat)
    requires NetOk(n) && s in n
    ensures NetOk(Unlinked(n, s)) <==> forall l, i :: WaitsAt(n, l, i, s) ==> l == s
  {
    var n' := Unlinked(n, s);
    forall l, i, t
      ensures WaitsAt(n', l, i, t) <==> WaitsAt(n, l, i, t) && l != s
    {
    }
    forall t | t in n'
      ensures n'[t].peer == if n[t].peer == s then 0 else n[t].peer
    {
      assert n[t].peer == s ==> n[s].peer == t;
    }
    if forall l, i :: WaitsAt(n, l, i, s) ==> l == s {
      forall l, i, t | WaitsAt(n', l, i, t)
        ensures t in n' && n'[t].peer == 0
      {
        assert WaitsAt(n, l, i, t);
      }
      forall l, i, l', i', t | WaitsAt(n', l, i, t) && WaitsAt(n', l', i', t)
        ensures l == l' && i == i'
      {
        assert WaitsAt(n, l, i, t) && WaitsAt(n, l', i', t);
      }
    } else {
      var l, i :| WaitsAt(n, l, i, s) && l != s;
      assert WaitsAt(n', l, i, s) && s !in n';
    }
  }

  /** A connect queues itself only if no waiting connection looks like it; an unbound socket looks like every one. */
  lemma UnboundNeverJoins(n: Net, self: nat, found: nat, data: Address, len: nat)
    requires NetOk(n) && self in n && found in n && n[self].peer == 0 && n[self].length == 0
    requires n[self].family == n[found].family && Listens(n[found]) && RoomLeft(n[found])
    ensures ConnectResult(n, self, found, data, len).InProgress? <==> Waiting(n[found]) != []
  {
    if Waiting(n[found]) != [] {
      var w := Waiting(n[found])[0];
      assert WaitsAt(n, found, 0, w) && Agree(n[w].data, n[self].data, n[self].length);
    }
  }

  /** While it waits, a retried connect reports progress exactly when the backlog has room left. */
  lemma RetryWhileWaiting(n: Net, self: nat, found: nat, i: nat, data: Address, len: nat)
    requires NetOk(n) && self in n && WaitsAt(n, found, i, self) && found != 0
    requires n[self].family == n[found].family && Listens(n[found])
    ensures ConnectResult(n, self, found, data, len) == if RoomLeft(n[found]) then InProgress else Refused
  {
    assert Agree(n[self].data, n[self].data, n[self].length);
  }
}

/** Whole runs of socket calls. */
module SocketRuns {
  import opened SocketSpec

  datatype Call =
    | Open(s: nat, family: nat)
    | Bind(s: nat, family: nat, data: Address, length: nat)
    | Connect(s: nat, found: nat, data: Address, length: nat)
    | Listen(s: nat, max: int)
    | Accept(s: nat, a: nat)
    | Close(s: nat)

  datatype Event = Event(call: Call, result: Result)

  ghost predicate Step(n: Net, e: Event, n': Net) {
    match e.call
    case Open(s, family) => s != 0 && s !in n && n' == n[s := Created(family)]
    case Bind(s, family, data, length) => BindStep(n, s, family, data, length, e.result, n')
    case Connect(s, found, data, length) =>
      && s in n && (found != 0 ==> found in n) && (n[s].peer != 0 ==> n[s].peer in n)
      && e.result == ConnectResult(n, s, found, data, length)
      && ConnectStep(n, s, found, e.result, n')
    case Listen(s, max) => ListenStep(n, s, max, e.result, n')
    case Accept(s, a) => AcceptStep(n, s, a, e.result, n')
    case Close(s) => s in n && n' == Unlinked(n, s)
  }

  /** A socket waits in at most one backlog, and is not closed while it waits there. */
  ghost predicate Regular(n: Net, e: Event) {
    match e.call
    case Connect(s, _, _, _) => e.result.WouldBlock? ==> !IsWaiting(n, s)
    case Close(s) => forall l, i :: WaitsAt(n, l, i, s) ==> l == s
    case _ => true
  }

  ghost predicate StepAt(ns: seq<Net>, es: seq<Event>, i: nat) {
    i < |es| && |ns| == |es| + 1 && Step(ns[i], es[i], ns[i + 1]) && Regular(ns[i], es[i])
  }

  ghost predicate Run(ns: seq<Net>, es: seq<Event>) {
    |ns| == |es| + 1 && forall i :: 0 <= i < |es| ==> StepAt(ns, es, i)
  }

  lemma OpenKeeps(n: Net, s: nat, x: Socket)
    requires NetOk(n) && s !in n && s != 0 && x.backlog == [] && x.backlogCount == 0 && x.peer == 0
    ensures NetOk(n[s := x])
  {
    var n' := n[s := x];
    forall l, i, t
      ensures WaitsAt(n', l, i, t) <==> WaitsAt(n, l, i, t)
    {
    }
  }

  lemma BindKeeps(n: Net, s: nat, data: Address, length: nat)
    requires NetOk(n) && s in n
    ensures NetOk(n[s := Bound(n[s], data, length)])
  {
    var n' := n[s := Bound(n[s], data, length)];
    forall l, i, t
      ensures WaitsAt(n', l, i, t) <==> WaitsAt(n, l, i, t)
    {
    }
  }

  lemma StepKeeps(n: Net, e: Event, n': Net)
    requires NetOk(n) && Step(n, e, n') && Regular(n, e)
    ensures NetOk(n')
  {
    match e.call
    case Open(s, family) => OpenKeeps(n, s, Created(family));
    case Bind(s, family, data, length) =>
      if family == n[s].family {
        BindKeeps(n, s, data, length);
      }
    case Connect(s, found, data, length) => ConnectKeeps(n, s, found, data, length, n');
    case Listen(s, max) => ListenKeeps(n, s, max, e.result, n');
    case Accept(s, a) => AcceptKeeps(n, s, a, e.result, n');
    case Close(s) => CloseKeeps(n, s);
  }

  /** Over every such run peer links stay mutual, backlogs within their limit, and waiting sockets open. */
  lemma {:induction false} RunKeeps(ns: seq<Net>, es: seq<Event>, k: nat)
    requires Run(ns, es) && NetOk(ns[0]) && k <= |es|
    ensures NetOk(ns[k])
  {
    if k != 0 {
      RunKeeps(ns, es, k - 1);
      assert StepAt(ns, es, k - 1);
      StepKeeps(ns[k - 1], es[k - 1], ns[k]);
    }
  }

  /** The listener is left alone by everything except connections and accepts. */
  ghost predicate Undisturbed(es: seq<Event>, l: nat, m: nat)
    requires m <= |es|
  {
    forall i :: 0 <= i < m ==> !(es[i].call.Listen? && es[i].call.s == l) && !(es[i].call.Close? && es[i].call.s == l)
  }

  predicate Accepts(e: Event, l: nat) {
    e.call.Accept? && e.call.s == l && e.result.Success?
  }

  predicate Joins(e: Event, l: nat) {
    e.call.Connect? && e.call.found == l && e.result.WouldBlock?
  }

  /** Connections queued at `l` by the first `k` calls, in order. */
  ghost function Joined(es: seq<Event>, l: nat, k: nat): seq<nat>
    requires k <= |es|
  {
    if k == 0 then [] else Joined(es, l, k - 1) + if Joins(es[k - 1], l) then [es[k - 1].call.s] else []
  }

  /** The sockets that the accepts on `l` among the first `k` calls connected, in order. */
  ghost function Accepted(ns: seq<Net>, es: seq<Event>, l: nat, k: nat): seq<nat>
    requires k <= |es| < |ns|
  {
    if k == 0 then [] else Accepted(ns, es, l, k - 1) + AcceptedBy(es[k - 1], ns[k], l)
  }

  ghost function AcceptedBy(e: Event, n': Net, l: nat): seq<nat> {
    if Accepts(e, l) && e.call.a in n' then [n'[e.call.a].peer] else []
  }

  /** The queue of `l` grows at its end, shrinks at its front, or stays. */
  ghost predicate QueueMoves(n: Net, e: Event, n': Net, l: nat) {
    && l in n && l in n' && n'[l].family == n[l].family && n'[l].backlogMax == n[l].backlogMax
    && Listens(n'[l]) == Listens(n[l])
    && (Joins(e, l) ==> Waiting(n'[l]) == Waiting(n[l]) + [e.call.s])
    && (Accepts(e, l) ==>
          && Waiting(n[l]) != [] && e.call.a in n' && n'[e.call.a].peer == Waiting(n[l])[0]
          && Waiting(n'[l]) == Waiting(n[l])[1..])
    && (!Joins(e, l) && !Accepts(e, l) ==> Waiting(n'[l]) == Waiting(n[l]))
  }

  lemma AcceptMoves(n: Net, e: Event, n': Net, l: nat)
    requires NetOk(n) && e.call.Accept? && AcceptStep(n, e.call.s, e.call.a, e.result, n') && l in n
    ensures QueueMoves(n, e, n', l)
  {
    if e.result.Success? {
      var m := e.call.s;
      assert n'[m].listener == n[m].listener;
      assert l != m ==> Waiting(n'[l]) == Waiting(n[l]);
    }
  }

  lemma StepMoves(n: Net, e: Event, n': Net, l: nat)
    requires NetOk(n) && Step(n, e, n') && Regular(n, e) && l in n
    requires !(e.call.Listen? && e.call.s == l) && !(e.call.Close? && e.call.s == l)
    ensures QueueMoves(n, e, n', l)
  {
    match e.call
    case Accept(s, a) => AcceptMoves(n, e, n', l);
    case Connect(s, found, data, length) =>
    case Close(s) =>
    case _ =>
  }

  /** First in, first out: those accepted, then those still waiting, are those queued, in order. */
  lemma {:induction false} AcceptedInOrder(ns: seq<Net>, es: seq<Event>, l: nat, k: nat)
    requires Run(ns, es) && NetOk(ns[0]) && l in ns[0] && k <= |es| && Undisturbed(es, l, k)
    ensures l in ns[k]
    ensures Accepted(ns, es, l, k) + Waiting(ns[k][l]) == Waiting(ns[0][l]) + Joined(es, l, k)
  {
    if k != 0 {
      AcceptedInOrder(ns, es, l, k - 1);
      MovesAt(ns, es, k - 1, l);
      OneMore(Accepted(ns, es, l, k - 1), Waiting(ns[0][l]), Joined(es, l, k - 1), ns[k - 1], es[k - 1], ns[k], l);
    }
  }

  lemma MovesAt(ns: seq<Net>, es: seq<Event>, k: nat, l: nat)
    requires Run(ns, es) && NetOk(ns[0]) && k < |es| && Undisturbed(es, l, k + 1) && l in ns[k]
    ensures QueueMoves(ns[k], es[k], ns[k + 1], l)
  {
    RunKeeps(ns, es, k);
    assert StepAt(ns, es, k);
    StepMoves(ns[k], es[k], ns[k + 1], l);
  }

  lemma OneMore(accepted: seq<nat>, start: seq<nat>, joined: seq<nat>, n: Net, e: Event, n': Net, l: nat)
    requires QueueMoves(n, e, n', l) && accepted + Waiting(n[l]) == start + joined
    ensures accepted + AcceptedBy(e, n', l) + Waiting(n'[l]) ==
            start + (joined + if Joins(e, l) then [e.call.s] else [])
  {
    var w := Waiting(n[l]);
    if Accepts(e, l) {
      assert accepted + [w[0]] + w[1..] == accepted + w;
      assert joined + [] == joined;
    } else if Joins(e, l) {
      assert accepted + [] + (w + [e.call.s]) == accepted + w + [e.call.s];
      assert start + (joined + [e.call.s]) == start + joined + [e.call.s];
    } else {
      assert accepted + [] == accepted && joined + [] == joined;
    }
  }

  /** A connection with `k` others in front waits on until that many, and itself, have been accepted. */
  lemma WaitsUntilAccepted(ns: seq<Net>, es: seq<Event>, l: nat, k: nat, m: nat)
    requires Run(ns, es) && NetOk(ns[0]) && l in ns[0] && m <= |es| && Undisturbed(es, l, m)
    requires k < |Waiting(ns[0][l])|
    ensures |Accepted(ns, es, l, m)| <= k ==>
              WaitsAt(ns[m], l, k - |Accepted(ns, es, l, m)|, Waiting(ns[0][l])[k])
    ensures |Accepted(ns, es, l, m)| > k ==> Accepted(ns, es, l, m)[k] == Waiting(ns[0][l])[k]
  {
    AcceptedInOrder(ns, es, l, m);
    var all := Accepted(ns, es, l, m) + Waiting(ns[m][l]);
    assert all[k] == Waiting(ns[0][l])[k];
  }

  lemma {:induction false} ListenerStays(ns: seq<Net>, es: seq<Event>, l: nat, k: nat)
    requires Run(ns, es) && NetOk(ns[0]) && l in ns[0] && k <= |es| && Undisturbed(es, l, k)
    ensures l in ns[k] && Listens(ns[k][l]) == Listens(ns[0][l]) && ns[k][l].family == ns[0][l].family
  {
    if k != 0 {
      ListenerStays(ns, es, l, k - 1);
      MovesAt(ns, es, k - 1, l);
    }
  }

  lemma WaiterSurvives(n: Net, e: Event, n': Net, self: nat, l: nat, i: nat)
    requires Step(n, e, n') && Regular(n, e) && self in n && WaitsAt(n, l, i, self)
    requires !(e.call.Close? && e.call.s == l)
    ensures self in n' && n'[self].family == n[self].family
  {
    assert !(e.call.Close? && e.call.s == self);
  }

  /** A waiting socket stays open: only closing it could remove it, and it is not closed while it waits. */
  lemma {:induction false} WaiterStays(ns: seq<Net>, es: seq<Event>, self: nat, l: nat, k: nat, m: nat)
    requires Run(ns, es) && NetOk(ns[0]) && m <= |es| && Undisturbed(es, l, m)
    requires WaitsAt(ns[0], l, k, self) && self in ns[0] && |Accepted(ns, es, l, m)| <= k
    ensures self in ns[m] && ns[m][self].family == ns[0][self].family
  {
    if m != 0 {
      WaiterStays(ns, es, self, l, k, m - 1);
      WaitsUntilAccepted(ns, es, l, k, m - 1);
      assert StepAt(ns, es, m - 1);
      WaiterSurvives(ns[m - 1], es[m - 1], ns[m], self, l, k - |Accepted(ns, es, l, m - 1)|);
    }
  }

  /** A connect that would block has put its socket at the end of the listener's queue. */
  lemma JoinsAtEnd(n: Net, e: Event, n': Net, l: nat)
    requires NetOk(n) && Step(n, e, n') && Joins(e, l)
    ensures l in n && l != 0 && l in n' && Listens(n'[l]) && e.call.s in n' && n'[e.call.s].family == n'[l].family
    ensures WaitsAt(n', l, |Waiting(n[l])|, e.call.s)
  {
  }

  /**
   The handshake of a socket that waits at `l` with `k` others in front of it: every retry before the accept
   that takes it reports progress if the backlog has room left, and is refused otherwise.
   */
  lemma RetryBeforeAccept(ns: seq<Net>, es: seq<Event>, self: nat, l: nat, k: nat, m: nat)
    requires Run(ns, es) && NetOk(ns[0]) && m < |es| && Undisturbed(es, l, m)
    requires WaitsAt(ns[0], l, k, self) && self in ns[0] && Listens(ns[0][l]) && ns[0][self].family == ns[0][l].family
    requires es[m].call.Connect? && es[m].call.s == self && es[m].call.found == l
    requires |Accepted(ns, es, l, m)| <= k
    ensures l in ns[m] && es[m].result == if RoomLeft(ns[m][l]) then InProgress else Refused
  {
    ListenerStays(ns, es, l, m);
    WaiterStays(ns, es, self, l, k, m);
    WaitsUntilAccepted(ns, es, l, k, m);
    RunKeeps(ns, es, m);
    RetryWhileWaiting(ns[m], self, l, k - |Accepted(ns, es, l, m)|, es[m].call.data, es[m].call.length);
    assert StepAt(ns, es, m);
  }

  /** Call `j` is the accept on `l` that follows `k` others. */
  ghost predicate AcceptsAfter(ns: seq<Net>, es: seq<Event>, l: nat, k: nat, j: nat)
    requires |es| < |ns|
  {
    j < |es| && Accepts(es[j], l) && |Accepted(ns, es, l, j)| == k
  }

  lemma {:induction false} FindAccept(ns: seq<Net>, es: seq<Event>, l: nat, k: nat, m: nat) returns (j: nat)
    requires m <= |es| < |ns| && |Accepted(ns, es, l, m)| > k
    ensures j < m && AcceptsAfter(ns, es, l, k, j)
  {
    if |Accepted(ns, es, l, m - 1)| > k {
      j := FindAccept(ns, es, l, k, m - 1);
    } else {
      j := m - 1;
    }
  }

  lemma {:induction false} AcceptedGrows(ns: seq<Net>, es: seq<Event>, l: nat, j: nat, m: nat)
    requires j <= m <= |es| < |ns|
    ensures |Accepted(ns, es, l, j)| <= |Accepted(ns, es, l, m)|
    decreases m - j
  {
    if j < m {
      AcceptedGrows(ns, es, l, j, m - 1);
    }
  }

  /** The accept after `k` others takes exactly the connection that had `k` others in front of it. */
  lemma OwnAccept(ns: seq<Net>, es: seq<Event>, self: nat, l: nat, k: nat, j: nat)
    requires Run(ns, es) && NetOk(ns[0]) && WaitsAt(ns[0], l, k, self) && AcceptsAfter(ns, es, l, k, j)
    requires Undisturbed(es, l, j)
    ensures l in ns[j] && self in ns[j + 1] && es[j].call.a in ns[j + 1] && es[j].call.a != 0
    ensures ns[j + 1][self].peer == es[j].call.a && ns[j + 1][es[j].call.a].data == ns[j][l].data
  {
    WaitsUntilAccepted(ns, es, l, k, j);
    assert StepAt(ns, es, j);
  }

  /** Neither end of a connection is closed in calls i to m - 1, and the accepted end keeps its address. */
  ghost predicate LeftOpen(es: seq<Event>, self: nat, a: nat, i: nat, m: nat)
    requires m <= |es|
  {
    forall k :: i <= k < m ==> !(es[k].call.Close? && (es[k].call.s == self || es[k].call.s == a))
                               && !(es[k].call.Bind? && es[k].call.s == a)
  }

  lemma PeerSurvives(n: Net, e: Event, n': Net, self: nat, a: nat)
    requires NetOk(n) && Step(n, e, n') && self in n && a in n && a != 0 && n[self].peer == a
    requires !(e.call.Close? && (e.call.s == self || e.call.s == a)) && !(e.call.Bind? && e.call.s == a)
    ensures self in n' && a in n' && n'[self].peer == a && n'[a].data == n[a].data
  {
    if e.call.Accept? && e.result.Success? {
      assert WaitsAt(n, e.call.s, 0, Waiting(n[e.call.s])[0]);
    }
  }

  lemma {:induction false} StaysConnected(ns: seq<Net>, es: seq<Event>, self: nat, a: nat, i: nat, m: nat)
    requires Run(ns, es) && NetOk(ns[0]) && i <= m <= |es| && LeftOpen(es, self, a, i, m)
    requires self in ns[i] && a in ns[i] && a != 0 && ns[i][self].peer == a
    ensures self in ns[m] && a in ns[m] && ns[m][self].peer == a && ns[m][a].data == ns[i][a].data
    decreases m - i
  {
    if i < m {
      StaysConnected(ns, es, self, a, i, m - 1);
      RunKeeps(ns, es, m - 1);
      assert StepAt(ns, es, m - 1);
      PeerSurvives(ns[m - 1], es[m - 1], ns[m], self, a);
    }
  }

  /** Every later retry of a connect that was accepted at `j`, whatever happened in between. */
  lemma RetryAfterOwnAccept(ns: seq<Net>, es: seq<Event>, self: nat, l: nat, k: nat, j: nat, m: nat)
    requires Run(ns, es) && NetOk(ns[0]) && WaitsAt(ns[0], l, k, self)
    requires AcceptsAfter(ns, es, l, k, j) && Undisturbed(es, l, j) && l in ns[j]
    requires j < m < |es| && LeftOpen(es, self, es[j].call.a, j + 1, m)
    requires es[m].call.Connect? && es[m].call.s == self && es[m].call.found != 0
    ensures es[m].result == if Agree(ns[j][l].data, es[m].call.data, es[m].call.length) then Success else IsConnected
    ensures self in ns[m] && ns[m][self].peer == es[j].call.a
  {
    OwnAccept(ns, es, self, l, k, j);
    StaysConnected(ns, es, self, es[j].call.a, j + 1, m);
    assert StepAt(ns, es, m);
  }

  /** What a retry finds: accepted at some earlier call, or not yet. */
  ghost predicate AcceptedBefore(ns: seq<Net>, es: seq<Event>, l: nat, k: nat, m: nat)
    requires |es| < |ns|
  {
    exists j :: 0 <= j < m && AcceptsAfter(ns, es, l, k, j)
  }

  lemma AcceptedIff(ns: seq<Net>, es: seq<Event>, l: nat, k: nat, m: nat)
    requires m <= |es| < |ns| && Run(ns, es) && NetOk(ns[0]) && l in ns[0] && Undisturbed(es, l, m)
    ensures AcceptedBefore(ns, es, l, k, m) <==> |Accepted(ns, es, l, m)| > k
  {
    if AcceptedBefore(ns, es, l, k, m) {
      var j :| 0 <= j < m && AcceptsAfter(ns, es, l, k, j);
      AcceptedInOrder(ns, es, l, j);
      MovesAt(ns, es, j, l);
      AcceptedGrows(ns, es, l, j + 1, m);
    } else if |Accepted(ns, es, l, m)| > k {
      var j := FindAccept(ns, es, l, k, m);
      assert false;
    }
  }

  /**
   The handshake from a socket's place in the backlog: until the accept that takes it, a retry is in progress if
   the backlog has room and refused otherwise; afterwards it succeeds. It succeeds if and only if such an accept
   came before and the retry names the address the listener had then.
   */
  lemma Retried(ns: seq<Net>, es: seq<Event>, self: nat, l: nat, k: nat, m: nat)
    requires Run(ns, es) && NetOk(ns[0]) && m < |es| && Undisturbed(es, l, m)
    requires WaitsAt(ns[0], l, k, self) && self in ns[0] && Listens(ns[0][l]) && ns[0][self].family == ns[0][l].family
    requires es[m].call.Connect? && es[m].call.s == self && es[m].call.found == l && l != 0
    requires forall j :: 0 <= j < m && AcceptsAfter(ns, es, l, k, j) ==> LeftOpen(es, self, es[j].call.a, j + 1, m)
    ensures !AcceptedBefore(ns, es, l, k, m) ==>
              l in ns[m] && es[m].result == if RoomLeft(ns[m][l]) then InProgress else Refused
    ensures forall j :: 0 <= j < m && AcceptsAfter(ns, es, l, k, j) && l in ns[j] ==>
              es[m].result == if Agree(ns[j][l].data, es[m].call.data, es[m].call.length) then Success else IsConnected
    ensures es[m].result.Success? <==>
            exists j :: 0 <= j < m && AcceptsAfter(ns, es, l, k, j) && l in ns[j]
                        && Agree(ns[j][l].data, es[m].call.data, es[m].call.length)
  {
    AcceptedIff(ns, es, l, k, m);
    forall j | 0 <= j < m && AcceptsAfter(ns, es, l, k, j)
      ensures l in ns[j]
      ensures es[m].result == if Agree(ns[j][l].data, es[m].call.data, es[m].call.length) then Success else IsConnected
    {
      OwnAccept(ns, es, self, l, k, j);
      RetryAfterOwnAccept(ns, es, self, l, k, j, m);
    }
    if !AcceptedBefore(ns, es, l, k, m) {
      RetryBeforeAccept(ns, es, self, l, k, m);
    }
  }

  /**
   The whole handshake. `first` is a connect that would block; `ns` and `es` are whatever happens after it, and call
   `m` is a retry. The retry reports in-progress (or refused, when the backlog is full) exactly until the accept
   that follows the connections queued earlier, and success exactly after it.
   */
  lemma Handshake(n0: Net, first: Event, ns: seq<Net>, es: seq<Event>, l: nat, m: nat)
    requires NetOk(n0) && Joins(first, l) && ns != [] && Step(n0, first, ns[0]) && Regular(n0, first)
    requires Run(ns, es) && m < |es| && Undisturbed(es, l, m)
    requires es[m].call.Connect? && es[m].call.s == first.call.s && es[m].call.found == l
    requires l in n0
    requires var k := |Waiting(n0[l])|;
             forall j :: 0 <= j < m && AcceptsAfter(ns, es, l, k, j) ==>
                           LeftOpen(es, first.call.s, es[j].call.a, j + 1, m)
    ensures var k := |Waiting(n0[l])|;
            && WaitsAt(ns[0], l, k, first.call.s)
            && (!AcceptedBefore(ns, es, l, k, m) ==>
                  l in ns[m] && es[m].result == if RoomLeft(ns[m][l]) then InProgress else Refused)
            && (es[m].result.Success? <==>
                exists j :: 0 <= j < m && AcceptsAfter(ns, es, l, k, j) && l in ns[j]
                            && Agree(ns[j][l].data, es[m].call.data, es[m].call.length))
  {
    JoinsAtEnd(n0, first, ns[0], l);
    StepKeeps(n0, first, ns[0]);
    Retried(ns, es, first.call.s, l, |Waiting(n0[l])|, m);
  }
}

/** connect(), listen(), accept() and closeSocket() on the descriptors themselves. */
module Sockets {
  import opened SocketSpec
  import SocketRuns

  class Registry {
    var socks: Net

    ghost predicate Valid()
      reads this
    {
      NetOk(socks)
    }

    constructor ()
      ensures Valid() && socks == map[]
    {
      socks := map[];
    }

    /** socket(): `s` is the new descriptor. */
    method Open(s: nat, family: nat)
      requires Valid() && s != 0 && s !in socks
      modifies this
      ensures Valid() && socks == old(socks)[s := Created(family)]
    {
      SocketRuns.OpenKeeps(socks, s, Created(family));
      socks := socks[s := Created(family)];
    }

    method Bind(s: nat, family: nat, data: Address, len: nat) returns (r: Result)
      requires Valid() && s in socks
      modifies this
      ensures Valid() && BindStep(old(socks), s, family, data, len, r, socks)
    {
      var n := if len > 514 then 514 else len;
      if family != socks[s].family {
        return NoFamily;
      }
      SocketRuns.BindKeeps(socks, s, data, len);
      var sock := socks[s];
      if 2 <= n {
        sock := sock.(data := data[..n - 2] + sock.data[n - 2..]);
      }
      socks := socks[s := sock.(length := n)];
      return Success;
    }

    /** memcmp(a, b, n) == 0 */
    static method Matches(a: Address, b: Address, n: nat) returns (same: bool)
      ensures same <==> Agree(a, b, n)
    {
      var i := 0;
      while i < n && i < 512
        invariant 0 <= i <= n && Agree(a, b, i)
      {
        if a[i] != b[i] {
          return false;
        }
        i := i + 1;
      }
      return true;
    }

    /** The search for the connection in the backlog. */
    method AlreadyQueued(self: nat, found: nat) returns (queued: bool)
      requires Valid() && self in socks && found in socks
      ensures queued <==> LooksQueued(socks, self, found)
    {
      var i := 0;
      while i < socks[found].backlogCount
        invariant 0 <= i <= socks[found].backlogCount
        invariant forall j :: 0 <= j < i ==>
                    !(Waiting(socks[found])[j] in socks
                      && Agree(socks[Waiting(socks[found])[j]].data, socks[self].data, socks[self].length))
      {
        var request := socks[found].backlog[i];
        assert WaitsAt(socks, found, i, request);
        var same := Matches(socks[request].data, socks[self].data, socks[self].length);
        if same {
          assert Waiting(socks[found])[i] == request;
          return true;
        }
        i := i + 1;
      }
      return false;
    }

    method Connect(self: nat, found: nat, data: Address, len: nat) returns (r: Result)
      requires Valid() && self in socks && (found != 0 ==> found in socks)
      modifies this
      ensures r == ConnectResult(old(socks), self, found, data, len)
      ensures ConnectStep(old(socks), self, found, r, socks)
      ensures r.WouldBlock? <==> Joins(old(socks), self, found)
      ensures Valid() <==> !(IsWaiting(old(socks), self) && Joins(old(socks), self, found))
    {
      if found == 0 {
        return NoAddress;
      }
      if socks[self].peer != 0 {
        var same := Matches(socks[socks[self].peer].data, data, len);
        return if same then Success else IsConnected;
      }
      if socks[self].family != socks[found].family {
        return NoFamily;
      }
      if !socks[found].listener || socks[found].backlogMax == 0 || socks[found].backlog == [] {
        return Refused;
      }
      if socks[found].backlogCount >= socks[found].backlogMax {
        return Refused;
      }
      var queued := AlreadyQueued(self, found);
      if queued {
        return InProgress;
      }
      var peer := socks[found];
      socks := socks[found := peer.(backlog := peer.backlog[peer.backlogCount := self],
                                    backlogCount := peer.backlogCount + 1)];
      ConnectKeeps(old(socks), self, found, data, len, socks);
      return WouldBlock;
    }

    /** `ok` says whether the backlog could be allocated. */
    method Listen(l: nat, max: int, ok: bool) returns (r: Result)
      requires Valid() && l in socks
      modifies this
      ensures Valid() && ListenStep(old(socks), l, max, r, socks) && r.Success? == ok
    {
      var sock := socks[l].(backlogCount := 0, backlogMax := if 0 < max then max else DEFAULT_BACKLOG);
      if !ok {
        socks := socks[l := sock.(backlog := [])];
        r := NoBuffers;
      } else {
        socks := socks[l := sock.(backlog := seq(sock.backlogMax, _ => 0), listener := true)];
        r := Success;
      }
      ListenKeeps(old(socks), l, max, r, socks);
    }

    /** `a` is the new descriptor, `ok` whether it and its socket could be allocated. */
    method Accept(l: nat, a: nat, ok: bool) returns (r: Result)
      requires Valid() && l in socks && a != 0 && a !in socks
      modifies this
      ensures Valid() && AcceptStep(old(socks), l, a, r, socks)
      ensures r == if !Listens(old(socks)[l]) then Invalid
                   else if Waiting(old(socks)[l]) == [] then WouldBlock
                   else if ok then Success else NoFiles
    {
      var listener := socks[l];
      if !listener.listener || listener.backlog == [] || listener.backlogMax == 0 {
        return Invalid;
      }
      if listener.backlogCount == 0 {
        return WouldBlock;
      }
      if !ok {
        return NoFiles;
      }
      var w := listener.backlog[0];
      assert WaitsAt(socks, l, 0, w);
      var self := Socket(listener.family, listener.data, listener.length, false, 0, 0, [], w);
      socks := socks[a := self][w := socks[w].(peer := a)];
      var shifted := listener.backlog[1..] + [listener.backlog[listener.backlogMax - 1]];
      socks := socks[l := socks[l].(backlog := shifted, backlogCount := socks[l].backlogCount - 1)];
      assert Waiting(socks[l]) == Waiting(listener)[1..];
      AcceptKeeps(old(socks), l, a, Success, socks);
      return Success;
    }

    /** closeSocket when the last reference goes. */
    method Close(s: nat)
      requires Valid() && s in socks
      modifies this
      ensures socks == Unlinked(old(socks), s)
      ensures Valid() <==> forall l, i :: WaitsAt(old(socks), l, i, s) ==> l == s
    {
      CloseKeeps(socks, s);
      if socks[s].peer != 0 {
        var p := socks[s].peer;
        socks := socks[p := socks[p].(peer := 0)];
      }
      socks := socks - {s};
    }
  }
}
