/**
  The userspace network stack as a state machine: what each step of its event loop does to the
  connection tables, the sockets and the bytes in flight.

  Sockets are known by contract only: `send_slice` accepts some prefix, `recv` hands over some
  prefix of what arrived, `close` moves the phase, and a poll changes phases and brings bytes in
  any way it likes. Every such choice is a parameter of the step that meets it.
 */
module NetStackModel {
  import opened Bytes

  // ---------------------------------------------------------------- data

  datatype Phase =
    | Listen | SynSent | SynReceived | Established | FinWait1 | FinWait2
    | CloseWait | Closing | LastAck | TimeWait | Closed

  datatype Cause = HalfClose | AppGone | PeerClosed

  /** One call of `close`: why, and how many bytes were accepted and still pending at that moment. */
  datatype Fin = Fin(cause: Cause, accepted: nat, pending: nat)

  /**
    A socket of the set. `owner` is the connection it was added for, `accepted` all it took from
    `send_slice`, `rx` what it received and has not handed over, `received` all it ever received.
   */
  datatype Socket =
    | TcpSocket(owner: nat, phase: Phase, accepted: seq<byte>, rx: seq<byte>, received: seq<byte>, fins: seq<Fin>)
    | UdpSocket(owner: nat)

  /** `TcpState`; `resp` is the opener still waiting for an answer, `toApp` all bytes sent to the app. */
  datatype Conn = Conn(
    handle: nat,
    resp: Option<nat>,
    pending: seq<byte>,
    established: bool,
    halfClosed: bool,
    toApp: seq<byte>)

  datatype DataIn =
    | Tcp(id: nat, data: seq<byte>)
    | TcpClose(id: nat)
    | Udp(id: nat, data: seq<byte>)
    | UdpClose(id: nat)

  datatype Cmd =
    | OpenTcp(opener: nat, connects: bool, handle: nat)
    | OpenUdp(opener: nat, binds: bool, handle: nat)
    | SetAddrs

  /** `NetStack`, with the answers given to openers and the connections handed to the app. */
  datatype Stack = Stack(
    tcp: map<nat, Conn>,
    udp: map<nat, nat>,
    sockets: map<nat, Socket>,
    nextId: nat,
    nextPort: nat,
    limit: nat,
    answers: multiset<nat>,
    handed: set<nat>)

  const FIRST_PORT: nat := 49152
  const LAST_PORT: nat := 65000
  const MAX_RECV_CHUNKS: nat := 128

  /** `max_tcp_pending`. */
  function MaxPending(tcpBuf: nat): nat
  {
    if tcpBuf * 2 < 64 * 1024 then 64 * 1024 else tcpBuf * 2
  }

  function AllocPort(next: nat): nat
  {
    if next >= LAST_PORT then FIRST_PORT else next + 1
  }

  const PORTS: nat := LAST_PORT - FIRST_PORT + 1

  /** The next port after `n` allocations. */
  function PortAfter(port: nat, n: nat): nat
  {
    if n == 0 then port else AllocPort(PortAfter(port, n - 1))
  }

  /** How many ports past `port` the allocator is; a full cycle starts over. */
  function Cycle(port: nat, n: nat): (m: nat)
    requires FIRST_PORT <= port <= LAST_PORT
    ensures m < PORTS
  {
    (port - FIRST_PORT + n) % PORTS
  }

  lemma {:induction false} PortCycles(port: nat, n: nat)
    requires FIRST_PORT <= port <= LAST_PORT
    ensures PortAfter(port, n) == FIRST_PORT + Cycle(port, n)
  {
    if n > 0 {
      PortCycles(port, n - 1);
      NextPlace(port - FIRST_PORT + n - 1);
    }
  }

  lemma NextPlace(a: nat)
    ensures (a + 1) % PORTS == if a % PORTS + 1 == PORTS then 0 else a % PORTS + 1
  {
    var q := (a + 1) / PORTS - a / PORTS;
    assert q * PORTS == a % PORTS + 1 - (a + 1) % PORTS;
  }

  /** Two allocations give the same port exactly when whole cycles of the ephemeral range lie between them. */
  lemma PortsRepeatIff(port: nat, i: nat, j: nat)
    requires FIRST_PORT <= port <= LAST_PORT && i <= j
    ensures FIRST_PORT <= PortAfter(port, i) <= LAST_PORT
    ensures PortAfter(port, i) == PortAfter(port, j) <==> (j - i) % PORTS == 0
  {
    PortCycles(port, i);
    PortCycles(port, j);
    SamePlace(port - FIRST_PORT + i, j - i);
  }

  lemma SamePlace(a: nat, d: nat)
    ensures a % PORTS == (a + d) % PORTS <==> d % PORTS == 0
  {
    var q := (a + d) / PORTS - a / PORTS - d / PORTS;
    assert q * PORTS == a % PORTS + d % PORTS - (a + d) % PORTS;
  }

  // ---------------------------------------------------------------- the socket contract

  function CloseTo(p: Phase): Phase
  {
    match p
    case Listen | SynSent => Closed
    case SynReceived | Established => FinWait1
    case CloseWait => LastAck
    case _ => p
  }

  function CloseSocket(k: Socket, cause: Cause, pending: nat): Socket
    requires k.TcpSocket?
  {
    k.(phase := CloseTo(k.phase), fins := k.fins + [Fin(cause, |k.accepted|, pending)])
  }

  /** What one pass over a connection meets: room to send, and the outcomes of the receive attempts. */
  datatype Turn = Turn(canSend: bool, accepts: nat, attempts: seq<Attempt>)

  datatype Attempt =
    | Chunk(size: nat)  // a permit, and `recv` offers this many bytes
    | Full              // no permit: the app is behind
    | Gone              // no permit: the app dropped its receiver

  // ---------------------------------------------------------------- owning the socket set

  /** Every entry names a socket of its kind that was added for it, and every socket is named. */
  ghost predicate Owned(s: Stack)
  {
    && (forall id :: id in s.tcp ==>
          && s.tcp[id].handle in s.sockets && s.sockets[s.tcp[id].handle].TcpSocket?
          && s.sockets[s.tcp[id].handle].owner == id && id < s.nextId)
    && (forall id :: id in s.udp ==>
          && s.udp[id] in s.sockets && s.sockets[s.udp[id]].UdpSocket?
          && s.sockets[s.udp[id]].owner == id && id < s.nextId)
    && (forall h :: h in s.sockets ==>
          var k := s.sockets[h];
          if k.TcpSocket? then k.owner in s.tcp && s.tcp[k.owner].handle == h
          else k.owner in s.udp && s.udp[k.owner] == h)
    && s.tcp.Keys !! s.udp.Keys
  }

  // ---------------------------------------------------------------- handling app data

  /** `try_handle_data`: the new stack, and what must be deferred. */
  function TryHandle(s: Stack, d: DataIn): (Stack, Option<DataIn>)
  {
    match d
    case Tcp(id, data) =>
      if id !in s.tcp then (s, None)
      else
        var c := s.tcp[id];
        if |c.pending| >= s.limit then (s, Some(d))
        else
          var space := s.limit - |c.pending|;
          if |data| <= space then (s.(tcp := s.tcp[id := c.(pending := c.pending + data)]), None)
          else (s.(tcp := s.tcp[id := c.(pending := c.pending + data[..space])]), Some(Tcp(id, data[space..])))
    case TcpClose(id) =>
      if id !in s.tcp then (s, None)
      else (s.(tcp := s.tcp[id := s.tcp[id].(halfClosed := true)]), None)
    case Udp(_, _) => (s, None)
    case UdpClose(id) =>
      if id !in s.udp then (s, None)
      else (s.(udp := s.udp - {id}, sockets := s.sockets - {s.udp[id]}), None)
  }

  /** The retry loop over `deferred`. */
  function Retry(s: Stack, deferred: seq<DataIn>): (Stack, seq<DataIn>)
    decreases |deferred|
  {
    if deferred == [] then (s, [])
    else
      var (s', back) := TryHandle(s, deferred[0]);
      if back.Some? then (s', [back.value] + deferred[1..])
      else Retry(s', deferred[1..])
  }

  /** The receive arm: data is taken while nothing is deferred. Results: stack, deferred, queue. */
  function Ingest(s: Stack, queue: seq<DataIn>): (Stack, seq<DataIn>, seq<DataIn>)
    decreases |queue|
  {
    if queue == [] then (s, [], [])
    else
      var (s', back) := TryHandle(s, queue[0]);
      if back.Some? then (s', [back.value], queue[1..])
      else Ingest(s', queue[1..])
  }

  // ---------------------------------------------------------------- commands

  function HandleCmd(s: Stack, cmd: Cmd): Stack
  {
    match cmd
    case OpenTcp(opener, connects, handle) =>
      if !connects then s.(nextPort := AllocPort(s.nextPort), answers := s.answers + multiset{opener})
      else
        s.(nextPort := AllocPort(s.nextPort),
           nextId := s.nextId + 1,
           sockets := s.sockets[handle := TcpSocket(s.nextId, SynSent, [], [], [], [])],
           tcp := s.tcp[s.nextId := Conn(handle, Some(opener), [], false, false, [])])
    case OpenUdp(opener, binds, handle) =>
      if !binds then s.(nextPort := AllocPort(s.nextPort), answers := s.answers + multiset{opener})
      else
        s.(nextPort := AllocPort(s.nextPort),
           nextId := s.nextId + 1,
           sockets := s.sockets[handle := UdpSocket(s.nextId)],
           udp := s.udp[s.nextId := handle],
           answers := s.answers + multiset{opener})
    case SetAddrs => s
  }

  // ---------------------------------------------------------------- servicing one connection

  predicate Dead(p: Phase) { p == Closed || p == TimeWait }

  /** `send_slice` on the pending bytes. */
  function Flush(c: Conn, k: Socket, t: Turn): (Conn, Socket)
    requires k.TcpSocket?
  {
    if !t.canSend then (c, k)
    else
      var n := Min(t.accepts, |c.pending|);
      (c.(pending := c.pending[n..]), k.(accepted := k.accepted + c.pending[..n]))
  }

  /** The receive loop: the connection and socket after it, and whether the app is gone. */
  function Receive(c: Conn, k: Socket, attempts: seq<Attempt>, delivered: nat): (r: (Conn, Socket, bool))
    requires k.TcpSocket?
    ensures r.1.TcpSocket?
    decreases |attempts|
  {
    if attempts == [] || delivered >= MAX_RECV_CHUNKS || attempts[0].Full? then (c, k, false)
    else if attempts[0].Gone? then (c, k, true)
    else
      var n := Min(attempts[0].size, |k.rx|);
      if n == 0 then (c, k, false)
      else Receive(c.(toApp := c.toApp + k.rx[..n]), k.(rx := k.rx[n..]), attempts[1..], delivered + 1)
  }

  /** A pass over a connection that is not being refused: the phase in the result decides removal. */
  function Serve(c: Conn, k: Socket, t: Turn): (r: (Conn, Socket, Phase))
    requires k.TcpSocket?
    ensures r.1.TcpSocket?
  {
    var (c1, k1) := Flush(c, k, t);
    var k2 := if c1.halfClosed && c1.pending == [] then CloseSocket(k1, HalfClose, 0) else k1;
    var (c3, k3, gone) := Receive(c1, k2, t.attempts, 0);
    var k4 := if gone then CloseSocket(k3, AppGone, |c3.pending|) else k3;
    var k5 := if k4.phase == CloseWait then CloseSocket(k4, PeerClosed, |c3.pending|) else k4;
    var c5 := if k4.phase == TimeWait then c3.(pending := []) else c3;
    (c5, k5, k4.phase)
  }

  function Remove(s: Stack, id: nat): Stack
    requires id in s.tcp
  {
    s.(tcp := s.tcp - {id}, sockets := s.sockets - {s.tcp[id].handle})
  }

  /** The opener learns that the connection is up, and gets it. */
  function Greet(s: Stack, id: nat): Stack
    requires Mapped(s, id)
  {
    var c := s.tcp[id];
    if !c.established && s.sockets[c.handle].phase == Established then
      s.(tcp := s.tcp[id := c.(established := true, resp := None)],
         answers := if c.resp.Some? then s.answers + multiset{c.resp.value} else s.answers,
         handed := if c.resp.Some? then s.handed + {id} else s.handed)
    else s
  }

  /** The opener learns that the connection was refused; the entry goes. */
  function Refuse(s: Stack, id: nat): Stack
    requires id in s.tcp
  {
    var c := s.tcp[id];
    Remove(if c.resp.Some? then s.(answers := s.answers + multiset{c.resp.value}) else s, id)
  }

  /** Bytes move both ways, and an established connection whose socket is dead goes. */
  function Work(s: Stack, id: nat, t: Turn): Stack
    requires Mapped(s, id)
  {
    var c := s.tcp[id];
    var (c', k', p) := Serve(c, s.sockets[c.handle], t);
    var s' := s.(tcp := s.tcp[id := c'], sockets := s.sockets[c.handle := k']);
    if Dead(p) && c'.established then Remove(s', id) else s'
  }

  predicate Mapped(s: Stack, id: nat)
  {
    id in s.tcp && s.tcp[id].handle in s.sockets && s.sockets[s.tcp[id].handle].TcpSocket?
  }

  /** One iteration of `service_tcp`. No run meets an entry without its socket, where the code would panic. */
  function ServiceOne(s: Stack, id: nat, t: Turn): Stack
  {
    if !Mapped(s, id) then s
    else
      var s1 := Greet(s, id);
      if !s1.tcp[id].established && Dead(s1.sockets[s1.tcp[id].handle].phase) then Refuse(s1, id)
      else Work(s1, id, t)
  }

  /** `service_tcp` over the ids in the order the table yields them. */
  function Service(s: Stack, ids: seq<nat>, turns: map<nat, Turn>): Stack
    decreases |ids|
  {
    if ids == [] then s
    else Service(ServiceOne(s, ids[0], TurnOf(turns, ids[0])), ids[1..], turns)
  }

  function TurnOf(turns: map<nat, Turn>, id: nat): Turn
  {
    if id in turns then turns[id] else Turn(false, 0, [])
  }

  // ---------------------------------------------------------------- polling

  /** What a poll does to one socket: a phase, and bytes that arrived. */
  datatype Arrival = Arrival(phase: Phase, bytes: seq<byte>)

  function PollSocket(k: Socket, a: Arrival): Socket
  {
    if k.UdpSocket? then k
    else k.(phase := a.phase, rx := k.rx + a.bytes, received := k.received + a.bytes)
  }

  function Poll(s: Stack, arrivals: map<nat, Arrival>): Stack
  {
    s.(sockets := map h | h in s.sockets ::
         if h in arrivals then PollSocket(s.sockets[h], arrivals[h]) else s.sockets[h])
  }

  // ---------------------------------------------------------------- ownership is kept

  /** Replacing an entry and its socket in place. */
  lemma InsertOwned(s: Stack, s': Stack, id: nat, c: Conn, k: Socket)
    requires Owned(s) && id in s.tcp && c.handle == s.tcp[id].handle && k.TcpSocket? && k.owner == id
    requires s'.tcp == s.tcp[id := c] && s'.udp == s.udp && s'.nextId == s.nextId
    requires s'.sockets == s.sockets[c.handle := k]
    ensures Owned(s')
  {
  }

  lemma RemoveOwned(s: Stack, id: nat)
    requires Owned(s) && id in s.tcp
    ensures Owned(Remove(s, id))
  {
  }

  lemma {:induction false} ReceiveKeeps(c: Conn, k: Socket, attempts: seq<Attempt>, delivered: nat)
    requires k.TcpSocket?
    ensures var (c', k', _) := Receive(c, k, attempts, delivered);
      && c' == c.(toApp := c'.toApp) && k'.TcpSocket? && k' == k.(rx := k'.rx)
      && c'.toApp + k'.rx == c.toApp + k.rx
    decreases |attempts|
  {
    if attempts == [] || delivered >= MAX_RECV_CHUNKS || !attempts[0].Chunk? {
    } else {
      var n := Min(attempts[0].size, |k.rx|);
      if n > 0 {
        var c1, k1 := c.(toApp := c.toApp + k.rx[..n]), k.(rx := k.rx[n..]);
        ReceiveKeeps(c1, k1, attempts[1..], delivered + 1);
        assert c.toApp + k.rx[..n] + k.rx[n..] == c.toApp + k.rx;
      }
    }
  }

  /** What a pass over one connection keeps: both byte streams, in order and in full. */
  lemma ServeKeeps(c: Conn, k: Socket, t: Turn)
    requires k.TcpSocket?
    ensures var (c', k', p) := Serve(c, k, t);
      && k'.TcpSocket? && k'.owner == k.owner
      && c' == c.(pending := c'.pending, toApp := c'.toApp)
      && |c'.pending| <= |c.pending|
      && k.accepted <= k'.accepted
      && (p != TimeWait ==> k'.accepted + c'.pending == k.accepted + c.pending)
      && (c.pending == [] ==> c'.pending == [] && k'.accepted == k.accepted)
      && c'.toApp + k'.rx == c.toApp + k.rx && k'.received == k.received
  {
    var (c1, k1) := Flush(c, k, t);
    FlushKeeps(c, k, t);
    var k2 := if c1.halfClosed && c1.pending == [] then CloseSocket(k1, HalfClose, 0) else k1;
    ReceiveKeeps(c1, k2, t.attempts, 0);
  }

  /** Sending only moves a prefix of the pending bytes to the socket. */
  lemma FlushKeeps(c: Conn, k: Socket, t: Turn)
    requires k.TcpSocket?
    ensures var (c1, k1) := Flush(c, k, t);
      && k1.TcpSocket? && k1 == k.(accepted := k1.accepted) && c1 == c.(pending := c1.pending)
      && k1.accepted + c1.pending == k.accepted + c.pending
      && k.accepted <= k1.accepted && |c1.pending| <= |c.pending|
      && (c.pending == [] ==> c1.pending == [] && k1.accepted == k.accepted)
  {
    if t.canSend {
      var n := Min(t.accepts, |c.pending|);
      Assoc(k.accepted, c.pending[..n], c.pending[n..]);
      assert c.pending[..n] + c.pending[n..] == c.pending;
    }
  }

  lemma GreetOwned(s: Stack, id: nat)
    requires Owned(s) && id in s.tcp
    ensures Owned(Greet(s, id)) && Mapped(Greet(s, id), id)
  {
    var s1 := Greet(s, id);
    var k := s.sockets[s.tcp[id].handle];
    assert s1.tcp == s.tcp[id := s1.tcp[id]];
    assert s1.sockets == s.sockets[s.tcp[id].handle := k];
    InsertOwned(s, s1, id, s1.tcp[id], k);
  }

  lemma WorkOwned(s: Stack, id: nat, t: Turn)
    requires Owned(s) && id in s.tcp
    ensures Owned(Work(s, id, t))
  {
    var c := s.tcp[id];
    var k := s.sockets[c.handle];
    ServeKeeps(c, k, t);
    var (c', k', p) := Serve(c, k, t);
    var s' := s.(tcp := s.tcp[id := c'], sockets := s.sockets[c.handle := k']);
    InsertOwned(s, s', id, c', k');
    RemoveOwned(s', id);
  }

  lemma RefuseOwned(s: Stack, id: nat)
    requires Owned(s) && id in s.tcp
    ensures Owned(Refuse(s, id))
  {
  }

  lemma ServiceOneOwned(s: Stack, id: nat, t: Turn)
    requires Owned(s)
    ensures Owned(ServiceOne(s, id, t))
  {
    if id in s.tcp {
      GreetOwned(s, id);
      var s1 := Greet(s, id);
      if !s1.tcp[id].established && Dead(s1.sockets[s1.tcp[id].handle].phase) {
        RefuseOwned(s1, id);
      } else {
        WorkOwned(s1, id, t);
      }
    }
  }

  lemma TryHandleOwned(s: Stack, d: DataIn)
    requires Owned(s)
    ensures Owned(TryHandle(s, d).0)
  {
    if (d.Tcp? || d.TcpClose?) && d.id in s.tcp {
      var s', h := TryHandle(s, d).0, s.tcp[d.id].handle;
      assert s'.sockets == s.sockets[h := s.sockets[h]];
      assert s'.tcp == s.tcp[d.id := s'.tcp[d.id]];
      InsertOwned(s, s', d.id, s'.tcp[d.id], s.sockets[h]);
    }
  }

  predicate HandleFree(s: Stack, cmd: Cmd)
  {
    cmd.SetAddrs? || cmd.handle !in s.sockets
  }

  lemma HandleCmdOwned(s: Stack, cmd: Cmd)
    requires Owned(s) && HandleFree(s, cmd)
    ensures Owned(HandleCmd(s, cmd))
  {
  }

  lemma PollOwned(s: Stack, arrivals: map<nat, Arrival>)
    requires Owned(s)
    ensures Owned(Poll(s, arrivals))
  {
  }

  function TcpHandles(s: Stack): set<nat>
  {
    set id | id in s.tcp :: s.tcp[id].handle
  }

  function UdpHandles(s: Stack): set<nat>
  {
    set id | id in s.udp :: s.udp[id]
  }

  /**
    Ownership in the tables' own terms: the handles of the socket set are the disjoint union of
    those the two tables name, and no two connections share one.
   */
  lemma HandlesPartition(s: Stack)
    requires Owned(s)
    ensures s.sockets.Keys == TcpHandles(s) + UdpHandles(s) && TcpHandles(s) !! UdpHandles(s)
    ensures forall a, b :: a in s.tcp && b in s.tcp && s.tcp[a].handle == s.tcp[b].handle ==> a == b
    ensures forall a, b :: a in s.udp && b in s.udp && s.udp[a] == s.udp[b] ==> a == b
  {
  }
}
