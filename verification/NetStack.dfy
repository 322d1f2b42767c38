/**
  The network stack as the event loop runs it: tables, socket set and the deferred queue updated in
  place. Each method is proved against the step of the state machine it implements.
 */
module NetStack {
  import opened Bytes
  import opened NetStackModel
  import opened NetStackRuns

  class Loop {
    var tcp: map<nat, Conn>
    var udp: map<nat, nat>
    var sockets: map<nat, Socket>
    var nextId: nat
    var nextPort: nat
    const limit: nat
    var answers: multiset<nat>
    var handed: set<nat>
    var deferred: seq<DataIn>
    var queue: seq<DataIn>  // the data channel
    const depth: nat

    ghost var ledger: Ledger
    ghost var openers: nat
    ghost var homes: map<nat, nat>
    ghost var closes: seq<Close>

    /** The loop and its surroundings, as the run theorems see them. */
    ghost function Now(): World
      reads this
    {
      World(State(), deferred, queue, depth, ledger, openers, homes, closes)
    }

    function State(): Stack
      reads this
    {
      Stack(tcp, udp, sockets, nextId, nextPort, limit, answers, handed)
    }

    constructor (tcpBuf: nat, depth: nat)
      ensures Now() == Start(tcpBuf, depth)
    {
      this.depth := depth;
      queue, ledger, openers, homes, closes := [], Ledger(map[], map[]), 0, map[], [];
      tcp, udp, sockets := map[], map[], map[];
      nextId, nextPort, limit := 1, FIRST_PORT, MaxPending(tcpBuf);
      answers, handed, deferred := multiset{}, {}, [];
    }

    method TryHandleData(d: DataIn) returns (back: Option<DataIn>)
      modifies this`tcp, this`udp, this`sockets
      ensures (State(), back) == TryHandle(old(State()), d)
    {
      back := None;
      match d
      case Tcp(id, data) =>
        if id in tcp {
          var st := tcp[id];
          if |st.pending| >= limit {
            return Some(d);
          }
          var space := limit - |st.pending|;
          if |data| <= space {
            tcp := tcp[id := st.(pending := st.pending + data)];
          } else {
            tcp := tcp[id := st.(pending := st.pending + data[..space])];
            back := Some(Tcp(id, data[space..]));
          }
        }
      case TcpClose(id) =>
        if id in tcp {
          tcp := tcp[id := tcp[id].(halfClosed := true)];
        }
      case Udp(_, _) =>
      case UdpClose(id) =>
        if id in udp {
          sockets := sockets - {udp[id]};
          udp := udp - {id};
        }
    }

    /** The loop at the top of every turn: retry what was deferred until something is put back. */
    method RetryDeferred()
      modifies this`tcp, this`udp, this`sockets, this`deferred
      ensures (State(), deferred) == Retry(old(State()), old(deferred))
    {
      ghost var whole := Retry(State(), deferred);
      while deferred != []
        invariant Retry(State(), deferred) == whole
        decreases |deferred|
      {
        var d := deferred[0];
        deferred := deferred[1..];
        var back := TryHandleData(d);
        if back.Some? {
          deferred := [back.value] + deferred;
          return;
        }
      }
    }

    /** The data arm of the select: take queued items while nothing is deferred. */
    method IngestData(queue: seq<DataIn>) returns (rest: seq<DataIn>)
      requires deferred == []
      modifies this`tcp, this`udp, this`sockets, this`deferred
      ensures (State(), deferred, rest) == Ingest(old(State()), queue)
    {
      rest := queue;
      while deferred == [] && rest != []
        invariant deferred == [] ==> Ingest(State(), rest) == Ingest(old(State()), queue)
        invariant deferred != [] ==> (State(), deferred, rest) == Ingest(old(State()), queue)
        decreases |rest|
      {
        var d := rest[0];
        rest := rest[1..];
        var back := TryHandleData(d);
        if back.Some? {
          deferred := [back.value];
        }
      }
    }

    method AllocatePort() returns (port: nat)
      modifies this`nextPort
      ensures port == old(nextPort) && nextPort == AllocPort(old(nextPort))
    {
      port := nextPort;
      nextPort := if port >= LAST_PORT then FIRST_PORT else port + 1;
    }

    method RunCommand(cmd: Cmd)
      requires HandleFree(State(), cmd)
      modifies this`tcp, this`udp, this`sockets, this`nextId, this`nextPort, this`answers
      ensures State() == HandleCmd(old(State()), cmd)
    {
      match cmd
      case OpenTcp(opener, connects, handle) =>
        var localPort := AllocatePort();
        if !connects {
          answers := answers + multiset{opener};
          return;
        }
        var id := nextId;
        sockets := sockets[handle := TcpSocket(id, SynSent, [], [], [], [])];
        nextId := nextId + 1;
        tcp := tcp[id := Conn(handle, Some(opener), [], false, false, [])];
      case OpenUdp(opener, binds, handle) =>
        var localPort := AllocatePort();
        if !binds {
          answers := answers + multiset{opener};
          return;
        }
        var id := nextId;
        sockets := sockets[handle := UdpSocket(id)];
        nextId := nextId + 1;
        udp := udp[id := handle];
        answers := answers + multiset{opener};
      case SetAddrs =>
    }

    /** The receive loop of one connection: at most 128 chunks, one permit each. */
    method DeliverChunks(c: Conn, k: Socket, attempts: seq<Attempt>) returns (c': Conn, k': Socket, gone: bool)
      requires k.TcpSocket?
      ensures (c', k', gone) == Receive(c, k, attempts, 0)
    {
      c', k', gone := c, k, false;
      var delivered, i := 0, 0;
      assert attempts[0..] == attempts;
      while delivered < MAX_RECV_CHUNKS && i < |attempts|
        invariant 0 <= i <= |attempts| && k'.TcpSocket? && !gone
        invariant Receive(c', k', attempts[i..], delivered) == Receive(c, k, attempts, 0)
        decreases |attempts| - i
      {
        assert attempts[i..][0] == attempts[i] && attempts[i..][1..] == attempts[i + 1..];
        match attempts[i]
        case Full => return;
        case Gone =>
          gone := true;
          return;
        case Chunk(size) =>
          var n := if size < |k'.rx| then size else |k'.rx|;
          if n == 0 {
            return;
          }
          c' := c'.(toApp := c'.toApp + k'.rx[..n]);
          k' := k'.(rx := k'.rx[n..]);
          delivered := delivered + 1;
          i := i + 1;
      }
    }

    /** One pass over a connection and its socket: send, half-close, deliver, close, clear. */
    method PumpConn(c: Conn, k: Socket, t: Turn) returns (st: Conn, socket: Socket, phase: Phase)
      requires k.TcpSocket?
      ensures (st, socket, phase) == Serve(c, k, t)
    {
      st, socket := c, k;
      if t.canSend {
        var sent := if t.accepts < |st.pending| then t.accepts else |st.pending|;
        socket := socket.(accepted := socket.accepted + st.pending[..sent]);
        st := st.(pending := st.pending[sent..]);
      }
      if st.halfClosed && st.pending == [] {
        socket := CloseSocket(socket, HalfClose, 0);
      }
      var gone;
      st, socket, gone := DeliverChunks(st, socket, t.attempts);
      if gone {
        socket := CloseSocket(socket, AppGone, |st.pending|);
      }
      phase := socket.phase;
      if phase == CloseWait {
        socket := CloseSocket(socket, PeerClosed, |st.pending|);
      }
      if phase == TimeWait {
        st := st.(pending := []);
      }
    }

    /** A connection that came up is reported to its opener, which gets it. */
    method GreetConn(id: nat)
      requires Mapped(State(), id)
      modifies this`tcp, this`answers, this`handed
      ensures State() == Greet(old(State()), id)
    {
      var st := tcp[id];
      if !st.established && sockets[st.handle].phase == Established {
        if st.resp.Some? {
          answers := answers + multiset{st.resp.value};
          handed := handed + {id};
        }
        tcp := tcp[id := st.(established := true, resp := None)];
      }
    }

    /** A connection that died before it came up: the opener is told, the entry goes. */
    method RefuseConn(id: nat)
      requires Mapped(State(), id)
      modifies this`tcp, this`sockets, this`answers
      ensures State() == Refuse(old(State()), id)
    {
      var st := tcp[id];
      if st.resp.Some? {
        answers := answers + multiset{st.resp.value};
      }
      sockets := sockets - {st.handle};
      tcp := tcp - {id};
    }

    method WorkConn(id: nat, t: Turn)
      requires Mapped(State(), id)
      modifies this`tcp, this`sockets
      ensures State() == Work(old(State()), id, t)
    {
      var handle := tcp[id].handle;
      var st, socket, phase := PumpConn(tcp[id], sockets[handle], t);
      ServeKeeps(tcp[id], sockets[handle], t);
      tcp := tcp[id := st];
      sockets := sockets[handle := socket];
      if (phase == Closed || phase == TimeWait) && st.established {
        sockets := sockets - {handle};
        tcp := tcp - {id};
      }
    }

    method ServiceConn(id: nat, t: Turn)
      requires id in tcp ==> Mapped(State(), id)
      modifies this`tcp, this`sockets, this`answers, this`handed
      ensures State() == ServiceOne(old(State()), id, t)
    {
      if id in tcp {
        GreetConn(id);
        var phase := sockets[tcp[id].handle].phase;
        if !tcp[id].established && (phase == Closed || phase == TimeWait) {
          RefuseConn(id);
        } else {
          WorkConn(id, t);
        }
      }
    }

    method ServiceTcp(ids: seq<nat>, turns: map<nat, Turn>)
      requires Owned(State())
      modifies this`tcp, this`sockets, this`answers, this`handed
      ensures State() == Service(old(State()), ids, turns)
    {
      ghost var whole := Service(State(), ids, turns);
      assert ids[0..] == ids;
      for i := 0 to |ids|
        invariant Owned(State()) && Service(State(), ids[i..], turns) == whole
      {
        assert ids[i..][0] == ids[i] && ids[i..][1..] == ids[i + 1..];
        ServiceOneOwned(State(), ids[i], TurnOf(turns, ids[i]));
        ServiceConn(ids[i], TurnOf(turns, ids[i]));
      }
    }

    /** The device and the socket library take a turn. */
    method PollDevice(arrivals: map<nat, Arrival>)
      modifies this`sockets
      ensures State() == Poll(old(State()), arrivals)
    {
      sockets := map h | h in sockets ::
        if h in arrivals then PollSocket(sockets[h], arrivals[h]) else sockets[h];
    }

    /** What other tasks do between two turns of the loop: they queue data. */
    method HandleApp(e: Event)
      requires Enabled(Now(), e) && (e.AppSends? || e.AppCloses? || e.AppUdp?)
      modifies this`queue, this`ledger
      ensures Now() == Apply(old(Now()), e)
    {
      match e
      case AppSends(id, data) =>
        queue := queue + [Tcp(id, data)];
        ledger := ledger.(sent := ledger.sent[id := Sent(ledger, id) + data]);
      case AppCloses(id) =>
        queue := queue + [TcpClose(id)];
        ledger := if id in ledger.mark then ledger else ledger.(mark := ledger.mark[id := |Sent(ledger, id)|]);
      case AppUdp(item) =>
        queue := queue + [item];
    }

    method HandleCommand(cmd: Cmd)
      requires Enabled(Now(), Commands(cmd))
      modifies this
      ensures Now() == Apply(old(Now()), Commands(cmd))
    {
      homes := if cmd.OpenTcp? && cmd.connects then homes[openers := nextId] else homes;
      openers := if cmd.SetAddrs? then openers else openers + 1;
      RunCommand(cmd);
    }

    /** An arm of the loop. */
    method HandleArm(e: Event)
      requires Owned(State()) && Enabled(Now(), e) && !(e.AppSends? || e.AppCloses? || e.AppUdp?)
      modifies this
      ensures Now() == Apply(old(Now()), e)
    {
      match e
      case Commands(cmd) =>
        HandleCommand(cmd);
      case Polls(arrivals) =>
        PollDevice(arrivals);
      case Services(ids, turns) =>
        closes := closes + ServiceCloses(State(), ids, turns);
        ServiceTcp(ids, turns);
      case Retries =>
        RetryDeferred();
      case Ingests =>
        queue := IngestData(queue);
    }

    /** One event of a run. */
    method Handle(e: Event)
      requires Owned(State()) && Enabled(Now(), e)
      modifies this
      ensures Now() == Apply(old(Now()), e)
    {
      if e.AppSends? || e.AppCloses? || e.AppUdp? {
        HandleApp(e);
      } else {
        HandleArm(e);
      }
    }

    /** The event loop over any run of events. */
    method Run(events: seq<Event>)
      requires Invariant(Now()) && Runs(Now(), events)
      modifies this
      ensures Now() == After(old(Now()), events) && Invariant(Now())
    {
      ghost var whole := After(Now(), events);
      assert events[0..] == events;
      for i := 0 to |events|
        invariant Invariant(Now()) && Runs(Now(), events[i..]) && After(Now(), events[i..]) == whole
      {
        assert events[i..][0] == events[i] && events[i..][1..] == events[i + 1..];
        ApplyKeeps(Now(), events[i]);
        Handle(events[i]);
      }
    }
  }
}
