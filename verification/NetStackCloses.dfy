/**
  Where closing does overtake data: the exact condition for one pass over a connection, and a run
  in which it happens.
 */
module NetStackCloses {
  import opened Bytes
  import opened NetStackModel
  import opened NetStackRuns

  // ---------------------------------------------------------------- when the app is found gone

  function Size(a: Attempt): nat
  {
    if a.Chunk? then a.size else 0
  }

  function Sizes(attempts: seq<Attempt>): nat
  {
    if attempts == [] then 0 else Size(attempts[0]) + Sizes(attempts[1..])
  }

  /** The app turns out to be gone at attempt `i`: every earlier one still found bytes to deliver. */
  predicate LeavesAt(attempts: seq<Attempt>, bytes: nat, i: nat)
  {
    && i < |attempts| && attempts[i].Gone?
    && forall j :: 0 <= j < i ==> attempts[j].Chunk? && attempts[j].size > 0 && Sizes(attempts[..j]) < bytes
  }

  /** The receive loop, which stops after 128 chunks, gets to an attempt that finds the app gone. */
  ghost predicate AppLeaves(attempts: seq<Attempt>, bytes: nat, limit: nat)
  {
    exists i :: 0 <= i < limit && LeavesAt(attempts, bytes, i)
  }

  lemma LeavesLater(attempts: seq<Attempt>, bytes: nat, i: nat)
    requires attempts != [] && attempts[0].Chunk? && attempts[0].size > 0 && bytes > 0
    ensures LeavesAt(attempts, bytes, i + 1) <==> LeavesAt(attempts[1..], bytes - Min(attempts[0].size, bytes), i)
  {
    var a, rest, left := attempts[0], attempts[1..], bytes - Min(attempts[0].size, bytes);
    if i < |rest| {
      forall j | 0 <= j < i ensures Sizes(attempts[..j + 1]) == a.size + Sizes(rest[..j]) {
        assert attempts[..j + 1][1..] == rest[..j];
      }
      if LeavesAt(attempts, bytes, i + 1) {
        forall j | 0 <= j < i ensures rest[j].Chunk? && rest[j].size > 0 && Sizes(rest[..j]) < left {
          assert rest[j] == attempts[j + 1];
        }
      }
      if LeavesAt(rest, left, i) {
        forall j | 0 <= j < i + 1 ensures attempts[j].Chunk? && attempts[j].size > 0 && Sizes(attempts[..j]) < bytes {
          if j > 0 {
            assert attempts[j] == rest[j - 1];
          } else {
            assert attempts[..0] == [];
          }
        }
      }
    }
  }

  lemma {:induction false} GoneIff(c: Conn, k: Socket, attempts: seq<Attempt>, delivered: nat)
    requires k.TcpSocket? && delivered <= MAX_RECV_CHUNKS
    ensures Receive(c, k, attempts, delivered).2 <==> AppLeaves(attempts, |k.rx|, MAX_RECV_CHUNKS - delivered)
    decreases |attempts|
  {
    var limit := MAX_RECV_CHUNKS - delivered;
    if attempts == [] || limit == 0 || attempts[0].Full? {
      NoneLeaves(attempts, |k.rx|, limit);
    } else if attempts[0].Gone? {
      assert LeavesAt(attempts, |k.rx|, 0);
    } else {
      var n := Min(attempts[0].size, |k.rx|);
      if n == 0 {
        NoneLeaves(attempts, |k.rx|, limit);
      } else {
        var c', k' := c.(toApp := c.toApp + k.rx[..n]), k.(rx := k.rx[n..]);
        GoneIff(c', k', attempts[1..], delivered + 1);
        LeavesShift(attempts, |k.rx|, limit);
      }
    }
  }

  lemma NoneLeaves(attempts: seq<Attempt>, bytes: nat, limit: nat)
    requires attempts == [] || limit == 0 || attempts[0].Full?
      || (attempts[0].Chunk? && Min(attempts[0].size, bytes) == 0)
    ensures !AppLeaves(attempts, bytes, limit)
  {
    forall i | 0 <= i < limit ensures !LeavesAt(attempts, bytes, i) {
      if i > 0 && attempts != [] {
        assert attempts[..0] == [];
      }
    }
  }

  lemma LeavesShift(attempts: seq<Attempt>, bytes: nat, limit: nat)
    requires attempts != [] && attempts[0].Chunk? && attempts[0].size > 0 && bytes > 0 && limit > 0
    ensures AppLeaves(attempts, bytes, limit)
        <==> AppLeaves(attempts[1..], bytes - Min(attempts[0].size, bytes), limit - 1)
  {
    var rest, left := attempts[1..], bytes - Min(attempts[0].size, bytes);
    if AppLeaves(attempts, bytes, limit) {
      var i :| 0 <= i < limit && LeavesAt(attempts, bytes, i);
      LeavesLater(attempts, bytes, i - 1);
    }
    if AppLeaves(rest, left, limit - 1) {
      var i :| 0 <= i < limit - 1 && LeavesAt(rest, left, i);
      LeavesLater(attempts, bytes, i);
    }
  }

  // ---------------------------------------------------------------- one pass

  /** The socket does not take all pending bytes in this pass. */
  predicate Lags(c: Conn, t: Turn)
  {
    |c.pending| > if t.canSend then t.accepts else 0
  }

  /** The app is gone, or the peer has closed its side. */
  ghost predicate Ends(k: Socket, t: Turn)
    requires k.TcpSocket?
  {
    k.phase == CloseWait || AppLeaves(t.attempts, |k.rx|, MAX_RECV_CHUNKS)
  }

  lemma EarlyCloses(c: Conn, k: Socket, t: Turn)
    requires k.TcpSocket? && Lags(c, t)
    ensures var k' := Serve(c, k, t).1;
      && (Ends(k, t) ==> |k'.fins| > |k.fins| && k'.fins[|k.fins|].pending > 0)
      && (!Ends(k, t) ==> k'.fins == k.fins)
  {
    var (c1, k1) := Flush(c, k, t);
    ReceiveKeeps(c1, k1, t.attempts, 0);
    GoneIff(c1, k1, t.attempts, 0);
  }

  lemma LateCloses(c: Conn, k: Socket, t: Turn)
    requires k.TcpSocket? && !Lags(c, t)
    ensures var k' := Serve(c, k, t).1;
      k.fins <= k'.fins && forall j :: |k.fins| <= j < |k'.fins| ==> k'.fins[j].pending == 0
  {
    var (c1, k1) := Flush(c, k, t);
    assert c1.pending == [];
    var k2 := if c1.halfClosed then CloseSocket(k1, HalfClose, 0) else k1;
    ReceiveKeeps(c1, k2, t.attempts, 0);
  }

  /**
    The guarantee stops at the half-close path. A pass calls `close` with bytes still pending
    exactly when the socket does not take all of them and the peer has closed its side or the app
    is gone by one of the attempts the receive loop gets to.
   */
  lemma ClosesEarlyIff(c: Conn, k: Socket, t: Turn)
    requires k.TcpSocket?
    ensures var k' := Serve(c, k, t).1;
      (exists j :: |k.fins| <= j < |k'.fins| && k'.fins[j].pending > 0) <==> Lags(c, t) && Ends(k, t)
  {
    if Lags(c, t) {
      EarlyCloses(c, k, t);
    } else {
      LateCloses(c, k, t);
    }
  }

  // ---------------------------------------------------------------- a run

  const OPEN: Event := Commands(OpenTcp(0, true, 0))
  const UP: Event := Polls(map[0 := Arrival(Established, [])])
  const GREET: Event := Services([1], map[])
  const SEND: Event := AppSends(1, [7, 8, 9])
  const FIRST_BYTE: Event := Services([1], map[1 := Turn(true, 1, [])])
  const PEER_CLOSES: Event := Polls(map[0 := Arrival(CloseWait, [])])
  const SECOND_BYTE: Event := FIRST_BYTE

  const STORY: seq<Event> := [OPEN, UP, GREET, SEND, Ingests, FIRST_BYTE, PEER_CLOSES, SECOND_BYTE]

  /** The world with one connection, its socket, and what is queued for it. */
  function Scene(tcpBuf: nat, depth: nat, c: Conn, k: Socket, queue: seq<DataIn>, sent: map<nat, seq<byte>>,
                 closes: seq<Close>): World
  {
    var up := c.established;
    World(Stack(map[1 := c], map[], map[0 := k], 2, FIRST_PORT + 1, MaxPending(tcpBuf),
                if up then multiset{0} else multiset{}, if up then {1} else {}),
          [], queue, depth, Ledger(sent, map[]), 1, map[0 := 1], closes)
  }

  function Waiting(): Conn { Conn(0, Some(0), [], false, false, []) }

  function Holding(pending: seq<byte>): Conn { Conn(0, None, pending, true, false, []) }

  function Taken(phase: Phase, accepted: seq<byte>): Socket { TcpSocket(1, phase, accepted, [], [], []) }

  predicate Leads(w: World, e: Event, w': World)
  {
    Enabled(w, e) && Apply(w, e) == w'
  }

  lemma OpenScene(tcpBuf: nat, depth: nat)
    ensures Enabled(Start(tcpBuf, depth), OPEN)
    ensures Apply(Start(tcpBuf, depth), OPEN) == Scene(tcpBuf, depth, Waiting(), Taken(SynSent, []), [], map[], [])
  {
  }

  lemma PollScene(tcpBuf: nat, depth: nat, c: Conn, phase: Phase, accepted: seq<byte>, sent: map<nat, seq<byte>>,
                  phase': Phase)
    ensures Apply(Scene(tcpBuf, depth, c, Taken(phase, accepted), [], sent, []),
                  Polls(map[0 := Arrival(phase', [])]))
         == Scene(tcpBuf, depth, c, Taken(phase', accepted), [], sent, [])
  {
    var s := Scene(tcpBuf, depth, c, Taken(phase, accepted), [], sent, []).stack;
    var arrivals := map[0 := Arrival(phase', [])];
    assert PollSocket(s.sockets[0], arrivals[0]) == Taken(phase', accepted);
    assert Poll(s, arrivals).sockets == map[0 := Taken(phase', accepted)];
  }

  /** A pass over the only connection. */
  lemma ServiceAlone(s: Stack, turns: map<nat, Turn>)
    ensures Service(s, [1], turns) == ServiceOne(s, 1, TurnOf(turns, 1))
    ensures ServiceCloses(s, [1], turns) == PassCloses(s, 1, TurnOf(turns, 1))
  {
    var ids: seq<nat>, t := [1], TurnOf(turns, 1);
    assert ids[1..] == [];
    assert Service(ServiceOne(s, 1, t), ids[1..], turns) == ServiceOne(s, 1, t);
    assert ServiceCloses(ServiceOne(s, 1, t), ids[1..], turns) == [];
    assert PassCloses(s, 1, t) + [] == PassCloses(s, 1, t);
  }

  lemma GreetScene(tcpBuf: nat, depth: nat)
    ensures Apply(Scene(tcpBuf, depth, Waiting(), Taken(Established, []), [], map[], []), GREET)
         == Scene(tcpBuf, depth, Holding([]), Taken(Established, []), [], map[], [])
  {
    var s := Scene(tcpBuf, depth, Waiting(), Taken(Established, []), [], map[], []).stack;
    var s' := Scene(tcpBuf, depth, Holding([]), Taken(Established, []), [], map[], []).stack;
    ServiceAlone(s, map[]);
    assert TurnOf(map[], 1) == Turn(false, 0, []);
    assert Greet(s, 1) == s';
    assert Serve(Holding([]), Taken(Established, []), Turn(false, 0, []))
        == (Holding([]), Taken(Established, []), Established);
    assert Work(s', 1, Turn(false, 0, [])) == s';
  }

  lemma SendScene(tcpBuf: nat, depth: nat)
    requires depth >= 1
    ensures var w := Scene(tcpBuf, depth, Holding([]), Taken(Established, []), [], map[], []);
      && Enabled(w, SEND)
      && Apply(w, SEND) == Scene(tcpBuf, depth, Holding([]), Taken(Established, []), [Tcp(1, [7, 8, 9])],
                                 map[1 := [7, 8, 9]], [])
  {
    var w := Scene(tcpBuf, depth, Holding([]), Taken(Established, []), [], map[], []);
    assert Sent(w.ledger, 1) + [7, 8, 9] == [7, 8, 9];
  }

  lemma IngestScene(tcpBuf: nat, depth: nat)
    ensures var w := Scene(tcpBuf, depth, Holding([]), Taken(Established, []), [Tcp(1, [7, 8, 9])],
                           map[1 := [7, 8, 9]], []);
      Apply(w, Ingests)
      == Scene(tcpBuf, depth, Holding([7, 8, 9]), Taken(Established, []), [], map[1 := [7, 8, 9]], [])
  {
    var w := Scene(tcpBuf, depth, Holding([]), Taken(Established, []), [Tcp(1, [7, 8, 9])], map[1 := [7, 8, 9]], []);
    var s' := Scene(tcpBuf, depth, Holding([7, 8, 9]), Taken(Established, []), [], map[1 := [7, 8, 9]], []).stack;
    var c := w.stack.tcp[1];
    assert c.(pending := c.pending + [7, 8, 9]) == Holding([7, 8, 9]);
    assert w.stack.tcp[1 := Holding([7, 8, 9])] == s'.tcp;
    assert TryHandle(w.stack, w.queue[0]) == (s', None);
    assert w.queue[1..] == [];
    assert Ingest(s', w.queue[1..]) == (s', [], []);
  }

  /** A pass over an established connection that it does not remove. */
  lemma WorkScene(tcpBuf: nat, depth: nat, c: Conn, k: Socket, sent: map<nat, seq<byte>>, t: Turn, c': Conn, k': Socket)
    requires c.established && c.handle == 0 && k.TcpSocket? && c'.established && k'.TcpSocket?
    requires Serve(c, k, t) == (c', k', k.phase) && !Dead(k.phase)
    ensures Leads(Scene(tcpBuf, depth, c, k, [], sent, []), Services([1], map[1 := t]),
                  Scene(tcpBuf, depth, c', k', [], sent, NewCloses(1, k, k')))
  {
    var s := Scene(tcpBuf, depth, c, k, [], sent, []).stack;
    var s' := Scene(tcpBuf, depth, c', k', [], sent, NewCloses(1, k, k')).stack;
    ServiceAlone(s, map[1 := t]);
    WorkOnce(s, s', c, k, t, c', k');
    assert [] + NewCloses(1, k, k') == NewCloses(1, k, k');
  }

  lemma WorkOnce(s: Stack, s': Stack, c: Conn, k: Socket, t: Turn, c': Conn, k': Socket)
    requires c.established && c.handle == 0 && k.TcpSocket? && c'.established && k'.TcpSocket?
    requires Serve(c, k, t) == (c', k', k.phase) && !Dead(k.phase)
    requires s.tcp == map[1 := c] && s.sockets == map[0 := k]
    requires s' == s.(tcp := map[1 := c'], sockets := map[0 := k'])
    ensures ServiceOne(s, 1, t) == s' && PassCloses(s, 1, t) == NewCloses(1, k, k')
  {
    assert s.tcp[1 := c'] == map[1 := c'] && s.sockets[0 := k'] == map[0 := k'];
    assert Greet(s, 1) == s;
  }

  lemma FirstByte()
    ensures Serve(Holding([7, 8, 9]), Taken(Established, []), Turn(true, 1, []))
         == (Holding([8, 9]), Taken(Established, [7]), Established)
  {
    var t := Turn(true, 1, []);
    var p: seq<byte> := [7, 8, 9];
    assert p[1..] == [8, 9] && [] + p[..1] == [7];
    assert Flush(Holding(p), Taken(Established, []), t) == (Holding([8, 9]), Taken(Established, [7]));
  }

  /** The socket after the last pass: it is closed with one byte left behind. */
  const CLOSED: Socket := TcpSocket(1, LastAck, [7, 8], [], [], [Fin(PeerClosed, 2, 1)])

  lemma SecondByte()
    ensures Serve(Holding([8, 9]), Taken(CloseWait, [7]), Turn(true, 1, [])) == (Holding([9]), CLOSED, CloseWait)
    ensures NewCloses(1, Taken(CloseWait, [7]), CLOSED) == [Close(1, Fin(PeerClosed, 2, 1), [7, 8])]
  {
    var t := Turn(true, 1, []);
    var p: seq<byte> := [8, 9];
    assert p[1..] == [9] && [7] + p[..1] == [7, 8];
    assert Flush(Holding(p), Taken(CloseWait, [7]), t) == (Holding([9]), Taken(CloseWait, [7, 8]));
    assert CloseSocket(Taken(CloseWait, [7, 8]), PeerClosed, 1) == CLOSED;
  }

  lemma {:induction false} Story(ws: seq<World>, es: seq<Event>)
    requires |ws| == |es| + 1 && forall i :: 0 <= i < |es| ==> Leads(ws[i], es[i], ws[i + 1])
    ensures Runs(ws[0], es) && After(ws[0], es) == ws[|es|]
    decreases |es|
  {
    if es != [] {
      var ws', es' := ws[1..], es[1..];
      forall i | 0 <= i < |es'| ensures Leads(ws'[i], es'[i], ws'[i + 1]) {
        assert Leads(ws[i + 1], es[i + 1], ws[i + 2]);
      }
      assert Leads(ws[0], es[0], ws[1]);
      Story(ws', es');
    }
  }

  /** The scenes of the story from the first connection on. */
  function SceneAt(tcpBuf: nat, depth: nat, i: nat): World
  {
    var sent: map<nat, seq<byte>> := map[1 := [7, 8, 9]];
    if i == 0 then Start(tcpBuf, depth)
    else if i == 1 then Scene(tcpBuf, depth, Waiting(), Taken(SynSent, []), [], map[], [])
    else if i == 2 then Scene(tcpBuf, depth, Waiting(), Taken(Established, []), [], map[], [])
    else if i == 3 then Scene(tcpBuf, depth, Holding([]), Taken(Established, []), [], map[], [])
    else if i == 4 then Scene(tcpBuf, depth, Holding([]), Taken(Established, []), [Tcp(1, [7, 8, 9])], sent, [])
    else if i == 5 then Scene(tcpBuf, depth, Holding([7, 8, 9]), Taken(Established, []), [], sent, [])
    else if i == 6 then Scene(tcpBuf, depth, Holding([8, 9]), Taken(Established, [7]), [], sent, [])
    else if i == 7 then Scene(tcpBuf, depth, Holding([8, 9]), Taken(CloseWait, [7]), [], sent, [])
    else Scene(tcpBuf, depth, Holding([9]), CLOSED, [], sent, [Close(1, Fin(PeerClosed, 2, 1), [7, 8])])
  }

  lemma Early(tcpBuf: nat, depth: nat, i: nat)
    requires depth >= 1 && i < 5
    ensures Leads(SceneAt(tcpBuf, depth, i), STORY[i], SceneAt(tcpBuf, depth, i + 1))
  {
    if i == 0 {
      OpenScene(tcpBuf, depth);
    } else if i == 1 {
      PollScene(tcpBuf, depth, Waiting(), SynSent, [], map[], Established);
    } else if i == 2 {
      GreetScene(tcpBuf, depth);
    } else if i == 3 {
      SendScene(tcpBuf, depth);
    } else {
      IngestScene(tcpBuf, depth);
    }
  }

  lemma FirstByteScene(tcpBuf: nat, depth: nat)
    ensures Leads(SceneAt(tcpBuf, depth, 5), FIRST_BYTE, SceneAt(tcpBuf, depth, 6))
  {
    FirstByte();
    WorkScene(tcpBuf, depth, Holding([7, 8, 9]), Taken(Established, []), map[1 := [7, 8, 9]], Turn(true, 1, []),
              Holding([8, 9]), Taken(Established, [7]));
  }

  lemma SecondByteScene(tcpBuf: nat, depth: nat)
    ensures Leads(SceneAt(tcpBuf, depth, 7), SECOND_BYTE, SceneAt(tcpBuf, depth, 8))
  {
    SecondByte();
    WorkScene(tcpBuf, depth, Holding([8, 9]), Taken(CloseWait, [7]), map[1 := [7, 8, 9]], Turn(true, 1, []),
              Holding([9]), CLOSED);
  }

  lemma Late(tcpBuf: nat, depth: nat, i: nat)
    requires 5 <= i < 8
    ensures Leads(SceneAt(tcpBuf, depth, i), STORY[i], SceneAt(tcpBuf, depth, i + 1))
  {
    if i == 5 {
      FirstByteScene(tcpBuf, depth);
    } else if i == 6 {
      PollScene(tcpBuf, depth, Holding([8, 9]), Established, [7], map[1 := [7, 8, 9]], CloseWait);
    } else {
      SecondByteScene(tcpBuf, depth);
    }
  }

  /**
    A run in which closing overtakes data. The app sends three bytes, the socket takes one, the peer
    closes its side; in the next pass the socket takes the second byte and is closed before the third.
   */
  lemma PeerCloseOvertakesData(tcpBuf: nat, depth: nat)
    requires depth >= 1
    ensures Runs(Start(tcpBuf, depth), STORY)
    ensures var w := After(Start(tcpBuf, depth), STORY);
      && Sent(w.ledger, 1) == [7, 8, 9] && w.closes == [Close(1, Fin(PeerClosed, 2, 1), [7, 8])]
      && 1 in w.stack.tcp && w.stack.tcp[1].pending == [9]
  {
    var ws := seq(9, i requires 0 <= i < 9 => SceneAt(tcpBuf, depth, i));
    forall i | 0 <= i < 8 ensures Leads(ws[i], STORY[i], ws[i + 1]) {
      if i < 5 {
        Early(tcpBuf, depth, i);
      } else {
        Late(tcpBuf, depth, i);
      }
    }
    Story(ws, STORY);
  }
}
