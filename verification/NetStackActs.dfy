/**
  What the loop does, beyond what it keeps: how many bytes a pass moves each way, when it calls
  `close` and what becomes of the socket, when an opener is answered and when an entry goes, and
  what the data arm leaves behind. All in terms of what the step meets, not of how it is computed.
 */
module NetStackActs {
  import opened Bytes
  import opened NetStackModel
  import opened NetStackRuns
  import opened NetStackCloses

  // ---------------------------------------------------------------- one pass: bytes to the app

  /**
    The receive loop delivers exactly `j` chunks: each found a permit and bytes, and the next one
    does not, or is one too many.
   */
  predicate Delivers(attempts: seq<Attempt>, bytes: nat, limit: nat, j: nat)
  {
    && j <= |attempts| && j <= limit
    && (forall i :: 0 <= i < j ==> attempts[i].Chunk? && attempts[i].size > 0 && Sizes(attempts[..i]) < bytes)
    && (j < |attempts| && j < limit && attempts[j].Chunk? ==> attempts[j].size == 0 || bytes <= Sizes(attempts[..j]))
  }

  lemma DeliversLater(attempts: seq<Attempt>, bytes: nat, limit: nat, j: nat)
    requires attempts != [] && attempts[0].Chunk? && attempts[0].size > 0 && bytes > 0 && limit > 0
    requires Delivers(attempts[1..], bytes - Min(attempts[0].size, bytes), limit - 1, j)
    ensures Delivers(attempts, bytes, limit, j + 1)
    ensures Min(Sizes(attempts[..j + 1]), bytes)
         == Min(attempts[0].size, bytes) + Min(Sizes(attempts[1..][..j]), bytes - Min(attempts[0].size, bytes))
  {
    var rest, n := attempts[1..], Min(attempts[0].size, bytes);
    forall i | 0 <= i <= j
      ensures Sizes(attempts[..i + 1]) == attempts[0].size + Sizes(rest[..i])
    {
      assert attempts[..i + 1][1..] == rest[..i];
    }
    forall i | 0 <= i < j + 1
      ensures attempts[i].Chunk? && attempts[i].size > 0 && Sizes(attempts[..i]) < bytes
    {
      if i > 0 {
        assert attempts[i] == rest[i - 1];
      } else {
        assert attempts[..0] == [];
      }
    }
    if j + 1 < |attempts| {
      assert attempts[j + 1] == rest[j];
    }
  }

  lemma TakeTwice(before: seq<byte>, rx: seq<byte>, n: nat, m: nat)
    requires n + m <= |rx|
    ensures (before + rx[..n]) + rx[n..][..m] == before + rx[..n + m] && rx[n..][m..] == rx[n + m..]
  {
    assert rx[..n] + rx[n..][..m] == rx[..n + m];
    Assoc(before, rx[..n], rx[n..][..m]);
  }

  predicate Received(c: Conn, k: Socket, r: (Conn, Socket, bool), n: nat)
    requires k.TcpSocket?
  {
    n <= |k.rx| && r.1.TcpSocket? && r.0.toApp == c.toApp + k.rx[..n] && r.1.rx == k.rx[n..]
  }

  predicate NoChunk(attempts: seq<Attempt>, bytes: nat, limit: nat)
  {
    limit == 0 || attempts == [] || !attempts[0].Chunk? || attempts[0].size == 0 || bytes == 0
  }

  lemma DeliversNothing(attempts: seq<Attempt>, bytes: nat, limit: nat)
    requires NoChunk(attempts, bytes, limit)
    ensures Delivers(attempts, bytes, limit, 0) && Sizes(attempts[..0]) == 0
  {
    assert attempts[..0] == [];
  }

  lemma ReceivesNothing(c: Conn, k: Socket, attempts: seq<Attempt>, delivered: nat)
    requires k.TcpSocket? && delivered <= MAX_RECV_CHUNKS
    requires NoChunk(attempts, |k.rx|, MAX_RECV_CHUNKS - delivered)
    ensures Received(c, k, Receive(c, k, attempts, delivered), 0)
  {
    var r := Receive(c, k, attempts, delivered);
    assert r.0 == c && r.1 == k;
    assert k.rx[..0] == [] && k.rx[0..] == k.rx;
  }

  lemma ReceiveStep(c: Conn, k: Socket, attempts: seq<Attempt>, delivered: nat, c1: Conn, k1: Socket, n: nat)
    requires k.TcpSocket? && delivered <= MAX_RECV_CHUNKS
    requires !NoChunk(attempts, |k.rx|, MAX_RECV_CHUNKS - delivered) && n == Min(attempts[0].size, |k.rx|)
    requires c1 == c.(toApp := c.toApp + k.rx[..n]) && k1 == k.(rx := k.rx[n..])
    ensures Receive(c, k, attempts, delivered) == Receive(c1, k1, attempts[1..], delivered + 1)
  {
  }

  lemma ReceivesMore(c: Conn, k: Socket, c1: Conn, k1: Socket, n: nat, m: nat, r: (Conn, Socket, bool))
    requires k.TcpSocket? && n + m <= |k.rx|
    requires c1 == c.(toApp := c.toApp + k.rx[..n]) && k1 == k.(rx := k.rx[n..]) && Received(c1, k1, r, m)
    ensures Received(c, k, r, n + m)
  {
    TakeTwice(c.toApp, k.rx, n, m);
  }

  /** Exactly `j` chunks are delivered, and the app gets their bytes. */
  predicate Gets(c: Conn, k: Socket, attempts: seq<Attempt>, delivered: nat, j: nat)
    requires k.TcpSocket? && delivered <= MAX_RECV_CHUNKS
  {
    && Delivers(attempts, |k.rx|, MAX_RECV_CHUNKS - delivered, j)
    && Received(c, k, Receive(c, k, attempts, delivered), Min(Sizes(attempts[..j]), |k.rx|))
  }

  lemma GetsNothing(c: Conn, k: Socket, attempts: seq<Attempt>, delivered: nat)
    requires k.TcpSocket? && delivered <= MAX_RECV_CHUNKS
    requires NoChunk(attempts, |k.rx|, MAX_RECV_CHUNKS - delivered)
    ensures Gets(c, k, attempts, delivered, 0)
  {
    DeliversNothing(attempts, |k.rx|, MAX_RECV_CHUNKS - delivered);
    ReceivesNothing(c, k, attempts, delivered);
  }

  lemma GetsMore(c: Conn, k: Socket, attempts: seq<Attempt>, delivered: nat, c1: Conn, k1: Socket, n: nat, i: nat)
    requires k.TcpSocket? && delivered < MAX_RECV_CHUNKS
    requires !NoChunk(attempts, |k.rx|, MAX_RECV_CHUNKS - delivered) && n == Min(attempts[0].size, |k.rx|)
    requires c1 == c.(toApp := c.toApp + k.rx[..n]) && k1 == k.(rx := k.rx[n..])
    requires Gets(c1, k1, attempts[1..], delivered + 1, i)
    ensures Gets(c, k, attempts, delivered, i + 1)
  {
    DeliversLater(attempts, |k.rx|, MAX_RECV_CHUNKS - delivered, i);
    ReceiveStep(c, k, attempts, delivered, c1, k1, n);
    ReceivesMore(c, k, c1, k1, n, Min(Sizes(attempts[1..][..i]), |k.rx| - n),
                 Receive(c1, k1, attempts[1..], delivered + 1));
  }

  /** The app gets exactly the bytes of the chunks that are delivered. */
  lemma {:induction false} ReceiveActs(c: Conn, k: Socket, attempts: seq<Attempt>, delivered: nat) returns (j: nat)
    requires k.TcpSocket? && delivered <= MAX_RECV_CHUNKS
    ensures Gets(c, k, attempts, delivered, j)
    decreases |attempts|
  {
    if NoChunk(attempts, |k.rx|, MAX_RECV_CHUNKS - delivered) {
      j := 0;
      GetsNothing(c, k, attempts, delivered);
    } else {
      var n := Min(attempts[0].size, |k.rx|);
      var c1, k1 := c.(toApp := c.toApp + k.rx[..n]), k.(rx := k.rx[n..]);
      var i := ReceiveActs(c1, k1, attempts[1..], delivered + 1);
      j := i + 1;
      GetsMore(c, k, attempts, delivered, c1, k1, n, i);
    }
  }

  /** There is only one such number. */
  lemma DeliversOnce(attempts: seq<Attempt>, bytes: nat, limit: nat, i: nat, j: nat)
    requires Delivers(attempts, bytes, limit, i) && Delivers(attempts, bytes, limit, j)
    ensures i == j
  {
  }

  // ---------------------------------------------------------------- one pass: bytes to the socket, and closing

  /** How many pending bytes the socket takes. */
  function Takes(c: Conn, t: Turn): nat
  {
    if !t.canSend then 0 else if t.accepts < |c.pending| then t.accepts else |c.pending|
  }

  /** The app closed its side, and everything it sent is with the socket by then. */
  predicate HalfCloses(c: Conn, t: Turn)
  {
    c.halfClosed && !Lags(c, t)
  }

  /** What is left of a phase when `close` is called in it. */
  predicate ClosesTo(p: Phase, p': Phase)
  {
    && (p == Established || p == SynReceived ==> p' == FinWait1)
    && (p == CloseWait ==> p' == LastAck)
    && (p == Listen || p == SynSent ==> p' == Closed)
    && (p != Established && p != SynReceived && p != CloseWait && p != Listen && p != SynSent ==> p' == p)
  }

  /** The calls of `close` of one pass, in order. */
  function Calls(half: bool, gone: bool, peer: bool, accepted: nat, pending: nat): seq<Fin>
  {
    (if half then [Fin(HalfClose, accepted, 0)] else [])
    + (if gone then [Fin(AppGone, accepted, pending)] else [])
    + (if peer then [Fin(PeerClosed, accepted, pending)] else [])
  }

  lemma CallsLonger(fins: seq<Fin>, f1: seq<Fin>, f2: seq<Fin>, half: bool, gone: bool, peer: bool,
                    accepted: nat, pending: nat)
    requires f1 == if half then fins + [Fin(HalfClose, accepted, 0)] else fins
    requires f2 == if gone then f1 + [Fin(AppGone, accepted, pending)] else f1
    ensures var f3 := if peer then f2 + [Fin(PeerClosed, accepted, pending)] else f2;
      f3 == fins + Calls(half, gone, peer, accepted, pending)
  {
    var a: seq<Fin> := if half then [Fin(HalfClose, accepted, 0)] else [];
    var b: seq<Fin> := if gone then [Fin(AppGone, accepted, pending)] else [];
    var d: seq<Fin> := if peer then [Fin(PeerClosed, accepted, pending)] else [];
    assert f1 == fins + a && f2 == f1 + b;
    assert (fins + a + b) + d == fins + (a + b + d);
  }

  lemma FlushActs(c: Conn, k: Socket, t: Turn)
    requires k.TcpSocket?
    ensures var n := Takes(c, t); var (c1, k1) := Flush(c, k, t);
      && c1 == c.(pending := c.pending[n..]) && k1 == k.(accepted := k.accepted + c.pending[..n])
      && (c1.pending == [] <==> !Lags(c, t))
  {
    if !t.canSend {
      assert c.pending[0..] == c.pending && k.accepted + c.pending[..0] == k.accepted;
    }
  }

  /** The pass once the bytes are with the socket. */
  lemma ClosingActs(c1: Conn, k1: Socket, attempts: seq<Attempt>)
    requires k1.TcpSocket?
    ensures var half := c1.halfClosed && c1.pending == [];
      var k2 := if half then CloseSocket(k1, HalfClose, 0) else k1;
      var (c3, k3, gone) := Receive(c1, k2, attempts, 0);
      var k4 := if gone then CloseSocket(k3, AppGone, |c3.pending|) else k3;
      && (gone <==> AppLeaves(attempts, |k1.rx|, MAX_RECV_CHUNKS))
      && c3.pending == c1.pending && k4.accepted == k1.accepted
      && (if half || gone then ClosesTo(k1.phase, k4.phase) else k4.phase == k1.phase)
      && k4.fins + (if k4.phase == CloseWait then [Fin(PeerClosed, |k1.accepted|, |c1.pending|)] else [])
         == k1.fins + Calls(half, gone, k4.phase == CloseWait, |k1.accepted|, |c1.pending|)
  {
    var half := c1.halfClosed && c1.pending == [];
    var k2 := if half then CloseSocket(k1, HalfClose, 0) else k1;
    ReceiveKeeps(c1, k2, attempts, 0);
    GoneIff(c1, k2, attempts, 0);
    var (c3, k3, gone) := Receive(c1, k2, attempts, 0);
    var k4 := if gone then CloseSocket(k3, AppGone, |c3.pending|) else k3;
    CallsLonger(k1.fins, k3.fins, k4.fins, half, gone, k4.phase == CloseWait, |k1.accepted|, |c1.pending|);
    assert k4.fins + [] == k4.fins;
  }

  lemma AfterFlush(c: Conn, k: Socket, t: Turn, c1: Conn, k1: Socket, gone: bool)
    requires k.TcpSocket? && (c1, k1) == Flush(c, k, t) && k1.TcpSocket?
    requires gone <==> AppLeaves(t.attempts, |k1.rx|, MAX_RECV_CHUNKS)
    ensures var (c', k', p) := Serve(c, k, t); var half := c1.halfClosed && c1.pending == [];
      && k'.accepted == k1.accepted && c'.pending == (if p == TimeWait then [] else c1.pending)
      && k'.fins == k1.fins + Calls(half, gone, p == CloseWait, |k1.accepted|, |c1.pending|)
      && (if half || gone then ClosesTo(k1.phase, p) else p == k1.phase)
      && k'.phase == (if p == CloseWait then LastAck else p)
  {
    ClosingActs(c1, k1, t.attempts);
    assert Serve(c, k, t).1.fins + [] == Serve(c, k, t).1.fins;
  }

  /**
    A pass: the socket takes what it accepts of the pending bytes; `close` is called for the app's
    own close exactly when nothing is left pending, for an app that is gone exactly when the receive
    loop finds it gone, and for a peer that closed exactly when neither was; the phase is the one
    those calls lead to. Pending bytes are dropped in `TimeWait` alone.
   */
  lemma PassActs(c: Conn, k: Socket, t: Turn, gone: bool)
    requires k.TcpSocket? && (gone <==> AppLeaves(t.attempts, |k.rx|, 128))
    ensures var (c', k', p) := Serve(c, k, t); var n, half := Takes(c, t), HalfCloses(c, t);
      var peer := k.phase == CloseWait && !half && !gone;
      && k'.accepted == k.accepted + c.pending[..n]
      && c'.pending == (if p == TimeWait then [] else c.pending[n..])
      && k'.fins == k.fins + Calls(half, gone, peer, |k.accepted| + n, |c.pending| - n)
      && (if half || gone then ClosesTo(k.phase, p) else p == k.phase)
      && k'.phase == (if peer then LastAck else p)
  {
    FlushActs(c, k, t);
    var (c1, k1) := Flush(c, k, t);
    AfterFlush(c, k, t, c1, k1, gone);
    var n, p, half := Takes(c, t), Serve(c, k, t).2, HalfCloses(c, t);
    assert |k1.accepted| == |k.accepted| + n && |c1.pending| == |c.pending| - n;
    assert half <==> c1.halfClosed && c1.pending == [];
    assert p == CloseWait <==> k.phase == CloseWait && !half && !gone;
  }

  /** One of the calls from `from` on is for the app's own close. */
  ghost predicate EndsOwnSide(fins: seq<Fin>, from: nat)
  {
    exists j :: from <= j < |fins| && fins[j].cause == HalfClose
  }

  /** In particular the half-close is called, as the first, exactly when the app closed and nothing stays pending. */
  lemma HalfCloseIff(c: Conn, k: Socket, t: Turn)
    requires k.TcpSocket?
    ensures var k' := Serve(c, k, t).1;
      && k.fins <= k'.fins
      && (EndsOwnSide(k'.fins, |k.fins|) <==> c.halfClosed && !Lags(c, t))
      && (c.halfClosed && !Lags(c, t) ==>
            && |k.fins| < |k'.fins| && k'.fins[|k.fins|] == Fin(HalfClose, |k.accepted| + |c.pending|, 0)
            && k'.accepted == k.accepted + c.pending)
  {
    var gone := AppLeaves(t.attempts, |k.rx|, 128);
    PassActs(c, k, t, gone);
    var n, half := Takes(c, t), HalfCloses(c, t);
    HalfCalled(c.pending, k, Serve(c, k, t).1, n, half, gone, k.phase == CloseWait && !half && !gone);
  }

  lemma HalfCalled(pending: seq<byte>, k: Socket, k': Socket, n: nat, half: bool, gone: bool, peer: bool)
    requires k.TcpSocket? && k'.TcpSocket? && n <= |pending| && (half ==> n == |pending|)
    requires k'.fins == k.fins + Calls(half, gone, peer, |k.accepted| + n, |pending| - n)
    requires k'.accepted == k.accepted + pending[..n]
    ensures k.fins <= k'.fins && (EndsOwnSide(k'.fins, |k.fins|) <==> half)
    ensures half ==>
      && |k.fins| < |k'.fins| && k'.fins[|k.fins|] == Fin(HalfClose, |k.accepted| + |pending|, 0)
      && k'.accepted == k.accepted + pending
  {
    CallsFirst(k.fins, k'.fins, half, gone, peer, |k.accepted| + n, |pending| - n);
    assert pending[..|pending|] == pending;
  }

  lemma CallsFirst(fins: seq<Fin>, fins': seq<Fin>, half: bool, gone: bool, peer: bool, accepted: nat, pending: nat)
    requires fins' == fins + Calls(half, gone, peer, accepted, pending)
    ensures fins <= fins'
    ensures EndsOwnSide(fins', |fins|) <==> half
    ensures half ==> |fins| < |fins'| && fins'[|fins|] == Fin(HalfClose, accepted, 0)
  {
    var calls := Calls(half, gone, peer, accepted, pending);
    forall j | |fins| <= j < |fins'|
      ensures fins'[j] == calls[j - |fins|]
    {
    }
    if half {
      assert calls[0] == Fin(HalfClose, accepted, 0);
      assert fins'[|fins|].cause == HalfClose;
    } else {
      assert forall i :: 0 <= i < |calls| ==> calls[i].cause != HalfClose;
    }
  }

  /** A pass delivers to the app what the receive loop delivers, and no more. */
  lemma PassDelivers(c: Conn, k: Socket, t: Turn) returns (j: nat)
    requires k.TcpSocket?
    ensures Delivers(t.attempts, |k.rx|, 128, j)
    ensures var n := Min(Sizes(t.attempts[..j]), |k.rx|); var (c', k', _) := Serve(c, k, t);
      c'.toApp == c.toApp + k.rx[..n] && k'.rx == k.rx[n..]
  {
    var (c1, k1) := Flush(c, k, t);
    FlushActs(c, k, t);
    var k2 := if c1.halfClosed && c1.pending == [] then CloseSocket(k1, HalfClose, 0) else k1;
    j := ReceiveActs(c1, k2, t.attempts, 0);
  }

  // ---------------------------------------------------------------- one connection of `service_tcp`

  /** The socket of connection `id`. */
  function SocketOf(s: Stack, id: nat): Socket
    requires Mapped(s, id)
  {
    s.sockets[s.tcp[id].handle]
  }

  /** The connection has just come up. */
  predicate ComesUp(s: Stack, id: nat)
    requires Mapped(s, id)
  {
    !s.tcp[id].established && SocketOf(s, id).phase == Established
  }

  /** The connection died before it came up. */
  predicate IsRefused(s: Stack, id: nat)
    requires Mapped(s, id)
  {
    !s.tcp[id].established && (SocketOf(s, id).phase == Closed || SocketOf(s, id).phase == TimeWait)
  }

  /** The entry after the pass, when it stays. */
  predicate Passed(c: Conn, k: Socket, t: Turn, up: bool, c': Conn, k': Socket, gone: bool)
    requires k.TcpSocket? && k'.TcpSocket?
  {
    var n, half := Takes(c, t), HalfCloses(c, t);
    var peer := k.phase == CloseWait && !half && !gone;
    && c'.established == (c.established || up) && c'.resp == (if up then None else c.resp)
    && k'.accepted == k.accepted + c.pending[..n]
    && (c'.pending == c.pending[n..] || (c'.pending == [] && k.phase == TimeWait))
    && k'.fins == k.fins + Calls(half, gone, peer, |k.accepted| + n, |c.pending| - n)
    && if half || gone || peer then ClosesTo(k.phase, k'.phase) else k'.phase == k.phase
  }

  /** The established connection is over when its socket is, after the calls of the pass. */
  predicate IsOver(c: Conn, k: Socket, t: Turn, up: bool, gone: bool)
    requires k.TcpSocket?
  {
    && (c.established || up)
    && (|| k.phase == Closed || k.phase == TimeWait
        || ((k.phase == Listen || k.phase == SynSent) && (HalfCloses(c, t) || gone)))
  }

  lemma GreetActs(s: Stack, id: nat)
    requires Mapped(s, id)
    ensures var s1, up := Greet(s, id), ComesUp(s, id); var resp := s.tcp[id].resp;
      && Mapped(s1, id) && SocketOf(s1, id) == SocketOf(s, id)
      && s1.tcp[id] == (if up then s.tcp[id].(established := true, resp := None) else s.tcp[id])
      && s1.answers == (if up && resp.Some? then s.answers + multiset{resp.value} else s.answers)
      && s1.handed == (if up && resp.Some? then s.handed + {id} else s.handed)
  {
  }

  lemma WorkActs(s: Stack, id: nat, t: Turn, gone: bool, c: Conn, k: Socket)
    requires Mapped(s, id) && c == s.tcp[id] && k == SocketOf(s, id)
    requires gone <==> AppLeaves(t.attempts, |k.rx|, 128)
    ensures var s' := Work(s, id, t);
      && s'.answers == s.answers && s'.handed == s.handed
      && (id !in s'.tcp <==> IsOver(c, k, t, false, gone))
      && (id !in s'.tcp ==> c.handle !in s'.sockets)
      && (id in s'.tcp ==> Mapped(s', id) && Passed(c, k, t, false, s'.tcp[id], SocketOf(s', id), gone))
  {
    PassActs(c, k, t, gone);
    ServeKeeps(c, k, t);
  }

  lemma UpOrNot(c: Conn, k: Socket, t: Turn, up: bool, gone: bool, c1: Conn)
    requires k.TcpSocket? && c1 == if up then c.(established := true, resp := None) else c
    ensures IsOver(c1, k, t, false, gone) <==> IsOver(c, k, t, up, gone)
  {
  }

  lemma PassedUp(c: Conn, k: Socket, t: Turn, up: bool, gone: bool, c1: Conn, c': Conn, k': Socket)
    requires k.TcpSocket? && k'.TcpSocket? && c1 == if up then c.(established := true, resp := None) else c
    requires Passed(c1, k, t, false, c', k', gone)
    ensures Passed(c, k, t, up, c', k', gone)
  {
  }

  /**
    One iteration of `service_tcp`. The opener is answered exactly when the connection has come up,
    and then it gets the connection, or was refused. The entry goes, with its socket, exactly when
    it was refused or the established connection is over; otherwise it is what the pass makes of it.
   */
  lemma ServiceOneActs(s: Stack, id: nat, t: Turn, gone: bool)
    requires Mapped(s, id) && (gone <==> AppLeaves(t.attempts, |SocketOf(s, id).rx|, 128))
    ensures var s', c, k := ServiceOne(s, id, t), s.tcp[id], SocketOf(s, id);
      var up, refused := ComesUp(s, id), IsRefused(s, id);
      && s'.answers == (if (up || refused) && c.resp.Some? then s.answers + multiset{c.resp.value} else s.answers)
      && s'.handed == (if up && c.resp.Some? then s.handed + {id} else s.handed)
      && (id !in s'.tcp <==> refused || IsOver(c, k, t, up, gone))
      && (id !in s'.tcp ==> c.handle !in s'.sockets)
      && (id in s'.tcp ==> Mapped(s', id) && Passed(c, k, t, up, s'.tcp[id], SocketOf(s', id), gone))
  {
    GreetActs(s, id);
    var s1, c, k := Greet(s, id), s.tcp[id], SocketOf(s, id);
    if !IsRefused(s, id) {
      var s' := Work(s1, id, t);
      WorkActs(s1, id, t, gone, s1.tcp[id], k);
      UpOrNot(c, k, t, ComesUp(s, id), gone, s1.tcp[id]);
      if id in s'.tcp {
        PassedUp(c, k, t, ComesUp(s, id), gone, s1.tcp[id], s'.tcp[id], SocketOf(s', id));
      }
    }
  }

  /** What the app gets of it. */
  lemma ServiceDelivers(s: Stack, id: nat, t: Turn) returns (j: nat)
    requires Mapped(s, id)
    ensures var k := SocketOf(s, id); Delivers(t.attempts, |k.rx|, 128, j)
    ensures var s', k := ServiceOne(s, id, t), SocketOf(s, id); var n := Min(Sizes(t.attempts[..j]), |k.rx|);
      id in s'.tcp ==>
        Mapped(s', id) && s'.tcp[id].toApp == s.tcp[id].toApp + k.rx[..n] && SocketOf(s', id).rx == k.rx[n..]
  {
    GreetActs(s, id);
    var s1 := Greet(s, id);
    j := PassDelivers(s1.tcp[id], SocketOf(s1, id), t);
    ServeKeeps(s1.tcp[id], SocketOf(s1, id), t);
  }

  // ---------------------------------------------------------------- all connections of `service_tcp`

  /** Two stacks agree on connection `id`: neither has it, or both have the same with the same socket. */
  predicate Alike(s: Stack, s': Stack, id: nat)
  {
    && (id in s.tcp <==> id in s'.tcp)
    && (id in s.tcp ==>
          Mapped(s, id) && Mapped(s', id) && s.tcp[id] == s'.tcp[id] && SocketOf(s, id) == SocketOf(s', id))
  }

  /** Connection `other` has another handle than `id`, if it is there at all. */
  predicate Apart(s: Stack, id: nat, other: nat)
    requires id in s.tcp
  {
    other != id && (other in s.tcp ==> Mapped(s, other) && s.tcp[other].handle != s.tcp[id].handle)
  }

  lemma WorkOthers(s: Stack, id: nat, t: Turn, other: nat)
    requires Mapped(s, id) && Apart(s, id, other)
    ensures Alike(s, Work(s, id, t), other)
  {
    ServeKeeps(s.tcp[id], SocketOf(s, id), t);
  }

  lemma GreetOthers(s: Stack, id: nat, other: nat)
    requires Mapped(s, id) && Apart(s, id, other)
    ensures Alike(s, Greet(s, id), other) && Alike(s, Refuse(s, id), other)
    ensures Mapped(Greet(s, id), id) && Apart(Greet(s, id), id, other)
  {
    GreetActs(s, id);
  }

  lemma OwnedApart(s: Stack, id: nat, other: nat)
    requires Owned(s) && id in s.tcp && other != id
    ensures Mapped(s, id) && Apart(s, id, other)
  {
  }

  lemma OthersAlike(s: Stack, id: nat, t: Turn, other: nat)
    requires Owned(s) && other != id
    ensures Alike(s, ServiceOne(s, id, t), other)
  {
    if id in s.tcp {
      OwnedApart(s, id, other);
      var s1 := Greet(s, id);
      GreetOthers(s, id, other);
      GreetOthers(s1, id, other);
      WorkOthers(s1, id, t, other);
    }
  }

  /** What becomes of a connection depends on it and its socket alone. */
  lemma PassAlike(s: Stack, s': Stack, id: nat, t: Turn)
    requires Alike(s, s', id)
    ensures Alike(ServiceOne(s, id, t), ServiceOne(s', id, t), id) && PassCloses(s, id, t) == PassCloses(s', id, t)
  {
    if id in s.tcp {
      GreetActs(s, id);
      GreetActs(s', id);
      WorkAlike(Greet(s, id), Greet(s', id), id, t);
    }
  }

  lemma WorkAlike(s: Stack, s': Stack, id: nat, t: Turn)
    requires Alike(s, s', id) && id in s.tcp
    ensures Alike(Work(s, id, t), Work(s', id, t), id)
  {
    ServeKeeps(s.tcp[id], SocketOf(s, id), t);
  }

  predicate Distinct(ids: seq<nat>)
  {
    forall i, j :: 0 <= i < j < |ids| ==> ids[i] != ids[j]
  }

  lemma {:induction false} UnlistedAlike(s: Stack, ids: seq<nat>, turns: map<nat, Turn>, id: nat)
    requires Owned(s) && id !in ids
    ensures Alike(s, Service(s, ids, turns), id)
    decreases |ids|
  {
    if ids != [] {
      var t := TurnOf(turns, ids[0]);
      ServiceOneOwned(s, ids[0], t);
      OthersAlike(s, ids[0], t, id);
      UnlistedAlike(ServiceOne(s, ids[0], t), ids[1..], turns, id);
    }
  }

  /** Every listed connection gets its pass, the others are left alone. */
  lemma {:induction false} ServiceEach(s: Stack, ids: seq<nat>, turns: map<nat, Turn>, id: nat)
    requires Owned(s) && Distinct(ids) && id in ids
    ensures Alike(ServiceOne(s, id, TurnOf(turns, id)), Service(s, ids, turns), id)
    ensures forall c :: c in PassCloses(s, id, TurnOf(turns, id)) ==> c in ServiceCloses(s, ids, turns)
    decreases |ids|
  {
    var t := TurnOf(turns, ids[0]);
    var s1 := ServiceOne(s, ids[0], t);
    ServiceOneOwned(s, ids[0], t);
    if ids[0] == id {
      UnlistedAlike(s1, ids[1..], turns, id);
    } else {
      OthersAlike(s, ids[0], t, id);
      PassAlike(s, s1, id, TurnOf(turns, id));
      ServiceEach(s1, ids[1..], turns, id);
    }
  }

  // ---------------------------------------------------------------- the data arm

  /** The connection cannot hold another byte. */
  predicate IsFull(s: Stack, id: nat)
  {
    id in s.tcp && |s.tcp[id].pending| >= s.limit
  }

  /** An item is put back only for a connection that is full; a close is always taken. */
  lemma TryHandleActs(s: Stack, d: DataIn)
    ensures var (s', back) := TryHandle(s, d);
      && s'.limit == s.limit && s'.tcp.Keys == s.tcp.Keys
      && (back.Some? ==> d.Tcp? && back.value.Tcp? && back.value.id == d.id && IsFull(s', d.id))
      && (forall id :: id in s.tcp ==> (s'.tcp[id].halfClosed <==> s.tcp[id].halfClosed || d == TcpClose(id)))
      && (forall id :: id in s'.udp <==> id in s.udp && d != UdpClose(id))
  {
  }

  /** What is left of the queue, and of the items taken from it. */
  ghost predicate Ingested(s: Stack, taken: seq<DataIn>, s': Stack)
  {
    && s'.tcp.Keys == s.tcp.Keys && s'.limit == s.limit
    && (forall id :: id in s.tcp ==> (s'.tcp[id].halfClosed <==> s.tcp[id].halfClosed || TcpClose(id) in taken))
    && (forall id :: id in s'.udp <==> id in s.udp && UdpClose(id) !in taken)
  }

  lemma IngestedMore(s: Stack, d: DataIn, s1: Stack, rest: seq<DataIn>, s': Stack)
    requires s1 == TryHandle(s, d).0 && Ingested(s1, rest, s')
    ensures Ingested(s, [d] + rest, s')
  {
    TryHandleActs(s, d);
    assert forall x :: x in [d] + rest <==> x == d || x in rest;
  }

  lemma NothingIngested(s: Stack)
    ensures Ingested(s, [], s)
  {
  }

  /**
    The data arm takes items until the queue is empty or a connection is full: it never leaves an
    item queued without having one put back, and that one is for a connection that is full. Every
    close among the items taken is known to its connection, and no other is.
   */
  lemma {:induction false} IngestActs(s: Stack, queue: seq<DataIn>)
    ensures var (s', deferred, left) := Ingest(s, queue);
      && |left| <= |queue| && left == queue[|queue| - |left|..] && Ingested(s, queue[..|queue| - |left|], s')
      && (deferred == [] ==> left == [])
      && (deferred != [] ==> |deferred| == 1 && deferred[0].Tcp? && IsFull(s', deferred[0].id))
    decreases |queue|
  {
    if queue == [] {
      NothingIngested(s);
    } else {
      var (s1, back) := TryHandle(s, queue[0]);
      TryHandleActs(s, queue[0]);
      if back.Some? {
        NothingIngested(s1);
        IngestedMore(s, queue[0], s1, [], s1);
        assert queue[..1] == [queue[0]] + [];
      } else {
        IngestActs(s1, queue[1..]);
        IngestLonger(s, queue, s1, Ingest(s1, queue[1..]).2, Ingest(s1, queue[1..]).0);
      }
    }
  }

  lemma IngestLonger(s: Stack, queue: seq<DataIn>, s1: Stack, left: seq<DataIn>, s': Stack)
    requires queue != [] && s1 == TryHandle(s, queue[0]).0 && |left| <= |queue| - 1
    requires left == queue[1..][|queue| - 1 - |left|..] && Ingested(s1, queue[1..][..|queue| - 1 - |left|], s')
    ensures left == queue[|queue| - |left|..] && Ingested(s, queue[..|queue| - |left|], s')
  {
    var n := |queue| - 1 - |left|;
    assert queue[1..][n..] == queue[n + 1..];
    assert queue[..n + 1] == [queue[0]] + queue[1..][..n];
    IngestedMore(s, queue[0], s1, queue[1..][..n], s');
  }

  /** The retry loop stops early only at an item whose connection is full. */
  lemma {:induction false} RetryActs(s: Stack, deferred: seq<DataIn>)
    ensures var (s', left) := Retry(s, deferred);
      && |left| <= |deferred| && Ingested(s, deferred[..|deferred| - |left|], s')
      && (left != [] ==> left[0].Tcp? && IsFull(s', left[0].id) && left[1..] == deferred[|deferred| - |left| + 1..])
    decreases |deferred|
  {
    if deferred == [] {
      NothingIngested(s);
    } else {
      var (s1, back) := TryHandle(s, deferred[0]);
      TryHandleActs(s, deferred[0]);
      if back.Some? {
        assert deferred[..0] == [] && ([back.value] + deferred[1..])[1..] == deferred[1..];
      } else {
        var (s', left) := Retry(s1, deferred[1..]);
        RetryActs(s1, deferred[1..]);
        var n := |deferred| - 1 - |left|;
        IngestedMore(s, deferred[0], s1, deferred[1..][..n], s');
        assert [deferred[0]] + deferred[1..][..n] == deferred[..n + 1];
      }
    }
  }

  // ---------------------------------------------------------------- commands

  /**
    Opening takes the next id and the next port. A connection that is being made waits, on a socket
    of its own, with its opener unanswered; one that cannot be made leaves the tables alone and its
    opener is answered, as is every opener of a UDP socket.
   */
  lemma CommandActs(s: Stack, cmd: Cmd)
    requires HandleFree(s, cmd) && !cmd.SetAddrs? && s.nextId !in s.tcp && s.nextId !in s.udp
    ensures var s', made := HandleCmd(s, cmd), if cmd.OpenTcp? then cmd.connects else cmd.binds;
      && s'.nextId == (if made then s.nextId + 1 else s.nextId)
      && s'.nextPort == (if s.nextPort >= 65000 then 49152 else s.nextPort + 1)
      && (cmd.OpenTcp? && made ==>
            && Mapped(s', s.nextId) && s'.tcp[s.nextId].handle == cmd.handle && Waits(s', s.nextId, cmd.opener)
            && !s'.tcp[s.nextId].established && !s'.tcp[s.nextId].halfClosed
            && SocketOf(s', s.nextId).phase == SynSent)
      && (cmd.OpenUdp? && made ==> s.nextId in s'.udp && s'.udp[s.nextId] == cmd.handle)
      && s'.tcp.Keys == s.tcp.Keys + (if cmd.OpenTcp? && made then {s.nextId} else {})
      && s'.udp.Keys == s.udp.Keys + (if cmd.OpenUdp? && made then {s.nextId} else {})
      && s'.sockets.Keys == s.sockets.Keys + (if made then {cmd.handle} else {})
      && s'.answers == s.answers + (if cmd.OpenTcp? && made then multiset{} else multiset{cmd.opener})
  {
  }

  /** In every run a connection may hold twice the socket buffer, but at least 64 KiB. */
  lemma PendingLimit(tcpBuf: nat, depth: nat, events: seq<Event>)
    requires Runs(Start(tcpBuf, depth), events)
    ensures After(Start(tcpBuf, depth), events).stack.limit == if tcpBuf < 32768 then 65536 else 2 * tcpBuf
  {
    Reached(tcpBuf, depth, events);
  }

  // ---------------------------------------------------------------- a close reaches the socket

  /** In a run only a connection that came up can have been closed by the app. */
  lemma ClosedIsUp(w: World, id: nat)
    requires Invariant(w) && id in w.stack.tcp && w.stack.tcp[id].halfClosed
    ensures Mapped(w.stack, id) && w.stack.tcp[id].established
  {
    var l := w.deferred + w.queue;
    assert ConnFlows(w.stack, id, l, w.ledger);
    assert ReplyOk(w.stack.tcp[id], id, w.stack.handed, w.openers, w.homes);
  }

  /** The calls a pass adds to the run are those its socket records. */
  lemma PassHalfCloses(s: Stack, id: nat, t: Turn)
    requires Mapped(s, id) && s.tcp[id].established && HalfCloses(s.tcp[id], t)
    ensures var c, k := s.tcp[id], SocketOf(s, id);
      Close(id, Fin(HalfClose, |k.accepted| + |c.pending|, 0), k.accepted + c.pending) in PassCloses(s, id, t)
  {
    var c, k := s.tcp[id], SocketOf(s, id);
    HalfCloseIff(c, k, t);
    var k' := Serve(c, k, t).1;
    assert PassCloses(s, id, t) == NewCloses(id, k, k');
    assert NewCloses(id, k, k')[0] == Close(id, k'.fins[|k.fins|], k'.accepted);
  }

  /** The close of a listed connection. */
  lemma CloseListed(s: Stack, ids: seq<nat>, turns: map<nat, Turn>, id: nat, accepted: seq<byte>)
    requires Owned(s) && Distinct(ids) && id in ids
    requires Mapped(s, id) && s.tcp[id].established && HalfCloses(s.tcp[id], TurnOf(turns, id))
    requires accepted == SocketOf(s, id).accepted + s.tcp[id].pending
    ensures Close(id, Fin(HalfClose, |accepted|, 0), accepted) in ServiceCloses(s, ids, turns)
  {
    ServiceEach(s, ids, turns, id);
    PassHalfCloses(s, id, TurnOf(turns, id));
  }

  lemma ServicesAdd(w: World, ids: seq<nat>, turns: map<nat, Turn>)
    ensures var w' := Apply(w, Services(ids, turns));
      w.closes <= w'.closes && w'.closes[|w.closes|..] == ServiceCloses(w.stack, ids, turns)
  {
  }

  /**
    In every run: a service pass over a connection whose close was handled, and whose pending bytes
    the socket takes, calls `close`, with nothing left behind and all the app sent but what is still
    queued accepted.
   */
  lemma CloseIsCalled(tcpBuf: nat, depth: nat, events: seq<Event>, ids: seq<nat>, turns: map<nat, Turn>, id: nat)
    requires Runs(Start(tcpBuf, depth), events) && Distinct(ids) && id in ids
    requires var s := After(Start(tcpBuf, depth), events).stack;
      id in s.tcp && s.tcp[id].halfClosed && !Lags(s.tcp[id], TurnOf(turns, id))
    ensures var w := After(Start(tcpBuf, depth), events); var w' := Apply(w, Services(ids, turns));
      && w.closes <= w'.closes && Mapped(w.stack, id)
      && var accepted := SocketOf(w.stack, id).accepted + w.stack.tcp[id].pending;
      && Close(id, Fin(HalfClose, |accepted|, 0), accepted) in w'.closes[|w.closes|..]
      && accepted + For(w.deferred, id) + For(w.queue, id) == Sent(w.ledger, id)
  {
    StartInvariant(tcpBuf, depth);
    RunInvariant(Start(tcpBuf, depth), events);
    StreamsConserved(tcpBuf, depth, events, id);
    var w := After(Start(tcpBuf, depth), events);
    ClosedIsUp(w, id);
    CloseListed(w.stack, ids, turns, id, SocketOf(w.stack, id).accepted + w.stack.tcp[id].pending);
    ServicesAdd(w, ids, turns);
  }

  /**
    And a close the app queued is handled: once the data arm has emptied the queue, the connection
    knows of it, so the next pass that takes its bytes ends its side.
   */
  lemma CloseIsHandled(w: World, id: nat)
    requires Enabled(w, Ingests) && id in w.stack.tcp && TcpClose(id) in w.queue
    ensures var w' := Apply(w, Ingests);
      id in w'.stack.tcp && (w'.stack.tcp[id].halfClosed || TcpClose(id) in w'.queue)
      && (w'.queue != [] ==> |w'.deferred| == 1 && IsFull(w'.stack, w'.deferred[0].id))
  {
    IngestActs(w.stack, w.queue);
    var left := Ingest(w.stack, w.queue).2;
    assert w.queue == w.queue[..|w.queue| - |left|] + left;
  }
}
