/**
  Whole runs of the network stack: app tasks, the remote side and the event loop take steps in any
  order. In every reachable state no byte is lost, duplicated or reordered, a half-close never
  overtakes data, the socket set is owned by the tables, and every opener is answered once.
 */
module NetStackRuns {
  import opened Bytes
  import opened NetStackModel

  /** What the app did, per connection: all bytes it sent, and how many before its first close. */
  datatype Ledger = Ledger(sent: map<nat, seq<byte>>, mark: map<nat, nat>)

  datatype World = World(
    stack: Stack,
    deferred: seq<DataIn>,
    queue: seq<DataIn>,
    depth: nat,          // capacity of the data channel
    ledger: Ledger,
    openers: nat,         // openers so far; each one is known by its number
    homes: map<nat, nat>, // the connection each opener was given
    closes: seq<Close>)   // every call of `close` so far

  /** A call of `close` for connection `id`, and the bytes its socket had accepted by then. */
  datatype Close = Close(id: nat, fin: Fin, accepted: seq<byte>)

  datatype Event =
    | AppSends(id: nat, data: seq<byte>)
    | AppCloses(id: nat)
    | AppUdp(item: DataIn)
    | Commands(cmd: Cmd)
    | Polls(arrivals: map<nat, Arrival>)
    | Services(ids: seq<nat>, turns: map<nat, Turn>)
    | Retries
    | Ingests

  function Start(tcpBuf: nat, depth: nat): World
  {
    World(Stack(map[], map[], map[], 1, FIRST_PORT, MaxPending(tcpBuf), multiset{}, {}),
          [], [], depth, Ledger(map[], map[]), 0, map[], [])
  }

  function Sent(g: Ledger, id: nat): seq<byte>
  {
    if id in g.sent then g.sent[id] else []
  }

  predicate Enabled(w: World, e: Event)
  {
    match e
    case AppSends(id, _) => id in w.stack.handed && |w.queue| < w.depth
    case AppCloses(id) => id in w.stack.handed && |w.queue| < w.depth
    case AppUdp(item) => (item.Udp? || item.UdpClose?) && |w.queue| < w.depth
    case Commands(cmd) => HandleFree(w.stack, cmd) && (cmd.SetAddrs? || cmd.opener == w.openers)
    case Polls(_) => true
    case Services(_, _) => true
    case Retries => true
    case Ingests => w.deferred == []
  }

  /** The calls of `close` that turned the socket `k` into `k'`. */
  function NewCloses(id: nat, k: Socket, k': Socket): seq<Close>
    requires k.TcpSocket? && k'.TcpSocket?
  {
    if |k'.fins| <= |k.fins| then []
    else
      var before := |k.fins|;
      seq(|k'.fins| - before, i requires 0 <= i < |k'.fins| - before =>
            Close(id, k'.fins[before + i], k'.accepted))
  }

  /** The calls of `close` in one iteration of `service_tcp`, whether or not the socket is then removed. */
  function PassCloses(s: Stack, id: nat, t: Turn): seq<Close>
  {
    if !Mapped(s, id) then []
    else
      var s1 := Greet(s, id);
      var c := s1.tcp[id];
      var k := s1.sockets[c.handle];
      if !c.established && Dead(k.phase) then [] else NewCloses(id, k, Serve(c, k, t).1)
  }

  function ServiceCloses(s: Stack, ids: seq<nat>, turns: map<nat, Turn>): seq<Close>
    decreases |ids|
  {
    if ids == [] then []
    else
      var t := TurnOf(turns, ids[0]);
      PassCloses(s, ids[0], t) + ServiceCloses(ServiceOne(s, ids[0], t), ids[1..], turns)
  }

  function Apply(w: World, e: Event): World
    requires Enabled(w, e)
  {
    match e
    case AppSends(id, data) =>
      w.(queue := w.queue + [Tcp(id, data)],
         ledger := w.ledger.(sent := w.ledger.sent[id := Sent(w.ledger, id) + data]))
    case AppCloses(id) =>
      w.(queue := w.queue + [TcpClose(id)],
         ledger := if id in w.ledger.mark then w.ledger
                   else w.ledger.(mark := w.ledger.mark[id := |Sent(w.ledger, id)|]))
    case AppUdp(item) => w.(queue := w.queue + [item])
    case Commands(cmd) =>
      w.(stack := HandleCmd(w.stack, cmd),
         openers := if cmd.SetAddrs? then w.openers else w.openers + 1,
         homes := if cmd.OpenTcp? && cmd.connects then w.homes[w.openers := w.stack.nextId] else w.homes)
    case Polls(arrivals) => w.(stack := Poll(w.stack, arrivals))
    case Services(ids, turns) =>
      w.(stack := Service(w.stack, ids, turns), closes := w.closes + ServiceCloses(w.stack, ids, turns))
    case Retries =>
      var (s, d) := Retry(w.stack, w.deferred);
      w.(stack := s, deferred := d)
    case Ingests =>
      var (s, d, q) := Ingest(w.stack, w.queue);
      w.(stack := s, deferred := d, queue := q)
  }

  // ---------------------------------------------------------------- bytes in flight

  function Piece(d: DataIn, id: nat): seq<byte>
  {
    if d.Tcp? && d.id == id then d.data else []
  }

  /** The bytes on their way to connection `id` in a list of queued items. */
  function For(l: seq<DataIn>, id: nat): seq<byte>
  {
    if l == [] then [] else Piece(l[0], id) + For(l[1..], id)
  }

  /** Each close queued for `id` has at least the marked bytes before it, `base` being past the queue. */
  predicate Closes(l: seq<DataIn>, id: nat, base: nat, mark: map<nat, nat>)
  {
    l != [] ==>
    && (l[0] == TcpClose(id) ==> id in mark && mark[id] <= base)
    && Closes(l[1..], id, base + |Piece(l[0], id)|, mark)
  }

  lemma {:induction false} ForAppend(a: seq<DataIn>, b: seq<DataIn>, id: nat)
    ensures For(a + b, id) == For(a, id) + For(b, id)
  {
    if a == [] {
      assert a + b == b;
    } else {
      ForAppend(a[1..], b, id);
      assert (a + b)[0] == a[0] && (a + b)[1..] == a[1..] + b;
      Assoc(Piece(a[0], id), For(a[1..], id), For(b, id));
    }
  }

  lemma {:induction false} ClosesAppend(l: seq<DataIn>, d: DataIn, id: nat, base: nat,
                                       mark: map<nat, nat>, mark': map<nat, nat>)
    requires Closes(l, id, base, mark)
    requires id in mark ==> id in mark' && mark'[id] == mark[id]
    requires d == TcpClose(id) ==> id in mark' && mark'[id] <= base + |For(l, id)|
    ensures Closes(l + [d], id, base, mark')
  {
    if l == [] {
      assert l + [d] == [d];
    } else {
      ClosesAppend(l[1..], d, id, base + |Piece(l[0], id)|, mark, mark');
      assert (l + [d])[1..] == l[1..] + [d];
    }
  }

  predicate FinOk(f: Fin, id: nat, k: Socket, mark: map<nat, nat>)
    requires k.TcpSocket?
  {
    f.accepted <= |k.accepted| &&
    (f.cause == HalfClose ==> f.pending == 0 && id in mark && mark[id] <= f.accepted)
  }

  predicate FinsOk(k: Socket, id: nat, mark: map<nat, nat>)
    requires k.TcpSocket?
  {
    forall j :: 0 <= j < |k.fins| ==> FinOk(k.fins[j], id, k, mark)
  }

  /** Everything connection `id` owes the app and the remote side, `l` being what is still queued. */
  predicate FlowOk(c: Conn, k: Socket, id: nat, l: seq<DataIn>, g: Ledger, limit: nat)
    requires k.TcpSocket?
  {
    && k.accepted + c.pending + For(l, id) == Sent(g, id)
    && c.toApp + k.rx == k.received
    && |c.pending| <= limit
    && (c.halfClosed ==> id in g.mark && g.mark[id] <= |k.accepted| + |c.pending|)
    && Closes(l, id, |k.accepted| + |c.pending|, g.mark)
    && FinsOk(k, id, g.mark)
  }

  predicate ConnFlows(s: Stack, id: nat, l: seq<DataIn>, g: Ledger)
  {
    Mapped(s, id) && FlowOk(s.tcp[id], s.sockets[s.tcp[id].handle], id, l, g, s.limit)
  }

  ghost predicate Flows(s: Stack, l: seq<DataIn>, g: Ledger)
  {
    forall id :: id in s.tcp ==> ConnFlows(s, id, l, g)
  }

  // ---------------------------------------------------------------- openers and handed-out ids

  predicate Waits(s: Stack, id: nat, opener: nat)
  {
    id in s.tcp && s.tcp[id].resp == Some(opener)
  }

  /** A connection waits for its reply exactly until it is established and handed to the app. */
  predicate ReplyOk(c: Conn, id: nat, handed: set<nat>, openers: nat, homes: map<nat, nat>)
  {
    && (c.resp.Some? <==> !c.established)
    && (id in handed <==> c.established)
    && (c.resp.Some? ==> c.resp.value < openers && c.resp.value in homes && homes[c.resp.value] == id)
  }

  /** An opener has been answered exactly once, unless its connection still waits. */
  predicate AnswerOk(s: Stack, o: nat, openers: nat, homes: map<nat, nat>)
  {
    s.answers[o] == if o < openers && !(o in homes && Waits(s, homes[o], o)) then 1 else 0
  }

  ghost predicate Replies(s: Stack, openers: nat, homes: map<nat, nat>)
  {
    && (forall id :: id in s.tcp ==> ReplyOk(s.tcp[id], id, s.handed, openers, homes))
    && (forall o: nat :: AnswerOk(s, o, openers, homes))
    && (forall o :: o in homes ==> o < openers && homes[o] < s.nextId)
  }

  predicate Handed(d: DataIn, handed: set<nat>)
  {
    d.Tcp? || d.TcpClose? ==> d.id in handed
  }

  /** The app can only name connections it was handed, so nothing is queued for any other id. */
  ghost predicate Known(s: Stack, l: seq<DataIn>, g: Ledger)
  {
    && (forall id :: id in s.handed ==> id < s.nextId)
    && (forall j :: 0 <= j < |l| ==> Handed(l[j], s.handed))
    && g.sent.Keys <= s.handed && g.mark.Keys <= s.handed
    && (forall id :: id in g.mark ==> g.mark[id] <= |Sent(g, id)|)
  }

  /** A close on the half-close path left nothing behind; all closes came after a prefix of what was sent. */
  predicate CloseOk(c: Close, g: Ledger)
  {
    && |c.accepted| == c.fin.accepted && c.accepted <= Sent(g, c.id)
    && (c.fin.cause == HalfClose ==> c.fin.pending == 0 && c.id in g.mark && g.mark[c.id] <= |c.accepted|)
  }

  predicate ClosesOk(cs: seq<Close>, g: Ledger)
  {
    forall j :: 0 <= j < |cs| ==> CloseOk(cs[j], g)
  }

  ghost predicate Invariant(w: World)
  {
    var l := w.deferred + w.queue;
    && Owned(w.stack) && FIRST_PORT <= w.stack.nextPort <= LAST_PORT
    && |w.deferred| <= 1 && |w.queue| <= w.depth
    && Flows(w.stack, l, w.ledger)
    && Replies(w.stack, w.openers, w.homes)
    && Known(w.stack, l, w.ledger)
    && ClosesOk(w.closes, w.ledger)
  }

  lemma StartInvariant(tcpBuf: nat, depth: nat)
    ensures Invariant(Start(tcpBuf, depth))
  {
  }

  // ---------------------------------------------------------------- app data moves into the stack

  /** The head of the flow carries no bytes for `id`; it may be its close. */
  lemma HeadPasses(c: Conn, k: Socket, id: nat, d: DataIn, rest: seq<DataIn>, g: Ledger, limit: nat)
    requires k.TcpSocket? && FlowOk(c, k, id, [d] + rest, g, limit) && Piece(d, id) == []
    ensures FlowOk(c, k, id, rest, g, limit)
    ensures d == TcpClose(id) ==> FlowOk(c.(halfClosed := true), k, id, rest, g, limit)
  {
    var l := [d] + rest;
    assert l[0] == d && l[1..] == rest;
    assert For(l, id) == For(rest, id);
  }

  lemma ShiftBytes(a: seq<byte>, p: seq<byte>, data: seq<byte>, n: nat, r: seq<byte>)
    requires n <= |data|
    ensures a + p + (data + r) == a + (p + data[..n]) + (data[n..] + r)
  {
    assert data == data[..n] + data[n..];
  }

  /** The first `n` bytes of the head move into `pending`. */
  lemma HeadMoves(c: Conn, k: Socket, id: nat, data: seq<byte>, n: nat, rest: seq<DataIn>, g: Ledger, limit: nat)
    requires n <= |data| && |c.pending| + n <= limit
    requires k.TcpSocket? && FlowOk(c, k, id, [Tcp(id, data)] + rest, g, limit)
    ensures FlowOk(c.(pending := c.pending + data[..n]), k, id, [Tcp(id, data[n..])] + rest, g, limit)
  {
    var l, l' := [Tcp(id, data)] + rest, [Tcp(id, data[n..])] + rest;
    assert l[1..] == rest && l'[1..] == rest;
    assert For(l, id) == data + For(rest, id);
    assert For(l', id) == data[n..] + For(rest, id);
    ShiftBytes(k.accepted, c.pending, data, n, For(rest, id));
    var base := |k.accepted| + |c.pending|;
    assert Closes(rest, id, base + |data|, g.mark);
    assert base + |data| == (base + n) + |data[n..]|;
  }

  lemma EmptyHead(c: Conn, k: Socket, id: nat, rest: seq<DataIn>, g: Ledger, limit: nat)
    requires k.TcpSocket? && FlowOk(c, k, id, [Tcp(id, [])] + rest, g, limit)
    ensures FlowOk(c, k, id, rest, g, limit)
  {
    assert ([Tcp(id, [])] + rest)[1..] == rest;
  }

  function Back(back: Option<DataIn>): seq<DataIn>
  {
    if back.Some? then [back.value] else []
  }

  lemma HeadMovesWhole(c: Conn, k: Socket, id: nat, data: seq<byte>, rest: seq<DataIn>, g: Ledger, limit: nat)
    requires |c.pending| + |data| <= limit
    requires k.TcpSocket? && FlowOk(c, k, id, [Tcp(id, data)] + rest, g, limit)
    ensures FlowOk(c.(pending := c.pending + data), k, id, rest, g, limit)
  {
    HeadMoves(c, k, id, data, |data|, rest, g, limit);
    assert data[..|data|] == data && data[|data|..] == [];
    EmptyHead(c.(pending := c.pending + data), k, id, rest, g, limit);
  }

  lemma HandleOwnData(s: Stack, data: seq<byte>, rest: seq<DataIn>, g: Ledger, id: nat)
    requires Mapped(s, id)
    requires FlowOk(s.tcp[id], s.sockets[s.tcp[id].handle], id, [Tcp(id, data)] + rest, g, s.limit)
    ensures var (s', back) := TryHandle(s, Tcp(id, data));
      FlowOk(s'.tcp[id], s.sockets[s.tcp[id].handle], id, Back(back) + rest, g, s.limit)
  {
    var c, k := s.tcp[id], s.sockets[s.tcp[id].handle];
    if |c.pending| >= s.limit {
    } else if |data| <= s.limit - |c.pending| {
      HeadMovesWhole(c, k, id, data, rest, g, s.limit);
      assert [] + rest == rest;
    } else {
      HeadMoves(c, k, id, data, s.limit - |c.pending|, rest, g, s.limit);
    }
  }

  lemma TryHandleFrame(s: Stack, d: DataIn, id: nat)
    requires Owned(s) && id in s.tcp
    ensures var (s', back) := TryHandle(s, d); var h := s.tcp[id].handle;
      && s'.limit == s.limit
      && id in s'.tcp && s'.tcp[id].handle == h && h in s'.sockets && s'.sockets[h] == s.sockets[h]
      && (!(d.Tcp? && d.id == id) ==>
            && s'.tcp[id] == (if d == TcpClose(id) then s.tcp[id].(halfClosed := true) else s.tcp[id])
            && (back.Some? ==> back.value.Tcp? && back.value.id != id))
  {
  }

  /** An item that is not data for `id` leaves its flow as it is, but for the close. */
  lemma PassFlows(c: Conn, k: Socket, id: nat, d: DataIn, back: Option<DataIn>, rest: seq<DataIn>, g: Ledger,
                  limit: nat)
    requires k.TcpSocket? && FlowOk(c, k, id, [d] + rest, g, limit) && Piece(d, id) == []
    requires back.Some? ==> back.value.Tcp? && back.value.id != id
    ensures FlowOk(if d == TcpClose(id) then c.(halfClosed := true) else c, k, id, Back(back) + rest, g, limit)
  {
    HeadPasses(c, k, id, d, rest, g, limit);
    if back.Some? {
      OtherHead(if d == TcpClose(id) then c.(halfClosed := true) else c, k, id, back.value, rest, g, limit);
    } else {
      assert Back(back) + rest == rest;
    }
  }

  lemma FlowsOf(s: Stack, id: nat, c: Conn, k: Socket, l: seq<DataIn>, g: Ledger)
    requires k.TcpSocket? && FlowOk(c, k, id, l, g, s.limit)
    requires id in s.tcp && s.tcp[id] == c && c.handle in s.sockets && s.sockets[c.handle] == k
    ensures ConnFlows(s, id, l, g)
  {
  }

  lemma HandleHeadFor(s: Stack, d: DataIn, rest: seq<DataIn>, g: Ledger, id: nat)
    requires Owned(s) && id in s.tcp
    requires ConnFlows(s, id, [d] + rest, g)
    ensures var (s', back) := TryHandle(s, d); ConnFlows(s', id, Back(back) + rest, g)
  {
    TryHandleFrame(s, d, id);
    var (s', back) := TryHandle(s, d);
    var k := s.sockets[s.tcp[id].handle];
    if d.Tcp? && d.id == id {
      HandleOwnData(s, d.data, rest, g, id);
    } else {
      PassFlows(s.tcp[id], k, id, d, back, rest, g, s.limit);
    }
    FlowsOf(s', id, s'.tcp[id], k, Back(back) + rest, g);
  }

  lemma OtherHead(c: Conn, k: Socket, id: nat, d: DataIn, rest: seq<DataIn>, g: Ledger, limit: nat)
    requires k.TcpSocket? && FlowOk(c, k, id, rest, g, limit) && Piece(d, id) == [] && d != TcpClose(id)
    ensures FlowOk(c, k, id, [d] + rest, g, limit)
  {
    assert ([d] + rest)[1..] == rest;
  }

  lemma SameTable(s: Stack, d: DataIn)
    requires Owned(s)
    ensures TryHandle(s, d).0.tcp.Keys == s.tcp.Keys
  {
  }

  /** `try_handle_data` on the head of the flow: what is deferred takes its place at the head. */
  lemma HandleHead(s: Stack, d: DataIn, rest: seq<DataIn>, g: Ledger)
    requires Owned(s) && Flows(s, [d] + rest, g)
    ensures Owned(TryHandle(s, d).0)
    ensures Flows(TryHandle(s, d).0, Back(TryHandle(s, d).1) + rest, g)
  {
    TryHandleOwned(s, d);
    SameTable(s, d);
    forall id | id in s.tcp.Keys ensures ConnFlows(TryHandle(s, d).0, id, Back(TryHandle(s, d).1) + rest, g) {
      assert ConnFlows(s, id, [d] + rest, g);
      HandleHeadFor(s, d, rest, g, id);
    }
  }

  /** Handling data touches neither replies nor the ids handed out. */
  lemma HandleReplies(s: Stack, d: DataIn, openers: nat, homes: map<nat, nat>)
    requires Replies(s, openers, homes)
    ensures Replies(TryHandle(s, d).0, openers, homes)
    ensures var s' := TryHandle(s, d).0;
      s'.handed == s.handed && s'.nextId == s.nextId && s'.limit == s.limit && s'.nextPort == s.nextPort
  {
    var s' := TryHandle(s, d).0;
    forall o: nat ensures AnswerOk(s', o, openers, homes) {
      assert AnswerOk(s, o, openers, homes);
    }
  }

  lemma {:induction false} IngestKeeps(s: Stack, queue: seq<DataIn>, g: Ledger, openers: nat, homes: map<nat, nat>)
    requires Owned(s) && Flows(s, queue, g) && Replies(s, openers, homes) && Known(s, queue, g)
    ensures var (s', d', q') := Ingest(s, queue);
      && Owned(s') && |d'| <= 1 && |q'| <= |queue|
      && Flows(s', d' + q', g) && Replies(s', openers, homes) && Known(s', d' + q', g)
      && s'.nextPort == s.nextPort
    decreases |queue|
  {
    if queue == [] {
      assert [] + queue == queue;
    } else {
      var (s', back) := TryHandle(s, queue[0]);
      assert queue == [queue[0]] + queue[1..];
      HandleHead(s, queue[0], queue[1..], g);
      HandleReplies(s, queue[0], openers, homes);
      KnownHead(s, s', queue[0], back, queue[1..], g);
      if back.None? {
        assert Back(back) + queue[1..] == queue[1..];
        IngestKeeps(s', queue[1..], g, openers, homes);
      }
    }
  }

  lemma RetryKeeps(s: Stack, deferred: seq<DataIn>, queue: seq<DataIn>, g: Ledger, openers: nat, homes: map<nat, nat>)
    requires |deferred| <= 1
    requires Owned(s) && Flows(s, deferred + queue, g) && Replies(s, openers, homes) && Known(s, deferred + queue, g)
    ensures var (s', d') := Retry(s, deferred);
      && Owned(s') && |d'| <= 1
      && Flows(s', d' + queue, g) && Replies(s', openers, homes) && Known(s', d' + queue, g)
      && s'.nextPort == s.nextPort
  {
    if deferred != [] {
      var d := deferred[0];
      var (s', back) := TryHandle(s, d);
      assert deferred == [d] && deferred[1..] == [];
      HandleHead(s, d, queue, g);
      HandleReplies(s, d, openers, homes);
      RetryOne(s, d);
      KnownHead(s, s', d, back, queue, g);
    }
  }

  lemma RetryOne(s: Stack, d: DataIn)
    ensures Retry(s, [d]) == (TryHandle(s, d).0, Back(TryHandle(s, d).1))
  {
    var (s', back) := TryHandle(s, d);
    assert [d][1..] == [];
    assert Retry(s', []) == (s', []);
    if back.Some? {
      assert [back.value] + [] == [back.value];
    }
  }

  /** What is put back belongs to the same connection as what was taken. */
  lemma KnownHead(s: Stack, s': Stack, d: DataIn, back: Option<DataIn>, rest: seq<DataIn>, g: Ledger)
    requires (s', back) == TryHandle(s, d) && Known(s, [d] + rest, g)
    ensures Known(s', Back(back) + rest, g)
  {
    assert Handed(([d] + rest)[0], s.handed);
    assert forall j :: 0 <= j < |rest| ==> rest[j] == ([d] + rest)[j + 1];
  }

  // ---------------------------------------------------------------- servicing connections

  lemma CloseFins(k: Socket, cause: Cause, pending: nat, id: nat, mark: map<nat, nat>)
    requires k.TcpSocket? && FinsOk(k, id, mark)
    requires cause == HalfClose ==> pending == 0 && id in mark && mark[id] <= |k.accepted|
    ensures FinsOk(CloseSocket(k, cause, pending), id, mark)
  {
    var k' := CloseSocket(k, cause, pending);
    forall j | 0 <= j < |k'.fins| ensures FinOk(k'.fins[j], id, k', mark) {
      if j < |k.fins| {
        assert FinOk(k.fins[j], id, k, mark);
      }
    }
  }

  lemma LaterFins(k: Socket, k': Socket, id: nat, mark: map<nat, nat>)
    requires k.TcpSocket? && k'.TcpSocket? && k'.fins == k.fins && |k.accepted| <= |k'.accepted| && FinsOk(k, id, mark)
    ensures FinsOk(k', id, mark)
  {
    forall j | 0 <= j < |k'.fins| ensures FinOk(k'.fins[j], id, k', mark) {
      assert FinOk(k.fins[j], id, k, mark);
    }
  }

  /** Every close of the pass is accounted for: on the half-close path nothing is left behind. */
  lemma ServeFins(c: Conn, k: Socket, t: Turn, id: nat, mark: map<nat, nat>)
    requires k.TcpSocket? && FinsOk(k, id, mark)
    requires c.halfClosed ==> id in mark && mark[id] <= |k.accepted| + |c.pending|
    ensures Serve(c, k, t).1.TcpSocket? && FinsOk(Serve(c, k, t).1, id, mark)
  {
    var (c1, k1) := Flush(c, k, t);
    LaterFins(k, k1, id, mark);
    var k2 := if c1.halfClosed && c1.pending == [] then CloseSocket(k1, HalfClose, 0) else k1;
    if c1.halfClosed && c1.pending == [] {
      CloseFins(k1, HalfClose, 0, id, mark);
    }
    ReceiveKeeps(c1, k2, t.attempts, 0);
    var (c3, k3, gone) := Receive(c1, k2, t.attempts, 0);
    LaterFins(k2, k3, id, mark);
    CloseFins(k3, AppGone, |c3.pending|, id, mark);
    var k4 := if gone then CloseSocket(k3, AppGone, |c3.pending|) else k3;
    CloseFins(k4, PeerClosed, |c3.pending|, id, mark);
  }

  /** What the closes of a pass record, and that the socket never holds more than it was given. */
  lemma ServeCounts(c: Conn, k: Socket, t: Turn)
    requires k.TcpSocket?
    ensures var k' := Serve(c, k, t).1;
      && k.fins <= k'.fins && k'.accepted <= k.accepted + c.pending
      && forall j :: |k.fins| <= j < |k'.fins| ==> k'.fins[j].accepted == |k'.accepted|
  {
    var (c1, k1) := Flush(c, k, t);
    FlushPrefix(c, k, t);
    var k2 := if c1.halfClosed && c1.pending == [] then CloseSocket(k1, HalfClose, 0) else k1;
    MayClose(k1, k1, HalfClose, 0);
    ReceiveKeeps(c1, k2, t.attempts, 0);
    var (c3, k3, gone) := Receive(c1, k2, t.attempts, 0);
    MayClose(k1, k3, AppGone, |c3.pending|);
    MayClose(k1, if gone then CloseSocket(k3, AppGone, |c3.pending|) else k3, PeerClosed, |c3.pending|);
  }

  /** The socket took nothing more, and every new close records as much as it has taken. */
  predicate Recorded(k: Socket, k': Socket)
    requires k.TcpSocket? && k'.TcpSocket?
  {
    && k'.accepted == k.accepted && k.fins <= k'.fins
    && forall j :: |k.fins| <= j < |k'.fins| ==> k'.fins[j].accepted == |k.accepted|
  }

  lemma MayClose(k: Socket, k': Socket, cause: Cause, pending: nat)
    requires k.TcpSocket? && k'.TcpSocket? && Recorded(k, k')
    ensures Recorded(k, CloseSocket(k', cause, pending))
  {
  }

  lemma FlushPrefix(c: Conn, k: Socket, t: Turn)
    requires k.TcpSocket?
    ensures var (c1, k1) := Flush(c, k, t); k1.TcpSocket? && k1.fins == k.fins && k1.accepted <= k.accepted + c.pending
  {
  }

  lemma PassClosesOk(s: Stack, id: nat, t: Turn, l: seq<DataIn>, g: Ledger)
    requires ConnFlows(s, id, l, g)
    ensures var c := s.tcp[id]; var k := s.sockets[c.handle]; ClosesOk(NewCloses(id, k, Serve(c, k, t).1), g)
  {
    var c, k := s.tcp[id], s.sockets[s.tcp[id].handle];
    var k' := Serve(c, k, t).1;
    ServeCounts(c, k, t);
    ServeFins(c, k, t, id, g.mark);
    assert k.accepted + c.pending <= Sent(g, id);
    var cs := NewCloses(id, k, k');
    forall j | 0 <= j < |cs| ensures CloseOk(cs[j], g) {
      assert FinOk(k'.fins[|k.fins| + j], id, k', g.mark);
    }
  }

  lemma ServeFlows(c: Conn, k: Socket, t: Turn, id: nat, l: seq<DataIn>, g: Ledger, limit: nat)
    requires k.TcpSocket? && FlowOk(c, k, id, l, g, limit)
    requires Serve(c, k, t).2 == TimeWait ==> c.pending == []
    ensures var (c', k', _) := Serve(c, k, t); k'.TcpSocket? && FlowOk(c', k', id, l, g, limit)
  {
    ServeKeeps(c, k, t);
    ServeFins(c, k, t, id, g.mark);
    var (c', k', _) := Serve(c, k, t);
    assert |k'.accepted + c'.pending| == |k.accepted + c.pending|;
  }

  /** Nothing was ever sent to a connection that was not handed out. */
  lemma UnheardOf(s: Stack, id: nat, l: seq<DataIn>, g: Ledger)
    requires ConnFlows(s, id, l, g) && Known(s, l, g) && id !in s.handed
    ensures s.tcp[id].pending == []
  {
    assert Sent(g, id) == [];
    assert |s.sockets[s.tcp[id].handle].accepted + s.tcp[id].pending + For(l, id)| == 0;
  }

  lemma SameFlows(s: Stack, s': Stack, i: nat, l: seq<DataIn>, g: Ledger)
    requires ConnFlows(s, i, l, g) && s'.limit == s.limit
    requires i in s'.tcp && s'.tcp[i] == s.tcp[i]
    requires s.tcp[i].handle in s'.sockets && s'.sockets[s.tcp[i].handle] == s.sockets[s.tcp[i].handle]
    ensures ConnFlows(s', i, l, g)
  {
  }

  lemma OtherHandle(s: Stack, id: nat, i: nat)
    requires Owned(s) && id in s.tcp && i in s.tcp && i != id
    ensures s.tcp[i].handle != s.tcp[id].handle
  {
  }

  lemma ReplacedFlows(s: Stack, s': Stack, id: nat, c: Conn, k: Socket, l: seq<DataIn>, g: Ledger, i: nat)
    requires Owned(s) && id in s.tcp && c.handle == s.tcp[id].handle
    requires k.TcpSocket? && FlowOk(c, k, id, l, g, s.limit)
    requires s'.tcp == s.tcp[id := c] && s'.sockets == s.sockets[c.handle := k] && s'.limit == s.limit
    requires i in s.tcp && ConnFlows(s, i, l, g)
    ensures ConnFlows(s', i, l, g)
  {
    if i != id {
      OtherHandle(s, id, i);
      SameFlows(s, s', i, l, g);
    }
  }

  lemma ReplaceFlows(s: Stack, s': Stack, id: nat, c: Conn, k: Socket, l: seq<DataIn>, g: Ledger)
    requires Owned(s) && Flows(s, l, g) && id in s.tcp && c.handle == s.tcp[id].handle
    requires k.TcpSocket? && FlowOk(c, k, id, l, g, s.limit)
    requires s'.tcp == s.tcp[id := c] && s'.sockets == s.sockets[c.handle := k] && s'.limit == s.limit
    ensures Flows(s', l, g)
  {
    forall i | i in s'.tcp ensures ConnFlows(s', i, l, g) {
      assert ConnFlows(s, i, l, g);
      ReplacedFlows(s, s', id, c, k, l, g, i);
    }
  }

  lemma RemoveFlows(s: Stack, s': Stack, id: nat, l: seq<DataIn>, g: Ledger)
    requires Owned(s) && Flows(s, l, g) && id in s.tcp && s'.limit == s.limit
    requires s'.tcp == s.tcp - {id} && s'.sockets == s.sockets - {s.tcp[id].handle}
    ensures Flows(s', l, g)
  {
    forall i | i in s'.tcp ensures ConnFlows(s', i, l, g) {
      OtherHandle(s, id, i);
      SameFlows(s, s', i, l, g);
    }
  }

  /** The connection and the socket that a pass leaves behind, unless it removes them. */
  lemma WorkConn(s: Stack, id: nat, t: Turn, l: seq<DataIn>, g: Ledger)
    requires ConnFlows(s, id, l, g) && (s.tcp[id].established || s.tcp[id].pending == [])
    ensures var c := s.tcp[id];
      var (c', k', p) := Serve(c, s.sockets[c.handle], t);
      && c'.handle == c.handle && c'.established == c.established
      && k'.TcpSocket? && (!(Dead(p) && c'.established) ==> FlowOk(c', k', id, l, g, s.limit))
  {
    var c, k := s.tcp[id], s.sockets[s.tcp[id].handle];
    ServeKeeps(c, k, t);
    if !(Dead(Serve(c, k, t).2) && c.established) {
      ServeFlows(c, k, t, id, l, g, s.limit);
    }
  }

  lemma WorkRemoves(s: Stack, id: nat, t: Turn)
    requires Mapped(s, id)
    ensures var c := s.tcp[id];
      var (c', k', p) := Serve(c, s.sockets[c.handle], t);
      Dead(p) && c'.established && c'.handle == c.handle ==>
        && Work(s, id, t).tcp == s.tcp - {id} && Work(s, id, t).sockets == s.sockets - {c.handle}
        && Work(s, id, t).limit == s.limit
  {
  }

  lemma WorkFlows(s: Stack, id: nat, t: Turn, l: seq<DataIn>, g: Ledger)
    requires Owned(s) && id in s.tcp && Flows(s, l, g)
    requires s.tcp[id].established || s.tcp[id].pending == []
    ensures Flows(Work(s, id, t), l, g)
  {
    assert ConnFlows(s, id, l, g);
    WorkConn(s, id, t, l, g);
    var (c', k', p) := Serve(s.tcp[id], s.sockets[s.tcp[id].handle], t);
    if Dead(p) && c'.established {
      WorkRemoves(s, id, t);
      RemoveFlows(s, Work(s, id, t), id, l, g);
    } else {
      ReplaceFlows(s, Work(s, id, t), id, c', k', l, g);
    }
  }

  lemma GreetShape(s: Stack, id: nat)
    requires Mapped(s, id)
    ensures var c, k := s.tcp[id], s.sockets[s.tcp[id].handle];
      var s' := Greet(s, id);
      if !c.established && k.phase == Established then
        s'.tcp == s.tcp[id := c.(established := true, resp := None)]
        && s'.sockets == s.sockets[c.handle := k] && s'.limit == s.limit
      else s' == s
  {
  }

  lemma GreetFlows(s: Stack, id: nat, l: seq<DataIn>, g: Ledger)
    requires Owned(s) && id in s.tcp && Flows(s, l, g)
    ensures Flows(Greet(s, id), l, g)
  {
    var c, k := s.tcp[id], s.sockets[s.tcp[id].handle];
    GreetShape(s, id);
    if !c.established && k.phase == Established {
      assert FlowOk(c.(established := true, resp := None), k, id, l, g, s.limit) by {
        assert ConnFlows(s, id, l, g);
        RepliedFlows(c, k, id, l, g, s.limit);
      }
      ReplaceFlows(s, Greet(s, id), id, c.(established := true, resp := None), k, l, g);
    }
  }

  lemma RepliedFlows(c: Conn, k: Socket, id: nat, l: seq<DataIn>, g: Ledger, limit: nat)
    requires k.TcpSocket? && FlowOk(c, k, id, l, g, limit)
    ensures FlowOk(c.(established := true, resp := None), k, id, l, g, limit)
  {
  }

  lemma RefuseFlows(s: Stack, id: nat, l: seq<DataIn>, g: Ledger)
    requires Owned(s) && id in s.tcp && Flows(s, l, g)
    ensures Flows(Refuse(s, id), l, g)
  {
    RemoveFlows(s, Refuse(s, id), id, l, g);
  }

  lemma GreetReplies(s: Stack, id: nat, openers: nat, homes: map<nat, nat>)
    requires Mapped(s, id) && Replies(s, openers, homes)
    ensures Replies(Greet(s, id), openers, homes)
  {
    var s' := Greet(s, id);
    forall o: nat ensures AnswerOk(s', o, openers, homes) {
      assert AnswerOk(s, o, openers, homes);
    }
  }

  lemma RefuseReplies(s: Stack, id: nat, openers: nat, homes: map<nat, nat>)
    requires id in s.tcp && Replies(s, openers, homes)
    ensures Replies(Refuse(s, id), openers, homes)
  {
    var s' := Refuse(s, id);
    forall o: nat ensures AnswerOk(s', o, openers, homes) {
      assert AnswerOk(s, o, openers, homes);
    }
  }

  lemma WorkReplies(s: Stack, id: nat, t: Turn, openers: nat, homes: map<nat, nat>)
    requires Mapped(s, id) && Replies(s, openers, homes)
    ensures Replies(Work(s, id, t), openers, homes)
  {
    ServeKeeps(s.tcp[id], s.sockets[s.tcp[id].handle], t);
    var s' := Work(s, id, t);
    forall o: nat ensures AnswerOk(s', o, openers, homes) {
      assert AnswerOk(s, o, openers, homes);
    }
  }

  /** What every step keeps, `l` being what is still queued. */
  ghost predicate Good(s: Stack, l: seq<DataIn>, g: Ledger, openers: nat, homes: map<nat, nat>)
  {
    Owned(s) && Flows(s, l, g) && Replies(s, openers, homes) && Known(s, l, g)
  }

  lemma GreetGood(s: Stack, id: nat, l: seq<DataIn>, g: Ledger, openers: nat, homes: map<nat, nat>)
    requires Good(s, l, g, openers, homes) && id in s.tcp
    ensures Good(Greet(s, id), l, g, openers, homes) && id in Greet(s, id).tcp && Greet(s, id).nextPort == s.nextPort
  {
    GreetOwned(s, id);
    GreetFlows(s, id, l, g);
    GreetReplies(s, id, openers, homes);
    GreetKnown(s, id, l, g);
  }

  lemma RefuseGood(s: Stack, id: nat, l: seq<DataIn>, g: Ledger, openers: nat, homes: map<nat, nat>)
    requires Good(s, l, g, openers, homes) && id in s.tcp
    ensures Good(Refuse(s, id), l, g, openers, homes) && Refuse(s, id).nextPort == s.nextPort
  {
    RefuseOwned(s, id);
    RefuseFlows(s, id, l, g);
    RefuseReplies(s, id, openers, homes);
  }

  lemma WorkGood(s: Stack, id: nat, t: Turn, l: seq<DataIn>, g: Ledger, openers: nat, homes: map<nat, nat>)
    requires Good(s, l, g, openers, homes) && id in s.tcp
    ensures Good(Work(s, id, t), l, g, openers, homes) && Work(s, id, t).nextPort == s.nextPort
  {
    if !s.tcp[id].established {
      assert ReplyOk(s.tcp[id], id, s.handed, openers, homes);
      UnheardOf(s, id, l, g);
    }
    WorkOwned(s, id, t);
    WorkFlows(s, id, t, l, g);
    WorkReplies(s, id, t, openers, homes);
    WorkKnown(s, id, t, l, g);
  }

  lemma ServiceOneKeeps(s: Stack, id: nat, t: Turn, l: seq<DataIn>, g: Ledger, openers: nat, homes: map<nat, nat>)
    requires Good(s, l, g, openers, homes)
    ensures Good(ServiceOne(s, id, t), l, g, openers, homes) && ServiceOne(s, id, t).nextPort == s.nextPort
  {
    if id in s.tcp {
      GreetGood(s, id, l, g, openers, homes);
      var s1 := Greet(s, id);
      if !s1.tcp[id].established && Dead(s1.sockets[s1.tcp[id].handle].phase) {
        RefuseGood(s1, id, l, g, openers, homes);
      } else {
        WorkGood(s1, id, t, l, g, openers, homes);
      }
    }
  }

  lemma WorkKnown(s: Stack, id: nat, t: Turn, l: seq<DataIn>, g: Ledger)
    requires Mapped(s, id) && Known(s, l, g)
    ensures Known(Work(s, id, t), l, g)
  {
    assert Work(s, id, t).handed == s.handed && Work(s, id, t).nextId == s.nextId;
  }

  lemma GreetKnown(s: Stack, id: nat, l: seq<DataIn>, g: Ledger)
    requires Owned(s) && id in s.tcp && Known(s, l, g)
    ensures Known(Greet(s, id), l, g)
  {
  }

  lemma ServiceOneCloses(s: Stack, id: nat, t: Turn, l: seq<DataIn>, g: Ledger, openers: nat, homes: map<nat, nat>)
    requires Good(s, l, g, openers, homes)
    ensures ClosesOk(PassCloses(s, id, t), g)
  {
    if id in s.tcp {
      GreetGood(s, id, l, g, openers, homes);
      assert ConnFlows(Greet(s, id), id, l, g);
      PassClosesOk(Greet(s, id), id, t, l, g);
    }
  }

  lemma {:induction false} ServiceClosesOk(s: Stack, ids: seq<nat>, turns: map<nat, Turn>, l: seq<DataIn>, g: Ledger,
                                          openers: nat, homes: map<nat, nat>)
    requires Good(s, l, g, openers, homes)
    ensures ClosesOk(ServiceCloses(s, ids, turns), g)
    decreases |ids|
  {
    if ids != [] {
      var t := TurnOf(turns, ids[0]);
      ServiceOneCloses(s, ids[0], t, l, g, openers, homes);
      ServiceOneKeeps(s, ids[0], t, l, g, openers, homes);
      ServiceClosesOk(ServiceOne(s, ids[0], t), ids[1..], turns, l, g, openers, homes);
    }
  }

  lemma {:induction false} ServiceKeeps(s: Stack, ids: seq<nat>, turns: map<nat, Turn>, l: seq<DataIn>, g: Ledger,
                                       openers: nat, homes: map<nat, nat>)
    requires Good(s, l, g, openers, homes)
    ensures Good(Service(s, ids, turns), l, g, openers, homes) && Service(s, ids, turns).nextPort == s.nextPort
    decreases |ids|
  {
    if ids != [] {
      ServiceOneKeeps(s, ids[0], TurnOf(turns, ids[0]), l, g, openers, homes);
      ServiceKeeps(ServiceOne(s, ids[0], TurnOf(turns, ids[0])), ids[1..], turns, l, g, openers, homes);
    }
  }

  // ---------------------------------------------------------------- the other steps

  lemma {:induction false} NothingFor(l: seq<DataIn>, id: nat, base: nat, mark: map<nat, nat>, handed: set<nat>)
    requires id !in handed && forall j :: 0 <= j < |l| ==> Handed(l[j], handed)
    ensures For(l, id) == [] && Closes(l, id, base, mark)
  {
    if l != [] {
      assert Handed(l[0], handed);
      NothingFor(l[1..], id, base, mark, handed);
    }
  }

  lemma NewConnFlows(s: Stack, cmd: Cmd, l: seq<DataIn>, g: Ledger)
    requires Owned(s) && Known(s, l, g) && cmd.OpenTcp? && cmd.connects
    ensures ConnFlows(HandleCmd(s, cmd), s.nextId, l, g)
  {
    var s', id := HandleCmd(s, cmd), s.nextId;
    NothingFor(l, id, 0, g.mark, s.handed);
    NewFlows(s'.tcp[id], s'.sockets[cmd.handle], id, l, g, s.limit);
  }

  /** A command leaves every connection there is, and its socket, alone. */
  lemma CommandFrame(s: Stack, cmd: Cmd, id: nat)
    requires Owned(s) && HandleFree(s, cmd) && id in s.tcp
    ensures var s', h := HandleCmd(s, cmd), s.tcp[id].handle;
      && id in s'.tcp && s'.tcp[id] == s.tcp[id] && h in s'.sockets && s'.sockets[h] == s.sockets[h]
      && s'.limit == s.limit
  {
  }

  lemma CommandAdds(s: Stack, cmd: Cmd, id: nat)
    requires id in HandleCmd(s, cmd).tcp && id !in s.tcp
    ensures cmd.OpenTcp? && cmd.connects && id == s.nextId
  {
  }

  lemma CommandFlows(s: Stack, cmd: Cmd, l: seq<DataIn>, g: Ledger)
    requires Owned(s) && Flows(s, l, g) && Known(s, l, g) && HandleFree(s, cmd)
    ensures Flows(HandleCmd(s, cmd), l, g)
  {
    var s' := HandleCmd(s, cmd);
    forall id | id in s'.tcp ensures ConnFlows(s', id, l, g) {
      if id in s.tcp {
        assert ConnFlows(s, id, l, g);
        CommandFrame(s, cmd, id);
        SameFlows(s, s', id, l, g);
      } else {
        CommandAdds(s, cmd, id);
        NewConnFlows(s, cmd, l, g);
      }
    }
  }

  lemma NewFlows(c: Conn, k: Socket, id: nat, l: seq<DataIn>, g: Ledger, limit: nat)
    requires k.TcpSocket? && k.accepted == [] && k.rx == [] && k.received == [] && k.fins == []
    requires c.pending == [] && c.toApp == [] && !c.halfClosed
    requires id !in g.sent && For(l, id) == [] && Closes(l, id, 0, g.mark)
    ensures FlowOk(c, k, id, l, g, limit)
  {
  }

  lemma CommandKeeps(w: World, cmd: Cmd)
    requires Invariant(w) && Enabled(w, Commands(cmd))
    ensures Invariant(Apply(w, Commands(cmd)))
  {
    HandleCmdOwned(w.stack, cmd);
    CommandFlows(w.stack, cmd, w.deferred + w.queue, w.ledger);
    CommandReplies(w, cmd);
  }

  lemma CommandAnswers(w: World, cmd: Cmd, o: nat)
    requires Owned(w.stack) && Enabled(w, Commands(cmd))
    requires AnswerOk(w.stack, o, w.openers, w.homes)
    requires forall p :: p in w.homes ==> p < w.openers && w.homes[p] < w.stack.nextId
    ensures var w' := Apply(w, Commands(cmd)); AnswerOk(w'.stack, o, w'.openers, w'.homes)
  {
  }

  lemma CommandReplyOk(w: World, cmd: Cmd, id: nat)
    requires Owned(w.stack) && Replies(w.stack, w.openers, w.homes) && Enabled(w, Commands(cmd))
    requires id in HandleCmd(w.stack, cmd).tcp
    requires forall id :: id in w.stack.handed ==> id < w.stack.nextId
    ensures var w' := Apply(w, Commands(cmd)); ReplyOk(w'.stack.tcp[id], id, w'.stack.handed, w'.openers, w'.homes)
  {
    if id in w.stack.tcp {
      assert ReplyOk(w.stack.tcp[id], id, w.stack.handed, w.openers, w.homes);
    }
  }

  lemma CommandReplies(w: World, cmd: Cmd)
    requires Owned(w.stack) && Replies(w.stack, w.openers, w.homes) && Enabled(w, Commands(cmd))
    requires forall id :: id in w.stack.handed ==> id < w.stack.nextId
    ensures var w' := Apply(w, Commands(cmd)); Replies(w'.stack, w'.openers, w'.homes)
  {
    var w' := Apply(w, Commands(cmd));
    forall o: nat ensures AnswerOk(w'.stack, o, w'.openers, w'.homes) {
      assert AnswerOk(w.stack, o, w.openers, w.homes);
      CommandAnswers(w, cmd, o);
    }
    forall id | id in w'.stack.tcp ensures ReplyOk(w'.stack.tcp[id], id, w'.stack.handed, w'.openers, w'.homes) {
      CommandReplyOk(w, cmd, id);
    }
  }

  lemma PollKeeps(w: World, arrivals: map<nat, Arrival>)
    requires Invariant(w)
    ensures Invariant(Apply(w, Polls(arrivals)))
  {
    var w' := Apply(w, Polls(arrivals));
    var s, s', l := w.stack, w'.stack, w.deferred + w.queue;
    PollOwned(s, arrivals);
    forall id | id in s'.tcp ensures ConnFlows(s', id, l, w.ledger) {
      assert ConnFlows(s, id, l, w.ledger);
      PollFlows(s.tcp[id], s.sockets[s.tcp[id].handle], s'.sockets[s.tcp[id].handle], id, l, w.ledger, s.limit);
    }
    forall o: nat ensures AnswerOk(s', o, w.openers, w.homes) {
      assert AnswerOk(s, o, w.openers, w.homes);
    }
  }

  lemma PollFlows(c: Conn, k: Socket, k': Socket, id: nat, l: seq<DataIn>, g: Ledger, limit: nat)
    requires k.TcpSocket? && FlowOk(c, k, id, l, g, limit)
    requires k' == k || exists a :: k' == PollSocket(k, a)
    ensures k'.TcpSocket? && FlowOk(c, k', id, l, g, limit)
  {
    if k' != k {
      var a :| k' == PollSocket(k, a);
      assert c.toApp + (k.rx + a.bytes) == (c.toApp + k.rx) + a.bytes;
      LaterFins(k, k', id, g.mark);
    }
  }

  /** The app queues one more item: data, a close, or something for a UDP socket. */
  lemma QueueKeeps(w: World, w': World, d: DataIn)
    requires Invariant(w) && |w.queue| < w.depth
    requires w' == w.(queue := w.queue + [d], ledger := w'.ledger)
    requires Handed(d, w.stack.handed)
    requires w'.ledger.sent.Keys <= w.stack.handed && w'.ledger.mark.Keys <= w.stack.handed
    requires Extends(w.ledger, w'.ledger, d)
    ensures Invariant(w')
  {
    var s, l, g, g' := w.stack, w.deferred + w.queue, w.ledger, w'.ledger;
    Assoc(w.deferred, w.queue, [d]);
    QueueAllFlows(s, l, d, g, g');
    QueueKnown(s, l, d, g, g');
    QueueCloses(w.closes, d, g, g');
  }

  /** The ledger after the app queued `d`. */
  ghost predicate Extends(g: Ledger, g': Ledger, d: DataIn)
  {
    && (forall id :: Sent(g', id) == Sent(g, id) + Piece(d, id))
    && (forall id :: id in g.mark ==> id in g'.mark && g'.mark[id] == g.mark[id])
    && (forall id :: id in g'.mark ==> g'.mark[id] <= |Sent(g, id)|)
    && (d.TcpClose? ==> d.id in g'.mark)
  }

  lemma QueueAllFlows(s: Stack, l: seq<DataIn>, d: DataIn, g: Ledger, g': Ledger)
    requires Flows(s, l, g) && Extends(g, g', d)
    ensures Flows(s, l + [d], g')
  {
    forall id | id in s.tcp ensures ConnFlows(s, id, l + [d], g') {
      assert ConnFlows(s, id, l, g);
      QueueFlows(s.tcp[id], s.sockets[s.tcp[id].handle], id, l, d, g, g', s.limit);
    }
  }

  lemma QueueKnown(s: Stack, l: seq<DataIn>, d: DataIn, g: Ledger, g': Ledger)
    requires Known(s, l, g) && Extends(g, g', d) && Handed(d, s.handed)
    requires g'.sent.Keys <= s.handed && g'.mark.Keys <= s.handed
    ensures Known(s, l + [d], g')
  {
    forall id | id in g'.mark ensures g'.mark[id] <= |Sent(g', id)| {
      assert Sent(g', id) == Sent(g, id) + Piece(d, id);
    }
  }

  lemma QueueCloses(cs: seq<Close>, d: DataIn, g: Ledger, g': Ledger)
    requires ClosesOk(cs, g) && Extends(g, g', d)
    ensures ClosesOk(cs, g')
  {
    forall j | 0 <= j < |cs| ensures CloseOk(cs[j], g') {
      assert CloseOk(cs[j], g);
      assert Sent(g', cs[j].id) == Sent(g, cs[j].id) + Piece(d, cs[j].id);
    }
  }

  lemma QueueFlows(c: Conn, k: Socket, id: nat, l: seq<DataIn>, d: DataIn, g: Ledger, g': Ledger, limit: nat)
    requires k.TcpSocket? && FlowOk(c, k, id, l, g, limit)
    requires Sent(g', id) == Sent(g, id) + Piece(d, id)
    requires id in g.mark ==> id in g'.mark && g'.mark[id] == g.mark[id]
    requires id in g'.mark ==> g'.mark[id] <= |Sent(g, id)|
    requires d == TcpClose(id) ==> id in g'.mark
    ensures FlowOk(c, k, id, l + [d], g', limit)
  {
    ForAppend(l, [d], id);
    assert For([d], id) == Piece(d, id) by { assert [d][1..] == []; }
    assert |Sent(g, id)| == |k.accepted| + |c.pending| + |For(l, id)|;
    ClosesAppend(l, d, id, |k.accepted| + |c.pending|, g.mark, g'.mark);
    assert k.accepted + c.pending + (For(l, id) + Piece(d, id)) == (k.accepted + c.pending + For(l, id)) + Piece(d, id);
    forall j | 0 <= j < |k.fins| ensures FinOk(k.fins[j], id, k, g'.mark) {
      assert FinOk(k.fins[j], id, k, g.mark);
    }
  }

  lemma ApplyKeeps(w: World, e: Event)
    requires Invariant(w) && Enabled(w, e)
    ensures Invariant(Apply(w, e))
  {
    match e
    case AppSends(id, data) => QueueKeeps(w, Apply(w, e), Tcp(id, data));
    case AppCloses(id) => QueueKeeps(w, Apply(w, e), TcpClose(id));
    case AppUdp(item) => QueueKeeps(w, Apply(w, e), item);
    case Commands(cmd) => CommandKeeps(w, cmd);
    case Polls(arrivals) => PollKeeps(w, arrivals);
    case Services(ids, turns) =>
      ServiceKeeps(w.stack, ids, turns, w.deferred + w.queue, w.ledger, w.openers, w.homes);
      ServiceClosesOk(w.stack, ids, turns, w.deferred + w.queue, w.ledger, w.openers, w.homes);
    case Retries => RetryKeeps(w.stack, w.deferred, w.queue, w.ledger, w.openers, w.homes);
    case Ingests =>
      assert w.deferred + w.queue == w.queue;
      IngestKeeps(w.stack, w.queue, w.ledger, w.openers, w.homes);
  }

  // ---------------------------------------------------------------- whole runs

  predicate Runs(w: World, events: seq<Event>)
    decreases |events|
  {
    events == [] || (Enabled(w, events[0]) && Runs(Apply(w, events[0]), events[1..]))
  }

  function After(w: World, events: seq<Event>): World
    requires Runs(w, events)
    decreases |events|
  {
    if events == [] then w else After(Apply(w, events[0]), events[1..])
  }

  lemma {:induction false} RunInvariant(w: World, events: seq<Event>)
    requires Invariant(w) && Runs(w, events)
    ensures Invariant(After(w, events)) && After(w, events).stack.limit == w.stack.limit
    decreases |events|
  {
    if events != [] {
      ApplyKeeps(w, events[0]);
      SameLimit(w, events[0]);
      RunInvariant(Apply(w, events[0]), events[1..]);
    }
  }

  /**
    Conservation. While a connection is in the table, what its socket accepted, what is pending,
    what is deferred and what is still queued for it are, in this order, exactly what the app sent;
    what the app was given and what the socket still holds are exactly what the socket received.
   */
  lemma StreamsConserved(tcpBuf: nat, depth: nat, events: seq<Event>, id: nat)
    requires Runs(Start(tcpBuf, depth), events) && id in After(Start(tcpBuf, depth), events).stack.tcp
    ensures var w := After(Start(tcpBuf, depth), events); var c := w.stack.tcp[id];
      && Mapped(w.stack, id)
      && var k := w.stack.sockets[c.handle];
      && k.accepted + c.pending + For(w.deferred, id) + For(w.queue, id) == Sent(w.ledger, id)
      && c.toApp + k.rx == k.received
      && |c.pending| <= MaxPending(tcpBuf) && |w.deferred| <= 1
  {
    Reached(tcpBuf, depth, events);
    var w := After(Start(tcpBuf, depth), events);
    FlowsInOrder(w.stack, id, w.deferred, w.queue, w.ledger);
  }

  lemma Reached(tcpBuf: nat, depth: nat, events: seq<Event>)
    requires Runs(Start(tcpBuf, depth), events)
    ensures var w := After(Start(tcpBuf, depth), events);
      && Owned(w.stack) && Flows(w.stack, w.deferred + w.queue, w.ledger) && |w.deferred| <= 1
      && w.stack.limit == MaxPending(tcpBuf)
  {
    StartInvariant(tcpBuf, depth);
    RunInvariant(Start(tcpBuf, depth), events);
  }

  lemma FlowsInOrder(s: Stack, id: nat, deferred: seq<DataIn>, queue: seq<DataIn>, g: Ledger)
    requires Flows(s, deferred + queue, g) && id in s.tcp
    ensures Mapped(s, id) && |s.tcp[id].pending| <= s.limit
    ensures var c := s.tcp[id]; var k := s.sockets[c.handle];
      && k.accepted + c.pending + For(deferred, id) + For(queue, id) == Sent(g, id)
      && c.toApp + k.rx == k.received
  {
    assert ConnFlows(s, id, deferred + queue, g);
    ForAppend(deferred, queue, id);
    var c, k := s.tcp[id], s.sockets[s.tcp[id].handle];
    Assoc(k.accepted + c.pending, For(deferred, id), For(queue, id));
  }

  /**
    A half-close never overtakes data: whenever `close` was called on that path, even in the pass
    that removed the connection, nothing was pending and the socket had accepted every byte the app
    sent before its first close.
   */
  lemma CloseAfterData(tcpBuf: nat, depth: nat, events: seq<Event>, j: nat)
    requires Runs(Start(tcpBuf, depth), events)
    requires var w := After(Start(tcpBuf, depth), events); j < |w.closes| && w.closes[j].fin.cause == HalfClose
    ensures var w := After(Start(tcpBuf, depth), events); var c := w.closes[j];
      && c.fin.pending == 0 && c.id in w.ledger.mark
      && var n := w.ledger.mark[c.id];
      && n <= c.fin.accepted == |c.accepted| && n <= |Sent(w.ledger, c.id)|
      && c.accepted[..n] == Sent(w.ledger, c.id)[..n]
  {
    StartInvariant(tcpBuf, depth);
    RunInvariant(Start(tcpBuf, depth), events);
    var w := After(Start(tcpBuf, depth), events);
    assert CloseOk(w.closes[j], w.ledger);
  }

  /** For a connection still in the table its socket shows the same. */
  lemma LiveCloseAfterData(tcpBuf: nat, depth: nat, events: seq<Event>, id: nat, j: nat)
    requires Runs(Start(tcpBuf, depth), events)
    requires var s := After(Start(tcpBuf, depth), events).stack;
      Mapped(s, id) && j < |s.sockets[s.tcp[id].handle].fins|
      && s.sockets[s.tcp[id].handle].fins[j].cause == HalfClose
    ensures var w := After(Start(tcpBuf, depth), events); var k := w.stack.sockets[w.stack.tcp[id].handle];
      && k.fins[j].pending == 0
      && id in w.ledger.mark
      && w.ledger.mark[id] <= k.fins[j].accepted <= |k.accepted|
      && w.ledger.mark[id] <= |Sent(w.ledger, id)|
      && k.accepted[..w.ledger.mark[id]] == Sent(w.ledger, id)[..w.ledger.mark[id]]
  {
    StartInvariant(tcpBuf, depth);
    RunInvariant(Start(tcpBuf, depth), events);
    var w := After(Start(tcpBuf, depth), events);
    var c := w.stack.tcp[id];
    var k := w.stack.sockets[c.handle];
    assert ConnFlows(w.stack, id, w.deferred + w.queue, w.ledger);
    assert FinOk(k.fins[j], id, k, w.ledger.mark);
    assert k.accepted <= Sent(w.ledger, id);
  }

  /** The socket set belongs to the tables, and ports stay in the ephemeral range. */
  lemma SocketsOwned(tcpBuf: nat, depth: nat, events: seq<Event>)
    requires Runs(Start(tcpBuf, depth), events)
    ensures var s := After(Start(tcpBuf, depth), events).stack;
      && s.sockets.Keys == TcpHandles(s) + UdpHandles(s) && TcpHandles(s) !! UdpHandles(s)
      && (forall a, b :: a in s.tcp && b in s.tcp && s.tcp[a].handle == s.tcp[b].handle ==> a == b)
      && (forall a, b :: a in s.udp && b in s.udp && s.udp[a] == s.udp[b] ==> a == b)
      && FIRST_PORT <= s.nextPort <= LAST_PORT
  {
    StartInvariant(tcpBuf, depth);
    RunInvariant(Start(tcpBuf, depth), events);
    HandlesPartition(After(Start(tcpBuf, depth), events).stack);
  }

  /**
    Every opener is answered at most once; one not answered yet waits in the entry of its own
    connection, which is not established. So an entry is never removed before its opener knows.
   */
  lemma OpenersAnsweredOnce(tcpBuf: nat, depth: nat, events: seq<Event>, o: nat)
    requires Runs(Start(tcpBuf, depth), events)
    ensures var w := After(Start(tcpBuf, depth), events);
      && w.stack.answers[o] <= 1
      && (o < w.openers ==>
            (w.stack.answers[o] == 0 <==> o in w.homes && Waits(w.stack, w.homes[o], o)))
      && (forall id :: Waits(w.stack, id, o) ==> o in w.homes && w.homes[o] == id)
      && (forall id :: id in w.stack.tcp ==> (w.stack.tcp[id].resp.Some? <==> !w.stack.tcp[id].established))
  {
    StartInvariant(tcpBuf, depth);
    RunInvariant(Start(tcpBuf, depth), events);
    var w := After(Start(tcpBuf, depth), events);
    assert AnswerOk(w.stack, o, w.openers, w.homes);
  }

  // ---------------------------------------------------------------- ids are never reused

  predicate Retired(s: Stack, id: nat)
  {
    id < s.nextId && id !in s.tcp && id !in s.udp
  }

  /** Connections only go; UDP entries, the next id and the limit stay. */
  predicate Shrinks(s: Stack, s': Stack)
  {
    s'.tcp.Keys <= s.tcp.Keys && s'.udp == s.udp && s'.nextId == s.nextId && s'.limit == s.limit
  }

  lemma GreetFrame(s: Stack, id: nat)
    requires Mapped(s, id)
    ensures Shrinks(s, Greet(s, id)) && Mapped(Greet(s, id), id)
  {
  }

  lemma WorkFrame(s: Stack, id: nat, t: Turn)
    requires Mapped(s, id)
    ensures Shrinks(s, Work(s, id, t)) && Shrinks(s, Refuse(s, id))
  {
  }

  lemma ServiceOneFrame(s: Stack, id: nat, t: Turn)
    ensures Shrinks(s, ServiceOne(s, id, t))
  {
    if Mapped(s, id) {
      GreetFrame(s, id);
      WorkFrame(Greet(s, id), id, t);
    }
  }

  lemma {:induction false} ServiceFrame(s: Stack, ids: seq<nat>, turns: map<nat, Turn>)
    ensures Shrinks(s, Service(s, ids, turns))
    decreases |ids|
  {
    if ids != [] {
      ServiceOneFrame(s, ids[0], TurnOf(turns, ids[0]));
      ServiceFrame(ServiceOne(s, ids[0], TurnOf(turns, ids[0])), ids[1..], turns);
    }
  }

  lemma {:induction false} IngestFrame(s: Stack, queue: seq<DataIn>)
    ensures var s' := Ingest(s, queue).0;
      s'.tcp.Keys == s.tcp.Keys && s'.udp.Keys <= s.udp.Keys && s'.nextId == s.nextId && s'.limit == s.limit
    decreases |queue|
  {
    if queue != [] {
      IngestFrame(TryHandle(s, queue[0]).0, queue[1..]);
    }
  }

  lemma {:induction false} RetryFrame(s: Stack, deferred: seq<DataIn>)
    ensures var s' := Retry(s, deferred).0;
      s'.tcp.Keys == s.tcp.Keys && s'.udp.Keys <= s.udp.Keys && s'.nextId == s.nextId && s'.limit == s.limit
    decreases |deferred|
  {
    if deferred != [] {
      RetryFrame(TryHandle(s, deferred[0]).0, deferred[1..]);
    }
  }

  lemma SameLimit(w: World, e: Event)
    requires Enabled(w, e)
    ensures Apply(w, e).stack.limit == w.stack.limit
    ensures forall id :: Retired(w.stack, id) ==> Retired(Apply(w, e).stack, id)
  {
    match e
    case Services(ids, turns) => ServiceFrame(w.stack, ids, turns);
    case Retries => RetryFrame(w.stack, w.deferred);
    case Ingests => IngestFrame(w.stack, w.queue);
    case _ =>
  }

  /** An id that left the tables, at whatever point of a run, never enters them again. */
  lemma {:induction false} IdsNeverReused(w: World, events: seq<Event>, id: nat)
    requires Runs(w, events) && Retired(w.stack, id)
    ensures Retired(After(w, events).stack, id)
    decreases |events|
  {
    if events != [] {
      SameLimit(w, events[0]);
      IdsNeverReused(Apply(w, events[0]), events[1..], id);
    }
  }
}
