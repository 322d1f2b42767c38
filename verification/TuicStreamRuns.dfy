/** Whole runs of TUIC streams: nothing is lost, and the FIN comes once, after the last byte. */
module TuicStreamRuns {
  import opened Bytes
  import opened TuicCodec
  import opened TuicStreams

  /** `sent` is the header and all the app sent, per stream; `failed` the streams QUIC refused. */
  datatype World = World(session: Session, sent: map<nat, seq<byte>>, failed: set<nat>)

  datatype Event =
    | Opened(address: Addr, created: bool)
    | AppSends(id: nat, chunk: seq<byte>)
    | AppDrops(id: nat)
    | Pumps(ids: seq<nat>, replies: map<nat, Reply>)
    | RemoteEnds(id: nat)
    | Retains
    | Dissociates(written: bool)

  function Start(limit: nat): World
  {
    World(Session(map[], map[], 0, FIRST_CLIENT_UNI + 4, limit), map[], {})
  }

  predicate Enabled(w: World, e: Event)
  {
    match e
    case Opened(a, _) => Typed(a)
    case AppSends(id, _) => id in w.session.slots && w.session.slots[id].alive
    case AppDrops(id) => id in w.session.slots
    case RemoteEnds(id) => id in w.session.slots
    case _ => true
  }

  function SetSlot(w: World, id: nat, slot: Slot): World
  {
    w.(session := w.session.(slots := w.session.slots[id := slot]))
  }

  function Refusals(ids: seq<nat>, replies: map<nat, Reply>): set<nat>
  {
    set i | 0 <= i < |ids| && ReplyOf(replies, ids[i]).result.Failed? :: ids[i]
  }

  function Apply(w: World, e: Event): World
    requires Enabled(w, e)
  {
    match e
    case Opened(a, created) =>
      w.(session := Open(w.session, a, created),
         sent := if Opens(w.session, a, created) then w.sent[w.session.nextStream := ConnectHeader(a)] else w.sent)
    case AppSends(id, chunk) =>
      var slot := w.session.slots[id];
      SetSlot(w, id, slot.(inbox := slot.inbox + [chunk]))
        .(sent := w.sent[id := (if id in w.sent then w.sent[id] else []) + chunk])
    case AppDrops(id) => SetSlot(w, id, w.session.slots[id].(alive := false))
    case Pumps(ids, replies) =>
      w.(session := PumpOutbound(w.session, ids, replies), failed := w.failed + Refusals(ids, replies))
    case RemoteEnds(id) => SetSlot(w, id, w.session.slots[id].(remoteDone := true))
    case Retains => w.(session := Retain(w.session))
    case Dissociates(written) =>
      if written then w.(session := w.session.(nextUni := (w.session.nextUni + 4) % U64)) else w
  }

  // ---------------------------------------------------------------- the invariant

  predicate SlotOk(slot: Slot, stream: Stream, sent: seq<byte>)
  {
    && stream.accepted + slot.pending + Concat(slot.inbox) == sent
    && (slot.fin ==> !slot.alive && slot.inbox == [])
    && (slot.finSent ==> slot.fin)
    && stream.fins == (if slot.finSent && slot.pending == [] then 1 else 0)
  }

  /** A stream is either served by a slot, or retired with everything accepted and one FIN. */
  predicate StreamOk(s: Session, id: nat, sent: map<nat, seq<byte>>)
    requires id in s.quic
  {
    && id in sent
    && if id in s.slots then SlotOk(s.slots[id], s.quic[id], sent[id])
       else s.quic[id] == Stream(sent[id], 1)
  }

  ghost predicate Flows(s: Session, sent: map<nat, seq<byte>>, failed: set<nat>)
  {
    forall id :: id in s.quic && id !in failed ==> StreamOk(s, id, sent)
  }

  /** Stream ids are the multiples of four below `nextStream`; unidirectional ids never meet them. */
  ghost predicate Numbered(s: Session)
  {
    && s.nextStream % 4 == 0 && s.nextUni % 4 == 2
    && (forall id :: id in s.slots ==> id in s.quic)
    && (forall id :: id in s.quic <==> 0 <= id < s.nextStream && id % 4 == 0)
  }

  ghost predicate Invariant(w: World)
  {
    Numbered(w.session) && Flows(w.session, w.sent, w.failed)
  }

  // ---------------------------------------------------------------- steps

  lemma DrainKeeps(slot: Slot, stream: Stream, sent: seq<byte>)
    requires SlotOk(slot, stream, sent)
    ensures SlotOk(Drain(slot), stream, sent)
  {
    assert stream.accepted + (slot.pending + Concat(slot.inbox)) == stream.accepted + slot.pending + Concat(slot.inbox);
    if slot.inbox == [] {
      assert slot.pending + Concat(slot.inbox) == slot.pending;
    }
  }

  lemma SendKeeps(slot: Slot, stream: Stream, reply: Reply, sent: seq<byte>)
    requires SlotOk(slot, stream, sent) && slot.inbox == [] && Sends(slot, reply.capacity) && !reply.result.Failed?
    ensures var (slot', stream') := Send(slot, stream, reply); SlotOk(slot', stream', sent)
  {
    if reply.result.Wrote? {
      var written := Min(reply.result.n, Min(reply.capacity, |slot.pending|));
      var p := slot.pending;
      assert stream.accepted + p[..written] + p[written..] == stream.accepted + p;
    }
  }

  lemma PumpOneKeeps(s: Session, id: nat, reply: Reply, sent: map<nat, seq<byte>>, failed: set<nat>)
    requires Numbered(s) && Flows(s, sent, failed)
    ensures var s' := PumpOne(s, id, reply);
      Numbered(s') && Flows(s', sent, if reply.result.Failed? then failed + {id} else failed)
      && s'.slots.Keys == s.slots.Keys && s'.nextStream == s.nextStream && s'.nextUni == s.nextUni
  {
    var s' := PumpOne(s, id, reply);
    forall i | i in s'.quic && i !in (if reply.result.Failed? then failed + {id} else failed)
      ensures StreamOk(s', i, sent)
    {
      assert StreamOk(s, i, sent);
      if i == id && id in s.slots {
        DrainKeeps(s.slots[id], s.quic[id], sent[id]);
        var drained := Drain(s.slots[id]);
        if Sends(drained, reply.capacity) {
          SendKeeps(drained, s.quic[id], reply, sent[id]);
        }
      }
    }
  }

  lemma {:induction false} PumpKeeps(s: Session, ids: seq<nat>, replies: map<nat, Reply>,
                                    sent: map<nat, seq<byte>>, failed: set<nat>)
    requires Numbered(s) && Flows(s, sent, failed)
    ensures var s' := PumpOutbound(s, ids, replies);
      Numbered(s') && Flows(s', sent, failed + Refusals(ids, replies))
    decreases |ids|
  {
    if ids == [] {
      assert failed + Refusals(ids, replies) == failed;
    } else {
      var reply := ReplyOf(replies, ids[0]);
      var failed1 := if reply.result.Failed? then failed + {ids[0]} else failed;
      PumpOneKeeps(s, ids[0], reply, sent, failed);
      PumpKeeps(PumpOne(s, ids[0], reply), ids[1..], replies, sent, failed1);
      assert failed1 + Refusals(ids[1..], replies) <= failed + Refusals(ids, replies) by {
        assert reply.result.Failed? ==> ids[0] in Refusals(ids, replies);
        forall x | x in Refusals(ids[1..], replies) ensures x in Refusals(ids, replies) {
          var i :| 0 <= i < |ids[1..]| && ReplyOf(replies, ids[1..][i]).result.Failed? && ids[1..][i] == x;
          assert ids[i + 1] == x;
        }
      }
    }
  }

  lemma AppSendsKeeps(w: World, id: nat, chunk: seq<byte>)
    requires Invariant(w) && Enabled(w, AppSends(id, chunk))
    ensures Invariant(Apply(w, AppSends(id, chunk)))
  {
    var w' := Apply(w, AppSends(id, chunk));
    forall i | i in w'.session.quic && i !in w'.failed ensures StreamOk(w'.session, i, w'.sent) {
      assert StreamOk(w.session, i, w.sent);
      if i == id {
        var slot, stream := w.session.slots[id], w.session.quic[id];
        ConcatSnoc(slot.inbox, chunk);
        assert stream.accepted + slot.pending + (Concat(slot.inbox) + chunk)
            == (stream.accepted + slot.pending + Concat(slot.inbox)) + chunk;
      }
    }
  }

  lemma OpenedNumbered(s: Session, a: Addr, created: bool)
    requires Numbered(s) && Typed(a)
    ensures Numbered(Open(s, a, created))
  {
    if Opens(s, a, created) {
      NextMultiple(s.nextStream);
    }
  }

  lemma NextMultiple(n: nat)
    requires n % 4 == 0
    ensures forall id :: (0 <= id < n + 4 && id % 4 == 0) <==> (id == n || (0 <= id < n && id % 4 == 0))
  {
  }

  /** A new stream owes its header. */
  lemma NewSlot(header: seq<byte>)
    ensures SlotOk(Slot([], true, header, false, false, false), Stream([], 0), header)
  {
    assert [] + header + [] == header;
  }

  lemma OpenedKeeps(w: World, a: Addr, created: bool)
    requires Invariant(w) && Typed(a)
    ensures Invariant(Apply(w, Opened(a, created)))
  {
    OpenedNumbered(w.session, a, created);
    if Opens(w.session, a, created) {
      var w', header := Apply(w, Opened(a, created)), ConnectHeader(a);
      NewSlot(header);
      forall i | i in w'.session.quic && i !in w'.failed ensures StreamOk(w'.session, i, w'.sent) {
        if i != w.session.nextStream {
          assert StreamOk(w.session, i, w.sent);
        }
      }
    }
  }

  lemma OtherKeeps(w: World, e: Event)
    requires Invariant(w) && Enabled(w, e) && (e.AppDrops? || e.RemoteEnds? || e.Retains? || e.Dissociates?)
    ensures Invariant(Apply(w, e))
  {
    var w' := Apply(w, e);
    OtherNumbered(w, e);
    forall i | i in w'.session.quic && i !in w'.failed ensures StreamOk(w'.session, i, w'.sent) {
      assert StreamOk(w.session, i, w.sent);
      OtherStream(w, e, i);
    }
  }

  lemma OtherNumbered(w: World, e: Event)
    requires Numbered(w.session) && Enabled(w, e) && (e.AppDrops? || e.RemoteEnds? || e.Retains? || e.Dissociates?)
    ensures Numbered(Apply(w, e).session)
    ensures Apply(w, e).session.quic == w.session.quic && Apply(w, e).failed == w.failed
  {
  }

  /** Such an event seen from one stream. */
  lemma OtherStream(w: World, e: Event, i: nat)
    requires Enabled(w, e) && (e.AppDrops? || e.RemoteEnds? || e.Retains? || e.Dissociates?)
    requires i in w.session.quic && StreamOk(w.session, i, w.sent)
    ensures var w' := Apply(w, e); i in w'.session.quic && StreamOk(w'.session, i, w'.sent)
  {
    if e.Retains? && i in w.session.slots && Over(w.session.slots[i]) {
      Finished(w.session.slots[i], w.session.quic[i], w.sent[i]);
    }
  }

  /** A slot that may be retired has given everything to QUIC, and the FIN took effect. */
  lemma Finished(slot: Slot, stream: Stream, sent: seq<byte>)
    requires SlotOk(slot, stream, sent) && Over(slot)
    ensures stream == Stream(sent, 1)
  {
    assert Concat(slot.inbox) == [];
    assert stream.accepted + [] + [] == stream.accepted;
  }

  lemma ApplyKeeps(w: World, e: Event)
    requires Invariant(w) && Enabled(w, e)
    ensures Invariant(Apply(w, e))
  {
    match e
    case Opened(a, created) => OpenedKeeps(w, a, created);
    case AppSends(id, chunk) => AppSendsKeeps(w, id, chunk);
    case Pumps(ids, replies) => PumpKeeps(w.session, ids, replies, w.sent, w.failed);
    case _ => OtherKeeps(w, e);
  }

  // ---------------------------------------------------------------- whole runs

  predicate Runs(w: World, events: seq<Event>)
    decreases |events|
  {
    events == [] || (Enabled(w, events[0]) && Runs(Apply(w, events[0]), events[1..]))
  }

  function After(w: World, events: seq<Event>): World
    requires Runs(w, events)
    decreases |events|
  {
    if events == [] then w else After(Apply(w, events[0]), events[1..])
  }

  lemma {:induction false} RunInvariant(w: World, events: seq<Event>)
    requires Invariant(w) && Runs(w, events)
    ensures Invariant(After(w, events))
    decreases |events|
  {
    if events != [] {
      ApplyKeeps(w, events[0]);
      RunInvariant(Apply(w, events[0]), events[1..]);
    }
  }

  /**
    Absent a stream error: while a slot serves a stream, what QUIC accepted, what is pending and
    what is queued are the CONNECT header and all the app sent, in order; the FIN took effect at
    most once, and only when nothing is left to send. A retired stream has accepted everything and
    its FIN took effect exactly once.
   */
  lemma StreamsConserved(limit: nat, events: seq<Event>, id: nat)
    requires Runs(Start(limit), events)
    requires var w := After(Start(limit), events); id in w.session.quic && id !in w.failed
    ensures var w := After(Start(limit), events); var q := w.session.quic[id];
      && id in w.sent && q.fins <= 1
      && (id in w.session.slots ==>
            q.accepted + w.session.slots[id].pending + Concat(w.session.slots[id].inbox) == w.sent[id])
      && (q.fins == 1 ==> q.accepted == w.sent[id])
      && (id !in w.session.slots ==> q == Stream(w.sent[id], 1))
  {
    RunInvariant(Start(limit), events);
    var w := After(Start(limit), events);
    assert StreamOk(w.session, id, w.sent);
    var q := w.session.quic[id];
    if id in w.session.slots && q.fins == 1 {
      assert Concat(w.session.slots[id].inbox) == [];
      assert q.accepted + [] + [] == q.accepted;
    }
  }

  /** Streams get fresh multiples of four; the unidirectional ids are of the other class. */
  lemma StreamIds(limit: nat, events: seq<Event>)
    requires Runs(Start(limit), events)
    ensures var s := After(Start(limit), events).session;
      && s.nextStream !in s.quic && s.nextStream !in s.slots
      && (forall id :: id in s.quic ==> id % 4 == 0)
      && s.nextUni % 4 == 2 && s.nextUni !in s.quic && FIRST_CLIENT_UNI !in s.quic
  {
    RunInvariant(Start(limit), events);
  }
}
