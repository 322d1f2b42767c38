/**
  What the outbound pump does, beyond what it keeps: how much QUIC gets in one pump, exactly when a
  FIN takes effect, when a slot is retired, and how many streams there can be.
 */
module TuicStreamActs {
  import opened Bytes
  import opened TuicCodec
  import opened TuicStreams
  import opened TuicStreamRuns

  /** All a slot has to send: what is pending and what the app queued. */
  function Owed(slot: Slot): seq<byte>
  {
    slot.pending + Concat(slot.inbox)
  }

  /** The app dropped its end, or a send failed. */
  predicate Ending(slot: Slot)
  {
    slot.fin || !slot.alive
  }

  /** `stream_send` is called: there are bytes and room for some, or only the FIN is left to send. */
  predicate Calls(slot: Slot, reply: Reply)
  {
    if Owed(slot) != [] then reply.capacity > 0 else Ending(slot) && !slot.finSent
  }

  /** How many bytes QUIC takes. */
  function Taken(slot: Slot, reply: Reply): (n: nat)
    ensures n <= |Owed(slot)|
  {
    if reply.result.Wrote? then Min(Min(reply.result.n, reply.capacity), |Owed(slot)|) else 0
  }

  /** One pump in terms of the slot and the answer: the bytes, the FIN, and what the slot remembers. */
  lemma PumpActs(slot: Slot, stream: Stream, reply: Reply)
    ensures var (slot', stream') := PumpSlot(slot, stream, reply);
      var all, n, calls := Owed(slot), Taken(slot, reply), Calls(slot, reply);
      var fits := reply.result.Wrote? && reply.capacity >= |all|;
      && stream'.accepted == stream.accepted + all[..n]
      && stream'.fins == stream.fins + (if calls && Ending(slot) && fits && reply.result.n >= |all| then 1 else 0)
      && slot'.inbox == [] && slot'.alive == slot.alive && slot'.remoteDone == slot.remoteDone
      && slot'.pending == (if calls && reply.result.Failed? then [] else all[n..])
      && (slot'.fin <==> Ending(slot) || (calls && reply.result.Failed?))
      && (slot'.finSent <==> slot.finSent || (calls && Ending(slot) && fits))
  {
    var drained, all, n := Drain(slot), Owed(slot), Taken(slot, reply);
    assert drained.pending == all;
    assert stream.accepted + all[..0] == stream.accepted && all[0..] == all;
    if Sends(drained, reply.capacity) && reply.result.Wrote? {
      assert Min(reply.result.n, Min(reply.capacity, |all|)) == n;
    }
  }

  /**
    A pump makes a FIN take effect exactly when the app had dropped its end or a send had failed,
    QUIC takes all that is owed, and that is something or the FIN was not sent yet.
   */
  lemma EndsIff(slot: Slot, stream: Stream, reply: Reply)
    ensures var (_, stream') := PumpSlot(slot, stream, reply); var all := slot.pending + Concat(slot.inbox);
      && stream.fins <= stream'.fins <= stream.fins + 1
      && (stream'.fins == stream.fins + 1 <==>
            && (slot.fin || !slot.alive) && (all != [] || !slot.finSent)
            && reply.result.Wrote? && reply.result.n >= |all| && reply.capacity >= |all|)
  {
    PumpActs(slot, stream, reply);
  }

  // ---------------------------------------------------------------- all streams

  predicate NoneTwice(ids: seq<nat>)
  {
    forall i, j :: 0 <= i < j < |ids| ==> ids[i] != ids[j]
  }

  predicate Alike(s: Session, s': Session, id: nat)
  {
    && (id in s.slots <==> id in s'.slots) && (id in s.quic <==> id in s'.quic)
    && (id in s.slots ==> s.slots[id] == s'.slots[id]) && (id in s.quic ==> s.quic[id] == s'.quic[id])
  }

  lemma {:induction false} UnlistedAlike(s: Session, ids: seq<nat>, replies: map<nat, Reply>, id: nat)
    requires id !in ids
    ensures Alike(s, PumpOutbound(s, ids, replies), id)
    decreases |ids|
  {
    if ids != [] {
      UnlistedAlike(PumpOne(s, ids[0], ReplyOf(replies, ids[0])), ids[1..], replies, id);
    }
  }

  /** Every listed stream is pumped with the answer it gets, the others are left alone. */
  lemma {:induction false} PumpEach(s: Session, ids: seq<nat>, replies: map<nat, Reply>, id: nat)
    requires NoneTwice(ids) && id in ids && id in s.slots && id in s.quic
    ensures var s' := PumpOutbound(s, ids, replies);
      && id in s'.slots && id in s'.quic
      && (s'.slots[id], s'.quic[id]) == PumpSlot(s.slots[id], s.quic[id], ReplyOf(replies, id))
    decreases |ids|
  {
    var s1 := PumpOne(s, ids[0], ReplyOf(replies, ids[0]));
    if ids[0] == id {
      UnlistedAlike(s1, ids[1..], replies, id);
    } else {
      PumpEach(s1, ids[1..], replies, id);
    }
  }

  /**
    In every run, on a stream QUIC never refused: once the app has dropped its end, a pump in which
    QUIC takes all that is owed leaves the stream ended, once, with all the app sent accepted.
   */
  lemma DroppedIsEnded(limit: nat, events: seq<Event>, ids: seq<nat>, replies: map<nat, Reply>, id: nat)
    requires Runs(Start(limit), events) && NoneTwice(ids) && id in ids
    requires var w := After(Start(limit), events);
      && id in w.session.slots && id !in w.failed && !w.session.slots[id].alive
      && var all, reply := Owed(w.session.slots[id]), ReplyOf(replies, id);
      reply.result.Wrote? && reply.result.n >= |all| && reply.capacity >= |all|
    ensures var w := After(Start(limit), events); var w' := Apply(w, Pumps(ids, replies));
      && id in w.sent && id in w'.session.quic && w'.session.quic[id] == Stream(w.sent[id], 1)
      && id in w'.session.slots && w'.session.slots[id].finSent && w'.session.slots[id].pending == []
  {
    RunInvariant(Start(limit), events);
    var w := After(Start(limit), events);
    assert StreamOk(w.session, id, w.sent);
    PumpEach(w.session, ids, replies, id);
    EndedSlot(w.session.slots[id], w.session.quic[id], ReplyOf(replies, id), w.sent[id]);
  }

  lemma EndedSlot(slot: Slot, stream: Stream, reply: Reply, sent: seq<byte>)
    requires SlotOk(slot, stream, sent) && !slot.alive
    requires reply.result.Wrote? && reply.result.n >= |Owed(slot)| && reply.capacity >= |Owed(slot)|
    ensures var (slot', stream') := PumpSlot(slot, stream, reply);
      stream' == Stream(sent, 1) && slot'.finSent && slot'.pending == []
  {
    PumpActs(slot, stream, reply);
    var all := Owed(slot);
    assert all[..|all|] == all && stream.accepted + all == stream.accepted + slot.pending + Concat(slot.inbox);
    if slot.finSent {
      assert slot.inbox == [] && Concat(slot.inbox) == [] && all == slot.pending;
    }
  }

  // ---------------------------------------------------------------- retiring, opening

  /** A slot is retired exactly when the remote side is done, nothing is pending and the FIN was sent. */
  lemma RetiresIff(s: Session, id: nat)
    requires id in s.slots
    ensures id !in Retain(s).slots <==>
      s.slots[id].remoteDone && s.slots[id].pending == [] && s.slots[id].finSent
    ensures id in Retain(s).slots ==> Retain(s).slots[id] == s.slots[id]
    ensures Retain(s).slots.Keys <= s.slots.Keys && Retain(s) == s.(slots := Retain(s).slots)
  {
  }

  /** A stream is opened exactly when there is room, its target can be encoded and QUIC lets it exist. */
  lemma OpensIff(s: Session, a: Addr, created: bool)
    requires Typed(a) && s.nextStream !in s.slots && s.nextStream !in s.quic
    ensures var s' := Open(s, a, created);
      && (s'.nextStream in {s.nextStream, s.nextStream + 4})
      && (s'.nextStream != s.nextStream <==> |s.slots| < s.streamLimit && EncodeAddr(a).Some? && created)
      && (s'.nextStream == s.nextStream ==> s' == s)
      && (s'.nextStream != s.nextStream ==>
            && s.nextStream in s'.slots && s.nextStream in s'.quic && s'.quic[s.nextStream] == Stream([], 0)
            && var slot := s'.slots[s.nextStream];
            && slot.alive && slot.inbox == [] && !slot.fin && !slot.finSent && !slot.remoteDone
            && slot.pending == [5, 1] + EncodeAddr(a).value
            && s'.slots.Keys == s.slots.Keys + {s.nextStream})
  {
  }

  lemma {:induction false} PumpKeepsKeys(s: Session, ids: seq<nat>, replies: map<nat, Reply>)
    ensures PumpOutbound(s, ids, replies).slots.Keys == s.slots.Keys
    ensures PumpOutbound(s, ids, replies).streamLimit == s.streamLimit
    decreases |ids|
  {
    if ids != [] {
      var s1 := PumpOne(s, ids[0], ReplyOf(replies, ids[0]));
      assert s1.slots.Keys == s.slots.Keys;
      PumpKeepsKeys(s1, ids[1..], replies);
    }
  }

  lemma FewerKeys(a: set<nat>, b: set<nat>)
    requires a <= b
    ensures |a| <= |b|
  {
    assert b == a + (b - a);
  }

  lemma KeysCount(m: map<nat, Slot>)
    ensures |m| == |m.Keys|
  {
  }

  lemma EventBounded(w: World, e: Event)
    requires Enabled(w, e) && |w.session.slots| <= w.session.streamLimit
    ensures var s' := Apply(w, e).session; |s'.slots| <= s'.streamLimit == w.session.streamLimit
  {
    var s, s' := w.session, Apply(w, e).session;
    KeysCount(s.slots);
    KeysCount(s'.slots);
    match e
    case Opened(a, created) => FewerKeys(s'.slots.Keys, s.slots.Keys + {s.nextStream});
    case AppSends(id, _) => assert s'.slots.Keys == s.slots.Keys;
    case AppDrops(id) => assert s'.slots.Keys == s.slots.Keys;
    case RemoteEnds(id) => assert s'.slots.Keys == s.slots.Keys;
    case Pumps(ids, replies) => PumpKeepsKeys(s, ids, replies);
    case Retains => FewerKeys(s'.slots.Keys, s.slots.Keys);
    case Dissociates(_) =>
  }

  /** In every run there are never more streams than the limit. */
  lemma {:induction false} StreamsBounded(w: World, events: seq<Event>)
    requires Runs(w, events) && |w.session.slots| <= w.session.streamLimit
    ensures var s' := After(w, events).session; |s'.slots| <= s'.streamLimit == w.session.streamLimit
    decreases |events|
  {
    if events != [] {
      EventBounded(w, events[0]);
      StreamsBounded(Apply(w, events[0]), events[1..]);
    }
  }
}
