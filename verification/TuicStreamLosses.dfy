/**
  What becomes of the bytes of a stream that QUIC refuses. A failed send clears what is pending and
  marks the stream ended, so a later FIN can end it with bytes missing; the ledger of a run says when.
 */
module TuicStreamLosses {
  import opened Bytes
  import opened TuicCodec
  import opened TuicStreams
  import opened TuicStreamRuns

  /** What pumping did to a stream; a FIN is noted with what QUIC had accepted and what the app had sent. */
  datatype Entry =
    | Took(bytes: seq<byte>)
    | Lost(bytes: seq<byte>)
    | Ended(accepted: seq<byte>, sent: seq<byte>)

  /** The entries of pumping one slot. */
  function Note(slot: Slot, stream: Stream, reply: Reply, sent: seq<byte>): seq<Entry>
  {
    var drained := Drain(slot);
    if !Sends(drained, reply.capacity) then []
    else
      var take := Min(reply.capacity, |drained.pending|);
      match reply.result
      case Wrote(n) =>
        var bytes := drained.pending[..Min(n, take)];
        [Took(bytes)] +
        if drained.fin && bytes == drained.pending then [Ended(stream.accepted + bytes, sent)] else []
      case Done => []
      case Failed => [Lost(drained.pending)]
  }

  type Ledger = map<nat, seq<Entry>>

  function EntriesOf(ledger: Ledger, id: nat): seq<Entry>
  {
    if id in ledger then ledger[id] else []
  }

  function SentOn(sent: map<nat, seq<byte>>, id: nat): seq<byte>
  {
    if id in sent then sent[id] else []
  }

  function NoteOne(s: Session, id: nat, reply: Reply, sent: map<nat, seq<byte>>, ledger: Ledger): Ledger
  {
    if id !in s.slots || id !in s.quic then ledger
    else ledger[id := EntriesOf(ledger, id) + Note(s.slots[id], s.quic[id], reply, SentOn(sent, id))]
  }

  function NoteAll(s: Session, ids: seq<nat>, replies: map<nat, Reply>, sent: map<nat, seq<byte>>,
                   ledger: Ledger): Ledger
    decreases |ids|
  {
    if ids == [] then ledger
    else
      var reply := ReplyOf(replies, ids[0]);
      NoteAll(PumpOne(s, ids[0], reply), ids[1..], replies, sent, NoteOne(s, ids[0], reply, sent, ledger))
  }

  /** The ledger after a run. */
  function Noted(w: World, events: seq<Event>, ledger: Ledger): Ledger
    requires Runs(w, events)
    decreases |events|
  {
    if events == [] then ledger
    else
      var e := events[0];
      Noted(Apply(w, e), events[1..], if e.Pumps? then NoteAll(w.session, e.ids, e.replies, w.sent, ledger) else ledger)
  }

  // ---------------------------------------------------------------- reading a ledger

  function Taken(l: seq<Entry>): seq<byte>
  {
    if l == [] then []
    else Taken(l[..|l| - 1]) + if l[|l| - 1].Took? then l[|l| - 1].bytes else []
  }

  function Missing(l: seq<Entry>): seq<byte>
  {
    if l == [] then []
    else Missing(l[..|l| - 1]) + if l[|l| - 1].Lost? then l[|l| - 1].bytes else []
  }

  /** All that left the slot, one way or the other, in order. */
  function Gone(l: seq<Entry>): seq<byte>
  {
    if l == [] then []
    else Gone(l[..|l| - 1]) + if l[|l| - 1].Ended? then [] else l[|l| - 1].bytes
  }

  function Ends(l: seq<Entry>): nat
  {
    if l == [] then 0 else Ends(l[..|l| - 1]) + if l[|l| - 1].Ended? then 1 else 0
  }

  /** Entry `k`, a FIN, has what was accepted and what had been sent when it took effect. */
  predicate EndOk(l: seq<Entry>, k: nat)
    requires k < |l|
  {
    l[k].Ended? ==> l[k].accepted == Taken(l[..k]) && l[k].sent == Gone(l[..k])
  }

  ghost predicate EndsOk(l: seq<Entry>)
  {
    forall k :: 0 <= k < |l| ==> EndOk(l, k)
  }

  lemma Snoc(l: seq<Entry>, e: Entry)
    ensures Taken(l + [e]) == Taken(l) + if e.Took? then e.bytes else []
    ensures Missing(l + [e]) == Missing(l) + if e.Lost? then e.bytes else []
    ensures Gone(l + [e]) == Gone(l) + if e.Ended? then [] else e.bytes
    ensures Ends(l + [e]) == Ends(l) + if e.Ended? then 1 else 0
  {
    assert (l + [e])[..|l + [e]| - 1] == l;
  }

  lemma SnocEndsOk(l: seq<Entry>, e: Entry)
    requires EndsOk(l) && (e.Ended? ==> e.accepted == Taken(l) && e.sent == Gone(l))
    ensures EndsOk(l + [e])
  {
    forall k | 0 <= k < |l + [e]|
      ensures EndOk(l + [e], k)
    {
      if k < |l| {
        assert EndOk(l, k) && (l + [e])[..k] == l[..k];
      } else {
        assert (l + [e])[..k] == l;
      }
    }
  }

  /** QUIC accepted all that left the slot exactly when nothing is missing. */
  lemma {:induction false} TakenIff(l: seq<Entry>)
    ensures |Gone(l)| == |Taken(l)| + |Missing(l)|
    ensures Taken(l) == Gone(l) <==> Missing(l) == []
  {
    if l != [] {
      TakenIff(l[..|l| - 1]);
    }
  }

  // ---------------------------------------------------------------- the ledger of a run

  /** The ledger of a stream against its state. */
  ghost predicate Accounted(s: Session, id: nat, sent: seq<byte>, l: seq<Entry>)
    requires id in s.quic
  {
    && Taken(l) == s.quic[id].accepted && Ends(l) == s.quic[id].fins && EndsOk(l)
    && if id in s.slots then Gone(l) + (s.slots[id].pending + Concat(s.slots[id].inbox)) == sent else Gone(l) <= sent
  }

  ghost predicate Kept(s: Session, sent: map<nat, seq<byte>>, ledger: Ledger)
  {
    && (forall id :: id in s.slots ==> id in s.quic)
    && (forall id :: id in ledger ==> id in s.quic)
    && (forall id :: id in s.quic ==> Accounted(s, id, SentOn(sent, id), EntriesOf(ledger, id)))
  }

  lemma Drained(slot: Slot, l: seq<Entry>, sent: seq<byte>)
    requires Gone(l) + (slot.pending + Concat(slot.inbox)) == sent
    ensures Gone(l) + Drain(slot).pending == sent
  {
  }

  /** Pumping one slot keeps its ledger. */
  lemma PumpNoted(slot: Slot, stream: Stream, reply: Reply, sent: seq<byte>, l: seq<Entry>)
    requires Taken(l) == stream.accepted && Ends(l) == stream.fins && EndsOk(l)
    requires Gone(l) + (slot.pending + Concat(slot.inbox)) == sent
    ensures var (slot', stream') := PumpSlot(slot, stream, reply); var l' := l + Note(slot, stream, reply, sent);
      && Taken(l') == stream'.accepted && Ends(l') == stream'.fins && EndsOk(l')
      && slot'.inbox == [] && Gone(l') + slot'.pending == sent
  {
    var drained := Drain(slot);
    Drained(slot, l, sent);
    assert l + [] == l;
    if Sends(drained, reply.capacity) {
      match reply.result
      case Wrote(n) => WroteNoted(drained, stream, reply, sent, l);
      case Done =>
      case Failed =>
        Snoc(l, Lost(drained.pending));
        SnocEndsOk(l, Lost(drained.pending));
        assert Gone(l) + drained.pending + [] == Gone(l) + drained.pending;
        assert Taken(l) + [] == Taken(l);
    }
  }

  lemma WroteNoted(drained: Slot, stream: Stream, reply: Reply, sent: seq<byte>, l: seq<Entry>)
    requires Taken(l) == stream.accepted && Ends(l) == stream.fins && EndsOk(l)
    requires Gone(l) + drained.pending == sent && reply.result.Wrote?
    ensures var (slot', stream') := Send(drained, stream, reply);
      var take := Min(reply.capacity, |drained.pending|); var bytes := drained.pending[..Min(reply.result.n, take)];
      var l' := l + ([Took(bytes)] +
        if drained.fin && bytes == drained.pending then [Ended(stream.accepted + bytes, sent)] else []);
      && Taken(l') == stream'.accepted && Ends(l') == stream'.fins && EndsOk(l') && Gone(l') + slot'.pending == sent
  {
    var take := Min(reply.capacity, |drained.pending|);
    var bytes := drained.pending[..Min(reply.result.n, take)];
    var took := l + [Took(bytes)];
    Snoc(l, Took(bytes));
    SnocEndsOk(l, Took(bytes));
    assert Gone(l) + bytes + drained.pending[|bytes|..] == Gone(l) + drained.pending;
    assert bytes == drained.pending <==> |bytes| == |drained.pending|;
    if drained.fin && bytes == drained.pending {
      var end := Ended(stream.accepted + bytes, sent);
      Snoc(took, end);
      SnocEndsOk(took, end);
      assert took + [end] == l + ([Took(bytes)] + [end]);
      assert Taken(took) + [] == Taken(took) && Gone(took) + [] == Gone(took);
    } else {
      assert took == l + ([Took(bytes)] + []);
    }
  }

  lemma NoteOneAccounted(s: Session, id: nat, reply: Reply, sent: seq<byte>, l: seq<Entry>)
    requires id in s.slots && id in s.quic && Accounted(s, id, sent, l)
    ensures var s' := PumpOne(s, id, reply);
      id in s'.quic && Accounted(s', id, sent, l + Note(s.slots[id], s.quic[id], reply, sent))
  {
    PumpNoted(s.slots[id], s.quic[id], reply, sent, l);
    var pending := PumpSlot(s.slots[id], s.quic[id], reply).0.pending;
    assert pending + [] == pending;
  }

  lemma NoteOneKept(s: Session, id: nat, reply: Reply, sent: map<nat, seq<byte>>, ledger: Ledger)
    requires Kept(s, sent, ledger)
    ensures Kept(PumpOne(s, id, reply), sent, NoteOne(s, id, reply, sent, ledger))
  {
    var s', ledger' := PumpOne(s, id, reply), NoteOne(s, id, reply, sent, ledger);
    forall i | i in s'.quic
      ensures Accounted(s', i, SentOn(sent, i), EntriesOf(ledger', i))
    {
      assert Accounted(s, i, SentOn(sent, i), EntriesOf(ledger, i));
      if i == id && id in s.slots {
        NoteOneAccounted(s, id, reply, SentOn(sent, id), EntriesOf(ledger, id));
      }
    }
  }

  lemma {:induction false} NoteAllKept(s: Session, ids: seq<nat>, replies: map<nat, Reply>,
                                      sent: map<nat, seq<byte>>, ledger: Ledger)
    requires Kept(s, sent, ledger)
    ensures Kept(PumpOutbound(s, ids, replies), sent, NoteAll(s, ids, replies, sent, ledger))
    decreases |ids|
  {
    if ids != [] {
      var reply := ReplyOf(replies, ids[0]);
      NoteOneKept(s, ids[0], reply, sent, ledger);
      NoteAllKept(PumpOne(s, ids[0], reply), ids[1..], replies, sent, NoteOne(s, ids[0], reply, sent, ledger));
    }
  }

  lemma QueuedLater(gone: seq<byte>, pending: seq<byte>, inbox: seq<seq<byte>>, chunk: seq<byte>, sent: seq<byte>)
    requires gone + (pending + Concat(inbox)) == sent
    ensures gone + (pending + Concat(inbox + [chunk])) == sent + chunk
  {
    ConcatSnoc(inbox, chunk);
    Assoc(pending, Concat(inbox), chunk);
    Assoc(gone, pending + Concat(inbox), chunk);
  }

  lemma AppSendsAccounted(w: World, id: nat, chunk: seq<byte>, l: seq<Entry>, i: nat)
    requires Enabled(w, AppSends(id, chunk)) && i in w.session.quic && Accounted(w.session, i, SentOn(w.sent, i), l)
    ensures var w' := Apply(w, AppSends(id, chunk));
      i in w'.session.quic && Accounted(w'.session, i, SentOn(w'.sent, i), l)
  {
    if i == id {
      var slot := w.session.slots[id];
      QueuedLater(Gone(l), slot.pending, slot.inbox, chunk, SentOn(w.sent, id));
    }
  }

  lemma AppSendsKept(w: World, id: nat, chunk: seq<byte>, ledger: Ledger)
    requires Kept(w.session, w.sent, ledger) && Enabled(w, AppSends(id, chunk))
    ensures var w' := Apply(w, AppSends(id, chunk)); Kept(w'.session, w'.sent, ledger)
  {
    var w' := Apply(w, AppSends(id, chunk));
    forall i | i in w'.session.quic
      ensures Accounted(w'.session, i, SentOn(w'.sent, i), EntriesOf(ledger, i))
    {
      AppSendsAccounted(w, id, chunk, EntriesOf(ledger, i), i);
    }
  }

  lemma OpenedKept(w: World, a: Addr, created: bool, ledger: Ledger)
    requires Invariant(w) && Kept(w.session, w.sent, ledger) && Typed(a)
    ensures var w' := Apply(w, Opened(a, created)); Kept(w'.session, w'.sent, ledger)
  {
    var w' := Apply(w, Opened(a, created));
    forall i | i in w'.session.quic
      ensures Accounted(w'.session, i, SentOn(w'.sent, i), EntriesOf(ledger, i))
    {
      if i in w.session.quic {
        assert Accounted(w.session, i, SentOn(w.sent, i), EntriesOf(ledger, i));
      } else {
        assert EntriesOf(ledger, i) == [] && [] + (ConnectHeader(a) + []) == ConnectHeader(a);
      }
    }
  }

  lemma OtherAccounted(w: World, e: Event, l: seq<Entry>, i: nat)
    requires Enabled(w, e) && (e.AppDrops? || e.RemoteEnds? || e.Retains? || e.Dissociates?)
    requires i in w.session.quic && Accounted(w.session, i, SentOn(w.sent, i), l)
    ensures var w' := Apply(w, e); i in w'.session.quic && Accounted(w'.session, i, SentOn(w'.sent, i), l)
  {
  }

  lemma OtherKept(w: World, e: Event, ledger: Ledger)
    requires Kept(w.session, w.sent, ledger) && Enabled(w, e)
    requires e.AppDrops? || e.RemoteEnds? || e.Retains? || e.Dissociates?
    ensures var w' := Apply(w, e); Kept(w'.session, w'.sent, ledger)
  {
    var w' := Apply(w, e);
    forall i | i in w'.session.quic
      ensures Accounted(w'.session, i, SentOn(w'.sent, i), EntriesOf(ledger, i))
    {
      OtherAccounted(w, e, EntriesOf(ledger, i), i);
    }
  }

  lemma {:induction false} RunKept(w: World, events: seq<Event>, ledger: Ledger)
    requires Invariant(w) && Runs(w, events) && Kept(w.session, w.sent, ledger)
    ensures var w' := After(w, events); Kept(w'.session, w'.sent, Noted(w, events, ledger))
    decreases |events|
  {
    if events != [] {
      var e := events[0];
      match e {
        case Opened(a, created) => OpenedKept(w, a, created, ledger);
        case AppSends(id, chunk) => AppSendsKept(w, id, chunk, ledger);
        case Pumps(ids, replies) => NoteAllKept(w.session, ids, replies, w.sent, ledger);
        case _ => OtherKept(w, e, ledger);
      }
      ApplyKeeps(w, e);
      RunKept(Apply(w, e), events[1..],
              if e.Pumps? then NoteAll(w.session, e.ids, e.replies, w.sent, ledger) else ledger);
    }
  }

  /** The ledger of stream `id` after a run from the start. */
  function LedgerOf(limit: nat, events: seq<Event>, id: nat): seq<Entry>
    requires Runs(Start(limit), events)
  {
    EntriesOf(Noted(Start(limit), events, map[]), id)
  }

  lemma RunAccounted(limit: nat, events: seq<Event>, id: nat)
    requires Runs(Start(limit), events) && id in After(Start(limit), events).session.quic
    ensures var w := After(Start(limit), events);
      Accounted(w.session, id, SentOn(w.sent, id), LedgerOf(limit, events, id))
  {
    RunKept(Start(limit), events, map[]);
  }

  /**
    On every stream, refused or not: what QUIC took and what failed sends lost, in order, then what
    is pending and what is queued, are the header and all the app sent. QUIC accepted what it took,
    and every FIN is in the ledger with what had been accepted and sent when it took effect.
   */
  lemma LedgerConserved(limit: nat, events: seq<Event>, id: nat)
    requires Runs(Start(limit), events) && id in After(Start(limit), events).session.quic
    ensures var w := After(Start(limit), events); var l := LedgerOf(limit, events, id);
      && Taken(l) == w.session.quic[id].accepted && Ends(l) == w.session.quic[id].fins && EndsOk(l)
      && if id in w.session.slots
         then Gone(l) + (w.session.slots[id].pending + Concat(w.session.slots[id].inbox)) == SentOn(w.sent, id)
         else Gone(l) <= SentOn(w.sent, id)
  {
    RunAccounted(limit, events, id);
  }

  /** A FIN took effect with all the app had sent accepted exactly when no earlier send failed with bytes pending. */
  lemma EndsShortIff(limit: nat, events: seq<Event>, id: nat, k: nat)
    requires Runs(Start(limit), events) && id in After(Start(limit), events).session.quic
    requires var l := LedgerOf(limit, events, id); k < |l| && l[k].Ended?
    ensures var l := LedgerOf(limit, events, id);
      && l[k].accepted == Taken(l[..k]) && l[k].sent == Gone(l[..k])
      && (l[k].accepted == l[k].sent <==> Missing(l[..k]) == [])
  {
    var l := LedgerOf(limit, events, id);
    LedgerConserved(limit, events, id);
    assert EndOk(l, k);
    TakenIff(l[..k]);
  }

  /** Without a refusal nothing is missing. */
  lemma OnlyRefusalsLose(limit: nat, events: seq<Event>, id: nat)
    requires Runs(Start(limit), events)
    requires id in After(Start(limit), events).session.quic && id !in After(Start(limit), events).failed
    ensures Missing(LedgerOf(limit, events, id)) == []
  {
    LedgerConserved(limit, events, id);
    StreamsConserved(limit, events, id);
    TakenIff(LedgerOf(limit, events, id));
  }

  lemma PumpAlone(s: Session, id: nat, reply: Reply, sent: map<nat, seq<byte>>, ledger: Ledger)
    ensures PumpOutbound(s, [id], map[id := reply]) == PumpOne(s, id, reply)
    ensures NoteAll(s, [id], map[id := reply], sent, ledger) == NoteOne(s, id, reply, sent, ledger)
  {
    assert [id][1..] == [];
  }

  lemma ThenRuns(w: World, e: Event, rest: seq<Event>, ledger: Ledger)
    requires Enabled(w, e) && Runs(Apply(w, e), rest)
    ensures var noted := if e.Pumps? then NoteAll(w.session, e.ids, e.replies, w.sent, ledger) else ledger;
      && Runs(w, [e] + rest) && After(w, [e] + rest) == After(Apply(w, e), rest)
      && Noted(w, [e] + rest, ledger) == Noted(Apply(w, e), rest, noted)
  {
    assert ([e] + rest)[1..] == rest;
  }

  lemma ThreeEvents(w: World, e: Event, first: Event, second: Event)
    requires first.Pumps? && second.Pumps? && !e.Pumps? && Enabled(w, e)
    ensures var events, w1 := [e, first, second], Apply(w, e); var w2 := Apply(w1, first);
      && Runs(w, events) && After(w, events) == Apply(w2, second)
      && Noted(w, events, map[]) == NoteAll(w2.session, second.ids, second.replies, w2.sent,
                                            NoteAll(w1.session, first.ids, first.replies, w1.sent, map[]))
  {
    var w1 := Apply(w, e);
    var w2 := Apply(w1, first);
    var noted := NoteAll(w1.session, first.ids, first.replies, w1.sent, map[]);
    ThenRuns(w2, second, [], noted);
    ThenRuns(w1, first, [second] + [], map[]);
    ThenRuns(w, e, [first] + ([second] + []), map[]);
    assert [e] + ([first] + ([second] + [])) == [e, first, second];
  }

  /** A refused slot is empty and ended. */
  lemma Refused(header: seq<byte>, capacity: nat)
    requires header != [] && capacity > 0
    ensures var slot, stream := Slot([], true, header, false, false, false), Stream([], 0);
      && PumpSlot(slot, stream, Reply(capacity, Failed)) == (slot.(pending := [], fin := true), stream)
      && Note(slot, stream, Reply(capacity, Failed), header) == [Lost(header)]
  {
    assert header + Concat([]) == header;
  }

  lemma EndsEmpty(slot: Slot, header: seq<byte>)
    requires slot == Slot([], true, [], true, false, false)
    ensures PumpSlot(slot, Stream([], 0), Reply(0, Wrote(0))) == (slot.(finSent := true), Stream([], 1))
    ensures Note(slot, Stream([], 0), Reply(0, Wrote(0)), header) == [Took([]), Ended([], header)]
  {
    assert Drain(slot) == slot;
    assert slot.pending[..0] == [] && [] + slot.pending[..0] == [];
  }

  /** Such runs exist: the send of the header fails, and the next pump ends a stream that accepted nothing. */
  lemma RefusedThenEnded(a: Addr, capacity: nat, limit: nat)
    requires Typed(a) && EncodeAddr(a).Some? && capacity > 0 && limit > 0
    ensures var refused := Pumps([0], map[0 := Reply(capacity, Failed)]);
      var events := [Opened(a, true), refused, Pumps([0], map[0 := Reply(0, Wrote(0))])];
      && Runs(Start(limit), events)
      && var w := After(Start(limit), events); var header := ConnectHeader(a);
      && w.sent == map[0 := header] && w.session.quic == map[0 := Stream([], 1)]
      && LedgerOf(limit, events, 0) == [Lost(header), Took([]), Ended([], header)]
  {
    var header, w, opens := ConnectHeader(a), Start(limit), Opened(a, true);
    var refusal, ending := Reply(capacity, Failed), Reply(0, Wrote(0));
    ThreeEvents(w, opens, Pumps([0], map[0 := refusal]), Pumps([0], map[0 := ending]));
    var w1 := Apply(w, opens);
    var slot := Slot([], true, header, false, false, false);
    assert w1.session.slots == map[0 := slot] && w1.session.quic == map[0 := Stream([], 0)];
    PumpAlone(w1.session, 0, refusal, w1.sent, map[]);
    Refused(header, capacity);
    var w2 := Apply(w1, Pumps([0], map[0 := refusal]));
    PumpAlone(w2.session, 0, ending, w2.sent, map[0 := [Lost(header)]]);
    EndsEmpty(slot.(pending := [], fin := true), header);
    assert [] + [Lost(header)] == [Lost(header)];
  }
}
