/**
  TCP over TUIC: one QUIC stream per connection. The session pumps what the app queued into the
  stream and ends it with a FIN. QUIC is known by contract: `stream_send` accepts some prefix of
  the slice, and the FIN takes effect only when it accepts the whole slice.
 */
module TuicStreams {
  import opened Bytes
  import opened TuicCodec

  /** `TcpSlot`: `inbox` is the channel from the app, `alive` whether the app still holds its end. */
  datatype Slot = Slot(
    inbox: seq<seq<byte>>,
    alive: bool,
    pending: seq<byte>,
    fin: bool,
    finSent: bool,
    remoteDone: bool)

  /** What QUIC took for one stream: the bytes it accepted and how often a FIN took effect. */
  datatype Stream = Stream(accepted: seq<byte>, fins: nat)

  datatype SendResult = Wrote(n: nat) | Done | Failed

  /** What the connection answers when one slot is pumped. */
  datatype Reply = Reply(capacity: nat, result: SendResult)

  datatype Session = Session(
    slots: map<nat, Slot>,
    quic: map<nat, Stream>,
    nextStream: nat,
    nextUni: nat,
    streamLimit: nat)

  const FIRST_CLIENT_UNI: nat := 2

  // ---------------------------------------------------------------- the outbound pump

  /** The `try_recv` loop: the channel is emptied, and a dropped sender shows as `fin`. */
  function Drain(slot: Slot): Slot
  {
    slot.(inbox := [], pending := slot.pending + Concat(slot.inbox), fin := slot.fin || !slot.alive)
  }

  /** Whether the drained slot goes on to `stream_send`. */
  predicate Sends(slot: Slot, capacity: nat)
  {
    if slot.pending == [] then slot.fin && !slot.finSent else capacity > 0
  }

  /** `stream_send` of the first `take` pending bytes, and what the slot makes of the answer. */
  function Send(slot: Slot, stream: Stream, reply: Reply): (Slot, Stream)
  {
    var take := Min(reply.capacity, |slot.pending|);
    var fin := slot.fin && take == |slot.pending|;
    match reply.result
    case Wrote(n) =>
      var written := Min(n, take);
      (slot.(pending := slot.pending[written..], finSent := slot.finSent || fin),
       Stream(stream.accepted + slot.pending[..written], stream.fins + if fin && written == take then 1 else 0))
    case Done => (slot, stream)
    case Failed => (slot.(pending := [], fin := true), stream)
  }

  function PumpSlot(slot: Slot, stream: Stream, reply: Reply): (Slot, Stream)
  {
    var drained := Drain(slot);
    if Sends(drained, reply.capacity) then Send(drained, stream, reply) else (drained, stream)
  }

  function ReplyOf(replies: map<nat, Reply>, id: nat): Reply
  {
    if id in replies then replies[id] else Reply(0, Done)
  }

  function PumpOne(s: Session, id: nat, reply: Reply): Session
  {
    if id !in s.slots || id !in s.quic then s
    else
      var (slot, stream) := PumpSlot(s.slots[id], s.quic[id], reply);
      s.(slots := s.slots[id := slot], quic := s.quic[id := stream])
  }

  /** `pump_outbound` over the streams in the order the table yields them. */
  function PumpOutbound(s: Session, ids: seq<nat>, replies: map<nat, Reply>): Session
    decreases |ids|
  {
    if ids == [] then s
    else PumpOutbound(PumpOne(s, ids[0], ReplyOf(replies, ids[0])), ids[1..], replies)
  }

  // ---------------------------------------------------------------- opening, retiring

  function ConnectHeader(a: Addr): seq<byte>
    requires Typed(a) && EncodeAddr(a).Some?
  {
    [VERSION, CMD_CONNECT] + EncodeAddr(a).value
  }

  /** The server reads the version, the command and the very target back, and nothing is left over. */
  lemma HeaderNamesTarget(a: Addr)
    requires Typed(a) && EncodeAddr(a).Some?
    ensures var h := ConnectHeader(a);
      h[0] == VERSION && h[1] == CMD_CONNECT && DecodeAddr(h[2..]) == Some((a, |h| - 2))
  {
    var e := EncodeAddr(a).value;
    assert ConnectHeader(a)[2..] == e && e[..|e|] == e;
    DecodeComplete(e, a, |e|);
  }

  predicate Opens(s: Session, a: Addr, created: bool)
    requires Typed(a)
  {
    |s.slots| < s.streamLimit && EncodeAddr(a).Some? && created
  }

  /** The open command: `created` is whether QUIC lets the stream exist. */
  function Open(s: Session, a: Addr, created: bool): Session
    requires Typed(a)
  {
    if Opens(s, a, created) then
      s.(slots := s.slots[s.nextStream := Slot([], true, ConnectHeader(a), false, false, false)],
         quic := s.quic[s.nextStream := Stream([], 0)],
         nextStream := s.nextStream + 4)
    else s
  }

  predicate Over(slot: Slot) { slot.remoteDone && slot.pending == [] && slot.finSent }

  /** The `retain` at the end of every turn. */
  function Retain(s: Session): Session
  {
    s.(slots := map id | id in s.slots && !Over(s.slots[id]) :: s.slots[id])
  }

  // ---------------------------------------------------------------- the session object

  class Tunnel {
    var slots: map<nat, Slot>
    var quic: map<nat, Stream>
    var nextStream: nat
    var nextUni: nat
    const streamLimit: nat

    function State(): Session
      reads this
    {
      Session(slots, quic, nextStream, nextUni, streamLimit)
    }

    constructor (limit: nat)
      ensures State() == Session(map[], map[], 0, FIRST_CLIENT_UNI + 4, limit)
    {
      slots, quic, nextStream, nextUni, streamLimit := map[], map[], 0, FIRST_CLIENT_UNI + 4, limit;
    }

    method OpenTcp(a: Addr, created: bool) returns (ok: bool)
      requires Typed(a)
      modifies this`slots, this`quic, this`nextStream
      ensures State() == Open(old(State()), a, created) && ok == Opens(old(State()), a, created)
    {
      if |slots| >= streamLimit {
        return false;
      }
      var stream := nextStream;
      var address := EncodeAddr(a);
      if address.None? || !created {
        return false;
      }
      var head := [VERSION, CMD_CONNECT] + address.value;
      nextStream := stream + 4;
      slots := slots[stream := Slot([], true, head, false, false, false)];
      quic := quic[stream := Stream([], 0)];
      ok := true;
    }

    /** The receive loop that empties a slot's channel into its pending bytes. */
    method DrainInbox(slot: Slot) returns (drained: Slot)
      ensures drained == Drain(slot)
    {
      drained := slot;
      while drained.inbox != []
        invariant drained.pending + Concat(drained.inbox) == slot.pending + Concat(slot.inbox)
        invariant drained == slot.(inbox := drained.inbox, pending := drained.pending)
        decreases |drained.inbox|
      {
        var chunk, rest := drained.inbox[0], drained.inbox[1..];
        assert drained.pending + (chunk + Concat(rest)) == (drained.pending + chunk) + Concat(rest);
        drained := drained.(inbox := rest, pending := drained.pending + chunk);
      }
      if !drained.alive {
        drained := drained.(fin := true);
      }
    }

    /** One offer of pending bytes to QUIC. */
    method Offer(slot: Slot, stream: Stream, reply: Reply) returns (slot': Slot, stream': Stream)
      ensures (slot', stream') == if Sends(slot, reply.capacity) then Send(slot, stream, reply) else (slot, stream)
    {
      slot', stream' := slot, stream;
      if slot.pending == [] && !(slot.fin && !slot.finSent) {
        return;
      }
      if reply.capacity == 0 && slot.pending != [] {
        return;
      }
      var take := if reply.capacity < |slot.pending| then reply.capacity else |slot.pending|;
      var fin := slot.fin && take == |slot.pending|;
      match reply.result
      case Wrote(n) =>
        var written := if n < take then n else take;
        stream' := Stream(stream.accepted + slot.pending[..written],
                          if fin && written == take then stream.fins + 1 else stream.fins);
        slot' := slot.(pending := slot.pending[written..]);
        if fin {
          slot' := slot'.(finSent := true);
        }
      case Done =>
      case Failed =>
        slot' := slot.(pending := [], fin := true);
    }

    method PumpStream(id: nat, reply: Reply)
      modifies this`slots, this`quic
      ensures State() == PumpOne(old(State()), id, reply)
    {
      if id !in slots || id !in quic {
        return;
      }
      var slot := DrainInbox(slots[id]);
      var stream;
      slot, stream := Offer(slot, quic[id], reply);
      slots := slots[id := slot];
      quic := quic[id := stream];
    }

    method PumpAll(ids: seq<nat>, replies: map<nat, Reply>)
      modifies this`slots, this`quic
      ensures State() == PumpOutbound(old(State()), ids, replies)
    {
      ghost var whole := PumpOutbound(State(), ids, replies);
      assert ids[0..] == ids;
      for i := 0 to |ids|
        invariant PumpOutbound(State(), ids[i..], replies) == whole
      {
        assert ids[i..][0] == ids[i] && ids[i..][1..] == ids[i + 1..];
        PumpStream(ids[i], ReplyOf(replies, ids[i]));
      }
    }
  }

  datatype Status = Written | Stalled | Broken | Waiting

  /** How many bytes a list of answers says were written. */
  function WrittenIn(results: seq<SendResult>): nat
  {
    if results == [] then 0
    else
      var last := results[|results| - 1];
      WrittenIn(results[..|results| - 1]) + if last.Wrote? then last.n else 0
  }

  /** How many of the latest answers in a row got nothing through. */
  function Idle(results: seq<SendResult>): nat
  {
    if results == [] || !results[|results| - 1].Done? then 0 else Idle(results[..|results| - 1]) + 1
  }

  /** With call `k` more than 32 in a row got nothing through. */
  predicate Tires(results: seq<SendResult>, k: nat)
    requires k < |results|
  {
    Idle(results[..k + 1]) > 32
  }

  /** Call `k` came after all bytes, so with the FIN, and went through. */
  predicate Finishes(size: nat, results: seq<SendResult>, k: nat)
    requires k < |results|
  {
    results[k].Wrote? && size <= WrittenIn(results[..k])
  }

  /** The loop ends with call `k`. */
  predicate Stops(size: nat, results: seq<SendResult>, k: nat)
    requires k < |results|
  {
    results[k].Failed? || Finishes(size, results, k) || Tires(results, k)
  }

  lemma WrittenSnoc(results: seq<SendResult>, i: nat)
    requires i < |results|
    ensures WrittenIn(results[..i + 1]) == WrittenIn(results[..i]) + if results[i].Wrote? then results[i].n else 0
    ensures Idle(results[..i + 1]) == if results[i].Done? then Idle(results[..i]) + 1 else 0
  {
    assert results[..i + 1][..i] == results[..i];
  }

  /** None of the first `n` calls ends the loop. */
  predicate GoesOn(size: nat, results: seq<SendResult>, n: nat)
    requires n <= |results|
  {
    forall k :: 0 <= k < n ==> !Stops(size, results, k)
  }

  lemma StillGoing(size: nat, results: seq<SendResult>, i: nat)
    requires i < |results| && (i > 0 ==> GoesOn(size, results, i - 1) && !Stops(size, results, i - 1))
    ensures GoesOn(size, results, i)
  {
  }

  /**
    `write_stream`: `results` are the answers of QUIC, one per call; `Waiting` says they ran out.
    The loop goes on to the first call that fails, that finishes, or that is one too many in a row
    to get nothing through. A FIN is only ever sent after the whole frame, and success with `fin` means
    both went through. Without `fin` the loop body never runs, so nothing at all is written.
   */
  method WriteStream(data: seq<byte>, fin: bool, results: seq<SendResult>)
    returns (status: Status, accepted: seq<byte>, finished: bool, calls: nat)
    ensures calls <= |results| && (calls > 0 ==> GoesOn(|data|, results, calls - 1))
    ensures accepted == data[..Min(|data|, WrittenIn(results[..calls]))]
    ensures finished ==> accepted == data
    ensures fin ==> (status == Written <==> finished)
    ensures !fin ==> status == Written && calls == 0 && accepted == [] && !finished
    ensures fin ==> (status == Broken <==> calls > 0 && results[calls - 1].Failed?)
    ensures fin ==> (status == Written <==> calls > 0 && Finishes(|data|, results, calls - 1))
    ensures fin ==> (status == Stalled <==> calls > 0 && Tires(results, calls - 1))
    ensures status == Waiting ==> calls == |results|
  {
    var offset, stalled, finSent, i := 0, 0, !fin, 0;
    accepted, finished, calls := [], false, 0;
    while !finSent && i < |results|
      invariant 0 <= i <= |results| && 0 <= offset <= |data| && accepted == data[..offset]
      invariant calls == i && offset == Min(|data|, WrittenIn(results[..i]))
      invariant fin ==> (finSent <==> finished)
      invariant !fin ==> finSent && i == 0 && !finished
      invariant stalled == Idle(results[..i]) <= 32 && (i > 0 ==> GoesOn(|data|, results, i - 1))
      invariant i > 0 ==> !results[i - 1].Failed? && (finished <==> Finishes(|data|, results, i - 1))
      invariant i == 0 ==> !finished
      invariant finished ==> offset == |data|
      decreases |results| - i
    {
      var last := offset >= |data|;
      WrittenSnoc(results, i);
      StillGoing(|data|, results, i);
      calls := i + 1;
      match results[i] {
        case Wrote(n) =>
          var written := if n < |data| - offset then n else |data| - offset;
          accepted := accepted + data[offset..offset + written];
          offset := offset + written;
          stalled := 0;
          if last {
            finSent, finished := true, true;
          }
        case Done => stalled := stalled + 1;
        case Failed => return Broken, accepted, false, calls;
      }
      i := i + 1;
      if stalled > 32 {
        return Stalled, accepted, false, calls;
      }
    }
    status := if finSent then Written else Waiting;
  }
}
