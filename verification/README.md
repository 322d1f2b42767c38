# SoildTunnel engine: a verified model

SoildTunnel's engine is a Rust tunnel client. This project models the parts of it that carry state,
loops and byte arithmetic, and proves what they promise over every input and every run.

- `PoolProtocol`, `PoolActs`: the sharded buffer pool. Each atomic counter operation, queue push and pop is one
  step of one of any number of tasks; the theorems hold in every interleaving.
- `ConsumeBuffers`: the vector that is consumed from the front, as an object and as a refinement of a
  byte queue, with the process-wide byte gauge.
- `NetStackModel`, `NetStackRuns`, `NetStackCloses`, `NetStackActs`, `NetStack`: the userspace TCP/UDP
  loop. The socket library is a contract: it accepts some prefix of what is sent, holds some received
  bytes, and changes phase at will. `NetStack` is the object with its methods, `NetStackModel` the
  functions that specify them, `NetStackRuns` the theorems over whole runs, `NetStackCloses` where
  closing does overtake data.
- `TuicCodec`, `TuicUdp`, `TuicReassembly`, `TuicStreams`, `TuicStreamRuns`, `TuicStreamLosses`,
  `TuicStreamActs`: the TUIC session. QUIC is a contract: `stream_send` accepts a prefix, and a FIN
  takes effect only with the whole slice.
- `Varint`, `Capsules`, `Datagrams`, `Checksum`: the framing of MASQUE.
- `Candidates`, `WireguardSupervisor`, `WireguardActs`, `GoolSupervisor`, `GoolActs`: the endpoint scan
  and the two reconnect loops.
- `Sni`, `Dechunk`: the ClientHello and chunked-body parsers.
- `Bytes`: shared byte strings and sequence facts.

Code that changes state is a class whose methods are proved against a function of the old state; the
theorems are about those functions. The modules whose names end in `Acts` say what each step does, and
exactly when, in terms of what it meets; the others say what every run keeps. Clocks, scans, the
socket library, QUIC, the allocator and all other surroundings are parameters of events, so a theorem
over all runs covers whatever they do.

Where the code does less than its design suggests, the model follows the code and proves the exact
condition:

- The netstack can close a connection with bytes still pending when the peer closed first or the app
  is gone (`ClosesEarlyIff`, `PeerCloseOvertakesData`); only the half-close path waits for the data
  (`CloseAfterData`).
- Reassembly panics exactly on a fragment whose index is not below the total its packet's box was
  opened with (`RunPanicsIff`, `MixedTotalsPanic`), and never when ids keep to one total
  (`AgreeingTotalsSurvive`).
- A duplicate that comes after its packet was delivered is taken for a part of the next packet with
  that id (`LateDuplicate`, `DuplicateMixes`).
- After a failed send a stream can still end cleanly, with the bytes that were pending missing
  (`EndsShortIff`, `RefusedThenEnded`).
- `strip_datagram_context` misreads an IPv4 packet with a header length of zero in one case
  (`BareUnchangedIff`).
- `write_stream` without `fin` writes nothing (`WriteStream`); both callers pass `fin`.
- A gool session never ends well (`NeverOk`), so the branch that replays the pair in memory is never
  taken (`DeadPairsRest`).
- `dechunk` stops on a size that is too large for the body, but panics when the sum leaves the address
  range or a slice ends inside a character (`Dechunk.PanicsIff`, `HugeSizePanics`, `TornBodies`).
- `expand` to fewer bytes than were consumed leaves a buffer that cannot be read; so does `truncate`
  with a count that wraps around in a release build, where `pop_front` gives consumed bytes out again
  (`StaysSoundIff`, `HeadBeyondEnd`, `PopsBack`).

`dafny verify dfyconfig.toml` checks the whole project.

## Model

| member | source | states |
|---|---|---|
| `PoolProtocol.RunInvariant` | native/engine/quiche/buffer-pool/src/lib.rs:102-206 | Every interleaving of any number of tasks, one atomic operation at a time, keeps the invariant: counts, room, gauges, clean queues, and each value in exactly one place. |
| `PoolProtocol.CapacityBound` | native/engine/quiche/buffer-pool/src/lib.rs:113-183 | In every reachable state, not only at rest, a shard's queue plus its reserved slots stays within `limit / shards`, `elem_cnt` is never negative, and all shards together hold at most `limit` idle values. |
| `PoolProtocol.ExactAtRest` | native/engine/quiche/buffer-pool/src/lib.rs:113-183 | When no call is in progress, `elem_cnt` of each shard is its queue length and the idle count, idle bytes and active gauges equal what is queued and what is live. |
| `PoolProtocol.QueuedValuesAreFree` | native/engine/quiche/buffer-pool/src/lib.rs:102-140 | In every reachable state a queued value is cleared, has capacity, is held by no owner, was not discarded and was not handed out by `into_inner`; idle gauges cover it. |
| `PoolProtocol.KeptIffRoom` | native/engine/quiche/buffer-pool/src/lib.rs:113-140 | The bound is not met by throwing values away: with no other call in progress, a dropped value that keeps capacity gets a slot if and only if its shard's queue is not full. |
| `PoolProtocol.NewPoolInvariant` | native/engine/quiche/buffer-pool/src/lib.rs:145-163 | A new pool, its limit divided evenly over the shards, satisfies the invariant. |
| `PoolProtocol.AdvanceCounted` | native/engine/quiche/buffer-pool/src/lib.rs:113-183 | Each atomic step of `get` or `drop` keeps `elem_cnt` equal to queue length plus slots in flight, and queue plus reservations within `max`. |
| `PoolProtocol.AdvanceGauged` | native/engine/quiche/buffer-pool/src/lib.rs:113-183 | Each atomic step keeps all three gauges equal to what is queued, live or owed by a task in flight. |
| `PoolProtocol.AdvanceDistinct` | native/engine/quiche/buffer-pool/src/lib.rs:102-183 | Each atomic step keeps every value ever made in exactly one of queues, tasks, `into_inner` results and discards. |
| `PoolProtocol.StartInvariant` | native/engine/quiche/buffer-pool/src/lib.rs:168-206 | Starting `get`, `get_empty` or `from_owned` keeps the invariant. |
| `PoolProtocol.DrawIs` | native/engine/quiche/buffer-pool/src/lib.rs:168-206 | The shard drawn round-robin is the remainder of the counter by the number of shards. |
| `PoolProtocol.OwnerInvariant` | native/engine/quiche/buffer-pool/src/lib.rs:102-119 | Using a value, dropping it, or `into_inner` with the drop of the default left behind keeps the invariant. |
| `PoolActs.ReusesIff` | native/engine/quiche/buffer-pool/src/lib.rs:168-183 | In every reachable state the pop of a get makes a new value if and only if its shard is empty; otherwise it takes the value queued longest, which has then left the queue. |
| `PoolActs.GetReuses` | native/engine/quiche/buffer-pool/src/lib.rs:168-183 | A whole uninterrupted get from a shard that is not empty ends with the caller owning the value queued longest; count and gauges drop by exactly that value and nothing else changes. |
| `PoolActs.GetMakes` | native/engine/quiche/buffer-pool/src/lib.rs:168-183 | A whole get from an empty shard makes a new, empty value and counts it as active. |
| `PoolActs.DropKeeps` | native/engine/quiche/buffer-pool/src/lib.rs:113-135 | A whole drop of a value that keeps capacity, with the shard below its share, queues it, cleared, behind the others; count and gauges grow by exactly that value. |
| `PoolActs.DropDiscards` | native/engine/quiche/buffer-pool/src/lib.rs:113-140 | A whole drop that leaves no capacity or finds the shard at its share discards the value and changes nothing else. |
| `PoolActs.ComesBack` | native/engine/quiche/buffer-pool/src/lib.rs:113-183 | A value dropped into an empty shard with room is the one the next get from it hands out, and counters, gauges and shards are as before the drop. |
| `PoolActs.QueuesBehind` | native/engine/quiche/buffer-pool/src/lib.rs:125-131 | In every reachable state a value that is put back stands behind all that were queued before it. |
| `PoolActs.RoundRobin` | native/engine/quiche/buffer-pool/src/lib.rs:168-206 | In every run the draw after d others falls on shard d modulo the width of the counter modulo the number of shards, for a get as for a value taken over; an empty value goes to the shard whose turn is next. |
| `ConsumeBuffers.RefinesQueue` | native/engine/quiche/buffer-pool/src/buffer.rs:46-144 | Every run of operations in which no count wraps around, whatever the allocator answers, is the same run on a byte queue with head room: it succeeds in the same cases and shows the same bytes. |
| `ConsumeBuffers.RefinesQueueIff` | native/engine/quiche/buffer-pool/src/buffer.rs:46-144 | Vector and queue agree after every operation of a run if and only if no `pop_front` or `truncate` of it is called with a count that, added to the head, leaves the address range. |
| `ConsumeBuffers.StepRefinesIff` | native/engine/quiche/buffer-pool/src/buffer.rs:46-144 | The same for one operation on any readable vector. |
| `ConsumeBuffers.StaysSoundIff` | native/engine/quiche/buffer-pool/src/buffer.rs:98-113 | The head stays within the vector if and only if the operation is neither an `expand` to fewer bytes than were consumed nor a `truncate` whose count wraps around with the head. |
| `ConsumeBuffers.HeadBeyondEnd` | native/engine/quiche/buffer-pool/src/buffer.rs:103-113 | Such operations: one byte, consumed, then `expand` to nothing or `truncate` to the largest count. |
| `ConsumeBuffers.PopsBack` | native/engine/quiche/buffer-pool/src/buffer.rs:98-101 | A `pop_front` whose count wraps around passes its assertion and puts consumed bytes back in front of the view, as many as the count falls short of the address range. |
| `ConsumeBuffers.ViewsAre` | native/engine/quiche/buffer-pool/src/buffer.rs:46-144 | What a reader sees after each operation: popping takes bytes off the front and fails beyond the end, a prefix that fits comes in front, truncating keeps the first bytes, extending adds behind, reusing leaves nothing. |
| `ConsumeBuffers.PrefixUndoesPop` | native/engine/quiche/buffer-pool/src/buffer.rs:98-124 | Putting back what was popped restores the very same buffer. |
| `ConsumeBuffers.FirstInFirstOut` | native/engine/quiche/buffer-pool/src/buffer.rs:98-101 | In any run of extends and pops, the popped bytes followed by the bytes left are the initial bytes followed by all bytes added. |
| `ConsumeBuffers.GaugeIsExact` | native/engine/quiche/buffer-pool/src/buffer.rs:75-136 | After any run over any number of buffers the global gauge is the sum of the capacities of the live ones. |
| `ConsumeBuffers.GaugeReturnsToZero` | native/engine/quiche/buffer-pool/src/buffer.rs:75-96 | With every buffer dropped or taken apart the gauge is zero. |
| `ConsumeBuffers.ConsumeBuffer.constructor` | native/engine/quiche/buffer-pool/src/buffer.rs:82-85 | The buffer starts with the vector and head zero; the gauge grows by its capacity. |
| `ConsumeBuffers.ConsumeBuffer.PopFront` | native/engine/quiche/buffer-pool/src/buffer.rs:98-101 | The new state is that of the specification step, wrap-around included; the assertion of the code is the precondition. |
| `ConsumeBuffers.ConsumeBuffer.AddPrefix` | native/engine/quiche/buffer-pool/src/buffer.rs:115-124 | Succeeds if and only if the prefix fits the head room, and then the state is that of the specification step. |
| `ConsumeBuffers.ConsumeBuffer.Truncate` | native/engine/quiche/buffer-pool/src/buffer.rs:111-113 | The new state is that of the specification step, wrap-around included. |
| `ConsumeBuffers.ConsumeBuffer.Expand` | native/engine/quiche/buffer-pool/src/buffer.rs:103-109 | The new state is that of the specification step and the gauge follows the capacity. |
| `ConsumeBuffers.ConsumeBuffer.Extend` | native/engine/quiche/buffer-pool/src/buffer.rs:138-144 | The new state is that of the specification step and the gauge follows the capacity. |
| `ConsumeBuffers.ConsumeBuffer.Reuse` | native/engine/quiche/buffer-pool/src/buffer.rs:60-73 | The buffer is empty with head zero, the gauge follows the capacity, and the result says whether capacity is left. |
| `ConsumeBuffers.ConsumeBuffer.IntoVec` | native/engine/quiche/buffer-pool/src/buffer.rs:87-96 | Returns exactly the readable bytes; the gauge gives back the capacity once although the emptied buffer is then dropped. |
| `ConsumeBuffers.ConsumeBuffer.Drop` | native/engine/quiche/buffer-pool/src/buffer.rs:75-79 | The gauge gives back the capacity. |
| `ConsumeBuffers.ConsumeBuffer.UpdateMetricsAfterResize` | native/engine/quiche/buffer-pool/src/buffer.rs:126-135 | The gauge moves by the difference of the capacities, in either direction. |
| `NetStackRuns.RunInvariant` | native/engine/soildtunnel/src/netstack.rs:470-572 | Every run of app sends, closes, commands, polls, service passes, retries and ingests keeps ownership, stream flow, replies and known ids, and the pending limit never changes. |
| `NetStackRuns.StreamsConserved` | native/engine/soildtunnel/src/netstack.rs:502-566 | In every run, for every connection in the table: bytes accepted by the socket, pending, deferred and queued are in this order exactly what the app sent; what the app got and the socket still holds is what the socket received; pending stays within `max_tcp_pending` and at most one item is deferred. |
| `NetStackRuns.CloseAfterData` | native/engine/soildtunnel/src/netstack.rs:749-755 | In every run, each close issued on the half-close path, even in the pass that removed the connection, found nothing pending, and the socket had by then accepted every byte the app sent before its first close. |
| `NetStackRuns.LiveCloseAfterData` | native/engine/soildtunnel/src/netstack.rs:749-755 | For a connection still in the table, the closes its socket records show the same. |
| `NetStackCloses.ClosesEarlyIff` | native/engine/soildtunnel/src/netstack.rs:733-801 | A pass calls `close` with bytes still pending if and only if the socket does not take all pending bytes and the peer has closed its side or the app is gone by an attempt the receive loop gets to. |
| `NetStackCloses.GoneIff` | native/engine/soildtunnel/src/netstack.rs:757-787 | The receive loop finds the app gone if and only if one of its first 128 attempts is refused as closed and every earlier one still found bytes to deliver. |
| `NetStackCloses.PeerCloseOvertakesData` | native/engine/soildtunnel/src/netstack.rs:470-812 | A whole run from the start: the app sends three bytes, the socket takes one, the peer closes, and the socket is closed after the second byte with the third left behind. |
| `NetStackActs.PassActs` | native/engine/soildtunnel/src/netstack.rs:733-801 | A pass in terms of what it meets: how many bytes the socket takes, which calls of `close` it makes and in which order, the phase they lead to, and that pending bytes are dropped in TimeWait alone. |
| `NetStackActs.HalfCloseIff` | native/engine/soildtunnel/src/netstack.rs:749-755 | A pass calls `close` for the app's own close if and only if the app closed and the socket takes all pending bytes; it is then the first call, with nothing pending and all bytes accepted. |
| `NetStackActs.CloseIsCalled` | native/engine/soildtunnel/src/netstack.rs:692-755 | In every run a service pass over a listed connection whose close was handled and whose bytes the socket takes adds that close, with all the app sent but what is still queued accepted. |
| `NetStackActs.CloseIsHandled` | native/engine/soildtunnel/src/netstack.rs:550-566 | A close the app queued is known to its connection after the data arm, or is still queued behind an item for a connection that is full. |
| `NetStackActs.PassDelivers` | native/engine/soildtunnel/src/netstack.rs:757-787 | A pass hands the app exactly the bytes of the chunks the receive loop gets to: each found a permit and bytes, and the next does not or is the 129th. |
| `NetStackActs.DeliversOnce` | native/engine/soildtunnel/src/netstack.rs:757-787 | That number of chunks is determined by what the loop meets. |
| `NetStackActs.ServiceOneActs` | native/engine/soildtunnel/src/netstack.rs:692-808 | One iteration of `service_tcp`: when the opener is answered and gets the connection, when the entry and its socket go, and what the entry is otherwise. |
| `NetStackActs.ServiceDelivers` | native/engine/soildtunnel/src/netstack.rs:692-808 | What the app gets in that iteration. |
| `NetStackActs.ServiceEach` | native/engine/soildtunnel/src/netstack.rs:692-812 | Every listed connection gets its own pass, whatever the others do, and its calls of `close` are those of the run. |
| `NetStackActs.UnlistedAlike` | native/engine/soildtunnel/src/netstack.rs:692-812 | A connection that is not listed is left alone. |
| `NetStackActs.TryHandleActs` | native/engine/soildtunnel/src/netstack.rs:651-690 | An item is put back only for a connection that is then full; a close is always taken and marks exactly its connection; a UDP close removes exactly its entry. |
| `NetStackActs.IngestActs` | native/engine/soildtunnel/src/netstack.rs:550-566 | The data arm leaves an item queued only when one was put back for a full connection; exactly the closes among the items taken are known. |
| `NetStackActs.RetryActs` | native/engine/soildtunnel/src/netstack.rs:502-507 | The retry loop stops early only at an item whose connection is full, and leaves the rest in order. |
| `NetStackActs.CommandActs` | native/engine/soildtunnel/src/netstack.rs:581-649 | Opening takes the next id and port, adds exactly one entry and socket when it succeeds, and answers every opener but that of a connection being made. |
| `NetStackActs.PendingLimit` | native/engine/soildtunnel/src/netstack.rs:40-42 | In every run a connection may hold twice the socket buffer, but at least 64 KiB. |
| `NetStackRuns.SocketsOwned` | native/engine/soildtunnel/src/netstack.rs:581-649 | In every reachable state the socket set is the disjoint union of the handles of the two tables, no handle is shared, and the next port is in the ephemeral range. |
| `NetStackRuns.OpenersAnsweredOnce` | native/engine/soildtunnel/src/netstack.rs:705-731 | In every run each opener is answered at most once, one not answered yet waits in the entry of its own connection, and an entry has a pending reply if and only if it is not established. |
| `NetStackRuns.IdsNeverReused` | native/engine/soildtunnel/src/netstack.rs:581-649 | An id that has left the tables at any point of a run never returns to them. |
| `NetStackRuns.HandleHead` | native/engine/soildtunnel/src/netstack.rs:651-690 | `try_handle_data` moves bytes from the head of the flow into pending, or puts the remainder back at the head, so every connection's flow is conserved. |
| `NetStackRuns.ServeFins` | native/engine/soildtunnel/src/netstack.rs:733-801 | Every close a pass issues is accounted for: on the half-close path nothing is pending and the mark has been accepted. |
| `NetStackModel.ServeKeeps` | native/engine/soildtunnel/src/netstack.rs:733-801 | A pass keeps both byte streams of a connection in order and in full, unless the socket is in TimeWait, where pending is dropped. |
| `NetStackModel.ReceiveKeeps` | native/engine/soildtunnel/src/netstack.rs:757-787 | The receive loop only moves bytes from the socket to the app, in order. |
| `NetStackModel.ServiceOneOwned` | native/engine/soildtunnel/src/netstack.rs:692-808 | Servicing one connection keeps the ownership of sockets by table entries. |
| `NetStackModel.HandleCmdOwned` | native/engine/soildtunnel/src/netstack.rs:581-649 | Opening TCP or UDP sockets keeps ownership, given a handle not in use. |
| `NetStackModel.HandlesPartition` | native/engine/soildtunnel/src/netstack.rs:301-325 | Ownership means: socket handles are the disjoint union of both tables' handles, and no two entries share one. |
| `NetStackModel.PortsRepeatIff` | native/engine/soildtunnel/src/netstack.rs:464-468 | Ports stay in the ephemeral range, and two allocations give the same port if and only if whole cycles of the range lie between them. |
| `NetStack.Loop.constructor` | native/engine/soildtunnel/src/netstack.rs:429-462 | The loop starts empty, with the first ephemeral port and the pending limit of the buffer size. |
| `NetStack.Loop.TryHandleData` | native/engine/soildtunnel/src/netstack.rs:651-690 | The object's new state and what is given back are those of the specification function. |
| `NetStack.Loop.RetryDeferred` | native/engine/soildtunnel/src/netstack.rs:502-507 | The retry loop leaves the state and the deferred items of the specification. |
| `NetStack.Loop.IngestData` | native/engine/soildtunnel/src/netstack.rs:550-566 | The receive arm leaves the state, the deferred items and the queue of the specification. |
| `NetStack.Loop.RunCommand` | native/engine/soildtunnel/src/netstack.rs:581-649 | `handle_cmd` leaves the state of the specification. |
| `NetStack.Loop.DeliverChunks` | native/engine/soildtunnel/src/netstack.rs:757-787 | The receive loop, with its limit on chunks, gives the connection, socket and gone flag of the specification. |
| `NetStack.Loop.PumpConn` | native/engine/soildtunnel/src/netstack.rs:733-801 | One connection's send, half-close, receive and close steps give the specification's result. |
| `NetStack.Loop.GreetConn` | native/engine/soildtunnel/src/netstack.rs:705-718 | An established connection answers its opener and is handed to the app. |
| `NetStack.Loop.RefuseConn` | native/engine/soildtunnel/src/netstack.rs:720-731 | A connection that died before it was established answers its opener and is removed. |
| `NetStack.Loop.WorkConn` | native/engine/soildtunnel/src/netstack.rs:733-808 | Bytes move and a dead established connection is removed, as specified. |
| `NetStack.Loop.ServiceConn` | native/engine/soildtunnel/src/netstack.rs:692-808 | One iteration of `service_tcp` as specified. |
| `NetStack.Loop.ServiceTcp` | native/engine/soildtunnel/src/netstack.rs:692-812 | `service_tcp` over the ids of the table as specified. |
| `NetStack.Loop.Handle` | native/engine/soildtunnel/src/netstack.rs:470-572 | One event, an arm of the loop or what another task does between two arms, takes the object to the world the run theorems speak of. |
| `NetStack.Loop.Run` | native/engine/soildtunnel/src/netstack.rs:470-572 | The loop over any run of events ends in exactly the world of that run, with the invariant kept. |
| `TuicCodec.DecodeIff` | native/engine/soildtunnel/src/outbound.rs:344-390 | Decoding an address yields `(a, n)` if and only if the first `n` bytes are the encoding of the well-typed address `a`, whatever follows. |
| `TuicCodec.DecodeSound` | native/engine/soildtunnel/src/outbound.rs:344-390 | Whatever decodes is the encoding of the address it decodes to. |
| `TuicCodec.DecodeComplete` | native/engine/soildtunnel/src/outbound.rs:312-390 | Every encoded address decodes to itself. |
| `TuicCodec.PacketRoundTrip` | native/engine/soildtunnel/src/outbound.rs:401-448 | A built packet parses back to its packet id, total, index, size, address and consumed length, and what follows is the payload. |
| `TuicCodec.AddressBytes` | native/engine/soildtunnel/src/outbound.rs:312-342 | Each kind of address byte by byte: tag, octets or counted name, port with the high byte first; names over 255 bytes do not encode. |
| `TuicCodec.AddressRefusedIff` | native/engine/soildtunnel/src/outbound.rs:344-390 | Decoding fails if and only if the tag is none of the four or the address is cut short. |
| `TuicCodec.PacketBytes` | native/engine/soildtunnel/src/outbound.rs:436-448 | Where each field of a built packet stands and what it holds. |
| `TuicCodec.HeadIff` | native/engine/soildtunnel/src/outbound.rs:401-432 | A header is read if and only if there are ten bytes of version five and command two with an address behind them, and each field is read from its place. |
| `TuicUdp.SendUdp` | native/engine/soildtunnel/src/outbound.rs:985-1050 | Sends exactly the first `accepts` of the frames of the packet, none when it cannot be sent. |
| `TuicUdp.SendTo` | native/engine/soildtunnel/src/outbound.rs:985-1003 | Nothing is sent without an encodable target and room beside its address; otherwise the frames for it are. |
| `TuicUdp.SendWithin` | native/engine/soildtunnel/src/outbound.rs:1004-1049 | One frame when the payload fits beside the address, else the fragments unless they are too many. |
| `TuicUdp.SendFragments` | native/engine/soildtunnel/src/outbound.rs:1026-1049 | The fragment loop sends the packets of the slices in order, until the connection refuses one. |
| `TuicUdp.CountFragments` | native/engine/soildtunnel/src/outbound.rs:1019-1024 | The rounded-up division counts exactly the slices the payload is cut into. |
| `TuicUdp.SlicesPartition` | native/engine/soildtunnel/src/outbound.rs:1019-1049 | The slices concatenate to the payload; the first fits beside the address, the others are non-empty and fit a frame without one. |
| `TuicUdp.SlicesAreFull` | native/engine/soildtunnel/src/outbound.rs:1019-1049 | Every slice but the last fills the room its frame has. |
| `TuicUdp.BudgetIs` | native/engine/soildtunnel/src/outbound.rs:994-997 | The budget is what the connection can write, at most 65535, which also stands for no answer. |
| `TuicUdp.FramesFit` | native/engine/soildtunnel/src/outbound.rs:985-1050 | There are at most 255 frames, each fits the budget, parses to its own header, and carries its own slice; the slices partition the payload. |
| `TuicUdp.SendsNothingIff` | native/engine/soildtunnel/src/outbound.rs:985-1024 | Nothing is sent if and only if the name is too long, the budget leaves no room, or 255 frames are not enough. |
| `TuicReassembly.Reassembled` | native/engine/soildtunnel/src/outbound.rs:869-1050 | With no box open for its id, frames of one packet, in any order, repeated at will and mixed with any other datagrams, deliver exactly the payload that was sent with the first frame's address, at the moment the last missing frame arrives and not before. |
| `TuicReassembly.ReassembledAmong` | native/engine/soildtunnel/src/outbound.rs:869-1050 | The same round trip assuming only that the other packets in flight keep to one total each. |
| `TuicReassembly.Incomplete` | native/engine/soildtunnel/src/outbound.rs:876-939 | Nothing is delivered for a packet while a frame is missing; its box holds exactly the frames that arrived. |
| `TuicReassembly.ReassembledAfter` | native/engine/soildtunnel/src/outbound.rs:869-940 | The round trip after any run of datagrams: with no box open for the id, told from the headers alone, the packet comes out as sent; with one open for as many fragments, it comes out with the places filled there in place of its own slices. |
| `TuicReassembly.LateDuplicate` | native/engine/soildtunnel/src/outbound.rs:907-938 | A fragment that comes when its id has no box opens one; the next packet with that id and total is delivered with that fragment in place of its own, and comes out as it was sent if and only if the two are the same. |
| `TuicReassembly.DuplicateMixes` | native/engine/soildtunnel/src/outbound.rs:907-938 | Such runs: the second of two fragments, repeated after delivery, is delivered again in the next packet with its id. |
| `TuicReassembly.StaleBox` | native/engine/soildtunnel/src/outbound.rs:907-938 | The box a run has left an id lacks some places and keeps exactly the indices seen since it was opened. |
| `TuicReassembly.DroppedIff` | native/engine/soildtunnel/src/outbound.rs:876-910 | A datagram is dropped if and only if it is no whole packet frame, byte by byte, or a fragment whose index is not below its own total; a frame of a total below two is delivered as it is. |
| `TuicReassembly.DeliveredAtOnce` | native/engine/soildtunnel/src/outbound.rs:876-939 | A packet of one frame is delivered on arrival and the table is untouched. |
| `TuicReassembly.OursStep` | native/engine/soildtunnel/src/outbound.rs:876-939 | A frame of the packet completes its box, which is delivered with whatever it held before in place, or is stored; a duplicate changes nothing. |
| `TuicReassembly.OtherStep` | native/engine/soildtunnel/src/outbound.rs:876-939 | A datagram of another packet, or one that does not parse, leaves the box alone. |
| `TuicReassembly.RunPanicsIff` | native/engine/soildtunnel/src/outbound.rs:869-940 | A run of datagrams from the start panics if and only if one of them is a fragment whose index is not below the total of the fragment that opened its packet's box, the opener being told from the headers received alone. |
| `TuicReassembly.PanicsAtIff` | native/engine/soildtunnel/src/outbound.rs:876-939 | The run panics at a given datagram, having come that far, if and only if that datagram is such a misfit. |
| `TuicReassembly.RunTracks` | native/engine/soildtunnel/src/outbound.rs:876-939 | After any run that has not panicked, a packet has a box if and only if the headers say one is open, with the places of its opener's total and exactly the indices seen since filled. |
| `TuicReassembly.MixedTotalsPanic` | native/engine/soildtunnel/src/outbound.rs:907-925 | Such runs: any two fragments of one packet id, the second index not below the first total. |
| `TuicReassembly.PanicsIff` | native/engine/soildtunnel/src/outbound.rs:907-925 | One datagram panics over a given table if and only if it is a valid fragment whose index lies beyond the box its packet id already has. |
| `TuicReassembly.AgreeingTotalsSurvive` | native/engine/soildtunnel/src/outbound.rs:907-925 | When every packet id keeps to one total, no run of datagrams does that. |
| `TuicReassembly.Session.PumpDatagrams` | native/engine/soildtunnel/src/outbound.rs:869-940 | The loop over received datagrams leaves the fragment table and the outcomes of the specification. |
| `TuicReassembly.Session.HandleDatagram` | native/engine/soildtunnel/src/outbound.rs:876-939 | One turn of the loop as specified. |
| `TuicReassembly.Session.JoinParts` | native/engine/soildtunnel/src/outbound.rs:927-936 | Joining the parts concatenates those present in index order. |
| `TuicReassembly.Session.OpenChannel` | native/engine/soildtunnel/src/outbound.rs:586-598 | A new UDP channel starts from an empty fragment table, so the run theorems apply to what is received since. |
| `TuicStreamRuns.StreamsConserved` | native/engine/soildtunnel/src/outbound.rs:683-815 | In every run, absent a stream error: what QUIC accepted, what is pending and what is queued are the CONNECT header and all the app sent, in order; the FIN takes effect at most once and only after the last byte; a retired stream has accepted everything and its FIN took effect exactly once. |
| `TuicStreamRuns.StreamIds` | native/engine/soildtunnel/src/outbound.rs:551-580 | In every run stream ids are fresh multiples of four, and the unidirectional ids are never among them (section 2.1 of RFC 9000). |
| `TuicStreamRuns.RunInvariant` | native/engine/soildtunnel/src/outbound.rs:559-635 | Every run of opens, sends, drops, pumps, remote ends, retains and dissociates keeps the stream invariant. |
| `TuicStreamRuns.SendKeeps` | native/engine/soildtunnel/src/outbound.rs:786-812 | One `stream_send`, fully, partly or not accepted, keeps the stream conserved and counts the FIN only when the whole slice was taken. |
| `TuicStreamRuns.DrainKeeps` | native/engine/soildtunnel/src/outbound.rs:769-785 | Emptying the channel into pending keeps the stream conserved. |
| `TuicStreamRuns.Finished` | native/engine/soildtunnel/src/outbound.rs:629 | A slot that may be retired has given everything to QUIC and its FIN took effect. |
| `TuicStreamActs.PumpActs` | native/engine/soildtunnel/src/outbound.rs:766-815 | One pump in terms of the slot and QUIC's answer: how many bytes are accepted, whether a FIN takes effect, and what the slot remembers. |
| `TuicStreamActs.EndsIff` | native/engine/soildtunnel/src/outbound.rs:769-813 | A FIN takes effect if and only if the app dropped its end or a send failed, QUIC takes all that is pending and queued, and there is something or no FIN was sent yet. |
| `TuicStreamActs.DroppedIsEnded` | native/engine/soildtunnel/src/outbound.rs:766-815 | In every run, on a stream never refused: once the app dropped its end, a pump in which QUIC takes all leaves the stream ended once with all the app sent accepted. |
| `TuicStreamActs.PumpEach` | native/engine/soildtunnel/src/outbound.rs:766-815 | Every listed stream is pumped with its own answer. |
| `TuicStreamActs.RetiresIff` | native/engine/soildtunnel/src/outbound.rs:629 | A slot is retired if and only if the remote side is done, nothing is pending and the FIN was sent; the others stay as they are. |
| `TuicStreamActs.OpensIff` | native/engine/soildtunnel/src/outbound.rs:563-586 | A stream is opened if and only if there is room, its target can be encoded and QUIC lets it exist; it then owes the header and nothing else. |
| `TuicStreamActs.StreamsBounded` | native/engine/soildtunnel/src/outbound.rs:559-635 | In every run there are never more streams than the limit. |
| `TuicStreamLosses.LedgerConserved` | native/engine/soildtunnel/src/outbound.rs:766-815 | In every run, on every stream, refused or not: what QUIC took and what failed sends lost, in order, then what is pending and queued, are all the app sent; QUIC accepted what it took, and every FIN is on record with what had been accepted and sent by then. |
| `TuicStreamLosses.EndsShortIff` | native/engine/soildtunnel/src/outbound.rs:797-813 | A FIN takes effect on a stream that accepted all the app had sent if and only if no earlier send on it failed with bytes pending. |
| `TuicStreamLosses.OnlyRefusalsLose` | native/engine/soildtunnel/src/outbound.rs:797-813 | On a stream that was never refused nothing is missing. |
| `TuicStreamLosses.RefusedThenEnded` | native/engine/soildtunnel/src/outbound.rs:786-813 | Such a run from the start: the send of the header fails, and the next pump ends a stream that accepted nothing. |
| `TuicStreamLosses.PumpNoted` | native/engine/soildtunnel/src/outbound.rs:769-813 | One pump of a slot, whatever QUIC answers, keeps its ledger in step with slot and stream. |
| `TuicStreams.HeaderNamesTarget` | native/engine/soildtunnel/src/outbound.rs:683-693 | The CONNECT header holds version and command and its address decodes to the very target, with nothing left over. |
| `TuicStreams.Tunnel.OpenTcp` | native/engine/soildtunnel/src/outbound.rs:683-718 | Opens exactly when the limit, the address and QUIC allow it, with the CONNECT header pending on a new id. |
| `TuicStreams.Tunnel.DrainInbox` | native/engine/soildtunnel/src/outbound.rs:769-785 | The receive loop appends all queued chunks to pending and notes a dropped sender. |
| `TuicStreams.Tunnel.Offer` | native/engine/soildtunnel/src/outbound.rs:786-812 | The offer of pending bytes to QUIC as specified. |
| `TuicStreams.Tunnel.PumpStream` | native/engine/soildtunnel/src/outbound.rs:769-815 | One stream of `pump_outbound` as specified. |
| `TuicStreams.Tunnel.PumpAll` | native/engine/soildtunnel/src/outbound.rs:769-815 | `pump_outbound` over all streams as specified. |
| `TuicStreams.WriteStream` | native/engine/soildtunnel/src/outbound.rs:720-752 | The loop makes exactly the calls up to the first that fails, that carries the FIN and goes through, or that is the 33rd in a row to get nothing through, and its result says which; what is accepted is the prefix those calls wrote, and without `fin` nothing is written. |
| `Varint.GetPut` | native/engine/quiche/octets/src/lib.rs:187-209 | A variable-length integer written with any of the four lengths it fits reads back, with that length, whatever follows (section 16 of RFC 9000). |
| `Varint.GetEncode` | native/engine/quiche/octets/src/lib.rs:826-849 | So does the shortest encoding. |
| `Varint.GetStable` | native/engine/quiche/octets/src/lib.rs:187-209 | More input never changes an integer that was complete. |
| `Varint.GetIff` | native/engine/quiche/octets/src/lib.rs:187-209 | Reading yields a value and a length if and only if the input starts with that value written in that length. |
| `Varint.GetBytes` | native/engine/quiche/octets/src/lib.rs:187-209 | Reading byte by byte: the two leading bits give the length, 1, 2, 4 or 8 bytes, and the rest of those bytes the value. |
| `Varint.ShortestLength` | native/engine/quiche/octets/src/lib.rs:826-849 | The length an integer is written in is the least that holds it. |
| `Capsules.ChunkInvariance` | native/engine/soildtunnel/src/masque.rs:150-204 | However a stream is cut into pushes and whenever capsules are pulled, those that come out are a prefix of the stream parsed at once, all of them once a pull finds nothing, and consumed bytes plus buffer are the bytes pushed. |
| `Capsules.CapsulesRoundTrip` | native/engine/soildtunnel/src/masque.rs:91-204 | The encodings of any capsules, cut into pushes in any way that fits the buffer, come out as exactly those capsules (section 3.2 of RFC 9297). |
| `Capsules.ParseAppend` | native/engine/soildtunnel/src/masque.rs:170-204 | What has been parsed stays parsed; the tail is parsed together with new input. |
| `Capsules.CapsuleParser.Push` | native/engine/soildtunnel/src/masque.rs:161-168 | The buffer is extended or, when that would pass 256 KiB, emptied with the new data dropped, as specified. |
| `Capsules.CapsuleParser.Next` | native/engine/soildtunnel/src/masque.rs:170-204 | Takes exactly the first complete capsule off the buffer and interprets it; an incomplete one leaves the buffer alone. |
| `Capsules.CapsuleParser.Peek` | native/engine/soildtunnel/src/masque.rs:170-184 | The kind, value and length of the first capsule, or nothing while it is incomplete. |
| `Capsules.ParseAssigns` | native/engine/soildtunnel/src/masque.rs:212-236 | The loop reads entries until the value is used up or one is malformed, as specified. |
| `Capsules.ParseRoutes` | native/engine/soildtunnel/src/masque.rs:238-262 | The loop reads ranges until the value is used up or one is malformed, as specified. |
| `Capsules.AssignsRoundTrip` | native/engine/soildtunnel/src/masque.rs:212-236 | Every list of well-formed address assignments reads back from its encoding, whichever of the four lengths each request id is written in (section 4.7.1 of RFC 9484). |
| `Capsules.AssignsIff` | native/engine/soildtunnel/src/masque.rs:212-236 | Reading yields a list of assignments if and only if the value is an encoding of that list, each request id in one of the lengths that hold it. |
| `Capsules.TakeIff` | native/engine/soildtunnel/src/masque.rs:170-184 | A capsule is taken off the buffer if and only if the buffer begins with it, in whatever lengths its kind and its length are written. |
| `Capsules.KindsMean` | native/engine/soildtunnel/src/masque.rs:186-204 | What each kind stands for: a datagram, the assignments or the routes its value encodes, an address request, or something unknown kept as it is. |
| `Capsules.BadIff` | native/engine/soildtunnel/src/masque.rs:186-204 | A capsule is refused if and only if its value encodes no list of what its kind stands for. |
| `Capsules.RoutesIff` | native/engine/soildtunnel/src/masque.rs:238-262 | A route advertisement reads as `es` if and only if it is the one encoding of the well-formed list `es`. |
| `Datagrams.DecodeEncode` | native/engine/soildtunnel/src/masque.rs:52-89 | A datagram decodes to its packet on streams with its quarter stream id and to nothing on all others (section 2.1 of RFC 9297). |
| `Datagrams.StripsContext` | native/engine/soildtunnel/src/masque.rs:119-148 | After any of the four encodings of context zero, 20 bytes or more with the version nibble of IPv4 or IPv6 come back unchanged. |
| `Datagrams.BareUnchangedIff` | native/engine/soildtunnel/src/masque.rs:119-148 | A bare packet comes back unchanged if and only if it does not start with the two-byte zero context followed by what looks like a packet. |
| `Datagrams.RealPacketsUnchanged` | native/engine/soildtunnel/src/masque.rs:119-148 | Every packet of 20 bytes or more that is IPv6, or IPv4 with a header length of at least five, comes back unchanged, bare and after any encoding of context zero. |
| `Datagrams.StripsNothingIff` | native/engine/soildtunnel/src/masque.rs:119-148 | A payload yields nothing if and only if neither it nor what follows a zero context in it is 20 bytes or more with one of the two version nibbles. |
| `Datagrams.ContextForms` | native/engine/soildtunnel/src/masque.rs:119-148 | The four forms of context zero, byte by byte. |
| `Datagrams.DecodesIff` | native/engine/soildtunnel/src/masque.rs:73-89 | A packet is decoded if and only if the datagram is the quarter stream id, a zero context and that packet, in whatever lengths the two integers are written. |
| `Datagrams.MalformedIff` | native/engine/soildtunnel/src/masque.rs:73-89 | A datagram is malformed if and only if it ends inside its first integer, or is for this stream and ends inside the second. |
| `Datagrams.AmbiguousPacket` | native/engine/soildtunnel/src/masque.rs:119-148 | The packets that do not: an IPv4 header length of zero and a version nibble in the third byte. |
| `Checksum.HeaderChecksum` | native/engine/soildtunnel/src/masque.rs:328-342 | The result is the complement of the folded word sum if and only if that sum fits the 32 bits of the accumulator; otherwise it overflows. |
| `Checksum.SumWords` | native/engine/soildtunnel/src/masque.rs:329-337 | The summing loop gives the word sum, or overflows exactly when it needs more than 32 bits. |
| `Checksum.FoldCarries` | native/engine/soildtunnel/src/masque.rs:338-341 | The folding loop terminates with the folded sum and never leaves 32 bits. |
| `Checksum.HeadersFit` | native/engine/soildtunnel/src/masque.rs:328-337 | No header of up to 131072 bytes overflows. |
| `Checksum.ZeroIff` | native/engine/soildtunnel/src/masque.rs:328-342 | A checksum is zero if and only if the words sum to a positive multiple of 65535 (RFC 1071). |
| `Checksum.SumIs` | native/engine/soildtunnel/src/masque.rs:328-342 | The checksum makes the words and it add up to a multiple of 65535, all ones standing for words that are all zero. |
| `Checksum.Verifies` | native/engine/soildtunnel/src/masque.rs:295-299 | Written into its zeroed field, the checksum makes the checksum of the whole zero. |
| `Checksum.FoldCongruent` | native/engine/soildtunnel/src/masque.rs:338-341 | Carry folding keeps the sum modulo 65535 and keeps zero and non-zero apart. |
| `Checksum.ProbeIsWellFormed` | native/engine/soildtunnel/src/masque.rs:280-326 | The DNS probe's header verifies and its IP and UDP length fields are its real lengths. |
| `Checksum.ProbeFields` | native/engine/soildtunnel/src/masque.rs:280-326 | The probe's fields: no options, UDP to 8.8.8.8 port 53 from the given address and port, one question for the name. |
| `Candidates.Interleave` | native/engine/soildtunnel/src/wg_prober.rs:390-397 | The nested loops produce the interleaving. |
| `Candidates.InterleavedIsPermutation` | native/engine/soildtunnel/src/wg_prober.rs:390-397 | Every host of every range is in the interleaving exactly once and nothing else is. |
| `Candidates.InterleavedInOrder` | native/engine/soildtunnel/src/wg_prober.rs:390-397 | The hosts come round by round, in the order of their ranges. |
| `Candidates.Fair` | native/engine/soildtunnel/src/wg_prober.rs:390-397 | In every prefix, no range is more than one host ahead of a range that has hosts left. |
| `Candidates.OfferWave` | native/engine/soildtunnel/src/wg_prober.rs:421-438 | One wave appends exactly the endpoints of the wave that are neither excluded nor seen, in order. |
| `Candidates.BuildCandidates` | native/engine/soildtunnel/src/wg_prober.rs:421-441 | The wave loops produce the specified list. |
| `Candidates.BuildIsExact` | native/engine/soildtunnel/src/wg_prober.rs:421-441 | The output is, each once, exactly the endpoints (host i, port (i + wave) mod n) of some wave that are not excluded. |
| `Candidates.PortsUsed` | native/engine/soildtunnel/src/wg_prober.rs:343-351 | The ports used are those given, each once, or 2408 when none is given. |
| `Candidates.EveryPortTried` | native/engine/soildtunnel/src/wg_prober.rs:421-441 | With as many waves as ports every host is tried on every port unless the endpoint is excluded. |
| `Candidates.KeepPrefix` | native/engine/soildtunnel/src/wg_prober.rs:421-441 | What is offered later never changes what was kept: the order is that of first offers. |
| `Candidates.KeepIsExact` | native/engine/soildtunnel/src/wg_prober.rs:343-351 | Deduplication keeps exactly the elements that are not excluded, each once. |
| `Candidates.DistinctAnswers` | native/engine/soildtunnel/src/wg_prober.rs:274-283 | The sort and filter compute `distinct_by_ip` as specified. |
| `Candidates.DistinctIsBest` | native/engine/soildtunnel/src/wg_prober.rs:274-283 | Each address that answered appears once, with its least round-trip time and among equals the earliest, in ascending order. |
| `Candidates.BestIsLeast` | native/engine/soildtunnel/src/wg_prober.rs:274-283 | The best answer of an address is one of its answers and none is quicker; there is none if and only if the address did not answer. |
| `Candidates.HuntHonoursExclusions` | native/engine/soildtunnel/src/wg_prober.rs:146-272 | A scan never returns an excluded endpoint, nor one it did not build. |
| `Candidates.HuntSeparatesEdges` | native/engine/soildtunnel/src/wg_prober.rs:146-272 | Endpoints asked for together are on different addresses. |
| `Candidates.HuntEmptyIff` | native/engine/soildtunnel/src/wg_prober.rs:146-272 | A scan finds nothing if and only if no endpoint it probes answered. |
| `Candidates.HuntFirstHit` | native/engine/soildtunnel/src/wg_prober.rs:224-226 | Told to stop at the first hit, a scan for one returns the first probed endpoint that answers. |
| `Candidates.HeardIs` | native/engine/soildtunnel/src/wg_prober.rs:227-233 | A scan for several stops with the first answer that makes enough addresses, and not before; a scan for one does not stop for that. |
| `Candidates.CountedAre` | native/engine/soildtunnel/src/wg_prober.rs:218-233 | The answers that count are of endpoints the scan probes; for one endpoint all of those count. |
| `Candidates.HuntIsQuickest` | native/engine/soildtunnel/src/wg_prober.rs:262-271 | For every answer that counts, its address is returned with an answer as quick, or as many as wanted are returned and each was as quick. |
| `Candidates.HuntAscends` | native/engine/soildtunnel/src/wg_prober.rs:262-271 | The endpoints returned are in ascending order of their quickest answer. |
| `WireguardSupervisor.ParkedEndpointsRest` | native/engine/soildtunnel/src/lib.rs:2049-2184 | In every run an endpoint parked until some time starts no session before it, and the remembered endpoint is never a parked one. |
| `WireguardSupervisor.AtMostTwoInARow` | native/engine/soildtunnel/src/lib.rs:2049-2184 | At every point of every run, also within a turn, no endpoint has had three sessions in a row without being parked in between. |
| `WireguardSupervisor.HuntPeerIsFree` | native/engine/soildtunnel/src/lib.rs:1926-1953 | The profile loop never returns an excluded endpoint. |
| `WireguardActs.TurnActs` | native/engine/soildtunnel/src/lib.rs:2053-2184 | A turn of any run, told from the log so far: it parks the endpoint that failed twice in a row for the cooldown read at the top, its session is with the endpoint the three rules choose, and a migrated session parks its endpoint from its end for the cooldown read then. |
| `WireguardActs.ParksAreTimed` | native/engine/soildtunnel/src/lib.rs:2053-2184 | Every park of a run belongs to a turn and lasts for that turn's cooldown, from the top of the turn or from the end of its migrated session. |
| `WireguardActs.ParksAreHonoured` | native/engine/soildtunnel/src/lib.rs:2053-2184 | A later session with a parked endpoint starts no sooner than that turn's cooldown after the park. |
| `WireguardActs.FailingRests` | native/engine/soildtunnel/src/lib.rs:2056-2066 | An endpoint that has failed twice in a row when a turn begins starts no session until the cooldown of that turn has passed. |
| `WireguardActs.MigratedRests` | native/engine/soildtunnel/src/lib.rs:2168-2176 | The endpoint of a migrated session starts none until the cooldown read at its end has passed. |
| `WireguardActs.RunExact` | native/engine/soildtunnel/src/lib.rs:2049-2184 | In every run the remembered endpoint is that of the last session unless it was parked since, and the cooldowns are the latest parks, every one that has not run out among them. |
| `WireguardActs.HuntPeerFirst` | native/engine/soildtunnel/src/lib.rs:1926-1953 | The endpoint is the one of the first profile whose scan finds any; there is none when no scan does. |
| `WireguardSupervisor.StepKeeps` | native/engine/soildtunnel/src/lib.rs:2049-2184 | One turn keeps the invariant that relates cooldowns, failure count and remembered endpoint to the log of sessions and parks. |
| `WireguardSupervisor.Supervisor.FindPeer` | native/engine/soildtunnel/src/lib.rs:1926-1953 | The loop over profiles as specified. |
| `WireguardSupervisor.Supervisor.ParkIfFailing` | native/engine/soildtunnel/src/lib.rs:2054-2067 | The top of the loop drops expired cooldowns and parks an endpoint that failed twice, as specified. |
| `WireguardSupervisor.Supervisor.UsePeer` | native/engine/soildtunnel/src/lib.rs:2157-2181 | What a session and its ending do to the variables, as specified. |
| `WireguardSupervisor.Supervisor.OneTurn` | native/engine/soildtunnel/src/lib.rs:2049-2184 | One turn of the loop leaves the variables and the log of the specification. |
| `WireguardSupervisor.Supervisor.Supervise` | native/engine/soildtunnel/src/lib.rs:2049-2184 | The loop over any number of turns is the specified run. |
| `GoolSupervisor.DeadPairsRest` | native/engine/soildtunnel/src/lib.rs:304-438 | In every run that has not exited no pair is remembered at the top of the loop, and an edge whose latest rest has not run out is dialled only by the fallback scan, however the cooldown changes. |
| `GoolSupervisor.SteadyRest` | native/engine/soildtunnel/src/lib.rs:304-438 | While the cooldown does not change, no rest at all is cut short except by the fallback scan. |
| `GoolSupervisor.SessionsParkBothEdges` | native/engine/soildtunnel/src/lib.rs:304-438 | Every session of a run exits the process exactly on a busy port, or else leaves both edges resting for the whole cooldown and nothing to replay; the fallback was used only after the scan that honours the rests found nothing. |
| `GoolSupervisor.NeverOk` | native/engine/soildtunnel/src/lib.rs:2424-2517 | A session only ever ends with an error, even when every task stopped cleanly. |
| `GoolSupervisor.ScannedIsFree` | native/engine/soildtunnel/src/lib.rs:896-939 | A pair from the first scan avoids every parked edge, its edges are on different addresses, and the fallback is used only when that scan found nothing. |
| `GoolActs.TurnActs` | native/engine/soildtunnel/src/lib.rs:304-438 | A turn of any run, told from the log so far: which pair it dials, that it exits the process if and only if the session ends on a busy port, and that otherwise both edges rest from its end, each for the cooldown read for it. |
| `GoolActs.OutcomeIff` | native/engine/soildtunnel/src/lib.rs:2424-2517 | A session ends on a busy port if and only if the first failing stage or the task that ended it says so, and with a migration if and only if one says so or the hint came first. |
| `GoolActs.RunExact` | native/engine/soildtunnel/src/lib.rs:304-438 | In every run the cooldowns are the latest rests, every one that has not run out among them, and the cached pair is there for the first turn alone. |
| `GoolSupervisor.GoolLoop.ScanPair` | native/engine/soildtunnel/src/lib.rs:304-438 | The scan and its fallback as specified. |
| `GoolSupervisor.GoolLoop.ChoosePair` | native/engine/soildtunnel/src/lib.rs:304-438 | The choice between memory, cache and scan as specified. |
| `GoolSupervisor.GoolLoop.EndSession` | native/engine/soildtunnel/src/lib.rs:304-438 | What the end of a session does to the variables as specified. |
| `GoolSupervisor.GoolLoop.OneTurn` | native/engine/soildtunnel/src/lib.rs:304-438 | One turn of the loop as specified. |
| `GoolSupervisor.GoolLoop.Supervise` | native/engine/soildtunnel/src/lib.rs:304-438 | The loop over any number of turns, up to an exit, is the specified run. |
| `Sni.PrefixStable` | native/engine/soildtunnel/src/sniff.rs:47-121 | A name found in a truncated buffer is the name found in every extension of it. |
| `Sni.WellFormedRead` | native/engine/soildtunnel/src/sniff.rs:47-97 | Every well-formed ClientHello record, whatever follows it, yields what its first server name extension announces (section 4.1.2 of RFC 8446). |
| `Sni.HostIsSniffed` | native/engine/soildtunnel/src/sniff.rs:47-121 | A hello that names a proper host, after names of other kinds and any other extensions, yields that host in lower case (section 3 of RFC 6066). |
| `Sni.NamesRead` | native/engine/soildtunnel/src/sniff.rs:99-121 | A well-formed server name list yields its first host name. |
| `Sni.PlausibleAccepts` | native/engine/soildtunnel/src/sniff.rs:23-45 | Every dotted host name of allowed length and letters that is no address is accepted and lowercased. |
| `Sni.PlausibleIff` | native/engine/soildtunnel/src/sniff.rs:23-45 | A name is accepted if and only if it is 1 to 253 bytes long and is a host name once white space around it and then dots behind it are taken off; it comes out in lower case. |
| `Sni.HostBytes` | native/engine/soildtunnel/src/sniff.rs:34-39 | The bytes of a host name are letters, digits, hyphens, dots and underscores, and only capitals change. |
| `Sni.DotsTrimmed` | native/engine/soildtunnel/src/sniff.rs:28 | What is taken off at the end is dots, and all of them. |
| `Sni.OnlyHellos` | native/engine/soildtunnel/src/sniff.rs:47-62 | Nothing is sniffed but a handshake record that holds a client hello. |
| `Sni.SniffExtensions` | native/engine/soildtunnel/src/sniff.rs:79-96 | The loop over the extensions gives the specified result; all reads are in bounds and it terminates. |
| `Sni.Sniff` | native/engine/soildtunnel/src/sniff.rs:47-97 | The method computes the specified result; all reads are in bounds and it terminates. |
| `Sni.FindServerName` | native/engine/soildtunnel/src/sniff.rs:99-121 | The cursor loop computes the specified result; all reads are in bounds and it terminates. |
| `Dechunk.Decode` | native/engine/soildtunnel/src/apifront.rs:218-242 | The loop computes the specified result. |
| `Dechunk.CutAnywhere` | native/engine/soildtunnel/src/apifront.rs:218-242 | A chunked body cut after any number of bytes decodes to the data of exactly the chunks that had arrived in full, whatever their data and size lines (section 7.1 of RFC 9112). |
| `Dechunk.RoundTrip` | native/engine/soildtunnel/src/apifront.rs:218-242 | An uncut body decodes to all its data. |
| `Dechunk.HexChunkIsGood` | native/engine/soildtunnel/src/apifront.rs:227-231 | Any data under its hexadecimal length, with any extension without a line end, is a chunk those results cover; a zero length ends the body. |
| `Dechunk.SizeLineReads` | native/engine/soildtunnel/src/apifront.rs:227-231 | A hexadecimal length, with any extension after a semicolon, is read as that length. |
| `Dechunk.SizeLineIs` | native/engine/soildtunnel/src/apifront.rs:226-231 | White space around the number, a plus sign, leading zeros, digits of either case and an extension change nothing: the size is the value of the digits, and there is none when that leaves the address range. |
| `Dechunk.OnlyHexIsSize` | native/engine/soildtunnel/src/apifront.rs:226-231 | A line that announces a size holds, up to its semicolon and without white space and sign, hexadecimal digits alone, whose value it is. |
| `Dechunk.HexChars` | native/engine/soildtunnel/src/apifront.rs:227-231 | The value of each digit. |
| `Dechunk.PanicsIff` | native/engine/soildtunnel/src/apifront.rs:218-242 | Decoding any text panics if and only if it is some complete chunks, with any two bytes after each, followed by a size line that, where it stands, announces an end outside the address range, or whose chunk, or the two bytes after it, ends inside a character. |
| `Dechunk.AsciiPanicsIff` | native/engine/soildtunnel/src/apifront.rs:218-242 | In ASCII, only the first of the two can happen. |
| `Dechunk.OverflowsIff` | native/engine/soildtunnel/src/apifront.rs:227-236 | Any size line, in whatever form it announces its size, panics the turn that reads it if and only if cursor, line and size reach 2^64. |
| `Dechunk.HugeSizePanics` | native/engine/soildtunnel/src/apifront.rs:227-236 | Such bodies: the largest size there is, with any extension and anything after it. |
| `Dechunk.SplitsIff` | native/engine/soildtunnel/src/apifront.rs:232-238 | A size line within the address range panics the turn that reads it, or the next, if and only if its chunk is there and it or the two bytes after it end inside a character. |
| `Dechunk.TornChunkPanics` | native/engine/soildtunnel/src/apifront.rs:232-238 | Such bodies: any first size that falls inside a character of what follows. |
| `Dechunk.TornBodies` | native/engine/soildtunnel/src/apifront.rs:187-242 | Among them a chunk of one byte that holds half a character, and one cut short whose last character was replaced by U+FFFD on reading. |
| `Dechunk.SizeStarts` | native/engine/soildtunnel/src/apifront.rs:226-231 | A line that announces a size never begins inside a character. |

## Left out

- `service_udp` and `flush_tx` of the netstack, and address configuration: datagrams are forwarded or dropped one by one, with no state of their own.
- `pump_inbound` of the TUIC session: only the end of the remote side is an event; the bytes from QUIC to the app are not modelled.
- smoltcp, quiche, tokio, the allocator and timers: each appears only as the contract stated above.
- `alloc_port`: ports repeat only after a whole cycle; that a port is free when it comes round again is not claimed, nor does the code check it.
- Ids and counters of 64 bits are unbounded, except `next_shard`, the unidirectional stream id, the counts of the consumed vector and the sizes of `dechunk`, which wrap or overflow as in the code.
- An allocation that fails, or a vector beyond `isize::MAX` bytes, ends the process and with it the run.
- Memory orderings of the buffer pool: each atomic operation is one step of a sequentially consistent run.
- `deliver` and name resolution: the TUIC model ends at the address and payload handed to it. IP literals are recognised before the model starts, and names are byte strings of valid UTF-8.
- `sample_cidr_v4`, `sample_cidr_v6`, `enumerate_cidr_v4`, anchors and environment overrides: the hosts of each range are inputs of the candidate builder.
- `manual_wg_candidates`: the same interleaving and waves over the caller's own ranges; its caller passes deduplicated ports.
- The time limits of a scan: the answers that come before they run out are an input of the scan.
- The forced-peer mode of `run_wireguard`, its persistence and its log output.
- `encode_address_request`: it has no reader in the repository.
- `http_host`, routing rules, SOCKS headers, junk packets, account, TLS and HTTP clients, the command line, the JNI bridge and the user interface.
- `parse_response` around `dechunk`: the text it makes of the bytes received, with U+FFFD for what is no UTF-8, is the input of the model.
- TuicReassembly.ReassembledAfter: a box left open with another total is not covered; `RunPanicsIff` says when its fragments panic.
- The gool loop reads the clock once for both parks of a session; what passes between them counts as part of the second rest.
- Sni.HostIsSniffed: a hello split over several TLS records is not well-formed here; the code reads only the first record.
