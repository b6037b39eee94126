# A verified model of the benker-vpn address translator

The VPN server rewrites TCP packets of its clients so that they seem to come from the
server, and rewrites the answers back. This project models the three layers of that
translator and proves what it is for:

1. **Packet buffers** (`Bytes`, `Checksum`, `Headers`, `Rewriting`, `Resetting`,
   `ProtocolHeaders`, `Wire`, `WireLaws`): the Internet checksum of RFC 1071 computed by a 32-bit accumulator
   with carry folding, the address and port rewrites, and the construction of reset packets,
   all in place on a byte array. Rewrites are shown to be "set the fields, then seal", from
   which verification, override, undo and commutation follow. `Wire` draws a datagram field
   by field as the two RFCs do and proves that encoding and decoding are inverse to each
   other; `WireLaws` says what each operation does to that datagram.
2. **The session table** (`Sessions`, `TableLaws`, `Allocation`, `Refinement`, `TableRuns`
   as values; `SessionLists`, `SessionTables` on the heap): two arrays of linked buckets that
   share session objects, a round-robin port allocator, an expiry sweep that unlinks in
   place, and a teardown. The heap structures are proved against the values, and the values
   against one finite bijection between client keys and server ports.
3. **The handlers** (`Flags`, `Translation`, `RunLaws`, `NatTheorems`, `Verdicts`,
   `PortReuse`, `PacketHandler`, `Server`): the flag state machine of a session, and runs of any
   interleaving of client packets, world packets and sweeps with a clock that only moves
   forward. `Server.Serve` shows that the heap code performs exactly such runs.

The main results are `NatTheorems.RoundTrip`, `NatTheorems.SamePort`, `Verdicts.RunClientVerdict`,
`Verdicts.ServedIffCovers`, `Verdicts.NewClientsServed`, `WireLaws.RewriteEncoded`, `RunLaws.RunInv`,
`RunLaws.Projection`, `Refinement.AgreementIff`, `TableRuns.AlwaysBijection`,
`Allocation.TruthfulIff` with `Allocation.CoversIff`, `PortReuse.ReuseDistance`,
`Rewriting.RewriteUndo`, `Resetting.ResetCorrect`, `Flags.HandshakeHistory`,
`NatTheorems.RunProgress` and the methods of `SessionTables.SessionTable`, `PacketHandler` and `Server`.

## How the model reads the source

- A session is known by its number in `Table.store`, the list of every session ever created.
  The sweep frees list nodes only, never sessions, although the comment at
  `src/lib/session_struct.h:107` says that memory is freed; the store keeps them.
- `count` (`src/lib/session_struct.c:202`) is declared without a value; the model starts it
  at 0, which is what the loop needs.
- `next_num` wraps at 2^32 in the model as it does in the source. Whether a search then still
  examines every port is decided exactly by `Allocation.CounterCovers`.
- `init_hash_table` is modelled for `min_port <= max_port`, for fewer than 65536 ports (the
  16-bit `mod_num` would be 0 otherwise) and for at least one bucket (the source divides by
  `len`).
- Each `time(NULL)` is a reading of `SystemClock`, never smaller than the one before. A sweep
  reads the clock once for every member of every bucket, tail before head.
- One slot of a bucket array is a `SessionList` object: it stands for the address of the
  array element that the source passes as `struct session_linked_list**`.
- `live` marks memory that has not been freed. Fields of sessions and nodes are read through
  members that require it, and `Free` requires it, so use after free and double free are
  excluded by verification.
- The handlers take buffers with room for a 40-byte reset, as the comment at
  `src/lib/protocol_headers.h:90` assumes, and a separate length, which may be smaller. A
  packet that validates must have full headers (`ihl >= 5`, `doff >= 5`), which
  `validate_ip_tcp` does not test; sections 3.1 of RFC 791 and RFC 793 demand it.
- `ip_header->id += 1` works in the byte order of the host, so the host's byte order is a
  parameter.
- The comments at `src/lib/session_struct.h:55-56` name the two keys the wrong way round, the
  comment at `src/lib/session_struct.h:116` names a timeout of one minute where the handler
  passes 10 seconds, and handshake state 1 (`src/lib/session_struct.h:26`) is never entered.
  The model follows the code.

## Properties that are false as one might first state them

- *A reset answers the packet's ports*: false with IP options, because the header length is
  overwritten before the TCP header is located. `Resetting.ResetMissesSender` has such a
  packet and `Resetting.ResetAnswersIff` the exact condition. `Resetting.ResetCorrect` shows that a reset validates exactly when the packet
  was TCP; the handlers also build one for other protocols.
- *The two indexes always hold the same sessions*: false when the clock moves on during a
  sweep. `Refinement.AgreementIff` shows that they do, for every clock, exactly when no
  linked session's deadline lies inside the sweep. Unexpired sessions are always in both.
- *A null result means that no port is free*: false once `next_num` wraps.
  `Allocation.AddMisses` builds such a table for every counter that fails `CounterCovers`,
  and `Allocation.TruthfulIff` shows that this condition is exact. For packets:
  `Verdicts.ServedIffCovers` shows that a new client is served exactly when a port is free,
  whatever the table and the SYN, if and only if the counter covers the range.
- *A recorded FIN keeps its number*: false before the SYN+ACK, where a later SYN overwrites
  it. `Flags.ClientFinFrozenIff` and `Flags.ServerFinFrozenIff` give the exact condition.
- *Restoring the address restores the packet*: false if a checksum did not verify or was
  0xffff. `Rewriting.UndoFails` has such a packet; `Rewriting.RewriteUndo` is an equivalence.

## Model

| member | source | states |
|---|---|---|
| Checksum.Canon | src/lib/protocol_headers.c:16-22 | the end-around-carry value is congruent to the sum modulo 65535 and is 0 only for an empty sum |
| Checksum.CanonUnique | src/lib/protocol_headers.c:16-22 | those two properties determine the value |
| Checksum.WordSumConcatOdd | src/lib/protocol_headers.c:13-15 | for an odd earlier piece separate summing is wrong: a concrete pair of pieces |
| Checksum.FoldStep | src/lib/protocol_headers.c:20-20 | one carry fold keeps the end-around-carry value, stays positive and strictly shrinks the sum |
| Checksum.FoldCarries | src/lib/protocol_headers.c:16-22 | the folding loop ends and gives the end-around-carry value of the accumulator |
| Checksum.Summing | src/lib/protocol_headers.c:4-23 | the 32-bit accumulator never wraps and the result is the one's-complement value of the starting sum plus the true word sum, odd lengths included |
| Checksum.WordSumConcat | src/lib/protocol_headers.c:63-66 | pieces may be summed separately when the earlier piece has even length |
| Checksum.WordSumPut | src/lib/protocol_headers.c:113-115 | writing a word at an even place moves the sum by exactly the change of that word |
| Checksum.CanonAbsorbs | src/lib/protocol_headers.c:63-66 | a folded value passed to the next call stands for the sum it came from |
| Checksum.ComplementVerifies | src/lib/protocol_headers.c:36-37 | a sum plus its complement is 0xffff |
| Checksum.VerifyingField | src/lib/protocol_headers.c:36-37 | for a positive sum the complement is the only verifying field value other than 0xffff |
| Headers.ChainedSum | src/lib/protocol_headers.c:63-66 | three chained folded sums equal the one-pass sum of pseudo-header, header and data |
| ProtocolHeaders.IpCsum | src/lib/protocol_headers.c:34-38 | computes the checksum of the IP header bytes |
| ProtocolHeaders.BuildPseudoHeader | src/lib/protocol_headers.c:57-61 | the twelve bytes are both addresses, zero, the protocol and the segment length |
| ProtocolHeaders.TcpCsum | src/lib/protocol_headers.c:51-69 | the three-call sum equals the one-pass checksum for every segment length, within the buffer, and a null data pointer is never followed |
| ProtocolHeaders.ValidateIpTcp | src/lib/protocol_headers.c:72-101 | accepts exactly the packets that satisfy the five tests and gives the offset of the TCP header |
| Headers.ValidatedIsFramed | src/lib/protocol_headers.c:82-95 | a validated packet with full headers has both headers and all its bytes inside the buffer |
| ProtocolHeaders.ReplaceSrcIp | src/lib/protocol_headers.c:118-123 | sets the source address and recomputes the IP checksum in place |
| ProtocolHeaders.ReplaceDstIp | src/lib/protocol_headers.c:140-145 | sets the destination address and recomputes the IP checksum in place |
| ProtocolHeaders.ReplaceSrcPort | src/lib/protocol_headers.c:108-116 | sets the source port and recomputes the TCP checksum in place |
| ProtocolHeaders.ReplaceDstPort | src/lib/protocol_headers.c:130-138 | sets the destination port and recomputes the TCP checksum in place |
| ProtocolHeaders.ReplaceSrcIpPort | src/lib/protocol_headers.c:103-106 | the buffer becomes the source rewrite of what it was |
| ProtocolHeaders.ReplaceDstIpPort | src/lib/protocol_headers.c:125-128 | the buffer becomes the destination rewrite of what it was |
| Rewriting.SealedIff | src/lib/protocol_headers.c:34-69 | recomputing both checksums leaves a packet alone exactly when they verified and neither field was 0xffff |
| Rewriting.RewriteIsSeal | src/lib/protocol_headers.c:103-145 | the two passes of a rewrite amount to setting address and port and sealing once |
| Rewriting.RewriteCorrect | src/lib/protocol_headers.c:103-145 | after a source rewrite bytes 12-15 hold the address, bytes 16-19 and the other port are as before and the port stands at the start of the TCP header (a destination rewrite the other way round); both sums are multiples of 65535 over the wire words, no checksum field is 0xffff, validation is unchanged and every other byte is as before |
| Rewriting.PseudoSum | src/lib/protocol_headers.c:57-63 | the pseudo-header sums to the four address words, the protocol number 6 and the segment length |
| Rewriting.VerifyIff | src/lib/protocol_headers.c:34-69 | both one's-complement sums are all ones exactly when the wire words, with protocol number and segment length, sum to multiples of 65535 |
| Rewriting.SetAddrCorrect | src/lib/protocol_headers.c:118-145 | replacing an address alone leaves a verifying IP header and changes only bytes 12-15 or 16-19 and the IP checksum, not the TCP checksum |
| Rewriting.SetPortCorrect | src/lib/protocol_headers.c:108-138 | replacing a port alone makes the segment verify and changes only that port and the TCP checksum |
| Wire.DecodeEncoded | src/lib/protocol_headers.c:72-101 | a datagram read back from a buffer that starts with its bytes is the same datagram, whatever its options and data and whatever follows |
| Wire.EncodeDecoded | src/lib/protocol_headers.c:72-101 | every framed buffer is the bytes of the datagram read from it and what follows them |
| Wire.EncodedValidatesIff | src/lib/protocol_headers.c:72-101 | a datagram with any options and data validates if and only if it is TCP and fits the size given |
| Wire.HeaderOfDecoded | src/lib/packet_handler.c:13-16 | the flags, numbers, addresses and ports that the handlers read are those of the datagram |
| WireLaws.RewriteDatagram | src/lib/protocol_headers.c:103-145 | on the decoded datagram a rewrite updates one address, one port and the two checksums and nothing else |
| WireLaws.RewriteEncoded | src/lib/protocol_headers.c:103-145 | rewriting the bytes of any datagram gives the bytes of the updated datagram, accepted by a receiver, with the rest of the buffer as before |
| WireLaws.HeaderFlags | src/lib/packet_handler.c:13-36 | what is read of the control bytes 0x02, 0x10, 0x01, 0x12, 0x11, 0x18 and 0x04 |
| WireLaws.HeaderSeq | src/lib/packet_handler.c:25-25 | writing the sequence number changes exactly the sequence number that is read |
| WireLaws.HeaderAck | src/lib/packet_handler.c:28-28 | writing the acknowledgement number changes exactly the acknowledgement number that is read |
| WireLaws.DataValidates | src/lib/protocol_headers.c:88-95 | a valid packet stays valid with any data appended and its total length raised |
| WireLaws.RefusedIff | src/lib/protocol_headers.c:72-101 | a packet is refused exactly for a size below 40, another protocol, no room for a TCP header, a total length beyond the size or below the two headers |
| WireLaws.CaptureVerifies | src/server/main_trial.c:181-181 | the recorded acknowledgement verifies and its literal checksums 0x648c and 0x1ae1 are the ones computed |
| Rewriting.RewriteOverrides | src/lib/protocol_headers.c:103-145 | a later rewrite of the same end fully overrides an earlier one |
| Rewriting.RewritesCommute | src/lib/protocol_headers.c:103-145 | source and destination rewrites commute |
| Rewriting.RewriteUndo | src/lib/protocol_headers.c:103-145 | restoring address and port gives back the original bytes if and only if its checksums verified and neither was 0xffff |
| Rewriting.UndoFails | src/lib/protocol_headers.c:103-145 | a concrete valid packet whose bytes no undone rewrite gives back |
| ProtocolHeaders.FillinReset | src/lib/protocol_headers.c:147-182 | turns any buffer of 40 bytes or more into its reset, in place, and returns 40 |
| Resetting.ResetCorrect | src/lib/protocol_headers.c:147-182 | every byte of the result by its place: version kept with header length 5, total length 40, id one higher in host order, no fragment, lifetime 60, swapped addresses and ports, answering numbers, control byte 0x14, kept window and urgent pointer, sums that are multiples of 65535, bytes from 40 on untouched, and validation exactly for TCP packets |
| WireLaws.ResetDatagram | src/lib/protocol_headers.c:147-182 | without IP options the result decodes to the datagram with swapped ends, answering numbers, ACK and RST alone, no TCP options and no data |
| WireLaws.ResetHeader | src/lib/protocol_headers.c:167-178 | a reset reads as an ACK without SYN or FIN, with the old acknowledgement number and the old sequence number plus one |
| Resetting.ResetAnswersIff | src/lib/protocol_headers.c:152-169 | the reset answers the packet's ports and numbers exactly when the twelve bytes at 20 are those of its TCP header, as they are without IP options |
| Resetting.ResetMissesSender | src/lib/protocol_headers.c:152-169 | a concrete valid packet with IP options whose reset does not go back to its sender's port |
| Resetting.ResetTwice | src/lib/protocol_headers.c:147-182 | two resets restore addresses and ports and move both numbers on by one |
| SessionLists.SystemClock.Time | src/lib/session_struct.c:52-52 | each reading is no earlier than the one before |
| SessionLists.SessionList.Insert | src/lib/session_struct.c:87-102 | adds exactly one new node at the end of the chain and leaves every other list alone |
| SessionLists.SessionList.SearchByClient | src/lib/session_struct.c:104-113 | gives the first session with the client's address and port, or null if there is none |
| SessionLists.SessionList.SearchByServer | src/lib/session_struct.c:115-124 | gives the first session with the server port, or null if there is none |
| SessionLists.SessionList.UnlinkNext | src/lib/session_struct.c:135-137 | takes out exactly the next node and frees it and no other |
| SessionLists.SessionList.DeleteExpired | src/lib/session_struct.c:126-149 | keeps, in order, exactly the sessions unexpired at the reading of their own test, tail tested before head; a node is freed exactly when it is unlinked; every other list is left alone |
| SessionLists.SessionList.DeleteAll | src/lib/session_struct.c:151-161 | frees every node, and on demand every session, exactly once and reads nothing freed |
| TableLaws.SweepIsFilter | src/lib/session_struct.c:126-149 | with one clock value the sweep of a bucket is the filter of its unexpired members |
| TableLaws.SweepIsSublist | src/lib/session_struct.c:126-149 | with a moving clock the survivors are an ordered sublist, none expired at the start, all those unexpired at the end |
| SessionTables.SessionTable.constructor | src/lib/session_struct.c:163-171 | builds the empty table with its port range |
| SessionTables.SessionTable.GetByClient | src/lib/session_struct.c:229-231 | lookup by client in the table as a value |
| SessionTables.SessionTable.GetByServer | src/lib/session_struct.c:233-235 | lookup by server port in the table as a value |
| SessionTables.SessionTable.FindPort | src/lib/session_struct.c:201-215 | the probe loop ends and agrees with the probe function, counter included |
| SessionTables.SessionTable.LinkNew | src/lib/session_struct.c:216-225 | the new session is at the end of its bucket on both sides and nothing else changes |
| SessionTables.SessionTable.Add | src/lib/session_struct.c:193-227 | finds the client's session or creates one at some clock reading; null when the probes fail |
| SessionTables.SessionTable.CleanExpired | src/lib/session_struct.c:184-191 | sweeps every bucket of both sides with readings in the order of the code between the start and end of the call, and frees exactly the nodes it unlinks |
| SessionTables.SessionTable.DeleteTable | src/lib/session_struct.c:173-182 | frees every node linked at entry on both sides and exactly the sessions in the server index, each once; no linked session is left exactly when the server index holds all of the client index |
| SessionLists.TcpSession.ReceiveFromClient | src/lib/packet_handler.c:23-42 | the client flag handling on the session fields in place |
| SessionLists.TcpSession.ReceiveFromWorld | src/lib/packet_handler.c:87-100 | the world flag handling on the session fields in place |
| Sessions.EmptyTableInv | src/lib/session_struct.c:163-171 | the empty table satisfies the run invariant at every time |
| Sessions.Search | src/lib/session_struct.c:104-124 | a result is a member with the key, and none means that no member has it |
| Sessions.FindIff | src/lib/session_struct.c:229-235 | searching one bucket finds a session if and only if the whole index holds it under that key |
| Sessions.FindNone | src/lib/session_struct.c:206-209 | searching one bucket fails if and only if no session of the whole index has the key |
| TableLaws.ProbeSound | src/lib/session_struct.c:203-215 | a successful probe gives a port of the range that no session of the server index has |
| TableLaws.AddInv | src/lib/session_struct.c:193-227 | adding keeps buckets, distinct keys, distinct ports and coverage of unexpired sessions |
| TableLaws.SweepHeld | src/lib/session_struct.c:184-191 | a sweep drops nothing unexpired at its end and keeps nothing expired at its start |
| TableLaws.SweepInv | src/lib/session_struct.c:184-191 | a sweep keeps the run invariant although time moves on during it |
| TableLaws.UpdateInv | src/lib/packet_handler.c:23-42 | changing flags and numbers of a session keeps the invariant and both indexes |
| TableLaws.UnexpiredDistinct | src/lib/session_struct.c:193-227 | two unexpired sessions never share a server port or a client key |
| TableLaws.UnexpiredFound | src/lib/session_struct.c:229-235 | an unexpired session is in both indexes and is what lookup by either key finds |
| Allocation.ProbeNoneIff | src/lib/session_struct.c:203-215 | the search gives up exactly when all its probes hit ports in use |
| Allocation.ProbeStop | src/lib/session_struct.c:203-215 | the counter stops just past the port handed out and every port passed was in use |
| Allocation.CoversIff | src/lib/session_struct.c:204-205 | a search examines every port if and only if the counter does not wrap in its first probes, wraps at once, or wraps at a multiple of the range or one more |
| Allocation.AddNoneIff | src/lib/session_struct.c:193-227 | for a new client and a covering counter, null is returned if and only if every port of the range is in use |
| Allocation.AddMisses | src/lib/session_struct.c:193-227 | for every bucket count, range and non-covering counter there is a well-formed table with a free port and a new client for which null is returned |
| Allocation.TruthfulIff | src/lib/session_struct.c:193-227 | null means that every port is in use, in every table with the given parameters and counter, if and only if the counter covers the range |
| Allocation.AddSound | src/lib/session_struct.c:193-227 | a new session has the client asked for, its deadline, and a port of the range that the whole server index lacks |
| Allocation.HashSpread | src/lib/session_struct.c:195-216 | ports less than a table length apart never share a bucket, nor do ports of one address unless the 32-bit sum wraps between them |
| Refinement.NewPortUnused | src/lib/session_struct.c:193-227 | while the indexes agree, no session linked on either side has the port of a new session |
| Refinement.GetByClient | src/lib/session_struct.c:229-231 | searching one client bucket is lookup in the mapping of all linked sessions |
| Refinement.GetByServer | src/lib/session_struct.c:233-235 | searching one server bucket is lookup in the inverse of the mapping |
| Refinement.MappingInjective | src/lib/session_struct.c:193-227 | the mapping from client keys to server ports is injective and stays in the range |
| Refinement.MappingSize | src/lib/session_struct.c:193-227 | the mapping has at most as many pairs as there are ports, and that many exactly when every port is in use |
| Refinement.AddRefines | src/lib/session_struct.c:193-227 | adding extends the bijection by at most the one pair asked for, with an unused port |
| Refinement.SweepRefines | src/lib/session_struct.c:184-191 | with one clock value a sweep restricts the bijection to the unexpired sessions |
| Refinement.SweepSplits | src/lib/session_struct.c:184-191 | for a deadline inside the sweep there are clock readings, in the order of the code, that leave a session in one index only |
| Refinement.AgreementIff | src/lib/session_struct.c:184-191 | every clock leaves the indexes in agreement if and only if no linked deadline lies inside the sweep |
| TableRuns.OpRunInv | src/lib/session_struct.c:184-227 | every run of adds with any timeouts, sweeps and updates keeps the invariant under a moving clock |
| TableRuns.AlwaysBijection | src/lib/session_struct.c:163-235 | from the empty table, with one clock value per sweep, the two arrays always hold the same sessions and represent one bijection of bounded size; client search is lookup in it and server search is lookup in its inverse |
| Flags.TraceForward | src/lib/packet_handler.c:23-42 | along every trace the handshake state is 0, 2 or 3, no state moves back, and a FIN state moves by at most one |
| Flags.HandshakeHistory | src/lib/packet_handler.c:24-42 | state 3 implies, in order, the client's number, a world SYN+ACK above it and a client ACK above the recorded server number |
| Flags.FinFrozen | src/lib/packet_handler.c:36-41 | past state 0 a recorded FIN keeps its number for the rest of the trace |
| Flags.ClientFinFrozenIff | src/lib/packet_handler.c:24-26 | a recorded client FIN keeps its number on every continuation if and only if the handshake has passed state 0 |
| Flags.ServerFinFrozenIff | src/lib/packet_handler.c:88-91 | a recorded world FIN keeps its number on every continuation if and only if the handshake has passed state 0 |
| Flags.ClientFinHistory | src/lib/packet_handler.c:93-95 | the closed state of the client side was reached by a client FIN and a later world ACK above the recorded number |
| Flags.ServerFinHistory | src/lib/packet_handler.c:28-35 | the closed state of the world side was reached by a world FIN and a later client ACK above the recorded number |
| Flags.Progress | src/lib/packet_handler.c:24-42 | every complete connection, whatever lies between its milestones, ends in state 3 with both FIN states 2 |
| Flags.ClientEffect | src/lib/packet_handler.c:23-42 | for each field, exactly which client packets change it and to what |
| Flags.WorldEffect | src/lib/packet_handler.c:87-100 | for each field, exactly which world packets change it and to what |
| Flags.FinCompletesHandshake | src/lib/packet_handler.c:28-41 | a FIN+ACK that completes the handshake moves it to state 3 and records the FIN at once |
| Flags.Retransmitted | src/lib/packet_handler.c:36-37 | past state 0 any number of repeated packets after a recorded FIN leaves the session as it was |
| Flags.AckAfterRetransmission | src/lib/packet_handler.c:93-95 | the acknowledgement after retransmitted FINs closes exactly the side whose recorded number it exceeds |
| Translation.Step | src/lib/packet_handler.c:3-105 | every event keeps the table well-formed, and an accepted packet names an existing session |
| RunLaws.StepStore | src/lib/packet_handler.c:11-46 | an event touches at most the session it is accepted for, creates at most one, and accepts only up to the deadline |
| RunLaws.RunInv | src/server/main.c:89-158 | every interleaving of client packets, world packets and sweeps keeps the invariant |
| RunLaws.RunIndexesAgree | src/lib/session_struct.c:126-227 | in every run an unexpired session is in both indexes, is found by both keys and shares neither key with another unexpired one |
| RunLaws.IdentityKept | src/lib/packet_handler.c:3-105 | in every run a session keeps its client, its port and its deadline |
| RunLaws.Projection | src/lib/packet_handler.c:3-105 | in every run each session goes through exactly the trace of packets accepted for it, starting with the client SYN that created it |
| NatTheorems.RoundTrip | src/lib/packet_handler.c:3-105 | after any later events, a valid world packet to the port a client packet left with is delivered with exactly that client's address in bytes 16-19 and its port as destination port, checksums verifying, nothing else changed |
| NatTheorems.SamePort | src/lib/packet_handler.c:11-46 | while a session is unexpired every packet of its client leaves with the same server port |
| NatTheorems.FirstConnection | src/lib/packet_handler.c:3-105 | from the empty table, any first SYN and any timely answer to the lowest port form a run, the SYN leaves from the server address and the lowest port, and the answer is delivered to the client |
| NatTheorems.CreatedBySyn | src/lib/packet_handler.c:13-14 | a session created in a run comes from a client SYN ten seconds before its deadline |
| NatTheorems.AcceptedInTime | src/lib/packet_handler.c:18-21 | a packet is accepted for a session only up to a deadline that never changes |
| NatTheorems.FrozenAfterDeadline | src/lib/packet_handler.c:80-85 | after its deadline no event changes any field of a session |
| NatTheorems.RunHandshake | src/lib/packet_handler.c:13-42 | in every run a session in state 3 was opened by a client SYN, answered by a SYN+ACK and acknowledged, in that order |
| NatTheorems.RunLegal | src/lib/packet_handler.c:23-42 | in every run the handshake state of a session created in it is 0, 2 or 3 and its FIN states are at most 2 |
| NatTheorems.RunForward | src/lib/packet_handler.c:23-42 | in every run no state of a session created in it moves back, and a FIN state moves by at most one at a time |
| NatTheorems.RunFinFrozen | src/lib/packet_handler.c:36-41 | in every run a FIN recorded past handshake state 0 keeps its number |
| NatTheorems.RunClientFin | src/lib/packet_handler.c:93-95 | the client-side FIN history holds in every run |
| NatTheorems.RunServerFin | src/lib/packet_handler.c:28-35 | the world-side FIN history holds in every run |
| NatTheorems.AcceptedIffAddressed | src/lib/packet_handler.c:13-21 | before its deadline a session is sent exactly the valid packets of its client and to its port |
| NatTheorems.OfferedIsTouches | src/lib/packet_handler.c:3-105 | over a whole run up to the deadline, the packets accepted for a session are those addressed to it, in order |
| NatTheorems.RunProgress | src/lib/packet_handler.c:24-42 | if the valid packets of a session's client and to its port form a complete connection before the deadline, the session ends established and closed, whatever else happens in the run |
| PortReuse.ReuseDistance | src/lib/session_struct.c:203-215 | between two allocations of a port the counter advances by at least the range, and every port was meanwhile in use or handed out |
| Verdicts.KnownClient | src/lib/packet_handler.c:13-46 | the whole step for a client with a linked session: sent on from the session's port up to the deadline, otherwise refused; never a new session |
| Verdicts.UnknownClient | src/lib/packet_handler.c:15-21 | without a linked session a packet that is not a SYN is refused and nothing changes |
| Verdicts.NewClient | src/lib/packet_handler.c:13-46 | for a covering counter a SYN of a new client opens a session if and only if a port of the range is free, on such a port, linked on both sides with a deadline in ten seconds, and is sent on if and only if that has not passed; otherwise the store is unchanged |
| Verdicts.ClientVerdict | src/lib/packet_handler.c:3-46 | exactly which valid client packets are sent on and exactly which create a session |
| Verdicts.KnownPort | src/lib/packet_handler.c:80-105 | the whole step for a world packet to the port of a linked session |
| Verdicts.WorldVerdict | src/lib/packet_handler.c:69-105 | a world packet is delivered if and only if an unexpired session is linked under its destination port; otherwise nothing changes |
| Verdicts.InvalidVerdict | src/lib/packet_handler.c:6-9 | a packet that fails the check is answered with its reset and changes nothing |
| Verdicts.SweepVerdict | src/lib/session_struct.c:184-191 | a sweep event touches no session, sends nothing, keeps what is unexpired at its end and drops what expired before its start |
| Verdicts.ServedIffCovers | src/lib/session_struct.c:201-215 | new clients are served exactly when a port is free, for every table with given parameters and every SYN, if and only if the counter covers the range |
| Verdicts.FreeWhileFew | src/lib/session_struct.c:203-215 | while fewer sessions than ports were created some port is free |
| Verdicts.RunClientVerdict | src/lib/packet_handler.c:3-46 | the verdict on client packets at any event of any run |
| Verdicts.RunWorldVerdict | src/lib/packet_handler.c:69-105 | the verdict on world packets at any event of any run |
| Verdicts.NewClientsServed | src/lib/packet_handler.c:13-46 | in any run of up to 65536 events from the empty table, while fewer sessions than ports were created, every valid SYN of a new client opens a session on a free port and is sent on exactly if handled in time |
| PacketHandler.HandleClientPacket | src/lib/packet_handler.c:3-46 | one client step of the state machine on the heap: table, session fields, buffer and reset size |
| PacketHandler.HandleWorldPacket | src/lib/packet_handler.c:69-105 | one world step of the state machine on the heap: table, session fields, buffer, client address and reset size |
| Server.Serve | src/server/main.c:89-158 | handling any list of requests on one heap table is a run of the state machine; what is forwarded is sent out, what is delivered is sent to its client, every other packet is answered with its own 40-byte reset, and a sweep sends nothing |

## Left out

- Packets that validate with `ihl < 5` or `doff < 5`: their headers overlap or are truncated, so rewriting reads one field through another; excluded by precondition.
- `src/lib/udp.c`, `src/lib/vpn_raw_sock.c`, `src/lib/ip_command.c`: sockets, ioctl and netlink over system calls.
- `src/client/main.c`, and the input and output of `src/server/main.c`: packets arrive as a list of requests. The server loop never calls the sweep; runs here may.
- `src/server/main_trial.c`, `src/client/main_trial.c` and `POC/`: trial drivers and experiments.
- `print_session_linked_list`, `print_session_hash_table` and debug output.
- Failure of `calloc`, which the source does not handle.
- Freeing the two bucket arrays themselves: a slot is an object of its own here, so there is no array block to free.
- `difftime` on times too large for a double, and overflow of `time_t`: times are unbounded integers.
- Negative buffer sizes, which the unsigned comparison in `validate_ip_tcp` would let through: lengths are natural numbers.
- A port range with `min_port > max_port` or with all 65536 ports, and a table without buckets: excluded by precondition.
