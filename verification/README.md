# Verification of gffg

A Dafny model of the four layers that a gffg RPC call passes through, with proofs of what each layer
promises and of the end-to-end claims they add up to. `dafny verify dfyconfig.toml` checks everything.

## What is modelled

**Wire codec** (`bytes`, `varints`, `skips`, `wirefields`, `schemas`, `decoding`, `encoding`, `merging`, `marshalling`,
`unmarshalling`, `packets`, `wiremessages`, `readings`, `failures`). The generated functions of `proto/packet.pb.go` and
`example/protocol/usernode.pb.go` differ from message to message only in a table of field kinds, so the
table (a `Schema`) is a parameter and the twelve messages are twelve constants in `packets.dfy`. The
code is written as the generated code runs: index loops over the input with 64-bit wrap-around, a
message object whose fields are updated one at a time, and writers that fill a buffer from its end
backwards while iterating maps in an arbitrary order. Each method is proved against a specification:
`Decode` (a function on what is left of the input), `Encodes` (a relation, since a map may be written in
any order), `SizeOf`. The theorems are about those: round trip, concatenation as merge, exact size, and
agreement of the group-skipping loop with the grammar of fields and balanced groups.
The definitions that encoder and decoder share are tied to the wire format itself: `wirefields` has what
each kind of field looks like, `wiremessages` the bytes of each message with its field numbers written
out, `readings` what any input does to a field, and `failures` what is left after an error.
`Wf` says that a message holds values its Go types can hold and that its `XXX_unrecognized` is, at every
level, a run of complete fields the message does not know; this is exactly what decoding produces, and
exactly what the round trip needs.

**Frames** (`headers`, `frames`, `writers`, `transport`). The 8-byte header, the read loop on a byte
stream that arrives in arbitrary pieces, the write loop with short and failing writes, and any number of
goroutines sharing one `Response`. `Packets` is the whole-stream reading of a connection that the read
loop is proved to compute.

**Call protocol** (`rpc`, `rpcinvariants`, `rpcparts`, `rpcsteps`, `rpctheorems`, `rpcexecutions`,
`rpccodes`, `rpcorder`, `rpcguards`, `rpcframes`, `rpcadmission`, `rpcruns`, `rpcdeadlock`, `rpcoutcomes`). A state machine of 34 atomic steps: callers
allocate a Sid, register, write, and race a timeout against a reply; reply handlers look a Sid up under
the read lock and rendezvous on an unbuffered channel; the server admits or refuses frames and its
workers execute them in any order. Any number of processes, pools, connections, callers and workers;
other peers may send arbitrary frames. One inductive invariant carries almost all results; a second one
on top of it ties every execution to the fate of its frame. `rpccodes` spells out headers and codes from
the caller to the server and back; `rpcorder` has the orders that are kept, `rpcguards` what locks and
limits guard, `rpcframes` that no request gets lost inside the server. `RpcOutcomes.CallSucceeds` has a run in which
a call returns what its handler returned, so the results about such calls do not speak of nothing.

**Connection pool** (`pools`). `response` refilling a list under the write lock, and `removeByClient` in
two phases whose snapshot may be stale; the class holds the code, the state machine the interleavings.

## Where the code falls short of what one might expect

These are stated exactly, as an equivalence or with the condition on which the property rests, and for
each there is a lemma that the failing case occurs:

- `Merging.RoundTrip`, `Packets.RequestRoundTrip`: decoding what was encoded gives the message back if and
  only if it is `Wf`; `Packets.UnknownBytesMatter` has a request that is not.
- `Unmarshalling.Message.Unmarshal`: the map-entry loops of `packet.pb.go` do not look at the sign of
  `iNdEx + skippy` (those of `usernode.pb.go` do). An index goes out of range if and only if the input
  `Wraps`; `Unmarshalling.EntryCanWrap` has such a request.
- `RpcTheorems.DeadlockExactly`: a reply handler blocked in its send never gets on if and only if its
  target call has already picked its timeout; it then holds the read lock for ever.
  `RpcDeadlock.DeadlockHappens` has a run into that state for every server that accepts a connection.
- `RpcAdmission.AdmissionExactly`: a request past the admission check always finds room if and only if
  at most ten connections can be open, or the channel is too small to admit anything;
  `RpcAdmission.ElevenConnectionsBlock` reaches the other case.
- `RpcTheorems.ReplyLedger`, `RpcTheorems.ExecutedIsAnswered`: a reply that is due goes out if and only if
  it encodes to fewer than 2^27 bytes; a larger one panics in `Write`, and `handle` recovers without a
  word to the caller. `RpcOutcomes.ReplyNeverSent` has such a run for every method served.
- `Pools.RemovalLasts`: a removed client stays away if and only if no snapshot waiting to be written back
  still lists it; `Pools.RemovalUndone` has a run in which one does.
- `Pools.RespondsWithMember`: a pool key is a plain concatenation, so `response` serves the requested
  service when no other service asked for concatenates to the same string, as within one group
  (`Pools.OneGroupGetsItsService`); `Pools.AmbiguousKeyMixesServices` has, for any two that do, a run in
  which it does not.
- `Readings.KeyMayOverrun`: a key or value inside a map entry may run past the end of the entry, and the
  bytes it took are then read a second time.
- `FrameHeaders.Header.Encoder`: `PutVarint` runs past its four bytes, and panics, exactly for sizes
  outside [-2^27, 2^27), such as 2^27 itself.

## Model

| member | source | states |
|---|---|---|
| `Varints.ReadVarint` | proto/packet.pb.go:1293-1307 | the shift loop, or-ing each group into a 64-bit or 32-bit accumulator, reads the varint that `Parse` describes; overlong and truncated input is reported, and the accumulator then holds the groups that were there |
| `Varints.ParseMeans` | proto/packet.pb.go:1293-1307 | the first n bytes are read as a varint exactly when all but the last have the continuation bit and n is at most ten; the value is their 7-bit groups, lowest first, modulo 2^64 |
| `Varints.EncodeMeans` | proto/packet.pb.go:1061-1071 | what is written for v is a varint of the format with that value |
| `Varints.OrGroup` | proto/packet.pb.go:1730-1730 | or-ing the next shifted group into the truncated accumulator gives the truncated sum, at every shift and for both widths |
| `Varints.OrAbove` | proto/packet.pb.go:1331-1331 | or-ing in bits above those of the accumulator adds them |
| `Varints.OrTruncates` | proto/packet.pb.go:1730-1730 | truncating an or is or-ing the truncated operands |
| `Varints.EncodeVarint` | proto/packet.pb.go:1061-1071 | writes exactly the encoding of v just below the offset and nothing else |
| `Varints.ParseEncode` | proto/packet.pb.go:1061-1071 | every uint64 is read back from its encoding, whatever follows it |
| `Varints.ParseEncodeSigned` | proto/packet.pb.go:1716-1734 | every int64, and every sign-extended int32, is read back |
| `Varints.EncodeLength` | proto/packet.pb.go:1061-1071 | an encoding takes at most k bytes exactly for values of at most 7k bits |
| `Varints.EncodeAtMostTen` | proto/packet.pb.go:1061-1071 | a 64-bit value takes at most ten bytes |
| `Varints.SovIsLength` | proto/packet.pb.go:1282-1284 | `sovPacket` is the length of the encoding |
| `Skips.SkipRecord` | proto/packet.pb.go:3052-3071 | moves past a length and the bytes it announces, with 64-bit wrap-around |
| `Skips.ReadHead` | proto/packet.pb.go:3020-3083 | one turn of the skip loop: tag, wire type, and the index after a plain body, with 64-bit wrap-around |
| `Skips.SkipField` | proto/packet.pb.go:3015-3092 | the depth-counter loop computes `Skip` or fails, on every input |
| `Skips.SkipLoopCloses` | proto/packet.pb.go:3072-3078 | inside d + 1 open groups the counter loop first closes one by recursive descent, then goes on inside d |
| `Skips.SkipAgreesWithGrammar` | proto/packet.pb.go:3015-3092 | skipping stops after n bytes of the buffer exactly when those n bytes are one well-formed field, and n is at least 1 |
| `Skips.FieldByHead` | proto/packet.pb.go:3020-3083 | the head that the loop reads says how long a field is exactly as the grammar of tags and bodies does |
| `WireFields.VarintIsField` | proto/packet.pb.go:3037-3049 | a tag of wire type 0 and x are a field exactly when x is a varint |
| `WireFields.Fixed64IsField` | proto/packet.pb.go:3050-3051 | with wire type 1, exactly when x has eight bytes |
| `WireFields.RecordIsField` | proto/packet.pb.go:3052-3071 | with wire type 2, a length n and s are a field exactly when s has n bytes |
| `WireFields.Fixed32IsField` | proto/packet.pb.go:3079-3080 | with wire type 5, exactly when x has four bytes |
| `WireFields.GroupIsField` | proto/packet.pb.go:3072-3078 | a start-group tag, any fields and an end-group tag are a field, whatever the two numbers |
| `WireFields.NoSuchField` | proto/packet.pb.go:3081-3082 | an end-group tag starts no field, and neither do wire types 6 and 7 |
| `WireFields.SkipsOneField` | proto/packet.pb.go:3015-3092 | the loop passes over exactly one field, whatever follows it |
| `Decoding.DecodeConcat` | proto/packet.pb.go:1288-1540 | decoding a ++ b into m has the outcome of decoding b into what a made of m, in success and in failure |
| `Decoding.AcceptsAnyTarget` | proto/packet.pb.go:1288-1540 | whether a byte string is accepted does not depend on what the message holds already |
| `Readings.ScalarReading` | proto/packet.pb.go:1716-1734 | any varint sets an integer to its low 64 or 32 bits in two's complement, a bool to whether it is not zero |
| `Readings.RequestScalars` | proto/packet.pb.go:1320-1357 | Sid and RpcId of a request read as int64s |
| `Readings.ResponseScalars` | proto/packet.pb.go:1716-1734 | the Code of a response reads as an int32, higher bits dropped |
| `Readings.WrongWireTypeRefused` | proto/packet.pb.go:1317-1320 | a known field of another wire type is an error, whatever follows |
| `Readings.BadTagRefused` | proto/packet.pb.go:1310-1315 | so are an end-group tag and a field number that is not positive as an int32 |
| `Readings.WideTagRead` | proto/packet.pb.go:1308-1309 | a field number counts modulo 2^32: a longer tag is read like the field's own |
| `Readings.UnknownKept` | proto/packet.pb.go:1516-1533 | a field of another number is appended to the unknown bytes as it is |
| `Readings.EntryReading` | proto/packet.pb.go:1389-1479 | keys, values and other fields of an entry may come in any order and number; the last key and the last value count |
| `Readings.StrangePieceOverruns` | proto/packet.pb.go:1465-1478 | a field of another number must not run past the end of its entry |
| `Readings.MapFieldReading` | proto/packet.pb.go:1389-1483 | a map field sets the last key in its record to the last value, empty where missing |
| `Readings.KeyMayOverrun` | proto/packet.pb.go:1389-1483 | a key may take bytes past its entry, which are then read again as a field |
| `Failures.RemainsConcat` | proto/packet.pb.go:1288-1540 | a failed Unmarshal has decoded everything before the field that failed |
| `Failures.CutScalarLeaves` | proto/packet.pb.go:1716-1734 | an integer whose varint breaks off after n bytes is left with its 7n lowest bits |
| `Failures.CutElsewhereLeaves` | example/protocol/usernode.pb.go:936-1034 | a bool, a string or a map that cannot be read is left alone |
| `Failures.RefusedTagLeaves` | proto/packet.pb.go:1310-1320 | a refused tag changes nothing |
| `Failures.BrokenSubLeaves` | proto/packet.pb.go:2613-2619 | a sub-message that fails to decode stays with what was read of it, on top of what it held |
| `Failures.BrokenItemLeaves` | proto/packet.pb.go:2993-2999 | so does a list item, which has been appended already |
| `Encoding.MapSizeAnyOrder` | proto/packet.pb.go:1085-1090 | the size of a map does not depend on the order of iteration |
| `Encoding.EncodesSize` | proto/packet.pb.go:1072-1281 | whatever is written for a message, in any map order, has the predicted size |
| `Encoding.SomeEncoding` | proto/packet.pb.go:600-614 | every message value has an encoding |
| `Merging.DecodeEncoded` | proto/packet.pb.go:2536-2926 | decoding any encoding of y into any message x yields their merge: last value wins, map entries override, sub-messages merge, lists and unknown bytes append |
| `Merging.DecodeWf` | proto/packet.pb.go:1516-1533 | decoding leaves well-formed messages, their unknown bytes included |
| `Merging.RoundTrip` | proto/packet.pb.go:600-661 | an encoding of m decodes to m if and only if m is well formed, for every map order |
| `Merging.Reencoding` | proto/packet.pb.go:1288-1540 | re-encoding whatever was accepted and decoding it again gives the same message, unknown fields, groups and duplicates included |
| `Merging.ConcatenationMerges` | proto/packet.pb.go:2927-3014 | the concatenation of two encodings decodes to the merge of the two messages |
| `Readings.MergeMeans` | proto/packet.pb.go:2536-2926 | the merge field by field: a sub-message both have is merged and not replaced, entries override per key, lists and unknown bytes are appended |
| `Marshalling.Size` | proto/packet.pb.go:1072-1281 | computes `SizeOf` |
| `Marshalling.SizeField` | proto/packet.pb.go:1218-1263 | computes the size of one field |
| `Marshalling.SizeMap` | proto/packet.pb.go:1085-1090 | computes the size of a map in whatever order it visits the keys |
| `Marshalling.MarshalToSizedBuffer` | proto/packet.pb.go:615-661 | an encoding of the message fills exactly the last `Size()` bytes below the given end; the index never drops below zero and no other byte changes |
| `Marshalling.PutEntry` | proto/packet.pb.go:632-648 | writes one map entry, value before key, so that it reads key before value |
| `Marshalling.FinishRecord` | proto/packet.pb.go:645-647 | puts length and tag in front of a payload already in place |
| `Marshalling.PutScalar` | proto/packet.pb.go:650-659 | writes tag and varint of a scalar, nothing for zero |
| `Marshalling.MarshalField` | proto/packet.pb.go:929-1019 | the same for one field, sub-messages included |
| `Marshalling.MarshalMap` | proto/packet.pb.go:631-649 | the same for a map, in whatever order it visits the keys |
| `Marshalling.MarshalList` | proto/packet.pb.go:1035-1059 | the same for a repeated message, last element first |
| `Marshalling.Marshal` | proto/packet.pb.go:600-614 | returns an encoding of the message, of the predicted size |
| `WireMessages.FieldOnWire` | proto/packet.pb.go:615-661 | a field is written with its number and the wire type of its kind, zero values not at all |
| `WireMessages.MapOnWire` | proto/packet.pb.go:631-649 | a map is written as one record per key, in some order, each with the key as field 1 and the value as field 2 |
| `WireMessages.AnyOrderEncodes` | proto/packet.pb.go:631-649 | and every order may occur |
| `WireMessages.MessageOnWire` | proto/packet.pb.go:615-661 | a message is its fields in order, then its unknown bytes |
| `WireMessages.RequestOnWire` | proto/packet.pb.go:615-661 | the bytes of a request, in every order of its headers: Sid, RpcId, Headers and Packet as fields 1 to 4 |
| `WireMessages.ResponseOnWire` | proto/packet.pb.go:678-725 | the bytes of a response: Sid, Headers, Code and Packet as fields 1 to 4 |
| `WireMessages.GeneratedTags` | proto/packet.pb.go:615-1059 | the tag bytes of the twelve messages |
| `WireMessages.StrangersKeepAll` | proto/packet.pb.go:600-661 | a reader that knows none of its fields keeps an encoding whole |
| `WireMessages.UnknownIsStrange` | proto/packet.pb.go:1516-1533 | the unknown bytes of a well-formed message are complete fields that its schema does not number |
| `WireMessages.StrangeIsUnknown` | proto/packet.pb.go:1516-1533 | and any such fields may be unknown bytes |
| `Unmarshalling.ReadExtent` | proto/packet.pb.go:1359-1383 | a length prefix is accepted exactly when the payload lies inside the buffer |
| `Unmarshalling.SkipAt` | example/protocol/usernode.pb.go:1015-1027 | an unknown field is skipped exactly when it ends in time; a wrapped sum is an error with the sign test and an index out of range without it |
| `Unmarshalling.UnmarshalEntry` | example/protocol/usernode.pb.go:936-1028 | reads key and value as `ReadEntry` does, overrunning the entry included; indexes out of range exactly when the sign test is missing and the entry wraps |
| `Unmarshalling.UnmarshalEntryField` | proto/packet.pb.go:1389-1479 | one turn of that loop leaves the rest of the entry to be read, or fails as `ReadEntry` does |
| `Unmarshalling.EntryCanWrap` | proto/packet.pb.go:1466-1477 | the bytes of a Request whose header entry wraps |
| `Unmarshalling.Message.Unmarshal` | example/protocol/usernode.pb.go:811-1052 | on every input: the message becomes what `Decode` computes, or an error is returned exactly when `Decode` fails and the message is left as `Remains` says; with the sign test no index is ever out of range and the final test is never true |
| `Unmarshalling.Message.UnmarshalHead` | proto/packet.pb.go:1292-1316 | one turn of the field loop is one `DecodeField` |
| `Unmarshalling.Message.UnmarshalField` | proto/packet.pb.go:2536-2926 | the case for one known field updates that field alone, as `DecodeKnown` says, or leaves in it what `KnownRemains` says |
| `Unmarshalling.Message.UnmarshalScalar` | proto/packet.pb.go:2725-2744 | a varint field: an integer starts from zero and collects groups in place, also in a varint that breaks off |
| `Unmarshalling.Message.UnmarshalSub` | proto/packet.pb.go:2613-2619 | a sub-message or list item decodes the payload and keeps what it read, also on an error |
| `Packets.GeneratedSchemas` | proto/packet.pb.go:1288-3014 | the general results apply to all twelve generated messages |
| `Packets.RequestRoundTrip` | proto/packet.pb.go:615-661 | a request comes back from the wire exactly when its unknown bytes are complete unknown fields |
| `Packets.UnknownBytesMatter` | proto/packet.pb.go:620-623 | a Go request that does not come back as it was |
| `Packets.ResponseRoundTrip` | proto/packet.pb.go:678-725 | the same for responses |
| `Packets.DecodedRequestIsValid` | proto/packet.pb.go:1288-1540 | a decoded request can be encoded again |
| `Packets.EncodedSidIsNotEmpty` | client/client.go:85-92 | a request with a Sid never encodes to an empty packet, which `Write` would drop |
| `Packets.EncodedFits` | server/server.go:228-236 | a reply fits a frame exactly when its encoding, in whatever map order, is shorter than 2^27 bytes |
| `FrameHeaders.UnsignSign` | transport/header.go:82-82 | the byte permutations of encoder and check are inverse to each other |
| `FrameHeaders.SizeRoundTrip` | transport/header.go:67-67 | every size in [-2^27, 2^27) is read back from its four bytes |
| `FrameHeaders.HeaderRoundTrip` | transport/header.go:24-90 | an encoded header decodes to its size and passes the check |
| `FrameHeaders.WrongSignatureRefused` | transport/header.go:81-90 | a size with the signature of another size is refused |
| `FrameHeaders.UnreadableSizeRefused` | transport/header.go:51-75 | a size whose four bytes all ask for another one is refused, whatever its signature |
| `FrameHeaders.UnreadableSignatureIsZero` | transport/header.go:81-90 | a signature that cannot be read passes exactly for size zero |
| `FrameHeaders.HeadersByteByByte` | transport/header.go:24-45 | the eight bytes for two sizes, one of which shows the permutation |
| `FrameHeaders.AcceptedSizeRange` | transport/header.go:51-90 | no other size can be accepted |
| `FrameHeaders.FitsFour` | transport/header.go:33-33 | four bytes are enough exactly for the sizes in [-2^27, 2^27) |
| `FrameHeaders.PutVarint` | transport/header.go:33-33 | puts the varint of any size at the front of the buffer, and runs past its end exactly when the encoding is longer |
| `FrameHeaders.Header.Encoder` | transport/header.go:24-45 | yields signature and size, or panics, exactly for sizes that `PutVarint` cannot fit |
| `FrameHeaders.Header.Decoder` | transport/header.go:51-75 | reads signature and size; fails exactly on a short buffer, which changes nothing, and on four continuation bytes |
| `FrameHeaders.Header.Check` | transport/header.go:81-90 | accepts exactly the headers whose signature gives back the size |
| `Frames.PacketsOfConcat` | transport/socket.go:111-199 | frames written one after the other are read as their packets, in order, then whatever follows |
| `Frames.PacketsOfBegun` | transport/socket.go:157-175 | a frame that has only begun to arrive delivers nothing |
| `Frames.EmptyFrameSkipped` | transport/socket.go:134-199 | a frame of size zero or less is passed over |
| `Frames.OversizeFrameStops` | transport/socket.go:134-199 | one over the limit ends the reading, whatever follows |
| `Frames.WrongSignatureStops` | transport/socket.go:134-153 | so does a header with the signature of another size |
| `Frames.Inbound.Read` | transport/socket.go:203-215 | a read moves any non-empty number of bytes of the stream into the buffer, or meets its end |
| `Frames.Outbound.Write` | transport/response.go:41-41 | a write takes a prefix of the bytes offered, not empty unless it fails |
| `Frames.ReadFull` | transport/socket.go:113-132 | both inner loops collect exactly the bytes asked for, or meet the end of the stream |
| `Frames.ReadHeader` | transport/socket.go:134-153 | a header is accepted exactly when decoder and check both accept it |
| `Frames.OnRecv` | transport/socket.go:87-200 | for every split of the stream into reads the callback gets exactly the packets of the whole stream: complete frames of positive size up to the first bad, oversize or truncated one |
| `Frames.WriteResponse` | transport/response.go:18-50 | a write puts the whole frame on the connection and succeeds if no `conn.Write` fails, however little each takes; it fails, perhaps with only a prefix out, if and only if one does; empty packets add nothing |
| `Writers.NextKeepsInv` | transport/response.go:35-47 | every step of every writer keeps: whole frames in lock order, then a prefix of the lock holder's |
| `Writers.ReaderSeesLockOrder` | transport/response.go:35-47 | up to the first write error a reader gets exactly the packets written in full, in lock order |
| `Transport.FullStack` | transport/socket.go:111-199 | messages of 1 to 2^20 encoded bytes that are written in sequence arrive unchanged and in order, also when the next write was cut short |
| `Transport.SendOne` | transport/response.go:18-50 | marshalling and writing one message puts its whole frame on the connection unless a write fails, and then perhaps only the beginning; it reports an error if and only if a write failed |
| `Transport.Send` | transport/response.go:18-50 | the connection holds the frames of the first messages and at most the beginning of one more; all of them exactly when no write failed |
| `Transport.Receive` | transport/socket.go:87-200 | reassembling and unmarshalling, with any read sizes, returns exactly the messages whose frames are complete |
| `Transport.Transfer` | transport/socket.go:87-200 | sending and then receiving, with any write and read sizes and a failure anywhere, delivers the first messages in order, and all of them if no write failed; the sender knows if one did |
| `RpcSteps.StepKeepsInv` | client/client.go:63-162 | every step of callers, handlers and server keeps the invariant |
| `RpcSteps.RunKeepsInv` | server/server.go:143-284 | the invariant holds in every state of every run |
| `RpcSteps.PickClosedNever` | client/client.go:141-144 | a select never fires because of a closed wait channel |
| `RpcSteps.SendOnClosedNever` | client/pools.go:119-121 | no handler sends on a closed channel |
| `RpcSteps.ChannelOpen` | client/pools.go:114-123 | a handler that has found an entry finds its channel open, nothing received on it, and no other sender |
| `RpcSteps.NoSender` | client/client.go:99-103 | the deferred closed test never takes a value meant for the select |
| `RpcTheorems.CallReturnsOwnResult` | client/client.go:63-162 | a call that returns a packet and no error returns the result of the one execution of its own request: its packet, its Sid, the handler registered under its RpcId, which is its method's own when the ids of the registered names do not collide |
| `RpcCodes.RequestOfCall` | client/client.go:76-96 | the frame of a call decodes to its Sid, its method's id, its packet and its trace id, with the onlyCall header if and only if it wants no reply |
| `RpcCodes.OutcomeOfReply` | client/client.go:141-161 | what a call returns is packet or code of the reply it received, and that is a reply to its own frame |
| `RpcCodes.CallReturnsOwnError` | client/client.go:155-159 | a call that returns code 500 was refused, 405 limited, 505 executed with an error, itself; there are no other codes |
| `RpcCodes.OutcomesByKind` | client/client.go:123-142 | one-way calls return at once; others return a reply, a code, a timeout or a failed write |
| `RpcRuns.ReplyCanReturn` | client/pools.go:95-123 | a reply on its way to a call at its select can reach it, in a continuation of the run that ends with the call returning what it says |
| `RpcOutcomes.CallSucceeds` | client/client.go:63-162 | for every method served and every result that fits a message, a run in which a call returns it |
| `RpcExecutions.ExecutedOnce` | server/server.go:267-283 | no frame is executed twice |
| `RpcExecutions.RunKeepsExecs` | server/server.go:198-225 | in every run, each execution has decided the fate of its frame: success, failure or panic according to its result |
| `RpcExecutions.OneExecutionPerCall` | server/server.go:208-208 | no call is executed twice |
| `RpcTheorems.ChannelSafety` | client/client.go:98-153 | no close of a closed channel, no send on one, no missing callItem entry; a finished call has closed its channel exactly once |
| `RpcTheorems.PendingTable` | client/client.go:105-153 | callItem holds exactly the calls between insert and delete, and those whose write failed |
| `RpcTheorems.BlockedSender` | client/pools.go:114-123 | the target of a blocked handler has received nothing and is still reaching its select, at it, or has picked its timeout; no other handler sends to it |
| `RpcTheorems.TimedOutTargetBlocksForever` | client/client.go:131-132 | once the target has picked its timeout, handler and lock stay as they are for the rest of the run |
| `RpcTheorems.OtherTargetsRelease` | client/client.go:141-142 | otherwise the handler is free after at most two steps |
| `RpcTheorems.DeadlockExactly` | client/pools.go:114-123 | a blocked handler never gets on, in any continuation, if and only if its target has picked the timeout |
| `RpcDeadlock.DeadlockHappens` | client/client.go:129-133 | a run that ends with such a handler, for every server that accepts a connection |
| `RpcTheorems.AtMostOneReply` | server/server.go:143-284 | no frame is answered twice |
| `RpcTheorems.ReplyMatchesRequest` | server/server.go:177-236 | a reply goes to its frame's own connection, with the request's own Sid and headers |
| `RpcCodes.CodesOfReplies` | server/server.go:177-256 | a reply has code 500 if its frame was refused, 405 if limited, 505 if item.Call failed, each without a packet, and 0 with the result if it succeeded; Sid and headers are the request's |
| `RpcTheorems.ReplyLedger` | server/server.go:143-284 | a frame the server is done with was executed exactly once, with the result its fate says, or was refused, undecodable, unregistered, limited or met a panicking limiter and never executed; it has been answered exactly when its fate makes a reply due and that reply fits a frame, and by that reply |
| `RpcTheorems.ExecutedIsAnswered` | server/server.go:198-236 | a frame whose item.Call ran has been answered with its result, or with code 505 after an error, exactly when item.Call did not panic, the reply is wanted or reports an error, and it fits a frame |
| `RpcCodes.SuccessIsAnswered` | server/server.go:215-236 | a frame whose item.Call succeeded is answered if and only if it has no onlyCall header, its Sid is not zero, and the reply fits a frame |
| `RpcCodes.FailureIsAnswered` | server/server.go:198-256 | refused, limited and failed requests are answered if and only if the reply fits, onlyCall or not; unregistered ids and panics never |
| `RpcCodes.OneWayGetsNoResult` | server/server.go:217-223 | a one-way call is never sent its result |
| `RpcCodes.TwoWayGetsResult` | server/server.go:215-236 | any other call whose item.Call succeeded is sent its result if and only if that fits a frame |
| `RpcCodes.HandledRepliesAreWanted` | client/pools.go:106-112 | replies without a Sid or with an onlyCall header get no further than Unmarshal |
| `RpcOutcomes.ReplyNeverSent` | server/server.go:228-236 | for every method served and every result of 2^27 bytes or more, a run in which the caller who wants it never gets a reply |
| `RpcTheorems.AdmittedFit` | server/server.go:238-265 | with at most ten connections, queued requests and requests past the check together fit the channel |
| `RpcTheorems.CountersExact` | server/server.go:81-103 | `reqs` is the number of workers between `incReq` and `decReq`, between zero and the number of workers; `conns` is the number of open connections |
| `RpcOrder.SidsAreCounted` | client/common.go:15-19 | the calls of a process, through any of its pools, have the Sids 1 to its counter, each once |
| `RpcOrder.FirstInFirstOut` | server/server.go:258-283 | a request behind another one in the channel is never taken before it |
| `RpcFrames.FrameIsSomewhere` | server/server.go:238-284 | in every run each frame is on the wire, with onRecv of its own open connection, in the channel, with a worker, or done, and nowhere else |
| `RpcGuards.ChannelHasRoom` | server/server.go:258-262 | the channel never holds more than its capacity, however many connections push |
| `RpcGuards.OnlySizedFramesStart` | transport/socket.go:157-199 | the server begins no frame that is empty or over 2^20 bytes |
| `RpcGuards.OnlySizedRepliesHandled` | transport/socket.go:157-199 | no reply handler works on such a reply |
| `RpcGuards.ReadersHoldTheTable` | client/pools.go:114-123 | while a reply handler holds the read lock, no entry of its pool's callItem comes or goes |
| `RpcAdmission.ElevenConnectionsBlock` | server/server.go:238-265 | a reachable state in which an eleventh connection stands in front of a full channel |
| `RpcAdmission.AdmissionExactly` | server/server.go:238-265 | onRecv never blocks on its send if and only if at most ten connections can be open, or the channel is too small to admit anything |
| `Pools.PoolInvariant` | client/pools.go:136-232 | in every interleaving, stale write-backs included: at most eight clients under a key, distinct names, and group and service of each concatenate to the key |
| `Pools.StepKeepsInv` | client/pools.go:136-232 | each refill, snapshot and write-back keeps that invariant |
| `Pools.RespondsWithMember` | client/pools.go:166-196 | response returns a member of the list it leaves, or an error exactly when that is empty; its names concatenate to those asked for, and are those asked for unless another service asked for concatenates alike |
| `Pools.OneGroupGetsItsService` | client/client.go:190-190 | as long as all groups asked for have the same length, as in the pool of one Client, response yields a client of the very group and service asked for |
| `Pools.ListsByConcatenation` | client/pools.go:49-51 | two clients are in one list if and only if their group and service concatenate alike |
| `Pools.AmbiguousKeyMixesServices` | client/pools.go:49-51 | for any two services that concatenate alike, a run in which one is served a client of the other |
| `Pools.RemovalCutsOut` | client/pools.go:198-232 | undisturbed, a removal takes the client out of its list and changes nothing else |
| `Pools.GoneForGood` | client/pools.go:198-232 | a client neither listed nor in a waiting snapshot never comes back |
| `Pools.RemovalLasts` | client/pools.go:198-232 | a client stays off its list in every continuation if and only if it is off it now and in no waiting snapshot of it |
| `Pools.RemovalUndone` | client/pools.go:198-232 | for every service, a run in which a removed client is restored by a stale snapshot |
| `Pools.CopyWithout` | client/pools.go:209-224 | the copying loop yields the list without the client, and -1 exactly when it was not there |
| `Pools.Pool.GenUid` | common/common.go:24-26 | a name never produced before |
| `Pools.Pool.GenCon` | client/pools.go:142-164 | makes as many attempts to connect as asked, and returns one client of the service, under a new name, for each attempt that succeeds, in order |
| `Pools.Pool.Connect` | client/pools.go:71-84 | one attempt, whose outcome is open |
| `Pools.Pool.Refill` | client/pools.go:166-175 | the list after creation and top-up: the clients it had, then those of the successful attempts, eight for an empty list and one for each client then missing |
| `Pools.Pool.Response` | client/pools.go:136-196 | is one respond step and keeps the invariant; yields a member of the right list, or none exactly when it is empty; makes the attempts that eight connections take and keeps each that succeeds |
| `Pools.Pool.TakeSnapshot` | client/pools.go:206-225 | is one snapshot step, and keeps the invariant |
| `Pools.Pool.WriteBackSnapshot` | client/pools.go:227-231 | is one write-back step, whatever has happened since the snapshot, and keeps the invariant |

## Left out

Simplifications in what is modelled:

- Unmarshalling.Message.Unmarshal: the contract does not say which of the errors is returned.
- Unmarshalling.Message.UnmarshalSub: a sub-message is decoded in an object of its own and stored back, so aliasing between a message and its sub-messages is not captured.
- Marshalling.MarshalList: a nil element of `Metrics.Lists` cannot be represented (`Size` counts it as empty, `MarshalToSizedBuffer` dereferences it).
- Marshalling.Marshal: sizes are unbounded numbers below 2^63, and nil and empty strings or maps are one value.
- FrameHeaders.Header.Encoder: after a panic the contents of the 4-byte buffer, which nobody sees, are not specified.
- Writers.ReaderSeesLockOrder: the mutex argument is for writers sharing one `Response`, as clients do; the server gives each request its own `Response`, and how their writes interleave on one connection is not modelled. In the call protocol a reply frame is delivered whole, in any order, or lost.
- RpcTheorems.CallReturnsOwnResult: Sids do not wrap around, and a `Write` that fails (or panics on an oversize packet) has not put a whole frame on the wire. It is about `call`; `Client.Call` turns a panic into an empty result without an error.
- RpcTheorems.DeadlockExactly: critical sections are single steps and readers may always enter; Go's preference for waiting writers only removes behaviours. A timeout may fire at any moment while a call is in its select.
- RpcTheorems.ReplyLedger: one server, with one table of handlers and one channel; a pool that dials several nodes is not modelled. The table holds entries whose `Call` is set; one without is answered like an id that is not registered, that is, not at all, and has no step of its own.
- Pools.GoneForGood: names are those `GenUid` has produced, and it never produces one twice.

Out of scope, or in code outside the repository:

- `destroy` and `Release`: the model ends where shutdown begins.
- Registry, limiter, dialling, Kafka, Prometheus, logging, configuration, pprof: their outcomes are nondeterministic choices where a step depends on them.
- `GenRid`: an arbitrary function from method names to 64-bit ids; the FNV hash is not part of this model.
- Real time, random choice and UUIDs: nondeterministic.
- Getters, text formatting, descriptors and reflection hooks of the generated files.
- Batching of metrics (`metrics.combine`) and the option setters.
- Termination and fairness: no claim is made that a reply eventually arrives.
