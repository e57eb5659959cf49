# A verified model of tonutils-go

tonutils-go is a Go library for the TON blockchain: the ADNL transport, the TL and TL-B codecs, and the parts of the ledger rules a
client or a node needs. This project models the stateful and arithmetic core of that library in Dafny and proves what the code
promises, for every input, every run or every reachable state.

- **ADNL, the transport.** The circular replay bitmap of a peer is a plain set of numbers (`ReplayWindow`). Outside the cases named
  below, epochs never fall and no numbered packet is accepted twice under one epoch, over every run of inbound packets and reinits
  (`PeerEpoch`). Channel keys of two peers mirror each other over every run of a network that drops, repeats and reorders, until a
  peer starts over (`Channels`). The packet format reads back what it writes, and the signature covers the packet without itself
  (`Packets`, `PacketIo`, `PacketSchema`). Every channel packet fits the network's packet size, whole or split (`PacketMtu`), and
  the parts of a split message rebuild it in any order (`Multipart`, `MultipartRuns`).
- **TL, the wire format.** Byte strings and their in-place headers (`TlBytes`, `TlBuffer`); the compiled-schema codec with its two
  writers, its parser and its size analysis (`TlSchema`, `TlSize`, `TlFixed`, `TlParse`, `TlRoundTrip`, `TlPreflight`, `TlWriters`,
  `TlSerialize`, `TlExecuteParse`, `TlLeaves`, `TlWire`).
- **TL-B, the ledger.** Shard identifiers and the tree of shards (`Bits`, `Shards`, `BinTree`), processed-message records
  (`Pruning`, `ProcessedUpto`), VM stacks and continuations (`VmCells`, `VmStack`, `VmRoundTrip`, `VmLoops`, `VmWire`), currency collections
  (`VarUints`, `Grams`, `Currency`, `CurrencyMath`), chained arrays (`ArrayChunks`), storage fees (`U128s`, `StorageFee`).
- **Proofs from lite servers.** Following block proofs (`ProofChain`) and counting validator signatures (`Quorum`).

`Options`, `Powers`, `BitNumbers`, `Cells` and `Sorting` are shared helpers.

Code that updates fields, buffers and cursors is modelled by classes and methods with loops, each proved against a function of its
inputs; the theorems are lemmas about those functions. Code that computes is modelled by functions. Hashes, signatures, key
agreement, the cipher, the clock, random bytes and the answers of servers are given functions or arguments, with only the assumptions
that the statements name: a shared secret is symmetric, different pairs of keys have different secrets, hashes and ciphers have their
lengths, a decoder reads back what its encoder wrote.

Four promises do not hold of the code as it stands, and the model says exactly when they do:

- Replay protection. A packet for an older local epoch with a reinit date that is not positive, or a local reinit at the largest
  32-bit date, takes the epoch back. `PeerEpoch.ReplayIffRegress` shows which of these steps let a number be accepted again: all of
  them once the peer's epoch is known, and before that (epoch zero) only the local reinit. `PeerEpoch.TripleTwice` and
  `PeerEpoch.TripleTwiceAtLargestDate` are such runs.
- Mirrored channels. After a local reinit a late message can make a channel ready while the other side still uses the old key
  (`Channels.LateCreateAfterReinit`). Two ready channels mirror each other exactly when each side knows the other's present key
  (`Channels.MirrorIffKnown`), which is always so while no peer starts over (`Channels.ReadyChannelsMirror`).
- Shard inclusion. For the zero shard the ancestor test does not mean inclusion (`Shards.ZeroShardBelowALeaf`);
  `Shards.AncestorMeansInclusionIff` gives the condition. Pruning records needs it too: `ProcessedUpto.ZeroRecordLosesMessages`
  loses a message with a record of the zero shard, which the loader refuses.
- Packet round trip. Two kinds of packet serialize and do not come back: those whose short id does not have 32 bytes, and those with a
  destination reinit date and no reinit date (`PacketIo.LoneDestinationDateIsLost`). `Packets.RoundTripIff` shows that there are no
  others.

The limits the code relies on are shown to be needed as well: 64 parts for a split message (`MultipartRuns.MoreThan64Refused`), and
for the weight of all validators three bounds. Below 2^64 every signature of an accepted list was verified
(`Quorum.AcceptedAreSigned`), and at 2^64 one need not be (`Quorum.UncheckedAtTheLimit`). Below a half of 2^64 any two accepted
signature lists share signers (`Quorum.QuorumsIntersect`), and at a half they need not (`Quorum.HalfBoundIsSharp`). Below a third
every list of valid signatures of more than two thirds is accepted (`Quorum.AcceptsIff`), and above it a fully signed list can be
refused (`Quorum.ThirdBoundIsSharp`).

## Model

| member | source | states |
|---|---|---|
| `ReplayWindow.Window.Accept` | adnl/adnl.go:391-427 | accepts exactly when the number is positive, above max(highest, number) - 1024 and not accepted since the last reset; the set grows by the accepted number and the highest number rises |
| `ReplayWindow.Window.ClearRun` | adnl/adnl.go:402-411 | the masked clearing loop clears exactly the run of slots between the old and the new highest number, wrapping at 1024 |
| `ReplayWindow.Window.Reset` | adnl/adnl.go:763-764 | after a reset the window stands for the empty set |
| `ReplayWindow.Window.constructor` | adnl/adnl.go:391-427 | a new window stands for the empty set |
| `ReplayWindow.ClearStep` | adnl/adnl.go:405-411 | one turn of the loop extends the cleared run by the bits of one mask |
| `ReplayWindow.AdvanceKeeps` | adnl/adnl.go:397-415 | moving the window keeps the represented set |
| `ReplayWindow.ReadTells` | adnl/adnl.go:421-424 | the bit test is membership in the set |
| `ReplayWindow.MarkAdds` | adnl/adnl.go:425-426 | setting the bit adds the number |
| `PeerEpoch.Adnl.PreparePacketLocked` | adnl/adnl.go:300-389 | the receive step on bitmap and fields is the step on the plain-set state, with the same outcome; what that outcome is, `PeerEpoch.OutcomeIff` says |
| `PeerEpoch.OutcomeIff` | adnl/adnl.go:300-427 | by the packet's two dates, the peer's epoch and the window of 1024: exactly when a packet passes, is answered with a reinit, or is dropped |
| `PeerEpoch.AcceptedUnderItsEpoch` | adnl/adnl.go:300-389 | a number is accepted only under the dates its packet names, none of them in the future, and is marked |
| `PeerEpoch.RefusedMarksNothing` | adnl/adnl.go:300-427 | a packet that does not pass marks no number |
| `PeerEpoch.VersionCountsEpochs` | adnl/adnl.go:740-773 | the lifecycle version rises by one exactly when the epoch changes |
| `PeerEpoch.Adnl.ApplyPeerReinitLocked` | adnl/adnl.go:740-773 | a newer peer date moves the epoch and empties the window, anything else changes nothing |
| `PeerEpoch.PeerReinitIs` | adnl/adnl.go:740-773 | a peer date is taken exactly when positive and newer, with an empty window |
| `PeerEpoch.Adnl.ReinitLocked` | adnl/adnl.go:1405-1457 | a local reinit moves the local epoch past itself, in 32 bits, and empties the window |
| `PeerEpoch.LocalReinitIs` | adnl/adnl.go:1405-1457 | the local date becomes the clock or one more than before, as 32 bits hold it; the peer's epoch and the window are forgotten |
| `PeerEpoch.EpochFallsIff` | adnl/adnl.go:300-389 | the pair (local epoch, peer epoch) falls in exactly the guarded cases |
| `PeerEpoch.ResetRaises` | adnl/adnl.go:740-773 | outside those cases a step that forgets an accepted number raises the epoch |
| `PeerEpoch.NoReplay` | adnl/adnl.go:300-427 | over every run without such a step the epoch never falls and no triple (local epoch, peer epoch, number) is accepted twice |
| `PeerEpoch.EachTripleOnce` | adnl/adnl.go:300-427 | with reinit dates absent or positive, a fresh peer accepts each triple at most once |
| `PeerEpoch.ReplayIffRegress` | adnl/adnl.go:300-389 | for every epoch and every number accepted in it: a later run without a falling epoch accepts the same triple again if and only if the step takes the epoch back and either the peer's epoch was known, or it was zero and the step is a local reinit at the largest date |
| `PeerEpoch.RegressReadmits` | adnl/adnl.go:348-366 | after each such step one or two ordinary events accept the triple again |
| `PeerEpoch.ShutStays` | adnl/adnl.go:300-389 | after every other falling step the triple stays refused, over every run without one more |
| `PeerEpoch.TripleTwice` | adnl/adnl.go:300-389 | a concrete run that accepts the triple (10, 5, 1) twice |
| `PeerEpoch.TripleTwiceAtLargestDate` | adnl/adnl.go:1405-1457 | a concrete run over two local reinits at the largest date that accepts (2147483647, 0, 1) twice |
| `Channels.Setup` | adnl/channel.go:58-99 | the reversing loop and the swap give the session keys of the specification, or nothing when key agreement fails |
| `Channels.SetupIs` | adnl/channel.go:58-99 | the larger id encrypts with the secret itself and decrypts with it backwards, the smaller one the other way round, equal ids use it both ways; the channel ids are the hashes of those keys |
| `Channels.SetupMirrors` | adnl/channel.go:58-99 | the two sides of one key exchange get mirrored keys and ids, for smaller, larger and equal peer ids |
| `Channels.Endpoint.ProcessCreateChannel` | adnl/adnl.go:480-524 | known keys and stale dates are ignored, otherwise the channel is set up on the key already chosen, or on a new one |
| `Channels.CreateTakenIff` | adnl/adnl.go:480-524 | a create message is taken exactly when its key is new and its date not stale and key agreement works; what the channel then is |
| `Channels.Endpoint.ProcessConfirmChannel` | adnl/adnl.go:526-560 | only a confirmation of our own key is taken; known and stale ones change nothing |
| `Channels.ConfirmTakenIff` | adnl/adnl.go:526-560 | a confirmation is taken exactly when it names our key and brings news or completes a channel; what the channel then is |
| `Channels.Endpoint.BuildRequest` | adnl/adnl.go:1229-1315 | makes a pending channel if there is none; announces create while pending, confirm until the peer used the channel, and nothing in a packet forced out of a ready channel |
| `Channels.AnnounceIs` | adnl/adnl.go:1229-1315 | which handshake message each state of a channel sends |
| `Channels.StepKeepsInv` | adnl/adnl.go:480-560 | every step of either peer but its own start over keeps the invariant and both peers' channel keys |
| `Channels.RunKeepsInv` | adnl/adnl.go:480-560 | over every run without a start over each peer keeps a single channel key |
| `Channels.ReadyChannelsMirror` | adnl/channel.go:58-99 | over every run without a start over, whenever both channels are ready, one side's encryption key and outgoing id are the other's decryption key and incoming id |
| `Channels.HandshakeCompletes` | adnl/adnl.go:480-560 | one request each way, delivered, makes both channels ready |
| `Channels.RunKeepsFit` | adnl/adnl.go:480-560 | over every run, start overs included, the session keys are those of our key and the peer key we know |
| `Channels.MirrorIffKnown` | adnl/adnl.go:480-560 | over every run, two ready channels mirror each other if and only if each side knows the other's present key |
| `Channels.LateCreateAfterReinit` | adnl/adnl.go:1405-1457 | a run with a start over and a late message whose two ready channels do not mirror each other |
| `Channels.StartingOverHeals` | adnl/adnl.go:1405-1457 | from any state, a start over with a later date and one delivered request each way ends in mirrored channels |
| `Channels.Connection.Perform` | adnl/adnl.go:480-560 | whatever the two objects do is a step of the two-peer world, so the theorems about its runs hold of them |
| `Packets.ParseInverts` | adnl/packet.go:115-296 | parsing a serialized packet that can be restored gives the packet back, and what its signature is checked against is the serialization without the signature |
| `Packets.RoundTripIff` | adnl/packet.go:115-498 | for every packet that serializes and fits the wire: parsing gives it back if and only if its short id has 32 bytes and a destination date stands beside a reinit date |
| `PacketSchema.WriterFollowsSchema` | adnl/packet.go:84-90 | the hand-written writer writes, for every packet that can be restored, what the generic codec writes for the schema of `adnl.packetContents` |
| `Packets.ParsedIsRestorable` | adnl/packet.go:150-270 | every packet that was read has a short id of 32 bytes and both dates or neither |
| `Packets.FieldsRead` | adnl/packet.go:141-270 | the fields between the flag word and the signature read back in front of anything |
| `Packets.FlagsTell` | adnl/packet.go:137-273 | the flag word tells exactly which fields follow, and clearing the signature flag gives the word of the unsigned packet |
| `PacketIo.ComputeFlags` | adnl/packet.go:372-411 | or-ing in one constant per field gives that word |
| `PacketIo.SignatureCovers` | adnl/packet.go:273-335 | for every accepted signed datagram, parsing the bytes the signature is checked against gives the same packet, unsigned |
| `PacketIo.CoveredFlags` | adnl/packet.go:319-335 | the covered bytes start with the same padding and the same flags but the signature flag |
| `PacketIo.CoveredFields` | adnl/packet.go:319-335 | and they continue with the same fields and padding, unsigned, and nothing else |
| `PacketIo.BuildPacketToSign` | adnl/packet.go:319-335 | the copies in the new buffer give the datagram without the signature and with its flag cleared |
| `PacketIo.ParsePacket` | adnl/packet.go:115-296 | the field-by-field reader computes the parse function |
| `PacketIo.NothingBehind` | adnl/packet.go:281-296 | an accepted datagram with anything appended is refused |
| `PacketIo.OtherIdsRefused` | adnl/packet.go:115-150 | another constructor is no packet, and a source key of another kind is refused |
| `PacketIo.ParseMessages` | adnl/packet.go:191-197 | the message loop appends exactly the announced messages or fails |
| `PacketIo.Serialize` | adnl/packet.go:364-498 | writes the packet behind the buffer's contents and returns the size of the message section; fails exactly when there is no message, a part cannot be encoded, or a destination date is missing |
| `PacketIo.WriteMessages` | adnl/packet.go:424-443 | one message alone, several behind their count |
| `PacketIo.SerializeChannelPacket` | adnl/channel.go:167-186 | the bytes the fast writer appends and the payload size it reports |
| `PacketIo.ChannelWriterAgrees` | adnl/channel.go:167-186 | the fast writer writes the same bytes as the general one for a one-message channel packet |
| `PacketIo.LoneDestinationDateIsLost` | adnl/packet.go:479-489 | a packet with a destination date and no reinit date comes back without that date |
| `PacketMtu.ResizeRand` | adnl/packet.go:500-505 | fifteen or seven bytes behind the first, by its lowest bit |
| `PacketMtu.ChannelSize` | adnl/channel.go:167-186 | a channel packet has 40, 48 or 56 bytes around its message |
| `PacketMtu.PartReads` | adnl/message.go:30 | constructor, hash, total size, offset and data read back from a part in that order |
| `PacketMtu.SealIs` | adnl/channel.go:191-210 | channel id, checksum of the plain body, and the body under the cipher keyed by that checksum |
| `PacketMtu.Budgets` | adnl/adnl.go:1154-1183 | the limits in bytes for whole messages and parts after every header size |
| `PacketMtu.Sender.BuildPacket` | adnl/channel.go:131-210 | the sealed packet, its size, and the header size remembered for the next one |
| `PacketMtu.Sender.BuildParts` | adnl/adnl.go:1185-1201 | the packets of all parts in order; none is too large when the parts are small enough |
| `PacketMtu.Sender.BuildRequestMaySplit` | adnl/adnl.go:1154-1215 | on a ready channel, if the remembered header size is zero or came from an earlier channel packet: a small message gives one packet, a huge one is refused, any other gives the packets of its parts, all at most 1452 bytes whatever padding is drawn, without a second attempt |
| `PacketMtu.PartFits` | adnl/adnl.go:1172-1183 | an aligned part with its framing and final padding stays in its budget |
| `PacketMtu.SentPartsRebuild` | adnl/adnl.go:1168-1202 | the parts of a message sent this way rebuild it at the receiver in any order |
| `MultipartRuns.PartitionedMessage.AddPart` | adnl/message.go:382-429 | the two scanning loops and the moves in place compute the merge of the part into the ranges, with the same outcome |
| `MultipartRuns.PartitionedMessage.FindMerge` | adnl/message.go:399-412 | the loops find the first touched range and everything the part absorbs |
| `MultipartRuns.PartitionedMessage.ReplaceRange` | adnl/message.go:423-425 | the absorbed ranges are replaced by one, the later ones move up behind it |
| `MultipartRuns.PartitionedMessage.Build` | adnl/message.go:431-445 | the message, exactly when it is complete and its digest agrees |
| `MultipartRuns.PartitionedMessage.constructor` | adnl/message.go:375-380 | an empty message of the given size |
| `Multipart.MergeCovers` | adnl/message.go:399-425 | merging covers the old bytes and those of the part, and no others |
| `Multipart.MergeStaysSpaced` | adnl/message.go:399-425 | the ranges stay sorted with gaps between them |
| `Multipart.TotalIsCovered` | adnl/message.go:382-429 | the counter is the number of covered bytes |
| `Multipart.FullIffAll` | adnl/message.go:382-429 | the counter reaches the size exactly when every byte is covered |
| `Multipart.AddKeepsWf` | adnl/message.go:382-429 | ready is reported exactly by the part that completes the message, and a complete message stays as it is |
| `Multipart.AddOutcome` | adnl/message.go:382-429 | when a part is passed over and when it is refused as too big or one range too many; either way nothing changes |
| `Multipart.AddCovers` | adnl/message.go:382-429 | an accepted part covers its bytes and no others |
| `Multipart.AddWrites` | adnl/message.go:382-429 | an accepted part writes its bytes and leaves the rest |
| `MultipartRuns.SplitMessage` | adnl/message.go:447-470 | the parts cut the message at multiples of the part size, in order |
| `MultipartRuns.RoomForRanges` | adnl/message.go:417-419 | with at most 64 parts there are never more than 32 ranges |
| `MultipartRuns.PartArrives` | adnl/message.go:382-429 | one more part, new or repeated, is never refused and keeps what was rebuilt |
| `MultipartRuns.AnyOrderRebuilds` | adnl/message.go:382-470 | up to 64 parts in any order, with repetitions, are all accepted, rebuild the bytes and are reported ready once |
| `MultipartRuns.MoreThan64Refused` | adnl/message.go:417-419 | with more than 64 parts some order of arrival is refused |
| `TlBytes.FromBytesInvertsEncode` | tl/bytes.go:300-353 | reading an encoded byte string gives it back and leaves what follows, across all header sizes |
| `TlBytes.Encode` | tl/bytes.go:75-129 | the encoding has exactly the computed size and exists below 2^32 bytes |
| `TlBytes.LeRoundTrip` | tl/bytes.go:12-34 | little-endian numbers read back |
| `TlBuffer.Buffer.RemapAsTlBytes` | tl/bytes.go:217-247 | rewriting a placeholder and payload in place gives the prefix and the encoding of the payload, for every header size and overlapping move |
| `TlBuffer.Buffer.InsertHeader` | tl/bytes.go:223-241 | the placeholder is replaced by the length header, the payload untouched behind it |
| `TlBuffer.Buffer.Move` | tl/bytes.go:223-241 | an overlapping copy moves the old bytes in either direction |
| `TlWriters.RemapSlice` | tl/bytes.go:249-275 | the moves inside a slice give the same prefix and encoding |
| `TlSize.CalculateMinimumWireSize` | tl/precompile.go:686-704 | the loop that saturates and marks structs being visited computes the minimum size |
| `TlSize.CalculateMinimumFieldWireSize` | tl/precompile.go:706-749 | the same for a field; an interface takes the least of what it allows |
| `TlSize.MinAllowedIsLeast` | tl/precompile.go:725-733 | no allowed struct is smaller than the minimum taken |
| `TlWire.MinimumIsReached` | tl/precompile.go:706-749 | some value of each kind takes exactly the least size |
| `TlWire.MinimumOfHeld` | tl/precompile.go:706-749 | a struct in place needs what its fields need, four bytes more boxed, four in all wrapped, nothing under a flag |
| `TlPreflight.MinOfStruct` | tl/precompile.go:686-749 | every successful parse consumes at least the minimum size, on recursive schemas too |
| `TlPreflight.PreflightPasses` | tl/precompile.go:1242-1290 | the vector preflight never rejects elements that are there |
| `TlPreflight.SameStruct` | tl/precompile.go:1242-1290 | parsing with and without the preflight agrees on all input |
| `TlFixed.CalculateFixedWireSize` | tl/precompile.go:756-779 | with its memo and visiting set the analysis gives the memo-free answer and keeps the memo true |
| `TlFixed.CalculateFixedFieldWireSize` | tl/precompile.go:781-824 | the same for a field |
| `TlFixed.VisitsDoNotMatter` | tl/precompile.go:756-779 | cutting recursion at structs that lead here changes no answer |
| `TlFixed.FixedIsExact` | tl/precompile.go:756-824 | a struct of fixed size always takes exactly that many bytes |
| `TlWire.FlatFixedIff` | tl/precompile.go:756-824 | without structs inside, the size is fixed if and only if each field is always there and of a fixed kind, and is their sum |
| `TlPreflight.ParseInvertsWrite` | tl/precompile.go:974-1302 | for every consistent schema and every value in normal form, parsing the written bytes followed by anything gives the value and what followed |
| `TlRoundTrip.RtField` | tl/precompile.go:974-1302 | the same for every kind of field, by induction on the value |
| `TlExecuteParse.ExecuteParse` | tl/precompile.go:974-1302 | the field loop with its flag word computes the parse function; `TlWire.FieldRead` says which fields that reads |
| `TlExecuteParse.ExecuteParseField` | tl/precompile.go:1000-1300 | each kind of field, vectors element by element behind the preflight |
| `TlExecuteParse.ExecuteParseStruct` | tl/precompile.go:631-676 | the constructor id of a boxed struct must be its own |
| `TlExecuteParse.ExecuteParseBoxed` | tl/precompile.go:570-580 | a boxed value is found by its id among the allowed structs |
| `TlExecuteParse.FuelStruct` | tl/precompile.go:974-1302 | allowing deeper nesting never changes an answer already given |
| `TlWriters.ExecuteAppend` | tl/precompile.go:1755-2011 | the appending writer adds exactly the encoding behind the slice, or fails; `TlWire.FieldWritten` says which fields that has |
| `TlWriters.AppendField` | tl/precompile.go:1755-2011 | the same for every kind of field, with byte-string headers put in afterwards |
| `TlWriters.AppendPrecompiled` | tl/precompile.go:534-568 | the same for a struct, boxed or bare |
| `TlLeaves.AppendUint` | tl/bytes.go:24-34 | a number byte by byte, the lowest first |
| `TlLeaves.ReadUint` | tl/precompile.go:992-999 | the inverse loop: the number that was written |
| `TlLeaves.AppendTlBytes` | tl/bytes.go:120-129 | header, data and padding make the encoding, or nothing is appended |
| `TlLeaves.ToBytesToBuffer` | tl/bytes.go:104-113 | the same into a buffer, which stays as it was when the data is too long |
| `TlLeaves.AppendLeaf` | tl/precompile.go:1779-1990 | every kind without recursion is written as the schema says, with its own length checks |
| `TlLeaves.WriteLeaf` | tl/precompile.go:1518-1735 | the same into a buffer, which stays as it was when the value does not fit its kind |
| `TlLeaves.ReadLeaf` | tl/precompile.go:992-1240 | every such kind is read from exactly its bytes, or refused when they are not there |
| `TlSerialize.ExecuteSerialize` | tl/precompile.go:1502-1753 | the buffer writer writes the same encoding behind what the buffer holds |
| `TlSerialize.SerializeField` | tl/precompile.go:1502-1753 | the same for every kind of field |
| `TlSerialize.SerializePrecompiled` | tl/precompile.go:504-532 | a struct is written whole, or the buffer is as it was |
| `TlWire.FieldWritten` | tl/precompile.go:1509-1515 | a field under flag k takes no bytes when flags / 2^k is even and exactly its own encoding otherwise; a flags field sets the word for those behind it |
| `TlWire.FieldRead` | tl/precompile.go:983-987 | the same of reading |
| `TlWire.ElementWritten` | tl/precompile.go:1509-1515 | vector elements stand alone, so one under a flag is never there |
| `TlWire.NumberForm` | tl/precompile.go:1944-1979 | byte i of a number is n / 256^i, and a number wider than its type is not written |
| `TlWire.WireForms` | tl/precompile.go:1779-1990 | the two constants of a boolean, short addresses backwards and long ones as they are, a vector behind its four-byte count |
| `TlWire.BytesForm` | tl/bytes.go:75-129 | the three forms of the length header byte by byte, the data, and zeros to a multiple of four |
| `TlWire.StructForms` | tl/precompile.go:534-568 | constructor id in front of a boxed struct, nothing in front of a bare one, one byte string around a wrapped one |
| `TlWire.AllowedForms` | tl/precompile.go:306-317 | an interface takes any registered struct when it names none, and only the named ones otherwise |
| `TlWire.ReadForms` | tl/precompile.go:992-1240 | numbers are cut to their width, any word but the one constant is false, too few bytes are refused |
| `TlWire.IdsAreChecked` | tl/precompile.go:570-676 | a boxed struct is read only behind its own id, an interface value behind an id that is known and allowed |
| `TlWire.VectorRefused` | tl/precompile.go:1242-1290 | too many elements, or fewer bytes left than their least size, are refused before any is read |
| `Shards.ContainsIff` | tlb/processed_upto.go:294-296 | a shard covers exactly the words that agree with it above its marker |
| `Shards.AncestorIff` | tlb/shard.go:329-333 | an ancestor has its marker no lower and agrees above it |
| `Shards.AncestorContains` | tlb/shard.go:329-333 | what a shard covers, its ancestors cover |
| `Shards.AncestorIsInclusion` | tlb/shard.go:329-333 | on real shards the ancestor test is inclusion of the covered words, both ways |
| `Shards.AncestorMeansInclusionIff` | tlb/shard.go:329-333 | the ancestor test means inclusion if and only if the shard is real or the ancestor covers everything |
| `Shards.ZeroShardBelowALeaf` | tlb/shard.go:329-333 | the failing case: the full-length shard of the zero prefix passes for an ancestor of the zero shard and does not cover its words |
| `Shards.AncestorTransitive` | tlb/shard.go:329-333 | the relation is transitive on all words |
| `Shards.ChildIs` | tlb/shard.go:316-322 | the two's-complement arithmetic moves the marker down and records the half |
| `Shards.ParentIs` | tlb/shard.go:311-314 | and back up; the parent of the whole shard is zero |
| `Shards.ParentOfChild` | tlb/shard.go:302-322 | parent of child is the identity, and the two children are siblings |
| `Shards.ParentsChild` | tlb/shard.go:311-322 | a shard is the child of its parent on the side its bit says |
| `Shards.ChildrenHalve` | tlb/shard.go:316-322 | the children split what their parent covers |
| `Shards.SiblingIff` | tlb/shard.go:302-304 | the sibling differs in the lowest prefix bit, and no other word is one |
| `Shards.NoChild` | tlb/shard.go:316-322 | a shard of full length is its own child |
| `Pruning.MarkDominated` | tlb/processed_upto.go:270-279 | the nested marking loops mark exactly the elements another unmarked one dominates |
| `Pruning.SurvivorsPrune` | tlb/processed_upto.go:270-289 | the unmarked dominate everything and none dominates another |
| `Pruning.KeepUnmarked` | tlb/processed_upto.go:283-289 | the survivors move to the front of the same array in order |
| `ProcessedUpto.AlreadyProcessed` | tlb/processed_upto.go:165-222 | with a resolver, yes exactly when the message is routed here and some record's shard holds its next prefix, its (lt, hash) is not behind, and the message came from inside that shard or was enqueued before the end lt; without one, an answer is refused only when such a record would have to ask |
| `ProcessedUpto.CoversIff` | tlb/processed_upto.go:165-196 | the same for one record |
| `ProcessedUpto.ContainsCovers` | tlb/processed_upto.go:165-196 | a record that contains another one of a real shard covers what it covers, for every monotone resolver |
| `ProcessedUpto.ContainsIsCoverage` | tlb/processed_upto.go:165-196 | on real shards a record contains another if and only if it reaches every message the other reaches, for all messages and all monotone resolvers |
| `ProcessedUpto.ContainsCoversIff` | tlb/processed_upto.go:165-196 | containment means covering as much if and only if the contained record is of a real shard or the other covers every word |
| `ProcessedUpto.ZeroRecordLosesMessages` | tlb/processed_upto.go:254-290 | two records, one of the zero shard, whose pruning changes an answer |
| `ProcessedUpto.PruningKeepsAnswers` | tlb/processed_upto.go:165-222 | pruning records of real shards changes no answer, for every message and owner |
| `ProcessedUpto.CompactifyProcessedUpto` | tlb/processed_upto.go:254-290 | for all records, sorting by shard and masterchain number, marking and moving in place leave an ordered antichain that contains every dropped record |
| `ProcessedUpto.InsertProcessedUpto` | tlb/processed_upto.go:227-249 | refused for time zero, dropped exactly when some record contains it, else appended |
| `ProcessedUpto.DroppedInsertKeepsAnswers` | tlb/processed_upto.go:227-249 | dropping answers as if the record had been added |
| `Sorting.Sort` | tlb/processed_upto.go:255-258 | ordered, and the same elements |
| `BinTree.Get` | tlb/tree.go:95-161 | the lookup loop computes the recursive lookup |
| `BinTree.TreeForms` | tlb/tree.go:31-161 | lookups and walks in the cells' own bits: a zero bit and the value, a one bit and two references left first, pruned branches as they are, anything else refused |
| `BinTree.LookupIffVisited` | tlb/tree.go:31-161 | a lookup finds exactly the pairs a walk visits |
| `BinTree.WalkPrefixFree` | tlb/tree.go:31-83 | each path is visited once and none runs through another |
| `BinTree.ShardFromBinTreeKey` | ton/block.go:876-900 | the loop gives the shard of a path of up to 63 bits and refuses longer ones |
| `BinTree.ShardBits` | ton/block.go:876-900 | the shard word has the path's bits from the top down, then the marker, then zeros |
| `BinTree.LeavesPartition` | tlb/tree.go:31-83 | below any node, the leaf shards cover each word of the node's shard once and no other |
| `BinTree.ShardsPartitionAllPrefixes` | ton/block.go:876-900 | the shards of the leaves partition all 64-bit prefixes |
| `VmRoundTrip.RtValue` | tlb/stack.go:377-546 | every stack value that can be stored is read back in front of anything |
| `VmRoundTrip.RtTuple` | tlb/stack.go:330-370 | tuples of every length, through the nested pairs |
| `VmRoundTrip.RtSlice` | tlb/stack.go:548-634 | slice values with their bounds |
| `VmRoundTrip.ContTagReads` | tlb/continuation.go:305-358 | the continuation tags are a prefix code: looking ahead finds the tag that was written |
| `VmRoundTrip.RtCont` | tlb/continuation.go:27-145 | every continuation that can be stored is read back |
| `VmRoundTrip.RtControl` | tlb/continuation.go:208-259 | control data with its stack, registers and code page |
| `VmRoundTrip.RtRegisters` | tlb/continuation.go:261-303 | the saved registers |
| `VmRoundTrip.RtStack` | tlb/stack.go:93-188 | stacks of up to 1024 values, in order |
| `VmWire.ValueForm` | tlb/stack.go:190-328 | every stored value is the tag of its kind and the items of its body in order |
| `VmWire.ContTags` | tlb/continuation.go:27-145 | the number and width of each continuation tag |
| `VmWire.ContForm` | tlb/continuation.go:27-145 | every stored continuation is its tag, its numbers, and its references with the condition before the body and the body before what follows |
| `VmWire.ControlFormed` | tlb/continuation.go:208-259 | arguments, stack, registers and codepage in that order, each behind a presence bit |
| `VmWire.RegisterForm` | tlb/continuation.go:261-303 | continuations under 0 to 3, cells under 4 and 5, a tuple under 7, and nothing for a register that is not set |
| `VmWire.StackIs` | tlb/stack.go:93-132 | the depth in 24 bits, then the last value behind a reference to the cell of the others |
| `VmWire.ValuesRefused` | tlb/stack.go:134-188 | more than 1024 values, and values in special cells or in cells with something left, are refused |
| `VmWire.ControlRefused` | tlb/continuation.go:501-613 | an explicit codepage of -1, registers of the wrong kind, and continuation cells that are special or have something left are refused |
| `VmLoops.StackRoundTrip` | tlb/stack.go:93-188 | a stored stack loads back as the same tree of values |
| `VmLoops.Stack.ToCell` | tlb/stack.go:93-132 | the walk along the links and the loop over it store the depth and the list of values |
| `VmLoops.Stack.LoadFromCell` | tlb/stack.go:134-188 | the stack becomes what the cell holds, or stays empty |
| `VmLoops.Stack.Push` | tlb/stack.go:71-76 | along the links of the list the new value comes first and all values held before follow in order |
| `VmLoops.Stack.Pop` | tlb/stack.go:78-87 | undoes a push: the value comes back and the links hold what was below it; only the empty stack has nothing |
| `VmLoops.Stack.Depth` | tlb/stack.go:61-69 | the walk along the links counts the values |
| `VmLoops.SerializeTuple` | tlb/stack.go:330-370 | the head and tail swapping loop computes the nested encoding, for every length |
| `VmLoops.ParseTupleMembers` | tlb/stack.go:465-542 | the loop reads the members back from the nested pairs |
| `VmLoops.Stack.ParseList` | tlb/stack.go:148-184 | the list of stack cells is read from the outermost in, each value pushed |
| `VarUints.TakePut` | tlb/grams128.go:34-86 | a variable-length number reads back in front of anything |
| `VarUints.PutIs` | tlb/grams128.go:69-87 | the byte count, then that many bytes, the highest not zero |
| `VarUints.PutTake` | tlb/grams128.go:57-62 | only the canonical encoding is accepted |
| `Grams.LoadGramsIs` | tlb/grams128.go:34-64 | reading into two words is reading the canonical number |
| `Grams.StoreGramsIs` | tlb/grams128.go:69-87 | writing from two words is writing it, up to fifteen bytes |
| `Currency.DictsAdd` | tlb/currency_math.go:169-197 | merging canonical dictionaries gives the dictionary of the sums and fails exactly when one does not fit |
| `Currency.EncodedIs` | tlb/block_augs.go:178-218 | grams, one bit for other currencies, and a reference to the amounts by id if there are any |
| `Currency.SlicesAdd` | tlb/block_augs.go:178-218 | adding two stored collections stores their sum and fails exactly when it cannot be stored |
| `Currency.ExtrasCombine` | tlb/block_augs.go:716-740 | a fork stores the larger split depth and the sum |
| `Currency.BadExtrasRefused` | tlb/block_augs.go:716-740 | a split depth above thirty and a stored amount of zero are refused |
| `Currency.FoldIsTotal` | tlb/block_augs.go:716-740 | folding a tree of canonical leaves stores the component-wise total and the largest depth, and fails exactly when the total cannot be stored |
| `Currency.FitsMeans` | tlb/grams128.go:69-87 | what can be stored: grams below 2^120 and every other amount below 2^248 |
| `Currency.SameLeavesSameFold` | tlb/block_augs.go:716-740 | the shape of the tree does not matter |
| `CurrencyMath.SubDicts` | tlb/currency_math.go:201-273 | the loop succeeds exactly when every id is covered, keeps untouched bits, and drops what comes to zero |
| `CurrencyMath.Sub` | tlb/currency_math.go:33-52 | subtraction succeeds exactly when grams and every id are covered |
| `CurrencyMath.GreaterOrEqual` | tlb/currency_math.go:72-81 | true exactly when subtraction succeeds |
| `CurrencyMath.CoversIff` | tlb/currency_math.go:72-81 | that is the comparison of every amount |
| `CurrencyMath.AddThenSub` | tlb/currency_math.go:17-52 | adding and subtracting again gives the first collection bit for bit |
| `ArrayChunks.BuildArrayChunks` | tlb/array.go:248-301 | packing from the back cuts the list into cells of at most 1023 bits and 4 references, and succeeds if and only if some cut leaves a last part that fits a cell and elements before it that fit beside a next reference |
| `ArrayChunks.FindStart` | tlb/array.go:253-274 | how far back one cell reaches, that one element more is too much, and when not even one fits |
| `ArrayChunks.BuildChunk` | tlb/array.go:276-296 | flag, elements and the next reference first or last |
| `ArrayChunks.WithNextIs` | tlb/array.go:276-296 | the first bit says whether there is a next cell, whose reference is the first or the last |
| `ArrayChunks.ChainLoads` | tlb/array.go:19-134 | a chain over any cut of the list reads back as the list, for both places of the next reference |
| `ArrayChunks.StoreArray` | tlb/array.go:136-182 | a list is stored if and only if it has at most 255 elements and can be packed: an 8-bit count, a bit, and the first cell; what is stored loads back as the list |
| `ArrayChunks.LoadArray` | tlb/array.go:19-134 | the nested loops compute the specification of loading |
| `ArrayChunks.LoadCells` | tlb/array.go:60-131 | cell by cell, with every trailing, missing and extra cell refused |
| `ArrayChunks.LoadRefuses` | tlb/array.go:60-131 | anything left in a cell, a cell too many and a cell too few are refused |
| `U128s.U128.Add` | internal/fee/u128.go:36-40 | exact, and reports whether the sum fits 128 bits |
| `U128s.U128.Mul64` | internal/fee/u128.go:43-48 | exact, and reports whether the product fits 128 bits |
| `U128s.U128.CeilShr` | internal/fee/u128.go:60-64 | division by a power of two rounded up, exact for every input, carry included |
| `U128s.Product` | internal/fee/u128.go:24-27 | the exact product of two words |
| `StorageFee.RawFixed` | tlb/config_prices.go:34-50 | one window's raw fee in the chain's own prices, exact when it fits |
| `StorageFee.ComputeFee` | tlb/config_prices.go:20-40 | one entry's fee is (bits * bit price + cells * cell price) * seconds in the chain's own prices, rounded up to 2^16, whether or not it fits 128 bits |
| `StorageFee.AddWindow` | tlb/blockchain_config.go:172-187 | the running fee stays exact while it switches from fixed width to wide |
| `StorageFee.FindEntry` | tlb/blockchain_config.go:148-154 | the search finds the entry in force |
| `StorageFee.ComputeStorageFee` | tlb/blockchain_config.go:135-195 | the charge is the sum, over every second owed, of the entry in force, rounded up once to 2^16 |
| `StorageFee.ChargeInOneWindow` | tlb/blockchain_config.go:135-195 | under one entry the charge is that product over the seconds owed, with basechain prices for basechain accounts and masterchain prices for masterchain ones |
| `StorageFee.OtherChainDoesNotMatter` | tlb/config_prices.go:34-39 | for every list of entries, the prices of one chain do not change the charge of the other |
| `StorageFee.NothingCharged` | tlb/blockchain_config.go:135-147 | nothing before the first entry, for an empty period, and for an account that never paid |
| `StorageFee.ComputeStorageFeeOf` | tlb/blockchain_config.go:197-232 | the entries are sorted before the charge is computed |
| `StorageFee.InstalmentsCostAtMostOneMore` | tlb/blockchain_config.go:135-195 | paying in two instalments costs the same or exactly one unit more |
| `ProofChain.VerifyProofChain` | ton/proof.go:705-838 | success means an unbroken path of checked links from the first block to the target; the number of requests is bounded by the distance and the nodes left; an honest server is accepted |
| `ProofChain.FollowSteps` | ton/proof.go:750-817 | one answer is followed exactly when each of its steps is a checked link out of the block before |
| `ProofChain.LinkedIff` | ton/proof.go:705-838 | a link joins two masterchain blocks, down in number with a backward proof that holds, or up with a forward one where that is asked for |
| `ProofChain.StepHoldsIff` | ton/proof.go:750-817 | a step is followed only from the block it names and in a direction that is asked for |
| `ProofChain.PathCarries` | ton/proof.go:705-838 | what holds of the first block and passes along checked links holds of the target |
| `Quorum.CheckBlockSignatures` | ton/proof.go:615-670 | the sorting, the map and the wrapping sums compute acceptance; while the total fits 64 bits an accepted list has, for each signature, the last validator of its key id and a key that verifies it, and no signer twice |
| `Quorum.CountSignatures` | ton/proof.go:645-663 | the signature loop with its early stop computes the tally that acceptance is about |
| `Quorum.AcceptsIff` | ton/proof.go:615-670 | below a third of 2^64, acceptance means that every signature is verified by the last validator of its key id, no signer comes twice, and the signers have more than two thirds of the weight |
| `Quorum.SignedIff` | ton/proof.go:615-670 | with one validator for each key id, a valid signature is one that some validator of that id verifies |
| `Quorum.AcceptedAreSigned` | ton/proof.go:615-670 | while the total fits 64 bits no signature of an accepted list goes unchecked |
| `Quorum.UncheckedAtTheLimit` | ton/proof.go:615-670 | at a total of exactly 2^64 the early stop accepts a list with a signature nobody made |
| `Quorum.AcceptedIsTwoThirds` | ton/proof.go:615-670 | below a half of 2^64, an accepted list still has distinct known signers of more than two thirds of the weight |
| `Quorum.QuorumsIntersect` | ton/proof.go:615-670 | below a half of 2^64, two accepted signature lists share signers of more than a third of the weight |
| `Quorum.HalfBoundIsSharp` | ton/proof.go:615-670 | at exactly a half, two validators of weight 2^62: either one alone is accepted, and the two lists share nobody |
| `Quorum.ThirdBoundIsSharp` | ton/proof.go:615-670 | at the least total above a third a fully signed list is refused |

## Left out

- Vector allocation limit: parsing takes the largest number of vector elements as an argument (`Limits`), instead of deriving it from element sizes in memory.
- TL members with codecs of their own (cells in bag-of-cells form, raw members, hand-written serializers) and the compilation of Go struct tags into a schema.
- Buffer reservations of the TL writers (`growSerializeVector`, `growAppendVector`), which change capacity and not contents.
- TlExecuteParse.ExecuteParse: nesting is bounded by an argument; `TlExecuteParse.FuelStruct` shows that a larger bound never changes an answer, and the codec theorem holds for every bound above the height of the value.
- Cyclic continuation graphs: values are trees, so the encoder's set of active continuations never fires.
- Conversions between VM and TL-B stack values, which are taken as the identity, and the depth limit of cells below a stored value, which is a condition of the theorems.
- Dictionaries (saved registers, currency ids) are their entries; how a dictionary is cut into cells is not modelled.
- The future-date rule of inbound packets: the latest date accepted is an argument of the step.
- Locking, atomics and the recheck of a stale state: each critical section is one step, and runs interleave them in any order.
- The epoch rule between a start over and the handshake messages that follow it: `Channels` delivers every message a peer ever sent, whatever its age.
- MessageReinit and other messages of a packet beyond the two handshake messages; gateways, queries and timers.
- Cryptography: key agreement, signatures, hashes and ciphers are given functions.
- Root packets of a handshake in `PacketMtu`: the size bound is stated for plain channel packets only.
- TlBuffer.Buffer.RemapAsTlBytes: a payload of 2^32 bytes or more, which makes the source panic, is an answer of false that leaves the buffer alone.
- Multipart message lengths are unbounded integers; the source's 32-bit offsets are below its message size limit.
- The contents of a block link (`ProofChain`): checks of the proof cells are given predicates; only chain, numbers and workchain are modelled.
- Gas and forwarding fees, address formats, JSON, the remaining configuration getters, and flat record codecs, which would only add easy members.
