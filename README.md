# KasmVNC core components, modelled in Dafny

KasmVNC is a VNC server with a web client. Its C and C++ sources hold many
small byte- and integer-level components: the WebUDP data-channel library
(SCTP over DTLS, STUN, SDP), the WebSocket framing of the web client, the
RFB message reader, the fragmented-MP4 box writer used for video, the QOI and
Tight encoders' length codes, the password file format, and the server's
decision rules (blacklist, quality tracking, watermark placement, region
parsing), and the X server extension's parsing of the AllowOverride and DLP
clipboard type lists. This project models those components, one Dafny module per source
file, and proves what each promises: round trips between writers and
readers, the invariants of the in-place data structures, and the exact
results of the decision rules.

Shared modules: `Bytes` (fixed-width unsigned integers and their big- and
little-endian encodings, with round-trip lemmas) and `Wrappers` (`Option`,
`Result`).

## Model

| member | source | states |
|---|---|---|
| WuMath.Min | common/network/webudp/WuMath.h:3-8 | the result is at most both arguments and is one of them; on a tie it is the second |
| WuMath.Max | common/network/webudp/WuMath.h:10-15 | the result is at least both arguments and is one of them; on a tie it is the second |
| WuMath.MinMaxPair | common/network/webudp/WuMath.h:3-15 | Min and Max of a pair sum to the pair's sum and are ordered |
| WuBufferOp.ByteSwap | common/network/webudp/WuBufferOp.h:6-20 | swapping a 1/2/4/8-byte value stores the value's network-order bytes in host order; width 1 is the identity |
| WuBufferOp.ByteSwapInvolutive | common/network/webudp/WuBufferOp.h:6-20 | swapping twice gives the value back |
| WuBufferOp.ByteSwapReverses | common/network/webudp/WuBufferOp.h:6-20 | the host bytes of the swapped value are the host bytes of the value reversed |
| WuBufferOp.WriteScalar | common/network/webudp/WuBufferOp.h:22-26 | the w host-order bytes of v replace dest[at..at+w], nothing else changes, w is returned |
| WuBufferOp.ReadScalar | common/network/webudp/WuBufferOp.h:28-32 | the value read is the one whose host-order bytes are src[at..at+w]; w is returned |
| WuBufferOp.WriteScalarSwapped | common/network/webudp/WuBufferOp.h:34-38 | the network-order bytes of v replace dest[at..at+w], nothing else changes |
| WuBufferOp.ReadScalarSwapped | common/network/webudp/WuBufferOp.h:40-44 | the value read is the one whose network-order bytes are src[at..at+w] |
| WuBufferOp.WriteThenRead | common/network/webudp/WuBufferOp.h:22-44 | a load of the bytes a store wrote returns the stored value, in either byte order |
| WuBufferOp.PadSizeBounds | common/network/webudp/WuBufferOp.h:46-48 | for a power-of-two alignment the padding is below the alignment, reaches a multiple of it, and is zero on an aligned size |
| WuBufferOp.PadSize4 | common/network/webudp/WuBufferOp.h:46-48 | at alignment 4 the bit-mask formula equals (4 - n mod 4) mod 4 |
| WuString.FindTokenIndex | common/network/webudp/WuString.cpp:6-12 | the index of the first occurrence of the token among the first len elements, -1 exactly when it does not occur |
| WuString.MemEqual | common/network/webudp/WuString.cpp:14-19 | false on different lengths, otherwise true exactly when the contents are equal |
| WuString.MemEqualReflexiveSymmetric | common/network/webudp/WuString.cpp:14-19 | MemEqual is reflexive and symmetric |
| WuArena.Arena.Init | common/network/webudp/WuArena.cpp:5-9 | an arena of the given capacity with nothing handed out |
| WuArena.Arena.Acquire | common/network/webudp/WuArena.cpp:11-22 | a request that fits returns the current length as the block and advances the length by the block size; otherwise nothing is returned and nothing changes; the blocks handed out tile the used prefix |
| WuArena.TilesDisjoint | common/network/webudp/WuArena.cpp:11-22 | two blocks handed out since the last reset never overlap |
| WuArena.Arena.Reset | common/network/webudp/WuArena.cpp:24 | the length returns to zero and no block is outstanding |
| WuPool.Pool.Create | common/network/webudp/WuPool.cpp:18-33 | every slot is free and the free stack holds numBlocks-1 down to 0, so slot 0 is handed out first |
| WuPool.Pool.Acquire | common/network/webudp/WuPool.cpp:41-54 | an empty free stack gives nothing; otherwise the top free slot is popped, stamped with its index, and was not outstanding |
| WuPool.Pool.Release | common/network/webudp/WuPool.cpp:56-60 | the released slot's index is pushed on the free stack and it is no longer outstanding |
| WuQueue.Queue.Full | common/network/webudp/WuQueue.cpp:5-11 | 1 exactly when the queue holds capacity items, else 0 |
| WuQueue.Queue.Init | common/network/webudp/WuQueue.cpp:19-24 | an empty queue of the given capacity |
| WuQueue.Queue.Grow | common/network/webudp/WuQueue.cpp:27-41 | a full queue moves into an array of capacity*1.5 (truncated) from index 0, keeping its items in order |
| WuQueue.Queue.Push | common/network/webudp/WuQueue.cpp:26-47 | the item is appended after the existing items, growing a full queue first |
| WuQueue.Queue.Pop | common/network/webudp/WuQueue.cpp:49-58 | an empty queue yields nothing and is unchanged; otherwise the oldest item is returned and removed |
| WuQueue.GrownCapacity | common/network/webudp/WuQueue.cpp:28 | the new capacity is capacity*1.5 truncated, and larger than the old one from capacity 2 on |
| WuRng.Rotl55 | common/network/webudp/WuRng.cpp:7-9 | rotl by 55 is a rotation, undone by a rotation by 9 |
| WuRng.Rotl36 | common/network/webudp/WuRng.cpp:7-9 | rotl by 36 is a rotation, undone by a rotation by 28 |
| WuRng.Rng.Init | common/network/webudp/WuRng.cpp:19-22 | both state words are the seed |
| WuRng.Rng.Next | common/network/webudp/WuRng.cpp:24-34 | returns the sum of the state words modulo 2^64 and advances the state by one xoroshiro128+ step |
| WuRng.RandomString | common/network/webudp/WuRng.cpp:36-43 | character i is table[output_i mod 52] for the i-th output of a generator seeded with the seed; only the first length characters change |
| WuRng.RandomU64 | common/network/webudp/WuRng.cpp:45-49 | the first output of a freshly seeded generator, twice the seed modulo 2^64 |
| WuRng.RandomU32 | common/network/webudp/WuRng.cpp:51 | the low 32 bits of RandomU64 |
| WuSctp.SctpDataChunkLength | common/network/webudp/WuSctp.cpp:165-167 | a DATA chunk is 16 bytes longer than its payload |
| WuSctp.SctpChunkLength | common/network/webudp/WuSctp.cpp:169 | a chunk is 4 bytes longer than its content |
| WuBufferOp.Pad4IsPadSize | common/network/webudp/WuBufferOp.h:46-48 | the padding the SCTP and STUN codecs use, (4 - n mod 4) mod 4, is PadSize at alignment 4 |
| WuSctp.ChunkAt | common/network/webudp/WuSctp.cpp:27-70 | the chunk header fields are the bytes at the offset; the body variant is DATA, SACK, HEARTBEAT or INIT exactly for those types; a DATA payload is length-16 bytes, clamped at 0 |
| WuSctp.NextChunk | common/network/webudp/WuSctp.cpp:72-74 | the next chunk starts at the current one for length 0, right after the header for lengths 1 to 4, and otherwise past the chunk padded to a multiple of four |
| WuSctp.ChunksByBound | common/network/webudp/WuSctp.cpp:24 | at most maxChunks chunks are read, and at least one when four bytes remain |
| WuSctp.ReadChunks | common/network/webudp/WuSctp.cpp:21-76 | the loop reads exactly the chunk sequence the chunk reader defines, from offset 12, at most maxChunks of them |
| WuSctp.ParseSctpPacket | common/network/webudp/WuSctp.cpp:10-79 | fails exactly on a datagram under 16 bytes; otherwise returns the common header and the chunks, and the caller's counter grows by the number of chunks |
| WuSctp.Write | common/network/webudp/WuSctp.cpp:93-153 | the written cells replace the destination bytes at the offset; skipped cells keep what was there |
| WuSctp.WriteCells | common/network/webudp/WuSctp.cpp:83-157 | after the loop the destination holds the header cells followed by each chunk's cells, and the offset is their total length |
| WuSctp.PatchChecksum | common/network/webudp/WuSctp.cpp:159-160 | writing the checksum at offset 8 of an image with a zero checksum gives the image with that checksum |
| WuSctp.SerializeSctpPacket | common/network/webudp/WuSctp.cpp:81-163 | returns the length of the image; the destination holds the image whose checksum field is the CRC of the image written with a zero checksum |
| WuSctp.DataPacketRoundTrip | common/network/webudp/WuSctp.cpp:10-163 | parsing a one-chunk DATA packet serialised into a zeroed buffer gives back the ports, the tag, the checksum and the chunk with its payload |
| WuSctp.HeartbeatInfoLength | common/network/webudp/WuSctp.cpp:52-59 | the info length is the parameter length minus 4, clamped at 0 |
| WuSctp.HeartbeatInfoLengthAsWritten | common/network/webudp/WuSctp.cpp:58 | the unclamped length is negative exactly when the parameter length is below 4 |
| WuSctp.HeartbeatUnderflow | common/network/webudp/WuSctp.cpp:58 | a HEARTBEAT whose info parameter claims length 0 yields -4 as written (2^64-4 as a memcpy size), an empty info when clamped |
| Wu.Rank | common/network/webudp/Wu.cpp:70-76 | the client states' enum values, 0 to 4, in lifecycle order |
| Wu.Client.Start | common/network/webudp/Wu.cpp:126-148 | a new client waits for its DTLS handshake with tsn 1, remote TSN 0, no tag, a 9-second time-to-live and a 4-second heartbeat timer |
| Wu.DataStep | common/network/webudp/Wu.cpp:267-339 | a DATA chunk records the highest TSN seen and resets the time-to-live; a DATA_CHANNEL_OPEN opens the channel, adopts the peer's port, spends one TSN on its ACK and raises a join only on the first opening; text and binary payloads become events; every DATA chunk is answered last by a SACK for the highest TSN |
| Wu.InitStep | common/network/webudp/Wu.cpp:340-360 | an INIT adopts the peer's tag, expects the peer's initial TSN next, and is answered by one INIT ACK carrying the new tag, the client's TSN and the mirrored stream counts; the loop stops |
| Wu.ChunkStep | common/network/webudp/Wu.cpp:265-414 | exactly INIT and ABORT stop the loop; ABORT only moves the client to WaitingRemoval; otherwise the state never moves down and COOKIE ECHO establishes the association; only INIT changes the tag or lowers the expected TSN; DATA, HEARTBEAT, HEARTBEAT ACK and SACK reset the time-to-live; only DATA raises events; every reply goes to the sender with the association's tag |
| Wu.ClientLimit | common/network/webudp/Wu.cpp:554-568 | the client limit is positive: the request when positive, 256 otherwise |
| Wu.SwapRemove | common/network/webudp/Wu.cpp:185-196 | the table loses one slot, the last client moves into the removed slot, and every other slot is unchanged |
| Wu.SwapRemoveContents | common/network/webudp/Wu.cpp:185-196 | the table after removal holds exactly the clients before it less the removed one |
| Wu.SwapRemoveDistinct | common/network/webudp/Wu.cpp:185-196 | a table without repeats stays without repeats and holds every client but the removed one |
| Wu.AddressIndex | common/network/webudp/Wu.cpp:198-208 | the first slot whose client has the address, and -1 exactly when no client has it |
| Wu.ClientIndex | common/network/webudp/Wu.cpp:185-196 | the first slot holding the client, and -1 exactly when it is not in the table |
| Wu.Rearmed | common/network/webudp/Wu.cpp:619-624 | a heartbeat timer stays positive: dt less, or 4 seconds once it runs out |
| Wu.LeavesExactly | common/network/webudp/Wu.cpp:489-505 | a client gets a leave event exactly when it is in the table and its time-to-live has run out or it is waiting for removal |
| Wu.Server.Init | common/network/webudp/Wu.cpp:554-592 | a server on the port with the client limit and empty client, event and output tables |
| Wu.Server.Create | common/network/webudp/Wu.cpp:554-592 | WU_OK exactly when the DTLS context is set up, with a new valid empty server; otherwise WU_ERROR and no server |
| Wu.Server.SendSctp | common/network/webudp/Wu.cpp:234-252 | the packet is recorded exactly when the client is at least in the handshake state and its handshake has finished |
| Wu.Server.PushEvent | common/network/webudp/Wu.cpp:166-168 | the event is queued after the pending ones |
| Wu.Server.HandleChunk | common/network/webudp/Wu.cpp:265-414 | the client's fields, the queued events and the packets sent are those one chunk step defines |
| Wu.Server.HandleData | common/network/webudp/Wu.cpp:267-339 | the DATA branch does what DataStep defines |
| Wu.Server.HandleOpen | common/network/webudp/Wu.cpp:278-308 | the DATA_CHANNEL_OPEN branch does what OpenStep defines |
| Wu.Server.HandleInit | common/network/webudp/Wu.cpp:340-360 | the INIT branch does what InitStep defines |
| Wu.Server.HandleSctp | common/network/webudp/Wu.cpp:254-416 | a datagram under 16 bytes changes nothing; otherwise the client ends as RunChunks over the parsed chunks defines, with its events queued and its permitted replies sent in order |
| Wu.Server.HandleChunkList | common/network/webudp/Wu.cpp:265-415 | the loop applies the chunk steps in order and leaves at the first INIT or ABORT |
| Wu.Server.HandleNext | common/network/webudp/Wu.cpp:265-415 | one pass of the loop extends the run by one chunk |
| Wu.RunNext | common/network/webudp/Wu.cpp:265-415 | one more chunk, before the loop stops, applies one step to the state reached |
| Wu.RunStopped | common/network/webudp/Wu.cpp:265-415 | after the loop stops, further chunks change nothing |
| Wu.StoppedIff | common/network/webudp/Wu.cpp:340-396 | the loop stops on a packet exactly when one of its chunks is an INIT or an ABORT |
| Wu.RunEndsAtFirstStop | common/network/webudp/Wu.cpp:340-396 | a packet has the effect of its chunks up to and including the first INIT or ABORT |
| Wu.RunRank | common/network/webudp/Wu.cpp:299-305 | over a packet the state never moves down, except to WaitingRemoval by an ABORT that ends the packet |
| Wu.RunJoinsOnce | common/network/webudp/Wu.cpp:299-305 | a packet queues at most one ClientJoin, and none for a client whose channel is already open |
| Wu.RunJoinsOpen | common/network/webudp/Wu.cpp:299-305 | once a join is queued, or the channel was open, it stays open while the loop goes on |
| Wu.JoinsConcat | common/network/webudp/Wu.cpp:299-305 | the joins in two event sequences add up |
| Wu.RunCoversTsns | common/network/webudp/Wu.cpp:267-273 | a packet without INIT or ABORT leaves the expected TSN no lower than before and at least every DATA chunk's TSN |
| Wu.RunAnswersSender | common/network/webudp/Wu.cpp:254-416 | every reply a packet triggers goes back to its sender with the ports swapped |
| Wu.TaggedConcat | common/network/webudp/Wu.cpp:245-252 | recording two reply sequences one after the other records their concatenation |
| Wu.Server.NewClient | common/network/webudp/Wu.cpp:153-164 | no client exactly when the table is full, and then nothing changes; otherwise a new started client is appended |
| Wu.Server.RemoveClient | common/network/webudp/Wu.cpp:170-196 | an unknown client changes nothing; otherwise a SHUTDOWN acknowledging the last TSN goes out if permitted, the client becomes Dead and leaves the table by swap-remove, and the table keeps every other client without repeats |
| Wu.Server.FindClient | common/network/webudp/Wu.cpp:198-208 | the first client whose host and port both match, or none |
| Wu.Server.Tick | common/network/webudp/Wu.cpp:594-627 | one client's time-to-live and timer run down by dt; a timer that runs out restarts at 4 seconds and a HEARTBEAT goes out |
| Wu.Server.UpdateClients | common/network/webudp/Wu.cpp:594-627 | every client's time-to-live and heartbeat timer run down by dt, and the heartbeats due go out in table order |
| Wu.Server.PurgeDeadClients | common/network/webudp/Wu.cpp:489-505 | a ClientLeave for every expired client, in table order; no client is removed |
| Wu.Server.Update | common/network/webudp/Wu.cpp:629-640 | a pending event is handed out oldest first with 1 and nothing else changes; otherwise the clients are updated, the leave events queued, and 0 returned |
| Wu.Server.SendData | common/network/webudp/Wu.cpp:642-668 | -1 and nothing changes until the channel is open; otherwise 0, one TSN is spent and one DATA chunk numbered with it goes out |
| Wu.Server.SendText | common/network/webudp/Wu.cpp:670-672 | SendData with the string protocol id |
| Wu.Server.SendBinary | common/network/webudp/Wu.cpp:674-677 | SendData with the binary protocol id |
| WuStun.UserVerdictSplits | common/network/webudp/WuStun.cpp:56-74 | a USERNAME value is accepted exactly when its first colon is at index 4 or later and both halves are at most 128 bytes; the accepted halves rejoin with the colon into the value, and the server half holds no colon |
| WuStun.SplitUser | common/network/webudp/WuStun.cpp:56-74 | the split succeeds exactly when UserVerdict accepts, and returns its two halves |
| WuStun.ReadAttributeHeader | common/network/webudp/WuStun.cpp:44-45 | the attribute type and length are the network-order words at the attribute's offset after the header |
| WuStun.WalkStep | common/network/webudp/WuStun.cpp:40-81 | one step of the walk at a header that fits: another attribute moves on by 4 plus its padded length; a USERNAME that fits with its padding and has at least 9 bytes ends the walk at its value; any other USERNAME makes the list malformed |
| WuStun.WalkShort | common/network/webudp/WuStun.cpp:82-84 | fewer than four bytes left before the end of the walk make the list malformed |
| WuStun.UserStep | common/network/webudp/WuStun.cpp:51-78 | at a USERNAME header whose value fits with its padding, the walk ends at that value when it has at least 9 bytes and is malformed otherwise |
| WuStun.UserFirst | common/network/webudp/WuStun.cpp:51-79 | at a USERNAME header followed by its value, the verdict is UserVerdict on the value when it has at least 9 bytes, and a refusal otherwise |
| WuStun.WalkAttributes | common/network/webudp/WuStun.cpp:36-87 | the attribute loop returns the verdict of the walk over the bytes after the header |
| WuStun.ParseStun | common/network/webudp/WuStun.cpp:10-88 | accepts exactly the datagrams of at least 20 bytes that start 0x00 0x01, carry a message length from 4 to the bytes present, and whose walk is not refused; an accepted packet holds the type, length, cookie and transaction id read, the user names split from its USERNAME, or the caller's user names when it has none |
| WuStun.ParseStunWithUser | common/network/webudp/WuStun.cpp:10-88 | the corrected parser: accepts exactly when the header checks pass and a USERNAME is split, and then holds those user names and the transaction id |
| WuStun.AttributeFields | common/network/webudp/WuStun.cpp:44-55 | an encoded attribute reads back at its offset as its type, its value length, and its value |
| WuStun.ScanAttributes | common/network/webudp/WuStun.cpp:38-85 | over an encoded attribute list the walk reaches the verdict of the reference reading FirstUser: the first USERNAME decides, other attributes are skipped |
| WuStun.ScanFirstUser | common/network/webudp/WuStun.cpp:51-79 | an encoded list starting with a USERNAME gets that USERNAME's verdict |
| WuStun.ScanFirstOther | common/network/webudp/WuStun.cpp:48-81 | an encoded list starting with another attribute is walked from the next attribute on, and so is its reference reading |
| WuStun.BindingRequestScan | common/network/webudp/WuStun.cpp:10-88 | a Binding request whose message length covers its encoded attributes passes the header checks, reads back its cookie and transaction id, and walks to FirstUser of its attributes |
| WuStun.UserNameRoundTrip | common/network/webudp/WuStun.cpp:51-79 | a Binding request carrying the USERNAME server:remote, with the server part 4 to 128 colon-free bytes and the remote part at most 128, is accepted and splits back into server and remote |
| WuStun.NoUserAccepted | common/network/webudp/WuStun.cpp:82-87 | a Binding request with only a SOFTWARE attribute is accepted with no USERNAME |
| WuStun.Put16 | common/network/webudp/WuStun.cpp:98 | a 16-bit network-order store changes exactly its two bytes |
| WuStun.WriteHeaderStart | common/network/webudp/WuStun.cpp:93-99 | the first stores leave the success type, the message length and the cookie in bytes 0 to 7 and nothing else changed |
| WuStun.CopyBytes | common/network/webudp/WuStun.cpp:101-103 | the copy loop leaves the bytes at the offset and nothing else changed |
| WuStun.WriteAttributeHead | common/network/webudp/WuStun.cpp:108-109 | an attribute header store leaves its type and length at the offset and nothing else changed |
| WuStun.WriteMappedValue | common/network/webudp/WuStun.cpp:110-113 | the XOR-MAPPED-ADDRESS value stores leave the reserved zero, the family, the port and the address at the offset |
| WuStun.WriteResponseHead | common/network/webudp/WuStun.cpp:93-113 | the header and XOR-MAPPED-ADDRESS stores leave the 32-byte response head at the start and nothing else changed |
| WuStun.WriteIntegrity | common/network/webudp/WuStun.cpp:117-124 | the MESSAGE-INTEGRITY stores leave its header and the digest at the offset |
| WuStun.SignedImage | common/network/webudp/WuStun.cpp:115-126 | with the digest taken over the 32-byte head and the length then rewritten to 44, the first 56 bytes are the signed part of the response |
| WuStun.ResponseImage | common/network/webudp/WuStun.cpp:127-131 | with the FINGERPRINT stored after the signed part, the first 64 bytes are the response and the rest stays zero |
| WuStun.SerializeStunPacket | common/network/webudp/WuStun.cpp:90-134 | returns 64, leaves the success response in the first 64 bytes and zeros after them |
| WuStun.HeadLayout | common/network/webudp/WuStun.cpp:93-113 | the response head holds type 0x0101, the message length, the cookie, the transaction id, and an XOR-MAPPED-ADDRESS header of length 8 with a zero byte and the family |
| WuStun.HeadRelength | common/network/webudp/WuStun.cpp:97-126 | two response heads differ only in their length field |
| WuStun.ResponseLayout | common/network/webudp/WuStun.cpp:90-134 | the response's fields: type 0x0101, a length field of 44 counting every byte after the header, the cookie and transaction id, an 8-byte XOR-MAPPED-ADDRESS, a 20-byte MESSAGE-INTEGRITY that is the digest of the head with length 36, and a FINGERPRINT that is the checksum of the 56 bytes before it XORed with 0x5354554e |
| WuSdp.BeginsWith | common/network/webudp/WuSdp.cpp:11-23 | true exactly when the prefix is no longer than the string and equals its first bytes |
| WuSdp.IceValueSplits | common/network/webudp/WuSdp.cpp:25-44 | a value is found exactly when the field starts with the name and its first colon comes before its last byte; the field is then a colon-free head, the colon and the non-empty value |
| WuSdp.IceValueOfAttribute | common/network/webudp/WuSdp.cpp:25-44 | an attribute written as a colon-free head, a colon and a non-empty value reads back as that value |
| WuSdp.GetIceValue | common/network/webudp/WuSdp.cpp:25-44 | the output field is overwritten exactly when the field carries a value for the name, and then with that value |
| WuSdp.ParseSdpField | common/network/webudp/WuSdp.cpp:46-50 | the ufrag, password and mid are each replaced by the field's value for their name, when it has one |
| WuSdp.ParseSdp | common/network/webudp/WuSdp.cpp:52-105 | the loop computes the scanner's reading of the offer, and success means all three fields are non-empty |
| WuSdp.RefusedStays | common/network/webudp/WuSdp.cpp:76-77 | once an 'a' at a line start is not followed by '=', the scan has failed for good |
| WuSdp.RunPrefix | common/network/webudp/WuSdp.cpp:59-101 | the scanner state after n characters depends only on those characters |
| WuSdp.LineRun | common/network/webudp/WuSdp.cpp:59-101 | one CR LF ended line is skipped unless it starts "a=", in which case exactly its text after "a=" is handed to the field parser; an 'a' not followed by '=' fails |
| WuSdp.ScanLines | common/network/webudp/WuSdp.cpp:52-101 | an offer of CR LF ended lines is read line by line, as the reference reading LinesTaken says |
| WuSdp.ParseSdpOfLines | common/network/webudp/WuSdp.cpp:52-105 | on an offer of CR LF ended lines, ParseSdp succeeds exactly when no line is refused and the fields of the "a=" lines, applied in order, are all non-empty |
| WuSdp.NoValueFor | common/network/webudp/WuSdp.cpp:11-27 | a field whose first character differs from the name's has no value for it |
| WuSdp.MidFieldUpdate | common/network/webudp/WuSdp.cpp:46-50 | a "mid:" field sets the mid and nothing else |
| WuSdp.LaterMidOverrides | common/network/webudp/WuSdp.cpp:46-95 | a later "a=mid:" line overrides what earlier lines set |
| WuSdp.UnterminatedFieldIgnored | common/network/webudp/WuSdp.cpp:80-95 | a last line without CR or LF is never handed to the field parser |
| WuSdp.EmptyLineHidesNext | common/network/webudp/WuSdp.cpp:62-99 | a bare LF at a line start puts the scanner in the ignore state, so the following line is skipped too |
| WuSdp.TypeWithoutEqRefuses | common/network/webudp/WuSdp.cpp:70-78 | an offer whose last line starts with 'a' and not "a=" fails whatever the other lines set |
| WuSdp.GenerateSdp | common/network/webudp/WuSdp.cpp:107-151 | an answer exactly when the formatted text is non-empty, shorter than 4096 bytes and fits the arena; it is then copied into a new arena block and the arena is otherwise unchanged |
| JsonEscape.EscapeLength | common/network/jsonescape.c:21-50 | the escape of a string is one character longer per special character (backspace, form feed, LF, CR, tab, quote, backslash) |
| JsonEscape.EscapeCharSpec | common/network/jsonescape.c:23-46 | each special character becomes a backslash followed by b, f, n, r, t, a quote or a backslash; every other character is copied |
| JsonEscape.EscapeHasNoControls | common/network/jsonescape.c:21-50 | an escaped string contains no raw backspace, form feed, LF, CR or tab |
| JsonEscape.UnescapeEscape | common/network/jsonescape.c:21-81 | unescaping the escape of any NUL-free string gives the string back |
| JsonEscape.UnescapeLoneBackslash | common/network/jsonescape.c:75-77 | a backslash not followed by an escape letter is copied and the next character is read on its own |
| JsonEscape.UnescapePair | common/network/jsonescape.c:54-74 | a backslash and an escape letter become the one character they stand for |
| JsonEscape.UnescapeShrinks | common/network/jsonescape.c:52-81 | unescaping never makes a string longer |
| JsonEscape.JsonEscape | common/network/jsonescape.c:21-50 | writes exactly the escape of the input followed by a NUL into the output buffer, leaving the rest of the buffer untouched |
| JsonEscape.JsonUnescape | common/network/jsonescape.c:52-81 | writes exactly the unescaping of the input followed by a NUL, reading the terminator as the character after a final backslash |
| Adler32.SumsClosed | common/rfb/adler32.h:18-23 | the running sums after eating bytes from the reset state are (1 + byte sum) and (length + weighted byte sum), both modulo 65521 |
| Adler32.EatenIsAdler | common/rfb/adler32.h:18-23 | the packed sums after eating w are the Adler-32 checksum of w as RFC 1950 defines it |
| Adler32.WikipediaVector | common/rfb/adler32.h:18-23 | the checksum of "Wikipedia" is 0x11E60398 |
| Adler32.RollLow | common/rfb/adler32.h:33-43 | the corrected low half is (sum1 + in - out) modulo 65521 |
| Adler32.RollHigh | common/rfb/adler32.h:45-49 | C's truncating remainder followed by adding 65521 to a negative result is the Euclidean remainder modulo 65521 |
| Adler32.Rolled | common/rfb/adler32.h:31-51 | the updated hash again has both halves below 65521 |
| Adler32.RollingUpdate | common/rfb/adler32.h:31-51 | updating the checksum of a window w with the byte leaving (w[0]) and the byte entering gives the checksum of the slid window |
| Adler32.Adler32.constructor | common/rfb/adler32.h:16 | starts with sum1 = 1, sum2 = 0, hash 0 and the given window length |
| Adler32.Adler32.Eat | common/rfb/adler32.h:18-23 | advances the sums by one byte and sets the hash to the Adler-32 of every byte eaten since the last reset |
| Adler32.Adler32.Reset | common/rfb/adler32.h:25-29 | restores sum1 = 1, sum2 = 0 and hash 0, keeping the window length |
| Adler32.Adler32.Update | common/rfb/adler32.h:31-51 | changes only the hash, to the rolled hash for the byte leaving and the byte entering |
| Adler32.RollOver | common/rfb/adler32.h:16-51 | eating a window and then updating it byte by byte leaves the hash equal to the checksum of the current window |
| Mp4BitBuf.BufErrorToStr | common/rfb/mp4_bitbuf.c:6-14 | each error code is named by its enumerator's spelling |
| Mp4BitBuf.BufErrorNames | common/rfb/mp4_bitbuf.c:6-14 | every name starts with "BUF_" and different codes have different names |
| Mp4BitBuf.Grow | common/rfb/mp4_bitbuf.c:16-24 | the reallocated buffer is size + min_size + 1024 bytes long and keeps the old bytes |
| Mp4BitBuf.Reserved | common/rfb/mp4_bitbuf.c:28 | a put grows the buffer exactly when the end position reaches its size (exceeds it for the 64-bit puts), afterwards the position is inside it, the old bytes are kept, and otherwise the buffer is unchanged |
| Mp4BitBuf.Splice | common/rfb/mp4_bitbuf.c:35-41 | storing b at an offset changes exactly the bytes at offset .. offset + len(b) to b's bytes and keeps the length |
| Mp4BitBuf.SpliceAppends | common/rfb/mp4_bitbuf.c:42-47 | a store at the write offset extends the written bytes by the stored bytes |
| Mp4BitBuf.SplicePatches | common/rfb/mp4_bitbuf.c:35-41 | a store inside the written bytes overwrites them in place, whatever the reallocation did past them |
| Mp4BitBuf.BitBuf.constructor | common/rfb/mp4.h:23-27 | an empty buffer with offset 0 |
| Mp4BitBuf.BitBuf.TryToRealloc | common/rfb/mp4_bitbuf.c:16-24 | the buffer becomes Grow of the old one |
| Mp4BitBuf.BitBuf.PutSkip | common/rfb/mp4_bitbuf.c:26-33 | count zero bytes are appended and the offset moves past them |
| Mp4BitBuf.BitBuf.PutToOffset | common/rfb/mp4_bitbuf.c:35-41 | the data is stored at the given offset after the growth rule, the write offset is kept, and written bytes covered by the store are overwritten |
| Mp4BitBuf.BitBuf.Put | common/rfb/mp4_bitbuf.c:42-47 | the data is appended and the offset advances by its size |
| Mp4BitBuf.BitBuf.PutU8ToOffset | common/rfb/mp4_bitbuf.c:49-55 | the byte is stored at the offset, the write offset is kept |
| Mp4BitBuf.BitBuf.PutU8 | common/rfb/mp4_bitbuf.c:56-61 | the byte is appended |
| Mp4BitBuf.BitBuf.PutU16BeToOffset | common/rfb/mp4_bitbuf.c:63-70 | the two big-endian bytes of the value are stored at the offset |
| Mp4BitBuf.BitBuf.PutU16Be | common/rfb/mp4_bitbuf.c:71-76 | the two big-endian bytes of the value are appended |
| Mp4BitBuf.BitBuf.PutU16LeToOffset | common/rfb/mp4_bitbuf.c:78-85 | the two little-endian bytes of the value are stored at the offset |
| Mp4BitBuf.BitBuf.PutU16Le | common/rfb/mp4_bitbuf.c:86-91 | the two little-endian bytes of the value are appended |
| Mp4BitBuf.BitBuf.PutU32BeToOffset | common/rfb/mp4_bitbuf.c:93-102 | the four big-endian bytes of the value are stored at the offset |
| Mp4BitBuf.BitBuf.PutU32Be | common/rfb/mp4_bitbuf.c:103-108 | the four big-endian bytes of the value are appended |
| Mp4BitBuf.BitBuf.PutI32Be | common/rfb/mp4_bitbuf.c:109-114 | the four big-endian bytes of the value's two's complement pattern are appended |
| Mp4BitBuf.BitBuf.PutU64BeToOffset | common/rfb/mp4_bitbuf.c:116-129 | the eight big-endian bytes are stored at the offset; this put grows only when the end position exceeds the size |
| Mp4BitBuf.BitBuf.PutU64Be | common/rfb/mp4_bitbuf.c:130-135 | the eight big-endian bytes are appended |
| Mp4BitBuf.BitBuf.PutU32LeToOffset | common/rfb/mp4_bitbuf.c:137-146 | the four little-endian bytes of the value are stored at the offset |
| Mp4BitBuf.BitBuf.PutU32Le | common/rfb/mp4_bitbuf.c:147-152 | the four little-endian bytes of the value are appended |
| Mp4BitBuf.BitBuf.PutStr4ToOffset | common/rfb/mp4_bitbuf.c:154-160 | the four characters are stored at the offset |
| Mp4BitBuf.BitBuf.PutStr4 | common/rfb/mp4_bitbuf.c:161-166 | the four characters are appended |
| Mp4BitBuf.BitBuf.PutCountedStrToOffset | common/rfb/mp4_bitbuf.c:167-174 | len + 1 characters are stored at the offset and a NUL after them, one past the end the caller's offset accounts for |
| Mp4BitBuf.BitBuf.PutCountedStr | common/rfb/mp4_bitbuf.c:175-180 | len + 1 characters are appended and the offset advances by len + 1 |
| Mp4Moov.Ascii | common/rfb/mp4_moov.c:40-57 | a four-character code is stored as its character bytes, one per character |
| Mp4Moov.Box | common/rfb/mp4_moov.c:40-57 | a box is its 32-bit big-endian size, which counts the 8 header bytes, its type and its content |
| Mp4Moov.BoxLayout | common/rfb/mp4_moov.c:40-57 | the size field of a box decodes to the box's length, followed by the type and the content |
| Mp4Moov.BackPatch | common/rfb/mp4_moov.c:54-55 | writing the size over the zero placeholder at the box's start turns placeholder, type and content into the box |
| Mp4Moov.BeginBox | common/rfb/mp4_moov.c:43 | a zero size and the type are appended and the box's start offset is returned |
| Mp4Moov.EndBox | common/rfb/mp4_moov.c:54-55 | after the content, the size patched at the start makes the bytes from the start the box |
| Mp4Moov.PutVersionFlags | common/rfb/mp4_moov.c:76-77 | the version byte and the three flag bytes are appended |
| Mp4Moov.PutMatrix | common/rfb/mp4_moov.c:85-95 | the 36-byte unity transformation matrix is appended |
| Mp4Moov.Header | common/rfb/mp4_moov.c:33-38 | the initialisation segment is ftyp followed by moov, 736 + sps length + pps length bytes long |
| Mp4Moov.HeaderLayout | common/rfb/mp4_moov.c:33-69 | the header starts with a 36-byte ftyp box of major brand "isom", followed by a moov box whose size field covers the rest |
| Mp4Moov.AvcCLayout | common/rfb/mp4_moov.c:294-312 | avcC carries configuration version 1, the profile, compatibility and level bytes sps[1..4], then the SPS after its 16-bit length, one PPS, and the PPS after its length |
| Mp4Moov.VideoHandlerLayout | common/rfb/mp4_moov.c:156-157 | the hdlr of mdia is 45 bytes, has handler type "vide" and ends with the NUL-terminated name "VideoHandler" |
| Mp4Moov.WriteHeader | common/rfb/mp4_moov.c:33-38 | appends Header(info) |
| Mp4Moov.WriteFtyp | common/rfb/mp4_moov.c:40-57 | appends the ftyp box with major brand isom, minor version 0x200 and the five compatible brands |
| Mp4Moov.WriteMoov | common/rfb/mp4_moov.c:60-69 | appends a moov box of mvhd, trak, mvex and udta |
| Mp4Moov.WriteMvhd | common/rfb/mp4_moov.c:72-106 | appends mvhd with the creation time, timescale, zero duration, rate 65536 (1.0), volume 1 written little-endian, the unity matrix and next track ID 2 |
| Mp4Moov.WriteTrak | common/rfb/mp4_moov.c:108-115 | appends a trak box of tkhd and mdia |
| Mp4Moov.WriteTkhd | common/rfb/mp4_moov.c:117-149 | appends tkhd with flags 3, track 1 and the width and height as 16.16 fixed point |
| Mp4Moov.WriteMdia | common/rfb/mp4_moov.c:152-162 | appends an mdia box of mdhd, the video hdlr and minf |
| Mp4Moov.WriteMdhd | common/rfb/mp4_moov.c:164-177 | appends mdhd with a zero creation time, the timescale and language code 21956 |
| Mp4Moov.WriteMinf | common/rfb/mp4_moov.c:179-187 | appends a minf box of vmhd, dinf and stbl |
| Mp4Moov.WriteDinf | common/rfb/mp4_moov.c:189-195 | appends dinf holding dref |
| Mp4Moov.WriteDref | common/rfb/mp4_moov.c:197-206 | appends dref with one entry, the url box |
| Mp4Moov.WriteUrl | common/rfb/mp4_moov.c:208-216 | appends the self-contained url box (flags 1) |
| Mp4Moov.WriteVmhd | common/rfb/mp4_moov.c:218-230 | appends vmhd with flags 1 and zero graphics mode and colour |
| Mp4Moov.WriteStbl | common/rfb/mp4_moov.c:232-242 | appends an stbl box of stsd, stts, stsc, stsz and stco |
| Mp4Moov.WriteStsd | common/rfb/mp4_moov.c:244-253 | appends stsd with one entry, avc1 |
| Mp4Moov.WriteAvc1 | common/rfb/mp4_moov.c:255-291 | appends avc1 with the width, height, resolutions, one frame per sample, the compressor name, depth 0x18 and avcC |
| Mp4Moov.WriteAvcC | common/rfb/mp4_moov.c:294-312 | appends AvcCBox(info) |
| Mp4Moov.WriteEmptyTable | common/rfb/mp4_moov.c:314-355 | appends an stts, stsc or stco box with no entries |
| Mp4Moov.WriteStsz | common/rfb/mp4_moov.c:336-345 | appends stsz with sample size 0 and no entries |
| Mp4Moov.WriteMvex | common/rfb/mp4_moov.c:357-363 | appends mvex holding trex |
| Mp4Moov.WriteTrex | common/rfb/mp4_moov.c:365-377 | appends trex for track 1 with sample description 1 and zero defaults |
| Mp4Moov.WriteUdta | common/rfb/mp4_moov.c:379-385 | appends udta holding meta |
| Mp4Moov.WriteMeta | common/rfb/mp4_moov.c:387-397 | appends meta with the mdir/appl hdlr and the ilst of the encoder tag |
| Mp4Moov.WriteHdlr | common/rfb/mp4_moov.c:399-412 | appends hdlr with the handler type, the manufacturer, three zero words and the first value_len + 1 bytes of the name |
| Mp4Moov.WriteIlst | common/rfb/mp4_moov.c:414-420 | appends ilst holding the given items |
| Mp4Nal.NalTypeToStr | common/rfb/mp4.h:121-140 | each unit type of Table 7-1 of ITU-T H.264 with a name gets that name, every other value "Unknown" |
| Mp4Nal.UnknownNames | common/rfb/mp4.h:121-140 | "Unknown" is returned exactly for the values 14 to 18, 20 and up, and negative ones |
| Mp4Nal.NameRoundTrip | common/rfb/mp4.h:121-140 | the name of a named type gives back the type, so different named types have different names |
| Mp4Nal.ParseHeader | common/rfb/mp4.h:142-146 | the forbidden bit is bit 7, ref_idc bits 6-5 (below 4), the unit type bits 4-0 (below 32) |
| Mp4Nal.HeaderRoundTrip | common/rfb/mp4.h:142-146 | parsing the byte built from a header gives that header |
| Mp4Nal.ByteRoundTrip | common/rfb/mp4.h:142-146 | rebuilding the byte from its parsed header gives the byte |
| Mp4Nal.NalChk3Spec | common/rfb/mp4.h:153-156 | nal_chk3 holds exactly when the three bytes at the offset are the start code 00 00 01 |
| Mp4Nal.NalChk4Spec | common/rfb/mp4.h:148-151 | nal_chk4 holds exactly at a three- or a four-byte start code, nal_chk3 implies it, and the two codes never both start at one offset |
| Mp4Nal.StartCodeFound | common/rfb/mp4.h:148-156 | after either start code nal_chk4 holds, and nal_chk3 exactly after the three-byte one |
| Mp4Moof.FragmentPositions.constructor | common/rfb/mp4_moof.c:4-6 | the three recorded positions start at 0 |
| Mp4Moof.AsI32 | common/rfb/mp4_moof.c:185 | the unsigned composition offset passed as int32_t keeps its bits, negative exactly from 2^31 up |
| Mp4Moof.FlagBytes | common/rfb/mp4_moof.c:104-132 | the tfhd flags 0x000038 and the trun flags 0x000F01 are written as the bytes 00 00 38 and 00 0F 01 |
| Mp4Moof.MdatBox | common/rfb/mp4_moof.c:34-43 | mdat is 12 + len bytes: its header, the original length and the first len bytes of the data |
| Mp4Moof.MoofBox | common/rfb/mp4_moof.c:45-63 | a moof of count samples is 100 + 16 * count bytes |
| Mp4Moof.SampleFieldsAt | common/rfb/mp4_moof.c:173-186 | the fields of sample i sit at 16 * i in the run, in the order written |
| Mp4Moof.MoofParts | common/rfb/mp4_moof.c:45-194 | moof is its header, mfhd at 8, the traf and trun headers at 24, the data offset at 96 and the sample fields from 100 on |
| Mp4Moof.MoofLayout | common/rfb/mp4_moof.c:45-194 | the size field is the box length, the sequence number is at 20, the decode time at 72, the data offset at 96 points 8 bytes past the end of moof, and sample i's fields are at 100 + 16 * i |
| Mp4Moof.SampleBytesDecode | common/rfb/mp4_moof.c:177-186 | each big-endian field of a sample decodes to the sample's duration, size, flags and composition offset |
| Mp4Moof.MdatLayout | common/rfb/mp4_moof.c:34-43 | mdat's size field is its length, its type "mdat", then the original length, then the data |
| Mp4Moof.PatchTraf | common/rfb/mp4_moof.c:60 | patching the placeholder data offset of traf with a value gives traf with that value |
| Mp4Moof.MoofPatch | common/rfb/mp4.c:77-79 | overwriting the sequence number at 20 and the decode time at 72 of a moof gives the moof with the new values and nothing else changed |
| Mp4Moof.WriteMdat | common/rfb/mp4_moof.c:34-43 | appends MdatBox(data, origlen, len) |
| Mp4Moof.WriteMoof | common/rfb/mp4_moof.c:45-63 | appends the moof with the data offset patched to the end of moof plus 8, and records the sequence number position (start + 20) and decode time position (start + 72), leaving the base data offset position |
| Mp4Moof.WriteMfhd | common/rfb/mp4_moof.c:65-74 | appends mfhd and records the sequence number position 12 bytes in |
| Mp4Moof.WriteTraf | common/rfb/mp4_moof.c:76-91 | appends traf of tfhd, tfdt and trun with a zero data offset, whose position (72 bytes in) is returned as present |
| Mp4Moof.WriteTfhd | common/rfb/mp4_moof.c:93-135 | appends tfhd with flags 0x38, track 1, the default duration, size and flags 0x01010000, and records no base data offset |
| Mp4Moof.WriteTfdt | common/rfb/mp4_moof.c:137-146 | appends the version-1 tfdt with the 64-bit decode time, whose position 12 bytes in is recorded |
| Mp4Moof.WriteTrun | common/rfb/mp4_moof.c:148-194 | appends trun with flags 0x000F01, the sample count, a zero data offset and the four fields of each of the first count samples; the data offset position 16 bytes in is returned |
| Mp4Moof.PutSample | common/rfb/mp4_moof.c:177-186 | appends the duration, size, flags and composition offset of one sample |
| Mp4.SliceSample | common/rfb/mp4.c:54-61 | the sample of a slice is nal_len + 4 bytes (32-bit), lasts one default sample, and has the non-sync bit 16 set exactly when the unit is not an IDR slice |
| Mp4.SliceMoof | common/rfb/mp4.c:63-64 | the moof of one slice is 116 bytes |
| Mp4.PatchWritten | common/rfb/mp4.c:77-79 | a recorded-position write inside the written bytes overwrites them in place |
| Mp4.Mp4State.constructor | common/rfb/mp4.h:160-169 | a state with nothing sent and the given sample duration |
| Mp4.Mp4Context.constructor | common/rfb/mp4.h:171-182 | a context with empty parameter sets, the given size and rate, and three empty buffers |
| Mp4.Mp4Context.Info | common/rfb/mp4.c:26-37 | the moov info of the stored parameter sets, the picture size, 72 dpi both ways, creation time 0 and timescale 40000 * framerate |
| Mp4.Mp4Context.CreateHeader | common/rfb/mp4.c:21-42 | when the header buffer is empty and both parameter sets are known its contents become Header(Info()); otherwise it is unchanged |
| Mp4.Mp4Context.SetSps | common/rfb/mp4.c:9-13 | the first nal_len bytes of the SPS buffer become the unit, its length nal_len, and the header is created if it can be |
| Mp4.Mp4Context.SetPps | common/rfb/mp4.c:15-19 | the first nal_len bytes of the PPS buffer become the unit, its length nal_len, and the header is created if it can be |
| Mp4.Mp4Context.SetSlice | common/rfb/mp4.c:51-73 | the moof buffer holds exactly the moof of the one slice sample with sequence number 0 and decode time 0, the mdat buffer exactly its mdat, and the positions are 20 and 72 |
| Mp4.Mp4Context.SetMp4State | common/rfb/mp4.c:75-84 | the state's fields are written at the nonzero recorded positions; then the sequence number is incremented (32-bit), the data offset grows by the two buffer lengths (their sum taken modulo 2^32) and the decode time by the sample duration (64-bit) |
| Mp4.Mp4Context.PatchState | common/rfb/mp4.c:77-79 | the three position writes, each done only when its position is nonzero, keep the write offset |
| Mp4.Mp4Context.GetHeader | common/rfb/mp4.c:44-49 | the caller's buffer gets the header buffer's bytes and offset |
| Mp4.Mp4Context.GetMoof | common/rfb/mp4.c:85-90 | the caller's buffer gets the moof buffer's bytes and offset |
| Mp4.Mp4Context.GetMdat | common/rfb/mp4.c:91-98 | the caller's buffer gets the mdat buffer's bytes and offset |
| Mp4.HeaderOnce | common/rfb/mp4.c:22 | a written header is never empty, so create_header returns early on every later call |
| Mp4.SliceFragment | common/rfb/mp4.c:51-73 | in moof followed by mdat, the data offset is the length of moof plus 8, which is where the sample starts, and the nal_len + 4 bytes from there, the recorded size, are the original length and the unit |
| Mp4.SliceMoofFields | common/rfb/mp4.c:54-64 | the moof of one slice has data offset 124 and sample size nal_len + 4 |
| Mp4.StatePatchesMoof | common/rfb/mp4.c:75-79 | set_mp4_state after set_slice, at the positions set_slice recorded, turns the slice's moof into the moof with the state's sequence number and decode time |
| Blacklist.Query | common/network/Blacklist.cxx:43-68 | an address with no entry is not blocked and nothing changes; a blocked answer refreshes the entry to now and keeps the counts; an address whose entry is older than the timeout is not blocked and loses both its entry and its failure count; other addresses are untouched |
| Blacklist.Blacklist.constructor | common/network/Blacklist.cxx:37-38 | the failure counts and the blacklist start empty |
| Blacklist.Fail | common/network/Blacklist.cxx:70-85 | threshold 0 changes nothing; otherwise the address's failure count grows by one (wrapping at 2^32) and the address is blacklisted at now once the count reaches the threshold read as unsigned; other addresses are untouched |
| Blacklist.FailuresCount | common/network/Blacklist.cxx:76 | from no recorded failure, n failures leave a count of n |
| Blacklist.ThresholdFailuresBlacklist | common/network/Blacklist.cxx:70-85 | from no recorded failure, an address is blacklisted exactly from the threshold-th failure on, at the time of the failures |
| Blacklist.SlidingWindow | common/network/Blacklist.cxx:54-67 | an address found blocked is still blocked at any later query within the timeout, because each blocked answer restarts the window |
| Blacklist.ExpiryForgetsFailures | common/network/Blacklist.cxx:54-62 | after an entry expires the next failure counts as the first |
| Blacklist.Blacklist.IsBlacklisted | common/network/Blacklist.cxx:43-68 | the maps and the 0/1 answer are those of Query |
| Blacklist.Blacklist.AddFailure | common/network/Blacklist.cxx:70-85 | the maps become those of Fail |
| KasmPasswd.Lines | unix/kasmvncpasswd/kasmpasswd.c:21-30 | the lines fgets hands out carry no newline of their own |
| KasmPasswd.ParseLine | unix/kasmvncpasswd/kasmpasswd.c:31-68 | a line without ':' gives no entry; an accepted entry fits its 128-byte fields and its user and password hold no ':' |
| KasmPasswd.ParseLines | unix/kasmvncpasswd/kasmpasswd.c:29-75 | at most one entry per line, every entry within its field sizes |
| KasmPasswd.ReadKasmPasswd | unix/kasmvncpasswd/kasmpasswd.c:10-78 | the loop over the lines yields exactly the parsed entries; a missing file yields none |
| KasmPasswd.Named | unix/kasmvncpasswd/kasmpasswd.c:96-98 | the entries written back are at most those given |
| KasmPasswd.WriteKasmPasswd | unix/kasmvncpasswd/kasmpasswd.c:80-113 | an empty set leaves the file alone; otherwise the file becomes one user:password:perms line per named entry |
| KasmPasswd.PermsLetters | unix/kasmvncpasswd/kasmpasswd.c:100-105 | the permission letters hold neither ':' nor a newline |
| KasmPasswd.ParseFormatLine | unix/kasmvncpasswd/kasmpasswd.c:31-68 | a line as writekasmpasswd formats it reads back as the same entry |
| KasmPasswd.LinesCons | unix/kasmvncpasswd/kasmpasswd.c:30 | a line and its newline are split off the front of the text |
| KasmPasswd.FormatLineNoBreak | unix/kasmvncpasswd/kasmpasswd.c:100-105 | a formatted line holds no newline for clean fields |
| KasmPasswd.ReadRendered | unix/kasmvncpasswd/kasmpasswd.c:10-113 | reading the written text gives back exactly the entries with a non-empty user, in order |
| KasmPasswd.WriteThenRead | unix/kasmvncpasswd/kasmpasswd.c:10-113 | writing a non-empty set to a missing file and reading it back gives its named entries |
| KasmPasswd.ParsedClean | unix/kasmvncpasswd/kasmpasswd.c:31-49 | no entry read from newline-free lines holds ':' or a newline in its user or password |
| KasmPasswd.ParseLineClean | unix/kasmvncpasswd/kasmpasswd.c:31-49 | one line's entry holds no ':' or newline |
| KasmPasswd.ReadWriteRead | unix/kasmvncpasswd/kasmpasswd.c:10-113 | reading, writing back and reading again loses nothing but the unnamed entries |
| KasmPasswd.Users | unix/kasmvncpasswd/kasmvncpasswd.c:181-182 | the user names, entry by entry |
| KasmPasswd.FindUser | unix/kasmvncpasswd/kasmvncpasswd.c:181-190 | the strcmp loop finds the first entry with the name, or -1 when none has it |
| KasmPasswd.Upsert | unix/kasmvncpasswd/kasmvncpasswd.c:207-222 | a missing user is appended; an existing entry is replaced and no other changes |
| KasmPasswd.BlankDrops | unix/kasmvncpasswd/kasmvncpasswd.c:195-200 | blanking an entry's user drops exactly that entry from the file and keeps the others in order |
| KasmPasswd.NamedAppend | unix/kasmvncpasswd/kasmpasswd.c:96-98 | skipping unnamed entries distributes over concatenation |
| KasmPasswd.AddedLast | unix/kasmvncpasswd/kasmvncpasswd.c:207-225 | a new clean user written to the file reads back as the last entry after the file's named entries |
| KasmVncPasswd.ParseOptions | unix/kasmvncpasswd/kasmvncpasswd.c:128-156 | the getopt loop gives the flags of the options in order, and gets through exactly when no option is unknown and no -u name is too long |
| KasmVncPasswd.OptionsUser | unix/kasmvncpasswd/kasmvncpasswd.c:129-136 | the user is the one of some -u option (the last wins), fits its field, and stays unset without -u |
| KasmVncPasswd.Prompt | unix/kasmvncpasswd/kasmvncpasswd.c:87-117 | an accepted password has at least six characters |
| KasmVncPasswd.ReadPassword | unix/kasmvncpasswd/kasmvncpasswd.c:87-117 | the prompt loop accepts the password of the prompt rules; an empty first line exits |
| KasmVncPasswd.PromptTypedTwice | unix/kasmvncpasswd/kasmvncpasswd.c:102-113 | an accepted password was typed twice in a row |
| KasmVncPasswd.RunCommand | unix/kasmvncpasswd/kasmvncpasswd.c:119-228 | usage errors and a missing file name exit 1 without writing; -n sets the permissions of the first entry with the user, -d blanks it, an unknown user exits 1; otherwise the prompted, crypted password replaces or appends the user's entry; every write goes to the chosen file with status 0 |
| KasmVncPasswd.SetPermsFirstOnly | unix/kasmvncpasswd/kasmvncpasswd.c:180-192 | -n changes only the permissions of the first entry with the user's name |
| GetApiMessager.Updated | common/network/GetAPIMessager.cxx:406-418 | exactly the fields whose mask bit is set take the new values; the user stays |
| GetApiMessager.UpdatedNoBits | common/network/GetAPIEnums.h:23-28 | a mask with none of the four update bits changes nothing |
| GetApiMessager.ClientField | common/network/GetAPIMessager.cxx:726-729 | the client name is cut to 127 characters and kept whole when it fits |
| GetApiMessager.UpdateScreen | common/network/GetAPIMessager.cxx:80-100 | the screen takes the new size and hash; any change of size or content empties the cache; an unchanged frame changes nothing |
| GetApiMessager.HexText | common/network/GetAPIMessager.cxx:209-213 | "%" PRIx64 prints at least one digit |
| GetApiMessager.HexDigits | common/network/GetAPIMessager.cxx:209-213 | n zero-padded digits are n bytes long |
| GetApiMessager.ParseHexDigits | common/network/GetAPIMessager.cxx:209-213 | n padded digits read back as the value modulo 16^n |
| GetApiMessager.HexTextShort | common/network/GetAPIMessager.cxx:209-213 | a value below 16^k prints in at most k digits |
| GetApiMessager.DedupReplyAsWritten | common/network/GetAPIMessager.cxx:209-213 | the reply as written is 16 bytes long |
| GetApiMessager.DedupReplyTruncated | common/network/GetAPIMessager.cxx:209-213 | for a hash below 16^15 the 16-byte reply holds sprintf's NUL inside it; for hash 0 it is "0", NUL and stale buffer bytes |
| GetApiMessager.DedupReply | common/network/GetAPIMessager.cxx:209-213 | the intended reply is 16 bytes long |
| GetApiMessager.DedupReplyRoundTrip | common/network/GetAPIMessager.cxx:209-213 | the intended reply reads back as the screen hash, so distinct hashes give distinct replies |
| GetApiMessager.Screenshot | common/network/GetAPIMessager.cxx:194-273 | the size is clamped to the screen; an empty size, a quality above 9 or no buffer gives no image and no change; a request for the cached size and quality is answered from the cache (or the hash with dedup); any other request caches and returns the new JPEG |
| GetApiMessager.RepeatIsCached | common/network/GetAPIMessager.cxx:208-223 | a repeated request is answered with the first answer's bytes without encoding |
| GetApiMessager.ChangeInvalidates | common/network/GetAPIMessager.cxx:80-100 | after the screen changes, a served request is freshly encoded |
| GetApiMessager.Messager.constructor | common/network/GetAPIMessager.cxx:57-70 | empty screen and cache, no request in progress, empty queue |
| GetApiMessager.Messager.MainUpdateScreen | common/network/GetAPIMessager.cxx:73-103 | the screen state becomes UpdateScreen of the old one |
| GetApiMessager.Messager.NetGetScreenshot | common/network/GetAPIMessager.cxx:187-277 | result and cache as Screenshot states; the length is that of the returned bytes |
| GetApiMessager.Messager.NetAddUser | common/network/GetAPIMessager.cxx:279-338 | too-long name or password, no path, or an existing name returns 0 and leaves the file; otherwise the file becomes the entries read plus the new one and 1 is returned |
| GetApiMessager.Messager.NetRemoveUser | common/network/GetAPIMessager.cxx:340-380 | an unknown or too-long name returns 0 and leaves the file; otherwise the first entry with the name is blanked, the file rewritten and 1 returned |
| GetApiMessager.Messager.NetUpdateUser | common/network/GetAPIMessager.cxx:382-442 | too-long strings, an empty mask or an unknown name return 0 and leave the file; otherwise the masked fields of the first entry with the name change and 1 is returned |
| GetApiMessager.Messager.NetAddOrUpdateUser | common/network/GetAPIMessager.cxx:444-478 | the first entry with the user is replaced, or the entry appended, and the file rewritten |
| GetApiMessager.Messager.NetRequestFrameStats | common/network/GetAPIMessager.cxx:722-758 | refused with nothing changed while a request is in progress; otherwise the statistics are cleared, marked in progress and one action with the truncated client name queued |
| GetApiMessager.Messager.NetResetFrameStatsCall | common/network/GetAPIMessager.cxx:713-720 | the request is no longer in progress and nothing else changes |
| GetApiMessager.Messager.NetGetFrameStats | common/network/GetAPIMessager.cxx:602-711 | a buffer under 1024 bytes changes nothing; a larger one ends the request |
| WsQuery.IndexFrom | common/network/websocket.c:135 | strchrnul from a position: the first index from there on that holds the byte, or the end of the string, with no earlier occurrence in between |
| WsQuery.ScanFor | common/network/websocket.c:135 | the scanning loop returns that first index |
| WsQuery.GetFromAsWritten | common/network/websocket.c:133-158 | when parse_get finds a value, it starts just after an '=' inside the string |
| WsQuery.ParseGet | common/network/websocket.c:133-158 | the segment loop returns the value of the first segment beginning with the option name, or the empty answer when no segment matches or no '=' follows |
| WsQuery.ParseGetOverrun | common/network/websocket.c:140-146 | for "name&a=b" asked for "name", the value found is the "b" of the next segment, and the length is 4 - 7, stored as 2^32 - 3 |
| WsQuery.GetFrom | common/network/websocket.c:140-146 | with the '=' searched for inside the segment, a found value lies after an '=', holds no '&' and runs exactly to the next '&' or the end of the string |
| WsQuery.GetFromAgrees | common/network/websocket.c:133-158 | the code as written and the corrected lookup differ only when the code as written returns a negative length |
| WsQuery.HexVal | common/network/websocket.c:175 | a hexadecimal digit has a value below 16 |
| WsQuery.DecodeShrinks | common/network/websocket.c:160-189 | percent_decode never writes more bytes than it reads, and copies a string without '%' unchanged |
| WsQuery.FilterBlocksSlash | common/network/websocket.c:177-181 | with the filter on, an input without '/' decodes to an output without '/', whatever "%2F" it holds |
| WsQuery.DecodeStep | common/network/websocket.c:162-185 | one step of the loop: a plain byte is copied, "%ab" gives one decoded byte, and a '%' with fewer than two following bytes ends the output |
| WsQuery.PercentDecode | common/network/websocket.c:160-189 | the destination holds the decoding of the source followed by a NUL, and nothing after the NUL changes |
| WsQuery.HexUpper | common/network/websocket.c:200 | "%X" of a value below 16 is a hexadecimal digit that reads back as that value |
| WsQuery.EncodeByte | common/network/websocket.c:195-202 | one byte is encoded as one kept byte or as three bytes |
| WsQuery.EncodeByteAsWritten | common/network/websocket.c:195-202 | the same lengths for the encoding as written |
| WsQuery.DecodeEncode | common/network/websocket.c:160-206 | decoding without the filter undoes the intended encoding of every byte string |
| WsQuery.EncodeAsWrittenAscii | common/network/websocket.c:191-206 | on bytes below 0x80 the encoding as written is the intended one, and decoding it gives the input back |
| WsQuery.EncodeHighByteLost | common/network/websocket.c:200 | the UTF-8 bytes C3 A9 are encoded as "%FF%FF", which decodes to FF FF |
| WsQuery.EncodeStep | common/network/websocket.c:193-204 | one step of the encoding loop: the encoding of the current byte followed by the encoding of the rest |
| WsQuery.PutEncoded | common/network/websocket.c:195-203 | one pass writes the encoding as written of one byte at the output position and leaves the bytes after it unchanged |
| WsQuery.PercentEncode | common/network/websocket.c:191-206 | the destination holds the encoding as written of the source followed by a NUL, and nothing after the NUL changes |
| WsHybi.XorNTwice | common/network/websocket.c:587-589 | XOR with the same key byte twice gives the byte back |
| WsHybi.ToI32 | common/network/websocket.c:467 | the int conversion keeps a length below 2^31 unchanged |
| WsHybi.MaskTwice | common/network/websocket.c:585-589 | masking a payload with a four-byte key (byte i with key byte i mod 4) is its own inverse |
| WsHybi.Unmask | common/network/websocket.c:585-589 | unmasking a payload in place keeps the length of the receive buffer |
| WsHybi.NextFrame | common/network/websocket.c:525 | the next frame starts after the current one |
| WsHybi.Frames | common/network/websocket.c:521-609 | the frame loop keeps the length of the receive buffer |
| WsHybi.BinaryFrameStep | common/network/websocket.c:541-606 | a complete, masked, non-empty binary frame appends its unmasked payload and decoding goes on after it |
| WsHybi.TextFrameStep | common/network/websocket.c:541-606 | a complete, masked, non-empty text frame appends the base64 decoding of its unmasked payload, or fails when that decoding fails |
| WsHybi.SkipStep | common/network/websocket.c:561-574 | an incomplete, non-data or empty frame is skipped, with its opcode reported |
| WsHybi.UnmaskAt | common/network/websocket.c:585-589 | after unmasking, a payload byte is XORed with key byte (offset mod 4) and every other byte is unchanged |
| WsHybi.UnmaskInPlace | common/network/websocket.c:585-589 | the loop leaves the buffer with the payload unmasked and every other byte unchanged |
| WsHybi.DecodeHybi | common/network/websocket.c:506-618 | the return value, *opcode, *left, the decoded bytes and the receive buffer are those of the frame loop |
| WsHybi.Header | common/network/websocket.c:465-486 | the header is 2 bytes up to length 125 and 4 bytes otherwise, and starts with FIN and the opcode |
| WsHybi.PutLength | common/network/websocket.c:477-486 | the header writes leave the header at the start of target and nothing after it changed |
| WsHybi.CopyInto | common/network/websocket.c:495 | memcpy puts the payload at the offset and changes nothing else |
| WsHybi.CopyTerminated | common/network/websocket.c:354-355 | the base64 text lands at the offset followed by the NUL ws_b64_ntop writes after it, and nothing past the NUL changes |
| WsHybi.CopyAfter | common/network/websocket.c:495 | after the copy the bytes up to the end of the payload are the header kept in place followed by the payload, and nothing after it changes |
| WsHybi.EncodeHybi | common/network/websocket.c:454-504 | the return value and the bytes written at the start of target are those of the frame encoding; a text frame whose base64 text fits is followed by the NUL ws_b64_ntop writes (websocket.c:354-355), and nothing after that changes |
| WsHybi.BinaryFrameLayout | common/network/websocket.c:454-504 | for a binary payload of 1 to 65535 bytes: 0x82, a 7-bit length up to 125 or 126 and a 16-bit big-endian length, then the payload, with the total returned; 65536 bytes or more gives -1; any opcode other than text or binary gives -1 with nothing written |
| WsHybi.ClientFrameHeader | common/network/websocket.c:541-560 | the decoder reads the header of a masked client frame as binary, masked, with the payload length the encoder wrote |
| WsHybi.ClientPayloadUnmasked | common/network/websocket.c:585-589 | unmasking a masked payload with its key gives the payload back |
| WsHybi.DecodeClientFrame | common/network/websocket.c:454-618 | round trip: the binary frame the encoder writes, masked as a client sends it, decodes to the original payload with opcode binary and nothing left |
| WsHybi.UnmaskedRefused | common/network/websocket.c:576-579 | decoding fails on a binary frame whose payload is not masked |
| WsHybi.TruncatedFrameLeft | common/network/websocket.c:525-563 | a frame that has not fully arrived decodes to nothing and is left over whole |
| WsServe.ToInt | common/network/websocket.c:740 | the int conversion keeps a value below 2^31 unchanged |
| WsServe.ParseHixie76Key | common/network/websocket.c:730-741 | the loop counts the spaces and accumulates the digits; the result is the number over the space count converted to int, and none (a division by zero) exactly when the key has no space |
| WsServe.NoSpaces | common/network/websocket.c:732-735 | the space count is 0 exactly when the key holds no space |
| WsServe.NumWraps | common/network/websocket.c:736-738 | the accumulated number is the decimal number of the key's digits modulo 2^64 |
| WsServe.Hixie76KeyValue | common/network/websocket.c:730-741 | a key whose digits read n times its space count (below 2^64, n below 2^31) gives back n |
| WsServe.LastDot | common/network/websocket.c:781 | strrchr: the index of the last '.', with no '.' after it, or -1 when there is none |
| WsServe.Name2Mime | common/network/websocket.c:779-817 | the type is one of the nine the code knows; a name without '.' or under "Downloads/" in any case is application/octet-stream |
| WsServe.Name2MimeExtension | common/network/websocket.c:781-812 | for base "." ext outside Downloads/ with no '.' in ext, the type is decided by ext alone |
| WsServe.PrefixDecides | common/network/websocket.c:790-808 | extensions are compared by prefix in order: "json" gets application/javascript and "html" text/html |
| WsServe.UnknownIsBinary | common/network/websocket.c:790-816 | an extension starting with none of the known first letters gets application/octet-stream |
| WsServe.IsValidIp | common/network/websocket.c:819-829 | the answer is 1 exactly when each of the first len characters is a hexadecimal digit, '.' or ':' |
| Udp.UdpSend | common/network/Udp.cxx:98-128 | the status, the new id and the datagrams handed to the host are exactly SendOutcome: every piece's datagram in order and id + 1, or the datagrams up to the refused one, status 1 and the old id |
| Udp.NextPiece | common/network/Udp.cxx:108-119 | the next min(remaining, udpSize) bytes are the loop's piece i, and what is left after them holds the remaining pieces |
| Udp.PieceCountStep | common/network/Udp.cxx:103 | the code's count drops by one when udpSize bytes are taken off a longer message, and is 1 for 1 to udpSize bytes |
| Udp.ChunkCount | common/network/Udp.cxx:103-119 | the loop's count len/udpSize + (remainder ? 1 : 0) is the number of pieces the data is cut into, i.e. ceil(len / udpSize) |
| Udp.ChunksConcat | common/network/Udp.cxx:117-119 | the pieces concatenated in order give the data back |
| Udp.PayloadsOf | common/network/Udp.cxx:117 | the payloads of datagrams whose bytes after the 20-byte header are the pieces concatenate to the pieces' concatenation |
| Udp.Reassemble | common/network/Udp.cxx:107-123 | the payloads of all datagrams of a message, in piece order, are the message |
| Udp.ChunkSizes | common/network/Udp.cxx:108 | every piece holds 1 to udpSize bytes, and every piece but the last exactly udpSize |
| Udp.PacketHeader | common/network/Udp.cxx:109-115 | datagram k's header reads back as the id, k, the piece count, the hash of its payload truncated to 32 bits and the frame number |
| Udp.PacketSize | common/network/Udp.cxx:102-121 | datagram k is 20 bytes plus 1 to udpSize payload bytes, at most 1420, and exactly 20 + udpSize unless it is the last |
| Udp.SendIds | common/network/Udp.cxx:103-127 | status 0 exactly when the host takes every piece; then the id advances by one modulo 2^32 and all pieces went out; on status 1 the id is unchanged and accepted + 1 datagrams were tried |
| Udp.EmptySend | common/network/Udp.cxx:103-127 | an empty buffer sends no datagram but still returns 0 and advances the id |
| Udp.UdpStream.constructor | common/network/Udp.cxx:130-136 | no client, total length 0, id 0, not failed, frame 0, empty buffer |
| Udp.UdpStream.SetClient | common/network/Udp.h:39-41 | sets the client and nothing else |
| Udp.UdpStream.SetFrameNumber | common/network/Udp.h:43-45 | sets the frame number and nothing else |
| Udp.UdpStream.ClearFailed | common/network/Udp.cxx:163-165 | clears the failure flag and nothing else |
| Udp.UdpStream.Flush | common/network/Udp.cxx:138-152 | the total grows by the buffered length modulo 2^64; with a client the id, the datagrams sent and the flag follow udpsend, the flag staying set once set; without one nothing is sent; the buffer is empty afterwards in every case |
| Blacklist.BumpedAfter | common/network/Blacklist.cxx:75-77 | after m failures of an address with no recorded failure, the next failure brings its count to m + 1 |
| Udp.DivStep | common/network/Udp.cxx:103 | taking udpSize bytes off a message of at least udpSize lowers len / udpSize by one and keeps len % udpSize |
| KasmPasswd.RenderStep | unix/kasmvncpasswd/kasmpasswd.c:96-106 | writing one more entry moves its line (none for an empty user) from the rest of the text to the text written so far |
| WsQuery.PutByte | common/network/websocket.c:165-184 | the byte is stored after the ones already written and every other byte of the buffer is unchanged |
| WsQuery.HexPair | common/network/websocket.c:176-199 | the two upper-case digits written for a byte are read back by strtol as that byte |
| TightQoi.SizeFits | common/rfb/TightQOIEncoder.cxx:50-62 | past the guard the pixel count is below QOI_PIXELS_MAX and max_size = w*h*4 + 14 + 8 fits an int |
| TightQoi.RowsLength | common/rfb/TightQOIEncoder.cxx:92-93 | the rows from y on hold (h - y) * w pixels |
| TightQoi.PixelIndex | common/rfb/TightQOIEncoder.cxx:92-101 | the pixel at scan position y*w + x is the source pixel at y*stride + x, with red and blue exchanged for a non-RGB format |
| TightQoi.OpFor | common/rfb/TightQOIEncoder.cxx:115-140 | the operation for a changed pixel is one to four bytes (DIFF, LUMA or RGB) |
| TightQoi.Step | common/rfb/TightQOIEncoder.cxx:103-142 | one pixel writes at most five bytes and leaves a pending run below 62, none after the last pixel |
| TightQoi.EncodedBound | common/rfb/TightQOIEncoder.cxx:92-144 | each pixel costs at most four bytes of body, a pending run one more |
| TightQoi.ImageFits | common/rfb/TightQOIEncoder.cxx:60-62 | the whole image is at most max_size bytes, so the writes stay inside the allocation |
| TightQoi.ImageLength | common/rfb/TightQOIEncoder.cxx:60-62 | for an accepted rectangle the image length fits the int *out_len |
| TightQoi.OpDecodes | common/rfb/TightQOIEncoder.cxx:115-140 | the DIFF, LUMA or RGB operation chosen for a changed pixel decodes, from the previous colour, to the new pixel's colour |
| TightQoi.DecodeFlush | common/rfb/TightQOIEncoder.cxx:110-113 | a pending run flushed before a changed pixel decodes to that many copies of the previous colour |
| TightQoi.StepDecodes | common/rfb/TightQOIEncoder.cxx:103-142 | what one pixel writes, followed by the rest, decodes to the pending run, the pixel's colour (when not folded into a run) and the rest |
| TightQoi.EncodedDecodes | common/rfb/TightQOIEncoder.cxx:92-144 | the operations written for a pixel sequence decode to the pending run followed by the pixels' colours |
| TightQoi.ImageDecodes | common/rfb/TightQOIEncoder.cxx:81-144 | the image body decodes from the initial black to the rectangle's colours in scan order |
| TightQoi.Put | common/rfb/TightQOIEncoder.cxx:146-148 | writes the bytes at p and keeps the bytes before p |
| TightQoi.EmitOp | common/rfb/TightQOIEncoder.cxx:115-140 | writes exactly the operation OpFor chooses, after the bytes already written |
| TightQoi.EmitPixel | common/rfb/TightQOIEncoder.cxx:96-142 | writes what Step gives for the pixel and returns Step's new run |
| TightQoi.EncodeRow | common/rfb/TightQOIEncoder.cxx:93-143 | one row leaves the bytes written equal to the image up to the encoding of the remaining rows |
| TightQoi.QoiEncodeKasm | common/rfb/TightQOIEncoder.cxx:41-152 | returns NULL exactly for the rejected descriptions; otherwise the header, the body and the padding of QoiImage |
| TightQoi.CompactRoundTrip | common/rfb/TightQOIEncoder.cxx:256-274 | a length below 2^22 is read back whole from one to three bytes, whatever follows |
| TightQoi.CompactTruncates | common/rfb/TightQOIEncoder.cxx:256-274 | a length of 2^22 or more reads back as its low 22 bits |
| TightQoi.WriteCompact | common/rfb/TightQOIEncoder.cxx:256-274 | appends the compact form of the value to the stream |
| TightQoi.WriteOnly | common/rfb/TightQOIEncoder.cxx:203-213 | appends the subencoding byte, the compact length and the encoded bytes |
| TightQoi.CompressOnly | common/rfb/TightQOIEncoder.cxx:175-201 | the rectangle as a four-channel linear QOI image; None exactly for an empty or oversized rectangle |
| TightQoi.WriteRect | common/rfb/TightQOIEncoder.cxx:215-245 | an accepted rectangle appends the subencoding byte, the compact image length (which fits an int) and the image; a rejected one appends nothing |
| TightQoi.RectReadsBack | common/rfb/TightQOIEncoder.cxx:215-245 | a written rectangle whose image is below 2^22 bytes reads back: its length from the compact code, its colours from the body |
| TightQoi.IsSupported | common/rfb/TightQOIEncoder.cxx:163-173 | true exactly when the client supports both Tight and QOI |
| TightWebp.ConfOrdered | common/rfb/TightWEBPEncoder.cxx:69-80 | the ten-level table uses method 0 throughout and strictly increasing qualities up to 100 |
| TightWebp.CompressSettings | common/rfb/TightWEBPEncoder.cxx:132-147 | video mode takes quality 3 method 0 for WebpVideoQuality -1 and the table entry otherwise; outside video mode levels 0..9 take the table entry and higher levels quality 8 method 0 |
| TightWebp.VideoIgnoresClient | common/rfb/TightWEBPEncoder.cxx:132-140 | in video mode the client's quality level does not change the setting |
| TightWebp.RectSettings | common/rfb/TightWEBPEncoder.cxx:212-218 | writeRect takes the table entry for a stored level in 0..9 and quality 8 method 0 for any other level |
| TightWebp.PathsAgree | common/rfb/TightWEBPEncoder.cxx:141-147 | for an unsigned level, compressOnly outside video mode and writeRect choose the same setting |
| TightWebp.IsSupported | common/rfb/TightWEBPEncoder.cxx:93-103 | true exactly when the client supports both Tight and WebP |
| TightWebp.Encoder.constructor | common/rfb/TightWEBPEncoder.cxx:83-87 | a new encoder's quality level is -1 |
| TightWebp.Encoder.SetQualityLevel | common/rfb/TightWEBPEncoder.cxx:105-108 | stores the level |
| TightWebp.Encoder.SetFineQualityLevel | common/rfb/TightWEBPEncoder.cxx:110-113 | the fine quality level and subsampling are ignored: the encoder is unchanged |
| TightWebp.Encoder.TreatLossless | common/rfb/TightWEBPEncoder.cxx:115-118 | a rectangle is treated as lossless exactly when the TreatLossless setting is at most the stored quality level |
| TightWebp.Encoder.NewIsLossy | common/rfb/TightWEBPEncoder.cxx:115-118 | a new encoder is not treated as lossless for any TreatLossless setting in 0..10 |
| TightWebp.Encoder.OffMeansNever | common/rfb/TightWEBPEncoder.cxx:115-118 | with TreatLossless at 10 no client level 0..9 is treated as lossless |
| TightWebp.Encoder.CompressOnly | common/rfb/TightWEBPEncoder.cxx:120-185 | the setting given to WebP is CompressSettings of the inputs and the output is the WebP bytes |
| TightWebp.Encoder.WriteCompact | common/rfb/TightWEBPEncoder.cxx:317-335 | appends the same compact form as the QOI encoder's writeCompact |
| TightWebp.Encoder.WriteOnly | common/rfb/TightWEBPEncoder.cxx:187-197 | appends the subencoding byte, the compact length of the byte count cut to 32 bits, and the bytes |
| TightWebp.Encoder.WriteRect | common/rfb/TightWEBPEncoder.cxx:199-260 | the setting is RectSettings of the stored level, and the stream gets the subencoding byte, the compact length and the WebP bytes |
| TightWebp.FrameReadsBack | common/rfb/TightWEBPEncoder.cxx:187-197 | a frame with fewer than 2^22 payload bytes reads back its length and its payload |
| EncCache.SourceLessNotAsymmetric | common/rfb/EncCache.h:38-44 | the comparator as written holds both ways for the keys (type 0, x 1) and (type 1, x 0), so it is not the strict weak ordering std::map requires |
| EncCache.SourceEquivalence | common/rfb/EncCache.h:38-44 | two keys neither of which is less than the other under the comparator agree in type, x, y, w and h |
| EncCache.LessIsStrictTotal | common/rfb/EncCache.h:38-44 | the lexicographic order on (type, x, y, w, h) is irreflexive, asymmetric, transitive and total |
| EncCache.Added | common/rfb/EncCache.cxx:40-53 | after add the key holds the new data; a new key takes the given length, an existing key keeps its first; every other entry is unchanged and no other key appears |
| EncCache.GetAfterAdd | common/rfb/EncCache.cxx:40-72 | get after add returns the added data with the recorded length; other keys answer as before |
| EncCache.ReAddKeepsLength | common/rfb/EncCache.cxx:52 | a second add under a key keeps the length of the first add and takes the new data |
| EncCache.LenNotInKey | common/rfb/EncCache.cxx:55-66 | the length passed to get does not take part in the lookup |
| EncCache.Cache.constructor | common/rfb/EncCache.cxx:25-27 | a new cache is disabled and empty |
| EncCache.Cache.Clear | common/rfb/EncCache.cxx:32-38 | leaves no entry and keeps the enabled flag |
| EncCache.Cache.Add | common/rfb/EncCache.cxx:40-53 | the entries become Added of the old entries |
| EncCache.Cache.Get | common/rfb/EncCache.cxx:55-72 | returns the stored data and sets len to the recorded length; for an absent key returns NULL and leaves len as it was |
| CompareTracker.NpowOfPow | common/rfb/ComparingUpdateTracker.cxx:45-47 | npow of a power of two of 2 or more is the input |
| CompareTracker.NpowAbove | common/rfb/ComparingUpdateTracker.cxx:45-56 | below 2^31, npow of any other value is the smallest power of two above it: one bit set, greater than the input, half of it not (so npow(0) = 1 and npow(1) = 2) |
| CompareTracker.NpowWraps | common/rfb/ComparingUpdateTracker.cxx:49-55 | a non-power from 2^31 on smears to all ones and npow wraps to 0 |
| CompareTracker.Ffs | common/rfb/ComparingUpdateTracker.cxx:58-60 | the ffs count is 0 exactly for 0 |
| CompareTracker.Pow2Shift | common/rfb/ComparingUpdateTracker.cxx:58-60 | pow2shift is ffs minus one, which is 0xFFFFFFFF for 0 |
| CompareTracker.Pow2ShiftBack | common/rfb/ComparingUpdateTracker.cxx:38-60 | for a value ispow accepts, 1 << pow2shift(p) == p, with a shift of at least 1 |
| CompareTracker.TryMerged | common/rfb/ComparingUpdateTracker.cxx:783-821 | when the block continues the last copy, only that copy changes, growing 64 pixels to the right; otherwise the list is the compacted list followed by the block |
| CompareTracker.Compacted | common/rfb/ComparingUpdateTracker.cxx:802-815 | the last two copies become one exactly when they are stacked with equal x-extents and contiguous sources |
| CompareTracker.TryMergedMaps | common/rfb/ComparingUpdateTracker.cxx:783-821 | for a 64-pixel block, the copies after tryMerge send a pixel from a source pixel exactly when the copies before did or the found block does |
| CompareTracker.CompactedMaps | common/rfb/ComparingUpdateTracker.cxx:802-815 | the vertical merge keeps every pixel-to-source pair of the list and adds none |
| CompareTracker.ExtendedMaps | common/rfb/ComparingUpdateTracker.cxx:788-797 | the grown copy sends exactly what the old copy and the block did |
| CompareTracker.StackedMaps | common/rfb/ComparingUpdateTracker.cxx:806-813 | the merged copy sends exactly what the two stacked copies did |
| CompareTracker.TryMergedArea | common/rfb/ComparingUpdateTracker.cxx:783-821 | tryMerge keeps the copies well formed, and their total area grows by 64 times the block's line count |
| CompareTracker.CompactedArea | common/rfb/ComparingUpdateTracker.cxx:802-815 | the vertical merge keeps the copies well formed and keeps the total area |
| CompareTracker.ExtendedArea | common/rfb/ComparingUpdateTracker.cxx:788-797 | growing the last copy adds 64 times the line count to the area |
| CompareTracker.Tracker.constructor | common/rfb/ComparingUpdateTracker.cxx:673-683 | a new tracker is enabled, awaits its first compare, and counts the whole frame as changed |
| CompareTracker.Tracker.Enable | common/rfb/ComparingUpdateTracker.cxx:770-773 | sets enabled and changes nothing else |
| CompareTracker.Tracker.Disable | common/rfb/ComparingUpdateTracker.cxx:775-781 | clears enabled and sets firstCompare |
| CompareTracker.Tracker.Compare | common/rfb/ComparingUpdateTracker.cxx:693-768 | false while disabled; false on the first compare, which clears firstCompare; otherwise true exactly when the compared region differs from the changed region, which it becomes |
| CompareTracker.Tracker.TryMerge | common/rfb/ComparingUpdateTracker.cxx:783-821 | the copy list becomes TryMerged of the old list |
| EncodeManager.CeilStepsFormula | common/rfb/EncodeManager.cxx:651-652 | the number of sw-wide steps that cover n ≥ 1 is (n - 1) / sw + 1, the ceil formula of computeNumRects |
| EncodeManager.SplitCount | common/rfb/EncodeManager.cxx:1137-1172 | for a non-empty rectangle the splitting of writeRects makes exactly the number of sub-rectangles computeNumRects counts for it: 1 when it is sent whole, else ceil(w/sw)·ceil(h/sh) with sw = min(w, 2048) and sh = 65536 / sw |
| EncodeManager.CountAllSplit | common/rfb/EncodeManager.cxx:623-656 | over a list of non-empty rectangles, computeNumRects equals the number of sub-rectangles the splitting writes |
| EncodeManager.SplitTiles | common/rfb/EncodeManager.cxx:1144-1172 | a rectangle that is split becomes tiles that lie inside it, are not empty, at most 2048 wide and at most 65536 in area, come in row-major order without overlapping, and cover every pixel of it |
| EncodeManager.AnnouncedCountMismatch | common/rfb/EncodeManager.cxx:407-434 | two small changed rectangles in video mode without WebP: computeNumRects announces 2 while writeRects writes the single whole-screen rectangle |
| EncodeManager.AnnouncedCountMatches | common/rfb/EncodeManager.cxx:1130-1133 | counting the rectangles writeRects works on (the whole screen in video mode) gives exactly the number of sub-rectangles written |
| EncodeManager.DefaultChains | common/rfb/EncodeManager.cxx:532-538 | without a preferred encoding of its own, indexedRLE and bitmap take the indexed encoder and bitmapRLE takes bitmap's |
| EncodeManager.SolidOrder | common/rfb/EncodeManager.cxx:540-549 | unless grey is forced, the solid encoder is the first supported of Tight, RRE, ZRLE, Hextile, and Raw only when none is |
| EncodeManager.TightFullColour | common/rfb/EncodeManager.cxx:481-495 | with Tight preferred the four palette slots are Tight and full colour goes to QOI (16 bpp and up), else WebP, else JPEG (both only when lossy is allowed), else Tight |
| EncodeManager.GreyAllJpeg | common/rfb/EncodeManager.cxx:551-556 | grey subsampling with JPEG supported and lossy allowed gives every slot to TightJPEG |
| EncodeManager.LosslessSlots | common/rfb/EncodeManager.cxx:458-556 | when lossy encoding is not allowed no slot holds TightJPEG or TightWEBP |
| EncodeManager.SlotsSupported | common/rfb/EncodeManager.cxx:470-549 | when the preferred encoding's encoder is supported, every slot holds a supported encoder or Raw |
| EncodeManager.TypeOf | common/rfb/EncodeManager.cxx:1320-1349 | palette size 0 gives full colour, 1 solid, 2 bitmap and 3 or more indexed, the RLE variant exactly when rleRuns ≤ 2·area; a scaled buffer or a QOI client always gets full colour |
| EncodeManager.FirstMatch | common/rfb/EncodeManager.cxx:1696-1706 | the index found is the first tracked entry the rectangle matches (enclosure either way, or closeEnough: top-left within 32 and area within 4096 of the union); None exactly when no entry matches |
| EncodeManager.TrackEffect | common/rfb/EncodeManager.cxx:1690-1725 | tracking changes only the first matching entry: seen now, score + 32, the larger of the two rectangles; with no match a new entry with score 0 is appended |
| EncodeManager.TrackThenFind | common/rfb/EncodeManager.cxx:1690-1753 | right after tracking a rectangle, looking it up finds the entry just tracked, so getQuality's not-found branch is not taken for it |
| EncodeManager.UpdatedKeepsFresh | common/rfb/EncodeManager.cxx:1659-1675 | updateQualities keeps exactly the entries seen within 5000 ms, each with its score decayed, and never grows the list |
| EncodeManager.DecayBounds | common/rfb/EncodeManager.cxx:1671 | a kept score loses score/16: it stays between 15/16 of the old score and the old score, and a score below 16 is unchanged |
| EncodeManager.Quality | common/rfb/EncodeManager.cxx:1728-1754 | getQuality is 128 less the first matching entry's score capped at 128, and 128 when no entry matches |
| EncodeManager.RetrackLowersQuality | common/rfb/EncodeManager.cxx:1713-1748 | tracking an already tracked rectangle again lowers its quality by 32, down to 0 |
| EncodeManager.ScaledNoWrap | common/rfb/EncodeManager.cxx:1758-1778 | for min and min+off within 0..9 the unsigned arithmetic does not wrap: the result is (q·off + 64)/128 + min, raised to 7 when bandwidth is not preferred and the update may exceed 2000 |
| EncodeManager.ScaledRange | common/rfb/EncodeManager.cxx:1758-1778 | in that range the scaled quality lies in min..min+off, or is the raised 7 |
| EncodeManager.ScaledEnds | common/rfb/EncodeManager.cxx:1764-1768 | quality 128 scales to min+off and quality 0 to min |
| EncodeManager.ScaledMonotone | common/rfb/EncodeManager.cxx:1758-1778 | a higher tracked quality never scales lower |
| EncodeManager.MaxVideoRes | common/rfb/EncodeManager.cxx:151-161 | both dimensions are even and within 16..2048; the values rounded down to even are kept exactly when both are in that range, else 1920x1080 |
| EncodeManager.MaxVideoResIdempotent | common/rfb/EncodeManager.cxx:151-161 | applying the rule to its own result changes nothing |
| EncodeManager.Manager.constructor | common/rfb/EncodeManager.cxx:163-196 | a new manager starts in video mode only when VideoTime is 0, tracks nothing, has every slot Raw and the maximum video resolution from updateMaxVideoRes |
| EncodeManager.Manager.UpdateMaxVideoRes | common/rfb/EncodeManager.cxx:151-161 | maxVideoX and maxVideoY become MaxVideoRes of what sscanf left; nothing else changes |
| EncodeManager.Manager.PrepareEncoders | common/rfb/EncodeManager.cxx:458-563 | the active encoders become Prepared of the preferred encoding, the supported encoders, the pixel depth, allowLossy and grey subsampling |
| EncodeManager.Manager.ComputeNumRects | common/rfb/EncodeManager.cxx:623-656 | the loop's sum is CountAll of the rectangles in the current video mode |
| EncodeManager.Manager.TrackRectQuality | common/rfb/EncodeManager.cxx:1690-1725 | the quality list becomes Track of the old list, the rectangle and the time |
| EncodeManager.Manager.UpdateQualities | common/rfb/EncodeManager.cxx:1659-1675 | the quality list becomes Updated of the old list at the time given |
| EncodeManager.Manager.GetQuality | common/rfb/EncodeManager.cxx:1728-1754 | the loop returns Quality of the list and the rectangle |
| EncodeManager.Manager.SplitRow | common/rfb/EncodeManager.cxx:1164-1171 | one band's loop makes the band's tiles left to right and tracks each in order |
| EncodeManager.Manager.SplitLarge | common/rfb/EncodeManager.cxx:1152-1172 | the nested loops make the rectangle's bands top to bottom and track every tile in order |
| EncodeManager.Manager.SplitOne | common/rfb/EncodeManager.cxx:1141-1172 | one rectangle gives Split of it (whole, or its tiles), every piece tracked |
| EncodeManager.Manager.SplitRects | common/rfb/EncodeManager.cxx:1130-1173 | writeRects' splitting gives SplitAll of the rectangles it works on (the whole screen in video mode) and tracks every sub-rectangle in order |
| VncServerSt.StrToL | common/rfb/VNCServerST.cxx:96 | strtol's end index is the start when nothing was converted (and the value is then 0), otherwise past the start and within the string |
| VncServerSt.StrToLAt | common/rfb/VNCServerST.cxx:96 | a value written in decimal, with a '-' when negative, and followed by a non-digit or the end, is read back by strtol exactly, ending just after its last digit |
| VncServerSt.ParseValue | common/rfb/VNCServerST.cxx:96-101 | a value is refused as invalid when the text is at its end or strtol converts nothing; otherwise the value, where it ends and whether a '%' follows |
| VncServerSt.ParsePart | common/rfb/VNCServerST.cxx:92-121 | a part read successfully moves past the value, and in percent form its value is in 0..100 |
| VncServerSt.ValueEnd | common/rfb/VNCServerST.cxx:92-121 | a value written with its '%' mark (or none) and then one comma (or nothing) reads back as that value and mark, and the comma loop stops at the next value |
| VncServerSt.CountCommas | common/rfb/VNCServerST.cxx:145-148 | the loop counts the commas of the setting |
| VncServerSt.RegionOf | common/rfb/VNCServerST.cxx:136-192 | an empty setting leaves the region disabled, and only an empty one does; a setting without exactly three commas is refused; an accepted region has the second to fourth percentages in 0..100, the pc fields set from the values (the first cut to 16 bits), and in absolute form x2 after x1 and y2 after y1 whenever both are positive |
| VncServerSt.RegionFromValues | common/rfb/VNCServerST.cxx:136-192 | for a setting whose four values read as a, b, c, d with their marks: uniform marks, percentages of the last three in 0..100 and ordered absolute coordinates give exactly that region; mixed marks, a percentage out of range, or absolute coordinates out of order are refused |
| VncServerSt.Clamp | common/rfb/VNCServerST.cxx:859-862 | an x2 beyond the width becomes width - 1 and a y2 beyond the height height - 1; x1, y1 and the bounds within the framebuffer are kept |
| VncServerSt.Translate | common/rfb/VNCServerST.cxx:835-865 | the translated x2 and y2 never pass the framebuffer's width and height |
| VncServerSt.NearAxis | common/rfb/VNCServerST.cxx:838-839 | the near edge in percent form is p * size / 100, within 0..size, for p in 0..100 |
| VncServerSt.FarAxis | common/rfb/VNCServerST.cxx:840-841 | the far edge in percent form is (100 - p) * size / 100, or the size when p is 0, within 0..size |
| VncServerSt.AxisOrder | common/rfb/VNCServerST.cxx:838-841 | the near edge is at most the far one when the two percentages add up to at most 100 |
| VncServerSt.PercentTranslate | common/rfb/VNCServerST.cxx:837-841 | with every percentage in 0..100 the translated bounds are the percentages of the width and height, inside the framebuffer, and ordered when the two percentages of an axis leave something between them |
| VncServerSt.AbsFarAxis | common/rfb/VNCServerST.cxx:844-855 | the far edge in absolute form counts back from the size when negative, is the value when positive and the size when zero; a negative value past the other side wraps beyond the size |
| VncServerSt.AbsoluteTranslate | common/rfb/VNCServerST.cxx:842-862 | absolute form: x1 is abs(x1), x2 counts from the right edge when negative, is taken as it is when positive, is the width when zero, and becomes width - 1 beyond the width; likewise for y |
| VncServerSt.AbsoluteOvershoot | common/rfb/VNCServerST.cxx:849-862 | a negative x2 reaching past the left edge wraps in the 16-bit variable and ends at width - 1 |
| VncServerSt.FirstPercentUnchecked | common/rfb/VNCServerST.cxx:164-169 | "150%,0%,0%,0%" is accepted with a first percentage of 150, and on a 100 x 100 framebuffer the region then starts at x1 = 150, beyond x2 = 100 |
| VncServerSt.CheckedRegionOf | common/rfb/VNCServerST.cxx:164-169 | with the first percentage checked too, every accepted setting is one the code accepts, and every refusal of the code is kept |
| VncServerSt.CheckedRefusesWide | common/rfb/VNCServerST.cxx:164-169 | with the check, "150%,0%,0%,0%" is refused as a percentage out of range |
| VncServerSt.CheckedRegionInside | common/rfb/VNCServerST.cxx:835-865 | with the check, a region in percent form translates to bounds inside the framebuffer, ordered on each axis whose two percentages add up to at most 100 |
| VncServerSt.Server.constructor | common/rfb/VNCServerST.cxx:123-136 | a new server has no block, no frame clock, the LED state unknown, no clipboard owner and no requestors |
| VncServerSt.Server.StartFrameClock | common/rfb/VNCServerST.cxx:739-752 | nothing changes when the clock runs, updates are blocked or the desktop has not started; otherwise the clock starts with half a frame period; the block invariant is kept |
| VncServerSt.Server.StopFrameClock | common/rfb/VNCServerST.cxx:754-757 | the clock stops and nothing else changes |
| VncServerSt.Server.BlockUpdates | common/rfb/VNCServerST.cxx:403-408 | one more block is held and the clock is stopped |
| VncServerSt.Server.UnblockUpdates | common/rfb/VNCServerST.cxx:410-421 | one block fewer; the clock runs afterwards exactly when no block is left, changes are pending and the desktop has started |
| VncServerSt.Server.GetComparerState | common/rfb/VNCServerST.cxx:1070-1084 | false for CompareFB 0, true for any value other than 2, and for 2 true exactly when some client wants comparison |
| VncServerSt.Server.SetLEDState | common/rfb/VNCServerST.cxx:612-625 | an unchanged state tells no client; otherwise the state is stored and every client is told, in order |
| VncServerSt.Server.HandleClipboardRequest | common/rfb/VNCServerST.cxx:1086-1091 | the requestor is queued at the end, and the desktop is asked only when it is the only outstanding request |
| VncServerSt.Server.HandleClipboardAnnounce | common/rfb/VNCServerST.cxx:1093-1105 | data available makes the client the owner; a withdrawal clears the owner only when it comes from the owner, and otherwise the desktop is not told |
| VncServerSt.Server.HandleClipboardData | common/rfb/VNCServerST.cxx:1107-1112 | data reaches the desktop only from the owner |
| VncServerSt.Announced | common/rfb/VNCServerST.cxx:1093-1105 | the owner after one announcement: the announcer when it has data, none after the owner's withdrawal, unchanged otherwise |
| VncServerSt.OwnerIsLastAnnouncer | common/rfb/VNCServerST.cxx:1093-1105 | after a run of announcements a client owns the clipboard exactly when it announced data and afterwards no one announced data and it did not withdraw |
| VncsConnectionSt.CoveredIff | common/rfb/VNCSConnectionST.h:135-140 | a pixel is in the union the loop builds exactly when some incoming rectangle holds it |
| VncsConnectionSt.Connection.AddCopypassed | common/rfb/VNCSConnectionST.h:122-146 | an empty list takes the incoming one and the changed region stays; a non-empty list is kept and the union of the incoming rectangles joins the changed region; afterwards the connection has copy-passed rectangles exactly when it had some before or some came in |
| VncsConnectionSt.Connection.HasCopypassed | common/rfb/VNCSConnectionST.h:148-150 | true exactly when the copy-pass list is not empty |
| VncsConnectionSt.Connection.constructor | common/rfb/VNCSConnectionST.h:43 | a new connection holds the given rights, no copy-pass list, no changed pixels and no pending permission re-check |
| VncsConnectionSt.Connection.AddChanged | common/rfb/VNCSConnectionST.h:117 | the region joins the changed region and nothing else changes |
| VncsConnectionSt.Connection.RecheckPerms | common/rfb/VNCSConnectionST.h:112-114 | a permission re-check is pending afterwards, nothing else changes |
| VncsConnectionSt.Connection.SetAccessRights | common/rfb/VNCSConnectionST.h:204-211 | the rights become the given ones less the writer rights when the lookup fails or denies writing, and no re-check is pending |
| VncsConnectionSt.Granted | common/rfb/VNCSConnectionST.h:204-211 | the rights kept are a subset of those given, hold no writer right when writing is not allowed, and are all of them when it is |
| VncsConnectionSt.DeniedCannotChangeSettings | common/rfb/VNCSConnectionST.h:195-211 | canChangeKasmSettings needs both the pointer and the key right, so a connection denied writing cannot change Kasm settings when either is a writer right; one allowed to write can exactly when its given rights allow it |
| VncsConnectionSt.CanChangeKasmSettings | common/rfb/VNCSConnectionST.h:195-198 | a client may change Kasm settings exactly when it holds both the pointer-event and the key-event right |
| ConnParams.KnobOfRange | common/rfb/ConnParams.cxx:268-345 | the pseudo-encoding ranges checked one after another are disjoint, so an entry selects the knob whose range holds it and no other |
| ConnParams.FlagsLevel | common/rfb/ConnParams.cxx:254-260 | the flag tests change a level only through the bandwidth preset, and only when the Kasm extensions are allowed |
| ConnParams.RangesLevel | common/rfb/ConnParams.cxx:268-345 | the range tests set a knob exactly when the entry falls in its range, the knob is allowed, and its parameter accepts the value; otherwise the level is kept |
| ConnParams.UnsetLevelKept | common/rfb/ConnParams.cxx:153-155 | a compression, quality or fine-quality level that no entry of the list names keeps the value it had before the list was read |
| ConnParams.PresetLevel | common/rfb/ServerCore.cxx:290-294 | bandwidthPreset touches only Kasm parameters, with values their declared bounds accept |
| ConnParams.ApplyPreset | common/rfb/ServerCore.cxx:290-299 | DynamicQualityMin, DynamicQualityMax and TreatLossless become 2, 9 and 8; every other Kasm parameter keeps its value |
| ConnParams.StepLevel | common/rfb/ConnParams.cxx:254-345 | one entry sets DynamicQualityMin, DynamicQualityMax and TreatLossless to 2, 9 and 8 when it is PreferBandwidth and clients may change settings (bandwidthPreset); otherwise it sets a knob to its offset from the range start (plus 1 for video area and out-time, 10 for frame rate) exactly when it lies in the knob's range, the parameter's declared bounds accept that level and, for a Kasm knob, clients may change settings; otherwise the knob keeps its value |
| ConnParams.EarliestLevelWins | common/rfb/ConnParams.cxx:254-345 | since the list is processed from the last entry to the first, each knob ends at the value of the EARLIEST entry that writes it: an accepted entry of its range (CompressLevel0..9 give 0..9) or, for the preset's three knobs, an earlier PreferBandwidth; it keeps its value when no entry writes it |
| ConnParams.KnobStaysDeclared | common/rfb/ServerCore.cxx:130-260 | a knob holding a value its declared bounds accept still does after any list: refused levels are not stored and the preset's lie inside the bounds |
| ConnParams.EarliestSubsamplingWins | common/rfb/ConnParams.cxx:236-253 | the subsampling is that of the earliest subsampling entry, or unchanged when there is none |
| ConnParams.CapsOfList | common/rfb/ConnParams.cxx:162-235 | a capability is on after the loop exactly when it was on before or some entry of the list announces it |
| ConnParams.StepFacts | common/rfb/ConnParams.cxx:164-266 | one pass of the loop sets copy-rect for the CopyRect entry, the announced capability, the subsampling, the two Kasm flags when allowed, and adds a positive entry to encodings_ |
| ConnParams.EncodingsOfList | common/rfb/ConnParams.cxx:398-399 | the loop adds exactly the positive entries to encodings_ |
| ConnParams.CopyRectOfList | common/rfb/ConnParams.cxx:164-167 | copy-rect is on after the loop exactly when it was, or the list holds the CopyRect encoding |
| ConnParams.PreferBandwidthOfList | common/rfb/ConnParams.cxx:254-261 | preferBandwidth is set exactly when clients may change settings and the list names it |
| ConnParams.MaxVideoResOfList | common/rfb/ConnParams.cxx:262-265 | the maximum video resolution is marked as passed by the client exactly when clients may change settings and the list names it |
| ConnParams.NegotiateEncodings | common/rfb/ConnParams.cxx:398-406 | after setEncodings, encodings_ is Raw plus the positive entries, and copy-rect is used exactly when the list asks for it, QOI is not supported and no watermark image is set |
| ConnParams.NegotiateCaps | common/rfb/ConnParams.cxx:140-235 | after setEncodings a resettable capability is on exactly when this list announces it; cursor position, desktop rename, LED state, fence, continuous updates and extended clipboard also stay on from before |
| ConnParams.NegotiateDefaults | common/rfb/ConnParams.cxx:153-156 | compression, quality and fine quality are -1 and the subsampling undefined when no entry of the list lies in their range, whatever they were before |
| ConnParams.NegotiateKasmIgnored | common/rfb/ConnParams.cxx:254-392 | when IgnoreClientSettingsKasm is on or the client may not change settings, no Kasm video parameter, preferBandwidth or the max-video-resolution mark is touched |
| ConnParams.NegotiateKasmApplied | common/rfb/ConnParams.cxx:254-345 | when clients may change settings, each Kasm video parameter takes the value of the earliest entry that writes it (an in-bounds entry of its range, or PreferBandwidth for DynamicQualityMin/Max and TreatLossless), and preferBandwidth is set when the list names it |
| ConnParams.PresetOverridesLaterLevel | common/rfb/ConnParams.cxx:254-312 | PreferBandwidth sent before a DynamicQualityMin entry wins: DynamicQualityMin ends at 2, DynamicQualityMax at 9 and TreatLossless at 8 |
| ConnParams.RefusedLevelKept | common/rfb/ConnParams.cxx:320-345 | VideoArea's last entry (level 101) and VideoScaling levels 3..9 are refused by the parameters' bounds and leave them as they were |
| ConnParams.FirstOfTwoWins | common/rfb/ConnParams.cxx:268-272 | of two compress-level entries, the first one sent decides the level |
| ConnParams.VMwareCursorIsListed | common/rfb/ConnParams.cxx:180-183 | the VMware cursor pseudo-encoding is a positive number, so it both switches its capability on and lands in encodings_ |
| ConnParams.ScanVersion | common/rfb/ConnParams.cxx:96-97 | the scan of "RFB %03d.%03d\n" stores a minor version only when it also stores a major one |
| ConnParams.VersionRoundTrip | common/rfb/ConnParams.cxx:84-106 | the twelve bytes writeVersion sends scan back to the same major and minor version, for every version 0..999 |
| ConnParams.NotRfbRefused | common/rfb/ConnParams.cxx:96-97 | twelve bytes that do not start with "RFB" are refused and neither version is stored |
| ConnParams.HttpRefused | common/rfb/ConnParams.cxx:96-97 | an HTTP request line sent to the RFB port is refused |
| ConnParams.RankOrdered | common/rfb/ConnParams.cxx:420-425 | each set flag bit takes its own length, in bit order, within the lengths the caller supplies for the set bits |
| ConnParams.ConnParams.constructor | common/rfb/ConnParams.cxx:49-71 | version 0.0, nothing supported, compression 2, quality, fine quality and subsampling undefined, LED state unknown, the default clipboard flags and 20 MiB for UTF-8 text with the other sizes 0 |
| ConnParams.ConnParams.ReadVersion | common/rfb/ConnParams.cxx:84-98 | false without touching done once twelve bytes were held; otherwise the available bytes are taken up to twelve; with fewer it answers true and not done, at twelve it is done and answers whether the scan found both versions, storing them as sscanf does |
| ConnParams.ConnParams.TakeVersionBytes | common/rfb/ConnParams.cxx:86-88 | the loop takes min(available, 12 - held) bytes, appended in order |
| ConnParams.ConnParams.ScanStoredVersion | common/rfb/ConnParams.cxx:96-97 | the major version is stored when the first conversion succeeds, the minor one when both do, and the answer is whether both did |
| ConnParams.ConnParams.WriteVersion | common/rfb/ConnParams.cxx:100-106 | the stream gets the twelve bytes "RFB xxx.yyy\n" of the current version |
| ConnParams.ConnParams.SetPF | common/rfb/ConnParams.cxx:108-114 | the format is stored, and the call fails exactly when it has not 8, 16 or 32 bits per pixel |
| ConnParams.ConnParams.SetLEDState | common/rfb/ConnParams.cxx:408-411 | the LED state is stored and nothing else changes |
| ConnParams.ConnParams.SetEncodings | common/rfb/ConnParams.cxx:138-406 | the fields and the Kasm parameters set are those of the reset followed by the list from last to first (preset included, out-of-bounds levels refused), with copy-rect then turned off under QOI or a watermark image; supportsEncoding then holds exactly for Raw and the positive entries |
| ConnParams.ConnParams.SupportsEncoding | common/rfb/ConnParams.cxx:133-136 | true exactly when the encoding is in encodings_; after setEncodings (SetEncodings) that is Raw and the positive entries of the client's list |
| ConnParams.ConnParams.ApplySwitch | common/rfb/ConnParams.cxx:163-266 | one pass of the switch and the insertion into encodings_; PreferBandwidth, when clients may change settings, sets the flag and runs bandwidthPreset on the Kasm parameters |
| ConnParams.ConnParams.ApplyRanges | common/rfb/ConnParams.cxx:268-392 | one pass of the range tests; the Kasm ones only when clients may change settings, and only for a level the parameter's declared bounds accept |
| ConnParams.ConnParams.SetClipboardCaps | common/rfb/ConnParams.cxx:413-426 | the flags are stored; for each set bit 0..15 the size becomes the next length in order, the other sizes stay |
| ConnParams.ConnParams.AssignClipSizes | common/rfb/ConnParams.cxx:419-425 | the loop leaves each set bit's size as the length of its rank among the set bits |
| SMsgReader.ClientInitAt | common/rfb/SMsgReader.cxx:48-52 | ClientInit reads one byte and shares the desktop when it is non-zero; fewer bytes end the stream |
| SMsgReader.SetPixelFormatAt | common/rfb/SMsgReader.cxx:118-124 | three padding bytes and a 16-byte pixel format, 19 bytes in all, or the end of the stream |
| SMsgReader.SetEncodingsAt | common/rfb/SMsgReader.cxx:126-134 | padding, a 16-bit count and that many four-byte encodings read as signed values; nothing else fails |
| SMsgReader.SetDesktopSizeAt | common/rfb/SMsgReader.cxx:136-164 | padding, width, height, a screen count, padding and 16 bytes per screen; nothing else fails |
| SMsgReader.SetMaxVideoResolutionAt | common/rfb/SMsgReader.cxx:166-181 | two 16-bit values; the setting is changed only when Kasm settings are not ignored and the client may change them, otherwise nothing happens |
| SMsgReader.FramebufferUpdateRequestAt | common/rfb/SMsgReader.cxx:183-191 | nine bytes: the incremental flag and x, y, w, h giving the rectangle (x, y)-(x+w, y+h) |
| SMsgReader.EnableContinuousUpdatesAt | common/rfb/SMsgReader.cxx:193-206 | nine bytes: the flag and the four 16-bit values, passed on |
| SMsgReader.FenceAt | common/rfb/SMsgReader.cxx:208-228 | a fence delivers at most 64 payload bytes; a longer payload is skipped and no fence is delivered |
| SMsgReader.RequestStatsAt | common/rfb/SMsgReader.cxx:311-315 | three padding bytes and a stats request |
| SMsgReader.FrameStatsAt | common/rfb/SMsgReader.cxx:317-323 | three padding bytes and two 32-bit counts, eleven bytes |
| SMsgReader.KeyEventAt | common/rfb/SMsgReader.cxx:230-236 | seven bytes; the key event always carries key code 0 |
| SMsgReader.PointerEventAt | common/rfb/SMsgReader.cxx:238-247 | ten bytes; the scroll values are signed 16-bit values |
| SMsgReader.ClientCutTextAt | common/rfb/SMsgReader.cxx:250-263 | the text is always skipped and nothing is delivered; the message is at least seven bytes |
| SMsgReader.BinaryClipboardAt | common/rfb/SMsgReader.cxx:265-301 | the announcement names exactly the entries given to the handler, each truncated to 31 bytes |
| SMsgReader.QemuKeyEventAt | common/rfb/SMsgReader.cxx:342-352 | a QEMU key event is delivered only with a non-zero key code, otherwise dropped |
| SMsgReader.QemuMessageAt | common/rfb/SMsgReader.cxx:330-340 | a QEMU submessage other than the extended key event is an error naming it |
| SMsgReader.UpgradeToUdpAt | common/rfb/SMsgReader.cxx:354-376 | an upgrade carries a request of 1 to 4095 bytes |
| SMsgReader.SubscribeUnixRelayAt | common/rfb/SMsgReader.cxx:378-391 | a subscription carries a name shorter than 64 bytes |
| SMsgReader.UnixRelayAt | common/rfb/SMsgReader.cxx:393-415 | a relay message delivered has a name shorter than 64 bytes and less than 1 MiB of data |
| SMsgReader.RelayDataAt | common/rfb/SMsgReader.cxx:405-414 | after the name: a 32-bit length and the data, delivered with the name below 1 MiB and skipped otherwise |
| SMsgReader.BodyAt | common/rfb/SMsgReader.cxx:57-110 | every message body read ends within the received bytes |
| SMsgReader.MsgAt | common/rfb/SMsgReader.cxx:54-116 | no bytes is the end of the stream; an unknown type byte is an error naming it; a message read ends within the received bytes |
| SMsgReader.ReadClientInit | common/rfb/SMsgReader.cxx:48-52 | the reader agrees with ClientInitAt, in result and position |
| SMsgReader.ReadPixelFormat | common/rfb/SMsgReader.cxx:120-122 | 16 bytes are read as a pixel format, or the stream ends |
| SMsgReader.ReadSetPixelFormat | common/rfb/SMsgReader.cxx:118-124 | the reader agrees with SetPixelFormatAt |
| SMsgReader.ReadSetEncodings | common/rfb/SMsgReader.cxx:126-134 | the loop reads the encodings EncodingsAt gives; the reader agrees with SetEncodingsAt |
| SMsgReader.ReadScreen | common/rfb/SMsgReader.cxx:153-158 | 16 bytes are read as a screen, or the stream ends |
| SMsgReader.ReadLayout | common/rfb/SMsgReader.cxx:152-161 | the loop reads the screens ScreensAt gives |
| SMsgReader.ReadSetDesktopSize | common/rfb/SMsgReader.cxx:136-164 | the reader agrees with SetDesktopSizeAt |
| SMsgReader.ReadSetMaxVideoResolution | common/rfb/SMsgReader.cxx:166-181 | the reader agrees with SetMaxVideoResolutionAt |
| SMsgReader.ReadFramebufferUpdateRequest | common/rfb/SMsgReader.cxx:183-191 | the reader agrees with FramebufferUpdateRequestAt |
| SMsgReader.ReadEnableContinuousUpdates | common/rfb/SMsgReader.cxx:193-206 | the reader agrees with EnableContinuousUpdatesAt |
| SMsgReader.ReadFence | common/rfb/SMsgReader.cxx:208-228 | the reader agrees with FenceAt |
| SMsgReader.ReadRequestStats | common/rfb/SMsgReader.cxx:311-315 | the reader agrees with RequestStatsAt |
| SMsgReader.ReadFrameStats | common/rfb/SMsgReader.cxx:317-323 | the reader agrees with FrameStatsAt |
| SMsgReader.ReadEntry | common/rfb/SMsgReader.cxx:273-287 | one entry is read as EntryAt gives it, or the stream ends |
| SMsgReader.EntryLoopStep | common/rfb/SMsgReader.cxx:273-297 | one turn of the entry loop adds the entry, delivered, unless it is refused, and its truncated name to the announcement |
| SMsgReader.EntriesEnd | common/rfb/SMsgReader.cxx:272-298 | once the stream has ended, reading more entries does not succeed |
| SMsgReader.ReadOneEntry | common/rfb/SMsgReader.cxx:273-297 | one turn of the loop keeps EntriesAt and the names announced in step |
| SMsgReader.ReadEntries | common/rfb/SMsgReader.cxx:272-298 | the loop gives the entries EntriesAt gives, with their names, or fails exactly when EntriesAt does |
| SMsgReader.ReadBinaryClipboard | common/rfb/SMsgReader.cxx:265-301 | the reader agrees with BinaryClipboardAt |
| SMsgReader.ReadKeyEvent | common/rfb/SMsgReader.cxx:230-236 | the reader agrees with KeyEventAt |
| SMsgReader.ReadPointerEvent | common/rfb/SMsgReader.cxx:238-247 | the reader agrees with PointerEventAt |
| SMsgReader.ReadClientCutText | common/rfb/SMsgReader.cxx:250-263 | the reader agrees with ClientCutTextAt |
| SMsgReader.ReadQemuKeyEvent | common/rfb/SMsgReader.cxx:342-352 | the reader agrees with QemuKeyEventAt |
| SMsgReader.ReadQemuMessage | common/rfb/SMsgReader.cxx:330-340 | the reader agrees with QemuMessageAt |
| SMsgReader.ReadUpgradeToUdp | common/rfb/SMsgReader.cxx:354-376 | the reader agrees with UpgradeToUdpAt |
| SMsgReader.ReadSubscribeUnixRelay | common/rfb/SMsgReader.cxx:378-391 | the reader agrees with SubscribeUnixRelayAt |
| SMsgReader.ReadUnixRelay | common/rfb/SMsgReader.cxx:393-415 | the reader agrees with UnixRelayAt |
| SMsgReader.ReadRelayData | common/rfb/SMsgReader.cxx:405-414 | the reader agrees with RelayDataAt |
| SMsgReader.ReadMsg | common/rfb/SMsgReader.cxx:54-116 | the reader agrees with MsgAt |
| SMsgReader.ReadBody | common/rfb/SMsgReader.cxx:57-112 | each case of the switch agrees with BodyAt |
| SMsgReader.MsgFrame | common/rfb/SMsgReader.cxx:54-112 | a message is its type byte followed by the body of the type the table gives it |
| SMsgReader.EncodingsRead | common/rfb/SMsgReader.cxx:129-131 | encodings written as four big-endian bytes each read back as the same signed values |
| SMsgReader.SetEncodingsReadBack | common/rfb/SMsgReader.cxx:126-134 | a SetEncodings body written by a client reads back as the same list, and all of it is consumed |
| SMsgReader.PixelFormatReadBack | common/rfb/SMsgReader.cxx:120-122 | a pixel format written in its 16-byte layout reads back as the same format |
| SMsgReader.SetPixelFormatReadBack | common/rfb/SMsgReader.cxx:118-124 | a SetPixelFormat body reads back as the same format and is consumed whole |
| SMsgReader.ScreenReadBack | common/rfb/SMsgReader.cxx:153-158 | a screen written in its 16-byte layout reads back as the same screen |
| SMsgReader.ScreensReadInTurn | common/rfb/SMsgReader.cxx:152-161 | screens read one after another, 16 bytes apart, form the layout in order |
| SMsgReader.ScreensReadBack | common/rfb/SMsgReader.cxx:152-161 | a layout written screen after screen reads back as the same layout |
| SMsgReader.SetDesktopSizeReadBack | common/rfb/SMsgReader.cxx:136-164 | a SetDesktopSize body reads back as the same size and layout and is consumed whole |
| SMsgReader.SetMaxVideoResolutionReadBack | common/rfb/SMsgReader.cxx:166-181 | a width and height set MaxVideoResolution to their "%ux%u" text when allowed, and are ignored otherwise; four bytes either way |
| SMsgReader.MaxVideoParamLayout | common/rfb/SMsgReader.cxx:175 | the text is the decimal width, an x and the decimal height |
| SMsgReader.EnableContinuousUpdatesReadBack | common/rfb/SMsgReader.cxx:193-206 | an EnableContinuousUpdates body reads back as the same flag and area |
| SMsgReader.FrameStatsReadBack | common/rfb/SMsgReader.cxx:317-323 | a FrameStats body reads back as the same two counts |
| SMsgReader.FramebufferUpdateRequestReadBack | common/rfb/SMsgReader.cxx:183-191 | an update request reads back as the rectangle (x, y)-(x+w, y+h) with the same flag |
| SMsgReader.KeyEventReadBack | common/rfb/SMsgReader.cxx:230-236 | a key event reads back as the same key and direction, key code 0 |
| SMsgReader.PointerEventReadBack | common/rfb/SMsgReader.cxx:238-247 | a pointer event reads back as the same position, button mask and signed scroll values |
| SMsgReader.FenceReadBack | common/rfb/SMsgReader.cxx:208-228 | a fence with a payload of at most 64 bytes reads back as itself; a longer one is skipped whole and nothing is delivered |
| SMsgReader.QemuKeyEventReadBack | common/rfb/SMsgReader.cxx:330-352 | an extended key event reads back as itself when its key code is non-zero and is dropped otherwise; eleven bytes either way |
| SMsgReader.ClientCutTextLengths | common/rfb/SMsgReader.cxx:250-263 | with the high bit set the length is negated and refused below 4; otherwise the text is skipped; each when enough bytes remain |
| SMsgReader.UpgradeToUdpReadBack | common/rfb/SMsgReader.cxx:354-376 | an empty request downgrades, a request of 1 to 4095 bytes upgrades with that request, a longer one is skipped |
| SMsgReader.SubscribeUnixRelayReadBack | common/rfb/SMsgReader.cxx:378-391 | a name under 64 bytes subscribes to its C string, a longer one is skipped |
| SMsgReader.UnixRelayReadBack | common/rfb/SMsgReader.cxx:393-415 | a relay message with a name under 64 bytes reads back as name and data below 1 MiB, and is skipped whole at 1 MiB or more |
| SMsgReader.UnixRelayLongNameDesync | common/rfb/SMsgReader.cxx:396-400 | as written: with a name of 64 bytes or more only the name is skipped, and the next read starts in the data length |
| SMsgReader.FramedUnixRelayAt | common/rfb/SMsgReader.cxx:393-415 | corrected reader: a delivered relay has a name under 64 bytes and data under 1 MiB |
| SMsgReader.FramedUnixRelayReadsWhole | common/rfb/SMsgReader.cxx:393-415 | corrected: every relay message is consumed whole, and agrees with the reader as written when the name is short |
| SMsgReader.EntryReadBack | common/rfb/SMsgReader.cxx:273-287 | a clipboard entry written as name length, name, data length, data reads back as itself |
| SMsgReader.EntriesReadInTurn | common/rfb/SMsgReader.cxx:272-298 | entries read one after another give the accepted ones, in order |
| SMsgReader.EntriesReadBack | common/rfb/SMsgReader.cxx:272-298 | entries laid out one after another read back as the accepted ones |
| SMsgReader.AcceptedStep | common/rfb/SMsgReader.cxx:289-297 | the accepted entries grow by the last entry unless it is refused |
| SMsgReader.BinaryClipboardReadBack | common/rfb/SMsgReader.cxx:265-301 | a binary clipboard message reads back as its accepted entries, announced by their truncated names, and is consumed whole |
| SMsgReader.EntriesWithinMax | common/rfb/SMsgReader.cxx:289-297 | every entry given to the handler is within DLP_ClipAcceptMax and has a NUL-free name |
| SMsgReader.NamesTruncated | common/rfb/SMsgReader.cxx:282-283 | each announced name is the entry's name cut to 31 bytes |
| SMsgReader.AcceptedNoLimit | common/rfb/SMsgReader.cxx:289 | with DLP_ClipAcceptMax 0 every entry is given to the handler |
| Watermark.Quantise | common/rfb/Watermark.cxx:93-94 | a grey value becomes the 4-bit level nearest to it in steps of 16, ties rounding up, capped at 15 |
| Watermark.QuantiseLevels | common/rfb/Watermark.cxx:151-152 | each level's own grey value 16 * l gives l back, and quantising keeps the order of grey values |
| Watermark.Conv | common/rfb/Watermark.cxx:419-423 | one sscanf integer conversion reads what strtol reads, and fails exactly when strtol reads no digit |
| Watermark.ToS16 | common/rfb/Watermark.cxx:431-433 | a value stored through %hd keeps its low 16 bits: it is unchanged in the int16 range and equal to it modulo 2^16 otherwise |
| Watermark.TintReadsBack | common/rfb/Watermark.cxx:419-426 | a tint written as "r,g,b,a" in decimal is read back by the four %hhu conversions as the same four bytes |
| Watermark.LocationReadsBack | common/rfb/Watermark.cxx:430-437 | a location written as "x,y" in decimal is read back by the two %hd conversions as the same two values |
| Watermark.InitMeaning | common/rfb/Watermark.cxx:397-437 | watermarkInit accepts without a watermark exactly when neither image nor text is set; an accepted watermark has one of them alone, no repeat together with a location, the loaded or drawn picture, the scanned tint, the scanned location (0,0 when none) and the repeat spacing |
| Watermark.InitOutcome | common/rfb/Watermark.cxx:392-446 | an image together with a text is refused, and that refusal comes only from them; an invalid-tint refusal means the tint does not scan, an invalid-location refusal that a location is set and does not scan |
| Watermark.InitRefusals | common/rfb/Watermark.cxx:400-436 | image with text is refused; repeat with location is refused once the picture is ready; no watermark is accepted with a tint or a given location that does not scan |
| Watermark.InitAccepts | common/rfb/Watermark.cxx:414-443 | an image or a text alone with a well-written tint and location and no repeat is accepted and stores exactly that tint and location |
| Watermark.Origin | common/rfb/Watermark.cxx:518-538 | the start of the placed picture on one axis: centred for 0 (within half a pixel, 0 when it does not fit), the offset itself when positive, the offset from the far edge when negative and inside the screen, clamped at 0, always within int16 |
| Watermark.TilePeriodic | common/rfb/Watermark.cxx:496-516 | the tiled frame repeats every w + repeat columns and every h + repeat rows |
| Watermark.TileShowsPicture | common/rfb/Watermark.cxx:496-516 | the first tile of the frame is the picture itself and the repeat gaps after it are blank |
| Watermark.LowNibble | common/rfb/Watermark.cxx:457-458 | the low nibble of a packed byte is the low level whatever the high one holds, the stale byte included |
| Watermark.PackPairNibbles | common/rfb/Watermark.cxx:458 | two 4-bit levels packed into a byte read back as the low and the high nibble |
| Watermark.Pairs | common/rfb/Watermark.cxx:454-462 | the bytes packed from d pairs of levels number d |
| Watermark.Packed | common/rfb/Watermark.cxx:450-462 | packing n levels yields (n + 1) / 2 bytes |
| Watermark.PairsAt | common/rfb/Watermark.cxx:456-458 | byte i of the packed pairs holds levels 2i and 2i + 1 |
| Watermark.PackedNibbles | common/rfb/Watermark.cxx:450-462 | packing loses no level: every level of the frame reads back from its nibble of the packed bytes |
| Watermark.PackedAllNibbles | common/rfb/Watermark.cxx:450-462 | every level of the frame reads back from the packed bytes at once |
| Watermark.Copy | common/rfb/Watermark.cxx:500-502 | memcpy sets the destination span to the source span and leaves every other byte as it was |
| Watermark.Clear | common/rfb/Watermark.cxx:492 | memset zeroes the first n bytes and leaves the rest as they were |
| Watermark.TileCopy | common/rfb/Watermark.cxx:499-508 | one copy of a picture row, cut at the right edge, extends the tiled part of the frame row by one tile and its gap, leaving the other rows alone and the levels 4-bit |
| Watermark.TileRow | common/rfb/Watermark.cxx:498-509 | the inner repeat loop fills a blank frame row with the tiling, touching no other row |
| Watermark.TileRowStep | common/rfb/Watermark.cxx:497-516 | one pass of the outer repeat loop extends the tiled rows by one and leaves the rest of the buffer alone |
| Watermark.Tile | common/rfb/Watermark.cxx:496-516 | the repeat branch turns a blank frame into the tiling of the picture, every frame pixel equal to TiledPixel, the buffer past the frame untouched, all levels 4-bit |
| Watermark.ClipLen | common/rfb/Watermark.cxx:541-548 | the copy length of a placed row: the whole row, or what fits before the right edge, and nothing for a picture that starts past it |
| Watermark.PlaceRow | common/rfb/Watermark.cxx:540-548 | one picture row placed at its frame row extends the placed rows by one, leaving the other rows alone |
| Watermark.Place | common/rfb/Watermark.cxx:517-550 | the placement branch turns a blank frame into the picture placed once at its origin, every frame pixel equal to PlacedPixel, the buffer past the frame untouched |
| Watermark.PackLevel | common/rfb/Watermark.cxx:456-460 | one level goes to pix[cur]; a byte is written after each odd level and after the last, keeping the packing state |
| Watermark.PackRow | common/rfb/Watermark.cxx:455-461 | the inner packing loop packs one frame row and keeps the packing state |
| Watermark.Pack | common/rfb/Watermark.cxx:450-462 | the packing loop leaves in watermarkTmp exactly Packed of the frame's levels |
| Watermark.Draw | common/rfb/Watermark.cxx:492-550 | after the clear and the tiling or placing loops every frame pixel is FramePixel and all frame levels are 4-bit |
| Watermark.DrawFrame | common/rfb/Watermark.cxx:492-552 | the frame is blank, then tiled or placed, and every frame pixel is FramePixel; the bytes handed on are the packed frame, from which every level reads back |
| Watermark.LocationPastEdges | common/rfb/Watermark.cxx:521-548 | a location past the right edge gives memcpy a negative length and one below the bottom starts past the buffer, where the clipped length copies nothing |
| Watermark.ZlibLenPastPacked | common/rfb/Watermark.cxx:464-465 | the compress2 input length rw * rh / 2 + 1 is one byte more than was packed for an even pixel count, and one past watermarkTmp for a full frame |
| Watermark.Watermarker.constructor | common/rfb/Watermark.cxx:40-45 | the globals start without a watermark, at frame size 0 x 0, with nothing to send |
| Watermark.Watermarker.Init | common/rfb/Watermark.cxx:392-444 | watermarkInit resets the frame size, succeeds exactly when InitOutcome accepts, and switches the watermark on, with fresh buffers, exactly when it accepts one |
| Watermark.Watermarker.Install | common/rfb/Watermark.cxx:393-395 | the verdict of watermarkInit is stored: settings kept, frame size reset, the accepted watermark and its buffers in place |
| Watermark.Watermarker.TextNeedsUpdate | common/rfb/Watermark.cxx:558-567 | the early call takes the clock; the answer is whether the clock moved since the last drawing and the text has a time format |
| Watermark.Watermarker.RedrawText | common/rfb/Watermark.cxx:483-487 | a text that needs it is drawn again and its drawing time kept; otherwise the watermark stays as it is |
| Watermark.Watermarker.Render | common/rfb/Watermark.cxx:489-554 | the frame takes the screen size, is drawn and packed, and is marked for sending |
| Watermark.Watermarker.Update | common/rfb/Watermark.cxx:473-555 | nothing changes when the size is the same and the picture cannot have changed; otherwise the frame takes the new size, the text is redrawn if needed, every frame pixel is FramePixel, the packed bytes are Packed of the frame, and sendWatermark is set |
| VncExtInit.Find | unix/xserver/hw/vnc/vncExtInit.cc:549 | the position of the first occurrence of a character, or the length when there is none: the character is there and not before |
| VncExtInit.JoinFields | unix/xserver/hw/vnc/vncExtInit.cc:147-158 | the comma-separated fields of a text hold no comma and, joined with commas, give the text back |
| VncExtInit.FieldsJoin | unix/xserver/hw/vnc/vncExtInit.cc:147-158 | comma-free names joined with commas split back into exactly those names, in order |
| VncExtInit.TrailingComma | unix/xserver/hw/vnc/vncExtInit.cc:149-152 | a trailing comma adds an empty field: empty tokens are kept |
| VncExtInit.FieldsSplit | unix/xserver/hw/vnc/vncExtInit.cc:150-152 | the fields of a text are the text up to its first comma followed by the fields after it, or the text alone without a comma |
| VncExtInit.CmpProperties | unix/xserver/hw/vnc/vncExtInit.cc:77-81 | the byte-wise comparison behind strcasecmp is antisymmetric and answers 0 only for equal strings |
| VncExtInit.CaseEquivalent | unix/xserver/hw/vnc/vncExtInit.cc:77-83 | two names are the same entry of the CaseInsensitiveCompare set exactly when they agree ignoring ASCII case |
| VncExtInit.KeysCons | unix/xserver/hw/vnc/vncExtInit.cc:151 | inserting a field adds its case-folded name to the set |
| VncExtInit.OverrideNeedsEquals | unix/xserver/hw/vnc/vncExtInit.cc:549-551 | an override without '=' is refused |
| VncExtInit.OverrideParam | unix/xserver/hw/vnc/vncExtInit.cc:547-558 | the answer is 0 or 1, and 1 exactly when the text has an '=', the name before the first '=' is in the AllowOverride set and setParam accepts it |
| VncExtInit.OverrideOf | unix/xserver/hw/vnc/vncExtInit.cc:547-558 | "name=value" is handed to setParam, and succeeds with it, exactly when name matches a field of the AllowOverride list ignoring case; the value may hold '=' |
| VncExtInit.DefaultFields | unix/xserver/hw/vnc/vncExtInit.cc:109-111 | the default AllowOverride text splits into its six parameter names |
| VncExtInit.DefaultAllowsDesktop | unix/xserver/hw/vnc/vncExtInit.cc:547-558 | with the default list, the desktop name may be overridden whatever the case of "desktop" |
| VncExtInit.DefaultRefusesRfbport | unix/xserver/hw/vnc/vncExtInit.cc:547-558 | with the default list, rfbport may not be overridden |
| VncExtInit.ContainsPrefix | unix/xserver/hw/vnc/vncExtInit.cc:175 | what strstr finds in a prefix it finds in the whole string |
| VncExtInit.Truncate | unix/xserver/hw/vnc/vncExtInit.cc:180-181 | the stored MIME type holds at most 31 characters |
| VncExtInit.TruncateKept | unix/xserver/hw/vnc/vncExtInit.cc:169-181 | a kept field cut to 31 characters is still non-empty, comma-free and none of the text types |
| VncExtInit.MimeTypesOk | unix/xserver/hw/vnc/vncExtInit.cc:165-186 | every MIME type read from the fields is non-empty, at most 31 characters, comma-free and none of the text types |
| VncExtInit.MimeTypesReadBack | unix/xserver/hw/vnc/vncExtInit.cc:160-190 | a list of usable MIME types written with commas is read back unchanged: nothing dropped, cut or reordered |
| VncExtInit.MimeTypesOfOk | unix/xserver/hw/vnc/vncExtInit.cc:169-183 | fields that are all usable MIME types are kept as they are |
| VncExtInit.StrsepClipTypes | unix/xserver/hw/vnc/vncExtInit.cc:166-168 | the MIME types of a text are those of the field strsep cuts off at the first comma followed by those of what it leaves, none when it leaves NULL |
| VncExtInit.AppendOk | unix/xserver/hw/vnc/vncExtInit.cc:183 | appending the MIME types of a DLP_ClipTypes text to usable ones keeps every entry usable |
| VncExtInit.LedState | unix/xserver/hw/vnc/vncExtInit.cc:459-470 | Caps Lock is on exactly when bit 0 is set, Num Lock bit 1, Scroll Lock bit 2 |
| VncExtInit.LedLowBits | unix/xserver/hw/vnc/vncExtInit.cc:459-470 | bits above the third are ignored, and the state's bits are the low three bits of the input |
| VncExtInit.LedStateOfBits | unix/xserver/hw/vnc/vncExtInit.cc:459-470 | every LED state is produced by its own bits |
| VncExtInit.ResolutionReadsBack | unix/xserver/hw/vnc/vncExtInit.cc:229-234 | "WxH" in decimal is scanned as W and H modulo 2^32, and passes the MaxVideoResolution check exactly when both stored values are at least 16 |
| VncExtInit.VerdictMeaning | unix/xserver/hw/vnc/vncExtInit.cc:192-237 | the first start of a generation runs exactly when the screens fit and DLP_ClipLog, MaxVideoResolution and the watermark are valid; later starts check only the screens |
| VncExtInit.Verdict | unix/xserver/hw/vnc/vncExtInit.cc:192-252 | a second call in the same server generation does nothing, and only then; more screens than MAXSCREENS is fatal exactly on a first call of a generation; the setting checks stop the server only on the first start |
| VncExtInit.Extension.constructor | unix/xserver/hw/vnc/vncExtInit.cc:67-84 | the statics start with no generation, not initialised, an empty override set and no MIME types |
| VncExtInit.OverrideStep | unix/xserver/hw/vnc/vncExtInit.cc:149-152 | the set entries of a text are the folded name of the field up to the next comma together with those of the text after the comma |
| VncExtInit.ParseOverrideList | unix/xserver/hw/vnc/vncExtInit.cc:147-158 | every field of the text, empty ones included, joins the set by its case-folded name |
| VncExtInit.Extension.ParseClipTypes | unix/xserver/hw/vnc/vncExtInit.cc:160-190 | dlp_mimetypes grows by the MIME types of the fields of DLP_ClipTypes, in order |
| VncExtInit.Extension.NextClipType | unix/xserver/hw/vnc/vncExtInit.cc:166-184 | one turn of the loop: the MIME types added plus those still to come are those of the text the turn starts from, and what is left is shorter |
| VncExtInit.Extension.AddClipType | unix/xserver/hw/vnc/vncExtInit.cc:169-183 | an empty field and the text types are skipped; any other field is appended, cut to 31 characters |
| VncExtInit.Extension.NumMimetypes | unix/xserver/hw/vnc/vncExtInit.cc:560-563 | the number of parsed MIME types |
| VncExtInit.Extension.GetMimetype | unix/xserver/hw/vnc/vncExtInit.cc:565-568 | the MIME type at an index, which in a valid state is usable |
| VncExtInit.Extension.Init | unix/xserver/hw/vnc/vncExtInit.cc:192-253 | vncExtensionInit ends as Verdict decides; a second call in a generation changes nothing; the first start parses DLP_ClipTypes and AllowOverride, makes AllowOverride immutable and keeps every MIME type usable |

## Left out

- Mp4BitBuf: the null-pointer checks (`chk_ptr`) are not modelled, because a BitBuf is always a live object here; allocation never fails, so no put returns an error and the `chk_err` early returns of the writers cannot happen.
- Mp4BitBuf.Grow: bytes added by `realloc` are zero in the model, where C leaves them undefined; only written bytes are ever read back.
- Mp4BitBuf.BufErrorToStr: the `Unknown(%d)` default cannot be reached from an enum value and is not modelled.
- Mp4BitBuf: sizes and offsets are unbounded; the 32-bit wrap-around of `offset + size` is not modelled.
- Mp4Moov.FtypBox: 36 bytes (8-byte header, major brand, minor version, five compatible brands), as mp4_moov.c:40-57 writes it.
- Mp4.Mp4Context.SetSps: requires nal_len of at most 128 and at most the unit's length, because `memcpy` into the 128-byte buffer overflows otherwise; the same holds for SetPps.
- Mp4.Mp4Context.GetHeader: the caller's BitBuf receives a copy of the bytes; in C it shares the context's `char *` (aliasing is not modelled), and likewise for GetMoof and GetMdat.
- Mp4: the positions of write_moof are the fields of a FragmentPositions object passed by the caller instead of three file-level globals.
- Memory allocation never fails in the model (Dafny's `new` cannot fail); the branches for a failed `calloc`/`malloc`/`realloc` are not modelled.
- Byte-level memory contents of the arena and the pool are not modelled: a block is identified by its offset or slot index.
- WuQueue.Queue.Init: requires a capacity of at least 2, because the growth rule `capacity * 1.5` does not make room below it: at capacity 1 the grown capacity is again 1, the insert index `(start + length) % 1` is 0, and each push overwrites slot 0, losing the item already queued; at capacity 0 the `% q->capacity` divides by zero. Every caller uses 1024.
- WuRng: the seed, which the source derives from `rand()` through a mixing function, is a parameter.
- WuSctp.ChunkAt: the C reader does not check a chunk's length against the datagram and reads past its end; the model reads bytes beyond the datagram as zero. A HEARTBEAT whose info parameter length is below 4 gets an empty info (HeartbeatInfoLength, clamped at 0), where WuSctp.cpp:58 stores the negative heartbeatLen - 4 (see Findings, WuSctp.cpp:58; HeartbeatUnderflow models the code as written).
- WuSctp.ParseSctpPacket: built on ChunkAt, so it takes the corrected HEARTBEAT info length: an empty info below 4 where WuSctp.cpp:58 gives a negative length (see Findings, WuSctp.cpp:58).
- WuSctp.SerializeSctpPacket: a chunk whose type selects a union member the caller did not fill is serialised as if that member were all zero; the C code reinterprets the bytes of the member that was filled.
- WuSctp.SerializeSctpPacket: requires the image to fit in the destination; the C code ignores `dstLen` and writes past a short buffer.
- WuSctp.SerializeSctpPacket: the CRC-32c checksum is an abstract function parameter.
- WuSctp.HeartbeatCells: the info-parameter length written is the info length plus 4 truncated to 16 bits, as `htons` does.
- Wu: the DTLS session is abstracted; a client records whether its handshake has finished, and the server records each SCTP packet it would hand to DTLS instead of serialising and encrypting it. WuReceiveDTLSPacket and WuClientSendPendingDTLS are not part of this model.
- Wu: the clock is a parameter (the elapsed seconds and the 8 clock bytes a HEARTBEAT carries), and doubles are modelled as reals.
- Wu.Server.HandleSctp: the random initiate tag of an INIT ACK is a parameter.
- Wu.Server.NewClient: the client pool is abstracted to the rule that a client can be had while fewer than maxClients are in use.
- Wu.Server.Update: the arena reset after an event batch is not modelled, since packet buffers are values here; the event queue is a sequence (WuQueue is modelled on its own).
- Wu: WuHandleStun, WuHandleUDP, WuExchangeSDP and WuFindClientByCreds (STUN credential matching) are not part of this model; user-data pointers and error callbacks are left out.
- Wu.IsOpen: a control message with no payload reads its type as 0, where the C code reads the byte past the payload.
- Wu.DataStep: the highest TSN is tracked with plain unsigned comparison, as the source does, not with serial-number arithmetic.
- Wu.Server.SendData: the C code builds the packet in a 4096-byte buffer and overflows it for large payloads; the model has no buffer size.
- WuStun: the HMAC-SHA1 of MESSAGE-INTEGRITY and the CRC-32 of FINGERPRINT are function parameters.
- WuStun: the XOR-MAPPED-ADDRESS port and address are stored as given, in host order, because the caller has already swapped and XORed them; only IPv4 addresses are modelled.
- WuStun.SerializeStunPacket: requires a destination of at least 64 bytes; the C code clears `len` bytes and then writes 64 bytes whatever `len` is.
- WuStun.ParseStun: a user name is the sequence of its bytes; the C identifier buffer with its separate length field is not modelled.
- JsonEscape: a C string ends at its NUL, so the model's strings contain no NUL; the output buffer must be large enough, as the only caller's buffer of twice the user-name field size is for any user name that fits that field (common/network/GetAPIMessager.cxx:488).
- Adler32: the window length is at most 2^20, so that `len * outchar` in the update cannot overflow a C `int`; `sum2 << 16` is taken as its bit pattern.
- Blacklist: the clock (`time(NULL)`), the threshold and the initial timeout are parameters; the mutexes are left out (the model is sequential).
- KasmPasswd.ReadKasmPasswd: lines are split at '\n' only; fgets' 4095-byte chunks of a longer line and NUL bytes inside a line are not modelled.
- KasmPasswd.WriteKasmPasswd: the temporary file, fsync, rename and chmod are one atomic replacement of the text; a failing fopen or rename is not modelled.
- KasmVncPasswd.RunCommand: crypt(3), called with the fixed salt "$5$kasm$" (kasmvncpasswd.c:67-69), is a parameter, and so are isatty and the wordexp expansion of ~/.kasmpasswd; the usage and error messages are not modelled.
- GetApiMessager: the pthread mutexes (including mainUpdateScreen's trylock that skips a frame) are not modelled; every call runs alone.
- GetApiMessager.Messager.MainUpdateScreen: the pixel copy into the screen buffer is not modelled and the XXH64 content hash is a parameter.
- GetApiMessager.Messager.NetGetScreenshot: the JPEG encoding and bilinear scaling are not modelled; the encoder's output for the request is a parameter, and the staging buffer is a flag for its presence. A dedup hit is answered with the corrected DedupReply (16 zero-padded hex digits), where GetAPIMessager.cxx:209-213 sends the unpadded "%" PRIx64 text, its NUL and stale staging bytes (see Findings, GetAPIMessager.cxx:211-213; DedupReplyTruncated models the code as written).
- GetApiMessager.Screenshot: a dedup hit is answered with the corrected DedupReply, 16 zero-padded hex digits, not the unpadded "%" PRIx64 text, NUL and stale bytes GetAPIMessager.cxx:209-213 send (see Findings, GetAPIMessager.cxx:211-213).
- GetApiMessager.Messager.NetGetFrameStats: the JSON text is not modelled, only the end of the request.
- GetApiMessager: netGetUsers, netGetSessions, the bottleneck and user-info getters, netUdpUpgrade and netClearClipboard are not part of this model.
- WsQuery: C strings are modelled as their bytes before the terminating NUL, so the option name and the query hold no NUL.
- WsQuery.PercentDecode: strtol is modelled on its two-character argument only; a decoded NUL is written into the output as the code does, and a reader of the C string would stop there.
- WsQuery.PercentEncode: for a byte of 0x80 or more, sprintf writes nine bytes of which the loop keeps two; the up to six stale bytes it leaves after the final NUL are not modelled, so the model states that nothing after the NUL changes.
- WsHybi: ws_b64_ntop and ws_b64_pton are parameters that give the encoded or decoded bytes or fail; their negative error codes are returned as -1, and the decoder is given the whole unmasked payload rather than the NUL-terminated string it reads, with no limit from targsize.
- WsHybi.DecodeHybi: the decoded bytes are returned as a sequence rather than copied into target (the code does not check targsize for binary payloads); the save_char write one past the payload, undone before the next frame, and the traffic counter are not modelled; the return value is the count of decoded bytes, not cut to an int.
- WsHybi.EncodeHybi: the code does not check targsize before its memcpy, so the model requires a target that holds the frame and, for a text frame, the NUL after it. targsize is not modelled: a failing ntop stands for base64 text that does not fit, and then the model writes only the header, where ws_b64_ntop (websocket.c:354-355) still copies the targsize - offset bytes that fit and a NUL at target[targsize].
- WsServe.ParseHixie76Key: a key without a space makes the code divide by zero; the model answers None there. The conversion of the int result back to unsigned long in gen_md5 and the MD5 step are not modelled.
- Udp.UdpSend: XXH64 is the parameter `hash` and WuHostSendBinary is the parameter `accepted` (how many datagrams the host takes before the first it refuses), because both are outside this model; the header fields are written little-endian, the byte order of the x86 hosts the server runs on, where the code copies them in host order.
- Udp.UdpStream: the OutStream writes that fill the buffer, `overrun` (which aborts) and the error log lines are not modelled; the buffer is a sequence of at most UDPSTREAM_BUFSIZE bytes. The `udpserver` thread (host creation and the join/leave event loop) and `wuGotHttp` are not modelled, because they only forward events to other components.
- TightQoi.QoiEncodeKasm: a failing QOI_MALLOC (the second NULL return) is not modelled; the NULL data, desc and out_len pointers are not modelled either, since the callers always pass them. The 64-entry index array is zeroed and never used, so it is left out. The pixel compare takes all four bytes, the unused X byte included, and the model's Px keeps that byte for the same reason.
- TightQoi.CompressOnly: when the encoder fails, the code still resizes and copies with an unset len; the model returns None there instead.
- TightQoi.WriteRect: when the encoder fails, the code still writes an unset len and copies from NULL; the model writes nothing there. The subencoding value tightQoi is a parameter, because TightConstants.h is not part of this model.
- TightQoi: the client's QOI decoder is not part of this model; DecodeOps is a reference decoder for the QOI operations RGB, RGBA, RUN, LUMA and DIFF; the encoder writes only RUN, DIFF, LUMA and RGB, and DecodeOps also decodes RGBA, which the encoder never writes. writeSolidRect only forwards to Encoder::writeSolidRect, which is not part of this model. The vlog error line is not modelled.
- TightWebp: libwebp (WebPEncode, the picture import for RGBX, BGRX or converted RGB, the memory writer) is not part of this model; its output is the parameter `webp`, and a failed WebPEncode is logged and its output used as the code does. The subencoding value tightWebp is a parameter, because TightConstants.h is not part of this model. benchmark() (a timing with random pixels) and writeSolidRect (which forwards to Encoder::writeSolidRect) are not modelled.
- TightWebp.CompressSettings: WebpVideoQuality is required to be in -1..9, the range of its IntParameter declaration (common/rfb/ServerCore.cxx:154-157); TreatLossless is a parameter, in 0..10 by its declaration.
- EncCache: the data pointers are modelled as the encoded bytes they point to; freeing them in clear, and the destructor, are not modelled. The cache is keyed by value, as the corrected comparator in the Findings makes std::map behave; the lookups std::map may miss under the comparator as written are not modelled, since that behaviour is undefined.
- CompareTracker: the scroll hashers (scrollHasher_* with xxhash), compareRect's pixel loops, the old-frame copy, the scroll-detection threshold and the statistics (totalPixels, missedPixels, changedPerc, logStats) are not modelled; Compare is given the region the comparison finds (a set of pixels, standing in for Region) and the copy list it builds.
- CompareTracker.TryMerged: coordinates are unbounded integers; the code's mix of int and unsigned arithmetic in the merge tests is not modelled, which is exact for the non-negative screen coordinates the caller passes. The mapping and area lemmas take a block 64 pixels wide, the only width for which the caller calls tryMerge on full blocks.
- Geometry: Rect.h is not part of this model; `Rect` follows the usual rfb definitions of area(), enclosed_by() and union_boundary(), and Region is modelled as the list of its non-empty rectangles.
- EncodeManager: the encoders themselves, analyseRect and the palettes, the solid-rectangle search (writeSolidRects), the cache lookups, the scaling (nearestScale, bilinearScale and the float size computation), the parallel encoding with tbb and its timing, the statistics and logging, and the writing of doUpdate are not modelled. updateVideoStats and handleTimeout (area percentages over a time window) are not modelled; `videoDetected` is the state they leave.
- EncodeManager: int arithmetic is unbounded; the 32-bit products w*h and area() are taken to fit, as they do for any framebuffer up to 46340x46340.
- EncodeManager.Manager.UpdateMaxVideoRes: sscanf is not modelled; the values it leaves in x and y (parsed, or as before where parsing stopped) are parameters.
- EncodeManager.Prepared: each encoder's isSupported() is the set `supported`; the loop that passes the compress, quality and fine-quality levels to the active encoders is not modelled.
- EncodeManager.TypeOf: the palette size is the one after analyseRect (0 when analysis gave up and cleared it); the rest of getEncoderType (cache lookup, isWebp and fromCache) is not modelled.
- EncodeManager.Track: the unsigned score is a `nat`, without 32-bit wrap-around. gettimeofday gives the time `now` in milliseconds as a parameter, and msBetween (not part of this model) is taken as the difference of the two times.
- EncodeManager.Manager.UpdateQualities: the list is rebuilt rather than erased in place; the entries kept and their order are the same.
- EncodeManager.ScaledQuality: dynamicQualityMin and dynamicQualityOff are parameters; the code that sets them from the settings in doUpdate is not modelled.
- VncServerSt: the region's error paths log a line and end the process with exit(1); the model returns the error as a RegionError instead. The setting is the text before its NUL.
- VncServerSt.StrToL: strtol is modelled for base 10 with an optional sign after white space; its clamping to LONG_MAX/LONG_MIN with ERANGE, and the cut of the long to int, are not modelled (values are unbounded integers).
- VncServerSt.RegionOf: in absolute form the model leaves the pc fields at 0, where the code leaves them as they were.
- VncServerSt.Translate: the framebuffer's width and height are parameters in 1..65535; the pixel buffer itself is not modelled.
- VncServerSt.Server.StartFrameClock: FrameRate is a parameter required to be positive; the timer is modelled by whether it runs and the period it was started with, not by its expiry.
- VncServerSt.Server.UnblockUpdates: requires the invariant Valid() (no frame clock while blocked) besides the code's assertion of a held block.
- VncServerSt.Server: clients are identities and the desktop is not modelled; what a method passes to the clients or the desktop is its result (setLEDStateOrClose's closing of a failing client is not modelled). The rest of VNCServerST (connections, pixel buffer and cursor, queries, timers, blackOut, the API messager glue, the watermark update) is not modelled here.
- VncsConnectionSt: the rest of VNCSConnectionST (message callbacks, update writing, timers, statistics) is not modelled; only the inline members named here are. Region is a set of pixels, and the update tracker's add_changed is taken as a union into its changed region (UpdateTracker is not part of this model).
- VncsConnectionSt.Connection.SetAccessRights: getPerms is not part of this model; its result (found) and its write flag are parameters, and so is WRITER_PERMS (writer), whose definition is not part of this model. The rights are a set of rights instead of a bit mask.
- ConnParams: setName, setCursor and setCursorPos (plain stores of name, cursor and position), the destructor and the debug log lines of setEncodings are not modelled. The pixel format is a datatype of its header fields; only bpp is checked, as in the code.
- ConnParams.ConnParams.SetEncodings: Configuration.cxx is not part of this model; its IntParameter::setParam is taken to refuse a value outside the declared bounds and keep the old one, and PresetParameter::setParam(true) to run the preset function, here bandwidthPreset (ServerCore.cxx:290-299). Immutable parameters are not modelled. The handler's canChangeKasmSettings() and Server::ignoreClientSettingsKasm are parameters, and so is whether DLP_WatermarkImage is set. The Kasm server parameters (jpegVideoQuality and the rest, preferBandwidth) are global in the code; the method returns the values it sets instead of storing them. The supportsXxx flags the list can set are a set of capabilities; supportsSetDesktopSize and supportsUdp, which setEncodings does not touch, are left out.
- ConnParams.ConnParams.WriteVersion: requires both versions in 0..999, where "%03d" writes three digits; beyond that sprintf would write past the 13-byte buffer, which the model does not follow.
- ConnParams.ScanVersion: sscanf is modelled for this one format: the literal "RFB", white space, two %3d conversions (white space, an optional sign and digits, three characters at most) around a literal '.'; the text ends at the first NUL.
- ConnParams: the values of ledUnknown and of the clipboard flags come from ledStates.h and clipboardTypes.h, which are not part of this model; they follow the extended clipboard pseudo-encoding's layout (formats in bits 0-2, request, notify and provide in bits 25, 27 and 28).
- SMsgReader: the message type numbers (msgTypes.h) and the QEMU submessage numbers (qemuTypes.h) are not part of this model; the reader is given them as a table, and the extended key event is taken as submessage 0.
- SMsgReader: handler calls are returned as one event per message; the handler's own work, and the calls a message makes before the stream ends inside it (clearBinaryClipboard and the entries already added), are not modelled; a read that ends early is the end-of-stream error.
- SMsgReader.ReadPixelFormat: PixelFormat.cxx is not part of this model; the 16 bytes are read into the format's fields, and the sanity checks PixelFormat::read makes afterwards are left out.
- SMsgReader.ReadUpgradeToUdp: wuGotHttp, the WebUDP library's answer to the request, is not part of this model; the event carries the request it is given.
- SMsgReader: the vlog and stderr log lines are not modelled.
- SMsgReader.ClientCutTextLengths: a length field of 2^31 negates to itself in the code's 32-bit signed arithmetic; the model takes that value as negative, so the message is refused, without modelling the overflow further.
- SMsgReader.BinaryClipboardReadBack: the round trip is stated over a layout given with the position of every entry, rather than over one concatenated byte string.
- SMsgReader.SetDesktopSizeReadBack: the round trip is stated over the screens laid out 16 bytes apart after the header, rather than over one concatenated byte string.
- SMsgReader.SetMaxVideoResolutionReadBack: the MaxVideoResolution setting's own parsing of the text is not modelled here (EncodeManager.Manager.UpdateMaxVideoRes takes its result).
- RdrStream: the rdr stream classes (InStream, OutStream and their buffering) are not part of this model; a stream is the bytes received and a position, or the bytes written.
- Watermark: loadimage (libpng and the float grey conversion) and drawtext (FreeType, strftime, the time offset, the font and the size of the rendered text) are not modelled; the pictures they produce, or their failure, are parameters of Init and Update, taken to be well formed (w * h levels, at least one pixel) and already quantised.
- Watermark: the zlib compression in packWatermark and the watermarkDataLen it sets are not modelled; the model ends with the packed bytes, (rw * rh + 1) / 2 of them (zlibInput). The code hands compress2 rw * rh / 2 + 1 bytes, one more than was packed for an even pixel count (see Findings, Watermark.cxx:465).
- Watermark: the vlog error lines are not modelled.
- Watermark.Watermarker.Init: on a refusal the code leaves in watermarkInfo whatever sscanf stored before it stopped; the model leaves the info field as it was, since nothing reads it while the watermark is off.
- Watermark.Conv: strtol's saturation at LONG_MIN and LONG_MAX for values too long for a long is not modelled; the value is read exactly and then stored modulo 256 or 2^16.
- Watermark.PackPairNibbles: the OR of the two nibbles is modelled as a sum, which is the same because the low level is below 16.
- Watermark.Tile: the 16-bit loop counters are unbounded integers; for a picture width plus repeat spacing near 65536 the column counter would wrap in the code, which the model does not capture.
- Watermark.Place: rows of a placed picture that fall below the frame are not written, where the code writes them into watermarkUnpacked past the frame (or past the buffer, see Findings); the frame itself and what is packed from it are the same. A picture starting at or past the right edge copies nothing (ClipLen), where Watermark.cxx:546-548 hands memcpy the negative length rw - sx (see Findings, Watermark.cxx:541-548; CopyLenAsWritten and LocationPastEdges model the code as written).
- Watermark.ClipLen: gives 0 for a picture starting at or past the right edge, the corrected length; Watermark.cxx:546-548 gives memcpy rw - sx, negative there (see Findings, Watermark.cxx:541-548; CopyLenAsWritten is the length as written).
- Watermark.PlaceRow: copies ClipLen bytes, so a row of a picture starting at or past the right edge copies nothing, where the code's memcpy length is negative (see Findings, Watermark.cxx:541-548).
- Watermark.Draw: takes Place's right-edge clip, so a location at or past the right edge gives a frame with no picture pixels, where the code's memcpy length is negative (see Findings, Watermark.cxx:541-548).
- Watermark.DrawFrame: returns the (rw * rh + 1) / 2 packed bytes, where the code hands compress2 rw * rh / 2 + 1 bytes, one more for an even pixel count (see Findings, Watermark.cxx:465; ZlibLenPastPacked models the length as written); it also takes Place's right-edge clip (see Findings, Watermark.cxx:541-548).
- Watermark.Watermarker.Render: zlibInput is the (rw * rh + 1) / 2 packed bytes, not the rw * rh / 2 + 1 bytes Watermark.cxx:465 hands compress2, and the frame takes Place's right-edge clip (see Findings, Watermark.cxx:465 and Watermark.cxx:541-548).
- Watermark.Watermarker.Update: the screen is required to fit the buffers (width * height at most 4096 * 4096), which the code takes for granted. As Render, its zlibInput is the corrected packed length, not what Watermark.cxx:465 hands compress2, and a picture at or past the right edge is clipped (see Findings, Watermark.cxx:465 and Watermark.cxx:541-548).
- VncExtInit: the rest of vncExtensionInit (vncAddExtension, getPublicIP, vncSelectionInit, the loggers, the wakeup pipe, the unix relays, and the listeners and XserverDesktop of each screen) and the functions that forward to the desktops (vncApproveConnection, vncBell, vncAddChanged, vncSetCursor, the screen resize calls and the rest) are not modelled; XserverDesktop is not part of this model.
- VncExtInit.LedState: the ledCapsLock, ledNumLock and ledScrollLock values (rfb/ledStates.h is not part of this model) are modelled as a set of LEDs, and the loop handing the state to each screen's desktop is not modelled.
- VncExtInit.Extension.Init: vncFatalError ends the server and is modelled as the Fatal result; the ShortRect size check compares two compile-time constants and is not modelled; watermarkInit's answer is the parameter `watermarkOk` (it is modelled in Watermark).
- VncExtInit.OverrideParam: rfb::Configuration::setParam is not part of this model; its answer is the parameter `accepted`.
- VncExtInit.ParseOverrideList: the set keeps the spelling first inserted for each case-insensitive name; the model keeps the case-folded name, which is all that find compares (CaseEquivalent).
- VncExtInit.CaseCmp: strings are taken without NUL, and tolower is that of the C locale (ASCII letters only).
- VncExtInit.ScanResolution: strtoul's saturation at ULONG_MAX for values too long for an unsigned long is not modelled.
- VncExtInit: the vlog debug and info lines are not modelled.

## Findings

| source | as written | input that shows it | evidently intended | confidence | as-written member | corrected member |
|---|---|---|---|---|---|---|
| common/network/webudp/WuSctp.cpp:58 | the HEARTBEAT info length is the parameter length minus 4 with no lower bound; the HEARTBEAT ACK echo copies that many bytes | a HEARTBEAT chunk whose info parameter has length field 0 to 3 gives a length of -4 to -1, a huge `size_t` for `memcpy` | clamp at 0, as the DATA payload length is | not executed | WuSctp.HeartbeatUnderflow | WuSctp.HeartbeatInfoLength |
| common/network/webudp/WuStun.cpp:87 | a Binding request without a USERNAME is accepted, and WuHandleUDP (Wu.cpp:719-724) then passes its uninitialised user names to WuFindClientByCreds | a Binding request whose only attribute is an empty SOFTWARE attribute (type 0x8022) | refuse a Binding request that carries no USERNAME | medium; not executed | WuStun.NoUserAccepted | WuStun.ParseStunWithUser |
| common/network/GetAPIMessager.cxx:211-213 | the dedup reply prints the screen hash with "%" PRIx64, which drops leading zeros, yet claims a length of 16 | any screen hash below 2^60, e.g. 0, which gives "0", a NUL and 14 stale bytes of the staging buffer | print 16 zero-padded digits ("%016" PRIx64) so the reply is exactly the hash | not executed | GetApiMessager.DedupReplyTruncated | GetApiMessager.DedupReplyRoundTrip |
| common/network/websocket.c:140-146 | parse_get takes the first '=' after the start of the matching segment, even one in a later segment, and stores the distance from it back to the segment end as an unsigned length | the query "name&a=b" asked for "name" gives the value "b" with length 4 - 7 = 2^32 - 3, which the callers at websocket.c:1348-1352 copy with memcpy | look for the '=' only before the segment end and answer "not found" otherwise | high; not executed | WsQuery.ParseGetOverrun | WsQuery.GetFrom |
| common/network/websocket.c:200 | percent_encode passes a plain char to "%02X"; where char is signed, a byte of 0x80 or more prints as FFFFFFxx and the kept digits are "FF" | the UTF-8 file name "é" (C3 A9) in a directory listing is encoded "%FF%FF", which decodes to FF FF | convert the byte to unsigned char before printing, so every byte is written as its two hex digits | medium (signed-char platforms); not executed | WsQuery.EncodeHighByteLost | WsQuery.DecodeEncode |
| common/rfb/EncCache.h:38-44 | EncId::operator< answers true as soon as any one field is smaller, so it is not a strict weak ordering and std::map is used outside its contract (undefined behaviour; lookups can miss keys the cache holds) | keys (type 0, x 1, y 0, w 0, h 0) and (type 1, x 0, y 0, w 0, h 0): each is less than the other | compare lexicographically: type, then x, y, w, h | high; not executed | EncCache.SourceLessNotAsymmetric | EncCache.LessIsStrictTotal |
| common/rfb/EncodeManager.cxx:407-434 | without LastRect support, doUpdate announces the count of the changed region's rectangles, but in video mode writeRects replaces them by the whole screen (and skips the cursor region), so the announced count and the rectangles written differ | changed region of two rectangles (0,0)-(10,10) and (20,20)-(30,30), video mode, WebP not supported: 2 announced, 1 written | count the rectangles writeRects actually writes, after video detection | medium; not executed | EncodeManager.AnnouncedCountMismatch | EncodeManager.AnnouncedCountMatches |
| common/rfb/VNCServerST.cxx:164-169 | the first value of DLP_Region in percent form is stored without the 0..100 check the other three values get | "150%,0%,0%,0%" is accepted; on a 100 x 100 framebuffer the region then starts at x1 = 150, right of x2 = 100 and outside the framebuffer | check the first percentage like the others | medium; not executed | VncServerSt.FirstPercentUnchecked | VncServerSt.CheckedRegionInside |
| common/rfb/SMsgReader.cxx:396-400 | readUnixRelay skips only the name when it is 64 bytes or longer, and leaves the 32-bit data length and the data unread | a relay message with a 64-byte name and 4 bytes of data: the next message is read from the first byte of the data length | skip the data length and the data as well, so the stream stays in step | high; not executed | SMsgReader.UnixRelayLongNameDesync | SMsgReader.FramedUnixRelayReadsWhole |
| common/rfb/Watermark.cxx:541-548 | a placed row is copied with length `rw - sx` when it does not fit, with no case for a picture starting at or past the right edge, and its rows start at `(sy + y) * rw` with no check against the frame height | the location "5000,0" on a 1920 pixel wide screen gives a length of -3080, a huge size_t; "0,5000" on a 4096 x 4096 screen starts the rows past the end of watermarkUnpacked | clip each row to the frame: copy nothing for a picture starting past the right edge and skip rows below the bottom | not executed | Watermark.LocationPastEdges | Watermark.Place |
| common/rfb/Watermark.cxx:465 | packWatermark hands compress2 rw * rh / 2 + 1 bytes of watermarkTmp | any even pixel count, e.g. a 1920 x 1080 screen, compresses one byte more than was packed; a 4096 x 4096 screen reads one byte past watermarkTmp | hand compress2 the (rw * rh + 1) / 2 packed bytes | not executed | Watermark.ZlibLenPastPacked | Watermark.DrawFrame |
