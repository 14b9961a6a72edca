# Verified model of the GB/T 32960 SDK

This project models the parts of the Go SDK that carry its protocol logic and proves properties of them with Dafny 4.11.
`dafny verify dfyconfig.toml` checks the whole project. The four parts are:

- **The frame stream.** Frames (`##`, command, response flag, 17-byte VIN, encryption type, 16-bit length, payload, check
  character: section 6.2 of GB/T 32960.3-2016) arrive in arbitrary TCP chunks. The decoder keeps a buffer with a read
  position, looks for the next marker, waits for the payload, checks the check character and resumes two bytes further on
  when it is wrong.
- **The information fields.** One function finds where a field ends, another decodes it; realtime messages are a time and
  a list of fields, reissue messages a count and a list of such items without any delimiter between them.
- **The connections.** Accept, login, logout, send, close and unregister over a shared connection count, a shared
  connection map and an index from VINs to connections.
- **The payloads.** AES encryption (PKCS#7 padding, section 6.3 of RFC 5652, and cipher block chaining, section 6.2 of
  NIST SP 800-38A) and the counted, length-prefixed parameter, platform and login messages with their BCD times.

How the model is organised:

| File | Content |
|---|---|
| `Bytes.dfy` | bytes, big-endian integers, exclusive-or, bytes at a position, `Option` and `Result` |
| `Frame.dfy` | frame layout, check character, frame encoder |
| `Scanning.dfy`, `Decoder.dfy` | one scan of the pending bytes as a function, and the decoder object that refines it |
| `Stream.dfy` | bytes that arrive later, independence of chunking, safe points |
| `StreamLaws.dfy` | candidate choice, panics, soundness of runs, resynchronisation, round trip, error detection |
| `Cuts.dfy` | safe points as byte positions, the exact condition for frames in chunks to arrive |
| `BcdTime.dfy`, `Tlv.dfy` | times and counted messages |
| `Codec.dfy`, `FieldWire.dfy`, `FieldExtent.dfy` | field decoders, the wire form of fields, the field-end scan |
| `Realtime.dfy`, `Reissue.dfy` | realtime and reissue messages |
| `Crypto.dfy` | padding, chaining, encryption, key derivation |
| `Connections.dfy` | what identifies a connection and what state it can be in |
| `Registry.dfy`, `IndexRace.dfy` | the VIN index over runs of whole logins and closes, and under interleaving of their steps |
| `Capacity.dfy` | the connection limit under interleaving |
| `Session.dfy`, `SessionLaws.dfy` | one connection object with its read loop, and what it writes over a whole run |
| `Lives.dfy` | a connection from its first byte to its last read, and when cuts between reads matter |
| `Peer.dfy` | what a peer that follows the keys reads from the frames written to it |

Code that changes things step by step is modelled by classes and methods with loops, each proved against a function of its
inputs or of the old state; the theorems are about those functions. Concurrency (accept loop, logins and closers) is a
state machine over atomic steps.

## Where the code does not do what it seems meant to

The model follows the code. Where an expected property fails, the exact condition is proved.

- The guard before the payload asks for the payload only, so a buffer that lacks just the check character is read out of
  range (`decoder.go:99`, `decoder.go:108`). The model makes that panic an outcome (`Overrun`, `Fault`, `Panic`).
  `StreamLaws.FaultIff`: decoding panics exactly when the first candidate that is not rejected announces exactly the
  bytes left after its header.
- Without a marker the decoder drops everything, also a last `#` whose partner has not arrived (`decoder.go:79-81`).
  `Stream.SafePointIff` and `Cuts.UnsafePointIff` say exactly after which bytes a stream may be cut, and
  `Cuts.ChunkedRoundTripIff` exactly which chunks deliver a stream of frames: those that start neither between the two
  start bytes of a frame nor at its check character. `Cuts.CutMarkerLosesFrame`: the first kind of cut loses the frame.
- In a run of `#` only every second marker is a candidate (`decoder.go:112`): part of `StreamLaws.ScanPicksFirstLive`.
  `StreamLaws.FoundIff`: a valid frame is the next one returned exactly when its first byte is the first candidate that
  is not rejected; `StreamLaws.FoundAfterJunkIff`: after marker-free bytes, exactly when they do not end in `#`.
- Lengths above 65535 are truncated (`decoder.go:209`): `StreamLaws.RoundTripIff`, `SessionLaws.EncryptedSendIff`.
- The field-end scan reads the alarm length at bytes 1 to 4 of the buffer, which hold month, day, hour and minute
  (`message.go:195`). An alarm's slice is read without loss exactly when those bytes spell its length
  (`FieldExtent.ScanAgreesWithDecoder`), and so is the alarm at the end of a message decoded
  (`Realtime.AlarmDecodedIff`). Everything from the first alarm on is lost, and one byte too many counted as consumed,
  exactly when they spell more than what is left (`Realtime.AlarmEndsMessage`), which a nonzero month always does: such
  a message never yields an alarm (`Realtime.AlarmNeverDecoded`).
- A reissue item that starts with a byte in 0x01..0x09 is read as a field of the item before it:
  `Reissue.EachIsReadIff`, for every message; `Reissue.SafeFirstByteIff`, for the byte.
- Temperatures are decoded and dropped (`message.go:298-410`): `Realtime.RealtimeIsSummary` has no place for them.
- `Close` checks and stores the state in two steps, and a login handled after a close makes the connection look open
  again. Either lets a connection be unregistered twice and the limit be exceeded (`Capacity.TwoClosersBreakLimit`,
  `Capacity.LateLoginBreaksLimit`). `Capacity.CountAndLimit` bounds the damage in every interleaving;
  `Capacity.CapacityHolds`: the counter is exact exactly when no connection was deleted twice, and then the limit holds;
  `Capacity.LimitIff`: otherwise it can be exceeded without any further deletion.
- A login on a connection that is already open adds a second index entry that closing does not remove:
  `Registry.StaleEntryIff` says exactly which closed connections stay listed, `Registry.ListingAccount` how often.
- A close between the stored state and the index entry of a login removes nothing and the entry is added afterwards
  (`conn.go:280-284`): `IndexRace.CloseDuringLogin`; `IndexRace.FinishedStaysListed`: for good.
  `IndexRace.SingleLoginListedIff` is the exact condition in every interleaving.
- A connection closed while packets of one read are handled still handles the rest of that read, and reads no more
  (`conn.go:208-224`, `conn.go:234-246`): what becomes of the packets behind a refused login depends on how the bytes
  were cut into reads (`Lives.RefusedLoginEndsReading`). `Lives.HoweverCutIff` is the exact condition.
- Unpadding looks at the last byte only (`crypto.go:76-85`): `Crypto.ReencryptsIff` is the exact condition on the padding
  bytes, `Crypto.BadPaddingDecrypts` a ciphertext that violates it under every key.
- `bccIncludeStart` makes no difference, because the two start bytes cancel: `StreamLaws.ModesAgree`.

## Model

| member | source | states |
|---|---|---|
| Frame.CalculateBCC | decoder.go:138-144 | the loop computes the exclusive-or of all bytes |
| Frame.BCCDetects | decoder.go:138-144 | replacing one byte by a different one always changes the check character |
| Frame.BCCIgnoresMarker | decoder.go:155-164 | counting the two start bytes in or out gives the same check character |
| Frame.EncodeResponse | decoder.go:173-221 | the encoder fills its buffer with exactly the prescribed frame, encryption type 0 becoming none, and refuses exactly the VINs that are not 17 bytes long |
| Frame.FrameOfIsFrame | decoder.go:173-221 | the prescribed frame of any packet with a payload below 65536 bytes is a valid frame carrying that packet |
| Frame.FrameIsFrameOf | decoder.go:90-123 | a valid frame is the prescribed frame of the fields read from it, so frames and packets determine each other |
| Scanning.GoodIsFrame | decoder.go:146-166 | in either check mode a candidate is accepted exactly when it begins with a valid frame |
| Scanning.ScanSplits | decoder.go:76-127 | one scan splits its input into skipped bytes, at most one whole valid frame, and the bytes left |
| StreamDecoder.Decoder.Feed | decoder.go:51-74 | feeding appends to the pending bytes and rewinds the read position |
| StreamDecoder.Decoder.Reset | decoder.go:45-49 | nothing is pending afterwards |
| StreamDecoder.Decoder.FindStartMarker | decoder.go:129-136 | returns the position of the first marker, or -1 exactly when there is none |
| StreamDecoder.Decoder.VerifyBCC | decoder.go:146-166 | the two loops accept exactly by the standard check or, if configured, the one including the start bytes |
| StreamDecoder.Decoder.TryCandidate | decoder.go:86-125 | result and pending bytes are those of the candidate's verdict: kept while incomplete, two bytes dropped when wrong, the whole frame consumed when right, a panic when only the check character is missing |
| StreamDecoder.Decoder.NextCandidate | decoder.go:77-114 | each rejected candidate leaves at least two pending bytes fewer and does not change what the scan will find |
| StreamDecoder.Decoder.Decode | decoder.go:76-127 | terminates, returns what the pure scan of the pending bytes finds and keeps pending exactly what it holds |
| StreamDecoder.Decoder.DrainPackets | conn.go:234-246 | decoding until nothing is left returns the packets and pending bytes of the pure drain |
| Stream.ScanAppend | decoder.go:51-127 | bytes arriving later: a found frame is found again, an incomplete candidate is judged anew from the bytes kept, marker-free bytes may be dropped if no marker spans the join |
| Stream.DrainAppend | decoder.go:51-127 | the drain of p+q is the packets of p followed by the drain of what p left over with q appended |
| Stream.ChunkedEqualsWhole | conn.go:218-246 | feeding and draining safely cut chunks gives the packets, pending bytes or panic of draining the whole stream at once |
| Stream.ChunkingIndependence | conn.go:218-246 | two safe ways of cutting one stream give the same packets and the same pending bytes |
| Stream.SafePointIff | decoder.go:79-110 | a stream may be cut after p, whatever follows, exactly when the drain of p neither panics nor drops a last start byte |
| Cuts.UnsafePointIff | decoder.go:79-110 | the same points by their bytes: a cut is unsafe exactly when, after the last packet, the first live candidate lacks just its check character, or all candidates are rejected and the last byte is a start byte |
| Cuts.FramePrefix | decoder.go:76-127 | what the scan finds in the first k bytes of any valid frame: nothing below 2, a kept candidate up to the last byte but one, a panic one byte short, the packet at full length |
| Cuts.SafeCutIff | decoder.go:79-110 | in a stream of frames a cut is safe exactly at the positions that are neither between two start bytes nor right before a check character |
| Cuts.SafeCutInMessage | decoder.go:79-110 | after any encoded messages and k bytes of one more, a cut is safe exactly when k is neither 1 nor one less than the frame |
| Cuts.CutsDecide | conn.go:218-246 | for any bytes in any chunks: cut at safe points only, the run equals the drain of the whole; otherwise the decoder panics or bytes are lost for good |
| Cuts.ChunkedRoundTripIff | conn.go:218-246 | frames that arrive in any chunks are returned one by one with nothing pending exactly when every chunk starts at a good position |
| Cuts.MessagesArriveIff | decoder.go:173-221 | the same for any list of messages the frame encoder sends |
| Cuts.FrameCutIff | decoder.go:79-110 | any valid frame cut in two arrives exactly when it is cut neither after its first byte nor before its last |
| Cuts.CutMarkerLosesFrame | decoder.go:79-81 | cutting any frame between its two start bytes loses it, whatever its remaining bytes are taken for |
| StreamLaws.ScanPicksFirstLive | decoder.go:76-136 | the scan rests at the first candidate (marker preceded by an even run of start bytes) that is not a complete frame with a wrong check character, and drops everything exactly when all candidates are such |
| StreamLaws.FaultIff | decoder.go:99-108 | decoding panics exactly when the first candidate that is not rejected announces exactly the bytes left after its header |
| StreamLaws.RunIsSound | decoder.go:51-136 | in every run of feeds and decodes the returned packets are valid frames at disjoint, increasing positions of the bytes fed, and what is pending is the end of those bytes |
| StreamLaws.PacketsAreBounded | decoder.go:51-136 | 25 times the number of packets never exceeds the bytes fed |
| StreamLaws.ModesAgree | decoder.go:146-166 | runs with and without the start bytes in the check are identical on every input |
| StreamLaws.Resynchronises | decoder.go:76-136 | after marker-free junk not ending in a start byte and a full-length frame with a wrong check character hiding no marker, a valid frame is the next one returned exactly when the damaged one does not end in a start byte |
| StreamLaws.FoundIff | decoder.go:76-136 | whatever comes before and after it, a valid frame is the next one returned, with the bytes behind it left, exactly when its first byte is the first candidate that is not rejected |
| StreamLaws.FoundAfterJunkIff | decoder.go:79-112 | a valid frame behind marker-free bytes is the next one returned exactly when those bytes do not end in a start byte |
| StreamLaws.FramesRoundTrip | decoder.go:76-127 | concatenated frames of any packets drain to those packets in order with nothing pending |
| StreamLaws.StreamRoundTrip | decoder.go:173-221 | any list of encoded messages, concatenated, drains to the same messages in order with nothing pending, whatever markers their payloads contain |
| StreamLaws.RoundTripIff | decoder.go:173-221 | an encoded message comes back exactly when its payload is shorter than 65536 bytes |
| StreamLaws.OneByteErrorRejected | decoder.go:108-114 | a valid frame with one byte changed outside marker and length is rejected, and the scan resumes two bytes further on |
| BcdTime.TimeRoundTripIff | decoder.go:325-369 | an encoded calendar time is read back unchanged exactly when its year is in 2000..2159 |
| BcdTime.BinaryRoundTripIff | decoder.go:317-357 | in binary form exactly when its year is in 2000..2099 |
| Codec.DecodeMotorData | codec/motor.go:19-52 | the record loop reads the counted 12-byte records and leaves the missing ones zero |
| Codec.DecodeFuelCellData | codec/battery.go:25-67 | the cursor reads the length-dependent layout, failing exactly when it is short |
| Codec.DecodeAlarmData | codec/alarm.go:14-30 | level, 32-bit length and bytes, failing exactly when they do not fit |
| Codec.DecodeVoltageData | codec/voltage.go:31-69 | the nested subsystem and cell loops compute the recursive reading of the slice |
| Codec.ReadCells | codec/voltage.go:54-64 | the cell loop reads cells until the count or the data is exhausted |
| Codec.DecodeTemperatureData | codec/temperature.go:19-49 | the subsystem loop with its clipped probe lists computes the recursive reading of the slice |
| Codec.DecodeFieldData | codec/field.go:29-34 | dispatch on the identifier |
| FieldWire.FieldRoundTrip | codec/field.go:29-34 | decoding the wire form of any well-formed field, alarms and temperatures included, gives back the field with every list full |
| FieldExtent.FindFieldEnd | message.go:165-228 | the switch and its two scanning loops compute the field end, -1 when the fixed part is missing |
| FieldExtent.ScanAgreesWithDecoder | message.go:165-228 | for every buffer, position and identifier, an end inside the buffer delimits a slice that the matching decoder reads successfully and without loss (all lists of the field full, and encoded to exactly that slice); for the alarm exactly when the scanned length is the one the field carries |
| FieldExtent.EncodedExtent | message.go:165-228 | prefix stability: a well-formed field other than an alarm ends where its encoding ends, whatever follows |
| Realtime.DecodeRealtimeData | message.go:14-163 | the first copy of the field loop computes the parse and terminates without an out-of-range access |
| Realtime.DecodeRealtimeItem | message.go:265-414 | the second copy computes the same message and the position it stops at |
| Realtime.FieldsParsed | message.go:275-411 | wherever well-formed non-alarm fields lie in a buffer, the loop runs through them and applies each in order |
| Realtime.FoldIsSummary | message.go:298-410 | applying fields in order keeps the last value of each single-valued field and all motors in order, and nothing of temperatures |
| Realtime.RealtimeIsSummary | message.go:265-414 | a message of well-formed non-alarm fields decodes to that summary and is consumed entirely |
| Realtime.RealtimeComposes | message.go:275-411 | parsing the fields A then B equals applying B to the result of A |
| Realtime.AlarmNeverDecoded | message.go:193-197 | every payload below 65536 bytes with a nonzero month byte decodes without an alarm |
| Realtime.AlarmStep | message.go:193-197 | at an alarm the loop stops if the scanned length leads beyond the buffer, goes on inside the alarm without it if that length is shorter than the alarm, and otherwise stores it and goes on where the length leads |
| Realtime.AlarmDecodedIff | message.go:193-197 | the alarm at the end of a message is decoded exactly when bytes 1 to 4 spell its length |
| Realtime.AlarmEndsMessage | message.go:279-288 | a message decodes to just the fields before its first alarm, with the alarm's identifier counted as consumed, exactly when bytes 1 to 4 spell more than the bytes left after the alarm's head |
| Reissue.DecodeReissueData | message.go:234-263 | head, count and item loop compute the list of items |
| Reissue.DecodeItems | message.go:251-260 | the item loop stops at the announced count, the end of the data or the first failing item |
| Reissue.ReissueIsBounded | message.go:234-263 | for every byte string: no more items than announced, and 8 + 6 times their number never exceeds the length |
| Reissue.ReissueSegments | message.go:234-263 | any list of fewer than 65536 items of well-formed non-alarm fields, joined without delimiters, is recovered exactly if every item after the first starts with a byte outside 0x01..0x09 |
| Reissue.ItemParsedIff | message.go:265-288 | an item followed by any bytes is read to its end and no further exactly when the next byte, if there is one, is no field identifier |
| Reissue.EachIsReadIff | message.go:251-260 | each item of a message is read to its end exactly when every item after the first starts with a byte outside 0x01..0x09 |
| Reissue.SegmentedByCoincidence | message.go:251-260 | the decoded items can come out right although one was not read to its end |
| Reissue.SafeFirstByteIff | message.go:275-288 | a byte is a safe first byte of items in every message exactly when it is outside 0x01..0x09 |
| Crypto.DecryptInvertsEncrypt | crypto.go:34-60 | chained decryption inverts chained encryption for any number of blocks |
| Crypto.CipherRoundTrip | crypto.go:24-68 | every payload survives encryption and decryption under a long enough key, the ciphertext being 1 to 16 bytes longer |
| Crypto.DecryptedIsShorter | crypto.go:44-68 | whatever decrypts is a whole number of blocks and 1 to 16 bytes longer than its payload |
| Crypto.ReencryptsIff | crypto.go:76-85 | a ciphertext that decrypts is the encryption of its payload exactly when every plaintext byte after the payload equals the last one |
| Crypto.RepadsIff | crypto.go:70-85 | padding that is taken off is what padding would put on exactly when all its bytes are equal |
| Crypto.BadPaddingDecrypts | crypto.go:76-85 | under every key some block decrypts that is the encryption of no payload |
| Crypto.DeriveAESKey | crypto.go:15-22 | the key is the first 16 bytes of the token, filled up with zeros |
| Tlv.BuildParamQuery | conn.go:150-159 | the append loop builds time, count byte and identifiers |
| Tlv.DecodeParamQueryData | decoder.go:440-458 | the cursor loop reads identifiers until the count or the data is exhausted |
| Tlv.ParamQueryRoundTripIff | decoder.go:440-458 | a parameter query comes back unchanged exactly when it has at most 255 identifiers |
| Tlv.BuildParamSetting | conn.go:161-172 | the append loop builds time, count byte and length-prefixed values |
| Tlv.DecodeParamSettingData | decoder.go:464-492 | the cursor loop reads settings until the count, the data or a value that does not fit |
| Tlv.ParamSettingRoundTripIff | decoder.go:464-492 | settings come back unchanged exactly when there are at most 255, with values of at most 255 bytes |
| Tlv.PlatformLoginRoundTripIff | decoder.go:402-420 | a platform login comes back unchanged exactly when both strings have at most 255 bytes |
| Tlv.DecodeLoginData | decoder.go:239-286 | the cursor reads time, sequence, ICCID and the configuration fields that fit |
| Tlv.LoginRoundTrip | decoder.go:239-286 | a vehicle login laid out by the standard is read back field by field |
| Registry.VinRegistry.Add | vin_registry.go:16-20 | appends the connection to the list of the VIN, other lists unchanged |
| Registry.VinRegistry.Remove | vin_registry.go:22-39 | removes the first occurrence of the connection from the list of the VIN and the VIN with its last entry |
| Registry.RemoveFrom | vin_registry.go:30-35 | the search loop removes exactly the first occurrence |
| Registry.VinRegistry.Get | vin_registry.go:41-50 | the first connection listed, none exactly when the list is empty |
| Registry.VinRegistry.GetAll | vin_registry.go:52-61 | the whole list, empty for an unknown VIN |
| Registry.RunIsConsistent | server.go:170-176 | in every run no VIN maps to an empty list and a connection that is not closed is listed under its VIN |
| Registry.ListingAccount | server.go:170-176 | in every run a connection is listed under a VIN once for each login with it, less each close that took effect while it had that VIN |
| Registry.StaleEntryIff | server.go:170-176 | in every run a closed connection is still listed under a VIN exactly when it once logged in again while open under it, that is when its logins with the VIN outnumber its closes under it |
| Registry.ListIsOpenLogins | conn.go:278-284 | if each connection logs in at most once and never after its close, the list of a VIN is exactly the open connections that logged in with it, in login order |
| Registry.SecondLoginLeavesEntry | conn.go:278-284 | the shortest run that leaves such an entry: two logins with one VIN, then the close |
| IndexRace.ListedIsLargestNet | vin_registry.go:16-39 | in every interleaving of the steps of logins and closes a connection is listed under a VIN as often as adds outnumber removals in the end of the run where they do so most |
| IndexRace.SingleLoginListedIff | conn.go:278-284 | in every interleaving a connection that logs in once is listed exactly when its entry was added and no later step removed it |
| IndexRace.FinishedStaysListed | conn.go:186-195 | the entries of a closed connection with no login or close in progress never change until it logs in again, whatever other connections do |
| IndexRace.CloseDuringLogin | conn.go:278-284 | a close between the stored state and the added entry leaves the closed connection listed, with one login and none after the close |
| Capacity.CountAndLimit | server.go:95-103 | in every interleaving of the code as written the counter is the number of connections plus closers between delete and decrement, minus an acceptor between store and increment, minus surplus deletions; the limit is exceeded by no more than the surplus |
| Capacity.CapacityHolds | server.go:170-172 | at the end of every run the counter is exact, up to the steps in flight, exactly when no connection was deleted twice; then the limit is not exceeded |
| Capacity.LimitIff | server.go:95-103 | for every run and limit, some continuation without any deletion leads to more connections than the limit exactly when some connection was deleted twice |
| Capacity.SurplusIff | server.go:170-172 | the surplus is zero exactly when every connection was deleted at most once |
| Capacity.OrderlyIsEnough | conn.go:186-195 | if no closer starts on a connection another has checked but not marked and no closed connection logs in, every connection has one closer at a time, none is deleted twice and the limit holds |
| Capacity.TwoClosersBreakLimit | conn.go:186-195 | two closers that both pass the state check before either stores lead to two connections with a limit of one |
| Capacity.LateLoginBreaksLimit | conn.go:267-280 | so does one login handled after a close |
| Session.Connection.Send | conn.go:96-125 | refused when closed, without a 17-byte VIN or on a closed socket; otherwise exactly one frame is written, encrypted when there is a key and a payload |
| Session.Connection.Close | conn.go:186-198 | marks the connection closed and closes the socket once |
| Session.Connection.HandlePacket | conn.go:248-470 | decryption first, then the effect of the command on VIN, ICCID, state, key and what is written |
| Session.Connection.HandleLogin | conn.go:262-303 | a refused VIN closes, an undecodable login changes nothing, the response goes out before the new key is set |
| Session.Connection.Receive | conn.go:226-230 | one read: what it completes is handled packet by packet, numbered from those handled before |
| Session.Connection.ProcessPackets | conn.go:234-246 | decodes and handles packets until there is none or the decoder panics, also after one that closes the connection |
| Session.HandlingIsDrain | conn.go:234-246 | handling packets as they are decoded is handling the packets of the drain in order |
| Session.Connection.ReadLoop | conn.go:207-231 | chunks are read until the connection is closed, the decoder panics or no more arrive |
| Session.Connection.Serve | conn.go:200-232 | the read loop, and the close when it ends |
| SessionLaws.KeyInForceIff | conn.go:299-321 | a key is in force exactly when some login granted its token and nothing since granted another or logged out |
| SessionLaws.RunReflects | conn.go:186-321 | in every run VIN, key and socket of the connection are those the events so far dictate |
| SessionLaws.FrameHistory | conn.go:96-125 | every frame ever written was written by one event, after a login and before any close, with the VIN of the latest login, encrypted exactly when a key was in force before that event and the payload is not empty, under that key |
| SessionLaws.SendWritesIff | conn.go:96-125 | a call of Send writes its frame exactly when the connection was never closed and some login preceded it |
| SessionLaws.EncryptedFrameReceived | conn.go:108-123 | an encrypted frame of a payload of 1 to 65519 bytes is decoded as sent |
| SessionLaws.EncryptedSendIff | conn.go:108-123 | with a key set, the receiver of a nonempty payload finds a packet that decrypts to it exactly when the payload has at most 65519 bytes |
| SessionLaws.FrameOpens | conn.go:108-123 | every frame Send writes, encrypted or not, is read back by a peer with the same key, up to 65519 bytes with a key and 65535 without |
| SessionLaws.TimeIsServed | conn.go:356-379 | a heartbeat or time calibration request on an open, logged-in connection is answered by one frame of the same command in which the peer reads the VIN and the server's time |
| SessionLaws.LoginIsAnswered | conn.go:262-303 | an answered login whose response fits a frame puts out one frame with the new VIN, readable under the key in force before it, holding time, sequence, result and token, after which the token's key is in force |
| Peer.WireGrows | conn.go:96-125 | the wire grows by exactly the frame of the letter an event sends, if it sends one |
| Peer.PeerReadsAll | conn.go:248-321 | a peer that starts without a key, takes the token of each login response for its new key and drops the key with each logout it sends, in the order the connection handles these events, reads exactly the commands, VINs and payloads sent, in order, if they fit a frame and no login response with a token is sent by hand; while the connection is open it holds the key in force |
| Lives.LifeStops | conn.go:207-231 | a connection handles exactly the packets of the chunks read until one of them closes it |
| Lives.LifeIgnoresCuts | conn.go:207-246 | for every packet handling that never reopens a socket: if no packet of the stream but the last closes the connection, what becomes of it does not depend on how its bytes were safely cut into reads, and if none closes it, neither do the bytes held |
| Lives.FramesAreHandled | conn.go:207-246 | frames that arrive in chunks starting at good positions are all handled, one by one in order and leaving nothing pending, exactly when the socket is still open whenever more bytes come |
| Lives.HoweverCutIff | conn.go:207-246 | frames are all handled, however they are cut at good positions, exactly when no packet but the last closes the connection |
| Lives.ClosingEndsReading | conn.go:207-246 | a packet that closes the connection and a second one: in one read both are handled, in two safely cut reads of the same bytes only the first |
| Lives.RefusedLoginEndsReading | conn.go:262-269 | a login that is turned away is such a packet |

## Left out

- Sockets, deadlines, keep-alive, contexts, logging, tickers and sleeps: input, output and wall-clock time; only reads as chunks, writes as a list of frames and the closing of the socket remain.
- The AES block function and random connection identifiers: the cipher is any pair of functions that are inverse on 16-byte blocks for each key, identifiers are fresh numbers.
- Forwarders, JSON, configuration options, buffer pool, demos and the VIN whitelist: wrappers without protocol logic; whether a VIN is admitted is part of a login event.
- Vehicle, engine, position and extreme fields: their fixed-width bodies of 20, 5, 8 and 10 bytes are opaque records; the copying between equal record types in the two field loops is the identity, and the reserved bytes of the vehicle field are kept.
- Lives.FramesAreHandled: the connection is closed by its own packets only; a `Close` from another goroutine can end the reading at any point and is part of the limit and index models.
- Peer.PeerReadsAll: the peer's logouts take effect where the connection handles them; frames in flight at that moment are not modelled.
- Handlers that call Send or Close from inside a callback: handler answers are part of the event, so such calls count as separate events after it.
- Platform messages and parameter acknowledgements reaching handlers: they change nothing on the connection. A parameter query response is an arbitrary payload, since its layout has no matching decoder.
- Normalisation of out-of-range times: a decoded time is the six numbers read. For encoded calendar times it could only move 29 February within its year.
- Local time zones in encoded times: a time is a calendar time in UTC.
- Platforms where a Go `int` has 32 bits: the alarm length is added without overflow.
- Sharing of backing arrays by `append` in the padding and in the VIN index: the results are modelled as values.
- Block chaining is modelled as recursion over the blocks because its loops belong to the Go standard library.
- Registry.ListIsOpenLogins: logins and closes are whole events there; their interleaving is the subject of `IndexRace.dfy`, which counts entries and leaves out the order of the list.
- The idle check, `Stop` and `GetConnection`: they add closers and reads, which the limit model allows at any point.
