# XBee device session and API frame codec

This project is a Dafny model of the core of the LagoVista ZigBee driver for
XBee radio modules, with proofs about it. The core has two parts.

- **The API frame (`Frame`).** The encoder (`MessageBuffer`) writes a frame's
  properties into a 1024-byte buffer. It writes the 0x7E delimiter, a
  big-endian length, the body for the frame type and a checksum, and stamps
  each frame with the next value of a shared wrapping 8-bit frame-id counter.
  The decoder (`HandleByte`) fills the properties in from the received bytes,
  one call per byte, and reports completion on the checksum byte. The
  two-character AT command text is packed into a 16-bit code and back.
- **The device session (`XBeeDevice`).** It has:
  - the read queue of AT parameters to query and the write queue of profile
    entries to send;
  - the settings read back from the radio, and the eleven-entry provisioning
    profile;
  - six completion slots, one per kind of operation in flight, each resolved
    by a reply or by its timer;
  - the dispatch of every decoded frame (AT command responses, modem status,
    received packets);
  - automatic replies to the ZigBee device-object requests Active_EP_req and
    Simple_Desc_req, and to ZCL Read Attributes on the local end point;
  - `InitializeAsync`: it queries fifteen parameters, counts the profile
    entries that differ, and then writes the profile, saves it with WR and
    resets the radio with FR, each step only after the one before succeeded.

## Module layout

- `Wrappers` holds `Option` and `Result`.
- `Bytes` holds byte and word types, the unbounded byte sum and the XBee
  checksum.
- `FrameLayout` is the encoder's specification: `EncodeBody` and `Wire`, the
  AT code packing and the frame-id sequence.
- `FrameDecoding` is the decoder's specification:
  - `Step` is one `HandleByte` call on a `FrameState` value, and `Feed` is many
    calls in a row;
  - `Decode` describes the same frame purely by byte positions;
  - `FeedIsDecode` proves that the two agree on every byte stream.
- `Frames` holds the classes `Frame` and `FrameIdCounter`. Their methods work
  on fields and arrays, and each is proved against those specifications.
- `Provisioning` holds:
  - the profile and the list of parameters queried at start-up;
  - the read-queue fold, which upper-cases and deduplicates the codes;
  - the mismatch count.
- `Zdo` holds the builders of the ZDO and ZCL replies, and independent parsers
  that read the replies back the way the ZigBee specification lays them out.
- `Completion` models the six completion slots. Each task is a ticket, and its
  result, once set, is kept.
- `DeviceSession` is the session state as a value. It has one function per
  operation, each proved to keep the session invariant `Valid`.
- `SessionLaws` holds the properties of the session:
  - the effect of each kind of reply;
  - the query and profile conversations, end to end;
  - the gating of the initialisation chain;
  - the ZDO answers;
  - the invariant over any run of inputs.
- `Device` holds the class `XBeeDevice`. Its fields are the session state.
  Each method is proved to produce exactly the state that the matching
  `DeviceSession` function describes, so everything in `SessionLaws` holds of
  the class. Each public method also keeps the class invariant `Valid`.
  `HandleATReadFrame` keeps it only while the comms object is attached, which
  is the only time a frame reaches it. Where the source throws,
  `AddSettingToQuery`, `AddSettingsToQuery` and `BeginQuery` return false and
  `ResumeInitialize` leaves the phase `Faulted`, each after making the changes
  the source made before the throw.

## Behaviour of the code the model keeps as written

- **A slot that is already in use.** A new operation of that kind overwrites
  the slot; it is not rejected. The earlier task is orphaned and can never be
  resolved (`Completion.IssueOrphans`).
- **A timer that fires late.** The timer resolves whatever task its slot
  holds when it fires, which may be a newer task than the one that armed it
  (`SessionLaws.TimeoutResolvesFalse`).
- **The checksum on receive.** The decoder never checks the received
  checksum; it only stores it. A frame type it does not know never completes.
- **Lengths that are too short.** A length below 5 for an AT command response,
  or below 18 for a receive packet, makes the payload allocation throw. This
  is modelled as `Failure(NegativeLength)`.
- **Frame types the encoder does not know.** They are encoded with only the
  frame type and frame id. A `TxATCommandTransmitRequest` always throws: its
  payload copy indexes the payload at offset minus 23 from offset 17
  (`FrameLayout.TransmitRequestNeverEncodes`).
- **The 64-bit address.** It is shifted by 54 bits, not 56, for its first
  byte:
  - on encode, the checked byte conversions throw for any address of 2^16 or
    more, so the shift is never visible on the wire
    (`FrameLayout.Address64Encodable`);
  - on decode, an address whose first byte is nonzero is assembled wrongly
    (`FrameDecoding.Address64FirstByteShift`).
- **The Initializing state.** `_currentState` is never set to `Initializing`;
  only the notification is raised. `InitializeAsync` raises the Ready
  notification without setting the state. The state becomes `Ready` only when
  a read reply drains the read queue.
- **Calls after `Dispose`.** `Dispose` releases the comms object, and the
  code keeps running on it. `BeginQuery` still arms its timer and dequeues the
  next code before the send throws. `AddSettingToQuery` queues the code before
  its logging loop throws (once a setting is stored). A continuation of
  `InitializeAsync` that finishes still announces Ready and returns its
  result; one that logs the profile comparison or starts the next task throws
  instead and never announces Ready. The model calls that phase `Faulted`:
  the task that was started stays in its slot with no timer of its own, and
  is resolved only if a timer armed earlier on that slot fires.
- **An encoded AT command frame.** AT command "NI" with value 58 42 and
  frame id 1 has length 6 (frame type, frame id, two command bytes, two value
  bytes) and encodes to 7E 00 06 08 01 4E 49 58 42 C5
  (`FrameLayout.NodeIdentifierExample`).

## Model

| member | source | states |
|---|---|---|
| FrameLayout.AtCommandCode | src/LagoVista.ZigBee/Models/Frame.cs:96-104 | the setter succeeds exactly on a two-character text whose characters fit a byte, and fails (the setter throws) on any other |
| FrameLayout.AtCommandText | src/LagoVista.ZigBee/Models/Frame.cs:106-114 | the getter gives "-" for code 0 and two characters for any other code |
| FrameLayout.AtCommandRoundTrip | src/LagoVista.ZigBee/Models/Frame.cs:94-115 | setting a two-character text and reading it back gives the same text, unless the text is NUL NUL |
| FrameLayout.AtCommandTextRoundTrip | src/LagoVista.ZigBee/Models/Frame.cs:94-115 | reading a nonzero code as text and setting that text gives back the code |
| FrameLayout.AtCommandZeroIsDash | src/LagoVista.ZigBee/Models/Frame.cs:106-108 | only NUL NUL packs to 0; code 0 reads as "-", and the setter rejects "-" |
| Frames.Frame.SetAtCommandString | src/LagoVista.ZigBee/Models/Frame.cs:96-104 | succeeds exactly when the text packs; the packed code is stored and reads back as the text; nothing else changes |
| Bytes.Checksum | src/LagoVista.ZigBee/Models/Frame.cs:144-152 | the covered bytes plus the checksum sum to 0xFF modulo 256 |
| Bytes.ChecksumVerifies | src/LagoVista.ZigBee/Models/Frame.cs:144-152 | the covered bytes plus a candidate byte sum to 0xFF modulo 256 exactly when the candidate is the checksum |
| Frames.CalculateCheckSum | src/LagoVista.ZigBee/Models/Frame.cs:144-152 | the loop returns the checksum of buffer bytes 3 through len |
| Frames.FrameIdCounter.Next | src/LagoVista.ZigBee/Models/Frame.cs:154-161 | the counter increments, wrapping from 255 to 0, and the new value is returned |
| FrameLayout.FrameIdsAt | src/LagoVista.ZigBee/Models/Frame.cs:154-161 | the i-th frame encoded after the counter stood at `last` gets id (last + i + 1) mod 256 |
| FrameLayout.FrameIdsDistinct | src/LagoVista.ZigBee/Models/Frame.cs:154-161 | any 256 successive encodes carry pairwise different frame ids |
| FrameLayout.FrameIdsPeriod | src/LagoVista.ZigBee/Models/Frame.cs:154-161 | in any run of more than 256 encodes, the 257th repeats the first frame id |
| FrameLayout.Address64Encodable | src/LagoVista.ZigBee/Models/Frame.cs:180-187 | the eight address bytes can be written exactly when the address is below 2^16, and they are then six zeros and the address big-endian |
| FrameLayout.EncodeBodyFits | src/LagoVista.ZigBee/Models/Frame.cs:163-245 | every body the encoder produces fits the 1024-byte buffer and starts with the frame type and frame id |
| FrameLayout.EncodedFrameLaws | src/LagoVista.ZigBee/Models/Frame.cs:163-245 | every encoded frame has delimiter 0x7E, the frame type in byte 3, the id in byte 4, length bytes equal to the total length minus 4, and a checksum over bytes 3 onward that sums to 0xFF |
| FrameLayout.AtCommandFrameLayout | src/LagoVista.ZigBee/Models/Frame.cs:214-227 | AT frames carry the command big-endian in bytes 5-6 and the value verbatim from byte 7 (a null value gives an 8-byte frame); they fail exactly when the value overruns the buffer |
| FrameLayout.ExplicitFrameEncodes | src/LagoVista.ZigBee/Models/Frame.cs:177-212 | an explicit-addressing frame encodes exactly when the address is below 2^16, the payload is not null and the payload fits |
| FrameLayout.ExplicitFrameLayout | src/LagoVista.ZigBee/Models/Frame.cs:177-212 | the byte position of every field of an explicit-addressing frame, with the payload from byte 23 and 24 + payload bytes in all |
| FrameLayout.TransmitRequestNeverEncodes | src/LagoVista.ZigBee/Models/Frame.cs:177-212 | the TxATCommandTransmitRequest path always throws |
| FrameLayout.NodeIdentifierExample | src/LagoVista.ZigBee/Models/Frame.cs:163-245 | "NI" with value 58 42 and frame id 1 encodes to 7E 00 06 08 01 4E 49 58 42 C5 |
| Frames.CopyPayload | src/LagoVista.ZigBee/Models/Frame.cs:206-210 | the copy loop succeeds exactly when it starts at the base and the payload fits; it then writes the payload there and leaves the bytes before it alone |
| Frames.Seal | src/LagoVista.ZigBee/Models/Frame.cs:229-243 | the length is patched and the checksum appended; the result is the wire frame of the written body, or IndexOutOfRange when the checksum falls past the buffer |
| Frames.Frame.WriteBody | src/LagoVista.ZigBee/Models/Frame.cs:166-227 | writes exactly the body the encoder specification gives, or fails with its error |
| Frames.Frame.WriteFrame | src/LagoVista.ZigBee/Models/Frame.cs:165-243 | returns a fresh array holding the wire frame of the body, or the encoder's error; it computes a checksum exactly when the body was written (it fits up to the checksum position), and that checksum is the body's |
| Frames.Frame.MessageBuffer | src/LagoVista.ZigBee/Models/Frame.cs:163-245 | stamps the next frame id, changes nothing else but the checksum, and returns the wire frame of the encoded body or throws the encoder's error; on a throw the checksum property is unchanged unless the body reaches the checksum position 1024, where the checksum of the body is stored before the store into the buffer throws |
| Frames.Frame.constructor | src/LagoVista.ZigBee/Models/Frame.cs:11 | a new frame has every property zero and the byte pointer at 1 (the delimiter has already been read) |
| Frames.Frame.HandleByte | src/LagoVista.ZigBee/Models/Frame.cs:247-346 | one received byte has exactly the effect of `Step`; on a throw, only the length and frame type read so far have changed |
| Frames.Frame.ModemStatusBlock | src/LagoVista.ZigBee/Models/Frame.cs:255-264 | the modem status at byte 4 and completion on byte 5 |
| Frames.Frame.AtResponseBlock | src/LagoVista.ZigBee/Models/Frame.cs:266-282 | the AT response fields, the payload allocation and fill, and completion at Length + 3 |
| Frames.Frame.ReceiveBlock | src/LagoVista.ZigBee/Models/Frame.cs:284-319 | the receive packet fields, the payload allocation and fill, and completion at Length + 3 |
| Frames.Frame.TransmitStatusBlock | src/LagoVista.ZigBee/Models/Frame.cs:321-337 | the transmit status fields and completion at Length + 3 |
| FrameDecoding.FeedIsDecode | src/LagoVista.ZigBee/Models/Frame.cs:247-346 | feeding any byte stream to a new frame gives the frame described by byte positions: it fails at byte 3 on a length too short for the type, completes at byte 5 or Length + 3, and otherwise stays open |
| FrameDecoding.WireDecodes | src/LagoVista.ZigBee/Models/Frame.cs:247-346 | a readable wire frame stays open up to its checksum and completes on it, holding its fields by position |
| FrameDecoding.AtResponseDecodes | src/LagoVista.ZigBee/Models/Frame.cs:266-282 | an AT command response yields its frame id, command, status, value and checksum |
| FrameDecoding.ReceiveDecodes | src/LagoVista.ZigBee/Models/Frame.cs:284-319 | a receive packet yields its 16-bit address, endpoints, cluster, profile, options, payload and checksum, and a big-endian 64-bit address when its first byte is zero |
| FrameDecoding.ModemStatusDecodes | src/LagoVista.ZigBee/Models/Frame.cs:255-264 | a modem status frame completes on its fifth byte and yields the status |
| FrameDecoding.TransmitStatusDecodes | src/LagoVista.ZigBee/Models/Frame.cs:321-337 | a transmit status yields its address, retry count, delivery and discovery status; its frame id byte is not kept |
| FrameDecoding.Address64TopByteZero | src/LagoVista.ZigBee/Models/Frame.cs:288-295 | an address whose first byte is zero is assembled to its big-endian value |
| FrameDecoding.Address64FirstByteShift | src/LagoVista.ZigBee/Models/Frame.cs:288-295 | the first address byte is shifted by 54 bits: 01 00 .. 00 comes out as 2^54, not 2^56 |
| Provisioning.ProfileShape | src/LagoVista.ZigBee/Devices/XBeeDevice.cs:485-500 | the profile has eleven two-character keys in insertion order and ends with the link key |
| Provisioning.ProfileKeysDistinct | src/LagoVista.ZigBee/Devices/XBeeDevice.cs:485-500 | no key is added to the profile twice |
| Device.XBeeDevice.CreateXBeeProvision | src/LagoVista.ZigBee/Devices/XBeeDevice.cs:485-500 | the profile becomes exactly the eleven entries, and nothing else changes |
| Device.XBeeDevice.constructor | src/LagoVista.ZigBee/Devices/XBeeDevice.cs:55-60 | a new device holds the initial session, which is valid |
| DeviceSession.Initial | src/LagoVista.ZigBee/Devices/XBeeDevice.cs:36-60 | the initial session (profile created, comms attached, queues and settings empty, Offline) satisfies the invariant |
| DeviceSession.AddSettingToQuery | src/LagoVista.ZigBee/Devices/XBeeDevice.cs:64-76 | a two-character code is upper-cased and queued unless already queued, anything else changes nothing; the call returns normally exactly when the code is two characters long and the settings can be logged (attached, or no setting read back yet: after `Dispose` the logging loop throws on the released comms object once a setting is stored); keeps the invariant |
| Device.XBeeDevice.AddSettingToQuery | src/LagoVista.ZigBee/Devices/XBeeDevice.cs:64-76 | has exactly the effect of `DeviceSession.AddSettingToQuery`, and returns false after `Dispose` with a setting stored, where the source throws after queuing the code |
| Provisioning.EnqueueLaws | src/LagoVista.ZigBee/Devices/XBeeDevice.cs:70-73 | adding a code keeps the queue free of duplicates, keeps its prefix, and adds exactly the upper-cased code |
| DeviceSession.AddSettingsToQuery | src/LagoVista.ZigBee/Devices/XBeeDevice.cs:78-84 | the queue is cleared and holds the codes up to the first invalid one, or only the first code when the first call already throws after `Dispose`; returns normally exactly when every code is two characters long and either there are none or the settings can be logged; keeps the invariant |
| Device.XBeeDevice.AddSettingsToQuery | src/LagoVista.ZigBee/Devices/XBeeDevice.cs:78-84 | the loop clears the queue and adds each code, stopping at the first call that throws, with the effect of `DeviceSession.AddSettingsToQuery` |
| SessionLaws.AddSettingsInTurn | src/LagoVista.ZigBee/Devices/XBeeDevice.cs:78-84 | `AddSettingsToQuery` is the queue cleared, then `AddSettingToQuery` on each code in turn up to and including the first call that throws |
| SessionLaws.InTurnFrom | src/LagoVista.ZigBee/Devices/XBeeDevice.cs:64-84 | while the settings can be logged, adding codes in turn to a queue built from earlier codes queues exactly the codes before the first invalid one, and returns normally exactly when all are valid |
| SessionLaws.AddValidSettings | src/LagoVista.ZigBee/Devices/XBeeDevice.cs:78-84 | valid codes on a session that can log its settings are all queued and the call returns normally |
| Provisioning.QueuedMembers | src/LagoVista.ZigBee/Devices/XBeeDevice.cs:78-84 | the read queue holds no code twice, and holds exactly the upper-cased codes given |
| Provisioning.QueuedOrder | src/LagoVista.ZigBee/Devices/XBeeDevice.cs:78-84 | the read queue is in order of first occurrence among the upper-cased codes |
| Provisioning.QueryCodesQueued | src/LagoVista.ZigBee/Devices/XBeeDevice.cs:512-513 | the fifteen start-up parameters are queued exactly as listed |
| DeviceSession.BeginQuery | src/LagoVista.ZigBee/Devices/XBeeDevice.cs:86-119 | keeps the invariant, attached or not (its effect is stated by `SessionLaws.BeginQueryEffect`) |
| SessionLaws.BeginQueryEffect | src/LagoVista.ZigBee/Devices/XBeeDevice.cs:86-119 | the query timer is always armed; with codes queued the head is dequeued, the tail kept and no task resolved, and the head is sent and the call returns normally exactly when the comms object is attached (after `Dispose` the send throws); with none queued nothing is sent, the query slot resolves true, and the call returns normally exactly when there was a query slot |
| Device.XBeeDevice.BeginQuery | src/LagoVista.ZigBee/Devices/XBeeDevice.cs:86-119 | has exactly the effect of `DeviceSession.BeginQuery`; false where the source throws on a missing query slot or on the released comms object |
| DeviceSession.HandleATRead | src/LagoVista.ZigBee/Devices/XBeeDevice.cs:137-189 | a value reply keeps the invariant and only adds to the completions, outbox and events |
| Device.XBeeDevice.HandleATReadFrame | src/LagoVista.ZigBee/Devices/XBeeDevice.cs:137-189 | has exactly the effect of `DeviceSession.HandleATRead` |
| SessionLaws.AssociationReply | src/LagoVista.ZigBee/Devices/XBeeDevice.cs:139-152 | an AI reply sets the join state from its first byte, fires the join event and resolves the connectivity slot with it; settings, read queue and outbox are unchanged |
| SessionLaws.ValueReply | src/LagoVista.ZigBee/Devices/XBeeDevice.cs:137-189 | any other value reply stores its value under its code; it then sends the next queued code, or makes the state Ready (one notification if it was not) and resolves the query true |
| DeviceSession.HandleATWrite | src/LagoVista.ZigBee/Devices/XBeeDevice.cs:191-220 | a reply without a value keeps the invariant |
| Device.XBeeDevice.HandleATWriteFrame | src/LagoVista.ZigBee/Devices/XBeeDevice.cs:191-220 | has exactly the effect of `DeviceSession.HandleATWrite` |
| SessionLaws.WriteReplyEffect | src/LagoVista.ZigBee/Devices/XBeeDevice.cs:191-220 | a reply to DA resolves the disassociate slot true; then the next queued write is sent, or the profile slot resolves true |
| DeviceSession.HandleWriteEEPROM | src/LagoVista.ZigBee/Devices/XBeeDevice.cs:222-243 | the WR reply keeps the invariant |
| Device.XBeeDevice.HandleWriteEPROMFrame | src/LagoVista.ZigBee/Devices/XBeeDevice.cs:222-243 | has exactly the effect of `DeviceSession.HandleWriteEEPROM` |
| SessionLaws.SaveReplyEffect | src/LagoVista.ZigBee/Devices/XBeeDevice.cs:222-243 | the WR reply resolves the save slot to whether its status is OK, and does nothing else |
| DeviceSession.HandleModemStatus | src/LagoVista.ZigBee/Devices/XBeeDevice.cs:375-392 | a modem status keeps the invariant |
| Device.XBeeDevice.HandleModemStatusFrame | src/LagoVista.ZigBee/Devices/XBeeDevice.cs:375-392 | has exactly the effect of `DeviceSession.HandleModemStatus` |
| SessionLaws.ModemStatusEffect | src/LagoVista.ZigBee/Devices/XBeeDevice.cs:375-392 | JoinedNetwork and Disassociated set the join state and fire the event; the watchdog reset resolves the reset slot true; any other status changes nothing |
| DeviceSession.SetJoined | src/LagoVista.ZigBee/Devices/XBeeDevice.cs:400-410 | the join state is set and the join event fires on every assignment, changed or not |
| Device.XBeeDevice.SetJoinedToNetwork | src/LagoVista.ZigBee/Devices/XBeeDevice.cs:400-410 | has exactly the effect of `DeviceSession.SetJoined` |
| DeviceSession.FrameReady | src/LagoVista.ZigBee/Devices/XBeeDevice.cs:247-393 | once disposed, a frame changes nothing; otherwise the dispatch keeps the invariant |
| Device.XBeeDevice.FrameReady | src/LagoVista.ZigBee/Devices/XBeeDevice.cs:247-393 | has exactly the effect of `DeviceSession.FrameReady` |
| SessionLaws.DisposedIgnoresFrames | src/LagoVista.ZigBee/Devices/XBeeDevice.cs:249-250 | a disposed session ignores any sequence of frames |
| Zdo.ActiveEpReply | src/LagoVista.ZigBee/Devices/XBeeDevice.cs:263-283 | the reply is built exactly when the request has at least three bytes |
| Zdo.ActiveEpReplyReadsBack | src/LagoVista.ZigBee/Devices/XBeeDevice.cs:263-283 | the Active_EP_rsp answers the request's sequence number with success for the requested address and names end point 1 |
| Zdo.SimpleDescReply | src/LagoVista.ZigBee/Devices/XBeeDevice.cs:285-328 | the reply is built exactly when the request has four bytes and the clusters convert and number at most 123; it then has 13 + 2n bytes |
| Zdo.FillSimpleDescReply | src/LagoVista.ZigBee/Devices/XBeeDevice.cs:285-328 | filling the payload index by index gives exactly `SimpleDescReply` |
| Zdo.FillClusters | src/LagoVista.ZigBee/Devices/XBeeDevice.cs:318-326 | the cluster loop writes each id low byte first from index 12, and fails exactly when an id is negative |
| Zdo.ClusterBytesReadBack | src/LagoVista.ZigBee/Devices/XBeeDevice.cs:318-326 | the written cluster bytes read back as the cluster ids |
| Zdo.SimpleDescReplyReadsBack | src/LagoVista.ZigBee/Devices/XBeeDevice.cs:285-328 | the Simple_Desc_rsp describes the requested end point as a home-automation on/off output, version 0x30, accepting exactly the given clusters and sending none |
| Zdo.DefaultClusterBytes | src/LagoVista.ZigBee/Devices/XBeeDevice.cs:412-419 | the default clusters go out as 00 00 03 00 06 00 |
| Zdo.AttributeReply | src/LagoVista.ZigBee/Devices/XBeeDevice.cs:357-365 | the reply is built exactly when the request has at least four bytes |
| Zdo.AttributeReplyReadsBack | src/LagoVista.ZigBee/Devices/XBeeDevice.cs:357-365 | the ZCL reply answers the request's sequence number, from server to client, with success and boolean false, for the requested attribute when its high byte is zero |
| Zdo.RepliesEncode | src/LagoVista.ZigBee/Devices/XBeeDevice.cs:263-371 | every reply the device builds is accepted by the encoder, under any frame id |
| DeviceSession.HandleReceive | src/LagoVista.ZigBee/Devices/XBeeDevice.cs:261-374 | a received packet keeps the invariant |
| Device.XBeeDevice.HandleReceivePacket | src/LagoVista.ZigBee/Devices/XBeeDevice.cs:261-374 | has exactly the effect of `DeviceSession.HandleReceive` |
| SessionLaws.ActiveEndpointsAnswered | src/LagoVista.ZigBee/Devices/XBeeDevice.cs:263-283 | an Active_EP_req is answered by one encodable frame on cluster 0x8005 that reads back correctly; a short request sends nothing |
| SessionLaws.SimpleDescriptorAnswered | src/LagoVista.ZigBee/Devices/XBeeDevice.cs:285-328 | a Simple_Desc_req is answered by one encodable frame on cluster 0x8004 listing the session's input clusters; where building it throws, nothing is sent |
| SessionLaws.DefaultClustersAnswered | src/LagoVista.ZigBee/Devices/XBeeDevice.cs:412-419 | with the default clusters, every well-formed Simple_Desc_req is answered, listing Basic, Identify and On/Off |
| SessionLaws.AttributeReadAnswered | src/LagoVista.ZigBee/Devices/XBeeDevice.cs:329-373 | a home-automation packet for end point 1 gets a Read Attributes response back to its sender when MY has been read; any other packet goes to HandleFrame |
| SessionLaws.SentFramesEncode | src/LagoVista.ZigBee/Devices/XBeeDevice.cs:263-371 | everything a valid session has sent is an AT request with a two-character code, or a frame the encoder accepts |
| DeviceSession.Start | src/LagoVista.ZigBee/Devices/XBeeDevice.cs:462-483 | starting a task keeps the invariant and takes the next ticket |
| SessionLaws.StartSends | src/LagoVista.ZigBee/Devices/XBeeDevice.cs:462-483 | a started task holds the next ticket in its slot, its AT request is sent and its timer is armed |
| Device.XBeeDevice.Disassociate | src/LagoVista.ZigBee/Devices/XBeeDevice.cs:462-483 | returns the new ticket; DA is sent and the disassociate timer armed |
| Device.XBeeDevice.GetIsConnected | src/LagoVista.ZigBee/Devices/XBeeDevice.cs:570-591 | returns the new ticket; AI is sent and the connectivity timer armed |
| Device.XBeeDevice.ResetDevice | src/LagoVista.ZigBee/Devices/XBeeDevice.cs:547-568 | returns the new ticket; FR is sent and the reset timer armed |
| Device.XBeeDevice.SaveEPROMSettings | src/LagoVista.ZigBee/Devices/XBeeDevice.cs:594-615 | returns the new ticket; WR is sent and the save timer armed |
| DeviceSession.TransmitProfile | src/LagoVista.ZigBee/Devices/XBeeDevice.cs:519-545 | sending the profile keeps the invariant and takes the next ticket |
| Device.XBeeDevice.TransmitProfile | src/LagoVista.ZigBee/Devices/XBeeDevice.cs:519-545 | the loop queues every profile entry behind the write queue and sends the head, with the effect of `DeviceSession.TransmitProfile` |
| SessionLaws.TransmitProfileStarts | src/LagoVista.ZigBee/Devices/XBeeDevice.cs:519-545 | with an empty write queue, the first profile entry is sent, the rest are queued, a new profile task is taken and its timer is armed |
| SessionLaws.WriteRound | src/LagoVista.ZigBee/Devices/XBeeDevice.cs:191-220 | with n entries queued, n + 1 write replies send every entry in order and resolve the profile task true |
| SessionLaws.ProfileConversation | src/LagoVista.ZigBee/Devices/XBeeDevice.cs:519-545 | TransmitProfile followed by eleven write replies writes all eleven entries once each, in profile order, and resolves the profile task true |
| DeviceSession.QueryDevice | src/LagoVista.ZigBee/Devices/XBeeDevice.cs:505-517 | starting the query keeps the invariant |
| Device.XBeeDevice.QueryDevice | src/LagoVista.ZigBee/Devices/XBeeDevice.cs:505-517 | returns the new ticket, with the effect of `DeviceSession.QueryDevice` |
| SessionLaws.QueryDeviceStarts | src/LagoVista.ZigBee/Devices/XBeeDevice.cs:505-517 | the query announces Initializing without changing the state, takes a new query task, arms the query timer, sends OP and queues the other fourteen |
| SessionLaws.QueryRound | src/LagoVista.ZigBee/Devices/XBeeDevice.cs:137-189 | with n codes queued, n + 1 value replies request every code in order, store every reply, make the state Ready and resolve the query true |
| SessionLaws.QueryConversation | src/LagoVista.ZigBee/Devices/XBeeDevice.cs:505-517 | QueryDeviceAsync followed by fifteen value replies requests each parameter once, in list order, stores every reply, makes the state Ready and resolves the query true |
| DeviceSession.Timeout | src/LagoVista.ZigBee/Devices/XBeeDevice.cs:468-480 | a timer firing keeps the invariant |
| Device.XBeeDevice.Timeout | src/LagoVista.ZigBee/Devices/XBeeDevice.cs:468-480 | has exactly the effect of `DeviceSession.Timeout` |
| SessionLaws.TimeoutResolvesFalse | src/LagoVista.ZigBee/Devices/XBeeDevice.cs:468-480 | a timer empties its slot and resolves the task the slot holds to false |
| Completion.Issue | src/LagoVista.ZigBee/Devices/XBeeDevice.cs:464 | a new completion source takes the next ticket in its slot and keeps the slots consistent |
| Completion.Resolve | src/LagoVista.ZigBee/Devices/XBeeDevice.cs:472-477 | resolving a slot keeps the slots consistent |
| Completion.ResolveEffect | src/LagoVista.ZigBee/Devices/XBeeDevice.cs:472-477 | resolving sets exactly the slot's ticket to the value and empties that slot only; an empty slot changes nothing |
| Completion.ResolveAtMostOnce | src/LagoVista.ZigBee/Devices/XBeeDevice.cs:472-477 | a second resolution of a slot (a late reply, or the timer after a reply) changes nothing |
| Completion.IssueOrphans | src/LagoVista.ZigBee/Devices/XBeeDevice.cs:464 | a new task in a busy slot orphans the task it replaces, which can then never be resolved |
| Completion.IssueFresh | src/LagoVista.ZigBee/Devices/XBeeDevice.cs:464 | a new task is unresolved and held by its slot only |
| SessionLaws.RunKeeps | src/LagoVista.ZigBee/Devices/XBeeDevice.cs:22-30 | after any run of frames, timers and calls, the invariant holds, and no task's result has been set twice or changed |
| SessionLaws.ReachableValid | src/LagoVista.ZigBee/Devices/XBeeDevice.cs:55-60 | every session reachable from a new device is valid |
| Device.XBeeDevice.Dispose | src/LagoVista.ZigBee/Devices/XBeeDevice.cs:682-688 | the state becomes Disposed and the comms object is released |
| DeviceSession.Dispose | src/LagoVista.ZigBee/Devices/XBeeDevice.cs:682-688 | the state becomes Disposed and the comms object is released; the invariant is kept |
| Provisioning.MismatchCountPositive | src/LagoVista.ZigBee/Devices/XBeeDevice.cs:622-644 | the count is positive exactly when an entry other than KY was read back with different bytes; unreported entries never count |
| Provisioning.ProvisionedDeviceMatches | src/LagoVista.ZigBee/Devices/XBeeDevice.cs:622-644 | a device that reports the profile values as they are is not rewritten, whatever its link key |
| Device.XBeeDevice.CountMismatches | src/LagoVista.ZigBee/Devices/XBeeDevice.cs:622-644 | the loop counts exactly the mismatching profile entries |
| DeviceSession.Initialize | src/LagoVista.ZigBee/Devices/XBeeDevice.cs:617-619 | InitializeAsync starts the query and awaits its ticket |
| Device.XBeeDevice.Initialize | src/LagoVista.ZigBee/Devices/XBeeDevice.cs:617-619 | has exactly the effect of `DeviceSession.Initialize` |
| SessionLaws.InitializeQueries | src/LagoVista.ZigBee/Devices/XBeeDevice.cs:617-619 | initialisation announces Initializing, sends OP, queues the rest, and awaits the query task |
| DeviceSession.ResumeInitialize | src/LagoVista.ZigBee/Devices/XBeeDevice.cs:620-662 | each continuation of InitializeAsync keeps the invariant, also after `Dispose` (what it does then is stated by `SessionLaws.ChainAfterDispose`) |
| Device.XBeeDevice.ResumeInitialize | src/LagoVista.ZigBee/Devices/XBeeDevice.cs:620-662 | has exactly the effect of `DeviceSession.ResumeInitialize`, attached or not |
| SessionLaws.ChainGating | src/LagoVista.ZigBee/Devices/XBeeDevice.cs:620-662 | the profile is sent only after a successful query that found a mismatch, the save only after a successful send, the reset only after a successful save; when the chain stops without a fault, Ready is announced and the last result returned |
| SessionLaws.ChainAfterDispose | src/LagoVista.ZigBee/Devices/XBeeDevice.cs:620-662 | after `Dispose` a continuation sends nothing and awaits nothing; it faults exactly after a successful query with a profile entry to log, or a successful send or save (whose next task is left in its slot with no timer of its own), without announcing Ready; every other continuation finishes as before |
| DeviceSession.MismatchLogged | src/LagoVista.ZigBee/Devices/XBeeDevice.cs:622-645 | a profile that counts a mismatch has an entry other than KY, so the comparison loop logs |
| SessionLaws.ChainStartsAwaitedTask | src/LagoVista.ZigBee/Devices/XBeeDevice.cs:647-655 | each continuation awaits the task it has just started, which sits in the matching slot with its request the last thing sent |
| DeviceSession.Finish | src/LagoVista.ZigBee/Devices/XBeeDevice.cs:659-662 | the end of InitializeAsync keeps the invariant |
| Device.XBeeDevice.Finish | src/LagoVista.ZigBee/Devices/XBeeDevice.cs:659-662 | has exactly the effect of `DeviceSession.Finish` |

## Left out

- **The comms object.** `IZigBeeComms` is not part of this model. Every send
  is appended to the session's outbox; the result of `SendFrameAsync` is
  ignored, as the code ignores it. Subscribing to and unsubscribing from
  `FrameReady` is the `attached` flag.
- **The timeout tasks.** `Task.Delay` and `Task.Run` become an armed timer
  per slot. A timer fires as an explicit input, at any point after it was
  armed. The durations (1500 ms, 3000 ms and `BeginQuery`'s timeout argument)
  are not modelled.
- **Locks and concurrency.** Each handler and each call runs to completion
  before the next input. The `lock (this)` blocks are therefore implicit.
  Concurrent `InitializeAsync` calls are not modelled.
- **Events and logging.** `DeviceStateChanged` and `ZigbeeJoinStatusChanged`
  are kept as an event log. The text `LogMessage` writes, `FormatByteArray`,
  `RaisePropertyChanged` and the diagnostic `Logger.LogException` are left
  out. `LogMessage` reads `_comms.ShowDiagnostics`, so after `Dispose` it
  throws; that is modelled where the core reaches it, in `AddSettingToQuery`
  and in the comparison loop of `InitializeAsync` (`ResumeInitialize`). The
  `ShowDiagnostics` flag itself is not modelled.
- **`HandleFrame`.** It is abstract, so a forwarded frame is appended to a log.
- **`GetInClusters`.** It is virtual, and its result is fixed per device as a
  constructor parameter. The default list is `Zdo.DefaultInClusters`.
- **Members outside the core.** `AnnounceAsync`, the `SendFrame` and
  `SendATFrame` pass-throughs, the empty `GetClusterAttribute`, and the
  `ToString`, `FormatHex` and `WritePayload` formatting of `Frame` are
  left out: they only forward to the comms object or format text.
- **Strings.** `ToUpper` is modelled on the ASCII letters only. The UTF-8
  bytes of "Xbee End Point" are written out as a constant. Null strings,
  lists and payload arguments are not modelled, except the null `Payload`
  property of a frame.
- **The frame's enum properties.** They are kept as the raw bytes that were
  received.
- Device.XBeeDevice.Disassociate: requires `attached`. After `Dispose` the
  source creates the completion source and then throws a
  NullReferenceException on the released comms object. The same holds of
  Device.XBeeDevice.GetIsConnected, ResetDevice and SaveEPROMSettings; of
  TransmitProfile, which also queues the profile and dequeues its head first;
  of QueryDevice and Initialize, which also announce Initializing and then,
  with no setting stored, queue the fifteen codes and arm the query timer
  before the send throws, and with a setting stored queue OP and throw in
  the logging loop; and of Dispose, whose second call
  throws on unsubscribing. These throwing calls are not modelled.
- DeviceSession.AddSettingToQuery and DeviceSession.AddSettingsToQuery: a
  code is valid when it is two Unicode scalar values long. C# `Length`
  counts UTF-16 code units, so a single character outside the Basic
  Multilingual Plane passes the source's check (one character, two code
  units) but is rejected by the model, and two such characters are the other
  way round.
- Device.XBeeDevice.TransmitProfile: requires a non-empty profile. The source
  always holds the eleven-entry profile there; with an empty one its
  `Dequeue` would throw.
- DeviceSession.FrameReady and DeviceSession.HandleReceive: an exception
  thrown while building a reply escapes the `async void` handler as an
  unhandled exception in the source. The model only drops the frame and sends
  nothing. The cases are: an Active_EP_req shorter than 3 bytes; a
  Simple_Desc_req shorter than 4 bytes, or with a negative cluster or more
  than 123 clusters; a home-automation packet to end point 1 before MY was
  read, or with MY shorter than 2 bytes; and a Read Attributes request shorter
  than 4 bytes. They are exactly the cases where `ZdoReply` or
  `AttributeReplyTo` give None. What an unhandled exception does to the
  process is not modelled.
- Device.XBeeDevice.Initialize: requires that no initialisation is already
  awaiting a task (one `InitializeAsync` at a time).
- SessionLaws.ProfileConversation: stated for the eleven-entry profile the
  constructor creates (`SessionLaws.ProfileRoundFrom` states it for any
  non-empty profile).
