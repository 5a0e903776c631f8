/** The Frame object: the properties of one XBee API frame, HandleByte, which
    fills them in from received bytes one call per byte, and MessageBuffer,
    which encodes them into a wire frame through a 1024-byte scratch buffer. */
module Frames {
  import opened Wrappers
  import opened Bytes
  import opened FrameLayout
  import opened FrameDecoding

  /** The frame-id counter every Frame shares (a static byte field); it wraps
      from 255 to 0. */
  class FrameIdCounter {
    var last: byte

    constructor()
      ensures last == 0
    {
      last := 0;
    }

    /** GetNextFrameId: increments the counter and returns the new value. */
    method Next() returns (id: byte)
      modifies this
      ensures id == NextFrameId(old(last)) && last == id
    {
      last := if last == 0xFF then 0 else last + 1;
      id := last;
    }
  }

  /** CalculateCheckSum: 0xFF minus the low byte of the sum of buffer[3..len]. */
  method CalculateCheckSum(buffer: array<byte>, len: int) returns (c: byte)
    requires 2 <= len < buffer.Length
    ensures c == Checksum(buffer[3..len + 1])
  {
    var sum: nat := 0;
    var idx := 3;
    while idx < len + 1
      invariant 3 <= idx <= len + 1
      invariant sum == Sum(buffer[3..idx])
    {
      assert buffer[3..idx + 1][..idx - 3] == buffer[3..idx];
      sum := sum + buffer[idx];
      idx := idx + 1;
    }
    c := 0xFF - sum % 0x100;
  }

  /** The payload-copying loop of MessageBuffer: `buffer[ptr] = Payload[ptr - base]`
      while `ptr < base + Payload.Length`, which throws IndexOutOfRange when either
      index is out of its array. Returns the offset after the payload. */
  method CopyPayload(buffer: array<byte>, ptr0: nat, base: nat, data: array<byte>) returns (r: Result<nat, EncodeError>)
    requires buffer != data
    requires ptr0 <= base <= buffer.Length
    modifies buffer
    ensures r.Success? <==> ptr0 == base && base + data.Length <= buffer.Length
    ensures r.Failure? ==> r.error == IndexOutOfRange
    ensures r.Success? ==> r.value == base + data.Length
    ensures r.Success? ==> buffer[..base] == old(buffer[..base]) && buffer[base..r.value] == data[..]
  {
    var ptr := ptr0;
    while ptr < base + data.Length
      invariant ptr == ptr0 || (ptr0 == base && base < ptr <= buffer.Length && ptr <= base + data.Length)
      invariant buffer[..ptr0] == old(buffer[..ptr0])
      invariant ptr0 == base ==> buffer[base..ptr] == data[..ptr - base]
    {
      if ptr < base || ptr >= buffer.Length {
        return Failure(IndexOutOfRange);
      }
      buffer[ptr] := data[ptr - base];
      ptr := ptr + 1;
    }
    return Success(ptr);
  }

  /** The end of MessageBuffer: patches the length into bytes 1-2, computes the
      checksum over bytes 3 .. ptr-1, stores it at ptr (IndexOutOfRange when
      ptr is past the buffer) and returns a copy of bytes 0 .. ptr. */
  method Seal(buffer: array<byte>, ptr: nat) returns (c: byte, r: Result<array<byte>, EncodeError>)
    requires 5 <= ptr <= buffer.Length == BufferSize
    requires buffer[0] == StartDelimiter
    modifies buffer
    ensures c == Checksum(old(buffer[3..ptr]))
    ensures r.Success? <==> ptr < BufferSize
    ensures r.Failure? ==> r.error == IndexOutOfRange
    ensures r.Success? ==> fresh(r.value) && r.value[..] == Wire(old(buffer[3..ptr]))
  {
    ghost var body := buffer[3..ptr];
    buffer[1] := Hi(ptr - 3);
    buffer[2] := Lo(ptr - 3);
    assert buffer[3..ptr] == body;
    c := CalculateCheckSum(buffer, ptr - 1);
    if ptr >= buffer.Length {
      return c, Failure(IndexOutOfRange);
    }
    buffer[ptr] := c;
    var sendBuffer := new byte[ptr + 1](_ => 0);
    assert buffer[..3] == [StartDelimiter, Hi(|body|), Lo(|body|)];
    for idx := 0 to ptr + 1
      modifies sendBuffer
      invariant sendBuffer[..idx] == buffer[..idx]
    {
      sendBuffer[idx] := buffer[idx];
    }
    assert sendBuffer[..] == buffer[..ptr + 1];
    assert buffer[..ptr + 1] == buffer[..3] + buffer[3..ptr] + [buffer[ptr]];
    return c, Success(sendBuffer);
  }

  class Frame {
    var bytePointer: nat
    var length: u16
    var frameType: byte
    var frameId: byte
    var atCommand: u16
    var atCommandStatus: byte
    var address64: u64
    var address16: u16
    var sourceEndPoint: byte
    var destinationEndPoint: byte
    var clusterId: u16
    var profileId: u16
    var broadcastRadius: byte
    var options: byte
    var transmitRetryCount: byte
    var deliveryStatus: byte
    var discoveryStatus: byte
    var receiveOptions: byte
    var payload: array?<byte>
    var checkSum: byte
    var modemStatus: byte

    /** The payload property: null or the bytes of the array. */
    function Payload(): Option<seq<byte>>
      reads this, payload
    {
      if payload == null then None else Some(payload[..])
    }

    /** All properties of the object, with the byte pointer. */
    function State(): FrameState
      reads this, payload
    {
      FrameState(bytePointer, length, frameType, frameId, atCommand, atCommandStatus,
                 address64, address16, sourceEndPoint, destinationEndPoint, clusterId, profileId,
                 broadcastRadius, options, transmitRetryCount, deliveryStatus, discoveryStatus,
                 receiveOptions, Payload(), checkSum, modemStatus)
    }

    /** The properties the encoder reads. */
    function Fields(): FrameFields
      reads this, payload
    {
      FrameFields(frameType, atCommand, address64, address16, sourceEndPoint, destinationEndPoint,
                  clusterId, profileId, broadcastRadius, options, Payload())
    }

    /** A new frame, ready for the byte after the start delimiter. */
    constructor()
      ensures State() == Fresh
    {
      bytePointer := 1;
      length, frameType, frameId, atCommand, atCommandStatus := 0, 0, 0, 0, 0;
      address64, address16, sourceEndPoint, destinationEndPoint := 0, 0, 0, 0;
      clusterId, profileId, broadcastRadius, options := 0, 0, 0, 0;
      transmitRetryCount, deliveryStatus, discoveryStatus, receiveOptions := 0, 0, 0, 0;
      payload, checkSum, modemStatus := null, 0, 0;
    }

    /** The ATCommandString getter. */
    function AtCommandString(): string
      reads this
    {
      AtCommandText(atCommand)
    }

    /** The ATCommandString setter; false where it throws. */
    method SetAtCommandString(s: string) returns (ok: bool)
      modifies this
      ensures ok <==> AtCommandCode(s).Some?
      ensures ok ==> atCommand == AtCommandCode(s).value
      ensures ok && s != "\0\0" ==> AtCommandString() == s
      ensures State() == old(State()).(atCommand := atCommand)
      ensures !ok ==> atCommand == old(atCommand)
    {
      if |s| != 2 || !IsByteChar(s[0]) || !IsByteChar(s[1]) {
        return false;
      }
      atCommand := Word(CharByte(s[0]), CharByte(s[1]));
      if s != "\0\0" {
        AtCommandRoundTrip(s);
      }
      ok := true;
    }

    /** The RxModemStatus block of HandleByte. */
    method ModemStatusBlock(ch: byte) returns (completed: bool)
      modifies this
      ensures State() == StepModemStatus(old(State()), ch).frame && payload == old(payload)
      ensures completed == StepModemStatus(old(State()), ch).completed
    {
      completed := false;
      if bytePointer == 4 { modemStatus := ch; }
      if bytePointer == 5 {
        checkSum := ch;
        completed := true;
      }
    }

    /** The RxAtCommandResponse block of HandleByte. */
    method AtResponseBlock(ch: byte) returns (r: Result<bool, DecodeError>)
      modifies this, payload
      ensures r.Success? <==> StepAtResponse(old(State()), ch).Success?
      ensures r.Success? ==> State() == StepAtResponse(old(State()), ch).value.frame
      ensures r.Success? ==> r.value == StepAtResponse(old(State()), ch).value.completed
      ensures r.Failure? ==> r.error == StepAtResponse(old(State()), ch).error && State() == old(State())
    {
      ghost var s0 := State();
      if bytePointer == 3 {
        if length < 5 { return Failure(NegativeLength); }
        payload := new byte[length - 5](_ => 0);
        assert payload[..] == seq(length - 5, _ => 0);
      }
      ghost var s1 := State();
      assert s1 == if bytePointer == 3 then s0.(payload := Some(seq(length - 5, _ => 0))) else s0;
      if bytePointer == 4 { frameId := ch; }
      else if bytePointer == 5 { atCommand := Word(ch, 0); }
      else if bytePointer == 6 { atCommand := OrByte(atCommand, ch); }
      else if bytePointer == 7 { atCommandStatus := ch; }
      ghost var s5 := State();
      assert s5 == s1.(
        frameId := if bytePointer == 4 then ch else s1.frameId,
        atCommand := if bytePointer == 5 then Word(ch, 0)
                     else if bytePointer == 6 then OrByte(s1.atCommand, ch) else s1.atCommand,
        atCommandStatus := if bytePointer == 7 then ch else s1.atCommandStatus);
      if 7 < bytePointer < length + 3 {
        if payload == null || bytePointer - 8 >= payload.Length { return Failure(PayloadIndex); }
        payload[bytePointer - 8] := ch;
        assert State() == s5.(payload := Some(s5.payload.value[bytePointer - 8 := ch]));
      }
      var completed := false;
      if bytePointer == length + 3 {
        checkSum := ch;
        completed := true;
      }
      return Success(completed);
    }

    /** Bytes 4 to 20 of the RxReceivePacket block. */
    method ReceiveFieldsBlock(ch: byte)
      modifies this
      ensures State() == ReceiveFields(old(State()), ch) && payload == old(payload)
    {
      if bytePointer == 4 { address64 := Shifted(ch, 4); }
      else if 5 <= bytePointer <= 11 { address64 := Or64(address64, Shifted(ch, bytePointer)); }
      else if bytePointer == 12 { address16 := Word(ch, 0); }
      else if bytePointer == 13 { address16 := OrByte(address16, ch); }
      else if bytePointer == 14 { sourceEndPoint := ch; }
      else if bytePointer == 15 { destinationEndPoint := ch; }
      else if bytePointer == 16 { clusterId := Word(ch, 0); }
      else if bytePointer == 17 { clusterId := OrByte(clusterId, ch); }
      else if bytePointer == 18 { profileId := Word(ch, 0); }
      else if bytePointer == 19 { profileId := OrByte(profileId, ch); }
      else if bytePointer == 20 { receiveOptions := ch; }
    }

    /** The RxReceivePacket block of HandleByte. */
    method ReceiveBlock(ch: byte) returns (r: Result<bool, DecodeError>)
      modifies this, payload
      ensures r.Success? <==> StepReceive(old(State()), ch).Success?
      ensures r.Success? ==> State() == StepReceive(old(State()), ch).value.frame
      ensures r.Success? ==> r.value == StepReceive(old(State()), ch).value.completed
      ensures r.Failure? ==> r.error == StepReceive(old(State()), ch).error && State() == old(State())
    {
      ghost var s0 := State();
      if bytePointer == 3 {
        if length < 18 { return Failure(NegativeLength); }
        payload := new byte[length - 18](_ => 0);
        assert payload[..] == seq(length - 18, _ => 0);
      }
      ghost var s1 := State();
      assert s1 == if bytePointer == 3 then s0.(payload := Some(seq(length - 18, _ => 0))) else s0;
      ReceiveFieldsBlock(ch);
      ghost var s2 := State();
      assert s2 == ReceiveFields(s1, ch);
      if 20 < bytePointer < length + 3 {
        if payload == null || bytePointer - 21 >= payload.Length { return Failure(PayloadIndex); }
        payload[bytePointer - 21] := ch;
        assert State() == s2.(payload := Some(s2.payload.value[bytePointer - 21 := ch]));
      }
      var completed := false;
      if bytePointer == length + 3 {
        checkSum := ch;
        completed := true;
      }
      return Success(completed);
    }

    /** The RxTransmitStatus block of HandleByte. */
    method TransmitStatusBlock(ch: byte) returns (completed: bool)
      modifies this
      ensures State() == StepTransmitStatus(old(State()), ch).frame && payload == old(payload)
      ensures completed == StepTransmitStatus(old(State()), ch).completed
    {
      if bytePointer == 5 { address16 := Word(ch, 0); }
      else if bytePointer == 6 { address16 := OrByte(address16, ch); }
      else if bytePointer == 7 { transmitRetryCount := ch; }
      else if bytePointer == 8 { deliveryStatus := ch; }
      else if bytePointer == 9 { discoveryStatus := ch; }
      completed := false;
      if bytePointer == length + 3 {
        checkSum := ch;
        completed := true;
      }
    }

    /** HandleByte: stores one received byte at the position the byte pointer holds
        and reports whether it completed the frame. A Failure is the exception
        the C# code throws: the object then holds the length and frame type
        read so far and the byte pointer has not moved. */
    method HandleByte(ch: byte) returns (r: Result<bool, DecodeError>)
      modifies this, payload
      ensures r.Success? <==> Step(old(State()), ch).Success?
      ensures r.Success? ==>
                State() == Step(old(State()), ch).value.frame && r.value == Step(old(State()), ch).value.completed
      ensures r.Failure? ==>
                r.error == Step(old(State()), ch).error && State() == Header(old(State()), ch)
    {
      ghost var s0 := State();
      var k := bytePointer;
      if bytePointer == 1 { length := Word(ch, 0); }
      else if bytePointer == 2 { length := OrByte(length, ch); }
      else if bytePointer == 3 { frameType := ch; }
      assert State() == Header(s0, ch);
      r := TypeBlock(ch);
      if r.Success? && !r.value {
        bytePointer := k + 1;
      }
    }

    /** The block of HandleByte for the frame type. */
    method TypeBlock(ch: byte) returns (r: Result<bool, DecodeError>)
      modifies this, payload
      ensures r.Success? <==> Block(old(State()), ch).Success?
      ensures r.Success? ==> State() == Block(old(State()), ch).value.frame && r.value == Block(old(State()), ch).value.completed
      ensures r.Failure? ==> r.error == Block(old(State()), ch).error && State() == old(State())
    {
      if frameType == RxModemStatus {
        var completed := ModemStatusBlock(ch);
        r := Success(completed);
      } else if frameType == RxAtCommandResponse {
        r := AtResponseBlock(ch);
      } else if frameType == RxReceivePacket {
        r := ReceiveBlock(ch);
      } else if frameType == RxTransmitStatus {
        var completed := TransmitStatusBlock(ch);
        r := Success(completed);
      } else {
        r := Success(false);
      }
    }

    /** The fixed fields of an addressed frame from offset 5: the address bytes,
        the 16-bit address, for explicit frames endpoints, cluster and profile,
        then radius and options. Returns the offset after them. */
    method WriteAddressFields(buffer: array<byte>, a: seq<byte>) returns (ptr: nat)
      requires buffer.Length == BufferSize && |a| == 8
      modifies buffer
      ensures ptr == if frameType == TxExplicitAddressCommand then 23 else 17
      ensures frameType == TxExplicitAddressCommand ==>
                buffer[5..ptr] == a + [Hi(address16), Lo(address16), sourceEndPoint, destinationEndPoint,
                                       Hi(clusterId), Lo(clusterId), Hi(profileId), Lo(profileId),
                                       broadcastRadius, options]
      ensures buffer[..5] == old(buffer[..5])
    {
      WriteAddresses(buffer, a);
      ghost var addressed := buffer[5..15];
      ptr := 15;
      if frameType == TxExplicitAddressCommand {
        WriteEndpointFields(buffer);
        ptr := 21;
      }
      buffer[ptr] := broadcastRadius;
      buffer[ptr + 1] := options;
      ptr := ptr + 2;
      if frameType == TxExplicitAddressCommand {
        assert buffer[5..23] == addressed + buffer[15..21] + buffer[21..23];
      }
    }

    /** Bytes 5 to 14 of an addressed frame: the 64-bit address bytes, then the
        16-bit address, high byte first. */
    method WriteAddresses(buffer: array<byte>, a: seq<byte>)
      requires buffer.Length == BufferSize && |a| == 8
      modifies buffer
      ensures buffer[5..15] == a + [Hi(address16), Lo(address16)]
      ensures buffer[..5] == old(buffer[..5])
    {
      buffer[5], buffer[6], buffer[7], buffer[8] := a[0], a[1], a[2], a[3];
      buffer[9], buffer[10], buffer[11], buffer[12] := a[4], a[5], a[6], a[7];
      buffer[13] := Hi(address16);
      buffer[14] := Lo(address16);
    }

    /** Bytes 15 to 20 of an explicit frame: endpoints, cluster, profile. */
    method WriteEndpointFields(buffer: array<byte>)
      requires buffer.Length == BufferSize
      modifies buffer
      ensures buffer[15..21] == [sourceEndPoint, destinationEndPoint, Hi(clusterId), Lo(clusterId), Hi(profileId), Lo(profileId)]
      ensures buffer[..15] == old(buffer[..15])
    {
      buffer[15] := sourceEndPoint;
      buffer[16] := destinationEndPoint;
      buffer[17] := Hi(clusterId);
      buffer[18] := Lo(clusterId);
      buffer[19] := Hi(profileId);
      buffer[20] := Lo(profileId);
    }

    /** The TxExplicitAddressCommand / TxATCommandTransmitRequest part of
        MessageBuffer, from offset 5: the fixed fields, then the payload. */
    method WriteAddressed(buffer: array<byte>) returns (r: Result<nat, EncodeError>)
      requires buffer.Length == BufferSize && buffer != payload
      requires frameType == TxExplicitAddressCommand || frameType == TxATCommandTransmitRequest
      modifies buffer
      ensures r.Failure? ==> EncodeBody(Fields(), frameId) == Failure(r.error)
      ensures r.Failure? ==> BodyOf(Fields(), frameId).Failure? || 3 + |BodyOf(Fields(), frameId).value| > BufferSize
      ensures r.Success? ==>
                && BodyOf(Fields(), frameId).Success?
                && r.value == 3 + |BodyOf(Fields(), frameId).value| <= BufferSize
                && buffer[5..r.value] == BodyOf(Fields(), frameId).value[2..]
                && buffer[..5] == old(buffer[..5])
    {
      var address := Address64Bytes(address64);
      if address.None? {
        return Failure(AddressOverflow);
      }
      var ptr := WriteAddressFields(buffer, address.value);
      if payload == null {
        return Failure(NullPayload);
      }
      var copied := CopyPayload(buffer, ptr, 23, payload);
      if copied.Failure? {
        return Failure(copied.error);
      }
      assert buffer[5..copied.value] == buffer[5..ptr] + buffer[ptr..copied.value];
      return Success(copied.value);
    }

    /** The TxATCommand / TxATCommandQueueParameterValue part of MessageBuffer:
        the AT command and, when there is one, the parameter value, from offset 5. */
    method WriteAtCommand(buffer: array<byte>) returns (r: Result<nat, EncodeError>)
      requires buffer.Length == BufferSize && buffer != payload
      requires frameType == TxATCommand || frameType == TxATCommandQueueParameterValue
      modifies buffer
      ensures r.Failure? ==> EncodeBody(Fields(), frameId) == Failure(r.error)
      ensures r.Failure? ==> BodyOf(Fields(), frameId).Failure? || 3 + |BodyOf(Fields(), frameId).value| > BufferSize
      ensures r.Success? ==>
                && BodyOf(Fields(), frameId).Success?
                && r.value == 3 + |BodyOf(Fields(), frameId).value| <= BufferSize
                && buffer[5..r.value] == BodyOf(Fields(), frameId).value[2..]
                && buffer[..5] == old(buffer[..5])
    {
      buffer[5] := Hi(atCommand);
      buffer[6] := Lo(atCommand);
      if payload == null {
        return Success(7);
      }
      var copied := CopyPayload(buffer, 7, 7, payload);
      if copied.Failure? {
        return Failure(copied.error);
      }
      assert buffer[5..copied.value] == [Hi(atCommand), Lo(atCommand)] + payload[..];
      return Success(copied.value);
    }

    /** The body of the frame from offset 3: frame type, frame id and the
        fields of the frame type. Returns the offset after it. */
    method WriteBody(buffer: array<byte>) returns (r: Result<nat, EncodeError>)
      requires buffer.Length == BufferSize && buffer != payload
      modifies buffer
      ensures r.Failure? ==> EncodeBody(Fields(), frameId) == Failure(r.error)
      ensures r.Failure? ==> BodyOf(Fields(), frameId).Failure? || 3 + |BodyOf(Fields(), frameId).value| > BufferSize
      ensures r.Success? ==>
                && BodyOf(Fields(), frameId).Success?
                && r.value == 3 + |BodyOf(Fields(), frameId).value| <= BufferSize
                && buffer[3..r.value] == BodyOf(Fields(), frameId).value
                && buffer[..3] == old(buffer[..3])
    {
      buffer[3] := frameType;
      buffer[4] := frameId;
      if frameType == TxExplicitAddressCommand || frameType == TxATCommandTransmitRequest {
        r := WriteAddressed(buffer);
      } else if frameType == TxATCommand || frameType == TxATCommandQueueParameterValue {
        r := WriteAtCommand(buffer);
      } else {
        r := Success(5);
      }
      if r.Success? {
        assert buffer[3] == frameType && buffer[4] == frameId;
        assert buffer[3..r.value] == [frameType, frameId] + buffer[5..r.value];
      }
    }

    /** MessageBuffer: stamps the next frame id, writes delimiter, placeholder
        length, frame type, frame id and the fields of the frame type into a
        1024-byte buffer, patches the length, appends the checksum and returns a
        copy of the used bytes. A Failure is the exception the getter throws. */
    method MessageBuffer(ids: FrameIdCounter) returns (result: Result<array<byte>, EncodeError>)
      modifies this, ids
      ensures frameId == ids.last == NextFrameId(old(ids.last))
      ensures Fields() == old(Fields())
      ensures State() == old(State()).(frameId := frameId, checkSum := checkSum)
      ensures result.Success? <==> EncodeBody(Fields(), frameId).Success?
      ensures result.Success? ==>
                && fresh(result.value)
                && result.value[..] == Wire(EncodeBody(Fields(), frameId).value)
                && checkSum == Checksum(EncodeBody(Fields(), frameId).value)
      ensures result.Failure? ==> result.error == EncodeBody(Fields(), frameId).error
      ensures result.Failure? ==>
                if BodyOf(Fields(), frameId).Success? && 3 + |BodyOf(Fields(), frameId).value| == BufferSize
                then checkSum == Checksum(BodyOf(Fields(), frameId).value)
                else checkSum == old(checkSum)
    {
      frameId := ids.Next();
      var sealed;
      sealed, result := WriteFrame();
      if sealed.Some? {
        checkSum := sealed.value;
      }
    }

    /** The buffer work of MessageBuffer, for the frame id already stamped.
        Returns the checksum when it was computed: the body was written, and
        the checksum is computed even when its own position 1024 is past the
        end of the buffer. */
    method WriteFrame() returns (sealed: Option<byte>, result: Result<array<byte>, EncodeError>)
      ensures result.Success? <==> EncodeBody(Fields(), frameId).Success?
      ensures result.Success? ==>
                && fresh(result.value)
                && result.value[..] == Wire(EncodeBody(Fields(), frameId).value)
                && sealed == Some(Checksum(EncodeBody(Fields(), frameId).value))
      ensures result.Failure? ==> result.error == EncodeBody(Fields(), frameId).error
      ensures sealed.Some? <==> BodyOf(Fields(), frameId).Success? && 3 + |BodyOf(Fields(), frameId).value| <= BufferSize
      ensures sealed.Some? ==> sealed.value == Checksum(BodyOf(Fields(), frameId).value)
    {
      var buffer := new byte[BufferSize](_ => 0);
      buffer[0] := StartDelimiter;
      buffer[1] := 0xFF;
      buffer[2] := 0xFF;
      var r := WriteBody(buffer);
      if r.Failure? {
        return None, Failure(r.error);
      }
      var c;
      c, result := Seal(buffer, r.value);
      sealed := Some(c);
    }
  }
}
