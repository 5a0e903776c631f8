/** The XBee API frame format on the sending side: frame-type constants,
    the packing of two-character AT command codes, the wrapping frame-id
    counter, and the bytes an encoded frame consists of. */
module FrameLayout {
  import opened Wrappers
  import opened Bytes

  // Frame types (Frame.FrameTypes) that the core reads or writes.
  const TxATCommand: byte := 0x08
  const TxATCommandQueueParameterValue: byte := 0x09
  const TxATCommandTransmitRequest: byte := 0x10
  const TxExplicitAddressCommand: byte := 0x11
  const RxAtCommandResponse: byte := 0x88
  const RxModemStatus: byte := 0x8A
  const RxTransmitStatus: byte := 0x8B
  const RxReceivePacket: byte := 0x91

  // Modem statuses (Frame.ModemStatuss) the session reacts to.
  const WatchdogTimerReset: byte := 0x01
  const JoinedNetwork: byte := 0x02
  const Disassociated: byte := 0x03

  // AT command status OK (Frame.ATCommandStatuss.OK).
  const StatusOK: byte := 0x00

  const StartDelimiter: byte := 0x7E

  /** Size of the scratch buffer the encoder writes into. */
  const BufferSize: nat := 1024

  // ---------------------------------------------------------------------
  // Two-character AT command codes

  /** A character that `Convert.ToByte` accepts. */
  predicate IsByteChar(c: char)
  {
    c as int < 0x100
  }

  /** `Convert.ToByte(c)` on a character that fits a byte. */
  function CharByte(c: char): byte
    requires IsByteChar(c)
  {
    c as int
  }

  /** `Convert.ToChar(b)` on a byte. */
  function ByteChar(b: byte): (c: char)
    ensures IsByteChar(c) && CharByte(c) == b
  {
    b as char
  }

  lemma CharOfByte(c: char)
    requires IsByteChar(c)
    ensures ByteChar(CharByte(c)) == c
  {
  }

  /** The setter of ATCommandString: None where the setter throws (a string
      that is not two characters long, or a character that does not fit a byte). */
  function AtCommandCode(s: string): (r: Option<u16>)
    ensures r.Some? <==> |s| == 2 && IsByteChar(s[0]) && IsByteChar(s[1])
  {
    if |s| != 2 then None
    else if !IsByteChar(s[0]) || !IsByteChar(s[1]) then None
    else Some(Word(CharByte(s[0]), CharByte(s[1])))
  }

  /** The getter of ATCommandString: "-" for the code 0, otherwise the
      character of the high byte followed by that of the low byte. */
  function AtCommandText(code: u16): (s: string)
    ensures |s| == if code == 0 then 1 else 2
  {
    if code == 0 then "-" else [ByteChar(Hi(code)), ByteChar(Lo(code))]
  }

  /** Setting a two-character code and reading it back gives the same text,
      unless both characters are NUL (then the packed value is 0). */
  lemma AtCommandRoundTrip(s: string)
    requires |s| == 2 && IsByteChar(s[0]) && IsByteChar(s[1])
    requires s != "\0\0"
    ensures AtCommandCode(s).Some? && AtCommandText(AtCommandCode(s).value) == s
  {
    var hi, lo := CharByte(s[0]), CharByte(s[1]);
    var c := Word(hi, lo);
    assert AtCommandCode(s) == Some(c);
    BytesOfWord(hi, lo);
    CharOfByte(s[0]);
    CharOfByte(s[1]);
    assert s == [s[0], s[1]];
    assert c != 0 by {
      assert c == hi as int * 0x100 + lo;
      assert hi != 0 || lo != 0;
    }
    assert AtCommandText(c) == [ByteChar(hi), ByteChar(lo)];
  }

  /** Reading a nonzero code as text and setting that text gives back the code. */
  lemma AtCommandTextRoundTrip(code: u16)
    requires code != 0
    ensures AtCommandCode(AtCommandText(code)) == Some(code)
  {
    WordOfBytes(code);
  }

  /** Only the text NUL NUL packs to 0, and 0 reads back as "-", which the
      setter rejects. */
  lemma AtCommandZeroIsDash(s: string)
    requires AtCommandCode(s) == Some(0)
    ensures s == "\0\0" && AtCommandText(0) == "-" && AtCommandCode(AtCommandText(0)).None?
  {
    var hi, lo := CharByte(s[0]), CharByte(s[1]);
    assert AtCommandCode(s) == Some(Word(hi, lo));
    assert hi as int * 0x100 + lo == 0;
    assert s[0] == '\0' && s[1] == '\0';
    assert s == [s[0], s[1]];
  }

  // ---------------------------------------------------------------------
  // Frame ids

  /** The static byte counter after `_frameId++`: wraps from 0xFF to 0. */
  function NextFrameId(last: byte): byte
  {
    if last == 0xFF then 0 else last + 1
  }

  /** The ids stamped on `n` successive encodes when the counter starts at `last`. */
  function FrameIds(last: byte, n: nat): (ids: seq<byte>)
    ensures |ids| == n
    decreases n
  {
    if n == 0 then [] else [NextFrameId(last)] + FrameIds(NextFrameId(last), n - 1)
  }

  /** The i-th encode after the counter stood at `last` is stamped (last + i + 1) mod 256. */
  lemma {:induction false} FrameIdsAt(last: byte, n: nat, i: nat)
    requires i < n
    ensures FrameIds(last, n)[i] == (last + i + 1) % 0x100
    decreases n
  {
    if i > 0 {
      FrameIdsAt(NextFrameId(last), n - 1, i - 1);
      assert NextFrameId(last) == (last + 1) % 0x100;
    }
  }

  /** Any 256 successive encodes carry pairwise different frame ids, and the
      next one repeats the first: the counter wraps with period 256. */
  lemma FrameIdsDistinct(last: byte, n: nat, i: nat, j: nat)
    requires n <= 0x100 && i < j < n
    ensures FrameIds(last, n)[i] != FrameIds(last, n)[j]
  {
    FrameIdsAt(last, n, i);
    FrameIdsAt(last, n, j);
  }

  lemma FrameIdsPeriod(last: byte, n: nat)
    requires 0x100 < n
    ensures FrameIds(last, n)[0x100] == FrameIds(last, n)[0]
  {
    FrameIdsAt(last, n, 0);
    FrameIdsAt(last, n, 0x100);
  }

  // ---------------------------------------------------------------------
  // Encoding

  datatype EncodeError =
    | AddressOverflow   // Convert.ToByte of a shifted 64-bit address above 255
    | NullPayload       // Payload.Length on a null payload
    | IndexOutOfRange   // a payload index outside the payload, or past the 1024-byte buffer

  /** The properties of a Frame that the encoder reads (the frame id is drawn by the encoder). */
  datatype FrameFields = FrameFields(
    frameType: byte,
    atCommand: u16,
    address64: u64,
    address16: u16,
    sourceEndPoint: byte,
    destinationEndPoint: byte,
    clusterId: u16,
    profileId: u16,
    broadcastRadius: byte,
    options: byte,
    payload: Option<seq<byte>>)

  /** `Convert.ToByte(x >> n)`, with `scale` = 2^n: None where the shifted
      value does not fit a byte. */
  function ShiftedByte(x: nat, scale: nat): Option<byte>
    requires scale > 0
  {
    if x / scale < 0x100 then Some(x / scale) else None
  }

  /** The eight address bytes as the encoder writes them (top byte shifted by 54),
      None where one of the checked conversions overflows. */
  function Address64Bytes(x: u64): Option<seq<byte>>
  {
    match (ShiftedByte(x, 0x40_0000_0000_0000), ShiftedByte(x, 0x1_0000_0000_0000),
           ShiftedByte(x, 0x100_0000_0000), ShiftedByte(x, 0x1_0000_0000),
           ShiftedByte(x, 0x100_0000), ShiftedByte(x, 0x1_0000), ShiftedByte(x, 0x100))
    case (Some(b0), Some(b1), Some(b2), Some(b3), Some(b4), Some(b5), Some(b6)) =>
      Some([b0, b1, b2, b3, b4, b5, b6, x % 0x100])
    case _ => None
  }

  /** Only addresses below 2^16 get through the checked conversions, and their six
      top bytes are then zero: the shift by 54 is never observable on the wire. */
  lemma Address64Encodable(x: u64)
    ensures Address64Bytes(x).Some? <==> x < 0x1_0000
    ensures x < 0x1_0000 ==> Address64Bytes(x) == Some([0, 0, 0, 0, 0, 0, Hi(x), Lo(x)])
  {
    if x >= 0x1_0000 {
      assert x / 0x100 >= 0x100;
    }
  }

  /** The bytes MessageBuffer writes from offset 3 on (frame type through
      payload) had its buffer no limit, or the exception it throws first. */
  function BodyOf(f: FrameFields, id: byte): Result<seq<byte>, EncodeError>
  {
    var header := [f.frameType, id];
    if f.frameType == TxExplicitAddressCommand || f.frameType == TxATCommandTransmitRequest then
      match Address64Bytes(f.address64)
      case None => Failure(AddressOverflow)
      case Some(address) =>
        if f.payload.None? then Failure(NullPayload)
        else if f.frameType == TxATCommandTransmitRequest then Failure(IndexOutOfRange)
        else Success(header + address
                     + [Hi(f.address16), Lo(f.address16), f.sourceEndPoint, f.destinationEndPoint,
                        Hi(f.clusterId), Lo(f.clusterId), Hi(f.profileId), Lo(f.profileId),
                        f.broadcastRadius, f.options]
                     + f.payload.value)
    else if f.frameType == TxATCommand || f.frameType == TxATCommandQueueParameterValue then
      Success(header + [Hi(f.atCommand), Lo(f.atCommand)] + (if f.payload.Some? then f.payload.value else []))
    else
      Success(header)
  }

  /** Bytes 3 .. n-2 of the encoded frame (frame type through payload), or the
      exception MessageBuffer throws: also IndexOutOfRange when the body and the
      checksum do not fit the 1024-byte buffer after the three header bytes. */
  function EncodeBody(f: FrameFields, id: byte): Result<seq<byte>, EncodeError>
  {
    match BodyOf(f, id)
    case Failure(e) => Failure(e)
    case Success(body) => if 3 + |body| >= BufferSize then Failure(IndexOutOfRange) else Success(body)
  }

  /** A whole API frame around `body`: delimiter, big-endian length, body, checksum. */
  function Wire(body: seq<byte>): seq<byte>
    requires |body| < 0x1_0000
  {
    [StartDelimiter, Hi(|body|), Lo(|body|)] + body + [Checksum(body)]
  }

  /** Every body the encoder produces fits the buffer (and so the length field). */
  lemma EncodeBodyFits(f: FrameFields, id: byte)
    requires EncodeBody(f, id).Success?
    ensures 2 <= |EncodeBody(f, id).value| <= BufferSize - 4
    ensures EncodeBody(f, id).value[..2] == [f.frameType, id]
  {
  }

  /** Header, length and checksum laws of every frame the encoder produces:
      byte 0 is 0x7E, byte 3 the frame type, byte 4 the frame id, bytes 1-2 the
      big-endian length n - 4, and the bytes from offset 3 through the checksum
      sum to 0xFF modulo 256. */
  lemma EncodedFrameLaws(f: FrameFields, id: byte)
    requires EncodeBody(f, id).Success?
    ensures var w := Wire(EncodeBody(f, id).value);
      && 6 <= |w| <= BufferSize
      && w[0] == StartDelimiter && w[3] == f.frameType && w[4] == id
      && Word(w[1], w[2]) == |w| - 4
      && w[|w| - 1] == Checksum(w[3..|w| - 1])
      && Sum(w[3..]) % 0x100 == 0xFF
  {
    var body := EncodeBody(f, id).value;
    var w := Wire(body);
    assert w[3..|w| - 1] == body;
    assert w[3..] == body + [Checksum(body)];
    ChecksumVerifies(body, Checksum(body));
  }

  /** Layout of TxATCommand and TxATCommandQueueParameterValue frames: bytes 5-6
      hold the AT command big-endian, the payload follows verbatim from byte 7,
      and a null payload gives an 8-byte frame. The encoder fails exactly when
      the payload overruns the buffer. */
  lemma AtCommandFrameLayout(f: FrameFields, id: byte)
    requires f.frameType == TxATCommand || f.frameType == TxATCommandQueueParameterValue
    ensures var data := if f.payload.Some? then f.payload.value else [];
      && (EncodeBody(f, id).Success? <==> |data| <= 1016)
      && (EncodeBody(f, id).Success? ==>
            var w := Wire(EncodeBody(f, id).value);
            && |w| == 8 + |data|
            && Word(w[5], w[6]) == f.atCommand
            && w[7..|w| - 1] == data)
  {
    var data := if f.payload.Some? then f.payload.value else [];
    if EncodeBody(f, id).Success? {
      var body := EncodeBody(f, id).value;
      var w := Wire(body);
      assert body == [f.frameType, id, Hi(f.atCommand), Lo(f.atCommand)] + data;
      assert w[7..|w| - 1] == data;
    }
  }

  /** The TxExplicitAddressCommand encoder fails exactly on an address of 2^16 or
      more, a null payload, or a payload that overruns the buffer. */
  lemma ExplicitFrameEncodes(f: FrameFields, id: byte)
    requires f.frameType == TxExplicitAddressCommand
    ensures EncodeBody(f, id).Success? <==>
              f.address64 < 0x1_0000 && f.payload.Some? && |f.payload.value| <= 1000
  {
    Address64Encodable(f.address64);
  }

  /** The body of an encodable TxExplicitAddressCommand frame. */
  lemma ExplicitBody(f: FrameFields, id: byte)
    requires f.frameType == TxExplicitAddressCommand
    requires EncodeBody(f, id).Success?
    ensures f.address64 < 0x1_0000 && f.payload.Some?
    ensures EncodeBody(f, id).value ==
              [f.frameType, id, 0, 0, 0, 0, 0, 0, Hi(f.address64), Lo(f.address64),
               Hi(f.address16), Lo(f.address16), f.sourceEndPoint, f.destinationEndPoint,
               Hi(f.clusterId), Lo(f.clusterId), Hi(f.profileId), Lo(f.profileId),
               f.broadcastRadius, f.options] + f.payload.value
  {
    Address64Encodable(f.address64);
  }

  /** The bytes of a wire frame between the length and the checksum are the body. */
  lemma WireBody(body: seq<byte>)
    requires |body| < 0x1_0000
    ensures |Wire(body)| == |body| + 4
    ensures forall k :: 0 <= k < |body| ==> Wire(body)[k + 3] == body[k]
  {
  }

  /** A wire frame around a 20-byte prefix and a payload: the prefix sits at
      bytes 3-22 and the payload between it and the checksum. */
  lemma PrefixWire(prefix: seq<byte>, p: seq<byte>)
    requires |prefix| == 20 && |p| <= 1000
    ensures var w := Wire(prefix + p);
            |w| == 24 + |p| && w[3..23] == prefix && w[23..|w| - 1] == p
  {
    var body := prefix + p;
    var w := Wire(body);
    WireBody(body);
    assert w[3..23] == prefix by {
      forall k | 0 <= k < 20
        ensures w[3 + k] == prefix[k]
      {
        assert body[k] == prefix[k];
      }
    }
    assert w[23..|w| - 1] == p by {
      forall i | 0 <= i < |p|
        ensures w[23 + i] == p[i]
      {
        assert body[20 + i] == p[i];
      }
    }
  }

  /** The wire positions of the fields of an explicit-addressing body. */
  lemma ExplicitWire(f: FrameFields, id: byte, a: u16, p: seq<byte>)
    requires |p| <= 1000
    ensures var body := [f.frameType, id, 0, 0, 0, 0, 0, 0, Hi(a), Lo(a),
                         Hi(f.address16), Lo(f.address16), f.sourceEndPoint, f.destinationEndPoint,
                         Hi(f.clusterId), Lo(f.clusterId), Hi(f.profileId), Lo(f.profileId),
                         f.broadcastRadius, f.options] + p;
            var w := Wire(body);
            && |w| == 24 + |p|
            && w[5..11] == [0, 0, 0, 0, 0, 0]
            && Word(w[11], w[12]) == a
            && Word(w[13], w[14]) == f.address16
            && w[15] == f.sourceEndPoint && w[16] == f.destinationEndPoint
            && Word(w[17], w[18]) == f.clusterId
            && Word(w[19], w[20]) == f.profileId
            && w[21] == f.broadcastRadius && w[22] == f.options
            && w[23..|w| - 1] == p
  {
    var prefix := [f.frameType, id, 0, 0, 0, 0, 0, 0, Hi(a), Lo(a),
                   Hi(f.address16), Lo(f.address16), f.sourceEndPoint, f.destinationEndPoint,
                   Hi(f.clusterId), Lo(f.clusterId), Hi(f.profileId), Lo(f.profileId),
                   f.broadcastRadius, f.options];
    var w := Wire(prefix + p);
    PrefixWire(prefix, p);
    assert w[5..11] == prefix[2..8];
    assert w[11] == prefix[8] && w[12] == prefix[9] && w[13] == prefix[10] && w[14] == prefix[11];
    assert w[15] == prefix[12] && w[16] == prefix[13];
    assert w[17] == prefix[14] && w[18] == prefix[15] && w[19] == prefix[16] && w[20] == prefix[17];
    assert w[21] == prefix[18] && w[22] == prefix[19];
    WordOfBytes(a);
    WordOfBytes(f.address16);
    WordOfBytes(f.clusterId);
    WordOfBytes(f.profileId);
  }

  /** Layout of TxExplicitAddressCommand frames: the 64-bit address in bytes 5-12,
      the 16-bit address big-endian in 13-14, source and destination endpoint in
      15 and 16, cluster big-endian in 17-18, profile big-endian in 19-20, radius
      in 21, options in 22, payload from 23; 24 + |payload| bytes in all. */
  lemma ExplicitFrameLayout(f: FrameFields, id: byte)
    requires f.frameType == TxExplicitAddressCommand
    requires EncodeBody(f, id).Success?
    ensures f.payload.Some?
    ensures var w := Wire(EncodeBody(f, id).value);
              && |w| == 24 + |f.payload.value|
              && w[5..11] == [0, 0, 0, 0, 0, 0]
              && Word(w[11], w[12]) == f.address64
              && Word(w[13], w[14]) == f.address16
              && w[15] == f.sourceEndPoint && w[16] == f.destinationEndPoint
              && Word(w[17], w[18]) == f.clusterId
              && Word(w[19], w[20]) == f.profileId
              && w[21] == f.broadcastRadius && w[22] == f.options
              && w[23..|w| - 1] == f.payload.value
  {
    ExplicitBody(f, id);
    ExplicitFrameEncodes(f, id);
    ExplicitWire(f, id, f.address64, f.payload.value);
  }

  /** The TxATCommandTransmitRequest path always throws: its payload copy starts
      at offset 17 but indexes the payload with offset - 23. */
  lemma TransmitRequestNeverEncodes(f: FrameFields, id: byte)
    requires f.frameType == TxATCommandTransmitRequest
    ensures EncodeBody(f, id).Failure?
  {
  }

  /** AT command "NI" with value 58 42 and frame id 1: the length field is 6
      (type, id, two command bytes, two value bytes) and the checksum C5. */
  lemma NodeIdentifierExample()
    ensures var f := FrameFields(TxATCommand, Word(0x4E, 0x49), 0, 0, 0, 0, 0, 0, 0, 0, Some([0x58, 0x42]));
      Wire(EncodeBody(f, 1).value) == [0x7E, 0x00, 0x06, 0x08, 0x01, 0x4E, 0x49, 0x58, 0x42, 0xC5]
  {
    var body: seq<byte> := [0x08, 0x01, 0x4E, 0x49, 0x58, 0x42];
    assert Sum(body) == 314 by {
      assert Sum([0x08]) == 0x08 by { assert [0x08][..0] == []; }
      assert Sum([0x08, 0x01]) == 0x09 by { assert [0x08, 0x01][..1] == [0x08]; }
      assert Sum([0x08, 0x01, 0x4E]) == 87 by { assert [0x08, 0x01, 0x4E][..2] == [0x08, 0x01]; }
      assert Sum([0x08, 0x01, 0x4E, 0x49]) == 160 by {
        assert [0x08, 0x01, 0x4E, 0x49][..3] == [0x08, 0x01, 0x4E];
      }
      assert Sum([0x08, 0x01, 0x4E, 0x49, 0x58]) == 248 by {
        assert [0x08, 0x01, 0x4E, 0x49, 0x58][..4] == [0x08, 0x01, 0x4E, 0x49];
      }
      assert body[..5] == [0x08, 0x01, 0x4E, 0x49, 0x58];
    }
    var f := FrameFields(TxATCommand, Word(0x4E, 0x49), 0, 0, 0, 0, 0, 0, 0, 0, Some([0x58, 0x42]));
    BytesOfWord(0x4E, 0x49);
    assert [f.frameType, 1] + [Hi(f.atCommand), Lo(f.atCommand)] + [0x58, 0x42] == body;
    assert EncodeBody(f, 1) == Success(body);
    assert Checksum(body) == 0xC5;
  }
}
