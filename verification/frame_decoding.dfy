/** The receive side of the frame model: the state a Frame goes through as
    HandleByte is fed the bytes that follow the 0x7E delimiter, one step at a
    time (`Step`), and the same state described by byte positions alone
    (`Decode`). `FeedIsDecode` proves the two agree on every byte stream. */
module FrameDecoding {
  import opened Wrappers
  import opened Bytes
  import opened FrameLayout

  datatype DecodeError =
    | NegativeLength   // `new byte[Length - k]` with Length < k (an OverflowException)
    | PayloadIndex     // a payload write through a null or too short payload

  /** Every property of a Frame, with the private byte pointer. */
  datatype FrameState = FrameState(
    pointer: nat,
    length: u16,
    frameType: byte,
    frameId: byte,
    atCommand: u16,
    atCommandStatus: byte,
    address64: u64,
    address16: u16,
    sourceEndPoint: byte,
    destinationEndPoint: byte,
    clusterId: u16,
    profileId: u16,
    broadcastRadius: byte,
    options: byte,
    transmitRetryCount: byte,
    deliveryStatus: byte,
    discoveryStatus: byte,
    receiveOptions: byte,
    payload: Option<seq<byte>>,
    checkSum: byte,
    modemStatus: byte)

  /** A new Frame: every property zero, no payload, the byte pointer at 1 because the
      delimiter has already been read. */
  const Fresh := FrameState(1, 0, 0, 0, 0, 0, 0, 0, 0, 0, 0, 0, 0, 0, 0, 0, 0, 0, None, 0, 0)

  /** A state after one HandleByte call, and what the call returned. */
  datatype Stepped = Stepped(frame: FrameState, completed: bool)

  /** `(UInt64)ch << n` for the shift n HandleByte applies to the address byte at
      position j (4 to 11): 54 for the first, then 48, 40, ..., 0. A byte shifted
      by at most 54 stays below 2^62, so nothing is shifted out. */
  function Shifted(ch: byte, j: int): u64
  {
    if j == 4 then ch * 0x40_0000_0000_0000
    else if j == 5 then ch * 0x1_0000_0000_0000
    else if j == 6 then ch * 0x100_0000_0000
    else if j == 7 then ch * 0x1_0000_0000
    else if j == 8 then ch * 0x100_0000
    else if j == 9 then ch * 0x1_0000
    else if j == 10 then ch * 0x100
    else ch
  }

  // ---------------------------------------------------------------------
  // One call of HandleByte

  /** The RxModemStatus block: the status at byte 4, the checksum at byte 5. */
  function StepModemStatus(s: FrameState, ch: byte): Stepped
  {
    var k := s.pointer;
    var s1 := s.(modemStatus := if k == 4 then ch else s.modemStatus);
    if k == 5 then Stepped(s1.(checkSum := ch), true) else Stepped(s1, false)
  }

  /** The RxAtCommandResponse block. */
  function StepAtResponse(s: FrameState, ch: byte): Result<Stepped, DecodeError>
  {
    var k, n := s.pointer, s.length;
    if k == 3 && n < 5 then Failure(NegativeLength)
    else
      var s1 := if k == 3 then s.(payload := Some(seq(n - 5, _ => 0))) else s;
      var s5 := s1.(
        frameId := if k == 4 then ch else s1.frameId,
        atCommand := if k == 5 then Word(ch, 0) else if k == 6 then OrByte(s1.atCommand, ch) else s1.atCommand,
        atCommandStatus := if k == 7 then ch else s1.atCommandStatus);
      if 7 < k < n + 3 && (s5.payload.None? || k - 8 >= |s5.payload.value|) then Failure(PayloadIndex)
      else
        var s6 := if 7 < k < n + 3 then s5.(payload := Some(s5.payload.value[k - 8 := ch])) else s5;
        Success(if k == n + 3 then Stepped(s6.(checkSum := ch), true) else Stepped(s6, false))
  }

  /** Bytes 4 to 20 of a receive packet: address, endpoints, cluster, profile, options. */
  function ReceiveFields(s: FrameState, ch: byte): FrameState
  {
    var k := s.pointer;
    s.(
      address64 :=
        if k == 4 then Shifted(ch, k)
        else if 5 <= k <= 11 then Or64(s.address64, Shifted(ch, k))
        else s.address64,
      address16 := if k == 12 then Word(ch, 0) else if k == 13 then OrByte(s.address16, ch) else s.address16,
      sourceEndPoint := if k == 14 then ch else s.sourceEndPoint,
      destinationEndPoint := if k == 15 then ch else s.destinationEndPoint,
      clusterId := if k == 16 then Word(ch, 0) else if k == 17 then OrByte(s.clusterId, ch) else s.clusterId,
      profileId := if k == 18 then Word(ch, 0) else if k == 19 then OrByte(s.profileId, ch) else s.profileId,
      receiveOptions := if k == 20 then ch else s.receiveOptions)
  }

  /** The RxReceivePacket block (the 64-bit address shifts its first byte by 54). */
  function StepReceive(s: FrameState, ch: byte): Result<Stepped, DecodeError>
  {
    var k, n := s.pointer, s.length;
    if k == 3 && n < 18 then Failure(NegativeLength)
    else
      var s1 := if k == 3 then s.(payload := Some(seq(n - 18, _ => 0))) else s;
      var s2 := ReceiveFields(s1, ch);
      if 20 < k < n + 3 && (s2.payload.None? || k - 21 >= |s2.payload.value|) then Failure(PayloadIndex)
      else
        var s3 := if 20 < k < n + 3 then s2.(payload := Some(s2.payload.value[k - 21 := ch])) else s2;
        Success(if k == n + 3 then Stepped(s3.(checkSum := ch), true) else Stepped(s3, false))
  }

  /** The RxTransmitStatus block (byte 4, the frame id, is not stored). */
  function StepTransmitStatus(s: FrameState, ch: byte): Stepped
  {
    var k := s.pointer;
    var s1 := s.(
      address16 := if k == 5 then Word(ch, 0) else if k == 6 then OrByte(s.address16, ch) else s.address16,
      transmitRetryCount := if k == 7 then ch else s.transmitRetryCount,
      deliveryStatus := if k == 8 then ch else s.deliveryStatus,
      discoveryStatus := if k == 9 then ch else s.discoveryStatus);
    if k == s.length + 3 then Stepped(s1.(checkSum := ch), true) else Stepped(s1, false)
  }

  /** The first statements of HandleByte: the length at bytes 1-2, the frame type at byte 3. */
  function Header(s: FrameState, ch: byte): FrameState
  {
    var k := s.pointer;
    s.(length := if k == 1 then Word(ch, 0) else if k == 2 then OrByte(s.length, ch) else s.length,
       frameType := if k == 3 then ch else s.frameType)
  }

  /** The block of HandleByte for the frame type read so far; other frame
      types store nothing. */
  function Block(s3: FrameState, ch: byte): Result<Stepped, DecodeError>
  {
    if s3.frameType == RxModemStatus then Success(StepModemStatus(s3, ch))
    else if s3.frameType == RxAtCommandResponse then StepAtResponse(s3, ch)
    else if s3.frameType == RxReceivePacket then StepReceive(s3, ch)
    else if s3.frameType == RxTransmitStatus then Success(StepTransmitStatus(s3, ch))
    else Success(Stepped(s3, false))
  }

  /** HandleByte: the header, then the block of the frame type; the byte pointer
      advances unless the frame completed. */
  function Step(s: FrameState, ch: byte): Result<Stepped, DecodeError>
  {
    var k := s.pointer;
    match Block(Header(s, ch), ch)
    case Failure(e) => Failure(e)
    case Success(t) => Success(if t.completed then t else t.(frame := t.frame.(pointer := k + 1)))
  }

  /** Where feeding a byte stream to a frame has got to. */
  datatype Outcome = Outcome(frame: FrameState, done: bool)

  /** A step's result as the outcome of feeding. */
  function AsOutcome(r: Result<Stepped, DecodeError>): Result<Outcome, DecodeError>
  {
    match r
    case Failure(e) => Failure(e)
    case Success(t) => Success(Outcome(t.frame, t.completed))
  }

  /** Feeds the bytes one by one, as the transport does, and stops at the first
      byte for which HandleByte reports completion. */
  function Feed(s: FrameState, bytes: seq<byte>): Result<Outcome, DecodeError>
    decreases |bytes|
  {
    if bytes == [] then Success(Outcome(s, false))
    else
      match Feed(s, bytes[..|bytes| - 1])
      case Failure(e) => Failure(e)
      case Success(o) =>
        if o.done then Success(o) else AsOutcome(Step(o.frame, bytes[|bytes| - 1]))
  }

  // ---------------------------------------------------------------------
  // The same frame described by byte positions

  /** The byte at position j of the stream after the delimiter (positions start
      at 1), or 0 where the stream has not reached it. */
  function At(fed: seq<byte>, j: int): byte
  {
    if 1 <= j <= |fed| then fed[j - 1] else 0
  }

  /** The big-endian word at positions j and j + 1. */
  function WordAt(fed: seq<byte>, j: int): u16
  {
    Word(At(fed, j), At(fed, j + 1))
  }

  function LengthOf(fed: seq<byte>): u16 { WordAt(fed, 1) }

  function TypeOf(fed: seq<byte>): byte { At(fed, 3) }

  /** The address bits contributed by positions 4 through m. */
  function Address64Upto(fed: seq<byte>, m: int): u64
    decreases m
  {
    if m < 4 then 0 else Or64(Address64Upto(fed, m - 1), Shifted(At(fed, m), m))
  }

  /** The 64-bit address of a receive packet as HandleByte assembles it. */
  function Address64At(fed: seq<byte>): u64
  {
    Address64Upto(fed, 11)
  }

  /** Address bytes at positions 5 through 11 are shifted by whole bytes. */
  lemma ShiftedPlace(ch: byte, j: int)
    requires 5 <= j <= 11
    ensures Shifted(ch, j) == ch * Pow2(8 * (11 - j))
  {
    Pow2Bytes();
  }

  /** With a zero byte at position 4, the address assembled up to position m is
      the big-endian number of positions 5 through m, shifted to its place. */
  lemma {:induction false} Address64UptoBigEndian(fed: seq<byte>, m: int)
    requires 4 <= m <= 11 && |fed| >= 11 && At(fed, 4) == 0
    ensures Address64Upto(fed, m) == BigEndian(fed[4..m]) * Pow2(8 * (11 - m))
    decreases m
  {
    if m == 4 {
      assert Address64Upto(fed, 3) == 0;
      assert Shifted(0, 4) == 0;
      Or64Zero(0);
      assert fed[4..4] == [];
    } else {
      Address64UptoBigEndian(fed, m - 1);
      var k := 8 * (11 - m);
      var hi := BigEndian(fed[4..m - 1]);
      var b := At(fed, m);
      ShiftedPlace(b, m);
      assert 8 * (11 - (m - 1)) == 8 + k;
      BitOrPlaced(hi, b, k);
      BigEndianSlice(fed, 4, m);
    }
  }

  /** An address whose first byte is zero (as every address in Digi's 00 13 A2
      block is) is assembled to its big-endian value. */
  lemma Address64TopByteZero(fed: seq<byte>)
    requires |fed| >= 11 && At(fed, 4) == 0
    ensures Address64At(fed) == BigEndian(fed[3..11])
  {
    Address64UptoBigEndian(fed, 11);
    assert fed[3..11] == [0] + fed[4..11];
    BigEndianLeadingZero(fed[4..11]);
  }

  /** The first address byte is shifted by 54 bits, not 56: an address whose
      only set bit is the lowest bit of its first byte comes out as 2^54. */
  lemma Address64FirstByteShift(fed: seq<byte>)
    requires |fed| >= 11 && At(fed, 4) == 1
    requires forall j :: 5 <= j <= 11 ==> At(fed, j) == 0
    ensures Address64At(fed) == 0x40_0000_0000_0000
    ensures BigEndian(fed[3..11]) == 0x100_0000_0000_0000
  {
    assert Address64Upto(fed, 3) == 0;
    Or64Zero(0x40_0000_0000_0000);
    var s := fed[3..11];
    assert forall i :: 0 <= i < 8 ==> s[i] == At(fed, i + 4);
    assert s == [1, 0, 0, 0, 0, 0, 0, 0];
    assert BigEndian(s[..1]) == 1 by { assert s[..1][..0] == []; }
    assert s[..2][..1] == s[..1] && BigEndian(s[..2]) == 0x100;
    assert s[..3][..2] == s[..2] && BigEndian(s[..3]) == 0x1_0000;
    assert s[..4][..3] == s[..3] && BigEndian(s[..4]) == 0x100_0000;
    assert s[..5][..4] == s[..4] && BigEndian(s[..5]) == 0x1_0000_0000;
    assert s[..6][..5] == s[..5] && BigEndian(s[..6]) == 0x100_0000_0000;
    assert s[..7][..6] == s[..6] && BigEndian(s[..7]) == 0x1_0000_0000_0000;
    assert s[..8][..7] == s[..7] && s[..8] == s;
  }

  /** The frame after `fed` has been read and the frame is not yet complete:
      every property holds the byte (or bytes) at its position, or 0 where the
      stream has not reached it or the frame type does not carry it. */
  function View(fed: seq<byte>): FrameState
  {
    var n, t := LengthOf(fed), TypeOf(fed);
    var atResponse, receive := t == RxAtCommandResponse, t == RxReceivePacket;
    var status := t == RxTransmitStatus;
    FrameState(
      pointer := |fed| + 1,
      length := n,
      frameType := t,
      frameId := if atResponse then At(fed, 4) else 0,
      atCommand := if atResponse then WordAt(fed, 5) else 0,
      atCommandStatus := if atResponse then At(fed, 7) else 0,
      address64 := if receive then Address64At(fed) else 0,
      address16 := if receive then WordAt(fed, 12) else if status then WordAt(fed, 5) else 0,
      sourceEndPoint := if receive then At(fed, 14) else 0,
      destinationEndPoint := if receive then At(fed, 15) else 0,
      clusterId := if receive then WordAt(fed, 16) else 0,
      profileId := if receive then WordAt(fed, 18) else 0,
      broadcastRadius := 0,
      options := 0,
      transmitRetryCount := if status then At(fed, 7) else 0,
      deliveryStatus := if status then At(fed, 8) else 0,
      discoveryStatus := if status then At(fed, 9) else 0,
      receiveOptions := if receive then At(fed, 20) else 0,
      payload :=
        if atResponse && n >= 5 then Some(seq(n - 5, i => At(fed, 8 + i)))
        else if receive && n >= 18 then Some(seq(n - 18, i => At(fed, 21 + i)))
        else None,
      checkSum := 0,
      modemStatus := if t == RxModemStatus then At(fed, 4) else 0)
  }

  /** The frame once the last byte of `fed` completed it: that byte is the checksum. */
  function Finished(fed: seq<byte>): FrameState
    requires fed != []
  {
    View(fed).(pointer := |fed|, checkSum := fed[|fed| - 1])
  }

  /** Position of the byte that completes a frame of this type and length
      (none for frame types the decoder does not know). */
  function CompletionPos(t: byte, n: u16): Option<nat>
  {
    if t == RxModemStatus then Some(5)
    else if t == RxAtCommandResponse || t == RxReceivePacket || t == RxTransmitStatus then Some(n + 3)
    else None
  }

  /** The shortest length a frame type needs for its payload array. */
  function MinLength(t: byte): nat
  {
    if t == RxAtCommandResponse then 5 else if t == RxReceivePacket then 18 else 0
  }

  /** Decoding by positions: a stream whose frame type needs a longer length
      fails at byte 3; a stream that reaches the completion position is the
      finished frame cut there; any other stream is still open. */
  function Decode(fed: seq<byte>): Result<Outcome, DecodeError>
  {
    var n, t := LengthOf(fed), TypeOf(fed);
    if |fed| >= 3 && n < MinLength(t) then Failure(NegativeLength)
    else if |fed| >= 3 && CompletionPos(t, n).Some? && |fed| >= CompletionPos(t, n).value then
      Success(Outcome(Finished(fed[..CompletionPos(t, n).value]), true))
    else Success(Outcome(View(fed), false))
  }

  // ---------------------------------------------------------------------
  // Feeding one byte agrees with the positions

  lemma AtSnoc(q: seq<byte>, b: byte)
    ensures forall j :: At(q + [b], j) == if j == |q| + 1 then b else At(q, j)
  {
  }


  /** The frame is still open after `q`. */
  predicate Open(q: seq<byte>)
  {
    Decode(q) == Success(Outcome(View(q), false))
  }

  /** The three bytes of the header. */
  lemma StepViewHeader(q: seq<byte>, b: byte)
    requires |q| < 2
    ensures AsOutcome(Step(View(q), b)) == Decode(q + [b])
  {
    AtSnoc(q, b);
    if |q| == 1 {
      OrByteIntoHigh(q[0], b);
    }
  }

  /** A frame type the decoder does not know never completes. */
  lemma StepViewOther(q: seq<byte>, b: byte)
    requires |q| >= 2 && Open(q)
    requires CompletionPos(TypeOf(q + [b]), LengthOf(q + [b])).None?
    ensures AsOutcome(Step(View(q), b)) == Decode(q + [b])
  {
    AtSnoc(q, b);
  }

  lemma StepViewModemStatus(q: seq<byte>, b: byte)
    requires |q| >= 2 && Open(q)
    requires TypeOf(q + [b]) == RxModemStatus
    ensures AsOutcome(Step(View(q), b)) == Decode(q + [b])
  {
    AtSnoc(q, b);
    if |q| + 1 == 5 {
      assert (q + [b])[..5] == q + [b];
    }
  }

  lemma StepViewTransmitStatus(q: seq<byte>, b: byte)
    requires |q| >= 2 && Open(q)
    requires TypeOf(q + [b]) == RxTransmitStatus
    ensures AsOutcome(Step(View(q), b)) == Decode(q + [b])
  {
    AtSnoc(q, b);
    var k, n: int := |q| + 1, LengthOf(q);
    var fed := q + [b];
    assert LengthOf(fed) == n;
    if k == 6 {
      OrByteIntoHigh(At(q, 5), b);
    }
    if k == n + 3 {
      assert fed[..k] == fed;
      assert Decode(fed) == Success(Outcome(Finished(fed), true));
    } else {
      assert Decode(fed) == Success(Outcome(View(fed), false));
    }
  }

  lemma StepViewAtResponse(q: seq<byte>, b: byte)
    requires |q| >= 2 && Open(q)
    requires TypeOf(q + [b]) == RxAtCommandResponse
    ensures AsOutcome(Step(View(q), b)) == Decode(q + [b])
  {
    AtSnoc(q, b);
    var k, n: int := |q| + 1, LengthOf(q);
    var fed := q + [b];
    if n >= 5 {
      var data := seq(n - 5, i => At(fed, 8 + i));
      if k == 3 {
        assert data == seq(n - 5, _ => 0);
      } else if 7 < k < n + 3 {
        assert data == View(q).payload.value[k - 8 := b];
      } else {
        assert data == View(q).payload.value;
      }
      if k == 6 {
        OrByteIntoHigh(At(q, 5), b);
      }
      if k == n + 3 {
        assert fed[..k] == fed;
      }
    }
  }

  /** Positions the stream has not reached add no address bits. */
  lemma {:induction false} Address64Beyond(fed: seq<byte>, m: int)
    requires m >= |fed|
    ensures Address64Upto(fed, m) == Address64Upto(fed, |fed|)
    decreases m
  {
    if m > |fed| {
      Address64Beyond(fed, m - 1);
      Or64Zero(Address64Upto(fed, m - 1));
    }
  }

  /** One more byte leaves the bits of the earlier positions alone. */
  lemma {:induction false} Address64Prefix(q: seq<byte>, b: byte, m: int)
    requires m <= |q|
    ensures Address64Upto(q + [b], m) == Address64Upto(q, m)
    decreases m
  {
    AtSnoc(q, b);
    if m >= 4 {
      Address64Prefix(q, b, m - 1);
    }
  }

  /** The address bits once the stream has reached position k (4 to 11): those of
      the earlier positions OR the byte at k shifted into place. */
  lemma Address64Step(q: seq<byte>, b: byte)
    requires 4 <= |q| + 1 <= 11
    ensures Address64At(q + [b]) == Or64(Address64Upto(q, |q|), Shifted(b, |q| + 1))
    ensures Address64At(q) == Address64Upto(q, |q|)
    ensures |q| == 3 ==> Address64Upto(q, |q|) == 0
  {
    var k := |q| + 1;
    Address64Beyond(q + [b], 11);
    Address64Beyond(q, 11);
    Address64Prefix(q, b, |q|);
    assert At(q + [b], k) == b;
  }

  /** Positions outside 4 to 11 leave the address alone. */
  lemma Address64Outside(q: seq<byte>, b: byte)
    requires |q| + 1 < 4 || |q| + 1 > 11
    ensures Address64At(q + [b]) == Address64At(q)
  {
    if |q| + 1 < 4 {
      Address64Beyond(q + [b], 11);
      Address64Beyond(q, 11);
    } else {
      Address64Prefix(q, b, 11);
    }
  }

  /** Receive packet, bytes 4 to 11: the 64-bit address. */
  lemma StepViewReceiveAddress(q: seq<byte>, b: byte)
    requires |q| >= 2 && Open(q)
    requires TypeOf(q + [b]) == RxReceivePacket
    requires 4 <= |q| + 1 <= 11
    ensures AsOutcome(Step(View(q), b)) == Decode(q + [b])
  {
    AtSnoc(q, b);
    Address64Step(q, b);
    var n: int := LengthOf(q);
    if n >= 18 {
      var data := seq(n - 18, i => At(q + [b], 21 + i));
      assert data == View(q).payload.value;
    }
  }

  /** Receive packet, byte 3: the payload array is allocated (or the length is too short). */
  lemma StepViewReceiveType(q: seq<byte>, b: byte)
    requires |q| == 2 && Open(q)
    requires TypeOf(q + [b]) == RxReceivePacket
    ensures AsOutcome(Step(View(q), b)) == Decode(q + [b])
  {
    AtSnoc(q, b);
    Address64Outside(q, b);
    var n: int := LengthOf(q);
    if n >= 18 {
      assert seq(n - 18, i => At(q + [b], 21 + i)) == seq(n - 18, _ => 0);
    }
  }

  /** Receive packet, bytes 12 to 20: addresses, endpoints, cluster, profile, options. */
  lemma StepViewReceiveFields(q: seq<byte>, b: byte)
    requires |q| >= 2 && Open(q)
    requires TypeOf(q + [b]) == RxReceivePacket
    requires 12 <= |q| + 1 <= 20
    ensures AsOutcome(Step(View(q), b)) == Decode(q + [b])
  {
    AtSnoc(q, b);
    Address64Outside(q, b);
    var k, n: int := |q| + 1, LengthOf(q);
    assert n >= 18;
    assert seq(n - 18, i => At(q + [b], 21 + i)) == View(q).payload.value;
    if k == 13 || k == 17 || k == 19 {
      OrByteIntoHigh(At(q, k - 1), b);
    }
  }

  /** Receive packet, bytes from 21: payload, then the checksum at Length + 3. */
  lemma StepViewReceivePayload(q: seq<byte>, b: byte)
    requires |q| >= 2 && Open(q)
    requires TypeOf(q + [b]) == RxReceivePacket
    requires |q| + 1 > 20
    ensures AsOutcome(Step(View(q), b)) == Decode(q + [b])
  {
    AtSnoc(q, b);
    Address64Outside(q, b);
    var k, n: int := |q| + 1, LengthOf(q);
    var fed := q + [b];
    var data := seq(n - 18, i => At(fed, 21 + i));
    if k < n + 3 {
      assert Decode(fed) == Success(Outcome(View(fed), false));
      assert data == View(q).payload.value[k - 21 := b];
    } else {
      assert fed[..k] == fed;
      assert Decode(fed) == Success(Outcome(Finished(fed), true));
      assert data == View(q).payload.value;
    }
  }

  /** One HandleByte call on an open frame agrees with decoding by positions. */
  lemma StepView(q: seq<byte>, b: byte)
    requires Open(q)
    ensures AsOutcome(Step(View(q), b)) == Decode(q + [b])
  {
    var k, t := |q| + 1, TypeOf(q + [b]);
    if |q| < 2 {
      StepViewHeader(q, b);
    } else if t == RxModemStatus {
      StepViewModemStatus(q, b);
    } else if t == RxAtCommandResponse {
      StepViewAtResponse(q, b);
    } else if t == RxTransmitStatus {
      StepViewTransmitStatus(q, b);
    } else if t == RxReceivePacket {
      if k == 3 {
        StepViewReceiveType(q, b);
      } else if k <= 11 {
        StepViewReceiveAddress(q, b);
      } else if k <= 20 {
        StepViewReceiveFields(q, b);
      } else {
        StepViewReceivePayload(q, b);
      }
    } else {
      StepViewOther(q, b);
    }
  }

  /** Nothing fed: the new frame. */
  lemma DecodeEmpty(e: seq<byte>)
    requires e == []
    ensures Decode(e) == Success(Outcome(Fresh, false))
  {
    Address64Beyond(e, 11);
  }

  /** Once decoding has failed or completed, later bytes change nothing. */
  lemma DecodeStopped(q: seq<byte>, b: byte)
    requires Decode(q).Failure? || Decode(q).value.done
    ensures Decode(q + [b]) == Decode(q)
  {
    AtSnoc(q, b);
    var fed := q + [b];
    assert LengthOf(fed) == LengthOf(q) && TypeOf(fed) == TypeOf(q);
    if Decode(q).Success? {
      var pos := CompletionPos(TypeOf(q), LengthOf(q)).value;
      assert fed[..pos] == q[..pos];
    }
  }

  /** Feeding any byte stream to a new frame, one HandleByte call per byte and
      stopping at completion, gives exactly the frame described by positions:
      it fails at byte 3 when the length is too short for the frame type,
      completes at byte 5 (modem status) or Length + 3 (AT response, receive
      packet, transmit status) with every property read from its position,
      and otherwise stays open. */
  lemma {:induction false} FeedIsDecode(fed: seq<byte>)
    ensures Feed(Fresh, fed) == Decode(fed)
    decreases |fed|
  {
    if fed == [] {
      DecodeEmpty(fed);
    } else {
      var q, b := fed[..|fed| - 1], fed[|fed| - 1];
      assert fed == q + [b];
      FeedIsDecode(q);
      if Decode(q).Failure? || Decode(q).value.done {
        DecodeStopped(q, b);
      } else {
        StepView(q, b);
      }
    }
  }

  // ---------------------------------------------------------------------
  // Whole frames on the wire

  /** Positions up to k are the same in a stream and in its first k bytes. */
  lemma AtPrefix(fed: seq<byte>, k: nat)
    requires k <= |fed|
    ensures forall j :: j <= k ==> At(fed[..k], j) == At(fed, j)
  {
  }

  /** Before its completion position a frame is open. */
  lemma OpenBefore(fed: seq<byte>, k: nat)
    requires Decode(fed).Success? && Decode(fed).value.done
    requires k < CompletionPos(TypeOf(fed), LengthOf(fed)).value
    requires k <= |fed|
    ensures Decode(fed[..k]) == Success(Outcome(View(fed[..k]), false))
  {
    AtPrefix(fed, k);
  }

  /** The stream a wire frame presents to HandleByte: everything after the delimiter. */
  function AfterDelimiter(body: seq<byte>): seq<byte>
    requires |body| < 0x1_0000
  {
    Wire(body)[1..]
  }

  /** Where the parts of a wire frame sit in that stream. */
  lemma AfterDelimiterAt(body: seq<byte>)
    requires 0 < |body| < 0x1_0000
    ensures var fed := AfterDelimiter(body);
      && |fed| == |body| + 3
      && LengthOf(fed) == |body|
      && TypeOf(fed) == body[0]
      && (forall j :: 3 <= j < |body| + 3 ==> At(fed, j) == body[j - 3])
      && fed[|fed| - 1] == Checksum(body)
  {
    var fed := AfterDelimiter(body);
    assert fed == [Hi(|body|), Lo(|body|)] + body + [Checksum(body)];
    WordOfBytes(|body|);
  }

  /** A frame body HandleByte reads to its end: a modem status of two bytes, or
      an AT response, receive packet or transmit status long enough for its fields. */
  predicate Readable(body: seq<byte>)
  {
    && 0 < |body| < 0x1_0000
    && (if body[0] == RxModemStatus then |body| == 2
        else (body[0] == RxAtCommandResponse || body[0] == RxReceivePacket || body[0] == RxTransmitStatus)
             && |body| >= MinLength(body[0]))
  }

  lemma WireCompletes(body: seq<byte>)
    requires Readable(body)
    ensures var fed := AfterDelimiter(body);
      && CompletionPos(TypeOf(fed), LengthOf(fed)) == Some(|fed|)
      && Decode(fed) == Success(Outcome(Finished(fed), true))
  {
    var fed := AfterDelimiter(body);
    AfterDelimiterAt(body);
    var n, t := LengthOf(fed), TypeOf(fed);
    assert CompletionPos(t, n) == Some(|fed|);
    assert !(n < MinLength(t));
    assert fed[..|fed|] == fed;
  }

  /** A readable frame fed to a new Frame stays open up to its checksum and is
      complete on it, holding what its bytes say by position. */
  lemma WireDecodes(body: seq<byte>)
    requires Readable(body)
    ensures var fed := AfterDelimiter(body);
      && Feed(Fresh, fed) == Success(Outcome(Finished(fed), true))
      && (forall k :: 0 <= k < |fed| ==> Feed(Fresh, fed[..k]) == Success(Outcome(View(fed[..k]), false)))
  {
    var fed := AfterDelimiter(body);
    WireCompletes(body);
    FeedIsDecode(fed);
    forall k | 0 <= k < |fed|
      ensures Feed(Fresh, fed[..k]) == Success(Outcome(View(fed[..k]), false))
    {
      FeedIsDecode(fed[..k]);
      OpenBefore(fed, k);
    }
  }

  /** The body of an AT command response: type, frame id, AT command, status, value. */
  function AtResponseBody(id: byte, command: u16, status: byte, value: seq<byte>): seq<byte>
  {
    [RxAtCommandResponse, id, Hi(command), Lo(command), status] + value
  }

  /** An AT command response frame fed to a new Frame: HandleByte returns false on
      every byte before the checksum and true on the checksum, and the frame then
      holds the frame id, the AT command, the status and the value. */
  lemma AtResponseDecodes(id: byte, command: u16, status: byte, value: seq<byte>)
    requires |value| <= 0xFFFF - 5
    ensures var body := AtResponseBody(id, command, status, value);
      var fed := AfterDelimiter(body);
      && Feed(Fresh, fed).Success? && Feed(Fresh, fed).value.done
      && (var f := Feed(Fresh, fed).value.frame;
          && f.frameType == RxAtCommandResponse && f.length == |body|
          && f.frameId == id && f.atCommand == command && f.atCommandStatus == status
          && f.payload == Some(value) && f.checkSum == Checksum(body))
      && Readable(body)
  {
    var body := AtResponseBody(id, command, status, value);
    var fed := AfterDelimiter(body);
    WireDecodes(body);
    AfterDelimiterAt(body);
    WordOfBytes(command);
    assert Finished(fed).payload.value == value;
  }

  /** The body of a receive packet: type, 64-bit source address, 16-bit source
      address, source and destination endpoints, cluster, profile, receive
      options, payload. */
  function ReceiveBody(address: seq<byte>, address16: u16, source: byte, destination: byte,
                       cluster: u16, profile: u16, rxOptions: byte, data: seq<byte>): seq<byte>
  {
    [RxReceivePacket] + address + [Hi(address16), Lo(address16), source, destination,
      Hi(cluster), Lo(cluster), Hi(profile), Lo(profile), rxOptions] + data
  }

  /** The bytes of a body from index k on sit at positions k + 3 onwards. */
  lemma TailPositions(body: seq<byte>, k: nat)
    requires 0 < |body| < 0x1_0000 && k <= |body|
    ensures var fed := AfterDelimiter(body);
      seq(|body| - k, i => At(fed, k + 3 + i)) == body[k..]
  {
    var fed := AfterDelimiter(body);
    AfterDelimiterAt(body);
    forall i | 0 <= i < |body| - k
      ensures At(fed, k + 3 + i) == body[k..][i]
    {
    }
  }

  /** Where the fields of a receive packet sit in the stream after the delimiter. */
  lemma ReceivePositions(address: seq<byte>, address16: u16, source: byte, destination: byte,
                         cluster: u16, profile: u16, rxOptions: byte, data: seq<byte>)
    requires |address| == 8 && |data| <= 0xFFFF - 18
    ensures var body := ReceiveBody(address, address16, source, destination, cluster, profile, rxOptions, data);
      var fed := AfterDelimiter(body);
      && |body| == 18 + |data| && Readable(body)
      && LengthOf(fed) == |body| && TypeOf(fed) == RxReceivePacket
      && fed[3..11] == address
      && At(fed, 12) == Hi(address16) && At(fed, 13) == Lo(address16)
      && At(fed, 14) == source && At(fed, 15) == destination
      && At(fed, 16) == Hi(cluster) && At(fed, 17) == Lo(cluster)
      && At(fed, 18) == Hi(profile) && At(fed, 19) == Lo(profile)
      && At(fed, 20) == rxOptions
      && seq(|data|, i => At(fed, 21 + i)) == data
      && fed[|fed| - 1] == Checksum(body)
  {
    var body := ReceiveBody(address, address16, source, destination, cluster, profile, rxOptions, data);
    var fed := AfterDelimiter(body);
    var head := [RxReceivePacket] + address + [Hi(address16), Lo(address16), source, destination,
      Hi(cluster), Lo(cluster), Hi(profile), Lo(profile), rxOptions];
    assert body == head + data && |head| == 18;
    AfterDelimiterAt(body);
    assert fed == [Hi(|body|), Lo(|body|)] + body + [Checksum(body)];
    assert fed[3..11] == address by {
      forall k | 0 <= k < 8
        ensures fed[3 + k] == address[k]
      {
        assert fed[3 + k] == body[1 + k] == head[1 + k];
      }
    }
    assert At(fed, 12) == head[9] && At(fed, 13) == head[10];
    assert At(fed, 14) == head[11] && At(fed, 15) == head[12];
    assert At(fed, 16) == head[13] && At(fed, 17) == head[14];
    assert At(fed, 18) == head[15] && At(fed, 19) == head[16];
    assert At(fed, 20) == head[17];
    TailPositions(body, 18);
    assert body[18..] == data;
  }

  /** A receive packet fed to a new Frame completes exactly on its checksum and
      yields the endpoints, cluster, profile, options and payload it carries; the
      64-bit address comes out big-endian when its first byte is zero. */
  lemma ReceiveDecodes(address: seq<byte>, address16: u16, source: byte, destination: byte,
                       cluster: u16, profile: u16, rxOptions: byte, data: seq<byte>)
    requires |address| == 8 && |data| <= 0xFFFF - 18
    ensures var body := ReceiveBody(address, address16, source, destination, cluster, profile, rxOptions, data);
      var fed := AfterDelimiter(body);
      && Feed(Fresh, fed).Success? && Feed(Fresh, fed).value.done
      && (var f := Feed(Fresh, fed).value.frame;
          && f.frameType == RxReceivePacket && f.length == |body| == 18 + |data|
          && f.address16 == address16
          && f.sourceEndPoint == source && f.destinationEndPoint == destination
          && f.clusterId == cluster && f.profileId == profile
          && f.receiveOptions == rxOptions
          && f.payload == Some(data) && f.checkSum == Checksum(body)
          && (address[0] == 0 ==> f.address64 == BigEndian(address)))
      && Readable(body)
  {
    var body := ReceiveBody(address, address16, source, destination, cluster, profile, rxOptions, data);
    var fed := AfterDelimiter(body);
    WireDecodes(body);
    ReceivePositions(address, address16, source, destination, cluster, profile, rxOptions, data);
    WordOfBytes(address16);
    WordOfBytes(cluster);
    WordOfBytes(profile);
    if address[0] == 0 {
      Address64TopByteZero(fed);
    }
  }

  function ModemStatusBody(status: byte): seq<byte>
  {
    [RxModemStatus, status]
  }

  /** A modem status frame fed to a new Frame completes on its fifth byte and
      yields the status. */
  lemma ModemStatusDecodes(status: byte)
    ensures var body := ModemStatusBody(status);
      var fed := AfterDelimiter(body);
      && Feed(Fresh, fed).Success? && Feed(Fresh, fed).value.done
      && Feed(Fresh, fed).value.frame.frameType == RxModemStatus
      && Feed(Fresh, fed).value.frame.modemStatus == status
      && Feed(Fresh, fed).value.frame.checkSum == Checksum(body)
      && Readable(body)
  {
    WireDecodes(ModemStatusBody(status));
    AfterDelimiterAt(ModemStatusBody(status));
  }

  function TransmitStatusBody(id: byte, address16: u16, retries: byte, delivery: byte,
                              discovery: byte): seq<byte>
  {
    [RxTransmitStatus, id, Hi(address16), Lo(address16), retries, delivery, discovery]
  }

  /** Where the fields of a transmit status sit in the stream after the delimiter. */
  lemma TransmitStatusPositions(id: byte, address16: u16, retries: byte, delivery: byte, discovery: byte)
    ensures var body := TransmitStatusBody(id, address16, retries, delivery, discovery);
      var fed := AfterDelimiter(body);
      && |body| == 7 && Readable(body)
      && LengthOf(fed) == 7 && TypeOf(fed) == RxTransmitStatus
      && At(fed, 4) == id
      && At(fed, 5) == Hi(address16) && At(fed, 6) == Lo(address16)
      && At(fed, 7) == retries && At(fed, 8) == delivery && At(fed, 9) == discovery
      && fed[|fed| - 1] == Checksum(body)
  {
    var body := TransmitStatusBody(id, address16, retries, delivery, discovery);
    var fed := AfterDelimiter(body);
    AfterDelimiterAt(body);
    assert At(fed, 4) == body[1] && At(fed, 5) == body[2] && At(fed, 6) == body[3];
    assert At(fed, 7) == body[4] && At(fed, 8) == body[5] && At(fed, 9) == body[6];
  }

  /** A transmit status frame fed to a new Frame completes on its checksum and
      yields the 16-bit address, retry count, delivery and discovery status; its
      frame id byte is read past and not kept. */
  lemma TransmitStatusDecodes(id: byte, address16: u16, retries: byte, delivery: byte, discovery: byte)
    ensures var body := TransmitStatusBody(id, address16, retries, delivery, discovery);
      var fed := AfterDelimiter(body);
      && Feed(Fresh, fed).Success? && Feed(Fresh, fed).value.done
      && (var f := Feed(Fresh, fed).value.frame;
          && f.frameType == RxTransmitStatus && f.frameId == 0
          && f.address16 == address16 && f.transmitRetryCount == retries
          && f.deliveryStatus == delivery && f.discoveryStatus == discovery
          && f.checkSum == Checksum(body))
      && Readable(body)
  {
    var body := TransmitStatusBody(id, address16, retries, delivery, discovery);
    var fed := AfterDelimiter(body);
    TransmitStatusPositions(id, address16, retries, delivery, discovery);
    WireDecodes(body);
    WordOfBytes(address16);
    assert WordAt(fed, 5) == address16;
  }
}
