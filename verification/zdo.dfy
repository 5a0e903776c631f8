/** The replies an XBee end point sends to the ZigBee device-object requests it
    answers itself (Active_EP_req and Simple_Desc_req, sections 2.4.3.1.6 and
    2.4.3.1.5 of the ZigBee specification) and to a ZigBee Cluster Library
    Read Attributes request on its home-automation end point, together with
    parsers that read those replies back as the standards lay them out. */
module Zdo {
  import opened Wrappers
  import opened Bytes
  import opened FrameLayout

  /** The end point the device exposes (LOCAL_ENDPOINT). */
  const LocalEndpoint: byte := 0x01

  const ActiveEpRequest: u16 := 0x0005
  const SimpleDescRequest: u16 := 0x0004
  /** A ZDO response cluster is the request's with the top bit set. */
  const ActiveEpResponseCluster: u16 := 0x8005
  const SimpleDescResponseCluster: u16 := 0x8004

  const HomeAutomationProfile: u16 := 0x0104
  const OnOffOutputDevice: u16 := 0x0002
  const DescriptorVersion: byte := 0x30

  const ZdoSuccess: byte := 0x00
  /** ZCL frame control of the reply: profile-wide, server to client, default response disabled. */
  const ZclReplyFrameControl: byte := 0x18
  const ZclReadAttributesResponse: byte := 0x01
  const ZclBoolean: byte := 0x10

  /** A signed 16-bit value (C# `Int16`): the cluster ids GetInClusters returns. */
  type i16 = x: int | -0x8000 <= x < 0x8000

  /** GetInClusters: Basic, Identify and On/Off. */
  const DefaultInClusters: seq<i16> := [0x0000, 0x0003, 0x0006]

  /** The little-endian word at bytes lo, hi. */
  function LittleEndian(lo: byte, hi: byte): u16
  {
    Word(hi, lo)
  }

  // ---------------------------------------------------------------------
  // Reply payloads as the device builds them. None stands for the exception
  // thrown by an index past the request payload or by an overflowing
  // Convert.ToByte; no reply is then sent.

  /** Active_EP_rsp: sequence number, success, the requested network address,
      one end point. */
  function ActiveEpReply(request: seq<byte>): (r: Option<seq<byte>>)
    ensures r.Some? <==> |request| >= 3
  {
    if |request| < 3 then None
    else Some([request[0], ZdoSuccess, request[1], request[2], 1, LocalEndpoint])
  }

  /** Whether every cluster id converts: `Convert.ToByte(c >> 8)` throws on a
      negative id. */
  predicate ClustersConvert(clusters: seq<i16>)
  {
    forall i :: 0 <= i < |clusters| ==> clusters[i] >= 0
  }

  /** The cluster ids, low byte first. */
  function ClusterBytes(clusters: seq<i16>): (bs: seq<byte>)
    requires ClustersConvert(clusters)
    ensures |bs| == 2 * |clusters|
  {
    if clusters == [] then []
    else ClusterBytes(clusters[..|clusters| - 1]) + [Lo(clusters[|clusters| - 1]), Hi(clusters[|clusters| - 1])]
  }

  /** The twelve bytes before the cluster list of a Simple_Desc_rsp. */
  function SimpleDescHeader(request: seq<byte>, count: nat): seq<byte>
    requires |request| >= 4 && count <= 123
  {
    [request[0], ZdoSuccess, request[1], request[2], 8 + 2 * count,
     request[3], Lo(HomeAutomationProfile), Hi(HomeAutomationProfile),
     Lo(OnOffOutputDevice), Hi(OnOffOutputDevice), DescriptorVersion, count]
  }

  /** Simple_Desc_rsp: the header, the input clusters, no output clusters.
      The length byte `Convert.ToByte(13 + 2n - 5)` overflows beyond 123 clusters. */
  function SimpleDescReply(request: seq<byte>, clusters: seq<i16>): (r: Option<seq<byte>>)
    ensures r.Some? <==> |request| >= 4 && |clusters| <= 123 && ClustersConvert(clusters)
    ensures r.Some? ==> |r.value| == 13 + 2 * |clusters|
  {
    if |request| < 4 || |clusters| > 123 || !ClustersConvert(clusters) then None
    else Some(SimpleDescHeader(request, |clusters|) + ClusterBytes(clusters) + [0])
  }

  /** The ZCL Read Attributes response: the request's sequence number and the low
      byte of the first requested attribute, success, a boolean "off". */
  function AttributeReply(request: seq<byte>): (r: Option<seq<byte>>)
    ensures r.Some? <==> |request| >= 4
  {
    if |request| < 4 then None
    else Some([ZclReplyFrameControl, request[1], ZclReadAttributesResponse, request[3], 0x00, 0x00, ZclBoolean, 0x00])
  }

  /** Fills the Simple_Desc_rsp payload index by index, as the device does. */
  method FillSimpleDescReply(request: seq<byte>, clusters: seq<i16>) returns (r: Option<seq<byte>>)
    ensures r == SimpleDescReply(request, clusters)
  {
    var payload := new byte[13 + 2 * |clusters|];
    var ok := FillSimpleDescHeader(payload, request, |clusters|);
    if !ok { return None; }
    var payloadIndex := FillClusters(payload, clusters);
    if payloadIndex.None? { return None; }
    payload[payloadIndex.value] := 0;
    assert payload[..] == payload[..12] + payload[12..payloadIndex.value] + [0];
    return Some(payload[..]);
  }

  /** The twelve header bytes; false where a request index or the length
      conversion throws. */
  method FillSimpleDescHeader(payload: array<byte>, request: seq<byte>, count: nat) returns (ok: bool)
    requires payload.Length == 13 + 2 * count
    modifies payload
    ensures ok <==> |request| >= 4 && count <= 123
    ensures ok ==> payload[..12] == SimpleDescHeader(request, count)
  {
    if |request| < 1 { return false; }
    payload[0] := request[0];
    payload[1] := ZdoSuccess;
    if |request| < 3 { return false; }
    payload[2] := request[1];
    payload[3] := request[2];
    if payload.Length - 5 >= 0x100 { return false; }
    payload[4] := payload.Length - 5;
    if |request| < 4 { return false; }
    payload[5] := request[3];
    payload[6] := Lo(HomeAutomationProfile);
    payload[7] := Hi(HomeAutomationProfile);
    payload[8] := Lo(OnOffOutputDevice);
    payload[9] := Hi(OnOffOutputDevice);
    payload[10] := DescriptorVersion;
    payload[11] := count;
    return true;
  }

  /** The cluster loop: two bytes per cluster from index 12, returning the index
      after the last; None where a cluster id does not convert. */
  method FillClusters(payload: array<byte>, clusters: seq<i16>) returns (end: Option<nat>)
    requires payload.Length == 13 + 2 * |clusters|
    modifies payload
    ensures end.Some? <==> ClustersConvert(clusters)
    ensures end.Some? ==> end.value == 12 + 2 * |clusters|
    ensures end.Some? ==> payload[..12] == old(payload[..12]) && payload[12..end.value] == ClusterBytes(clusters)
  {
    var payloadIndex := 12;
    var i := 0;
    while i < |clusters|
      invariant 0 <= i <= |clusters| && payloadIndex == 12 + 2 * i
      invariant ClustersConvert(clusters[..i])
      invariant payload[..12] == old(payload[..12])
      invariant payload[12..payloadIndex] == ClusterBytes(clusters[..i])
    {
      var c := clusters[i];
      if c < 0 {
        return None;
      }
      payload[payloadIndex] := Lo(c);
      payloadIndex := payloadIndex + 1;
      payload[payloadIndex] := Hi(c);
      payloadIndex := payloadIndex + 1;
      assert clusters[..i + 1][..i] == clusters[..i];
      i := i + 1;
    }
    assert clusters[..i] == clusters;
    return Some(payloadIndex);
  }

  // ---------------------------------------------------------------------
  // The replies read back as the standards lay them out.

  datatype ActiveEpResponse = ActiveEpResponse(sequence: byte, status: byte, address: u16, endpoints: seq<byte>)

  /** Active_EP_rsp: sequence, status, NWKAddrOfInterest (little endian),
      ActiveEPCount, ActiveEPList. */
  function ParseActiveEpResponse(p: seq<byte>): Option<ActiveEpResponse>
  {
    if |p| < 5 || |p| != 5 + p[4] as int then None
    else Some(ActiveEpResponse(p[0], p[1], LittleEndian(p[2], p[3]), p[5..]))
  }

  /** The requested address of an Active_EP_req or Simple_Desc_req
      (bytes 1 and 2, little endian). */
  function RequestedAddress(request: seq<byte>): u16
    requires |request| >= 3
  {
    LittleEndian(request[1], request[2])
  }

  /** The reply answers the request's sequence number with success for the
      address asked about, naming the one local end point. */
  lemma ActiveEpReplyReadsBack(request: seq<byte>)
    requires |request| >= 3
    ensures ParseActiveEpResponse(ActiveEpReply(request).value)
              == Some(ActiveEpResponse(request[0], ZdoSuccess, RequestedAddress(request), [LocalEndpoint]))
  {
  }

  datatype SimpleDescriptor = SimpleDescriptor(
    endpoint: byte, profile: u16, device: u16, version: byte, inClusters: seq<u16>, outClusters: seq<u16>)

  datatype SimpleDescResponse = SimpleDescResponse(sequence: byte, status: byte, address: u16, descriptor: SimpleDescriptor)

  /** n little-endian words. */
  function ParseWords(p: seq<byte>): (ws: seq<u16>)
    requires |p| % 2 == 0
    ensures |ws| == |p| / 2
  {
    if p == [] then [] else ParseWords(p[..|p| - 2]) + [LittleEndian(p[|p| - 2], p[|p| - 1])]
  }

  /** Simple_Desc_rsp: sequence, status, NWKAddrOfInterest, Length, then the
      simple descriptor: end point, profile, device, version, the input cluster
      count and list, the output cluster count and list. */
  function ParseSimpleDescResponse(p: seq<byte>): Option<SimpleDescResponse>
  {
    if |p| < 5 || |p| != 5 + p[4] as int then None
    else
      var d := p[5..];
      if |d| < 7 || |d| < 8 + 2 * d[6] as int then None
      else
        var n := d[6] as int;
        var m := d[7 + 2 * n] as int;
        if |d| != 8 + 2 * n + 2 * m then None
        else Some(SimpleDescResponse(p[0], p[1], LittleEndian(p[2], p[3]),
                    SimpleDescriptor(d[0], LittleEndian(d[1], d[2]), LittleEndian(d[3], d[4]), d[5],
                                     ParseWords(d[7..7 + 2 * n]), ParseWords(d[8 + 2 * n..]))))
  }

  /** The cluster ids as unsigned words. */
  function Unsigned(clusters: seq<i16>): (ws: seq<u16>)
    requires ClustersConvert(clusters)
    ensures |ws| == |clusters| && forall i :: 0 <= i < |clusters| ==> ws[i] == clusters[i]
  {
    seq(|clusters|, i requires 0 <= i < |clusters| => clusters[i] as u16)
  }

  lemma {:induction false} ClusterBytesReadBack(clusters: seq<i16>)
    requires ClustersConvert(clusters)
    ensures ParseWords(ClusterBytes(clusters)) == Unsigned(clusters)
  {
    if clusters != [] {
      var init := clusters[..|clusters| - 1];
      var c := clusters[|clusters| - 1];
      var bs := ClusterBytes(clusters);
      assert ClustersConvert(init);
      ClusterBytesReadBack(init);
      assert bs[..|bs| - 2] == ClusterBytes(init);
      assert LittleEndian(Lo(c), Hi(c)) == c;
      assert Unsigned(clusters) == Unsigned(init) + [c as u16];
    }
  }

  /** The reply describes the requested end point as a home-automation on/off
      output, version 0x30, accepting exactly the given clusters and sending none. */
  lemma SimpleDescReplyReadsBack(request: seq<byte>, clusters: seq<i16>)
    requires SimpleDescReply(request, clusters).Some?
    ensures ClustersConvert(clusters)
    ensures ParseSimpleDescResponse(SimpleDescReply(request, clusters).value)
              == Some(SimpleDescResponse(request[0], ZdoSuccess, RequestedAddress(request),
                        SimpleDescriptor(request[3], HomeAutomationProfile, OnOffOutputDevice, DescriptorVersion,
                                         Unsigned(clusters), [])))
  {
    var n := |clusters|;
    var h := SimpleDescHeader(request, n);
    var cs := ClusterBytes(clusters);
    assert h[4] as int == 8 + |cs| && 2 * h[11] as int == |cs|;
    ParseSimpleDescLayout(h, cs);
    ClusterBytesReadBack(clusters);
    WordOfBytes(HomeAutomationProfile);
    WordOfBytes(OnOffOutputDevice);
  }

  /** A twelve-byte header whose counts fit, then the input cluster words, then
      a zero output count, parses field by field. */
  lemma ParseSimpleDescLayout(h: seq<byte>, cs: seq<byte>)
    requires |h| == 12 && |cs| % 2 == 0 && h[4] as int == 8 + |cs| && 2 * h[11] as int == |cs|
    ensures ParseSimpleDescResponse(h + cs + [0])
              == Some(SimpleDescResponse(h[0], h[1], LittleEndian(h[2], h[3]),
                        SimpleDescriptor(h[5], LittleEndian(h[6], h[7]), LittleEndian(h[8], h[9]), h[10],
                                         ParseWords(cs), [])))
  {
    SimpleDescFraming(h, cs);
    DescriptorLayout(h[5..], cs);
  }

  /** The response's own length byte covers exactly the descriptor after it. */
  lemma SimpleDescFraming(h: seq<byte>, cs: seq<byte>)
    requires |h| == 12 && h[4] as int == 8 + |cs|
    ensures var p := h + cs + [0];
            && |p| == 5 + p[4] as int && p[..5] == h[..5] && p[5..] == h[5..] + cs + [0]
  {
    var p := h + cs + [0];
    assert p[..5] == h[..5];
  }

  /** The descriptor part: seven fixed bytes, the input cluster words, then an
      output count of zero, read where the parser reads them. */
  lemma DescriptorLayout(e: seq<byte>, cs: seq<byte>)
    requires |e| == 7 && 2 * e[6] as int == |cs|
    ensures var d := e + cs + [0];
            var n := d[6] as int;
            && |d| == 8 + 2 * n && d[..7] == e && d[7 + 2 * n] == 0
            && ParseWords(d[7..7 + 2 * n]) == ParseWords(cs) && ParseWords(d[8 + 2 * n..]) == []
  {
    var d := e + cs + [0];
    assert d[..7] == e;
    assert d[7..7 + |cs|] == cs;
    assert d[8 + |cs|..] == [];
  }

  /** The default clusters go out as 00 00 03 00 06 00. */
  lemma DefaultClusterBytes()
    ensures ClusterBytes(DefaultInClusters) == [0x00, 0x00, 0x03, 0x00, 0x06, 0x00]
  {
    var c := DefaultInClusters;
    assert c[..2][..1] == [0x0000];
    assert c[..2] == [0x0000, 0x0003];
    assert c[..1] == [0x0000];
    assert ClusterBytes(c[..1]) == [0x00, 0x00];
  }

  datatype ReadAttributeResponse = ReadAttributeResponse(
    frameControl: byte, sequence: byte, attribute: u16, status: byte, dataType: byte, value: byte)

  /** A ZCL Read Attributes response carrying one record with a one-byte value:
      frame control, sequence, command 0x01, attribute id (little endian),
      status, data type, value. */
  function ParseReadAttributeResponse(p: seq<byte>): Option<ReadAttributeResponse>
  {
    if |p| != 8 || p[2] != ZclReadAttributesResponse then None
    else Some(ReadAttributeResponse(p[0], p[1], LittleEndian(p[3], p[4]), p[5], p[6], p[7]))
  }

  /** A ZCL request: frame control, sequence, command, then the first attribute id. */
  function RequestedAttribute(request: seq<byte>): u16
    requires |request| >= 5
  {
    LittleEndian(request[3], request[4])
  }

  /** The reply answers the request's sequence number, server to client, with
      success and the boolean value false, for the requested attribute when its
      high byte is zero (the high byte is always answered as zero). */
  lemma AttributeReplyReadsBack(request: seq<byte>)
    requires |request| >= 4
    ensures var r := ParseReadAttributeResponse(AttributeReply(request).value);
            && r.Some?
            && r.value == ReadAttributeResponse(ZclReplyFrameControl, request[1], request[3], 0x00, ZclBoolean, 0x00)
            && r.value.frameControl / 8 % 2 == 1
    ensures |request| >= 5 && request[4] == 0 ==> ParseReadAttributeResponse(AttributeReply(request).value).value.attribute == RequestedAttribute(request)
  {
  }

  // ---------------------------------------------------------------------
  // The frames that carry the replies.

  /** A ZDO reply: explicit addressing to the coordinator (addresses zero), ZDO
      end points and profile zero. */
  function ZdoReplyFrame(cluster: u16, payload: seq<byte>): FrameFields
  {
    FrameFields(TxExplicitAddressCommand, 0, 0, 0, 0, 0, cluster, 0, 0, 0, Some(payload))
  }

  /** The attribute reply: back to the sender's end point from the one addressed,
      on the same cluster, in the home-automation profile. */
  function AttributeReplyFrame(cluster: u16, source: byte, destination: byte, payload: seq<byte>): FrameFields
  {
    FrameFields(TxExplicitAddressCommand, 0, 0, 0, destination, source, cluster, HomeAutomationProfile, 0, 0, Some(payload))
  }

  /** Every reply the device builds fits a frame: the encoder accepts it, with
      any frame id. */
  lemma RepliesEncode(request: seq<byte>, clusters: seq<i16>, cluster: u16, source: byte, destination: byte, id: byte)
    ensures ActiveEpReply(request).Some? ==>
              EncodeBody(ZdoReplyFrame(ActiveEpResponseCluster, ActiveEpReply(request).value), id).Success?
    ensures SimpleDescReply(request, clusters).Some? ==>
              EncodeBody(ZdoReplyFrame(SimpleDescResponseCluster, SimpleDescReply(request, clusters).value), id).Success?
    ensures AttributeReply(request).Some? ==>
              EncodeBody(AttributeReplyFrame(cluster, source, destination, AttributeReply(request).value), id).Success?
  {
    if ActiveEpReply(request).Some? {
      ExplicitFrameEncodes(ZdoReplyFrame(ActiveEpResponseCluster, ActiveEpReply(request).value), id);
    }
    if SimpleDescReply(request, clusters).Some? {
      ExplicitFrameEncodes(ZdoReplyFrame(SimpleDescResponseCluster, SimpleDescReply(request, clusters).value), id);
    }
    if AttributeReply(request).Some? {
      ExplicitFrameEncodes(AttributeReplyFrame(cluster, source, destination, AttributeReply(request).value), id);
    }
  }
}
