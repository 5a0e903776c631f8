/** Properties of the XBee session: what each kind of reply does, the query and
    profile conversations end to end, the gating of the provisioning chain,
    the answers to ZDO requests, and the invariant over every run. */
module SessionLaws {
  import opened Wrappers
  import opened Bytes
  import opened FrameLayout
  import opened FrameDecoding
  import opened Provisioning
  import opened Zdo
  import opened Completion
  import opened DeviceSession

  // ---------------------------------------------------------------------
  // Runs

  /** Everything that can happen to a session from outside: a frame arriving,
      a timer firing, or a call of one of its public members. */
  datatype Input =
    | Arrive(frame: FrameState)
    | Fire(slot: Slot)
    | CallAddSettingToQuery(code: string)
    | CallAddSettingsToQuery(codes: seq<string>)
    | CallBeginQuery
    | CallDisassociate
    | CallGetIsConnected
    | CallResetDevice
    | CallInitialize
    | Continue
    | CallDispose
    | SetJoinedToNetwork(joined: bool)

  /** Whether the input can happen: a timer fires only if armed, the members that
      start a task or dispose need the comms object attached, one
      initialisation starts at a time and continues once its awaited task has
      a result. */
  predicate Enabled(s: Session, i: Input)
  {
    match i
    case Arrive(_) => true
    case Fire(slot) => slot in s.timers
    case CallAddSettingToQuery(_) => true
    case CallAddSettingsToQuery(_) => true
    case CallBeginQuery => true
    case CallInitialize => s.attached && !s.phase.Awaiting()
    case Continue => CanResume(s) && s.profile != []
    case SetJoinedToNetwork(_) => true
    case _ => s.attached
  }

  function Next(s: Session, i: Input): Session
    requires Enabled(s, i)
  {
    match i
    case Arrive(f) => FrameReady(s, f)
    case Fire(slot) => Timeout(s, slot)
    case CallAddSettingToQuery(code) => AddSettingToQuery(s, code).after
    case CallAddSettingsToQuery(codes) => AddSettingsToQuery(s, codes).after
    case CallBeginQuery => BeginQuery(s).after
    case CallDisassociate => DeviceSession.Disassociate(s)
    case CallGetIsConnected => GetIsConnected(s)
    case CallResetDevice => ResetDevice(s)
    case CallInitialize => Initialize(s)
    case Continue => ResumeInitialize(s)
    case CallDispose => Dispose(s)
    case SetJoinedToNetwork(v) => SetJoined(s, v)
  }

  /** The session after the inputs in order, or None if one could not happen. */
  function Run(s: Session, inputs: seq<Input>): Option<Session>
    decreases |inputs|
  {
    if inputs == [] then Some(s)
    else if Enabled(s, inputs[0]) then Run(Next(s, inputs[0]), inputs[1..])
    else None
  }

  lemma KeepsTransitive(s: Session, t: Session, u: Session)
    requires Keeps(s, t) && Keeps(t, u)
    ensures Keeps(s, u)
  {
    ExtendsTransitive(s.completions, t.completions, u.completions);
  }

  lemma NextKeeps(s: Session, i: Input)
    requires Valid(s) && Enabled(s, i)
    ensures Valid(Next(s, i)) && Keeps(s, Next(s, i))
  {
    match i
    case CallDisassociate =>
    case CallGetIsConnected =>
    case CallResetDevice =>
    case _ =>
  }

  /** The invariant holds after every run from a valid session, and no run ever
      changes a task's result once set: every completion slot resolves its task
      at most once, whatever replies and timeouts arrive in whatever order. */
  lemma {:induction false} RunKeeps(s: Session, inputs: seq<Input>)
    requires Valid(s) && Run(s, inputs).Some?
    ensures Valid(Run(s, inputs).value) && Keeps(s, Run(s, inputs).value)
    decreases |inputs|
  {
    if inputs != [] {
      var t := Next(s, inputs[0]);
      NextKeeps(s, inputs[0]);
      RunKeeps(t, inputs[1..]);
      KeepsTransitive(s, t, Run(s, inputs).value);
    }
  }

  /** Every session reachable from a new device is valid. */
  lemma ReachableValid(inClusters: seq<i16>, inputs: seq<Input>)
    requires Run(Initial(inClusters), inputs).Some?
    ensures Valid(Run(Initial(inClusters), inputs).value)
  {
    RunKeeps(Initial(inClusters), inputs);
  }

  /** Whatever a valid session has handed to the comms object can be put on the
      wire: AT requests carry a two-character code, and every explicit frame is
      accepted by the encoder under any frame id. */
  lemma SentFramesEncode(s: Session, i: nat, id: byte)
    requires Valid(s) && i < |s.outbox|
    ensures s.outbox[i].AtRequest? ==> |s.outbox[i].command| == 2
    ensures s.outbox[i].Explicit? ==> EncodeBody(s.outbox[i].frame, id).Success?
  {
    assert Sendable(s.outbox[i]);
    if s.outbox[i].Explicit? {
      ExplicitFrameEncodes(s.outbox[i].frame, id);
    }
  }

  /** A timer resolves its slot's task, if any, to false. */
  lemma TimeoutResolvesFalse(s: Session, slot: Slot)
    requires Valid(s) && slot in s.timers
    ensures var r := Timeout(s, slot);
            && slot !in r.completions.pending
            && (slot in s.completions.pending ==> r.completions.results[s.completions.pending[slot]] == false)
            && r.timers == s.timers - multiset{slot}
  {
  }

  // ---------------------------------------------------------------------
  // Single replies

  /** An AT response with a value, other than to WR, and the session not disposed. */
  predicate ReadReply(f: FrameState)
  {
    && f.frameType == RxAtCommandResponse
    && AtCommandText(f.atCommand) != WriteCommand
    && f.payload.Some? && |f.payload.value| > 0
  }

  /** Once disposed, a session ignores every frame. */
  lemma DisposedIgnoresFrames(s: Session, fs: seq<FrameState>)
    requires s.state == Disposed
    ensures Feed(s, fs) == s
  {
  }

  /** A read reply for AI sets the join state from its first byte (the join
      event firing) and resolves the connectivity slot with it; the settings,
      the read queue and the outbox stay as they are. */
  lemma AssociationReply(s: Session, f: FrameState)
    requires Valid(s) && s.state != Disposed && ReadReply(f) && AtCommandText(f.atCommand) == AssociationIndicator
    ensures var r := FrameReady(s, f);
            && r.joined == (f.payload.value[0] == 0)
            && r.events == s.events + [JoinStatusChanged(r.joined)]
            && r.settings == s.settings && r.readQueue == s.readQueue && r.outbox == s.outbox
            && IsConnected !in r.completions.pending
            && (IsConnected in s.completions.pending ==>
                  r.completions.results == s.completions.results[s.completions.pending[IsConnected] := r.joined])
  {
    assert s.settings - {AssociationIndicator} == s.settings;
  }

  /** Any other read reply stores its value under its code, replacing an earlier
      one; then either the next queued code is sent and nothing resolves, or,
      with the queue empty, the state becomes Ready (one notification, only if
      it was not Ready) and the query slot resolves true. */
  lemma ValueReply(s: Session, f: FrameState)
    requires Valid(s) && s.state != Disposed && ReadReply(f) && AtCommandText(f.atCommand) != AssociationIndicator
    ensures var r := FrameReady(s, f);
            var code := AtCommandText(f.atCommand);
            && r.settings == s.settings[code := f.payload.value]
            && (s.readQueue != [] ==>
                  && r.readQueue == s.readQueue[1..]
                  && r.outbox == s.outbox + [AtRequest(s.readQueue[0], None)]
                  && r.completions == s.completions && r.state == s.state && r.events == s.events)
            && (s.readQueue == [] ==>
                  && r.readQueue == [] && r.outbox == s.outbox && r.state == Ready
                  && r.events == s.events + (if s.state == Ready then [] else [StateChanged(Ready)])
                  && r.completions == Resolve(s.completions, Query, true))
  {
  }

  /** An AT response without a value (and not to WR). */
  predicate WriteReply(f: FrameState)
  {
    && f.frameType == RxAtCommandResponse
    && AtCommandText(f.atCommand) != WriteCommand
    && (f.payload.None? || f.payload.value == [])
  }

  /** A write reply resolves the disassociate slot true when it answers DA; then
      exactly one queued write is sent if any remain, and otherwise the
      profile-send slot resolves true. */
  lemma WriteReplyEffect(s: Session, f: FrameState)
    requires Valid(s) && s.state != Disposed && WriteReply(f)
    ensures var r := FrameReady(s, f);
            var c := if f.atCommand == DisassociateCode then Resolve(s.completions, Completion.Disassociate, true)
                     else s.completions;
            && r.settings == s.settings && r.readQueue == s.readQueue && r.state == s.state
            && (s.writeQueue != [] ==>
                  && r.writeQueue == s.writeQueue[1..]
                  && r.outbox == s.outbox + [AtRequest(s.writeQueue[0].command, Some(s.writeQueue[0].value))]
                  && r.completions == c)
            && (s.writeQueue == [] ==>
                  && r.writeQueue == [] && r.outbox == s.outbox
                  && r.completions == Resolve(c, SendProfile, true))
  {
  }

  /** The reply to WR resolves the save slot to whether the status is OK, and
      does nothing else. */
  lemma SaveReplyEffect(s: Session, f: FrameState)
    requires s.state != Disposed && f.frameType == RxAtCommandResponse && AtCommandText(f.atCommand) == WriteCommand
    ensures FrameReady(s, f) == s.(completions := Resolve(s.completions, Save, f.atCommandStatus == StatusOK))
  {
  }

  /** JoinedNetwork and Disassociated set the join state (the event firing every
      time, changed or not), the watchdog reset resolves the reset slot true, and
      any other status changes nothing. */
  lemma ModemStatusEffect(s: Session, f: FrameState)
    requires s.state != Disposed && f.frameType == RxModemStatus
    ensures var r := FrameReady(s, f);
            && (f.modemStatus == JoinedNetwork ==> r == s.(joined := true, events := s.events + [JoinStatusChanged(true)]))
            && (f.modemStatus == Disassociated ==> r == s.(joined := false, events := s.events + [JoinStatusChanged(false)]))
            && (f.modemStatus == WatchdogTimerReset ==> r == s.(completions := Resolve(s.completions, Reset, true)))
            && (f.modemStatus !in {JoinedNetwork, Disassociated, WatchdogTimerReset} ==> r == s)
  {
  }

  // ---------------------------------------------------------------------
  // ZDO and ZCL requests

  /** An RxReceivePacket for the cluster, not after Dispose. */
  predicate ReceivedOn(s: Session, f: FrameState, cluster: u16)
  {
    s.state != Disposed && f.frameType == RxReceivePacket && f.clusterId == cluster
  }

  /** An Active_EP_req is answered by one frame on cluster 0x8005 that the
      encoder accepts and that reads back as success for the requested address,
      naming the local end point; a request too short to read sends nothing. */
  lemma ActiveEndpointsAnswered(s: Session, f: FrameState, id: byte)
    requires ReceivedOn(s, f, ActiveEpRequest)
    ensures var r := FrameReady(s, f);
            var p := Request(f);
            && (|p| >= 3 ==>
                  && |r.outbox| == |s.outbox| + 1 && r.outbox[..|s.outbox|] == s.outbox
                  && r.outbox[|s.outbox|].Explicit?
                  && var reply := r.outbox[|s.outbox|].frame;
                  && reply.clusterId == ActiveEpResponseCluster
                  && reply.payload.Some?
                  && EncodeBody(reply, id).Success?
                  && ParseActiveEpResponse(reply.payload.value)
                       == Some(ActiveEpResponse(p[0], ZdoSuccess, RequestedAddress(p), [LocalEndpoint])))
            && (|p| < 3 ==> r == s)
  {
    var p := Request(f);
    if |p| >= 3 {
      ActiveEpReplyReadsBack(p);
      RepliesEncode(p, s.inClusters, 0, 0, 0, id);
    }
  }

  /** A Simple_Desc_req is answered on cluster 0x8004 with a frame the encoder
      accepts, describing the requested end point as a home-automation on/off
      output that accepts exactly the session's input clusters; where the
      request is too short or the clusters do not convert, nothing is sent. */
  lemma SimpleDescriptorAnswered(s: Session, f: FrameState, id: byte)
    requires ReceivedOn(s, f, SimpleDescRequest)
    ensures var r := FrameReady(s, f);
            var p := Request(f);
            && (SimpleDescReply(p, s.inClusters).Some? ==>
                  && ClustersConvert(s.inClusters)
                  && |r.outbox| == |s.outbox| + 1 && r.outbox[..|s.outbox|] == s.outbox
                  && r.outbox[|s.outbox|].Explicit?
                  && var reply := r.outbox[|s.outbox|].frame;
                  && reply.clusterId == SimpleDescResponseCluster
                  && reply.payload.Some?
                  && EncodeBody(reply, id).Success?
                  && ParseSimpleDescResponse(reply.payload.value)
                       == Some(SimpleDescResponse(p[0], ZdoSuccess, RequestedAddress(p),
                                 SimpleDescriptor(p[3], HomeAutomationProfile, OnOffOutputDevice, DescriptorVersion,
                                                  Unsigned(s.inClusters), []))))
            && (SimpleDescReply(p, s.inClusters).None? ==> r == s)
  {
    var p := Request(f);
    if SimpleDescReply(p, s.inClusters).Some? {
      SimpleDescReplyReadsBack(p, s.inClusters);
      RepliesEncode(p, s.inClusters, 0, 0, 0, id);
    }
  }

  /** With the default clusters, a well-formed Simple_Desc_req is always
      answered, listing Basic, Identify and On/Off. */
  lemma DefaultClustersAnswered(s: Session, f: FrameState)
    requires ReceivedOn(s, f, SimpleDescRequest) && s.inClusters == DefaultInClusters && |Request(f)| >= 4
    ensures SimpleDescReply(Request(f), s.inClusters).Some?
    ensures Unsigned(s.inClusters) == [0x0000, 0x0003, 0x0006]
  {
  }

  /** A packet for the local end point in the home-automation profile (on a
      cluster other than the two ZDO requests) is answered with a Read
      Attributes response back to its sender's end point, on its cluster, when
      the device's short address has been read; other packets are handed to
      HandleFrame. */
  lemma AttributeReadAnswered(s: Session, f: FrameState)
    requires s.state != Disposed && f.frameType == RxReceivePacket
    requires f.clusterId != ActiveEpRequest && f.clusterId != SimpleDescRequest
    ensures var r := FrameReady(s, f);
            var p := Request(f);
            && (f.destinationEndPoint == LocalEndpoint && f.profileId == HomeAutomationProfile ==>
                  && (HasShortAddress(s) && |p| >= 4 ==>
                        && r.outbox == s.outbox + [Explicit(AttributeReplyFrame(f.clusterId, f.sourceEndPoint, f.destinationEndPoint, AttributeReply(p).value))]
                        && ParseReadAttributeResponse(AttributeReply(p).value).value.sequence == p[1])
                  && (!HasShortAddress(s) || |p| < 4 ==> r == s))
            && (f.destinationEndPoint != LocalEndpoint || f.profileId != HomeAutomationProfile ==>
                  r == s.(forwarded := s.forwarded + [f]))
  {
    if |Request(f)| >= 4 {
      AttributeReplyReadsBack(Request(f));
    }
  }

  // ---------------------------------------------------------------------
  // Conversations

  /** The frames handed to the dispatch one after another. */
  function Feed(s: Session, fs: seq<FrameState>): Session
    decreases |fs|
  {
    if fs == [] then s else Feed(FrameReady(s, fs[0]), fs[1..])
  }

  lemma {:induction false} FeedAppend(s: Session, a: seq<FrameState>, b: seq<FrameState>)
    ensures Feed(s, a + b) == Feed(Feed(s, a), b)
    decreases |a|
  {
    if a == [] {
      assert a + b == b;
    } else {
      assert (a + b)[0] == a[0] && (a + b)[1..] == a[1..] + b;
      FeedAppend(FrameReady(s, a[0]), a[1..], b);
    }
  }

  /** The AT requests for codes, without values. */
  function Reads(codes: seq<string>): (os: seq<Outbound>)
    ensures |os| == |codes| && forall i :: 0 <= i < |codes| ==> os[i] == AtRequest(codes[i], None)
  {
    seq(|codes|, i requires 0 <= i < |codes| => AtRequest(codes[i], None))
  }

  /** The AT requests setting each entry. */
  function Writes(entries: seq<Setting>): (os: seq<Outbound>)
    ensures |os| == |entries| && forall i :: 0 <= i < |entries| ==> os[i] == AtRequest(entries[i].command, Some(entries[i].value))
  {
    seq(|entries|, i requires 0 <= i < |entries| => AtRequest(entries[i].command, Some(entries[i].value)))
  }

  /** A read reply other than AI. */
  predicate ValueReplyFrame(f: FrameState)
  {
    ReadReply(f) && AtCommandText(f.atCommand) != AssociationIndicator
  }

  lemma ValueReplyStep(s: Session, f: FrameState)
    requires s.state != Disposed && s.readQueue != [] && ValueReplyFrame(f)
    ensures FrameReady(s, f) == Send(s.(settings := s.settings[AtCommandText(f.atCommand) := f.payload.value],
                                        readQueue := s.readQueue[1..]), AtRequest(s.readQueue[0], None))
  {
  }

  /** While codes remain queued, each value reply sends the next queued code, in
      queue order, and stores its value; nothing resolves. */
  lemma {:induction false} ReadLoop(s: Session, fs: seq<FrameState>)
    requires s.state != Disposed && |fs| <= |s.readQueue|
    requires forall i :: 0 <= i < |fs| ==> ValueReplyFrame(fs[i])
    ensures var r := Feed(s, fs);
            && r.readQueue == s.readQueue[|fs|..]
            && r.outbox == s.outbox + Reads(s.readQueue[..|fs|])
            && r.completions == s.completions && r.state == s.state && r.phase == s.phase
            && s.settings.Keys <= r.settings.Keys
            && forall i :: 0 <= i < |fs| ==> AtCommandText(fs[i].atCommand) in r.settings
    decreases |fs|
  {
    if fs != [] {
      var s1 := FrameReady(s, fs[0]);
      ValueReplyStep(s, fs[0]);
      ReadLoop(s1, fs[1..]);
      var r := Feed(s1, fs[1..]);
      assert r == Feed(s, fs);
      TailSlices(s.readQueue, |fs|);
      ReadsCons(s.readQueue[..|fs|]);
      SeqAssoc(s.outbox, [AtRequest(s.readQueue[0], None)], Reads(s.readQueue[1..][..|fs| - 1]));
      forall i | 0 <= i < |fs|
        ensures AtCommandText(fs[i].atCommand) in r.settings
      {
        if i > 0 {
          assert fs[i] == fs[1..][i - 1];
        }
      }
    }
  }

  lemma TailSlices<T>(q: seq<T>, n: nat)
    requires 0 < n <= |q|
    ensures q[1..][n - 1..] == q[n..] && q[1..][..n - 1] == q[..n][1..] && q[..n][0] == q[0]
  {
  }

  lemma ReadsCons(codes: seq<string>)
    requires codes != []
    ensures Reads(codes) == [AtRequest(codes[0], None)] + Reads(codes[1..])
  {
  }

  /** The last value reply, with the queue empty: the state becomes Ready and
      the query task resolves true. */
  lemma LastValueReply(m: Session, f: FrameState)
    requires m.state != Disposed && m.readQueue == [] && ValueReplyFrame(f)
    requires Completion.Consistent(m.completions) && Query in m.completions.pending
    ensures var r := FrameReady(m, f);
            && r.outbox == m.outbox && r.state == Ready
            && m.completions.pending[Query] in r.completions.results && r.completions.results[m.completions.pending[Query]] == true
            && m.settings.Keys <= r.settings.Keys && AtCommandText(f.atCommand) in r.settings
  {
  }

  /** With n codes queued and a query task pending, n + 1 value replies request
      every queued code in order, store every reply, make the state Ready and
      resolve the query task true. */
  lemma QueryRound(q: Session, fs: seq<FrameState>)
    requires q.state != Disposed && |fs| == |q.readQueue| + 1
    requires forall i :: 0 <= i < |fs| ==> ValueReplyFrame(fs[i])
    requires Completion.Consistent(q.completions) && Query in q.completions.pending
    ensures var r := Feed(q, fs);
            && r.outbox == q.outbox + Reads(q.readQueue)
            && r.state == Ready
            && q.completions.pending[Query] in r.completions.results && r.completions.results[q.completions.pending[Query]] == true
            && forall i :: 0 <= i < |fs| ==> AtCommandText(fs[i].atCommand) in r.settings
  {
    var n := |q.readQueue|;
    var init, last := fs[..n], fs[n..];
    assert fs == init + last;
    FeedAppend(q, init, last);
    ReadLoop(q, init);
    var m := Feed(q, init);
    assert q.readQueue[..n] == q.readQueue;
    assert last == [fs[n]];
    LastValueReply(m, fs[n]);
    var r := Feed(m, last);
    assert r == FrameReady(m, fs[n]);
    forall i | 0 <= i < |fs|
      ensures AtCommandText(fs[i].atCommand) in r.settings
    {
      if i < n {
        assert fs[i] == init[i];
      }
    }
  }

  /** QueryDeviceAsync followed by one value reply per parameter: the fifteen
      parameters are requested once each, in list order, every reply is stored,
      the state becomes Ready, and the query task resolves true. */
  lemma QueryConversation(s: Session, fs: seq<FrameState>)
    requires Valid(s) && s.attached
    requires |fs| == |QueryCodes| && forall i :: 0 <= i < |fs| ==> ValueReplyFrame(fs[i])
    ensures var r := Feed(QueryDevice(s), fs);
            && r.outbox == s.outbox + Reads(QueryCodes)
            && r.state == Ready
            && s.completions.issued in r.completions.results && r.completions.results[s.completions.issued] == true
            && forall i :: 0 <= i < |fs| ==> AtCommandText(fs[i].atCommand) in r.settings
  {
    QueryDeviceStarts(s);
    QueryRoundFrom(s, QueryDevice(s), fs, QueryCodes);
  }

  /** QueryRound seen from before the first request of `codes` was sent. */
  lemma QueryRoundFrom(s: Session, q: Session, fs: seq<FrameState>, codes: seq<string>)
    requires Valid(s) && codes != [] && |fs| == |codes|
    requires forall i :: 0 <= i < |fs| ==> ValueReplyFrame(fs[i])
    requires q.state == s.state != Disposed && q.readQueue == codes[1..]
    requires q.outbox == s.outbox + [AtRequest(codes[0], None)]
    requires q.completions == Issue(s.completions, Query)
    ensures var r := Feed(q, fs);
            && r.outbox == s.outbox + Reads(codes)
            && r.state == Ready
            && s.completions.issued in r.completions.results && r.completions.results[s.completions.issued] == true
            && forall i :: 0 <= i < |fs| ==> AtCommandText(fs[i].atCommand) in r.settings
  {
    QueryRound(q, fs);
    ReadsCons(codes);
    SeqAssoc(s.outbox, [AtRequest(codes[0], None)], Reads(codes[1..]));
  }

  /** A write reply that is neither to WR nor to DA. */
  predicate PlainWriteReply(f: FrameState)
  {
    WriteReply(f) && f.atCommand != DisassociateCode
  }

  lemma WriteReplyStep(s: Session, f: FrameState)
    requires s.state != Disposed && s.writeQueue != [] && PlainWriteReply(f)
    ensures FrameReady(s, f) == Send(s.(writeQueue := s.writeQueue[1..]),
                                     AtRequest(s.writeQueue[0].command, Some(s.writeQueue[0].value)))
  {
  }

  /** While writes remain queued, each write reply sends the next queued entry,
      in queue order; nothing resolves. */
  lemma {:induction false} WriteLoop(s: Session, fs: seq<FrameState>)
    requires s.state != Disposed && |fs| <= |s.writeQueue|
    requires forall i :: 0 <= i < |fs| ==> PlainWriteReply(fs[i])
    ensures var r := Feed(s, fs);
            && r.writeQueue == s.writeQueue[|fs|..]
            && r.outbox == s.outbox + Writes(s.writeQueue[..|fs|])
            && r.completions == s.completions && r.state == s.state && r.settings == s.settings
    decreases |fs|
  {
    if fs != [] {
      var s1 := FrameReady(s, fs[0]);
      WriteReplyStep(s, fs[0]);
      WriteLoop(s1, fs[1..]);
      assert Feed(s1, fs[1..]) == Feed(s, fs);
      TailSlices(s.writeQueue, |fs|);
      WritesCons(s.writeQueue[..|fs|]);
      SeqAssoc(s.outbox, [AtRequest(s.writeQueue[0].command, Some(s.writeQueue[0].value))], Writes(s.writeQueue[1..][..|fs| - 1]));
    }
  }

  lemma WritesCons(entries: seq<Setting>)
    requires entries != []
    ensures Writes(entries) == [AtRequest(entries[0].command, Some(entries[0].value))] + Writes(entries[1..])
  {
  }

  /** The last write reply, with the queue empty: the profile task resolves true. */
  lemma LastWriteReply(m: Session, f: FrameState)
    requires m.state != Disposed && m.writeQueue == [] && PlainWriteReply(f)
    requires Completion.Consistent(m.completions) && SendProfile in m.completions.pending
    ensures var r := FrameReady(m, f);
            && r.outbox == m.outbox && r.writeQueue == []
            && m.completions.pending[SendProfile] in r.completions.results && r.completions.results[m.completions.pending[SendProfile]] == true
  {
  }

  /** With n entries queued and a profile task pending, n + 1 write replies
      write every queued entry in order and resolve the profile task true. */
  lemma WriteRound(t: Session, fs: seq<FrameState>)
    requires t.state != Disposed && |fs| == |t.writeQueue| + 1
    requires forall i :: 0 <= i < |fs| ==> PlainWriteReply(fs[i])
    requires Completion.Consistent(t.completions) && SendProfile in t.completions.pending
    ensures var r := Feed(t, fs);
            && r.outbox == t.outbox + Writes(t.writeQueue)
            && r.writeQueue == []
            && t.completions.pending[SendProfile] in r.completions.results && r.completions.results[t.completions.pending[SendProfile]] == true
  {
    var n := |t.writeQueue|;
    var init, last := fs[..n], fs[n..];
    assert fs == init + last;
    FeedAppend(t, init, last);
    WriteLoop(t, init);
    var m := Feed(t, init);
    assert t.writeQueue[..n] == t.writeQueue;
    assert last == [fs[n]];
    LastWriteReply(m, fs[n]);
    assert Feed(m, last) == FrameReady(m, fs[n]);
  }

  /** TransmitProfile on an empty write queue, followed by one write reply per
      entry: all eleven profile entries, the link key included, are written
      once each in profile order, and the profile task resolves true. */
  lemma ProfileConversation(s: Session, fs: seq<FrameState>)
    requires Valid(s) && s.attached && s.writeQueue == [] && s.profile == Profile
    requires |fs| == |Profile| && forall i :: 0 <= i < |fs| ==> PlainWriteReply(fs[i])
    ensures var r := Feed(TransmitProfile(s), fs);
            && r.outbox == s.outbox + Writes(Profile)
            && r.writeQueue == []
            && s.completions.issued in r.completions.results && r.completions.results[s.completions.issued] == true
  {
    ProfileRoundFrom(s, fs, s.profile);
  }

  /** ProfileConversation for any non-empty profile. */
  lemma ProfileRoundFrom(s: Session, fs: seq<FrameState>, profile: seq<Setting>)
    requires Valid(s) && s.attached && s.writeQueue == [] && s.profile == profile && profile != []
    requires |fs| == |profile| && forall i :: 0 <= i < |fs| ==> PlainWriteReply(fs[i])
    ensures var r := Feed(TransmitProfile(s), fs);
            && r.outbox == s.outbox + Writes(profile)
            && r.writeQueue == []
            && s.completions.issued in r.completions.results && r.completions.results[s.completions.issued] == true
  {
    TransmitProfileStarts(s);
    var t := TransmitProfile(s);
    WriteRound(t, fs);
    WritesCons(profile);
    var w := [AtRequest(profile[0].command, Some(profile[0].value))];
    SeqAssoc(s.outbox, w, Writes(profile[1..]));
  }

  lemma SeqAssoc<T>(a: seq<T>, b: seq<T>, c: seq<T>)
    ensures (a + b) + c == a + (b + c)
  {
  }

  /** TransmitProfile on an empty write queue sends the first profile entry,
      queues the rest and takes a new profile task. */
  lemma TransmitProfileStarts(s: Session)
    requires Valid(s) && s.attached && s.writeQueue == []
    ensures var t := TransmitProfile(s);
            && t.writeQueue == s.profile[1..]
            && t.outbox == s.outbox + [AtRequest(s.profile[0].command, Some(s.profile[0].value))]
            && t.completions == Issue(s.completions, SendProfile)
            && t.timers == s.timers + multiset{SendProfile}
            && t.state == s.state
  {
    assert s.writeQueue + s.profile == s.profile;
  }

  // ---------------------------------------------------------------------
  // The provisioning chain

  /** Each step of InitializeAsync starts the next task only after the one
      before resolved true: the profile is sent only after a successful query
      that found a mismatch (an entry other than KY read back with different
      bytes), the settings saved only after a successful profile send, the
      device reset only after a successful save. When the chain stops, Ready is
      announced and the last awaited result is returned. */
  lemma ChainGating(s: Session)
    requires Valid(s) && CanResume(s)
    ensures var r := ResumeInitialize(s);
            var ok := s.completions.results[s.phase.ticket];
            && (r.phase.AwaitingProfile? <==>
                  s.attached && s.phase.AwaitingQuery? && ok
                  && exists i :: 0 <= i < |s.profile| && Differs(s.profile[i], s.settings))
            && (r.phase.AwaitingSave? <==> s.attached && s.phase.AwaitingProfile? && ok)
            && (r.phase.AwaitingReset? <==> s.attached && s.phase.AwaitingSave? && ok)
            && !r.phase.Idle?
            && (r.phase.Initialized? ==> r.phase.result == ok && r.events == s.events + [StateChanged(Ready)])
  {
    MismatchCountPositive(s.profile, s.settings);
  }

  /** After Dispose, InitializeAsync continues without the comms object: a
      successful query faults it at the first logged profile entry, a
      successful profile send or save faults it at the send of the next task
      (whose completion source is left in its slot with no timer of its own),
      and every other continuation finishes as before. Nothing is sent either
      way. */
  lemma ChainAfterDispose(s: Session)
    requires Valid(s) && !s.attached && CanResume(s)
    ensures var r := ResumeInitialize(s);
            var ok := s.completions.results[s.phase.ticket];
            && (r.phase.Faulted? <==>
                  ok && ((s.phase.AwaitingQuery? && LogsProfile(s.profile)) || s.phase.AwaitingProfile? || s.phase.AwaitingSave?))
            && (r.phase.Faulted? ==> r.events == s.events)
            && (r.phase.Faulted? && !s.phase.AwaitingQuery? ==>
                  var slot := if s.phase.AwaitingProfile? then Save else Reset;
                  r.completions == Issue(s.completions, slot) && r.timers == s.timers)
            && !r.phase.Awaiting()
            && r.outbox == s.outbox
  {
    MismatchLogged(s.profile, s.settings);
  }

  /** The task a continuation starts is the one it then awaits: a new ticket in
      the matching slot, with its request the last thing sent. */
  lemma ChainStartsAwaitedTask(s: Session)
    requires CanResume(s) && s.profile != []
    ensures var r := ResumeInitialize(s);
            && (r.phase.Awaiting() ==> r.phase.ticket == s.completions.issued && |r.outbox| == |s.outbox| + 1)
            && (r.phase.AwaitingProfile? ==>
                  && SendProfile in r.completions.pending && r.completions.pending[SendProfile] == r.phase.ticket
                  && r.outbox[|s.outbox|] == AtRequest((s.writeQueue + s.profile)[0].command, Some((s.writeQueue + s.profile)[0].value)))
            && (r.phase.AwaitingSave? ==>
                  && Save in r.completions.pending && r.completions.pending[Save] == r.phase.ticket
                  && r.outbox[|s.outbox|] == AtRequest(WriteCommand, None))
            && (r.phase.AwaitingReset? ==>
                  && Reset in r.completions.pending && r.completions.pending[Reset] == r.phase.ticket
                  && r.outbox[|s.outbox|] == AtRequest(SoftwareReset, None))
  {
    var result := s.completions.results[s.phase.ticket];
    var next := s.completions.issued;
    match s.phase
    case AwaitingQuery(_) =>
      if ResumeInitialize(s).phase.Awaiting() {
        assert result && MismatchCount(s.profile, s.settings) > 0 && s.attached;
        assert ResumeInitialize(s) == TransmitProfile(s).(phase := AwaitingProfile(next));
      }
    case AwaitingProfile(_) =>
      if result && s.attached {
        StartSends(s, Save, WriteCommand);
        assert ResumeInitialize(s) == SaveEEPROMSettings(s).(phase := AwaitingSave(next));
      }
    case AwaitingSave(_) =>
      if result && s.attached {
        StartSends(s, Reset, SoftwareReset);
        assert ResumeInitialize(s) == ResetDevice(s).(phase := AwaitingReset(next));
      }
    case AwaitingReset(_) =>
  }

  /** A started task takes the next ticket in its slot and sends its request. */
  lemma StartSends(s: Session, slot: Slot, command: string)
    requires |command| == 2
    ensures var r := Start(s, slot, command);
            && slot in r.completions.pending && r.completions.pending[slot] == s.completions.issued
            && r.outbox == s.outbox + [AtRequest(command, None)]
            && r.timers == s.timers + multiset{slot}
  {
  }

  /** AddSettingToQuery on each code in turn, up to and including the first
      call that throws. */
  function AddInTurn(s: Session, codes: seq<string>): Returned
    decreases |codes|
  {
    if codes == [] then Returned(s, true)
    else
      var r := AddSettingToQuery(s, codes[0]);
      if r.normally then AddInTurn(r.after, codes[1..]) else r
  }

  /** While the logging can run, adding the rest of the codes in turn to the
      queue of the codes done queues the codes up to the first invalid one. */
  lemma {:induction false} InTurnFrom(s: Session, done: seq<string>, rest: seq<string>)
    requires CanLogSettings(s)
    ensures var n := CodesBeforeInvalid(rest);
            AddInTurn(s.(readQueue := Queued(done)), rest) == Returned(s.(readQueue := Queued(done + rest[..n])), n == |rest|)
    decreases |rest|
  {
    if rest == [] || !IsCode(rest[0]) {
      assert done + rest[..0] == done;
    } else {
      var more := done + [rest[0]];
      AddOneInTurn(s, done, rest[0]);
      InTurnFrom(s, more, rest[1..]);
      ShiftPrefix(done, rest, CodesBeforeInvalid(rest));
    }
  }

  /** One valid code added while the settings can be logged joins the queue
      built so far, and the call returns normally. */
  lemma AddOneInTurn(s: Session, done: seq<string>, code: string)
    requires CanLogSettings(s) && IsCode(code)
    ensures AddSettingToQuery(s.(readQueue := Queued(done)), code)
              == Returned(s.(readQueue := Queued(done + [code])), true)
  {
    var more := done + [code];
    assert more[..|more| - 1] == done;
  }

  lemma ShiftPrefix<T>(done: seq<T>, rest: seq<T>, n: nat)
    requires 1 <= n <= |rest|
    ensures done + [rest[0]] + rest[1..][..n - 1] == done + rest[..n]
  {
    assert rest[..n] == [rest[0]] + rest[1..][..n - 1];
  }

  /** AddSettingsToQuery is the queue cleared, then AddSettingToQuery called on
      each code in turn until a call throws. */
  lemma AddSettingsInTurn(s: Session, codes: seq<string>)
    ensures AddSettingsToQuery(s, codes) == AddInTurn(s.(readQueue := []), codes)
  {
    if CanLogSettings(s) {
      InTurnFrom(s, [], codes);
      assert [] + codes[..CodesBeforeInvalid(codes)] == codes[..CodesBeforeInvalid(codes)];
    } else if codes != [] && IsCode(codes[0]) {
      assert codes[..1][..0] == [] && codes[..1][0] == codes[0];
      assert Queued(codes[..1]) == Enqueue([], codes[0]);
      assert CodesBeforeInvalid(codes) > 0;
    } else {
      assert codes[..0] == [];
    }
  }

  /** With every code valid and the logging able to run, AddSettingsToQuery
      returns normally with exactly the queue of the codes. */
  lemma AddValidSettings(s: Session, codes: seq<string>)
    requires forall i :: 0 <= i < |codes| ==> IsCode(codes[i])
    requires CanLogSettings(s)
    ensures AddSettingsToQuery(s, codes) == Returned(s.(readQueue := Queued(codes)), true)
  {
    assert codes[..|codes|] == codes;
  }

  lemma QueryCodesTwoCharacters()
    ensures forall i :: 0 <= i < |QueryCodes| ==> IsCode(QueryCodes[i])
  {
  }

  /** QueryDeviceAsync announces Initializing (the state itself is not
      changed), takes a new query task, requests the first parameter (OP) and
      leaves the other fourteen queued. */
  lemma QueryDeviceStarts(s: Session)
    requires Valid(s) && s.attached
    ensures var q := QueryDevice(s);
            && q.readQueue == QueryCodes[1..]
            && q.outbox == s.outbox + [AtRequest("OP", None)]
            && q.completions == Issue(s.completions, Query)
            && q.events == s.events + [StateChanged(Initializing)]
            && q.state == s.state && q.settings == s.settings && q.writeQueue == s.writeQueue
            && q.phase == s.phase
            && q.timers == s.timers + multiset{Query}
  {
    QueryCodesTwoCharacters();
    QueryCodesQueued();
    var started := s.(completions := Issue(s.completions, Query), events := s.events + [StateChanged(Initializing)]);
    AddValidSettings(started, QueryCodes);
    var added := AddSettingsToQuery(started, QueryCodes).after;
    assert added == started.(readQueue := QueryCodes);
    assert QueryDevice(s) == BeginQuery(added).after;
  }

  /** BeginQuery always arms the query timer. With codes queued it takes the
      first and keeps the rest queued, and sends it, returning normally, only
      while the comms object is attached; with none queued it resolves the
      query slot true, and it returns normally exactly when there was a query
      slot to resolve. */
  lemma BeginQueryEffect(s: Session)
    requires Valid(s)
    ensures var r := BeginQuery(s);
            && r.after.timers == s.timers + multiset{Query}
            && (s.readQueue != [] ==>
                  && (r.normally <==> s.attached)
                  && r.after.outbox == s.outbox + (if s.attached then [AtRequest(s.readQueue[0], None)] else [])
                  && r.after.readQueue == s.readQueue[1..]
                  && r.after.completions == s.completions)
            && (s.readQueue == [] ==>
                  && r.after.outbox == s.outbox
                  && r.after.completions == Resolve(s.completions, Query, true)
                  && (r.normally <==> Query in s.completions.pending))
  {
  }

  /** InitializeAsync begins with QueryDeviceAsync and awaits its task. */
  lemma InitializeQueries(s: Session)
    requires Valid(s) && s.attached && !s.phase.Awaiting()
    ensures var r := Initialize(s);
            && r.phase == AwaitingQuery(s.completions.issued)
            && Query in r.completions.pending && r.completions.pending[Query] == s.completions.issued
            && r.events == s.events + [StateChanged(Initializing)]
            && r.outbox == s.outbox + [AtRequest("OP", None)]
            && r.readQueue == QueryCodes[1..]
  {
    QueryDeviceStarts(s);
  }
}
