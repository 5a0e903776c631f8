/** The state of an XBee device session as a value, and what each operation of
    the session does to it. The class XBeeDevice (module Device) keeps the same
    state in fields, and each of its methods is proved to have the effect
    stated here; the properties of the session are proved here, once. */
module DeviceSession {
  import opened Wrappers
  import opened Bytes
  import opened FrameLayout
  import opened FrameDecoding
  import opened Provisioning
  import opened Zdo
  import opened Completion

  datatype States = Offline | Initializing | Ready | Disposed

  /** What the session hands to the comms object: `SendATFrame(code)` (no value),
      `SendATFrame(code, payload)`, or `SendFrameAsync(frame)`. */
  datatype Outbound =
    | AtRequest(command: string, value: Option<seq<byte>>)
    | Explicit(frame: FrameFields)

  /** DeviceStateChanged and ZigbeeJoinStatusChanged notifications. */
  datatype Event = StateChanged(state: States) | JoinStatusChanged(joined: bool)

  /** Where InitializeAsync stands: which task it awaits, or how it ended. */
  datatype Phase =
    | Idle
    | AwaitingQuery(ticket: nat)
    | AwaitingProfile(ticket: nat)
    | AwaitingSave(ticket: nat)
    | AwaitingReset(ticket: nat)
    | Initialized(result: bool)
    | Faulted                              // its task ended with an exception
  {
    predicate Awaiting()
    {
      !Idle? && !Initialized? && !Faulted?
    }
  }

  datatype Session = Session(
    attached: bool,                        // _comms is set and subscribed
    inClusters: seq<i16>,                  // GetInClusters()
    profile: seq<Setting>,                 // _deviceProfile, in insertion order
    readQueue: seq<string>,                // _atSettingsReadQueue
    writeQueue: seq<Setting>,              // _atSettingsWriteQueue
    settings: map<string, seq<byte>>,      // _deviceATSettings
    state: States,                         // _currentState
    joined: bool,                          // _joinedToNetwork
    completions: Completions,              // the six completion sources
    timers: multiset<Slot>,                // timeout tasks started and not yet fired
    outbox: seq<Outbound>,
    events: seq<Event>,
    forwarded: seq<FrameState>,            // frames passed to HandleFrame
    phase: Phase)

  /** The state after a call, and whether the call returned rather than threw. */
  datatype Returned = Returned(after: Session, normally: bool)

  const AssociationIndicator: string := "AI"
  const WriteCommand: string := "WR"
  const SoftwareReset: string := "FR"
  const DisassociateCommand: string := "DA"
  /** ("D" << 8) | "A" */
  const DisassociateCode: u16 := 0x4441

  /** A new device: the profile created, comms attached, everything else empty. */
  function Initial(inClusters: seq<i16>): (s: Session)
    ensures Valid(s)
  {
    ProfileShape();
    Session(true, inClusters, Profile, [], [], map[], Offline, false, NoCompletions, multiset{}, [], [], [], Idle)
  }

  /** What the comms object can put on the wire: a two-character AT code, or an
      explicit-addressing frame the encoder accepts. */
  predicate Sendable(o: Outbound)
  {
    match o
    case AtRequest(command, _) => |command| == 2
    case Explicit(f) =>
      f.frameType == TxExplicitAddressCommand && f.address64 < 0x1_0000 && f.payload.Some? && |f.payload.value| <= 1000
  }

  /** The session invariant. */
  predicate Valid(s: Session)
  {
    && Completion.Consistent(s.completions)
    && (s.attached <==> s.state != Disposed)
    && AssociationIndicator !in s.settings
    && s.profile != [] && (forall i :: 0 <= i < |s.profile| ==> |s.profile[i].command| == 2)
    && NoDuplicates(s.readQueue)
    && (forall i :: 0 <= i < |s.readQueue| ==> |s.readQueue[i]| == 2)
    && (forall i :: 0 <= i < |s.writeQueue| ==> |s.writeQueue[i].command| == 2)
    && (forall i :: 0 <= i < |s.outbox| ==> Sendable(s.outbox[i]))
    && (s.phase.Awaiting() ==> s.phase.ticket < s.completions.issued)
  }

  /** What a transition keeps: results are never changed, the outbox, events and
      forwarded frames only grow, the configuration stays. */
  predicate Keeps(s: Session, r: Session)
  {
    && Extends(s.completions, r.completions)
    && s.outbox <= r.outbox
    && s.events <= r.events
    && s.forwarded <= r.forwarded
    && r.inClusters == s.inClusters
    && r.profile == s.profile
  }

  function Send(s: Session, o: Outbound): Session
  {
    s.(outbox := s.outbox + [o])
  }

  function Settle(s: Session, slot: Slot, v: bool): Session
  {
    s.(completions := Resolve(s.completions, slot, v))
  }

  lemma SettleKeeps(s: Session, slot: Slot, v: bool)
    ensures Completion.Consistent(s.completions) ==>
              Keeps(s, Settle(s, slot, v)) && Completion.Consistent(Settle(s, slot, v).completions)
  {
    if Completion.Consistent(s.completions) {
      ResolveEffect(s.completions, slot, v);
    }
  }

  /** The IsJoinedToNetwork setter: the join event fires on every assignment. */
  function SetJoined(s: Session, v: bool): (r: Session)
    ensures r.joined == v && r.events == s.events + [JoinStatusChanged(v)]
    ensures r == s.(joined := v, events := r.events)
  {
    s.(joined := v, events := s.events + [JoinStatusChanged(v)])
  }

  // ---------------------------------------------------------------------
  // Building and running the read queue

  /** Whether AddSettingToQuery's logging loop completes: it calls LogMessage
      once per stored setting, and LogMessage reads `_comms.ShowDiagnostics`,
      which throws once Dispose has released the comms object. */
  predicate CanLogSettings(s: Session)
  {
    s.attached || s.settings == map[]
  }

  /** AddSettingToQuery: throws on a code that is not two characters long;
      otherwise the code is queued, and then the logging loop throws on a
      released comms object with a setting stored. */
  function AddSettingToQuery(s: Session, code: string): (r: Returned)
    ensures r.normally <==> IsCode(code) && CanLogSettings(s)
    ensures r.after == s.(readQueue := if IsCode(code) then Enqueue(s.readQueue, code) else s.readQueue)
    ensures Valid(s) ==> Valid(r.after) && Keeps(s, r.after)
  {
    if IsCode(code) then
      EnqueueKeepsCodes(s.readQueue, code);
      Returned(s.(readQueue := Enqueue(s.readQueue, code)), CanLogSettings(s))
    else Returned(s, false)
  }

  lemma EnqueueKeepsCodes(queue: seq<string>, code: string)
    requires IsCode(code)
    ensures NoDuplicates(queue) && (forall i :: 0 <= i < |queue| ==> |queue[i]| == 2) ==>
              && NoDuplicates(Enqueue(queue, code))
              && forall i :: 0 <= i < |Enqueue(queue, code)| ==> |Enqueue(queue, code)[i]| == 2
  {
    if NoDuplicates(queue) {
      EnqueueLaws(queue, code);
    }
  }

  /** How many codes from the start are two characters long. */
  function CodesBeforeInvalid(codes: seq<string>): (n: nat)
    ensures n <= |codes|
    ensures forall i :: 0 <= i < n ==> IsCode(codes[i])
    ensures n < |codes| ==> !IsCode(codes[n])
  {
    if codes == [] || !IsCode(codes[0]) then 0 else 1 + CodesBeforeInvalid(codes[1..])
  }

  /** Every queued code is two characters long when every code given is. */
  lemma QueuedAreCodes(codes: seq<string>)
    requires forall i :: 0 <= i < |codes| ==> IsCode(codes[i])
    ensures NoDuplicates(Queued(codes))
    ensures forall i :: 0 <= i < |Queued(codes)| ==> |Queued(codes)[i]| == 2
  {
    QueuedMembers(codes);
    forall i | 0 <= i < |Queued(codes)|
      ensures |Queued(codes)[i]| == 2
    {
      assert Queued(codes)[i] in Uppers(codes);
    }
  }

  /** AddSettingsToQuery: the queue is cleared and the codes added in turn,
      stopping at the first call that throws: an invalid code throws before it
      is queued, and on a released comms object with a setting stored the
      first valid code is queued and then the logging throws. */
  function AddSettingsToQuery(s: Session, codes: seq<string>): (r: Returned)
    ensures r.normally <==> (forall i :: 0 <= i < |codes| ==> IsCode(codes[i])) && (codes == [] || CanLogSettings(s))
    ensures Valid(s) ==> Valid(r.after) && Keeps(s, r.after)
  {
    var n := CodesBeforeInvalid(codes);
    var m := if CanLogSettings(s) || n == 0 then n else 1;
    QueuedAreCodes(codes[..m]);
    Returned(s.(readQueue := Queued(codes[..m])), m == |codes| && (codes == [] || CanLogSettings(s)))
  }

  /** BeginQuery: arms the query timer, then takes the first queued code and
      sends it, which throws on a released comms object; with nothing queued it
      resolves the query slot true, and throws when there is no query slot. */
  function BeginQuery(s: Session): (r: Returned)
    ensures Valid(s) ==> Valid(r.after) && Keeps(s, r.after)
  {
    var armed := s.(timers := s.timers + multiset{Query});
    if s.readQueue != [] then
      if s.attached then Returned(Send(armed.(readQueue := s.readQueue[1..]), AtRequest(s.readQueue[0], None)), true)
      else Returned(armed.(readQueue := s.readQueue[1..]), false)
    else if Query in s.completions.pending then
      SettleKeeps(armed, Query, true);
      Returned(Settle(armed, Query, true), true)
    else Returned(armed, false)
  }

  // ---------------------------------------------------------------------
  // Replies to AT commands

  /** HandleATReadFrame: a reply carrying a value. */
  function HandleATRead(s: Session, f: FrameState): (r: Session)
    requires f.payload.Some? && |f.payload.value| > 0
    ensures Valid(s) && s.state != Disposed ==> Valid(r) && Keeps(s, r)
  {
    var code := AtCommandText(f.atCommand);
    var value := f.payload.value;
    if code == AssociationIndicator then
      var joined := SetJoined(s.(settings := s.settings - {code}), value[0] == 0);
      SettleKeeps(joined, IsConnected, value[0] == 0);
      Settle(joined, IsConnected, value[0] == 0)
    else
      var stored := s.(settings := s.settings[code := value]);
      if s.readQueue != [] then
        Send(stored.(readQueue := s.readQueue[1..]), AtRequest(s.readQueue[0], None))
      else
        var ready := if s.state != Ready then stored.(state := Ready, events := s.events + [StateChanged(Ready)]) else stored;
        SettleKeeps(ready, Query, true);
        Settle(ready, Query, true)
  }

  /** HandleATWriteFrame: a reply without a value. */
  function HandleATWrite(s: Session, f: FrameState): (r: Session)
    ensures Valid(s) ==> Valid(r) && Keeps(s, r)
  {
    var c := if f.atCommand == DisassociateCode then Resolve(s.completions, Completion.Disassociate, true) else s.completions;
    var s1 := s.(completions := c);
    SettleKeeps(s, Completion.Disassociate, true);
    if s.writeQueue != [] then
      Send(s1.(writeQueue := s.writeQueue[1..]), AtRequest(s.writeQueue[0].command, Some(s.writeQueue[0].value)))
    else
      SettleKeeps(s1, SendProfile, true);
      Settle(s1, SendProfile, true)
  }

  /** HandleWriteEPROMFrame: the save slot resolves to whether the status is OK. */
  function HandleWriteEEPROM(s: Session, f: FrameState): (r: Session)
    ensures Valid(s) ==> Valid(r) && Keeps(s, r)
  {
    SettleKeeps(s, Save, f.atCommandStatus == StatusOK);
    Settle(s, Save, f.atCommandStatus == StatusOK)
  }

  /** A modem status frame: join, leave, or the watchdog reset that ends ResetDevice. */
  function HandleModemStatus(s: Session, status: byte): (r: Session)
    ensures Valid(s) ==> Valid(r) && Keeps(s, r)
  {
    if status == JoinedNetwork then SetJoined(s, true)
    else if status == Disassociated then SetJoined(s, false)
    else if status == WatchdogTimerReset then
      SettleKeeps(s, Reset, true);
      Settle(s, Reset, true)
    else s
  }

  // ---------------------------------------------------------------------
  // Received packets

  /** The request bytes a handler indexes: a missing payload throws like an empty one. */
  function Request(f: FrameState): seq<byte>
  {
    if f.payload.Some? then f.payload.value else []
  }

  /** Sends the reply if it was built; a throw while building sends nothing. */
  function Reply(s: Session, reply: Option<FrameFields>): (r: Session)
    requires reply.Some? ==> Sendable(Explicit(reply.value))
    ensures Valid(s) ==> Valid(r) && Keeps(s, r)
  {
    if reply.Some? then Send(s, Explicit(reply.value)) else s
  }

  /** The reply to a ZDO request, or None where building it throws. */
  function ZdoReply(cluster: u16, payload: Option<seq<byte>>): (r: Option<FrameFields>)
    requires payload.Some? ==> |payload.value| <= 1000
    ensures r.Some? ==> Sendable(Explicit(r.value))
  {
    if payload.Some? then Some(ZdoReplyFrame(cluster, payload.value)) else None
  }

  /** Whether the attribute reply can read MY: BitConverter.ToUInt16 needs two bytes. */
  predicate HasShortAddress(s: Session)
  {
    "MY" in s.settings && |s.settings["MY"]| >= 2
  }

  /** The Read Attributes reply, or None where reading MY or the request throws. */
  function AttributeReplyTo(s: Session, f: FrameState): (r: Option<FrameFields>)
    ensures r.Some? ==> Sendable(Explicit(r.value))
  {
    var payload := AttributeReply(Request(f));
    if HasShortAddress(s) && payload.Some? then
      Some(AttributeReplyFrame(f.clusterId, f.sourceEndPoint, f.destinationEndPoint, payload.value))
    else None
  }

  /** An RxReceivePacket: the three requests the device answers itself, and
      every other packet handed to HandleFrame. */
  function HandleReceive(s: Session, f: FrameState): (r: Session)
    ensures Valid(s) ==> Valid(r) && Keeps(s, r)
  {
    if f.clusterId == ActiveEpRequest then
      Reply(s, ZdoReply(ActiveEpResponseCluster, ActiveEpReply(Request(f))))
    else if f.clusterId == SimpleDescRequest then
      Reply(s, ZdoReply(SimpleDescResponseCluster, SimpleDescReply(Request(f), s.inClusters)))
    else if f.destinationEndPoint == LocalEndpoint && f.profileId == HomeAutomationProfile then
      Reply(s, AttributeReplyTo(s, f))
    else
      s.(forwarded := s.forwarded + [f])
  }

  /** _comms_FrameReady: the dispatch of a decoded frame. */
  function FrameReady(s: Session, f: FrameState): (r: Session)
    ensures s.state == Disposed ==> r == s
    ensures Valid(s) ==> Valid(r) && Keeps(s, r)
  {
    if s.state == Disposed then s
    else if f.frameType == RxAtCommandResponse then
      if AtCommandText(f.atCommand) == WriteCommand then HandleWriteEEPROM(s, f)
      else if f.payload.Some? && |f.payload.value| > 0 then HandleATRead(s, f)
      else HandleATWrite(s, f)
    else if f.frameType == RxReceivePacket then HandleReceive(s, f)
    else if f.frameType == RxModemStatus then HandleModemStatus(s, f.modemStatus)
    else s
  }

  // ---------------------------------------------------------------------
  // Operations that start a task and arm its timer

  /** A new completion source in the slot, an AT command sent, a timer armed.
      The task is the ticket `s.completions.issued`. */
  function Start(s: Session, slot: Slot, command: string): (r: Session)
    requires |command| == 2
    ensures Valid(s) ==> Valid(r) && Keeps(s, r)
    ensures r.completions.issued == s.completions.issued + 1 && r.attached == s.attached
  {
    Send(s.(completions := Issue(s.completions, slot), timers := s.timers + multiset{slot}), AtRequest(command, None))
  }

  function Disassociate(s: Session): Session
    requires s.attached
  {
    Start(s, Completion.Disassociate, DisassociateCommand)
  }

  function GetIsConnected(s: Session): Session
    requires s.attached
  {
    Start(s, IsConnected, AssociationIndicator)
  }

  function ResetDevice(s: Session): Session
    requires s.attached
  {
    Start(s, Reset, SoftwareReset)
  }

  function SaveEEPROMSettings(s: Session): Session
    requires s.attached
  {
    Start(s, Save, WriteCommand)
  }

  /** TransmitProfile: every profile entry is queued for writing, in profile
      order, behind anything still queued, and the head of the queue is sent. */
  function TransmitProfile(s: Session): (r: Session)
    requires s.attached && s.profile != []
    ensures Valid(s) ==> Valid(r) && Keeps(s, r)
    ensures r.completions.issued == s.completions.issued + 1 && r.attached
  {
    var queue := s.writeQueue + s.profile;
    Send(s.(completions := Issue(s.completions, SendProfile), writeQueue := queue[1..],
            timers := s.timers + multiset{SendProfile}),
         AtRequest(queue[0].command, Some(queue[0].value)))
  }

  /** QueryDeviceAsync: a new query slot, the Initializing notification (the state
      itself is not changed), the fifteen parameters queued, the query begun. */
  function QueryDevice(s: Session): (r: Session)
    requires s.attached
    ensures Valid(s) ==> Valid(r) && Keeps(s, r)
  {
    var started := s.(completions := Issue(s.completions, Query), events := s.events + [StateChanged(Initializing)]);
    BeginQuery(AddSettingsToQuery(started, QueryCodes).after).after
  }

  /** A timer fires: its slot, whatever task it holds by then, resolves false. */
  function Timeout(s: Session, slot: Slot): (r: Session)
    requires slot in s.timers
    ensures Valid(s) ==> Valid(r) && Keeps(s, r)
  {
    SettleKeeps(s.(timers := s.timers - multiset{slot}), slot, false);
    Settle(s.(timers := s.timers - multiset{slot}), slot, false)
  }

  /** Dispose: the state becomes Disposed and the comms object is released. */
  function Dispose(s: Session): (r: Session)
    requires s.attached
    ensures Valid(s) ==> Valid(r) && Keeps(s, r)
    ensures r.state == Disposed && !r.attached
  {
    s.(state := Disposed, attached := false)
  }

  // ---------------------------------------------------------------------
  // InitializeAsync, one await at a time

  /** InitializeAsync up to its first await: the query is started. */
  function Initialize(s: Session): (r: Session)
    requires s.attached && !s.phase.Awaiting()
    ensures Valid(s) ==> Valid(r) && Keeps(s, r)
    ensures r.phase == AwaitingQuery(s.completions.issued)
  {
    QueryDevice(s).(phase := AwaitingQuery(s.completions.issued))
  }

  /** The end of InitializeAsync: the Ready notification and the result. */
  function Finish(s: Session, result: bool): (r: Session)
    ensures Valid(s) ==> Valid(r) && Keeps(s, r)
  {
    s.(events := s.events + [StateChanged(Ready)], phase := Initialized(result))
  }

  /** Whether InitializeAsync can continue: the task it awaits has a result. */
  predicate CanResume(s: Session)
  {
    s.phase.Awaiting() && Resolved(s.completions, s.phase.ticket)
  }

  /** Whether the profile has an entry other than the link key: after a
      successful query InitializeAsync logs one message for each of those. */
  predicate LogsProfile(profile: seq<Setting>)
  {
    exists i :: 0 <= i < |profile| && profile[i].command != LinkKeyCommand
  }

  /** A step of InitializeAsync after Dispose that starts a task: the new
      completion source takes its slot, then the send throws on the released
      comms object before the timer is armed, and InitializeAsync faults. */
  function StartFaults(s: Session, slot: Slot): (r: Session)
    ensures Valid(s) ==> Valid(r) && Keeps(s, r)
  {
    s.(completions := Issue(s.completions, slot), phase := Faulted)
  }

  /** InitializeAsync after an await: the profile is sent only after a
      successful query that found a mismatch, the settings saved only after a
      successful profile send, the device reset only after a successful save.
      After Dispose the steps that log or send throw instead, and the steps
      that only finish run as before. */
  function ResumeInitialize(s: Session): (r: Session)
    requires CanResume(s) && s.profile != []
    ensures Valid(s) ==> Valid(r) && Keeps(s, r)
  {
    var result := s.completions.results[s.phase.ticket];
    var next := s.completions.issued;
    match s.phase
    case AwaitingQuery(_) =>
      if result && !s.attached && LogsProfile(s.profile) then s.(phase := Faulted)
      else if result && MismatchCount(s.profile, s.settings) > 0 then
        MismatchLogged(s.profile, s.settings);
        TransmitProfile(s).(phase := AwaitingProfile(next))
      else Finish(s, result)
    case AwaitingProfile(_) =>
      if !result then Finish(s, false)
      else if s.attached then SaveEEPROMSettings(s).(phase := AwaitingSave(next))
      else StartFaults(s, Save)
    case AwaitingSave(_) =>
      if !result then Finish(s, false)
      else if s.attached then ResetDevice(s).(phase := AwaitingReset(next))
      else StartFaults(s, Reset)
    case AwaitingReset(_) =>
      Finish(s, result)
  }

  /** A mismatching entry is never the link key, so it is logged. */
  lemma MismatchLogged(profile: seq<Setting>, settings: map<string, seq<byte>>)
    ensures MismatchCount(profile, settings) > 0 ==> LogsProfile(profile)
  {
    MismatchCountPositive(profile, settings);
  }
}
