/** XBeeDevice: the session state kept in fields and updated in place. Every
    method is proved to leave the state that the matching DeviceSession
    function describes, so the laws proved about those functions (module
    SessionLaws) hold of the device. */
module Device {
  import opened Wrappers
  import opened Bytes
  import opened FrameLayout
  import opened FrameDecoding
  import opened Provisioning
  import opened Zdo
  import opened Completion
  import opened DeviceSession

  /** Removing a key and then adding it is the same as overwriting it. */
  lemma RemoveThenStore(m: map<string, seq<byte>>, k: string, v: seq<byte>)
    ensures (m - {k})[k := v] == m[k := v]
  {
  }

  class XBeeDevice {
    /** GetInClusters(), fixed for the lifetime of the device. */
    const inClusters: seq<i16>
    var profile: seq<Setting>
    var attached: bool
    var readQueue: seq<string>
    var writeQueue: seq<Setting>
    var settings: map<string, seq<byte>>
    var state: States
    var joined: bool
    var completions: Completions
    var timers: multiset<Slot>
    var outbox: seq<Outbound>
    var events: seq<Event>
    var forwarded: seq<FrameState>
    var phase: Phase

    /** The fields as a session value. */
    function State(): Session
      reads this
    {
      Session(attached, inClusters, profile, readQueue, writeQueue, settings, state, joined,
              completions, timers, outbox, events, forwarded, phase)
    }

    predicate Valid()
      reads this
    {
      DeviceSession.Valid(State())
    }

    /** The constructor: the profile is created and the comms object attached. */
    constructor (clusters: seq<i16>)
      ensures State() == Initial(clusters) && Valid()
    {
      inClusters := clusters;
      attached := true;
      readQueue, writeQueue, settings := [], [], map[];
      state, joined := Offline, false;
      completions, timers := NoCompletions, multiset{};
      outbox, events, forwarded := [], [], [];
      phase := Idle;
      new;
      CreateXBeeProvision();
    }

    /** The eleven profile entries, added in order to an empty profile. */
    method CreateXBeeProvision()
      modifies this
      ensures profile == Profile
      ensures State() == old(State()).(profile := Profile)
    {
      profile := [];
      profile := profile + [Setting("SC", [0x7F, 0xFF])];
      profile := profile + [Setting("ZS", [0x02])];
      profile := profile + [Setting("NJ", [0x5A])];
      profile := profile + [Setting("NI", NodeIdentifier)];
      profile := profile + [Setting("NH", [0x1E])];
      profile := profile + [Setting("NO", [0x03])];
      profile := profile + [Setting("SM", [0x01])];
      profile := profile + [Setting("EE", [0x01])];
      profile := profile + [Setting("EO", [0x01])];
      profile := profile + [Setting("AO", [0x03])];
      profile := profile + [Setting(LinkKeyCommand, LinkKey)];
    }

    /** The IsJoinedToNetwork setter: the join event fires on every assignment. */
    method SetJoinedToNetwork(v: bool)
      modifies this
      ensures State() == SetJoined(old(State()), v)
      ensures old(Valid()) ==> Valid()
    {
      joined := v;
      events := events + [JoinStatusChanged(v)];
    }

    /** `if (slot != null) { slot.SetResult(v); slot = null; }` */
    method SetResult(slot: Slot, v: bool)
      modifies this
      ensures State() == Settle(old(State()), slot, v)
    {
      if slot in completions.pending {
        completions := Completions(completions.pending - {slot}, completions.results[completions.pending[slot] := v],
                                   completions.issued);
      }
    }

    method Send(o: Outbound)
      modifies this
      ensures State() == DeviceSession.Send(old(State()), o)
    {
      outbox := outbox + [o];
    }

    // -------------------------------------------------------------------
    // The read queue

    /** Returns false where the source throws: a code not two characters long,
        or, once the code is queued, the logging of the stored settings on a
        released comms object. */
    method AddSettingToQuery(code: string) returns (ok: bool)
      modifies this
      ensures ok == DeviceSession.AddSettingToQuery(old(State()), code).normally
      ensures State() == DeviceSession.AddSettingToQuery(old(State()), code).after
      ensures old(Valid()) ==> Valid()
    {
      if |code| != 2 {
        return false;
      }
      var upper := Upper(code);
      if upper !in readQueue {
        readQueue := readQueue + [upper];
      }
      if !attached && settings != map[] {
        return false;
      }
      return true;
    }

    /** Clears the queue and adds each code in turn; stops at the first code
        that throws. */
    method AddSettingsToQuery(codes: seq<string>) returns (ok: bool)
      modifies this
      ensures ok == DeviceSession.AddSettingsToQuery(old(State()), codes).normally
      ensures State() == DeviceSession.AddSettingsToQuery(old(State()), codes).after
      ensures old(Valid()) ==> Valid()
    {
      readQueue := [];
      for i := 0 to |codes|
        invariant readQueue == Queued(codes[..i])
        invariant forall j :: 0 <= j < i ==> IsCode(codes[j])
        invariant i > 0 ==> CanLogSettings(old(State()))
        invariant State() == old(State()).(readQueue := readQueue)
      {
        assert codes[..i + 1][..i] == codes[..i];
        ok := AddSettingToQuery(codes[i]);
        if !ok {
          if IsCode(codes[i]) {
            assert i == 0 && !CanLogSettings(old(State()));
            assert CodesBeforeInvalid(codes) > 0;
          } else {
            assert CodesBeforeInvalid(codes) == i;
          }
          return;
        }
      }
      assert codes[..|codes|] == codes;
      return true;
    }

    /** Arms the query timer and sends the first queued code (false: the send
        throws on a released comms object); with nothing queued the query
        resolves true, and with no query pending the source throws (false). */
    method BeginQuery() returns (ok: bool)
      modifies this
      ensures ok == DeviceSession.BeginQuery(old(State())).normally
      ensures State() == DeviceSession.BeginQuery(old(State())).after
      ensures old(Valid()) ==> Valid()
    {
      timers := timers + multiset{Query};
      if readQueue != [] {
        var code := readQueue[0];
        readQueue := readQueue[1..];
        if !attached {
          return false;
        }
        Send(AtRequest(code, None));
        return true;
      } else if Query in completions.pending {
        SetResult(Query, true);
        return true;
      }
      return false;
    }

    // -------------------------------------------------------------------
    // Replies to AT commands

    method HandleATReadFrame(f: FrameState)
      requires f.payload.Some? && |f.payload.value| > 0
      modifies this
      ensures State() == HandleATRead(old(State()), f)
      ensures old(Valid()) && old(attached) ==> Valid()
    {
      var code := AtCommandText(f.atCommand);
      var value := f.payload.value;
      settings := settings - {code};
      if code == AssociationIndicator {
        SetJoinedToNetwork(value[0] == 0);
        SetResult(IsConnected, joined);
        return;
      }
      RemoveThenStore(old(settings), code, value);
      settings := settings[code := value];
      assert State() == old(State()).(settings := old(settings)[code := value]);
      if readQueue != [] {
        var next := readQueue[0];
        readQueue := readQueue[1..];
        Send(AtRequest(next, None));
      } else {
        if state != Ready {
          state := Ready;
          events := events + [StateChanged(Ready)];
        }
        SetResult(Query, true);
      }
    }

    method HandleATWriteFrame(f: FrameState)
      modifies this
      ensures State() == HandleATWrite(old(State()), f)
      ensures old(Valid()) ==> Valid()
    {
      if f.atCommand == DisassociateCode {
        SetResult(Completion.Disassociate, true);
      }
      if writeQueue != [] {
        var next := writeQueue[0];
        writeQueue := writeQueue[1..];
        Send(AtRequest(next.command, Some(next.value)));
      } else {
        SetResult(SendProfile, true);
      }
    }

    method HandleWriteEPROMFrame(f: FrameState)
      modifies this
      ensures State() == HandleWriteEEPROM(old(State()), f)
      ensures old(Valid()) ==> Valid()
    {
      if f.atCommandStatus == StatusOK {
        SetResult(Save, true);
      } else {
        SetResult(Save, false);
      }
    }

    method HandleModemStatusFrame(status: byte)
      modifies this
      ensures State() == HandleModemStatus(old(State()), status)
      ensures old(Valid()) ==> Valid()
    {
      if status == JoinedNetwork {
        SetJoinedToNetwork(true);
      } else if status == Disassociated {
        SetJoinedToNetwork(false);
      } else if status == WatchdogTimerReset {
        SetResult(Reset, true);
      }
    }

    // -------------------------------------------------------------------
    // Received packets

    method HandleReceivePacket(f: FrameState)
      modifies this
      ensures State() == HandleReceive(old(State()), f)
      ensures old(Valid()) ==> Valid()
    {
      if f.clusterId == ActiveEpRequest {
        var payload := ActiveEpReply(Request(f));
        if payload.Some? {
          Send(Explicit(ZdoReplyFrame(ActiveEpResponseCluster, payload.value)));
        }
      } else if f.clusterId == SimpleDescRequest {
        var payload := FillSimpleDescReply(Request(f), inClusters);
        if payload.Some? {
          Send(Explicit(ZdoReplyFrame(SimpleDescResponseCluster, payload.value)));
        }
      } else if f.destinationEndPoint == LocalEndpoint && f.profileId == HomeAutomationProfile {
        var reply := AttributeReplyTo(State(), f);
        if reply.Some? {
          Send(Explicit(reply.value));
        }
      } else {
        forwarded := forwarded + [f];
      }
    }

    /** _comms_FrameReady. */
    method FrameReady(f: FrameState)
      modifies this
      ensures State() == DeviceSession.FrameReady(old(State()), f)
      ensures old(Valid()) ==> Valid()
    {
      if state == Disposed {
        return;
      }
      if f.frameType == RxAtCommandResponse {
        if AtCommandText(f.atCommand) == WriteCommand {
          HandleWriteEPROMFrame(f);
        } else if f.payload.Some? && |f.payload.value| > 0 {
          HandleATReadFrame(f);
        } else {
          HandleATWriteFrame(f);
        }
      } else if f.frameType == RxReceivePacket {
        HandleReceivePacket(f);
      } else if f.frameType == RxModemStatus {
        HandleModemStatusFrame(f.modemStatus);
      }
    }

    // -------------------------------------------------------------------
    // Operations that start a task and arm its timer

    /** A new completion source in the slot, the command sent, the timer armed;
        returns the new task's ticket. */
    method Start(slot: Slot, command: string) returns (ticket: nat)
      requires |command| == 2
      modifies this
      ensures ticket == old(completions.issued)
      ensures State() == DeviceSession.Start(old(State()), slot, command)
    {
      ticket := completions.issued;
      completions := Issue(completions, slot);
      Send(AtRequest(command, None));
      timers := timers + multiset{slot};
    }

    method Disassociate() returns (ticket: nat)
      requires attached
      modifies this
      ensures ticket == old(completions.issued)
      ensures State() == DeviceSession.Disassociate(old(State()))
      ensures old(Valid()) ==> Valid()
    {
      ticket := Start(Completion.Disassociate, DisassociateCommand);
    }

    method GetIsConnected() returns (ticket: nat)
      requires attached
      modifies this
      ensures ticket == old(completions.issued)
      ensures State() == DeviceSession.GetIsConnected(old(State()))
      ensures old(Valid()) ==> Valid()
    {
      ticket := Start(IsConnected, AssociationIndicator);
    }

    method ResetDevice() returns (ticket: nat)
      requires attached
      modifies this
      ensures ticket == old(completions.issued)
      ensures State() == DeviceSession.ResetDevice(old(State()))
      ensures old(Valid()) ==> Valid()
    {
      ticket := Start(Reset, SoftwareReset);
    }

    method SaveEPROMSettings() returns (ticket: nat)
      requires attached
      modifies this
      ensures ticket == old(completions.issued)
      ensures State() == SaveEEPROMSettings(old(State()))
      ensures old(Valid()) ==> Valid()
    {
      ticket := Start(Save, WriteCommand);
    }

    /** Queues every profile entry behind the write queue, sends the head. */
    method TransmitProfile() returns (ticket: nat)
      requires attached && profile != []
      modifies this
      ensures ticket == old(completions.issued)
      ensures State() == DeviceSession.TransmitProfile(old(State()))
      ensures old(Valid()) ==> Valid()
    {
      ticket := completions.issued;
      completions := Issue(completions, SendProfile);
      var entries := profile;
      for i := 0 to |entries|
        invariant writeQueue == old(writeQueue) + entries[..i]
        invariant State() == old(State()).(completions := Issue(old(completions), SendProfile), writeQueue := writeQueue)
      {
        assert entries[..i + 1] == entries[..i] + [entries[i]];
        writeQueue := writeQueue + [entries[i]];
      }
      assert entries[..|entries|] == entries;
      var first := writeQueue[0];
      writeQueue := writeQueue[1..];
      Send(AtRequest(first.command, Some(first.value)));
      timers := timers + multiset{SendProfile};
    }

    /** QueryDeviceAsync. */
    method QueryDevice() returns (ticket: nat)
      requires attached
      modifies this
      ensures ticket == old(completions.issued)
      ensures State() == DeviceSession.QueryDevice(old(State()))
      ensures old(Valid()) ==> Valid()
    {
      ticket := completions.issued;
      completions := Issue(completions, Query);
      events := events + [StateChanged(Initializing)];
      var _ := AddSettingsToQuery(QueryCodes);
      var _ := BeginQuery();
    }

    /** A timer fires: its slot resolves false. */
    method Timeout(slot: Slot)
      requires slot in timers
      modifies this
      ensures State() == DeviceSession.Timeout(old(State()), slot)
      ensures old(Valid()) ==> Valid()
    {
      timers := timers - multiset{slot};
      SetResult(slot, false);
    }

    method Dispose()
      requires attached
      modifies this
      ensures State() == DeviceSession.Dispose(old(State()))
      ensures old(Valid()) ==> Valid()
    {
      state := Disposed;
      attached := false;
    }

    // -------------------------------------------------------------------
    // InitializeAsync

    /** The profile entries, other than the link key, that the device reported
        with different bytes. */
    method CountMismatches() returns (count: nat)
      ensures count == MismatchCount(profile, settings)
    {
      count := 0;
      for i := 0 to |profile|
        invariant count == MismatchCount(profile[..i], settings)
      {
        assert profile[..i + 1][..i] == profile[..i];
        var entry := profile[i];
        if entry.command != LinkKeyCommand && entry.command in settings {
          if settings[entry.command] != entry.value {
            count := count + 1;
          }
        }
      }
      assert profile[..|profile|] == profile;
    }

    /** InitializeAsync up to its first await. */
    method Initialize()
      requires attached && !phase.Awaiting()
      modifies this
      ensures State() == DeviceSession.Initialize(old(State()))
      ensures old(Valid()) ==> Valid()
    {
      var ticket := QueryDevice();
      phase := AwaitingQuery(ticket);
    }

    method Finish(result: bool)
      modifies this
      ensures State() == DeviceSession.Finish(old(State()), result)
      ensures old(Valid()) ==> Valid()
    {
      events := events + [StateChanged(Ready)];
      phase := Initialized(result);
    }

    /** InitializeAsync after the awaited task resolved. */
    method ResumeInitialize()
      requires CanResume(State()) && profile != []
      modifies this
      ensures State() == DeviceSession.ResumeInitialize(old(State()))
      ensures old(Valid()) ==> Valid()
    {
      var result := completions.results[phase.ticket];
      match phase
      case AwaitingQuery(_) =>
        if result {
          if !attached && LogsProfile(profile) {
            phase := Faulted;
            return;
          }
          var diff := CountMismatches();
          if diff > 0 {
            MismatchLogged(profile, settings);
            var ticket := TransmitProfile();
            phase := AwaitingProfile(ticket);
            return;
          }
        }
        Finish(result);
      case AwaitingProfile(_) =>
        if !result {
          Finish(false);
        } else if attached {
          var ticket := SaveEPROMSettings();
          phase := AwaitingSave(ticket);
        } else {
          completions := Issue(completions, Save);
          phase := Faulted;
        }
      case AwaitingSave(_) =>
        if !result {
          Finish(false);
        } else if attached {
          var ticket := ResetDevice();
          phase := AwaitingReset(ticket);
        } else {
          completions := Issue(completions, Reset);
          phase := Faulted;
        }
      case AwaitingReset(_) =>
        Finish(result);
    }
  }
}
