/** The provisioning data of an XBee session: the eleven-entry profile a
    device is brought to, the AT parameters queried at start-up, the read
    queue AddSettingToQuery builds, and the count of profile entries whose
    value on the device differs. */
module Provisioning {
  import opened Bytes

  /** One AT parameter and its value (ATSettingValue, and an entry of the profile). */
  datatype Setting = Setting(command: string, value: seq<byte>)

  /** "Xbee End Point" in UTF-8. */
  const NodeIdentifier: seq<byte> :=
    [0x58, 0x62, 0x65, 0x65, 0x20, 0x45, 0x6E, 0x64, 0x20, 0x50, 0x6F, 0x69, 0x6E, 0x74]

  /** "ZigBeeAlliance09", the well-known trust-centre link key. */
  const LinkKey: seq<byte> :=
    [0x5a, 0x69, 0x67, 0x42, 0x65, 0x65, 0x41, 0x6c, 0x6c, 0x69, 0x61, 0x6e, 0x63, 0x65, 0x30, 0x39]

  /** CreateXBeeProvision: the profile entries in the order they are added. */
  const Profile: seq<Setting> := [
    Setting("SC", [0x7F, 0xFF]),
    Setting("ZS", [0x02]),
    Setting("NJ", [0x5A]),
    Setting("NI", NodeIdentifier),
    Setting("NH", [0x1E]),
    Setting("NO", [0x03]),
    Setting("SM", [0x01]),
    Setting("EE", [0x01]),
    Setting("EO", [0x01]),
    Setting("AO", [0x03]),
    Setting("KY", LinkKey)
  ]

  /** The parameters QueryDeviceAsync reads from the device. */
  const QueryCodes: seq<string> :=
    ["OP", "OI", "SH", "SL", "MY", "SC", "ZS", "NJ", "NI", "NH", "NO", "AO", "SM", "EE", "EO"]

  /** The key the mismatch count skips: the link key cannot be read back. */
  const LinkKeyCommand: string := "KY"

  function Commands(settings: seq<Setting>): (keys: seq<string>)
    ensures |keys| == |settings|
    ensures forall i :: 0 <= i < |settings| ==> keys[i] == settings[i].command
  {
    if settings == [] then [] else [settings[0].command] + Commands(settings[1..])
  }

  predicate NoDuplicates<T(==)>(s: seq<T>)
  {
    forall i, j :: 0 <= i < j < |s| ==> s[i] != s[j]
  }

  const ProfileCommands: seq<string> := ["SC", "ZS", "NJ", "NI", "NH", "NO", "SM", "EE", "EO", "AO", "KY"]

  /** The profile has eleven two-character keys, in this order, and ends with
      the link key. */
  lemma ProfileShape()
    ensures |Profile| == 11
    ensures Commands(Profile) == ProfileCommands
    ensures forall i :: 0 <= i < |Profile| ==> |Profile[i].command| == 2
    ensures Profile[10] == Setting(LinkKeyCommand, LinkKey)
  {
  }

  /** No key appears twice in the profile. */
  lemma ProfileKeysDistinct()
    ensures NoDuplicates(ProfileCommands)
  {
  }

  // ---------------------------------------------------------------------
  // The read queue

  /** `char.ToUpper` on the ASCII letters. */
  function UpperChar(c: char): char
  {
    if 'a' <= c <= 'z' then (c as int - 32) as char else c
  }

  /** `String.ToUpper`, character by character. */
  function Upper(s: string): string
  {
    seq(|s|, i requires 0 <= i < |s| => UpperChar(s[i]))
  }

  /** AddSettingToQuery's check: the code must be exactly two characters. */
  predicate IsCode(s: string)
  {
    |s| == 2
  }

  /** AddSettingToQuery on a queue: the upper-cased code is appended unless it
      is already queued. */
  function Enqueue(queue: seq<string>, code: string): (q: seq<string>)
  {
    var u := Upper(code);
    if u in queue then queue else queue + [u]
  }

  /** The queue AddSettingsToQuery leaves: cleared, then every code added in turn. */
  function Queued(codes: seq<string>): seq<string>
  {
    if codes == [] then [] else Enqueue(Queued(codes[..|codes| - 1]), codes[|codes| - 1])
  }

  /** The codes upper-cased. */
  function Uppers(codes: seq<string>): (us: seq<string>)
    ensures |us| == |codes| && forall i :: 0 <= i < |codes| ==> us[i] == Upper(codes[i])
  {
    seq(|codes|, i requires 0 <= i < |codes| => Upper(codes[i]))
  }

  /** Position of the first occurrence of x in s. */
  function FirstIndex(s: seq<string>, x: string): (i: nat)
    requires x in s
    ensures i < |s| && s[i] == x && forall j :: 0 <= j < i ==> s[j] != x
  {
    if s[0] == x then 0 else 1 + FirstIndex(s[1..], x)
  }

  /** Enqueueing keeps a queue free of duplicates and adds exactly the upper-cased code. */
  lemma EnqueueLaws(queue: seq<string>, code: string)
    requires NoDuplicates(queue)
    ensures NoDuplicates(Enqueue(queue, code))
    ensures forall x :: x in Enqueue(queue, code) <==> x in queue || x == Upper(code)
    ensures Enqueue(queue, code)[..|queue|] == queue
  {
  }

  /** The queue holds no code twice, and holds exactly the upper-cased codes given. */
  lemma {:induction false} QueuedMembers(codes: seq<string>)
    ensures NoDuplicates(Queued(codes))
    ensures forall x :: x in Queued(codes) <==> x in Uppers(codes)
  {
    if codes != [] {
      var init := codes[..|codes| - 1];
      QueuedMembers(init);
      EnqueueLaws(Queued(init), codes[|codes| - 1]);
      assert Uppers(codes) == Uppers(init) + [Upper(codes[|codes| - 1])];
    }
  }

  /** The queue is in order of first occurrence among the upper-cased codes. */
  lemma {:induction false} QueuedOrder(codes: seq<string>)
    ensures forall x :: x in Queued(codes) ==> x in Uppers(codes)
    ensures forall i, j :: 0 <= i < j < |Queued(codes)| ==>
              FirstIndex(Uppers(codes), Queued(codes)[i]) < FirstIndex(Uppers(codes), Queued(codes)[j])
  {
    QueuedMembers(codes);
    if codes != [] {
      var init := codes[..|codes| - 1];
      var last := Upper(codes[|codes| - 1]);
      var us, usInit := Uppers(codes), Uppers(init);
      assert us == usInit + [last];
      QueuedOrder(init);
      QueuedMembers(init);
      var q, qInit := Queued(codes), Queued(init);
      forall x | x in qInit
        ensures FirstIndex(us, x) == FirstIndex(usInit, x)
      {
        FirstIndexPrefix(usInit, [last], x);
      }
      if last !in qInit {
        assert last !in usInit;
        assert FirstIndex(us, last) == |usInit|;
        forall i, j | 0 <= i < j < |q|
          ensures FirstIndex(us, q[i]) < FirstIndex(us, q[j])
        {
          if j < |qInit| {
            assert q[i] == qInit[i] && q[j] == qInit[j];
          } else {
            assert q[i] == qInit[i] && q[j] == last;
          }
        }
      }
    }
  }

  lemma FirstIndexPrefix(s: seq<string>, t: seq<string>, x: string)
    requires x in s
    ensures x in s + t && FirstIndex(s + t, x) == FirstIndex(s, x)
  {
    var i := FirstIndex(s, x);
    var k := FirstIndex(s + t, x);
    assert (s + t)[i] == x;
  }

  /** The start-up list is already upper case and free of duplicates, so it is
      queued exactly as written. */
  lemma QueryCodesQueued()
    ensures Queued(QueryCodes) == QueryCodes
  {
    var codes := QueryCodes;
    assert forall i :: 0 <= i < |codes| ==> Upper(codes[i]) == codes[i];
    assert NoDuplicates(codes);
    QueuedOfDistinctUppers(codes);
  }

  lemma {:induction false} QueuedOfDistinctUppers(codes: seq<string>)
    requires forall i :: 0 <= i < |codes| ==> Upper(codes[i]) == codes[i]
    requires NoDuplicates(codes)
    ensures Queued(codes) == codes
  {
    if codes != [] {
      var init := codes[..|codes| - 1];
      QueuedOfDistinctUppers(init);
      assert codes[|codes| - 1] !in init;
      assert codes == init + [codes[|codes| - 1]];
    }
  }

  // ---------------------------------------------------------------------
  // The provisioning difference

  /** Whether an entry counts as a mismatch: not the link key, read from the
      device, and with different bytes there. */
  predicate Differs(entry: Setting, settings: map<string, seq<byte>>)
  {
    entry.command != LinkKeyCommand && entry.command in settings && settings[entry.command] != entry.value
  }

  /** The number of mismatching entries of a profile. */
  function MismatchCount(profile: seq<Setting>, settings: map<string, seq<byte>>): nat
  {
    if profile == [] then 0
    else MismatchCount(profile[..|profile| - 1], settings)
         + (if Differs(profile[|profile| - 1], settings) then 1 else 0)
  }

  /** The count is positive exactly when some entry other than the link key was
      read from the device with different bytes; entries the device did not
      report never count. */
  lemma {:induction false} MismatchCountPositive(profile: seq<Setting>, settings: map<string, seq<byte>>)
    ensures MismatchCount(profile, settings) > 0 <==> exists i :: 0 <= i < |profile| && Differs(profile[i], settings)
    ensures MismatchCount(profile, settings) <= |profile|
  {
    if profile != [] {
      var init := profile[..|profile| - 1];
      MismatchCountPositive(init, settings);
      if exists i :: 0 <= i < |init| && Differs(init[i], settings) {
        var i :| 0 <= i < |init| && Differs(init[i], settings);
        assert profile[i] == init[i];
      }
      if exists i :: 0 <= i < |profile| && Differs(profile[i], settings) {
        var i :| 0 <= i < |profile| && Differs(profile[i], settings);
        if i < |init| {
          assert init[i] == profile[i];
        }
      }
    }
  }

  /** A device that reports every profile value as it is (or reports none) is
      not rewritten, whatever its link key. */
  lemma ProvisionedDeviceMatches(settings: map<string, seq<byte>>)
    requires forall i :: 0 <= i < 10 && Profile[i].command in settings ==> settings[Profile[i].command] == Profile[i].value
    ensures MismatchCount(Profile, settings) == 0
  {
    MismatchCountPositive(Profile, settings);
  }
}
