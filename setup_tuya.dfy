/*
 * The decision rules of the Tuya setup wizard: the default rule of its
 * prompts, which cloud device is taken for the aquarium sensor, which local
 * protocol version is accepted, and which version is saved.
 */
module SetupTuya {
  import opened Common
  import opened Text

  // ---------------------------------------------------------------------------
  // Prompts

  /**
   * `get_input(prompt, default)`: the typed line is stripped; a truthy default
   * (present and non-empty) replaces an empty answer.
   */
  function GetInput(typed: string, default: Option<string>): (r: string)
    ensures r == Strip(typed) || (Strip(typed) == [] && default.Some? && r == default.value)
    ensures default.Some? && default.value != [] ==> r != []
    ensures Strip(typed) != [] ==> r == Strip(typed)
  {
    if default.Some? && default.value != [] then
      var answer := Strip(typed);
      if answer != [] then answer else default.value
    else Strip(typed)
  }

  /** An answer without surrounding whitespace is taken as typed, whatever the default. */
  lemma GetInputKeepsCleanAnswer(typed: string, default: Option<string>)
    requires typed != [] && !IsSpace(typed[0]) && !IsSpace(typed[|typed| - 1])
    ensures GetInput(typed, default) == typed
  {
    assert LeadingSpace(typed) == 0;
    assert typed[0..] == typed;
    assert TrailingSpace(typed) == 0;
  }

  /** Only a blank answer gives way to the default, and an empty default never does. */
  lemma GetInputDefaultOnlyWhenBlank(typed: string, default: Option<string>)
    ensures GetInput(typed, default) != Strip(typed) ==>
              default.Some? && default.value != [] && Strip(typed) == [] && GetInput(typed, default) == default.value
    ensures default == Some([]) ==> GetInput(typed, default) == Strip(typed)
  {
  }

  // ---------------------------------------------------------------------------
  // Cloud devices

  /** A device record of the cloud listing; every key may be missing. */
  datatype Device = Device(name: Option<string>, id: Option<string>, category: Option<string>,
                           key: Option<string>, ip: Option<string>)

  function OrElse(x: Option<string>, fallback: string): string {
    if x.Some? then x.value else fallback
  }

  /** The categories of water-quality monitors. */
  const MonitorCategories: seq<string> := ["dgnbj", "wsdcg"]

  /**
   * A likely aquarium sensor: a water-quality category, or a lower-cased name
   * (default "Unknown") containing "water", "aqua" or "ph".
   */
  predicate IsCandidate(d: Device) {
    var name := LowerName(d);
    || OrElse(d.category, "") in MonitorCategories
    || Contains(name, "water") || Contains(name, "aqua") || Contains(name, "ph")
  }

  /**
   * The name test is a substring test: a device passes exactly when its
   * category is a monitor category or one of the three words starts at some
   * position of its lower-cased name.
   */
  lemma IsCandidateIff(d: Device)
    ensures IsCandidate(d) <==>
              || OrElse(d.category, "") in MonitorCategories
              || exists i :: 0 <= i <= |LowerName(d)| &&
                   ("water" <= LowerName(d)[i..] || "aqua" <= LowerName(d)[i..] || "ph" <= LowerName(d)[i..])
  {
    var name := LowerName(d);
    ContainsIffOccurs(name, "water");
    ContainsIffOccurs(name, "aqua");
    ContainsIffOccurs(name, "ph");
  }

  /** `name.lower()` of `dev.get('name', 'Unknown')`. */
  function LowerName(d: Device): string {
    Lower(OrElse(d.name, "Unknown"))
  }

  /** The candidates in listing order. */
  function Candidates(devices: seq<Device>): (cs: seq<Device>)
    ensures |cs| <= |devices|
    ensures forall d :: d in cs ==> d in devices && IsCandidate(d)
    ensures cs == [] <==> forall d :: d in devices ==> !IsCandidate(d)
  {
    if devices == [] then []
    else
      var before := Candidates(devices[..|devices| - 1]);
      var last := devices[|devices| - 1];
      if IsCandidate(last) then before + [last] else before
  }

  /** Every candidate of the listing is kept. */
  lemma {:induction false} CandidatesComplete(devices: seq<Device>, d: Device)
    requires d in devices && IsCandidate(d)
    ensures d in Candidates(devices)
  {
    var init := devices[..|devices| - 1];
    if d != devices[|devices| - 1] {
      assert d in init;
      CandidatesComplete(init, d);
    }
  }

  /**
   * Candidate k of the listing sits in the candidate list right after the
   * candidates before it: the list keeps listing order, and keeps repeats.
   */
  lemma {:induction false} CandidatesPosition(devices: seq<Device>, k: nat)
    requires k < |devices| && IsCandidate(devices[k])
    ensures |Candidates(devices[..k])| < |Candidates(devices)|
    ensures Candidates(devices)[|Candidates(devices[..k])|] == devices[k]
  {
    var init := devices[..|devices| - 1];
    if k < |devices| - 1 {
      assert init[..k] == devices[..k];
      CandidatesPosition(init, k);
    } else {
      assert init == devices[..k];
    }
  }

  /** A prefix of a prefix is a prefix, with the same elements. */
  lemma PrefixOfPrefix<T>(s: seq<T>, n: nat, k: nat)
    requires k < n <= |s|
    ensures s[..n][..k] == s[..k] && s[..n][k] == s[k]
  {
  }

  /** Every place of the candidate list is filled by some candidate of the listing, in that way. */
  lemma {:induction false} CandidatesFromPositions(devices: seq<Device>, p: nat)
    requires p < |Candidates(devices)|
    ensures exists k :: 0 <= k < |devices| && IsCandidate(devices[k]) && |Candidates(devices[..k])| == p
  {
    var last := |devices| - 1;
    var init := devices[..last];
    assert Candidates(devices) == Candidates(init) + (if IsCandidate(devices[last]) then [devices[last]] else []);
    if p < |Candidates(init)| {
      CandidatesFromPositions(init, p);
      var k :| 0 <= k < |init| && IsCandidate(init[k]) && |Candidates(init[..k])| == p;
      PrefixOfPrefix(devices, last, k);
      assert k < |devices| && IsCandidate(devices[k]) && |Candidates(devices[..k])| == p;
    } else {
      assert IsCandidate(devices[last]) && |Candidates(devices[..last])| == p;
    }
  }

  /** The devices offered: the candidates, or every device when there is none. */
  function Pool(devices: seq<Device>): seq<Device> {
    var cs := Candidates(devices);
    if cs == [] then devices else cs
  }

  /** The pool is exactly the candidates when one exists, the whole listing otherwise. */
  lemma PoolMembers(devices: seq<Device>)
    ensures (forall d :: d in devices ==> !IsCandidate(d)) ==> Pool(devices) == devices
    ensures (exists d :: d in devices && IsCandidate(d)) ==>
              forall d :: d in Pool(devices) <==> d in devices && IsCandidate(d)
  {
    if exists d :: d in devices && IsCandidate(d) {
      var d :| d in devices && IsCandidate(d);
      CandidatesComplete(devices, d);
      forall e | e in devices && IsCandidate(e)
        ensures e in Pool(devices)
      {
        CandidatesComplete(devices, e);
      }
    }
  }

  /** The filter loop of `fetch_device_info`, with the fall-back to the whole listing. */
  method CandidatePool(devices: seq<Device>) returns (pool: seq<Device>)
    ensures pool == Pool(devices)
  {
    pool := [];
    for i := 0 to |devices|
      invariant pool == Candidates(devices[..i])
    {
      assert devices[..i + 1][..i] == devices[..i];
      if IsCandidate(devices[i]) {
        pool := pool + [devices[i]];
      }
    }
    assert devices[..|devices|] == devices;
    if pool == [] {
      pool := devices;
    }
  }

  // ---------------------------------------------------------------------------
  // The menu choice

  /**
   * `devices[int(answer) - 1]` as written: Python's negative indexing makes
   * 0 and negative answers count from the end; beyond that, an IndexError.
   */
  function SelectAsWritten(devices: seq<Device>, choice: int): (d: Option<Device>)
    ensures d.Some? <==> -|devices| < choice <= |devices|
  {
    var index := choice - 1;
    if -|devices| <= index < |devices| then
      Some(devices[if index < 0 then index + |devices| else index])
    else None
  }

  /** The menu lists 1..n, yet 0 and the negatives down to 1 - n still pick a device. */
  lemma ZeroChoiceSelectsLast(devices: seq<Device>)
    requires devices != []
    ensures SelectAsWritten(devices, 0) == Some(devices[|devices| - 1])
    ensures forall c :: -|devices| < c <= 0 ==> SelectAsWritten(devices, c) == Some(devices[|devices| - 1 + c])
  {
  }

  /** The intended choice: menu number c picks device c, any other answer is an error. */
  function Select(devices: seq<Device>, choice: int): (d: Option<Device>)
    ensures d.Some? <==> 1 <= choice <= |devices|
    ensures d.Some? ==> d.value == devices[choice - 1]
  {
    if 1 <= choice <= |devices| then Some(devices[choice - 1]) else None
  }

  /** The two readings agree on every menu number and on every answer below -n; they differ on 1-n..0. */
  lemma SelectAgreesOnMenu(devices: seq<Device>, choice: int)
    ensures choice >= 1 || choice <= -|devices| ==> Select(devices, choice) == SelectAsWritten(devices, choice)
    ensures -|devices| < choice <= 0 ==> Select(devices, choice) == None && SelectAsWritten(devices, choice).Some?
  {
  }

  /**
   * The selected device: the only one of the pool without a prompt, otherwise
   * the typed number (absent when it is not an integer) on the whole listing.
   */
  function Chosen(devices: seq<Device>, choice: Option<int>): (d: Option<Device>)
    ensures d.Some? ==> d.value in devices
    ensures |Pool(devices)| != 1 ==> d == (if choice.Some? then Select(devices, choice.value) else None)
  {
    var pool := Pool(devices);
    if |pool| == 1 then Some(pool[0])
    else if choice.Some? then Select(devices, choice.value)
    else None
  }

  // ---------------------------------------------------------------------------
  // fetch_device_info

  /** What the cloud listing call gave: a device list, or an exception. */
  datatype CloudReply = CloudRaised | CloudDevices(devices: seq<Device>)

  /** The dictionary returned by `fetch_device_info`. */
  datatype DeviceInfo = DeviceInfo(deviceId: Option<string>, localKey: Option<string>,
                                   name: Option<string>, ip: string)

  /** The first device whose id is `id`. */
  function FindById(devices: seq<Device>, id: string): (d: Option<Device>)
    ensures d.Some? ==> d.value in devices && d.value.id == Some(id)
    ensures d.None? <==> forall e :: e in devices ==> e.id != Some(id)
  {
    if devices == [] then None
    else if devices[0].id == Some(id) then Some(devices[0])
    else FindById(devices[1..], id)
  }

  /** Later devices with the same id are never chosen. */
  lemma {:induction false} FindByIdIsFirst(devices: seq<Device>, id: string, j: nat)
    requires j < |devices| && devices[j].id == Some(id)
    requires forall i :: 0 <= i < j ==> devices[i].id != Some(id)
    ensures FindById(devices, id) == Some(devices[j])
  {
    if j > 0 {
      FindByIdIsFirst(devices[1..], id, j - 1);
    }
  }

  function FromSelected(d: Device): (info: DeviceInfo)
    ensures info.deviceId == d.id && info.localKey == d.key && info.name == d.name
    ensures d.ip.None? ==> info.ip == ""
  {
    DeviceInfo(d.id, d.key, d.name, OrElse(d.ip, ""))
  }

  /** The manual path: the typed id, completed from a second listing when it has that id. */
  function FromManual(id: string, retry: CloudReply): (info: DeviceInfo)
    ensures info.deviceId == Some(id) && info.name.Some?
    ensures (retry.CloudRaised? || FindById(retry.devices, id).None?) ==>
              info == DeviceInfo(Some(id), None, Some("Aquarium Sensor"), "")
    ensures retry.CloudDevices? && FindById(retry.devices, id).Some? ==>
              info.localKey == FindById(retry.devices, id).value.key
  {
    var found := if retry.CloudDevices? then FindById(retry.devices, id) else None;
    if found.Some? then
      DeviceInfo(Some(id), found.value.key, Some(OrElse(found.value.name, "Aquarium Sensor")),
                 OrElse(found.value.ip, ""))
    else DeviceInfo(Some(id), None, Some("Aquarium Sensor"), "")
  }

  /**
   * The manual path of `fetch_device_info`: read the id, list the devices
   * again and look for it.
   */
  method ManualEntry(typedId: string, retry: CloudReply) returns (info: DeviceInfo)
    ensures info == FromManual(GetInput(typedId, None), retry)
    ensures info.deviceId == Some(Strip(typedId))
  {
    var id := GetInput(typedId, None);
    if retry.CloudDevices? {
      var devices := retry.devices;
      var i := 0;
      while i < |devices|
        invariant 0 <= i <= |devices|
        invariant FindById(devices, id) == FindById(devices[i..], id)
      {
        if devices[i].id == Some(id) {
          var found := devices[i];
          return DeviceInfo(Some(id), found.key, Some(OrElse(found.name, "Aquarium Sensor")), OrElse(found.ip, ""));
        }
        assert devices[i..][1..] == devices[i + 1..];
        i := i + 1;
      }
    }
    info := DeviceInfo(Some(id), None, Some("Aquarium Sensor"), "");
  }

  /**
   * `fetch_device_info`: nothing without the library or with an empty
   * listing; the chosen device's fields; the manual path when listing raised
   * or the choice failed.
   */
  function FetchResult(installed: bool, cloud: CloudReply, choice: Option<int>,
                       typedId: string, retry: CloudReply): Option<DeviceInfo> {
    if !installed then None
    else if cloud.CloudDevices? && cloud.devices == [] then None
    else if cloud.CloudDevices? && Chosen(cloud.devices, choice).Some? then
      Some(FromSelected(Chosen(cloud.devices, choice).value))
    else Some(FromManual(GetInput(typedId, None), retry))
  }

  method FetchDeviceInfo(installed: bool, cloud: CloudReply, choice: Option<int>,
                         typedId: string, retry: CloudReply) returns (info: Option<DeviceInfo>)
    ensures info == FetchResult(installed, cloud, choice, typedId, retry)
  {
    if !installed {
      return None;
    }
    if cloud.CloudRaised? {
      var manual := ManualEntry(typedId, retry);
      return Some(manual);
    }
    var devices := cloud.devices;
    if devices == [] {
      return None;
    }
    var pool := CandidatePool(devices);
    var selected: Option<Device>;
    if |pool| == 1 {
      selected := Some(pool[0]);
    } else if choice.Some? {
      selected := Select(devices, choice.value);
    } else {
      selected := None;
    }
    if selected.Some? {
      info := Some(FromSelected(selected.value));
    } else {
      var manual := ManualEntry(typedId, retry);
      info := Some(manual);
    }
  }

  /** No device information only without the library or when the listing is empty. */
  lemma FetchNothingIff(installed: bool, cloud: CloudReply, choice: Option<int>, typedId: string, retry: CloudReply)
    ensures FetchResult(installed, cloud, choice, typedId, retry).None? <==> !installed || cloud == CloudDevices([])
  {
  }

  /** A single device in the pool is taken whatever is typed. */
  lemma OneCandidateIsTaken(devices: seq<Device>, choice: Option<int>, typedId: string, retry: CloudReply)
    requires |Pool(devices)| == 1
    ensures FetchResult(true, CloudDevices(devices), choice, typedId, retry) == Some(FromSelected(Pool(devices)[0]))
    ensures Pool(devices)[0] in devices
  {
  }

  /** Otherwise the menu number counts in the whole listing, not in the pool. */
  lemma ChoiceIndexesWholeListing(devices: seq<Device>, c: int, typedId: string, retry: CloudReply)
    requires |Pool(devices)| != 1 && 1 <= c <= |devices|
    ensures FetchResult(true, CloudDevices(devices), Some(c), typedId, retry) == Some(FromSelected(devices[c - 1]))
  {
  }

  /** A failed cloud listing, a non-number or a number off the menu leads to the manual path. */
  lemma FailureLeadsToManualEntry(devices: seq<Device>, choice: Option<int>, typedId: string, retry: CloudReply)
    requires devices != [] && |Pool(devices)| != 1
    requires choice.None? || choice.value > |devices| || choice.value <= -|devices|
    ensures choice.Some? ==> SelectAsWritten(devices, choice.value).None?
    ensures FetchResult(true, CloudDevices(devices), choice, typedId, retry) == Some(FromManual(Strip(typedId), retry))
    ensures FetchResult(true, CloudRaised, choice, typedId, retry) == Some(FromManual(Strip(typedId), retry))
  {
  }

  /**
   * Under the corrected selection, the answers 1-n..0, which the code wraps
   * round to a device counted from the end, lead to manual entry as well.
   */
  lemma WrappedChoiceLeadsToManualEntry(devices: seq<Device>, c: int, typedId: string, retry: CloudReply)
    requires |Pool(devices)| != 1 && -|devices| < c <= 0
    ensures SelectAsWritten(devices, c) == Some(devices[|devices| - 1 + c])
    ensures FetchResult(true, CloudDevices(devices), Some(c), typedId, retry) == Some(FromManual(Strip(typedId), retry))
  {
  }

  /** On the manual path the key comes from the first listed device with the typed id, if any. */
  lemma ManualKeyFromFirstMatch(id: string, devices: seq<Device>, j: nat)
    requires j < |devices| && devices[j].id == Some(id)
    requires forall i :: 0 <= i < j ==> devices[i].id != Some(id)
    ensures FromManual(id, CloudDevices(devices)).localKey == devices[j].key
    ensures FromManual(id, CloudDevices(devices)).deviceId == Some(id)
  {
    FindByIdIsFirst(devices, id, j);
  }

  /** A name lacking one letter of a word does not contain the word. */
  lemma {:induction false} ContainsNeedsEveryLetter(s: string, word: string, k: nat)
    requires k < |word| && word[k] !in s
    ensures !Contains(s, word)
  {
    if s != [] {
      assert forall c :: c in s[1..] ==> c in s;
      ContainsNeedsEveryLetter(s[1..], word, k);
    }
  }

  /** A device named like a phone passes the "ph" test: the name test is a substring test. */
  lemma PhoneIsCandidate()
    ensures IsCandidate(Device(Some("Phone"), Some("x1"), Some("cz"), None, None))
  {
    assert Lower("Phone") == "phone";
  }

  /** A device without a name is called "Unknown", which matches no word. */
  lemma UnnamedNeedsCategory(id: Option<string>, category: Option<string>, key: Option<string>, ip: Option<string>)
    ensures IsCandidate(Device(None, id, category, key, ip)) <==> OrElse(category, "") in MonitorCategories
  {
    var name := LowerName(Device(None, id, category, key, ip));
    UnknownLacksAAndP();
    ContainsNeedsEveryLetter(name, "water", 1);
    ContainsNeedsEveryLetter(name, "aqua", 0);
    ContainsNeedsEveryLetter(name, "ph", 0);
  }

  /** "Unknown" lower-cased has neither an 'a' nor a 'p'. */
  lemma UnknownLacksAAndP()
    ensures 'a' !in Lower("Unknown") && 'p' !in Lower("Unknown")
  {
    assert Lower("Unknown") == "unknown";
  }

  // ---------------------------------------------------------------------------
  // test_connection

  /** The first version tried, and the fall-backs in the order they are tried. */
  const FirstVersion: real := 3.5
  const Fallbacks: seq<real> := [3.4, 3.3, 3.1]
  const Order: seq<real> := [FirstVersion] + Fallbacks

  /** What `test_connection` returns: the accepted version, if any, and the status dictionary. */
  datatype Connection = Connection(version: Option<real>, status: DeviceStatus)

  /** A fall-back answer that ends the search with success: a status with a "dps" key. */
  predicate Accepted(call: StatusCall) {
    call.Returned? && call.status.dps.Some?
  }

  /** A fall-back answer that moves on to the next version: a status without "dps". */
  predicate Rejected(call: StatusCall) {
    call.Returned? && call.status.dps.None?
  }

  /** The fall-back loop: the first accepted version wins; an exception ends the search. */
  function TryFallbacks(probe: real -> StatusCall, versions: seq<real>, last: DeviceStatus): (c: Connection)
    ensures c.version.Some? ==>
              && c.version.value in versions
              && probe(c.version.value) == Returned(c.status)
              && c.status.dps.Some?
    decreases |versions|
  {
    if versions == [] then Connection(None, last)
    else
      match probe(versions[0])
      case Raised(_) => Connection(None, EmptyStatus)
      case Returned(status) =>
        if status.dps.Some? then Connection(Some(versions[0]), status)
        else TryFallbacks(probe, versions[1..], status)
  }

  /**
   * `test_connection`: version 3.5 is kept unless its status has an "Error"
   * key; then the fall-backs are tried; any exception gives `(None, {})`.
   */
  function Connect(probe: real -> StatusCall): (c: Connection)
    ensures probe(FirstVersion).Raised? ==> c == Connection(None, EmptyStatus)
    ensures c.version.Some? ==> c.version.value in Order && probe(c.version.value) == Returned(c.status)
  {
    match probe(FirstVersion)
    case Raised(_) => Connection(None, EmptyStatus)
    case Returned(status) =>
      if status.error.None? then Connection(Some(FirstVersion), status)
      else TryFallbacks(probe, Fallbacks, status)
  }

  method TestConnection(probe: real -> StatusCall) returns (version: Option<real>, result: DeviceStatus)
    ensures Connection(version, result) == Connect(probe)
  {
    var call := probe(FirstVersion);
    if call.Raised? {
      return None, EmptyStatus;
    }
    result := call.status;
    if result.error.None? {
      return Some(FirstVersion), result;
    }
    var i := 0;
    while i < |Fallbacks|
      invariant 0 <= i <= |Fallbacks|
      invariant Connect(probe) == TryFallbacks(probe, Fallbacks[i..], result)
    {
      var ver := Fallbacks[i];
      call := probe(ver);
      if call.Raised? {
        return None, EmptyStatus;
      }
      result := call.status;
      if result.dps.Some? {
        return Some(ver), result;
      }
      assert Fallbacks[i..][1..] == Fallbacks[i + 1..];
      i := i + 1;
    }
    version := None;
  }

  /** The first version not rejected, when accepted, is returned with its status. */
  lemma {:induction false} FirstAcceptedWins(probe: real -> StatusCall, versions: seq<real>, last: DeviceStatus, j: nat)
    requires j < |versions| && Accepted(probe(versions[j]))
    requires forall i :: 0 <= i < j ==> Rejected(probe(versions[i]))
    ensures TryFallbacks(probe, versions, last) == Connection(Some(versions[j]), probe(versions[j]).status)
  {
    if j > 0 {
      assert Rejected(probe(versions[0]));
      FirstAcceptedWins(probe, versions[1..], probe(versions[0]).status, j - 1);
    }
  }

  /** An exception before any acceptance ends the search with `(None, {})`. */
  lemma {:induction false} RaiseEndsSearch(probe: real -> StatusCall, versions: seq<real>, last: DeviceStatus, j: nat)
    requires j < |versions| && probe(versions[j]).Raised?
    requires forall i :: 0 <= i < j ==> Rejected(probe(versions[i]))
    ensures TryFallbacks(probe, versions, last) == Connection(None, EmptyStatus)
  {
    if j > 0 {
      assert Rejected(probe(versions[0]));
      RaiseEndsSearch(probe, versions[1..], probe(versions[0]).status, j - 1);
    }
  }

  /** When every version is rejected, the last status is returned without a version. */
  lemma {:induction false} AllRejectedKeepsLastStatus(probe: real -> StatusCall, versions: seq<real>, last: DeviceStatus)
    requires versions != []
    requires forall i :: 0 <= i < |versions| ==> Rejected(probe(versions[i]))
    ensures Rejected(probe(versions[|versions| - 1]))
    ensures TryFallbacks(probe, versions, last) == Connection(None, probe(versions[|versions| - 1]).status)
  {
    assert Rejected(probe(versions[0]));
    if |versions| > 1 {
      var rest := versions[1..];
      assert forall i :: 0 <= i < |rest| ==> rest[i] == versions[i + 1];
      AllRejectedKeepsLastStatus(probe, rest, probe(versions[0]).status);
    }
  }

  /**
   * `test_connection` as a whole: 3.5 is accepted on any status without an
   * "Error" key (with or without "dps"); a fall-back only with "dps"; the
   * version returned is always one of the four and its status is the one
   * returned.
   */
  lemma ConnectOutcome(probe: real -> StatusCall)
    ensures probe(FirstVersion).Raised? ==> Connect(probe) == Connection(None, EmptyStatus)
    ensures probe(FirstVersion).Returned? && probe(FirstVersion).status.error.None? ==>
              Connect(probe) == Connection(Some(FirstVersion), probe(FirstVersion).status)
    ensures Connect(probe).version.Some? ==>
              && Connect(probe).version.value in Order
              && probe(Connect(probe).version.value) == Returned(Connect(probe).status)
    ensures Connect(probe).version.Some? && Connect(probe).version.value != FirstVersion ==>
              && probe(FirstVersion).Returned? && probe(FirstVersion).status.error.Some?
              && Connect(probe).status.dps.Some?
              && forall k :: 0 <= k < |Fallbacks| && Fallbacks[k] > Connect(probe).version.value ==>
                   Rejected(probe(Fallbacks[k]))
  {
    var first := probe(FirstVersion);
    if first.Returned? && first.status.error.Some? {
      var c := Connect(probe);
      if c.version.Some? {
        var v := c.version.value;
        // walk the fall-backs in order: each one above v was passed over
        var a := probe(3.4);
        if Rejected(a) {
          var b := probe(3.3);
          assert Fallbacks[1..] == [3.3, 3.1];
          if Rejected(b) {
            assert Fallbacks[1..][1..] == [3.1];
          }
        }
      }
    }
  }

  /** Versions after the accepted one are never tried: the device's answers to them do not matter. */
  lemma LaterVersionsNotTried(p1: real -> StatusCall, p2: real -> StatusCall)
    requires Connect(p1).version.Some?
    requires forall k :: 0 <= k < |Order| && Order[k] >= Connect(p1).version.value ==> p1(Order[k]) == p2(Order[k])
    ensures Connect(p2) == Connect(p1)
  {
    ConnectOutcome(p1);
    assert Order[0] == 3.5 && Order[1] == 3.4 && Order[2] == 3.3 && Order[3] == 3.1;
    assert Fallbacks[1..] == [3.3, 3.1] && Fallbacks[1..][1..] == [3.1];
  }

  // ---------------------------------------------------------------------------
  // The saved settings

  /** `version or 3.5`: the detected version, or 3.5 when there is none (or it is falsy). */
  function SavedVersion(version: Option<real>): (v: real)
    ensures version.None? ==> v == FirstVersion
    ensures version.Some? && version.value != 0.0 ==> v == version.value
  {
    if version.Some? && version.value != 0.0 then version.value else FirstVersion
  }

  /** The saved protocol version is always one the wizard knows. */
  lemma SavedVersionIsKnown(probe: real -> StatusCall)
    ensures SavedVersion(Connect(probe).version) in Order
    ensures Connect(probe).version.None? ==> SavedVersion(Connect(probe).version) == FirstVersion
  {
    ConnectOutcome(probe);
  }

  /** The device part of the saved configuration file. */
  datatype Settings = Settings(deviceId: Option<string>, deviceIp: string, localKey: Option<string>,
                               protocolVersion: real)

  /**
   * The wizard's `main`: stop on "n", stop without device information, ask
   * for the address when the listing had none, test the connection, save.
   */
  method RunSetup(proceed: string, installed: bool, cloud: CloudReply, choice: Option<int>,
                  typedId: string, retry: CloudReply, typedIp: string, probe: real -> StatusCall)
    returns (saved: Option<Settings>)
    ensures saved.None? <==>
              Lower(Strip(proceed)) == "n" || FetchResult(installed, cloud, choice, typedId, retry).None?
    ensures saved.Some? ==>
              var info := FetchResult(installed, cloud, choice, typedId, retry).value;
              && saved.value.deviceId == info.deviceId
              && saved.value.localKey == info.localKey
              && saved.value.deviceIp == (if info.ip != [] then info.ip else Strip(typedIp))
              && saved.value.protocolVersion == SavedVersion(Connect(probe).version)
              && saved.value.protocolVersion in Order
  {
    if Lower(Strip(proceed)) == "n" {
      return None;
    }
    var info := FetchDeviceInfo(installed, cloud, choice, typedId, retry);
    if info.None? {
      return None;
    }
    var device := info.value;
    if device.ip == [] {
      device := device.(ip := GetInput(typedIp, None));
    }
    var version, result := TestConnection(probe);
    SavedVersionIsKnown(probe);
    saved := Some(Settings(device.deviceId, device.ip, device.localKey, SavedVersion(version)));
  }
}
