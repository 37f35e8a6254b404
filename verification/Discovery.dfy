/** `discover`: a USB personality read from firmware by control transfers. */
module Discovery {
  import opened Bytes
  import opened Unicode
  import opened Personality
  import opened Records
  import opened Configuration
  import opened StringProjection
  import opened Replies
  import StringTables
  import Translator

  datatype Setup = Setup(requestType: byte, request: byte, value: u16, index: u16, length: u16)

  const GET_DESCRIPTOR: byte := 6
  const SET_CONFIGURATION: byte := 9

  function GetDescriptor(descriptorType: byte, index: byte, language: u16, length: u16): Setup {
    Setup(0x80, GET_DESCRIPTOR, descriptorType as int * 0x100 + index, language, length)
  }

  /** The control-transfer callback: it answers the requests by whatever script it follows. */
  class Firmware {
    const script: Script
    var log: seq<Setup>

    constructor (script: Script)
      ensures this.script == script && log == []
    {
      this.script := script;
      log := [];
    }

    method Transfer(setup: Setup) returns (r: Outcome<Option<seq<byte>>>)
      modifies this`log
      ensures log == old(log) + [setup]
      ensures r == Optional(script(|old(log)|))
    {
      r := Optional(script(|log|));
      log := log + [setup];
    }
  }

  method RequiredDescriptor(firmware: Firmware, descriptorType: byte, index: byte, language: u16, length: u16)
    returns (r: Outcome<seq<byte>>)
    modifies firmware`log
    ensures firmware.log == old(firmware.log) + [GetDescriptor(descriptorType, index, language, length)]
    ensures r == Required(firmware.script(|old(firmware.log)|))
  {
    var reply :- firmware.Transfer(GetDescriptor(descriptorType, index, language, length));
    return if reply.Some? then Ok(reply.value) else Err(Invalid);
  }

  // Strings.

  method DiscoverString(
    firmware: Firmware, strings: seq<StringDescriptor>, seen: set<(byte, u16)>, index: byte, language: u16)
    returns (r: Outcome<seq<StringDescriptor>>, seen': set<(byte, u16)>)
    modifies firmware`log
    ensures seen' == if index == 0 then seen else seen + {(index, language)}
    ensures if index == 0 || (index, language) in seen then r == Ok(strings) && firmware.log == old(firmware.log)
            else
              var s := StringReply((index, language), firmware.script(|old(firmware.log)|));
              && firmware.log == old(firmware.log) + [GetDescriptor(STRING, index, language, 255)]
              && r == if s.Ok? then Ok(strings + [s.value]) else Err(Invalid)
  {
    seen' := if index == 0 then seen else seen + {(index, language)};
    if index == 0 || (index, language) in seen {
      return Ok(strings), seen';
    }
    var d := RequiredDescriptor(firmware, STRING, index, language, 255);
    if !d.Ok? || |d.value| < 2 || d.value[1] != STRING {
      return Err(Invalid), seen';
    }
    return Ok(strings + [StringDescriptor(index, language, d.value)]), seen';
  }

  function StringRequests(pairs: seq<(byte, u16)>): seq<Setup> {
    if |pairs| == 0 then []
    else StringRequests(pairs[..|pairs| - 1]) + [GetDescriptor(STRING, pairs[|pairs| - 1].0, pairs[|pairs| - 1].1, 255)]
  }

  lemma {:induction false} StringsStop(script: Script, at: nat, pairs: seq<(byte, u16)>, k: nat)
    requires k <= |pairs| && StringsFrom(script, at, pairs[..k]).IsFailure()
    ensures StringsFrom(script, at, pairs) == StringsFrom(script, at, pairs[..k])
  {
    if k == |pairs| {
      assert pairs[..k] == pairs;
    } else {
      assert pairs[..|pairs| - 1][..k] == pairs[..k];
      StringsStop(script, at, pairs[..|pairs| - 1], k);
    }
  }

  // The pairs asked for before one language and index are a prefix of all of them.
  lemma {:induction false} PairsPrefix(languages: seq<u16>, indices: seq<byte>, i: nat, j: nat)
    requires i < |languages| && j <= |indices|
    ensures Pairs(languages[..i], indices) + Row(indices[..j], languages[i]) <= Pairs(languages, indices)
  {
    hide Row;
    var last := |languages| - 1;
    var front := languages[..last];
    if i < last {
      PairsPrefix(front, indices, i, j);
      assert front[..i] == languages[..i] && front[i] == languages[i];
      assert Pairs(front, indices) <= Pairs(languages, indices);
    } else {
      RowPrefix(indices, languages[i], j);
    }
  }

  lemma {:induction false} RowPrefix(indices: seq<byte>, language: u16, j: nat)
    requires j <= |indices|
    ensures Row(indices[..j], language) <= Row(indices, language)
  {
    if j < |indices| {
      assert indices[..|indices| - 1][..j] == indices[..j];
      RowPrefix(indices[..|indices| - 1], language, j);
    } else {
      assert indices[..j] == indices;
    }
  }

  // What the nested loops have asked for so far.
  ghost predicate Asked(
    log: seq<Setup>, before: seq<Setup>, script: Script, done: seq<(byte, u16)>, strings: seq<StringDescriptor>,
    first: seq<StringDescriptor>)
  {
    && log == before + StringRequests(done) && |StringRequests(done)| == |done|
    && StringsFrom(script, |before|, done).Ok?
    && strings == first + StringsFrom(script, |before|, done).value
  }

  lemma AskedMore(
    log: seq<Setup>, before: seq<Setup>, script: Script, done: seq<(byte, u16)>, strings: seq<StringDescriptor>,
    first: seq<StringDescriptor>, pair: (byte, u16))
    requires Asked(log, before, script, done, strings, first)
    ensures var s := StringReply(pair, script(|log|));
            if s.Ok? then
              Asked(
                log + [GetDescriptor(STRING, pair.0, pair.1, 255)], before, script, done + [pair],
                strings + [s.value], first)
            else StringsFrom(script, |before|, done + [pair]) == Err(Invalid)
  {
    assert (done + [pair])[..|done|] == done;
    var found, s := StringsFrom(script, |before|, done).value, StringReply(pair, script(|log|));
    if s.Ok? {
      assert first + (found + [s.value]) == (first + found) + [s.value];
      var requests, request := StringRequests(done), GetDescriptor(STRING, pair.0, pair.1, 255);
      assert before + (requests + [request]) == (before + requests) + [request];
    }
  }

  method DiscoverStrings(firmware: Firmware, first: seq<StringDescriptor>, languages: seq<u16>, indices: seq<byte>)
    returns (r: Outcome<seq<StringDescriptor>>)
    requires forall i, j :: 0 <= i < j < |languages| ==> languages[i] < languages[j]
    requires forall i, j :: 0 <= i < j < |indices| ==> indices[i] < indices[j]
    requires 0 !in indices
    modifies firmware`log
    ensures var found := StringsFrom(firmware.script, |old(firmware.log)|, Pairs(languages, indices));
            && r == (if found.Ok? then Ok(first + found.value) else Err(Invalid))
            && (r.Ok? ==>
                  firmware.log == old(firmware.log) + StringRequests(Pairs(languages, indices))
                  && |firmware.log| == |old(firmware.log)| + |Pairs(languages, indices)|)
  {
    hide StringsFrom, Pairs, Row, StringRequests;
    var strings, seen: set<(byte, u16)> := first, {};
    ghost var before, script := firmware.log, firmware.script;
    Unasked(before, script, first, indices);
    for i := 0 to |languages|
      invariant Asked(firmware.log, before, script, Pairs(languages[..i], indices), strings, first)
      invariant forall p :: p in seen ==> exists k :: 0 <= k < i && p.1 == languages[k]
    {
      ghost var done := Pairs(languages[..i], indices);
      NoRow(done, languages[i], indices);
      for j := 0 to |indices|
        invariant Asked(firmware.log, before, script, done + Row(indices[..j], languages[i]), strings, first)
        invariant forall p :: p in seen ==>
                    (exists k :: 0 <= k < i && p.1 == languages[k])
                    || (p.1 == languages[i] && exists k :: 0 <= k < j && p.0 == indices[k])
      {
        ghost var pair, now := (indices[j], languages[i]), done + Row(indices[..j], languages[i]);
        assert pair !in seen;
        AskedMore(firmware.log, before, script, now, strings, first, pair);
        RowPush(done, indices, languages[i], j);
        var next;
        next, seen := DiscoverString(firmware, strings, seen, indices[j], languages[i]);
        if !next.Ok? {
          PairsPrefix(languages, indices, i, j + 1);
          StringsStopAt(script, |before|, Pairs(languages, indices), now + [pair]);
          return Err(Invalid);
        }
        strings := next.value;
      }
      PairsPush(languages, indices, i);
    }
    assert languages[..|languages|] == languages;
    return Ok(strings);
  }

  lemma StringsStopAt(script: Script, at: nat, pairs: seq<(byte, u16)>, front: seq<(byte, u16)>)
    requires front <= pairs && StringsFrom(script, at, front).IsFailure()
    ensures StringsFrom(script, at, pairs) == StringsFrom(script, at, front)
  {
    assert pairs[..|front|] == front;
    StringsStop(script, at, pairs, |front|);
  }

  lemma Unasked(before: seq<Setup>, script: Script, first: seq<StringDescriptor>, indices: seq<byte>)
    ensures Asked(before, before, script, Pairs([], indices), first, first)
  {
    assert before + [] == before && first + [] == first;
  }

  lemma NoRow(done: seq<(byte, u16)>, language: u16, indices: seq<byte>)
    ensures done + Row(indices[..0], language) == done
  {
  }

  lemma RowPush(done: seq<(byte, u16)>, indices: seq<byte>, language: u16, j: nat)
    requires j < |indices|
    ensures done + Row(indices[..j], language) + [(indices[j], language)] == done + Row(indices[..j + 1], language)
  {
    assert indices[..j + 1][..j] == indices[..j];
  }

  lemma PairsPush(languages: seq<u16>, indices: seq<byte>, i: nat)
    requires i < |languages|
    ensures Pairs(languages[..i], indices) + Row(indices[..|indices|], languages[i])
         == Pairs(languages[..i + 1], indices)
  {
    assert languages[..i + 1][..i] == languages[..i] && indices[..|indices|] == indices;
  }

  // The configuration.

  lemma {:induction false} SurveyStops(ds: seq<seq<byte>>, more: seq<seq<byte>>, device: seq<byte>, header: seq<byte>)
    requires |device| == 18 && |header| == 9 && Surveyed(ds, device, header).None?
    ensures Surveyed(ds + more, device, header).None?
    decreases |more|
  {
    if |more| == 0 {
      assert ds + more == ds;
    } else {
      SurveyStops(ds, more[..|more| - 1], device, header);
      assert (ds + more)[..|ds + more| - 1] == ds + more[..|more| - 1];
    }
  }

  ghost function SurveyOf(b: seq<byte>, device: seq<byte>, header: seq<byte>): Outcome<Survey>
    requires |device| == 18 && |header| == 9
  {
    var ds := UsbDescriptor.Split(b);
    if ds.None? || Surveyed(ds.value, device, header).None? then Err(Invalid)
    else Ok(Surveyed(ds.value, device, header).value)
  }

  // The walk has passed `ds` and stands before `rest`.
  ghost predicate SurveyReached(
    b: seq<byte>, device: seq<byte>, header: seq<byte>, ds: seq<seq<byte>>, s: Survey, rest: seq<byte>)
    requires |device| == 18 && |header| == 9
  {
    UsbDescriptor.Split(b) == Join(ds, UsbDescriptor.Split(rest)) && Surveyed(ds, device, header) == Some(s)
  }

  lemma SurveyProceed(
    b: seq<byte>, device: seq<byte>, header: seq<byte>, ds: seq<seq<byte>>, s: Survey, rest: seq<byte>)
    requires |device| == 18 && |header| == 9 && SurveyReached(b, device, header, ds, s, rest) && |rest| > 0
    ensures if |rest| < 2 || rest[0] < 2 || rest[0] > |rest| then SurveyOf(b, device, header) == Err(Invalid)
            else
              var d := rest[..rest[0]];
              if d[1] == INTERFACE && |d| < 9 then SurveyOf(b, device, header) == Err(Invalid)
              else
                SurveyReached(
                  b, device, header, ds + [d],
                  if IsInterface(d) then Survey(s.interfaces + {d[2]}, s.indices + {d[8]} - {0}) else s, rest[rest[0]..])
  {
    DeclaredField(rest);
    if 2 <= |rest| && 2 <= rest[0] <= |rest| {
      var d := rest[..rest[0]];
      var more := UsbDescriptor.Split(rest[rest[0]..]);
      assert (ds + [d])[..|ds|] == ds;
      if more.Some? {
        assert ds + ([d] + more.value) == (ds + [d]) + more.value;
        if d[1] == INTERFACE && |d| < 9 {
          SurveyStops(ds + [d], more.value, device, header);
        }
      }
    }
  }

  method SurveyConfiguration(device: seq<byte>, configuration: seq<byte>) returns (r: Outcome<Survey>)
    requires |device| == 18 && |configuration| >= 9
    ensures r == SurveyOf(configuration[9..], device, configuration[..9])
    ensures r.Ok? ==> 0 !in r.value.indices
  {
    hide Surveyed;
    var indices: set<byte>, interfaces: set<byte> := {device[14], device[15], device[16]} - {0}, {};
    if configuration[6] != 0 {
      indices := indices + {configuration[6]};
    }
    var offset := 9;
    ghost var b, header, ds: seq<seq<byte>> := configuration[9..], configuration[..9], [];
    NothingSurveyed(device, header);
    assert header[6] == configuration[6];
    assert indices == {device[14], device[15], device[16]} - {0} + if header[6] != 0 then {header[6]} else {};
    JoinNothing(ds, UsbDescriptor.Split(b));
    while offset < |configuration|
      invariant 9 <= offset <= |configuration|
      invariant SurveyReached(b, device, header, ds, Survey(interfaces, indices), configuration[offset..])
      invariant 0 !in indices
      decreases |configuration| - offset
    {
      ghost var rest := configuration[offset..];
      SurveyProceed(b, device, header, ds, Survey(interfaces, indices), rest);
      if |configuration| - offset < 2 {
        return Err(Invalid);
      }
      var length: int := configuration[offset];
      if length < 2 || length > |configuration| - offset {
        return Err(Invalid);
      }
      if configuration[offset + 1] == INTERFACE {
        if length < 9 {
          return Err(Invalid);
        }
        interfaces := interfaces + {configuration[offset + 2]};
        indices := indices + {configuration[offset + 8]} - {0};
      }
      ds := ds + [rest[..length]];
      assert rest[length..] == configuration[offset + length..];
      offset := offset + length;
    }
    assert configuration[offset..] == [];
    JoinNothing(ds, UsbDescriptor.Split([]));
    return Ok(Survey(interfaces, indices));
  }

  lemma NothingSurveyed(device: seq<byte>, header: seq<byte>)
    requires |device| == 18 && |header| == 9
    ensures var strings := {device[14], device[15], device[16]} - {0};
            Surveyed([], device, header) == Some(Survey({}, strings + if header[6] != 0 then {header[6]} else {}))
  {
    var strings := {device[14], device[15], device[16]} - {0};
    var all := {device[14], device[15], device[16], header[6]};
    assert all - {0} == strings + if header[6] != 0 then {header[6]} else {};
  }

  // Microsoft OS 1.0.

  const VENDOR_IN: byte := 0xC0
  const VENDOR_INTERFACE_IN: byte := 0xC1

  lemma {:induction false} SectionsStop(reply: seq<byte>, k: nat, n: nat, interfaces: set<byte>)
    requires k <= n && 16 + n * 24 <= |reply| && Sections(reply, k, interfaces).IsFailure()
    ensures Sections(reply, n, interfaces) == Sections(reply, k, interfaces)
  {
    if k < n {
      SectionsStop(reply, k, n - 1, interfaces);
    }
  }

  method ReadCompatibleIds(reply: seq<byte>, interfaces: set<byte>) returns (r: Outcome<seq<CompatibleId>>)
    ensures r == CompatibleReply(reply, interfaces)
  {
    hide Section, FromLe32;
    if |reply| < 16 || FromLe32(reply, 0) > |reply| {
      return Err(Invalid);
    }
    var count: int := reply[8];
    if count == 0 || 16 + count * 24 > |reply| {
      return Err(Invalid);
    }
    var ids: seq<CompatibleId> := [];
    for i := 0 to count
      invariant Sections(reply, i, interfaces) == Ok(ids)
    {
      var c := Section(reply[16 + i * 24..16 + (i + 1) * 24], interfaces);
      if c.IsFailure() {
        SectionsStop(reply, i + 1, count, interfaces);
        return c.PropagateFailure();
      }
      ids := ids + [c.value];
    }
    return Ok(ids);
  }

  // Properties read so far, followed by those still to be read.
  function After(front: seq<RegistryProperty>, rest: Outcome<seq<RegistryProperty>>): Outcome<seq<RegistryProperty>> {
    if rest.Ok? then Ok(front + rest.value) else rest
  }

  lemma AfterOne(front: seq<RegistryProperty>, p: RegistryProperty, rest: Outcome<seq<RegistryProperty>>)
    ensures After([], rest) == rest
    ensures rest.Ok? ==> After(front, Ok([p] + rest.value)) == After(front + [p], rest)
    ensures After(front, Ok([])) == Ok(front)
  {
    if rest.Ok? {
      assert [] + rest.value == rest.value;
      assert front + ([p] + rest.value) == (front + [p]) + rest.value;
    }
    assert front + [] == front;
  }

  method ReadRegistryProperties(interface: byte, properties: seq<byte>) returns (r: Outcome<seq<RegistryProperty>>)
    ensures r == PropertiesReply(interface, properties)
  {
    hide ReadProperty, FromLe32, FromLe16;
    if |properties| < 10 || FromLe32(properties, 0) > |properties| {
      return Err(Invalid);
    }
    var count: nat := FromLe16(properties, 8);
    var found: seq<RegistryProperty>, offset := [], 10;
    ghost var b := properties[10..];
    AfterOne([], RegistryProperty(0, 0, [], []), ReadProperties(interface, b, count));
    for i := 0 to count
      invariant 10 <= offset <= |properties|
      invariant ReadProperties(interface, b, count)
             == After(found, ReadProperties(interface, properties[offset..], count - i))
    {
      var rest := properties[offset..];
      var p := ReadProperty(interface, rest);
      if p.IsFailure() {
        return p.PropagateFailure();
      }
      PropertyAdvances(interface, rest);
      var more := ReadProperties(interface, rest[FromLe32(rest, 0)..], count - i - 1);
      AfterOne(found, p.value, more);
      found := found + [p.value];
      assert rest[FromLe32(rest, 0)..] == properties[offset + FromLe32(rest, 0)..];
      offset := offset + FromLe32(rest, 0);
    }
    AfterOne(found, RegistryProperty(0, 0, [], []), Ok([]));
    return Ok(found);
  }

  lemma PropertyAdvances(interface: byte, b: seq<byte>)
    requires ReadProperty(interface, b).Ok?
    ensures 14 <= |b| && FromLe32(b, 0) <= |b|
  {
  }

  function PropertyRequests(vendor: byte, order: seq<byte>): (r: seq<Setup>)
    ensures |r| == |order|
  {
    if |order| == 0 then []
    else
      PropertyRequests(vendor, order[..|order| - 1])
      + [Setup(VENDOR_INTERFACE_IN, vendor, order[|order| - 1], 5, 255)]
  }

  lemma {:induction false} PropertiesStop(script: Script, at: nat, order: seq<byte>, k: nat)
    requires k <= |order| && PropertiesFrom(script, at, order[..k]).IsFailure()
    ensures PropertiesFrom(script, at, order) == PropertiesFrom(script, at, order[..k])
  {
    if k == |order| {
      assert order[..k] == order;
    } else {
      assert order[..|order| - 1][..k] == order[..k];
      PropertiesStop(script, at, order[..|order| - 1], k);
    }
  }

  // The loop over the interfaces.
  method DiscoverProperties(firmware: Firmware, vendor: byte, order: seq<byte>)
    returns (r: Outcome<seq<RegistryProperty>>)
    modifies firmware`log
    ensures r == PropertiesFrom(firmware.script, |old(firmware.log)|, order)
    ensures r.Ok? ==> firmware.log == old(firmware.log) + PropertyRequests(vendor, order)
  {
    hide PropertiesReply;
    var found: seq<RegistryProperty> := [];
    ghost var before := firmware.log;
    for i := 0 to |order|
      invariant firmware.log == before + PropertyRequests(vendor, order[..i])
      invariant PropertiesFrom(firmware.script, |before|, order[..i]) == Ok(found)
    {
      assert order[..i + 1][..i] == order[..i];
      var request := Setup(VENDOR_INTERFACE_IN, vendor, order[i], 5, 255);
      assert before + (PropertyRequests(vendor, order[..i]) + [request]) == firmware.log + [request];
      var reply := firmware.Transfer(request);
      if reply.IsFailure() {
        PropertiesStop(firmware.script, |before|, order, i + 1);
        return reply.PropagateFailure();
      }
      if reply.value.Some? {
        var ps := ReadRegistryProperties(order[i], reply.value.value);
        if ps.IsFailure() {
          PropertiesStop(firmware.script, |before|, order, i + 1);
          return ps.PropagateFailure();
        }
        found := found + ps.value;
      }
    }
    assert order[..|order|] == order;
    return Ok(found);
  }

  /** The requests a successful Microsoft discovery makes. */
  function MicrosoftLog(found: Option<Declared>, interfaces: set<byte>): seq<Setup> {
    var os := [GetDescriptor(STRING, OS_STRING, 0, 255)];
    if found.None? then os
    else
      var vendor := found.value.microsoft.vendorCode;
      os + [Setup(VENDOR_IN, vendor, 0, 4, 255)] + PropertyRequests(vendor, Ascending(interfaces))
  }

  method DiscoverDeclaration(firmware: Firmware, vendor: byte, interfaces: set<byte>) returns (r: Outcome<MicrosoftOs10>)
    modifies firmware`log
    ensures r == DeclarationFrom(firmware.script, |old(firmware.log)|, vendor, interfaces)
    ensures r.Ok? ==>
              firmware.log == old(firmware.log) + [Setup(VENDOR_IN, vendor, 0, 4, 255)]
                              + PropertyRequests(vendor, Ascending(interfaces))
  {
    hide CompatibleReply, PropertiesFrom, Ascending, PropertyRequests;
    var microsoft := MicrosoftOs10(vendor, [], []);
    var compatible :- firmware.Transfer(Setup(VENDOR_IN, vendor, 0, 4, 255));
    if compatible.Some? {
      var ids :- ReadCompatibleIds(compatible.value, interfaces);
      microsoft := microsoft.(compatibleIds := ids);
    }
    var ps :- DiscoverProperties(firmware, vendor, Ascending(interfaces));
    return Ok(microsoft.(registryProperties := ps));
  }

  method DiscoverMicrosoft(firmware: Firmware, strings: seq<StringDescriptor>, interfaces: set<byte>)
    returns (r: Outcome<Option<MicrosoftOs10>>, strings': seq<StringDescriptor>)
    modifies firmware`log
    ensures var found := MicrosoftFrom(firmware.script, |old(firmware.log)|, interfaces);
            if found.IsFailure() then r == found.PropagateFailure()
            else
              && firmware.log == old(firmware.log) + MicrosoftLog(found.value, interfaces)
              && r == Ok(if found.value.None? then None else Some(found.value.value.microsoft))
              && strings' == strings + if found.value.None? then []
                                       else [StringDescriptor(OS_STRING, 0, found.value.value.osString)]
  {
    hide OsStringOk, DeclarationFrom, Ascending, PropertyRequests;
    strings' := strings;
    assert strings + [] == strings;
    ghost var before := firmware.log;
    var request := GetDescriptor(STRING, OS_STRING, 0, 255);
    var os := firmware.Transfer(request);
    if os.IsFailure() {
      return os.PropagateFailure(), strings';
    }
    if os.value.None? {
      return Ok(None), strings';
    }
    var osString := os.value.value;
    if !OsStringOk(osString) {
      return Err(Invalid), strings';
    }
    strings' := strings' + [StringDescriptor(OS_STRING, 0, osString)];
    var vendor := VendorOf(osString);
    var microsoft := DiscoverDeclaration(firmware, vendor, interfaces);
    if microsoft.IsFailure() {
      return microsoft.PropagateFailure(), strings';
    }
    Appended(before, [request], [Setup(VENDOR_IN, vendor, 0, 4, 255)], PropertyRequests(vendor, Ascending(interfaces)));
    DeclaredVendor(firmware.script, |before| + 1, vendor, interfaces);
    return Ok(Some(microsoft.value)), strings';
  }

  lemma Appended(log: seq<Setup>, a: seq<Setup>, b: seq<Setup>, c: seq<Setup>)
    ensures log + a + b + c == log + (a + b + c)
  {
  }

  lemma DeclaredVendor(script: Script, at: nat, vendor: byte, interfaces: set<byte>)
    ensures var m := DeclarationFrom(script, at, vendor, interfaces); m.Ok? ==> m.value.vendorCode == vendor
  {
  }

  function VendorOf(osString: seq<byte>): byte
    requires OsStringOk(osString)
  {
    osString[16]
  }

  // WebUSB.

  /** The requests that follow a capability: the firmware is configured and asked for the URL that it names. */
  function PageRequests(capability: seq<byte>): seq<Setup>
    requires |capability| >= 24
  {
    if capability[23] == 0 then []
    else [Setup(0, SET_CONFIGURATION, 1, 0, 0), Setup(VENDOR_IN, capability[22], capability[23], 2, 255)]
  }

  /** The requests of a successful WebUSB discovery: the header first, then the whole BOS, then the page. */
  function WebUsbLog(script: Script, at: nat, bcdUsb: u16): seq<Setup> {
    var header, capability := script(at), CapabilityFrom(script, at, bcdUsb);
    if bcdUsb < 0x0201 then []
    else if !header.Answer? || |header.bytes| < 4 then [GetDescriptor(BOS, 0, 0, 5)]
    else
      [GetDescriptor(BOS, 0, 0, 5), GetDescriptor(BOS, 0, 0, FromLe16(header.bytes, 2))]
      + if capability.Some? && |capability.value| >= 24 then PageRequests(capability.value) else []
  }

  method DiscoverWebUsb(firmware: Firmware, bcdUsb: u16) returns (r: Outcome<Option<WebUsb>>)
    modifies firmware`log
    ensures r == WebUsbFrom(firmware.script, |old(firmware.log)|, bcdUsb)
    ensures old(firmware.log) <= firmware.log
    ensures r.Ok? ==> firmware.log == old(firmware.log) + WebUsbLog(firmware.script, |old(firmware.log)|, bcdUsb)
  {
    hide FromLe16, WebUsbOf, IsWebUsb, FindWebUsb, PageRequests;
    if bcdUsb < 0x0201 {
      return Ok(None);
    }
    var header := firmware.Transfer(GetDescriptor(BOS, 0, 0, 5));
    if header.IsFailure() {
      return header.PropagateFailure();
    }
    if header.value.None? {
      return Ok(None);
    }
    if |header.value.value| != 5 || header.value.value[1] != BOS {
      return Err(Invalid);
    }
    var total := FromLe16(header.value.value, 2);
    var bos :- RequiredDescriptor(firmware, BOS, 0, 0, total);
    if |bos| != total {
      return Err(Invalid);
    }
    var capability :- WebUsbCapability(bos);
    if capability.None? {
      return Ok(None);
    }
    r := DiscoverLandingPage(firmware, capability.value);
  }

  // The walk over the capabilities.
  method WebUsbCapability(bos: seq<byte>) returns (r: Outcome<Option<seq<byte>>>)
    ensures r == FindWebUsb(if |bos| <= 5 then [] else bos[5..])
    ensures r.Ok? && r.value.Some? ==> IsWebUsb(r.value.value)
  {
    hide IsWebUsb;
    var offset: nat := 5;
    while offset < |bos|
      invariant |bos| <= 5 || offset <= |bos|
      invariant FindWebUsb(if offset >= |bos| then [] else bos[offset..])
             == FindWebUsb(if |bos| <= 5 then [] else bos[5..])
      decreases |bos| - offset
    {
      ghost var rest := bos[offset..];
      var length: int := bos[offset];
      if length < 3 || length > |bos| - offset {
        return Err(Invalid);
      }
      var capability := bos[offset..offset + length];
      assert capability == rest[..length];
      if IsWebUsb(capability) {
        return Ok(Some(capability));
      }
      assert rest[length..] == bos[offset + length..];
      offset := offset + length;
    }
    return Ok(None);
  }

  method DiscoverLandingPage(firmware: Firmware, capability: seq<byte>) returns (r: Outcome<Option<WebUsb>>)
    requires IsWebUsb(capability)
    modifies firmware`log
    ensures old(firmware.log) <= firmware.log
    ensures r.Ok? ==> firmware.log == old(firmware.log) + PageRequests(capability)
    ensures var web := WebUsbOf(firmware.script, |old(firmware.log)|, capability);
            r == if web.Ok? then Ok(Some(web.value)) else web.PropagateFailure()
  {
    hide FromLe16, WebUsbUrl;
    var version, vendor, landing := FromLe16(capability, 20), capability[22], capability[23];
    if landing == 0 {
      return Ok(Some(WebUsb(version, vendor, [])));
    }
    var configured :- firmware.Transfer(Setup(0, SET_CONFIGURATION, 1, 0, 0));
    if configured.None? {
      return Err(Invalid);
    }
    var response :- firmware.Transfer(Setup(VENDOR_IN, vendor, landing, 2, 255));
    if response.None? {
      return Err(Invalid);
    }
    var page :- WebUsbUrl(response.value);
    return Ok(Some(WebUsb(version, vendor, page)));
  }

  // The whole discovery.

  function ConfigurationRequests(length: u16): seq<Setup> {
    [GetDescriptor(Translator.CONFIGURATION, 0, 0, 9), GetDescriptor(Translator.CONFIGURATION, 0, 0, length)]
  }

  method DiscoverConfiguration(firmware: Firmware) returns (r: Outcome<seq<byte>>)
    modifies firmware`log
    ensures r == ConfigurationFrom(firmware.script, |old(firmware.log)|)
    ensures r.Ok? ==> |r.value| < 0x1_0000
    ensures r.Ok? ==> firmware.log == old(firmware.log) + ConfigurationRequests(|r.value|)
  {
    hide FromLe16;
    var header :- RequiredDescriptor(firmware, Translator.CONFIGURATION, 0, 0, 9);
    if |header| != 9 || header[0] != 9 || header[1] != Translator.CONFIGURATION {
      return Err(Invalid);
    }
    var length := FromLe16(header, 2);
    if length < 9 {
      return Err(Invalid);
    }
    var configuration :- RequiredDescriptor(firmware, Translator.CONFIGURATION, 0, 0, length);
    if |configuration| != length {
      return Err(Invalid);
    }
    return Ok(configuration);
  }

  /** The first four requests of a successful discovery. */
  function FirstRequests(length: u16): seq<Setup> {
    [GetDescriptor(Translator.DEVICE, 0, 0, 18), GetDescriptor(STRING, 0, 0, 255)] + ConfigurationRequests(length)
  }

  /** Every string after the languages is the answer to a request for its own index and language. */
  ghost predicate StringsRequested(log: seq<Setup>, strings: seq<StringDescriptor>) {
    && |strings| + 3 <= |log|
    && forall k :: 1 <= k < |strings| ==>
          log[k + 3] == GetDescriptor(STRING, strings[k].index, strings[k].languageId, 255)
  }

  /** The requests behind the configuration: every string, the Microsoft descriptors and the WebUSB ones. */
  function LaterRequests(script: Script, device: seq<byte>, languages: seq<byte>, survey: Survey): seq<Setup>
    requires |device| == 18 && LanguagesOk(languages)
  {
    var wanted := Wanted(languages, survey);
    var found := MicrosoftFrom(script, 4 + |wanted|, survey.interfaces);
    if !found.Ok? then []
    else
      var before := StringRequests(wanted) + MicrosoftLog(found.value, survey.interfaces);
      before + WebUsbLog(script, 4 + |before|, FromLe16(device, 2))
  }

  /** The requests of a whole discovery that read the configuration `config`, in order. */
  ghost predicate AllRequested(log: seq<Setup>, script: Script, config: seq<byte>) {
    var device, languages := Required(script(0)), Required(script(1));
    && device.Ok? && |device.value| == 18 && languages.Ok? && LanguagesOk(languages.value)
    && 9 <= |config| < 0x1_0000 && SurveyOf(config[9..], device.value, config[..9]).Ok?
    && log == FirstRequests(|config|)
              + LaterRequests(script, device.value, languages.value,
                              SurveyOf(config[9..], device.value, config[..9]).value)
  }

  method Discover(speed: UsbSpeed, firmware: Firmware) returns (r: Outcome<UsbPersonality>)
    requires firmware.log == []
    modifies firmware`log
    ensures r == DiscoveryOf(speed, firmware.script)
    ensures r.Ok? ==> |r.value.configurationDescriptor| < 0x1_0000
    ensures r.Ok? ==> FirstRequests(|r.value.configurationDescriptor|) <= firmware.log
    ensures r.Ok? ==> AllRequested(firmware.log, firmware.script, r.value.configurationDescriptor)
    ensures r.Ok? ==> StringsRequested(firmware.log, r.value.strings)
  {
    hide Completed, Surveyed, ConfigurationFrom, Framing.Split, StringsRequested, LaterRequests;
    var device :- RequiredDescriptor(firmware, Translator.DEVICE, 0, 0, 18);
    if |device| != 18 || device[0] != 18 || device[1] != Translator.DEVICE || device[17] != 1 {
      return Err(Invalid);
    }
    var languages :- RequiredDescriptor(firmware, STRING, 0, 0, 255);
    if |languages| < 4 || languages[1] != STRING || languages[0] != |languages| || |languages| % 2 != 0 {
      return Err(Invalid);
    }
    var configuration :- DiscoverConfiguration(firmware);
    var survey :- SurveyConfiguration(device, configuration);
    r := Complete(speed, firmware, device, languages, configuration, survey);
  }

  method Complete(
    speed: UsbSpeed, firmware: Firmware, device: seq<byte>, languages: seq<byte>, configuration: seq<byte>,
    survey: Survey)
    returns (r: Outcome<UsbPersonality>)
    requires |firmware.log| == 4 && |device| == 18 && LanguagesOk(languages) && 0 !in survey.indices
    modifies firmware`log
    ensures r == Completed(speed, firmware.script, device, languages, configuration, survey)
    ensures r.Ok? ==> old(firmware.log) <= firmware.log && r.value.configurationDescriptor == configuration
    ensures r.Ok? ==> firmware.log == old(firmware.log) + LaterRequests(firmware.script, device, languages, survey)
    ensures r.Ok? ==> StringsRequested(firmware.log, r.value.strings)
  {
    hide WebUsbLog;
    hide FromLe16, LanguageIds, MicrosoftFrom, WebUsbFrom, StringsFrom, AscendingWords, Ascending, StringRequests;
    hide Pairs, StringsRequested, PropertyRequests, UnitsOfBytes;
    var first := [StringDescriptor(0, 0, languages)];
    var wanted := DiscoverStrings(firmware, first, AscendingWords(LanguageIds(languages)), Ascending(survey.indices));
    StringFault(firmware.script, 4, Wanted(languages, survey));
    var strings :- wanted;
    ghost var log := firmware.log;
    FirstStringsRequested(firmware.script, Wanted(languages, survey), old(firmware.log), log, first, strings);
    ghost var named, found := strings, MicrosoftFrom(firmware.script, |log|, survey.interfaces);
    var microsoft;
    microsoft, strings := DiscoverMicrosoft(firmware, strings, survey.interfaces);
    var declaration :- microsoft;
    OsStringRequested(log, named, found.value, survey.interfaces);
    ghost var more := firmware.log;
    var webUsb :- DiscoverWebUsb(firmware, FromLe16(device, 2));
    RequestedLater(more, firmware.log, strings);
    RequestsInOrder(old(firmware.log), firmware.script, device, languages, survey);
    r := Finish(speed, device, configuration, strings, declaration, webUsb);
  }

  lemma RequestsInOrder(before: seq<Setup>, script: Script, device: seq<byte>, languages: seq<byte>, survey: Survey)
    requires |device| == 18 && LanguagesOk(languages) && |before| == 4
    requires MicrosoftFrom(script, 4 + |Wanted(languages, survey)|, survey.interfaces).Ok?
    ensures var wanted := Wanted(languages, survey);
            var found := MicrosoftFrom(script, 4 + |wanted|, survey.interfaces).value;
            var more := before + StringRequests(wanted) + MicrosoftLog(found, survey.interfaces);
            more + WebUsbLog(script, |more|, FromLe16(device, 2))
            == before + LaterRequests(script, device, languages, survey)
  {
    hide WebUsbLog, MicrosoftLog, MicrosoftFrom, StringRequests, Wanted, LanguagesOk, FromLe16;
  }

  // The strings found in the loops stand behind their requests.
  lemma FirstStringsRequested(
    script: Script, wanted: seq<(byte, u16)>, before: seq<Setup>, log: seq<Setup>, first: seq<StringDescriptor>,
    strings: seq<StringDescriptor>)
    requires |before| == 4 && |first| == 1 && StringsFrom(script, 4, wanted).Ok?
    requires log == before + StringRequests(wanted) && strings == first + StringsFrom(script, 4, wanted).value
    ensures StringsRequested(log, strings) && |log| == |strings| + 3
  {
    hide StringsFrom, StringRequests;
    StringsAnswered(script, 4, wanted);
    RequestsMade(wanted);
  }

  lemma OsStringRequested(
    log: seq<Setup>, strings: seq<StringDescriptor>, found: Option<Declared>, interfaces: set<byte>)
    requires StringsRequested(log, strings) && |log| == |strings| + 3
    ensures StringsRequested(
              log + MicrosoftLog(found, interfaces),
              strings + if found.None? then [] else [StringDescriptor(OS_STRING, 0, found.value.osString)])
  {
    hide PropertyRequests, Ascending;
  }

  lemma RequestedLater(log: seq<Setup>, more: seq<Setup>, strings: seq<StringDescriptor>)
    requires StringsRequested(log, strings) && log <= more
    ensures StringsRequested(more, strings)
  {
  }

  lemma {:induction false} StringFault(script: Script, at: nat, pairs: seq<(byte, u16)>)
    ensures StringsFrom(script, at, pairs).IsFailure() ==> StringsFrom(script, at, pairs) == Err(Invalid)
  {
    if |pairs| > 0 {
      StringFault(script, at, pairs[..|pairs| - 1]);
    }
  }

  lemma {:induction false} StringsAnswered(script: Script, at: nat, pairs: seq<(byte, u16)>)
    requires StringsFrom(script, at, pairs).Ok?
    ensures var found := StringsFrom(script, at, pairs).value;
            && |found| == |pairs|
            && forall k :: 0 <= k < |pairs| ==>
                 && script(at + k) == Answer(found[k].descriptor)
                 && found[k].index == pairs[k].0 && found[k].languageId == pairs[k].1
  {
    if |pairs| > 0 {
      StringsAnswered(script, at, pairs[..|pairs| - 1]);
    }
  }

  lemma {:induction false} RequestsMade(pairs: seq<(byte, u16)>)
    ensures |StringRequests(pairs)| == |pairs|
    ensures forall k :: 0 <= k < |pairs| ==>
              StringRequests(pairs)[k] == GetDescriptor(STRING, pairs[k].0, pairs[k].1, 255)
  {
    if |pairs| > 0 {
      RequestsMade(pairs[..|pairs| - 1]);
    }
  }
}
