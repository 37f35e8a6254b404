/**
 Discovery as a device sees it: the eight bytes of each control request, and what discovery makes of a device that
 answers its standard requests from a table of descriptors.
 */
module Transcripts {
  import opened Bytes
  import opened Unicode
  import opened Personality
  import opened Records
  import opened Configuration
  import opened StringProjection
  import opened Replies
  import opened Discovery
  import Translator

  /** `SetupPacket::encode`. */
  function Encoded(s: Setup): (b: seq<byte>)
    ensures |b| == 8
  {
    [s.requestType, s.request] + Le16(s.value) + Le16(s.index) + Le16(s.length)
  }

  function Wire(log: seq<Setup>): (r: seq<seq<byte>>)
    ensures |r| == |log|
  {
    seq(|log|, i requires 0 <= i < |log| => Encoded(log[i]))
  }

  // The requests, byte by byte.

  /** GET_DESCRIPTOR (USB 2.0 section 9.4.3): type and index in wValue, language in wIndex. */
  function Get(descriptorType: byte, index: byte, language: u16, length: u16): (b: seq<byte>)
    ensures |b| == 8
  {
    [0x80, 6, index, descriptorType, language % 256, language / 256, length % 256, length / 256]
  }

  /** The first four requests: device, languages, the configuration's header, the whole configuration. */
  function FirstBytes(length: u16): seq<seq<byte>> {
    [[0x80, 6, 0, 1, 0, 0, 18, 0],
     [0x80, 6, 0, 3, 0, 0, 255, 0],
     [0x80, 6, 0, 2, 0, 0, 9, 0],
     [0x80, 6, 0, 2, 0, 0, length % 256, length / 256]]
  }

  function StringBytes(wanted: seq<(byte, u16)>): (r: seq<seq<byte>>)
    ensures |r| == |wanted|
  {
    seq(|wanted|, k requires 0 <= k < |wanted| => Get(3, wanted[k].0, wanted[k].1, 255))
  }

  /** The OS string, the compatible IDs, and the properties of each interface. */
  function MicrosoftBytes(found: Option<Declared>, interfaces: set<byte>): seq<seq<byte>> {
    [[0x80, 6, 0xEE, 3, 0, 0, 255, 0]]
    + if found.None? then []
      else
        var vendor, order := found.value.microsoft.vendorCode, Ascending(interfaces);
        [[0xC0, vendor, 0, 0, 4, 0, 255, 0]] + PropertyBytes(vendor, order)
  }

  function PropertyBytes(vendor: byte, order: seq<byte>): (r: seq<seq<byte>>)
    ensures |r| == |order|
  {
    seq(|order|, i requires 0 <= i < |order| => [0xC1, vendor, order[i], 0, 5, 0, 255, 0])
  }

  function PageBytes(capability: seq<byte>): seq<seq<byte>>
    requires |capability| >= 24
  {
    if capability[23] == 0 then []
    else [[0, 9, 1, 0, 0, 0, 0, 0], [0xC0, capability[22], capability[23], 0, 2, 0, 255, 0]]
  }

  /** The BOS header, the whole BOS and, for a capability that names one, the landing page. */
  function WebUsbBytes(script: Script, at: nat, bcdUsb: u16): seq<seq<byte>> {
    var header, capability := script(at), CapabilityFrom(script, at, bcdUsb);
    if bcdUsb < 0x0201 then []
    else if !header.Answer? || |header.bytes| < 4 then [[0x80, 6, 0, 15, 0, 0, 5, 0]]
    else
      [[0x80, 6, 0, 15, 0, 0, 5, 0], [0x80, 6, 0, 15, 0, 0, header.bytes[2], header.bytes[3]]]
      + if capability.Some? && |capability.value| >= 24 then PageBytes(capability.value) else []
  }

  function LaterBytes(script: Script, device: seq<byte>, languages: seq<byte>, survey: Survey): seq<seq<byte>>
    requires |device| == 18 && LanguagesOk(languages)
  {
    var wanted := Wanted(languages, survey);
    var found := MicrosoftFrom(script, 4 + |wanted|, survey.interfaces);
    if !found.Ok? then []
    else
      var before := StringBytes(wanted) + MicrosoftBytes(found.value, survey.interfaces);
      before + WebUsbBytes(script, 4 + |before|, FromLe16(device, 2))
  }

  lemma WireBoth(x: seq<Setup>, y: seq<Setup>)
    ensures Wire(x + y) == Wire(x) + Wire(y)
  {
    hide Encoded;
  }

  lemma EncodedGet(descriptorType: byte, index: byte, language: u16, length: u16)
    ensures Encoded(GetDescriptor(descriptorType, index, language, length))
         == Get(descriptorType, index, language, length)
  {
  }

  lemma FirstOnWire(length: u16)
    ensures Wire(FirstRequests(length)) == FirstBytes(length)
  {
    EncodedGet(1, 0, 0, 18);
    EncodedGet(3, 0, 0, 255);
    EncodedGet(2, 0, 0, 9);
    EncodedGet(2, 0, 0, length);
  }

  lemma StringsOnWire(wanted: seq<(byte, u16)>)
    ensures Wire(StringRequests(wanted)) == StringBytes(wanted)
  {
    hide Encoded, Get, GetDescriptor, StringRequests;
    RequestsMade(wanted);
    forall k | 0 <= k < |wanted| ensures Wire(StringRequests(wanted))[k] == StringBytes(wanted)[k] {
      EncodedGet(3, wanted[k].0, wanted[k].1, 255);
    }
  }

  lemma {:induction false} PropertiesOnWire(vendor: byte, order: seq<byte>)
    ensures Wire(PropertyRequests(vendor, order)) == PropertyBytes(vendor, order)
  {
    hide Encoded;
    if |order| > 0 {
      var front, last := order[..|order| - 1], order[|order| - 1];
      PropertiesOnWire(vendor, front);
      WireBoth(PropertyRequests(vendor, front), [Setup(VENDOR_INTERFACE_IN, vendor, last, 5, 255)]);
      EncodedVendor(vendor, last);
      assert PropertyBytes(vendor, order) == PropertyBytes(vendor, front) + [[0xC1, vendor, last, 0, 5, 0, 255, 0]];
    }
  }

  lemma EncodedVendor(vendor: byte, x: byte)
    ensures Encoded(Setup(VENDOR_INTERFACE_IN, vendor, x, 5, 255)) == [0xC1, vendor, x, 0, 5, 0, 255, 0]
    ensures Encoded(Setup(VENDOR_IN, vendor, 0, 4, 255)) == [0xC0, vendor, 0, 0, 4, 0, 255, 0]
    ensures Encoded(Setup(VENDOR_IN, vendor, x, 2, 255)) == [0xC0, vendor, x, 0, 2, 0, 255, 0]
    ensures Encoded(Setup(0, SET_CONFIGURATION, 1, 0, 0)) == [0, 9, 1, 0, 0, 0, 0, 0]
  {
  }

  lemma MicrosoftOnWire(found: Option<Declared>, interfaces: set<byte>)
    ensures Wire(MicrosoftLog(found, interfaces)) == MicrosoftBytes(found, interfaces)
  {
    hide Ascending, PropertyRequests, PropertyBytes, Encoded, GetDescriptor;
    var os := [GetDescriptor(STRING, OS_STRING, 0, 255)];
    EncodedGet(3, 0xEE, 0, 255);
    if found.Some? {
      var vendor, order := found.value.microsoft.vendorCode, Ascending(interfaces);
      EncodedVendor(vendor, 0);
      PropertiesOnWire(vendor, order);
      WireBoth(os + [Setup(VENDOR_IN, vendor, 0, 4, 255)], PropertyRequests(vendor, order));
    }
  }

  lemma WebUsbOnWire(script: Script, at: nat, bcdUsb: u16)
    ensures Wire(WebUsbLog(script, at, bcdUsb)) == WebUsbBytes(script, at, bcdUsb)
  {
    hide CapabilityFrom, FromLe16, Encoded, GetDescriptor;
    var header, capability := script(at), CapabilityFrom(script, at, bcdUsb);
    EncodedGet(15, 0, 0, 5);
    if header.Answer? && |header.bytes| >= 4 {
      EncodedGet(15, 0, 0, FromLe16(header.bytes, 2));
      LengthBytes(header.bytes);
      if capability.Some? && |capability.value| >= 24 {
        EncodedVendor(capability.value[22], capability.value[23]);
      }
    }
  }

  lemma LengthBytes(b: seq<byte>)
    requires |b| >= 4
    ensures FromLe16(b, 2) % 256 == b[2] && FromLe16(b, 2) / 256 == b[3]
  {
  }

  /** All requests of a successful discovery, in order and byte by byte. */
  lemma RequestsOnWire(log: seq<Setup>, script: Script, config: seq<byte>)
    requires AllRequested(log, script, config)
    ensures Wire(log)
         == FirstBytes(|config|)
            + LaterBytes(script, script(0).bytes, script(1).bytes,
                         SurveyOf(config[9..], script(0).bytes, config[..9]).value)
  {
    hide Encoded, FirstBytes, StringBytes, MicrosoftBytes, WebUsbBytes, StringRequests, MicrosoftLog, WebUsbLog;
    hide MicrosoftFrom, Wanted, SurveyOf, LanguagesOk, FromLe16, Wire, FirstRequests;
    var device, languages := script(0).bytes, script(1).bytes;
    var survey := SurveyOf(config[9..], device, config[..9]).value;
    var wanted := Wanted(languages, survey);
    var found := MicrosoftFrom(script, 4 + |wanted|, survey.interfaces);
    FirstOnWire(|config|);
    WireBoth(FirstRequests(|config|), LaterRequests(script, device, languages, survey));
    if found.Ok? {
      var before := StringRequests(wanted) + MicrosoftLog(found.value, survey.interfaces);
      StringsOnWire(wanted);
      MicrosoftOnWire(found.value, survey.interfaces);
      WireBoth(StringRequests(wanted), MicrosoftLog(found.value, survey.interfaces));
      WebUsbOnWire(script, 4 + |before|, FromLe16(device, 2));
      WireBoth(before, WebUsbLog(script, 4 + |before|, FromLe16(device, 2)));
    } else {
      NothingOnWire();
    }
  }

  lemma NothingOnWire()
    ensures Wire([]) == []
  {
  }

  // A device that answers from a table.

  /** A device's standard descriptors by type, index and language. */
  type Table = map<(byte, byte, u16), seq<byte>>

  function Cut(b: seq<byte>, n: nat): seq<byte> {
    if |b| <= n then b else b[..n]
  }

  predicate Standard(b: seq<byte>) {
    |b| == 8 && b[0] == 0x80 && b[1] == 6
  }

  /** The answer to GET_DESCRIPTOR: the descriptor, cut to wLength, or a stall (USB 2.0 section 9.4.3). */
  function AnswerOf(table: Table, b: seq<byte>): Reply
    requires Standard(b)
  {
    var key := (b[3], b[2], b[4] as int + 256 * b[5] as int);
    if key in table then Answer(Cut(table[key], b[6] as nat + 256 * b[7] as nat)) else Stalled
  }

  /** The firmware answered the standard ones of these requests from the table. */
  predicate Obeys(script: Script, wire: seq<seq<byte>>, table: Table) {
    forall k :: 0 <= k < |wire| && Standard(wire[k]) ==> script(k) == AnswerOf(table, wire[k])
  }

  /** The descriptor that a reading of `length` bytes finds in the table. */
  predicate Found(
    table: Table, descriptorType: byte, index: byte, language: u16, length: nat, descriptor: seq<byte>)
  {
    && (descriptorType, index, language) in table
    && descriptor == Cut(table[(descriptorType, index, language)], length)
  }

  lemma GetAnswer(table: Table, descriptorType: byte, index: byte, language: u16, length: u16)
    ensures Standard(Get(descriptorType, index, language, length))
    ensures AnswerOf(table, Get(descriptorType, index, language, length))
         == if (descriptorType, index, language) in table
            then Answer(Cut(table[(descriptorType, index, language)], length)) else Stalled
  {
    var b := Get(descriptorType, index, language, length);
    assert b[4] as int + 256 * b[5] as int == language && b[6] as int + 256 * b[7] as int == length;
  }

  // One request of a run that obeys the table.
  lemma ObeyedRequest(
    script: Script, log: seq<Setup>, table: Table, k: nat, descriptorType: byte, index: byte, language: u16,
    length: u16)
    requires Obeys(script, Wire(log), table) && k < |log|
    requires log[k] == GetDescriptor(descriptorType, index, language, length) && script(k).Answer?
    ensures Found(table, descriptorType, index, language, length, script(k).bytes)
  {
    hide Encoded, Get, GetDescriptor, Cut, AnswerOf;
    EncodedGet(descriptorType, index, language, length);
    GetAnswer(table, descriptorType, index, language, length);
    assert Wire(log)[k] == Encoded(log[k]);
  }

  // What a successful discovery keeps is what the firmware answered.
  lemma KeptAnswers(speed: UsbSpeed, script: Script)
    requires DiscoveryOf(speed, script).Ok?
    ensures var p := DiscoveryOf(speed, script).value;
            && script(0) == Answer(p.deviceDescriptor) && script(3) == Answer(p.configurationDescriptor)
            && |p.strings| > 0 && script(1).Answer? && p.strings[0] == StringDescriptor(0, 0, script(1).bytes)
            && forall k :: 1 <= k < |p.strings| ==> script(k + 3) == Answer(p.strings[k].descriptor)
  {
    hide Surveyed, StringsFrom, MicrosoftFrom, WebUsbFrom, Wanted, Framing.Split, FromLe16, Completed, Finish;
    var device, languages := script(0).bytes, script(1).bytes;
    var config := ConfigurationFrom(script, 2).value;
    var survey := Surveyed(UsbDescriptor.Split(config[9..]).value, device, config[..9]).value;
    KeptByCompletion(speed, script, device, languages, config, survey);
  }

  lemma KeptByCompletion(
    speed: UsbSpeed, script: Script, device: seq<byte>, languages: seq<byte>, config: seq<byte>, survey: Survey)
    requires |device| == 18 && LanguagesOk(languages)
    requires Completed(speed, script, device, languages, config, survey).Ok?
    ensures var p := Completed(speed, script, device, languages, config, survey).value;
            && p.deviceDescriptor == device && p.configurationDescriptor == config
            && |p.strings| > 0 && p.strings[0] == StringDescriptor(0, 0, languages)
            && forall k :: 1 <= k < |p.strings| ==> script(k + 3) == Answer(p.strings[k].descriptor)
  {
    hide StringsFrom, MicrosoftFrom, WebUsbFrom, Wanted, FromLe16, LanguagesOk;
    var wanted := Wanted(languages, survey);
    var named := StringsFrom(script, 4, wanted).value;
    StringsAnswered(script, 4, wanted);
    OsStringAnswered(script, 4 + |wanted|, survey.interfaces);
    var found := MicrosoftFrom(script, 4 + |wanted|, survey.interfaces).value;
    var os := if found.None? then [] else [StringDescriptor(OS_STRING, 0, found.value.osString)];
    AnswersBehind(script, StringDescriptor(0, 0, languages), named, os);
  }

  lemma AnswersBehind(
    script: Script, first: StringDescriptor, named: seq<StringDescriptor>, os: seq<StringDescriptor>)
    requires forall k :: 0 <= k < |named| ==> script(4 + k) == Answer(named[k].descriptor)
    requires |os| <= 1 && (|os| == 1 ==> script(4 + |named|) == Answer(os[0].descriptor))
    ensures forall k :: 1 <= k < |[first] + named + os| ==>
              script(k + 3) == Answer(([first] + named + os)[k].descriptor)
  {
    var all := [first] + named + os;
    forall k | 1 <= k < |all| ensures script(k + 3) == Answer(all[k].descriptor) {
      if k <= |named| {
        assert all[k] == named[k - 1] && script(4 + (k - 1)) == Answer(named[k - 1].descriptor);
      } else {
        assert all[k] == os[0];
      }
    }
  }

  lemma OsStringAnswered(script: Script, at: nat, interfaces: set<byte>)
    ensures var found := MicrosoftFrom(script, at, interfaces);
            found.Ok? && found.value.Some? ==> script(at) == Answer(found.value.value.osString)
  {
    hide DeclarationFrom, OsStringOk;
  }

  /**
   Discovery of a device that answers from a table returns the table's entries: the device descriptor, the configuration
   as far as it says it reaches, the languages, and every string under its own index and language.
   */
  lemma TableDiscovered(speed: UsbSpeed, script: Script, log: seq<Setup>, table: Table)
    requires DiscoveryOf(speed, script).Ok?
    requires AllRequested(log, script, DiscoveryOf(speed, script).value.configurationDescriptor)
    requires StringsRequested(log, DiscoveryOf(speed, script).value.strings)
    requires Obeys(script, Wire(log), table)
    ensures var p := DiscoveryOf(speed, script).value;
            && Found(table, 1, 0, 0, 18, p.deviceDescriptor)
            && Found(table, 2, 0, 0, |p.configurationDescriptor|, p.configurationDescriptor)
            && |p.strings| > 0 && p.strings[0].index == 0 && p.strings[0].languageId == 0
            && forall k :: 0 <= k < |p.strings| ==>
                 Found(table, 3, p.strings[k].index, p.strings[k].languageId, 255, p.strings[k].descriptor)
  {
    hide DiscoveryOf, Obeys, Wire, LaterRequests, SurveyOf, GetDescriptor, LanguagesOk, Found;
    var p := DiscoveryOf(speed, script).value;
    KeptAnswers(speed, script);
    ObeyedRequest(script, log, table, 0, 1, 0, 0, 18);
    ObeyedRequest(script, log, table, 1, 3, 0, 0, 255);
    ObeyedRequest(script, log, table, 3, 2, 0, 0, |p.configurationDescriptor|);
    forall k | 1 <= k < |p.strings|
      ensures Found(table, 3, p.strings[k].index, p.strings[k].languageId, 255, p.strings[k].descriptor)
    {
      ObeyedRequest(script, log, table, k + 3, 3, p.strings[k].index, p.strings[k].languageId, 255);
    }
  }

  // The other direction: such a device is discovered.

  /** The table's configuration, as far as its header says it reaches. */
  predicate ConfigurationStocked(table: Table) {
    && (2, 0, 0) in table
    && var c := table[(2, 0, 0)];
       && |c| >= 9 && c[0] == 9 && c[1] == 2 && 9 <= FromLe16(c, 2) <= |c|
  }

  function ConfigurationIn(table: Table): (c: seq<byte>)
    requires ConfigurationStocked(table)
    ensures 9 <= |c| < 0x1_0000
  {
    table[(2, 0, 0)][..FromLe16(table[(2, 0, 0)], 2)]
  }

  /** A device descriptor, languages, a configuration of complete descriptors, and every string that these name. */
  ghost predicate Stocked(table: Table) {
    && (1, 0, 0) in table && Translator.DeviceOk(Cut(table[(1, 0, 0)], 18))
    && (3, 0, 0) in table && LanguagesOk(Cut(table[(3, 0, 0)], 255))
    && ConfigurationStocked(table)
    && var device, languages, c := Cut(table[(1, 0, 0)], 18), Cut(table[(3, 0, 0)], 255), ConfigurationIn(table);
       && SurveyOf(c[9..], device, c[..9]).Ok?
       && AllStringsIn(table, Wanted(languages, SurveyOf(c[9..], device, c[..9]).value))
  }

  predicate AllStringsIn(table: Table, pairs: seq<(byte, u16)>) {
    forall k :: 0 <= k < |pairs| ==>
      && (3, pairs[k].0, pairs[k].1) in table
      && |table[(3, pairs[k].0, pairs[k].1)]| >= 2 && table[(3, pairs[k].0, pairs[k].1)][1] == 3
  }

  ghost function SurveyIn(table: Table): Survey
    requires Stocked(table)
  {
    var c := ConfigurationIn(table);
    SurveyOf(c[9..], Cut(table[(1, 0, 0)], 18), c[..9]).value
  }

  ghost function WantedIn(table: Table): seq<(byte, u16)>
    requires Stocked(table)
  {
    Wanted(Cut(table[(3, 0, 0)], 255), SurveyIn(table))
  }

  function EntryOf(table: Table, pair: (byte, u16)): StringDescriptor {
    var key := (3, pair.0, pair.1);
    StringDescriptor(pair.0, pair.1, if key in table then Cut(table[key], 255) else [])
  }

  function Entries(table: Table, pairs: seq<(byte, u16)>): seq<StringDescriptor> {
    if |pairs| == 0 then [] else Entries(table, pairs[..|pairs| - 1]) + [EntryOf(table, pairs[|pairs| - 1])]
  }

  lemma {:induction false} StringsInTable(script: Script, at: nat, pairs: seq<(byte, u16)>, table: Table)
    requires AllStringsIn(table, pairs)
    requires forall k :: 0 <= k < |pairs| ==> script(at + k) == Answer(Cut(table[(3, pairs[k].0, pairs[k].1)], 255))
    ensures StringsFrom(script, at, pairs) == Ok(Entries(table, pairs))
  {
    if |pairs| > 0 {
      StringsInTable(script, at, pairs[..|pairs| - 1], table);
    }
  }

  // The answers to the first four requests, and to those for the strings.
  lemma FirstAnswers(script: Script, table: Table, length: u16, wanted: seq<(byte, u16)>)
    requires Obeys(script, FirstBytes(length) + StringBytes(wanted), table)
    requires (1, 0, 0) in table && (2, 0, 0) in table && (3, 0, 0) in table
    ensures script(0) == Answer(Cut(table[(1, 0, 0)], 18)) && script(1) == Answer(Cut(table[(3, 0, 0)], 255))
    ensures script(2) == Answer(Cut(table[(2, 0, 0)], 9)) && script(3) == Answer(Cut(table[(2, 0, 0)], length))
    ensures forall k :: 0 <= k < |wanted| && (3, wanted[k].0, wanted[k].1) in table ==>
              script(4 + k) == Answer(Cut(table[(3, wanted[k].0, wanted[k].1)], 255))
  {
    hide Cut, AnswerOf, Standard, Obeys;
    var wire := FirstBytes(length) + StringBytes(wanted);
    GetAnswer(table, 1, 0, 0, 18);
    GetAnswer(table, 3, 0, 0, 255);
    GetAnswer(table, 2, 0, 0, 9);
    GetAnswer(table, 2, 0, 0, length);
    ObeyedAt(script, wire, table, 0);
    ObeyedAt(script, wire, table, 1);
    ObeyedAt(script, wire, table, 2);
    ObeyedAt(script, wire, table, 3);
    forall k | 0 <= k < |wanted| && (3, wanted[k].0, wanted[k].1) in table
      ensures script(4 + k) == Answer(Cut(table[(3, wanted[k].0, wanted[k].1)], 255))
    {
      GetAnswer(table, 3, wanted[k].0, wanted[k].1, 255);
      assert wire[4 + k] == Get(3, wanted[k].0, wanted[k].1, 255);
      ObeyedAt(script, wire, table, 4 + k);
    }
  }

  lemma ObeyedAt(script: Script, wire: seq<seq<byte>>, table: Table, k: nat)
    requires Obeys(script, wire, table) && k < |wire| && Standard(wire[k])
    ensures script(k) == AnswerOf(table, wire[k])
  {
  }

  lemma ConfigurationRead(script: Script, table: Table)
    requires ConfigurationStocked(table)
    requires script(2) == Answer(Cut(table[(2, 0, 0)], 9))
             && script(3) == Answer(Cut(table[(2, 0, 0)], |ConfigurationIn(table)|))
    ensures ConfigurationFrom(script, 2) == Ok(ConfigurationIn(table))
  {
    var c := table[(2, 0, 0)];
    assert Cut(c, 9) == c[..9] && FromLe16(c[..9], 2) == FromLe16(c, 2);
    assert c[..|c|] == c;
    assert Cut(c, |ConfigurationIn(table)|) == ConfigurationIn(table);
  }

  /**
   A device whose table holds what discovery asks for is discovered: when the requests for the standard descriptors are
   answered from the table, and those for the Microsoft and WebUSB descriptors in an acceptable way, discovery succeeds
   and returns the table's entries.
   */
  lemma StockedDeviceDiscovered(speed: UsbSpeed, script: Script, table: Table)
    requires Stocked(table)
    requires Obeys(script, FirstBytes(|ConfigurationIn(table)|) + StringBytes(WantedIn(table)), table)
    requires MicrosoftFrom(script, 4 + |WantedIn(table)|, SurveyIn(table).interfaces).Ok?
    requires var found := MicrosoftFrom(script, 4 + |WantedIn(table)|, SurveyIn(table).interfaces).value;
             WebUsbFrom(
               script, 4 + |WantedIn(table)| + MicrosoftRequests(found, SurveyIn(table).interfaces),
               FromLe16(Cut(table[(1, 0, 0)], 18), 2)).Ok?
    ensures var r := DiscoveryOf(speed, script);
            && r.Ok?
            && r.value.maxSpeed == speed
            && r.value.deviceDescriptor == Cut(table[(1, 0, 0)], 18)
            && r.value.configurationDescriptor == ConfigurationIn(table)
            && [StringDescriptor(0, 0, Cut(table[(3, 0, 0)], 255))] + Entries(table, WantedIn(table))
               <= r.value.strings
  {
    hide Cut, FromLe16, LanguagesOk, Translator.DeviceOk, Wanted, MicrosoftFrom, WebUsbFrom, StringsFrom, Entries;
    hide Obeys, FirstBytes, StringBytes, ConfigurationFrom, Surveyed, Framing.Split, MicrosoftRequests;
    var wanted := WantedIn(table);
    FirstAnswers(script, table, |ConfigurationIn(table)|, wanted);
    ConfigurationRead(script, table);
    StringsInTable(script, 4, wanted, table);
    Completes(speed, script, table);
  }

  lemma Completes(speed: UsbSpeed, script: Script, table: Table)
    requires Stocked(table)
    requires script(0) == Answer(Cut(table[(1, 0, 0)], 18)) && script(1) == Answer(Cut(table[(3, 0, 0)], 255))
    requires ConfigurationFrom(script, 2) == Ok(ConfigurationIn(table))
    requires StringsFrom(script, 4, WantedIn(table)) == Ok(Entries(table, WantedIn(table)))
    requires MicrosoftFrom(script, 4 + |WantedIn(table)|, SurveyIn(table).interfaces).Ok?
    requires var found := MicrosoftFrom(script, 4 + |WantedIn(table)|, SurveyIn(table).interfaces).value;
             WebUsbFrom(
               script, 4 + |WantedIn(table)| + MicrosoftRequests(found, SurveyIn(table).interfaces),
               FromLe16(Cut(table[(1, 0, 0)], 18), 2)).Ok?
    ensures var r := DiscoveryOf(speed, script);
            && r.Ok?
            && r.value.maxSpeed == speed
            && r.value.deviceDescriptor == Cut(table[(1, 0, 0)], 18)
            && r.value.configurationDescriptor == ConfigurationIn(table)
            && [StringDescriptor(0, 0, Cut(table[(3, 0, 0)], 255))] + Entries(table, WantedIn(table))
               <= r.value.strings
  {
    hide Cut, LanguagesOk, Wanted, MicrosoftFrom, WebUsbFrom, StringsFrom, Entries;
    hide ConfigurationFrom, Surveyed, Framing.Split, MicrosoftRequests;
  }

  // What some answers must say, byte by byte.

  lemma {:induction false} PlainUnits(t: Text)
    requires forall i :: 0 <= i < |t| ==> t[i] < 0x80
    ensures |EncodeUtf16(t)| == |t| && forall i :: 0 <= i < |t| ==> EncodeUtf16(t)[i] == t[i]
  {
    if |t| > 0 {
      PlainUnits(t[1..]);
    }
  }

  lemma {:induction false} UnitBytesAt(w: seq<u16>, k: nat)
    requires k < |w|
    ensures |UnitBytes(w)| == 2 * |w|
    ensures UnitBytes(w)[2 * k] == w[k] % 256 && UnitBytes(w)[2 * k + 1] == w[k] / 256
  {
    if k > 0 {
      UnitBytesAt(w[1..], k - 1);
    }
  }

  lemma SignatureBytes(w: seq<u16>)
    requires w == [77, 83, 70, 84, 49, 48, 48]
    ensures UnitBytes(w) == [77, 0, 83, 0, 70, 0, 84, 0, 49, 0, 48, 0, 48, 0]
  {
    hide UnitBytes;
    UnitBytesAt(w, 0);
    UnitBytesAt(w, 1);
    UnitBytesAt(w, 2);
    UnitBytesAt(w, 3);
    UnitBytesAt(w, 4);
    UnitBytesAt(w, 5);
    UnitBytesAt(w, 6);
  }

  /** The Microsoft OS string is accepted exactly when it says MSFT100 in UTF-16 and gives a vendor code. */
  lemma OsStringBytes(s: seq<byte>)
    ensures OsStringOk(s) <==>
              && |s| >= 18 && s[1] == 3
              && s[2..16] == [77, 0, 83, 0, 70, 0, 84, 0, 49, 0, 48, 0, 48, 0]
              && s[16] != 0
  {
    hide DecodeUtf16, EncodeUtf16, UnitBytes, UnitsOfBytes;
    if |s| >= 18 {
      var b, t := s[2..16], Ascii("MSFT100");
      assert t == [77, 83, 70, 84, 49, 48, 48];
      PlainUnits(t);
      assert EncodeUtf16(t) == [77, 83, 70, 84, 49, 48, 48];
      SignatureBytes(EncodeUtf16(t));
      UnitBytesExact(b);
      UnitBytesRoundTrip(EncodeUtf16(t));
      Utf16RoundTrip(t);
      Utf16Exact(UnitsOfBytes(b));
    }
  }

  /** The WebUSB capability is told by the UUID 3408b638-09a9-47a0-8bfd-a0768815b665, mixed-endian. */
  lemma WebUsbUuid(c: seq<byte>)
    ensures IsWebUsb(c) <==>
              && |c| >= 24 && c[1] == 16 && c[2] == 5
              && FromLe32(c, 4) == 0x3408b638 && FromLe16(c, 8) == 0x09a9 && FromLe16(c, 10) == 0x47a0
              && c[12..20] == [0x8b, 0xfd, 0xa0, 0x76, 0x88, 0x15, 0xb6, 0x65]
  {
    hide FromLe32, FromLe16;
    if |c| >= 24 {
      var first, second := [0x38, 0xb6, 0x08, 0x34, 0xa9, 0x09, 0xa0, 0x47], c[12..20];
      assert c[4..20] == c[4..12] + second;
      assert WEBUSB_UUID == first + [0x8b, 0xfd, 0xa0, 0x76, 0x88, 0x15, 0xb6, 0x65];
      Halves(c[4..12], second, first, [0x8b, 0xfd, 0xa0, 0x76, 0x88, 0x15, 0xb6, 0x65]);
      UuidFields(c);
      Eight(c[4..12], first);
      assert forall i :: 0 <= i < 8 ==> c[4..12][i] == c[4 + i];
    }
  }

  lemma Eight(x: seq<byte>, y: seq<byte>)
    requires |x| == |y| == 8
    ensures x == y <==> && x[0] == y[0] && x[1] == y[1] && x[2] == y[2] && x[3] == y[3]
                        && x[4] == y[4] && x[5] == y[5] && x[6] == y[6] && x[7] == y[7]
  {
  }

  lemma UuidFields(c: seq<byte>)
    requires |c| >= 12
    ensures FromLe32(c, 4) == 0x3408b638 <==> c[4] == 0x38 && c[5] == 0xb6 && c[6] == 0x08 && c[7] == 0x34
    ensures FromLe16(c, 8) == 0x09a9 <==> c[8] == 0xa9 && c[9] == 0x09
    ensures FromLe16(c, 10) == 0x47a0 <==> c[10] == 0xa0 && c[11] == 0x47
  {
  }

  /** The languages are the 16-bit words behind the first two bytes. */
  lemma LanguageWords(l: seq<byte>, x: u16)
    requires LanguagesOk(l)
    ensures x in LanguageIds(l) <==> exists k :: 1 <= k < |l| / 2 && x == l[2 * k] as int + 256 * l[2 * k + 1] as int
  {
    hide UnitsOfBytes;
    var units := UnitsOfBytes(l[2..]);
    UnitAt(l[2..], 0);
    if x in units {
      var i :| 0 <= i < |units| && units[i] == x;
      UnitAt(l[2..], i);
      var k := i + 1;
      assert 1 <= k < |l| / 2 && x == l[2 * k] as int + 256 * l[2 * k + 1] as int;
    }
    if k :| 1 <= k < |l| / 2 && x == l[2 * k] as int + 256 * l[2 * k + 1] as int {
      UnitAt(l[2..], k - 1);
      assert units[k - 1] == x;
    }
  }

  lemma {:induction false} UnitAt(b: seq<byte>, k: nat)
    requires |b| % 2 == 0 && 2 * k + 1 < |b|
    ensures |UnitsOfBytes(b)| == |b| / 2
    ensures UnitsOfBytes(b)[k] == b[2 * k] as int + 256 * b[2 * k + 1] as int
  {
    if k > 0 {
      UnitAt(b[2..], k - 1);
    }
  }
}
