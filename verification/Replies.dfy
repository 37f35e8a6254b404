/** What the firmware's answers mean: the readings behind USB personality discovery. */
module Replies {
  import opened Bytes
  import opened Unicode
  import opened Personality
  import opened Records
  import opened StringProjection
  import opened Configuration
  import StringTables
  import Translator

  /** A control transfer's outcome: the callback failed, stalled the request, or answered it. */
  datatype Reply = Failed | Stalled | Answer(bytes: seq<byte>)

  /** The firmware's answers, by the number of requests before. */
  type Script = nat -> Reply

  function Optional(reply: Reply): Outcome<Option<seq<byte>>> {
    match reply
    case Failed => Err(Invalid)
    case Stalled => Ok(None)
    case Answer(b) => Ok(Some(b))
  }

  function Required(reply: Reply): Outcome<seq<byte>> {
    if reply.Answer? then Ok(reply.bytes) else Err(Invalid)
  }

  // Languages and strings.

  predicate LanguagesOk(l: seq<byte>) {
    |l| >= 4 && l[1] == STRING && l[0] == |l| && |l| % 2 == 0
  }

  function Members<T(==,!new)>(xs: seq<T>): (s: set<T>)
    ensures forall x :: x in s <==> x in xs
  {
    if |xs| == 0 then {} else Members(xs[..|xs| - 1]) + {xs[|xs| - 1]}
  }

  function LanguageIds(l: seq<byte>): set<u16>
    requires LanguagesOk(l)
  {
    Members(UnitsOfBytes(l[2..]))
  }

  /** The members of a `BTreeSet<u16>` in iteration order. */
  function AscendingWords(s: set<u16>, from: nat := 0): (r: seq<u16>)
    ensures forall w :: w in r <==> w in s && from <= w
    ensures forall i, j :: 0 <= i < j < |r| ==> r[i] < r[j]
    decreases 0x1_0000 - from
  {
    if from >= 0x1_0000 then []
    else
      var rest := AscendingWords(s, from + 1);
      assert forall i :: 0 <= i < |rest| ==> rest[i] in rest;
      if from in s then [from] + rest else rest
  }

  /** The strings to ask for: every index, language by language. */
  function Pairs(languages: seq<u16>, indices: seq<byte>): seq<(byte, u16)> {
    if |languages| == 0 then []
    else Pairs(languages[..|languages| - 1], indices) + Row(indices, languages[|languages| - 1])
  }

  function Row(indices: seq<byte>, language: u16): (r: seq<(byte, u16)>)
    ensures |r| == |indices| && forall i :: 0 <= i < |r| ==> r[i] == (indices[i], language)
  {
    if |indices| == 0 then [] else Row(indices[..|indices| - 1], language) + [(indices[|indices| - 1], language)]
  }

  function StringReply(pair: (byte, u16), reply: Reply): Outcome<StringDescriptor> {
    var d :- Required(reply);
    if |d| < 2 || d[1] != STRING then Err(Invalid) else Ok(StringDescriptor(pair.0, pair.1, d))
  }

  /** The answers to the requests for `pairs`, the first of which is request `at`. */
  function StringsFrom(script: Script, at: nat, pairs: seq<(byte, u16)>): Outcome<seq<StringDescriptor>> {
    if |pairs| == 0 then Ok([])
    else
      var front :- StringsFrom(script, at, pairs[..|pairs| - 1]);
      var s :- StringReply(pairs[|pairs| - 1], script(at + |pairs| - 1));
      Ok(front + [s])
  }

  // The configuration.

  datatype Survey = Survey(interfaces: set<byte>, indices: set<byte>)

  /** What discovery notes of a configuration's descriptors: interface numbers and string indices. */
  function Surveyed(ds: seq<seq<byte>>, device: seq<byte>, header: seq<byte>): Option<Survey>
    requires |device| == 18 && |header| == 9
  {
    if |ds| == 0 then Some(Survey({}, {device[14], device[15], device[16], header[6]} - {0}))
    else
      var s, d := Surveyed(ds[..|ds| - 1], device, header), ds[|ds| - 1];
      if s.None? || (2 <= |d| && d[1] == INTERFACE && |d| < 9) then None
      else if !IsInterface(d) then s
      else Some(Survey(s.value.interfaces + {d[2]}, s.value.indices + {d[8]} - {0}))
  }

  // Microsoft OS 1.0.

  /** `usb_identifier`: the bytes before the first NUL, which must be ASCII. */
  function UsbIdentifier(b: seq<byte>): Outcome<Text> {
    var id := b[..StringTables.NulAt(b)];
    if exists i :: 0 <= i < |id| && id[i] >= 0x80 then Err(Invalid)
    else
      var t := DecodeUtf8(id);
      if t.Some? then Ok(t.value) else Panic
  }

  function Section(s: seq<byte>, interfaces: set<byte>): Outcome<CompatibleId>
    requires |s| == 24
  {
    if s[0] !in interfaces then Err(Invalid)
    else
      var id :- UsbIdentifier(s[2..10]);
      var sub :- UsbIdentifier(s[10..18]);
      Ok(CompatibleId(s[0], id, sub))
  }

  /** The first `n` function sections of an extended compatible-ID reply. */
  function Sections(reply: seq<byte>, n: nat, interfaces: set<byte>): Outcome<seq<CompatibleId>>
    requires 16 + n * 24 <= |reply|
  {
    if n == 0 then Ok([])
    else
      var front :- Sections(reply, n - 1, interfaces);
      var c :- Section(reply[16 + (n - 1) * 24..16 + n * 24], interfaces);
      Ok(front + [c])
  }

  function CompatibleReply(reply: seq<byte>, interfaces: set<byte>): Outcome<seq<CompatibleId>> {
    if |reply| < 16 || FromLe32(reply, 0) > |reply| then Err(Invalid)
    else if reply[8] == 0 || 16 + reply[8] * 24 > |reply| then Err(Invalid)
    else Sections(reply, reply[8], interfaces)
  }

  /** `utf16le_string`: one trailing NUL is dropped. */
  function Utf16LeString(b: seq<byte>): Outcome<Text> {
    if |b| % 2 != 0 then Err(Invalid)
    else
      var words := UnitsOfBytes(b);
      var kept := if |words| > 0 && words[|words| - 1] == 0 then words[..|words| - 1] else words;
      var t := DecodeUtf16(kept);
      if t.Some? then Ok(t.value) else Err(Invalid)
  }

  /** The lengths of the property at the front of `b` are consistent. */
  predicate PropertyFits(b: seq<byte>) {
    && 14 <= |b|
    && 14 <= FromLe32(b, 0) <= |b|
    && FromLe16(b, 8) as int <= FromLe32(b, 0) - 14
    && FromLe32(b, 10 + FromLe16(b, 8)) as int <= FromLe32(b, 0) - 14 - FromLe16(b, 8)
  }

  function ReadProperty(interface: byte, b: seq<byte>): Outcome<RegistryProperty> {
    if !PropertyFits(b) then Err(Invalid)
    else
      var data: int := 14 + FromLe16(b, 8);
      var length: int := FromLe32(b, data - 4);
      var name :- Utf16LeString(b[10..data - 4]);
      Ok(RegistryProperty(interface, FromLe32(b, 4), name, b[data..data + length]))
  }

  /** The first `n` properties at the front of `b`. */
  function ReadProperties(interface: byte, b: seq<byte>, n: nat): Outcome<seq<RegistryProperty>>
    decreases n
  {
    if n == 0 then Ok([])
    else
      var p :- ReadProperty(interface, b);
      var rest :- ReadProperties(interface, b[FromLe32(b, 0)..], n - 1);
      Ok([p] + rest)
  }

  function PropertiesReply(interface: byte, reply: seq<byte>): Outcome<seq<RegistryProperty>> {
    if |reply| < 10 || FromLe32(reply, 0) > |reply| then Err(Invalid)
    else ReadProperties(interface, reply[10..], FromLe16(reply, 8))
  }

  /** The properties of the interfaces of `order`, the first asked for by request `at`; an interface may stall. */
  function PropertiesFrom(script: Script, at: nat, order: seq<byte>): Outcome<seq<RegistryProperty>> {
    if |order| == 0 then Ok([])
    else
      var front :- PropertiesFrom(script, at, order[..|order| - 1]);
      var reply :- Optional(script(at + |order| - 1));
      if reply.None? then Ok(front)
      else
        var ps :- PropertiesReply(order[|order| - 1], reply.value);
        Ok(front + ps)
  }

  const OS_STRING: byte := 0xEE

  predicate OsStringOk(s: seq<byte>) {
    && |s| >= 18
    && s[1] == STRING
    && DecodeUtf16(UnitsOfBytes(s[2..16])) == Some(Ascii("MSFT100"))
    && s[16] != 0
  }

  /** The declaration, and the Microsoft OS string descriptor it was announced by. */
  datatype Declared = Declared(osString: seq<byte>, microsoft: MicrosoftOs10)

  /** The declaration, once the operating system string has given the vendor code. */
  function DeclarationFrom(script: Script, at: nat, vendor: byte, interfaces: set<byte>): Outcome<MicrosoftOs10> {
    var reply :- Optional(script(at));
    var ids :- if reply.None? then Ok([]) else CompatibleReply(reply.value, interfaces);
    var ps :- PropertiesFrom(script, at + 1, Ascending(interfaces));
    Ok(MicrosoftOs10(vendor, ids, ps))
  }

  function MicrosoftFrom(script: Script, at: nat, interfaces: set<byte>): Outcome<Option<Declared>> {
    var os :- Optional(script(at));
    if os.None? then Ok(None)
    else if !OsStringOk(os.value) then Err(Invalid)
    else
      var microsoft :- DeclarationFrom(script, at + 1, os.value[16], interfaces);
      Ok(Some(Declared(os.value, microsoft)))
  }

  // WebUSB.

  const BOS: byte := 15
  const DEVICE_CAPABILITY: byte := 16
  const PLATFORM: byte := 5
  const WEBUSB_UUID: seq<byte> :=
    [0x38, 0xb6, 0x08, 0x34, 0xa9, 0x09, 0xa0, 0x47, 0x8b, 0xfd, 0xa0, 0x76, 0x88, 0x15, 0xb6, 0x65]

  predicate IsWebUsb(c: seq<byte>) {
    |c| >= 24 && c[1] == DEVICE_CAPABILITY && c[2] == PLATFORM && c[4..20] == WEBUSB_UUID
  }

  /** The first WebUSB capability among the capabilities of `b`. */
  function FindWebUsb(b: seq<byte>): (r: Outcome<Option<seq<byte>>>)
    ensures r.Ok? && r.value.Some? ==> |r.value.value| >= 24
  {
    if |b| == 0 then Ok(None)
    else if b[0] < 3 || b[0] > |b| then Err(Invalid)
    else if IsWebUsb(b[..b[0]]) then Ok(Some(b[..b[0]]))
    else FindWebUsb(b[b[0]..])
  }

  /**
   `webusb_url`. A length byte below three passes every check and then asks for a slice that starts after its end:
   the program panics.
   */
  function WebUsbUrl(b: seq<byte>): Outcome<Text> {
    if |b| < 3 || b[0] > |b| || b[1] != 3 then Err(Invalid)
    else if b[2] !in {0, 1, 255} then Err(Invalid)
    else if b[0] < 3 then Panic
    else
      var suffix := DecodeUtf8(b[3..b[0]]);
      var prefix: Text := if b[2] == 0 then Ascii("http://") else if b[2] == 1 then Ascii("https://") else [];
      if suffix.Some? then Ok(prefix + suffix.value) else Err(Invalid)
  }

  function WebUsbOf(script: Script, at: nat, capability: seq<byte>): Outcome<WebUsb>
    requires |capability| >= 24
  {
    var version, vendor := FromLe16(capability, 20), capability[22];
    if capability[23] == 0 then Ok(WebUsb(version, vendor, []))
    else
      var _ :- Required(script(at));
      var response :- Required(script(at + 1));
      var page :- WebUsbUrl(response);
      Ok(WebUsb(version, vendor, page))
  }

  function WebUsbFrom(script: Script, at: nat, bcdUsb: u16): Outcome<Option<WebUsb>> {
    if bcdUsb < 0x0201 then Ok(None)
    else
      var header :- Optional(script(at));
      if header.None? then Ok(None)
      else if |header.value| != 5 || header.value[1] != BOS then Err(Invalid)
      else
        var bos :- Required(script(at + 1));
        if |bos| != FromLe16(header.value, 2) then Err(Invalid)
        else
          var capability :- FindWebUsb(if |bos| <= 5 then [] else bos[5..]);
          if capability.None? then Ok(None)
          else
            var web :- WebUsbOf(script, at + 2, capability.value);
            Ok(Some(web))
  }

  /** The WebUSB capability found by the requests from `at` on. */
  function CapabilityFrom(script: Script, at: nat, bcdUsb: u16): Option<seq<byte>> {
    var header, bos := script(at), script(at + 1);
    if bcdUsb < 0x0201 || !header.Answer? || |header.bytes| != 5 || header.bytes[1] != BOS then None
    else if !bos.Answer? || |bos.bytes| != FromLe16(header.bytes, 2) then None
    else
      var found := FindWebUsb(if |bos.bytes| <= 5 then [] else bos.bytes[5..]);
      if found.Ok? then found.value else None
  }

  // The builder, and the whole personality.

  /** `UsbPersonalityBuilder::finish`, with both descriptors supplied. */
  function Finish(
    speed: UsbSpeed, device: seq<byte>, config: seq<byte>, strings: seq<StringDescriptor>,
    microsoft: Option<MicrosoftOs10>, webUsb: Option<WebUsb>): Outcome<UsbPersonality>
  {
    if |device| != 18 || device[0] != 18 || device[1] != Translator.DEVICE then Err(Invalid)
    else if |config| < 9 || config[0] != 9 || config[1] != Translator.CONFIGURATION || FromLe16(config, 2) != |config|
    then Err(Invalid)
    else Ok(UsbPersonality(SCHEMA, speed, device, config, strings, microsoft, webUsb))
  }

  predicate HeaderOk(header: seq<byte>) {
    |header| == 9 && header[0] == 9 && header[1] == Translator.CONFIGURATION && FromLe16(header, 2) >= 9
  }

  /** The configuration, asked for first by its header and then by the length the header declares. */
  function ConfigurationFrom(script: Script, at: nat): (r: Outcome<seq<byte>>)
    ensures r.Ok? ==> |r.value| >= 9
  {
    var header :- Required(script(at));
    if !HeaderOk(header) then Err(Invalid)
    else
      var config :- Required(script(at + 1));
      if |config| != FromLe16(header, 2) then Err(Invalid) else Ok(config)
  }

  /** The strings discovery asks for. */
  function Wanted(languages: seq<byte>, survey: Survey): seq<(byte, u16)>
    requires LanguagesOk(languages)
  {
    Pairs(AscendingWords(LanguageIds(languages)), Ascending(survey.indices))
  }

  /** How many requests Microsoft discovery makes when it succeeds. */
  function MicrosoftRequests(found: Option<Declared>, interfaces: set<byte>): nat {
    if found.None? then 1 else 2 + |Ascending(interfaces)|
  }

  /** Discovery once the device, language and configuration descriptors are read. */
  function Completed(
    speed: UsbSpeed, script: Script, device: seq<byte>, languages: seq<byte>, config: seq<byte>, survey: Survey)
    : Outcome<UsbPersonality>
    requires |device| == 18 && LanguagesOk(languages)
  {
    var wanted := Wanted(languages, survey);
    var strings :- StringsFrom(script, 4, wanted);
    var found :- MicrosoftFrom(script, 4 + |wanted|, survey.interfaces);
    var at := 4 + |wanted| + MicrosoftRequests(found, survey.interfaces);
    var webUsb :- WebUsbFrom(script, at, FromLe16(device, 2));
    var osStrings := if found.None? then [] else [StringDescriptor(OS_STRING, 0, found.value.osString)];
    Finish(
      speed, device, config, [StringDescriptor(0, 0, languages)] + strings + osStrings,
      if found.None? then None else Some(found.value.microsoft), webUsb)
  }

  /** `discover`, as a function of the firmware's answers. */
  function DiscoveryOf(speed: UsbSpeed, script: Script): Outcome<UsbPersonality> {
    var device :- Required(script(0));
    if !Translator.DeviceOk(device) then Err(Invalid)
    else
      var languages :- Required(script(1));
      if !LanguagesOk(languages) then Err(Invalid)
      else
        var config :- ConfigurationFrom(script, 2);
        var ds := UsbDescriptor.Split(config[9..]);
        if ds.None? || Surveyed(ds.value, device, config[..9]).None? then Err(Invalid)
        else Completed(speed, script, device, languages, config, Surveyed(ds.value, device, config[..9]).value)
  }
}
