/** `project` and `discover_bundle`: a typed USB personality compiled for Linux FunctionFS. */
module Translator {
  import opened Bytes
  import opened Unicode
  import opened Personality
  import opened Records
  import opened Configuration
  import opened StringProjection
  import opened Layouts
  import opened MicrosoftProjection
  import StringTables

  const DEVICE: byte := 1
  const CONFIGURATION: byte := 2
  const MAX_STRING_DESCRIPTORS: nat := 256

  datatype DeviceIdentity = DeviceIdentity(
    vendorId: u16,
    productId: u16,
    bcdUsb: u16,
    bcdDevice: u16,
    deviceClass: byte,
    deviceSubclass: byte,
    deviceProtocol: byte,
    manufacturer: Option<Text>,
    product: Option<Text>,
    serial: Option<Text>)

  datatype Projection = Projection(
    device: DeviceIdentity,
    maxSpeed: UsbSpeed,
    configurationAttributes: byte,
    maxPowerMa: u16,
    descriptors: seq<byte>,
    strings: seq<byte>,
    endpoints: seq<Endpoint>,
    microsoftOs1: Option<Microsoft>,
    webUsb: Option<WebUsb>)

  // The device and configuration descriptors (USB 2.0 sections 9.6.1 and 9.6.3).

  predicate DeviceOk(device: seq<byte>) {
    |device| == 18 && device[0] == 18 && device[1] == DEVICE && device[17] == 1
  }

  function IdentityOf(device: seq<byte>, strings: Descriptors, language: u16): Outcome<DeviceIdentity>
    requires |device| == 18
  {
    var manufacturer :- OptionalString(strings, device[14], language);
    var product :- OptionalString(strings, device[15], language);
    var serial :- OptionalString(strings, device[16], language);
    Ok(DeviceIdentity(
         FromLe16(device, 8), FromLe16(device, 10), FromLe16(device, 2), FromLe16(device, 12),
         device[4], device[5], device[6], manufacturer, product, serial))
  }

  predicate ConfigurationOk(config: seq<byte>) {
    && |config| >= 9
    && config[0] == 9
    && config[1] == CONFIGURATION
    && FromLe16(config, 2) == |config|
    && config[5] == 1
  }

  // WebUSB.

  predicate LandingPageOk(page: Text) {
    && |EncodeUtf8(page)| <= 252
    && IsAscii(page)
    && (|page| == 0 || Ascii("https://") <= page || Ascii("http://") <= page)
  }

  predicate WebUsbOk(declaration: WebUsb, bcdUsb: u16) {
    && bcdUsb >= 0x0201
    && declaration.version == 0x0100
    && declaration.vendorCode != 0
    && LandingPageOk(declaration.landingPage)
  }

  function ProjectWebUsb(declaration: Option<WebUsb>, bcdUsb: u16): Outcome<Option<WebUsb>> {
    if declaration.Some? && !WebUsbOk(declaration.value, bcdUsb) then Err(Invalid) else Ok(declaration)
  }

  // The descriptor blob.

  const BASE_FLAGS: u32 := HAS_FS_DESC + ALL_CTRL_RECIP + CONFIG0_SETUP

  function FlagsFor(os: seq<byte>): u32 {
    BASE_FLAGS + if |os| == 0 then 0 else HAS_MS_OS_DESC
  }

  /** `count_functionfs_os_descriptors`. */
  function OsCount(os: seq<byte>): Outcome<nat> {
    var items := OsDescriptor.Split(os);
    if items.Some? then Ok(|items.value|) else Err(Invalid)
  }

  function Blob(count: nat, body: seq<byte>, os: seq<byte>): Outcome<seq<byte>> {
    var osCount :- OsCount(os);
    var counts := [Truncated32(count)] + if |os| == 0 then [] else [Truncated32(osCount)];
    var rest := EncodeFields(counts) + (body + os);
    if 12 + |rest| >= 0x1_0000_0000 then Err(Invalid) else Ok(Start(FlagsFor(os), 12 + |rest|) + rest)
  }

  method CountFunctionFsOsDescriptors(bytes: seq<byte>) returns (r: Outcome<nat>)
    ensures r == OsCount(bytes)
  {
    hide FromLe32;
    var offset, count := 0, 0;
    ghost var items: seq<seq<byte>> := [];
    JoinNothing(items, OsDescriptor.Split(bytes));
    assert bytes[0..] == bytes;
    while offset < |bytes|
      invariant 0 <= offset <= |bytes| && count == |items|
      invariant OsDescriptor.Split(bytes) == Join(items, OsDescriptor.Split(bytes[offset..]))
      decreases |bytes| - offset
    {
      ghost var rest := bytes[offset..];
      DeclaredField(rest);
      if |bytes| - offset < 5 {
        return Err(Invalid);
      }
      SuffixField(bytes, offset);
      var length: int := FromLe32(bytes, offset + 1);
      if length < 11 || offset + length > |bytes| {
        return Err(Invalid);
      }
      ghost var more := OsDescriptor.Split(rest[length..]);
      assert rest[length..] == bytes[offset + length..];
      JoinTwice(items, rest[..length], more);
      items := items + [rest[..length]];
      offset := offset + length;
      count := count + 1;
    }
    assert bytes[offset..] == [];
    JoinNothing(items, OsDescriptor.Split([]));
    return Ok(count);
  }

  lemma SuffixField(bytes: seq<byte>, offset: nat)
    requires offset + 5 <= |bytes|
    ensures FromLe32(bytes[offset..], 1) == FromLe32(bytes, offset + 1)
  {
  }

  lemma JoinTwice(items: seq<seq<byte>>, r: seq<byte>, more: Option<seq<seq<byte>>>)
    ensures Join(items, Push(r, more)) == Join(items + [r], more)
  {
    if more.Some? {
      assert items + ([r] + more.value) == (items + [r]) + more.value;
    }
  }

  method DescriptorBlob(count: nat, body: seq<byte>, os: seq<byte>) returns (r: Outcome<seq<byte>>)
    ensures r == Blob(count, body, os)
  {
    hide Le32, Framing.Split;
    var flags := BASE_FLAGS;
    if |os| != 0 {
      flags := flags + HAS_MS_OS_DESC;
    }
    NoOsDescriptors(os);
    var descriptors := Le32(DESCRIPTORS_MAGIC_V2) + Le32(0) + Le32(flags);
    var counts := Le32(Truncated32(count));
    OneField(Truncated32(count));
    if |os| != 0 {
      var osCount :- CountFunctionFsOsDescriptors(os);
      counts := counts + Le32(Truncated32(osCount));
      TwoFields(Truncated32(count), Truncated32(osCount));
    }
    var rest := counts + (body + os);
    descriptors := descriptors + rest;
    if |descriptors| >= 0x1_0000_0000 {
      return Err(Invalid);
    }
    assert descriptors[8..] == Le32(flags) + rest;
    assert descriptors[..4] == Le32(DESCRIPTORS_MAGIC_V2);
    descriptors := descriptors[..4] + Le32(|descriptors|) + descriptors[8..];
    assert descriptors == Start(flags, |descriptors|) + rest;
    return Ok(descriptors);
  }

  lemma NoOsDescriptors(os: seq<byte>)
    ensures |os| == 0 ==> OsCount(os) == Ok(0)
  {
  }

  lemma OneField(x: u32)
    ensures EncodeFields([x]) == Le32(x)
  {
    hide Le32;
    assert [x][..0] == [];
    assert EncodeFields([x]) == EncodeFields([]) + Le32(x);
    assert [] + Le32(x) == Le32(x);
  }

  lemma TwoFields(x: u32, y: u32)
    ensures EncodeFields([x] + [y]) == Le32(x) + Le32(y)
  {
    hide Le32;
    OneField(x);
    assert ([x] + [y])[..1] == [x];
  }

  // The projection.

  /** What the walk of the configuration and the declarations give, once the device is known. */
  ghost function Compiled(
    identity: DeviceIdentity, config: seq<byte>, strings: Descriptors, language: u16,
    microsoft: Option<MicrosoftOs10>, webUsb: Option<WebUsb>): Outcome<Projection>
  {
    if !ConfigurationOk(config) then Err(Invalid)
    else
      var w :- Project(config[9..]);
      var texts :- Strings(strings, language, w.found.numbers);
      var os :- ProjectedMicrosoft(microsoft, w.found.interfaces);
      var web :- ProjectWebUsb(webUsb, identity.bcdUsb);
      var blob :- Blob(w.found.count, w.body, os.1);
      Ok(Projection(identity, FullSpeed, config[7], config[8] as int * 2, blob, texts, w.found.endpoints, os.0, web))
  }

  /** `project`. */
  ghost function Projected(
    device: seq<byte>, config: seq<byte>, strings: Descriptors,
    microsoft: Option<MicrosoftOs10>, webUsb: Option<WebUsb>): Outcome<Projection>
  {
    if !DeviceOk(device) then Err(Invalid)
    else
      var language :- LanguageId(strings);
      var identity :- IdentityOf(device, strings, language);
      Compiled(identity, config, strings, language, microsoft, webUsb)
  }

  method ProjectConfiguration(
    identity: DeviceIdentity, config: seq<byte>, strings: Descriptors, language: u16,
    microsoft: Option<MicrosoftOs10>, webUsb: Option<WebUsb>) returns (r: Outcome<Projection>)
    ensures r == Compiled(identity, config, strings, language, microsoft, webUsb)
  {
    hide FromLe16, Project, Strings, ProjectedMicrosoft, ProjectWebUsb, Blob;
    if |config| < 9 || config[0] != 9 || config[1] != CONFIGURATION {
      return Err(Invalid);
    }
    var totalLength: nat := FromLe16(config, 2);
    if totalLength < 9 {
      return Err(Invalid);
    }
    if |config| != totalLength || config[5] != 1 {
      return Err(Invalid);
    }
    var body := new byte[|config| - 9](i requires 0 <= i < |config| - 9 => config[9 + i]);
    assert body[..] == config[9..];
    var found :- InspectAndRewriteConfiguration(body);
    var texts :- FunctionFsStrings(strings, language, found.numbers);
    var os :- ProjectMicrosoftOs1(microsoft, found.interfaces);
    var web :- ProjectWebUsb(webUsb, identity.bcdUsb);
    var descriptors :- DescriptorBlob(found.count, body[..], os.1);
    var power := config[8] as int * 2;
    return Ok(Projection(identity, FullSpeed, config[7], power, descriptors, texts, found.endpoints, os.0, web));
  }

  method ProjectPersonality(
    device: seq<byte>, config: seq<byte>, strings: Descriptors,
    microsoft: Option<MicrosoftOs10>, webUsb: Option<WebUsb>) returns (r: Outcome<Projection>)
    ensures r == Projected(device, config, strings, microsoft, webUsb)
  {
    hide LanguageId, IdentityOf, Compiled;
    if |device| != 18 || device[0] != 18 || device[1] != DEVICE {
      return Err(Invalid);
    }
    if device[17] != 1 {
      return Err(Invalid);
    }
    var language :- LanguageId(strings);
    var identity :- IdentityOf(device, strings, language);
    r := ProjectConfiguration(identity, config, strings, language, microsoft, webUsb);
  }

  // The bundle.

  /** The string descriptors by index and language, unless two share a key. */
  function Keyed(strings: seq<StringDescriptor>): Option<Descriptors> {
    if |strings| == 0 then Some(map[])
    else
      var front, s := Keyed(strings[..|strings| - 1]), strings[|strings| - 1];
      if front.None? || (s.index, s.languageId) in front.value then None
      else Some(front.value[(s.index, s.languageId) := s.descriptor])
  }

  lemma {:induction false} KeyedStops(strings: seq<StringDescriptor>, k: nat)
    requires k <= |strings| && Keyed(strings[..k]).None?
    ensures Keyed(strings).None?
  {
    if k < |strings| {
      assert strings[..|strings| - 1][..k] == strings[..k];
      KeyedStops(strings[..|strings| - 1], k);
    } else {
      assert strings[..k] == strings;
    }
  }

  /** `discover_bundle`, from the decoded personality on. */
  ghost function Discovered(bundle: UsbPersonality): Outcome<Projection> {
    if bundle.schema != SCHEMA || |bundle.strings| > MAX_STRING_DESCRIPTORS || Keyed(bundle.strings).None?
    then Err(Invalid)
    else
      var p :- Projected(
        bundle.deviceDescriptor, bundle.configurationDescriptor, Keyed(bundle.strings).value,
        bundle.microsoftOs1, bundle.webUsb);
      Ok(p.(maxSpeed := bundle.maxSpeed))
  }

  method DiscoverBundle(bundle: UsbPersonality) returns (r: Outcome<Projection>)
    ensures r == Discovered(bundle)
  {
    hide Projected;
    if bundle.schema != SCHEMA {
      return Err(Invalid);
    }
    if |bundle.strings| > MAX_STRING_DESCRIPTORS {
      return Err(Invalid);
    }
    var strings: Descriptors := map[];
    for i := 0 to |bundle.strings|
      invariant Keyed(bundle.strings[..i]) == Some(strings)
    {
      var s := bundle.strings[i];
      assert bundle.strings[..i + 1][..i] == bundle.strings[..i];
      if (s.index, s.languageId) in strings {
        KeyedStops(bundle.strings, i + 1);
        return Err(Invalid);
      }
      strings := strings[(s.index, s.languageId) := s.descriptor];
    }
    assert bundle.strings[..|bundle.strings|] == bundle.strings;
    var personality :- ProjectPersonality(
      bundle.deviceDescriptor, bundle.configurationDescriptor, strings, bundle.microsoftOs1, bundle.webUsb);
    return Ok(personality.(maxSpeed := bundle.maxSpeed));
  }
}
