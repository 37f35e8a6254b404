/** The native worker's personality builder: descriptors made from a platform's USB configuration. */
module NativeBuilder {
  import opened Bytes
  import opened Unicode
  import opened Personality
  import opened Records
  import opened Sorting
  import opened Configuration
  import opened StringProjection
  import Replies

  datatype NativeDevice = NativeDevice(
    usbVersion: u16, vendorId: u16, productId: u16, deviceVersion: u16,
    deviceClass: byte, deviceSubclass: byte, deviceProtocol: byte, maxPacketSize0: byte,
    manufacturer: Text, product: Text, serialNumber: Text, interfaceName: Text)

  datatype NativeInterface = NativeInterface(
    number: byte, classCode: byte, subclass: byte, protocol: byte, stringIndex: byte,
    endpointIn: byte, endpointOut: byte, transferType: byte, maxPacketSize: u16, interval: byte,
    classDescriptors: seq<byte>)

  const LANGUAGE: u16 := 0x409

  // Strings.

  /** `string_descriptor`. */
  function StringDescriptorOf(index: byte, language: u16, value: Text): Outcome<StringDescriptor> {
    var units := UnitBytes(EncodeUtf16(value));
    if 2 + |units| > 0xFF then Err(Invalid)
    else Ok(StringDescriptor(index, language, [2 + |units|, STRING] + units))
  }

  /** The descriptor of a text is read back as that text. */
  lemma StringDescriptorReadsBack(index: byte, language: u16, value: Text, strings: Descriptors)
    requires StringDescriptorOf(index, language, value).Ok?
    requires (index, language) in strings
    requires strings[(index, language)] == StringDescriptorOf(index, language, value).value.descriptor
    ensures UsbString(strings, index, language) == Ok(value)
  {
    hide EncodeUtf16, DecodeUtf16, UnitBytes, UnitsOfBytes;
    var d := strings[(index, language)];
    assert d[2..d[0]] == UnitBytes(EncodeUtf16(value));
    UnitBytesRoundTrip(EncodeUtf16(value));
    Utf16RoundTrip(value);
  }

  // The configuration.

  function InterfaceDescriptor(i: NativeInterface): (d: seq<byte>)
    ensures |d| == 9
  {
    [9, INTERFACE, i.number, 0, 2, i.classCode, i.subclass, i.protocol, i.stringIndex]
  }

  function EndpointDescriptor(i: NativeInterface, address: byte): (d: seq<byte>)
    ensures |d| == 7
  {
    [7, ENDPOINT, address, i.transferType] + Le16(i.maxPacketSize) + [i.interval]
  }

  function InterfaceBytes(i: NativeInterface): seq<byte> {
    InterfaceDescriptor(i) + i.classDescriptors
    + (EndpointDescriptor(i, i.endpointIn) + EndpointDescriptor(i, i.endpointOut))
  }

  function Body(interfaces: seq<NativeInterface>): seq<byte> {
    if |interfaces| == 0 then []
    else Body(interfaces[..|interfaces| - 1]) + InterfaceBytes(interfaces[|interfaces| - 1])
  }

  predicate NativeOk(i: NativeInterface) {
    i.endpointIn >= 0x80 && i.endpointOut < 0x80 && i.maxPacketSize != 0 && i.transferType <= 3
  }

  predicate AllOk(interfaces: seq<NativeInterface>) {
    forall k :: 0 <= k < |interfaces| ==> NativeOk(interfaces[k])
  }

  predicate NoRepeat(sorted: seq<NativeInterface>) {
    forall k :: 0 < k < |sorted| ==> sorted[k - 1].number != sorted[k].number
  }

  function ByNumber(interfaces: seq<NativeInterface>): seq<NativeInterface> {
    SortBy(interfaces, (i: NativeInterface) => i.number)
  }

  function ConfigurationHeader(length: u16, interfaces: byte): seq<byte> {
    [9, 2] + Le16(length) + [interfaces, 1, 0, 0x80, 0x32]
  }

  function ConfigurationOf(interfaces: seq<NativeInterface>): Outcome<seq<byte>> {
    var sorted := ByNumber(interfaces);
    if !(0 < |interfaces| <= 255) || !NoRepeat(sorted) || !AllOk(sorted) || 9 + |Body(sorted)| > 0xFFFF then Err(Invalid)
    else Ok(ConfigurationHeader(9 + |Body(sorted)|, |interfaces|) + Body(sorted))
  }

  function DeviceOf(d: NativeDevice): seq<byte> {
    [18, 1] + Le16(d.usbVersion) + [d.deviceClass, d.deviceSubclass, d.deviceProtocol, d.maxPacketSize0]
    + (Le16(d.vendorId) + Le16(d.productId) + Le16(d.deviceVersion)) + [1, 2, 3, 1]
  }

  /** The personality of a device with these interfaces. */
  function Built(
    speed: UsbSpeed, device: NativeDevice, interfaces: seq<NativeInterface>,
    microsoft: Option<MicrosoftOs10>, webUsb: Option<WebUsb>): Outcome<UsbPersonality>
  {
    var config :- ConfigurationOf(interfaces);
    var manufacturer :- StringDescriptorOf(1, LANGUAGE, device.manufacturer);
    var product :- StringDescriptorOf(2, LANGUAGE, device.product);
    var serial :- StringDescriptorOf(3, LANGUAGE, device.serialNumber);
    var name :- StringDescriptorOf(4, LANGUAGE, device.interfaceName);
    Replies.Finish(
      speed, DeviceOf(device), config, [StringDescriptor(0, 0, [4, 3, 9, 4]), manufacturer, product, serial, name],
      microsoft, webUsb)
  }

  /** `UgspPersonalityBuilder`. */
  class PersonalityBuilder {
    const maxSpeed: UsbSpeed
    var device: NativeDevice
    var interfaces: seq<NativeInterface>
    var microsoftOs1: Option<MicrosoftOs10>
    var webUsb: Option<WebUsb>

    constructor (maxSpeed: UsbSpeed, device: NativeDevice)
      ensures this.maxSpeed == maxSpeed && this.device == device
      ensures interfaces == [] && microsoftOs1 == None && webUsb == None
    {
      this.maxSpeed := maxSpeed;
      this.device := device;
      interfaces := [];
      microsoftOs1 := None;
      webUsb := None;
    }

    method AddInterface(interface: NativeInterface) returns (ok: bool)
      modifies this`interfaces
      ensures ok <==> forall k :: 0 <= k < |old(interfaces)| ==> old(interfaces)[k].number != interface.number
      ensures interfaces == if ok then old(interfaces) + [interface] else old(interfaces)
    {
      if exists k :: 0 <= k < |interfaces| && interfaces[k].number == interface.number {
        return false;
      }
      interfaces := interfaces + [interface];
      return true;
    }

    method Personality() returns (r: Outcome<UsbPersonality>)
      ensures r == Built(maxSpeed, device, interfaces, microsoftOs1, webUsb)
    {
      hide ConfigurationOf, StringDescriptorOf, Replies.Finish;
      var config :- BuildConfiguration(interfaces);
      var bytes := [
        18, 1, 0, 0, device.deviceClass, device.deviceSubclass, device.deviceProtocol, device.maxPacketSize0,
        0, 0, 0, 0, 0, 0, 1, 2, 3, 1];
      bytes := bytes[..2] + Le16(device.usbVersion) + bytes[4..];
      bytes := bytes[..8] + (Le16(device.vendorId) + Le16(device.productId) + Le16(device.deviceVersion)) + bytes[14..];
      assert bytes == DeviceOf(device);
      var manufacturer :- StringDescriptorOf(1, LANGUAGE, device.manufacturer);
      var product :- StringDescriptorOf(2, LANGUAGE, device.product);
      var serial :- StringDescriptorOf(3, LANGUAGE, device.serialNumber);
      var name :- StringDescriptorOf(4, LANGUAGE, device.interfaceName);
      r := Replies.Finish(
        maxSpeed, bytes, config, [StringDescriptor(0, 0, [4, 3, 9, 4]), manufacturer, product, serial, name],
        microsoftOs1, webUsb);
    }
  }

  lemma AsManyByNumber(interfaces: seq<NativeInterface>)
    ensures |ByNumber(interfaces)| == |interfaces|
  {
    assert |multiset(ByNumber(interfaces))| == |multiset(interfaces)|;
  }

  // The configuration part of `personality`.
  method BuildConfiguration(all: seq<NativeInterface>) returns (r: Outcome<seq<byte>>)
    ensures r == ConfigurationOf(all)
  {
    hide ByNumber, InterfaceBytes;
    if |all| == 0 || |all| > 255 {
      return Err(Invalid);
    }
    var interfaces := ByNumber(all);
    AsManyByNumber(all);
    for k := 1 to |interfaces|
      invariant forall j :: 0 < j < k ==> interfaces[j - 1].number != interfaces[j].number
    {
      if interfaces[k - 1].number == interfaces[k].number {
        return Err(Invalid);
      }
    }
    var configuration := [9, 2, 0, 0, |interfaces|, 1, 0, 0x80, 0x32];
    ghost var header := configuration;
    for k := 0 to |interfaces|
      invariant AllOk(interfaces[..k])
      invariant configuration == header + Body(interfaces[..k])
    {
      var interface := interfaces[k];
      if interface.endpointIn < 0x80 || interface.endpointOut >= 0x80
         || interface.maxPacketSize == 0 || interface.transferType > 3 {
        return Err(Invalid);
      }
      assert interfaces[..k + 1][..k] == interfaces[..k];
      configuration := configuration + InterfaceBytes(interface);
    }
    assert interfaces[..|interfaces|] == interfaces;
    if |configuration| > 0xFFFF {
      return Err(Invalid);
    }
    configuration := configuration[..2] + Le16(|configuration|) + configuration[4..];
    assert configuration == ConfigurationHeader(|configuration|, |interfaces|) + Body(interfaces);
    return Ok(configuration);
  }

  // Canonical form.

  lemma SortedStrictly(sorted: seq<NativeInterface>)
    requires Sorted(sorted, (i: NativeInterface) => i.number)
    ensures NoRepeat(sorted) <==> StrictlySorted(sorted, (i: NativeInterface) => i.number)
  {
  }

  /** The configuration does not depend on the order in which the interfaces were added. */
  lemma ConfigurationCanonical(xs: seq<NativeInterface>, ys: seq<NativeInterface>)
    requires multiset(xs) == multiset(ys)
    ensures ConfigurationOf(xs) == ConfigurationOf(ys)
  {
    hide Body, AllOk, SortBy;
    assert |multiset(xs)| == |xs| && |multiset(ys)| == |ys|;
    SameOrder(xs, ys);
  }

  lemma SameOrder(xs: seq<NativeInterface>, ys: seq<NativeInterface>)
    requires multiset(xs) == multiset(ys)
    ensures NoRepeat(ByNumber(xs)) <==> NoRepeat(ByNumber(ys))
    ensures NoRepeat(ByNumber(xs)) ==> ByNumber(xs) == ByNumber(ys)
  {
    hide SortBy, NoRepeat;
    var key := (i: NativeInterface) => i.number;
    var sx, sy := SortBy(xs, key), SortBy(ys, key);
    assert ByNumber(xs) == sx && ByNumber(ys) == sy;
    SortedStrictly(sx);
    SortedStrictly(sy);
    if NoRepeat(sx) {
      SortUnique(sy, sx, key);
    } else if NoRepeat(sy) {
      SortUnique(sx, sy, key);
    }
  }

  /** A text fits a string descriptor exactly when it has at most 126 UTF-16 units. */
  lemma StringFits(index: byte, language: u16, value: Text)
    ensures StringDescriptorOf(index, language, value).Ok? <==> |EncodeUtf16(value)| <= 126
  {
    hide EncodeUtf16, UnitBytes;
  }
}
