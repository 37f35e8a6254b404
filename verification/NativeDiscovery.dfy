/** A natively built personality, as `discover_bundle` sees it. */
module NativeDiscovery {
  import opened Bytes
  import opened Unicode
  import opened Personality
  import opened Records
  import opened Configuration
  import opened Renumbering
  import opened StringProjection
  import opened MicrosoftProjection
  import opened MicrosoftAgreement
  import opened NativeBuilder
  import opened NativeRecovery
  import opened Translator
  import opened Panics
  import opened Acceptance
  import Agreement
  import Layouts
  import Replies

  // The strings.

  /** The text a native device gives a string index. */
  function NameOf(device: NativeDevice, x: byte): Text {
    if x == 1 then device.manufacturer
    else if x == 2 then device.product
    else if x == 3 then device.serialNumber
    else device.interfaceName
  }

  function DescriptorOf(value: Text): seq<byte> {
    var units := UnitBytes(EncodeUtf16(value));
    [(2 + |units|) % 0x100, STRING] + units
  }

  /** The string descriptors of a native personality, by key. */
  function NativeStrings(device: NativeDevice): Descriptors {
    map[(0, 0) := [4, 3, 9, 4],
        (1, LANGUAGE) := DescriptorOf(device.manufacturer),
        (2, LANGUAGE) := DescriptorOf(device.product),
        (3, LANGUAGE) := DescriptorOf(device.serialNumber),
        (4, LANGUAGE) := DescriptorOf(device.interfaceName)]
  }

  predicate NamesShort(device: NativeDevice) {
    forall x: byte :: 1 <= x <= 4 ==> StringDescriptorOf(x, LANGUAGE, NameOf(device, x)).Ok?
  }

  lemma KeyedPush(strings: seq<StringDescriptor>, keyed: Descriptors, s: StringDescriptor)
    requires Keyed(strings) == Some(keyed) && (s.index, s.languageId) !in keyed
    ensures Keyed(strings + [s]) == Some(keyed[(s.index, s.languageId) := s.descriptor])
  {
    assert (strings + [s])[..|strings|] == strings;
  }

  lemma NativeKeyed(a: seq<byte>, b: seq<byte>, c: seq<byte>, d: seq<byte>)
    ensures Keyed([StringDescriptor(0, 0, [4, 3, 9, 4]), StringDescriptor(1, LANGUAGE, a),
                   StringDescriptor(2, LANGUAGE, b),
                   StringDescriptor(3, LANGUAGE, c), StringDescriptor(4, LANGUAGE, d)])
         == Some(map[(0, 0) := [4, 3, 9, 4], (1, LANGUAGE) := a, (2, LANGUAGE) := b, (3, LANGUAGE) := c,
                     (4, LANGUAGE) := d])
  {
    hide Keyed;
    var s0, s1 := StringDescriptor(0, 0, [4, 3, 9, 4]), StringDescriptor(1, LANGUAGE, a);
    var s2, s3 := StringDescriptor(2, LANGUAGE, b), StringDescriptor(3, LANGUAGE, c);
    var s4 := StringDescriptor(4, LANGUAGE, d);
    assert [] + [s0] == [s0] && [s0] + [s1] == [s0, s1] && [s0, s1] + [s2] == [s0, s1, s2];
    assert [s0, s1, s2] + [s3] == [s0, s1, s2, s3] && [s0, s1, s2, s3] + [s4] == [s0, s1, s2, s3, s4];
    NoneKeyed();
    KeyedPush([], map[], s0);
    KeyedPush([s0], map[(0, 0) := s0.descriptor], s1);
    KeyedPush([s0, s1], map[(0, 0) := s0.descriptor, (1, LANGUAGE) := a], s2);
    KeyedPush([s0, s1, s2], map[(0, 0) := s0.descriptor, (1, LANGUAGE) := a, (2, LANGUAGE) := b], s3);
    KeyedPush(
      [s0, s1, s2, s3], map[(0, 0) := s0.descriptor, (1, LANGUAGE) := a, (2, LANGUAGE) := b, (3, LANGUAGE) := c], s4);
  }

  lemma NoneKeyed()
    ensures Keyed([]) == Some(map[])
  {
  }

  lemma NativeString(device: NativeDevice, x: byte)
    requires NamesShort(device)
    ensures UsbString(NativeStrings(device), x, LANGUAGE)
         == if 1 <= x <= 4 then Ok(NameOf(device, x)) else Err(NoString(x))
  {
    hide EncodeUtf16, UnitBytes, DecodeUtf16, UnitsOfBytes;
    if 1 <= x <= 4 {
      StringDescriptorReadsBack(x, LANGUAGE, NameOf(device, x), NativeStrings(device));
    }
  }

  /** A string index that a native interface may name. */
  predicate NameOk(device: NativeDevice, x: byte) {
    x == 0 || (1 <= x <= 4 && 0 !in NameOf(device, x))
  }

  // The strings the interfaces name.

  function Refs(ds: seq<seq<byte>>): set<byte> {
    if |ds| == 0 then {} else Refs(ds[..|ds| - 1]) + {StringRef(ds[|ds| - 1])}
  }

  lemma {:induction false} OrderIsRefs(ds: seq<seq<byte>>)
    ensures forall x :: x in Order(ds) <==> x in Refs(ds) && x != 0
  {
    hide StringRef;
    if |ds| > 0 {
      OrderIsRefs(ds[..|ds| - 1]);
    }
  }

  lemma {:induction false} RefsBoth(xs: seq<seq<byte>>, ys: seq<seq<byte>>)
    ensures Refs(xs + ys) == Refs(xs) + Refs(ys)
  {
    hide StringRef;
    if |ys| == 0 {
      assert xs + ys == xs;
    } else {
      RefsBoth(xs, ys[..|ys| - 1]);
      assert (xs + ys)[..|xs + ys| - 1] == xs + ys[..|ys| - 1];
    }
  }

  lemma {:induction false} RefsPlain(ds: seq<seq<byte>>)
    requires Plain(ds)
    ensures Refs(ds) <= {0}
  {
    if |ds| > 0 {
      RefsPlain(ds[..|ds| - 1]);
    }
  }

  lemma RefsOne(d: seq<byte>)
    ensures Refs([d]) == {StringRef(d)}
  {
    hide StringRef;
    assert [d][..0] == [];
  }

  lemma RefsOfInterface(i: NativeInterface)
    requires ClassOk(i.classDescriptors)
    ensures Refs(RecordsOf(i)) - {0} == {i.stringIndex} - {0}
  {
    hide Refs, Plain;
    var head, plain := InterfaceDescriptor(i), UsbDescriptor.Split(i.classDescriptors).value;
    var first, last := EndpointDescriptor(i, i.endpointIn), EndpointDescriptor(i, i.endpointOut);
    RefsPlain(plain);
    RefsOne(head);
    RefsOne(first);
    RefsOne(last);
    RefsBoth([first], [last]);
    assert [first] + [last] == [first, last];
    RefsBoth([head], plain);
    RefsBoth([head] + plain, [first, last]);
  }

  lemma {:induction false} RefsOfAll(interfaces: seq<NativeInterface>, x: byte)
    requires AllClassOk(interfaces) && x != 0
    ensures x in Refs(AllRecords(interfaces)) <==> exists k :: 0 <= k < |interfaces| && interfaces[k].stringIndex == x
  {
    hide RecordsOf, Refs, ClassOk;
    if |interfaces| == 0 {
      NoRefs();
    } else {
      var n := |interfaces| - 1;
      var front, last := interfaces[..n], interfaces[n];
      RefsOfAll(front, x);
      RefsOfInterface(last);
      RefsBoth(AllRecords(front), RecordsOf(last));
      assert forall k :: 0 <= k < n ==> front[k] == interfaces[k];
      assert x in Refs(RecordsOf(last)) <==> x in Refs(RecordsOf(last)) - {0};
    }
  }

  lemma NoRefs()
    ensures Refs([]) == {}
  {
  }

  predicate AllNamesOk(device: NativeDevice, interfaces: seq<NativeInterface>) {
    forall k :: 0 <= k < |interfaces| ==> NameOk(device, interfaces[k].stringIndex)
  }

  lemma NativePlaceable(device: NativeDevice, x: byte)
    requires NamesShort(device) && x != 0
    ensures Placeable(NativeStrings(device), LANGUAGE, x) <==> NameOk(device, x)
  {
    hide UsbString, EncodeUtf8, NativeStrings;
    NativeString(device, x);
    Utf8Zero(NameOf(device, x));
  }

  lemma NativeTexts(device: NativeDevice, interfaces: seq<NativeInterface>, w: Walked)
    requires NamesShort(device) && AllClassOk(interfaces) && Walk(AllRecords(interfaces)) == Some(w)
    ensures Strings(NativeStrings(device), LANGUAGE, w.found.numbers).Ok? <==> AllNamesOk(device, interfaces)
  {
    hide Walk, AllRecords, Texts, InNumberOrder, Order, Refs, Placeable, NameOk, NativeStrings, NamesShort, BlobOf;
    hide AllClassOk;
    var ds := AllRecords(interfaces);
    WalkNumbers(ds, w);
    var order := Order(ds);
    NumberOrderIsFirstAppearance(w.found.numbers, order);
    TextsPlaced(NativeStrings(device), LANGUAGE, order);
    OrderIsRefs(ds);
    ZeroNameOk(device);
    if AllNamesOk(device, interfaces) {
      forall j | 0 <= j < |order| ensures Placeable(NativeStrings(device), LANGUAGE, order[j]) {
        assert order[j] in order;
        RefsOfAll(interfaces, order[j]);
        NativePlaceable(device, order[j]);
      }
    }
    if forall j :: 0 <= j < |order| ==> Placeable(NativeStrings(device), LANGUAGE, order[j]) {
      forall k | 0 <= k < |interfaces| ensures NameOk(device, interfaces[k].stringIndex) {
        var x := interfaces[k].stringIndex;
        if x != 0 {
          RefsOfAll(interfaces, x);
          assert x in order;
          NativePlaceable(device, x);
        }
      }
    }
  }

  lemma ZeroNameOk(device: NativeDevice)
    ensures NameOk(device, 0)
  {
  }

  // The personality.

  lemma DeviceFields(d: NativeDevice)
    ensures var device := DeviceOf(d);
            && DeviceOk(device)
            && device[14] == 1 && device[15] == 2 && device[16] == 3
            && FromLe16(device, 2) == d.usbVersion
            && FromLe16(device, 8) == d.vendorId
            && FromLe16(device, 10) == d.productId
            && FromLe16(device, 12) == d.deviceVersion
  {
    var device := DeviceOf(d);
    LeRoundTrip(d.usbVersion);
    LeRoundTrip(d.vendorId);
    LeRoundTrip(d.productId);
    LeRoundTrip(d.deviceVersion);
  }

  function NumberSet(interfaces: seq<NativeInterface>): (s: set<byte>)
    ensures forall n :: n in s <==> n in Numbers(interfaces)
  {
    set n | n in Numbers(interfaces)
  }

  /** What `discover_bundle` asks of a native personality. */
  ghost predicate NativeAccepted(
    device: NativeDevice, interfaces: seq<NativeInterface>, microsoft: Option<MicrosoftOs10>, webUsb: Option<WebUsb>)
  {
    var sorted := ByNumber(interfaces);
    var numbers := NumberSet(sorted);
    && AllNamesOk(device, sorted)
    && (microsoft.Some? ==> Projectable(microsoft.value, numbers))
    && (webUsb.Some? ==> WebUsbOk(webUsb.value, device.usbVersion))
    && BlobFits(
         |Body(sorted)|,
         if microsoft.Some? then |Concat(Items(microsoft.value, numbers))| else 0)
  }

  lemma NativeConfiguration(interfaces: seq<NativeInterface>)
    requires ConfigurationOf(interfaces).Ok?
    ensures ConfigurationOk(ConfigurationOf(interfaces).value)
    ensures ConfigurationOf(interfaces).value[9..] == Body(ByNumber(interfaces))
  {
    hide ByNumber, Body;
    var config := ConfigurationOf(interfaces).value;
    LeRoundTrip(|config|);
  }

  lemma NativeCompiled(
    identity: DeviceIdentity, device: NativeDevice, interfaces: seq<NativeInterface>,
    microsoft: Option<MicrosoftOs10>, webUsb: Option<WebUsb>)
    requires ConfigurationOf(interfaces).Ok? && AllClassOk(ByNumber(interfaces)) && NamesShort(device)
    requires identity.bcdUsb == device.usbVersion
    ensures var p := Compiled(
              identity, ConfigurationOf(interfaces).value, NativeStrings(device), LANGUAGE, microsoft, webUsb);
            && (p.Ok? <==> NativeAccepted(device, interfaces, microsoft, webUsb))
            && (p.Ok? ==> p.value.device == identity && p.value.endpoints == EndpointPairs(ByNumber(interfaces)))
  {
    hide Walk, AllRecords, Body, Blob, Strings, NativeStrings, NamesShort, AllNamesOk, Projectable, Items, WebUsbOk;
    hide Framing.Split;
    hide ByNumber, Numbers, NumbersOf, EndpointPairs, BlobFits, AllClassOk, ConfigurationOk, Concat, Framing.AreRecords;
    var config, sorted := ConfigurationOf(interfaces).value, ByNumber(interfaces);
    NativeConfiguration(interfaces);
    NativeConfigurationRecovered(interfaces);
    var w, ds := Project(config[9..]).value, AllRecords(sorted);
    NativeTexts(device, sorted, w);
    WalkRewrites(ds, w);
    RelabelledLength(w.found.numbers, ds);
    UsbDescriptor.SplitExact(config[9..], ds);
    assert w.found.interfaces == NumberSet(sorted);
    if microsoft.Some? ==> Projectable(microsoft.value, w.found.interfaces) {
      var items := Agreement.OsItems(microsoft, w.found.interfaces);
      if |Concat(items)| < 0x1_0000_0000 {
        Agreement.OsItemsAccepted(microsoft, w.found.interfaces);
      }
      BlobExactly(w.found.count, w.body, items);
      NoSections(w.found.interfaces);
    }
  }

  /**
   `discover_bundle` accepts a built personality exactly when its interfaces name strings the builder supplies, without a
   NUL, and its capabilities can be projected; it then presents the device's own numbers and texts, and for each
   interface, by increasing number, the IN and then the OUT endpoint.
   */
  lemma NativePersonalityDiscovered(
    speed: UsbSpeed, device: NativeDevice, interfaces: seq<NativeInterface>,
    microsoft: Option<MicrosoftOs10>, webUsb: Option<WebUsb>)
    requires Built(speed, device, interfaces, microsoft, webUsb).Ok? && AllClassOk(ByNumber(interfaces))
    ensures var p := Discovered(Built(speed, device, interfaces, microsoft, webUsb).value);
            && (p.Ok? <==> NativeAccepted(device, interfaces, microsoft, webUsb))
            && (p.Ok? ==>
                  && p.value.maxSpeed == speed
                  && p.value.device == DeviceIdentity(
                       device.vendorId, device.productId, device.usbVersion, device.deviceVersion, device.deviceClass,
                       device.deviceSubclass, device.deviceProtocol,
                       Some(device.manufacturer), Some(device.product), Some(device.serialNumber))
                  && p.value.endpoints == EndpointPairs(ByNumber(interfaces)))
  {
    hide Compiled, Keyed, NativeAccepted, EndpointPairs, ByNumber, AllClassOk, ConfigurationOf, UsbString, FromLe16;
    hide UnitBytes;
    hide EncodeUtf16, DeviceOf, DeviceOk;
    var bundle := Built(speed, device, interfaces, microsoft, webUsb).value;
    DeviceFields(device);
    NativeBundle(speed, device, interfaces, microsoft, webUsb);
    NativeString(device, 1);
    NativeString(device, 2);
    NativeString(device, 3);
    var strings := NativeStrings(device);
    NativeLanguage(device);
    var identity := IdentityOf(bundle.deviceDescriptor, strings, LANGUAGE).value;
    NativeIdentity(device);
    NativeCompiled(identity, device, interfaces, microsoft, webUsb);
  }

  lemma NativeLanguage(device: NativeDevice)
    ensures LanguageId(NativeStrings(device)) == Ok(LANGUAGE)
  {
    hide UnitBytes, EncodeUtf16;
  }

  lemma NativeIdentity(device: NativeDevice)
    requires NamesShort(device)
    ensures |DeviceOf(device)| == 18
    ensures IdentityOf(DeviceOf(device), NativeStrings(device), LANGUAGE)
         == Ok(DeviceIdentity(
                 device.vendorId, device.productId, device.usbVersion, device.deviceVersion, device.deviceClass,
                 device.deviceSubclass, device.deviceProtocol,
                 Some(device.manufacturer), Some(device.product), Some(device.serialNumber)))
  {
    hide UsbString, NativeStrings, FromLe16, NamesShort;
    DeviceFields(device);
    NativeString(device, 1);
    NativeString(device, 2);
    NativeString(device, 3);
  }

  lemma NativeBundle(
    speed: UsbSpeed, device: NativeDevice, interfaces: seq<NativeInterface>,
    microsoft: Option<MicrosoftOs10>, webUsb: Option<WebUsb>)
    requires Built(speed, device, interfaces, microsoft, webUsb).Ok?
    ensures NamesShort(device) && ConfigurationOf(interfaces).Ok?
    ensures var p := Built(speed, device, interfaces, microsoft, webUsb).value;
            && p.schema == SCHEMA && p.maxSpeed == speed
            && p.deviceDescriptor == DeviceOf(device)
            && p.configurationDescriptor == ConfigurationOf(interfaces).value
            && |p.strings| == 5
            && Keyed(p.strings) == Some(NativeStrings(device))
            && p.microsoftOs1 == microsoft && p.webUsb == webUsb
  {
    hide ConfigurationOf, DeviceOf, UnitBytes, EncodeUtf16, Keyed, FromLe16;
    NativeKeyed(
      DescriptorOf(device.manufacturer), DescriptorOf(device.product), DescriptorOf(device.serialNumber),
      DescriptorOf(device.interfaceName));
  }
}
