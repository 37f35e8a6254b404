/** Exactly when the translator and discovery panic. */
module Panics {
  import opened Bytes
  import opened Unicode
  import opened Personality
  import opened Records
  import opened Configuration
  import opened Renumbering
  import opened StringProjection
  import opened MicrosoftProjection
  import opened Translator
  import opened Replies
  import Discovery
  import MicrosoftSurvival
  import StringTables

  // One string.

  predicate HollowAt(strings: Descriptors, language: u16, index: byte) {
    (index, language) in strings && Hollow(strings[(index, language)])
  }

  /** A device string index that names nothing, or a string that can be read. */
  predicate Readable(strings: Descriptors, language: u16, index: byte) {
    index == 0 || UsbString(strings, index, language).Ok?
  }

  /** An interface string that can be placed in the blob: it can be read, and holds no NUL. */
  predicate Placeable(strings: Descriptors, language: u16, index: byte) {
    UsbString(strings, index, language).Ok? && 0 !in EncodeUtf8(UsbString(strings, index, language).value)
  }

  // The strings of the interfaces.

  /** A hollow descriptor is looked up, after strings that can all be placed. */
  ghost predicate HollowReached(strings: Descriptors, language: u16, order: seq<byte>) {
    exists k :: 0 <= k < |order| && HollowAt(strings, language, order[k])
                && forall j :: 0 <= j < k ==> Placeable(strings, language, order[j])
  }

  lemma {:induction false} TextsPlaced(strings: Descriptors, language: u16, order: seq<byte>)
    ensures Texts(strings, language, order).Ok?
       <==> forall j :: 0 <= j < |order| ==> Placeable(strings, language, order[j])
    ensures Texts(strings, language, order).Panic? <==> HollowReached(strings, language, order)
  {
    hide UsbString, EncodeUtf8, Hollow;
    if |order| > 0 {
      var n := |order| - 1;
      var front := order[..n];
      TextsPlaced(strings, language, front);
      StringPanicsExactly(strings, order[n], language);
      assert forall j :: 0 <= j < n ==> front[j] == order[j];
      if HollowReached(strings, language, front) {
        var k :| 0 <= k < n && HollowAt(strings, language, front[k])
          && forall j :: 0 <= j < k ==> Placeable(strings, language, front[j]);
        assert HollowAt(strings, language, order[k]);
      }
      if HollowReached(strings, language, order) {
        var k :| 0 <= k <= n && HollowAt(strings, language, order[k])
          && forall j :: 0 <= j < k ==> Placeable(strings, language, order[j]);
        if k < n {
          assert HollowAt(strings, language, front[k]);
        }
      }
    }
  }

  lemma InterfaceStringsPanic(strings: Descriptors, language: u16, ds: seq<seq<byte>>, w: Walked)
    requires Walk(ds) == Some(w)
    ensures Strings(strings, language, w.found.numbers).Panic? <==> HollowReached(strings, language, Order(ds))
  {
    hide Texts, InNumberOrder, Walk, Order, HollowReached, BlobOf;
    WalkNumbers(ds, w);
    NumberOrderIsFirstAppearance(w.found.numbers, Order(ds));
    TextsPlaced(strings, language, Order(ds));
  }

  // The strings of the device.

  /** The first unreadable one of the manufacturer, product and serial strings is hollow. */
  predicate DeviceStringHollow(strings: Descriptors, language: u16, device: seq<byte>)
    requires |device| == 18
  {
    exists i :: 14 <= i < 17 && device[i] != 0 && HollowAt(strings, language, device[i])
                && forall j :: 14 <= j < i ==> Readable(strings, language, device[j])
  }

  predicate DeviceStringsReadable(strings: Descriptors, language: u16, device: seq<byte>)
    requires |device| == 18
  {
    forall i :: 14 <= i < 17 ==> Readable(strings, language, device[i])
  }

  lemma IdentityPanics(strings: Descriptors, language: u16, device: seq<byte>)
    requires |device| == 18
    ensures IdentityOf(device, strings, language).Panic? <==> DeviceStringHollow(strings, language, device)
    ensures IdentityOf(device, strings, language).Ok? <==> DeviceStringsReadable(strings, language, device)
  {
    hide UsbString, Hollow, FromLe16;
    StringPanicsExactly(strings, device[14], language);
    StringPanicsExactly(strings, device[15], language);
    StringPanicsExactly(strings, device[16], language);
  }

  // The bundle.

  /** The configuration and its walk are in order, and the walk's strings meet a hollow descriptor. */
  ghost predicate InterfaceStringHollow(strings: Descriptors, language: u16, config: seq<byte>) {
    && ConfigurationOk(config)
    && Project(config[9..]).Ok?
    && HollowReached(strings, language, Order(UsbDescriptor.Split(config[9..]).value))
  }

  lemma CompiledPanics(
    identity: DeviceIdentity, config: seq<byte>, strings: Descriptors, language: u16,
    microsoft: Option<MicrosoftOs10>, webUsb: Option<WebUsb>)
    ensures Compiled(identity, config, strings, language, microsoft, webUsb).Panic?
       <==> InterfaceStringHollow(strings, language, config)
  {
    hide Strings, Blob, ProjectedMicrosoft, Walk, Framing.Split, HollowReached, Order, FromLe16;
    OthersReturn();
    if ConfigurationOk(config) && Project(config[9..]).Ok? {
      InterfaceStringsPanic(
        strings, language, UsbDescriptor.Split(config[9..]).value, Project(config[9..]).value);
    }
  }

  lemma OthersReturn()
    ensures forall count, body, os :: !Blob(count, body, os).Panic?
    ensures forall declaration, interfaces :: !ProjectedMicrosoft(declaration, interfaces).Panic?
    ensures forall declaration, bcdUsb :: !ProjectWebUsb(declaration, bcdUsb).Panic?
  {
  }

  /** Everything before the first string lookup is in order. */
  predicate Admissible(bundle: UsbPersonality) {
    && bundle.schema == SCHEMA
    && |bundle.strings| <= MAX_STRING_DESCRIPTORS
    && Keyed(bundle.strings).Some?
    && DeviceOk(bundle.deviceDescriptor)
    && LanguageId(Keyed(bundle.strings).value).Ok?
  }

  /**
   `discover_bundle` panics exactly when it gets as far as a hollow string descriptor: the first unreadable device string
   is hollow, or the device strings can be read, the configuration is walked, and a hollow descriptor follows interface
   strings that can all be placed.
   */
  lemma DiscoverBundlePanicsExactly(bundle: UsbPersonality)
    ensures Discovered(bundle).Panic? <==>
              && Admissible(bundle)
              && var strings := Keyed(bundle.strings).value;
                 var device, language := bundle.deviceDescriptor, LanguageId(strings).value;
                 (|| DeviceStringHollow(strings, language, device)
                  || (&& DeviceStringsReadable(strings, language, device)
                      && InterfaceStringHollow(strings, language, bundle.configurationDescriptor)))
  {
    hide Keyed, LanguageId, IdentityOf, Compiled, DeviceStringHollow, DeviceStringsReadable, InterfaceStringHollow;
    if Admissible(bundle) {
      var strings := Keyed(bundle.strings).value;
      var language := LanguageId(strings).value;
      var identity := IdentityOf(bundle.deviceDescriptor, strings, language);
      IdentityPanics(strings, language, bundle.deviceDescriptor);
      if identity.Ok? {
        CompiledPanics(
          identity.value, bundle.configurationDescriptor, strings, language, bundle.microsoftOs1, bundle.webUsb);
      }
    } else {
      LanguageReturns();
    }
  }

  lemma LanguageReturns()
    ensures forall strings :: !LanguageId(strings).Panic?
  {
  }

  lemma {:induction false} KeyedFrom(strings: seq<StringDescriptor>)
    requires Keyed(strings).Some?
    ensures forall key :: key in Keyed(strings).value ==>
              exists i :: 0 <= i < |strings| && strings[i].descriptor == Keyed(strings).value[key]
  {
    if |strings| > 0 {
      var front := strings[..|strings| - 1];
      KeyedFrom(front);
      forall key | key in Keyed(strings).value
        ensures exists i :: 0 <= i < |strings| && strings[i].descriptor == Keyed(strings).value[key]
      {
        if key in Keyed(front).value && Keyed(front).value[key] == Keyed(strings).value[key] {
          var i :| 0 <= i < |front| && front[i].descriptor == Keyed(front).value[key];
          assert strings[i] == front[i];
        } else {
          assert strings[|strings| - 1].descriptor == Keyed(strings).value[key];
        }
      }
    }
  }

  /** In particular `discover_bundle` returns when no string descriptor is hollow. */
  lemma PanicsOnlyOnHollowString(bundle: UsbPersonality)
    requires forall i :: 0 <= i < |bundle.strings| ==> !Hollow(bundle.strings[i].descriptor)
    ensures !Discovered(bundle).Panic?
  {
    hide Discovered, Keyed, Hollow, LanguageId, Project, Order;
    DiscoverBundlePanicsExactly(bundle);
    if Keyed(bundle.strings).Some? {
      KeyedFrom(bundle.strings);
    }
  }

  // Discovery.

  /** The unwrapping of an ASCII identifier never fails. */
  lemma IdentifierReturns(b: seq<byte>)
    ensures !UsbIdentifier(b).Panic?
  {
    var id := b[..StringTables.NulAt(b)];
    if forall i :: 0 <= i < |id| ==> id[i] < 0x80 {
      MicrosoftSurvival.AsciiDecodes(id);
    }
  }

  lemma {:induction false} SectionsReturn(reply: seq<byte>, n: nat, interfaces: set<byte>)
    requires 16 + n * 24 <= |reply|
    ensures !Sections(reply, n, interfaces).Panic?
  {
    hide UsbIdentifier;
    if n > 0 {
      SectionsReturn(reply, n - 1, interfaces);
      var s := reply[16 + (n - 1) * 24..16 + n * 24];
      IdentifierReturns(s[2..10]);
      IdentifierReturns(s[10..18]);
    }
  }

  lemma {:induction false} ReadPropertiesReturn(interface: byte, b: seq<byte>, n: nat)
    ensures !ReadProperties(interface, b, n).Panic?
    decreases n
  {
    hide FromLe32, FromLe16, Utf16LeString;
    NameReturns();
    if n > 0 && ReadProperty(interface, b).Ok? {
      ReadPropertiesReturn(interface, b[FromLe32(b, 0)..], n - 1);
    }
  }

  lemma NameReturns()
    ensures forall b :: !Utf16LeString(b).Panic?
  {
  }

  lemma {:induction false} PropertiesReturn(script: Script, at: nat, order: seq<byte>)
    ensures !PropertiesFrom(script, at, order).Panic?
  {
    hide ReadProperties, FromLe32, FromLe16;
    if |order| > 0 {
      PropertiesReturn(script, at, order[..|order| - 1]);
      var reply := script(at + |order| - 1);
      if reply.Answer? && |reply.bytes| >= 10 {
        ReadPropertiesReturn(order[|order| - 1], reply.bytes[10..], FromLe16(reply.bytes, 8));
      }
    }
  }

  lemma MicrosoftReturns(script: Script, at: nat, interfaces: set<byte>)
    ensures !MicrosoftFrom(script, at, interfaces).Panic?
  {
    hide Sections, PropertiesFrom, OsStringOk, FromLe32, Ascending;
    var reply := script(at + 1);
    if reply.Answer? && |reply.bytes| >= 16 && 16 + reply.bytes[8] as int * 24 <= |reply.bytes| {
      SectionsReturn(reply.bytes, reply.bytes[8], interfaces);
    }
    PropertiesReturn(script, at + 2, Ascending(interfaces));
  }

  /** A URL reply of a known scheme whose length byte is below three. */
  predicate HollowUrl(b: seq<byte>) {
    |b| >= 3 && b[0] < 3 && b[1] == 3 && b[2] in {0, 1, 255}
  }

  /** Reading a URL reply panics exactly when it is hollow. */
  lemma UrlPanicsExactly(b: seq<byte>)
    ensures WebUsbUrl(b).Panic? <==> HollowUrl(b)
  {
    hide DecodeUtf8;
  }

  /** The URL is asked for, as request `at + 3`: a capability names a landing page, and the device was configured. */
  predicate AsksForUrl(script: Script, at: nat, bcdUsb: u16) {
    var capability := CapabilityFrom(script, at, bcdUsb);
    capability.Some? && |capability.value| >= 24 && capability.value[23] != 0 && script(at + 2).Answer?
  }

  lemma WebUsbPanics(script: Script, at: nat, bcdUsb: u16)
    ensures WebUsbFrom(script, at, bcdUsb).Panic?
       <==> AsksForUrl(script, at, bcdUsb) && script(at + 3).Answer? && HollowUrl(script(at + 3).bytes)
  {
    hide WebUsbUrl, FromLe16, HollowUrl, IsWebUsb;
    if script(at + 3).Answer? {
      UrlPanicsExactly(script(at + 3).bytes);
    }
    FindReturns();
  }

  lemma FindReturns()
    ensures forall b :: !FindWebUsb(b).Panic?
  {
    forall b: seq<byte> ensures !FindWebUsb(b).Panic? {
      FindReturnsFor(b);
    }
  }

  lemma {:induction false} FindReturnsFor(b: seq<byte>)
    ensures !FindWebUsb(b).Panic?
  {
    hide IsWebUsb;
    if |b| > 0 && 3 <= b[0] <= |b| {
      FindReturnsFor(b[b[0]..]);
    }
  }

  /** What discovery has read when it turns to WebUSB: the request it is at, and the device's USB version. */
  datatype Stage = Stage(at: nat, bcdUsb: u16)

  /** Discovery gets as far as WebUSB: every descriptor, string and Microsoft answer before it is in order. */
  function WebUsbStage(script: Script): Option<Stage> {
    if !script(0).Answer? || !DeviceOk(script(0).bytes) || !script(1).Answer? || !LanguagesOk(script(1).bytes) then None
    else
      var device, languages, config := script(0).bytes, script(1).bytes, ConfigurationFrom(script, 2);
      if !config.Ok? then None
      else
        var ds := UsbDescriptor.Split(config.value[9..]);
        if ds.None? || Surveyed(ds.value, device, config.value[..9]).None? then None
        else StageAfter(script, device, languages, Surveyed(ds.value, device, config.value[..9]).value)
  }

  function StageAfter(script: Script, device: seq<byte>, languages: seq<byte>, survey: Survey): Option<Stage>
    requires |device| == 18 && LanguagesOk(languages)
  {
    var wanted := Wanted(languages, survey);
    var found := MicrosoftFrom(script, 4 + |wanted|, survey.interfaces);
    if !StringsFrom(script, 4, wanted).Ok? || !found.Ok? then None
    else Some(Stage(4 + |wanted| + MicrosoftRequests(found.value, survey.interfaces), FromLe16(device, 2)))
  }

  lemma CompletedPanics(
    speed: UsbSpeed, script: Script, device: seq<byte>, languages: seq<byte>, config: seq<byte>, survey: Survey)
    requires |device| == 18 && LanguagesOk(languages)
    ensures Completed(speed, script, device, languages, config, survey).Panic? <==>
              && StageAfter(script, device, languages, survey).Some?
              && var stage := StageAfter(script, device, languages, survey).value;
                 WebUsbFrom(script, stage.at, stage.bcdUsb).Panic?
  {
    hide StringsFrom, MicrosoftFrom, WebUsbFrom, Wanted, FromLe16, Finish, MicrosoftRequests, LanguagesOk;
    var wanted := Wanted(languages, survey);
    Discovery.StringFault(script, 4, wanted);
    MicrosoftReturns(script, 4 + |wanted|, survey.interfaces);
    FinishReturns();
  }

  lemma FinishReturns()
    ensures forall speed, device, config, strings, microsoft, webUsb ::
              !Finish(speed, device, config, strings, microsoft, webUsb).Panic?
  {
  }

  /**
   Discovery panics exactly when it gets as far as asking for a WebUSB URL and the answer is of a known scheme with a
   length byte below three.
   */
  lemma DiscoveryPanicsExactly(speed: UsbSpeed, script: Script)
    ensures DiscoveryOf(speed, script).Panic? <==>
              && WebUsbStage(script).Some?
              && var stage := WebUsbStage(script).value;
                 && AsksForUrl(script, stage.at, stage.bcdUsb)
                 && script(stage.at + 3).Answer?
                 && HollowUrl(script(stage.at + 3).bytes)
  {
    hide Completed, StageAfter, AsksForUrl, HollowUrl, WebUsbFrom, Surveyed, Framing.Split, HeaderOk, FromLe16;
    hide LanguagesOk;
    if script(0).Answer? && DeviceOk(script(0).bytes) && script(1).Answer? && LanguagesOk(script(1).bytes) {
      var config := ConfigurationFrom(script, 2);
      if config.Ok? {
        var ds := UsbDescriptor.Split(config.value[9..]);
        if ds.Some? && Surveyed(ds.value, script(0).bytes, config.value[..9]).Some? {
          var survey := Surveyed(ds.value, script(0).bytes, config.value[..9]).value;
          CompletedPanics(speed, script, script(0).bytes, script(1).bytes, config.value, survey);
        }
      }
    }
    if WebUsbStage(script).Some? {
      WebUsbPanics(script, WebUsbStage(script).value.at, WebUsbStage(script).value.bcdUsb);
    }
  }
}
