/** Exactly which personalities `discover_bundle` accepts. */
module Acceptance {
  import opened Bytes
  import opened Unicode
  import opened Personality
  import opened Records
  import opened Configuration
  import opened Renumbering
  import opened StringProjection
  import opened MicrosoftProjection
  import opened MicrosoftAgreement
  import opened Translator
  import opened Panics
  import Agreement
  import Layouts

  // The blob.

  lemma {:induction false} RelabelledLength(numbers: map<byte, byte>, ds: seq<seq<byte>>)
    ensures |Concat(RelabelledAll(numbers, ds))| == |Concat(ds)|
  {
    hide Concat, Relabelled;
    if |ds| > 0 {
      var front, d := ds[..|ds| - 1], ds[|ds| - 1];
      RelabelledLength(numbers, front);
      ConcatPush(front, d);
      ConcatPush(RelabelledAll(numbers, front), Relabelled(numbers, d));
      assert front + [d] == ds;
    } else {
      assert RelabelledAll(numbers, ds) == ds;
    }
  }

  /** Header, counts, configuration and feature descriptors fit a 32-bit length. */
  predicate BlobFits(body: nat, os: nat) {
    16 + (if os == 0 then 0 else 4) + body + os < 0x1_0000_0000
  }

  lemma BlobExactly(count: nat, body: seq<byte>, items: seq<seq<byte>>)
    requires |Concat(items)| < 0x1_0000_0000 ==> OsDescriptor.AreRecords(items)
    ensures Blob(count, body, Concat(items)).Ok? <==> BlobFits(|body|, |Concat(items)|)
  {
    hide Concat, Framing.Split, Layouts.Start;
    var os := Concat(items);
    if BlobFits(|body|, |os|) {
      OsDescriptor.SplitExact(os, items);
    }
  }

  // The strings.

  predicate DistinctKeys(strings: seq<StringDescriptor>) {
    forall i, j :: 0 <= i < j < |strings| ==>
      strings[i].index != strings[j].index || strings[i].languageId != strings[j].languageId
  }

  predicate HasKey(strings: seq<StringDescriptor>, key: (byte, u16)) {
    exists i :: 0 <= i < |strings| && strings[i].index == key.0 && strings[i].languageId == key.1
  }

  lemma {:induction false} KeyedExactly(strings: seq<StringDescriptor>)
    ensures Keyed(strings).Some? <==> DistinctKeys(strings)
    ensures Keyed(strings).Some? ==> forall key :: key in Keyed(strings).value <==> HasKey(strings, key)
  {
    if |strings| > 0 {
      var n := |strings| - 1;
      var front, s := strings[..n], strings[n];
      KeyedExactly(front);
      assert forall i :: 0 <= i < n ==> front[i] == strings[i];
      assert DistinctKeys(strings) <==> DistinctKeys(front) && !HasKey(front, (s.index, s.languageId));
      if DistinctKeys(strings) {
        forall key ensures HasKey(strings, key) <==> HasKey(front, key) || key == (s.index, s.languageId) {
          if HasKey(front, key) {
            var i :| 0 <= i < n && front[i].index == key.0 && front[i].languageId == key.1;
            assert strings[i].index == key.0;
          }
          if key == (s.index, s.languageId) {
            assert strings[n].index == key.0;
          }
        }
      }
    }
  }

  /** The first language of a language table, which is a string descriptor with at least one. */
  predicate Speaks(strings: Descriptors, language: u16) {
    && (0, 0) in strings
    && var d := strings[(0, 0)];
       && |d| >= 4 && d[1] == 3 && d[0] <= |d|
       && language == d[2] as nat + 256 * d[3] as nat
  }

  lemma LanguageExactly(strings: Descriptors, language: u16)
    ensures LanguageId(strings) == Ok(language) <==> Speaks(strings, language)
  {
  }

  /** A string is read exactly when its descriptor holds the UTF-16 of the text in the bytes that its length covers. */
  lemma StringExactly(strings: Descriptors, index: byte, language: u16, t: Text)
    ensures UsbString(strings, index, language) == Ok(t) <==>
              && (index, language) in strings
              && var d := strings[(index, language)];
                 && |d| >= 2 && d[1] == 3 && 2 <= d[0] <= |d| && d[0] % 2 == 0
                 && d[2..d[0]] == UnitBytes(EncodeUtf16(t))
  {
    hide DecodeUtf16, EncodeUtf16, UnitBytes, UnitsOfBytes;
    if (index, language) in strings {
      var d := strings[(index, language)];
      if |d| >= 2 && 2 <= d[0] <= |d| && d[0] % 2 == 0 {
        var b := d[2..d[0]];
        UnitBytesExact(b);
        UnitBytesRoundTrip(EncodeUtf16(t));
        Utf16RoundTrip(t);
        Utf16Exact(UnitsOfBytes(b));
      }
    }
  }

  // The whole.

  /** Schema, strings, device and language. */
  ghost predicate Presents(bundle: UsbPersonality, language: u16) {
    && bundle.schema == 1 && |bundle.strings| <= 256 && DistinctKeys(bundle.strings)
    && Keyed(bundle.strings).Some? && Speaks(Keyed(bundle.strings).value, language)
    && var device := bundle.deviceDescriptor;
       && |device| == 18 && device[0] == 18 && device[1] == 1 && device[17] == 1
       && DeviceStringsReadable(Keyed(bundle.strings).value, language, device)
  }

  /** The header of the configuration: its own length, and configuration value 1. */
  predicate ConfigurationHeaded(config: seq<byte>) {
    && |config| >= 9 && config[0] == 9 && config[1] == 2
    && config[2] as nat + 256 * config[3] as nat == |config| && config[5] == 1
  }

  /** What the descriptors of the configuration must satisfy, and the capabilities with them. */
  ghost predicate Fit(
    strings: Descriptors, language: u16, bcdUsb: u16, ds: seq<seq<byte>>, microsoft: Option<MicrosoftOs10>,
    webUsb: Option<WebUsb>)
  {
    && NoneShort(ds) && Numberable(ds)
    && (forall j :: 0 <= j < |Order(ds)| ==> Placeable(strings, language, Order(ds)[j]))
    && (webUsb.Some? ==> WebUsbOk(webUsb.value, bcdUsb))
    && (microsoft.Some? ==> Projectable(microsoft.value, InterfacesOf(ds)))
    && BlobFits(|Concat(ds)|, |Concat(Agreement.OsItems(microsoft, InterfacesOf(ds)))|)
  }

  /** The same, for a personality in order so far. */
  ghost predicate BundleFit(bundle: UsbPersonality, language: u16, ds: seq<seq<byte>>)
    requires Presents(bundle, language)
  {
    Fit(
      Keyed(bundle.strings).value, language, bundle.deviceDescriptor[2] as int + 256 * bundle.deviceDescriptor[3] as int,
      ds, bundle.microsoftOs1, bundle.webUsb)
  }

  /** The personality is in order, and so are the only descriptors that tile its configuration. */
  ghost predicate Accepted(bundle: UsbPersonality) {
    exists language, ds ::
      && Presents(bundle, language)
      && ConfigurationHeaded(bundle.configurationDescriptor)
      && UsbDescriptor.AreRecords(ds) && Concat(ds) == bundle.configurationDescriptor[9..]
      && BundleFit(bundle, language, ds)
  }

  lemma CompiledExactly(
    identity: DeviceIdentity, config: seq<byte>, strings: Descriptors, language: u16,
    microsoft: Option<MicrosoftOs10>, webUsb: Option<WebUsb>, ds: seq<seq<byte>>)
    requires ConfigurationOk(config) && UsbDescriptor.Split(config[9..]) == Some(ds)
    ensures Compiled(identity, config, strings, language, microsoft, webUsb).Ok?
       <==> Fit(strings, language, identity.bcdUsb, ds, microsoft, webUsb)
  {
    hide Walk, Blob, Framing.Split, Projectable, Items, WebUsbOk, BlobFits, Concat, Framing.AreRecords, NoneShort;
    hide Numberable, FromLe16, Order, InterfacesOf, EndpointsOf, Texts, Placeable, InNumberOrder, RelabelledAll, BlobOf;
    WalkAccepts(ds);
    if Walk(ds).Some? {
      var w := Walk(ds).value;
      WalkGathers(ds, w);
      WalkRewrites(ds, w);
      WalkNumbers(ds, w);
      NumberOrderIsFirstAppearance(w.found.numbers, Order(ds));
      TextsPlaced(strings, language, Order(ds));
      RelabelledLength(w.found.numbers, ds);
      if microsoft.Some? ==> Projectable(microsoft.value, InterfacesOf(ds)) {
        var items := Agreement.OsItems(microsoft, InterfacesOf(ds));
        if |Concat(items)| < 0x1_0000_0000 {
          Agreement.OsItemsAccepted(microsoft, InterfacesOf(ds));
        }
        BlobExactly(w.found.count, w.body, items);
        NoSections(InterfacesOf(ds));
        assert ProjectedMicrosoft(microsoft, w.found.interfaces).Ok?;
        assert ProjectedMicrosoft(microsoft, w.found.interfaces).value.1 == Concat(items);
        assert Strings(strings, language, w.found.numbers).Ok? <==> Texts(strings, language, Order(ds)).Ok?;
      }
    }
  }

  /**
   `discover_bundle` accepts exactly the personalities that are in order: schema 1, at most 256 strings with distinct
   keys, a language, a device descriptor whose strings can be read, a configuration that states its own length and that
   acceptable descriptors tile, strings for all its interfaces, projectable capabilities, and a blob that fits.
   */
  lemma DiscoveredExactly(bundle: UsbPersonality)
    ensures Discovered(bundle).Ok? <==> Accepted(bundle)
  {
    hide Compiled, Keyed, LanguageId, IdentityOf, Presents, BundleFit, Concat, Framing.AreRecords, Framing.Split;
    if Discovered(bundle).Ok? {
      AcceptedWhenDiscovered(bundle);
    }
    if Accepted(bundle) {
      var language, ds :|
        && Presents(bundle, language)
        && ConfigurationHeaded(bundle.configurationDescriptor)
        && UsbDescriptor.AreRecords(ds) && Concat(ds) == bundle.configurationDescriptor[9..]
        && BundleFit(bundle, language, ds);
      DiscoveredWhenAccepted(bundle, language, ds);
    }
  }

  lemma AcceptedWhenDiscovered(bundle: UsbPersonality)
    requires Discovered(bundle).Ok?
    ensures Accepted(bundle)
  {
    hide Compiled, Keyed, LanguageId, UsbString, Concat, Framing.AreRecords, Framing.Split, Speaks, DistinctKeys;
    hide DeviceStringsReadable, Fit;
    var device, config := bundle.deviceDescriptor, bundle.configurationDescriptor;
    var strings := Keyed(bundle.strings).value;
    var language := LanguageId(strings).value;
    KeyedExactly(bundle.strings);
    LanguageExactly(strings, language);
    IdentityPanics(strings, language, device);
    var identity := IdentityOf(device, strings, language).value;
    Tiled(identity, config, strings, language, bundle.microsoftOs1, bundle.webUsb);
    var ds := UsbDescriptor.Split(config[9..]).value;
    CompiledExactly(identity, config, strings, language, bundle.microsoftOs1, bundle.webUsb, ds);
    UsbDescriptor.SplitExact(config[9..], ds);
    assert Presents(bundle, language) && ConfigurationHeaded(config) && BundleFit(bundle, language, ds);
  }

  lemma Tiled(
    identity: DeviceIdentity, config: seq<byte>, strings: Descriptors, language: u16,
    microsoft: Option<MicrosoftOs10>, webUsb: Option<WebUsb>)
    requires Compiled(identity, config, strings, language, microsoft, webUsb).Ok?
    ensures ConfigurationOk(config) && UsbDescriptor.Split(config[9..]).Some?
  {
    hide Walk, Strings, Blob, ProjectedMicrosoft, Framing.Split;
  }

  lemma DiscoveredWhenAccepted(bundle: UsbPersonality, language: u16, ds: seq<seq<byte>>)
    requires Presents(bundle, language) && ConfigurationHeaded(bundle.configurationDescriptor)
    requires UsbDescriptor.AreRecords(ds) && Concat(ds) == bundle.configurationDescriptor[9..]
    requires BundleFit(bundle, language, ds)
    ensures Discovered(bundle).Ok?
  {
    hide Compiled, Keyed, LanguageId, UsbString, Concat, Framing.AreRecords, Framing.Split, Speaks, DistinctKeys;
    hide DeviceStringsReadable, Fit;
    var device, config := bundle.deviceDescriptor, bundle.configurationDescriptor;
    var strings := Keyed(bundle.strings).value;
    LanguageExactly(strings, language);
    IdentityPanics(strings, language, device);
    var identity := IdentityOf(device, strings, language).value;
    UsbDescriptor.SplitExact(config[9..], ds);
    CompiledExactly(identity, config, strings, language, bundle.microsoftOs1, bundle.webUsb, ds);
  }
}
