/**
 What `discover_bundle` accepts, and what it emits, told by the bytes and numbers themselves: the headers that the kernel
 reads and the attributes that the host sees.
 */
module Emission {
  import opened Bytes
  import opened Unicode
  import opened Personality
  import opened Records
  import opened Configuration
  import opened Renumbering
  import opened StringProjection
  import opened Layouts
  import opened MicrosoftProjection
  import opened Translator
  import opened Panics
  import Agreement
  import MicrosoftAgreement
  import FunctionFs
  import OsDescriptors
  import StringTables

  // Little-endian fields, spelled out.

  predicate Field32(b: seq<byte>, at: nat, n: nat) {
    && at + 4 <= |b|
    && n == b[at] as nat + 256 * b[at + 1] as nat + 65536 * b[at + 2] as nat + 16777216 * b[at + 3] as nat
  }

  lemma Le32Field(n: u32, b: seq<byte>, at: nat)
    requires at + 4 <= |b| && b[at..at + 4] == Le32(n)
    ensures Field32(b, at, n)
  {
    LeRoundTrip(n);
    FieldsOfSuffix(b, at, 4);
  }

  lemma SmallField(b: seq<byte>, at: nat, n: nat)
    requires Field32(b, at, n) && n < 256
    ensures b[at] == n && b[at + 1] == b[at + 2] == b[at + 3] == 0
  {
  }

  // The descriptor blob.

  /** Some feature descriptor is emitted. */
  predicate Emits(microsoft: Option<MicrosoftOs10>) {
    microsoft.Some? && (|microsoft.value.compatibleIds| > 0 || |microsoft.value.registryProperties| > 0)
  }

  lemma NamedSomeone(ps: seq<RegistryProperty>)
    ensures |Ascending(Named(ps))| == 0 <==> |ps| == 0
  {
    hide Ascending;
    NoMembers(Ascending(Named(ps)));
    if |ps| > 0 {
      assert ps[|ps| - 1].interface in Ascending(Named(ps));
    }
  }

  lemma NoMembers(xs: seq<byte>)
    ensures (forall x: byte :: x !in xs) ==> |xs| == 0
  {
    if |xs| > 0 {
      assert xs[0] in xs;
    }
  }

  lemma EmitsExactly(microsoft: Option<MicrosoftOs10>, interfaces: set<byte>)
    requires microsoft.Some? ==> Projectable(microsoft.value, interfaces)
    ensures |Agreement.OsItems(microsoft, interfaces)| > 0 <==> Emits(microsoft)
  {
    hide CompatibleIdsOk, PropertiesOk, GroupsFit, Ascending, Item, Features, PropertyItem;
    if microsoft.Some? {
      NamedSomeone(microsoft.value.registryProperties);
    }
  }

  /** Bytes 0 to 15 of a descriptor blob: magic 3, its own length, the flags, and the number of descriptors. */
  ghost predicate Headed(blob: seq<byte>, flags: byte, count: nat) {
    && 16 <= |blob|
    && blob[..4] == [3, 0, 0, 0]
    && Field32(blob, 4, |blob|)
    && blob[8..12] == [flags, 0, 0, 0]
    && Field32(blob, 12, count)
  }

  lemma BlobHeaded(count: nat, body: seq<byte>, os: seq<byte>, blob: seq<byte>)
    requires Blob(count, body, os) == Ok(blob) && count < 0x1_0000_0000
    ensures Headed(blob, if |os| == 0 then 193 else 201, count)
    ensures |os| == 0 ==> blob[16..] == body
    ensures |os| > 0 ==>
              && OsDescriptor.Split(os).Some? && 20 <= |blob|
              && Field32(blob, 16, |OsDescriptor.Split(os).value| % 0x1_0000_0000)
              && blob[20..] == body + os
  {
    hide Le32, Framing.Split, Field32;
    var flags := FlagsFor(os);
    OneField(count);
    BlobStart(blob, flags, |blob|);
    if |os| == 0 {
      assert EncodeFields([count] + []) == EncodeFields([count]);
      assert blob[12..16] == Le32(count) && blob[16..] == body + os == body;
    } else {
      TwoFields(count, Truncated32(OsCount(os).value));
      assert blob[12..16] == Le32(count) && blob[16..20] == Le32(Truncated32(OsCount(os).value));
      assert blob[20..] == body + os;
      Le32Field(Truncated32(OsCount(os).value), blob, 16);
    }
    Le32Field(count, blob, 12);
  }

  lemma BlobStart(blob: seq<byte>, flags: u32, length: u32)
    requires 12 <= |blob| && Start(flags, length) <= blob && flags in {193, 201}
    ensures blob[..4] == [3, 0, 0, 0] && Field32(blob, 4, length) && blob[8..12] == [flags, 0, 0, 0]
  {
    hide Le32, Field32;
    var start := Start(flags, length);
    assert blob[0..4] == start[0..4] == Le32(3);
    assert blob[4..8] == start[4..8] == Le32(length);
    assert blob[8..12] == start[8..12] == Le32(flags);
    Le32Field(length, blob, 4);
    SmallLe32(3);
    SmallLe32(flags);
    assert blob[..4] == blob[0..4];
  }

  lemma SmallLe32(n: u32)
    requires n < 256
    ensures Le32(n) == [n, 0, 0, 0]
  {
  }

  // The string blob.

  /**
   The string blob: magic 2, its own length, the number of strings, and one language unless there is no string; then the
   language, and each text behind the last with a zero byte at its end.
   */
  ghost predicate StringsHeaded(blob: seq<byte>, language: u16, ts: seq<Text>) {
    && 16 <= |blob|
    && blob[..4] == [2, 0, 0, 0]
    && Field32(blob, 4, |blob|)
    && Field32(blob, 8, |ts|)
    && blob[12..16] == [if |ts| == 0 then 0 else 1, 0, 0, 0]
    && (if |ts| == 0 then |blob| == 16
        else
          && 18 <= |blob| && language == blob[16] as nat + 256 * blob[17] as nat
          && blob[18..] == StringTables.EncodeTexts(ts))
  }

  lemma StringsBlobHeaded(language: u16, ts: seq<Text>)
    requires |ts| <= 255 && |StringTables.EncodeTexts(ts)| <= 379 * |ts|
    ensures StringsHeaded(BlobOf(language, ts), language, ts)
  {
    hide Le32, Field32, StringTables.EncodeTexts, StringTables.EncodeTables;
    var blob := BlobOf(language, ts);
    var tables := if |ts| == 0 then [] else [StringTables.Table(language, ts)];
    TablesOfOne(language, ts);
    var body := StringTables.EncodeTables(tables);
    assert blob[0..4] == Le32(2) && blob[4..8] == Le32(|blob|);
    assert blob[8..12] == Le32(|ts|) && blob[12..16] == Le32(|tables|) && blob[16..] == body;
    Le32Field(|blob|, blob, 4);
    Le32Field(|ts|, blob, 8);
    SmallLe32(2);
    SmallLe32(|tables|);
    assert blob[..4] == blob[0..4];
    if |ts| > 0 {
      assert body[..2] == Le16(language) && body[2..] == StringTables.EncodeTexts(ts);
      assert blob[16] == body[0] && blob[17] == body[1] && blob[18..] == body[2..];
    }
  }

  // A whole personality.

  /** The descriptors behind the configuration's header can be told apart and walked. */
  ghost predicate Walkable(bundle: UsbPersonality) {
    && |bundle.configurationDescriptor| >= 9
    && UsbDescriptor.Split(bundle.configurationDescriptor[9..]).Some?
    && Walk(UsbDescriptor.Split(bundle.configurationDescriptor[9..]).value).Some?
  }

  ghost function RecordsOf(bundle: UsbPersonality): seq<seq<byte>>
    requires Walkable(bundle)
  {
    UsbDescriptor.Split(bundle.configurationDescriptor[9..]).value
  }

  ghost function WalkedOf(bundle: UsbPersonality): Walked
    requires Walkable(bundle)
  {
    Walk(RecordsOf(bundle)).value
  }

  ghost predicate MicrosoftOk(bundle: UsbPersonality)
    requires Walkable(bundle)
  {
    bundle.microsoftOs1.Some? ==> Projectable(bundle.microsoftOs1.value, WalkedOf(bundle).found.interfaces)
  }

  ghost function ItemsOf(bundle: UsbPersonality): seq<seq<byte>>
    requires Walkable(bundle) && MicrosoftOk(bundle)
  {
    Agreement.OsItems(bundle.microsoftOs1, WalkedOf(bundle).found.interfaces)
  }

  lemma BundleParts(bundle: UsbPersonality)
    requires Discovered(bundle).Ok?
    ensures Keyed(bundle.strings).Some? && LanguageId(Keyed(bundle.strings).value).Ok?
    ensures |bundle.configurationDescriptor| < 0x1_0000
    ensures Walkable(bundle) && MicrosoftOk(bundle)
    ensures var p, w := Discovered(bundle).value, WalkedOf(bundle);
            && Blob(w.found.count, w.body, Concat(ItemsOf(bundle))) == Ok(p.descriptors)
            && Strings(Keyed(bundle.strings).value, LanguageId(Keyed(bundle.strings).value).value, w.found.numbers)
               == Ok(p.strings)
  {
    hide Strings, Blob, IdentityOf, Walk, FromLe16, Concat, Projectable, Items, LanguageId, ProjectWebUsb, Keyed;
    hide Framing.Split;
    if Walkable(bundle) {
      NoSections(WalkedOf(bundle).found.interfaces);
    }
  }

  /**
   The descriptor blob of every accepted personality is a FunctionFS v2 blob with one full-speed set: magic 3, its own
   length, flags 193 (a full-speed set, all control recipients, setup before configuration), or 201 exactly when feature
   descriptors are emitted, the number of descriptors of the configuration, then that of the feature descriptors if there
   are any, and behind them the renumbered configuration and the feature descriptors.
   */
  lemma DescriptorBlobEmitted(bundle: UsbPersonality)
    requires Discovered(bundle).Ok?
    ensures Walkable(bundle) && MicrosoftOk(bundle)
    ensures var blob, ds, items := Discovered(bundle).value.descriptors, RecordsOf(bundle), ItemsOf(bundle);
            var numbers := WalkedOf(bundle).found.numbers;
            && Headed(blob, if Emits(bundle.microsoftOs1) then 201 else 193, |ds|)
            && (if Emits(bundle.microsoftOs1) then
                  && 20 <= |blob| && Field32(blob, 16, |items|)
                  && blob[20..] == Concat(RelabelledAll(numbers, ds)) + Concat(items)
                else blob[16..] == Concat(RelabelledAll(numbers, ds)))
  {
    hide Discovered, Walk, Blob, Concat, Framing.Split, RelabelledAll, Strings, Headed, Field32, LanguageId, Keyed;
    hide FromLe16, Framing.AreRecords, Agreement.OsItems, Emits, Projectable, NoneShort, Numberable, EndpointsOf;
    hide InterfacesOf, Order;
    BundleParts(bundle);
    var config, blob := bundle.configurationDescriptor, Discovered(bundle).value.descriptors;
    var ds, items, w := RecordsOf(bundle), ItemsOf(bundle), WalkedOf(bundle);
    WalkGathers(ds, w);
    WalkRewrites(ds, w);
    UsbDescriptor.SplitExact(config[9..], ds);
    Agreement.RecordsCount(UsbDescriptor, ds);
    ItemsSplit(bundle.microsoftOs1, w.found.interfaces, w.found.count, w.body, blob);
    EmitsExactly(bundle.microsoftOs1, w.found.interfaces);
    BlobHeaded(w.found.count, w.body, Concat(items), blob);
  }

  // The feature descriptors can be told apart again, and are few enough for their count field.
  lemma ItemsSplit(
    microsoft: Option<MicrosoftOs10>, interfaces: set<byte>, count: nat, body: seq<byte>, blob: seq<byte>)
    requires microsoft.Some? ==> Projectable(microsoft.value, interfaces)
    requires Blob(count, body, Concat(Agreement.OsItems(microsoft, interfaces))) == Ok(blob)
    ensures var items := Agreement.OsItems(microsoft, interfaces);
            && OsDescriptor.Split(Concat(items)) == Some(items) && |items| < 0x1_0000_0000
            && (|Concat(items)| == 0 <==> |items| == 0)
  {
    hide Concat, Framing.Split, Projectable, Items, OsDescriptors.ItemsOk, Framing.AreRecords;
    hide MicrosoftAgreement.AllLegible, MicrosoftAgreement.AllRegistrable;
    var items := Agreement.OsItems(microsoft, interfaces);
    Agreement.BlobFits(count, body, Concat(items));
    Agreement.OsItemsAccepted(microsoft, interfaces);
    Agreement.RecordsCount(OsDescriptor, items);
    OsDescriptor.SplitExact(Concat(items), items);
  }

  /** Read back by the validator, the blob has a full-speed set and no other, and both control flags. */
  lemma OnlyFullSpeed(bundle: UsbPersonality)
    requires Discovered(bundle).Ok?
    ensures var l := ReadLayout(Discovered(bundle).value.descriptors);
            && l.Some? && |l.value.sets| == 1
            && l.value.flags % 2 == 1 && l.value.flags / 2 % 2 == 0 && l.value.flags / 4 % 2 == 0
            && (l.value.flags / 8 % 2 == 1 <==> Emits(bundle.microsoftOs1))
            && l.value.flags / 64 % 2 == 1 && l.value.flags / 128 % 2 == 1
  {
    hide Discovered, Walk, Concat, Framing.Split, RelabelledAll, ReadLayout, FromLe32, Agreement.LayoutOf;
    hide Projectable, Items, Keyed, Strings, Blob;
    BundleParts(bundle);
    var blob := Discovered(bundle).value.descriptors;
    BundleLayout(bundle);
    DescriptorBlobEmitted(bundle);
    var l := ReadLayout(blob).value;
    FlagsByte(blob, l, if Emits(bundle.microsoftOs1) then 201 else 193);
  }

  lemma BundleLayout(bundle: UsbPersonality)
    requires Discovered(bundle).Ok?
    ensures ReadLayout(Discovered(bundle).value.descriptors).Some?
    ensures |ReadLayout(Discovered(bundle).value.descriptors).value.sets| == 1
  {
    hide Projected, ReadLayout, Project, Framing.Split, Projectable;
    Agreement.ProjectionLayout(
      bundle.deviceDescriptor, bundle.configurationDescriptor, Keyed(bundle.strings).value, bundle.microsoftOs1,
      bundle.webUsb);
  }

  lemma FlagsByte(blob: seq<byte>, l: Layout, flags: byte)
    requires ReadLayout(blob) == Some(l) && 12 <= |blob| && blob[8..12] == [flags, 0, 0, 0]
    ensures l.flags == flags
  {
    hide ReadBody;
    assert blob[8] == blob[8..12][0] && blob[9] == blob[8..12][1] && blob[10] == blob[8..12][2];
    assert blob[11] == blob[8..12][3];
    BodyFlags(blob, FromLe32(blob, 8));
  }

  lemma BodyFlags(blob: seq<byte>, flags: u32)
    requires 12 <= |blob|
    ensures ReadBody(blob, flags).Some? ==> ReadBody(blob, flags).value.flags == flags
  {
    hide Speeds, Has, Fields, TakeSets, Framing.Take, Concat;
  }

  /** The string blob holds, in the personality's own language, the texts its interfaces name, by first appearance. */
  lemma StringBlobEmitted(bundle: UsbPersonality)
    requires Discovered(bundle).Ok?
    ensures Walkable(bundle)
    ensures var strings, order := Keyed(bundle.strings), Order(RecordsOf(bundle));
            && strings.Some? && LanguageId(strings.value).Ok?
            && var language := LanguageId(strings.value).value;
               && Texts(strings.value, language, order).Ok?
               && StringsHeaded(
                    Discovered(bundle).value.strings, language, Texts(strings.value, language, order).value)
  {
    hide Discovered, Walk, Blob, Concat, Framing.Split, Keyed, LanguageId, Texts, Order, InNumberOrder, StringsHeaded;
    hide StringTables.EncodeTexts, BlobOf, StringTables.NulFree, UsbString;
    BundleParts(bundle);
    var strings, ds := Keyed(bundle.strings).value, RecordsOf(bundle);
    var language, w := LanguageId(strings).value, WalkedOf(bundle);
    WalkNumbers(ds, w);
    NumberOrderIsFirstAppearance(w.found.numbers, Order(ds));
    TextsFit(strings, language, Order(ds));
    WalkIsByte(ds, w);
    SizeOfOrder(w.found.numbers);
    StringsBlobHeaded(language, Texts(strings, language, Order(ds)).value);
  }

  /** The text a device string index gives: none for index zero. */
  predicate Gives(strings: Descriptors, language: u16, index: byte, text: Option<Text>) {
    if index == 0 then text.None? else text.Some? && UsbString(strings, index, language) == Ok(text.value)
  }

  /** A 16-bit field, spelled out. */
  predicate Field16(b: seq<byte>, at: nat, n: nat) {
    at + 2 <= |b| && n == b[at] as nat + 256 * b[at + 1] as nat
  }

  /**
   What the host sees of an accepted personality is what its descriptors say: the device's numbers at their offsets and
   its three strings, the attributes of the configuration, and its power in steps of two milliamperes.
   */
  lemma AttributesEmitted(bundle: UsbPersonality)
    requires Discovered(bundle).Ok?
    ensures var p, device, config := Discovered(bundle).value, bundle.deviceDescriptor, bundle.configurationDescriptor;
            && |device| == 18 && |config| >= 9
            && p.maxSpeed == bundle.maxSpeed
            && p.configurationAttributes == config[7] && p.maxPowerMa == 2 * config[8] as int
            && Field16(device, 2, p.device.bcdUsb) && Field16(device, 8, p.device.vendorId)
            && Field16(device, 10, p.device.productId) && Field16(device, 12, p.device.bcdDevice)
            && p.device.deviceClass == device[4] && p.device.deviceSubclass == device[5]
            && p.device.deviceProtocol == device[6]
    ensures var p, device, strings := Discovered(bundle).value, bundle.deviceDescriptor, Keyed(bundle.strings);
            && strings.Some? && LanguageId(strings.value).Ok?
            && var language := LanguageId(strings.value).value;
               && Gives(strings.value, language, device[14], p.device.manufacturer)
               && Gives(strings.value, language, device[15], p.device.product)
               && Gives(strings.value, language, device[16], p.device.serial)
    ensures var p := Discovered(bundle).value;
            && p.webUsb == bundle.webUsb
            && (if bundle.microsoftOs1.None? then p.microsoftOs1.None?
                else p.microsoftOs1 == Some(Microsoft(bundle.microsoftOs1.value.vendorCode, Ascii("MSFT100"))))
  {
    hide Project, Strings, ProjectedMicrosoft, Blob, UsbString, LanguageId, Keyed;
    MicrosoftEmitted(bundle.microsoftOs1, Project(bundle.configurationDescriptor[9..]).value.found.interfaces) by {
      assert Project(bundle.configurationDescriptor[9..]).Ok?;
    }
  }

  lemma MicrosoftEmitted(microsoft: Option<MicrosoftOs10>, interfaces: set<byte>)
    ensures var m := ProjectedMicrosoft(microsoft, interfaces);
            m.Ok? ==>
              if microsoft.None? then m.value.0.None?
              else m.value.0 == Some(Microsoft(microsoft.value.vendorCode, Ascii("MSFT100")))
  {
    hide Projectable, Items;
    assert SIGNATURE == Ascii("MSFT100");
  }

  // What the validator demands of the headers.

  /**
   Accepted blobs have the headers of FunctionFS v2: magic 3, their own length, and supported flags, of which bit 3 tells
   whether feature descriptors follow; magic 2 and their own length.
   */
  lemma AcceptedHeaders(descriptors: seq<byte>, strings: seq<byte>)
    requires FunctionFs.Inspected(descriptors, strings).Ok?
    ensures 12 <= |descriptors| && descriptors[..4] == [3, 0, 0, 0] && Field32(descriptors, 4, |descriptors|)
    ensures descriptors[9] == descriptors[10] == descriptors[11] == 0
    ensures descriptors[8] != 0 && descriptors[8] as int / 16 % 4 == 0
    ensures FunctionFs.Inspected(descriptors, strings).value.hasMsOsDescriptors <==> descriptors[8] as int / 8 % 2 == 1
    ensures 16 <= |strings| && strings[..4] == [2, 0, 0, 0] && Field32(strings, 4, |strings|)
  {
    hide ReadBody, StringTables.TakeTables, FunctionFs.Acceptable, Supported, Has;
    var flags := FromLe32(descriptors, 8);
    FlagBits(flags);
    BodyFlags(descriptors, flags);
    assert flags == descriptors[8] as int + 256 * descriptors[9] as int + 65536 * descriptors[10] as int
                    + 16777216 * descriptors[11] as int;
    assert descriptors[..4] == [descriptors[0], descriptors[1], descriptors[2], descriptors[3]];
    assert strings[..4] == [strings[0], strings[1], strings[2], strings[3]];
    Magic(descriptors, 3);
    Magic(strings, 2);
  }

  lemma Magic(b: seq<byte>, n: byte)
    requires 4 <= |b|
    ensures FromLe32(b, 0) == n <==> b[0] == n && b[1] == b[2] == b[3] == 0
  {
  }

  /**
   A feature descriptor: interface, length, version 1.0 (0, 1), index 4 with a count byte and a zero for compatible IDs,
   or 5 with a 16-bit count for properties, then the sections.
   */
  lemma FeatureDescriptorBytes(interface: byte, body: seq<byte>, n: byte, m: u16)
    requires 11 + |body| < 0x1_0000_0000
    ensures var d := Item(interface, OsDescriptors.COMPATIBLE, [n, 0], body);
            && d[0] == interface && Field32(d, 1, |d|) && d[5..11] == [0, 1, 4, 0, n, 0] && d[11..] == body
    ensures var d := Item(interface, OsDescriptors.PROPERTIES, Le16(m), body);
            && d[0] == interface && Field32(d, 1, |d|) && d[5..11] == [0, 1, 5, 0, m % 256, m / 256] && d[11..] == body
  {
    hide Le32, Field32;
    var c := Item(interface, OsDescriptors.COMPATIBLE, [n, 0], body);
    var p := Item(interface, OsDescriptors.PROPERTIES, Le16(m), body);
    assert c[1..5] == Le32(|c|) && p[1..5] == Le32(|p|);
    Le32Field(|c|, c, 1);
    Le32Field(|p|, p, 1);
  }
}
