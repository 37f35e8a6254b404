/** When the validator accepts the Microsoft OS 1.0 descriptors the projection emits. */
module MicrosoftAgreement {
  import opened Bytes
  import opened Unicode
  import opened Personality
  import opened Records
  import opened MicrosoftProjection
  import OsDescriptors

  predicate GraphicText(t: Text) {
    forall i :: 0 <= i < |t| ==> 0x21 <= t[i] <= 0x7E
  }

  /** A compatible ID the validator accepts: not empty, and graphic throughout. */
  predicate Legible(c: CompatibleId) {
    |c.compatibleId| > 0 && GraphicText(c.compatibleId) && GraphicText(c.subCompatibleId)
  }

  /** A property the validator accepts: a known type, and a name whose UTF-16 bytes happen to be UTF-8. */
  predicate Registrable(p: RegistryProperty) {
    1 <= p.dataType <= 7 && DecodeUtf8(UnitBytes(EncodeUtf16(p.name))).Some?
  }

  predicate AllLegible(cs: seq<CompatibleId>) {
    forall i :: 0 <= i < |cs| ==> Legible(cs[i])
  }

  predicate AllRegistrable(ps: seq<RegistryProperty>) {
    forall i :: 0 <= i < |ps| ==> Registrable(ps[i])
  }

  // Sizes.

  lemma {:induction false} PartFits(rs: seq<seq<byte>>, i: nat)
    requires i < |rs|
    ensures |rs[i]| <= |Concat(rs)|
  {
    if i > 0 {
      PartFits(rs[1..], i - 1);
    }
  }

  lemma {:induction false} MemberFits(ps: seq<RegistryProperty>, interfaces: set<byte>, i: nat)
    requires i < |ps| && PropertiesOk(ps, interfaces)
    ensures |Property(ps[i])| <= |Concat(Group(ps, interfaces, ps[i].interface))|
  {
    hide Property, NameBytes;
    var k, front, last := ps[i].interface, ps[..|ps| - 1], ps[|ps| - 1];
    if last.interface == k {
      ConcatPush(Group(front, interfaces, k), Property(last));
    } else {
      assert Group(front, interfaces, k) + [] == Group(front, interfaces, k);
    }
    if i < |ps| - 1 {
      MemberFits(front, interfaces, i);
    }
  }

  // Items.

  lemma ItemParts(interface: byte, index: u16, count: seq<byte>, body: seq<byte>)
    requires |count| == 2 && 11 + |body| < 0x1_0000_0000
    ensures var item := Item(interface, index, count, body);
            && |item| == 11 + |body|
            && item[0] == interface
            && OsDescriptor.IsRecord(item)
            && FromLe16(item, 5) == OsDescriptors.VERSION
            && FromLe16(item, 7) == index
            && item[9..11] == count
            && item[11..] == body
  {
    hide Le32, FromLe32;
    var item := Item(interface, index, count, body);
    assert item[1..5] == Le32(11 + |body|) && item[5..7] == Le16(OsDescriptors.VERSION) && item[7..9] == Le16(index);
    FieldsOfSuffix(item, 1, 4);
    LeRoundTrip(11 + |body|);
    DeclaredField(item);
    FieldsOfSuffix(item, 5, 2);
    LeRoundTrip(OsDescriptors.VERSION);
    FieldsOfSuffix(item, 7, 2);
    LeRoundTrip(index);
  }

  // Compatible IDs.

  lemma {:induction false} AsciiOctets(t: Text)
    requires IsAscii(t)
    ensures |EncodeUtf8(t)| == |t|
    ensures forall i :: 0 <= i < |t| ==> EncodeUtf8(t)[i] as int == t[i]
  {
    if |t| > 0 {
      AsciiOctets(t[1..]);
    }
  }

  lemma IdentifierBytes(t: Text)
    requires IdentifierOk(t)
    ensures OsDescriptors.AllZero(Identifier(t)) <==> |t| == 0
    ensures OsDescriptors.Printable(Identifier(t)) <==> GraphicText(t)
  {
    hide EncodeUtf8;
    AsciiOctets(t);
    var b := Identifier(t);
    if |t| > 0 {
      assert b[0] in EncodeUtf8(t);
    }
    forall i | 0 <= i < |t| ensures b[i] as int == t[i] && b[i] != 0 {
      assert b[i] in EncodeUtf8(t);
    }
    if OsDescriptors.Printable(b) {
      assert forall i :: 0 <= i < |t| ==> OsDescriptors.Graphic(b[i]);
    }
  }

  lemma FeatureAccepted(c: CompatibleId, interfaces: set<byte>)
    requires CompatibleIdOk(c, interfaces)
    ensures OsDescriptors.FeatureOk(Feature(c), interfaces) <==> Legible(c)
  {
    hide IdentifierOk, Identifier, GraphicText;
    var f, id, sub := Feature(c), Identifier(c.compatibleId), Identifier(c.subCompatibleId);
    IdentifierBytes(c.compatibleId);
    IdentifierBytes(c.subCompatibleId);
    assert f[2..10] == id && f[10..18] == sub && f[18..] == Zeros(6);
    assert f[2..18] == id + sub;
    PrintableParts(id, sub);
  }

  lemma PrintableParts(a: seq<byte>, b: seq<byte>)
    ensures OsDescriptors.Printable(a + b) <==> OsDescriptors.Printable(a) && OsDescriptors.Printable(b)
  {
    assert forall i :: 0 <= i < |a| ==> a[i] == (a + b)[i];
    assert forall i :: 0 <= i < |b| ==> b[i] == (a + b)[|a| + i];
  }

  lemma {:induction false} FeaturesAccepted(fs: seq<seq<byte>>, interfaces: set<byte>)
    requires forall i :: 0 <= i < |fs| ==> |fs[i]| == OsDescriptors.FEATURE
    ensures |Concat(fs)| == |fs| * OsDescriptors.FEATURE
    ensures OsDescriptors.FeaturesOk(Concat(fs), |fs|, interfaces)
       <==> forall i :: 0 <= i < |fs| ==> OsDescriptors.FeatureOk(fs[i], interfaces)
  {
    hide OsDescriptors.FeatureOk;
    if |fs| > 0 {
      FeaturesAccepted(fs[1..], interfaces);
      var b := Concat(fs);
      assert b[..OsDescriptors.FEATURE] == fs[0] && b[OsDescriptors.FEATURE..] == Concat(fs[1..]);
      assert forall i :: 0 < i < |fs| ==> fs[i] == fs[1..][i - 1];
    }
  }

  lemma CompatibleItemAccepted(cs: seq<CompatibleId>, interfaces: set<byte>)
    requires 0 < |cs| <= 255 && CompatibleIdsOk(cs, interfaces)
    ensures var item := CompatibleItems(cs, interfaces)[0];
            OsDescriptor.IsRecord(item) && (OsDescriptors.ItemOk(item, interfaces) <==> AllLegible(cs))
  {
    hide Feature, OsDescriptors.FeatureOk, OsDescriptors.FeaturesOk, Item, FromLe16, Legible, CompatibleIdOk, Concat;
    var fs, item := Features(cs, interfaces), CompatibleItems(cs, interfaces)[0];
    FeaturesAccepted(fs, interfaces);
    ItemParts(cs[0].interface, OsDescriptors.COMPATIBLE, [|cs|, 0], Concat(fs));
    assert item[9] == item[9..11][0] && item[10] == item[9..11][1];
    forall i | 0 <= i < |cs| ensures OsDescriptors.FeatureOk(fs[i], interfaces) <==> Legible(cs[i]) {
      FeatureAccepted(cs[i], interfaces);
    }
    FirstInterface(cs, interfaces);
  }

  lemma FirstInterface(cs: seq<CompatibleId>, interfaces: set<byte>)
    requires 0 < |cs| && CompatibleIdsOk(cs, interfaces)
    ensures cs[0].interface in interfaces
  {
  }

  // Properties.

  lemma NameAccepted(name: Text)
    ensures |NameBytes(name)| > 0
    ensures OsDescriptors.NameOk(NameBytes(name)) <==> DecodeUtf8(UnitBytes(EncodeUtf16(name))).Some?
  {
    hide DecodeUtf8, EncodeUtf16;
    var units, b := EncodeUtf16(name), NameBytes(name);
    UnitBytesAppend(units, [0]);
    assert UnitBytes([0]) == [0, 0] by {
      assert [0][1..] == [];
    }
    assert b[..|b| - 1] == UnitBytes(units) + [0];
    Utf8AppendZero(UnitBytes(units));
  }

  lemma PropertyParts(p: RegistryProperty)
    requires |NameBytes(p.name)| < 0x1_0000 && |Property(p)| < 0x1_0000_0000
    ensures var b, name := Property(p), |NameBytes(p.name)|;
            && |b| == 14 + name + |p.data|
            && OsProperty.IsRecord(b)
            && FromLe32(b, 4) == p.dataType
            && FromLe16(b, 8) == name
            && b[10..10 + name] == NameBytes(p.name)
            && FromLe32(b, 10 + name) == |p.data|
            && b[14 + name..] == p.data
  {
    hide Le32, FromLe32, NameBytes;
    var b, n := Property(p), |NameBytes(p.name)|;
    assert b[0..4] == Le32(|b|) && b[4..8] == Le32(p.dataType) && b[8..10] == Le16(n);
    assert b[10 + n..14 + n] == Le32(|p.data|);
    FieldsOfSuffix(b, 0, 4);
    LeRoundTrip(|b|);
    DeclaredField(b);
    FieldsOfSuffix(b, 4, 4);
    LeRoundTrip(p.dataType);
    FieldsOfSuffix(b, 8, 2);
    LeRoundTrip(n);
    FieldsOfSuffix(b, 10 + n, 4);
    LeRoundTrip(|p.data|);
  }

  lemma PropertyAccepted(p: RegistryProperty)
    requires |NameBytes(p.name)| < 0x1_0000 && |Property(p)| < 0x1_0000_0000
    ensures OsProperty.IsRecord(Property(p)) && |Property(p)| >= 14
    ensures OsDescriptors.PropertyOk(Property(p)) <==> Registrable(p)
  {
    hide Property, NameBytes, FromLe32, FromLe16, OsDescriptors.NameOk, DecodeUtf8;
    PropertyParts(p);
    NameAccepted(p.name);
  }

  // A group is acceptable when each of its interface's properties is.
  lemma {:induction false} GroupAccepted(ps: seq<RegistryProperty>, interfaces: set<byte>, k: byte)
    requires PropertiesOk(ps, interfaces) && |Concat(Group(ps, interfaces, k))| < 0x1_0000_0000
    ensures OsProperty.AreRecords(Group(ps, interfaces, k))
    ensures OsDescriptors.PropertiesAllOk(Group(ps, interfaces, k))
       <==> forall i :: 0 <= i < |ps| && ps[i].interface == k ==> Registrable(ps[i])
  {
    hide Property, NameBytes, OsDescriptors.PropertyOk, Registrable, Framing.IsRecord;
    if |ps| > 0 {
      var front, p := ps[..|ps| - 1], ps[|ps| - 1];
      var group := Group(front, interfaces, k);
      if p.interface == k {
        MemberFits(ps, interfaces, |ps| - 1);
        PropertyAccepted(p);
        ConcatPush(group, Property(p));
        GroupAccepted(front, interfaces, k);
        AllOkPush(group, Property(p));
      } else {
        assert group + [] == group;
        GroupAccepted(front, interfaces, k);
      }
      assert forall i :: 0 <= i < |front| ==> front[i] == ps[i];
    }
  }

  lemma AllOkPush(group: seq<seq<byte>>, p: seq<byte>)
    requires |p| >= 14
    ensures OsDescriptors.PropertiesAllOk(group + [p])
       <==> OsDescriptors.PropertiesAllOk(group) && OsDescriptors.PropertyOk(p)
  {
    hide OsDescriptors.PropertyOk;
    var all := group + [p];
    assert all[|group|] == p && forall i :: 0 <= i < |group| ==> all[i] == group[i];
  }

  lemma PropertyItemAccepted(ps: seq<RegistryProperty>, interfaces: set<byte>, k: byte)
    requires PropertiesOk(ps, interfaces) && |Group(ps, interfaces, k)| < 0x1_0000 && k in Named(ps)
    requires k in interfaces && 11 + |Concat(Group(ps, interfaces, k))| < 0x1_0000_0000
    ensures var item := PropertyItem(ps, interfaces, k);
            && OsDescriptor.IsRecord(item)
            && (OsDescriptors.ItemOk(item, interfaces)
                <==> forall i :: 0 <= i < |ps| && ps[i].interface == k ==> Registrable(ps[i]))
  {
    hide Group, Concat, FromLe16, Registrable, Item, OsDescriptors.PropertiesAllOk, Framing.AreRecords, Framing.Take;
    var group, item := Group(ps, interfaces, k), PropertyItem(ps, interfaces, k);
    UnnamedGroup(ps, interfaces, k);
    ItemParts(k, OsDescriptors.PROPERTIES, Le16(|group|), Concat(group));
    FieldsOfSuffix(item, 9, 2);
    LeRoundTrip(|group|);
    GroupAccepted(ps, interfaces, k);
    OsProperty.TakeExact(Concat(group), |group|, group);
  }

  // The whole declaration.

  lemma {:induction false} NamedBy(ps: seq<RegistryProperty>, interfaces: set<byte>)
    requires PropertiesOk(ps, interfaces)
    ensures Named(ps) <= interfaces
    ensures forall k :: k in Named(ps) <==> exists i :: 0 <= i < |ps| && ps[i].interface == k
  {
    hide NameBytes;
    if |ps| > 0 {
      var front := ps[..|ps| - 1];
      NamedBy(front, interfaces);
      assert forall i :: 0 <= i < |front| ==> front[i] == ps[i];
    }
  }

  lemma PropertyItemsAccepted(ps: seq<RegistryProperty>, interfaces: set<byte>, order: seq<byte>)
    requires PropertiesOk(ps, interfaces) && GroupsFit(ps, interfaces)
    requires forall k :: k in order <==> k in Named(ps)
    requires |Concat(PropertyItems(ps, interfaces, order))| < 0x1_0000_0000
    ensures OsDescriptor.AreRecords(PropertyItems(ps, interfaces, order))
    ensures OsDescriptors.ItemsOk(PropertyItems(ps, interfaces, order), interfaces) <==> AllRegistrable(ps)
  {
    hide PropertiesOk, Group, Registrable, OsDescriptors.ItemOk, Concat, Framing.IsRecord;
    var items := PropertyItems(ps, interfaces, order);
    NamedBy(ps, interfaces);
    forall j | 0 <= j < |order|
      ensures OsDescriptor.IsRecord(items[j]) && |items[j]| >= 11
      ensures OsDescriptors.ItemOk(items[j], interfaces)
         <==> forall i :: 0 <= i < |ps| && ps[i].interface == order[j] ==> Registrable(ps[i])
    {
      assert order[j] in order;
      PartFits(items, j);
      PropertyItemAccepted(ps, interfaces, order[j]);
    }
    if OsDescriptors.ItemsOk(items, interfaces) {
      forall i | 0 <= i < |ps| ensures Registrable(ps[i]) {
        assert ps[i].interface in order;
        var j :| 0 <= j < |order| && order[j] == ps[i].interface;
        assert OsDescriptors.ItemOk(items[j], interfaces);
      }
    }
  }

  /** The projected descriptors are complete records, and the validator accepts them exactly when each part is. */
  lemma ItemsAccepted(m: MicrosoftOs10, interfaces: set<byte>)
    requires Projectable(m, interfaces) && |Concat(Items(m, interfaces))| < 0x1_0000_0000
    ensures OsDescriptor.AreRecords(Items(m, interfaces))
    ensures OsDescriptors.ItemsOk(Items(m, interfaces), interfaces)
       <==> AllLegible(m.compatibleIds) && AllRegistrable(m.registryProperties)
  {
    hide CompatibleIdsOk, PropertiesOk, GroupsFit, AllRegistrable, OsDescriptors.ItemsOk, Concat, Framing.AreRecords;
    hide Item, CompatibleItems, AllLegible;
    var ps := m.registryProperties;
    var compatible := CompatibleItems(m.compatibleIds, interfaces);
    var properties := PropertyItems(ps, interfaces, Ascending(Named(ps)));
    ConcatAppend(compatible, properties);
    PropertyItemsAccepted(ps, interfaces, Ascending(Named(ps)));
    CompatibleItemsAccepted(m.compatibleIds, interfaces);
    BothAccepted(compatible, properties, interfaces);
  }

  lemma BothAccepted(xs: seq<seq<byte>>, ys: seq<seq<byte>>, interfaces: set<byte>)
    ensures OsDescriptor.AreRecords(xs + ys) <==> OsDescriptor.AreRecords(xs) && OsDescriptor.AreRecords(ys)
    ensures OsDescriptors.ItemsOk(xs + ys, interfaces)
       <==> OsDescriptors.ItemsOk(xs, interfaces) && OsDescriptors.ItemsOk(ys, interfaces)
  {
    hide OsDescriptors.ItemOk, Framing.IsRecord;
    assert forall i :: 0 <= i < |xs| ==> (xs + ys)[i] == xs[i];
    assert forall i :: 0 <= i < |ys| ==> (xs + ys)[|xs| + i] == ys[i];
  }

  lemma CompatibleItemsAccepted(cs: seq<CompatibleId>, interfaces: set<byte>)
    requires |cs| <= 255 && CompatibleIdsOk(cs, interfaces)
    ensures OsDescriptor.AreRecords(CompatibleItems(cs, interfaces))
    ensures OsDescriptors.ItemsOk(CompatibleItems(cs, interfaces), interfaces) <==> AllLegible(cs)
  {
    hide OsDescriptors.ItemOk, Legible, CompatibleIdOk, Item, Concat;
    if |cs| > 0 {
      CompatibleItemAccepted(cs, interfaces);
    }
  }
}
