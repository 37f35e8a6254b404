/** The projection of a Microsoft OS 1.0 declaration to FunctionFS feature descriptors. */
module MicrosoftProjection {
  import opened Bytes
  import opened Unicode
  import opened Personality
  import opened Records
  import OsDescriptors

  // What is emitted.

  function Zeros(n: nat): (z: seq<byte>)
    ensures |z| == n && forall i :: 0 <= i < n ==> z[i] == 0
  {
    if n == 0 then [] else Zeros(n - 1) + [0]
  }

  predicate IsAscii(t: Text) {
    forall i :: 0 <= i < |t| ==> t[i] < 0x80
  }

  /** An ASCII text of up to eight bytes without NUL. */
  predicate IdentifierOk(t: Text) {
    |EncodeUtf8(t)| <= 8 && IsAscii(t) && 0 !in EncodeUtf8(t)
  }

  function Identifier(t: Text): (b: seq<byte>)
    requires IdentifierOk(t)
    ensures |b| == 8
  {
    EncodeUtf8(t) + Zeros(8 - |EncodeUtf8(t)|)
  }

  predicate CompatibleIdOk(c: CompatibleId, interfaces: set<byte>) {
    c.interface in interfaces && IdentifierOk(c.compatibleId) && IdentifierOk(c.subCompatibleId)
  }

  function Feature(c: CompatibleId): (f: seq<byte>)
    requires IdentifierOk(c.compatibleId) && IdentifierOk(c.subCompatibleId)
    ensures |f| == 24
  {
    [c.interface, 1] + Identifier(c.compatibleId) + Identifier(c.subCompatibleId) + Zeros(6)
  }

  predicate CompatibleIdsOk(cs: seq<CompatibleId>, interfaces: set<byte>) {
    && (forall i :: 0 <= i < |cs| ==> CompatibleIdOk(cs[i], interfaces))
    && (forall i, j :: 0 <= i < j < |cs| ==> cs[i].interface != cs[j].interface)
  }

  function Features(cs: seq<CompatibleId>, interfaces: set<byte>): (fs: seq<seq<byte>>)
    requires CompatibleIdsOk(cs, interfaces)
    ensures |fs| == |cs| && forall i :: 0 <= i < |cs| ==> fs[i] == Feature(cs[i])
  {
    if |cs| == 0 then [] else Features(cs[..|cs| - 1], interfaces) + [Feature(cs[|cs| - 1])]
  }

  /** A feature descriptor: interface, length, version, index, the two count bytes, and its sections. */
  function Item(interface: byte, index: u16, count: seq<byte>, body: seq<byte>): seq<byte> {
    var header := [interface] + Le32(Truncated32(11 + |body|));
    header + (Le16(OsDescriptors.VERSION) + Le16(index)) + count + body
  }

  function CompatibleItems(cs: seq<CompatibleId>, interfaces: set<byte>): seq<seq<byte>>
    requires CompatibleIdsOk(cs, interfaces) && |cs| <= 255
  {
    if |cs| == 0 then []
    else [Item(cs[0].interface, OsDescriptors.COMPATIBLE, [|cs|, 0], Concat(Features(cs, interfaces)))]
  }

  function NameBytes(name: Text): seq<byte> {
    UnitBytes(EncodeUtf16(name) + [0])
  }

  predicate PropertyOk(p: RegistryProperty, interfaces: set<byte>) {
    p.interface in interfaces && 0 !in p.name && |NameBytes(p.name)| < 0x1_0000
  }

  function Property(p: RegistryProperty): seq<byte>
    requires |NameBytes(p.name)| < 0x1_0000
  {
    var name := NameBytes(p.name);
    var header := Le32(Truncated32(14 + |name| + |p.data|)) + Le32(p.dataType) + Le16(|name|);
    header + name + (Le32(Truncated32(|p.data|)) + p.data)
  }

  predicate PropertiesOk(ps: seq<RegistryProperty>, interfaces: set<byte>) {
    forall i :: 0 <= i < |ps| ==> PropertyOk(ps[i], interfaces)
  }

  /** The properties of one interface, in declaration order. */
  function Group(ps: seq<RegistryProperty>, interfaces: set<byte>, k: byte): seq<seq<byte>>
    requires PropertiesOk(ps, interfaces)
  {
    if |ps| == 0 then []
    else
      var p := ps[|ps| - 1];
      Group(ps[..|ps| - 1], interfaces, k) + if p.interface == k then [Property(p)] else []
  }

  function Named(ps: seq<RegistryProperty>): set<byte> {
    if |ps| == 0 then {} else Named(ps[..|ps| - 1]) + {ps[|ps| - 1].interface}
  }

  /** No interface has more properties than the count field holds. */
  ghost predicate GroupsFit(ps: seq<RegistryProperty>, interfaces: set<byte>)
    requires PropertiesOk(ps, interfaces)
  {
    forall k: byte :: |Group(ps, interfaces, k)| < 0x1_0000
  }

  function PropertyItem(ps: seq<RegistryProperty>, interfaces: set<byte>, k: byte): seq<byte>
    requires PropertiesOk(ps, interfaces) && |Group(ps, interfaces, k)| < 0x1_0000
  {
    var group := Group(ps, interfaces, k);
    Item(k, OsDescriptors.PROPERTIES, Le16(|group|), Concat(group))
  }

  function PropertyItems(ps: seq<RegistryProperty>, interfaces: set<byte>, order: seq<byte>): (items: seq<seq<byte>>)
    requires PropertiesOk(ps, interfaces) && GroupsFit(ps, interfaces)
    ensures |items| == |order|
    ensures forall i :: 0 <= i < |order| ==> items[i] == PropertyItem(ps, interfaces, order[i])
  {
    if |order| == 0 then []
    else PropertyItems(ps, interfaces, order[..|order| - 1]) + [PropertyItem(ps, interfaces, order[|order| - 1])]
  }

  /** What a declaration must satisfy to be projected. */
  ghost predicate Projectable(m: MicrosoftOs10, interfaces: set<byte>) {
    && m.vendorCode != 0
    && |m.compatibleIds| <= 255
    && CompatibleIdsOk(m.compatibleIds, interfaces)
    && PropertiesOk(m.registryProperties, interfaces)
    && GroupsFit(m.registryProperties, interfaces)
  }

  /** One compatible-ID descriptor, then one properties descriptor for each named interface, ascending. */
  ghost function Items(m: MicrosoftOs10, interfaces: set<byte>): seq<seq<byte>>
    requires Projectable(m, interfaces)
  {
    CompatibleItems(m.compatibleIds, interfaces)
    + PropertyItems(m.registryProperties, interfaces, Ascending(Named(m.registryProperties)))
  }

  datatype Microsoft = Microsoft(vendorCode: byte, signature: Text)

  const SIGNATURE: Text := [0x4D, 0x53, 0x46, 0x54, 0x31, 0x30, 0x30]

  ghost function ProjectedMicrosoft(declaration: Option<MicrosoftOs10>, interfaces: set<byte>)
    : Outcome<(Option<Microsoft>, seq<byte>)>
  {
    if declaration.None? then Ok((None, []))
    else if !Projectable(declaration.value, interfaces) then Err(Invalid)
    else Ok((Some(Microsoft(declaration.value.vendorCode, SIGNATURE)), Concat(Items(declaration.value, interfaces))))
  }

  // The loops.

  method MicrosoftIdentifier(value: Text) returns (r: Outcome<seq<byte>>)
    ensures r == if IdentifierOk(value) then Ok(Identifier(value)) else Err(Invalid)
  {
    var bytes := EncodeUtf8(value);
    if |bytes| > 8 || !IsAscii(value) || 0 in bytes {
      return Err(Invalid);
    }
    return Ok(bytes + Zeros(8 - |bytes|));
  }

  // One function section.
  method CompatibleSection(c: CompatibleId, interfaces: set<byte>, seen: set<byte>) returns (r: Outcome<seq<byte>>)
    ensures r == if CompatibleIdOk(c, interfaces) && c.interface !in seen then Ok(Feature(c)) else Err(Invalid)
  {
    hide IdentifierOk, Identifier;
    if c.interface !in interfaces || c.interface in seen {
      return Err(Invalid);
    }
    var output: seq<byte> := [c.interface, 1];
    var id :- MicrosoftIdentifier(c.compatibleId);
    output := output + id;
    var sub :- MicrosoftIdentifier(c.subCompatibleId);
    output := output + sub;
    return Ok(output + Zeros(6));
  }

  // One more section: the ids stay projectable exactly when this one is and its interface is new.
  lemma NextCompatibleId(cs: seq<CompatibleId>, interfaces: set<byte>, i: nat, seen: set<byte>)
    requires i < |cs| && CompatibleIdsOk(cs[..i], interfaces)
    requires seen == set k | 0 <= k < i :: cs[k].interface
    ensures CompatibleIdOk(cs[i], interfaces) && cs[i].interface !in seen
       <==> CompatibleIdsOk(cs[..i + 1], interfaces)
    ensures CompatibleIdsOk(cs, interfaces) ==> CompatibleIdsOk(cs[..i + 1], interfaces)
    ensures CompatibleIdsOk(cs[..i + 1], interfaces) ==>
              Features(cs[..i + 1], interfaces) == Features(cs[..i], interfaces) + [Feature(cs[i])]
  {
    hide CompatibleIdOk, Feature;
    assert cs[..i + 1][..i] == cs[..i];
    forall k | 0 <= k < i ensures cs[..i][k] == cs[k] == cs[..i + 1][k] {
    }
  }

  method CompatibleDescriptor(cs: seq<CompatibleId>, interfaces: set<byte>) returns (r: Outcome<seq<byte>>)
    requires |cs| > 0
    ensures r == if |cs| <= 255 && CompatibleIdsOk(cs, interfaces) then Ok(Concat(CompatibleItems(cs, interfaces)))
                 else Err(Invalid)
  {
    hide CompatibleIdOk, CompatibleIdsOk, Feature, Features, Le32, Concat;
    if |cs| > 255 {
      return Err(Invalid);
    }
    var seen: set<byte>, sections: seq<byte> := {}, [];
    NoSections(interfaces);
    for i := 0 to |cs|
      invariant CompatibleIdsOk(cs[..i], interfaces)
      invariant seen == set k | 0 <= k < i :: cs[k].interface
      invariant sections == Concat(Features(cs[..i], interfaces))
      invariant |sections| == 24 * i
    {
      NextCompatibleId(cs, interfaces, i, seen);
      var section := CompatibleSection(cs[i], interfaces, seen);
      if !section.Ok? {
        return Err(Invalid);
      }
      seen := seen + {cs[i].interface};
      ConcatPush(Features(cs[..i], interfaces), section.value);
      sections := sections + section.value;
    }
    assert cs[..|cs|] == cs;
    var header := [cs[0].interface] + Le32(Truncated32(11 + |cs| * 24));
    var output := header + (Le16(0x100) + Le16(4)) + [|cs|, 0] + sections;
    ConcatOne(output);
    return Ok(output);
  }

  lemma NoSections(interfaces: set<byte>)
    ensures Concat([]) == []
    ensures CompatibleIdsOk([], interfaces) && CompatibleItems([], interfaces) == [] && Features([], interfaces) == []
  {
  }

  method GroupProperties(ps: seq<RegistryProperty>, interfaces: set<byte>)
    returns (r: Outcome<map<byte, seq<seq<byte>>>>)
    ensures if PropertiesOk(ps, interfaces)
            then
              && r.Ok?
              && r.value.Keys == Named(ps)
              && forall k :: k in r.value ==> r.value[k] == Group(ps, interfaces, k)
            else r == Err(Invalid)
  {
    hide NameBytes, Property;
    var groups: map<byte, seq<seq<byte>>> := map[];
    for i := 0 to |ps|
      invariant PropertiesOk(ps[..i], interfaces)
      invariant groups.Keys == Named(ps[..i])
      invariant forall k :: k in groups ==> groups[k] == Group(ps[..i], interfaces, k)
    {
      var p := ps[i];
      assert ps[..i + 1][..i] == ps[..i];
      if p.interface !in interfaces || 0 in p.name {
        return Err(Invalid);
      }
      var feature := PropertyFeature(p);
      if !feature.Ok? {
        return Err(Invalid);
      }
      UnnamedGroup(ps[..i], interfaces, p.interface);
      var group := if p.interface in groups then groups[p.interface] else [];
      groups := groups[p.interface := group + [feature.value]];
    }
    assert ps[..|ps|] == ps;
    return Ok(groups);
  }

  lemma {:induction false} UnnamedGroup(ps: seq<RegistryProperty>, interfaces: set<byte>, k: byte)
    requires PropertiesOk(ps, interfaces)
    ensures k !in Named(ps) <==> Group(ps, interfaces, k) == []
  {
    if |ps| > 0 {
      UnnamedGroup(ps[..|ps| - 1], interfaces, k);
    }
  }

  method PropertyFeature(p: RegistryProperty) returns (r: Outcome<seq<byte>>)
    ensures r == if |NameBytes(p.name)| < 0x1_0000 then Ok(Property(p)) else Err(Invalid)
  {
    var name := EncodeUtf16(p.name) + [0];
    var nameLength := |name| * 2;
    if nameLength >= 0x1_0000 {
      return Err(Invalid);
    }
    var featureLength := 14 + nameLength + |p.data|;
    var feature := Le32(Truncated32(featureLength)) + Le32(p.dataType) + Le16(nameLength);
    feature := feature + UnitBytes(name);
    feature := feature + (Le32(Truncated32(|p.data|)) + p.data);
    return Ok(feature);
  }

  method PropertyDescriptors(ps: seq<RegistryProperty>, interfaces: set<byte>, groups: map<byte, seq<seq<byte>>>)
    returns (r: Outcome<seq<byte>>)
    requires PropertiesOk(ps, interfaces) && groups.Keys == Named(ps)
    requires forall k :: k in groups ==> groups[k] == Group(ps, interfaces, k)
    ensures r == if GroupsFit(ps, interfaces) then Ok(Concat(PropertyItems(ps, interfaces, Ascending(Named(ps)))))
                 else Err(Invalid)
  {
    hide PropertiesOk, Group, Le32, Concat, Ascending;
    var order, output: seq<byte> := Ascending(groups.Keys), [];
    NoSections(interfaces);
    ghost var items: seq<seq<byte>> := [];
    for i := 0 to |order|
      invariant output == Concat(items) && |items| == i
      invariant forall j :: 0 <= j < i ==>
                  |Group(ps, interfaces, order[j])| < 0x1_0000 && items[j] == PropertyItem(ps, interfaces, order[j])
    {
      var features := groups[order[i]];
      if |features| >= 0x1_0000 {
        return Err(Invalid);
      }
      var header := [order[i]] + Le32(Truncated32(11 + |Concat(features)|));
      var item := header + (Le16(0x100) + Le16(5)) + Le16(|features|) + Concat(features);
      ConcatPush(items, item);
      output := output + item;
      items := items + [item];
    }
    forall k: byte ensures |Group(ps, interfaces, k)| < 0x1_0000 {
      UnnamedGroup(ps, interfaces, k);
    }
    assert items == PropertyItems(ps, interfaces, order);
    return Ok(output);
  }

  method ProjectMicrosoftOs1(declaration: Option<MicrosoftOs10>, interfaces: set<byte>)
    returns (r: Outcome<(Option<Microsoft>, seq<byte>)>)
    ensures r == ProjectedMicrosoft(declaration, interfaces)
  {
    hide CompatibleIdsOk, PropertiesOk, GroupsFit, Concat, Ascending;
    NoSections(interfaces);
    if declaration.None? {
      return Ok((None, []));
    }
    var m := declaration.value;
    if m.vendorCode == 0 {
      return Err(Invalid);
    }
    var output: seq<byte> := [];
    if |m.compatibleIds| != 0 {
      output :- CompatibleDescriptor(m.compatibleIds, interfaces);
    }
    var groups :- GroupProperties(m.registryProperties, interfaces);
    var properties :- PropertyDescriptors(m.registryProperties, interfaces, groups);
    ConcatAppend(
      CompatibleItems(m.compatibleIds, interfaces),
      PropertyItems(m.registryProperties, interfaces, Ascending(Named(m.registryProperties))));
    return Ok((Some(Microsoft(m.vendorCode, SIGNATURE)), output + properties));
  }
}
