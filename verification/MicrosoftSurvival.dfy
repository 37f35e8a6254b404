/** Canonical Microsoft OS 1.0 replies come out of the projection byte for byte. */
module MicrosoftSurvival {
  import opened Bytes
  import opened Unicode
  import opened Personality
  import opened Records
  import opened MicrosoftProjection
  import opened MicrosoftAgreement
  import opened Replies
  import OsDescriptors
  import StringTables

  // Function sections.

  /** An identifier field: text, then zeros only. */
  predicate Padded(b: seq<byte>) {
    OsDescriptors.AllZero(b[StringTables.NulAt(b)..])
  }

  predicate CanonicalSection(s: seq<byte>)
    requires |s| == 24
  {
    s[1] == 1 && Padded(s[2..10]) && Padded(s[10..18]) && OsDescriptors.AllZero(s[18..])
  }

  lemma {:induction false} AsciiDecodes(b: seq<byte>)
    requires forall i :: 0 <= i < |b| ==> b[i] < 0x80
    ensures DecodeUtf8(b).Some? && IsAscii(DecodeUtf8(b).value)
  {
    if |b| > 0 {
      AsciiDecodes(b[1..]);
    }
  }

  lemma ZerosAre(z: seq<byte>)
    requires OsDescriptors.AllZero(z)
    ensures z == Zeros(|z|)
  {
  }

  lemma IdentifierSurvives(b: seq<byte>)
    requires |b| == 8 && UsbIdentifier(b).Ok?
    ensures IdentifierOk(UsbIdentifier(b).value)
    ensures Padded(b) ==> Identifier(UsbIdentifier(b).value) == b
  {
    var n := StringTables.NulAt(b);
    var id := b[..n];
    AsciiDecodes(id);
    Utf8Exact(id);
    assert EncodeUtf8(UsbIdentifier(b).value) == id;
    if Padded(b) {
      ZerosAre(b[n..]);
      assert id + b[n..] == b;
    }
  }

  lemma SectionSurvives(s: seq<byte>, interfaces: set<byte>)
    requires |s| == 24 && Section(s, interfaces).Ok?
    ensures CompatibleIdOk(Section(s, interfaces).value, interfaces)
    ensures CanonicalSection(s) ==> Feature(Section(s, interfaces).value) == s
  {
    hide UsbIdentifier, IdentifierOk, Identifier, Padded;
    IdentifierSurvives(s[2..10]);
    IdentifierSurvives(s[10..18]);
    if CanonicalSection(s) {
      ZerosAre(s[18..]);
      assert s == [s[0], s[1]] + s[2..10] + s[10..18] + s[18..];
    }
  }

  /** Every section of a compatible-ID reply is canonical. */
  predicate CanonicalSections(reply: seq<byte>, n: nat)
    requires 16 + n * 24 <= |reply|
  {
    forall i :: 0 <= i < n ==> CanonicalSection(reply[16 + i * 24..16 + (i + 1) * 24])
  }

  lemma {:induction false} SectionsSurvive(reply: seq<byte>, n: nat, interfaces: set<byte>)
    requires 16 + n * 24 <= |reply| && Sections(reply, n, interfaces).Ok? && CanonicalSections(reply, n)
    ensures var ids := Sections(reply, n, interfaces).value;
            && |ids| == n
            && (n > 0 ==> ids[0].interface == reply[16])
            && (CompatibleIdsOk(ids, interfaces) ==> Concat(Features(ids, interfaces)) == reply[16..16 + n * 24])
  {
    hide Section, CanonicalSection, Feature, Concat, CompatibleIdsOk, Features;
    if n == 0 {
      NoSections(interfaces);
    } else {
      SectionsSurvive(reply, n - 1, interfaces);
      LastSection(reply, n, interfaces);
    }
  }

  lemma LastSection(reply: seq<byte>, n: nat, interfaces: set<byte>)
    requires 0 < n && 16 + n * 24 <= |reply| && Sections(reply, n, interfaces).Ok?
    requires CanonicalSection(reply[16 + (n - 1) * 24..16 + (n - 1 + 1) * 24])
    requires var front := Sections(reply, n - 1, interfaces).value;
             && |front| == n - 1
             && (n > 1 ==> front[0].interface == reply[16])
             && (CompatibleIdsOk(front, interfaces) ==>
                   Concat(Features(front, interfaces)) == reply[16..16 + (n - 1) * 24])
    ensures var ids := Sections(reply, n, interfaces).value;
            && |ids| == n
            && ids[0].interface == reply[16]
            && (CompatibleIdsOk(ids, interfaces) ==> Concat(Features(ids, interfaces)) == reply[16..16 + n * 24])
  {
    hide Section, CanonicalSection, Feature, Concat, CompatibleIdsOk, Features;
    var s := reply[16 + (n - 1) * 24..16 + n * 24];
    var front, ids := Sections(reply, n - 1, interfaces).value, Sections(reply, n, interfaces).value;
    SectionSurvives(s, interfaces);
    SectionInterface(s, interfaces);
    assert ids[..n - 1] == front;
    if CompatibleIdsOk(ids, interfaces) {
      FrontOk(ids, interfaces);
      assert reply[16..16 + n * 24] == reply[16..16 + (n - 1) * 24] + s;
    }
  }

  lemma SectionInterface(s: seq<byte>, interfaces: set<byte>)
    requires |s| == 24 && Section(s, interfaces).Ok?
    ensures Section(s, interfaces).value.interface == s[0]
  {
  }

  lemma FrontOk(ids: seq<CompatibleId>, interfaces: set<byte>)
    requires |ids| > 0 && CompatibleIdsOk(ids, interfaces)
    ensures CompatibleIdsOk(ids[..|ids| - 1], interfaces)
    ensures var last := ids[|ids| - 1];
            && IdentifierOk(last.compatibleId)
            && IdentifierOk(last.subCompatibleId)
            && Concat(Features(ids, interfaces)) == Concat(Features(ids[..|ids| - 1], interfaces)) + Feature(last)
  {
    hide Feature, Concat;
    ConcatPush(Features(ids[..|ids| - 1], interfaces), Feature(ids[|ids| - 1]));
  }

  // Properties.

  /** A property of exact lengths, with a well-formed name that ends in its only NUL. */
  predicate CanonicalProperty(b: seq<byte>) {
    && PropertyFits(b)
    && FromLe32(b, 0) == |b|
    && 14 + FromLe16(b, 8) as int + FromLe32(b, 10 + FromLe16(b, 8)) as int == |b|
    && CanonicalName(b[10..10 + FromLe16(b, 8)])
  }

  predicate CanonicalName(b: seq<byte>) {
    var units := UnitsOfBytes(b);
    && |b| % 2 == 0
    && |units| > 0
    && units[|units| - 1] == 0
    && 0 !in units[..|units| - 1]
    && DecodeUtf16(units[..|units| - 1]).Some?
  }

  lemma NameSurvives(b: seq<byte>)
    requires CanonicalName(b)
    ensures Utf16LeString(b).Ok?
    ensures 0 !in Utf16LeString(b).value && NameBytes(Utf16LeString(b).value) == b
  {
    var units := UnitsOfBytes(b);
    var front := units[..|units| - 1];
    Utf16Exact(front);
    Utf16Zero(DecodeUtf16(front).value);
    assert front + [0] == units;
    UnitBytesExact(b);
  }

  lemma PropertySurvives(interface: byte, b: seq<byte>)
    requires CanonicalProperty(b) && |b| < 0x1_0000_0000
    ensures ReadProperty(interface, b).Ok?
    ensures var p := ReadProperty(interface, b).value;
            p.interface == interface && 0 !in p.name && |NameBytes(p.name)| < 0x1_0000 && Property(p) == b
  {
    hide CanonicalName, NameBytes, Utf16LeString, Le32, FromLe32;
    var n: int := FromLe16(b, 8);
    var data := 14 + n;
    NameSurvives(b[10..10 + n]);
    StringTables.FieldOf(b, 0);
    StringTables.FieldOf(b, 4);
    StringTables.FieldOf(b, 10 + n);
    FieldsOfSuffix(b, 8, 2);
    LeFieldsDetermineBytes(b[8..10]);
    var p := ReadProperty(interface, b).value;
    assert b[0..4] + b[4..8] + b[8..10] == b[..10];
    assert b == b[..10] + b[10..10 + n] + (b[10 + n..data] + b[data..]);
    assert p.data == b[data..];
  }

  /** The properties of a reply, if they are all canonical. */
  predicate CanonicalProperties(reply: seq<byte>) {
    && 10 <= |reply| < 0x1_0000_0000
    && FromLe32(reply, 0) <= |reply|
    && var fs := OsProperty.Take(reply[10..], FromLe16(reply, 8));
       fs.Some? && forall i :: 0 <= i < |fs.value| ==> CanonicalProperty(fs.value[i])
  }

  /** The property sections a firmware reply carries; none when the request stalled. */
  function Sent(reply: Reply): seq<seq<byte>>
    requires reply.Answer? ==> CanonicalProperties(reply.bytes)
  {
    if reply.Answer? then OsProperty.Take(reply.bytes[10..], FromLe16(reply.bytes, 8)).value else []
  }

  /** Properties of one interface whose encodings are `fs`. */
  predicate EncodedAs(ps: seq<RegistryProperty>, interface: byte, fs: seq<seq<byte>>) {
    && |ps| == |fs|
    && forall i :: 0 <= i < |ps| ==>
         && ps[i].interface == interface && 0 !in ps[i].name
         && |NameBytes(ps[i].name)| < 0x1_0000 && Property(ps[i]) == fs[i]
  }

  lemma {:induction false} PropertiesSurvive(interface: byte, b: seq<byte>, n: nat, fs: seq<seq<byte>>)
    requires |b| < 0x1_0000_0000 && OsProperty.Take(b, n) == Some(fs)
    requires forall i :: 0 <= i < |fs| ==> CanonicalProperty(fs[i])
    ensures ReadProperties(interface, b, n).Ok? && EncodedAs(ReadProperties(interface, b, n).value, interface, fs)
    decreases n
  {
    hide Property, NameBytes, FromLe32, CanonicalProperty, ReadProperty, EncodedAs;
    if n == 0 {
      NoneEncoded(interface);
    } else {
      DeclaredField(b);
      var size := OsProperty.Declared(b);
      var rest := OsProperty.Take(b[size..], n - 1).value;
      assert fs[0] == b[..size] && fs[1..] == rest;
      PropertySurvives(interface, fs[0]);
      CanonicalFront(interface, b, fs[0]);
      PropertiesSurvive(interface, b[size..], n - 1, rest);
      EncodedMore(ReadProperty(interface, b).value, ReadProperties(interface, b[size..], n - 1).value, interface, fs);
    }
  }

  lemma NoneEncoded(interface: byte)
    ensures EncodedAs([], interface, [])
  {
  }

  lemma EncodedMore(p: RegistryProperty, ps: seq<RegistryProperty>, interface: byte, fs: seq<seq<byte>>)
    requires |fs| > 0 && EncodedAs(ps, interface, fs[1..])
    requires p.interface == interface && 0 !in p.name && |NameBytes(p.name)| < 0x1_0000 && Property(p) == fs[0]
    ensures EncodedAs([p] + ps, interface, fs)
  {
    hide Property, NameBytes;
    var all := [p] + ps;
    assert forall i :: 0 < i < |all| ==> all[i] == ps[i - 1] && fs[i] == fs[1..][i - 1];
  }

  // A canonical property reads the same in front of other bytes.
  lemma CanonicalFront(interface: byte, b: seq<byte>, f: seq<byte>)
    requires CanonicalProperty(f) && f <= b
    ensures ReadProperty(interface, b) == ReadProperty(interface, f)
    ensures FromLe32(b, 0) == |f|
  {
    hide CanonicalName, Utf16LeString;
    var n: int := FromLe16(f, 8);
    assert b[10..10 + n] == f[10..10 + n];
    assert FromLe16(b, 8) == n;
    assert FromLe32(b, 10 + n) == FromLe32(f, 10 + n) && FromLe32(b, 4) == FromLe32(f, 4);
    var d := 14 + n + FromLe32(f, 10 + n) as int;
    assert b[14 + n..d] == f[14 + n..d];
  }

  lemma ReplySurvives(interface: byte, reply: seq<byte>)
    requires CanonicalProperties(reply)
    ensures PropertiesReply(interface, reply).Ok?
    ensures EncodedAs(PropertiesReply(interface, reply).value, interface, Sent(Answer(reply)))
  {
    hide FromLe32, FromLe16, CanonicalProperty, EncodedAs;
    var n := FromLe16(reply, 8);
    PropertiesSurvive(interface, reply[10..], n, OsProperty.Take(reply[10..], n).value);
  }

  // Grouping.

  lemma {:induction false} GroupOfBoth(
    ps: seq<RegistryProperty>, qs: seq<RegistryProperty>, interfaces: set<byte>, k: byte)
    requires PropertiesOk(ps + qs, interfaces)
    ensures PropertiesOk(ps, interfaces) && PropertiesOk(qs, interfaces)
    ensures Group(ps + qs, interfaces, k) == Group(ps, interfaces, k) + Group(qs, interfaces, k)
  {
    hide Property, NameBytes;
    var both := ps + qs;
    assert forall i :: 0 <= i < |ps| ==> both[i] == ps[i];
    assert forall i :: 0 <= i < |qs| ==> both[|ps| + i] == qs[i];
    if |qs| == 0 {
      assert both == ps;
    } else {
      assert both[..|both| - 1] == ps + qs[..|qs| - 1];
      GroupOfBoth(ps, qs[..|qs| - 1], interfaces, k);
    }
  }

  lemma {:induction false} GroupOfOne(
    ps: seq<RegistryProperty>, interfaces: set<byte>, interface: byte, fs: seq<seq<byte>>, k: byte)
    requires EncodedAs(ps, interface, fs) && interface in interfaces
    ensures PropertiesOk(ps, interfaces)
    ensures Group(ps, interfaces, k) == if k == interface then fs else []
  {
    hide Property, NameBytes;
    if |ps| > 0 {
      GroupOfOne(ps[..|ps| - 1], interfaces, interface, fs[..|fs| - 1], k);
      assert fs == fs[..|fs| - 1] + [fs[|fs| - 1]];
    }
  }

  /** A stall, or canonical properties. */
  predicate CanonicalAnswer(reply: Reply) {
    reply.Stalled? || (reply.Answer? && CanonicalProperties(reply.bytes))
  }

  /** The `n` replies from `at` on are stalls or canonical answers. */
  predicate CanonicalAnswers(script: Script, at: nat, n: nat) {
    n == 0 || (CanonicalAnswers(script, at, n - 1) && CanonicalAnswer(script(at + n - 1)))
  }

  /** The sections the firmware sent for interface `k` when asked for the interfaces of `order`. */
  function SentFor(script: Script, at: nat, order: seq<byte>, k: byte): seq<seq<byte>>
    requires CanonicalAnswers(script, at, |order|)
  {
    if |order| == 0 then []
    else if order[|order| - 1] == k then Sent(script(at + |order| - 1))
    else SentFor(script, at, order[..|order| - 1], k)
  }

  lemma {:induction false} Unsent(script: Script, at: nat, order: seq<byte>, k: byte)
    requires CanonicalAnswers(script, at, |order|) && k !in order
    ensures SentFor(script, at, order, k) == []
  {
    if |order| > 0 {
      Unsent(script, at, order[..|order| - 1], k);
    }
  }

  // The properties of all interfaces: each group is what the firmware sent for its interface.
  lemma {:induction false} GroupsSurvive(script: Script, at: nat, order: seq<byte>, interfaces: set<byte>, k: byte)
    requires CanonicalAnswers(script, at, |order|)
    requires forall i :: 0 <= i < |order| ==> order[i] in interfaces
    requires forall i, j :: 0 <= i < j < |order| ==> order[i] < order[j]
    ensures PropertiesFrom(script, at, order).Ok?
    ensures var ps := PropertiesFrom(script, at, order).value;
            PropertiesOk(ps, interfaces) && Group(ps, interfaces, k) == SentFor(script, at, order, k)
  {
    hide CanonicalProperties, Group, PropertiesReply, EncodedAs, PropertiesOk, Sent;
    if |order| == 0 {
      NoProperties(interfaces, k);
    } else {
      var n := |order| - 1;
      var front, last, reply := order[..n], order[n], script(at + n);
      GroupsSurvive(script, at, front, interfaces, k);
      assert last !in front by {
        assert forall i :: 0 <= i < n ==> front[i] == order[i];
      }
      if k == last {
        Unsent(script, at, front, k);
      }
      var ps := PropertiesFrom(script, at, front).value;
      if reply.Answer? {
        ReplySurvives(last, reply.bytes);
        GroupPush(ps, PropertiesReply(last, reply.bytes).value, interfaces, last, Sent(reply), k);
      } else {
        StalledSends(reply);
      }
    }
  }

  lemma NoProperties(interfaces: set<byte>, k: byte)
    ensures PropertiesOk([], interfaces) && Group([], interfaces, k) == []
  {
  }

  lemma StalledSends(reply: Reply)
    requires !reply.Answer?
    ensures Sent(reply) == []
  {
  }

  lemma GroupPush(
    ps: seq<RegistryProperty>, qs: seq<RegistryProperty>, interfaces: set<byte>, last: byte, fs: seq<seq<byte>>, k: byte)
    requires PropertiesOk(ps, interfaces) && EncodedAs(qs, last, fs) && last in interfaces
    ensures PropertiesOk(ps + qs, interfaces)
    ensures Group(ps + qs, interfaces, k) == Group(ps, interfaces, k) + if k == last then fs else []
  {
    hide EncodedAs, Group, NameBytes, Property;
    GroupOfOne(qs, interfaces, last, fs, k);
    GroupOfBoth(ps, qs, interfaces, k);
  }

  // The whole declaration.

  /** Canonical answers: a compatible-ID reply, if any, and a properties reply for each interface that sends one. */
  predicate CanonicalReplies(script: Script, at: nat, interfaces: set<byte>) {
    && (script(at).Answer? ==>
          |script(at).bytes| >= 16
          && 16 + script(at).bytes[8] as int * 24 <= |script(at).bytes|
          && CanonicalSections(script(at).bytes, script(at).bytes[8]))
    && CanonicalAnswers(script, at + 1, |Ascending(interfaces)|)
  }

  // The parts of a projectable declaration: its function sections are the firmware's bytes, and the properties of each
  // interface are the firmware's sections for that interface in their order.
  lemma PartsSurvive(script: Script, at: nat, vendor: byte, interfaces: set<byte>)
    requires DeclarationFrom(script, at, vendor, interfaces).Ok? && CanonicalReplies(script, at, interfaces)
    requires Projectable(DeclarationFrom(script, at, vendor, interfaces).value, interfaces)
    ensures var m, order := DeclarationFrom(script, at, vendor, interfaces).value, Ascending(interfaces);
            && CompatibleItems(m.compatibleIds, interfaces) ==
                 (if script(at).Stalled? then []
                  else
                    var reply, n := script(at).bytes, script(at).bytes[8];
                    [Item(reply[16], OsDescriptors.COMPATIBLE, [n, 0], reply[16..16 + n as int * 24])])
            && forall k :: k in interfaces ==>
                 var sent := SentFor(script, at + 1, order, k);
                 && Group(m.registryProperties, interfaces, k) == sent
                 && (k in MicrosoftProjection.Named(m.registryProperties) <==> sent != [])
                 && PropertyItem(m.registryProperties, interfaces, k)
                    == Item(k, OsDescriptors.PROPERTIES, Le16(|sent|), Concat(sent))
  {
    hide Ascending, Group, PropertiesOk, CompatibleIdsOk, CanonicalAnswers, PropertiesFrom, Concat, Item, Sections;
    hide Features;
    hide CanonicalSections, SentFor;
    var m, order := DeclarationFrom(script, at, vendor, interfaces).value, Ascending(interfaces);
    if script(at).Answer? {
      var reply := script(at).bytes;
      SectionsSurvive(reply, reply[8], interfaces);
    } else {
      NoSections(interfaces);
    }
    forall k | k in interfaces
      ensures Group(m.registryProperties, interfaces, k) == SentFor(script, at + 1, order, k)
      ensures k in MicrosoftProjection.Named(m.registryProperties) <==> Group(m.registryProperties, interfaces, k) != []
    {
      GroupsSurvive(script, at + 1, order, interfaces, k);
      UnnamedGroup(m.registryProperties, interfaces, k);
    }
  }
}
