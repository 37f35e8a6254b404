/** The translator against the validator: which projections `inspect` accepts, and what it reads in them. */
module Agreement {
  import opened Bytes
  import opened Personality
  import opened Records
  import opened Configuration
  import opened Renumbering
  import opened StringProjection
  import opened Layouts
  import opened MicrosoftProjection
  import opened MicrosoftAgreement
  import opened Translator
  import FunctionFs
  import OsDescriptors
  import StringTables

  /** Endpoint addresses that are pairwise distinct, with no endpoint numbered zero. */
  predicate AddressesOk(es: seq<Endpoint>) {
    && (forall i :: 0 <= i < |es| ==> es[i].address % 16 != 0)
    && (forall i, j :: 0 <= i < j < |es| ==> es[i].address != es[j].address)
  }

  /** The endpoint the validator reads agrees with the translator's in direction and transfer type. */
  predicate Matches(read: FunctionFs.Endpoint, e: Endpoint) {
    read == FunctionFs.Endpoint(if e.address >= 0x80 then FunctionFs.In else FunctionFs.Out, e.transferType)
  }

  predicate MatchesAll(read: seq<FunctionFs.Endpoint>, es: seq<Endpoint>) {
    |read| == |es| && forall i :: 0 <= i < |es| ==> Matches(read[i], es[i])
  }

  // The two walks over a configuration.

  lemma AddressesPush(es: seq<Endpoint>, e: Endpoint, addresses: set<byte>)
    requires addresses == set i | 0 <= i < |es| :: es[i].address
    ensures AddressesOk(es + [e]) <==> AddressesOk(es) && e.address % 16 != 0 && e.address !in addresses
    ensures (set i | 0 <= i < |es + [e]| :: (es + [e])[i].address) == addresses + {e.address}
  {
    var all := es + [e];
    assert forall i :: 0 <= i < |es| ==> all[i] == es[i];
    assert all[|es|] == e;
  }

  // The validator accepts a speed set exactly when no descriptor is short and the addresses are in order.
  lemma {:induction false} SetAccepted(ds: seq<seq<byte>>)
    requires UsbDescriptor.AreRecords(ds)
    ensures FunctionFs.ParseSet(ds).Some? <==> NoneShort(ds) && AddressesOk(EndpointsOf(ds))
    ensures FunctionFs.ParseSet(ds).Some? ==>
              var s, es := FunctionFs.ParseSet(ds).value, EndpointsOf(ds);
              && MatchesAll(s.endpoints, es)
              && s.interfaces == InterfacesOf(ds)
              && s.addresses == set i | 0 <= i < |es| :: es[i].address
  {
    if |ds| > 0 {
      var front, d := ds[..|ds| - 1], ds[|ds| - 1];
      SetAccepted(front);
      ShortLast(ds);
      SetStep(front, d);
      assert front + [d] == ds;
    }
  }

  lemma ShortLast(ds: seq<seq<byte>>)
    requires |ds| > 0
    ensures NoneShort(ds) <==> NoneShort(ds[..|ds| - 1]) && !IsShort(ds[|ds| - 1])
  {
    assert forall i :: 0 <= i < |ds| - 1 ==> ds[..|ds| - 1][i] == ds[i];
  }

  lemma SetStep(front: seq<seq<byte>>, d: seq<byte>)
    requires UsbDescriptor.IsRecord(d)
    requires FunctionFs.ParseSet(front).Some? <==> NoneShort(front) && AddressesOk(EndpointsOf(front))
    requires FunctionFs.ParseSet(front).Some? ==>
               var s, es := FunctionFs.ParseSet(front).value, EndpointsOf(front);
               && MatchesAll(s.endpoints, es)
               && s.interfaces == InterfacesOf(front)
               && s.addresses == set i | 0 <= i < |es| :: es[i].address
    ensures var ds := front + [d];
            && (FunctionFs.ParseSet(ds).Some?
                <==> NoneShort(front) && !IsShort(d) && AddressesOk(EndpointsOf(ds)))
            && (FunctionFs.ParseSet(ds).Some? ==>
                  var s, es := FunctionFs.ParseSet(ds).value, EndpointsOf(ds);
                  && MatchesAll(s.endpoints, es)
                  && s.interfaces == InterfacesOf(ds)
                  && s.addresses == set i | 0 <= i < |es| :: es[i].address)
  {
    hide NoneShort, AddressesOk, Framing.IsRecord;
    var ds, es := front + [d], EndpointsOf(front);
    assert ds[..|ds| - 1] == front && es + [] == es;
    if IsEndpoint(d) {
      AddressesPush(es, EndpointOf(d), set i | 0 <= i < |es| :: es[i].address);
    }
  }

  // Renumbering strings does not change what either walk sees.
  lemma RelabelledAccepted(numbers: map<byte, byte>, ds: seq<seq<byte>>)
    requires UsbDescriptor.AreRecords(ds)
    ensures UsbDescriptor.AreRecords(RelabelledAll(numbers, ds))
    ensures NoneShort(RelabelledAll(numbers, ds)) <==> NoneShort(ds)
  {
    var rs := RelabelledAll(numbers, ds);
    forall i | 0 <= i < |ds| ensures UsbDescriptor.IsRecord(rs[i]) && (IsShort(rs[i]) <==> IsShort(ds[i])) {
      RelabelledIsRecord(numbers, ds[i]);
    }
  }

  // The emitted blob, as a layout.

  ghost function OsItems(declaration: Option<MicrosoftOs10>, interfaces: set<byte>): seq<seq<byte>>
    requires declaration.Some? ==> Projectable(declaration.value, interfaces)
  {
    if declaration.Some? then Items(declaration.value, interfaces) else []
  }

  ghost function LayoutOf(w: Walked, ds: seq<seq<byte>>, items: seq<seq<byte>>): Layout {
    Layout(FlagsFor(Concat(items)), [RelabelledAll(w.found.numbers, ds)], items)
  }

  lemma {:induction false} RecordsCount(f: Framing, rs: seq<seq<byte>>)
    requires f.Valid() && f.AreRecords(rs)
    ensures |Concat(rs)| >= |rs|
    ensures |Concat(rs)| == 0 <==> |rs| == 0
  {
    if |rs| > 0 {
      RecordsCount(f, rs[1..]);
    }
  }

  lemma FlagFacts(os: seq<byte>)
    ensures Supported(FlagsFor(os)) && Speeds(FlagsFor(os)) == 1
    ensures Has(FlagsFor(os), HAS_MS_OS_DESC) <==> |os| > 0
  {
    var flags := FlagsFor(os);
    assert Speeds(flags, 0) == 0 && Speeds(flags, 1) == 1;
    assert Speeds(flags, 2) == 1 && Speeds(flags, 3) == 1;
  }

  lemma EmitsLayout(w: Walked, ds: seq<seq<byte>>, items: seq<seq<byte>>, blob: seq<byte>)
    requires Walk(ds) == Some(w) && UsbDescriptor.AreRecords(ds) && |ds| < 0x1_0000_0000
    requires OsDescriptor.AreRecords(items)
    requires Blob(w.found.count, w.body, Concat(items)) == Ok(blob)
    ensures blob == Encode(LayoutOf(w, ds, items)) && Framed(LayoutOf(w, ds, items))
  {
    hide Walk, RelabelledAll, Le32, Framing.Split, FlagsFor, Start, EncodeFields, Supported, Has, Speeds;
    hide Framing.AreRecords;
    var os, l := Concat(items), LayoutOf(w, ds, items);
    var rs := RelabelledAll(w.found.numbers, ds);
    FlagFacts(os);
    WalkGathers(ds, w);
    WalkRewrites(ds, w);
    RelabelledAccepted(w.found.numbers, ds);
    RecordsCount(OsDescriptor, items);
    OsDescriptor.SplitExact(os, items);
    OneSet(rs);
    assert CountFields(l) == [Truncated32(|ds|)] + if |os| == 0 then [] else [Truncated32(|items|)];
    assert Payload(l) == w.body + os;
  }

  lemma OneSet(rs: seq<seq<byte>>)
    ensures Counts([rs]) == [Truncated32(|rs|)] && ConcatSets([rs]) == Concat(rs)
    ensures UsbDescriptor.AreRecords(rs) && |rs| < 0x1_0000_0000 ==> SetsFramed([rs])
  {
    hide Concat, Framing.AreRecords, Counts, AreSets;
    assert [rs][1..] == [];
    assert ConcatSets([rs][1..]) == [] && Concat(rs) + [] == Concat(rs);
    OneCount(rs);
    if UsbDescriptor.AreRecords(rs) && |rs| < 0x1_0000_0000 {
      LoneSet(rs);
    }
  }

  lemma OneCount(rs: seq<seq<byte>>)
    ensures Counts([rs]) == [Truncated32(|rs|)]
  {
    assert Counts([rs][1..]) == [];
  }

  lemma LoneSet(rs: seq<seq<byte>>)
    requires UsbDescriptor.AreRecords(rs) && |rs| < 0x1_0000_0000
    ensures AreSets([rs], [Truncated32(|rs|)])
  {
    hide Framing.AreRecords;
    var counts := [Truncated32(|rs|)];
    assert [rs][1..] == [] && |counts[1..]| == 0;
  }

  // The judgement on the emitted layout.
  lemma LayoutAccepted(w: Walked, ds: seq<seq<byte>>, items: seq<seq<byte>>)
    requires Walk(ds) == Some(w) && UsbDescriptor.AreRecords(ds)
    requires OsDescriptor.AreRecords(items)
    ensures FunctionFs.Acceptable(LayoutOf(w, ds, items))
       <==> AddressesOk(w.found.endpoints) && OsDescriptors.ItemsOk(items, w.found.interfaces)
    ensures FunctionFs.Acceptable(LayoutOf(w, ds, items)) ==>
              MatchesAll(FunctionFs.Topology(LayoutOf(w, ds, items).sets).endpoints, w.found.endpoints)
  {
    hide Walk, RelabelledAll, FlagsFor, Has, Framing.AreRecords, OsDescriptors.ItemsOk, AddressesOk, MatchesAll;
    hide NoneShort;
    hide FunctionFs.ParseSet;
    var l, rs := LayoutOf(w, ds, items), RelabelledAll(w.found.numbers, ds);
    FlagFacts(Concat(items));
    WalkGathers(ds, w);
    WalkAccepts(ds);
    RelabelledAccepted(w.found.numbers, ds);
    RelabellingKeepsTopology(w.found.numbers, ds);
    SetAccepted(rs);
    RecordsCount(OsDescriptor, items);
    assert |l.sets| == 1 && l.sets[0] == rs;
    assert FunctionFs.Agree(l.sets) <==> FunctionFs.ParseSet(rs).Some?;
    if |items| == 0 {
      NoItemsOk(items, w.found.interfaces);
    }
  }

  lemma NoItemsOk(items: seq<seq<byte>>, interfaces: set<byte>)
    requires |items| == 0
    ensures OsDescriptors.ItemsOk(items, interfaces)
  {
  }

  /** What `inspect` demands beyond `project`. */
  ghost predicate Inspectable(endpoints: seq<Endpoint>, microsoft: Option<MicrosoftOs10>) {
    && AddressesOk(endpoints)
    && (microsoft.Some? ==>
          AllLegible(microsoft.value.compatibleIds) && AllRegistrable(microsoft.value.registryProperties))
  }

  lemma OsItemsAccepted(microsoft: Option<MicrosoftOs10>, interfaces: set<byte>)
    requires microsoft.Some? ==> Projectable(microsoft.value, interfaces)
    requires |Concat(OsItems(microsoft, interfaces))| < 0x1_0000_0000
    ensures OsDescriptor.AreRecords(OsItems(microsoft, interfaces))
    ensures OsDescriptors.ItemsOk(OsItems(microsoft, interfaces), interfaces)
       <==> (microsoft.Some? ==>
               AllLegible(microsoft.value.compatibleIds) && AllRegistrable(microsoft.value.registryProperties))
  {
    hide Items, Projectable, AllLegible, AllRegistrable, Concat;
    if microsoft.Some? {
      ItemsAccepted(microsoft.value, interfaces);
    }
  }

  // The descriptor blob of a projection.
  lemma DescriptorsAgree(w: Walked, ds: seq<seq<byte>>, microsoft: Option<MicrosoftOs10>, blob: seq<byte>)
    requires Walk(ds) == Some(w) && UsbDescriptor.AreRecords(ds) && |ds| < 0x1_0000_0000
    requires microsoft.Some? ==> Projectable(microsoft.value, w.found.interfaces)
    requires Blob(w.found.count, w.body, Concat(OsItems(microsoft, w.found.interfaces))) == Ok(blob)
    ensures var inspection := FunctionFs.InspectedDescriptors(blob);
            && !inspection.Panic?
            && (inspection.Ok? <==> Inspectable(w.found.endpoints, microsoft))
            && (inspection.Ok? ==> MatchesAll(inspection.value.endpoints, w.found.endpoints))
  {
    hide Walk, AddressesOk, MatchesAll, AllLegible, AllRegistrable, Projectable, OsDescriptors.ItemsOk, OsItems;
    hide Concat, RelabelledAll;
    hide Framed, Encode, FunctionFs.Acceptable, Framing.AreRecords, FunctionFs.Unguarded;
    var items := OsItems(microsoft, w.found.interfaces);
    OsItemsAccepted(microsoft, w.found.interfaces) by {
      assert |Concat(items)| < 0x1_0000_0000;
    }
    var l := LayoutOf(w, ds, items);
    EmitsLayout(w, ds, items, blob);
    LayoutAccepted(w, ds, items);
    LayoutExact(blob, l);
    Guarded(blob, l);
  }

  lemma Guarded(blob: seq<byte>, l: Layout)
    requires ReadLayout(blob) == Some(l) && |l.sets| > 0
    ensures !FunctionFs.Unguarded(blob)
  {
    LayoutExact(blob, l);
  }

  /**
   The blob of a projection is the layout of the relabelled configuration and the Microsoft OS descriptors: each count in
   its header is the number of descriptors the validator then reads.
   */
  lemma ProjectionLayout(
    device: seq<byte>, config: seq<byte>, strings: Descriptors,
    microsoft: Option<MicrosoftOs10>, webUsb: Option<WebUsb>)
    requires Projected(device, config, strings, microsoft, webUsb).Ok?
    ensures var p, w := Projected(device, config, strings, microsoft, webUsb).value, Project(config[9..]).value;
            var ds := UsbDescriptor.Split(config[9..]).value;
            && (microsoft.Some? ==> Projectable(microsoft.value, w.found.interfaces))
            && ReadLayout(p.descriptors) == Some(LayoutOf(w, ds, OsItems(microsoft, w.found.interfaces)))
  {
    hide Strings, Blob, IdentityOf, Walk, FromLe16, Concat, Projectable, LayoutOf, ReadLayout, Framed, Encode, Items;
    hide LanguageId, ProjectWebUsb, Framing.Split, Framing.AreRecords, OsDescriptors.ItemsOk;
    hide AllLegible, AllRegistrable;
    var w, ds := Project(config[9..]).value, UsbDescriptor.Split(config[9..]).value;
    var p, items := Projected(device, config, strings, microsoft, webUsb).value, OsItems(microsoft, w.found.interfaces);
    UsbDescriptor.SplitExact(config[9..], ds);
    RecordsCount(UsbDescriptor, ds);
    NoSections(w.found.interfaces);
    BlobFits(w.found.count, w.body, Concat(items));
    OsItemsAccepted(microsoft, w.found.interfaces);
    EmitsLayout(w, ds, items, p.descriptors);
    LayoutExact(p.descriptors, LayoutOf(w, ds, items));
  }

  lemma BlobFits(count: nat, body: seq<byte>, os: seq<byte>)
    ensures Blob(count, body, os).Ok? ==> |os| < 0x1_0000_0000
  {
  }

  /**
   For every personality `project` accepts, `inspect` never panics on the projected blobs, and accepts them exactly
   when the personality is Inspectable. It then reads the endpoints `project` listed: as many, in the same order,
   each with the same direction and transfer type.
   */
  lemma ProjectionInspected(
    device: seq<byte>, config: seq<byte>, strings: Descriptors,
    microsoft: Option<MicrosoftOs10>, webUsb: Option<WebUsb>)
    requires Projected(device, config, strings, microsoft, webUsb).Ok?
    ensures var p := Projected(device, config, strings, microsoft, webUsb).value;
            var inspection := FunctionFs.Inspected(p.descriptors, p.strings);
            && !inspection.Panic?
            && (inspection.Ok? <==> Inspectable(p.endpoints, microsoft))
            && (inspection.Ok? ==> MatchesAll(inspection.value.endpoints, p.endpoints))
  {
    hide FunctionFs.InspectedDescriptors, StringTables.ReadBlob, Strings, Blob, Inspectable, MatchesAll, IdentityOf;
    hide Walk, FromLe16, Concat;
    var language := LanguageId(strings).value;
    var w := Project(config[9..]).value;
    var ds := UsbDescriptor.Split(config[9..]).value;
    UsbDescriptor.SplitExact(config[9..], ds);
    RecordsCount(UsbDescriptor, ds);
    StringMeaning(strings, language, ds, w);
    NoSections(w.found.interfaces);
    var p := Projected(device, config, strings, microsoft, webUsb).value;
    DescriptorsAgree(w, ds, microsoft, p.descriptors);
  }

  // Several speed sets.

  /** The endpoints of a set as the validator compares them: direction and transfer type, in order. */
  function KindsOf(ds: seq<seq<byte>>): (r: seq<(bool, byte)>)
    ensures |r| == |EndpointsOf(ds)|
  {
    var es := EndpointsOf(ds);
    seq(|es|, i requires 0 <= i < |es| => (es[i].address >= 128, es[i].transferType))
  }

  /**
   Speed sets are accepted together exactly when none has a short descriptor or a repeated or zero endpoint number, and
   all have the same interfaces and, in order, endpoints of the same directions and transfer types.
   */
  lemma SetsAgreeExactly(sets: seq<seq<seq<byte>>>)
    requires forall i :: 0 <= i < |sets| ==> UsbDescriptor.AreRecords(sets[i])
    ensures FunctionFs.Agree(sets) <==>
              forall i :: 0 <= i < |sets| ==>
                && NoneShort(sets[i]) && AddressesOk(EndpointsOf(sets[i]))
                && InterfacesOf(sets[i]) == InterfacesOf(sets[0]) && KindsOf(sets[i]) == KindsOf(sets[0])
  {
    hide FunctionFs.ParseSet, NoneShort, AddressesOk, EndpointsOf, InterfacesOf, Framing.AreRecords, KindsOf;
    if |sets| > 0 {
      SetAccepted(sets[0]);
      forall i | 0 <= i < |sets|
        ensures FunctionFs.ParseSet(sets[i]).Some? <==> NoneShort(sets[i]) && AddressesOk(EndpointsOf(sets[i]))
        ensures FunctionFs.ParseSet(sets[i]).Some? && FunctionFs.ParseSet(sets[0]).Some? ==>
                  (FunctionFs.SameTopology(FunctionFs.ParseSet(sets[0]).value, FunctionFs.ParseSet(sets[i]).value) <==>
                     InterfacesOf(sets[i]) == InterfacesOf(sets[0]) && KindsOf(sets[i]) == KindsOf(sets[0]))
      {
        SetAccepted(sets[i]);
        if FunctionFs.ParseSet(sets[i]).Some? && FunctionFs.ParseSet(sets[0]).Some? {
          SameKinds(
            FunctionFs.ParseSet(sets[0]).value.endpoints, sets[0], FunctionFs.ParseSet(sets[i]).value.endpoints,
            sets[i]);
        }
      }
    }
  }

  lemma SameKinds(
    xs: seq<FunctionFs.Endpoint>, ds: seq<seq<byte>>, ys: seq<FunctionFs.Endpoint>, es: seq<seq<byte>>)
    requires MatchesAll(xs, EndpointsOf(ds)) && MatchesAll(ys, EndpointsOf(es))
    ensures xs == ys <==> KindsOf(es) == KindsOf(ds)
  {
    hide EndpointsOf;
    var a, b := KindsOf(ds), KindsOf(es);
    assert |a| == |xs| && |b| == |ys|;
    if xs == ys {
      forall i | 0 <= i < |a| ensures a[i] == b[i] {
        assert Matches(xs[i], EndpointsOf(ds)[i]) && Matches(ys[i], EndpointsOf(es)[i]);
      }
    }
    if a == b {
      forall i | 0 <= i < |xs| ensures xs[i] == ys[i] {
        assert Matches(xs[i], EndpointsOf(ds)[i]) && Matches(ys[i], EndpointsOf(es)[i]);
        assert a[i] == b[i];
      }
    }
  }
}
