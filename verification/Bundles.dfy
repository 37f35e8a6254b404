/** A whole personality: what is promised of the blobs it compiles to, and where the promise ends. */
module Bundles {
  import opened Bytes
  import opened Unicode
  import opened Personality
  import opened Records
  import opened Configuration
  import opened StringProjection
  import opened MicrosoftProjection
  import opened Translator
  import opened Agreement
  import Renumbering
  import FunctionFs

  /** ProjectionInspected, for a whole personality. */
  lemma BundleInspected(bundle: UsbPersonality)
    requires Discovered(bundle).Ok?
    ensures var p := Discovered(bundle).value;
            var inspection := FunctionFs.Inspected(p.descriptors, p.strings);
            && !inspection.Panic?
            && (inspection.Ok? <==> Inspectable(p.endpoints, bundle.microsoftOs1))
            && (inspection.Ok? ==> MatchesAll(inspection.value.endpoints, p.endpoints))
  {
    hide Projected, FunctionFs.Inspected, Inspectable, MatchesAll;
    ProjectionInspected(
      bundle.deviceDescriptor, bundle.configurationDescriptor, Keyed(bundle.strings).value,
      bundle.microsoftOs1, bundle.webUsb);
  }

  // A device with one interface and one endpoint.

  function Device(manufacturer: byte): seq<byte> {
    [18, 1, 0, 2, 0, 0, 0, 64, 0x6B, 0x1D, 4, 1, 0, 1, manufacturer, 0, 0, 1]
  }

  const INTERFACE_DESCRIPTOR: seq<byte> := [9, 4, 0, 0, 1, 0xFF, 0, 0, 0]

  function EndpointDescriptor(address: byte): seq<byte> {
    [7, 5, address, 2, 64, 0, 0]
  }

  function Sample(manufacturer: byte, address: byte, strings: seq<StringDescriptor>): UsbPersonality {
    UsbPersonality(
      SCHEMA, FullSpeed, Device(manufacturer),
      [9, 2, 25, 0, 1, 1, 0, 0x80, 50] + INTERFACE_DESCRIPTOR + EndpointDescriptor(address), strings, None, None)
  }

  const LANGUAGES := StringDescriptor(0, 0, [4, 3, 9, 4])

  lemma SampleWalk(address: byte)
    ensures var b := INTERFACE_DESCRIPTOR + EndpointDescriptor(address);
            && Project(b).Ok?
            && |Project(b).value.body| == 16
            && Project(b).value.found == Inspection(2, [Endpoint(address, 2, 64)], map[], {0})
  {
    hide Walk, Framing.Split;
    var i, e := INTERFACE_DESCRIPTOR, EndpointDescriptor(address);
    SampleRecords(address);
    WalkTwo(i, e);
  }

  lemma SampleRecords(address: byte)
    ensures var i, e := INTERFACE_DESCRIPTOR, EndpointDescriptor(address);
            UsbDescriptor.Split(i + e) == Some([i, e])
  {
    var i, e := INTERFACE_DESCRIPTOR, EndpointDescriptor(address);
    DeclaredField(i);
    DeclaredField(e);
    ConcatOne(e);
    assert [i, e][1..] == [e];
    UsbDescriptor.SplitExact(i + e, [i, e]);
  }

  lemma WalkTwo(i: seq<byte>, e: seq<byte>)
    requires !Refuses(START, i) && !Refuses(Visit(START, i), e)
    ensures Walk([i, e]) == Some(Visit(Visit(START, i), e))
  {
    assert [i, e][..1] == [i];
    assert Walk([i]) == Some(Visit(START, i));
  }

  /** Endpoint number zero passes `discover_bundle`, and `inspect` then refuses the blobs. */
  lemma AcceptedThenRefused()
    ensures var p := Discovered(Sample(0, 0x80, [LANGUAGES]));
            p.Ok? && FunctionFs.Inspected(p.value.descriptors, p.value.strings) == Err(Invalid)
  {
    hide Discovered, FunctionFs.Inspected, Sample;
    var bundle := Sample(0, 0x80, [LANGUAGES]);
    SampleAccepted(0x80);
    BundleInspected(bundle);
    var es := Discovered(bundle).value.endpoints;
    assert es[0].address % 16 == 0;
    InspectedFault(Discovered(bundle).value);
  }

  lemma SampleAccepted(address: byte)
    ensures var p := Discovered(Sample(0, address, [LANGUAGES]));
            p.Ok? && p.value.endpoints == [Endpoint(address, 2, 64)]
  {
    hide Compiled, Keyed;
    var bundle := Sample(0, address, [LANGUAGES]);
    SampleKeys();
    var strings := Keyed(bundle.strings).value;
    assert LanguageId(strings) == Ok(0x409);
    var identity := IdentityOf(bundle.deviceDescriptor, strings, 0x409).value;
    SampleCompiled(address, identity, strings);
  }

  lemma SampleCompiled(address: byte, identity: DeviceIdentity, strings: Descriptors)
    ensures var config := Sample(0, address, [LANGUAGES]).configurationDescriptor;
            var p := Compiled(identity, config, strings, 0x409, None, None);
            p.Ok? && p.value.endpoints == [Endpoint(address, 2, 64)]
  {
    hide Project, Blob, Strings;
    var config := Sample(0, address, [LANGUAGES]).configurationDescriptor;
    assert config[9..] == INTERFACE_DESCRIPTOR + EndpointDescriptor(address);
    SampleWalk(address);
    NoStrings();
    SampleBlob(Project(config[9..]).value.body);
  }

  lemma InspectedFault(p: Projection)
    ensures FunctionFs.Inspected(p.descriptors, p.strings).Err? ==>
              FunctionFs.Inspected(p.descriptors, p.strings) == Err(Invalid)
  {
  }

  lemma SampleKeys()
    ensures Keyed([LANGUAGES]) == Some(map[(0, 0) := [4, 3, 9, 4]])
  {
    assert [LANGUAGES][..0] == [];
  }

  lemma NoStrings()
    ensures forall strings, language :: Strings(strings, language, map[]).Ok?
  {
    SizeOfOrder(map[]);
  }

  lemma SampleBlob(body: seq<byte>)
    requires |body| == 16
    ensures Blob(2, body, []).Ok?
  {
  }

  /** A manufacturer string whose descriptor is the bytes 0, 3 makes `discover_bundle` panic. */
  lemma HollowStringPanics()
    ensures Discovered(Sample(1, 0x81, [LANGUAGES, StringDescriptor(1, 0x409, [0, 3])])).Panic?
  {
    hide Compiled, Keyed;
    var strings := [LANGUAGES, StringDescriptor(1, 0x409, [0, 3])];
    HollowKeys();
    var keyed := Keyed(strings).value;
    assert LanguageId(keyed) == Ok(0x409);
    assert UsbString(keyed, 1, 0x409) == Panic;
    assert OptionalString(keyed, 1, 0x409) == Panic;
  }

  lemma HollowKeys()
    ensures Keyed([LANGUAGES, StringDescriptor(1, 0x409, [0, 3])])
         == Some(map[(0, 0) := [4, 3, 9, 4], (1, 0x409) := [0, 3]])
  {
    SampleKeys();
    assert [LANGUAGES, StringDescriptor(1, 0x409, [0, 3])][..1] == [LANGUAGES];
  }
}
