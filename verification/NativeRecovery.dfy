/** What the translator's walk finds in a natively built configuration. */
module NativeRecovery {
  import opened Bytes
  import opened Records
  import opened Sorting
  import opened Configuration
  import opened Renumbering
  import opened NativeBuilder

  /** Class-specific descriptors that form complete records, none of them an interface or an endpoint. */
  ghost predicate ClassOk(b: seq<byte>) {
    UsbDescriptor.Split(b).Some? && Plain(UsbDescriptor.Split(b).value)
  }

  predicate Plain(ds: seq<seq<byte>>) {
    forall k :: 0 <= k < |ds| ==> |ds[k]| >= 2 && ds[k][1] != INTERFACE && ds[k][1] != ENDPOINT
  }

  ghost predicate AllClassOk(interfaces: seq<NativeInterface>) {
    forall k :: 0 <= k < |interfaces| ==> ClassOk(interfaces[k].classDescriptors)
  }

  /** The descriptors of one interface. */
  ghost function RecordsOf(i: NativeInterface): seq<seq<byte>>
    requires ClassOk(i.classDescriptors)
  {
    [InterfaceDescriptor(i)] + UsbDescriptor.Split(i.classDescriptors).value
    + [EndpointDescriptor(i, i.endpointIn), EndpointDescriptor(i, i.endpointOut)]
  }

  ghost function AllRecords(interfaces: seq<NativeInterface>): seq<seq<byte>>
    requires AllClassOk(interfaces)
  {
    if |interfaces| == 0 then []
    else AllRecords(interfaces[..|interfaces| - 1]) + RecordsOf(interfaces[|interfaces| - 1])
  }

  /** The numbers of the interface descriptors, in order. */
  function NumbersOf(ds: seq<seq<byte>>): seq<byte> {
    if |ds| == 0 then []
    else
      var d := ds[|ds| - 1];
      NumbersOf(ds[..|ds| - 1]) + if IsInterface(d) then [d[2]] else []
  }

  function Numbers(interfaces: seq<NativeInterface>): (ns: seq<byte>)
    ensures |ns| == |interfaces| && forall k :: 0 <= k < |ns| ==> ns[k] == interfaces[k].number
  {
    if |interfaces| == 0 then [] else Numbers(interfaces[..|interfaces| - 1]) + [interfaces[|interfaces| - 1].number]
  }

  /** The IN endpoint, then the OUT endpoint. */
  function EndpointPair(i: NativeInterface): seq<Endpoint> {
    [Endpoint(i.endpointIn, i.transferType, i.maxPacketSize), Endpoint(i.endpointOut, i.transferType, i.maxPacketSize)]
  }

  function EndpointPairs(interfaces: seq<NativeInterface>): seq<Endpoint> {
    if |interfaces| == 0 then []
    else EndpointPairs(interfaces[..|interfaces| - 1]) + EndpointPair(interfaces[|interfaces| - 1])
  }

  // Sequences of descriptors, joined.

  lemma {:induction false} GatherBoth(xs: seq<seq<byte>>, ys: seq<seq<byte>>)
    ensures NumbersOf(xs + ys) == NumbersOf(xs) + NumbersOf(ys)
    ensures EndpointsOf(xs + ys) == EndpointsOf(xs) + EndpointsOf(ys)
  {
    if |ys| == 0 {
      assert xs + ys == xs;
    } else {
      var front := ys[..|ys| - 1];
      GatherBoth(xs, front);
      assert (xs + ys)[..|xs + ys| - 1] == xs + front;
    }
  }

  lemma {:induction false} GatherPlain(ds: seq<seq<byte>>)
    requires Plain(ds)
    ensures NumbersOf(ds) == [] && EndpointsOf(ds) == [] && NoneShort(ds)
  {
    if |ds| > 0 {
      GatherPlain(ds[..|ds| - 1]);
    }
  }

  lemma GatherOne(d: seq<byte>)
    ensures NumbersOf([d]) == if IsInterface(d) then [d[2]] else []
    ensures EndpointsOf([d]) == if IsEndpoint(d) then [EndpointOf(d)] else []
  {
    assert [d][..0] == [];
  }

  // One interface.

  lemma EndpointRecord(i: NativeInterface, address: byte)
    requires i.transferType <= 3
    ensures var d := EndpointDescriptor(i, address);
            && UsbDescriptor.IsRecord(d)
            && IsEndpoint(d)
            && EndpointOf(d) == Endpoint(address, i.transferType, i.maxPacketSize)
  {
    var d := EndpointDescriptor(i, address);
    DeclaredField(d);
    assert d[4..6] == Le16(i.maxPacketSize);
    FieldsOfSuffix(d, 4, 2);
    LeRoundTrip(i.maxPacketSize);
  }

  lemma InterfaceRecords(i: NativeInterface)
    requires ClassOk(i.classDescriptors) && NativeOk(i)
    ensures var ds := RecordsOf(i);
            && UsbDescriptor.AreRecords(ds)
            && NoneShort(ds)
            && Concat(ds) == InterfaceBytes(i)
            && NumbersOf(ds) == [i.number]
            && EndpointsOf(ds) == EndpointPair(i)
  {
    hide EndpointDescriptor, InterfaceDescriptor, EndpointOf, NumbersOf, EndpointsOf, Concat, Framing.Split;
    hide Framing.IsRecord;
    hide IsInterface, IsEndpoint;
    var first, last := EndpointDescriptor(i, i.endpointIn), EndpointDescriptor(i, i.endpointOut);
    var head, plain := InterfaceDescriptor(i), UsbDescriptor.Split(i.classDescriptors).value;
    InterfaceRecord(i);
    EndpointRecord(i, i.endpointIn);
    EndpointRecord(i, i.endpointOut);
    UsbDescriptor.SplitExact(i.classDescriptors, plain);
    RecordsJoined(head, plain, first, last);
    GatherPlain(plain);
    GatherJoined(head, plain, first, last);
  }

  lemma InterfaceRecord(i: NativeInterface)
    ensures var d := InterfaceDescriptor(i);
            UsbDescriptor.IsRecord(d) && IsInterface(d) && !IsEndpoint(d) && d[2] == i.number && !IsShort(d)
  {
    DeclaredField(InterfaceDescriptor(i));
  }

  lemma RecordsJoined(head: seq<byte>, plain: seq<seq<byte>>, first: seq<byte>, last: seq<byte>)
    ensures Concat([head] + plain + [first, last]) == head + Concat(plain) + (first + last)
  {
    hide Concat;
    ConcatOne(head);
    ConcatAppend([head], plain);
    ConcatOne(first);
    ConcatPush([first], last);
    assert [first] + [last] == [first, last];
    ConcatAppend([head] + plain, [first, last]);
  }

  lemma GatherJoined(head: seq<byte>, plain: seq<seq<byte>>, first: seq<byte>, last: seq<byte>)
    requires NumbersOf(plain) == [] && EndpointsOf(plain) == []
    requires IsInterface(head) && !IsEndpoint(head)
    requires IsEndpoint(first) && IsEndpoint(last)
    ensures NumbersOf([head] + plain + [first, last]) == [head[2]]
    ensures EndpointsOf([head] + plain + [first, last]) == [EndpointOf(first), EndpointOf(last)]
  {
    hide NumbersOf, EndpointsOf, EndpointOf;
    GatherOne(head);
    GatherOne(first);
    GatherOne(last);
    GatherBoth([head], plain);
    GatherBoth([first], [last]);
    assert [first] + [last] == [first, last];
    GatherBoth([head] + plain, [first, last]);
  }

  // All interfaces.

  lemma NoneShortBoth(xs: seq<seq<byte>>, ys: seq<seq<byte>>)
    requires NoneShort(xs) && NoneShort(ys) && UsbDescriptor.AreRecords(xs) && UsbDescriptor.AreRecords(ys)
    ensures NoneShort(xs + ys) && UsbDescriptor.AreRecords(xs + ys)
  {
  }

  lemma {:induction false} BodyRecords(interfaces: seq<NativeInterface>)
    requires AllClassOk(interfaces) && AllOk(interfaces)
    ensures var ds := AllRecords(interfaces);
            && UsbDescriptor.AreRecords(ds)
            && NoneShort(ds)
            && Concat(ds) == Body(interfaces)
            && NumbersOf(ds) == Numbers(interfaces)
            && EndpointsOf(ds) == EndpointPairs(interfaces)
  {
    hide RecordsOf, InterfaceBytes, EndpointPair, NativeOk, ClassOk, Framing.IsRecord, IsShort, IsInterface, IsEndpoint;
    if |interfaces| > 0 {
      var front, last := interfaces[..|interfaces| - 1], interfaces[|interfaces| - 1];
      BodyRecords(front);
      InterfaceRecords(last);
      NoneShortBoth(AllRecords(front), RecordsOf(last));
      ConcatAppend(AllRecords(front), RecordsOf(last));
      GatherBoth(AllRecords(front), RecordsOf(last));
    }
  }

  // At most 255 interfaces cannot use up the string numbers.

  lemma {:induction false} OrderBound(ds: seq<seq<byte>>)
    ensures |Order(ds)| <= |NumbersOf(ds)|
  {
    if |ds| > 0 {
      OrderBound(ds[..|ds| - 1]);
    }
  }

  lemma FewInterfacesNumberable(ds: seq<seq<byte>>)
    requires |NumbersOf(ds)| <= 255
    ensures Numberable(ds)
  {
    forall k | 0 <= k < |ds| && StringRef(ds[k]) != 0 ensures |Order(ds[..k])| < 255 {
      OrderBound(ds[..k]);
      assert ds == ds[..k] + ds[k..] && ds[k..] == [ds[k]] + ds[k + 1..];
      GatherBoth(ds[..k], ds[k..]);
      GatherOne(ds[k]);
      GatherBoth([ds[k]], ds[k + 1..]);
    }
  }

  lemma {:induction false} InterfacesAreNumbers(ds: seq<seq<byte>>)
    ensures forall n :: n in InterfacesOf(ds) <==> n in NumbersOf(ds)
  {
    if |ds| > 0 {
      InterfacesAreNumbers(ds[..|ds| - 1]);
    }
  }

  /**
   The walk accepts every natively built configuration whose class descriptors are well formed, and recovers the
   interfaces by increasing number, each with its IN and then its OUT endpoint.
   */
  lemma NativeConfigurationRecovered(interfaces: seq<NativeInterface>)
    requires ConfigurationOf(interfaces).Ok? && AllClassOk(ByNumber(interfaces))
    ensures var config, sorted := ConfigurationOf(interfaces).value, ByNumber(interfaces);
            var w := Project(config[9..]);
            && w.Ok?
            && UsbDescriptor.Split(config[9..]) == Some(AllRecords(sorted))
            && NumbersOf(UsbDescriptor.Split(config[9..]).value) == Numbers(sorted)
            && w.value.found.endpoints == EndpointPairs(sorted)
            && forall n :: n in w.value.found.interfaces <==> n in Numbers(sorted)
  {
    hide Walk, Body, AllRecords, Numbers, NumbersOf, EndpointsOf, EndpointPairs, InterfacesOf, Framing.Split, ByNumber;
    hide AllOk, AllClassOk, NoneShort, Numberable, Framing.AreRecords, Concat;
    var config, sorted := ConfigurationOf(interfaces).value, ByNumber(interfaces);
    assert config[9..] == Body(sorted);
    var ds := AllRecords(sorted);
    BodyRecords(sorted);
    AsManyByNumber(interfaces);
    assert |Numbers(sorted)| == |sorted|;
    FewInterfacesNumberable(ds);
    UsbDescriptor.SplitExact(config[9..], ds);
    WalkAccepts(ds);
    WalkGathers(ds, Walk(ds).value);
    InterfacesAreNumbers(ds);
  }

  // The descriptors, byte by byte.

  /** The descriptors of one type, in order. */
  function OfType(ds: seq<seq<byte>>, descriptorType: byte): seq<seq<byte>> {
    if |ds| == 0 then []
    else
      var d := ds[|ds| - 1];
      OfType(ds[..|ds| - 1], descriptorType) + if |d| >= 2 && d[1] == descriptorType then [d] else []
  }

  lemma {:induction false} OfTypeBoth(xs: seq<seq<byte>>, ys: seq<seq<byte>>, descriptorType: byte)
    ensures OfType(xs + ys, descriptorType) == OfType(xs, descriptorType) + OfType(ys, descriptorType)
  {
    if |ys| == 0 {
      assert xs + ys == xs;
    } else {
      var front := ys[..|ys| - 1];
      OfTypeBoth(xs, front, descriptorType);
      assert (xs + ys)[..|xs + ys| - 1] == xs + front;
    }
  }

  lemma {:induction false} OfTypePlain(ds: seq<seq<byte>>)
    requires Plain(ds)
    ensures OfType(ds, 4) == [] && OfType(ds, 5) == []
  {
    if |ds| > 0 {
      OfTypePlain(ds[..|ds| - 1]);
    }
  }

  lemma OfTypeOne(d: seq<byte>, descriptorType: byte)
    ensures OfType([d], descriptorType) == if |d| >= 2 && d[1] == descriptorType then [d] else []
  {
    assert [d][..0] == [];
  }

  /** Interface descriptor (USB 2.0 section 9.6.5): alternate setting 0, two endpoints. */
  predicate DescribesInterface(d: seq<byte>, i: NativeInterface) {
    d == [9, 4, i.number, 0, 2, i.classCode, i.subclass, i.protocol, i.stringIndex]
  }

  /** Endpoint descriptor (USB 2.0 section 9.6.6). */
  predicate DescribesEndpoint(d: seq<byte>, i: NativeInterface, address: byte) {
    d == [7, 5, address, i.transferType, i.maxPacketSize % 256, i.maxPacketSize / 256, i.interval]
  }

  lemma OneInterfaceDescribed(i: NativeInterface)
    requires ClassOk(i.classDescriptors)
    ensures |OfType(RecordsOf(i), 4)| == 1 && DescribesInterface(OfType(RecordsOf(i), 4)[0], i)
    ensures |OfType(RecordsOf(i), 5)| == 2
    ensures DescribesEndpoint(OfType(RecordsOf(i), 5)[0], i, i.endpointIn)
    ensures DescribesEndpoint(OfType(RecordsOf(i), 5)[1], i, i.endpointOut)
  {
    hide OfType, Framing.Split, InterfaceDescriptor, EndpointDescriptor, DescribesInterface, DescribesEndpoint;
    var head, plain := InterfaceDescriptor(i), UsbDescriptor.Split(i.classDescriptors).value;
    var first, last := EndpointDescriptor(i, i.endpointIn), EndpointDescriptor(i, i.endpointOut);
    OfTypePlain(plain);
    BuiltBytes(i, i.endpointIn);
    BuiltBytes(i, i.endpointOut);
    OfTypeParts(head, plain, first, last, 4);
    OfTypeParts(head, plain, first, last, 5);
  }

  lemma BuiltBytes(i: NativeInterface, address: byte)
    ensures InterfaceDescriptor(i)[1] == 4 && DescribesInterface(InterfaceDescriptor(i), i)
    ensures EndpointDescriptor(i, address)[1] == 5 && DescribesEndpoint(EndpointDescriptor(i, address), i, address)
  {
  }

  lemma OfTypeParts(head: seq<byte>, plain: seq<seq<byte>>, first: seq<byte>, last: seq<byte>, descriptorType: byte)
    requires OfType(plain, descriptorType) == []
    ensures OfType([head] + plain + [first, last], descriptorType)
         == (if |head| >= 2 && head[1] == descriptorType then [head] else [])
            + (if |first| >= 2 && first[1] == descriptorType then [first] else [])
            + (if |last| >= 2 && last[1] == descriptorType then [last] else [])
  {
    hide OfType;
    OfTypeBoth([head] + plain, [first, last], descriptorType);
    OfTypeBoth([head], plain, descriptorType);
    OfTypeBoth([first], [last], descriptorType);
    assert [first] + [last] == [first, last];
    OfTypeOne(head, descriptorType);
    OfTypeOne(first, descriptorType);
    OfTypeOne(last, descriptorType);
  }

  /**
   The interface descriptors of the records, and their endpoint descriptors in pairs, are those of the interfaces: each
   with its own number, class, subclass, protocol and string, and with an IN and an OUT endpoint of its own kind.
   */
  ghost predicate Describes(ds: seq<seq<byte>>, interfaces: seq<NativeInterface>) {
    && |OfType(ds, 4)| == |interfaces| && |OfType(ds, 5)| == 2 * |interfaces|
    && forall k :: 0 <= k < |interfaces| ==>
         && DescribesInterface(OfType(ds, 4)[k], interfaces[k])
         && DescribesEndpoint(OfType(ds, 5)[2 * k], interfaces[k], interfaces[k].endpointIn)
         && DescribesEndpoint(OfType(ds, 5)[2 * k + 1], interfaces[k], interfaces[k].endpointOut)
  }

  lemma {:induction false} AllDescribed(interfaces: seq<NativeInterface>)
    requires AllClassOk(interfaces)
    ensures Describes(AllRecords(interfaces), interfaces)
  {
    hide OfType, RecordsOf, DescribesInterface, DescribesEndpoint, ClassOk;
    if |interfaces| > 0 {
      var n := |interfaces| - 1;
      var front, last := interfaces[..n], interfaces[n];
      AllDescribed(front);
      OneInterfaceDescribed(last);
      OfTypeBoth(AllRecords(front), RecordsOf(last), 4);
      OfTypeBoth(AllRecords(front), RecordsOf(last), 5);
      DescribedMore(AllRecords(front), front, RecordsOf(last), last, AllRecords(interfaces));
      assert front + [last] == interfaces;
    } else {
      NothingOfType();
    }
  }

  lemma NothingOfType()
    ensures OfType([], 4) == [] && OfType([], 5) == []
  {
  }

  lemma DescribedMore(
    ds: seq<seq<byte>>, front: seq<NativeInterface>, more: seq<seq<byte>>, last: NativeInterface, all: seq<seq<byte>>)
    requires Describes(ds, front)
    requires OfType(all, 4) == OfType(ds, 4) + OfType(more, 4) && OfType(all, 5) == OfType(ds, 5) + OfType(more, 5)
    requires |OfType(more, 4)| == 1 && DescribesInterface(OfType(more, 4)[0], last)
    requires |OfType(more, 5)| == 2
             && DescribesEndpoint(OfType(more, 5)[0], last, last.endpointIn)
             && DescribesEndpoint(OfType(more, 5)[1], last, last.endpointOut)
    ensures Describes(all, front + [last])
  {
    hide OfType, DescribesInterface, DescribesEndpoint;
    var both := front + [last];
    forall k | 0 <= k < |both|
      ensures DescribesInterface(OfType(all, 4)[k], both[k])
      ensures DescribesEndpoint(OfType(all, 5)[2 * k], both[k], both[k].endpointIn)
      ensures DescribesEndpoint(OfType(all, 5)[2 * k + 1], both[k], both[k].endpointOut)
    {
      if k < |front| {
        assert both[k] == front[k];
      }
    }
  }

  lemma IncreasingNumbers(interfaces: seq<NativeInterface>)
    requires NoRepeat(ByNumber(interfaces))
    ensures var sorted := ByNumber(interfaces);
            && multiset(sorted) == multiset(interfaces)
            && forall j, k :: 0 <= j < k < |sorted| ==> sorted[j].number < sorted[k].number
  {
    hide SortBy;
    var key := (i: NativeInterface) => i.number;
    var sorted := SortBy(interfaces, key);
    SortedStrictly(sorted);
    forall j, k | 0 <= j < k < |sorted| ensures sorted[j].number < sorted[k].number {
      Increasing(sorted, key, j, k);
    }
  }

  /** A natively built configuration is one of value 1, bus-powered from 100 mA, and describes its interfaces. */
  lemma NativeDescriptorsRecovered(interfaces: seq<NativeInterface>)
    requires ConfigurationOf(interfaces).Ok? && AllClassOk(ByNumber(interfaces))
    ensures var config := ConfigurationOf(interfaces).value;
            && |config| >= 9 && config[0] == 9 && config[1] == 2 && config[4] == |interfaces| && config[5] == 1
            && config[6] == 0 && config[7] == 0x80 && config[8] == 50
            && config[2] as nat + 256 * config[3] as nat == |config|
            && UsbDescriptor.Split(config[9..]).Some?
            && Describes(UsbDescriptor.Split(config[9..]).value, ByNumber(interfaces))
    ensures var sorted := ByNumber(interfaces);
            && multiset(sorted) == multiset(interfaces)
            && forall j, k :: 0 <= j < k < |sorted| ==> sorted[j].number < sorted[k].number
  {
    IncreasingNumbers(interfaces);
    hide Describes, AllClassOk, ByNumber, Body, AllRecords, Framing.Split, NumbersOf, Numbers, EndpointPairs, AllOk;
    NativeConfigurationRecovered(interfaces);
    AllDescribed(ByNumber(interfaces));
  }

  /** The device descriptor, field by field: three strings, one configuration. */
  lemma NativeDeviceDescribed(d: NativeDevice)
    ensures var b := DeviceOf(d);
            && |b| == 18 && b[..2] == [18, 1] && b[14..] == [1, 2, 3, 1]
            && d.usbVersion == b[2] as int + 256 * b[3] as int
            && b[4] == d.deviceClass && b[5] == d.deviceSubclass && b[6] == d.deviceProtocol
            && b[7] == d.maxPacketSize0
            && d.vendorId == b[8] as int + 256 * b[9] as int && d.productId == b[10] as int + 256 * b[11] as int
            && d.deviceVersion == b[12] as int + 256 * b[13] as int
  {
  }
}
