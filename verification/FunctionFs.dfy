/** `functionfs::inspect`: the structural validator of FunctionFS v2 descriptor blobs. */
module FunctionFs {
  import opened Bytes
  import opened Records
  import Configuration
  import opened Layouts
  import opened OsDescriptors
  import opened StringTables

  datatype Direction = Out | In

  datatype Endpoint = Endpoint(direction: Direction, transferType: byte)

  datatype Inspection = Inspection(endpoints: seq<Endpoint>, hasMsOsDescriptors: bool)

  datatype DescriptorSet = DescriptorSet(endpoints: seq<Endpoint>, addresses: set<byte>, interfaces: set<byte>)

  // One descriptor set.

  function EndpointOf(d: seq<byte>): Endpoint
    requires Configuration.IsEndpoint(d)
  {
    Endpoint(if d[2] >= 0x80 then In else Out, d[3] % 4)
  }

  /** A descriptor `parse_descriptor_set` refuses after the addresses seen so far. */
  predicate Refuses(s: DescriptorSet, d: seq<byte>) {
    || Configuration.IsShort(d)
    || (Configuration.IsEndpoint(d) && (d[2] % 16 == 0 || d[2] in s.addresses))
  }

  function Visit(s: DescriptorSet, d: seq<byte>): DescriptorSet {
    if Configuration.IsInterface(d) then s.(interfaces := s.interfaces + {d[2]})
    else if Configuration.IsEndpoint(d) then
      s.(addresses := s.addresses + {d[2]}, endpoints := s.endpoints + [EndpointOf(d)])
    else s
  }

  function ParseSet(ds: seq<seq<byte>>): Option<DescriptorSet> {
    if |ds| == 0 then Some(DescriptorSet([], {}, {}))
    else
      var s, d := ParseSet(ds[..|ds| - 1]), ds[|ds| - 1];
      if s.None? || Refuses(s.value, d) then None else Some(Visit(s.value, d))
  }

  lemma {:induction false} ParseSetStops(ds: seq<seq<byte>>, more: seq<seq<byte>>)
    requires ParseSet(ds).None?
    ensures ParseSet(ds + more).None?
    decreases |more|
  {
    if |more| == 0 {
      assert ds + more == ds;
    } else {
      ParseSetStops(ds, more[..|more| - 1]);
      assert (ds + more)[..|ds + more| - 1] == ds + more[..|more| - 1];
    }
  }

  /** The set of `n` descriptors at the front of `b`. */
  function TakeSet(b: seq<byte>, n: nat): Option<DescriptorSet> {
    var ds := UsbDescriptor.Take(b, n);
    if ds.None? then None else ParseSet(ds.value)
  }

  ghost predicate SetReached(b: seq<byte>, n: nat, ds: seq<seq<byte>>, s: DescriptorSet, rest: seq<byte>, left: nat) {
    UsbDescriptor.Take(b, n) == Join(ds, UsbDescriptor.Take(rest, left)) && ParseSet(ds) == Some(s)
  }

  lemma SetProceed(b: seq<byte>, n: nat, ds: seq<seq<byte>>, s: DescriptorSet, rest: seq<byte>, left: nat)
    requires SetReached(b, n, ds, s, rest, left) && left > 0
    ensures |rest| < 2 || rest[0] < 2 || rest[0] > |rest| ==> TakeSet(b, n).None?
    ensures 2 <= |rest| && 2 <= rest[0] <= |rest| ==>
              var d := rest[..rest[0]];
              if Refuses(s, d) then TakeSet(b, n).None?
              else SetReached(b, n, ds + [d], Visit(s, d), rest[rest[0]..], left - 1)
  {
    DeclaredField(rest);
    if 2 <= |rest| && 2 <= rest[0] <= |rest| {
      var d := rest[..rest[0]];
      var more := UsbDescriptor.Take(rest[rest[0]..], left - 1);
      assert (ds + [d])[..|ds|] == ds;
      if more.Some? {
        assert ds + ([d] + more.value) == (ds + [d]) + more.value;
        if Refuses(s, d) {
          ParseSetStops(ds + [d], more.value);
        }
      }
    }
  }

  method ParseDescriptorSet(bytes: seq<byte>, start: nat, count: nat)
    returns (r: Outcome<DescriptorSet>, offset: nat)
    requires start <= |bytes|
    ensures var s := TakeSet(bytes[start..], count);
            if s.None? then r == Err(Invalid)
            else
              && r == Ok(s.value)
              && offset == start + |Concat(UsbDescriptor.Take(bytes[start..], count).value)|
              && offset <= |bytes|
  {
    hide Refuses, Visit, ParseSet;
    offset := start;
    var found := DescriptorSet([], {}, {});
    ghost var b, ds := bytes[start..], [];
    EmptySet();
    JoinNothing(ds, UsbDescriptor.Take(b, count));
    for i := 0 to count
      invariant offset <= |bytes| && offset == start + |Concat(ds)|
      invariant SetReached(b, count, ds, found, bytes[offset..], count - i)
    {
      ghost var rest := bytes[offset..];
      SetProceed(b, count, ds, found, rest, count - i);
      if offset + 2 > |bytes| {
        return Err(Invalid), offset;
      }
      var length: int := bytes[offset];
      if length < 2 || offset + length > |bytes| {
        return Err(Invalid), offset;
      }
      var descriptor := bytes[offset..offset + length];
      assert descriptor == rest[..rest[0]] && rest[length..] == bytes[offset + length..];
      offset := offset + length;
      ConcatPush(ds, descriptor);
      var next := VisitDescriptor(found, descriptor);
      if next.None? {
        return Err(Invalid), offset;
      }
      found := next.value;
      ds := ds + [descriptor];
    }
    JoinNothing(ds, UsbDescriptor.Take(bytes[offset..], 0));
    return Ok(found), offset;
  }

  lemma EmptySet()
    ensures ParseSet([]) == Some(DescriptorSet([], {}, {}))
    ensures Concat([]) == []
  {
  }

  // The branches of the loop body.
  method VisitDescriptor(found: DescriptorSet, descriptor: seq<byte>) returns (r: Option<DescriptorSet>)
    requires 2 <= |descriptor|
    ensures r == if Refuses(found, descriptor) then None else Some(Visit(found, descriptor))
  {
    if descriptor[1] == Configuration.INTERFACE {
      if |descriptor| < 9 {
        return None;
      }
      return Some(found.(interfaces := found.interfaces + {descriptor[2]}));
    } else if descriptor[1] == Configuration.ENDPOINT {
      if |descriptor| < 7 {
        return None;
      }
      var address := descriptor[2];
      if address % 16 == 0 {
        return None;
      }
      if address in found.addresses {
        return None;
      }
      return Some(found.(
        addresses := found.addresses + {address},
        endpoints := found.endpoints + [Endpoint(if address / 128 % 2 != 0 then In else Out, descriptor[3] % 4)]));
    }
    return Some(found);
  }
  // The whole blob.

  predicate SameTopology(s: DescriptorSet, t: DescriptorSet) {
    s.endpoints == t.endpoints && s.interfaces == t.interfaces
  }

  /** What the first set declares; nothing if there is none. */
  function Topology(sets: seq<seq<seq<byte>>>): DescriptorSet {
    if |sets| == 0 || ParseSet(sets[0]).None? then DescriptorSet([], {}, {}) else ParseSet(sets[0]).value
  }

  /** Every speed set is valid, and declares the same endpoints and interfaces. */
  predicate Agree(sets: seq<seq<seq<byte>>>) {
    forall i :: 0 <= i < |sets| ==> ParseSet(sets[i]).Some? && SameTopology(Topology(sets), ParseSet(sets[i]).value)
  }

  /** The judgement on the parts of a blob. */
  predicate Acceptable(l: Layout) {
    && Agree(l.sets)
    && (Has(l.flags, HAS_MS_OS_DESC) ==>
          |l.items| > 0 && |l.sets| > 0 && ItemsOk(l.items, Topology(l.sets).interfaces))
  }

  /** Microsoft OS descriptors are announced but no speed set is: the interfaces to check them against are missing. */
  predicate Unguarded(b: seq<byte>) {
    && Headed(b)
    && Has(FromLe32(b, 8), HAS_MS_OS_DESC)
    && Speeds(FromLe32(b, 8)) == 0
    && 16 <= |b|
    && FromLe32(b, 12) != 0
  }

  /**
   `inspect_descriptors` accepts exactly the encodings of acceptable layouts; it panics when Microsoft OS
   descriptors come without a speed set.
   */
  function InspectedDescriptors(b: seq<byte>): Outcome<Inspection> {
    if Unguarded(b) then Panic
    else
      var l := ReadLayout(b);
      if l.None? || !Acceptable(l.value) then Err(Invalid)
      else Ok(Inspection(Topology(l.value.sets).endpoints, Has(l.value.flags, HAS_MS_OS_DESC)))
  }

  /** `inspect`. */
  function Inspected(descriptors: seq<byte>, strings: seq<byte>): Outcome<Inspection> {
    var inspection :- InspectedDescriptors(descriptors);
    if ReadBlob(strings).Some? then Ok(inspection) else Err(Invalid)
  }

  /** Exact cover: a blob is accepted if and only if it is the encoding of a framed and acceptable layout. */
  lemma AcceptedExactly(b: seq<byte>)
    ensures InspectedDescriptors(b).Ok? <==> exists l :: Framed(l) && Acceptable(l) && b == Encode(l)
    ensures InspectedDescriptors(b).Ok? ==>
              forall l :: Framed(l) && b == Encode(l) ==>
                && Acceptable(l)
                && InspectedDescriptors(b).value
                   == Inspection(Topology(l.sets).endpoints, Has(l.flags, HAS_MS_OS_DESC))
  {
    hide Encode, Framed, Acceptable, Headed, ReadLayout;
    if ReadLayout(b).Some? {
      LayoutExact(b, ReadLayout(b).value);
    }
    forall l | Framed(l) && b == Encode(l)
      ensures ReadLayout(b) == Some(l)
      ensures Acceptable(l) ==> !Unguarded(b)
    {
      LayoutExact(b, l);
      if Unguarded(b) {
        UnguardedIsUnacceptable(b, l);
      }
    }
  }

  lemma UnguardedIsUnacceptable(b: seq<byte>, l: Layout)
    requires ReadLayout(b) == Some(l) && Unguarded(b)
    ensures !Acceptable(l)
  {
    LayoutExact(b, l);
  }

  lemma SpeedsGrow(flags: u32, k: nat)
    requires k < |SPEEDS|
    ensures Speeds(flags, k) <= Speeds(flags, k + 1) <= Speeds(flags)
    decreases |SPEEDS| - k
  {
    if k + 1 < |SPEEDS| {
      SpeedsGrow(flags, k + 1);
    }
  }

  // The counts after the header: one for each speed flag, then the feature descriptors'.
  method ReadCounts(bytes: seq<byte>, flags: u32) returns (r: Outcome<(seq<u32>, u32)>)
    requires 12 <= |bytes|
    ensures if |bytes| < 12 + 4 * FieldCount(flags) then r == Err(Invalid)
            else
              var fields := Fields(bytes, 12, FieldCount(flags));
              r.Ok? && r.value.0 == fields[..Speeds(flags)] && r.value.1 == ItemCount(flags, fields)
  {
    hide FromLe32, Has;
    var counts: seq<u32>, offset := [], 12;
    for i := 0 to |SPEEDS|
      invariant |counts| == Speeds(flags, i) && offset == 12 + 4 * |counts| <= |bytes|
      invariant counts == Fields(bytes, 12, |counts|)
    {
      SpeedsGrow(flags, i);
      if Has(flags, SPEEDS[i]) {
        if offset + 4 > |bytes| {
          return Err(Invalid);
        }
        counts := counts + [FromLe32(bytes, offset)];
        offset := offset + 4;
      }
    }
    if Has(flags, HAS_MS_OS_DESC) {
      if offset + 4 > |bytes| {
        return Err(Invalid);
      }
      return Ok((counts, FromLe32(bytes, offset)));
    }
    return Ok((counts, 0));
  }

  // The sets parsed so far, and the bytes left.
  ghost predicate SetsReached(
    b: seq<byte>, counts: seq<u32>, done: seq<seq<seq<byte>>>, rest: seq<byte>, left: seq<u32>) {
    TakeSets(b, counts) == Prepend(done, TakeSets(rest, left)) && Agree(done)
  }

  lemma SetsProceed(b: seq<byte>, counts: seq<u32>, done: seq<seq<seq<byte>>>, rest: seq<byte>, left: seq<u32>)
    requires SetsReached(b, counts, done, rest, left) && |left| > 0
    ensures var ds := UsbDescriptor.Take(rest, left[0]);
            if ds.None? then TakeSets(b, counts).None?
            else if ParseSet(ds.value).None?
                 || (|done| > 0 && !SameTopology(Topology(done), ParseSet(ds.value).value))
            then TakeSets(b, counts).None? || !Agree(TakeSets(b, counts).value.items)
            else
              |Concat(ds.value)| <= |rest| &&
              SetsReached(b, counts, done + [ds.value], rest[|Concat(ds.value)|..], left[1..])
  {
    hide ParseSet, Framing.Take, Concat;
    var ds := UsbDescriptor.Take(rest, left[0]);
    if ds.Some? {
      UsbDescriptor.TakeExact(rest, left[0], ds.value);
      var more := TakeSets(rest[|Concat(ds.value)|..], left[1..]);
      PrependTwice(done, [ds.value], more);
      TopologyOfFront(done, [ds.value]);
      if more.Some? {
        TopologyOfFront(done + [ds.value], more.value.items);
        assert (done + [ds.value] + more.value.items)[|done|] == ds.value;
      }
    }
  }

  lemma TopologyOfFront(done: seq<seq<seq<byte>>>, more: seq<seq<seq<byte>>>)
    ensures |done| > 0 ==> Topology(done + more) == Topology(done)
    ensures |done| == 0 ==> done + more == more
  {
  }

  method ParseSets(bytes: seq<byte>, start: nat, counts: seq<u32>)
    returns (r: Outcome<(seq<Endpoint>, Option<set<byte>>)>, offset: nat)
    requires start <= |bytes|
    ensures var sets := TakeSets(bytes[start..], counts);
            if sets.None? || !Agree(sets.value.items) then r == Err(Invalid)
            else
              && |sets.value.items| == |counts|
              && r == Ok((Topology(sets.value.items).endpoints,
                          if |counts| == 0 then None else Some(Topology(sets.value.items).interfaces)))
              && offset <= |bytes| && bytes[offset..] == sets.value.rest
    ensures |counts| == 0 ==> r.Ok?
  {
    hide ParseSet, Framing.Take, Concat;
    offset := start;
    var canonical, canonicalInterfaces: Option<set<byte>> := None, None;
    ghost var b: seq<byte>, done := bytes[start..], [];
    PrependTwice<seq<seq<byte>>>([], [], TakeSets(b, counts));
    assert counts[0..] == counts;
    for i := 0 to |counts|
      invariant offset <= |bytes| && |done| == i
      invariant SetsReached(b, counts, done, bytes[offset..], counts[i..])
      invariant canonical == if i == 0 then None else Some(Topology(done).endpoints)
      invariant canonicalInterfaces == if i == 0 then None else Some(Topology(done).interfaces)
    {
      ghost var rest := bytes[offset..];
      assert counts[i..][0] == counts[i] && counts[i..][1..] == counts[i + 1..];
      SetsProceed(b, counts, done, rest, counts[i..]);
      var s;
      s, offset := ParseDescriptorSet(bytes, offset, counts[i]);
      if !s.Ok? {
        return Err(Invalid), offset;
      }
      ghost var ds := UsbDescriptor.Take(rest, counts[i]).value;
      if canonical.Some? {
        if canonical.value != s.value.endpoints {
          return Err(Invalid), offset;
        }
      } else {
        canonical := Some(s.value.endpoints);
      }
      if canonicalInterfaces.Some? {
        if canonicalInterfaces.value != s.value.interfaces {
          return Err(Invalid), offset;
        }
      } else {
        canonicalInterfaces := Some(s.value.interfaces);
      }
      TopologyOfFront(done, [ds]);
      done := done + [ds];
      assert rest[|Concat(ds)|..] == bytes[offset..];
    }
    assert done + [] == done;
    return Ok((if canonical.Some? then canonical.value else [], canonicalInterfaces)), offset;
  }

  // The feature descriptors end the blob exactly when they are as long as what is left.
  lemma ItemsCover(rest: seq<byte>, n: nat)
    ensures OsDescriptor.Take(rest, 0) == Some([]) && (Concat([]) == rest <==> |rest| == 0)
    ensures var items := OsDescriptor.Take(rest, n);
            items.Some? ==> |items.value| == n && (Concat(items.value) == rest <==> |Concat(items.value)| == |rest|)
  {
    var items := OsDescriptor.Take(rest, n);
    if items.Some? {
      OsDescriptor.TakeExact(rest, n, items.value);
    }
  }

  // Without a speed set the feature descriptors' count comes first.
  lemma LoneField(b: seq<byte>, flags: u32)
    requires 12 + 4 * FieldCount(flags) <= |b| && FieldCount(flags) == 1 && Has(flags, HAS_MS_OS_DESC)
    ensures ItemCount(flags, Fields(b, 12, FieldCount(flags))) == FromLe32(b, 12)
  {
  }

  method InspectDescriptors(bytes: seq<byte>) returns (r: Outcome<Inspection>)
    ensures r == InspectedDescriptors(bytes)
  {
    hide FromLe32, Has, ItemsOk, Agree, Speeds, Fields, TakeSets, Framing.Take, Concat, Topology, Supported;
    if |bytes| < 12 {
      return Err(Invalid);
    }
    if FromLe32(bytes, 0) != DESCRIPTORS_MAGIC_V2 || FromLe32(bytes, 4) != |bytes| {
      return Err(Invalid);
    }
    var flags := FromLe32(bytes, 8);
    if !Supported(flags) {
      return Err(Invalid);
    }
    var counts :- ReadCounts(bytes, flags);
    var sets, offset := ParseSets(bytes, 12 + 4 * FieldCount(flags), counts.0);
    if !sets.Ok? {
      return Err(Invalid);
    }
    ItemsCover(bytes[offset..], counts.1);
    if Has(flags, HAS_MS_OS_DESC) {
      if Speeds(flags) == 0 {
        LoneField(bytes, flags);
      }
      if counts.1 == 0 {
        return Err(Invalid);
      }
      if sets.value.1.None? {
        return Panic;
      }
      var items;
      items, offset := ParseMsOsDescriptors(bytes, offset, counts.1, sets.value.1.value);
      if !items.Ok? {
        return Err(Invalid);
      }
    }
    if offset != |bytes| {
      return Err(Invalid);
    }
    return Ok(Inspection(sets.value.0, Has(flags, HAS_MS_OS_DESC)));
  }

  method Inspect(descriptors: seq<byte>, strings: seq<byte>) returns (r: Outcome<Inspection>)
    ensures r == Inspected(descriptors, strings)
  {
    hide InspectedDescriptors, ReadBlob;
    var inspection :- InspectDescriptors(descriptors);
    var _ :- InspectStrings(strings);
    return Ok(inspection);
  }
}
