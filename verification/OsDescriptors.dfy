/** The validator's reading of Microsoft OS 1.0 feature descriptors. */
module OsDescriptors {
  import opened Bytes
  import opened Unicode
  import opened Records

  const VERSION: u16 := 0x100
  const COMPATIBLE: u16 := 4
  const PROPERTIES: u16 := 5
  const FEATURE: nat := 24

  /** `u8::is_ascii_graphic`. */
  predicate Graphic(b: byte) {
    0x21 <= b <= 0x7E
  }

  predicate AllZero(b: seq<byte>) {
    forall i :: 0 <= i < |b| ==> b[i] == 0
  }

  /** Every byte is zero padding or a graphic ASCII character. */
  predicate Printable(b: seq<byte>) {
    forall i :: 0 <= i < |b| ==> b[i] == 0 || Graphic(b[i])
  }

  /** One function section of an extended compatible-ID descriptor. */
  predicate FeatureOk(f: seq<byte>, interfaces: set<byte>)
    requires |f| == FEATURE
  {
    && f[0] in interfaces
    && f[1] == 1
    && !AllZero(f[2..10])
    && Printable(f[2..18])
    && AllZero(f[18..])
  }

  predicate FeaturesOk(b: seq<byte>, n: nat, interfaces: set<byte>)
    requires |b| == n * FEATURE
    decreases n
  {
    n == 0 || (FeatureOk(b[..FEATURE], interfaces) && FeaturesOk(b[FEATURE..], n - 1, interfaces))
  }

  /** An extended compatible-ID descriptor whose sections are all well formed. */
  predicate CompatibleOk(item: seq<byte>, interfaces: set<byte>)
    requires |item| >= 11
  {
    && item[9] != 0
    && item[10] == 0
    && |item| == 11 + item[9] * FEATURE
    && FeaturesOk(item[11..], item[9], interfaces)
  }

  /** A non-empty name ending in a zero byte, whose other bytes are UTF-8. */
  predicate NameOk(name: seq<byte>) {
    |name| > 0 && name[|name| - 1] == 0 && DecodeUtf8(name[..|name| - 1]).Some?
  }

  /** One custom property: size, type, name and data. */
  predicate PropertyOk(p: seq<byte>)
    requires |p| >= 14
  {
    var name: int := FromLe16(p, 8);
    && 1 <= FromLe32(p, 4) <= 7
    && 10 + name + 4 <= |p|
    && NameOk(p[10..10 + name])
    && 10 + name + 4 + FromLe32(p, 10 + name) as int == |p|
  }

  predicate PropertiesAllOk(ps: seq<seq<byte>>) {
    forall i :: 0 <= i < |ps| ==> |ps[i]| >= 14 && PropertyOk(ps[i])
  }

  /** An extended-properties descriptor that its properties tile exactly. */
  predicate PropertiesOk(item: seq<byte>)
    requires |item| >= 11
  {
    var count, ps := FromLe16(item, 9), OsProperty.Take(item[11..], FromLe16(item, 9));
    && count != 0
    && ps.Some?
    && PropertiesAllOk(ps.value)
    && Concat(ps.value) == item[11..]
  }

  /** A Microsoft OS feature descriptor the validator accepts for a function with `interfaces`. */
  predicate ItemOk(item: seq<byte>, interfaces: set<byte>)
    requires |item| >= 11
  {
    && item[0] in interfaces
    && FromLe16(item, 5) == VERSION
    && (|| (FromLe16(item, 7) == COMPATIBLE && CompatibleOk(item, interfaces))
        || (FromLe16(item, 7) == PROPERTIES && PropertiesOk(item)))
  }

  predicate ItemsOk(items: seq<seq<byte>>, interfaces: set<byte>) {
    forall i :: 0 <= i < |items| ==> |items[i]| >= 11 && ItemOk(items[i], interfaces)
  }

  /** The `n` feature descriptors at the front of `b`. */
  function TakeItems(b: seq<byte>, n: nat, interfaces: set<byte>): Option<seq<seq<byte>>> {
    var items := OsDescriptor.Take(b, n);
    if items.Some? && ItemsOk(items.value, interfaces) then items else None
  }

  function Verdict(ok: bool): Outcome<()> {
    if ok then Ok(()) else Err(Invalid)
  }

  method ParseExtendedCompatId(bytes: seq<byte>, start: nat, end: nat, interfaces: set<byte>) returns (r: Outcome<()>)
    requires start + 11 <= end <= |bytes|
    ensures r == Verdict(CompatibleOk(bytes[start..end], interfaces))
  {
    var count: int := bytes[start + 9];
    if count == 0 || bytes[start + 10] != 0 || end - start != 11 + count * FEATURE {
      return Err(Invalid);
    }
    var cursor := start + 11;
    assert bytes[start..end][11..] == bytes[cursor..end];
    for i := 0 to count
      invariant cursor == start + 11 + i * FEATURE
      invariant CompatibleOk(bytes[start..end], interfaces)
           <==> FeaturesOk(bytes[cursor..end], count - i, interfaces)
    {
      var feature := bytes[cursor..cursor + FEATURE];
      assert bytes[cursor..end][..FEATURE] == feature;
      assert bytes[cursor..end][FEATURE..] == bytes[cursor + FEATURE..end];
      if feature[0] !in interfaces {
        return Err(Invalid);
      }
      if feature[1] != 1 || AllZero(feature[2..10]) {
        return Err(Invalid);
      }
      if !Printable(feature[2..18]) || !AllZero(feature[18..]) {
        return Err(Invalid);
      }
      cursor := cursor + FEATURE;
    }
    return Ok(());
  }

  lemma PropertyFields(bytes: seq<byte>, cursor: nat, end: nat)
    requires cursor + 14 <= end <= |bytes|
    ensures var p := bytes[cursor..end];
            && FromLe32(p, 0) == FromLe32(bytes, cursor)
            && FromLe32(p, 4) == FromLe32(bytes, cursor + 4)
            && FromLe16(p, 8) == FromLe16(bytes, cursor + 8)
            && forall k: nat {:trigger FromLe32(p, k)} :: k + 4 <= |p| ==> FromLe32(p, k) == FromLe32(bytes, cursor + k)
  {
  }

  lemma SliceOfSlice(b: seq<byte>, from: nat, to: nat, i: nat, j: nat)
    requires from <= to <= |b| && i <= j <= to - from
    ensures b[from..to][i..j] == b[from + i..from + j]
  {
    var inner, outer := b[from..to], b[from + i..from + j];
    forall k | 0 <= k < j - i
      ensures inner[i..j][k] == outer[k]
    {
      assert inner[i..j][k] == inner[i + k] == b[from + (i + k)];
    }
  }

  // One round of the property loop; returns where the property ends.
  method ParseProperty(bytes: seq<byte>, cursor: nat, end: nat) returns (r: Outcome<nat>)
    requires cursor <= end <= |bytes|
    ensures var rest := bytes[cursor..end];
            if OsProperty.Fits(rest) && PropertyOk(rest[..OsProperty.Declared(rest)])
            then r == Ok(cursor + OsProperty.Declared(rest))
            else r == Err(Invalid)
  {
    hide FromLe32, FromLe16, DecodeUtf8;
    ghost var rest := bytes[cursor..end];
    DeclaredField(rest);
    var size: int :- ReadLe32(bytes, cursor);
    if size < 14 || cursor + size > end {
      if |rest| >= 14 {
        PropertyFields(bytes, cursor, end);
      }
      return Err(Invalid);
    }
    PropertyFields(bytes, cursor, end);
    var itemEnd := cursor + size;
    PropertyFields(bytes, cursor, itemEnd);
    ghost var p := rest[..OsProperty.Declared(rest)];
    assert p == bytes[cursor..itemEnd];
    var propertyType := FromLe32(bytes, cursor + 4);
    if !(1 <= propertyType <= 7) {
      return Err(Invalid);
    }
    var nameLength: int := FromLe16(bytes, cursor + 8);
    var nameStart := cursor + 10;
    var nameEnd := nameStart + nameLength;
    if nameEnd + 4 > itemEnd {
      return Err(Invalid);
    }
    var name := bytes[nameStart..nameEnd];
    SliceOfSlice(bytes, cursor, itemEnd, 10, 10 + nameLength);
    if |name| == 0 || name[|name| - 1] != 0 || DecodeUtf8(name[..|name| - 1]).None? {
      return Err(Invalid);
    }
    var dataLength: int := FromLe32(bytes, nameEnd);
    assert FromLe32(p, 10 + nameLength) == FromLe32(bytes, cursor + (10 + nameLength));
    if nameEnd + 4 + dataLength != itemEnd {
      return Err(Invalid);
    }
    return Ok(itemEnd);
  }

  // The properties read so far, and the bytes left.
  ghost predicate PropertiesReached(b: seq<byte>, n: nat, done: seq<seq<byte>>, rest: seq<byte>, left: nat) {
    && OsProperty.Take(b, n) == Join(done, OsProperty.Take(rest, left))
    && PropertiesAllOk(done)
    && b == Concat(done) + rest
  }

  lemma PropertyProceed(b: seq<byte>, n: nat, done: seq<seq<byte>>, rest: seq<byte>, left: nat)
    requires PropertiesReached(b, n, done, rest, left) && left > 0
    ensures !OsProperty.Fits(rest) ==> OsProperty.Take(b, n).None?
    ensures OsProperty.Fits(rest) ==>
              var p, more := rest[..OsProperty.Declared(rest)], rest[OsProperty.Declared(rest)..];
              if PropertyOk(p) then PropertiesReached(b, n, done + [p], more, left - 1)
              else OsProperty.Take(b, n).Some? ==> !PropertiesAllOk(OsProperty.Take(b, n).value)
  {
    hide PropertyOk;
    if OsProperty.Fits(rest) {
      var p, more := rest[..OsProperty.Declared(rest)], rest[OsProperty.Declared(rest)..];
      var t := OsProperty.Take(more, left - 1);
      ConcatPush(done, p);
      assert rest == p + more;
      if t.Some? {
        assert done + ([p] + t.value) == (done + [p]) + t.value;
        assert (done + ([p] + t.value))[|done|] == p;
      }
    }
  }

  lemma PropertiesFinish(b: seq<byte>, n: nat, done: seq<seq<byte>>, rest: seq<byte>)
    requires PropertiesReached(b, n, done, rest, 0)
    ensures OsProperty.Take(b, n) == Some(done) && PropertiesAllOk(done)
    ensures Concat(done) == b <==> |rest| == 0
  {
    JoinNothing(done, OsProperty.Take(rest, 0));
  }

  method ParseExtendedProperties(bytes: seq<byte>, start: nat, end: nat) returns (r: Outcome<()>)
    requires start + 11 <= end <= |bytes|
    ensures r == Verdict(PropertiesOk(bytes[start..end]))
  {
    hide FromLe32, FromLe16, PropertyOk, PropertiesAllOk, Framing.Take, Concat, PropertiesReached;
    ghost var item := bytes[start..end];
    FieldSlice(bytes, start, end);
    var count: int := FromLe16(bytes, start + 9);
    if count == 0 {
      return Err(Invalid);
    }
    var cursor: nat := start + 11;
    ghost var b, done := item[11..], [];
    assert b == bytes[cursor..end];
    NoProperties(b, count);
    for i := 0 to count
      invariant cursor <= end
      invariant PropertiesReached(b, count, done, bytes[cursor..end], count - i)
    {
      ghost var rest := bytes[cursor..end];
      PropertyProceed(b, count, done, rest, count - i);
      var next := ParseProperty(bytes, cursor, end);
      if !next.Ok? {
        return Err(Invalid);
      }
      done := done + [rest[..OsProperty.Declared(rest)]];
      assert rest[OsProperty.Declared(rest)..] == bytes[next.value..end];
      cursor := next.value;
    }
    PropertiesFinish(b, count, done, bytes[cursor..end]);
    if cursor != end {
      return Err(Invalid);
    }
    return Ok(());
  }

  lemma NoProperties(b: seq<byte>, n: nat)
    ensures PropertiesReached(b, n, [], b, n)
  {
    JoinNothing([], OsProperty.Take(b, n));
    assert [] + b == b;
  }

  lemma FieldSlice(bytes: seq<byte>, start: nat, end: nat)
    requires start + 11 <= end <= |bytes|
    ensures var item := bytes[start..end];
            && FromLe32(item, 1) == FromLe32(bytes, start + 1)
            && FromLe16(item, 5) == FromLe16(bytes, start + 5)
            && FromLe16(item, 7) == FromLe16(bytes, start + 7)
            && FromLe16(item, 9) == FromLe16(bytes, start + 9)
  {
  }

  // The items read so far, and the bytes left.
  ghost predicate ItemsReached(
    b: seq<byte>, n: nat, interfaces: set<byte>, done: seq<seq<byte>>, rest: seq<byte>, left: nat) {
    OsDescriptor.Take(b, n) == Join(done, OsDescriptor.Take(rest, left)) && ItemsOk(done, interfaces)
  }

  lemma ItemProceed(b: seq<byte>, n: nat, interfaces: set<byte>, done: seq<seq<byte>>, rest: seq<byte>, left: nat)
    requires ItemsReached(b, n, interfaces, done, rest, left) && left > 0
    ensures !OsDescriptor.Fits(rest) ==> TakeItems(b, n, interfaces).None?
    ensures OsDescriptor.Fits(rest) ==>
              var d := rest[..OsDescriptor.Declared(rest)];
              if ItemOk(d, interfaces)
              then ItemsReached(b, n, interfaces, done + [d], rest[OsDescriptor.Declared(rest)..], left - 1)
              else TakeItems(b, n, interfaces).None?
  {
    hide ItemOk;
    if OsDescriptor.Fits(rest) {
      var d, more := rest[..OsDescriptor.Declared(rest)], rest[OsDescriptor.Declared(rest)..];
      var t := OsDescriptor.Take(more, left - 1);
      if t.Some? {
        assert done + ([d] + t.value) == (done + [d]) + t.value;
        assert (done + ([d] + t.value))[|done|] == d;
      }
    }
  }

  // One feature descriptor; returns where it ends.
  method ParseItem(bytes: seq<byte>, start: nat, interfaces: set<byte>) returns (r: Outcome<nat>)
    requires start <= |bytes|
    ensures var rest := bytes[start..];
            if OsDescriptor.Fits(rest) && ItemOk(rest[..OsDescriptor.Declared(rest)], interfaces)
            then r == Ok(start + OsDescriptor.Declared(rest))
            else r == Err(Invalid)
  {
    hide FromLe32, FromLe16, PropertiesOk, CompatibleOk;
    ghost var rest := bytes[start..];
    DeclaredField(rest);
    if start + 11 > |bytes| {
      return Err(Invalid);
    }
    assert rest == bytes[start..|bytes|];
    FieldSlice(bytes, start, |bytes|);
    ItemFront(bytes, start);
    if bytes[start] !in interfaces {
      return Err(Invalid);
    }
    var length: int := FromLe32(bytes, start + 1);
    if length < 11 {
      return Err(Invalid);
    }
    var end := start + length;
    if end > |bytes| {
      return Err(Invalid);
    }
    assert rest[..OsDescriptor.Declared(rest)] == bytes[start..end];
    FieldSlice(bytes, start, end);
    var version := FromLe16(bytes, start + 5);
    if version != VERSION {
      return Err(Invalid);
    }
    var index := FromLe16(bytes, start + 7);
    if index == COMPATIBLE {
      var _ :- ParseExtendedCompatId(bytes, start, end, interfaces);
    } else if index == PROPERTIES {
      var _ :- ParseExtendedProperties(bytes, start, end);
    } else {
      return Err(Invalid);
    }
    return Ok(end);
  }

  lemma ItemFront(bytes: seq<byte>, start: nat)
    requires start + 11 <= |bytes|
    ensures var rest := bytes[start..];
            forall k: nat {:trigger rest[..k]} :: 11 <= k <= |rest| ==> rest[..k][0] == bytes[start]
  {
  }

  method ParseMsOsDescriptors(bytes: seq<byte>, start: nat, count: nat, interfaces: set<byte>)
    returns (r: Outcome<()>, offset: nat)
    requires start <= |bytes|
    ensures var items := TakeItems(bytes[start..], count, interfaces);
            if items.None? then r == Err(Invalid)
            else r == Ok(()) && offset == start + |Concat(items.value)| && offset <= |bytes|
  {
    hide ItemOk;
    offset := start;
    ghost var b, done := bytes[start..], [];
    JoinNothing(done, OsDescriptor.Take(b, count));
    assert Concat(done) == [];
    for i := 0 to count
      invariant offset <= |bytes| && offset == start + |Concat(done)|
      invariant ItemsReached(b, count, interfaces, done, bytes[offset..], count - i)
    {
      ghost var rest := bytes[offset..];
      ItemProceed(b, count, interfaces, done, rest, count - i);
      var end := ParseItem(bytes, offset, interfaces);
      if !end.Ok? {
        return Err(Invalid), offset;
      }
      ghost var d := rest[..OsDescriptor.Declared(rest)];
      ConcatPush(done, d);
      done := done + [d];
      assert rest[OsDescriptor.Declared(rest)..] == bytes[end.value..];
      offset := end.value;
    }
    JoinNothing(done, OsDescriptor.Take(bytes[offset..], 0));
    return Ok(()), offset;
  }
}
