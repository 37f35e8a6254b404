/** The layout of a FunctionFS v2 descriptor blob: what stands where, before any descriptor is judged. */
module Layouts {
  import opened Bytes
  import opened Records
  import opened StringTables

  const DESCRIPTORS_MAGIC_V2: u32 := 3
  const HAS_FS_DESC: u32 := 1
  const HAS_HS_DESC: u32 := 2
  const HAS_SS_DESC: u32 := 4
  const HAS_MS_OS_DESC: u32 := 8
  const ALL_CTRL_RECIP: u32 := 64
  const CONFIG0_SETUP: u32 := 128
  const SPEEDS: seq<u32> := [HAS_FS_DESC, HAS_HS_DESC, HAS_SS_DESC]

  /** `flags & flag != 0`, for a power of two. */
  predicate Has(flags: u32, flag: u32)
    requires flag > 0
  {
    flags / flag % 2 == 1
  }

  /** Some flag is set, and none outside the six supported ones. */
  predicate Supported(flags: u32) {
    0 < flags < 256 && !Has(flags, 16) && !Has(flags, 32)
  }

  /** How many of the first `k` speed flags are set. */
  function Speeds(flags: u32, k: nat := 3): (n: nat)
    requires k <= |SPEEDS|
    ensures n <= k
  {
    if k == 0 then 0 else Speeds(flags, k - 1) + if Has(flags, SPEEDS[k - 1]) then 1 else 0
  }

  /** The descriptors of each speed set, and the Microsoft OS feature descriptors. */
  datatype Layout = Layout(flags: u32, sets: seq<seq<seq<byte>>>, items: seq<seq<byte>>)

  // The 32-bit fields that follow the flags.

  function Fields(b: seq<byte>, at: nat, n: nat): (r: seq<u32>)
    requires at + 4 * n <= |b|
    ensures |r| == n
  {
    if n == 0 then [] else Fields(b, at, n - 1) + [FromLe32(b, at + 4 * (n - 1))]
  }

  function EncodeFields(ns: seq<u32>): (b: seq<byte>)
    ensures |b| == 4 * |ns|
  {
    if |ns| == 0 then [] else EncodeFields(ns[..|ns| - 1]) + Le32(ns[|ns| - 1])
  }

  lemma {:induction false} FieldsExact(b: seq<byte>, at: nat, ns: seq<u32>)
    requires at + 4 * |ns| <= |b|
    ensures Fields(b, at, |ns|) == ns <==> b[at..at + 4 * |ns|] == EncodeFields(ns)
  {
    hide Le32, FromLe32;
    if |ns| > 0 {
      var front, last, k := ns[..|ns| - 1], ns[|ns| - 1], at + 4 * (|ns| - 1);
      FieldsExact(b, at, front);
      FieldExact(b, k, last);
      assert b[at..at + 4 * |ns|] == b[at..k] + b[k..k + 4];
      assert ns == front + [last];
      Halves(Fields(b, at, |front|), [FromLe32(b, k)], front, [last]);
      Halves(b[at..k], b[k..k + 4], EncodeFields(front), Le32(last));
    }
  }

  lemma FieldExact(b: seq<byte>, at: nat, n: u32)
    requires at + 4 <= |b|
    ensures FromLe32(b, at) == n <==> b[at..at + 4] == Le32(n)
  {
    FieldOf(b, at);
    if b[at..at + 4] == Le32(n) {
      FieldAt(b, at, n);
    }
  }

  // The sets, one after the other.

  function ConcatSets(sets: seq<seq<seq<byte>>>): seq<byte> {
    if |sets| == 0 then [] else Concat(sets[0]) + ConcatSets(sets[1..])
  }

  /** One set of descriptors for each count, and the bytes after them. */
  function TakeSets(b: seq<byte>, counts: seq<u32>): Option<Read<seq<seq<byte>>>> {
    if |counts| == 0 then Some(Read([], b))
    else
      var ds := UsbDescriptor.Take(b, counts[0]);
      if ds.None? then None
      else
        UsbDescriptor.TakeExact(b, counts[0], ds.value);
        Prepend([ds.value], TakeSets(b[|Concat(ds.value)|..], counts[1..]))
  }

  ghost predicate AreSets(sets: seq<seq<seq<byte>>>, counts: seq<u32>) {
    if |sets| == 0 then |counts| == 0
    else
      && |counts| > 0
      && |sets[0]| == counts[0]
      && UsbDescriptor.AreRecords(sets[0])
      && AreSets(sets[1..], counts[1..])
  }

  lemma {:induction false} TakeSetsExact(b: seq<byte>, counts: seq<u32>, sets: seq<seq<seq<byte>>>, rest: seq<byte>)
    ensures TakeSets(b, counts) == Some(Read(sets, rest)) <==> AreSets(sets, counts) && b == ConcatSets(sets) + rest
    decreases |counts|
  {
    hide Framing.Take, Concat;
    if |counts| == 0 || |sets| == 0 {
      assert [] + rest == rest;
      if |counts| > 0 && TakeSets(b, counts).Some? {
        assert |TakeSets(b, counts).value.items| > 0;
      }
    } else {
      UsbDescriptor.TakeExact(b, counts[0], sets[0]);
      var front := Concat(sets[0]);
      if UsbDescriptor.Take(b, counts[0]) == Some(sets[0]) {
        var more := b[|front|..];
        TakeSetsExact(more, counts[1..], sets[1..], rest);
        SetsFront(sets, rest, TakeSets(more, counts[1..]));
        assert b == front + more;
        assert ConcatSets(sets) + rest == front + (ConcatSets(sets[1..]) + rest);
        Halves(front, more, front, ConcatSets(sets[1..]) + rest);
      } else {
        NoSetFront(b, counts, sets, rest);
      }
    }
  }

  lemma NoSetFront(b: seq<byte>, counts: seq<u32>, sets: seq<seq<seq<byte>>>, rest: seq<byte>)
    requires |counts| > 0 && |sets| > 0 && UsbDescriptor.Take(b, counts[0]) != Some(sets[0])
    ensures TakeSets(b, counts) != Some(Read(sets, rest))
    ensures !(AreSets(sets, counts) && b == ConcatSets(sets) + rest)
  {
    UsbDescriptor.TakeExact(b, counts[0], sets[0]);
    if b == ConcatSets(sets) + rest {
      assert b[..|Concat(sets[0])|] == Concat(sets[0]);
    }
  }

  lemma SetsFront(sets: seq<seq<seq<byte>>>, rest: seq<byte>, more: Option<Read<seq<seq<byte>>>>)
    requires |sets| > 0
    ensures Prepend([sets[0]], more) == Some(Read(sets, rest)) <==> more == Some(Read(sets[1..], rest))
  {
    if more.Some? {
      assert [sets[0]] + more.value.items == sets <==> more.value.items == sets[1..] by {
        assert ([sets[0]] + more.value.items)[1..] == more.value.items;
        assert [sets[0]] + sets[1..] == sets;
      }
    }
  }

  // The blob.

  /** The descriptor counts of the sets, in order. */
  function Counts(sets: seq<seq<seq<byte>>>): (r: seq<u32>)
    ensures |r| == |sets|
  {
    if |sets| == 0 then [] else [Truncated32(|sets[0]|)] + Counts(sets[1..])
  }

  function CountFields(l: Layout): seq<u32> {
    Counts(l.sets) + if Has(l.flags, HAS_MS_OS_DESC) then [Truncated32(|l.items|)] else []
  }

  function Start(flags: u32, length: u32): (h: seq<byte>)
    ensures |h| == 12
  {
    Le32(DESCRIPTORS_MAGIC_V2) + Le32(length) + Le32(flags)
  }

  function Payload(l: Layout): seq<byte> {
    ConcatSets(l.sets) + Concat(l.items)
  }

  function Encode(l: Layout): seq<byte> {
    var rest := EncodeFields(CountFields(l)) + Payload(l);
    Start(l.flags, Truncated32(12 + |rest|)) + rest
  }

  ghost predicate SetsFramed(sets: seq<seq<seq<byte>>>) {
    AreSets(sets, Counts(sets))
  }

  /** The parts are complete records, there is a set for each speed flag, and the blob fits its length field. */
  ghost predicate Framed(l: Layout) {
    && Supported(l.flags)
    && |l.sets| == Speeds(l.flags)
    && SetsFramed(l.sets)
    && OsDescriptor.AreRecords(l.items)
    && (Has(l.flags, HAS_MS_OS_DESC) || |l.items| == 0)
    && |l.items| < 0x1_0000_0000
    && |Encode(l)| < 0x1_0000_0000
  }

  /** The parts read from a blob, if its header is right and complete records tile the rest of it. */
  function ReadLayout(b: seq<byte>): Option<Layout> {
    if !Headed(b) then None else ReadBody(b, FromLe32(b, 8))
  }

  predicate Headed(b: seq<byte>) {
    && 12 <= |b|
    && FromLe32(b, 0) == DESCRIPTORS_MAGIC_V2
    && FromLe32(b, 4) == |b|
    && Supported(FromLe32(b, 8))
  }

  function FieldCount(flags: u32): nat {
    Speeds(flags) + if Has(flags, HAS_MS_OS_DESC) then 1 else 0
  }

  function ReadBody(b: seq<byte>, flags: u32): Option<Layout>
    requires 12 <= |b|
  {
    var at := 12 + 4 * FieldCount(flags);
    if |b| < at then None
    else
      var fields := Fields(b, 12, FieldCount(flags));
      var sets := TakeSets(b[at..], fields[..Speeds(flags)]);
      if sets.None? then None
      else
        var items := OsDescriptor.Take(sets.value.rest, ItemCount(flags, fields));
        if items.None? || Concat(items.value) != sets.value.rest then None
        else Some(Layout(flags, sets.value.items, items.value))
  }

  function ItemCount(flags: u32, fields: seq<u32>): nat
    requires |fields| == FieldCount(flags)
  {
    if Has(flags, HAS_MS_OS_DESC) then fields[Speeds(flags)] else 0
  }

  lemma {:induction false} CountsFit(sets: seq<seq<seq<byte>>>, counts: seq<u32>)
    requires AreSets(sets, counts)
    ensures counts == Counts(sets)
  {
    if |sets| > 0 {
      CountsFit(sets[1..], counts[1..]);
      assert counts == [counts[0]] + counts[1..];
    }
  }

  lemma StartExact(b: seq<byte>, flags: u32, length: u32)
    requires 12 <= |b|
    ensures Start(flags, length) <= b
       <==> FromLe32(b, 0) == DESCRIPTORS_MAGIC_V2 && FromLe32(b, 4) == length && FromLe32(b, 8) == flags
  {
    hide Le32, FromLe32;
    var s := Start(flags, length);
    assert s[0..4] == Le32(DESCRIPTORS_MAGIC_V2) && s[4..8] == Le32(length) && s[8..12] == Le32(flags);
    FieldOf(b, 0);
    FieldOf(b, 4);
    FieldOf(b, 8);
    assert b[..12] == b[0..4] + b[4..8] + b[8..12];
    if s <= b {
      assert b[0..4] == s[0..4] && b[4..8] == s[4..8] && b[8..12] == s[8..12];
      FieldAt(b, 0, DESCRIPTORS_MAGIC_V2);
      FieldAt(b, 4, length);
      FieldAt(b, 8, flags);
    }
  }

  /** ReadLayout is exact: it finds the only framed layout that the blob encodes, if there is one. */
  lemma LayoutExact(b: seq<byte>, l: Layout)
    ensures ReadLayout(b) == Some(l) <==> Framed(l) && b == Encode(l)
  {
    hide FromLe32, Supported, ReadBody, Start, Has, Framed;
    if ReadLayout(b) == Some(l) {
      LayoutSound(b, l);
    }
    if Framed(l) && b == Encode(l) {
      LayoutComplete(l);
    }
  }

  lemma LayoutSound(b: seq<byte>, l: Layout)
    requires ReadLayout(b) == Some(l)
    ensures Framed(l) && b == Encode(l)
  {
    hide FromLe32, Supported, Start, Has, Fields, EncodeFields, AreSets, Counts, TakeSets, Speeds, Concat, ConcatSets;
    hide Framing.Take;
    var flags, n := FromLe32(b, 8), FieldCount(FromLe32(b, 8));
    var at := 12 + 4 * n;
    var fields := Fields(b, 12, n);
    StartExact(b, flags, |b|);
    FieldsExact(b, 12, fields);
    BodySound(b[at..], flags, fields, l);
    assert b == b[..12] + (b[12..at] + b[at..]);
  }

  lemma BodySound(b: seq<byte>, flags: u32, fields: seq<u32>, l: Layout)
    requires |fields| == FieldCount(flags) && flags == l.flags
    requires var sets := TakeSets(b, fields[..Speeds(flags)]);
             && sets.Some?
             && l.sets == sets.value.items
             && OsDescriptor.Take(sets.value.rest, ItemCount(flags, fields)) == Some(l.items)
             && Concat(l.items) == sets.value.rest
    ensures |l.sets| == Speeds(flags) && SetsFramed(l.sets) && OsDescriptor.AreRecords(l.items)
    ensures Has(flags, HAS_MS_OS_DESC) || |l.items| == 0
    ensures |l.items| < 0x1_0000_0000 && fields == CountFields(l) && b == Payload(l)
  {
    hide Speeds, Has, TakeSets, AreSets, Counts, Concat, ConcatSets, Framing.Take, Framing.AreRecords;
    var counts, rest := fields[..Speeds(flags)], TakeSets(b, fields[..Speeds(flags)]).value.rest;
    TakeSetsExact(b, counts, l.sets, rest);
    CountsFit(l.sets, counts);
    OsDescriptor.TakeExact(rest, ItemCount(flags, fields), l.items);
    FieldsAreCounts(fields, l);
  }

  lemma FieldsAreCounts(fields: seq<u32>, l: Layout)
    requires |fields| == FieldCount(l.flags) && fields[..Speeds(l.flags)] == Counts(l.sets)
    requires |l.items| == ItemCount(l.flags, fields)
    ensures fields == CountFields(l) && |l.sets| == Speeds(l.flags)
    ensures Has(l.flags, HAS_MS_OS_DESC) || |l.items| == 0
    ensures |l.items| < 0x1_0000_0000
  {
    hide Speeds, Has, Counts;
    assert |l.sets| == |Counts(l.sets)|;
    assert fields == fields[..Speeds(l.flags)] + fields[Speeds(l.flags)..];
  }

  lemma LayoutComplete(l: Layout)
    requires Framed(l)
    ensures ReadLayout(Encode(l)) == Some(l)
  {
    hide FromLe32, Supported, Start, Has, Fields, EncodeFields, TakeSets, Speeds, Payload, SetsFramed, Framing.Take;
    var b, fields, n := Encode(l), CountFields(l), FieldCount(l.flags);
    var at := 12 + 4 * n;
    StartExact(b, l.flags, |b|);
    assert b[12..at] == EncodeFields(fields) && b[at..] == Payload(l);
    FieldsExact(b, 12, fields);
    BodyComplete(l);
  }

  lemma BodyComplete(l: Layout)
    requires Framed(l)
    ensures |CountFields(l)| == FieldCount(l.flags) && CountFields(l)[..Speeds(l.flags)] == Counts(l.sets)
    ensures TakeSets(Payload(l), Counts(l.sets)) == Some(Read(l.sets, Concat(l.items)))
    ensures OsDescriptor.Take(Concat(l.items), ItemCount(l.flags, CountFields(l))) == Some(l.items)
  {
    hide Supported, Has, Encode, TakeSets, AreSets, Counts, Speeds, Concat, ConcatSets, Framing.Take;
    assert Counts(l.sets) + [] == Counts(l.sets);
    TakeSetsExact(Payload(l), Counts(l.sets), l.sets, Concat(l.items));
    OsDescriptor.TakeExact(Concat(l.items), |l.items|, l.items);
  }

  // The flags, bit by bit.

  /** Bits 0 to 3, 6 and 7 are supported, bits 0 to 2 announce a speed set each. */
  lemma FlagBits(flags: u32)
    ensures Supported(flags) <==> 0 < flags < 256 && flags / 16 % 4 == 0
    ensures Speeds(flags) == flags % 2 + flags / 2 % 2 + flags / 4 % 2
    ensures Has(flags, HAS_MS_OS_DESC) <==> flags / 8 % 2 == 1
  {
    hide Speeds, Supported;
    SpeedBits(flags);
    SupportedBits(flags);
  }

  lemma SupportedBits(flags: u32)
    ensures Supported(flags) <==> 0 < flags < 256 && flags / 16 % 4 == 0
  {
    TwoBits(flags / 16);
    assert flags / 32 == flags / 16 / 2;
  }

  lemma TwoBits(n: nat)
    ensures n % 4 == 0 <==> n % 2 != 1 && n / 2 % 2 != 1
  {
  }

  lemma SpeedBits(flags: u32)
    ensures Speeds(flags) == flags % 2 + flags / 2 % 2 + flags / 4 % 2
  {
    hide Has;
    assert Speeds(flags, 0) == 0;
    assert Speeds(flags, 1) == if Has(flags, 1) then 1 else 0;
    assert Speeds(flags, 2) == (if Has(flags, 1) then 1 else 0) + (if Has(flags, 2) then 1 else 0);
    HasBit(flags, 1);
    HasBit(flags, 2);
    HasBit(flags, 4);
  }

  lemma HasBit(flags: u32, flag: u32)
    requires flag > 0
    ensures flags / flag % 2 == if Has(flags, flag) then 1 else 0
  {
  }
}
