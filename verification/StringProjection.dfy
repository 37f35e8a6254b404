/** String descriptors, and their projection to the FunctionFS string blob. */
module StringProjection {
  import opened Bytes
  import opened Records
  import opened Unicode
  import opened Configuration
  import opened Renumbering
  import opened Sorting
  import opened StringTables

  const STRING: byte := 3

  type Descriptors = map<(byte, u16), seq<byte>>

  function LanguageId(strings: Descriptors): Outcome<u16> {
    if (0, 0) !in strings then Err(Invalid)
    else
      var d := strings[(0, 0)];
      if |d| < 4 || d[1] != STRING || d[0] > |d| then Err(Invalid) else Ok(FromLe16(d, 2))
  }

  /**
   The text of a string descriptor (USB 2.0 section 9.6.7). A length byte of zero passes every check and then
   asks for the slice from 2 to 0: the program panics.
   */
  function UsbString(strings: Descriptors, index: byte, language: u16): Outcome<Text> {
    if (index, language) !in strings then Err(NoString(index))
    else
      var d := strings[(index, language)];
      if |d| < 2 || d[1] != STRING || d[0] > |d| || d[0] % 2 != 0 then Err(Invalid)
      else if d[0] < 2 then Panic
      else
        var t := DecodeUtf16(UnitsOfBytes(d[2..d[0]]));
        if t.None? then Err(Invalid) else Ok(t.value)
  }

  /** A string descriptor that passes every check although its length byte is zero. */
  predicate Hollow(d: seq<byte>) {
    |d| >= 2 && d[0] == 0 && d[1] == STRING
  }

  /** Reading a string panics exactly when its descriptor is hollow. */
  lemma StringPanicsExactly(strings: Descriptors, index: byte, language: u16)
    ensures UsbString(strings, index, language).Panic?
       <==> (index, language) in strings && Hollow(strings[(index, language)])
  {
    hide DecodeUtf16, UnitsOfBytes;
    if (index, language) in strings {
      var d := strings[(index, language)];
      assert |d| > 0 && d[0] < 2 && d[0] % 2 == 0 ==> d[0] == 0;
    }
  }

  function OptionalString(strings: Descriptors, index: byte, language: u16): Outcome<Option<Text>> {
    if index == 0 then Ok(None)
    else
      var t :- UsbString(strings, index, language);
      Ok(Some(t))
  }

  /** The mapped indices, by increasing number. */
  function InNumberOrder(numbers: map<byte, byte>): seq<byte> {
    SortBy(Ascending(numbers.Keys), x => if x in numbers then numbers[x] else 0)
  }

  /** The texts of `order`, or the first failure. */
  function Texts(strings: Descriptors, language: u16, order: seq<byte>): Outcome<seq<Text>> {
    if |order| == 0 then Ok([])
    else
      var front :- Texts(strings, language, order[..|order| - 1]);
      var t :- UsbString(strings, order[|order| - 1], language);
      if 0 in EncodeUtf8(t) then Err(Invalid) else Ok(front + [t])
  }

  function BlobOf(language: u16, ts: seq<Text>): seq<byte> {
    EncodeBlob(|ts|, if |ts| == 0 then [] else [Table(language, ts)])
  }

  function Strings(strings: Descriptors, language: u16, numbers: map<byte, byte>): Outcome<seq<byte>> {
    var ts :- Texts(strings, language, InNumberOrder(numbers));
    Ok(BlobOf(language, ts))
  }

  lemma {:induction false} EncodeTextsPush(ts: seq<Text>, t: Text)
    ensures EncodeTexts(ts + [t]) == EncodeTexts(ts) + (EncodeUtf8(t) + [0])
  {
    hide EncodeUtf8;
    if |ts| == 0 {
      assert ts + [t] == [t] && [t][1..] == [];
      assert Terminated(t) + [] == Terminated(t);
    } else {
      EncodeTextsPush(ts[1..], t);
      assert (ts + [t])[1..] == ts[1..] + [t];
    }
  }

  lemma {:induction false} TextsStop(strings: Descriptors, language: u16, order: seq<byte>, k: nat)
    requires k <= |order| && Texts(strings, language, order[..k]).IsFailure()
    ensures Texts(strings, language, order) == Texts(strings, language, order[..k])
  {
    if k == |order| {
      assert order[..k] == order;
    } else {
      assert order[..|order| - 1][..k] == order[..k];
      TextsStop(strings, language, order[..|order| - 1], k);
    }
  }

  method FunctionFsStrings(strings: Descriptors, language: u16, numbers: map<byte, byte>)
    returns (r: Outcome<seq<byte>>)
    ensures r == Strings(strings, language, numbers)
  {
    hide EncodeUtf8, UsbString, Le32, InNumberOrder, EncodeTexts, EncodeTables;
    var ordered := InNumberOrder(numbers);
    SizeOfOrder(numbers);
    var body: seq<byte> := [];
    ghost var ts: seq<Text> := [];
    if |ordered| > 0 {
      body := Le16(language);
      assert EncodeTexts(ts) == [] && body + [] == body by {
        NoTexts();
      }
      for i := 0 to |ordered|
        invariant Texts(strings, language, ordered[..i]) == Ok(ts) && |ts| == i
        invariant body == Le16(language) + EncodeTexts(ts)
      {
        assert ordered[..i + 1][..i] == ordered[..i];
        var value := UsbString(strings, ordered[i], language);
        if value.IsFailure() || 0 in EncodeUtf8(value.value) {
          TextsStop(strings, language, ordered, i + 1);
          return if value.IsFailure() then value.PropagateFailure() else Err(Invalid);
        }
        EncodeTextsPush(ts, value.value);
        body := body + (EncodeUtf8(value.value) + [0]);
        ts := ts + [value.value];
      }
    }
    assert ordered[..|ordered|] == ordered;
    TablesOfOne(language, ts);
    var length := 16 + |body|;
    var blob := Le32(STRINGS_MAGIC) + Le32(Truncated32(length));
    blob := blob + (Le32(Truncated32(|numbers|)) + Le32(if |numbers| == 0 then 0 else 1));
    blob := blob + body;
    return Ok(blob);
  }

  lemma NoTexts()
    ensures EncodeTexts([]) == []
  {
  }

  lemma TablesOfOne(language: u16, ts: seq<Text>)
    ensures EncodeTables([]) == []
    ensures EncodeTables([Table(language, ts)]) == Le16(language) + EncodeTexts(ts)
  {
    var one := [Table(language, ts)];
    assert one[1..] == [];
    assert EncodeTable(one[0]) + [] == EncodeTable(one[0]);
  }

  lemma AscendingMembers(s: set<byte>)
    ensures multiset(Ascending(s)) == multiset(s)
  {
    hide Ascending;
    var xs := Ascending(s);
    MultisetOfDistinct(xs);
    assert (set x | x in xs) == s;
  }

  lemma SizeOfOrder(numbers: map<byte, byte>)
    ensures |InNumberOrder(numbers)| == |numbers|
  {
    hide SortBy, Ascending;
    AscendingMembers(numbers.Keys);
    assert |multiset(InNumberOrder(numbers))| == |multiset(numbers.Keys)|;
  }

  // Sorting the map's entries by number recovers the order of first appearance.
  lemma NumberOrderIsFirstAppearance(numbers: map<byte, byte>, order: seq<byte>)
    requires Numbering(numbers, order)
    ensures InNumberOrder(numbers) == order
  {
    hide SortBy, Ascending, Numbering, Distinct, StrictlySorted;
    var keys, key := Ascending(numbers.Keys), (x: byte) => if x in numbers then numbers[x] else 0;
    AscendingMembers(numbers.Keys);
    NumberedInOrder(numbers, order, key);
    MultisetOfDistinct(order);
    assert InNumberOrder(numbers) == SortBy(keys, key);
    SortUnique(SortBy(keys, key), order, key);
  }

  lemma NumberedInOrder(numbers: map<byte, byte>, order: seq<byte>, key: byte -> int)
    requires Numbering(numbers, order)
    requires forall x :: key(x) == if x in numbers then numbers[x] as int else 0
    ensures Distinct(order) && StrictlySorted(order, key) && (set x | x in order) == numbers.Keys
  {
    assert forall k :: 0 <= k < |order| ==> numbers[order[k]] == k + 1;
  }

  // The texts fit the blob's 32-bit length field, and hold no NUL.

  lemma UsbStringIsShort(strings: Descriptors, index: byte, language: u16)
    ensures var t := UsbString(strings, index, language); t.Ok? ==> |EncodeUtf8(t.value)| <= 378
  {
    var t := UsbString(strings, index, language);
    if t.Ok? {
      var d := strings[(index, language)];
      Utf16Exact(UnitsOfBytes(d[2..d[0]]));
      Utf8Length(t.value);
    }
  }

  lemma {:induction false} TextsFit(strings: Descriptors, language: u16, order: seq<byte>)
    requires Texts(strings, language, order).Ok?
    ensures var ts := Texts(strings, language, order).value;
            && |ts| == |order|
            && |EncodeTexts(ts)| <= 379 * |ts|
            && NulFree(ts)
            && forall k :: 0 <= k < |order| ==> UsbString(strings, order[k], language) == Ok(ts[k])
  {
    hide UsbString, EncodeUtf8, EncodeTexts;
    if |order| == 0 {
      NoTexts();
    } else {
      var front, last := order[..|order| - 1], order[|order| - 1];
      TextsFit(strings, language, front);
      var t := UsbString(strings, last, language).value;
      UsbStringIsShort(strings, last, language);
      EncodeTextsPush(Texts(strings, language, front).value, t);
      Utf8Zero(t);
    }
  }

  /** The string numbered `k` in the blob's tables is the text the descriptors give for `original`. */
  predicate ReadsBack(strings: Descriptors, language: u16, tables: seq<Table>, original: byte, k: byte) {
    && |tables| == 1
    && tables[0].language == language
    && 1 <= k <= |tables[0].texts|
    && UsbString(strings, original, language) == Ok(tables[0].texts[k - 1])
  }

  /**
   The emitted blob always passes `inspect_strings`, and what it holds at a rewritten index is exactly the text
   the original index named in the selected language.
   */
  lemma StringMeaning(strings: Descriptors, language: u16, ds: seq<seq<byte>>, w: Walked)
    requires Walk(ds) == Some(w) && Strings(strings, language, w.found.numbers).Ok?
    ensures var tables := ReadBlob(Strings(strings, language, w.found.numbers).value);
            && tables.Some?
            && forall i :: 0 <= i < |ds| ==>
                 var original, k := StringRef(ds[i]), StringRef(Relabelled(w.found.numbers, ds[i]));
                 if original == 0 then k == 0 else ReadsBack(strings, language, tables.value, original, k)
  {
    hide UsbString, ReadBlob, BlobOf, Walk, Order, InNumberOrder, Texts, EncodeTexts, Numbering;
    var numbers, order := w.found.numbers, Order(ds);
    WalkNumbers(ds, w);
    WalkCovers(ds, w);
    WalkIsByte(ds, w);
    NumberOrderIsFirstAppearance(numbers, order);
    TextsFit(strings, language, order);
    SizeOfOrder(numbers);
    var ts := Texts(strings, language, order).value;
    BlobReadsBack(language, ts);
    forall i | 0 <= i < |ds| && StringRef(ds[i]) != 0
      ensures ReadsBack(
                strings, language, [Table(language, ts)], StringRef(ds[i]), StringRef(Relabelled(numbers, ds[i])))
    {
      NumberedText(strings, language, numbers, order, ts, StringRef(ds[i]));
    }
  }

  lemma NumberedText(
    strings: Descriptors, language: u16, numbers: map<byte, byte>, order: seq<byte>, ts: seq<Text>, x: byte)
    requires Numbering(numbers, order) && x in numbers && |ts| == |order|
    requires forall k :: 0 <= k < |order| ==> UsbString(strings, order[k], language) == Ok(ts[k])
    ensures |ts| > 0 && ReadsBack(strings, language, [Table(language, ts)], x, numbers[x])
  {
    hide UsbString;
    assert x in order;
    var j :| 0 <= j < |order| && order[j] == x;
    assert numbers[x] == j + 1;
  }

  lemma {:induction false} WalkIsByte(ds: seq<seq<byte>>, w: Walked)
    requires Walk(ds) == Some(w)
    ensures |w.found.numbers| <= 255
  {
    if |ds| > 0 {
      WalkIsByte(ds[..|ds| - 1], Walk(ds[..|ds| - 1]).value);
    }
  }

  lemma BlobReadsBack(language: u16, ts: seq<Text>)
    requires NulFree(ts) && |ts| <= 255 && |EncodeTexts(ts)| <= 379 * |ts|
    ensures ReadBlob(BlobOf(language, ts)) == Some(if |ts| == 0 then [] else [Table(language, ts)])
  {
    hide Header, EncodeTexts, NulFree;
    var tables := if |ts| == 0 then [] else [Table(language, ts)];
    TablesOfOne(language, ts);
    assert tables != [] ==> tables[1..] == [];
    ReadBlobComplete(|ts|, tables);
  }
}
