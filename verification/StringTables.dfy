/** The FunctionFS string blob and `inspect_strings`, its validator. */
module StringTables {
  import opened Bytes
  import opened Unicode

  const STRINGS_MAGIC: u32 := 2

  /** A language identifier and its texts. */
  datatype Table = Table(language: u16, texts: seq<Text>)

  datatype Read<+T> = Read(items: seq<T>, rest: seq<byte>)

  // The format.

  function Terminated(t: Text): seq<byte> {
    EncodeUtf8(t) + [0]
  }

  function EncodeTexts(ts: seq<Text>): seq<byte> {
    if |ts| == 0 then [] else Terminated(ts[0]) + EncodeTexts(ts[1..])
  }

  function EncodeTable(t: Table): seq<byte> {
    Le16(t.language) + EncodeTexts(t.texts)
  }

  function EncodeTables(tables: seq<Table>): seq<byte> {
    if |tables| == 0 then [] else EncodeTable(tables[0]) + EncodeTables(tables[1..])
  }

  function Header(magic: u32, length: u32, count: u32, languages: u32): (h: seq<byte>)
    ensures |h| == 16
  {
    Le32(magic) + Le32(length) + (Le32(count) + Le32(languages))
  }

  /** A blob of `tables`, each of `count` strings. */
  function EncodeBlob(count: nat, tables: seq<Table>): seq<byte> {
    var body := EncodeTables(tables);
    Header(STRINGS_MAGIC, Truncated32(16 + |body|), Truncated32(count), Truncated32(|tables|)) + body
  }

  predicate NulFree(ts: seq<Text>) {
    forall i :: 0 <= i < |ts| ==> 0 !in ts[i]
  }

  predicate WellFormedTable(count: nat, t: Table) {
    |t.texts| == count && NulFree(t.texts)
  }

  predicate WellFormedTables(count: nat, tables: seq<Table>) {
    |tables| == 0 || (WellFormedTable(count, tables[0]) && WellFormedTables(count, tables[1..]))
  }

  // Reading.

  /** Where the first zero byte stands; the length of `b` if there is none. */
  function NulAt(b: seq<byte>): (n: nat)
    ensures n <= |b| && 0 !in b[..n] && (n < |b| ==> b[n] == 0)
  {
    if |b| == 0 || b[0] == 0 then 0
    else
      assert forall i :: 1 <= i <= |b| ==> b[..i] == [b[0]] + b[1..][..i - 1];
      1 + NulAt(b[1..])
  }

  function TakeTexts(b: seq<byte>, n: nat): Option<Read<Text>>
    decreases n
  {
    if n == 0 then Some(Read([], b))
    else
      var z := NulAt(b);
      if z == |b| || DecodeUtf8(b[..z]).None? then None
      else Prepend([DecodeUtf8(b[..z]).value], TakeTexts(b[z + 1..], n - 1))
  }

  function TakeTable(b: seq<byte>, n: nat): Option<Read<Table>> {
    if |b| < 2 || TakeTexts(b[2..], n).None? then None
    else
      var texts := TakeTexts(b[2..], n).value;
      Some(Read([Table(FromLe16(b, 0), texts.items)], texts.rest))
  }

  function TakeTables(b: seq<byte>, languages: nat, n: nat): Option<Read<Table>>
    decreases languages
  {
    if languages == 0 then Some(Read([], b))
    else
      var front := TakeTable(b, n);
      if front.None? then None else Prepend(front.value.items, TakeTables(front.value.rest, languages - 1, n))
  }

  function Prepend<T>(front: seq<T>, more: Option<Read<T>>): Option<Read<T>> {
    if more.Some? then Some(Read(front + more.value.items, more.value.rest)) else None
  }

  /** The tables of a blob the validator accepts. */
  function ReadBlob(b: seq<byte>): Option<seq<Table>> {
    if |b| < 16 || FromLe32(b, 0) != STRINGS_MAGIC || FromLe32(b, 4) != |b| then None
    else
      var tables := TakeTables(b[16..], FromLe32(b, 12), FromLe32(b, 8));
      if tables.Some? && tables.value.rest == [] then Some(tables.value.items) else None
  }

  // The readers are exact.

  lemma {:induction false} NulUnique(b: seq<byte>, k: nat)
    requires k < |b| && b[k] == 0 && forall i :: 0 <= i < k ==> b[i] != 0
    ensures NulAt(b) == k
  {
    if k > 0 {
      NulUnique(b[1..], k - 1);
    }
  }

  lemma NulAfter(t: Text, rest: seq<byte>)
    requires 0 !in t
    ensures NulAt(Terminated(t) + rest) == |EncodeUtf8(t)|
  {
    Utf8Zero(t);
    var e := EncodeUtf8(t);
    assert forall i :: 0 <= i < |e| ==> e[i] in e;
    NulUnique(Terminated(t) + rest, |e|);
  }

  lemma NulFreeFront(ts: seq<Text>)
    ensures NulFree(ts) <==> |ts| == 0 || (0 !in ts[0] && NulFree(ts[1..]))
  {
    assert forall i :: 0 < i < |ts| ==> ts[i] == ts[1..][i - 1];
  }

  lemma {:induction false} TakeTextsExact(b: seq<byte>, n: nat, ts: seq<Text>, rest: seq<byte>)
    ensures TakeTexts(b, n) == Some(Read(ts, rest)) <==> |ts| == n && NulFree(ts) && b == EncodeTexts(ts) + rest
    decreases n
  {
    hide DecodeUtf8, EncodeUtf8, NulAt, Terminated, NulFree;
    NulFreeFront(ts);
    if n == 0 || |ts| == 0 {
      assert [] + rest == rest;
    } else if 0 !in ts[0] && Terminated(ts[0]) <= b {
      var more := b[|Terminated(ts[0])|..];
      assert b == Terminated(ts[0]) + more;
      TakeTextsExact(more, n - 1, ts[1..], rest);
      TakeFirstText(b, n, ts[0], more);
      TextsFront(ts, rest, TakeTexts(more, n - 1));
      assert b == EncodeTexts(ts) + rest <==> more == EncodeTexts(ts[1..]) + rest;
    } else {
      NoTextFront(b, n, ts, rest);
    }
  }

  lemma TakeFirstText(b: seq<byte>, n: nat, t: Text, more: seq<byte>)
    requires n > 0 && 0 !in t && b == Terminated(t) + more
    ensures TakeTexts(b, n) == Prepend([t], TakeTexts(more, n - 1))
  {
    NulAfter(t, more);
    Utf8RoundTrip(t);
    assert b[..NulAt(b)] == EncodeUtf8(t) && b[NulAt(b) + 1..] == more;
  }

  lemma TextsFront(ts: seq<Text>, rest: seq<byte>, more: Option<Read<Text>>)
    requires |ts| > 0
    ensures Prepend([ts[0]], more) == Some(Read(ts, rest)) <==> more == Some(Read(ts[1..], rest))
  {
    if more.Some? {
      assert [ts[0]] + more.value.items == ts <==> more.value.items == ts[1..] by {
        assert ([ts[0]] + more.value.items)[1..] == more.value.items;
        assert [ts[0]] + ts[1..] == ts;
      }
    }
  }

  lemma NoTextFront(b: seq<byte>, n: nat, ts: seq<Text>, rest: seq<byte>)
    requires n > 0 && |ts| > 0 && !(0 !in ts[0] && Terminated(ts[0]) <= b)
    ensures TakeTexts(b, n) != Some(Read(ts, rest))
    ensures !(NulFree(ts) && b == EncodeTexts(ts) + rest)
  {
    hide DecodeUtf8, EncodeUtf8, NulAt;
    if TakeTexts(b, n) == Some(Read(ts, rest)) {
      var z := NulAt(b);
      Utf8Exact(b[..z]);
      Utf8Zero(ts[0]);
    }
    if b == EncodeTexts(ts) + rest {
      assert b[..|Terminated(ts[0])|] == Terminated(ts[0]);
    }
  }

  lemma TakeTableSound(b: seq<byte>, n: nat)
    requires TakeTable(b, n).Some?
    ensures var r := TakeTable(b, n).value;
            |r.items| == 1 && WellFormedTable(n, r.items[0]) && b == EncodeTable(r.items[0]) + r.rest
  {
    var texts := TakeTexts(b[2..], n).value;
    TakeTextsExact(b[2..], n, texts.items, texts.rest);
    FieldsOfSuffix(b, 0, 2);
    LeFieldsDetermineBytes(b[..2]);
    assert b == b[..2] + (EncodeTexts(texts.items) + texts.rest);
  }

  lemma TakeTableComplete(n: nat, t: Table, rest: seq<byte>)
    requires WellFormedTable(n, t)
    ensures TakeTable(EncodeTable(t) + rest, n) == Some(Read([t], rest))
  {
    var b := EncodeTable(t) + rest;
    assert b[2..] == EncodeTexts(t.texts) + rest && b[0..2] == Le16(t.language);
    FieldsOfSuffix(b, 0, 2);
    LeRoundTrip(t.language);
    TakeTextsExact(b[2..], n, t.texts, rest);
  }

  lemma {:induction false} TakeTablesSound(b: seq<byte>, languages: nat, n: nat)
    ensures TakeTables(b, languages, n).Some? ==>
              var r := TakeTables(b, languages, n).value;
              |r.items| == languages && WellFormedTables(n, r.items) && b == EncodeTables(r.items) + r.rest
    decreases languages
  {
    hide TakeTable, EncodeTable, WellFormedTable;
    if languages == 0 {
      assert b == [] + b;
    } else if TakeTables(b, languages, n).Some? {
      var r, front := TakeTables(b, languages, n).value, TakeTable(b, n).value;
      TakeTableSound(b, n);
      TakeTablesSound(front.rest, languages - 1, n);
      assert r.items[1..] == TakeTables(front.rest, languages - 1, n).value.items;
    }
  }

  lemma {:induction false} TakeTablesComplete(n: nat, tables: seq<Table>, rest: seq<byte>)
    requires WellFormedTables(n, tables)
    ensures TakeTables(EncodeTables(tables) + rest, |tables|, n) == Some(Read(tables, rest))
    decreases |tables|
  {
    hide TakeTable, EncodeTable, WellFormedTable;
    if |tables| == 0 {
      assert [] + rest == rest;
    } else {
      var back := EncodeTables(tables[1..]) + rest;
      assert EncodeTables(tables) + rest == EncodeTable(tables[0]) + back;
      TakeTableComplete(n, tables[0], back);
      TakeTablesComplete(n, tables[1..], rest);
      assert [tables[0]] + tables[1..] == tables;
    }
  }

  /** A blob the validator accepts is the encoding of the tables read from it, with no byte left over. */
  lemma ReadBlobSound(b: seq<byte>)
    requires ReadBlob(b).Some?
    ensures var count, tables := FromLe32(b, 8), ReadBlob(b).value;
            WellFormedTables(count, tables) && b == EncodeBlob(count, tables)
  {
    hide Header, FromLe32, TakeTables, EncodeTables, WellFormedTables;
    HeaderOf(b);
    TakeTablesSound(b[16..], FromLe32(b, 12), FromLe32(b, 8));
    var body := EncodeTables(ReadBlob(b).value);
    assert body + [] == body == b[16..];
  }

  lemma HeaderOf(b: seq<byte>)
    requires 16 <= |b|
    ensures b == Header(FromLe32(b, 0), FromLe32(b, 4), FromLe32(b, 8), FromLe32(b, 12)) + b[16..]
  {
    FieldOf(b, 0);
    FieldOf(b, 4);
    FieldOf(b, 8);
    FieldOf(b, 12);
    hide Le32, FromLe32;
    assert b[0..4] + b[4..8] == b[0..8] && b[8..12] + b[12..16] == b[8..16];
    assert b == b[0..8] + b[8..16] + b[16..];
  }

  lemma FieldOf(b: seq<byte>, at: nat)
    requires at + 4 <= |b|
    ensures Le32(FromLe32(b, at)) == b[at..at + 4]
  {
    FieldsOfSuffix(b, at, 4);
    LeFieldsDetermineBytes(b[at..at + 4]);
  }

  lemma FieldAt(b: seq<byte>, at: nat, n: u32)
    requires at + 4 <= |b| && b[at..at + 4] == Le32(n)
    ensures FromLe32(b, at) == n
  {
    FieldsOfSuffix(b, at, 4);
    LeRoundTrip(n);
  }

  lemma HeaderFields(b: seq<byte>, magic: u32, length: u32, count: u32, languages: u32)
    requires Header(magic, length, count, languages) <= b
    ensures FromLe32(b, 0) == magic && FromLe32(b, 4) == length && FromLe32(b, 8) == count
            && FromLe32(b, 12) == languages
  {
    hide Le32, FromLe32;
    var h := Header(magic, length, count, languages);
    assert h[0..4] == Le32(magic) && h[4..8] == Le32(length) && h[8..12] == Le32(count) && h[12..16] == Le32(languages);
    assert b[0..4] == h[0..4] && b[4..8] == h[4..8] && b[8..12] == h[8..12] && b[12..16] == h[12..16];
    FieldAt(b, 0, magic);
    FieldAt(b, 4, length);
    FieldAt(b, 8, count);
    FieldAt(b, 12, languages);
  }

  /** The encoding of well-formed tables is accepted, and read back. */
  lemma ReadBlobComplete(count: u32, tables: seq<Table>)
    requires WellFormedTables(count, tables) && |tables| < 0x1_0000_0000
    requires |EncodeBlob(count, tables)| < 0x1_0000_0000
    ensures ReadBlob(EncodeBlob(count, tables)) == Some(tables)
  {
    hide Header, FromLe32, TakeTables, EncodeTables, WellFormedTables;
    var b, body := EncodeBlob(count, tables), EncodeTables(tables);
    HeaderFields(b, STRINGS_MAGIC, |b|, count, |tables|);
    TakeTablesComplete(count, tables, []);
    assert body + [] == body && b[16..] == body;
  }

  // The validator's loops.

  lemma PrependTwice<T>(a: seq<T>, b: seq<T>, more: Option<Read<T>>)
    ensures Prepend(a, Prepend(b, more)) == Prepend(a + b, more)
    ensures Prepend([], more) == more
  {
    if more.Some? {
      assert a + (b + more.value.items) == (a + b) + more.value.items;
      assert [] + more.value.items == more.value.items;
    }
  }

  // The strings of one table: the inner loop.
  method InspectTexts(bytes: seq<byte>, start: nat, count: nat) returns (ok: bool, offset: nat)
    requires start <= |bytes|
    ensures ok <==> TakeTexts(bytes[start..], count).Some?
    ensures ok ==> offset <= |bytes| && bytes[offset..] == TakeTexts(bytes[start..], count).value.rest
  {
    hide DecodeUtf8, NulAt;
    offset := start;
    ghost var texts: seq<Text> := [];
    PrependTwice<Text>([], [], TakeTexts(bytes[start..], count));
    for i := 0 to count
      invariant offset <= |bytes|
      invariant TakeTexts(bytes[start..], count) == Prepend(texts, TakeTexts(bytes[offset..], count - i))
    {
      var tail := bytes[offset..];
      var length := NulAt(tail);
      if length == |tail| {
        return false, offset;
      }
      if DecodeUtf8(tail[..length]).None? {
        return false, offset;
      }
      ghost var text := DecodeUtf8(tail[..length]).value;
      assert tail[length + 1..] == bytes[offset + length + 1..];
      PrependTwice(texts, [text], TakeTexts(tail[length + 1..], count - i - 1));
      texts := texts + [text];
      offset := offset + length + 1;
    }
    return true, offset;
  }

  method InspectStrings(bytes: seq<byte>) returns (r: Outcome<()>)
    ensures r == if ReadBlob(bytes).Some? then Ok(()) else Err(Invalid)
  {
    hide FromLe32, FromLe16, TakeTexts;
    if |bytes| < 16 {
      return Err(Invalid);
    }
    if FromLe32(bytes, 0) != STRINGS_MAGIC || FromLe32(bytes, 4) != |bytes| {
      return Err(Invalid);
    }
    var count: nat, languages: nat := FromLe32(bytes, 8), FromLe32(bytes, 12);
    var offset: nat := 16;
    ghost var tables: seq<Table> := [];
    PrependTwice<Table>([], [], TakeTables(bytes[16..], languages, count));
    for i := 0 to languages
      invariant offset <= |bytes|
      invariant TakeTables(bytes[16..], languages, count)
             == Prepend(tables, TakeTables(bytes[offset..], languages - i, count))
    {
      ghost var rest := bytes[offset..];
      if offset + 2 > |bytes| {
        return Err(Invalid);
      }
      assert rest[2..] == bytes[offset + 2..];
      var ok;
      ok, offset := InspectTexts(bytes, offset + 2, count);
      if !ok {
        return Err(Invalid);
      }
      ghost var table := TakeTable(rest, count).value;
      PrependTwice(tables, table.items, TakeTables(table.rest, languages - i - 1, count));
      tables := tables + table.items;
    }
    assert |bytes[offset..]| == |bytes| - offset;
    if offset != |bytes| {
      return Err(Invalid);
    }
    return Ok(());
  }
}
