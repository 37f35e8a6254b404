/** Text as Unicode scalar values, with UTF-16 (RFC 2781, sections 2.1 and 2.2) and UTF-8 (RFC 3629, section 3). */
module Unicode {
  import opened Bytes

  type Scalar = c: int | 0 <= c < 0xD800 || 0xE000 <= c < 0x11_0000
  type Text = seq<Scalar>

  /** Text made of ASCII characters. */
  function Ascii(s: string): Text
    requires forall c :: c in s ==> c < 128 as char
  {
    seq(|s|, i requires 0 <= i < |s| => s[i] as int)
  }

  // UTF-16

  function Units(c: Scalar): (w: seq<u16>)
    ensures 1 <= |w| <= 2
  {
    if c < 0x1_0000 then [c]
    else [0xD800 + (c - 0x1_0000) / 0x400, 0xDC00 + (c - 0x1_0000) % 0x400]
  }

  /** `str::encode_utf16`. */
  function EncodeUtf16(t: Text): seq<u16> {
    if |t| == 0 then [] else Units(t[0]) + EncodeUtf16(t[1..])
  }

  /** `String::from_utf16`: no text when a surrogate is unpaired. */
  function DecodeUtf16(w: seq<u16>): Option<Text> {
    if |w| == 0 then Some([])
    else if w[0] < 0xD800 || 0xE000 <= w[0] then Prepend(w[0], DecodeUtf16(w[1..]))
    else if w[0] >= 0xDC00 || |w| < 2 || !(0xDC00 <= w[1] < 0xE000) then None
    else Prepend(Pair(w[0], w[1]), DecodeUtf16(w[2..]))
  }

  /** The scalar value of a surrogate pair. */
  function Pair(high: int, low: int): Scalar
    requires 0xD800 <= high < 0xDC00 && 0xDC00 <= low < 0xE000
  {
    0x1_0000 + (high - 0xD800) * 0x400 + (low - 0xDC00)
  }

  function Prepend(c: Scalar, rest: Option<Text>): Option<Text> {
    if rest.Some? then Some([c] + rest.value) else None
  }

  lemma {:induction false} Utf16RoundTrip(t: Text)
    ensures DecodeUtf16(EncodeUtf16(t)) == Some(t)
  {
    if t == [] {
    } else {
      Utf16RoundTrip(t[1..]);
      var w := EncodeUtf16(t);
      assert w[|Units(t[0])|..] == EncodeUtf16(t[1..]);
      assert [t[0]] + t[1..] == t;
    }
  }

  lemma {:induction false} Utf16Exact(w: seq<u16>)
    ensures DecodeUtf16(w).Some? ==> EncodeUtf16(DecodeUtf16(w).value) == w
  {
    if w == [] || DecodeUtf16(w).None? {
    } else if w[0] < 0xD800 || 0xE000 <= w[0] {
      Utf16Exact(w[1..]);
      assert DecodeUtf16(w).value[1..] == DecodeUtf16(w[1..]).value;
    } else {
      Utf16Exact(w[2..]);
      Positional(w[0] - 0xD800, w[1] - 0xDC00, 0x400);
      assert DecodeUtf16(w).value[1..] == DecodeUtf16(w[2..]).value;
    }
  }

  /** The little-endian bytes of 16-bit units. */
  function UnitBytes(w: seq<u16>): (b: seq<byte>)
    ensures |b| == 2 * |w|
  {
    if |w| == 0 then [] else Le16(w[0]) + UnitBytes(w[1..])
  }

  /** `as_chunks::<2>().0` read as little-endian units: an odd last byte is dropped. */
  function UnitsOfBytes(b: seq<byte>): (w: seq<u16>)
    ensures |w| == |b| / 2
  {
    if |b| < 2 then [] else [FromLe16(b, 0)] + UnitsOfBytes(b[2..])
  }

  lemma {:induction false} UnitBytesRoundTrip(w: seq<u16>)
    ensures UnitsOfBytes(UnitBytes(w)) == w
  {
    if w != [] {
      UnitBytesRoundTrip(w[1..]);
      LeRoundTrip(w[0]);
      assert UnitBytes(w)[2..] == UnitBytes(w[1..]);
    }
  }

  lemma {:induction false} UnitBytesExact(b: seq<byte>)
    requires |b| % 2 == 0
    ensures UnitBytes(UnitsOfBytes(b)) == b
  {
    if b != [] {
      UnitBytesExact(b[2..]);
      LeFieldsDetermineBytes(b[..2]);
      assert UnitsOfBytes(b)[1..] == UnitsOfBytes(b[2..]);
      assert b[..2] + b[2..] == b;
    }
  }

  lemma {:induction false} UnitBytesAppend(v: seq<u16>, w: seq<u16>)
    ensures UnitBytes(v + w) == UnitBytes(v) + UnitBytes(w)
  {
    if v == [] {
      assert v + w == w;
    } else {
      UnitBytesAppend(v[1..], w);
      assert (v + w)[1..] == v[1..] + w;
    }
  }

  // A text holds U+0000 exactly when its UTF-16 form holds a zero unit.
  lemma {:induction false} Utf16Zero(t: Text)
    ensures 0 in EncodeUtf16(t) <==> 0 in t
  {
    if t != [] {
      Utf16Zero(t[1..]);
      assert t == [t[0]] + t[1..];
    }
  }

  // UTF-8

  function Octets(c: Scalar): (b: seq<byte>)
    ensures 1 <= |b| <= 4
  {
    if c < 0x80 then [c]
    else if c < 0x800 then [0xC0 + c / 0x40, 0x80 + c % 0x40]
    else if c < 0x1_0000 then [0xE0 + c / 0x1000, 0x80 + c / 0x40 % 0x40, 0x80 + c % 0x40]
    else [0xF0 + c / 0x4_0000, 0x80 + c / 0x1000 % 0x40, 0x80 + c / 0x40 % 0x40, 0x80 + c % 0x40]
  }

  /** `str::as_bytes`. */
  function EncodeUtf8(t: Text): seq<byte> {
    if |t| == 0 then [] else Octets(t[0]) + EncodeUtf8(t[1..])
  }

  predicate Tail(b: byte) {
    0x80 <= b < 0xC0
  }

  /** How many bytes the well-formed sequence at the front of `b` takes; zero if there is none. */
  function FrontLength(b: seq<byte>): (n: nat)
    ensures n <= |b| && n <= 4
  {
    if |b| >= 1 && b[0] < 0x80 then 1
    else if |b| >= 2 && 0xC2 <= b[0] < 0xE0 && Tail(b[1]) then 2
    else if |b| >= 3 && 0xE0 <= b[0] < 0xF0 && Tail(b[1]) && Tail(b[2])
         && (b[0] == 0xE0 ==> 0xA0 <= b[1]) && (b[0] == 0xED ==> b[1] < 0xA0) then 3
    else if |b| >= 4 && 0xF0 <= b[0] < 0xF5 && Tail(b[1]) && Tail(b[2]) && Tail(b[3])
         && (b[0] == 0xF0 ==> 0x90 <= b[1]) && (b[0] == 0xF4 ==> b[1] < 0x90) then 4
    else 0
  }

  function Front(b: seq<byte>): (c: Scalar)
    requires FrontLength(b) != 0
  {
    var b0: int := b[0];
    if b0 < 0x80 then b0
    else
      var b1: int := b[1] - 0x80;
      if b0 < 0xE0 then (b0 - 0xC0) * 0x40 + b1
      else
        var b2: int := b[2] - 0x80;
        if b0 < 0xF0 then (b0 - 0xE0) * 0x1000 + b1 * 0x40 + b2
        else
          var b3: int := b[3] - 0x80;
          (b0 - 0xF0) * 0x4_0000 + b1 * 0x1000 + b2 * 0x40 + b3
  }

  /** `str::from_utf8`. */
  function DecodeUtf8(b: seq<byte>): Option<Text> {
    if |b| == 0 then Some([])
    else if FrontLength(b) == 0 then None
    else Prepend(Front(b), DecodeUtf8(b[FrontLength(b)..]))
  }

  lemma FrontOfOctets(c: Scalar, rest: seq<byte>)
    ensures FrontLength(Octets(c) + rest) == |Octets(c)| && Front(Octets(c) + rest) == c
  {
    var o, b := Octets(c), Octets(c) + rest;
    assert forall i :: 0 <= i < |o| ==> b[i] == o[i];
    if 0x800 <= c < 0x1_0000 {
      ThreeOctets(c);
    } else if c >= 0x1_0000 {
      FourOctets(c);
    }
  }

  lemma ThreeOctets(c: Scalar)
    requires 0x800 <= c < 0x1_0000
    ensures FrontLength(Octets(c)) == 3 && Front(Octets(c)) == c
  {
    assert c / 0x1000 * 0x40 + c / 0x40 % 0x40 == c / 0x40;
  }

  lemma FourOctets(c: Scalar)
    requires 0x1_0000 <= c
    ensures FrontLength(Octets(c)) == 4 && Front(Octets(c)) == c
  {
    assert c / 0x4_0000 * 0x40 + c / 0x1000 % 0x40 == c / 0x1000;
    assert c / 0x1000 * 0x40 + c / 0x40 % 0x40 == c / 0x40;
  }

  lemma OctetsOfFront(b: seq<byte>)
    requires FrontLength(b) != 0
    ensures Octets(Front(b)) == b[..FrontLength(b)]
  {
    var n, c: int := FrontLength(b), Front(b);
    var b0: int := b[0];
    if n >= 2 {
      var b1: int := b[1] - 0x80;
      if n == 2 {
        Positional(b0 - 0xC0, b1, 0x40);
      } else {
        var b2: int := b[2] - 0x80;
        if n == 3 {
          Positional((b0 - 0xE0) * 0x40 + b1, b2, 0x40);
          Positional(b0 - 0xE0, b1, 0x40);
          assert c / 0x1000 == b0 - 0xE0;
        } else {
          var b3: int := b[3] - 0x80;
          Positional((b0 - 0xF0) * 0x1000 + b1 * 0x40 + b2, b3, 0x40);
          Positional((b0 - 0xF0) * 0x40 + b1, b2, 0x40);
          Positional(b0 - 0xF0, b1, 0x40);
          assert c / 0x1000 == (b0 - 0xF0) * 0x40 + b1;
          assert c / 0x4_0000 == b0 - 0xF0;
        }
      }
    }
  }

  lemma {:induction false} Utf8RoundTrip(t: Text)
    ensures DecodeUtf8(EncodeUtf8(t)) == Some(t)
  {
    if t != [] {
      Utf8RoundTrip(t[1..]);
      FrontOfOctets(t[0], EncodeUtf8(t[1..]));
      assert EncodeUtf8(t)[|Octets(t[0])|..] == EncodeUtf8(t[1..]);
      assert [t[0]] + t[1..] == t;
    }
  }

  lemma {:induction false} Utf8Exact(b: seq<byte>)
    ensures DecodeUtf8(b).Some? ==> EncodeUtf8(DecodeUtf8(b).value) == b
  {
    if b != [] && DecodeUtf8(b).Some? {
      var n := FrontLength(b);
      Utf8Exact(b[n..]);
      OctetsOfFront(b);
      assert DecodeUtf8(b).value[1..] == DecodeUtf8(b[n..]).value;
      assert b[..n] + b[n..] == b;
    }
  }

  // A text holds U+0000 exactly when its UTF-8 form holds a zero byte.
  lemma {:induction false} Utf8Zero(t: Text)
    ensures 0 in EncodeUtf8(t) <==> 0 in t
  {
    if t != [] {
      Utf8Zero(t[1..]);
      assert t == [t[0]] + t[1..];
    }
  }

  // One UTF-16 unit costs at most three UTF-8 bytes.
  lemma {:induction false} Utf8Length(t: Text)
    ensures |EncodeUtf8(t)| <= 3 * |EncodeUtf16(t)|
  {
    if t != [] {
      Utf8Length(t[1..]);
    }
  }

  // Appending a zero byte neither mends nor breaks well-formed UTF-8.
  lemma {:induction false} Utf8AppendZero(b: seq<byte>)
    ensures DecodeUtf8(b + [0]).Some? <==> DecodeUtf8(b).Some?
  {
    if b == [] {
      assert (b + [0])[1..] == [];
    } else {
      var z := b + [0];
      assert forall i :: 0 <= i < |b| ==> z[i] == b[i];
      assert FrontLength(z) == FrontLength(b);
      var n := FrontLength(b);
      if n != 0 {
        Utf8AppendZero(b[n..]);
        assert z[n..] == b[n..] + [0];
      }
    }
  }
}
