/** Bytes, fixed-width integers and the outcome of a fallible operation. */
module Bytes {
  type byte = b: int | 0 <= b < 0x100
  type u16 = n: int | 0 <= n < 0x1_0000
  type u32 = n: int | 0 <= n < 0x1_0000_0000
  type u64 = n: int | 0 <= n < 0x1_0000_0000_0000_0000

  datatype Option<+T> = None | Some(value: T)

  /** The error values the callers or the theorems tell apart; diagnostic text is not modelled. */
  datatype Fault = Invalid | NoString(index: byte)

  /** A Rust `io::Result`, with the unwinding of an out-of-range slice or a failed unwrap made explicit. */
  datatype Outcome<+T> = Ok(value: T) | Err(fault: Fault) | Panic {
    predicate IsFailure() {
      !Ok?
    }

    function PropagateFailure<U>(): Outcome<U>
      requires IsFailure()
    {
      if Err? then Err(fault) else Panic
    }

    function Extract(): T
      requires Ok?
    {
      value
    }
  }

  function Le16(n: u16): (b: seq<byte>)
    ensures |b| == 2
  {
    [n % 0x100, n / 0x100]
  }

  function Le32(n: u32): (b: seq<byte>)
    ensures |b| == 4
  {
    Le16(n % 0x1_0000) + Le16(n / 0x1_0000)
  }

  function Be16(n: u16): (b: seq<byte>)
    ensures |b| == 2
  {
    [n / 0x100, n % 0x100]
  }

  function Be32(n: u32): (b: seq<byte>)
    ensures |b| == 4
  {
    Be16(n / 0x1_0000) + Be16(n % 0x1_0000)
  }

  function Be64(n: u64): (b: seq<byte>)
    ensures |b| == 8
  {
    Be32(n / 0x1_0000_0000) + Be32(n % 0x1_0000_0000)
  }

  /** `u16::from_le_bytes` of the two bytes at `at`. */
  function FromLe16(b: seq<byte>, at: nat): u16
    requires at + 2 <= |b|
  {
    (b[at] as int) + 0x100 * (b[at + 1] as int)
  }

  /** `u32::from_le_bytes` of the four bytes at `at`. */
  function FromLe32(b: seq<byte>, at: nat): u32
    requires at + 4 <= |b|
  {
    (FromLe16(b, at) as int) + 0x1_0000 * (FromLe16(b, at + 2) as int)
  }

  function FromBe16(b: seq<byte>, at: nat): u16
    requires at + 2 <= |b|
  {
    0x100 * (b[at] as int) + (b[at + 1] as int)
  }

  function FromBe32(b: seq<byte>, at: nat): u32
    requires at + 4 <= |b|
  {
    0x1_0000 * (FromBe16(b, at) as int) + (FromBe16(b, at + 2) as int)
  }

  function FromBe64(b: seq<byte>, at: nat): u64
    requires at + 8 <= |b|
  {
    0x1_0000_0000 * (FromBe32(b, at) as int) + (FromBe32(b, at + 4) as int)
  }

  /** `le_u32`: the field, or an error when it leaves the slice. */
  function ReadLe32(b: seq<byte>, at: nat): Outcome<u32> {
    if at + 4 <= |b| then Ok(FromLe32(b, at)) else Err(Invalid)
  }

  /** A value cast with `as u32`. */
  function Truncated32(n: nat): u32 {
    n % 0x1_0000_0000
  }

  // The fields read at `at` of a longer buffer are those of the buffer's slice starting there.
  lemma FieldsOfSuffix(b: seq<byte>, at: nat, k: nat)
    requires at + k <= |b|
    ensures k >= 2 ==> FromLe16(b[at..at + k], 0) == FromLe16(b, at)
    ensures k >= 4 ==> FromLe32(b[at..at + k], 0) == FromLe32(b, at)
  {
  }

  // Two concatenations split at the same place are equal part by part.
  lemma Halves<T>(a: seq<T>, b: seq<T>, c: seq<T>, d: seq<T>)
    requires |a| == |c|
    ensures a + b == c + d <==> a == c && b == d
  {
    if a + b == c + d {
      assert a == (a + b)[..|a|] && b == (a + b)[|a|..];
      assert c == (c + d)[..|c|] && d == (c + d)[|c|..];
    }
  }

  // Quotient and remainder of a number written in a base.
  lemma Positional(high: int, low: int, base: int)
    requires 0 <= low < base
    ensures (high * base + low) / base == high && (high * base + low) % base == low
  {
    var n := high * base + low;
    assert (high - n / base) * base == n % base - low;
    Multiple(high - n / base, base);
  }

  lemma Multiple(k: int, base: int)
    requires 0 < base
    ensures -base < k * base < base ==> k == 0
  {
    if k >= 1 {
      assert k * base >= base;
    } else if k <= -1 {
      assert k * base <= -base;
    }
  }

  lemma LeRoundTrip(n: u32)
    ensures FromLe32(Le32(n), 0) == n
    ensures n < 0x1_0000 ==> FromLe16(Le16(n), 0) == n
  {
  }

  lemma LeFieldsDetermineBytes(b: seq<byte>)
    ensures |b| == 2 ==> Le16(FromLe16(b, 0)) == b
    ensures |b| == 4 ==> Le32(FromLe32(b, 0)) == b
    decreases |b|
  {
    if |b| == 4 {
      var low: int, high: int := FromLe16(b, 0), FromLe16(b, 2);
      Positional(high, low, 0x1_0000);
      LeFieldsDetermineBytes(b[..2]);
      LeFieldsDetermineBytes(b[2..]);
    }
  }

  lemma BeRoundTrip(n: u64)
    ensures FromBe64(Be64(n), 0) == n
    ensures n < 0x1_0000_0000 ==> FromBe32(Be32(n), 0) == n
    ensures n < 0x1_0000 ==> FromBe16(Be16(n), 0) == n
  {
  }

  lemma BeFieldsDetermineBytes(b: seq<byte>)
    ensures |b| == 2 ==> Be16(FromBe16(b, 0)) == b
    ensures |b| == 4 ==> Be32(FromBe32(b, 0)) == b
    decreases |b|
  {
    if |b| == 4 {
      var high: int, low: int := FromBe16(b, 0), FromBe16(b, 2);
      Positional(high, low, 0x1_0000);
      BeFieldsDetermineBytes(b[..2]);
      BeFieldsDetermineBytes(b[2..]);
    }
  }

  /** The members of a `BTreeSet<u8>` in iteration order. */
  function Ascending(s: set<byte>, from: nat := 0): (r: seq<byte>)
    ensures forall b :: b in r <==> b in s && from <= b
    ensures forall i, j :: 0 <= i < j < |r| ==> r[i] < r[j]
    decreases 0x100 - from
  {
    if from >= 0x100 then []
    else
      var rest := Ascending(s, from + 1);
      assert forall i :: 0 <= i < |rest| ==> rest[i] in rest;
      if from in s then [from] + rest else rest
  }
}
