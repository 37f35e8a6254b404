/**
 The length-prefixed records both parsers walk: USB descriptors (bLength in byte 0, USB 2.0 section 9.5),
 Microsoft OS 1.0 feature descriptors (dwLength in bytes 1..5) and the custom properties inside them
 (dwSize in bytes 0..4).
 */
module Records {
  import opened Bytes

  // Numbers, and lists of records.

  function Little(b: seq<byte>): nat {
    if |b| == 0 then 0 else b[0] as int + 0x100 * Little(b[1..])
  }

  function Push(r: seq<byte>, rest: Option<seq<seq<byte>>>): Option<seq<seq<byte>>> {
    if rest.Some? then Some([r] + rest.value) else None
  }

  function Join(done: seq<seq<byte>>, rest: Option<seq<seq<byte>>>): Option<seq<seq<byte>>> {
    if rest.Some? then Some(done + rest.value) else None
  }

  lemma PushInverse(rs: seq<seq<byte>>, rest: Option<seq<seq<byte>>>)
    requires rs != []
    ensures Push(rs[0], rest) == Some(rs) <==> rest == Some(rs[1..])
  {
    if rest.Some? && [rs[0]] + rest.value == rs {
      assert rest.value == ([rs[0]] + rest.value)[1..];
    }
    assert [rs[0]] + rs[1..] == rs;
  }

  lemma JoinNothing(done: seq<seq<byte>>, rest: Option<seq<seq<byte>>>)
    ensures Join([], rest) == rest
    ensures Join(done, Some([])) == Some(done)
  {
    if rest.Some? {
      assert [] + rest.value == rest.value;
    }
    assert done + [] == done;
  }

  function Concat(rs: seq<seq<byte>>): seq<byte> {
    if |rs| == 0 then [] else rs[0] + Concat(rs[1..])
  }

  lemma ConcatPrefix(rs: seq<seq<byte>>, b: seq<byte>)
    requires rs != [] && rs[0] <= b
    ensures Concat(rs) <= b <==> Concat(rs[1..]) <= b[|rs[0]|..]
  {
    assert b == rs[0] + b[|rs[0]|..];
    assert Concat(rs) == rs[0] + Concat(rs[1..]);
    if Concat(rs) <= b {
      assert Concat(rs[1..]) == Concat(rs)[|rs[0]|..];
    }
  }

  lemma {:induction false} ConcatAppend(xs: seq<seq<byte>>, ys: seq<seq<byte>>)
    ensures Concat(xs + ys) == Concat(xs) + Concat(ys)
  {
    if xs == [] {
      assert xs + ys == ys;
    } else {
      var x, rest := xs[0], xs[1..];
      ConcatAppend(rest, ys);
      assert (xs + ys)[0] == x && (xs + ys)[1..] == rest + ys;
      assert Concat(xs + ys) == x + (Concat(rest) + Concat(ys));
    }
  }

  lemma ConcatOne(r: seq<byte>)
    ensures Concat([r]) == r
  {
    assert Concat([r][1..]) == [];
  }

  lemma ConcatPush(xs: seq<seq<byte>>, r: seq<byte>)
    ensures Concat(xs + [r]) == Concat(xs) + r
  {
    ConcatAppend(xs, [r]);
    ConcatOne(r);
  }

  /** A kind of record: its shortest length, and where its own length stands as a little-endian field. */
  datatype Framing = Framing(floor: nat, at: nat, width: nat) {
    ghost predicate Valid() {
      0 < floor && at + width <= floor
    }

    /** The length declared by the record at the front of `b`. */
    function Declared(b: seq<byte>): nat
      requires Valid() && floor <= |b|
    {
      Little(b[at..at + width])
    }

    predicate IsRecord(r: seq<byte>)
      requires Valid()
    {
      floor <= |r| && Declared(r) == |r|
    }

    ghost predicate AreRecords(rs: seq<seq<byte>>)
      requires Valid()
    {
      forall i :: 0 <= i < |rs| ==> IsRecord(rs[i])
    }

    /** A record lies at the front of `b`. */
    predicate Fits(b: seq<byte>)
      requires Valid()
    {
      floor <= |b| && floor <= Declared(b) <= |b|
    }

    /** The first `n` records of `b`. */
    function Take(b: seq<byte>, n: nat): Option<seq<seq<byte>>>
      requires Valid()
      decreases n
    {
      if n == 0 then Some([])
      else if !Fits(b) then None
      else Push(b[..Declared(b)], Take(b[Declared(b)..], n - 1))
    }

    /** All of `b` as records. */
    function Split(b: seq<byte>): Option<seq<seq<byte>>>
      requires Valid()
    {
      if |b| == 0 then Some([])
      else if !Fits(b) then None
      else Push(b[..Declared(b)], Split(b[Declared(b)..]))
    }

    // Take is exact: it finds the only n records that tile the front of b.
    lemma {:induction false} TakeExact(b: seq<byte>, n: nat, rs: seq<seq<byte>>)
      requires Valid()
      ensures Take(b, n) == Some(rs) <==> |rs| == n && AreRecords(rs) && Concat(rs) <= b
      decreases n
    {
      if n == 0 {
        assert rs == [] ==> Concat(rs) <= b;
      } else if rs != [] {
        if IsRecord(rs[0]) && rs[0] <= b {
          var rest := b[|rs[0]|..];
          assert b == rs[0] + rest;
          Step(rs[0], rest, n - 1);
          TakeExact(rest, n - 1, rs[1..]);
          ConcatPrefix(rs, b);
          PushInverse(rs, Take(rest, n - 1));
          RecordsFront(rs);
          var t := Take(rest, n - 1);
          assert Take(b, n) == Push(rs[0], t);
          assert t == Some(rs[1..]) <==> |rs[1..]| == n - 1 && AreRecords(rs[1..]) && Concat(rs[1..]) <= rest;
        } else {
          BadFront(b, n, rs);
        }
      }
    }

    lemma RecordsFront(rs: seq<seq<byte>>)
      requires Valid() && rs != []
      ensures AreRecords(rs) <==> IsRecord(rs[0]) && AreRecords(rs[1..])
    {
      assert AreRecords(rs[1..]) ==> forall i :: 0 < i < |rs| ==> rs[i] == rs[1..][i - 1];
    }

    lemma BadFront(b: seq<byte>, n: nat, rs: seq<seq<byte>>)
      requires Valid() && 0 < n && rs != [] && !(IsRecord(rs[0]) && rs[0] <= b)
      ensures Take(b, n) != Some(rs)
      ensures AreRecords(rs) ==> !(Concat(rs) <= b)
    {
      if Take(b, n) == Some(rs) {
        TakeFront(b, n, rs);
      }
      if Concat(rs) <= b {
        assert Concat(rs)[..|rs[0]|] == rs[0];
      }
    }

    lemma TakeFront(b: seq<byte>, n: nat, rs: seq<seq<byte>>)
      requires Valid() && 0 < n && Take(b, n) == Some(rs)
      ensures rs != [] && rs[0] <= b && IsRecord(rs[0])
    {
      DeclaredOfPrefix(b[..Declared(b)], b);
    }

    // A record reads the same wherever it stands.
    lemma DeclaredOfPrefix(r: seq<byte>, b: seq<byte>)
      requires Valid() && r <= b && floor <= |r|
      ensures Declared(r) == Declared(b)
    {
      assert r[at..at + width] == b[at..at + width];
    }

    // Split is exact: it finds the only records that tile b.
    lemma {:induction false} SplitExact(b: seq<byte>, rs: seq<seq<byte>>)
      requires Valid()
      ensures Split(b) == Some(rs) <==> AreRecords(rs) && Concat(rs) == b
      decreases |b|
    {
      if b == [] {
        if rs != [] && AreRecords(rs) {
          assert |Concat(rs)| >= |rs[0]|;
        }
      } else if rs != [] {
        if IsRecord(rs[0]) && rs[0] <= b {
          var rest := b[|rs[0]|..];
          assert b == rs[0] + rest;
          Step(rs[0], rest, 0);
          SplitExact(rest, rs[1..]);
          PushInverse(rs, Split(rest));
          RecordsFront(rs);
          assert Concat(rs) == b <==> Concat(rs[1..]) == rest;
        } else {
          if Fits(b) {
            DeclaredOfPrefix(b[..Declared(b)], b);
          }
          assert Concat(rs) == b ==> rs[0] <= b;
        }
      }
    }

    lemma Step(r: seq<byte>, rest: seq<byte>, n: nat)
      requires Valid() && IsRecord(r)
      ensures Split(r + rest) == Push(r, Split(rest))
      ensures Take(r + rest, n + 1) == Push(r, Take(rest, n))
    {
      DeclaredOfPrefix(r, r + rest);
      assert (r + rest)[..|r|] == r && (r + rest)[|r|..] == rest;
    }
  }

  const UsbDescriptor := Framing(2, 0, 1)
  const OsDescriptor := Framing(11, 1, 4)
  const OsProperty := Framing(14, 0, 4)

  // The three length fields.
  lemma DeclaredField(b: seq<byte>)
    ensures 2 <= |b| ==> UsbDescriptor.Declared(b) == b[0]
    ensures 11 <= |b| ==> OsDescriptor.Declared(b) == FromLe32(b, 1)
    ensures 14 <= |b| ==> OsProperty.Declared(b) == FromLe32(b, 0)
  {
    if 2 <= |b| {
      LittleByte(b, 0);
    }
    if 11 <= |b| {
      LittleField(b, 1);
      LittleField(b, 0);
    }
  }

  lemma LittleByte(b: seq<byte>, at: nat)
    requires at < |b|
    ensures Little(b[at..at + 1]) == b[at]
  {
    assert b[at..at + 1][1..] == [];
  }

  lemma LittleField(b: seq<byte>, at: nat)
    requires at + 4 <= |b|
    ensures Little(b[at..at + 4]) == FromLe32(b, at)
  {
    var f2, f1 := b[at + 2..at + 4], b[at + 1..at + 4];
    LittleByte(b, at + 3);
    assert f2[1..] == b[at + 3..at + 4];
    assert Little(f2) == FromLe16(b, at + 2);
    assert f1[1..] == f2 && b[at..at + 4][1..] == f1;
    assert Little(f1) == b[at + 1] as int + 0x100 * Little(f2);
  }
}
