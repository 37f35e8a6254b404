/** What the configuration walk means: numbers in first-appearance order, and a rewriting that changes nothing else. */
module Renumbering {
  import opened Bytes
  import opened Records
  import opened Configuration

  function EndpointsOf(ds: seq<seq<byte>>): seq<Endpoint> {
    if |ds| == 0 then []
    else
      var d := ds[|ds| - 1];
      EndpointsOf(ds[..|ds| - 1]) + if IsEndpoint(d) then [EndpointOf(d)] else []
  }

  function InterfacesOf(ds: seq<seq<byte>>): set<byte> {
    if |ds| == 0 then {}
    else
      var d := ds[|ds| - 1];
      InterfacesOf(ds[..|ds| - 1]) + if IsInterface(d) then {d[2]} else {}
  }

  /** The distinct string indices in order of first appearance. */
  function Order(ds: seq<seq<byte>>): seq<byte> {
    if |ds| == 0 then []
    else
      var earlier, x := Order(ds[..|ds| - 1]), StringRef(ds[|ds| - 1]);
      if x == 0 || x in earlier then earlier else earlier + [x]
  }

  /** The numbers given to the indices of `order` are 1, 2, 3, ... */
  ghost predicate Numbering(numbers: map<byte, byte>, order: seq<byte>) {
    && |numbers| == |order|
    && (forall x :: x in numbers <==> x in order)
    && (forall k :: 0 <= k < |order| ==> order[k] in numbers && numbers[order[k]] == k + 1)
  }

  /** A descriptor under the final numbers. */
  function Relabelled(numbers: map<byte, byte>, d: seq<byte>): (r: seq<byte>)
    ensures |r| == |d|
  {
    if StringRef(d) != 0 && StringRef(d) in numbers then d[8 := numbers[StringRef(d)]] else d
  }

  function RelabelledAll(numbers: map<byte, byte>, ds: seq<seq<byte>>): (rs: seq<seq<byte>>)
    ensures |rs| == |ds|
    ensures forall i :: 0 <= i < |ds| ==> rs[i] == Relabelled(numbers, ds[i])
  {
    if |ds| == 0 then []
    else RelabelledAll(numbers, ds[..|ds| - 1]) + [Relabelled(numbers, ds[|ds| - 1])]
  }

  ghost predicate Covers(numbers: map<byte, byte>, ds: seq<seq<byte>>) {
    forall i :: 0 <= i < |ds| && StringRef(ds[i]) != 0 ==> StringRef(ds[i]) in numbers
  }

  /** Every reference finds fewer than 255 distinct indices before it. */
  ghost predicate Numberable(ds: seq<seq<byte>>) {
    forall k :: 0 <= k < |ds| && StringRef(ds[k]) != 0 ==> |Order(ds[..k])| < 255
  }

  ghost predicate NoneShort(ds: seq<seq<byte>>) {
    forall k :: 0 <= k < |ds| ==> !IsShort(ds[k])
  }

  lemma NumberingGrows(numbers: map<byte, byte>, order: seq<byte>, x: byte)
    requires Numbering(numbers, order) && x != 0 && |numbers| < 255
    ensures Numbering(Noted(numbers, x), if x in order then order else order + [x])
  {
  }

  lemma {:induction false} RelabelStable(before: map<byte, byte>, after: map<byte, byte>, ds: seq<seq<byte>>)
    requires Covers(before, ds)
    requires forall x :: x in before ==> x in after && after[x] == before[x]
    ensures RelabelledAll(before, ds) == RelabelledAll(after, ds)
  {
    if |ds| > 0 {
      RelabelStable(before, after, ds[..|ds| - 1]);
    }
  }

  // What the walk has gathered, in closed form.

  lemma {:induction false} WalkGathers(ds: seq<seq<byte>>, w: Walked)
    requires Walk(ds) == Some(w)
    ensures w.found.count == |ds| && w.found.endpoints == EndpointsOf(ds) && w.found.interfaces == InterfacesOf(ds)
  {
    if |ds| > 0 {
      WalkGathers(ds[..|ds| - 1], Walk(ds[..|ds| - 1]).value);
    }
  }

  lemma {:induction false} WalkNumbers(ds: seq<seq<byte>>, w: Walked)
    requires Walk(ds) == Some(w)
    ensures Numbering(w.found.numbers, Order(ds))
  {
    if |ds| > 0 {
      var front, x := ds[..|ds| - 1], StringRef(ds[|ds| - 1]);
      var before := Walk(front).value;
      WalkNumbers(front, before);
      if x != 0 {
        NumberingGrows(before.found.numbers, Order(front), x);
      }
    }
  }

  lemma CoversLast(before: map<byte, byte>, after: map<byte, byte>, ds: seq<seq<byte>>)
    requires |ds| > 0 && Covers(before, ds[..|ds| - 1])
    requires forall x :: x in before ==> x in after
    requires StringRef(ds[|ds| - 1]) != 0 ==> StringRef(ds[|ds| - 1]) in after
    ensures Covers(after, ds)
  {
    assert forall i :: 0 <= i < |ds| - 1 ==> ds[i] == ds[..|ds| - 1][i];
  }

  lemma AcceptableLast(ds: seq<seq<byte>>)
    requires |ds| > 0
    ensures var front, d := ds[..|ds| - 1], ds[|ds| - 1];
            && (NoneShort(ds) <==> NoneShort(front) && !IsShort(d))
            && (Numberable(ds) <==> Numberable(front) && (StringRef(d) != 0 ==> |Order(front)| < 255))
  {
    var front := ds[..|ds| - 1];
    assert forall k :: 0 <= k < |front| ==> front[k] == ds[k] && front[..k] == ds[..k];
  }

  lemma {:induction false} WalkCovers(ds: seq<seq<byte>>, w: Walked)
    requires Walk(ds) == Some(w)
    ensures Covers(w.found.numbers, ds)
  {
    if |ds| > 0 {
      var front, before := ds[..|ds| - 1], Walk(ds[..|ds| - 1]).value;
      WalkCovers(front, before);
      CoversLast(before.found.numbers, w.found.numbers, ds);
    }
  }

  lemma {:induction false} WalkRewrites(ds: seq<seq<byte>>, w: Walked)
    requires Walk(ds) == Some(w)
    ensures w.body == Concat(RelabelledAll(w.found.numbers, ds))
  {
    if |ds| > 0 {
      var front, d := ds[..|ds| - 1], ds[|ds| - 1];
      var before := Walk(front).value;
      WalkRewrites(front, before);
      WalkCovers(front, before);
      RelabelStable(before.found.numbers, w.found.numbers, front);
      ConcatPush(RelabelledAll(w.found.numbers, front), Relabelled(w.found.numbers, d));
    }
  }

  // Acceptance, exactly: nothing short, and no reference after 255 distinct indices.
  lemma {:induction false} WalkAccepts(ds: seq<seq<byte>>)
    ensures Walk(ds).Some? <==> NoneShort(ds) && Numberable(ds)
  {
    if |ds| > 0 {
      var front, d := ds[..|ds| - 1], ds[|ds| - 1];
      WalkAccepts(front);
      if Walk(front).Some? {
        WalkNumbers(front, Walk(front).value);
      }
      AcceptableLast(ds);
    }
  }

  lemma ProjectAccepts(b: seq<byte>)
    ensures Project(b).Ok?
       <==> exists ds :: UsbDescriptor.AreRecords(ds) && Concat(ds) == b && NoneShort(ds) && Numberable(ds)
  {
    if Project(b).Ok? {
      var ds := UsbDescriptor.Split(b).value;
      UsbDescriptor.SplitExact(b, ds);
      WalkAccepts(ds);
    }
    forall ds | UsbDescriptor.AreRecords(ds) && Concat(ds) == b && NoneShort(ds) && Numberable(ds)
      ensures Project(b).Ok?
    {
      UsbDescriptor.SplitExact(b, ds);
      WalkAccepts(ds);
    }
  }

  lemma RelabelledIsRecord(numbers: map<byte, byte>, d: seq<byte>)
    requires UsbDescriptor.IsRecord(d)
    ensures UsbDescriptor.IsRecord(Relabelled(numbers, d))
    ensures IsInterface(Relabelled(numbers, d)) == IsInterface(d)
    ensures IsEndpoint(Relabelled(numbers, d)) == IsEndpoint(d)
  {
    var r := Relabelled(numbers, d);
    assert r[0..1] == d[0..1];
  }

  // Rewriting touches string-index bytes only: the boundaries, and every byte but those, stay.
  lemma RewritingTouchesOnlyStringIndices(b: seq<byte>)
    requires Project(b).Ok?
    ensures var ds, w := UsbDescriptor.Split(b).value, Project(b).value;
            var rs := RelabelledAll(w.found.numbers, ds);
            && UsbDescriptor.Split(w.body) == Some(rs)
            && forall i :: 0 <= i < |ds| ==>
                 rs[i] == if StringRef(ds[i]) == 0 then ds[i] else ds[i][8 := StringRef(rs[i])]
  {
    var ds, w := UsbDescriptor.Split(b).value, Project(b).value;
    var rs := RelabelledAll(w.found.numbers, ds);
    WalkRewrites(ds, w);
    WalkCovers(ds, w);
    UsbDescriptor.SplitExact(b, ds);
    forall i | 0 <= i < |ds| ensures UsbDescriptor.IsRecord(rs[i]) {
      RelabelledIsRecord(w.found.numbers, ds[i]);
    }
    UsbDescriptor.SplitExact(w.body, rs);
  }

  lemma {:induction false} RelabellingKeepsTopology(numbers: map<byte, byte>, ds: seq<seq<byte>>)
    requires UsbDescriptor.AreRecords(ds)
    ensures EndpointsOf(RelabelledAll(numbers, ds)) == EndpointsOf(ds)
    ensures InterfacesOf(RelabelledAll(numbers, ds)) == InterfacesOf(ds)
  {
    if |ds| > 0 {
      RelabellingKeepsTopology(numbers, ds[..|ds| - 1]);
      RelabelledIsRecord(numbers, ds[|ds| - 1]);
      var rs := RelabelledAll(numbers, ds);
      assert rs[..|rs| - 1] == RelabelledAll(numbers, ds[..|ds| - 1]);
    }
  }

  function Identity(n: byte): (m: map<byte, byte>)
    ensures |m| == n && forall k :: k in m <==> 1 <= k <= n
    ensures forall k :: k in m ==> m[k] == k
  {
    if n == 0 then map[] else Identity(n - 1)[n := n]
  }

  // The numbers given so far are 1 up to their count.
  ghost predicate InRange(numbers: map<byte, byte>) {
    |numbers| <= 255 && forall x :: x in numbers ==> 1 <= numbers[x] <= |numbers|
  }

  function Again(w: Walked): Walked
    requires |w.found.numbers| <= 255
  {
    Walked(w.found.(numbers := Identity(|w.found.numbers|)), w.body)
  }

  lemma VisitAgain(w: Walked, d: seq<byte>)
    requires InRange(w.found.numbers) && UsbDescriptor.IsRecord(d) && !Refuses(w, d)
    ensures InRange(Visit(w, d).found.numbers)
    ensures var r := Relabelled(Visit(w, d).found.numbers, d);
            !Refuses(Again(w), r) && Visit(Again(w), r) == Again(Visit(w, d))
  {
    var x, numbers := StringRef(d), Noted(w.found.numbers, StringRef(d));
    var r := Relabelled(numbers, d);
    RelabelledIsRecord(numbers, d);
    if x != 0 {
      NotedAgain(w.found.numbers, x);
      assert StringRef(r) == numbers[x] && r[8 := numbers[x]] == r;
      assert r[2] == d[2];
    } else {
      assert r == d;
    }
  }

  lemma NotedAgain(numbers: map<byte, byte>, x: byte)
    requires InRange(numbers) && x != 0 && |numbers| < 255
    ensures InRange(Noted(numbers, x))
    ensures Noted(Identity(|numbers|), Noted(numbers, x)[x]) == Identity(|Noted(numbers, x)|)
  {
  }

  // Walking the rewritten descriptors numbers every index by itself.
  lemma {:induction false} WalkAgain(ds: seq<seq<byte>>, w: Walked)
    requires UsbDescriptor.AreRecords(ds) && Walk(ds) == Some(w)
    ensures InRange(w.found.numbers)
    ensures Walk(RelabelledAll(w.found.numbers, ds)) == Some(Again(w))
  {
    if |ds| > 0 {
      var front, d := ds[..|ds| - 1], ds[|ds| - 1];
      var before := Walk(front).value;
      WalkAgain(front, before);
      WalkCovers(front, before);
      RelabelStable(before.found.numbers, w.found.numbers, front);
      VisitAgain(before, d);
      var rs := RelabelledAll(w.found.numbers, ds);
      assert rs[..|rs| - 1] == RelabelledAll(before.found.numbers, front);
    }
  }

  /** Rewriting is idempotent: a rewritten configuration is accepted, and rewritten to itself. */
  lemma RewritingIdempotent(b: seq<byte>)
    requires Project(b).Ok?
    ensures var w := Project(b).value;
            |w.found.numbers| <= 255 && Project(w.body) == Ok(Again(w))
  {
    var ds := UsbDescriptor.Split(b).value;
    UsbDescriptor.SplitExact(b, ds);
    WalkAgain(ds, Project(b).value);
    RewritingTouchesOnlyStringIndices(b);
  }
}
