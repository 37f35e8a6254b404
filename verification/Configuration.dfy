/** The walk over a configuration's descriptors that collects endpoints and renumbers string indices. */
module Configuration {
  import opened Bytes
  import opened Records

  const INTERFACE: byte := 4
  const ENDPOINT: byte := 5

  datatype Endpoint = Endpoint(address: byte, transferType: byte, maxPacketSize: u16)

  datatype Inspection = Inspection(
    count: nat,
    endpoints: seq<Endpoint>,
    numbers: map<byte, byte>,
    interfaces: set<byte>)

  predicate IsInterface(d: seq<byte>) {
    9 <= |d| && d[1] == INTERFACE
  }

  predicate IsEndpoint(d: seq<byte>) {
    7 <= |d| && d[1] == ENDPOINT
  }

  /** An interface or endpoint descriptor without its mandatory fields (USB 2.0 sections 9.6.5 and 9.6.6). */
  predicate IsShort(d: seq<byte>) {
    2 <= |d| && ((d[1] == INTERFACE && |d| < 9) || (d[1] == ENDPOINT && |d| < 7))
  }

  /** The string index an interface descriptor names; zero for none. */
  function StringRef(d: seq<byte>): byte {
    if IsInterface(d) then d[8] else 0
  }

  function EndpointOf(d: seq<byte>): Endpoint
    requires IsEndpoint(d)
  {
    Endpoint(d[2], d[3] % 4, FromLe16(d, 4))
  }

  /** What the walk has found, and the rewriting of the descriptors it has passed. */
  datatype Walked = Walked(found: Inspection, body: seq<byte>)

  /**
   A descriptor the walk refuses. The number it would give a string is computed before the index is looked up,
   so a reference that follows 255 distinct indices is refused even when it repeats one of them.
   */
  predicate Refuses(w: Walked, d: seq<byte>) {
    IsShort(d) || (StringRef(d) != 0 && |w.found.numbers| >= 255)
  }

  /** The string numbers after a reference to `x`: a new index gets the next number. */
  function Noted(numbers: map<byte, byte>, x: byte): (n: map<byte, byte>)
    requires x != 0 ==> |numbers| < 255
    ensures x != 0 ==> x in n
  {
    if x == 0 || x in numbers then numbers else numbers[x := |numbers| + 1]
  }

  function Visit(w: Walked, d: seq<byte>): Walked
    requires !Refuses(w, d)
  {
    var x := StringRef(d);
    var numbers := Noted(w.found.numbers, x);
    Walked(
      Inspection(
        w.found.count + 1,
        w.found.endpoints + (if IsEndpoint(d) then [EndpointOf(d)] else []),
        numbers,
        w.found.interfaces + (if IsInterface(d) then {d[2]} else {})),
      w.body + if x == 0 then d else d[8 := numbers[x]])
  }

  const START := Walked(Inspection(0, [], map[], {}), [])

  function Walk(ds: seq<seq<byte>>): Option<Walked> {
    if |ds| == 0 then Some(START)
    else
      var w, d := Walk(ds[..|ds| - 1]), ds[|ds| - 1];
      if w.None? || Refuses(w.value, d) then None else Some(Visit(w.value, d))
  }

  /** The descriptors of `b`, walked. */
  function Project(b: seq<byte>): Outcome<Walked> {
    var ds := UsbDescriptor.Split(b);
    if ds.None? || Walk(ds.value).None? then Err(Invalid) else Ok(Walk(ds.value).value)
  }

  lemma {:induction false} WalkStops(ds: seq<seq<byte>>, more: seq<seq<byte>>)
    requires Walk(ds).None?
    ensures Walk(ds + more).None?
    decreases |more|
  {
    if |more| == 0 {
      assert ds + more == ds;
    } else {
      WalkStops(ds, more[..|more| - 1]);
      assert (ds + more)[..|ds + more| - 1] == ds + more[..|more| - 1];
    }
  }

  // The walk has passed `ds` and stands before `rest`.
  ghost predicate Reached(was: seq<byte>, ds: seq<seq<byte>>, w: Walked, rest: seq<byte>) {
    UsbDescriptor.Split(was) == Join(ds, UsbDescriptor.Split(rest)) && Walk(ds) == Some(w)
  }

  lemma Proceed(was: seq<byte>, ds: seq<seq<byte>>, w: Walked, rest: seq<byte>, n: nat)
    requires Reached(was, ds, w, rest)
    requires 2 <= |rest| && 2 <= rest[0] <= |rest| && n == rest[0]
    ensures if Refuses(w, rest[..n]) then Project(was) == Err(Invalid)
            else Reached(was, ds + [rest[..n]], Visit(w, rest[..n]), rest[n..])
  {
    var d := rest[..n];
    DeclaredField(rest);
    var more := UsbDescriptor.Split(rest[n..]);
    assert (ds + [d])[..|ds|] == ds;
    if more.Some? {
      assert ds + ([d] + more.value) == (ds + [d]) + more.value;
      if Refuses(w, d) {
        WalkStops(ds + [d], more.value);
      }
    }
  }

  lemma Refused(was: seq<byte>, ds: seq<seq<byte>>, w: Walked, rest: seq<byte>)
    requires Reached(was, ds, w, rest)
    requires rest != [] && (|rest| < 2 || !(2 <= rest[0] <= |rest|))
    ensures Project(was) == Err(Invalid)
  {
    DeclaredField(rest);
  }

  // The body of the walk's loop: one descriptor, rewritten where it stands.
  method VisitDescriptor(bytes: array<byte>, offset: nat, length: nat, before: Inspection)
    returns (ok: bool, after: Inspection)
    requires 2 <= length && offset + length <= bytes.Length
    modifies bytes
    ensures var d, w := old(bytes[offset..offset + length]), Walked(before, old(bytes[..offset]));
            && (ok <==> !Refuses(w, d))
            && (ok ==> Visit(w, d) == Walked(after, bytes[..offset + length]))
    ensures bytes[offset + length..] == old(bytes[offset + length..])
  {
    after := before;
    ghost var past := bytes[..offset];
    var d := bytes[offset..offset + length];
    assert bytes[..offset + length] == past + d;
    if d[1] == INTERFACE {
      if length < 9 {
        return false, after;
      }
      after := after.(interfaces := after.interfaces + {d[2]});
      var original := d[8];
      if original != 0 {
        var next := |after.numbers| + 1;
        if next > 255 {
          return false, after;
        }
        if original !in after.numbers {
          after := after.(numbers := after.numbers[original := next]);
        }
        bytes[offset + 8] := after.numbers[original];
        assert bytes[..offset + length] == past + d[8 := after.numbers[original]];
      }
    } else if d[1] == ENDPOINT {
      if length < 7 {
        return false, after;
      }
      after := after.(endpoints := after.endpoints + [Endpoint(d[2], d[3] % 4, FromLe16(d, 4))]);
    }
    return true, after.(count := after.count + 1);
  }

  method InspectAndRewriteConfiguration(bytes: array<byte>) returns (r: Outcome<Inspection>)
    modifies bytes
    ensures var p := Project(old(bytes[..]));
            if p.Ok? then r.Ok? && p.value == Walked(r.value, bytes[..]) else r == p.PropagateFailure()
  {
    ghost var was := bytes[..];
    ghost var ds: seq<seq<byte>> := [];
    var offset, found := 0, START.found;
    assert bytes[0..] == was && bytes[..0] == [];
    JoinNothing(ds, UsbDescriptor.Split(was));
    while offset < bytes.Length
      invariant 0 <= offset <= bytes.Length
      invariant Reached(was, ds, Walked(found, bytes[..offset]), bytes[offset..])
      decreases bytes.Length - offset
    {
      ghost var rest, w := bytes[offset..], Walked(found, bytes[..offset]);
      if bytes.Length - offset < 2 {
        Refused(was, ds, w, rest);
        return Err(Invalid);
      }
      var length: int := bytes[offset];
      if length < 2 || offset + length > bytes.Length {
        Refused(was, ds, w, rest);
        return Err(Invalid);
      }
      Proceed(was, ds, w, rest, length);
      ghost var d, more := rest[..length], rest[length..];
      assert d == bytes[offset..offset + length] && more == bytes[offset + length..];
      var ok;
      ok, found := VisitDescriptor(bytes, offset, length, found);
      if !ok {
        return Err(Invalid);
      }
      offset := offset + length;
      ds := ds + [d];
      assert bytes[offset..] == more;
      assert Visit(w, d) == Walked(found, bytes[..offset]);
    }
    assert bytes[offset..] == [] && bytes[..offset] == bytes[..];
    JoinNothing(ds, UsbDescriptor.Split([]));
    return Ok(found);
  }
}
