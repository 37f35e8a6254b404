/** The records of the supervisor/worker channel, and the bodies they carry. */
module Protocol {
  import opened Bytes
  import opened Unicode
  import opened Configuration

  const MAGIC: seq<byte> := [0x55, 0x47, 0x53, 0x50]
  const VERSION: byte := 1
  const HEADER_LENGTH: nat := 20
  const MAX_BODY_LENGTH: nat := 0x10_0000
  // The receiver's buffer for ancillary data holds this many descriptors.
  const MAX_DESCRIPTORS: nat := 256

  datatype Kind =
    InitialResources | UsbEndpoints | UsbBusEvent | UsbControlRequest | Quiesce | ConfigurationRejected
  | Configure | UsbControlResponse | Serving | Quiesced

  function KindByte(k: Kind): byte {
    match k
    case InitialResources => 0x01
    case UsbEndpoints => 0x02
    case UsbBusEvent => 0x03
    case UsbControlRequest => 0x04
    case Quiesce => 0x11
    case ConfigurationRejected => 0x12
    case Configure => 0x80
    case UsbControlResponse => 0x81
    case Serving => 0x82
    case Quiesced => 0x84
  }

  /** `Kind::try_from`. */
  function KindOf(b: byte): Outcome<Kind> {
    if b == 0x01 then Ok(InitialResources)
    else if b == 0x02 then Ok(UsbEndpoints)
    else if b == 0x03 then Ok(UsbBusEvent)
    else if b == 0x04 then Ok(UsbControlRequest)
    else if b == 0x11 then Ok(Quiesce)
    else if b == 0x12 then Ok(ConfigurationRejected)
    else if b == 0x80 then Ok(Configure)
    else if b == 0x81 then Ok(UsbControlResponse)
    else if b == 0x82 then Ok(Serving)
    else if b == 0x84 then Ok(Quiesced)
    else Err(Invalid)
  }

  /** A record with the file descriptors it transfers. */
  datatype Record<F> = Record(kind: Kind, generation: u32, requestId: u32, body: seq<byte>, descriptors: seq<F>)

  /** One packet on the channel: its bytes and its ancillary descriptors. */
  datatype Packet<F> = Packet(bytes: seq<byte>, descriptors: seq<F>)

  function Header(kind: byte, descriptors: u16, generation: u32, requestId: u32, length: u32): (h: seq<byte>)
    ensures |h| == HEADER_LENGTH
  {
    MAGIC + [VERSION, kind] + Be16(descriptors) + (Be32(generation) + Be32(requestId) + Be32(length))
  }

  function Encode<F>(r: Record<F>): Outcome<Packet<F>> {
    if |r.body| > MAX_BODY_LENGTH || |r.descriptors| > 0xFFFF then Err(Invalid)
    else
      Ok(Packet(
           Header(KindByte(r.kind), |r.descriptors|, r.generation, r.requestId, |r.body|) + r.body, r.descriptors))
  }

  function Decode<F>(p: Packet<F>): Outcome<Record<F>> {
    if |p.bytes| > HEADER_LENGTH + MAX_BODY_LENGTH + 1 || |p.descriptors| > MAX_DESCRIPTORS then Err(Invalid)
    else if |p.bytes| < HEADER_LENGTH then Err(Invalid)
    else if p.bytes[..4] != MAGIC || p.bytes[4] != VERSION then Err(Invalid)
    else
      var kind :- KindOf(p.bytes[5]);
      var length := FromBe32(p.bytes, 16);
      if length > MAX_BODY_LENGTH || |p.bytes| != HEADER_LENGTH + length then Err(Invalid)
      else if |p.descriptors| != FromBe16(p.bytes, 6) then Err(Invalid)
      else
        Ok(Record(
             kind, FromBe32(p.bytes, 8), FromBe32(p.bytes, 12), p.bytes[HEADER_LENGTH..], p.descriptors))
  }

  /** `send`, up to the system call. */
  method Send<F>(r: Record<F>) returns (p: Outcome<Packet<F>>)
    ensures p == Encode(r)
  {
    hide Be32;
    if |r.body| > MAX_BODY_LENGTH {
      return Err(Invalid);
    }
    if |r.descriptors| > 0xFFFF {
      return Err(Invalid);
    }
    var packet := MAGIC;
    packet := packet + [VERSION];
    packet := packet + [KindByte(r.kind)];
    packet := packet + Be16(|r.descriptors|);
    packet := packet + Be32(r.generation);
    packet := packet + Be32(r.requestId);
    packet := packet + Be32(|r.body|);
    assert packet == Header(KindByte(r.kind), |r.descriptors|, r.generation, r.requestId, |r.body|);
    packet := packet + r.body;
    return Ok(Packet(packet, r.descriptors));
  }

  // Round trips.

  lemma KindRoundTrip(k: Kind, b: byte)
    ensures KindOf(KindByte(k)) == Ok(k)
    ensures KindOf(b).Ok? ==> KindByte(KindOf(b).value) == b
  {
  }

  lemma Be32At(b: seq<byte>, at: nat, n: u32)
    requires at + 4 <= |b|
    ensures b[at..at + 4] == Be32(n) <==> FromBe32(b, at) == n
  {
    var f := b[at..at + 4];
    assert FromBe32(f, 0) == FromBe32(b, at);
    BeRoundTrip(n);
    BeFieldsDetermineBytes(f);
  }

  lemma Be16At(b: seq<byte>, at: nat, n: u16)
    requires at + 2 <= |b|
    ensures b[at..at + 2] == Be16(n) <==> FromBe16(b, at) == n
  {
    var f := b[at..at + 2];
    assert FromBe16(f, 0) == FromBe16(b, at);
    BeRoundTrip(n);
    BeFieldsDetermineBytes(f);
  }

  // A header stands at the front exactly when each field reads as written.
  lemma HeaderExact(b: seq<byte>, kind: byte, descriptors: u16, generation: u32, requestId: u32, length: u32)
    requires HEADER_LENGTH <= |b|
    ensures Header(kind, descriptors, generation, requestId, length) <= b
       <==> && b[..4] == MAGIC
            && b[4] == VERSION
            && b[5] == kind
            && FromBe16(b, 6) == descriptors
            && FromBe32(b, 8) == generation
            && FromBe32(b, 12) == requestId
            && FromBe32(b, 16) == length
  {
    hide Be32, Be16, FromBe32, FromBe16;
    var h := Header(kind, descriptors, generation, requestId, length);
    Be16At(b, 6, descriptors);
    Be32At(b, 8, generation);
    Be32At(b, 12, requestId);
    Be32At(b, 16, length);
    assert h[..4] == MAGIC && h[4] == VERSION && h[5] == kind && h[6..8] == Be16(descriptors);
    assert h[8..12] == Be32(generation) && h[12..16] == Be32(requestId) && h[16..20] == Be32(length);
    assert b[..20] == b[..4] + [b[4], b[5]] + b[6..8] + (b[8..12] + b[12..16] + b[16..20]);
    if h <= b {
      assert b[..20] == h;
      assert b[..4] == h[..4] && b[6..8] == h[6..8];
      assert b[8..12] == h[8..12] && b[12..16] == h[12..16] && b[16..20] == h[16..20];
    }
  }

  /** What is sent is received: an encoded record is decoded to itself, unless it carries more descriptors than fit. */
  lemma DecodeEncoded<F>(r: Record<F>)
    requires Encode(r).Ok?
    ensures Decode(Encode(r).value) == if |r.descriptors| <= MAX_DESCRIPTORS then Ok(r) else Err(Invalid)
  {
    hide Header, FromBe32, FromBe16, KindByte, KindOf;
    var b := Encode(r).value.bytes;
    HeaderExact(b, KindByte(r.kind), |r.descriptors|, r.generation, r.requestId, |r.body|);
    KindRoundTrip(r.kind, 0);
    assert b[HEADER_LENGTH..] == r.body;
  }

  /** Every accepted packet is the encoding of the record read from it. */
  lemma EncodeDecoded<F>(p: Packet<F>)
    requires Decode(p).Ok?
    ensures Encode(Decode(p).value) == Ok(p)
  {
    hide Header, FromBe32, FromBe16, KindByte, KindOf;
    var r, b := Decode(p).value, p.bytes;
    KindRoundTrip(r.kind, b[5]);
    HeaderExact(b, b[5], |r.descriptors|, r.generation, r.requestId, |r.body|);
    var h := Header(b[5], |r.descriptors|, r.generation, r.requestId, |r.body|);
    assert h == b[..HEADER_LENGTH];
    assert b == b[..HEADER_LENGTH] + b[HEADER_LENGTH..];
  }

  // The endpoint map.

  function EndpointBytes(e: Endpoint): (b: seq<byte>)
    ensures |b| == 4
  {
    [e.address, e.transferType] + Be16(e.maxPacketSize)
  }

  function EndpointsBytes(es: seq<Endpoint>): (b: seq<byte>)
    ensures |b| == 4 * |es|
  {
    if |es| == 0 then [] else EndpointsBytes(es[..|es| - 1]) + EndpointBytes(es[|es| - 1])
  }

  function EndpointMapOf(es: seq<Endpoint>): Outcome<seq<byte>> {
    if |es| > 0xFFFF then Err(Invalid) else Ok(Be16(|es|) + EndpointsBytes(es))
  }

  method EndpointMap(es: seq<Endpoint>) returns (r: Outcome<seq<byte>>)
    ensures r == EndpointMapOf(es)
  {
    if |es| > 0xFFFF {
      return Err(Invalid);
    }
    var body := Be16(|es|);
    for i := 0 to |es|
      invariant body == Be16(|es|) + EndpointsBytes(es[..i])
    {
      assert es[..i + 1][..i] == es[..i];
      body := body + ([es[i].address, es[i].transferType] + Be16(es[i].maxPacketSize));
    }
    assert es[..|es|] == es;
    return Ok(body);
  }

  lemma EndpointBytesInjective(d: Endpoint, e: Endpoint)
    ensures EndpointBytes(d) == EndpointBytes(e) ==> d == e
  {
    var x, y := EndpointBytes(d), EndpointBytes(e);
    assert x[2..] == Be16(d.maxPacketSize) && y[2..] == Be16(e.maxPacketSize) && x[0] == d.address && y[0] == e.address;
    assert x[1] == d.transferType && y[1] == e.transferType;
    BeRoundTrip(d.maxPacketSize);
    BeRoundTrip(e.maxPacketSize);
  }

  lemma {:induction false} EndpointsInjective(ds: seq<Endpoint>, es: seq<Endpoint>)
    requires EndpointsBytes(ds) == EndpointsBytes(es)
    ensures ds == es
  {
    hide EndpointBytes;
    if |es| > 0 {
      var d, e := ds[|ds| - 1], es[|es| - 1];
      Halves(EndpointsBytes(ds[..|ds| - 1]), EndpointBytes(d), EndpointsBytes(es[..|es| - 1]), EndpointBytes(e));
      EndpointBytesInjective(d, e);
      EndpointsInjective(ds[..|ds| - 1], es[..|es| - 1]);
      assert ds == ds[..|ds| - 1] + [d] && es == es[..|es| - 1] + [e];
    }
  }

  /** Two endpoint lists with the same map are the same list. */
  lemma EndpointMapInjective(ds: seq<Endpoint>, es: seq<Endpoint>)
    requires EndpointMapOf(ds).Ok? && EndpointMapOf(ds) == EndpointMapOf(es)
    ensures ds == es
  {
    Halves(Be16(|ds|), EndpointsBytes(ds), Be16(|es|), EndpointsBytes(es));
    EndpointsInjective(ds, es);
  }

  // Resource names.

  predicate NamesFit(names: seq<Text>) {
    |names| <= 0xFFFF && forall i :: 0 <= i < |names| ==> |EncodeUtf8(names[i])| <= 0xFFFF
  }

  /** The names, each behind its length. */
  function NameList(names: seq<Text>): seq<byte> {
    if |names| == 0 then []
    else
      var name := EncodeUtf8(names[0]);
      Be16(|name| % 0x1_0000) + name + NameList(names[1..])
  }

  function ResourceNamesOf(names: seq<Text>): Outcome<seq<byte>> {
    if NamesFit(names) then Ok(Be16(|names|) + NameList(names)) else Err(Invalid)
  }

  lemma {:induction false} NameListPush(names: seq<Text>, name: Text)
    ensures NameList(names + [name]) == NameList(names) + (Be16(|EncodeUtf8(name)| % 0x1_0000) + EncodeUtf8(name))
  {
    hide EncodeUtf8;
    if |names| == 0 {
      assert names + [name] == [name] && [name][1..] == [];
    } else {
      NameListPush(names[1..], name);
      assert (names + [name])[1..] == names[1..] + [name];
    }
  }

  method ResourceNames(names: seq<Text>) returns (r: Outcome<seq<byte>>)
    ensures r == ResourceNamesOf(names)
  {
    hide EncodeUtf8, NameList;
    if |names| > 0xFFFF {
      return Err(Invalid);
    }
    var body := Be16(|names|);
    assert NameList([]) == [] && body + [] == body by {
      NoNames();
    }
    for i := 0 to |names|
      invariant NamesFit(names[..i])
      invariant body == Be16(|names|) + NameList(names[..i])
    {
      var name := EncodeUtf8(names[i]);
      if |name| > 0xFFFF {
        return Err(Invalid);
      }
      NameListPush(names[..i], names[i]);
      assert names[..i] + [names[i]] == names[..i + 1];
      body := body + (Be16(|name|) + name);
    }
    assert names[..|names|] == names;
    return Ok(body);
  }

  lemma NoNames()
    ensures NameList([]) == []
  {
  }

  // Behind equal bytes stand equal first names and equal rests.
  lemma FirstNames(x: seq<byte>, y: seq<byte>, more: seq<byte>, rest: seq<byte>)
    requires |x| <= 0xFFFF && |y| <= 0xFFFF && Be16(|x|) + x + more == Be16(|y|) + y + rest
    ensures x == y && more == rest
  {
    assert Be16(|x|) + x + more == Be16(|x|) + (x + more) && Be16(|y|) + y + rest == Be16(|y|) + (y + rest);
    Halves(Be16(|x|), x + more, Be16(|y|), y + rest);
    BeRoundTrip(|x|);
    BeRoundTrip(|y|);
    Halves(x, more, y, rest);
  }

  lemma {:induction false} NameListInjective(xs: seq<Text>, ys: seq<Text>)
    requires NamesFit(xs) && NamesFit(ys) && |xs| == |ys| && NameList(xs) == NameList(ys)
    ensures xs == ys
  {
    hide EncodeUtf8, DecodeUtf8, Be16;
    if |xs| > 0 {
      FirstNames(EncodeUtf8(xs[0]), EncodeUtf8(ys[0]), NameList(xs[1..]), NameList(ys[1..]));
      Utf8RoundTrip(xs[0]);
      Utf8RoundTrip(ys[0]);
      NameListInjective(xs[1..], ys[1..]);
      assert xs == [xs[0]] + xs[1..] && ys == [ys[0]] + ys[1..];
    }
  }

  /** Two lists of resource names with the same body are the same list. */
  lemma ResourceNamesInjective(xs: seq<Text>, ys: seq<Text>)
    requires ResourceNamesOf(xs).Ok? && ResourceNamesOf(xs) == ResourceNamesOf(ys)
    ensures xs == ys
  {
    Halves(Be16(|xs|), NameList(xs), Be16(|ys|), NameList(ys));
    BeRoundTrip(|xs|);
    BeRoundTrip(|ys|);
    NameListInjective(xs, ys);
  }

  // Bus events.

  datatype BusEvent = Bind | Unbind | Enable | Disable | Suspend | Resume

  function EventByte(e: BusEvent): byte {
    match e
    case Bind => 0
    case Unbind => 1
    case Enable => 2
    case Disable => 3
    case Suspend => 5
    case Resume => 6
  }

  /** `UsbBusEvent::from_byte`. */
  function EventOf(b: byte): Outcome<BusEvent> {
    if b == 0 then Ok(Bind)
    else if b == 1 then Ok(Unbind)
    else if b == 2 then Ok(Enable)
    else if b == 3 then Ok(Disable)
    else if b == 5 then Ok(Suspend)
    else if b == 6 then Ok(Resume)
    else Err(Invalid)
  }

  function EncodeEvent(e: BusEvent, activation: u64): (b: seq<byte>)
    ensures |b| == 9
  {
    [EventByte(e)] + Be64(activation)
  }

  function DecodeEvent(b: seq<byte>): Outcome<(BusEvent, u64)> {
    if |b| != 9 then Err(Invalid)
    else
      var e :- EventOf(b[0]);
      Ok((e, FromBe64(b, 1)))
  }

  /** Events are decoded as they were encoded, and a body that decodes is the encoding of what it decodes to. */
  lemma EventRoundTrip(e: BusEvent, activation: u64, b: seq<byte>)
    ensures DecodeEvent(EncodeEvent(e, activation)) == Ok((e, activation))
    ensures DecodeEvent(b).Ok? ==> EncodeEvent(DecodeEvent(b).value.0, DecodeEvent(b).value.1) == b
  {
    hide FromBe64, Be64, FromBe32;
    var c := EncodeEvent(e, activation);
    assert c[1..9] == Be64(activation);
    Be64Slice(c);
    BeRoundTrip(activation);
    if DecodeEvent(b).Ok? {
      Be64Slice(b);
      assert b == [b[0]] + b[1..9];
    }
  }

  lemma Be64Slice(b: seq<byte>)
    requires |b| == 9
    ensures FromBe64(b[1..9], 0) == FromBe64(b, 1)
    ensures Be64(FromBe64(b, 1)) == b[1..9]
  {
    hide FromBe32, Be32;
    var high: int, low: int := FromBe32(b, 1), FromBe32(b, 5);
    Positional(high, low, 0x1_0000_0000);
    Be32At(b, 1, high);
    Be32At(b, 5, low);
    assert b[1..9] == b[1..5] + b[5..9];
    var f := b[1..9];
    Be32At(f, 0, high);
    Be32At(f, 4, low);
    assert f[0..4] == b[1..5] && f[4..8] == b[5..9];
  }

  // The same formats, byte by byte.

  predicate BigField32(b: seq<byte>, at: nat, n: nat) {
    && at + 4 <= |b|
    && n == 16777216 * b[at] as nat + 65536 * b[at + 1] as nat + 256 * b[at + 2] as nat + b[at + 3] as nat
  }

  lemma BigField(b: seq<byte>, at: nat, n: u32)
    requires at + 4 <= |b| && b[at..at + 4] == Be32(n)
    ensures BigField32(b, at, n)
  {
    hide Be32;
    Be32At(b, at, n);
  }

  /** A packet is "UGSP", version 1, the kind, and the counts and numbers in big-endian order, then the body. */
  lemma PacketBytes<F>(r: Record<F>)
    requires Encode(r).Ok?
    ensures var b := Encode(r).value.bytes;
            && |b| == 20 + |r.body| && b[..4] == [85, 71, 83, 80] && b[4] == 1
            && KindOf(b[5]) == Ok(r.kind)
            && |r.descriptors| == 256 * b[6] as nat + b[7] as nat
            && BigField32(b, 8, r.generation) && BigField32(b, 12, r.requestId) && BigField32(b, 16, |r.body|)
            && b[20..] == r.body
    ensures Encode(r).value.descriptors == r.descriptors
  {
    hide Be32, BigField32, KindByte, KindOf;
    var b := Encode(r).value.bytes;
    KindRoundTrip(r.kind, 0);
    assert b[8..12] == Be32(r.generation) && b[12..16] == Be32(r.requestId) && b[16..20] == Be32(|r.body|);
    BigField(b, 8, r.generation);
    BigField(b, 12, r.requestId);
    BigField(b, 16, |r.body|);
  }

  lemma {:induction false} EndpointsBytesAt(es: seq<Endpoint>, i: nat)
    requires i < |es|
    ensures var b := EndpointsBytes(es);
            && b[4 * i] == es[i].address && b[4 * i + 1] == es[i].transferType
            && 256 * b[4 * i + 2] as int + b[4 * i + 3] as int == es[i].maxPacketSize
  {
    if i < |es| - 1 {
      EndpointsBytesAt(es[..|es| - 1], i);
    }
  }

  /** The map tells the number of endpoints, and each one's address, transfer type and packet size. */
  lemma EndpointMapBytes(es: seq<Endpoint>, i: nat)
    requires EndpointMapOf(es).Ok? && i < |es|
    ensures var b := EndpointMapOf(es).value;
            && |b| == 2 + 4 * |es| && 256 * b[0] as nat + b[1] as nat == |es|
            && b[2 + 4 * i] == es[i].address && b[3 + 4 * i] == es[i].transferType
            && 256 * b[4 + 4 * i] as int + b[5 + 4 * i] as int == es[i].maxPacketSize
  {
    hide EndpointsBytes;
    EndpointsBytesAt(es, i);
  }

  /** The names of a list: each is as long as the two bytes before it say. */
  function TakeNames(b: seq<byte>, n: nat): Option<seq<Text>>
    decreases n
  {
    if n == 0 then if |b| == 0 then Some([]) else None
    else if |b| < 2 || |b| < 2 + 256 * b[0] as nat + b[1] as nat then None
    else
      var end: nat := 2 + 256 * b[0] as nat + b[1] as nat;
      var name, rest := DecodeUtf8(b[2..end]), TakeNames(b[end..], n - 1);
      if name.None? || rest.None? then None else Some([name.value] + rest.value)
  }

  function ReadNames(b: seq<byte>): Option<seq<Text>> {
    if |b| < 2 then None else TakeNames(b[2..], 256 * b[0] as nat + b[1] as nat)
  }

  lemma {:induction false} NamesTaken(names: seq<Text>)
    requires NamesFit(names)
    ensures TakeNames(NameList(names), |names|) == Some(names)
  {
    hide EncodeUtf8, DecodeUtf8, TakeNames, Be16, NameList;
    NameListFirst(names);
    if |names| == 0 {
      NothingTaken();
    } else {
      NamesTaken(names[1..]);
      Utf8RoundTrip(names[0]);
      OneTaken(EncodeUtf8(names[0]), NameList(names[1..]), |names|);
      assert [names[0]] + names[1..] == names;
    }
  }

  lemma NothingTaken()
    ensures TakeNames([], 0) == Some([])
  {
  }

  lemma NameListFirst(names: seq<Text>)
    requires NamesFit(names)
    ensures NameList(names)
         == if |names| == 0 then []
            else Be16(|EncodeUtf8(names[0])|) + EncodeUtf8(names[0]) + NameList(names[1..])
  {
    hide EncodeUtf8, Be16;
  }

  lemma OneTaken(name: seq<byte>, more: seq<byte>, n: nat)
    requires |name| <= 0xFFFF && n > 0 && DecodeUtf8(name).Some?
    ensures TakeNames(Be16(|name|) + name + more, n)
         == if TakeNames(more, n - 1).None? then None
            else Some([DecodeUtf8(name).value] + TakeNames(more, n - 1).value)
  {
    hide DecodeUtf8;
    var b := Be16(|name|) + name + more;
    assert 256 * b[0] as nat + b[1] as nat == |name|;
    assert b[2..2 + |name|] == name && b[2 + |name|..] == more;
  }

  /** The names are read back from the body of InitialResources as they were. */
  lemma NamesReadBack(names: seq<Text>)
    requires ResourceNamesOf(names).Ok?
    ensures ReadNames(ResourceNamesOf(names).value) == Some(names)
  {
    hide NameList, TakeNames;
    var b := ResourceNamesOf(names).value;
    NamesTaken(names);
    assert b[2..] == NameList(names);
  }

  /** A bus event is its FunctionFS code, then the activation in big-endian order. */
  lemma EventBody(e: BusEvent, activation: u64)
    ensures var b := EncodeEvent(e, activation);
            && b[0] == (match e case Bind => 0 case Unbind => 1 case Enable => 2 case Disable => 3 case Suspend => 5
                                case Resume => 6)
            && BigField32(b, 1, activation / 0x1_0000_0000) && BigField32(b, 5, activation % 0x1_0000_0000)
  {
    hide Be32, BigField32;
    var b := EncodeEvent(e, activation);
    assert b[1..5] == Be32(activation / 0x1_0000_0000) && b[5..9] == Be32(activation % 0x1_0000_0000);
    BigField(b, 1, activation / 0x1_0000_0000);
    BigField(b, 5, activation % 0x1_0000_0000);
  }
}
