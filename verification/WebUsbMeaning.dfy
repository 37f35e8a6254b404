/** What a discovered WebUSB declaration says of the firmware's bytes, and when it is projected. */
module WebUsbMeaning {
  import opened Bytes
  import opened Unicode
  import opened Personality
  import opened Records
  import opened MicrosoftProjection
  import opened Replies
  import opened Panics
  import MicrosoftAgreement
  import MicrosoftSurvival
  import Translator

  // The capability.

  /** BOS capabilities: at least three bytes, the first of which is the length (USB 2.1 section 9.6.2). */
  const Capability := Framing(3, 0, 1)

  lemma CapabilityFits(b: seq<byte>)
    requires |b| >= 3
    ensures Capability.Declared(b) == b[0]
  {
    LittleByte(b, 0);
  }

  /** `c` is the first WebUSB capability of `b`: the complete capabilities of other kinds before it are `others`. */
  ghost predicate Leads(b: seq<byte>, c: seq<byte>, others: seq<seq<byte>>) {
    && Capability.AreRecords(others)
    && (forall i :: 0 <= i < |others| ==> !IsWebUsb(others[i]))
    && Capability.IsRecord(c) && IsWebUsb(c)
    && Concat(others) + c <= b
  }

  ghost predicate FirstWebUsb(b: seq<byte>, c: seq<byte>) {
    exists others :: Leads(b, c, others)
  }

  lemma PrefixBehind(front: seq<byte>, more: seq<byte>, b: seq<byte>)
    requires front <= b
    ensures front + more <= b <==> more <= b[|front|..]
  {
    assert b == front + b[|front|..];
    if front + more <= b {
      assert more == (front + more)[|front|..];
      assert b[|front|..][..|more|] == b[|front|..|front| + |more|];
    }
  }

  lemma LeadsMore(b: seq<byte>, c: seq<byte>, first: seq<byte>, rest: seq<seq<byte>>)
    requires first <= b && Capability.IsRecord(first) && !IsWebUsb(first)
    ensures Leads(b, c, [first] + rest) <==> Leads(b[|first|..], c, rest)
  {
    hide IsWebUsb, Concat, Framing.IsRecord;
    var others := [first] + rest;
    ConcatAppend([first], rest);
    ConcatOne(first);
    assert Concat(others) + c == first + (Concat(rest) + c);
    PrefixBehind(first, Concat(rest) + c, b);
    assert forall i :: 0 <= i < |rest| ==> rest[i] == others[i + 1];
    assert forall i :: 0 < i < |others| ==> others[i] == rest[i - 1];
  }

  lemma LeadsFirst(b: seq<byte>, c: seq<byte>)
    ensures Leads(b, c, []) <==> Capability.IsRecord(c) && IsWebUsb(c) && c <= b
  {
    hide IsWebUsb, Framing.IsRecord;
    assert Concat([]) + c == c;
  }

  lemma {:induction false} FoundIsFirst(b: seq<byte>, c: seq<byte>) returns (others: seq<seq<byte>>)
    requires FindWebUsb(b) == Ok(Some(c))
    ensures Leads(b, c, others)
  {
    hide IsWebUsb, Concat, Leads;
    CapabilityFits(b);
    var first := b[..b[0]];
    Capability.DeclaredOfPrefix(first, b);
    if IsWebUsb(first) {
      others := [];
      LeadsFirst(b, c);
    } else {
      var rest := FoundIsFirst(b[b[0]..], c);
      others := [first] + rest;
      LeadsMore(b, c, first, rest);
    }
  }

  lemma {:induction false} FirstIsFound(b: seq<byte>, c: seq<byte>, others: seq<seq<byte>>)
    requires Leads(b, c, others)
    ensures FindWebUsb(b) == Ok(Some(c))
    decreases |others|
  {
    hide IsWebUsb, Concat;
    if |others| == 0 {
      assert others == [];
      LeadsFirst(b, c);
      Front(c, b);
    } else {
      var first, rest := others[0], others[1..];
      assert others == [first] + rest;
      FirstStands(first, rest, c, b);
      Front(first, b);
      LeadsMore(b, c, first, rest);
      FirstIsFound(b[|first|..], c, rest);
    }
  }

  lemma FirstStands(first: seq<byte>, rest: seq<seq<byte>>, c: seq<byte>, b: seq<byte>)
    requires Concat([first] + rest) + c <= b
    ensures first <= b
  {
    hide Concat;
    ConcatAppend([first], rest);
    ConcatOne(first);
    assert (Concat([first] + rest) + c)[..|first|] == first;
  }

  lemma Front(c: seq<byte>, b: seq<byte>)
    requires Capability.IsRecord(c) && c <= b
    ensures |b| >= 3 && 3 <= b[0] <= |b| && b[..b[0]] == c
  {
    CapabilityFits(b);
    Capability.DeclaredOfPrefix(c, b);
  }

  /** The capability walk finds the first WebUSB capability, and nothing else. */
  lemma FindsFirst(b: seq<byte>, c: seq<byte>)
    ensures FindWebUsb(b) == Ok(Some(c)) <==> FirstWebUsb(b, c)
  {
    hide FindWebUsb, Leads;
    if FindWebUsb(b) == Ok(Some(c)) {
      var others := FoundIsFirst(b, c);
    }
    if others :| Leads(b, c, others) {
      FirstIsFound(b, c, others);
    }
  }

  // The landing page.

  const HTTP: seq<byte> := [0x68, 0x74, 0x74, 0x70, 0x3A, 0x2F, 0x2F]
  const HTTPS: seq<byte> := [0x68, 0x74, 0x74, 0x70, 0x73, 0x3A, 0x2F, 0x2F]

  /** The bytes of the URL that a reply stands for. */
  function UrlBytes(b: seq<byte>): seq<byte>
    requires |b| >= 3 && 3 <= b[0] <= |b|
  {
    (if b[2] == 0 then HTTP else if b[2] == 1 then HTTPS else []) + b[3..b[0]]
  }

  /** An empty URL, or an ASCII one of up to 252 bytes behind one of the two schemes. */
  predicate UrlProjectable(url: seq<byte>) {
    && |url| <= 252
    && AsciiBytes(url)
    && (|url| == 0 || HTTPS <= url || HTTP <= url)
  }

  lemma EncodedNothing(s: Text)
    requires |s| == 0
    ensures EncodeUtf8(s) == []
  {
  }

  lemma EncodedFirst(s: Text)
    requires |s| > 0
    ensures EncodeUtf8(s) == Octets(s[0]) + EncodeUtf8(s[1..])
  {
  }

  lemma {:induction false} EncodedTogether(s: Text, t: Text)
    ensures EncodeUtf8(s + t) == EncodeUtf8(s) + EncodeUtf8(t)
  {
    hide EncodeUtf8, Octets;
    if |s| == 0 {
      assert s + t == t;
      EncodedNothing(s);
    } else {
      EncodedTogether(s[1..], t);
      EncodedFirst(s);
      EncodedFirst(s + t);
      assert (s + t)[1..] == s[1..] + t;
    }
  }

  lemma SchemeBytes()
    ensures EncodeUtf8(Ascii("http://")) == HTTP && EncodeUtf8(Ascii("https://")) == HTTPS
  {
    hide EncodeUtf8;
    MicrosoftAgreement.AsciiOctets(Ascii("http://"));
    MicrosoftAgreement.AsciiOctets(Ascii("https://"));
  }

  lemma PageBytes(b: seq<byte>)
    requires WebUsbUrl(b).Ok?
    ensures |b| >= 3 && 3 <= b[0] <= |b| && EncodeUtf8(WebUsbUrl(b).value) == UrlBytes(b)
  {
    hide EncodeUtf8, DecodeUtf8;
    var suffix := DecodeUtf8(b[3..b[0]]).value;
    Utf8Exact(b[3..b[0]]);
    SchemeBytes();
    EncodedTogether(Ascii("http://"), suffix);
    EncodedTogether(Ascii("https://"), suffix);
    assert [] + suffix == suffix && [] + b[3..b[0]] == b[3..b[0]];
  }

  predicate AsciiBytes(b: seq<byte>) {
    forall i :: 0 <= i < |b| ==> b[i] < 0x80
  }

  lemma AsciiExactly(t: Text)
    ensures IsAscii(t) <==> AsciiBytes(EncodeUtf8(t))
  {
    hide EncodeUtf8, DecodeUtf8;
    if IsAscii(t) {
      MicrosoftAgreement.AsciiOctets(t);
    }
    if AsciiBytes(EncodeUtf8(t)) {
      MicrosoftSurvival.AsciiDecodes(EncodeUtf8(t));
      Utf8RoundTrip(t);
    }
  }

  lemma PrefixExactly(t: Text, scheme: Text)
    requires IsAscii(t) && IsAscii(scheme)
    ensures scheme <= t <==> EncodeUtf8(scheme) <= EncodeUtf8(t)
  {
    hide EncodeUtf8;
    MicrosoftAgreement.AsciiOctets(t);
    MicrosoftAgreement.AsciiOctets(scheme);
    var a, b := EncodeUtf8(scheme), EncodeUtf8(t);
    if a <= b {
      forall i | 0 <= i < |scheme| ensures scheme[i] == t[i] {
        assert a[i] == b[i];
      }
    }
    if scheme <= t {
      forall i | 0 <= i < |a| ensures a[i] == b[i] {
        assert scheme[i] == t[i];
      }
    }
  }

  /** A discovered landing page is projected exactly when the bytes of its URL are. */
  lemma LandingPageExactly(b: seq<byte>)
    requires WebUsbUrl(b).Ok?
    ensures |b| >= 3 && 3 <= b[0] <= |b|
    ensures Translator.LandingPageOk(WebUsbUrl(b).value) <==> UrlProjectable(UrlBytes(b))
  {
    hide EncodeUtf8, DecodeUtf8;
    var page := WebUsbUrl(b).value;
    PageBytes(b);
    PageProjectable(page);
  }

  // The declaration.

  /** A capability, and the URL reply it led to, that make a declaration the projection accepts. */
  predicate CapabilityProjectable(capability: seq<byte>, url: Reply)
    requires |capability| >= 24
  {
    && FromLe16(capability, 20) == 0x0100
    && capability[22] != 0
    && (capability[23] == 0
        || (url.Answer? && |url.bytes| >= 3 && 3 <= url.bytes[0] <= |url.bytes| && UrlProjectable(UrlBytes(url.bytes))))
  }

  /**
   A discovered declaration comes from the first WebUSB capability of a device of USB 2.1 or later, and the projection
   accepts it exactly when that capability is of version 1.0, has a vendor code, and names no landing page or one whose
   URL is projectable. Without a declaration there is nothing to refuse.
   */
  lemma DiscoveredWebUsbProjected(script: Script, at: nat, bcdUsb: u16)
    requires WebUsbFrom(script, at, bcdUsb).Ok?
    ensures var declaration := WebUsbFrom(script, at, bcdUsb).value;
            var capability := CapabilityFrom(script, at, bcdUsb);
            && declaration.Some? == capability.Some?
            && (capability.Some? ==>
                  && bcdUsb >= 0x0201 && |capability.value| >= 24
                  && FirstWebUsb(script(at + 1).bytes[5..], capability.value))
            && (Translator.ProjectWebUsb(declaration, bcdUsb).Ok?
                <==> (capability.Some? ==> CapabilityProjectable(capability.value, script(at + 3))))
  {
    hide EncodeUtf8, DecodeUtf8, FromLe16, IsWebUsb, FindWebUsb, WebUsbUrl, UrlProjectable, UrlBytes, FirstWebUsb;
    hide Translator.LandingPageOk;
    var capability := CapabilityFrom(script, at, bcdUsb);
    NothingFound();
    if capability.Some? {
      FindsFirst(script(at + 1).bytes[5..], capability.value);
      if capability.value[23] != 0 {
        LandingPageExactly(script(at + 3).bytes);
      } else {
        EmptyPage();
      }
    }
  }

  lemma NothingFound()
    ensures FindWebUsb([]) == Ok(None)
  {
  }

  lemma EmptyPage()
    ensures Translator.LandingPageOk([])
  {
  }

  /** Any declaration is projected exactly for USB 2.1 or later, version 1.0, a vendor code and a projectable URL. */
  lemma DeclarationProjected(declaration: WebUsb, bcdUsb: u16)
    ensures Translator.ProjectWebUsb(Some(declaration), bcdUsb).Ok? <==>
              && bcdUsb >= 0x0201 && declaration.version == 0x0100 && declaration.vendorCode != 0
              && UrlProjectable(EncodeUtf8(declaration.landingPage))
  {
    hide EncodeUtf8, DecodeUtf8;
    PageProjectable(declaration.landingPage);
  }

  lemma PageProjectable(page: Text)
    ensures Translator.LandingPageOk(page) <==> UrlProjectable(EncodeUtf8(page))
  {
    hide EncodeUtf8, DecodeUtf8;
    AsciiExactly(page);
    SchemeBytes();
    if IsAscii(page) {
      MicrosoftAgreement.AsciiOctets(page);
      PrefixExactly(page, Ascii("http://"));
      PrefixExactly(page, Ascii("https://"));
    }
  }
}
