/** Concrete inputs on which the code does less than one might expect of it. */
module Witnesses {
  import opened Bytes
  import opened Personality
  import opened Records
  import opened Configuration
  import opened Renumbering
  import opened Layouts
  import opened Replies
  import opened Panics
  import Discovery
  import FunctionFs
  import Protocol
  import StringTables
  import StringProjection
  import Translator

  // A blob with Microsoft OS descriptors and no speed set.

  /** Flags 8, and a descriptor count of one. */
  const LONE_OS_BLOB: seq<byte> := [3, 0, 0, 0, 16, 0, 0, 0, 8, 0, 0, 0, 1, 0, 0, 0]

  /** `inspect_descriptors` panics on sixteen bytes. */
  lemma LoneOsDescriptorsPanic()
    ensures FunctionFs.InspectedDescriptors(LONE_OS_BLOB) == Panic
  {
    hide FromLe32, ReadLayout, FunctionFs.Acceptable, Speeds;
    LoneOsFields();
  }

  lemma LoneOsFields()
    ensures var b := LONE_OS_BLOB;
            FromLe32(b, 0) == 3 && FromLe32(b, 4) == 16 && FromLe32(b, 8) == 8 && FromLe32(b, 12) == 1
    ensures Speeds(8) == 0
  {
    assert Speeds(8, 0) == 0 && Speeds(8, 1) == 0;
    assert Speeds(8, 2) == 0 && Speeds(8, 3) == 0;
  }

  // A string index repeated after 255 distinct ones.

  /** An interface descriptor that names a string. */
  function Naming(x: byte): (d: seq<byte>)
    ensures |d| == 9 && IsInterface(d) && StringRef(d) == x
  {
    [9, 4, 0, 0, 0, 0xFF, 0, 0, x]
  }

  /** Interfaces that name the strings 1 to `n`. */
  function NamingUpTo(n: nat): (ds: seq<seq<byte>>)
    requires n < 0x100
    ensures |ds| == n && forall i :: 0 <= i < n ==> ds[i] == Naming(i + 1)
  {
    if n == 0 then [] else NamingUpTo(n - 1) + [Naming(n)]
  }

  lemma {:induction false} OrderOfNaming(n: nat)
    requires n < 0x100
    ensures |Order(NamingUpTo(n))| == n && forall x :: x in Order(NamingUpTo(n)) ==> 1 <= x <= n
  {
    hide StringRef, IsInterface, Naming;
    if n > 0 {
      OrderOfNaming(n - 1);
      assert NamingUpTo(n)[..n - 1] == NamingUpTo(n - 1);
    }
  }

  /** 255 interfaces with a string each are accepted; one more that repeats the first string is refused. */
  lemma RepeatedStringRefused()
    ensures var ds := NamingUpTo(255);
            && UsbDescriptor.AreRecords(ds + [Naming(1)])
            && Project(Concat(ds)).Ok?
            && Project(Concat(ds + [Naming(1)])) == Err(Invalid)
  {
    hide NamingUpTo, Order, Walk, Concat, Framing.Split;
    var ds := NamingUpTo(255);
    var more := ds + [Naming(1)];
    forall i | 0 <= i < 256 ensures UsbDescriptor.IsRecord(more[i]) {
      DeclaredField(more[i]);
    }
    forall i | 0 <= i < 255 ensures UsbDescriptor.IsRecord(ds[i]) {
      DeclaredField(ds[i]);
    }
    UsbDescriptor.SplitExact(Concat(ds), ds);
    UsbDescriptor.SplitExact(Concat(more), more);
    NamingNumberable();
    WalkAccepts(ds);
    OrderOfNaming(255);
    assert more[..255] == ds && StringRef(more[255]) == 1;
    assert !Numberable(more);
    WalkAccepts(more);
  }

  lemma NamingNumberable()
    ensures Numberable(NamingUpTo(255))
  {
    hide Order;
    forall k | 0 <= k < 255 ensures |Order(NamingUpTo(255)[..k])| < 255 {
      assert NamingUpTo(255)[..k] == NamingUpTo(k);
      OrderOfNaming(k);
    }
  }

  // A record with more descriptors than the receiver takes.

  function Units(n: nat): (us: seq<()>)
    ensures |us| == n
  {
    if n == 0 then [] else Units(n - 1) + [()]
  }

  /** A record of 257 descriptors is sent, and refused on the other side. */
  lemma ManyDescriptorsLost()
    ensures var sent := Protocol.Encode(Protocol.Record(Protocol.UsbEndpoints, 1, 1, [], Units(257)));
            sent.Ok? && Protocol.Decode(sent.value) == Err(Invalid)
  {
    hide Units, Protocol.Header;
    var r := Protocol.Record(Protocol.UsbEndpoints, 1, 1, [], Units(257));
    Protocol.DecodeEncoded(r);
  }

  // A firmware whose WebUSB URL makes discovery panic.

  const DEVICE: seq<byte> := [18, 1, 0x10, 2, 0, 0, 0, 64, 0x6B, 0x1D, 4, 1, 0, 1, 0, 0, 0, 1]
  const LANGUAGES: seq<byte> := [4, 3, 9, 4]
  const CONFIGURATION: seq<byte> := [9, 2, 9, 0, 0, 1, 0, 0x80, 50]
  const CAPABILITY: seq<byte> := [24, 16, 5, 0] + WEBUSB_UUID + [0, 1, 1, 1]

  /** A device without strings or interfaces, and with a landing page whose URL descriptor is three bytes long. */
  function UrlScript(n: nat): Reply {
    if n == 0 then Answer(DEVICE)
    else if n == 1 then Answer(LANGUAGES)
    else if n == 2 || n == 3 then Answer(CONFIGURATION)
    else if n == 5 then Answer([5, 15, 29, 0, 1])
    else if n == 6 then Answer([5, 15, 29, 0, 1] + CAPABILITY)
    else if n == 7 then Answer([])
    else if n == 8 then Answer([2, 3, 1])
    else Stalled
  }

  lemma {:induction false} NoPairs(languages: seq<u16>)
    ensures Pairs(languages, []) == []
  {
    if |languages| > 0 {
      NoPairs(languages[..|languages| - 1]);
    }
  }

  lemma NoIndices()
    ensures Ascending({}) == []
  {
    hide Ascending;
    HasMember(Ascending({}));
  }

  lemma HasMember(r: seq<byte>)
    ensures |r| > 0 ==> exists b :: b in r
  {
    assert |r| > 0 ==> r[0] in r;
  }

  lemma UrlSurvey()
    ensures UsbDescriptor.Split([]) == Some([])
    ensures Surveyed([], DEVICE, CONFIGURATION) == Some(Survey({}, {}))
  {
    assert {DEVICE[14], DEVICE[15], DEVICE[16], CONFIGURATION[6]} - {0} == {};
  }

  lemma UrlStage()
    ensures WebUsbStage(UrlScript) == Some(Stage(5, 0x0210))
  {
    hide Framing.Split, Surveyed, Ascending, AscendingWords, LanguageIds, Pairs;
    UrlSurvey();
    assert FromLe16(CONFIGURATION, 2) == 9 && FromLe16(DEVICE, 2) == 0x0210;
    assert CONFIGURATION[9..] == [] && CONFIGURATION[..9] == CONFIGURATION;
    NoIndices();
    NoPairs(AscendingWords(LanguageIds(LANGUAGES)));
    assert Wanted(LANGUAGES, Survey({}, {})) == [];
    assert MicrosoftFrom(UrlScript, 4, {}) == Ok(None);
  }

  lemma UrlCapability()
    ensures CapabilityFrom(UrlScript, 5, 0x0210) == Some(CAPABILITY)
  {
    var bos := [5, 15, 29, 0, 1] + CAPABILITY;
    assert bos[5..] == CAPABILITY && CAPABILITY[..24] == CAPABILITY;
    assert CAPABILITY[4..20] == WEBUSB_UUID;
    assert FromLe16([5, 15, 29, 0, 1], 2) == 29;
  }

  /** Discovery panics on this firmware. */
  lemma ShortUrlPanics(speed: UsbSpeed)
    ensures DiscoveryOf(speed, UrlScript) == Panic
  {
    hide DiscoveryOf, WebUsbStage, CapabilityFrom;
    UrlStage();
    UrlCapability();
    DiscoveryPanicsExactly(speed, UrlScript);
  }
}
