/** Discovery asks for every string the projection looks up. */
module StringClosure {
  import opened Bytes
  import opened Unicode
  import opened Personality
  import opened Records
  import opened Configuration
  import opened Renumbering
  import opened StringProjection
  import opened Replies
  import opened Discovery
  import opened MicrosoftProjection
  import opened Translator

  // The requests cover every language and index.

  lemma {:induction false} PairsCover(languages: seq<u16>, indices: seq<byte>, language: u16, index: byte)
    requires language in languages && index in indices
    ensures (index, language) in Pairs(languages, indices)
  {
    var front, last := languages[..|languages| - 1], languages[|languages| - 1];
    if language == last {
      var j :| 0 <= j < |indices| && indices[j] == index;
      assert Row(indices, last)[j] == (index, language);
    } else {
      PairsCover(front, indices, language, index);
    }
  }

  // Every string key is bound to its descriptor.
  lemma {:induction false} KeyedBinds(strings: seq<StringDescriptor>, i: nat)
    requires i < |strings| && Keyed(strings).Some?
    ensures (strings[i].index, strings[i].languageId) in Keyed(strings).value
    ensures Keyed(strings).value[(strings[i].index, strings[i].languageId)] == strings[i].descriptor
  {
    if i < |strings| - 1 {
      KeyedBinds(strings[..|strings| - 1], i);
    }
  }

  // The survey holds every index a device or interface descriptor names, and every interface number.
  lemma {:induction false} SurveyCovers(ds: seq<seq<byte>>, device: seq<byte>, header: seq<byte>)
    requires |device| == 18 && |header| == 9 && Surveyed(ds, device, header).Some?
    ensures var s := Surveyed(ds, device, header).value;
            && s.interfaces == InterfacesOf(ds)
            && (forall i :: 14 <= i < 17 && device[i] != 0 ==> device[i] in s.indices)
            && (forall x :: x in Order(ds) ==> x != 0 && x in s.indices)
  {
    if |ds| > 0 {
      SurveyCovers(ds[..|ds| - 1], device, header);
    }
  }

  /**
   Discovery notes exactly the interfaces of the configuration, and exactly the string indices that the device, the
   configuration and its interfaces name.
   */
  lemma {:induction false} SurveyExactly(ds: seq<seq<byte>>, device: seq<byte>, header: seq<byte>, x: byte)
    requires |device| == 18 && |header| == 9 && Surveyed(ds, device, header).Some?
    ensures var s := Surveyed(ds, device, header).value;
            && (x in s.interfaces <==> exists k :: 0 <= k < |ds| && IsInterface(ds[k]) && ds[k][2] == x)
            && (x in s.indices <==>
                  && x != 0
                  && (|| x in {device[14], device[15], device[16], header[6]}
                      || exists k :: 0 <= k < |ds| && IsInterface(ds[k]) && ds[k][8] == x))
  {
    if |ds| > 0 {
      var n := |ds| - 1;
      var front := ds[..n];
      SurveyExactly(front, device, header, x);
      assert forall k :: 0 <= k < n ==> front[k] == ds[k];
    }
  }

  /** The lookups of the projection: the device's strings and those its interfaces name. */
  predicate Named(device: seq<byte>, ds: seq<seq<byte>>, index: byte)
    requires |device| == 18
  {
    index != 0 && (index in {device[14], device[15], device[16]} || index in Order(ds))
  }

  // The first language listed is the one the projection selects.
  lemma SelectedLanguage(languages: seq<byte>)
    requires LanguagesOk(languages)
    ensures FromLe16(languages, 2) in AscendingWords(LanguageIds(languages))
  {
    var units := UnitsOfBytes(languages[2..]);
    assert units[0] == FromLe16(languages, 2);
    assert units[0] in units;
  }

  lemma StringPresent(
    script: Script, languages: seq<byte>, survey: Survey, strings: seq<StringDescriptor>, index: byte, language: u16)
    requires LanguagesOk(languages) && language in AscendingWords(LanguageIds(languages)) && index in survey.indices
    requires var found := StringsFrom(script, 4, Wanted(languages, survey));
             found.Ok? && [StringDescriptor(0, 0, languages)] + found.value <= strings
    requires Keyed(strings).Some?
    ensures (index, language) in Keyed(strings).value
  {
    hide AscendingWords, LanguageIds, StringsFrom, Pairs, Ascending;
    var wanted := Wanted(languages, survey);
    PairsCover(AscendingWords(LanguageIds(languages)), Ascending(survey.indices), language, index);
    StringsAnswered(script, 4, wanted);
    var k :| 0 <= k < |wanted| && wanted[k] == (index, language);
    KeyedBinds(strings, k + 1);
  }

  // What a successful discovery has read.
  lemma DiscoveryParts(speed: UsbSpeed, script: Script)
    requires DiscoveryOf(speed, script).Ok?
    ensures script(1).Answer? && LanguagesOk(script(1).bytes)
    ensures var p := DiscoveryOf(speed, script).value;
            && |p.deviceDescriptor| == 18
            && |p.configurationDescriptor| >= 9
            && UsbDescriptor.Split(p.configurationDescriptor[9..]).Some?
    ensures var p, languages := DiscoveryOf(speed, script).value, script(1).bytes;
            var ds := UsbDescriptor.Split(p.configurationDescriptor[9..]).value;
            var survey := Surveyed(ds, p.deviceDescriptor, p.configurationDescriptor[..9]);
            && survey.Some?
            && StringsFrom(script, 4, Wanted(languages, survey.value)).Ok?
            && [StringDescriptor(0, 0, languages)] + StringsFrom(script, 4, Wanted(languages, survey.value)).value
               <= p.strings
  {
    hide Surveyed, StringsFrom, MicrosoftFrom, WebUsbFrom, Wanted, Framing.Split, FromLe16;
  }

  /** After any successful discovery without a repeated string key, each lookup the projection makes finds its entry. */
  lemma DiscoveryClosesOverStrings(speed: UsbSpeed, script: Script)
    requires DiscoveryOf(speed, script).Ok? && Keyed(DiscoveryOf(speed, script).value.strings).Some?
    ensures var p := DiscoveryOf(speed, script).value;
            var strings := Keyed(p.strings).value;
            && |p.deviceDescriptor| == 18
            && |p.configurationDescriptor| >= 9
            && UsbDescriptor.Split(p.configurationDescriptor[9..]).Some?
            && LanguageId(strings).Ok?
            && forall index: byte ::
                 Named(p.deviceDescriptor, UsbDescriptor.Split(p.configurationDescriptor[9..]).value, index) ==>
                 (index, LanguageId(strings).value) in strings
  {
    hide DiscoveryOf, Surveyed, StringsFrom, Wanted, Framing.Split, FromLe16, Order, Keyed, AscendingWords;
    DiscoveryParts(speed, script);
    var p, languages := DiscoveryOf(speed, script).value, script(1).bytes;
    var strings, ds := Keyed(p.strings).value, UsbDescriptor.Split(p.configurationDescriptor[9..]).value;
    var survey := Surveyed(ds, p.deviceDescriptor, p.configurationDescriptor[..9]).value;
    KeyedBinds(p.strings, 0);
    SelectedLanguage(languages);
    SurveyCovers(ds, p.deviceDescriptor, p.configurationDescriptor[..9]);
    forall index: byte | Named(p.deviceDescriptor, ds, index) ensures (index, FromLe16(languages, 2)) in strings {
      StringPresent(script, languages, survey, p.strings, index, FromLe16(languages, 2));
    }
  }

  // Lookups that find their entries do not report a missing string.

  lemma {:induction false} TextsFound(strings: Descriptors, language: u16, order: seq<byte>)
    requires forall k :: 0 <= k < |order| ==> (order[k], language) in strings
    ensures forall index :: Texts(strings, language, order) != Err(NoString(index))
  {
    hide EncodeUtf8, DecodeUtf16, UnitsOfBytes;
    if |order| > 0 {
      TextsFound(strings, language, order[..|order| - 1]);
    }
  }

  lemma StringsFound(strings: Descriptors, language: u16, ds: seq<seq<byte>>, w: Walked)
    requires Walk(ds) == Some(w)
    requires forall x :: x in Order(ds) ==> (x, language) in strings
    ensures forall index :: Strings(strings, language, w.found.numbers) != Err(NoString(index))
  {
    hide Texts, InNumberOrder, Walk, Order;
    WalkNumbers(ds, w);
    NumberOrderIsFirstAppearance(w.found.numbers, Order(ds));
    TextsFound(strings, language, Order(ds));
  }

  lemma CompiledFound(p: UsbPersonality, strings: Descriptors, language: u16, identity: DeviceIdentity)
    requires |p.configurationDescriptor| >= 9
    requires var ds := UsbDescriptor.Split(p.configurationDescriptor[9..]);
             ds.Some? && forall x :: x in Order(ds.value) ==> (x, language) in strings
    ensures forall index ::
              Compiled(identity, p.configurationDescriptor, strings, language, p.microsoftOs1, p.webUsb)
              != Err(NoString(index))
  {
    hide Strings, Framing.Split, Walk, Order, ProjectedMicrosoft, ProjectWebUsb, Blob, FromLe16;
    var ds := UsbDescriptor.Split(p.configurationDescriptor[9..]).value;
    if Walk(ds).Some? {
      StringsFound(strings, language, ds, Walk(ds).value);
    }
    OtherFaults();
  }

  lemma OtherFaults()
    ensures forall declaration, interfaces, index ::
              ProjectedMicrosoft(declaration, interfaces) != Err(NoString(index))
    ensures forall declaration, bcdUsb, index :: ProjectWebUsb(declaration, bcdUsb) != Err(NoString(index))
    ensures forall count, body, os, index :: Blob(count, body, os) != Err(NoString(index))
  {
  }

  /** Whatever the firmware answers, a discovered personality is never refused for a missing string. */
  lemma DiscoveredStringsSuffice(speed: UsbSpeed, script: Script)
    requires DiscoveryOf(speed, script).Ok?
    ensures forall index :: Discovered(DiscoveryOf(speed, script).value) != Err(NoString(index))
  {
    hide DiscoveryOf, Compiled, Framing.Split, Keyed, Order;
    var p := DiscoveryOf(speed, script).value;
    if Keyed(p.strings).Some? {
      DiscoveryClosesOverStrings(speed, script);
      var strings := Keyed(p.strings).value;
      var ds, language := UsbDescriptor.Split(p.configurationDescriptor[9..]).value, LanguageId(strings).value;
      OrderPositive(ds);
      forall index: byte | index in {p.deviceDescriptor[14], p.deviceDescriptor[15], p.deviceDescriptor[16]}
        ensures forall i :: OptionalString(strings, index, language) != Err(NoString(i))
      {
        assert index != 0 ==> Named(p.deviceDescriptor, ds, index);
        LookupFound(strings, index, language);
      }
      forall x | x in Order(ds) ensures (x, language) in strings {
        assert Named(p.deviceDescriptor, ds, x);
      }
      forall identity: DeviceIdentity
        ensures forall index ::
          Compiled(identity, p.configurationDescriptor, strings, language, p.microsoftOs1, p.webUsb)
          != Err(NoString(index))
      {
        CompiledFound(p, strings, language, identity);
      }
    }
  }

  lemma LookupFound(strings: Descriptors, index: byte, language: u16)
    requires index != 0 ==> (index, language) in strings
    ensures forall i :: OptionalString(strings, index, language) != Err(NoString(i))
  {
    hide DecodeUtf16, UnitsOfBytes;
  }

  lemma {:induction false} OrderPositive(ds: seq<seq<byte>>)
    ensures 0 !in Order(ds)
  {
    if |ds| > 0 {
      OrderPositive(ds[..|ds| - 1]);
    }
  }
}
