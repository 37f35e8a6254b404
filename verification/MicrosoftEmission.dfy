/** What discovery and projection emit for canonical Microsoft OS 1.0 replies, as one sequence of descriptors. */
module MicrosoftEmission {
  import opened Bytes
  import opened Personality
  import opened Records
  import opened Sorting
  import opened MicrosoftProjection
  import opened MicrosoftSurvival
  import opened Replies
  import OsDescriptors

  // When a canonical declaration is projected.

  /** No two function sections name the same interface. */
  predicate DistinctSections(reply: seq<byte>)
    requires |reply| > 8 && 16 + reply[8] as int * 24 <= |reply|
  {
    forall i, j :: 0 <= i < j < reply[8] as int ==> reply[16 + i * 24] != reply[16 + j * 24]
  }

  lemma {:induction false} SectionsRead(reply: seq<byte>, n: nat, interfaces: set<byte>)
    requires 16 + n * 24 <= |reply| && Sections(reply, n, interfaces).Ok?
    ensures var ids := Sections(reply, n, interfaces).value;
            && |ids| == n
            && forall i :: 0 <= i < n ==> CompatibleIdOk(ids[i], interfaces) && ids[i].interface == reply[16 + i * 24]
  {
    hide Section, CompatibleIdOk;
    if n > 0 {
      var s := reply[16 + (n - 1) * 24..16 + n * 24];
      SectionsRead(reply, n - 1, interfaces);
      SectionSurvives(s, interfaces);
      SectionInterface(s, interfaces);
    }
  }

  lemma CompatibleIdsExactly(reply: seq<byte>, interfaces: set<byte>)
    requires CompatibleReply(reply, interfaces).Ok?
    ensures |CompatibleReply(reply, interfaces).value| <= 255
    ensures CompatibleIdsOk(CompatibleReply(reply, interfaces).value, interfaces) <==> DistinctSections(reply)
  {
    hide CompatibleIdOk, Sections, FromLe32;
    var ids := CompatibleReply(reply, interfaces).value;
    SectionsRead(reply, reply[8], interfaces);
    if CompatibleIdsOk(ids, interfaces) {
      forall i, j | 0 <= i < j < reply[8] as int ensures reply[16 + i * 24] != reply[16 + j * 24] {
        assert ids[i].interface != ids[j].interface;
      }
    }
  }

  lemma SentIsCounted(reply: Reply)
    requires reply.Answer? ==> CanonicalProperties(reply.bytes)
    ensures |Sent(reply)| < 0x1_0000
  {
    if reply.Answer? {
      var n := FromLe16(reply.bytes, 8);
      OsProperty.TakeExact(reply.bytes[10..], n, OsProperty.Take(reply.bytes[10..], n).value);
    }
  }

  lemma {:induction false} SentForIsCounted(script: Script, at: nat, order: seq<byte>, k: byte)
    requires CanonicalAnswers(script, at, |order|)
    ensures |SentFor(script, at, order, k)| < 0x1_0000
  {
    hide CanonicalProperties, Sent;
    if |order| > 0 {
      SentIsCounted(script(at + |order| - 1));
      SentForIsCounted(script, at, order[..|order| - 1], k);
    }
  }

  // The properties of canonical replies are always valid, and fit their counts.
  lemma CanonicalGroups(script: Script, at: nat, interfaces: set<byte>)
    requires CanonicalAnswers(script, at, |Ascending(interfaces)|)
    ensures var ps := PropertiesFrom(script, at, Ascending(interfaces));
            && ps.Ok?
            && PropertiesOk(ps.value, interfaces)
            && GroupsFit(ps.value, interfaces)
            && forall k: byte ::
                 Group(ps.value, interfaces, k) == SentFor(script, at, Ascending(interfaces), k)
  {
    hide CanonicalAnswers, PropertiesFrom, PropertiesOk, Group, SentFor;
    var order := Ascending(interfaces);
    assert forall i :: 0 <= i < |order| ==> order[i] in order;
    GroupsSurvive(script, at, order, interfaces, 0);
    var ps := PropertiesFrom(script, at, order).value;
    forall k: byte
      ensures Group(ps, interfaces, k) == SentFor(script, at, order, k) && |Group(ps, interfaces, k)| < 0x1_0000
    {
      GroupsSurvive(script, at, order, interfaces, k);
      SentForIsCounted(script, at, order, k);
    }
  }

  /**
   A canonical declaration is projectable exactly when its vendor code is not zero and no two function sections name
   the same interface.
   */
  lemma CanonicalProjectable(script: Script, at: nat, vendor: byte, interfaces: set<byte>)
    requires DeclarationFrom(script, at, vendor, interfaces).Ok? && CanonicalReplies(script, at, interfaces)
    ensures Projectable(DeclarationFrom(script, at, vendor, interfaces).value, interfaces)
       <==> vendor != 0 && (script(at).Answer? ==> DistinctSections(script(at).bytes))
  {
    hide CompatibleReply, PropertiesFrom, PropertiesOk, GroupsFit, CompatibleIdsOk, CanonicalAnswers, SentFor, Group;
    hide DistinctSections, CanonicalSections, Ascending;
    CanonicalGroups(script, at + 1, interfaces);
    if script(at).Answer? {
      CompatibleIdsExactly(script(at).bytes, interfaces);
    } else {
      NoSections(interfaces);
    }
  }

  // What is emitted.

  /** The compatible-ID descriptor: the firmware's function sections behind a header. */
  function CompatibleSent(reply: Reply): seq<seq<byte>>
    requires reply.Answer? ==> |reply.bytes| >= 17 && 16 + reply.bytes[8] as int * 24 <= |reply.bytes|
  {
    if !reply.Answer? then []
    else
      var n := reply.bytes[8];
      [Item(reply.bytes[16], OsDescriptors.COMPATIBLE, [n, 0], reply.bytes[16..16 + n as int * 24])]
  }

  /** The properties descriptor of an interface: the firmware's property sections behind a header. */
  function SentItem(k: byte, sent: seq<seq<byte>>): seq<byte>
    requires |sent| < 0x1_0000
  {
    Item(k, OsDescriptors.PROPERTIES, Le16(|sent|), Concat(sent))
  }

  /** One properties descriptor for each interface of `order` that sent any. */
  function SentItems(script: Script, at: nat, order: seq<byte>): seq<seq<byte>>
    requires CanonicalAnswers(script, at, |order|)
  {
    if |order| == 0 then []
    else
      var k, sent := order[|order| - 1], Sent(script(at + |order| - 1));
      SentIsCounted(script(at + |order| - 1));
      SentItems(script, at, order[..|order| - 1]) + if |sent| == 0 then [] else [SentItem(k, sent)]
  }

  /** The interfaces of `order` that sent any property. */
  function Senders(script: Script, at: nat, order: seq<byte>): seq<byte>
    requires CanonicalAnswers(script, at, |order|)
  {
    if |order| == 0 then []
    else
      Senders(script, at, order[..|order| - 1])
      + if |Sent(script(at + |order| - 1))| == 0 then [] else [order[|order| - 1]]
  }

  ghost predicate Rising(order: seq<byte>) {
    forall i, j :: 0 <= i < j < |order| ==> order[i] < order[j]
  }

  lemma FrontRises(order: seq<byte>)
    requires Rising(order) && |order| > 0
    ensures var front, last := order[..|order| - 1], order[|order| - 1];
            && Rising(front)
            && (forall k :: k in front ==> k < last)
            && (forall k :: k in order <==> k in front || k == last)
  {
  }

  lemma RisesPush(order: seq<byte>, last: byte)
    requires Rising(order) && forall k :: k in order ==> k < last
    ensures Rising(order + [last])
  {
    assert forall i :: 0 <= i < |order| ==> order[i] in order;
  }

  lemma {:induction false} SendersRise(script: Script, at: nat, order: seq<byte>)
    requires CanonicalAnswers(script, at, |order|) && Rising(order)
    ensures Rising(Senders(script, at, order))
    ensures forall k :: k in Senders(script, at, order) <==> k in order && SentFor(script, at, order, k) != []
  {
    hide CanonicalProperties, Sent, Rising;
    if |order| == 0 {
      NoneRises();
    } else {
      var front, last := order[..|order| - 1], order[|order| - 1];
      FrontRises(order);
      SendersRise(script, at, front);
      RisesPush(Senders(script, at, front), last);
      assert Senders(script, at, front) + [] == Senders(script, at, front);
    }
  }

  lemma NoneRises()
    ensures Rising([])
  {
  }

  // Rising sequences with the same members are equal.
  lemma RisingUnique(xs: seq<byte>, ys: seq<byte>)
    requires Rising(xs) && Rising(ys) && forall k :: k in xs <==> k in ys
    ensures xs == ys
  {
    var key := (b: byte) => b as int;
    RisingSorted(xs, key);
    RisingSorted(ys, key);
    MultisetOfDistinct(xs);
    MultisetOfDistinct(ys);
    assert (set x | x in xs) == (set y | y in ys);
    SortUnique(xs, ys, key);
  }

  lemma RisingSorted(xs: seq<byte>, key: byte -> int)
    requires Rising(xs) && forall b :: key(b) == b
    ensures Sorted(xs, key) && StrictlySorted(xs, key) && Distinct(xs)
  {
  }

  lemma {:induction false} SentForFront(script: Script, at: nat, order: seq<byte>, n: nat)
    requires CanonicalAnswers(script, at, |order|) && Rising(order) && n < |order|
    ensures CanonicalAnswer(script(at + n)) && SentFor(script, at, order, order[n]) == Sent(script(at + n))
  {
    hide CanonicalProperties, Sent;
    if n < |order| - 1 {
      SentForFront(script, at, order[..|order| - 1], n);
    }
  }

  lemma {:induction false} CanonicalFirst(script: Script, at: nat, n: nat, m: nat)
    requires CanonicalAnswers(script, at, m) && n <= m
    ensures CanonicalAnswers(script, at, n)
  {
    if n < m {
      CanonicalFirst(script, at, n, m - 1);
    }
  }

  // The descriptors of the first `n` interfaces.
  lemma {:induction false} ItemsSent(
    script: Script, at: nat, order: seq<byte>, n: nat, ps: seq<RegistryProperty>, interfaces: set<byte>)
    requires CanonicalAnswers(script, at, |order|) && Rising(order) && n <= |order|
    requires PropertiesOk(ps, interfaces) && GroupsFit(ps, interfaces)
    requires forall k: byte :: Group(ps, interfaces, k) == SentFor(script, at, order, k)
    ensures CanonicalAnswers(script, at, n)
    ensures PropertyItems(ps, interfaces, Senders(script, at, order[..n])) == SentItems(script, at, order[..n])
  {
    hide CanonicalProperties, PropertiesOk, Group, SentFor, GroupsFit, PropertyItems, Sent, SentItems, Senders, Rising;
    hide SentItem, PropertyItem, CanonicalAnswers;
    CanonicalFirst(script, at, n, |order|);
    if n == 0 {
      NoItems(ps, interfaces);
      NothingSent(script, at);
      assert order[..0] == [];
    } else {
      var k, before := order[n - 1], order[..n - 1];
      CanonicalFirst(script, at, n - 1, |order|);
      ItemsSent(script, at, order, n - 1, ps, interfaces);
      assert order[..n] == before + [k];
      SentForFront(script, at, order, n - 1);
      SentPush(script, at, before, k);
      FitsOne(ps, interfaces, k);
      SameItem(ps, interfaces, k, Sent(script(at + n - 1)));
      PushItem(ps, interfaces, Senders(script, at, before), k);
    }
  }

  lemma NothingSent(script: Script, at: nat)
    ensures CanonicalAnswers(script, at, 0) && Senders(script, at, []) == [] && SentItems(script, at, []) == []
  {
  }

  lemma SentPush(script: Script, at: nat, order: seq<byte>, k: byte)
    requires CanonicalAnswers(script, at, |order|) && CanonicalAnswer(script(at + |order|))
    ensures CanonicalAnswers(script, at, |order + [k]|)
    ensures var sent := Sent(script(at + |order|));
            && |sent| < 0x1_0000
            && Senders(script, at, order + [k]) == Senders(script, at, order) + (if |sent| == 0 then [] else [k])
            && SentItems(script, at, order + [k])
               == SentItems(script, at, order) + (if |sent| == 0 then [] else [SentItem(k, sent)])
  {
    hide Sent, CanonicalProperties, SentItem;
    assert (order + [k])[..|order|] == order;
    SentIsCounted(script(at + |order|));
  }

  lemma SameItem(ps: seq<RegistryProperty>, interfaces: set<byte>, k: byte, sent: seq<seq<byte>>)
    requires PropertiesOk(ps, interfaces) && Group(ps, interfaces, k) == sent && |sent| < 0x1_0000
    ensures PropertyItem(ps, interfaces, k) == SentItem(k, sent)
  {
  }

  lemma NoItems(ps: seq<RegistryProperty>, interfaces: set<byte>)
    requires PropertiesOk(ps, interfaces) && GroupsFit(ps, interfaces)
    ensures PropertyItems(ps, interfaces, []) == []
  {
  }

  lemma FitsOne(ps: seq<RegistryProperty>, interfaces: set<byte>, k: byte)
    requires PropertiesOk(ps, interfaces) && GroupsFit(ps, interfaces)
    ensures |Group(ps, interfaces, k)| < 0x1_0000
  {
  }

  lemma PushItem(ps: seq<RegistryProperty>, interfaces: set<byte>, order: seq<byte>, k: byte)
    requires PropertiesOk(ps, interfaces) && GroupsFit(ps, interfaces) && |Group(ps, interfaces, k)| < 0x1_0000
    ensures PropertyItems(ps, interfaces, order + [k])
         == PropertyItems(ps, interfaces, order) + [PropertyItem(ps, interfaces, k)]
  {
    hide PropertiesOk, Group, PropertyItem;
    assert (order + [k])[..|order|] == order;
  }

  lemma SendersNamed(script: Script, at: nat, ps: seq<RegistryProperty>, interfaces: set<byte>)
    requires CanonicalAnswers(script, at, |Ascending(interfaces)|)
    requires PropertiesOk(ps, interfaces)
    requires forall k: byte :: Group(ps, interfaces, k) == SentFor(script, at, Ascending(interfaces), k)
    ensures Senders(script, at, Ascending(interfaces)) == Ascending(Named(ps))
  {
    hide CanonicalAnswers, PropertiesOk, Group, SentFor, Senders;
    var order, named := Ascending(interfaces), Ascending(Named(ps));
    SendersRise(script, at, order);
    forall k: byte ensures k in Senders(script, at, order) <==> k in named {
      UnnamedGroup(ps, interfaces, k);
      if k !in order {
        Unsent(script, at, order, k);
      }
    }
    RisingUnique(Senders(script, at, order), named);
  }

  /**
   Discovery followed by projection keeps canonical firmware data. The declaration is projected exactly when its vendor
   code is not zero and no two function sections name the same interface; then what is emitted is the firmware's
   function sections behind one header, followed by the firmware's property sections of each interface that sent any,
   behind one header each, by ascending interface.
   */
  lemma MicrosoftSurvives(script: Script, at: nat, vendor: byte, interfaces: set<byte>)
    requires DeclarationFrom(script, at, vendor, interfaces).Ok? && CanonicalReplies(script, at, interfaces)
    ensures var projected := ProjectedMicrosoft(Some(DeclarationFrom(script, at, vendor, interfaces).value), interfaces);
            if vendor != 0 && (script(at).Answer? ==> DistinctSections(script(at).bytes)) then
              && (script(at).Answer? ==> |script(at).bytes| >= 17)
              && projected == Ok((
                   Some(Microsoft(vendor, SIGNATURE)),
                   Concat(CompatibleSent(script(at)) + SentItems(script, at + 1, Ascending(interfaces)))))
            else projected == Err(Invalid)
  {
    hide CanonicalAnswers, PropertiesOk, GroupsFit, CompatibleIdsOk, PropertiesFrom, Group, SentFor, Concat, Item;
    hide DistinctSections, CanonicalSections, Ascending, PropertyItems, SentItems, Senders, CompatibleItems, Sections;
    var m, order := DeclarationFrom(script, at, vendor, interfaces).value, Ascending(interfaces);
    CanonicalProjectable(script, at, vendor, interfaces);
    if Projectable(m, interfaces) {
      PartsSurvive(script, at, vendor, interfaces);
      CanonicalGroups(script, at + 1, interfaces);
      SendersNamed(script, at + 1, m.registryProperties, interfaces);
      OrderRises(interfaces);
      ItemsSent(script, at + 1, order, |order|, m.registryProperties, interfaces);
      assert order[..|order|] == order;
    }
  }

  lemma OrderRises(interfaces: set<byte>)
    ensures Rising(Ascending(interfaces))
  {
  }
}
