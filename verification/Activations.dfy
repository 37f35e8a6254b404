/** How many times a generation's endpoints were freshly enabled, read off its bus events. */
module Activations {
  import opened Bytes
  import opened Protocol

  /** Events after which the endpoints are disabled. */
  predicate Resets(e: BusEvent) {
    e in {Bind, Unbind, Disable}
  }

  /** An Enable not preceded by another Enable since the last Bind, Unbind or Disable. */
  ghost predicate IsFresh(h: seq<BusEvent>, i: int) {
    && 0 <= i < |h|
    && h[i] == Enable
    && forall j :: 0 <= j < i && h[j] == Enable ==> exists k :: j < k < i && Resets(h[k])
  }

  ghost function FreshAt(h: seq<BusEvent>): set<int> {
    set i | 0 <= i < |h| && IsFresh(h, i)
  }

  ghost function FreshEnables(h: seq<BusEvent>): nat {
    |FreshAt(h)|
  }

  /** The last Enable has not been followed by a reset. */
  ghost predicate Enabled(h: seq<BusEvent>) {
    exists j :: 0 <= j < |h| && h[j] == Enable && forall k :: j < k < |h| ==> !Resets(h[k])
  }

  lemma NothingEnabled()
    ensures FreshEnables([]) == 0 && !Enabled([])
  {
    assert FreshAt([]) == {};
  }

  // Earlier events are fresh or not whatever follows.
  lemma FreshEarlier(h: seq<BusEvent>, e: BusEvent, i: nat)
    requires i < |h|
    ensures IsFresh(h + [e], i) <==> IsFresh(h, i)
  {
    var g := h + [e];
    assert forall k :: 0 <= k < |h| ==> g[k] == h[k];
    if IsFresh(h, i) {
      forall j | 0 <= j < i && g[j] == Enable ensures exists k :: j < k < i && Resets(g[k]) {
        assert h[j] == Enable;
        var k :| j < k < i && Resets(h[k]);
        assert Resets(g[k]);
      }
    }
    if IsFresh(g, i) {
      forall j | 0 <= j < i && h[j] == Enable ensures exists k :: j < k < i && Resets(h[k]) {
        assert g[j] == Enable;
        var k :| j < k < i && Resets(g[k]);
        assert Resets(h[k]);
      }
    }
  }

  lemma FreshLast(h: seq<BusEvent>, e: BusEvent)
    ensures IsFresh(h + [e], |h|) <==> e == Enable && !Enabled(h)
  {
    var g := h + [e];
    assert forall k :: 0 <= k < |h| ==> g[k] == h[k];
    if e == Enable && Enabled(h) {
      var j :| 0 <= j < |h| && h[j] == Enable && forall k :: j < k < |h| ==> !Resets(h[k]);
      assert g[j] == Enable;
    }
    if e == Enable && !Enabled(h) {
      forall j | 0 <= j < |h| && g[j] == Enable ensures exists k :: j < k < |h| && Resets(g[k]) {
        assert h[j] == Enable;
        var k :| j < k < |h| && Resets(h[k]);
        assert Resets(g[k]);
      }
    }
  }

  lemma EnabledPush(h: seq<BusEvent>, e: BusEvent)
    ensures Enabled(h + [e]) <==> e == Enable || (Enabled(h) && !Resets(e))
  {
    var g := h + [e];
    assert forall k :: 0 <= k < |h| ==> g[k] == h[k];
    if e == Enable {
      assert g[|h|] == Enable;
    } else {
      if Enabled(h) && !Resets(e) {
        var j :| 0 <= j < |h| && h[j] == Enable && forall k :: j < k < |h| ==> !Resets(h[k]);
        assert g[j] == Enable && forall k :: j < k < |g| ==> !Resets(g[k]);
      }
      if Enabled(g) {
        EnabledBefore(h, e);
      }
    }
  }

  lemma EnabledBefore(h: seq<BusEvent>, e: BusEvent)
    requires Enabled(h + [e]) && e != Enable
    ensures Enabled(h) && !Resets(e)
  {
    var g := h + [e];
    var j :| 0 <= j < |g| && g[j] == Enable && forall k :: j < k < |g| ==> !Resets(g[k]);
    assert g[|h|] == e;
    assert h[j] == Enable && forall k :: j < k < |h| ==> !Resets(h[k]) by {
      assert forall k :: 0 <= k < |h| ==> g[k] == h[k];
    }
  }

  /** One more event: the count grows exactly with an Enable while the endpoints are not enabled. */
  lemma FreshPush(h: seq<BusEvent>, e: BusEvent)
    ensures FreshEnables(h + [e]) == FreshEnables(h) + if e == Enable && !Enabled(h) then 1 else 0
    ensures Enabled(h + [e]) <==> e == Enable || (Enabled(h) && !Resets(e))
  {
    hide IsFresh, Enabled;
    EnabledPush(h, e);
    FreshLast(h, e);
    var g := h + [e];
    forall i | 0 <= i < |h| ensures IsFresh(g, i) <==> IsFresh(h, i) {
      FreshEarlier(h, e, i);
    }
    if IsFresh(g, |h|) {
      assert FreshAt(g) == FreshAt(h) + {|h|};
    } else {
      assert FreshAt(g) == FreshAt(h);
    }
  }

  /** Suspend, Resume and a repeated Enable leave the count unchanged. */
  lemma QuietEvents(h: seq<BusEvent>, e: BusEvent)
    requires e in {Suspend, Resume} || (e == Enable && Enabled(h))
    ensures FreshEnables(h + [e]) == FreshEnables(h)
    ensures Enabled(h + [e]) == Enabled(h)
  {
    FreshPush(h, e);
  }

  lemma {:induction false} FreshPrefix(h: seq<BusEvent>, g: seq<BusEvent>, i: nat)
    requires h <= g && i < |h|
    ensures IsFresh(g, i) <==> IsFresh(h, i)
  {
    if |h| < |g| {
      var front := g[..|g| - 1];
      FreshPrefix(h, front, i);
      FreshEarlier(front, g[|g| - 1], i);
      assert front + [g[|g| - 1]] == g;
    } else {
      assert h == g;
    }
  }

  // The count over a prefix, within the whole.
  lemma FreshWithin(h: seq<BusEvent>, g: seq<BusEvent>)
    requires h <= g
    ensures FreshAt(h) == set i | 0 <= i < |h| && IsFresh(g, i)
    ensures FreshEnables(h) <= FreshEnables(g)
    ensures (forall i :: |h| <= i < |g| ==> !IsFresh(g, i)) ==> FreshEnables(h) == FreshEnables(g)
  {
    hide IsFresh;
    forall i | 0 <= i < |h| ensures IsFresh(g, i) <==> IsFresh(h, i) {
      FreshPrefix(h, g, i);
    }
    assert FreshAt(h) <= FreshAt(g);
    Subset(FreshAt(h), FreshAt(g));
    if forall i :: |h| <= i < |g| ==> !IsFresh(g, i) {
      assert FreshAt(g) == FreshAt(h);
    }
  }

  lemma Subset(a: set<int>, b: set<int>)
    requires a <= b
    ensures |a| <= |b|
  {
    assert b == a + (b - a);
    assert |a + (b - a)| == |a| + |b - a|;
  }

  /** A number larger than the one observed means that a fresh enable has come since. */
  lemma LargerMeansFreshEnable(events: seq<BusEvent>, k: nat, m: nat)
    requires k <= |events| && m <= |events| && FreshEnables(events[..m]) > FreshEnables(events[..k])
    ensures exists i :: k <= i < m && IsFresh(events, i)
  {
    hide IsFresh;
    if m < k {
      assert events[..m] <= events[..k];
      FreshWithin(events[..m], events[..k]);
    } else {
      var h, g := events[..k], events[..m];
      FreshWithin(h, g);
      var i :| k <= i < m && IsFresh(g, i);
      FreshPrefix(g, events, i);
    }
  }
}
