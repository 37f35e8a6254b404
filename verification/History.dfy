/** What a safe run means over time: each statement relates events of one run, however far apart. */
module History {
  import opened Bytes
  import opened Protocol
  import opened Activations
  import opened Kernel

  /** The state before event `n` of a run. */
  function At(setting: Setting, trace: seq<Event>, n: nat): State
    requires n <= |trace|
  {
    After(setting.remains, trace[..n])
  }

  lemma {:induction false} SafePrefix(setting: Setting, trace: seq<Event>, n: nat)
    requires Safe(setting, trace) && n <= |trace|
    ensures Safe(setting, trace[..n])
  {
    hide Allowed, Step;
    if n == |trace| {
      assert trace[..n] == trace;
    } else {
      SafePrefix(setting, trace[..|trace| - 1], n);
      assert trace[..|trace| - 1][..n] == trace[..n];
    }
  }

  // Each event was allowed, and took effect.
  lemma EventAt(setting: Setting, trace: seq<Event>, n: nat)
    requires Safe(setting, trace) && n < |trace|
    ensures Allowed(setting.plans, At(setting, trace, n), trace[n])
    ensures At(setting, trace, n + 1) == Step(At(setting, trace, n), trace[n])
  {
    hide Allowed, Step;
    SafePrefix(setting, trace, n + 1);
    assert trace[..n + 1][..n] == trace[..n];
  }

  // Endpoint files.

  /** The worker has closed the files of generation `g`: it said so, or it is gone. */
  predicate Releases(e: Event, g: nat) {
    e.Reap? || (e.Hear? && Answers(e.message, Reply(Quiesced, g, e.message.requestId)))
  }

  lemma {:induction false} LentUntilReleased(setting: Setting, trace: seq<Event>, j: nat, n: nat)
    requires Safe(setting, trace) && j < n <= |trace| && trace[j].Lend?
    requires forall k :: j < k < n ==> !Releases(trace[k], trace[j].generation)
    ensures At(setting, trace, n).session.lent
    ensures At(setting, trace, n).session.loan == Some(Loan(trace[j].generation, trace[j].request))
  {
    hide Step, Allowed, Releases;
    var s, e := At(setting, trace, n - 1), trace[n - 1];
    EventAt(setting, trace, n - 1);
    LoanStep(s, e);
    LentStep(s, e);
    if n - 1 > j {
      LentUntilReleased(setting, trace, j, n - 1);
      if NewLoan(e) {
        LoanAllowed(setting.plans, s, e);
      }
    }
  }

  lemma LentStep(s: State, e: Event)
    ensures e.Lend? ==> Step(s, e).session.lent
    ensures s.session.lent && s.session.loan.Some? && !Releases(e, s.session.loan.value.generation) ==>
              Step(s, e).session.lent
  {
    hide TreeAfter, SettingsAfter, MountPointAfter, MountedAfter, BoundAfter, NowAfter, DetachedAfter, OpenAfter;
    hide BlobsAfter, TransferAfter, HistoryAfter, UnreadAfter, WorkerAfter, ChannelAfter, LimitedAfter;
    hide GenerationAfter, AskedAfter, LoanAfter, ServingAfter, ReplacingAfter, OwedAfter, DeclaredAfter, AnswerAfter;
    hide LastRequestAfter, ServingLimitedAfter;
  }

  // A new loan is made only when nothing is lent.
  lemma LoanAllowed(plans: Plans, s: State, e: Event)
    requires Allowed(plans, s, e) && NewLoan(e)
    ensures !s.session.lent
  {
    hide FreshEnables, Removable, Rooted, Fits, EndpointMapOf, Carries;
  }

  lemma {:induction false} OpenUntilClosed(setting: Setting, trace: seq<Event>, j: nat, n: nat)
    requires Safe(setting, trace) && j < n <= |trace| && trace[j].Open?
    requires forall k :: j < k < n ==> !trace[k].Close?
    ensures At(setting, trace, n).files.open.Some?
  {
    hide Step, Allowed;
    EventAt(setting, trace, n - 1);
    OpenStep(At(setting, trace, n - 1), trace[n - 1]);
    if n - 1 > j {
      OpenUntilClosed(setting, trace, j, n - 1);
    }
  }

  lemma OpenStep(s: State, e: Event)
    ensures e.Open? || (s.files.open.Some? && !e.Close?) ==> Step(s, e).files.open.Some?
  {
    hide TreeAfter, SettingsAfter, MountPointAfter, MountedAfter, BoundAfter, NowAfter, DetachedAfter, BlobsAfter;
    hide TransferAfter, HistoryAfter, UnreadAfter, WorkerAfter, ChannelAfter, LimitedAfter, GenerationAfter;
    hide AskedAfter, LoanAfter, LentAfter, ServingAfter, ReplacingAfter, OwedAfter, DeclaredAfter, AnswerAfter;
    hide LastRequestAfter, ServingLimitedAfter;
  }

  /**
   When FunctionFS is unmounted nobody holds an endpoint file: for every generation lent before, the worker has answered
   Quiesced for it or been reaped, and the supervisor has closed every file it had opened.
   */
  lemma UnmountedUnheld(setting: Setting, trace: seq<Event>, i: nat, j: nat)
    requires Safe(setting, trace) && j < i < |trace| && trace[i].Unmount?
    ensures trace[j].Lend? ==> exists k :: j < k < i && Releases(trace[k], trace[j].generation)
    ensures trace[j].Open? ==> exists k :: j < k < i && trace[k].Close?
  {
    hide Step, Releases;
    EventAt(setting, trace, i);
    if trace[j].Lend? && forall k :: j < k < i ==> !Releases(trace[k], trace[j].generation) {
      LentUntilReleased(setting, trace, j, i);
    }
    if trace[j].Open? && forall k :: j < k < i ==> !trace[k].Close? {
      OpenUntilClosed(setting, trace, j, i);
    }
  }

  // Attaching.

  /** Events that end the loan of a generation. */
  predicate NewLoan(e: Event) {
    e.Lend? || e.Start?
  }

  // Where the current loan, and the report of serving it, come from.
  lemma {:induction false} LoanOrigin(setting: Setting, trace: seq<Event>, n: nat) returns (a: nat, b: nat)
    requires Safe(setting, trace) && n <= |trace| && At(setting, trace, n).session.loan.Some?
    ensures a < n && trace[a].Lend?
            && At(setting, trace, n).session.loan == Some(Loan(trace[a].generation, trace[a].request))
    ensures forall k :: a < k < n ==> !NewLoan(trace[k])
    ensures At(setting, trace, n).session.serving ==>
              && a < b < n && trace[b].Hear?
              && Answers(trace[b].message, Reply(Serving, trace[a].generation, trace[a].request))
  {
    hide Allowed, Answers, Step;
    a, b := 0, 0;
    if n > 0 {
      EventAt(setting, trace, n - 1);
      var s, e := At(setting, trace, n - 1), trace[n - 1];
      LoanStep(s, e);
      ServingStep(s, e);
      if e.Lend? {
        a := n - 1;
      } else {
        a, b := LoanOrigin(setting, trace, n - 1);
        if Step(s, e).session.serving && !s.session.serving {
          b := n - 1;
        }
      }
    }
  }

  lemma LoanStep(s: State, e: Event)
    ensures e.Lend? ==> Step(s, e).session.loan == Some(Loan(e.generation, e.request))
    ensures e.Start? ==> Step(s, e).session.loan.None?
    ensures !NewLoan(e) ==> Step(s, e).session.loan == s.session.loan
  {
    hide TreeAfter, SettingsAfter, MountPointAfter, MountedAfter, BoundAfter, NowAfter, DetachedAfter, OpenAfter;
    hide BlobsAfter, TransferAfter, HistoryAfter, UnreadAfter, WorkerAfter, ChannelAfter, LimitedAfter;
    hide GenerationAfter, AskedAfter, LentAfter, ServingAfter, ReplacingAfter, OwedAfter, DeclaredAfter, AnswerAfter;
    hide LastRequestAfter, ServingLimitedAfter;
  }

  lemma ServingStep(s: State, e: Event)
    ensures NewLoan(e) ==> !Step(s, e).session.serving
    ensures !e.Hear? && !NewLoan(e) ==> Step(s, e).session.serving == s.session.serving
    ensures e.Hear? && Step(s, e).session.serving && !s.session.serving ==>
              ReportsServing(s.session.loan, e.message)
  {
    hide TreeAfter, SettingsAfter, MountPointAfter, MountedAfter, BoundAfter, NowAfter, DetachedAfter, OpenAfter;
    hide BlobsAfter, TransferAfter, HistoryAfter, UnreadAfter, WorkerAfter, ChannelAfter, LimitedAfter;
    hide GenerationAfter, AskedAfter, LoanAfter, LentAfter, ReplacingAfter, OwedAfter, DeclaredAfter, AnswerAfter;
    hide LastRequestAfter, ServingLimitedAfter;
  }

  /**
   The gadget is only ever attached for a generation whose files the worker has received and then reported to serve,
   under the generation's own number and request, with no other generation in between.
   */
  lemma AttachAcknowledged(setting: Setting, trace: seq<Event>, i: nat)
    requires Safe(setting, trace) && i < |trace| && trace[i].Attach?
    ensures exists a, b ::
              && 0 <= a < b < i
              && trace[a].Lend?
              && trace[b].Hear?
              && Answers(trace[b].message, Reply(Serving, trace[a].generation, trace[a].request))
              && At(setting, trace, i + 1).gadget.bound == Attached(trace[a].generation, trace[a].request)
              && forall k :: a < k < i ==> !NewLoan(trace[k])
  {
    hide Answers, NewLoan;
    EventAt(setting, trace, i);
    var a, b := LoanOrigin(setting, trace, i);
    assert a < b < i;
  }

  /** Events that detach the gadget. */
  predicate Detaches(e: Event) {
    e.Detach? || e == Remove(FunctionLink) || e.Adopt?
  }

  lemma BoundStep(s: State, e: Event)
    ensures !e.Attach? && !Detaches(e) ==> Step(s, e).gadget.bound == s.gadget.bound
    ensures Detaches(e) ==> !Step(s, e).gadget.bound.Attached?
  {
    hide TreeAfter, SettingsAfter, MountPointAfter, MountedAfter, NowAfter, DetachedAfter, OpenAfter, BlobsAfter;
    hide TransferAfter, HistoryAfter, UnreadAfter, WorkerAfter, ChannelAfter, LimitedAfter, GenerationAfter;
    hide AskedAfter, LoanAfter, LentAfter, ServingAfter, ReplacingAfter, OwedAfter, DeclaredAfter, AnswerAfter;
    hide LastRequestAfter, ServingLimitedAfter;
  }

  // A new loan is made, and a worker started, only while nothing is bound.
  lemma NewLoanUnbound(plans: Plans, s: State, e: Event)
    requires Allowed(plans, s, e) && NewLoan(e)
    ensures s.gadget.bound == Unbound
  {
    hide FreshEnables, Removable, Rooted, Fits, EndpointMapOf, Carries;
  }

  /** Nothing is bound when a worker is started, or when files are lent. */
  lemma UnboundAtStart(setting: Setting, trace: seq<Event>, i: nat)
    requires Safe(setting, trace) && i < |trace| && (trace[i].Start? || trace[i].Lend?)
    ensures At(setting, trace, i).gadget.bound == Unbound
  {
    hide Step, Allowed;
    EventAt(setting, trace, i);
    NewLoanUnbound(setting.plans, At(setting, trace, i), trace[i]);
  }

  // While the gadget is bound, the attach that bound it is the last change of binding or of loan.
  lemma {:induction false} BoundByAttach(setting: Setting, trace: seq<Event>, n: nat) returns (c: nat)
    requires Safe(setting, trace) && n <= |trace| && At(setting, trace, n).gadget.bound.Attached?
    ensures c < n && trace[c].Attach?
    ensures At(setting, trace, c + 1).gadget.bound == At(setting, trace, n).gadget.bound
    ensures forall k :: c < k < n ==> !Detaches(trace[k]) && !trace[k].Attach? && !NewLoan(trace[k])
  {
    hide Step, Detaches, Allowed, NewLoan;
    c := 0;
    if n > 0 {
      EventAt(setting, trace, n - 1);
      var s, e := At(setting, trace, n - 1), trace[n - 1];
      BoundStep(s, e);
      if e.Attach? {
        c := n - 1;
      } else {
        c := BoundByAttach(setting, trace, n - 1);
        if NewLoan(e) {
          NewLoanUnbound(setting.plans, s, e);
        }
      }
    }
  }

  // The lending, the report and the attach behind a binding.
  lemma BoundOrigin(setting: Setting, trace: seq<Event>, n: nat) returns (a: nat, b: nat, c: nat)
    requires Safe(setting, trace) && n <= |trace| && At(setting, trace, n).gadget.bound.Attached?
    ensures a < b < c < n && trace[a].Lend? && trace[b].Hear? && trace[c].Attach?
    ensures At(setting, trace, n).gadget.bound == Attached(trace[a].generation, trace[a].request)
    ensures Answers(trace[b].message, Reply(Serving, trace[a].generation, trace[a].request))
    ensures forall k :: a < k < n ==> !NewLoan(trace[k])
    ensures forall k :: c < k < n ==> !Detaches(trace[k])
  {
    hide Answers, NewLoan, Detaches, Step, Allowed, After;
    c := BoundByAttach(setting, trace, n);
    EventAt(setting, trace, c);
    AttachBinds(setting.plans, At(setting, trace, c), trace[c]);
    a, b := LoanOrigin(setting, trace, c);
  }

  lemma AttachBinds(plans: Plans, s: State, e: Event)
    requires Allowed(plans, s, e) && e.Attach?
    ensures !NewLoan(e) && s.session.serving && s.session.loan.Some? && s.session.lent && s.files.open.Some?
    ensures Step(s, e).gadget.bound == Attached(s.session.loan.value.generation, s.session.loan.value.request)
  {
    hide FreshEnables, Removable, Rooted, Fits, EndpointMapOf, Carries;
  }

  // A binding is for the current generation.
  lemma BoundCurrent(setting: Setting, trace: seq<Event>, n: nat)
    requires Plausible(setting.remains) && Safe(setting, trace) && n <= |trace|
    requires At(setting, trace, n).gadget.bound.Attached?
    ensures var s := At(setting, trace, n);
            s.session.loan == Some(Loan(s.gadget.bound.generation, s.gadget.bound.request))
            && s.session.generation == s.gadget.bound.generation
  {
    hide Step, Allowed, Plausible;
    SafePrefix(setting, trace, n);
    SafeIsSound(setting, trace[..n]);
  }

  /**
   At every moment of every run: while the gadget is bound for a generation and request, that generation is the current
   one; its files were lent to the worker, the worker then reported Serving for it and its request, the gadget was
   attached after that, and since the lending no other files were lent and no worker started.
   */
  lemma BoundAcknowledged(setting: Setting, trace: seq<Event>, n: nat)
    requires Plausible(setting.remains) && Safe(setting, trace) && n <= |trace|
    requires At(setting, trace, n).gadget.bound.Attached?
    ensures var s := At(setting, trace, n);
            s.session.loan == Some(Loan(s.gadget.bound.generation, s.gadget.bound.request))
            && s.session.generation == s.gadget.bound.generation
    ensures exists a, b, c ::
              && 0 <= a < b < c < n
              && trace[a].Lend?
              && At(setting, trace, n).gadget.bound == Attached(trace[a].generation, trace[a].request)
              && trace[b].Hear?
              && Answers(trace[b].message, Reply(Serving, trace[a].generation, trace[a].request))
              && trace[c].Attach?
              && (forall k :: a < k < n ==> !NewLoan(trace[k]))
              && (forall k :: c < k < n ==> !Detaches(trace[k]))
  {
    hide Answers, NewLoan, Safe, After, Detaches, Plausible;
    BoundCurrent(setting, trace, n);
    var a, b, c := BoundOrigin(setting, trace, n);
  }

  // What is attached.

  lemma WritesAllowed(plans: Plans, s: State, e: Event)
    requires Allowed(plans, s, e)
    ensures e.Write? || e.Make? || e.Open? ==> !s.session.lent
  {
    hide FreshEnables, Removable, Rooted, Fits, EndpointMapOf, Carries;
  }

  lemma WritesStep(s: State, e: Event)
    ensures !e.Write? && !e.Make? ==> Step(s, e).settings == s.settings
    ensures !e.Open? ==> Step(s, e).files.blobs == s.files.blobs
    ensures !e.Open? && Step(s, e).files.open.Some? ==> Step(s, e).files.open == s.files.open
    ensures Step(s, e).session.lent && !e.Lend? ==> s.session.lent
  {
    hide TreeAfter, MountPointAfter, MountedAfter, BoundAfter, NowAfter, DetachedAfter, TransferAfter, HistoryAfter;
    hide UnreadAfter, WorkerAfter, ChannelAfter, LimitedAfter, GenerationAfter, AskedAfter, LoanAfter, ServingAfter;
    hide ReplacingAfter, OwedAfter, DeclaredAfter, AnswerAfter, LastRequestAfter, ServingLimitedAfter;
  }

  // While a loan lasts and its files stay open, neither the attributes nor the files nor the blobs change.
  lemma {:induction false} LoanKeepsGadget(setting: Setting, trace: seq<Event>, a: nat, n: nat)
    requires Safe(setting, trace) && a < n <= |trace| && trace[a].Lend?
    requires forall k :: a < k < n ==> !NewLoan(trace[k])
    requires At(setting, trace, n).session.lent && At(setting, trace, n).files.open.Some?
    ensures var was, s := At(setting, trace, a), At(setting, trace, n);
            s.settings == was.settings && s.files.blobs == was.files.blobs && s.files.open == was.files.open
  {
    hide Step, Allowed, Rooted;
    var s, e := At(setting, trace, n - 1), trace[n - 1];
    EventAt(setting, trace, n - 1);
    WritesStep(s, e);
    WritesAllowed(setting.plans, s, e);
    if n - 1 > a {
      LoanKeepsGadget(setting, trace, a, n - 1);
    }
  }

  /**
   Whenever the gadget is attached, what the host sees is one declaration's personality: the declaration was taken up, the
   worker was lent the endpoints of its personality, and the gadget still has that personality's attributes, descriptor
   and string blobs and endpoint files.
   */
  lemma AttachedAsDeclared(setting: Setting, trace: seq<Event>, i: nat)
    requires Safe(setting, trace) && i < |trace| && trace[i].Attach?
    ensures exists d, a ::
              && 0 <= d < a < i
              && trace[d].Ask? && trace[a].Lend? && trace[d].declaration.requestId == trace[a].request
              && LentFor(At(setting, trace, i), trace[a], setting.plans(trace[d].declaration.body))
              && At(setting, trace, i + 1).gadget.bound == Attached(trace[a].generation, trace[a].request)
  {
    hide Step, Allowed, Carries, Answers, EndpointMapOf, Fits, Disposes, NewLoan;
    EventAt(setting, trace, i);
    AttachBinds(setting.plans, At(setting, trace, i), trace[i]);
    var a, b := LoanOrigin(setting, trace, i);
    LoanKeepsGadget(setting, trace, a, i);
    AnswersMatchDeclarations(setting, trace, a);
    var d :| 0 <= d < a && trace[d].Ask? && trace[d].declaration.requestId == trace[a].request
             && LentFor(At(setting, trace, a), trace[a], setting.plans(trace[d].declaration.body));
    CarriesOn(At(setting, trace, a), At(setting, trace, i), trace[a], setting.plans(trace[d].declaration.body));
  }

  lemma CarriesOn(was: State, s: State, e: Event, plan: Option<Plan>)
    requires e.Lend? && LentFor(was, e, plan)
    requires s.settings == was.settings && s.files.blobs == was.files.blobs && s.files.open == was.files.open
    ensures LentFor(s, e, plan)
  {
  }

  // The reconnect dwell.

  // After an unbind: it was long enough ago, or it or a later one is still accounted for, or an empty Configure came.
  lemma {:induction false} DwellKept(setting: Setting, trace: seq<Event>, j: nat, n: nat)
    requires Safe(setting, trace) && j < n <= |trace| && trace[j].Detach?
    requires forall k :: j < k < n ==> !trace[k].Emptied?
    ensures var was, s := At(setting, trace, j), At(setting, trace, n);
            && s.clock.now >= was.clock.now
            && (|| s.clock.now >= was.clock.now + 250
                || (s.clock.detached.Some? && s.clock.detached.value.at >= was.clock.now))
  {
    hide Step, Allowed;
    var s, e := At(setting, trace, n - 1), trace[n - 1];
    EventAt(setting, trace, n - 1);
    DetachedStep(s, e);
    if n - 1 > j {
      DwellKept(setting, trace, j, n - 1);
      if e.Attach? {
        AttachAllowed(setting.plans, s, e);
      }
    }
  }

  lemma AttachAllowed(plans: Plans, s: State, e: Event)
    requires Allowed(plans, s, e) && e.Attach?
    ensures s.clock.detached.Some? ==> s.clock.now >= s.clock.detached.value.at + 250
  {
  }

  /** Every bind after a successful unbind comes at least 250 ms later, unless an empty Configure came in between. */
  lemma DwellBetweenUnbindAndBind(setting: Setting, trace: seq<Event>, i: nat, j: nat)
    requires Safe(setting, trace) && j < i < |trace| && trace[j].Detach? && trace[i].Attach?
    ensures || At(setting, trace, i).clock.now >= At(setting, trace, j).clock.now + 250
            || exists k :: j < k < i && trace[k].Emptied?
  {
    hide Step;
    EventAt(setting, trace, i);
    if forall k :: j < k < i ==> !trace[k].Emptied? {
      DwellKept(setting, trace, j, i);
    }
  }

  lemma DetachedStep(s: State, e: Event)
    ensures e.Detach? ==> Step(s, e).clock.detached == Some(Moment(s.clock.now, s.clock.now + e.delay))
    ensures e.Attach? || e.Emptied? ==> Step(s, e).clock.detached.None?
    ensures !e.Detach? && !e.Attach? && !e.Emptied? ==> Step(s, e).clock.detached == s.clock.detached
    ensures Step(s, e).clock.now >= s.clock.now
  {
    hide TreeAfter, SettingsAfter, MountPointAfter, MountedAfter, BoundAfter, OpenAfter, BlobsAfter, TransferAfter;
    hide HistoryAfter, UnreadAfter, WorkerAfter, ChannelAfter, LimitedAfter, GenerationAfter, AskedAfter, LoanAfter;
    hide LentAfter, ServingAfter, ReplacingAfter, OwedAfter, DeclaredAfter, AnswerAfter, LastRequestAfter;
    hide ServingLimitedAfter;
  }

  lemma {:induction false} DetachedOrigin(setting: Setting, trace: seq<Event>, n: nat) returns (j: nat)
    requires Safe(setting, trace) && n <= |trace| && At(setting, trace, n).clock.detached.Some?
    ensures j < n && trace[j].Detach?
    ensures var since := At(setting, trace, j).clock.now;
            At(setting, trace, n).clock.detached == Some(Moment(since, since + trace[j].delay))
    ensures forall k :: j < k < n ==> !trace[k].Attach? && !trace[k].Emptied?
  {
    hide Step, Allowed;
    j := 0;
    if n > 0 {
      EventAt(setting, trace, n - 1);
      DetachedStep(At(setting, trace, n - 1), trace[n - 1]);
      if trace[n - 1].Detach? {
        j := n - 1;
      } else {
        j := DetachedOrigin(setting, trace, n - 1);
      }
    }
  }

  /**
   The supervisor sleeps only to complete the dwell of an unbind that no bind and no empty Configure has followed: the
   first bind, and a bind after an empty Configure, add no sleep.
   */
  lemma SleepCompletesDwell(setting: Setting, trace: seq<Event>, i: nat)
    requires Safe(setting, trace) && i < |trace| && trace[i].Sleep?
    ensures exists j ::
              && 0 <= j < i
              && trace[j].Detach?
              && At(setting, trace, i + 1).clock.now == At(setting, trace, j).clock.now + trace[j].delay + 250
              && forall k :: j < k < i ==> !trace[k].Attach? && !trace[k].Emptied?
  {
    EventAt(setting, trace, i);
    var j := DetachedOrigin(setting, trace, i);
  }

  // The control channel.

  lemma RequestStep(plans: Plans, s: State, e: Event)
    requires Allowed(plans, s, e)
    ensures Step(s, e).ledger.lastRequest >= s.ledger.lastRequest
    ensures e.Request? ==> Step(s, e).ledger.lastRequest == e.request > s.ledger.lastRequest
  {
    hide Step, Allowed;
    LastRequestStep(s, e);
    if e.Request? {
      RequestAllowed(plans, s, e);
    }
  }

  lemma LastRequestStep(s: State, e: Event)
    ensures Step(s, e).ledger.lastRequest == if e.Request? then e.request else s.ledger.lastRequest
  {
    hide TreeAfter, SettingsAfter, MountPointAfter, MountedAfter, BoundAfter, NowAfter, DetachedAfter, OpenAfter;
    hide BlobsAfter, TransferAfter, HistoryAfter, UnreadAfter, WorkerAfter, ChannelAfter, LimitedAfter;
    hide GenerationAfter, AskedAfter, LoanAfter, LentAfter, ServingAfter, ReplacingAfter, OwedAfter, DeclaredAfter;
    hide AnswerAfter, ServingLimitedAfter;
  }

  lemma RequestAllowed(plans: Plans, s: State, e: Event)
    requires Allowed(plans, s, e) && e.Request?
    ensures e.request > s.ledger.lastRequest
  {
  }

  lemma {:induction false} RequestsGrow(setting: Setting, trace: seq<Event>, j: nat, n: nat)
    requires Safe(setting, trace) && j < n <= |trace| && trace[j].Request?
    ensures At(setting, trace, n).ledger.lastRequest >= trace[j].request
  {
    hide Step, Allowed;
    EventAt(setting, trace, n - 1);
    RequestStep(setting.plans, At(setting, trace, n - 1), trace[n - 1]);
    if n - 1 > j {
      RequestsGrow(setting, trace, j, n - 1);
    }
  }

  /** Control requests carry strictly increasing IDs, across generations and worker restarts. */
  lemma RequestIdsNeverRepeat(setting: Setting, trace: seq<Event>, i: nat, j: nat)
    requires Safe(setting, trace) && j < i < |trace| && trace[j].Request? && trace[i].Request?
    ensures trace[j].request < trace[i].request
  {
    hide Step, Allowed;
    EventAt(setting, trace, i);
    RequestStep(setting.plans, At(setting, trace, i), trace[i]);
    RequestsGrow(setting, trace, j, i);
  }

  /** What a sent record expects in return. */
  function Expected(e: Event): Option<Reply> {
    match e
    case Lend(g, r, _, _, _) => Some(Reply(Serving, g, r))
    case Quiesce(g, r) => Some(Reply(Quiesced, g, r))
    case Request(g, r, _) => Some(Reply(UsbControlResponse, g, r))
    case _ => None
  }

  /** A reply has been heard, or the channel it was owed on has been closed. */
  predicate Settles(e: Event, r: Reply) {
    e.Hangup? || (e.Hear? && Answers(e.message, r))
  }

  lemma OwedStep(s: State, e: Event, r: Reply)
    ensures Expected(e) == Some(r) ==> r in Step(s, e).ledger.owed
    ensures r in s.ledger.owed && !Settles(e, r) && !e.Start? ==> r in Step(s, e).ledger.owed
    ensures Step(s, e).process.channel == if e.Start? then true else if e.Hangup? then false else s.process.channel
  {
    hide Answers, Unanswered;
    hide TreeAfter, SettingsAfter, MountPointAfter, MountedAfter, BoundAfter, NowAfter, DetachedAfter, OpenAfter;
    hide BlobsAfter, TransferAfter, HistoryAfter, UnreadAfter, WorkerAfter, LimitedAfter, GenerationAfter;
    hide AskedAfter, LoanAfter, LentAfter, ServingAfter, ReplacingAfter, DeclaredAfter, AnswerAfter;
    hide LastRequestAfter, ServingLimitedAfter;
    if e.Hear? && r in s.ledger.owed && !Settles(e, r) {
      StillOwed(s.ledger.owed, e.message, r);
    }
  }

  lemma StillOwed(owed: set<Reply>, m: Message, r: Reply)
    requires r in owed && !Answers(m, r)
    ensures r in Unanswered(owed, m)
  {
  }

  lemma OwedAllowed(plans: Plans, s: State, e: Event)
    requires Allowed(plans, s, e)
    ensures Expected(e).Some? ==> s.process.channel
    ensures e.Start? ==> !s.process.channel
  {
    hide FreshEnables, Removable, Rooted, Fits, EndpointMapOf, Carries;
  }

  lemma NotBoth(e: Event, r: Reply)
    ensures Expected(e).Some? ==> !e.Start? && !e.Hangup?
    ensures e.Hangup? ==> Settles(e, r)
  {
  }

  lemma {:induction false} OwedUntilSettled(setting: Setting, trace: seq<Event>, j: nat, n: nat, r: Reply)
    requires Safe(setting, trace) && j < n <= |trace| && Expected(trace[j]) == Some(r)
    requires forall k :: j < k < n ==> !Settles(trace[k], r)
    ensures At(setting, trace, n).process.channel && r in At(setting, trace, n).ledger.owed
  {
    hide Step, Allowed, Settles, Expected;
    EventAt(setting, trace, n - 1);
    OwedAllowed(setting.plans, At(setting, trace, n - 1), trace[n - 1]);
    OwedStep(At(setting, trace, n - 1), trace[n - 1], r);
    NotBoth(trace[n - 1], r);
    if n - 1 > j {
      OwedUntilSettled(setting, trace, j, n - 1, r);
    }
  }

  /**
   Whenever nothing is owed, as at every head of the serve loop, each UsbEndpoints, Quiesce and control request sent
   before has had its matching reply consumed, or its channel closed.
   */
  lemma EveryRequestSettled(setting: Setting, trace: seq<Event>, j: nat, r: Reply)
    requires Safe(setting, trace) && j < |trace| && Expected(trace[j]) == Some(r)
    requires After(setting.remains, trace).ledger.owed == {}
    ensures exists k :: j < k < |trace| && Settles(trace[k], r)
  {
    hide Settles, Expected;
    assert trace[..|trace|] == trace;
    if forall k :: j < k < |trace| ==> !Settles(trace[k], r) {
      OwedUntilSettled(setting, trace, j, |trace|, r);
    }
  }

  // Waiting.

  /** Events after which the worker has not been asked to quiesce for the declaration at hand. */
  predicate Renews(e: Event) {
    e.Ask? || e.Start?
  }

  lemma ReplacingStep(s: State, e: Event)
    ensures Step(s, e).session.replacing
         == if e.Quiesce? then true else if Renews(e) then false else s.session.replacing
  {
    hide TreeAfter, SettingsAfter, MountPointAfter, MountedAfter, BoundAfter, NowAfter, DetachedAfter, OpenAfter;
    hide BlobsAfter, TransferAfter, HistoryAfter, UnreadAfter, WorkerAfter, ChannelAfter, LimitedAfter;
    hide GenerationAfter, AskedAfter, LoanAfter, LentAfter, ServingAfter, OwedAfter, DeclaredAfter, AnswerAfter;
    hide LastRequestAfter, ServingLimitedAfter;
  }

  /** Event `q` asked the worker to quiesce, and no declaration has come since. */
  predicate Quiescing(trace: seq<Event>, q: int, n: nat)
    requires n <= |trace|
  {
    0 <= q < n && trace[q].Quiesce? && forall k :: q < k < n ==> !Renews(trace[k])
  }

  lemma {:induction false} ReplacingOrigin(setting: Setting, trace: seq<Event>, n: nat)
    requires Safe(setting, trace) && n <= |trace|
    ensures At(setting, trace, n).session.replacing <==> exists q :: Quiescing(trace, q, n)
  {
    hide Step, Allowed, Quiescing;
    if n > 0 {
      EventAt(setting, trace, n - 1);
      ReplacingStep(At(setting, trace, n - 1), trace[n - 1]);
      ReplacingOrigin(setting, trace, n - 1);
      forall q ensures Quiescing(trace, q, n) <==> QuiescingStep(trace, q, n) {
        QuiescingLast(trace, q, n);
      }
      if trace[n - 1].Quiesce? {
        assert Quiescing(trace, n - 1, n);
      } else if At(setting, trace, n).session.replacing {
        var q :| Quiescing(trace, q, n - 1);
        assert Quiescing(trace, q, n);
      }
    } else {
      forall q ensures !Quiescing(trace, q, 0) {
        NothingQuiesces(trace, q);
      }
    }
  }

  predicate QuiescingStep(trace: seq<Event>, q: int, n: nat)
    requires 0 < n <= |trace|
  {
    (q == n - 1 && trace[q].Quiesce?) || (Quiescing(trace, q, n - 1) && !Renews(trace[n - 1]))
  }

  lemma QuiescingLast(trace: seq<Event>, q: int, n: nat)
    requires 0 < n <= |trace|
    ensures Quiescing(trace, q, n) <==> QuiescingStep(trace, q, n)
  {
  }

  lemma NothingQuiesces(trace: seq<Event>, q: int)
    ensures !Quiescing(trace, q, 0)
  {
  }

  /**
   A wait for the worker is limited in time, with one exception: the wait for Serving is unlimited exactly when the
   worker was asked to quiesce for the same declaration.
   */
  lemma WaitsAreLimited(setting: Setting, trace: seq<Event>, i: nat)
    requires Safe(setting, trace) && i < |trace| && trace[i].Await?
    ensures At(setting, trace, i).process.limited
       <==> !(trace[i].kind == Serving && exists q :: Quiescing(trace, q, i))
  {
    hide Step, Quiescing;
    EventAt(setting, trace, i);
    ReplacingOrigin(setting, trace, i);
  }

  // Control requests.

  /** What the host has sent since the last control request was taken. */
  function HostData(trace: seq<Event>): seq<byte> {
    if |trace| == 0 then []
    else
      var earlier, e := HostData(trace[..|trace| - 1]), trace[|trace| - 1];
      if Clears(e) then [] else if e.Fetch? then earlier + e.data else earlier
  }

  /** No control request is at hand behind these, or a new one. */
  predicate Clears(e: Event) {
    e.Take? || e.Respond? || e.Supersede? || e.Open?
  }

  lemma TransferStep(s: State, e: Event)
    ensures var t := Step(s, e).files.transfer;
            && (e.Respond? || e.Supersede? || e.Open? ==> t == NO_TRANSFER)
            && (e.Take? && |s.files.unread| > 0 && s.files.unread[0].Setup? ==>
                  t == Transfer(Some(s.files.unread[0].packet), []))
            && (e.Fetch? ==> t == s.files.transfer.(data := e.data))
            && (!Clears(e) && !e.Fetch? ==> t == s.files.transfer)
  {
    hide TreeAfter, SettingsAfter, MountPointAfter, MountedAfter, BoundAfter, NowAfter, DetachedAfter, OpenAfter;
    hide BlobsAfter, HistoryAfter, UnreadAfter, WorkerAfter, ChannelAfter, LimitedAfter, GenerationAfter, AskedAfter;
    hide LoanAfter, LentAfter, ServingAfter, ReplacingAfter, OwedAfter, DeclaredAfter, AnswerAfter, LastRequestAfter;
    hide ServingLimitedAfter;
  }

  lemma TransferAllowed(plans: Plans, s: State, e: Event)
    requires Allowed(plans, s, e)
    ensures e.Take? ==> |s.files.unread| > 0 && s.files.unread[0].Setup? && s.files.transfer.packet.None?
    ensures e.Fetch? ==> s.files.transfer.data == []
    ensures e.Request? || e.Respond? ==> s.files.transfer.packet.Some?
    ensures e.Request? ==>
              var t := s.files.transfer;
              |t.data| == DataLength(t.packet.value) && e.body == t.packet.value + t.data
  {
    hide FreshEnables, Removable, Rooted, Fits, EndpointMapOf, Carries, Response;
  }

  lemma {:induction false} TransferIsHostData(setting: Setting, trace: seq<Event>)
    requires Safe(setting, trace)
    ensures After(setting.remains, trace).files.transfer.data == HostData(trace)
  {
    hide Allowed, Step;
    if |trace| > 0 {
      var front, e := trace[..|trace| - 1], trace[|trace| - 1];
      TransferIsHostData(setting, front);
      TransferStep(After(setting.remains, front), e);
      TransferAllowed(setting.plans, After(setting.remains, front), e);
      assert [] + HostData(front) == HostData(front);
    }
  }

  /** Event `t` took this packet from EP0, and nothing has cleared it since. */
  predicate Taken(setting: Setting, trace: seq<Event>, t: int, n: nat, packet: SetupPacket)
    requires n <= |trace|
  {
    && 0 <= t < n && trace[t].Take?
    && |At(setting, trace, t).files.unread| > 0 && At(setting, trace, t).files.unread[0] == Ep0Event.Setup(packet)
    && forall k :: t < k < n ==> !Clears(trace[k])
  }

  lemma {:induction false} PacketOrigin(setting: Setting, trace: seq<Event>, n: nat) returns (t: nat)
    requires Safe(setting, trace) && n <= |trace| && At(setting, trace, n).files.transfer.packet.Some?
    ensures Taken(setting, trace, t, n, At(setting, trace, n).files.transfer.packet.value)
  {
    hide Step, Allowed, Clears;
    t := 0;
    if n > 0 {
      var s, e := At(setting, trace, n - 1), trace[n - 1];
      EventAt(setting, trace, n - 1);
      TransferStep(s, e);
      TransferAllowed(setting.plans, s, e);
      ClearsExactly(e);
      if e.Take? {
        t := n - 1;
      } else {
        t := PacketOrigin(setting, trace, n - 1);
      }
    }
  }

  lemma ClearsExactly(e: Event)
    ensures Clears(e) <==> e.Take? || e.Respond? || e.Supersede? || e.Open?
  {
  }

  /**
   Each control request sent to the worker is the setup packet last taken from EP0, followed by exactly the bytes that the
   host has sent since: as many as the packet's length field says for an OUT transfer, none for an IN transfer.
   */
  lemma RequestsCarryHostData(setting: Setting, trace: seq<Event>, i: nat)
    requires Safe(setting, trace) && i < |trace| && trace[i].Request?
    ensures exists t, packet ::
              && Taken(setting, trace, t, i, packet)
              && trace[i].body == packet + HostData(trace[..i])
              && |HostData(trace[..i])| == if packet[0] >= 128 then 0 else packet[6] as nat + 256 * packet[7] as nat
  {
    hide Step, Allowed, Taken;
    EventAt(setting, trace, i);
    SafePrefix(setting, trace, i);
    TransferIsHostData(setting, trace[..i]);
    TransferAllowed(setting.plans, At(setting, trace, i), trace[i]);
    var t := PacketOrigin(setting, trace, i);
  }

  lemma AnswerStep(s: State, e: Event)
    ensures var a := Step(s, e).ledger.answer;
            && (e.Hear? && e.message.kind == UsbControlResponse ==> a == Some(e.message))
            && (e.Request? || e.Take? ==> a.None?)
            && (a != s.ledger.answer ==> e.Request? || e.Take? || (e.Hear? && e.message.kind == UsbControlResponse))
  {
    hide TreeAfter, SettingsAfter, MountPointAfter, MountedAfter, BoundAfter, NowAfter, DetachedAfter, OpenAfter;
    hide BlobsAfter, TransferAfter, HistoryAfter, UnreadAfter, WorkerAfter, ChannelAfter, LimitedAfter;
    hide GenerationAfter, AskedAfter, LoanAfter, LentAfter, ServingAfter, ReplacingAfter, OwedAfter, DeclaredAfter;
    hide LastRequestAfter, ServingLimitedAfter;
  }

  lemma {:induction false} AnswerOrigin(setting: Setting, trace: seq<Event>, n: nat) returns (h: nat)
    requires Safe(setting, trace) && n <= |trace| && At(setting, trace, n).ledger.answer.Some?
    ensures h < n && trace[h].Hear? && At(setting, trace, n).ledger.answer == Some(trace[h].message)
    ensures forall k :: h < k < n ==> !trace[k].Request? && !trace[k].Take?
  {
    hide Step, Allowed;
    h := 0;
    if n > 0 {
      EventAt(setting, trace, n - 1);
      AnswerStep(At(setting, trace, n - 1), trace[n - 1]);
      if trace[n - 1].Hear? && trace[n - 1].message.kind == UsbControlResponse {
        h := n - 1;
      } else {
        h := AnswerOrigin(setting, trace, n - 1);
      }
    }
  }

  /**
   What is done on EP0 for a control request is what the worker answered for it: the packet was taken, the worker's
   answer came after that, under the number of the last request sent, and the response is the one the answer stands for.
   */
  lemma ResponsesAreAnswers(setting: Setting, trace: seq<Event>, i: nat)
    requires Safe(setting, trace) && i < |trace| && trace[i].Respond?
    ensures exists t, h, packet ::
              && Taken(setting, trace, t, i, packet)
              && t < h < i && trace[h].Hear? && (forall k :: h < k < i ==> !trace[k].Request?)
              && var s, answer := At(setting, trace, i), trace[h].message;
                 && Answers(answer, Reply(UsbControlResponse, s.session.generation, s.ledger.lastRequest))
                 && Response(answer.body, packet[0] >= 128, packet[6] as nat + 256 * packet[7] as nat)
                    == Some(trace[i].response)
  {
    hide Step, Allowed, Taken, Response, Answers;
    EventAt(setting, trace, i);
    RespondAllowed(setting.plans, At(setting, trace, i), trace[i]);
    TransferAllowed(setting.plans, At(setting, trace, i), trace[i]);
    var t := PacketOrigin(setting, trace, i);
    var h := AnswerOrigin(setting, trace, i);
    TakenIsTake(setting, trace, t, i, At(setting, trace, i).files.transfer.packet.value);
  }

  lemma TakenIsTake(setting: Setting, trace: seq<Event>, t: int, n: nat, packet: SetupPacket)
    requires n <= |trace| && Taken(setting, trace, t, n, packet)
    ensures 0 <= t < n && trace[t].Take?
  {
  }

  lemma RespondAllowed(plans: Plans, s: State, e: Event)
    requires Allowed(plans, s, e) && e.Respond?
    ensures s.files.transfer.packet.Some? && s.ledger.answer.Some?
    ensures var packet, answer := s.files.transfer.packet.value, s.ledger.answer.value;
            && Answers(answer, Reply(UsbControlResponse, s.session.generation, s.ledger.lastRequest))
            && |answer.body| > 0
            && Response(answer.body, packet[0] >= 128, packet[6] as nat + 256 * packet[7] as nat) == Some(e.response)
  {
    hide Response;
  }

  lemma {:induction false} PacketUntilCleared(setting: Setting, trace: seq<Event>, j: nat, n: nat)
    requires Safe(setting, trace) && j < n <= |trace| && trace[j].Take?
    requires forall k :: j < k < n ==> !(trace[k].Respond? || trace[k].Supersede? || trace[k].Open?)
    ensures At(setting, trace, n).files.transfer.packet.Some?
  {
    hide Step, Allowed;
    EventAt(setting, trace, n - 1);
    TransferStep(At(setting, trace, n - 1), trace[n - 1]);
    TransferAllowed(setting.plans, At(setting, trace, n - 1), trace[n - 1]);
    if n - 1 > j {
      PacketUntilCleared(setting, trace, j, n - 1);
    }
  }

  /**
   Whenever no control request is at hand, as at every head of the serve loop, each one taken before has been answered on
   EP0 or superseded by the host, or its endpoint was opened anew.
   */
  lemma EveryControlRequestAnswered(setting: Setting, trace: seq<Event>, j: nat)
    requires Safe(setting, trace) && j < |trace| && trace[j].Take?
    requires After(setting.remains, trace).files.transfer.packet.None?
    ensures exists k :: j < k < |trace| && (trace[k].Respond? || trace[k].Supersede? || trace[k].Open?)
  {
    assert trace[..|trace|] == trace;
    if forall k :: j < k < |trace| ==> !(trace[k].Respond? || trace[k].Supersede? || trace[k].Open?) {
      PacketUntilCleared(setting, trace, j, |trace|);
    }
  }

  // Bus events.

  /** The bus events forwarded since the endpoint files were opened. */
  function Forwarded(trace: seq<Event>): seq<BusEvent> {
    if |trace| == 0 then []
    else
      var earlier, e := Forwarded(trace[..|trace| - 1]), trace[|trace| - 1];
      if e.Open? then [] else if e.Forward? then earlier + [e.event] else earlier
  }

  /** The bus events read since the endpoint files were opened. */
  function BusRead(trace: seq<Event>): seq<BusEvent> {
    if |trace| == 0 then []
    else
      var earlier, e := BusRead(trace[..|trace| - 1]), trace[|trace| - 1];
      if e.Open? then [] else if e.Read? then earlier + BusOf(EventsOf(e.bytes)) else earlier
  }

  lemma {:induction false} HistoryForwarded(setting: Setting, trace: seq<Event>)
    requires Safe(setting, trace)
    ensures After(setting.remains, trace).files.history == Forwarded(trace)
  {
    hide Allowed, Step;
    if |trace| > 0 {
      HistoryForwarded(setting, trace[..|trace| - 1]);
      HistoryStep(After(setting.remains, trace[..|trace| - 1]), trace[|trace| - 1]);
    }
  }

  lemma HistoryStep(s: State, e: Event)
    ensures Step(s, e).files.history
         == if e.Open? then [] else if e.Forward? then s.files.history + [e.event] else s.files.history
  {
    hide TreeAfter, SettingsAfter, MountPointAfter, MountedAfter, BoundAfter, NowAfter, DetachedAfter, OpenAfter;
    hide BlobsAfter, TransferAfter, UnreadAfter, WorkerAfter, ChannelAfter, LimitedAfter, GenerationAfter;
    hide AskedAfter, LoanAfter, LentAfter, ServingAfter, ReplacingAfter, OwedAfter, DeclaredAfter, AnswerAfter;
    hide LastRequestAfter, ServingLimitedAfter;
  }

  /**
   Every bus event is forwarded with the number of fresh enables among the events of its generation so far, itself
   included.
   */
  lemma ActivationCountsFreshEnables(setting: Setting, trace: seq<Event>, i: nat)
    requires Safe(setting, trace) && i < |trace| && trace[i].Forward?
    ensures DecodeEvent(trace[i].body) == Ok((trace[i].event, FreshEnables(Forwarded(trace[..i + 1]))))
  {
    hide FreshEnables, EncodeEvent, DecodeEvent, After, Safe, Step;
    EventAt(setting, trace, i);
    SafePrefix(setting, trace, i);
    HistoryForwarded(setting, trace[..i]);
    assert trace[..i + 1][..i] == trace[..i];
    EventRoundTrip(trace[i].event, FreshEnables(Forwarded(trace[..i + 1])), []);
  }

  lemma QueueAllowed(plans: Plans, s: State, e: Event)
    requires Allowed(plans, s, e)
    ensures e.Read? ==> s.files.open.Some? && s.files.unread == []
    ensures e.Forward? ==> s.files.open.Some? && |s.files.unread| > 0 && s.files.unread[0] == Bus(e.event)
    ensures e.Take? ==> |s.files.unread| > 0 && !s.files.unread[0].Bus?
  {
    hide FreshEnables, Removable, Rooted, Fits, EndpointMapOf, Carries, Response;
  }

  lemma QueueStep(s: State, e: Event)
    ensures e.Read? ==> Step(s, e).files.unread == EventsOf(e.bytes)
    ensures (e.Forward? || e.Take?) && |s.files.unread| > 0 ==> Step(s, e).files.unread == s.files.unread[1..]
    ensures e.Open? ==> Step(s, e).files.unread == []
    ensures e.Close? ==> Step(s, e).files.open.None?
    ensures !e.Open? && !e.Close? ==> Step(s, e).files.open == s.files.open
    ensures !e.Read? && !e.Forward? && !e.Take? && !e.Open? && !e.Close? ==> Step(s, e).files.unread == s.files.unread
  {
    hide TreeAfter, SettingsAfter, MountPointAfter, MountedAfter, BoundAfter, NowAfter, DetachedAfter, BlobsAfter;
    hide TransferAfter, HistoryAfter, WorkerAfter, ChannelAfter, LimitedAfter, GenerationAfter, AskedAfter;
    hide LoanAfter, LentAfter, ServingAfter, ReplacingAfter, OwedAfter, DeclaredAfter, AnswerAfter, LastRequestAfter;
    hide ServingLimitedAfter;
  }

  /**
   Forwarded events keep the order in which they were read, and none is left out: while the files are open, what was
   forwarded followed by what is still unread is all that was read.
   */
  lemma {:induction false} ForwardingKeepsOrder(setting: Setting, trace: seq<Event>)
    requires Safe(setting, trace)
    ensures Forwarded(trace) <= BusRead(trace)
    ensures var s := After(setting.remains, trace);
            s.files.open.Some? ==> Forwarded(trace) + BusOf(s.files.unread) == BusRead(trace)
  {
    hide Allowed, Step, BusOf;
    if |trace| > 0 {
      var front, e := trace[..|trace| - 1], trace[|trace| - 1];
      var s := After(setting.remains, front);
      ForwardingKeepsOrder(setting, front);
      QueueAllowed(setting.plans, s, e);
      QueueStep(s, e);
      BusOfFront(s.files.unread);
      if e.Forward? {
        var rest := BusOf(s.files.unread[1..]);
        assert Forwarded(front) + ([e.event] + rest) == Forwarded(front) + [e.event] + rest;
      }
    }
  }

  // Generations.

  /** How many generations the current worker has been lent. */
  function Lends(trace: seq<Event>): nat {
    if |trace| == 0 then 0
    else
      var earlier, e := Lends(trace[..|trace| - 1]), trace[|trace| - 1];
      if e.Start? then 0 else if e.Lend? then earlier + 1 else earlier
  }

  lemma GenerationStep(plans: Plans, s: State, e: Event)
    requires Allowed(plans, s, e)
    ensures Step(s, e).session.generation
         == if e.Start? then 0 else if e.Lend? then s.session.generation + 1 else s.session.generation
    ensures e.Lend? ==> e.generation == s.session.generation + 1
    ensures e.Reject? ==> e.generation == s.session.generation
  {
    hide FreshEnables, Removable, Rooted, Fits, EndpointMapOf, Carries;
  }

  lemma {:induction false} GenerationIsLends(setting: Setting, trace: seq<Event>)
    requires Safe(setting, trace)
    ensures After(setting.remains, trace).session.generation == Lends(trace)
  {
    hide Allowed, Step;
    if |trace| > 0 {
      GenerationIsLends(setting, trace[..|trace| - 1]);
      GenerationStep(setting.plans, After(setting.remains, trace[..|trace| - 1]), trace[|trace| - 1]);
    }
  }

  /** The generations lent to one worker are numbered 1, 2, 3, ...; a rejection carries the number last lent. */
  lemma GenerationsCount(setting: Setting, trace: seq<Event>, i: nat)
    requires Safe(setting, trace) && i < |trace|
    ensures trace[i].Lend? ==> trace[i].generation == Lends(trace[..i]) + 1
    ensures trace[i].Reject? ==> trace[i].generation == Lends(trace[..i])
  {
    hide Step, Allowed, After;
    EventAt(setting, trace, i);
    SafePrefix(setting, trace, i);
    GenerationIsLends(setting, trace[..i]);
    GenerationStep(setting.plans, At(setting, trace, i), trace[i]);
  }

  /** Events after which a declaration no longer waits for an answer. */
  predicate Disposes(e: Event) {
    e.Ask? || e.Lend? || e.Reject? || e.Start? || e.Emptied? || e.Settle?
  }

  lemma AskedStep(s: State, e: Event)
    ensures e.Ask? ==> Step(s, e).session.asked == Some(e.declaration)
    ensures !e.Ask? && Disposes(e) ==> Step(s, e).session.asked.None?
    ensures !Disposes(e) ==> Step(s, e).session.asked == s.session.asked
  {
    hide TreeAfter, SettingsAfter, MountPointAfter, MountedAfter, BoundAfter, NowAfter, DetachedAfter, OpenAfter;
    hide BlobsAfter, TransferAfter, HistoryAfter, UnreadAfter, WorkerAfter, ChannelAfter, LimitedAfter;
    hide GenerationAfter, LoanAfter, LentAfter, ServingAfter, ReplacingAfter, OwedAfter, DeclaredAfter, AnswerAfter;
    hide LastRequestAfter, ServingLimitedAfter;
  }

  lemma {:induction false} AskedOrigin(setting: Setting, trace: seq<Event>, n: nat) returns (a: nat)
    requires Safe(setting, trace) && n <= |trace| && At(setting, trace, n).session.asked.Some?
    ensures a < n && trace[a].Ask? && At(setting, trace, n).session.asked == Some(trace[a].declaration)
    ensures forall k :: a < k < n ==> !Disposes(trace[k])
  {
    hide Allowed, Step, Disposes;
    a := 0;
    if n > 0 {
      EventAt(setting, trace, n - 1);
      AskedStep(At(setting, trace, n - 1), trace[n - 1]);
      if trace[n - 1].Ask? {
        a := n - 1;
      } else {
        a := AskedOrigin(setting, trace, n - 1);
      }
    }
  }

  lemma AskedAllowed(plans: Plans, s: State, e: Event)
    requires Allowed(plans, s, e)
    ensures e.Ask? ==> s.session.asked.None? && s.ledger.declared == Some(e.declaration)
    ensures e.Lend? || e.Reject? ==> s.session.asked.Some? && s.session.asked.value.requestId == e.request
  {
    hide FreshEnables, Removable, Rooted, Fits, EndpointMapOf, Carries;
  }

  /** The event settles a declaration: it answers it, finds nothing to take down for it, or replaces the worker. */
  predicate Disposal(e: Event, d: Message) {
    ((e.Lend? || e.Reject?) && e.request == d.requestId) || e.Emptied? || e.Settle? || e.Start?
  }

  lemma {:induction false} AskedUntilDisposed(setting: Setting, trace: seq<Event>, j: nat, n: nat)
    requires Safe(setting, trace) && j < n <= |trace| && trace[j].Ask?
    requires forall k :: j < k < n ==> !Disposal(trace[k], trace[j].declaration)
    ensures At(setting, trace, n).session.asked == Some(trace[j].declaration)
  {
    hide Allowed, Step;
    EventAt(setting, trace, n - 1);
    AskedStep(At(setting, trace, n - 1), trace[n - 1]);
    if n - 1 > j {
      AskedUntilDisposed(setting, trace, j, n - 1);
      AskedAllowed(setting.plans, At(setting, trace, n - 1), trace[n - 1]);
    }
  }

  /**
   Whenever no declaration is pending, as at every head of the serve loop, each declaration taken up before has been
   answered by endpoints or a rejection under its own request ID, emptied, or lost with its worker.
   */
  lemma EveryDeclarationAnswered(setting: Setting, trace: seq<Event>, j: nat)
    requires Safe(setting, trace) && j < |trace| && trace[j].Ask?
    requires After(setting.remains, trace).session.asked.None?
    ensures exists k :: j < k < |trace| && Disposal(trace[k], trace[j].declaration)
  {
    hide Disposal;
    assert trace[..|trace|] == trace;
    if forall k :: j < k < |trace| ==> !Disposal(trace[k], trace[j].declaration) {
      AskedUntilDisposed(setting, trace, j, |trace|);
    }
  }

  /** A declaration that the worker has sent. */
  predicate Declares(e: Event) {
    e.Hear? && e.message.kind == Configure
  }

  lemma DeclaredStep(s: State, e: Event)
    ensures Step(s, e).ledger.declared
         == if Declares(e) then Some(e.message) else if Renews(e) then None else s.ledger.declared
  {
    hide TreeAfter, SettingsAfter, MountPointAfter, MountedAfter, BoundAfter, NowAfter, DetachedAfter, OpenAfter;
    hide BlobsAfter, TransferAfter, HistoryAfter, UnreadAfter, WorkerAfter, ChannelAfter, LimitedAfter;
    hide GenerationAfter, AskedAfter, LoanAfter, LentAfter, ServingAfter, ReplacingAfter, OwedAfter, AnswerAfter;
    hide LastRequestAfter, ServingLimitedAfter;
  }

  lemma {:induction false} DeclaredOrigin(setting: Setting, trace: seq<Event>, n: nat) returns (j: nat)
    requires Safe(setting, trace) && n <= |trace| && At(setting, trace, n).ledger.declared.Some?
    ensures j < n && Declares(trace[j]) && At(setting, trace, n).ledger.declared == Some(trace[j].message)
    ensures forall k :: j < k < n ==> !Declares(trace[k]) && !Renews(trace[k])
  {
    hide Allowed, Step, Declares, Renews;
    j := 0;
    if n > 0 {
      EventAt(setting, trace, n - 1);
      DeclaredStep(At(setting, trace, n - 1), trace[n - 1]);
      if Declares(trace[n - 1]) {
        j := n - 1;
      } else {
        j := DeclaredOrigin(setting, trace, n - 1);
      }
    }
  }

  /** Only what the worker has declared is taken up: the last declaration heard, once. */
  lemma AsksWereDeclared(setting: Setting, trace: seq<Event>, i: nat)
    requires Safe(setting, trace) && i < |trace| && trace[i].Ask?
    ensures exists j ::
              && 0 <= j < i
              && Declares(trace[j])
              && trace[j].message == trace[i].declaration
              && forall k :: j < k < i ==> !Declares(trace[k]) && !Renews(trace[k])
  {
    hide Allowed, Step, Declares, Renews;
    EventAt(setting, trace, i);
    AskedAllowed(setting.plans, At(setting, trace, i), trace[i]);
    var j := DeclaredOrigin(setting, trace, i);
  }

  lemma {:induction false} DeclaredUntilRenewed(setting: Setting, trace: seq<Event>, j: nat, n: nat)
    requires Safe(setting, trace) && j < n <= |trace| && Declares(trace[j])
    requires forall k :: j < k < n ==> !Renews(trace[k])
    ensures At(setting, trace, n).ledger.declared.Some?
  {
    hide Allowed, Step, Declares, Renews;
    EventAt(setting, trace, n - 1);
    DeclaredStep(At(setting, trace, n - 1), trace[n - 1]);
    if n - 1 > j {
      DeclaredUntilRenewed(setting, trace, j, n - 1);
    } else {
      DeclaresOnly(trace[j]);
    }
  }

  lemma DeclaresOnly(e: Event)
    ensures Declares(e) ==> !Renews(e)
  {
  }

  /** At every head of the serve loop no declaration heard is left lying: one was taken up, or the worker replaced. */
  lemma EveryDeclarationTakenUp(setting: Setting, trace: seq<Event>, j: nat)
    requires Safe(setting, trace) && j < |trace| && Declares(trace[j])
    requires After(setting.remains, trace).ledger.declared.None?
    ensures exists k :: j < k < |trace| && Renews(trace[k])
  {
    hide Renews, Declares;
    assert trace[..|trace|] == trace;
    if forall k :: j < k < |trace| ==> !Renews(trace[k]) {
      DeclaredUntilRenewed(setting, trace, j, |trace|);
    }
  }

  /** The event lends what the plan asks for: its endpoints, in a map of them, with the files opened behind its blobs. */
  predicate LentFor(s: State, e: Event, plan: Option<Plan>)
    requires e.Lend?
  {
    && Carries(s, e.endpoints, plan)
    && EndpointMapOf(e.endpoints) == Ok(e.body)
    && s.files.open == Some(e.files) && Fits(e.files, e.endpoints)
  }

  /**
   Each UsbEndpoints and each ConfigurationRejected answers the last declaration, once and under its request ID:
   endpoints for one that `discover_bundle` accepts, a rejection for one it does not. The endpoints lent are the
   personality's own, in order, with their own files, behind its own blobs and attributes.
   */
  lemma AnswersMatchDeclarations(setting: Setting, trace: seq<Event>, i: nat)
    requires Safe(setting, trace) && i < |trace| && (trace[i].Lend? || trace[i].Reject?)
    ensures exists a ::
              && 0 <= a < i
              && trace[a].Ask?
              && trace[a].declaration.requestId == trace[i].request
              && |trace[a].declaration.body| > 0
              && (setting.plans(trace[a].declaration.body).Some? <==> trace[i].Lend?)
              && (trace[i].Lend? ==> LentFor(At(setting, trace, i), trace[i], setting.plans(trace[a].declaration.body)))
              && forall k :: a < k < i ==> !Disposes(trace[k])
  {
    hide Step, Disposes;
    EventAt(setting, trace, i);
    var a := AskedOrigin(setting, trace, i);
  }
}
