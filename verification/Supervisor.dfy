/** The supervisor's runtime: one worker, one gadget, and the USB generations it attaches. */
module Supervisor {
  import opened Bytes
  import opened Unicode
  import opened Personality
  import opened Configuration
  import opened Protocol
  import opened Activations
  import opened Kernel
  import opened Translator
  import ConfigFs
  import FunctionFs
  import MicrosoftProjection
  import Agreement
  import Bundles

  /** An `io::Result<()>`; EIDRM is told apart because the control path does. */
  datatype Io = Fine | Cancelled | Failed {
    predicate IsFailure() {
      !Fine?
    }

    function PropagateFailure(): Io
      requires IsFailure()
    {
      this
    }
  }

  /** `record_error`. */
  function First(first: Io, next: Io): Io {
    if first.Fine? then next else first
  }

  datatype UsbGeneration = UsbGeneration(
    endpoints: seq<FunctionFs.Direction>,
    endpointsEnabled: bool,
    endpointActivation: u64)

  /** Why the serve loop wakes up; `Control` tells whether the channel turns out to hold nothing. */
  datatype Occasion = Exited | Reload(next: Remains, names: seq<Text>) | Control(nothing: bool) | Ep0

  /** What is pending between the supervisor and its worker, and whether waits are limited in time. */
  function Pending(s: State): (Option<Message>, Option<Message>, bool) {
    (s.ledger.declared, s.session.asked, s.process.limited)
  }

  /** A fresh worker has been started since event `n`. */
  predicate StartedSince(trace: seq<Event>, n: nat) {
    exists k :: n <= k < |trace| && trace[k].Start?
  }

  /** A worker was started, and first of all told the names of its resources. */
  ghost predicate Equipped(before: seq<Event>, after: seq<Event>, names: seq<Text>) {
    ResourceNamesOf(names).Ok? && after == before + [Start, Supply(names, ResourceNamesOf(names).value)]
  }

  /** A request and its answer on the channel. */
  function Exchange(generation: u32, request: u32, body: seq<byte>, answer: seq<byte>): seq<Event> {
    [Request(generation, request, body), Limit(true), Await(UsbControlResponse),
     Hear(Record(UsbControlResponse, generation, request, answer, [])), Limit(false)]
  }

  /**
   What the host sent behind the setup packet was read, the packet and exactly those bytes went to the worker, and what
   was done on EP0 is what the worker's answer to that request says.
   */
  ghost predicate Transacted(before: seq<Event>, after: seq<Event>, setup: SetupPacket, generation: u32, request: u32) {
    exists data, answer ::
      && |data| == DataLength(setup)
      && |answer| > 0
      && Response(answer, AsksIn(setup), AsksFor(setup)).Some?
      && after == before + Fetched(data) + Exchange(generation, request, setup + data, answer)
                  + [Respond(Response(answer, AsksIn(setup), AsksFor(setup)).value)]
  }

  /** The read that brings this data; none is made for no data. */
  function Fetched(data: seq<byte>): seq<Event> {
    if |data| == 0 then [] else [Fetch(data)]
  }

  // Order within a run.

  /** A bound gadget is detached; an unbound one is left alone. */
  predicate Unplugs(part: seq<Event>, bound: Binding) {
    if bound == Unbound then part == [] else |part| == 1 && part[0].Detach?
  }

  /** The run went on by detaching the gadget, if it was bound, and then by these events. */
  ghost predicate Unplugged(before: seq<Event>, after: seq<Event>, bound: Binding, next: seq<Event>) {
    exists part :: Unplugs(part, bound) && before + part + next <= after
  }

  lemma NothingUnplugs()
    ensures Unplugs([], Unbound)
  {
  }

  lemma UnpluggedBy(before: seq<Event>, after: seq<Event>, part: seq<Event>, bound: Binding, next: seq<Event>)
    requires Unplugs(part, bound) && before + part + next <= after
    ensures Unplugged(before, after, bound, next)
  {
  }

  lemma Behind<T>(start: seq<T>, part: seq<T>, x: seq<T>, y: seq<T>, z: seq<T>)
    ensures start + part + x + y + z == start + part + (x + y + z)
  {
  }

  lemma UnpluggedMore(before: seq<Event>, after: seq<Event>, more: seq<Event>, bound: Binding, next: seq<Event>)
    requires Unplugged(before, after, bound, next) && after <= more
    ensures Unplugged(before, more, bound, next)
  {
  }

  /** A generation is quiesced under a request, and the worker says so. */
  function QuiesceExchange(generation: u32, request: u32): seq<Event> {
    [Limit(true), Event.Quiesce(generation, request), Await(Quiesced),
     Hear(Record(Quiesced, generation, request, [], [])), Limit(false)]
  }

  /** A serving worker is quiesced, then hung up on, then waited for. */
  function LettingGo(serving: bool, control: bool, worker: bool, generation: u32): seq<Event> {
    (if serving && control then QuiesceExchange(generation, 0) else [])
    + (if control then [Event.Hangup] else []) + (if worker then [Reap] else [])
  }

  /** Since event `n` these endpoints were lent for a generation and request, and Serving was reported for them. */
  ghost predicate Served(trace: seq<Event>, n: nat, generation: u32, request: u32, endpoints: seq<Endpoint>) {
    exists k ::
      && n <= k <= |trace| - 3
      && trace[k].Lend? && trace[k].generation == generation && trace[k].request == request
      && trace[k].endpoints == endpoints
      && trace[k + 1] == Await(Serving)
      && trace[k + 2] == Hear(Record(Serving, generation, request, [], []))
  }

  lemma ServedMore(
    trace: seq<Event>, more: seq<Event>, m: nat, n: nat, generation: u32, request: u32, endpoints: seq<Endpoint>)
    requires Served(trace, n, generation, request, endpoints) && trace <= more && m <= n
    ensures Served(more, m, generation, request, endpoints)
  {
    var k :|
      && n <= k <= |trace| - 3
      && trace[k].Lend? && trace[k].generation == generation && trace[k].request == request
      && trace[k].endpoints == endpoints
      && trace[k + 1] == Await(Serving)
      && trace[k + 2] == Hear(Record(Serving, generation, request, [], []));
    assert more[k] == trace[k] && more[k + 1] == trace[k + 1] && more[k + 2] == trace[k + 2];
  }

  /** Since event `n` a record was heard in the place of the reply waited for. */
  ghost predicate Misheard(trace: seq<Event>, n: nat, r: Reply) {
    exists k :: n < k < |trace| && trace[k].Hear? && trace[k - 1] == Await(r.kind) && !Answers(trace[k].message, r)
  }

  lemma MisheardMore(trace: seq<Event>, more: seq<Event>, m: nat, n: nat, r: Reply)
    requires Misheard(trace, n, r) && trace <= more && m <= n
    ensures Misheard(more, m, r)
  {
    var k :| n < k < |trace| && trace[k].Hear? && trace[k - 1] == Await(r.kind) && !Answers(trace[k].message, r);
    assert more[k] == trace[k] && more[k - 1] == trace[k - 1];
  }

  lemma PlanCarried(s: State, p: Projection)
    requires s.files.blobs == [p.descriptors, p.strings] && s.settings == ConfigFs.SettingsOf(p)
    ensures Carries(s, p.endpoints, Some(PlanOf(p)))
  {
  }

  lemma MisheardSince(trace: seq<Event>, m: nat, n: nat, r: Reply)
    requires m <= n
    ensures Misheard(trace, n, r) ==> Misheard(trace, m, r)
  {
    hide Misheard;
    if Misheard(trace, n, r) {
      MisheardMore(trace, trace, m, n, r);
    }
  }

  /** What a projection asks of a generation. */
  function PlanOf(p: Projection): Plan {
    Plan(p.endpoints, p.descriptors, p.strings, ConfigFs.SettingsOf(p))
  }

  class Runtime {
    const world: World
    /** `UsbPersonality::from_cbor`. */
    const fromCbor: seq<byte> -> Option<UsbPersonality>
    var ownsGadget: bool
    var functionFsMounted: bool
    var worker: bool
    var control: bool
    var usb: Option<UsbGeneration>
    var generation: u32
    var nextControlRequest: u32
    var detachedAt: Option<nat>
    /** The names of the profile's resources. */
    var resources: seq<Text>
    var cleaned: bool

    constructor (world: World, fromCbor: seq<byte> -> Option<UsbPersonality>, resources: seq<Text>)
      requires world.Valid() && world.trace == []
      ensures this.world == world && this.fromCbor == fromCbor && this.resources == resources
      ensures Idle() && Tracked() && !ownsGadget && DwellAgrees() && generation == 0
      ensures !cleaned
    {
      this.world := world;
      this.fromCbor := fromCbor;
      ownsGadget, functionFsMounted, worker, control := false, false, false, false;
      usb, generation, nextControlRequest, detachedAt := None, 0, 1, None;
      this.resources := resources;
      cleaned := false;
    }

    // Invariants.

    /** The fields and the world agree. This holds after every method, whatever failed in it. */
    ghost predicate Tracked()
      reads this, world
    {
      && world.Valid()
      && control == world.state.process.channel
      && (control ==> worker)
      && (worker ==> world.state.process.worker)
      // Only a worker whose resource names cannot be sent is lost track of.
      && (world.state.process.worker && !worker ==> !NamesFit(resources))
      && (world.state.session.lent ==> worker)
      && (usb.Some? <==> world.state.files.open.Some?)
      && (usb.Some? ==> functionFsMounted && usb.value.endpoints == world.state.files.open.value)
      && (functionFsMounted ==> world.state.mount.mounted)
      && (detachedAt.Some? ==>
            world.state.clock.detached.Some? && world.state.clock.detached.value.noted == detachedAt.value)
      && nextControlRequest > world.state.ledger.lastRequest
    }

    /** Whatever stands in the kernel is known to be ours. */
    ghost predicate Known()
      reads this, world
    {
      (world.state.gadget.tree != {} ==> ownsGadget) && (world.state.mount.mounted ==> functionFsMounted)
    }

    /** Nothing leaks when teardown calls are reliable. */
    ghost predicate Linked()
      reads this, world
    {
      Tracked() && (world.reliable ==> Known())
    }

    /** No worker, no channel and no generation. */
    ghost predicate Idle()
      reads this, world
    {
      !worker && !control && usb.None? && !functionFsMounted && world.state.files.open.None? && !world.state.session.lent
    }

    ghost predicate DwellAgrees()
      reads this, world
    {
      detachedAt.Some? <==> world.state.clock.detached.Some?
    }

    /** The counters of the generation are those of its bus events. */
    ghost predicate Counted()
      reads this, world
    {
      usb.Some? ==>
        && usb.value.endpointActivation == FreshEnables(world.state.files.history)
        && (usb.value.endpointsEnabled <==> Enabled(world.state.files.history))
    }

    /** A generation is owned, mounted, and attached after its worker reported Serving; or nothing of one is left. */
    ghost predicate AllOrNothing()
      reads this, world
    {
      var s := world.state;
      if usb.Some? then
        && ownsGadget && functionFsMounted && s.session.serving
        && s.session.loan.Some?
           && s.gadget.bound == Attached(s.session.loan.value.generation, s.session.loan.value.request)
      else !ownsGadget && !functionFsMounted && Cleared(s) && !s.session.lent
    }

    /** What holds between two events of the serving generation. */
    ghost predicate Steady()
      reads this, world
    {
      && Linked()
      && Known()
      && control
      && generation == world.state.session.generation
      && world.state.ledger.owed == {}
      && DwellAgrees()
      && Counted()
      && AllOrNothing()
    }

    /** Nothing read from EP0 is left over, and no control request is at hand. */
    ghost predicate Calm()
      reads this, world
    {
      Steady() && world.state.files.unread == [] && world.state.files.transfer.packet.None?
    }

    /** What holds at the head of the serve loop: no declaration is left lying or pending, no wait is limited in time. */
    ghost predicate Ready()
      reads this, world
    {
      && Calm() && world.state.ledger.declared.None? && world.state.session.asked.None?
      && !world.state.process.limited
    }

    /** A record has been heard, and nothing else is pending. */
    ghost predicate Attending(m: Message)
      reads this, world
    {
      && Calm()
      && world.state.session.asked.None?
      && world.state.ledger.declared == if m.kind == Kind.Configure then Some(m) else None
    }

    // Taking down.

    method Unbind() returns (r: Io)
      requires Tracked()
      modifies this`detachedAt, world
      ensures Tracked() && !r.Cancelled?
      ensures var was, s := old(world.state), world.state;
              s == was.(gadget := was.gadget.(bound := s.gadget.bound), clock := s.clock)
      ensures world.state.gadget.bound == Unbound || world.state.gadget.bound == old(world.state.gadget.bound)
      ensures old(DwellAgrees()) ==> DwellAgrees()
      ensures r.Fine? ==> world.state.gadget.bound == Unbound
      ensures world.reliable ==> r.Fine?
      ensures r.Fine? ==> exists part ::
                Unplugs(part, old(world.state.gadget.bound)) && world.trace == old(world.trace) + part
      ensures old(world.state.gadget.bound) == Unbound ==>
                world.state == old(world.state) && world.trace == old(world.trace) && detachedAt == old(detachedAt)
      ensures old(world.trace) <= world.trace
    {
      hide NamesFit, After, Safe, Rooted;
      if Gadget !in world.state.gadget.tree {
        BoundNeedsGadget(world.state);
        assert Unplugs([], Unbound) && world.trace + [] == world.trace;
        return Fine;
      }
      if world.state.gadget.bound == Unbound {
        // ENODEV, unless the write fails in another way.
        var ok := world.Idle();
        assert Unplugs([], Unbound) && world.trace + [] == world.trace;
        return if ok then Fine else Failed;
      }
      var delay: nat := *;
      ghost var bound := world.state.gadget.bound;
      var ok := world.Try(Detach(delay));
      if !ok {
        return Failed;
      }
      assert Unplugs([Detach(delay)], bound);
      detachedAt := Some(world.state.clock.now);
      return Fine;
    }

    method RemoveIfExists(n: Node) returns (r: Io)
      requires world.Valid() && (n in world.state.gadget.tree ==> Removable(world.state.gadget.tree, n))
      modifies world
      ensures world.Valid() && !r.Cancelled?
      ensures var was, s := old(world.state), world.state; s == was.(gadget := s.gadget)
      ensures world.state.gadget.tree <= old(world.state.gadget.tree)
      ensures r.Fine? ==> world.state.gadget.tree == old(world.state.gadget.tree) - {n}
      ensures world.reliable ==> r.Fine?
      ensures old(world.trace) <= world.trace
    {
      hide NamesFit, After, Safe, Rooted, Removable;
      if n !in world.state.gadget.tree {
        var ok := world.Idle();
        return if ok then Fine else Failed;
      }
      var ok := world.Try(Remove(n));
      return if ok then Fine else Failed;
    }

    // The links, and the function they name.
    method RemoveFunction() returns (r: Io)
      requires world.Valid()
      modifies world
      ensures world.Valid() && !r.Cancelled?
      ensures var was, s := old(world.state), world.state; s == was.(gadget := s.gadget)
      ensures world.state.gadget.tree <= old(world.state.gadget.tree)
      ensures r.Fine? ==>
                world.state.gadget.tree == old(world.state.gadget.tree) - {OsLink} - {FunctionLink} - {Function}
      ensures world.reliable ==> r.Fine?
      ensures old(world.trace) <= world.trace
    {
      hide NamesFit, World.Valid, Needs, Removable, Allowed, Step;
      LeavesFirst(world.state.gadget.tree);
      :- RemoveIfExists(OsLink);
      LeavesFirst(world.state.gadget.tree);
      :- RemoveIfExists(FunctionLink);
      LeavesFirst(world.state.gadget.tree);
      r := RemoveIfExists(Function);
    }

    // The configuration, from its strings up.
    method RemoveConfig() returns (r: Io)
      requires world.Valid() && OsLink !in world.state.gadget.tree && FunctionLink !in world.state.gadget.tree
      modifies world
      ensures world.Valid() && !r.Cancelled?
      ensures var was, s := old(world.state), world.state; s == was.(gadget := s.gadget)
      ensures world.state.gadget.tree <= old(world.state.gadget.tree)
      ensures r.Fine? ==> world.state.gadget.tree == old(world.state.gadget.tree) - {ConfigStrings} - {Config}
      ensures world.reliable ==> r.Fine?
      ensures old(world.trace) <= world.trace
    {
      hide NamesFit, World.Valid, Needs, Removable, Allowed, Step;
      LeavesFirst(world.state.gadget.tree);
      :- RemoveIfExists(ConfigStrings);
      LeavesFirst(world.state.gadget.tree);
      r := RemoveIfExists(Config);
    }

    /** Leaves before their directories, and each link before what it names. */
    method RemoveGadgetTree() returns (r: Io)
      requires world.Valid()
      modifies world
      ensures world.Valid() && !r.Cancelled?
      ensures var was, s := old(world.state), world.state; s == was.(gadget := s.gadget)
      ensures world.state.gadget.tree <= old(world.state.gadget.tree)
      ensures r.Fine? ==> world.state.gadget.tree == {} && world.state.gadget.bound == Unbound
      ensures world.reliable ==> r.Fine?
      ensures old(world.trace) <= world.trace
    {
      hide NamesFit, World.Valid, Needs, Removable, Allowed, Step;
      :- RemoveFunction();
      :- RemoveConfig();
      LeavesFirst(world.state.gadget.tree);
      :- RemoveIfExists(GadgetStrings);
      LeavesFirst(world.state.gadget.tree);
      r := RemoveIfExists(Gadget);
      SoundBinding(world);
    }

    method StopWorker()
      requires Tracked() && !control
      modifies this`worker, world
      ensures Tracked() && !worker && !world.state.session.lent
      ensures var was, s := old(world.state), world.state;
              s == was.(process := was.process.(worker := s.process.worker), session := was.session.(lent := false))
      ensures old(worker) ==> !world.state.process.worker
      ensures world.trace == old(world.trace) + if old(worker) then [Reap] else []
    {
      hide NamesFit, After, Safe, Rooted;
      if worker {
        world.Act(Reap);
        worker := false;
      }
    }

    method Hangup()
      requires Tracked()
      modifies this`control, world
      ensures Tracked() && !control
      ensures var was, s := old(world.state), world.state;
              s == was.(process := was.process.(channel := false), ledger := was.ledger.(owed := s.ledger.owed))
      ensures old(control) ==> world.state.ledger.owed == {}
      ensures world.trace == old(world.trace) + if old(control) then [Event.Hangup] else []
    {
      hide NamesFit, After, Safe, Rooted;
      if control {
        world.Act(Event.Hangup);
        control := false;
      }
    }

    // Talking to the worker.

    method SetReadTimeout(on: bool) returns (r: Io)
      requires world.Valid() && world.state.process.channel
      modifies world
      ensures world.Valid() && !r.Cancelled?
      ensures world.Faultless() ==> r.Fine?
      ensures var was, s := old(world.state), world.state;
              s == was.(process := was.process.(limited := if r.Fine? then on else was.process.limited))
      ensures world.trace == if r.Fine? then old(world.trace) + [Limit(on)] else old(world.trace)
    {
      hide World.Valid;
      var ok := world.Try(Limit(on));
      return if ok then Fine else Failed;
    }

    method BeginWait(kind: Kind)
      requires world.Valid() && world.state.process.channel
      requires world.state.process.limited <==> !(kind == Serving && world.state.session.replacing)
      modifies world
      ensures world.Valid()
      ensures var was, s := old(world.state), world.state;
              s == was.(ledger := was.ledger.(
                          servingLimited := if kind == Serving then was.process.limited else was.ledger.servingLimited))
      ensures world.trace == old(world.trace) + [Await(kind)]
    {
      hide World.Valid;
      world.Act(Await(kind));
    }

    method Listen() returns (m: Option<Message>)
      requires world.Valid() && world.state.process.channel
      modifies world
      ensures world.Valid()
      ensures var was, s := old(world.state), world.state;
              if m.None? then s == was
              else
                s == was.(ledger := Heard(was.ledger, m.value),
                          session := was.session.(
                            serving := was.session.serving || ReportsServing(was.session.loan, m.value),
                            lent := was.session.lent && !ReportsQuiesced(was.session.loan, m.value)))
      ensures world.trace == if m.Some? then old(world.trace) + [Hear(m.value)] else old(world.trace)
      ensures world.Faultless() ==> m.Some?
    {
      hide World.Valid, Unanswered, ReportsServing, ReportsQuiesced;
      m := world.Receive();
    }

    // A wait for a record of a kind, and whatever record arrives.
    method AwaitRecord(kind: Kind) returns (m: Option<Message>)
      requires world.Valid() && world.state.process.channel
      requires world.state.process.limited <==> !(kind == Serving && world.state.session.replacing)
      modifies world
      ensures world.Valid()
      ensures var was, s := old(world.state), world.state;
              s == was.(ledger := s.ledger,
                        session := was.session.(serving := s.session.serving, lent := s.session.lent))
      ensures var was, s := old(world.state), world.state;
              var waited := was.ledger.(
                servingLimited := if kind == Serving then was.process.limited else was.ledger.servingLimited);
              s.ledger == if m.None? then waited else Heard(waited, m.value)
      ensures if m.None? then
                world.state.session == old(world.state.session)
              else
                var was, s := old(world.state), world.state;
                && s.session.serving == (was.session.serving || ReportsServing(was.session.loan, m.value))
                && s.session.lent == (was.session.lent && !ReportsQuiesced(was.session.loan, m.value))
      ensures old(world.trace) <= world.trace
      ensures m.Some? ==> world.trace == old(world.trace) + [Await(kind), Hear(m.value)]
      ensures world.Faultless() ==> m.Some?
    {
      hide World.Valid, Heard, ReportsServing, ReportsQuiesced, Allowed, Step;
      BeginWait(kind);
      m := Listen();
    }

    /** `expect_record`: the next record must answer with this kind, generation and request. */
    method ExpectRecord(kind: Kind, generation: u32, request: u32) returns (r: Io)
      requires world.Valid() && world.state.process.channel && kind in {Serving, Quiesced}
      requires world.state.process.limited <==> !(kind == Serving && world.state.session.replacing)
      modifies world
      ensures world.Valid() && !r.Cancelled?
      ensures var was, s := old(world.state), world.state;
              s == was.(ledger := s.ledger,
                        session := was.session.(serving := s.session.serving, lent := s.session.lent))
      ensures world.state.ledger.servingLimited
           == if kind == Serving then old(world.state.process.limited) else old(world.state.ledger.servingLimited)
      ensures world.state.ledger.lastRequest == old(world.state.ledger.lastRequest)
      ensures r.Fine? ==> world.state.ledger.declared == old(world.state.ledger.declared)
      ensures r.Fine? ==>
                world.trace == old(world.trace) + [Await(kind), Hear(Record(kind, generation, request, [], []))]
      ensures world.Faultless() && !r.Fine? ==>
                Misheard(world.trace, |old(world.trace)|, Reply(kind, generation, request))
      ensures world.state.ledger.owed <= old(world.state.ledger.owed)
      ensures world.state.session.lent ==> old(world.state.session.lent)
      ensures r.Fine? ==> Reply(kind, generation, request) !in world.state.ledger.owed
      ensures r.Fine? && kind == Serving && old(world.state.session.loan) == Some(Loan(generation, request)) ==>
                world.state.session.serving && world.state.session.lent == old(world.state.session.lent)
      ensures r.Fine? && kind == Quiesced && old(world.state.session.loan).Some?
              && old(world.state.session.loan).value.generation == generation ==>
                !world.state.session.lent
      ensures old(world.trace) <= world.trace
    {
      hide World.Valid, Allowed, Step;
      ghost var n := |world.trace|;
      var m := AwaitRecord(kind);
      if m.None? {
        return Failed;
      }
      assert world.trace[n] == Await(kind) && world.trace[n + 1] == Hear(m.value);
      if m.value.kind != kind || m.value.generation != generation || m.value.requestId != request
         || |m.value.body| != 0 || |m.value.descriptors| != 0 {
        return Failed;
      }
      assert m.value == Record(kind, generation, request, [], []);
      return Fine;
    }

    // The exchange inside `quiesce_worker`, whose failure closes the channel.
    method ExchangeQuiesce(requestId: u32) returns (r: Io)
      requires world.Valid() && world.state.process.channel
      modifies world
      ensures world.Valid() && !r.Cancelled?
      ensures var was, s := old(world.state), world.state;
              s == was.(ledger := was.ledger.(
                          owed := s.ledger.owed, declared := s.ledger.declared, answer := s.ledger.answer),
                        session := s.session, process := was.process.(limited := s.process.limited))
      ensures world.state.session.generation == old(world.state.session.generation)
      ensures world.state.session.asked == old(world.state.session.asked)
      ensures world.state.session.loan == old(world.state.session.loan)
      ensures r.Fine? ==> world.state.session.replacing && !world.state.process.limited
      ensures r.Fine? ==> world.trace == old(world.trace) + QuiesceExchange(generation, requestId)
      ensures r.Fine? ==> world.state.ledger.declared == old(world.state.ledger.declared)
      ensures world.Faultless() && !r.Fine? ==>
                Misheard(world.trace, |old(world.trace)|, Reply(Quiesced, generation, requestId))
      ensures world.state.session.lent ==> old(world.state.session.lent)
      ensures r.Fine? ==> world.state.ledger.owed <= old(world.state.ledger.owed)
      ensures r.Fine? && old(world.state.session.loan).Some?
              && old(world.state.session.loan).value.generation == generation ==>
                !world.state.session.lent
      ensures old(world.trace) <= world.trace
    {
      hide World.Valid, Allowed, Step, Misheard, Unanswered, Answers;
      ghost var start := world.trace;
      :- SetReadTimeout(true);
      r := SendQuiesce(requestId);
      ghost var sent := world.trace;
      if r.Fine? {
        r := ExpectRecord(Quiesced, generation, requestId);
      }
      ghost var heard := world.trace;
      var reset := SetReadTimeout(false);
      if world.Faultless() && !r.Fine? {
        MisheardMore(heard, world.trace, |old(world.trace)|, |sent|, Reply(Quiesced, generation, requestId));
      }
      return First(r, reset);
    }

    method SendQuiesce(requestId: u32) returns (r: Io)
      requires world.Valid() && world.state.process.channel
      modifies world
      ensures world.Valid() && !r.Cancelled?
      ensures world.Faultless() ==> r.Fine?
      ensures var was, s := old(world.state), world.state;
              if r.Fine? then
                s == was.(ledger := was.ledger.(owed := was.ledger.owed + {Reply(Quiesced, generation, requestId)}),
                          session := was.session.(replacing := true))
              else s == was
      ensures world.trace
           == if r.Fine? then old(world.trace) + [Event.Quiesce(generation, requestId)] else old(world.trace)
    {
      hide World.Valid;
      var ok := world.Try(Event.Quiesce(generation, requestId));
      return if ok then Fine else Failed;
    }

    method QuiesceWorker(requestId: u32) returns (r: Io)
      requires Tracked()
      modifies this`control, world
      ensures Tracked() && !r.Cancelled?
      ensures var was, s := old(world.state), world.state;
              s == was.(ledger := was.ledger.(
                          owed := s.ledger.owed, declared := s.ledger.declared, answer := s.ledger.answer),
                        session := s.session,
                        process := was.process.(channel := s.process.channel, limited := s.process.limited))
      ensures world.state.session.generation == old(world.state.session.generation)
      ensures world.state.session.asked == old(world.state.session.asked)
      ensures world.state.session.loan == old(world.state.session.loan)
      ensures world.state.session.lent ==> old(world.state.session.lent)
      ensures !control ==> world.state.ledger.owed == {} || !old(control)
      ensures r.Fine? ==> control == old(control) && world.state.ledger.owed <= old(world.state.ledger.owed)
      ensures r.Fine? && control ==> world.state.session.replacing && !world.state.process.limited
      ensures r.Fine? && control && old(world.state.session.loan).Some?
              && old(world.state.session.loan).value.generation == generation ==>
                !world.state.session.lent
      ensures !r.Fine? ==> !control
      ensures r.Fine? ==>
                world.trace == old(world.trace) + if control then QuiesceExchange(generation, requestId) else []
      ensures r.Fine? ==> world.state.ledger.declared == old(world.state.ledger.declared)
      ensures world.Faultless() && !r.Fine? ==>
                Misheard(world.trace, |old(world.trace)|, Reply(Quiesced, generation, requestId))
      ensures old(world.trace) <= world.trace
    {
      hide NamesFit, World.Valid, Allowed, Step;
      if !control {
        return Fine;
      }
      r := ExchangeQuiesce(requestId);
      if !r.Fine? {
        ghost var heard := world.trace;
        Hangup();
        if world.Faultless() {
          MisheardMore(
            heard, world.trace, |old(world.trace)|, |old(world.trace)|, Reply(Quiesced, generation, requestId));
        }
      }
    }

    // Removing a generation.

    method UnmountFunctionFs() returns (r: Io)
      requires world.Valid() && world.state.files.open.None? && !world.state.session.lent
      modifies world
      ensures world.Valid() && !r.Cancelled?
      ensures var was, s := old(world.state), world.state; s == was.(mount := was.mount.(mounted := s.mount.mounted))
      ensures r.Fine? ==> !world.state.mount.mounted
      ensures world.state.mount.mounted ==> old(world.state.mount.mounted)
      ensures world.reliable ==> r.Fine?
      ensures old(world.trace) <= world.trace
    {
      hide World.Valid;
      if !world.state.mount.mounted {
        var ok := world.Idle();
        return if ok then Fine else Failed;
      }
      var ok := world.Try(Unmount);
      return if ok then Fine else Failed;
    }

    method RemoveMountPointIfExists() returns (r: Io)
      requires world.Valid()
      modifies world
      ensures world.Valid() && !r.Cancelled?
      ensures var was, s := old(world.state), world.state; s == was.(mount := was.mount.(point := s.mount.point))
      ensures r.Fine? ==> !world.state.mount.point
      ensures world.state.mount.point ==> old(world.state.mount.point)
      ensures world.reliable && !world.state.mount.mounted ==> r.Fine?
      ensures old(world.trace) <= world.trace
    {
      hide World.Valid;
      if world.state.mount.mounted {
        // The directory is busy.
        return Failed;
      }
      if !world.state.mount.point {
        var ok := world.Idle();
        return if ok then Fine else Failed;
      }
      var ok := world.Try(RemoveMountPoint);
      return if ok then Fine else Failed;
    }

    // Dropping the generation closes the supervisor's files.
    method DropGeneration()
      requires Tracked()
      modifies this`usb, world
      ensures Tracked() && usb.None?
      ensures var was, s := old(world.state), world.state;
              s == was.(files := was.files.(open := None, unread := s.files.unread))
      ensures old(world.state.files.unread) == [] ==> world.state.files.unread == []
      ensures old(world.trace) <= world.trace
    {
      hide NamesFit, After, Safe, Sound;
      if usb.Some? {
        world.Act(Close);
      }
      usb := None;
    }

    method StopUsbGeneration() returns (r: Io)
      requires Tracked() && !world.state.session.lent
      modifies this`usb, this`functionFsMounted, this`ownsGadget, this`detachedAt, world
      ensures Tracked() && !r.Cancelled?
      ensures var was, s := old(world.state), world.state;
              s == was.(gadget := s.gadget, mount := s.mount, clock := s.clock,
                        files := was.files.(open := None, unread := s.files.unread))
      ensures usb.None? && !functionFsMounted && !ownsGadget
      ensures r.Fine? && old(Known()) ==> Cleared(world.state)
      ensures world.reliable && old(Known()) ==> r.Fine?
      ensures old(DwellAgrees()) ==> DwellAgrees()
      ensures old(world.state.files.unread) == [] ==> world.state.files.unread == []
      ensures r.Fine? && old(ownsGadget) ==>
                Unplugged(old(world.trace), world.trace, old(world.state.gadget.bound), [])
      ensures old(world.trace) <= world.trace
    {
      hide NamesFit, World.Valid, Allowed, Step, Needs, Removable, Unplugs;
      var first := Fine;
      ghost var part: seq<Event> := [];
      if ownsGadget {
        first := Unbind();
        part := world.trace[|old(world.trace)|..];
      }
      assert first.Fine? && old(ownsGadget) ==>
          Unplugs(part, old(world.state.gadget.bound)) && old(world.trace) + part + [] == world.trace;
      DropGeneration();
      var unmounted := UnmountOwned();
      first := First(first, unmounted);
      var removed := RemoveOwned();
      first := First(first, removed);
      var cleared := RemoveMountPointIfExists();
      SoundBinding(world);
      return First(first, cleared);
    }

    method UnmountOwned() returns (r: Io)
      requires world.Valid() && world.state.files.open.None? && !world.state.session.lent
      modifies this`functionFsMounted, world
      ensures world.Valid() && !functionFsMounted && !r.Cancelled?
      ensures var was, s := old(world.state), world.state; s == was.(mount := was.mount.(mounted := s.mount.mounted))
      ensures r.Fine? && old(functionFsMounted) ==> !world.state.mount.mounted
      ensures !old(functionFsMounted) ==> world.state == old(world.state)
      ensures world.reliable ==> r.Fine?
      ensures old(world.trace) <= world.trace
    {
      hide NamesFit, World.Valid, Allowed, Step;
      r := Fine;
      if functionFsMounted {
        r := UnmountFunctionFs();
        functionFsMounted := false;
      }
    }

    method RemoveOwned() returns (r: Io)
      requires world.Valid()
      modifies this`ownsGadget, world
      ensures world.Valid() && !ownsGadget && !r.Cancelled?
      ensures var was, s := old(world.state), world.state; s == was.(gadget := s.gadget)
      ensures r.Fine? && old(ownsGadget) ==> world.state.gadget.tree == {} && world.state.gadget.bound == Unbound
      ensures !old(ownsGadget) ==> world.state == old(world.state)
      ensures world.reliable ==> r.Fine?
      ensures old(world.trace) <= world.trace
    {
      hide NamesFit, World.Valid, Allowed, Step;
      r := Fine;
      if ownsGadget {
        r := RemoveGadgetTree();
        ownsGadget := false;
      }
    }

    method RemoveStaleGadget() returns (r: Io)
      requires Tracked() && Idle() && !ownsGadget
      modifies this`ownsGadget, this`detachedAt, world
      ensures Tracked() && Idle() && !r.Cancelled?
      ensures var was, s := old(world.state), world.state;
              s == was.(gadget := s.gadget, clock := s.clock)
      ensures r.Fine? ==> world.state.gadget.tree == {} && world.state.gadget.bound == Unbound && !ownsGadget
      ensures world.reliable ==> r.Fine?
      ensures world.reliable ==> Unplugged(old(world.trace), world.trace, old(world.state.gadget.bound), [])
      ensures old(DwellAgrees()) ==> DwellAgrees()
      ensures old(world.trace) <= world.trace
    {
      hide NamesFit, World.Valid, Allowed, Step, Needs, Removable, Unplugs, Unplugged;
      SoundTree(world);
      ghost var start, bound := world.trace, world.state.gadget.bound;
      if Gadget !in world.state.gadget.tree {
        NothingUnplugs();
        UnpluggedBy(start, start, [], Unbound, []);
        return Fine;
      }
      var ignored := Unbind();
      ghost var part := world.trace[|start|..];
      ownsGadget := true;
      r := RemoveGadgetTree();
      if ignored.Fine? {
        UnpluggedBy(start, world.trace, part, bound, []);
      }
      if r.Fine? {
        ownsGadget := false;
      }
    }

    /** The remains of an earlier run are removed before anything is created. */
    method CleanupStaleState() returns (r: Io)
      requires Tracked() && Idle() && !ownsGadget
      modifies this`ownsGadget, this`detachedAt, world
      ensures Tracked() && Idle() && !r.Cancelled?
      ensures var was, s := old(world.state), world.state;
              s == was.(gadget := s.gadget, mount := s.mount, clock := s.clock)
      ensures r.Fine? ==> Cleared(world.state) && !ownsGadget
      ensures world.reliable ==> r.Fine?
      // The remains are unbound before they are taken down.
      ensures world.reliable ==> Unplugged(old(world.trace), world.trace, old(world.state.gadget.bound), [])
      ensures old(DwellAgrees()) ==> DwellAgrees()
      ensures old(world.trace) <= world.trace
    {
      hide NamesFit, World.Valid, Allowed, Step, Needs, Removable, Unplugged;
      :- RemoveStaleGadget();
      ghost var removed := world.trace;
      :- UnmountFunctionFs();
      r := RemoveMountPointIfExists();
      if world.reliable {
        UnpluggedMore(old(world.trace), removed, world.trace, old(world.state.gadget.bound), []);
      }
    }

    // Building a generation.

    method WriteAttribute(a: ConfigFs.Attribute, v: Text) returns (r: Io)
      requires world.Valid() && !world.state.session.lent && Holder(a) in world.state.gadget.tree
      modifies world
      ensures world.Valid() && !r.Cancelled?
      ensures world.Faultless() ==> r.Fine?
      ensures var was, s := old(world.state), world.state;
              s == if r.Fine? then was.(settings := was.settings[a := v]) else was
      ensures old(world.trace) <= world.trace
    {
      hide World.Valid;
      var ok := world.Try(Write(a, v));
      return if ok then Fine else Failed;
    }

    /** Attributes written one after the other, until one fails. */
    method WriteAll(writes: seq<ConfigFs.Assignment>) returns (r: Io)
      requires world.Valid() && !world.state.session.lent
      requires forall i :: 0 <= i < |writes| ==> Holder(writes[i].attribute) in world.state.gadget.tree
      modifies world
      ensures world.Valid() && !r.Cancelled?
      ensures world.Faultless() ==> r.Fine?
      ensures var was, s := old(world.state), world.state; s == was.(settings := s.settings)
      ensures r.Fine? ==> world.state.settings == ConfigFs.Written(old(world.state.settings), writes)
      ensures old(world.trace) <= world.trace
    {
      hide World.Valid, Allowed, Step, Holder;
      for i := 0 to |writes|
        invariant world.Valid() && old(world.trace) <= world.trace
        invariant var was, s := old(world.state), world.state; s == was.(settings := s.settings)
        invariant world.state.settings == ConfigFs.Written(old(world.state.settings), writes[..i])
      {
        assert writes[..i + 1][..i] == writes[..i];
        var written := WriteAttribute(writes[i].attribute, writes[i].text);
        if !written.Fine? {
          return written;
        }
      }
      assert writes[..|writes|] == writes;
      return Fine;
    }

    method CreateNode(n: Node) returns (r: Io)
      requires world.Valid() && !world.state.session.lent
               && n !in world.state.gadget.tree && Needs(n) <= world.state.gadget.tree
      modifies world
      ensures world.Valid() && !r.Cancelled?
      ensures world.Faultless() ==> r.Fine?
      ensures var was, s := old(world.state), world.state;
              if r.Fine? then
                s == was.(gadget := was.gadget.(tree := was.gadget.tree + {n}),
                          settings := if n == Gadget then map[] else was.settings)
              else s == was
      ensures old(world.trace) <= world.trace
    {
      hide World.Valid;
      var ok := world.Try(Make(n));
      return if ok then Fine else Failed;
    }

    // The gadget's directory, and the identity it presents.
    method CreateGadget(p: Projection) returns (r: Io)
      requires world.Valid() && !world.state.session.lent && world.state.gadget.tree == {}
      modifies this`ownsGadget, world
      ensures world.Valid() && !r.Cancelled?
      ensures world.Faultless() ==> r.Fine?
      ensures var was, s := old(world.state), world.state;
              s == was.(gadget := was.gadget.(tree := s.gadget.tree), settings := s.settings)
      ensures world.state.gadget.tree != {} ==> ownsGadget
      ensures r.Fine? ==>
                && world.state.gadget.tree == {Gadget}
                && world.state.settings == ConfigFs.Written(map[], ConfigFs.IdentityWrites(p))
      ensures old(world.trace) <= world.trace
    {
      hide World.Valid, Allowed, Step, ConfigFs.Written;
      r := CreateNode(Gadget);
      if r.Fine? {
        ownsGadget := true;
        r := WriteAll(ConfigFs.IdentityWrites(p));
      }
    }

    // The strings and the configuration.
    method CreateConfig(p: Projection) returns (r: Io)
      requires world.Valid() && !world.state.session.lent && world.state.gadget.tree == {Gadget}
      modifies world
      ensures world.Valid() && !r.Cancelled?
      ensures world.Faultless() ==> r.Fine?
      ensures var was, s := old(world.state), world.state;
              s == was.(gadget := was.gadget.(tree := s.gadget.tree), settings := s.settings)
      ensures r.Fine? ==>
                && world.state.gadget.tree == {Gadget, GadgetStrings, Config}
                && world.state.settings == ConfigFs.Written(
                     ConfigFs.Written(old(world.state.settings), ConfigFs.StringWrites(p)), ConfigFs.ConfigWrites(p))
      ensures old(world.trace) <= world.trace
    {
      hide World.Valid, Allowed, Step, ConfigFs.Written;
      r := CreateNode(GadgetStrings);
      if r.Fine? {
        r := WriteAll(ConfigFs.StringWrites(p));
      }
      if r.Fine? {
        r := CreateNode(Config);
      }
      if r.Fine? {
        r := WriteAll(ConfigFs.ConfigWrites(p));
      }
    }

    // The Microsoft OS attributes, and the link that makes them take effect.
    method EnableMicrosoftOs(m: MicrosoftProjection.Microsoft) returns (r: Io)
      requires world.Valid() && !world.state.session.lent && world.state.gadget.tree == {Gadget, GadgetStrings, Config}
      modifies world
      ensures world.Valid() && !r.Cancelled?
      ensures world.Faultless() ==> r.Fine?
      ensures var was, s := old(world.state), world.state;
              s == was.(gadget := was.gadget.(tree := s.gadget.tree), settings := s.settings)
      ensures r.Fine? ==>
                && world.state.gadget.tree == {Gadget, GadgetStrings, Config, OsLink}
                && world.state.settings == ConfigFs.Written(old(world.state.settings), ConfigFs.MicrosoftWrites(m))
      ensures old(world.trace) <= world.trace
    {
      hide World.Valid, Allowed, Step, ConfigFs.Written;
      r := WriteAll(ConfigFs.MicrosoftWrites(m));
      if r.Fine? {
        r := CreateNode(OsLink);
      }
    }

    /** The nodes of a populated gadget. */
    function NodesOf(p: Projection): set<Node> {
      {Gadget, GadgetStrings, Config} + if p.microsoftOs1.Some? then {OsLink} else {}
    }

    method EnableCapabilities(p: Projection) returns (r: Io)
      requires world.Valid() && !world.state.session.lent && world.state.gadget.tree == {Gadget, GadgetStrings, Config}
      requires world.state.settings == ConfigFs.Basic(p)
      modifies world
      ensures world.Valid() && !r.Cancelled?
      ensures world.Faultless() ==> r.Fine?
      ensures var was, s := old(world.state), world.state;
              s == was.(gadget := was.gadget.(tree := s.gadget.tree), settings := s.settings)
      ensures r.Fine? ==> world.state.gadget.tree == NodesOf(p) && world.state.settings == ConfigFs.SettingsOf(p)
      ensures old(world.trace) <= world.trace
    {
      hide World.Valid, Allowed, Step, ConfigFs.Written, ConfigFs.Basic;
      if p.microsoftOs1.Some? {
        var enabled := EnableMicrosoftOs(p.microsoftOs1.value);
        if !enabled.Fine? {
          return enabled;
        }
      }
      r := Fine;
      if p.webUsb.Some? {
        r := WriteAll(ConfigFs.WebUsbWrites(p.webUsb.value));
      }
    }

    method PopulateGadget(p: Projection) returns (r: Io)
      requires world.Valid() && !world.state.session.lent && world.state.gadget.tree == {}
      modifies this`ownsGadget, world
      ensures world.Valid() && !r.Cancelled?
      ensures world.Faultless() ==> r.Fine?
      ensures var was, s := old(world.state), world.state;
              s == was.(gadget := was.gadget.(tree := s.gadget.tree), settings := s.settings)
      ensures world.state.gadget.tree != {} ==> ownsGadget
      ensures r.Fine? ==>
                world.state.gadget.tree == NodesOf(p) + {Function} && world.state.settings == ConfigFs.SettingsOf(p)
      ensures old(world.trace) <= world.trace
    {
      hide World.Valid, Allowed, Step, ConfigFs.Written, ConfigFs.SettingsOf;
      r := CreateGadget(p);
      if r.Fine? {
        r := CreateConfig(p);
      }
      if r.Fine? {
        r := EnableCapabilities(p);
      }
      if r.Fine? {
        r := CreateNode(Function);
      }
    }

    method MountFunctionFs() returns (r: Io)
      requires world.Valid() && !world.state.mount.mounted && Function in world.state.gadget.tree
      modifies this`functionFsMounted, world
      ensures world.Valid() && !r.Cancelled?
      ensures world.Faultless() ==> r.Fine?
      ensures var was, s := old(world.state), world.state; s == was.(mount := s.mount)
      ensures r.Fine? <==> world.state.mount.mounted
      ensures functionFsMounted == (old(functionFsMounted) || r.Fine?)
      ensures old(world.trace) <= world.trace
    {
      hide World.Valid;
      var ok := world.Try(MakeMountPoint);
      if !ok {
        return Failed;
      }
      ok := world.Try(Mount);
      if !ok {
        return Failed;
      }
      functionFsMounted := true;
      return Fine;
    }

    /** Opens EP0, writes the two blobs, and opens a file for each endpoint the validator reads, in its direction. */
    method PublishFunctionFs(p: Projection) returns (r: Io, files: seq<FunctionFs.Direction>)
      requires world.Valid() && !world.state.session.lent && world.state.mount.mounted && world.state.files.open.None?
      modifies world
      ensures world.Valid() && !r.Cancelled?
      ensures var was, s := old(world.state), world.state;
              s == if r.Fine? then was.(files := Files(Some(files), [p.descriptors, p.strings], NO_TRANSFER, [], []))
                   else was
      ensures var inspection := FunctionFs.Inspected(p.descriptors, p.strings);
              world.Faultless() && inspection.Ok? && |inspection.value.endpoints| == |p.endpoints| ==> r.Fine?
      ensures r.Fine? ==>
                var inspection := FunctionFs.Inspected(p.descriptors, p.strings);
                && inspection.Ok?
                && |files| == |inspection.value.endpoints|
                && forall i :: 0 <= i < |files| ==> files[i] == inspection.value.endpoints[i].direction
      ensures old(world.trace) <= world.trace
    {
      hide NamesFit, World.Valid, FunctionFs.Inspected;
      files := [];
      var inspection := FunctionFs.Inspect(p.descriptors, p.strings);
      if !inspection.Ok? {
        return Failed, files;
      }
      if |inspection.value.endpoints| != |p.endpoints| {
        return Failed, files;
      }
      var ok := world.Call();
      if !ok {
        return Failed, files;
      }
      ok := world.Call();
      if !ok {
        return Failed, files;
      }
      var blobs := [p.descriptors];
      ok := world.Call();
      if !ok {
        return Failed, files;
      }
      blobs := blobs + [p.strings];
      for i := 0 to |inspection.value.endpoints|
        invariant world.Valid() && world.state == old(world.state) && world.trace == old(world.trace)
        invariant |files| == i
        invariant forall k :: 0 <= k < i ==> files[k] == inspection.value.endpoints[k].direction
      {
        ok := world.Call();
        if !ok {
          return Failed, files;
        }
        files := files + [inspection.value.endpoints[i].direction];
      }
      world.Act(Open(blobs, files));
      return Fine, files;
    }

    method LinkFunction() returns (r: Io)
      requires world.Valid() && !world.state.session.lent && FunctionLink !in world.state.gadget.tree
               && {Config, Function} <= world.state.gadget.tree
      modifies world
      ensures world.Valid() && !r.Cancelled?
      ensures world.Faultless() ==> r.Fine?
      ensures var was, s := old(world.state), world.state;
              s == if r.Fine? then was.(gadget := was.gadget.(tree := was.gadget.tree + {FunctionLink})) else was
      ensures old(world.trace) <= world.trace
    {
      hide World.Valid;
      r := CreateNode(FunctionLink);
    }

    /** Gadget, mount, endpoint files and function link for a projection. */
    method Assemble(p: Projection) returns (r: Io)
      requires Tracked() && usb.None? && Cleared(world.state) && !functionFsMounted && !world.state.session.lent
      modifies this`ownsGadget, this`functionFsMounted, this`usb, world
      ensures Tracked() && Known() && !r.Cancelled?
      ensures var was, s := old(world.state), world.state;
              s == was.(gadget := was.gadget.(tree := s.gadget.tree), settings := s.settings, mount := s.mount,
                        files := s.files)
      ensures r.Fine? ==>
                var inspection := FunctionFs.Inspected(p.descriptors, p.strings);
                && ownsGadget && functionFsMounted && usb.Some? && Counted()
                && world.state.settings == ConfigFs.SettingsOf(p)
                && FunctionLink in world.state.gadget.tree && world.state.files.unread == []
                && world.state.files.transfer == NO_TRANSFER
                && world.state.files.blobs == [p.descriptors, p.strings]
                && inspection.Ok?
                && |usb.value.endpoints| == |inspection.value.endpoints|
                && forall i :: 0 <= i < |usb.value.endpoints| ==>
                     usb.value.endpoints[i] == inspection.value.endpoints[i].direction
      ensures !FunctionFs.Inspected(p.descriptors, p.strings).Ok? ==> usb.None?
      ensures var inspection := FunctionFs.Inspected(p.descriptors, p.strings);
              world.Faultless() && inspection.Ok? && |inspection.value.endpoints| == |p.endpoints| ==> r.Fine?
      ensures old(world.trace) <= world.trace
    {
      hide NamesFit, World.Valid, Allowed, Step, FunctionFs.Inspected, FreshEnables, Enabled, ConfigFs.SettingsOf;
      :- PrepareGadget(p);
      var published, files := PublishFunctionFs(p);
      if !published.Fine? {
        return published;
      }
      usb := Some(UsbGeneration(files, false, 0));
      NothingEnabled();
      r := LinkFunction();
    }

    // The gadget, and FunctionFS on its mount point.
    method PrepareGadget(p: Projection) returns (r: Io)
      requires Tracked() && usb.None? && Cleared(world.state) && !functionFsMounted && !world.state.session.lent
      modifies this`ownsGadget, this`functionFsMounted, world
      ensures Tracked() && Known() && !r.Cancelled?
      ensures var was, s := old(world.state), world.state;
              s == was.(gadget := was.gadget.(tree := s.gadget.tree), settings := s.settings, mount := s.mount)
      ensures r.Fine? ==>
                && ownsGadget && functionFsMounted && world.state.mount.mounted
                && world.state.settings == ConfigFs.SettingsOf(p)
                && {Config, Function} <= world.state.gadget.tree && FunctionLink !in world.state.gadget.tree
      ensures world.Faultless() ==> r.Fine?
      ensures old(world.trace) <= world.trace
    {
      hide NamesFit, World.Valid, Allowed, Step, ConfigFs.SettingsOf;
      :- PopulateGadget(p);
      r := MountFunctionFs();
    }

    // The worker's part.

    /** Lends the endpoint files to the worker, and waits until it reports Serving. */
    method Announce(p: Projection, requestId: u32) returns (r: Io)
      requires Tracked() && control && usb.Some? && Fits(usb.value.endpoints, p.endpoints)
      requires var s := world.state;
               && s.gadget.bound == Unbound && FunctionLink in s.gadget.tree && !s.session.lent
                  && generation as nat == s.session.generation + 1
               && s.ledger.owed == {}
               && s.session.asked.Some? && s.session.asked.value.requestId == requestId
                  && |s.session.asked.value.body| > 0
               && Carries(s, p.endpoints, world.setting.plans(s.session.asked.value.body))
               && (s.process.limited <==> !s.session.replacing)
      modifies world
      ensures Tracked() && !r.Cancelled?
      ensures var was, s := old(world.state), world.state;
              s == was.(session := s.session,
                        ledger := s.ledger)
      ensures world.state.ledger.lastRequest == old(world.state.ledger.lastRequest)
      ensures r.Fine? ==> world.state.ledger.declared == old(world.state.ledger.declared)
      ensures r.Fine? ==> Served(world.trace, |old(world.trace)|, generation, requestId, p.endpoints)
      ensures world.Faultless() && !r.Fine? ==>
                |p.endpoints| > 0xFFFF
                || Misheard(world.trace, |old(world.trace)|, Reply(Serving, generation, requestId))
      ensures r.Fine? ==>
                var s := world.state;
                && s.session.asked.None?
                && s.session.generation == generation && s.session.loan == Some(Loan(generation, requestId))
                && s.session.lent && s.session.serving && s.ledger.owed == {}
                && s.ledger.servingLimited == old(world.state.process.limited)
      ensures old(world.trace) <= world.trace
    {
      hide NamesFit, World.Valid, Fits, Carries, Misheard;
      var body := EndpointMap(p.endpoints);
      if !body.Ok? {
        return Failed;
      }
      r := LendFiles(requestId, p.endpoints, body.value);
      if !r.Fine? {
        return;
      }
      ghost var n := |old(world.trace)|;
      ghost var lent := world.trace;
      r := ExpectRecord(Serving, generation, requestId);
      if r.Fine? {
        assert world.trace[n] == Lend(generation, requestId, p.endpoints, body.value, usb.value.endpoints);
        assert world.trace[n + 1] == Await(Serving);
        assert world.trace[n + 2] == Hear(Record(Serving, generation, requestId, [], []));
      } else if world.Faultless() {
        MisheardMore(world.trace, world.trace, n, |lent|, Reply(Serving, generation, requestId));
      }
    }

    // The record UsbEndpoints.
    method LendFiles(requestId: u32, endpoints: seq<Endpoint>, body: seq<byte>) returns (r: Io)
      requires world.Valid() && world.state.process.channel && usb.Some? && Fits(usb.value.endpoints, endpoints)
      requires var s := world.state;
               && s.gadget.bound == Unbound && FunctionLink in s.gadget.tree && !s.session.lent
                  && generation as nat == s.session.generation + 1 && s.files.open == Some(usb.value.endpoints)
               && s.session.asked.Some? && s.session.asked.value.requestId == requestId
                  && |s.session.asked.value.body| > 0
               && Carries(s, endpoints, world.setting.plans(s.session.asked.value.body))
      requires EndpointMapOf(endpoints) == Ok(body)
      modifies world
      ensures world.Valid() && !r.Cancelled?
      ensures world.Faultless() ==> r.Fine?
      ensures var was, s := old(world.state), world.state;
              if r.Fine? then
                s == was.(session := was.session.(
                            generation := generation, asked := None, loan := Some(Loan(generation, requestId)),
                            lent := true, serving := false),
                          ledger := was.ledger.(owed := was.ledger.owed + {Reply(Serving, generation, requestId)}))
              else s == was
      ensures world.trace
           == if r.Fine? then old(world.trace) + [Lend(generation, requestId, endpoints, body, usb.value.endpoints)]
              else old(world.trace)
    {
      hide World.Valid, Fits, Carries, EndpointMapOf;
      var ok := world.Try(Lend(generation, requestId, endpoints, body, usb.value.endpoints));
      return if ok then Fine else Failed;
    }

    /** Sleeps until the dwell after the last unbind has passed; not at all if there was none. */
    method WaitForReconnectDwell()
      requires Tracked()
      modifies this`detachedAt, world
      ensures Tracked() && detachedAt.None?
      ensures var was, s := old(world.state), world.state; s == was.(clock := was.clock.(now := s.clock.now))
      ensures old(detachedAt).Some? ==> world.state.clock.now >= world.state.clock.detached.value.at + 250
      ensures old(detachedAt).None? ==> world.state == old(world.state) && world.trace == old(world.trace)
      ensures old(world.trace) <= world.trace
    {
      hide NamesFit, After, Safe, Rooted;
      if detachedAt.None? {
        return;
      }
      var noted := detachedAt.value;
      detachedAt := None;
      world.Elapse();
      var elapsed := world.state.clock.now - noted;
      var remaining := if elapsed < DWELL then DWELL - elapsed else 0;
      if remaining != 0 {
        world.Act(Sleep(remaining));
        world.Elapse();
      }
    }

    method AttachGadget() returns (r: Io)
      requires Tracked() && DwellAgrees() && control && usb.Some? && FunctionLink in world.state.gadget.tree
      requires world.state.gadget.bound == Unbound && world.state.session.serving && world.state.session.lent
      modifies this`detachedAt, world
      ensures Tracked() && !r.Cancelled?
      ensures world.Faultless() ==> r.Fine?
      ensures var was, s := old(world.state), world.state;
              s == was.(gadget := was.gadget.(bound := s.gadget.bound), clock := s.clock)
      ensures r.Fine? ==>
                && DwellAgrees() && world.state.session.loan.Some?
                && var loan := world.state.session.loan.value;
                   world.state.gadget.bound == Attached(loan.generation, loan.request)
      ensures old(world.trace) <= world.trace
    {
      hide NamesFit, After, Safe, Rooted;
      WaitForReconnectDwell();
      var ok := world.Try(Attach);
      return if ok then Fine else Failed;
    }

    // Configuring.

    /** The world's plan for a Configure body is `discover_bundle`'s projection. */
    ghost predicate Judged() {
      forall body: seq<byte> ::
        world.setting.plans(body) == if Judgement(body).Ok? then Some(PlanOf(Judgement(body).value)) else None
    }

    ghost function Judgement(body: seq<byte>): Outcome<Projection> {
      if fromCbor(body).None? then Err(Invalid) else Discovered(fromCbor(body).value)
    }

    /** An accepted body whose blobs `inspect` accepts. */
    ghost predicate Presentable(body: seq<byte>)
      requires Judgement(body).Ok?
    {
      Agreement.Inspectable(Judgement(body).value.endpoints, fromCbor(body).value.microsoftOs1)
    }

    lemma PresentableExactly(body: seq<byte>)
      requires Judgement(body).Ok?
      ensures var p := Judgement(body).value;
              FunctionFs.Inspected(p.descriptors, p.strings).Ok? <==> Presentable(body)
    {
      hide Discovered, FunctionFs.Inspected, Agreement.Inspectable;
      Bundles.BundleInspected(fromCbor(body).value);
    }

    /** `discover_bundle`. */
    method Discover(body: seq<byte>) returns (r: Outcome<Projection>)
      ensures r == Judgement(body)
    {
      var bundle := fromCbor(body);
      if bundle.None? {
        return Err(Invalid);
      }
      r := DiscoverBundle(bundle.value);
    }

    /** Ready, without a generation. */
    ghost predicate Vacant()
      reads this, world
    {
      Calm() && usb.None?
    }

    /** A declaration `configure` does not take. */
    predicate Mismatched(declaration: Message)
      reads this
    {
      declaration.kind != Kind.Configure || declaration.generation != generation || declaration.requestId == 0
      || |declaration.descriptors| != 0
    }

    // Unbind, quiesce, stop: how a serving generation ends.
    method EndGeneration(requestId: u32) returns (r: Io)
      requires Calm() && usb.Some?
      modifies this`usb, this`functionFsMounted, this`ownsGadget, this`detachedAt, this`control, world
      ensures Linked() && !r.Cancelled?
      ensures world.state.session.asked == old(world.state.session.asked)
      ensures r.Fine? ==> Vacant() && world.state.session.replacing && !world.state.process.limited
      ensures r.Fine? ==> world.state.ledger.declared == old(world.state.ledger.declared)
      // The gadget is unbound first, then the worker gives up its files, and only then anything is taken down.
      ensures r.Fine? ==>
                Unplugged(
                  old(world.trace), world.trace, old(world.state.gadget.bound), QuiesceExchange(generation, requestId))
      ensures world.Faultless() && !r.Fine? ==>
                Misheard(world.trace, |old(world.trace)|, Reply(Quiesced, generation, requestId))
      ensures old(world.trace) <= world.trace
    {
      hide NamesFit, World.Valid, Allowed, Step, FreshEnables, Enabled, Misheard, Unplugged, Unplugs, QuiesceExchange;
      r := Unbind();
      if !r.Fine? {
        return;
      }
      ghost var start, part := old(world.trace), world.trace[|old(world.trace)|..];
      ghost var unbound := world.trace;
      assert Unplugs(part, old(world.state.gadget.bound)) && unbound == start + part;
      r := QuiesceWorker(requestId);
      if !r.Fine? {
        if world.Faultless() {
          MisheardMore(world.trace, world.trace, |start|, |unbound|, Reply(Quiesced, generation, requestId));
        }
        return;
      }
      ghost var quiesced := world.trace;
      UnpluggedBy(start, quiesced, part, old(world.state.gadget.bound), QuiesceExchange(generation, requestId));
      SoundLoan(world);
      r := StopUsbGeneration();
      UnpluggedMore(
        start, quiesced, world.trace, old(world.state.gadget.bound), QuiesceExchange(generation, requestId));
    }

    method RejectConfiguration(requestId: u32) returns (r: Io)
      requires world.Valid() && world.state.process.channel && generation as nat == world.state.session.generation
      requires var asked := world.state.session.asked;
               asked.Some? && asked.value.requestId == requestId && |asked.value.body| > 0
               && world.setting.plans(asked.value.body).None?
      modifies world
      ensures world.Valid() && !r.Cancelled?
      ensures world.Faultless() ==> r.Fine?
      ensures var was, s := old(world.state), world.state;
              s == was.(session := was.session.(asked := if r.Fine? then None else was.session.asked))
      ensures r.Fine? ==> world.trace == old(world.trace) + [Reject(generation, requestId)]
      ensures !r.Fine? ==> world.trace == old(world.trace)
    {
      hide World.Valid;
      var ok := world.Try(Reject(generation, requestId));
      return if ok then Fine else Failed;
    }

    // The empty Configure.
    method Unconfigure(requestId: u32, initial: bool) returns (r: Io)
      requires Calm() && world.state.ledger.declared.None?
               && world.state.session.asked.Some? && |world.state.session.asked.value.body| == 0
      modifies this`usb, this`functionFsMounted, this`ownsGadget, this`detachedAt, this`control, world
      ensures Linked() && !r.Cancelled?
      ensures r.Fine? ==> Ready() && usb.None? && generation == old(generation)
      ensures r.Fine? && old(usb).Some? ==> detachedAt.None?
      ensures r.Fine? && old(usb).Some? ==>
                Unplugged(
                  old(world.trace), world.trace, old(world.state.gadget.bound), QuiesceExchange(generation, requestId))
      ensures world.Faultless() && !r.Fine? ==>
                if old(usb).None? then !initial
                else Misheard(world.trace, |old(world.trace)|, Reply(Quiesced, generation, requestId))
      ensures old(world.trace) <= world.trace
    {
      hide NamesFit, World.Valid, Allowed, Step, FreshEnables, Enabled, Unplugged, Misheard;
      if usb.None? {
        if !initial {
          return Failed;
        }
        r := SetReadTimeout(false);
        if r.Fine? {
          SettleEmpty(Settle);
        }
        return;
      }
      :- EndGeneration(requestId);
      ghost var ended := world.trace;
      detachedAt := None;
      SettleEmpty(Emptied);
      UnpluggedMore(
        old(world.trace), ended, world.trace, old(world.state.gadget.bound), QuiesceExchange(generation, requestId));
      return Fine;
    }

    // The empty declaration is dealt with; an unbind before it is forgotten if it was for this.
    method SettleEmpty(e: Event)
      requires world.Valid() && e in {Settle, Emptied} && Cleared(world.state) && !world.state.session.lent
      requires world.state.session.asked.Some? && |world.state.session.asked.value.body| == 0
      modifies world
      ensures world.Valid() && world.trace == old(world.trace) + [e]
      ensures var was, s := old(world.state), world.state;
              s == was.(session := was.session.(asked := None),
                        clock := was.clock.(detached := if e == Emptied then None else was.clock.detached))
    {
      hide World.Valid;
      world.Act(e);
    }

    // From the accepted projection to the attached gadget.
    method BringUp(p: Projection, requestId: u32) returns (r: Io)
      requires Vacant() && Judged() && world.state.ledger.declared.None?
      requires var asked := world.state.session.asked;
               && asked.Some? && asked.value.requestId == requestId && |asked.value.body| > 0
               && Judgement(asked.value.body) == Ok(p)
      requires world.state.process.limited <==> !world.state.session.replacing
      modifies this`usb, this`functionFsMounted, this`ownsGadget, this`detachedAt, this`generation, world
      ensures Linked() && !r.Cancelled?
      ensures r.Fine? ==>
                && Ready() && usb.Some? && generation == old(generation) + 1
                && world.state.gadget.bound == Attached(generation, requestId)
                && world.state.settings == ConfigFs.SettingsOf(p)
                && (world.state.ledger.servingLimited <==> old(world.state.process.limited))
                && world.state.files.blobs == [p.descriptors, p.strings]
                && Served(world.trace, |old(world.trace)|, generation, requestId, p.endpoints)
      ensures !FunctionFs.Inspected(p.descriptors, p.strings).Ok? ==> !r.Fine? && usb.None?
      ensures world.Faultless() && !r.Fine? ==>
                || old(generation) == 0xFFFF_FFFF
                || !FunctionFs.Inspected(p.descriptors, p.strings).Ok?
                || Misheard(world.trace, |old(world.trace)|, Reply(Serving, old(generation) as nat + 1, requestId))
      ensures old(world.trace) <= world.trace
    {
      hide NamesFit, World.Valid, Allowed, Step, FunctionFs.Inspected, Discovered, FreshEnables, Enabled;
      hide ConfigFs.SettingsOf, Fits, Mismatched, Judged, Misheard, Served, FunctionFs.Inspected, Carries;
      if generation == 0xFFFF_FFFF {
        return Failed;
      }
      generation := generation + 1;
      ghost var body := world.state.session.asked.value.body;
      InspectedInNumber(fromCbor(body).value, p);
      r := Assemble(p);
      if !r.Fine? {
        return;
      }
      FilesFit(fromCbor(body).value, p, usb.value.endpoints);
      PlanFor(body);
      PlanCarried(world.state, p);
      ghost var n, assembled := |old(world.trace)|, |world.trace|;
      r := ServeAndAttach(p, requestId);
      if r.Fine? {
        ServedMore(world.trace, world.trace, n, assembled, generation, requestId, p.endpoints);
      } else if world.Faultless() {
        MisheardMore(world.trace, world.trace, n, assembled, Reply(Serving, generation, requestId));
      }
    }

    lemma PlanFor(body: seq<byte>)
      requires Judged() && Judgement(body).Ok?
      ensures world.setting.plans(body) == Some(PlanOf(Judgement(body).value))
    {
    }

    // From the assembled gadget to the attached one.
    method ServeAndAttach(p: Projection, requestId: u32) returns (r: Io)
      requires Linked() && Known() && control && usb.Some? && ownsGadget && functionFsMounted
               && DwellAgrees() && Counted()
      requires Fits(usb.value.endpoints, p.endpoints)
      requires var s := world.state;
               && s.gadget.bound == Unbound && FunctionLink in s.gadget.tree && !s.session.lent
                  && generation as nat == s.session.generation + 1
               && s.ledger.owed == {} && s.ledger.declared.None? && s.files.unread == []
               && s.files.transfer == NO_TRANSFER
               && s.session.asked.Some? && s.session.asked.value.requestId == requestId
                  && |s.session.asked.value.body| > 0
               && Carries(s, p.endpoints, world.setting.plans(s.session.asked.value.body))
               && (s.process.limited <==> !s.session.replacing)
      modifies this`detachedAt, world
      ensures Linked() && !r.Cancelled?
      ensures r.Fine? ==>
                && Ready()
                && world.state.gadget.bound == Attached(generation, requestId)
                && world.state.settings == old(world.state.settings)
                && world.state.files.blobs == old(world.state.files.blobs)
                && (world.state.ledger.servingLimited <==> old(world.state.process.limited))
                && Served(world.trace, |old(world.trace)|, generation, requestId, p.endpoints)
      ensures world.Faultless() && !r.Fine? ==>
                || |p.endpoints| > 0xFFFF
                || Misheard(world.trace, |old(world.trace)|, Reply(Serving, generation, requestId))
      ensures old(world.trace) <= world.trace
    {
      hide NamesFit, World.Valid, Allowed, Step, FreshEnables, Enabled, Fits, Carries, Misheard, Served;
      :- Announce(p, requestId);
      ghost var served := world.trace;
      :- AttachGadget();
      :- SetReadTimeout(false);
      // The debug copy of the bundle.
      var ok := world.Call();
      ServedMore(
        served, world.trace, |old(world.trace)|, |old(world.trace)|, generation, requestId, p.endpoints);
      return if ok then Fine else Failed;
    }

    method TakeDeclaration(declaration: Message)
      requires world.Valid() && world.state.process.channel && generation == world.state.session.generation
      requires !Mismatched(declaration)
      requires world.state.session.asked.None? && world.state.ledger.declared == Some(declaration)
      modifies world
      ensures world.Valid() && world.trace == old(world.trace) + [Ask(declaration)]
      ensures var was, s := old(world.state), world.state;
              s == was.(session := was.session.(asked := Some(declaration), replacing := false),
                        ledger := was.ledger.(declared := None))
    {
      hide World.Valid;
      world.Act(Ask(declaration));
    }

    method Configure(declaration: Message, initial: bool) returns (r: Io)
      requires Attending(declaration) && Judged() && (initial || !world.state.process.limited)
      modifies this`usb, this`functionFsMounted, this`ownsGadget, this`detachedAt, this`control, this`generation, world
      ensures Linked() && !r.Cancelled?
      ensures r.Fine? ==> Ready() && generation <= old(generation) + 1
      ensures if old(Mismatched(declaration)) then !r.Fine? && world.trace == old(world.trace)
              else old(world.trace) + [Ask(declaration)] <= world.trace
      // An accepted personality is attached under the next number. The wait for Serving is limited in time exactly
      // when no generation had to be ended first.
      ensures r.Fine? && |declaration.body| > 0 && Judgement(declaration.body).Ok? ==>
                && usb.Some? && generation == old(generation) + 1
                && world.state.gadget.bound == Attached(generation, declaration.requestId)
                && world.state.settings == ConfigFs.SettingsOf(Judgement(declaration.body).value)
                && (world.state.ledger.servingLimited <==> old(usb).None?)
      // The worker was lent the personality's own endpoints, behind its own blobs.
      ensures r.Fine? && |declaration.body| > 0 && Judgement(declaration.body).Ok? ==>
                var p := Judgement(declaration.body).value;
                && world.state.files.blobs == [p.descriptors, p.strings]
                && Served(world.trace, |old(world.trace)|, generation, declaration.requestId, p.endpoints)
      // A generation that served before was unbound and quiesced first, under the declaration's request.
      ensures r.Fine? && old(usb).Some? && |declaration.body| == 0 ==>
                Unplugged(
                  old(world.trace) + [Ask(declaration)], world.trace, old(world.state.gadget.bound),
                  QuiesceExchange(old(generation), declaration.requestId))
      ensures r.Fine? && old(usb).Some? && |declaration.body| > 0 && Judgement(declaration.body).Ok? ==>
                Unplugged(
                  old(world.trace) + [Ask(declaration), Limit(true)], world.trace, old(world.state.gadget.bound),
                  QuiesceExchange(old(generation), declaration.requestId))
      // When no call fails, configuring does not either, but for the reasons listed.
      ensures world.Faultless() && !r.Fine? && !old(Mismatched(declaration)) ==>
                Hindered(declaration, initial, old(usb), old(generation), |old(world.trace)|)
      // A personality that discover_bundle accepts and inspect refuses is never attached: this fails, and once the
      // personality has a number the generation that served before it is gone.
      ensures |declaration.body| > 0 && Judgement(declaration.body).Ok? && !Presentable(declaration.body) ==>
                !r.Fine? && (generation == old(generation) || usb.None?)
      // An empty personality leaves no generation, and its unbind is not followed by a dwell.
      ensures r.Fine? && |declaration.body| == 0 ==>
                usb.None? && generation == old(generation) && (old(usb).Some? ==> detachedAt.None?)
      // A rejected personality changes nothing, and is answered once.
      ensures !old(Mismatched(declaration)) && |declaration.body| > 0 && Judgement(declaration.body).Err? ==>
                && (r.Fine? ==> !initial)
                && generation == old(generation) && usb == old(usb) && control == old(control)
                && ownsGadget == old(ownsGadget) && functionFsMounted == old(functionFsMounted)
                && detachedAt == old(detachedAt)
                && (r.Fine? ==>
                      world.trace == old(world.trace) + [Ask(declaration), Reject(generation, declaration.requestId)])
      ensures !old(Mismatched(declaration)) && |declaration.body| > 0 && Judgement(declaration.body).Err? ==>
                var was, s := old(world.state), world.state;
                s == was.(session := was.session.(asked := s.session.asked, replacing := false),
                          ledger := was.ledger.(declared := None))
      ensures old(world.trace) <= world.trace
    {
      hide NamesFit, World.Valid, Allowed, Step, FreshEnables, Enabled, Judgement, Presentable, FunctionFs.Inspected;
      hide Judged, Misheard, Unplugged, Served, PlanOf, QuiesceExchange;
      if Mismatched(declaration) {
        return Failed;
      }
      TakeDeclaration(declaration);
      if |declaration.body| == 0 {
        ghost var asked := world.trace;
        r := Unconfigure(declaration.requestId, initial);
        if world.Faultless() && !r.Fine? && old(usb).Some? {
          MisheardSince(
            world.trace, |old(world.trace)|, |asked|, Reply(Quiesced, old(generation), declaration.requestId));
        }
        return;
      }
      var discovered := Discover(declaration.body);
      if discovered.Panic? {
        return Failed;
      }
      if discovered.Err? {
        NoPlanFor(declaration.body);
        :- RejectConfiguration(declaration.requestId);
        return if initial then Failed else Fine;
      }
      PresentableExactly(declaration.body);
      ghost var n, asked := |old(world.trace)|, |world.trace|;
      assert world.trace + [Limit(true)] == old(world.trace) + [Ask(declaration), Limit(true)];
      r := Replace(discovered.value, declaration.requestId);
      if r.Fine? {
        ServedMore(
          world.trace, world.trace, n, asked, generation, declaration.requestId, discovered.value.endpoints);
      } else {
        MisheardSince(world.trace, n, asked, Reply(Quiesced, old(generation), declaration.requestId));
        MisheardSince(world.trace, n, asked, Reply(Serving, old(generation) as nat + 1, declaration.requestId));
      }
    }

    lemma NoPlanFor(body: seq<byte>)
      requires Judged() && !Judgement(body).Ok?
      ensures world.setting.plans(body).None?
    {
    }

    /** Why configuring may fail although every call succeeds. */
    ghost predicate Hindered(
      declaration: Message, initial: bool, serving: Option<UsbGeneration>, was: u32, n: nat)
      reads this, world
    {
      var quiesced := Reply(Quiesced, was, declaration.requestId);
      var judgement := Judgement(declaration.body);
      if |declaration.body| == 0 then
        if serving.None? then !initial else Misheard(world.trace, n, quiesced)
      else
        || judgement.Panic?
        || (judgement.Err? && initial)
        || (judgement.Ok? &&
              (|| was == 0xFFFF_FFFF
               || !Presentable(declaration.body)
               || (serving.Some? && Misheard(world.trace, n, quiesced))
               || Misheard(world.trace, n, Reply(Serving, was as nat + 1, declaration.requestId))))
    }

    // An accepted personality takes the place of the generation that serves, if there is one.
    method Replace(p: Projection, requestId: u32) returns (r: Io)
      requires Calm() && Judged() && world.state.ledger.declared.None? && !world.state.session.replacing
      requires var asked := world.state.session.asked;
               && asked.Some? && asked.value.requestId == requestId && |asked.value.body| > 0
               && Judgement(asked.value.body) == Ok(p)
      modifies this`usb, this`functionFsMounted, this`ownsGadget, this`detachedAt, this`control, this`generation, world
      ensures Linked() && !r.Cancelled?
      ensures r.Fine? ==>
                && Ready() && usb.Some? && generation == old(generation) + 1
                && world.state.gadget.bound == Attached(generation, requestId)
                && world.state.settings == ConfigFs.SettingsOf(p)
                && (world.state.ledger.servingLimited <==> old(usb).None?)
                && world.state.files.blobs == [p.descriptors, p.strings]
                && Served(world.trace, |old(world.trace)|, generation, requestId, p.endpoints)
      ensures r.Fine? && old(usb).Some? ==>
                Unplugged(
                  old(world.trace) + [Limit(true)], world.trace, old(world.state.gadget.bound),
                  QuiesceExchange(old(generation), requestId))
      ensures !FunctionFs.Inspected(p.descriptors, p.strings).Ok? ==>
                !r.Fine? && (generation == old(generation) || usb.None?)
      ensures world.Faultless() && !r.Fine? ==>
                || old(generation) == 0xFFFF_FFFF
                || !FunctionFs.Inspected(p.descriptors, p.strings).Ok?
                || (old(usb).Some?
                    && Misheard(world.trace, |old(world.trace)|, Reply(Quiesced, old(generation), requestId)))
                || Misheard(world.trace, |old(world.trace)|, Reply(Serving, old(generation) as nat + 1, requestId))
      ensures old(world.trace) <= world.trace
    {
      hide NamesFit, World.Valid, Allowed, Step, FreshEnables, Enabled, Judgement, FunctionFs.Inspected;
      hide Judged, Misheard, Unplugged, Served, QuiesceExchange, ConfigFs.SettingsOf;
      ghost var n := |old(world.trace)|;
      :- SetReadTimeout(true);
      ghost var limited := world.trace;
      if usb.Some? {
        r := EndGeneration(requestId);
        if !r.Fine? {
          if world.Faultless() {
            MisheardMore(world.trace, world.trace, n, |limited|, Reply(Quiesced, generation, requestId));
          }
          return;
        }
      }
      ghost var ended := world.trace;
      r := BringUp(p, requestId);
      if r.Fine? {
        ServedMore(world.trace, world.trace, n, |ended|, generation, requestId, p.endpoints);
        if old(usb).Some? {
          UnpluggedMore(
            limited, ended, world.trace, old(world.state.gadget.bound), QuiesceExchange(old(generation), requestId));
        }
      } else if Misheard(world.trace, |ended|, Reply(Serving, old(generation) as nat + 1, requestId)) {
        MisheardMore(world.trace, world.trace, n, |ended|, Reply(Serving, old(generation) as nat + 1, requestId));
      }
    }

    // Starting and restarting the worker.

    /** Nothing of a generation or a worker is left, and time is accounted for. */
    ghost predicate Blank()
      reads this, world
    {
      && Tracked() && Idle() && !ownsGadget && Cleared(world.state) && DwellAgrees()
      && world.state.files.unread == [] && world.state.files.transfer.packet.None?
    }

    // The process, and the record of its initial resources.
    method SpawnWorker() returns (r: Io)
      requires world.Valid() && !world.state.process.worker && !world.state.process.channel
      requires !world.state.session.lent && world.state.gadget.bound == Unbound
      modifies world
      ensures world.Valid() && !r.Cancelled?
      ensures var was, s := old(world.state), world.state;
              if r.Fine? then
                s == was.(process := Process(true, true, true), session := Session(0, None, None, false, false, false),
                          ledger := was.ledger.(owed := {}, declared := None))
              else
                && s == was.(process := s.process, session := s.session,
                             ledger := was.ledger.(owed := s.ledger.owed, declared := s.ledger.declared))
                && !s.process.channel && !s.session.lent
      // A process is left behind exactly when it was started and its resource names cannot be sent.
      ensures !r.Fine? ==>
                (world.state.process.worker <==> |world.trace| > |old(world.trace)| && !NamesFit(resources))
      // Its first record holds the names of its resources.
      ensures r.Fine? ==> Equipped(old(world.trace), world.trace, resources)
      ensures old(world.trace) <= world.trace
    {
      hide World.Valid, Allowed, Step, NamesFit;
      :- Launch();
      var body := ResourceNames(resources);
      if !body.Ok? {
        // The channel is dropped, but nobody waits for the process.
        DropChannel();
        return Failed;
      }
      r := SendNames(body.value);
      if !r.Fine? {
        DropChannel();
        WaitForProcess();
        return;
      }
      assert world.trace == old(world.trace) + [Start, Supply(resources, body.value)];
    }

    method Launch() returns (r: Io)
      requires world.Valid() && !world.state.process.worker && !world.state.process.channel
      requires !world.state.session.lent && world.state.gadget.bound == Unbound
      modifies world
      ensures world.Valid() && !r.Cancelled?
      ensures var was, s := old(world.state), world.state;
              if r.Fine? then
                s == was.(process := Process(true, true, true), session := Session(0, None, None, false, false, false),
                          ledger := was.ledger.(owed := {}, declared := None))
              else s == was
      ensures world.trace == if r.Fine? then old(world.trace) + [Start] else old(world.trace)
    {
      hide World.Valid;
      var ok := world.Try(Start);
      return if ok then Fine else Failed;
    }

    method SendNames(body: seq<byte>) returns (r: Io)
      requires world.Valid() && world.state.process.channel && ResourceNamesOf(resources) == Ok(body)
      modifies world
      ensures world.Valid() && !r.Cancelled? && world.state == old(world.state)
      ensures world.trace == if r.Fine? then old(world.trace) + [Supply(resources, body)] else old(world.trace)
    {
      hide World.Valid, ResourceNamesOf;
      var ok := world.Try(Supply(resources, body));
      return if ok then Fine else Failed;
    }

    method DropChannel()
      requires world.Valid() && world.state.process.channel
      modifies world
      ensures world.Valid() && world.trace == old(world.trace) + [Event.Hangup]
      ensures var was, s := old(world.state), world.state;
              s == was.(process := was.process.(channel := false), ledger := was.ledger.(owed := {}))
    {
      hide World.Valid;
      world.Act(Event.Hangup);
    }

    method WaitForProcess()
      requires world.Valid() && world.state.process.worker && !world.state.process.channel
      modifies world
      ensures world.Valid() && world.trace == old(world.trace) + [Reap]
      ensures var was, s := old(world.state), world.state;
              s == was.(process := was.process.(worker := false), session := was.session.(lent := false))
    {
      hide World.Valid;
      world.Act(Reap);
    }

    method StartWorker() returns (r: Io)
      requires Blank() && !world.state.process.worker
      modifies this`worker, this`control, world
      ensures Blank() || r.Fine?
      ensures r.Fine? ==>
                && Tracked() && worker && control && DwellAgrees()
                && var was, s := old(world.state), world.state;
                   s == was.(process := Process(true, true, true),
                             session := Session(0, None, None, false, false, false),
                             ledger := was.ledger.(owed := {}, declared := None))
      ensures r.Fine? ==> Equipped(old(world.trace), world.trace, resources)
      ensures !r.Cancelled?
      ensures old(world.trace) <= world.trace
    {
      hide NamesFit, World.Valid, Allowed, Step;
      var prepared := PrepareWorker();
      if !prepared {
        return Failed;
      }
      :- SpawnWorker();
      worker, control := true, true;
      return Fine;
    }

    // The directories, the resources and the socket pair.
    method PrepareWorker() returns (ok: bool) {
      ok := world.Call();
      if ok {
        ok := world.Call();
      }
      if ok {
        ok := world.Call();
      }
      if ok {
        ok := world.Call();
      }
      if ok {
        ok := world.Call();
      }
    }

    /** A fresh worker, and its first declaration. */
    method StartAndConfigure() returns (r: Io)
      requires Blank() && !world.state.process.worker && Judged() && generation == 0
      modifies this`usb, this`functionFsMounted, this`ownsGadget, this`detachedAt, this`control, this`worker,
               this`generation, world
      ensures Linked() && !r.Cancelled?
      ensures r.Fine? ==> Ready() && generation <= 1 && StartedSince(world.trace, |old(world.trace)|)
      ensures old(world.trace) <= world.trace
    {
      hide NamesFit, World.Valid, FreshEnables, Enabled, Judged, Allowed, Step, Judgement, Mismatched;
      :- StartWorker();
      assert world.trace[|old(world.trace)|].Start? && world.state.session.asked.None?;
      var m := AwaitRecord(Kind.Configure);
      if m.None? {
        return Failed;
      }
      r := Configure(m.value, true);
    }

    method Setup() returns (r: Io)
      requires Tracked() && Idle() && !ownsGadget && DwellAgrees() && Judged() && generation == 0
      requires !world.state.process.worker && world.state.files.unread == []
               && world.state.files.transfer.packet.None?
      modifies this`usb, this`functionFsMounted, this`ownsGadget, this`detachedAt, this`control, this`worker,
               this`generation, world
      ensures Linked() && !r.Cancelled?
      ensures r.Fine? ==> Ready() && generation <= 1 && StartedSince(world.trace, |old(world.trace)|)
      ensures old(world.trace) <= world.trace
    {
      hide NamesFit, World.Valid, Judged, Allowed, Step;
      :- CleanupStaleState();
      r := StartAndConfigure();
    }

    // The end of a worker, with or without asking it first.
    method EndWorker() returns (r: Io)
      requires Tracked() && Known() && DwellAgrees() && world.state.files.unread == []
               && world.state.files.transfer.packet.None?
      modifies this`usb, this`functionFsMounted, this`ownsGadget, this`detachedAt, this`control, this`worker, world
      ensures Linked() && !r.Cancelled?
      ensures r.Fine? ==> Blank()
      ensures old(worker) ==> !world.state.process.worker
      ensures old(world.trace) + (if old(control) then [Event.Hangup] else []) + (if old(worker) then [Reap] else [])
           <= world.trace
    {
      hide NamesFit, World.Valid, Allowed, Step;
      LetWorkerGo();
      r := StopUsbGeneration();
    }

    method RestartWorker() returns (r: Io)
      requires Ready() && Judged()
      modifies this`usb, this`functionFsMounted, this`ownsGadget, this`detachedAt, this`control, this`worker,
               this`generation, world
      ensures Linked() && !r.Cancelled?
      ensures r.Fine? ==> Ready() && generation <= 1 && StartedSince(world.trace, |old(world.trace)|)
      // The gadget is unbound before the old worker is let go of, and before anything is taken down.
      ensures r.Fine? ==>
                Unplugged(old(world.trace), world.trace, old(world.state.gadget.bound), [Event.Hangup, Reap])
      ensures old(world.trace) <= world.trace
    {
      hide NamesFit, World.Valid, Judged, Allowed, Step, FreshEnables, Enabled, Unplugged, Unplugs;
      ghost var bound, start := world.state.gadget.bound, world.trace;
      :- UnbindOwned();
      ghost var part := world.trace[|start|..];
      :- EndWorker();
      ghost var ended := world.trace;
      assert start + part + [Event.Hangup, Reap] <= ended;
      UnpluggedBy(start, ended, part, bound, [Event.Hangup, Reap]);
      generation := 0;
      r := StartAndConfigure();
      UnpluggedMore(start, ended, world.trace, bound, [Event.Hangup, Reap]);
    }

    // The unbind in front of everything that takes a generation down.
    method UnbindOwned() returns (r: Io)
      requires Tracked() && (!ownsGadget ==> world.state.gadget.bound == Unbound)
      modifies this`detachedAt, world
      ensures Tracked() && !r.Cancelled?
      ensures var was, s := old(world.state), world.state;
              s == was.(gadget := was.gadget.(bound := s.gadget.bound), clock := s.clock)
      ensures old(DwellAgrees()) ==> DwellAgrees()
      ensures r.Fine? ==> world.state.gadget.bound == Unbound
      ensures world.reliable ==> r.Fine?
      ensures r.Fine? ==> exists part ::
                Unplugs(part, old(world.state.gadget.bound)) && world.trace == old(world.trace) + part
      ensures old(world.trace) <= world.trace
    {
      hide NamesFit, World.Valid, Allowed, Step;
      r := Fine;
      if ownsGadget {
        r := Unbind();
      } else {
        assert Unplugs([], Unbound) && world.trace + [] == world.trace;
      }
    }

    /** A reload may move the gadget and the mount to places with remains of their own. */
    method ReloadProfile(next: Remains, names: seq<Text>) returns (r: Io)
      requires Ready() && Judged() && Plausible(next)
      modifies this`usb, this`functionFsMounted, this`ownsGadget, this`detachedAt, this`control, this`worker,
               this`generation, this`resources, world
      ensures Linked() && !r.Cancelled?
      ensures r.Fine? ==> Ready() && generation <= 1 && StartedSince(world.trace, |old(world.trace)|)
      ensures r.Fine? ==> resources == names
      // The gadget is unbound, a serving worker quiesced and the worker let go of, in this order, before anything else.
      ensures r.Fine? ==>
                Unplugged(
                  old(world.trace), world.trace, old(world.state.gadget.bound),
                  (if old(usb).Some? then QuiesceExchange(old(generation), 0) else []) + [Event.Hangup, Reap])
      ensures old(world.trace) <= world.trace
    {
      hide NamesFit, World.Valid, Allowed, Step, Judged, FreshEnables, Enabled, Plausible, Unplugged, Unplugs;
      hide QuiesceExchange;
      var ok := world.Call();
      if !ok {
        return Failed;
      }
      ghost var bound, start := world.state.gadget.bound, world.trace;
      ghost var next' := (if usb.Some? then QuiesceExchange(generation, 0) else []) + [Event.Hangup, Reap];
      :- UnbindOwned();
      ghost var part := world.trace[|start|..];
      :- QuiesceServing();
      :- EndWorker();
      ghost var ended := world.trace;
      assert start + part + next' <= ended;
      UnpluggedBy(start, ended, part, bound, next');
      r := Relocate(next, names);
      UnpluggedMore(start, ended, world.trace, bound, next');
    }

    method Relocate(next: Remains, names: seq<Text>) returns (r: Io)
      requires Blank() && !world.state.process.worker && Judged() && Plausible(next)
      modifies this`usb, this`functionFsMounted, this`ownsGadget, this`detachedAt, this`control, this`worker,
               this`generation, this`resources, world
      ensures Linked() && !r.Cancelled?
      ensures r.Fine? ==> Ready() && generation <= 1 && StartedSince(world.trace, |old(world.trace)|)
      ensures r.Fine? ==> resources == names
      ensures old(world.trace) <= world.trace
    {
      hide NamesFit, World.Valid, Judged, FreshEnables, Enabled, Plausible;
      world.Act(Adopt(next));
      resources := names;
      generation := 0;
      r := Setup();
    }

    // Asking the worker to let go of a serving generation, if there is one.
    method QuiesceServing() returns (r: Io)
      requires Tracked()
      modifies this`control, world
      ensures Tracked() && !r.Cancelled?
      ensures var was, s := old(world.state), world.state;
              s == was.(ledger := was.ledger.(
                          owed := s.ledger.owed, declared := s.ledger.declared, answer := s.ledger.answer),
                        session := s.session,
                        process := was.process.(channel := s.process.channel, limited := s.process.limited))
      ensures world.state.session.generation == old(world.state.session.generation)
      ensures world.state.session.asked == old(world.state.session.asked)
      ensures world.state.session.loan == old(world.state.session.loan)
      ensures control ==> old(control)
      ensures r.Fine? ==> control == old(control)
      ensures r.Fine? ==>
                world.trace == old(world.trace)
                               + if usb.Some? && control then QuiesceExchange(generation, 0) else []
      ensures old(world.trace) <= world.trace
    {
      hide NamesFit, World.Valid, Allowed, Step;
      r := Fine;
      if usb.Some? {
        r := QuiesceWorker(0);
      }
    }

    // Cleaning up.

    /** What cleanup leaves: no worker that could be waited for, no file, and with reliable calls nothing at all. */
    ghost predicate Gone()
      reads this, world
    {
      && Idle()
      && !ownsGadget
      && (world.state.process.worker ==> !NamesFit(resources))
      && (world.reliable ==> Cleared(world.state))
    }

    /** The way out of every run, however it ended; a second cleanup does nothing. */
    method Cleanup() returns (r: Io)
      requires Linked() && (cleaned ==> Gone())
      modifies this`usb, this`functionFsMounted, this`ownsGadget, this`detachedAt, this`control, this`worker,
               this`cleaned, world
      ensures Linked() && cleaned && Gone()
      // Unbound first, then quiesced, then let go of: whatever stood when the cleanup began.
      ensures r.Fine? && !old(cleaned) ==>
                Unplugged(
                  old(world.trace), world.trace, if old(ownsGadget) then old(world.state.gadget.bound) else Unbound,
                  LettingGo(old(usb).Some?, old(control), old(worker), generation))
      ensures old(cleaned) ==> r.Fine? && world.state == old(world.state) && world.trace == old(world.trace)
      ensures old(world.trace) <= world.trace
    {
      hide NamesFit, World.Valid, Allowed, Step, Unplugged, Unplugs, QuiesceExchange, LettingGo;
      if cleaned {
        return Fine;
      }
      ghost var bound := if ownsGadget then world.state.gadget.bound else Unbound;
      ghost var next := LettingGo(usb.Some?, control, worker, generation);
      var first := LetGo();
      ghost var let := world.trace;
      var stopped := StopUsbGeneration();
      cleaned := true;
      if first.Fine? {
        UnpluggedMore(old(world.trace), let, world.trace, bound, next);
      }
      return First(first, stopped);
    }

    // The end of the channel, and of the process.
    method LetWorkerGo()
      requires Tracked()
      modifies this`control, this`worker, world
      ensures Tracked() && !control && !worker && !world.state.session.lent
      ensures var was, s := old(world.state), world.state;
              s == was.(process := s.process, session := was.session.(lent := false),
                        ledger := was.ledger.(owed := s.ledger.owed))
      ensures old(worker) ==> !world.state.process.worker
      ensures world.trace
           == old(world.trace) + (if old(control) then [Event.Hangup] else []) + (if old(worker) then [Reap] else [])
    {
      hide NamesFit, World.Valid, Allowed, Step;
      Hangup();
      StopWorker();
    }

    // The first half of the cleanup, which nothing keeps from running to its end.
    method LetGo() returns (r: Io)
      requires Linked()
      modifies this`detachedAt, this`control, this`worker, world
      ensures Linked() && !r.Cancelled? && !control && !worker && !world.state.session.lent
      ensures world.state.process.worker ==> !NamesFit(resources)
      ensures world.state.files == old(world.state.files) && world.state.mount == old(world.state.mount)
      ensures world.state.gadget.tree == old(world.state.gadget.tree)
      ensures r.Fine? ==>
                Unplugged(
                  old(world.trace), world.trace, if old(ownsGadget) then old(world.state.gadget.bound) else Unbound,
                  LettingGo(old(usb).Some?, old(control), old(worker), generation))
      ensures old(world.trace) <= world.trace
    {
      hide NamesFit, World.Valid, Allowed, Step, Unplugged, Unplugs, QuiesceExchange;
      ghost var bound := if ownsGadget then world.state.gadget.bound else Unbound;
      ghost var next := LettingGo(usb.Some?, control, worker, generation);
      ghost var start := world.trace;
      r := Fine;
      NothingUnplugs();
      if ownsGadget {
        r := Unbind();
      }
      ghost var part := world.trace[|start|..];
      ghost var quiet := if usb.Some? && control then QuiesceExchange(generation, 0) else [];
      ghost var hung := if control then [Event.Hangup] else [];
      ghost var reaped := if worker then [Reap] else [];
      var quiesced := QuiesceServing();
      r := First(r, quiesced);
      LetWorkerGo();
      if r.Fine? {
        Behind(start, part, quiet, hung, reaped);
        UnpluggedBy(start, world.trace, part, bound, next);
      }
    }

    // EP0.

    /** Counts a fresh enable, and forwards the event with the activation it belongs to. */
    method ForwardBusEvent(event: BusEvent) returns (r: Io)
      requires Steady() && usb.Some? && |world.state.files.unread| > 0 && world.state.files.unread[0] == Bus(event)
      modifies this`usb, world
      ensures Linked() && !r.Cancelled?
      ensures r.Fine? ==>
                && Steady() && usb.Some?
                && var was, s := old(world.state), world.state;
                   s == was.(files := was.files.(unread := was.files.unread[1..],
                                                 history := was.files.history + [event]))
      ensures old(world.trace) <= world.trace
    {
      hide NamesFit, After, Safe, Rooted, FreshEnables, Enabled, Be64;
      FreshPush(world.state.files.history, event);
      var u := usb.value;
      if event == Enable && !u.endpointsEnabled {
        if u.endpointActivation == 0xFFFF_FFFF_FFFF_FFFF {
          return Failed;
        }
        u := u.(endpointActivation := u.endpointActivation + 1, endpointsEnabled := true);
      }
      if event in {BusEvent.Bind, BusEvent.Unbind, BusEvent.Disable} {
        u := u.(endpointsEnabled := false);
      }
      usb := Some(u);
      var ok := world.Try(Forward(event, EncodeEvent(event, u.endpointActivation)));
      return if ok then Fine else Failed;
    }

    /** The data of an OUT transfer. The host may cancel it by a later setup packet. */
    method Ep0Read(length: nat) returns (r: Io, data: seq<byte>)
      requires world.Valid() && world.state.files.open.Some? && world.state.files.transfer.packet.Some?
      requires world.state.files.transfer.data == []
               && 0 < length == DataLength(world.state.files.transfer.packet.value)
      modifies world
      ensures world.Valid() && (r.Fine? ==> |data| == length)
      ensures var was, s := old(world.state), world.state;
              s == was.(files := was.files.(transfer :=
                          if r.Fine? then was.files.transfer.(data := data)
                          else if r.Cancelled? then NO_TRANSFER else was.files.transfer))
      ensures world.trace
           == old(world.trace) + if r.Fine? then [Fetch(data)] else if r.Cancelled? then [Supersede] else []
    {
      hide World.Valid;
      r := *;
      data := *;
      if r.Fine? && |data| != length {
        // A transfer cut short.
        r := Failed;
      }
      if r.Fine? {
        world.Act(Fetch(data));
      } else if r.Cancelled? {
        world.Act(Supersede);
      }
    }

    /** The answer to the host; it may fail or be cancelled too. */
    method Ep0Write(response: Ep0Response) returns (r: Io)
      requires world.Valid() && world.state.files.open.Some?
      requires world.state.files.transfer.packet.Some? && world.May(Respond(response))
      modifies world
      ensures world.Valid()
      ensures var was, s := old(world.state), world.state;
              s == was.(files := was.files.(
                          transfer := if r.Fine? || r.Cancelled? then NO_TRANSFER else was.files.transfer))
      ensures world.trace
           == old(world.trace) + if r.Fine? then [Respond(response)] else if r.Cancelled? then [Supersede] else []
    {
      hide World.Valid, Response, Answers;
      r := *;
      if r.Fine? {
        world.Act(Respond(response));
      } else if r.Cancelled? {
        world.Act(Supersede);
      }
    }

    method ForwardControlRequest(setup: SetupPacket) returns (r: Io)
      requires Steady() && usb.Some? && world.state.files.transfer == Transfer(Some(setup), [])
      requires !world.state.process.limited
      modifies this`nextControlRequest, world
      ensures Linked() && world.state.files.unread == old(world.state.files.unread)
      ensures world.state.files.history == old(world.state.files.history)
      ensures !r.Failed? ==> Steady() && world.state.files.transfer == NO_TRANSFER
      ensures !r.Failed? ==> Pending(world.state) == Pending(old(world.state))
      // Success is one transaction under the next ID: request, matching response, and what that says on EP0.
      ensures r.Fine? ==>
                && nextControlRequest == old(nextControlRequest) + 1
                && world.state.ledger.lastRequest == old(nextControlRequest)
                && Transacted(old(world.trace), world.trace, setup, generation, old(nextControlRequest))
      ensures old(world.trace) <= world.trace
    {
      hide NamesFit, World.Valid, FreshEnables, Enabled, Allowed, Step, FromLe16, Response, Answers;
      var directionIn := AsksIn(setup);
      var transferLength := AsksFor(setup);
      var body: seq<byte> := setup;
      ghost var data: seq<byte> := [];
      if !directionIn && transferLength != 0 {
        var sent;
        r, sent := Ep0Read(transferLength);
        if !r.Fine? {
          return;
        }
        body := body + sent;
        data := sent;
      }
      assert body == setup + data && |data| == DataLength(setup);
      assert world.trace == old(world.trace) + Fetched(data);
      var requestId := nextControlRequest;
      if requestId == 0xFFFF_FFFF {
        return Failed;
      }
      nextControlRequest := nextControlRequest + 1;
      var response := AskWorker(requestId, body, setup, data);
      if response.None? {
        return Failed;
      }
      r := Answer(response.value, setup, directionIn, transferLength, requestId);
    }

    // The request and its response: the response must match.
    method AskWorker(requestId: u32, body: seq<byte>, ghost setup: SetupPacket, ghost data: seq<byte>)
      returns (response: Option<seq<byte>>)
      requires Tracked() && control && usb.Some? && world.state.ledger.owed == {}
               && generation == world.state.session.generation
      requires world.state.files.transfer == Transfer(Some(setup), data)
               && body == setup + data && |data| == DataLength(setup)
      requires world.state.ledger.lastRequest < requestId < nextControlRequest
      modifies world
      ensures Tracked()
      ensures var was, s := old(world.state), world.state;
              s == was.(ledger := s.ledger,
                        session := was.session.(serving := s.session.serving, lent := s.session.lent),
                        process := was.process.(limited := s.process.limited))
      ensures old(world.state.session.serving) ==> world.state.session.serving
      ensures response.Some? ==>
                && world.state.ledger.declared == old(world.state.ledger.declared) && !world.state.process.limited
                && world.state.ledger.answer.Some? && world.state.ledger.answer.value.body == response.value
                && Answers(world.state.ledger.answer.value, Reply(UsbControlResponse, generation, requestId))
      ensures response.Some? ==>
                |response.value| > 0 && world.state.ledger.owed == {} && world.state.ledger.lastRequest == requestId
      ensures response.Some? ==>
                world.trace == old(world.trace) + Exchange(generation, requestId, body, response.value)
      ensures old(world.trace) <= world.trace
    {
      hide NamesFit, World.Valid, Allowed, Step;
      response := None;
      var sent := SendRequest(requestId, body, setup, data);
      if !sent.Fine? {
        return;
      }
      sent := SetReadTimeout(true);
      if !sent.Fine? {
        return;
      }
      var m := AwaitRecord(UsbControlResponse);
      sent := SetReadTimeout(false);
      if !sent.Fine? || m.None? {
        return;
      }
      if m.value.kind != UsbControlResponse || m.value.generation != generation || m.value.requestId != requestId
         || |m.value.descriptors| != 0 || |m.value.body| == 0 {
        return;
      }
      response := Some(m.value.body);
      assert m.value == Record(UsbControlResponse, generation, requestId, m.value.body, []);
    }

    method SendRequest(requestId: u32, body: seq<byte>, ghost setup: SetupPacket, ghost data: seq<byte>)
      returns (r: Io)
      requires world.state.files.transfer == Transfer(Some(setup), data)
               && body == setup + data && |data| == DataLength(setup)
      requires world.Valid() && world.state.process.channel && world.state.files.open.Some?
      requires generation == world.state.session.generation && world.state.ledger.lastRequest < requestId
      modifies world
      ensures world.Valid() && !r.Cancelled?
      ensures var was, s := old(world.state), world.state;
              if r.Fine? then
                var reply := Reply(UsbControlResponse, generation, requestId);
                s == was.(ledger := was.ledger.(
                            owed := was.ledger.owed + {reply}, answer := None, lastRequest := requestId))
              else s == was
      ensures old(world.trace) <= world.trace
      ensures r.Fine? ==> world.trace == old(world.trace) + [Request(generation, requestId, body)]
    {
      hide World.Valid;
      var ok := world.Try(Request(generation, requestId, body));
      return if ok then Fine else Failed;
    }

    // What the worker's response does on EP0.
    method Answer(
      body: seq<byte>, setup: SetupPacket, directionIn: bool, transferLength: nat, ghost requestId: u32) returns (r: Io)
      requires |body| > 0 && world.Valid() && world.state.files.open.Some?
      requires directionIn == AsksIn(setup) && transferLength == AsksFor(setup)
      requires world.state.files.transfer.packet == Some(setup)
      requires generation == world.state.session.generation && requestId == world.state.ledger.lastRequest
      requires world.state.ledger.answer.Some? && world.state.ledger.answer.value.body == body
               && Answers(world.state.ledger.answer.value, Reply(UsbControlResponse, generation, requestId))
      modifies world
      ensures world.Valid() && old(world.trace) <= world.trace
      ensures var was, s := old(world.state), world.state;
              s == was.(files := was.files.(
                          transfer := if r.Fine? || r.Cancelled? then NO_TRANSFER else was.files.transfer))
      ensures Response(body, directionIn, transferLength).None? ==> r == Failed
      ensures r.Fine? ==>
                && Response(body, directionIn, transferLength).Some?
                && world.trace == old(world.trace) + [Respond(Response(body, directionIn, transferLength).value)]
    {
      hide World.Valid, Response, Answers;
      var response := Response(body, directionIn, transferLength);
      if response.None? {
        return Failed;
      }
      r := Ep0Write(response.value);
    }

    /** Reads batches of events until none is left, and handles each in order. */
    method ServiceEp0() returns (r: Io)
      requires Ready()
      modifies this`usb, this`nextControlRequest, world
      ensures Linked() && !r.Cancelled?
      ensures r.Fine? ==> Ready()
      ensures old(world.trace) <= world.trace
    {
      hide NamesFit, World.Valid, FreshEnables, Enabled, Counted, Known;
      if usb.None? {
        return Failed;
      }
      var batches: nat :| true;
      for i := 0 to batches
        invariant Ready() && usb.Some?
        invariant old(world.trace) <= world.trace
      {
        // The read fails, EP0 is closed, or the stream is truncated.
        var ok := world.Call();
        var bytes: seq<byte> := *;
        if !ok || |bytes| == 0 || |bytes| > 192 || |bytes| % EVENT_LENGTH != 0 {
          return Failed;
        }
        :- HandleEvents(bytes);
      }
      return Fine;
    }

    method QueueEvents(bytes: seq<byte>)
      requires world.Valid() && world.state.files.open.Some? && world.state.files.unread == []
      requires 0 < |bytes| <= 192 && |bytes| % EVENT_LENGTH == 0
      modifies world
      ensures world.Valid() && world.trace == old(world.trace) + [Read(bytes)]
      ensures var was, s := old(world.state), world.state; s == was.(files := was.files.(unread := EventsOf(bytes)))
    {
      hide World.Valid, EventsOf;
      world.Act(Read(bytes));
    }

    method HandleEvents(bytes: seq<byte>) returns (r: Io)
      requires Ready() && usb.Some? && 0 < |bytes| <= 192 && |bytes| % EVENT_LENGTH == 0
      modifies this`usb, this`nextControlRequest, world
      ensures Linked() && !r.Cancelled?
      ensures r.Fine? ==> Ready() && usb.Some?
      ensures r.Fine? ==> world.state.files.history == old(world.state.files.history) + BusOf(EventsOf(bytes))
      ensures old(world.trace) + [Read(bytes)] <= world.trace
      ensures old(world.trace) <= world.trace
    {
      hide NamesFit, World.Valid, FreshEnables, Enabled, Allowed, Step, EventsOf;
      QueueEvents(bytes);
      ghost var read := world.trace;
      var events := EventsOf(bytes);
      for k := 0 to |events|
        invariant Steady() && usb.Some? && world.state.files.unread == events[k..]
        invariant world.state.files.transfer.packet.None? && Pending(world.state) == Pending(old(world.state))
        invariant read <= world.trace
        invariant world.state.files.history + BusOf(events[k..]) == old(world.state.files.history) + BusOf(events)
        invariant old(world.trace) <= world.trace
      {
        BusOfFront(events[k..]);
        :- HandleEvent(events[k]);
      }
      return Fine;
    }

    method TakePacket(packet: SetupPacket)
      requires world.Valid() && |world.state.files.unread| > 0
               && world.state.files.unread[0] == Ep0Event.Setup(packet) && world.state.files.transfer.packet.None?
      modifies world
      ensures world.Valid() && world.trace == old(world.trace) + [Take]
      ensures var was, s := old(world.state), world.state;
              s == was.(files := was.files.(unread := was.files.unread[1..], transfer := Transfer(Some(packet), [])),
                        ledger := was.ledger.(answer := None))
    {
      hide World.Valid;
      world.Act(Take);
    }

    method HandleEvent(event: Ep0Event) returns (r: Io)
      requires Steady() && usb.Some? && |world.state.files.unread| > 0 && world.state.files.unread[0] == event
      requires world.state.files.transfer.packet.None? && !world.state.process.limited
      modifies this`usb, this`nextControlRequest, world
      ensures Linked() && !r.Cancelled?
      ensures r.Fine? ==> world.state.files.transfer.packet.None? && Pending(world.state) == Pending(old(world.state))
      ensures r.Fine? ==> Steady() && usb.Some? && world.state.files.unread == old(world.state.files.unread)[1..]
      ensures r.Fine? ==>
                world.state.files.history == old(world.state.files.history) + if event.Bus? then [event.event] else []
      ensures old(world.trace) <= world.trace
    {
      hide NamesFit, World.Valid, Allowed, Step, FreshEnables, Enabled;
      match event
      case Bus(e) => r := ForwardBusEvent(e);
      case Setup(packet) =>
        TakePacket(packet);
        r := ForwardControlRequest(packet);
        if r.Cancelled? {
          // Superseded by a later request.
          r := Fine;
        }
      case Unknown => r := Failed;
    }

    // Serving.

    /** One turn of the serve loop, and what it is for. */
    method Turn(occasion: Occasion) returns (r: Io)
      requires Ready() && Judged()
      modifies this`usb, this`functionFsMounted, this`ownsGadget, this`detachedAt, this`control, this`worker,
               this`generation, this`resources, this`nextControlRequest, world
      ensures Linked() && !r.Cancelled?
      ensures r.Fine? ==> Ready()
      // A worker that has exited, and one whose profile has changed, are replaced.
      ensures r.Fine? && (occasion.Exited? || occasion.Reload?) ==>
                StartedSince(world.trace, |old(world.trace)|)
      ensures r.Fine? && occasion.Reload? ==> resources == occasion.names
      ensures old(world.trace) <= world.trace
    {
      hide NamesFit, World.Valid, Judged, FreshEnables, Enabled, Counted, Known, Allowed, Unplugged;
      var ok := world.Call();
      if !ok {
        return Failed;
      }
      match occasion
      case Exited => r := RestartWorker();
      case Reload(next, names) =>
        if Plausible(next) {
          r := ReloadProfile(next, names);
        } else {
          r := Failed;
        }
      case Control(m) => r := HearWorker(m);
      case Ep0 =>
        r := Fine;
        if usb.Some? {
          r := ServiceEp0();
        }
    }

    // A record on the control channel, or its end.
    method HearWorker(nothing: bool) returns (r: Io)
      requires Ready() && Judged()
      modifies this`usb, this`functionFsMounted, this`ownsGadget, this`detachedAt, this`control, this`worker,
               this`generation, world
      ensures Linked() && !r.Cancelled?
      ensures r.Fine? ==> Ready()
      // A record that arrives is the next declaration taken up; at the end of the channel the worker is replaced.
      ensures r.Fine? && !nothing ==>
                || StartedSince(world.trace, |old(world.trace)|)
                || exists d :: old(world.trace) + [Hear(d), Ask(d)] <= world.trace
      ensures old(world.trace) <= world.trace
    {
      hide NamesFit, World.Valid, Judged, FreshEnables, Enabled, Allowed, Step, Unplugged, Hindered, Served, Judgement;
      if nothing {
        return Fine;
      }
      var m := Listen();
      if m.None? {
        r := RestartWorker();
        return;
      }
      if m.value.kind != Kind.Configure {
        return Failed;
      }
      ghost var heard := world.trace;
      r := Configure(m.value, false);
      if r.Fine? {
        assert old(world.trace) + [Hear(m.value), Ask(m.value)] == heard + [Ask(m.value)];
      }
    }

    /** Any number of turns, until one fails or the supervisor is stopped. */
    method Serve(turns: nat) returns (r: Io)
      requires Ready() && Judged()
      modifies this`usb, this`functionFsMounted, this`ownsGadget, this`detachedAt, this`control, this`worker,
               this`generation, this`resources, this`nextControlRequest, world
      ensures Linked()
      ensures r.Fine? ==> Ready()
      ensures old(world.trace) <= world.trace
    {
      hide NamesFit, World.Valid, Judged, Steady, Linked;
      LinkedWhenReady();
      for i := 0 to turns
        invariant Ready()
        invariant old(world.trace) <= world.trace
      {
        var occasion: Occasion := *;
        :- Turn(occasion);
        LinkedWhenReady();
      }
      LinkedWhenReady();
      return Fine;
    }

    lemma LinkedWhenReady()
      requires Ready()
      ensures Linked()
    {
    }
  }

  /**
   A whole run of the supervisor: setup, serving, and cleanup however they end. The names are those of the profile in
   force at the end.
   */
  method Run(world: World, fromCbor: seq<byte> -> Option<UsbPersonality>, resources: seq<Text>, turns: nat)
    returns (r: Io, names: seq<Text>)
    requires world.Valid() && world.trace == []
    requires forall body ::
               world.setting.plans(body)
               == if fromCbor(body).Some? && Discovered(fromCbor(body).value).Ok?
                  then Some(PlanOf(Discovered(fromCbor(body).value).value)) else None
    modifies world
    ensures world.Valid()
    ensures !world.state.process.channel && !world.state.session.lent && world.state.files.open.None?
    ensures world.state.process.worker ==> !NamesFit(names)
    ensures world.reliable ==> Cleared(world.state)
  {
    hide World.Valid, Discovered, Runtime.Steady, NamesFit;
    AtStart(world);
    var runtime := new Runtime(world, fromCbor, resources);
    r := runtime.Setup();
    if r.Fine? {
      r := runtime.Serve(turns);
    }
    var cleanup := runtime.Cleanup();
    r := First(r, cleanup);
    // Dropping the runtime cleans up again.
    var dropped := runtime.Cleanup();
    names := runtime.resources;
  }

  lemma BoundNeedsGadget(s: State)
    requires Sound(s)
    ensures s.gadget.bound != Unbound ==> Gadget in s.gadget.tree
    ensures s.gadget.tree != {} ==> Gadget in s.gadget.tree
  {
    if s.gadget.tree != {} {
      var n :| n in s.gadget.tree;
      assert Needs(n) <= s.gadget.tree;
      assert n == Gadget || Gadget in Needs(n) || Config in Needs(n);
      if Config in s.gadget.tree {
        assert Needs(Config) <= s.gadget.tree;
      }
    }
  }

  // The removal order never meets a directory that is not empty or still linked.
  lemma LeavesFirst(tree: set<Node>)
    ensures OsLink in tree ==> Removable(tree, OsLink)
    ensures FunctionLink in tree ==> Removable(tree, FunctionLink)
    ensures FunctionLink !in tree && Function in tree ==> Removable(tree, Function)
    ensures ConfigStrings in tree ==> Removable(tree, ConfigStrings)
    ensures GadgetStrings in tree ==> Removable(tree, GadgetStrings)
    ensures OsLink !in tree && FunctionLink !in tree && ConfigStrings !in tree && Config in tree ==>
              Removable(tree, Config)
    ensures OnlyGadget(tree) && Gadget in tree ==> Removable(tree, Gadget)
    ensures OnlyGadget(tree) ==> tree - {Gadget} == {}
  {
    if OnlyGadget(tree) {
      forall n | n in tree ensures n == Gadget {
      }
    }
  }

  predicate OnlyGadget(tree: set<Node>) {
    && OsLink !in tree && FunctionLink !in tree && Function !in tree
    && ConfigStrings !in tree && Config !in tree && GadgetStrings !in tree
  }

  lemma SoundBinding(world: World)
    requires world.Valid()
    ensures world.state.gadget.bound != Unbound ==> FunctionLink in world.state.gadget.tree
  {
  }

  lemma SoundTree(world: World)
    requires world.Valid()
    ensures world.state.gadget.bound != Unbound ==> Gadget in world.state.gadget.tree
    ensures world.state.gadget.tree != {} ==> Gadget in world.state.gadget.tree
  {
    BoundNeedsGadget(world.state);
  }

  lemma SoundLoan(world: World)
    requires world.Valid()
    ensures world.state.session.lent ==> world.state.session.loan.Some?
    ensures world.state.session.loan.Some? ==>
              world.state.session.loan.value.generation == world.state.session.generation
  {
  }

  // At most 256 endpoints have distinct addresses.

  function Addresses(es: seq<Endpoint>): (r: set<int>)
    ensures forall a :: a in r ==> 0 <= a < 0x100 && exists i :: 0 <= i < |es| && es[i].address == a
  {
    if |es| == 0 then {} else Addresses(es[..|es| - 1]) + {es[|es| - 1].address}
  }

  lemma {:induction false} FewAddresses(es: seq<Endpoint>)
    requires Agreement.AddressesOk(es)
    ensures |Addresses(es)| == |es|
  {
    if |es| > 0 {
      FewAddresses(es[..|es| - 1]);
    }
  }

  lemma {:induction false} FewBytes(s: set<int>, n: nat)
    requires forall x :: x in s ==> 0 <= x < n
    ensures |s| <= n
  {
    if n > 0 {
      var rest := s - {n - 1};
      FewBytes(rest, n - 1);
      assert s == if n - 1 in s then rest + {n - 1} else rest;
    } else {
      assert forall x :: x !in s;
      assert s == {};
    }
  }

  // What inspect accepts has as many endpoints as listed, and a map of them can be sent.
  lemma InspectedInNumber(bundle: UsbPersonality, p: Projection)
    requires Discovered(bundle) == Ok(p)
    ensures var inspection := FunctionFs.Inspected(p.descriptors, p.strings);
            inspection.Ok? ==> |inspection.value.endpoints| == |p.endpoints| <= 0x100
  {
    hide Discovered, FunctionFs.Inspected;
    Bundles.BundleInspected(bundle);
    if FunctionFs.Inspected(p.descriptors, p.strings).Ok? {
      FewAddresses(p.endpoints);
      FewBytes(Addresses(p.endpoints), 0x100);
    }
  }

  // The files opened for a projection fit its endpoint map.
  lemma FilesFit(bundle: UsbPersonality, p: Projection, files: seq<FunctionFs.Direction>)
    requires Discovered(bundle) == Ok(p) && FunctionFs.Inspected(p.descriptors, p.strings).Ok?
    requires var read := FunctionFs.Inspected(p.descriptors, p.strings).value.endpoints;
             |files| == |read| && forall i :: 0 <= i < |files| ==> files[i] == read[i].direction
    ensures Fits(files, p.endpoints)
  {
    hide Discovered, FunctionFs.Inspected;
    Bundles.BundleInspected(bundle);
    var read := FunctionFs.Inspected(p.descriptors, p.strings).value.endpoints;
    forall i | 0 <= i < |files| ensures files[i] == FunctionFs.In <==> p.endpoints[i].address >= 0x80 {
      assert Agreement.Matches(read[i], p.endpoints[i]);
    }
  }

  lemma AtStart(world: World)
    requires world.Valid() && world.trace == []
    ensures world.state == Initial(world.setting.remains)
  {
  }
}
