/**
 The world the supervisor acts on: the gadget's ConfigFS tree, the FunctionFS mount, the UDC binding, a clock, the worker
 process and its control channel. A run is the sequence of its events; `Allowed` says which event may come next.
 */
module Kernel {
  import opened Bytes
  import opened Configuration
  import opened Protocol
  import opened Activations
  import ConfigFs
  import Unicode
  import FunctionFs

  // ConfigFS.

  /** What the supervisor creates in the gadget's directory, or may find there from an earlier run. */
  datatype Node = Gadget | GadgetStrings | Config | ConfigStrings | Function | OsLink | FunctionLink

  /** The directory a node stands in and, for a link, the directory it names. */
  function Needs(n: Node): set<Node> {
    match n
    case Gadget => {}
    case GadgetStrings => {Gadget}
    case Config => {Gadget}
    case ConfigStrings => {Config}
    case Function => {Gadget}
    case OsLink => {Gadget, Config}
    case FunctionLink => {Config, Function}
  }

  /** ConfigFS removes a directory only when nothing stands in it and no link names it. */
  predicate Removable(tree: set<Node>, n: Node) {
    n in tree && forall m :: m in tree ==> n !in Needs(m)
  }

  predicate Rooted(tree: set<Node>) {
    forall n :: n in tree ==> Needs(n) <= tree
  }

  /** The directory an attribute stands in. */
  function Holder(a: ConfigFs.Attribute): Node {
    if a in ConfigFs.STRINGS then GadgetStrings
    else if a == ConfigFs.MaxPower || a == ConfigFs.ConfigAttributes then Config
    else Gadget
  }

  // EP0.

  type SetupPacket = b: seq<byte> | |b| == 8 witness [0, 0, 0, 0, 0, 0, 0, 0]

  /** The direction and the length a setup packet asks for (USB 2.0 section 9.3). */
  predicate AsksIn(setup: SetupPacket) {
    setup[0] / 0x80 % 2 != 0
  }

  function AsksFor(setup: SetupPacket): nat {
    FromLe16(setup, 6)
  }

  /** How many bytes the host sends behind the packet. */
  function DataLength(setup: SetupPacket): (n: nat)
    ensures n == if setup[0] >= 128 then 0 else setup[6] as nat + 256 * setup[7] as nat
  {
    if AsksIn(setup) then 0 else AsksFor(setup)
  }

  /** What is done on EP0 to answer a control request. */
  datatype Ep0Response = Stall | Acknowledge | Send(data: seq<byte>)

  /** The worker's response: stall, acknowledge an OUT transfer, or data for an IN transfer, cut to the request. */
  function Response(body: seq<byte>, directionIn: bool, transferLength: nat): (r: Option<Ep0Response>)
    requires |body| > 0
    ensures r == Some(Stall) <==> body == [0]
    ensures r == Some(Acknowledge) <==> body == [1] && !directionIn
    ensures r.Some? && r.value.Send? <==> body[0] == 2 && directionIn
    ensures r.Some? && r.value.Send? ==>
              && r.value.data <= body[1..] && |r.value.data| <= transferLength
              && (|r.value.data| < transferLength ==> r.value.data == body[1..])
  {
    if body[0] == 0 && |body| == 1 then Some(Stall)
    else if body[0] == 1 && |body| == 1 && !directionIn then Some(Acknowledge)
    else if body[0] == 2 && directionIn then
      var length := if |body| - 1 < transferLength then |body| - 1 else transferLength;
      Some(Send(body[1..1 + length]))
    else None
  }

  // The state.

  /** Whether the gadget is attached to its UDC, and for which generation and request; `Stale` before we attach. */
  datatype Binding = Unbound | Stale | Attached(generation: nat, request: nat)

  /** When the last successful unbind took effect, and the instant the supervisor noted for it. */
  datatype Moment = Moment(at: nat, noted: nat)

  /** The endpoint files of a generation, lent to the worker in answer to a request. */
  datatype Loan = Loan(generation: nat, request: nat)

  datatype Reply = Reply(kind: Kind, generation: nat, request: nat)

  /** A record heard on the control channel. */
  type Message = Record<()>

  datatype Ep0Event = Bus(event: BusEvent) | Setup(packet: SetupPacket) | Unknown

  const EVENT_LENGTH: nat := 12

  /** One `usb_functionfs_event`. */
  function Ep0EventOf(b: seq<byte>): Ep0Event
    requires |b| == EVENT_LENGTH
  {
    if b[8] == 4 then Setup(b[..8])
    else
      var e := EventOf(b[8]);
      if e.Ok? then Bus(e.value) else Unknown
  }

  /** The events of one read. */
  function EventsOf(b: seq<byte>): (es: seq<Ep0Event>)
    ensures |es| == |b| / EVENT_LENGTH
  {
    if |b| < EVENT_LENGTH then [] else [Ep0EventOf(b[..EVENT_LENGTH])] + EventsOf(b[EVENT_LENGTH..])
  }

  /** Event `k` of a read is told by byte 8 of its twelve bytes; a Setup event holds the packet in its first eight. */
  lemma {:induction false} EventBytes(b: seq<byte>, k: nat)
    requires 12 * k + 12 <= |b|
    ensures k < |EventsOf(b)|
    ensures EventsOf(b)[k] == match b[12 * k + 8]
                              case 0 => Ep0Event.Bus(BusEvent.Bind)
                              case 1 => Ep0Event.Bus(BusEvent.Unbind)
                              case 2 => Ep0Event.Bus(BusEvent.Enable)
                              case 3 => Ep0Event.Bus(BusEvent.Disable)
                              case 4 => Ep0Event.Setup(b[12 * k..12 * k + 8])
                              case 5 => Ep0Event.Bus(BusEvent.Suspend)
                              case 6 => Ep0Event.Bus(BusEvent.Resume)
                              case _ => Ep0Event.Unknown
  {
    if k == 0 {
      assert b[..12][..8] == b[0..8];
    } else {
      EventBytes(b[12..], k - 1);
      assert b[12..][12 * (k - 1)..12 * (k - 1) + 8] == b[12 * k..12 * k + 8];
    }
  }

  /** The gadget's directory, and whether it is attached. */
  datatype GadgetState = GadgetState(tree: set<Node>, bound: Binding)

  /** The directory FunctionFS is mounted on. */
  datatype MountState = MountState(point: bool, mounted: bool)

  datatype Clock = Clock(now: nat, detached: Option<Moment>)

  /** The control request at hand, and what the host has sent behind it. */
  datatype Transfer = Transfer(packet: Option<SetupPacket>, data: seq<byte>)

  const NO_TRANSFER := Transfer(None, [])

  /**
   The supervisor's EP0 and endpoint files, the blobs written to EP0, the control request taken from it, the bus events
   forwarded since the files were opened, and the events unread.
   */
  datatype Files = Files(
    open: Option<seq<FunctionFs.Direction>>, blobs: seq<seq<byte>>, transfer: Transfer, history: seq<BusEvent>,
    unread: seq<Ep0Event>)

  /** The worker's process, its control channel, and whether reading from that is limited in time. */
  datatype Process = Process(worker: bool, channel: bool, limited: bool)

  /**
   The generation last lent to this worker, the declaration not yet answered, whether the worker still holds the
   endpoint files, whether it has reported Serving, and whether it was asked to quiesce since the last declaration.
   */
  datatype Session = Session(
    generation: nat, asked: Option<Message>, loan: Option<Loan>, lent: bool, serving: bool, replacing: bool)

  /**
   The replies the worker owes, the declaration heard and not yet taken up, the last response heard since the last control
   request, that request, and whether the last wait for Serving was limited.
   */
  datatype Ledger = Ledger(
    owed: set<Reply>, declared: Option<Message>, answer: Option<Message>, lastRequest: nat, servingLimited: bool)

  datatype State = State(
    gadget: GadgetState,
    settings: ConfigFs.Settings,
    mount: MountState,
    clock: Clock,
    files: Files,
    process: Process,
    session: Session,
    ledger: Ledger)

  /** The kernel when the supervisor starts: perhaps the remains of an earlier run, held by nobody. */
  datatype Remains = Remains(tree: set<Node>, mountPoint: bool, mounted: bool, bound: bool)

  /** What an accepted personality asks for: its endpoints, the two FunctionFS blobs and the gadget's attributes. */
  datatype Plan = Plan(
    endpoints: seq<Endpoint>, descriptors: seq<byte>, strings: seq<byte>, settings: ConfigFs.Settings)

  type Plans = seq<byte> -> Option<Plan>

  /** Where a run starts, and what the Configure bodies ask for that `discover_bundle` accepts. */
  datatype Setting = Setting(remains: Remains, plans: Plans)

  predicate Plausible(r: Remains) {
    Rooted(r.tree) && (r.bound ==> FunctionLink in r.tree) && (r.mounted ==> r.mountPoint)
  }

  function Initial(r: Remains): State {
    State(
      GadgetState(r.tree, if r.bound then Stale else Unbound),
      map[],
      MountState(r.mountPoint, r.mounted),
      Clock(0, None),
      Files(None, [], NO_TRANSFER, [], []),
      Process(false, false, false),
      Session(0, None, None, false, false, false),
      Ledger({}, None, None, 0, false))
  }

  // Events.

  datatype Event =
    Make(node: Node)
  | Remove(node: Node)
  | MakeMountPoint
  | RemoveMountPoint
  | Mount
  | Unmount
  | Open(blobs: seq<seq<byte>>, files: seq<FunctionFs.Direction>)
  | Close
  | Attach
  | Detach(delay: nat)
  | Pass(delay: nat)
  | Sleep(delay: nat)
  | Start
  | Supply(names: seq<Unicode.Text>, body: seq<byte>)
  | Hangup
  | Reap
  | Hear(message: Message)
  | Ask(declaration: Message)
  | Lend(
      generation: nat, request: nat, endpoints: seq<Endpoint>, body: seq<byte>, files: seq<FunctionFs.Direction>)
  | Reject(generation: nat, request: nat)
  | Emptied
  | Settle
  | Quiesce(generation: nat, request: nat)
  | Request(generation: nat, request: nat, body: seq<byte>)
  | Fetch(data: seq<byte>)
  | Respond(response: Ep0Response)
  | Supersede
  | Read(bytes: seq<byte>)
  | Forward(event: BusEvent, body: seq<byte>)
  | Take
  | Write(attribute: ConfigFs.Attribute, text: Unicode.Text)
  | Limit(on: bool)
  | Await(kind: Kind)
  | Adopt(remains: Remains)

  /** A record answers what was asked: no descriptors, and a body exactly for a control response. */
  predicate Answers(m: Message, r: Reply) {
    && m.kind == r.kind
    && m.generation == r.generation
    && m.requestId == r.request
    && |m.descriptors| == 0
    && (if r.kind == UsbControlResponse then |m.body| > 0 else |m.body| == 0)
  }

  /** Each file is open in the direction its endpoint map entry says. */
  predicate Fits(files: seq<FunctionFs.Direction>, endpoints: seq<Endpoint>) {
    && |files| == |endpoints|
    && forall i :: 0 <= i < |files| ==> (files[i] == FunctionFs.In <==> endpoints[i].address >= 0x80)
  }

  /** Milliseconds between an unbind and the next bind. */
  const DWELL: nat := 250

  /** Nothing of the gadget, its mount or its files is left. */
  predicate Cleared(s: State) {
    s.gadget.tree == {} && !s.mount.point && !s.mount.mounted && s.gadget.bound == Unbound && s.files.open.None?
  }

  /** Endpoints, blobs and attributes are those of the plan. */
  predicate Carries(s: State, endpoints: seq<Endpoint>, plan: Option<Plan>) {
    && plan.Some?
    && endpoints == plan.value.endpoints
    && s.files.blobs == [plan.value.descriptors, plan.value.strings]
    && s.settings == plan.value.settings
  }

  /** What every run keeps to. Each clause is a promise of the supervisor or a rule of the kernel. */
  ghost predicate Allowed(plans: Plans, s: State, e: Event) {
    match e
    case Make(n) => !s.session.lent && n !in s.gadget.tree && Needs(n) <= s.gadget.tree
    case Remove(n) => Removable(s.gadget.tree, n)
    case MakeMountPoint => true
    case RemoveMountPoint => s.mount.point && !s.mount.mounted
    case Mount => s.mount.point && !s.mount.mounted && Function in s.gadget.tree
    case Unmount => s.mount.mounted && s.files.open.None? && !s.session.lent
    case Open(_, _) => s.mount.mounted && s.files.open.None? && !s.session.lent
    case Close => s.files.open.Some?
    case Attach =>
      && s.gadget.bound == Unbound && FunctionLink in s.gadget.tree && s.mount.mounted && s.files.open.Some?
      && s.process.channel && s.session.loan.Some? && s.session.loan.value.generation == s.session.generation
         && s.session.lent && s.session.serving
      && (s.clock.detached.Some? ==> s.clock.now >= s.clock.detached.value.at + DWELL)
    case Detach(_) => s.gadget.bound != Unbound
    case Pass(_) => true
    case Sleep(d) => s.clock.detached.Some? && s.clock.now + d == s.clock.detached.value.noted + DWELL
    case Start => !s.process.worker && !s.process.channel && !s.session.lent && s.gadget.bound == Unbound
    case Supply(names, body) => s.process.channel && ResourceNamesOf(names) == Ok(body)
    case Hangup => s.process.channel
    case Reap => s.process.worker && !s.process.channel
    case Hear(_) => s.process.channel
    case Ask(d) =>
      && s.process.channel && d.kind == Configure && d.generation == s.session.generation && d.requestId != 0
      && s.ledger.declared == Some(d) && s.session.asked.None?
    // The worker is lent the files opened, for the declaration's own endpoints and behind its own blobs.
    case Lend(g, r, endpoints, body, files) =>
      && s.process.channel && s.gadget.bound == Unbound && FunctionLink in s.gadget.tree
      && s.files.open == Some(files) && Fits(files, endpoints)
      && EndpointMapOf(endpoints) == Ok(body) && !s.session.lent && g == s.session.generation + 1
      && s.session.asked.Some? && s.session.asked.value.requestId == r && |s.session.asked.value.body| > 0
      && Carries(s, endpoints, plans(s.session.asked.value.body))
    case Reject(g, r) =>
      && s.process.channel && g == s.session.generation
      && s.session.asked.Some? && s.session.asked.value.requestId == r && |s.session.asked.value.body| > 0
         && plans(s.session.asked.value.body).None?
    case Emptied => Cleared(s) && !s.session.lent && s.session.asked.Some? && |s.session.asked.value.body| == 0
    case Settle => Cleared(s) && !s.session.lent && s.session.asked.Some? && |s.session.asked.value.body| == 0
    case Quiesce(_, _) => s.process.channel
    // The packet taken, and behind it exactly what the host has sent.
    case Request(g, r, body) =>
      && s.process.channel && g == s.session.generation && s.files.open.Some?
      && r > s.ledger.lastRequest
      && s.files.transfer.packet.Some? && |s.files.transfer.data| == DataLength(s.files.transfer.packet.value)
      && body == s.files.transfer.packet.value + s.files.transfer.data
    case Fetch(data) =>
      && s.files.open.Some? && s.files.transfer.packet.Some? && s.files.transfer.data == []
      && 0 < |data| == DataLength(s.files.transfer.packet.value)
    // What the worker answered to the request for the packet taken.
    case Respond(response) =>
      && s.files.open.Some? && s.files.transfer.packet.Some? && s.ledger.answer.Some?
      && Answers(s.ledger.answer.value, Reply(UsbControlResponse, s.session.generation, s.ledger.lastRequest))
      && var packet := s.files.transfer.packet.value;
         Response(s.ledger.answer.value.body, AsksIn(packet), AsksFor(packet)) == Some(response)
    case Supersede => s.files.transfer.packet.Some?
    case Read(b) => s.files.open.Some? && s.files.unread == [] && 0 < |b| <= 192 && |b| % EVENT_LENGTH == 0
    case Forward(b, body) =>
      && s.process.channel && s.files.open.Some?
      && |s.files.unread| > 0 && s.files.unread[0] == Bus(b)
      && FreshEnables(s.files.history + [b]) < 0x1_0000_0000_0000_0000
      && body == EncodeEvent(b, FreshEnables(s.files.history + [b]))
    case Take => |s.files.unread| > 0 && s.files.unread[0].Setup? && s.files.transfer.packet.None?
    case Write(a, _) => Holder(a) in s.gadget.tree && !s.session.lent
    case Limit(_) => s.process.channel
    // A wait is limited in time, except for Serving after a Quiesce for the same declaration.
    case Await(k) => s.process.channel && (s.process.limited <==> !(k == Serving && s.session.replacing))
    case Adopt(r) => Cleared(s) && !s.process.worker && !s.session.lent && Plausible(r)
  }

  // The effect of an event, part by part.

  function TreeAfter(s: State, e: Event): set<Node> {
    match e
    case Make(n) => s.gadget.tree + {n}
    case Remove(n) => s.gadget.tree - {n}
    case Adopt(r) => r.tree
    case _ => s.gadget.tree
  }

  /** A new gadget starts without settings of ours. */
  function SettingsAfter(s: State, e: Event): ConfigFs.Settings {
    match e
    case Make(n) => if n == Gadget then map[] else s.settings
    case Write(a, v) => s.settings[a := v]
    case _ => s.settings
  }

  function MountPointAfter(s: State, e: Event): bool {
    match e
    case MakeMountPoint => true
    case RemoveMountPoint => false
    case Adopt(r) => r.mountPoint
    case _ => s.mount.point
  }

  function MountedAfter(s: State, e: Event): bool {
    match e
    case Mount => true
    case Unmount => false
    case Adopt(r) => r.mounted
    case _ => s.mount.mounted
  }

  function BoundAfter(s: State, e: Event): Binding {
    match e
    case Attach =>
      var loan := s.session.loan;
      if loan.Some? then Attached(loan.value.generation, loan.value.request) else Stale
    case Detach(_) => Unbound
    // Removing the link that binds the function to a configuration detaches the gadget.
    case Remove(n) => if n == FunctionLink then Unbound else s.gadget.bound
    case Adopt(r) => if r.bound then Stale else Unbound
    case _ => s.gadget.bound
  }

  function NowAfter(s: State, e: Event): nat {
    match e
    case Detach(d) => s.clock.now + d
    case Pass(d) => s.clock.now + d
    case Sleep(d) => s.clock.now + d
    case _ => s.clock.now
  }

  function DetachedAfter(s: State, e: Event): Option<Moment> {
    match e
    case Detach(d) => Some(Moment(s.clock.now, s.clock.now + d))
    case Attach => None
    case Emptied => None
    case _ => s.clock.detached
  }

  function OpenAfter(s: State, e: Event): Option<seq<FunctionFs.Direction>> {
    match e
    case Open(_, files) => Some(files)
    case Close => None
    case _ => s.files.open
  }

  function WorkerAfter(s: State, e: Event): bool {
    match e
    case Start => true
    case Reap => false
    case _ => s.process.worker
  }

  function ChannelAfter(s: State, e: Event): bool {
    match e
    case Start => true
    case Hangup => false
    case _ => s.process.channel
  }

  function LoanAfter(s: State, e: Event): Option<Loan> {
    match e
    case Lend(g, r, _, _, _) => Some(Loan(g, r))
    case Start => None
    case _ => s.session.loan
  }

  /** The record says that the generation lent is quiesced: its worker has closed the endpoint files. */
  predicate ReportsQuiesced(loan: Option<Loan>, m: Message) {
    loan.Some? && Answers(m, Reply(Quiesced, loan.value.generation, m.requestId))
  }

  /** The record says that the generation lent is being served, under its own request. */
  predicate ReportsServing(loan: Option<Loan>, m: Message) {
    loan.Some? && Answers(m, Reply(Serving, loan.value.generation, loan.value.request))
  }

  /** The replies still owed once a record has arrived. */
  function Unanswered(owed: set<Reply>, m: Message): set<Reply> {
    set r | r in owed && !Answers(m, r)
  }

  /** What hearing a record leaves in the ledger. */
  function Heard(l: Ledger, m: Message): Ledger {
    l.(owed := Unanswered(l.owed, m),
       declared := if m.kind == Configure then Some(m) else l.declared,
       answer := if m.kind == UsbControlResponse then Some(m) else l.answer)
  }

  function LentAfter(s: State, e: Event): bool {
    match e
    case Lend(_, _, _, _, _) => true
    case Reap => false
    case Hear(m) => s.session.lent && !ReportsQuiesced(s.session.loan, m)
    case _ => s.session.lent
  }

  function ServingAfter(s: State, e: Event): bool {
    match e
    case Lend(_, _, _, _, _) => false
    case Start => false
    case Hear(m) => s.session.serving || ReportsServing(s.session.loan, m)
    case _ => s.session.serving
  }

  function GenerationAfter(s: State, e: Event): nat {
    match e
    case Lend(g, _, _, _, _) => g
    case Start => 0
    case _ => s.session.generation
  }

  function AskedAfter(s: State, e: Event): Option<Message> {
    match e
    case Ask(d) => Some(d)
    case Lend(_, _, _, _, _) => None
    case Reject(_, _) => None
    case Emptied => None
    case Settle => None
    case Start => None
    case _ => s.session.asked
  }

  /** The replies the worker owes: each record that expects one adds it, and the matching record settles it. */
  function OwedAfter(s: State, e: Event): set<Reply> {
    match e
    case Lend(g, r, _, _, _) => s.ledger.owed + {Reply(Serving, g, r)}
    case Quiesce(g, r) => s.ledger.owed + {Reply(Quiesced, g, r)}
    case Request(g, r, _) => s.ledger.owed + {Reply(UsbControlResponse, g, r)}
    case Hear(m) => Unanswered(s.ledger.owed, m)
    case Hangup => {}
    case Start => {}
    case _ => s.ledger.owed
  }

  function DeclaredAfter(s: State, e: Event): Option<Message> {
    match e
    case Hear(m) => if m.kind == Configure then Some(m) else s.ledger.declared
    case Ask(_) => None
    case Start => None
    case _ => s.ledger.declared
  }

  function AnswerAfter(s: State, e: Event): Option<Message> {
    match e
    case Hear(m) => if m.kind == UsbControlResponse then Some(m) else s.ledger.answer
    case Request(_, _, _) => None
    case Take => None
    case _ => s.ledger.answer
  }

  function BlobsAfter(s: State, e: Event): seq<seq<byte>> {
    match e
    case Open(blobs, _) => blobs
    case _ => s.files.blobs
  }

  function TransferAfter(s: State, e: Event): Transfer {
    match e
    case Open(_, _) => NO_TRANSFER
    case Take => if |s.files.unread| > 0 && s.files.unread[0].Setup? then Transfer(Some(s.files.unread[0].packet), [])
                 else s.files.transfer
    case Fetch(data) => s.files.transfer.(data := data)
    case Respond(_) => NO_TRANSFER
    case Supersede => NO_TRANSFER
    case _ => s.files.transfer
  }

  function LastRequestAfter(s: State, e: Event): nat {
    match e
    case Request(_, r, _) => r
    case _ => s.ledger.lastRequest
  }

  function HistoryAfter(s: State, e: Event): seq<BusEvent> {
    match e
    case Open(_, _) => []
    case Forward(b, _) => s.files.history + [b]
    case _ => s.files.history
  }

  function UnreadAfter(s: State, e: Event): seq<Ep0Event> {
    match e
    case Open(_, _) => []
    case Close => []
    case Read(b) => EventsOf(b)
    case Forward(_, _) => if |s.files.unread| > 0 then s.files.unread[1..] else []
    case Take => if |s.files.unread| > 0 then s.files.unread[1..] else []
    case _ => s.files.unread
  }

  /** Reading from a new channel is limited. */
  function LimitedAfter(s: State, e: Event): bool {
    match e
    case Limit(on) => on
    case Start => true
    case _ => s.process.limited
  }

  function ReplacingAfter(s: State, e: Event): bool {
    match e
    case Quiesce(_, _) => true
    case Ask(_) => false
    case Start => false
    case _ => s.session.replacing
  }

  function ServingLimitedAfter(s: State, e: Event): bool {
    match e
    case Await(k) => if k == Serving then s.process.limited else s.ledger.servingLimited
    case _ => s.ledger.servingLimited
  }

  /** The effect of an event. */
  function Step(s: State, e: Event): State {
    State(
      GadgetState(TreeAfter(s, e), BoundAfter(s, e)),
      SettingsAfter(s, e),
      MountState(MountPointAfter(s, e), MountedAfter(s, e)),
      Clock(NowAfter(s, e), DetachedAfter(s, e)),
      Files(OpenAfter(s, e), BlobsAfter(s, e), TransferAfter(s, e), HistoryAfter(s, e), UnreadAfter(s, e)),
      Process(WorkerAfter(s, e), ChannelAfter(s, e), LimitedAfter(s, e)),
      Session(
        GenerationAfter(s, e), AskedAfter(s, e), LoanAfter(s, e), LentAfter(s, e), ServingAfter(s, e),
        ReplacingAfter(s, e)),
      Ledger(
        OwedAfter(s, e), DeclaredAfter(s, e), AnswerAfter(s, e), LastRequestAfter(s, e), ServingLimitedAfter(s, e)))
  }

  // Events read from EP0.

  function BusOf(events: seq<Ep0Event>): seq<BusEvent> {
    if |events| == 0 then []
    else (if events[0].Bus? then [events[0].event] else []) + BusOf(events[1..])
  }

  lemma BusOfFront(events: seq<Ep0Event>)
    ensures |events| > 0 ==> BusOf(events) == (if events[0].Bus? then [events[0].event] else []) + BusOf(events[1..])
    ensures BusOf([]) == []
  {
  }

  // Runs.

  /** The state after a run. */
  function After(r: Remains, trace: seq<Event>): State {
    if |trace| == 0 then Initial(r) else Step(After(r, trace[..|trace| - 1]), trace[|trace| - 1])
  }

  /** Every event of the run was allowed when it happened. */
  ghost predicate Safe(setting: Setting, trace: seq<Event>) {
    |trace| == 0
    || (var before := trace[..|trace| - 1];
        Safe(setting, before) && Allowed(setting.plans, After(setting.remains, before), trace[|trace| - 1]))
  }

  /** What the kernel itself maintains. */
  predicate Sound(s: State) {
    && Rooted(s.gadget.tree)
    && (s.gadget.bound != Unbound ==> FunctionLink in s.gadget.tree)
    && (s.gadget.bound.Attached? ==>
          s.session.loan == Some(Loan(s.gadget.bound.generation, s.gadget.bound.request)))
    && (s.mount.mounted ==> s.mount.point)
    && (s.files.open.Some? ==> s.mount.mounted)
    && (s.process.channel ==> s.process.worker)
    && (s.session.lent ==> s.process.worker && s.session.loan.Some?)
    && (s.session.loan.Some? ==> s.session.loan.value.generation == s.session.generation)
    && (s.clock.detached.Some? ==> s.clock.detached.value.at <= s.clock.detached.value.noted <= s.clock.now)
  }

  // What soundness needs of the events.
  predicate Guarded(s: State, e: Event) {
    && (e.Attach? ==> FunctionLink in s.gadget.tree && s.session.loan.Some?)
    && (e.RemoveMountPoint? ==> !s.mount.mounted)
    && (e.Mount? ==> s.mount.point)
    && (e.Unmount? ==> s.files.open.None?)
    && (e.Open? ==> s.mount.mounted)
    && (e.Adopt? ==> s.files.open.None? && Plausible(e.remains))
    && (e.Start? ==> !s.session.lent && s.gadget.bound == Unbound)
    && (e.Reap? ==> !s.process.channel)
    && (e.Lend? ==> s.process.channel && s.gadget.bound == Unbound)
  }

  lemma AllowedGuarded(plans: Plans, s: State, e: Event)
    requires Allowed(plans, s, e)
    ensures Guarded(s, e)
  {
    hide FreshEnables, Fits, Plausible, Removable, Needs, EndpointMapOf, EncodeEvent;
  }

  lemma StepSound(plans: Plans, s: State, e: Event)
    requires Sound(s) && Allowed(plans, s, e)
    ensures Sound(Step(s, e))
  {
    hide Allowed, Rooted;
    hide TreeAfter, BoundAfter, MountPointAfter, MountedAfter, NowAfter, DetachedAfter, OpenAfter, HistoryAfter;
    hide UnreadAfter, BlobsAfter, TransferAfter, DeclaredAfter, AnswerAfter;
    hide WorkerAfter, ChannelAfter, LimitedAfter, GenerationAfter, AskedAfter, LoanAfter, LentAfter, ServingAfter;
    hide ReplacingAfter, OwedAfter, LastRequestAfter, ServingLimitedAfter, SettingsAfter;
    AllowedGuarded(plans, s, e);
    StepRooted(plans, s, e);
    StepMounts(s, e);
    StepBound(s, e);
    StepLoan(s, e);
    StepWorker(s, e);
  }

  lemma StepMounts(s: State, e: Event)
    requires Sound(s) && Guarded(s, e)
    ensures var t := Step(s, e); (t.mount.mounted ==> t.mount.point) && (t.files.open.Some? ==> t.mount.mounted)
  {
    hide Rooted;
  }

  // A bound gadget keeps the link that binds it.
  lemma StepBound(s: State, e: Event)
    requires (s.gadget.bound != Unbound ==> FunctionLink in s.gadget.tree) && Guarded(s, e)
    ensures Step(s, e).gadget.bound != Unbound ==> FunctionLink in Step(s, e).gadget.tree
  {
    hide Rooted;
    if e.Remove? && e.node != FunctionLink && FunctionLink in s.gadget.tree {
      assert FunctionLink in s.gadget.tree - {e.node};
    }
  }

  // The generation it is bound for is the one last lent.
  lemma StepLoan(s: State, e: Event)
    requires Guarded(s, e)
    requires s.gadget.bound.Attached? ==>
               s.session.loan == Some(Loan(s.gadget.bound.generation, s.gadget.bound.request))
    ensures var t := Step(s, e);
            t.gadget.bound.Attached? ==>
              t.session.loan == Some(Loan(t.gadget.bound.generation, t.gadget.bound.request))
  {
    hide Rooted;
  }

  lemma StepWorker(s: State, e: Event)
    requires Sound(s) && Guarded(s, e)
    ensures var t := Step(s, e);
            && (t.process.channel ==> t.process.worker)
            && (t.clock.detached.Some? ==> t.clock.detached.value.at <= t.clock.detached.value.noted <= t.clock.now)
            && (t.session.lent ==> t.process.worker && t.session.loan.Some?)
            && (t.session.loan.Some? ==> t.session.loan.value.generation == t.session.generation)
  {
    hide Rooted;
  }

  lemma StepRooted(plans: Plans, s: State, e: Event)
    requires Rooted(s.gadget.tree) && Allowed(plans, s, e)
    ensures Rooted(TreeAfter(s, e))
  {
    hide FreshEnables, Fits, Needs, Rooted, Removable;
    match e
    case Make(n) => MadeRooted(s.gadget.tree, n);
    case Remove(n) => RemovedRooted(s.gadget.tree, n);
    case Adopt(r) =>
    case _ =>
  }

  lemma MadeRooted(tree: set<Node>, n: Node)
    requires Rooted(tree) && Needs(n) <= tree
    ensures Rooted(tree + {n})
  {
  }

  lemma RemovedRooted(tree: set<Node>, n: Node)
    requires Rooted(tree) && Removable(tree, n)
    ensures Rooted(tree - {n})
  {
  }

  lemma {:induction false} SafeIsSound(setting: Setting, trace: seq<Event>)
    requires Plausible(setting.remains) && Safe(setting, trace)
    ensures Sound(After(setting.remains, trace))
  {
    hide Allowed, Step, Sound, Initial;
    if |trace| == 0 {
      InitialSound(setting.remains);
    } else {
      SafeIsSound(setting, trace[..|trace| - 1]);
      StepSound(setting.plans, After(setting.remains, trace[..|trace| - 1]), trace[|trace| - 1]);
    }
  }

  lemma InitialSound(r: Remains)
    requires Plausible(r)
    ensures Sound(Initial(r))
  {
  }

  // The calls.

  /** Calls that take something down. */
  predicate Teardown(e: Event) {
    e.Remove? || e.RemoveMountPoint? || e.Unmount? || e.Detach?
  }

  /** The world, with the record of what has happened in it. Calls fail at any point, unless they are reliable. */
  class World {
    const setting: Setting
    /** Teardown calls succeed whenever they are allowed. */
    const reliable: bool
    /** So do all other calls, and the worker never falls silent. */
    const flawless: bool
    var trace: seq<Event>
    var state: State

    constructor (setting: Setting, reliable: bool, flawless: bool)
      requires Plausible(setting.remains)
      ensures this.setting == setting && this.reliable == reliable && this.flawless == flawless
      ensures Valid() && state == Initial(setting.remains) && trace == []
    {
      this.setting := setting;
      this.reliable := reliable;
      this.flawless := flawless;
      trace := [];
      state := Initial(setting.remains);
      new;
      InitialSound(setting.remains);
    }

    /** The run so far is safe, and has led to the current state. */
    ghost predicate Valid()
      reads this
    {
      state == After(setting.remains, trace) && Safe(setting, trace) && Sound(state)
    }

    predicate Faultless() {
      reliable && flawless
    }

    ghost predicate May(e: Event)
      reads this
    {
      Allowed(setting.plans, state, e)
    }

    /** An event that always succeeds. */
    method Act(e: Event)
      requires Valid() && May(e)
      modifies this
      ensures Valid() && state == Step(old(state), e) && trace == old(trace) + [e]
    {
      hide Allowed, Step, Sound;
      StepSound(setting.plans, state, e);
      trace := trace + [e];
      assert trace[..|trace| - 1] == old(trace);
      state := Step(state, e);
    }

    /** A system call, which may fail without effect. */
    method Try(e: Event) returns (ok: bool)
      requires Valid() && May(e)
      modifies this
      ensures Valid()
      ensures if ok then state == Step(old(state), e) && trace == old(trace) + [e]
              else state == old(state) && trace == old(trace)
      ensures reliable && (flawless || Teardown(e)) ==> ok
    {
      hide Allowed, Step, Sound;
      ok := *;
      if reliable && (flawless || Teardown(e)) {
        ok := true;
      }
      if ok {
        Act(e);
      }
    }

    /** A call without effect on the state, which may fail. */
    method Call() returns (ok: bool)
      ensures Faultless() ==> ok
    {
      ok := *;
      ok := ok || Faultless();
    }

    /** A teardown call that finds nothing to do. */
    method Idle() returns (ok: bool)
      ensures reliable ==> ok
    {
      ok := *;
      ok := ok || reliable;
    }

    /** Some time passes. */
    method Elapse()
      requires Valid()
      modifies this
      ensures Valid() && state == old(state).(clock := old(state).clock.(now := state.clock.now))
              && old(state).clock.now <= state.clock.now
      ensures old(trace) <= trace
    {
      var d: nat := *;
      Act(Pass(d));
    }

    /** The next record on the channel, or a failure: nothing arrived in time, or the channel ended. */
    method Receive() returns (m: Option<Message>)
      requires Valid() && state.process.channel
      modifies this
      ensures Valid() && old(trace) <= trace
      ensures if m.Some? then state == Step(old(state), Hear(m.value)) else state == old(state)
      ensures trace == if m.Some? then old(trace) + [Hear(m.value)] else old(trace)
      ensures Faultless() ==> m.Some?
    {
      m := *;
      if !m.Some? && Faultless() {
        m := Some(Record(Configure, 0, 0, [], []));
      }
      if m.Some? {
        Act(Hear(m.value));
      }
    }
  }
}
