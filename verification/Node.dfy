/** The tasks of the running node, interleaved between their awaits: src/reconcilers/mod.rs
    around the lease and status reconcilers, src/net/wifi.rs, src/led.rs, and an API server
    that answers, refuses, loses requests or is written by others. */
module Node {
  import opened Wrappers
  import opened MachineInts
  import opened Config
  import opened StatusModel
  import opened Led
  import opened LeaseReconciler
  import opened WallClock
  import opened Wifi

  // ---- State --------------------------------------------------------------------------

  datatype Task = LeaseTask | StatusTask

  /** A request that waits for the shared client, is on its way, or was decided by the
      server and not yet read. */
  datatype Request = Queued | Sent | Replied(status: u16)

  datatype LeasePhase =
    | Sleeping(until: nat)
    | Renewing(start: u64, stamp: u64, request: Request)
    | Creating(start: u64, stamp: u64, request: Request)

  datatype StatusPhase =
    | Idle(until: nat)
    | SendingStatus(sample: Sample, request: Request)
    | SendingAnnotation(sample: Sample, request: Request)

  /** The Lease object; ours if the lease task wrote it last. */
  datatype StoredLease = StoredLease(renewTime: u64, ours: bool)

  /** led_task in its select, with the time its frame is due, or handling what it got. */
  datatype LedPhase = Waiting(frameAt: nat) | Busy

  datatype LedView = LedView(steady: LedPattern, iterationStart: u64, phase: LedPhase)

  /** When the last status tick started; when the last one started that skipped the push or
      had it fully answered, or the run; how many pushes in a row have failed since; and
      whether one was ever fully answered. */
  datatype PushHistory = PushHistory(start: u64, base: u64, failed: nat, full: bool)

  /** What has happened so far; no step depends on it. A lease tick is good if it ends with
      a 200 on the renewal or a 201 on the creation; lastGood is when the last one started,
      or the start of the run, and failedTicks counts the ticks since. */
  datatype History = History(
    associations: nat, renewed: nat, healthySignals: nat, overwritten: nat, signalledAt: u64,
    failedTicks: nat, lastGood: u64, log: seq<Tick>, leaseLog: seq<LeaseTick>,
    pushes: PushHistory)

  datatype Node = Node(
    ms: u64, anchor: Anchor, wifi: WifiView, client: Option<Task>,
    lease: LeasePhase, cells: LeaseView, stored: Option<StoredLease>,
    phase: StatusPhase, status: StatusState, led: LedView, hist: History)

  // ---- Steps --------------------------------------------------------------------------

  datatype Event =
    | Advance(to: u64)
    | Associate(ap: Bssid)
    | LeaseWake
    | StatusWake(wallMs: u64, nowMs: u64, endMs: u64, free: nat)
    | Acquire(task: Task)
    | Serve(task: Task)
    | Refuse(task: Task, status: u16)
    | Fail(task: Task)
    | Answer(task: Task)
    | OthersDelete
    | OthersWrite(renewTime: u64)
    | LedWake
    | LedLoop

  function RequestOf(n: Node, t: Task): Option<Request> {
    match t
    case LeaseTask => if n.lease.Sleeping? then None else Some(n.lease.request)
    case StatusTask => if n.phase.Idle? then None else Some(n.phase.request)
  }

  /** The status that only a server that acted on the request answers with. */
  function SuccessStatus(n: Node, t: Task): u16 {
    if t == LeaseTask && n.lease.Creating? then 201 else 200
  }

  predicate Enabled(n: Node, e: Event) {
    match e
    case Advance(to) => n.ms <= to
    case Associate(_) | OthersDelete | OthersWrite(_) => true
    case LeaseWake => n.lease.Sleeping? && n.lease.until <= n.ms
    case StatusWake(wallMs, nowMs, endMs, _) =>
      n.phase.Idle? && n.phase.until <= n.ms <= wallMs <= nowMs <= endMs
    case Acquire(t) => n.client == None && RequestOf(n, t) == Some(Queued)
    case Serve(t) => RequestOf(n, t) == Some(Sent)
    case Refuse(t, status) => RequestOf(n, t) == Some(Sent) && status != SuccessStatus(n, t)
    case Fail(t) => RequestOf(n, t).Some? && RequestOf(n, t) != Some(Queued)
    case Answer(t) => RequestOf(n, t).Some? && RequestOf(n, t).value.Replied?
    case LedWake => n.led.phase.Waiting? && (n.led.phase.frameAt <= n.ms || n.cells.signal.Some?)
    case LedLoop => n.led.phase.Busy?
  }

  const PERIOD_MS := 1000 * LEASE_RENEW_PERIOD_SECS

  function WithLeaseRequest(n: Node, r: Request): Node
    requires !n.lease.Sleeping?
  {
    n.(lease := match n.lease
                case Renewing(start, stamp, _) => Renewing(start, stamp, r)
                case Creating(start, stamp, _) => Creating(start, stamp, r)
                case Sleeping(until) => Sleeping(until))
  }

  function WithStatusRequest(n: Node, r: Request): Node
    requires !n.phase.Idle?
  {
    n.(phase := match n.phase
                case SendingStatus(s, _) => SendingStatus(s, r)
                case SendingAnnotation(s, _) => SendingAnnotation(s, r)
                case Idle(until) => Idle(until))
  }

  function WithRequest(n: Node, t: Task, r: Request): Node
    requires RequestOf(n, t).Some?
  {
    match t
    case LeaseTask => WithLeaseRequest(n, r)
    case StatusTask => WithStatusRequest(n, r)
  }

  /** The tick as a whole, if this becomes of its present request. */
  function WholeLeaseTick(n: Node, fate: LeaseFate): LeaseTick
    requires !n.lease.Sleeping?
  {
    if n.lease.Renewing? then LeaseTick(n.lease.stamp, n.lease.stamp, fate, Lost(false))
    else LeaseTick(UnixNow(n.anchor, n.lease.start), n.lease.stamp, Refused(404), fate)
  }

  function LeaseTickEnds(n: Node, fate: LeaseFate): Node
    requires !n.lease.Sleeping?
  {
    var logged := n.hist.(leaseLog := n.hist.leaseLog + [WholeLeaseTick(n, fate)]);
    n.(client := None, lease := Sleeping(n.ms + PERIOD_MS),
       hist := if fate.Served? then logged.(failedTicks := 0, lastGood := n.lease.start)
               else logged.(failedTicks := n.hist.failedTicks + 1))
  }

  /** The server acted on the request on its way. */
  predicate ServerActed(n: Node)
    requires !n.lease.Sleeping?
  {
    n.lease.request == Replied(SuccessStatus(n, LeaseTask))
  }

  /** The 200 branch of LeaseReconciler::reconcile. */
  function LeaseRenewed(n: Node): Node {
    var cells := Renewed(n.cells);
    n.(cells := cells,
       hist := n.hist.(
         renewed := n.hist.renewed + 1, signalledAt := n.ms,
         healthySignals := n.hist.healthySignals + (if cells.signal == Some(Healthy) then 1 else 0),
         overwritten := n.hist.overwritten + (if n.cells.signal.Some? then 1 else 0)))
  }

  function LeaseAnswered(n: Node, status: u16): Node
    requires !n.lease.Sleeping?
  {
    if status == SuccessStatus(n, LeaseTask) then
      LeaseTickEnds(if n.lease.Renewing? then LeaseRenewed(n) else n, Served)
    else if status == 404 && n.lease.Renewing? then
      n.(client := None, lease := Creating(n.lease.start, UnixNow(n.anchor, n.ms), Queued))
    else LeaseTickEnds(n, Refused(status))
  }

  function LeaseServed(n: Node): Node
    requires !n.lease.Sleeping?
  {
    var ours := Some(StoredLease(n.lease.stamp, true));
    if n.lease.Renewing? then
      if n.stored.Some? then WithLeaseRequest(n.(stored := ours), Replied(200)) else WithLeaseRequest(n, Replied(404))
    else
      if n.stored.None? then WithLeaseRequest(n.(stored := ours), Replied(201)) else WithLeaseRequest(n, Replied(409))
  }

  function StatusTickEnds(n: Node, s: Sample, outcome: Outcome): Node {
    var p := n.hist.pushes;
    n.(client := None, phase := Idle(n.ms + PERIOD_MS),
       hist := n.hist.(log := n.hist.log + [Tick(s, outcome)],
                       pushes := if outcome == BothAnswered then PushHistory(p.start, p.start, 0, true)
                                 else p.(failed := p.failed + 1)))
  }

  /** What a tick has come to if its request fails now. */
  function FailOutcome(p: StatusPhase): Outcome
    requires !p.Idle?
  {
    match p
    case SendingStatus(_, request) => if request == Replied(200) then StatusAppliedUnanswered else StatusLost
    case _ => AnnotationFailed
  }

  function StatusAnswered(n: Node, status: u16): Node
    requires !n.phase.Idle?
  {
    var s := n.phase.sample;
    if n.phase.SendingStatus? then
      if status == 200 then n.(client := None, phase := SendingAnnotation(s, Queued))
      else StatusTickEnds(n, s, StatusLost)
    else if status == 200 then StatusTickEnds(n.(status := n.status.(recon := Settle(n.status.recon, s))), s, BothAnswered)
    else StatusTickEnds(n, s, AnnotationFailed)
  }

  function StatusServed(n: Node): Node
    requires !n.phase.Idle?
  {
    var r, s := n.status.recon, n.phase.sample;
    WithStatusRequest(
      if n.phase.SendingAnnotation? then n
      else n.(status := n.status.(server := Merge(n.status.server, Rows(r.trackers, InputsOf(r.window, s), s.now)))),
      Replied(200))
  }

  /** What a tick that starts now reads. */
  function Sampled(n: Node, wallMs: u64, nowMs: u64, endMs: u64, free: nat): Sample {
    Sample(wallMs, UnixNow(n.anchor, wallMs), nowMs, free, n.wifi.assocTotal, n.wifi.bssid, endMs / 1000,
           n.cells.sharedCount)
  }

  /** The status tick up to its first await, or to its end if there is nothing to push. */
  function StatusStarts(n: Node, s: Sample): Node {
    var seen := n.(status := n.status.(recon := ObserveTick(n.status.recon, s)));
    if Pushes(n.status.recon, s) then seen.(phase := SendingStatus(s, Queued))
    else
      var p := n.hist.pushes;
      seen.(phase := Idle(n.ms + PERIOD_MS),
            hist := n.hist.(log := n.hist.log + [Tick(s, BothAnswered)], pushes := p.(base := p.start, failed := 0)))
  }

  /** led_task takes the signal. */
  function LedTakes(n: Node): Node
    requires n.cells.signal.Some?
  {
    n.(cells := n.cells.(signal := None),
       led := n.led.(steady := SteadyAfter(n.led.steady, n.cells.signal.value), phase := Busy))
  }

  function Step(n: Node, e: Event): Node
    requires Enabled(n, e)
  {
    match e
    case Advance(to) => n.(ms := to)
    case Associate(ap) =>
      n.(wifi := Associated(n.wifi, ap),
         hist := n.hist.(associations := n.hist.associations + 1))
    case LeaseWake => n.(lease := Renewing(n.ms, UnixNow(n.anchor, n.ms), Queued))
    case StatusWake(wallMs, nowMs, endMs, free) =>
      StatusStarts(n.(ms := endMs, hist := n.hist.(pushes := n.hist.pushes.(start := n.ms))),
                   Sampled(n, wallMs, nowMs, endMs, free))
    case Acquire(t) => WithRequest(n.(client := Some(t)), t, Sent)
    case Serve(t) => if t == LeaseTask then LeaseServed(n) else StatusServed(n)
    case Refuse(t, status) => WithRequest(n, t, Replied(status))
    case Fail(t) =>
      if t == LeaseTask then LeaseTickEnds(n, Lost(ServerActed(n)))
      else StatusTickEnds(n, n.phase.sample, FailOutcome(n.phase))
    case Answer(t) =>
      if t == LeaseTask then LeaseAnswered(n, n.lease.request.status) else StatusAnswered(n, n.phase.request.status)
    case OthersDelete => n.(stored := None)
    case OthersWrite(renewTime) => n.(stored := Some(StoredLease(renewTime, false)))
    case LedWake => if n.led.phase.frameAt <= n.ms then n.(led := n.led.(phase := Busy)) else LedTakes(n)
    case LedLoop =>
      var next := n.(led := n.led.(iterationStart := n.ms, phase := Waiting(n.ms + 33)));
      if n.cells.signal.Some? then LedTakes(next) else next
  }

  // ---- Runs ---------------------------------------------------------------------------

  /** Both reconcilers have just been created. */
  predicate Start(n: Node) {
    && n.client == None && n.lease == Sleeping(n.ms + PERIOD_MS) && n.phase == Idle(n.ms + PERIOD_MS)
    && n.cells == LeaseView(false, 0, 0, n.cells.signal) && n.led.iterationStart <= n.ms
    && n.hist == History(0, 0, 0, 0, n.ms, 0, n.ms, [], [], PushHistory(n.ms, n.ms, 0, false))
    && (n.stored.Some? ==> !n.stored.value.ours)
    && n.status.recon.window.assocTotal == n.wifi.assocTotal
  }

  /** Each event is enabled when it happens. */
  predicate Legal(n: Node, events: seq<Event>)
    decreases |events|, 0
  {
    events == []
    || (Legal(n, events[..|events| - 1])
        && Enabled(After(n, events[..|events| - 1]), events[|events| - 1]))
  }

  function After(n: Node, events: seq<Event>): Node
    requires Legal(n, events)
    decreases |events|, 1
  {
    if events == [] then n else Step(After(n, events[..|events| - 1]), events[|events| - 1])
  }
}
