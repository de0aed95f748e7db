/** One tick of src/reconcilers/status.rs as a function of its samples and of what
    becomes of its requests, and runs of such ticks against an API server. */
module StatusModel {
  import opened MachineInts
  import opened Config
  import opened Conditions

  // ---- State ---------------------------------------------------------------------

  datatype CondType =
    Ready | MemoryPressure | DiskPressure | PIDPressure | Vibes | Caffeinated | Existential | Peckish | Haunted

  const ALL_TYPES: set<CondType> :=
    {Ready, MemoryPressure, DiskPressure, PIDPressure, Vibes, Caffeinated, Existential, Peckish, Haunted}

  lemma EveryType(t: CondType)
    ensures t in ALL_TYPES
  {
    match t
    case Ready => case MemoryPressure => case DiskPressure => case PIDPressure => case Vibes =>
    case Caffeinated => case Existential => case Peckish => case Haunted =>
  }

  /** NodeCondTracker and CustomCondTracker. */
  datatype Trackers = Trackers(
    ready: Cond<bool>, memoryPressure: Cond<bool>, diskPressure: Cond<bool>, pidPressure: Cond<bool>,
    vibes: Cond<CondStatus>, caffeinated: Cond<CondStatus>, existential: Cond<CondStatus>,
    peckish: Cond<CondStatus>, haunted: Cond<CondStatus>)

  function StatusOf(value: bool): CondStatus {
    if value then True else False
  }

  function AsStatus(c: Cond<bool>): Cond<CondStatus> {
    Cond(StatusOf(c.status), c.since)
  }

  function Get(tr: Trackers, t: CondType): Cond<CondStatus> {
    match t
    case Ready => AsStatus(tr.ready)
    case MemoryPressure => AsStatus(tr.memoryPressure)
    case DiskPressure => AsStatus(tr.diskPressure)
    case PIDPressure => AsStatus(tr.pidPressure)
    case Vibes => tr.vibes
    case Caffeinated => tr.caffeinated
    case Existential => tr.existential
    case Peckish => tr.peckish
    case Haunted => tr.haunted
  }

  /** The snapshots that the windowed conditions are measured from. */
  datatype Window = Window(assocTotal: u32, bssid: u64, unix: u64, monoMs: u64)

  /** StatusReconciler; the log-line rotation is left out. */
  datatype Recon = Recon(trackers: Trackers, lastStatusUpdate: u64, window: Window)

  /** What one tick reads. The wall clock was read at wallMs, which the code does not
      keep; every other field is a local of reconcile. */
  datatype Sample = Sample(
    wallMs: u64, now: u64, nowMs: u64, free: nat, assocTotal: u32, bssid: u64, uptimeSecs: u64, renewals: u32)

  // ---- Evaluation ------------------------------------------------------------------

  function Reconnects(w: Window, s: Sample): u32 {
    SaturatingSub(s.assocTotal, w.assocTotal)
  }

  predicate BssidChanged(w: Window, s: Sample) {
    w.bssid != 0 && s.bssid != 0 && s.bssid != w.bssid
  }

  predicate TimeSlipped(w: Window, s: Sample) {
    var wallDelta := WrapI64(WrapI64(s.now) - WrapI64(w.unix));
    var monoDelta := WrapI64(SaturatingSub(s.nowMs, w.monoMs) / 1000);
    WrapI64(Abs(WrapI64(wallDelta - monoDelta))) > HAUNTED_SLIP_SECS
  }

  function InputsOf(w: Window, s: Sample): Inputs {
    Inputs(s.free, s.uptimeSecs, Reconnects(w, s), s.renewals, BssidChanged(w, s), TimeSlipped(w, s))
  }

  predicate UnderPressure(s: Sample) {
    s.free < MEMORY_PRESSURE_FREE_BYTES
  }

  /** The status that the tick evaluates for a condition; three are never evaluated
      after their creation. */
  function Evaluated(r: Recon, s: Sample, t: CondType): CondStatus {
    var i := InputsOf(r.window, s);
    match t
    case MemoryPressure => StatusOf(UnderPressure(s))
    case Vibes => EvalVibes(i).Status()
    case Caffeinated => EvalCaffeinated(i).Status()
    case Existential => EvalExistential(i).Status()
    case Peckish => EvalPeckish(i).Status()
    case Haunted => EvalHaunted(i).Status()
    case _ => Get(r.trackers, t).status
  }

  // ---- The tick ----------------------------------------------------------------------

  /** After all observations, before any request. */
  function ObserveTick(r: Recon, s: Sample): Recon {
    var i := InputsOf(r.window, s);
    r.(trackers := r.trackers.(
      memoryPressure := Observed(r.trackers.memoryPressure, UnderPressure(s), s.now),
      vibes := Observed(r.trackers.vibes, EvalVibes(i).Status(), s.now),
      caffeinated := Observed(r.trackers.caffeinated, EvalCaffeinated(i).Status(), s.now),
      existential := Observed(r.trackers.existential, EvalExistential(i).Status(), s.now),
      peckish := Observed(r.trackers.peckish, EvalPeckish(i).Status(), s.now),
      haunted := Observed(r.trackers.haunted, EvalHaunted(i).Status(), s.now)))
  }

  predicate Due(r: Recon, s: Sample) {
    s.now != 0 && SaturatingSub(s.now, r.lastStatusUpdate) >= STATUS_UPDATE_PERIOD_SECS
  }

  predicate Differs(r: Recon, s: Sample, t: CondType) {
    Evaluated(r, s, t) != Get(r.trackers, t).status
  }

  /** One of the six observed conditions flips. */
  predicate Flips(r: Recon, s: Sample) {
    || Differs(r, s, MemoryPressure) || Differs(r, s, Vibes) || Differs(r, s, Caffeinated)
    || Differs(r, s, Existential) || Differs(r, s, Peckish) || Differs(r, s, Haunted)
  }

  predicate Pushes(r: Recon, s: Sample) {
    Flips(r, s) || Due(r, s)
  }

  /** The snapshots that a full push leaves. */
  function WindowOf(s: Sample): Window {
    Window(s.assocTotal, s.bssid, s.now, s.nowMs)
  }

  function Settle(r: Recon, s: Sample): Recon {
    r.(lastStatusUpdate := s.now, window := WindowOf(s))
  }

  // ---- The server --------------------------------------------------------------------

  datatype Row = Row(status: CondStatus, verdict: Verdict, heartbeat: u64, transition: u64)

  /** status.conditions, with the type as its merge key. */
  type Conds = map<CondType, Row>

  function BuiltinVerdict(tr: Trackers, t: CondType): Verdict {
    match t
    case Ready => KubeletReady
    case MemoryPressure => if tr.memoryPressure.status then InsufficientMemory else SufficientMemory
    case DiskPressure => NoDiskPressure
    case _ => SufficientPid
  }

  /** The verdict that a body states for a condition. */
  function VerdictOf(tr: Trackers, i: Inputs, t: CondType): Verdict {
    match t
    case Ready | MemoryPressure | DiskPressure | PIDPressure => BuiltinVerdict(tr, t)
    case Vibes => EvalVibes(i)
    case Caffeinated => EvalCaffeinated(i)
    case Existential => EvalExistential(i)
    case Peckish => EvalPeckish(i)
    case Haunted => EvalHaunted(i)
  }

  predicate IsBuiltin(t: CondType) {
    t == Ready || t == MemoryPressure || t == DiskPressure || t == PIDPressure
  }

  /** A built-in row takes its status from the tracker, a custom one from its entry. */
  function RowOf(tr: Trackers, i: Inputs, heartbeat: u64, t: CondType): Row {
    var v := VerdictOf(tr, i, t);
    Row(if IsBuiltin(t) then Get(tr, t).status else v.Status(), v, heartbeat, Get(tr, t).since)
  }

  /** The nine rows of a status body. */
  function Rows(tr: Trackers, i: Inputs, heartbeat: u64): Conds {
    map t | t in ALL_TYPES :: RowOf(tr, i, heartbeat, t)
  }

  /** A strategic merge updates the rows it names and keeps the others. */
  function Merge(stored: Conds, patch: Conds): Conds {
    stored + patch
  }

  // ---- Runs --------------------------------------------------------------------------

  /** What becomes of the two PATCHes of a tick that pushes. */
  datatype Outcome = StatusLost | StatusAppliedUnanswered | AnnotationFailed | BothAnswered

  datatype Tick = Tick(sample: Sample, outcome: Outcome)

  datatype StatusState = StatusState(recon: Recon, server: Conds)

  /** The body that a tick sends. */
  function Body(r: Recon, s: Sample): Conds {
    Rows(ObserveTick(r, s).trackers, InputsOf(r.window, s), s.now)
  }

  function StepTick(st: StatusState, k: Tick): StatusState {
    var seen := ObserveTick(st.recon, k.sample);
    if !Pushes(st.recon, k.sample) || k.outcome == StatusLost then st.(recon := seen)
    else
      StatusState(if k.outcome == BothAnswered then Settle(seen, k.sample) else seen,
                  Merge(st.server, Body(st.recon, k.sample)))
  }

  function Run(st: StatusState, ticks: seq<Tick>): StatusState {
    if ticks == [] then st
    else StepTick(Run(st, ticks[..|ticks| - 1]), ticks[|ticks| - 1])
  }

  /** The reconciler and server before tick i of a run. */
  function Before(st: StatusState, ticks: seq<Tick>, i: nat): StatusState
    requires i <= |ticks|
  {
    Run(st, ticks[..i])
  }

  // ---- One tick ------------------------------------------------------------------------

  /** A tick treats each of the nine trackers as one observation of its evaluated status. */
  lemma ObserveTickEach(r: Recon, s: Sample, t: CondType)
    ensures Get(ObserveTick(r, s).trackers, t) == Observed(Get(r.trackers, t), Evaluated(r, s, t), s.now)
  {
  }

  lemma FlipsByField(r: Recon, s: Sample)
    ensures var i := InputsOf(r.window, s);
            Flips(r, s) <==>
              || UnderPressure(s) != r.trackers.memoryPressure.status
              || EvalVibes(i).Status() != r.trackers.vibes.status
              || EvalCaffeinated(i).Status() != r.trackers.caffeinated.status
              || EvalExistential(i).Status() != r.trackers.existential.status
              || EvalPeckish(i).Status() != r.trackers.peckish.status
              || EvalHaunted(i).Status() != r.trackers.haunted.status
  {
  }

  lemma FlipsExactly(r: Recon, s: Sample)
    ensures Flips(r, s) <==> exists t :: Differs(r, s, t)
  {
    forall t | Differs(r, s, t)
      ensures Flips(r, s)
    {
      match t {
        case Ready =>
        case DiskPressure =>
        case PIDPressure =>
        case _ =>
      }
    }
  }

  /** A body states, for each of the nine conditions, the status just evaluated and
      the tracker's transition time. */
  lemma BodyStatesTrackers(r: Recon, s: Sample, t: CondType)
    ensures t in Body(r, s)
    ensures var row := Body(r, s)[t];
            && row.status == Evaluated(r, s, t) == Get(ObserveTick(r, s).trackers, t).status
            && row.transition == Get(ObserveTick(r, s).trackers, t).since
            && row.heartbeat == s.now
  {
  }

  // ---- What a tick says of its sample ----------------------------------------------------

  /** Associations since the snapshot; none if the counter reads less than it. */
  predicate AtLeastReconnects(w: Window, s: Sample, n: nat) {
    s.assocTotal >= w.assocTotal + n
  }

  /** The status of each condition that a tick evaluates, in the units of its sample. */
  lemma TickThresholds(r: Recon, s: Sample)
    ensures Evaluated(r, s, MemoryPressure) == (if s.free < 20 * 1024 then True else False)
    ensures Evaluated(r, s, Vibes) ==
      if AtLeastReconnects(r.window, s, 3) || s.free < 30 * 1024 then False
      else if AtLeastReconnects(r.window, s, 1) || s.free < 51 * 1024 then Unknown
      else True
    ensures Evaluated(r, s, Caffeinated) == (if s.uptimeSecs < 600 then True else False)
    ensures Evaluated(r, s, Existential) == (if s.renewals >= 100 then True else False)
    ensures Evaluated(r, s, Peckish) == (if s.free < 61 * 1024 then True else False)
    ensures Evaluated(r, s, Haunted) ==
      if GhostBetween(r.window.bssid, s.bssid) || TimeSlipped(r.window, s) then True else False
  {
    EvaluatorThresholds(InputsOf(r.window, s));
  }

  lemma BodyVerdict(r: Recon, s: Sample, t: CondType)
    ensures t in Body(r, s) && Body(r, s)[t].verdict == VerdictOf(ObserveTick(r, s).trackers, InputsOf(r.window, s), t)
  {
    EveryType(t);
  }

  /** The reason that the body of a tick gives for each condition, in the units of the sample. */
  function ReasonFor(w: Window, s: Sample, t: CondType): Verdict {
    match t
    case Ready => KubeletReady
    case MemoryPressure => if s.free < 20 * 1024 then InsufficientMemory else SufficientMemory
    case DiskPressure => NoDiskPressure
    case PIDPressure => SufficientPid
    case Vibes =>
      if AtLeastReconnects(w, s, 3) then Cursed
      else if s.free < 30 * 1024 then Off
      else if AtLeastReconnects(w, s, 1) || s.free < 51 * 1024 then Dissociating
      else if s.free >= 71 * 1024 && s.uptimeSecs < 600 then Immaculate
      else Cromulent
    case Caffeinated => if s.uptimeSecs < 600 then FreshlyBrewed else Decaf
    case Existential =>
      if s.renewals < 100 then Innocent
      else if s.renewals < 1_000 then Questioning
      else if s.renewals < 10_000 then Accepting
      else Transcendent
    case Peckish => if s.free < 41 * 1024 then Hungry else if s.free < 61 * 1024 then CouldGoForASnack else Sated
    case Haunted => if GhostBetween(w.bssid, s.bssid) then NewGhost else if TimeSlipped(w, s) then TimeSlip else Calm
  }

  /** The row for memory pressure states the status of its reason. */
  lemma BodyReasons(r: Recon, s: Sample, t: CondType)
    ensures t in Body(r, s) && Body(r, s)[t].verdict == ReasonFor(r.window, s, t)
    ensures MemoryPressure in Body(r, s) && Body(r, s)[MemoryPressure].status == (if s.free < 20 * 1024 then True else False)
  {
    BodyVerdict(r, s, t);
    TickThresholds(r, s);
    BodyStatesTrackers(r, s, MemoryPressure);
    ObservedStatus(r, s, MemoryPressure);
    ReasonThresholds(InputsOf(r.window, s));
    InputUnits(r.window, s);
  }

  lemma InputUnits(w: Window, s: Sample)
    ensures var i := InputsOf(w, s);
            && i.heapFreeBytes == s.free && i.uptimeSecs == s.uptimeSecs && i.renewalCount == s.renewals
            && (i.wifiReconnects >= 3 <==> AtLeastReconnects(w, s, 3)) && (i.wifiReconnects > 0 <==> AtLeastReconnects(w, s, 1))
            && i.bssidChanged == GhostBetween(w.bssid, s.bssid) && i.timeSlipped == TimeSlipped(w, s)
  {
  }

  // ---- Coherence with the server -------------------------------------------------------

  predicate RowMatches(st: StatusState, t: CondType) {
    && t in st.server
    && st.server[t].status == Get(st.recon.trackers, t).status
    && st.server[t].transition == Get(st.recon.trackers, t).since
  }

  /** The server's nine statuses and transition times are the trackers'. */
  predicate Coherent(st: StatusState) {
    forall t :: RowMatches(st, t)
  }

  /** Whether the latest status PATCH of the run, or the bootstrap's if none was sent
      since, was answered with 200. */
  predicate LatestPatchAnswered(st: StatusState, bootAnswered: bool, ticks: seq<Tick>) {
    if ticks == [] then bootAnswered
    else
      var before, last := ticks[..|ticks| - 1], ticks[|ticks| - 1];
      if Pushes(Run(st, before).recon, last.sample) then last.outcome.AnnotationFailed? || last.outcome.BothAnswered?
      else LatestPatchAnswered(st, bootAnswered, before)
  }

  lemma SentBodyIsCoherent(st: StatusState, k: Tick)
    requires Pushes(st.recon, k.sample) && k.outcome != StatusLost
    ensures Coherent(StepTick(st, k))
  {
    forall t
      ensures RowMatches(StepTick(st, k), t)
    {
      BodyStatesTrackers(st.recon, k.sample, t);
    }
  }

  lemma SkippedTickKeepsState(st: StatusState, k: Tick)
    requires !Pushes(st.recon, k.sample)
    ensures StepTick(st, k) == st
  {
  }

  /** Whenever the latest status PATCH was answered with 200, the trackers are what
      the server stores, however many ticks have skipped the push since. */
  lemma {:induction false} CoherentWhenAnswered(st: StatusState, bootAnswered: bool, ticks: seq<Tick>)
    requires bootAnswered ==> Coherent(st)
    requires LatestPatchAnswered(st, bootAnswered, ticks)
    ensures Coherent(Run(st, ticks))
  {
    if ticks != [] {
      var before, last := ticks[..|ticks| - 1], ticks[|ticks| - 1];
      if Pushes(Run(st, before).recon, last.sample) {
        SentBodyIsCoherent(Run(st, before), last);
      } else {
        SkippedTickKeepsState(Run(st, before), last);
        CoherentWhenAnswered(st, bootAnswered, before);
      }
    }
  }

  lemma {:induction false} AllAnswered(st: StatusState, ticks: seq<Tick>)
    requires forall i :: 0 <= i < |ticks| ==> ticks[i].outcome == BothAnswered
    ensures LatestPatchAnswered(st, true, ticks)
  {
    if ticks != [] {
      AllAnswered(st, ticks[..|ticks| - 1]);
    }
  }

  /** In a run without failures a tick pushes exactly when it is due or an evaluated
      status differs from the server's. */
  lemma PushesWhenServerDiffers(st: StatusState, ticks: seq<Tick>, s: Sample)
    requires Coherent(st)
    requires forall i :: 0 <= i < |ticks| ==> ticks[i].outcome == BothAnswered
    ensures Coherent(Run(st, ticks))
    ensures var now := Run(st, ticks);
            Pushes(now.recon, s) <==>
              Due(now.recon, s) || exists t :: t in now.server && Evaluated(now.recon, s, t) != now.server[t].status
  {
    AllAnswered(st, ticks);
    CoherentWhenAnswered(st, true, ticks);
    var now := Run(st, ticks);
    FlipsExactly(now.recon, s);
    if Flips(now.recon, s) {
      var t :| Differs(now.recon, s, t);
      assert RowMatches(now, t);
    }
    forall t | t in now.server && Evaluated(now.recon, s, t) != now.server[t].status
      ensures Differs(now.recon, s, t)
    {
      assert RowMatches(now, t);
    }
  }

  lemma ObservedStatus(r: Recon, s: Sample, t: CondType)
    ensures Get(ObserveTick(r, s).trackers, t).status == Evaluated(r, s, t)
  {
    ObserveTickEach(r, s, t);
  }

  lemma ObserveKeepsSchedule(r: Recon, seen: Sample, s: Sample)
    ensures Due(ObserveTick(r, seen), s) <==> Due(r, s)
    ensures ObserveTick(r, seen).window == r.window
  {
  }

  /** After a lost PATCH the flips are already recorded: the next tick sends again
      exactly when it is due or evaluates something else. */
  lemma LostFlipsAreNotResent(st: StatusState, lost: Tick, s: Sample)
    requires lost.outcome == StatusLost
    ensures var after := StepTick(st, lost);
            && after.server == st.server
            && (Pushes(after.recon, s) <==>
                Due(st.recon, s) || exists t :: Evaluated(after.recon, s, t) != Evaluated(st.recon, lost.sample, t))
  {
    var seen := ObserveTick(st.recon, lost.sample);
    ObserveKeepsSchedule(st.recon, lost.sample, s);
    FlipsExactly(seen, s);
    forall t
      ensures Differs(seen, s, t) <==> Evaluated(seen, s, t) != Evaluated(st.recon, lost.sample, t)
    {
      ObservedStatus(st.recon, lost.sample, t);
    }
    assert StepTick(st, lost).recon == seen;
  }

  /** So a coherent server can stay stale: memory runs short, the PATCH is lost, and
      the next tick, which is not due and evaluates the same, sends nothing. */
  lemma StaleServerWitness(st: StatusState, lost: Tick, next: Tick)
    requires Coherent(st) && lost.outcome == StatusLost
    requires st.recon.trackers.memoryPressure.status == false && UnderPressure(lost.sample)
    requires !Due(st.recon, next.sample)
    requires forall t :: Evaluated(StepTick(st, lost).recon, next.sample, t) == Evaluated(st.recon, lost.sample, t)
    ensures Pushes(st.recon, lost.sample)
    ensures var after := StepTick(StepTick(st, lost), next);
            && !Pushes(StepTick(st, lost).recon, next.sample)
            && MemoryPressure in after.server && after.server[MemoryPressure].status == False
            && Get(after.recon.trackers, MemoryPressure).status == True
  {
    assert RowMatches(st, MemoryPressure);
    assert Differs(st.recon, lost.sample, MemoryPressure);
    LostFlipsAreNotResent(st, lost, next.sample);
    SkippedTickKeepsState(StepTick(st, lost), next);
    ObservedStatus(st.recon, lost.sample, MemoryPressure);
  }

  /** For instance ten and twenty seconds after a full push, on a node with 10 KiB free. */
  lemma StaleServerInput(st: StatusState, lost: Tick, next: Tick)
    requires st.recon.window == Window(1, 7, 1000, 1_000_000) && st.recon.lastStatusUpdate == 1000
    requires lost == Tick(Sample(1_010_000, 1010, 1_010_000, 10 * 1024, 1, 7, 1010, 100), StatusLost)
    requires next.sample == Sample(1_020_000, 1020, 1_020_000, 10 * 1024, 1, 7, 1020, 101)
    ensures UnderPressure(lost.sample) && !Due(st.recon, next.sample)
    ensures forall t :: Evaluated(StepTick(st, lost).recon, next.sample, t) == Evaluated(st.recon, lost.sample, t)
  {
    ObserveKeepsSchedule(st.recon, lost.sample, next.sample);
    forall t
      ensures Evaluated(StepTick(st, lost).recon, next.sample, t) == Evaluated(st.recon, lost.sample, t)
    {
      assert StepTick(st, lost).recon == ObserveTick(st.recon, lost.sample);
      match t {
        case Ready => case DiskPressure => case PIDPressure =>
        case _ =>
      }
    }
  }

  /** A whole example: a healthy node whose memory runs short, coherent before, stale after. */
  lemma StaleServerExample() returns (st: StatusState, lost: Tick, next: Tick)
    ensures Coherent(st) && lost.outcome == StatusLost && lost.sample.nowMs + 10_000 <= next.sample.wallMs
    ensures Pushes(st.recon, lost.sample) && !Pushes(StepTick(st, lost).recon, next.sample)
    ensures var after := StepTick(StepTick(st, lost), next);
            && MemoryPressure in after.server && after.server[MemoryPressure].status == False
            && Get(after.recon.trackers, MemoryPressure).status == True
  {
    var no, calm, good := Cond(false, 900), Cond(False, 900), Cond(True, 900);
    var tr := Trackers(Cond(true, 900), no, no, no, good, calm, good, calm, calm);
    var i := Inputs(80 * 1024, 1000, 0, 100, false, false);
    st := StatusState(Recon(tr, 1000, Window(1, 7, 1000, 1_000_000)), Rows(tr, i, 1000));
    lost := Tick(Sample(1_010_000, 1010, 1_010_000, 10 * 1024, 1, 7, 1010, 100), StatusLost);
    next := Tick(Sample(1_020_000, 1020, 1_020_000, 10 * 1024, 1, 7, 1020, 101), BothAnswered);
    forall t
      ensures RowMatches(st, t)
    {
      EveryType(t);
      StatedByInputs(tr, i, t);
    }
    StaleServerInput(st, lost, next);
    StaleServerWitness(st, lost, next);
  }

  /** Where the trackers hold what the evaluators say, so does the row. */
  lemma StatedByInputs(tr: Trackers, i: Inputs, t: CondType)
    requires tr.vibes.status == EvalVibes(i).Status() && tr.caffeinated.status == EvalCaffeinated(i).Status()
    requires tr.existential.status == EvalExistential(i).Status() && tr.peckish.status == EvalPeckish(i).Status()
    requires tr.haunted.status == EvalHaunted(i).Status()
    ensures RowOf(tr, i, 1000, t).status == Get(tr, t).status && RowOf(tr, i, 1000, t).transition == Get(tr, t).since
  {
  }

  // ---- Transition times ------------------------------------------------------------------

  /** What a run shows to the tracker of one condition. */
  function HistoryOf(st: StatusState, ticks: seq<Tick>, t: CondType): (h: seq<Observation<CondStatus>>)
    ensures |h| == |ticks|
  {
    if ticks == [] then []
    else
      var before, last := ticks[..|ticks| - 1], ticks[|ticks| - 1];
      HistoryOf(st, before, t) + [Observation(Evaluated(Run(st, before).recon, last.sample, t), last.sample.now)]
  }

  /** In every run each of the nine trackers has seen its history and nothing else. */
  lemma {:induction false} RunObserves(st: StatusState, ticks: seq<Tick>, t: CondType)
    ensures Get(Run(st, ticks).recon.trackers, t) == ObservedAll(Get(st.recon.trackers, t), HistoryOf(st, ticks, t))
  {
    if ticks != [] {
      var before, last := ticks[..|ticks| - 1], ticks[|ticks| - 1];
      RunObserves(st, before, t);
      ObserveTickEach(Run(st, before).recon, last.sample, t);
      assert HistoryOf(st, ticks, t)[..|ticks| - 1] == HistoryOf(st, before, t);
      assert Get(Run(st, ticks).recon.trackers, t) == Get(ObserveTick(Run(st, before).recon, last.sample).trackers, t);
    }
  }

  /** In every run, each condition's transition time is when its longest constant
      suffix of statuses began. */
  lemma RunTransitionTimes(st: StatusState, ticks: seq<Tick>, t: CondType) returns (k: nat)
    ensures var c, h := Get(st.recon.trackers, t), HistoryOf(st, ticks, t);
            k <= |ticks| && SuffixStart(c, h, k)
            && Get(Run(st, ticks).recon.trackers, t) == Cond(StatusAt(c, h, |h|), TimeAt(c, h, k))
  {
    RunObserves(st, ticks, t);
    k := TransitionTimeMeaning(Get(st.recon.trackers, t), HistoryOf(st, ticks, t));
  }

  function LastTime(start: u64, ticks: seq<Tick>): u64 {
    if ticks == [] then start else ticks[|ticks| - 1].sample.now
  }

  /** The wall clock never runs backwards over these ticks. */
  predicate MonotoneClock(start: u64, ticks: seq<Tick>) {
    ticks == []
    || (MonotoneClock(start, ticks[..|ticks| - 1])
        && LastTime(start, ticks[..|ticks| - 1]) <= ticks[|ticks| - 1].sample.now)
  }

  lemma {:induction false} TransitionsInThePast(st: StatusState, start: u64, ticks: seq<Tick>, t: CondType)
    requires MonotoneClock(start, ticks) && Get(st.recon.trackers, t).since <= start
    ensures Get(Run(st, ticks).recon.trackers, t).since <= LastTime(start, ticks)
  {
    if ticks != [] {
      var before, last := ticks[..|ticks| - 1], ticks[|ticks| - 1];
      TransitionsInThePast(st, start, before, t);
      ObserveTickEach(Run(st, before).recon, last.sample, t);
      assert Get(Run(st, ticks).recon.trackers, t) == Get(ObserveTick(Run(st, before).recon, last.sample).trackers, t);
    }
  }

  /** With a monotone clock, no body has a transition after its heartbeat. */
  lemma BodiesAreOrdered(st: StatusState, start: u64, ticks: seq<Tick>, s: Sample, t: CondType)
    requires MonotoneClock(start, ticks) && Get(st.recon.trackers, t).since <= start
    requires LastTime(start, ticks) <= s.now
    ensures t in Body(Run(st, ticks).recon, s)
    ensures Body(Run(st, ticks).recon, s)[t].transition <= Body(Run(st, ticks).recon, s)[t].heartbeat
  {
    TransitionsInThePast(st, start, ticks, t);
    ObserveTickEach(Run(st, ticks).recon, s, t);
    BodyStatesTrackers(Run(st, ticks).recon, s, t);
  }

  // ---- Exactly when a server is stale -----------------------------------------------------

  /** The server does not get a body from this tick. */
  predicate Unsent(r: Recon, k: Tick) {
    !(Pushes(r, k.sample) && k.outcome != StatusLost)
  }

  /** A tick has flipped a condition since the last PATCH that the server acted on. */
  predicate FlippedUnsent(st: StatusState, ticks: seq<Tick>) {
    ticks != []
    && var before, last := Run(st, ticks[..|ticks| - 1]), ticks[|ticks| - 1];
       Unsent(before.recon, last)
       && (Flips(before.recon, last.sample) || FlippedUnsent(st, ticks[..|ticks| - 1]))
  }

  /** Every tick reads a later second than the one before. */
  predicate StrictClock(start: u64, ticks: seq<Tick>) {
    ticks == []
    || (StrictClock(start, ticks[..|ticks| - 1])
        && LastTime(start, ticks[..|ticks| - 1]) < ticks[|ticks| - 1].sample.now)
  }

  /** The server's transition time of a condition is the tracker's, or older. */
  predicate NotAhead(st: StatusState, now: u64, t: CondType) {
    t in st.server && st.server[t].transition <= Get(st.recon.trackers, t).since <= now
  }

  predicate Behind(st: StatusState, t: CondType) {
    t in st.server && st.server[t].transition < Get(st.recon.trackers, t).since
  }

  /** A tick whose body the server did not get leaves it behind exactly in what it flipped. */
  lemma UnsentTick(st: StatusState, k: Tick, now: u64, t: CondType)
    requires Unsent(st.recon, k)
    requires NotAhead(st, now, t) && now < k.sample.now
    ensures var after := StepTick(st, k);
            && NotAhead(after, k.sample.now, t)
            && (Differs(st.recon, k.sample, t) || Behind(st, t) ==> Behind(after, t))
            && (!Differs(st.recon, k.sample, t) && RowMatches(st, t) ==> RowMatches(after, t))
  {
    ObserveTickEach(st.recon, k.sample, t);
    assert StepTick(st, k).server == st.server;
    assert StepTick(st, k).recon.trackers == ObserveTick(st.recon, k.sample).trackers;
  }

  lemma SentTick(st: StatusState, k: Tick, now: u64, t: CondType)
    requires !Unsent(st.recon, k)
    requires NotAhead(st, now, t) && now < k.sample.now
    ensures NotAhead(StepTick(st, k), k.sample.now, t) && RowMatches(StepTick(st, k), t)
  {
    SentBodyIsCoherent(st, k);
    assert RowMatches(StepTick(st, k), t);
    ObserveTickEach(st.recon, k.sample, t);
    assert StepTick(st, k).recon.trackers == ObserveTick(st.recon, k.sample).trackers;
  }

  /** A server that is stale is behind in some condition, one that is not is coherent. */
  ghost predicate StaleOrCoherent(st: StatusState, now: u64, stale: bool) {
    && (forall t :: NotAhead(st, now, t))
    && (if stale then exists t :: Behind(st, t) else Coherent(st))
  }

  lemma StaleStep(st: StatusState, k: Tick, now: u64, stale: bool)
    requires now < k.sample.now && StaleOrCoherent(st, now, stale)
    ensures StaleOrCoherent(StepTick(st, k), k.sample.now, Unsent(st.recon, k) && (Flips(st.recon, k.sample) || stale))
  {
    var unsent := Unsent(st.recon, k);
    FlipsExactly(st.recon, k.sample);
    forall t
      ensures NotAhead(StepTick(st, k), k.sample.now, t)
      ensures unsent && (Differs(st.recon, k.sample, t) || Behind(st, t)) ==> Behind(StepTick(st, k), t)
      ensures !unsent || (!Differs(st.recon, k.sample, t) && RowMatches(st, t)) ==> RowMatches(StepTick(st, k), t)
    {
      assert NotAhead(st, now, t);
      if unsent {
        UnsentTick(st, k, now, t);
      } else {
        SentTick(st, k, now, t);
      }
    }
  }

  lemma {:induction false} RunIsStaleOrCoherent(st: StatusState, start: u64, ticks: seq<Tick>)
    requires StaleOrCoherent(st, start, false) && StrictClock(start, ticks)
    ensures StaleOrCoherent(Run(st, ticks), LastTime(start, ticks), FlippedUnsent(st, ticks))
  {
    if ticks != [] {
      var before, last := ticks[..|ticks| - 1], ticks[|ticks| - 1];
      RunIsStaleOrCoherent(st, start, before);
      StaleStep(Run(st, before), last, LastTime(start, before), FlippedUnsent(st, before));
    }
  }

  /** With a clock that moves on between ticks, the server is coherent after a run if and
      only if no tick has flipped a condition since the last PATCH that it acted on. */
  lemma CoherentExactlyWhenSent(st: StatusState, start: u64, ticks: seq<Tick>)
    requires Coherent(st) && StrictClock(start, ticks)
    requires forall t :: Get(st.recon.trackers, t).since <= start
    ensures Coherent(Run(st, ticks)) <==> !FlippedUnsent(st, ticks)
  {
    forall t
      ensures NotAhead(st, start, t)
    {
      assert RowMatches(st, t);
    }
    RunIsStaleOrCoherent(st, start, ticks);
    if FlippedUnsent(st, ticks) {
      var t :| Behind(Run(st, ticks), t);
      assert !RowMatches(Run(st, ticks), t);
    }
  }

  // ---- Windows ---------------------------------------------------------------------------

  /** The tick is a full push: it pushes and both PATCHes are answered. */
  predicate FullPush(st: StatusState, k: Tick) {
    Pushes(st.recon, k.sample) && k.outcome == BothAnswered
  }

  /** The index of the last full push of a run, -1 if there was none. */
  function LastFullPush(st: StatusState, ticks: seq<Tick>): (j: int)
    ensures -1 <= j < |ticks|
  {
    if ticks == [] then -1
    else
      var before := ticks[..|ticks| - 1];
      if FullPush(Run(st, before), ticks[|ticks| - 1]) then |ticks| - 1 else LastFullPush(st, before)
  }

  /** The snapshots taken at tick j, or at the reconciler's creation if j is -1. */
  function SnapshotAt(st: StatusState, ticks: seq<Tick>, j: int): Window
    requires -1 <= j < |ticks|
  {
    if j == -1 then st.recon.window
    else
      var s := ticks[j].sample;
      Window(s.assocTotal, s.bssid, s.now, s.nowMs)
  }

  lemma WindowStep(st: StatusState, k: Tick)
    ensures StepTick(st, k).recon.window == if FullPush(st, k) then WindowOf(k.sample) else st.recon.window
  {
  }

  /** Every window is measured from the last full push, whatever failed in between. */
  lemma {:induction false} WindowFromLastFullPush(st: StatusState, ticks: seq<Tick>)
    ensures Run(st, ticks).recon.window == SnapshotAt(st, ticks, LastFullPush(st, ticks))
  {
    if ticks != [] {
      var before := ticks[..|ticks| - 1];
      WindowStep(Run(st, before), ticks[|ticks| - 1]);
      WindowFromLastFullPush(st, before);
    }
  }

  /** A full push stays the last one or is followed by another. */
  lemma {:induction false} FullPushIsNotForgotten(st: StatusState, ticks: seq<Tick>, push: nat)
    requires push < |ticks| && FullPush(Before(st, ticks, push), ticks[push])
    ensures LastFullPush(st, ticks) >= push
  {
    var before := ticks[..|ticks| - 1];
    if push < |before| {
      assert before[..push] == ticks[..push];
      FullPushIsNotForgotten(st, before, push);
    }
  }

  /** When the last full push of a run was sampled, or the value at creation. */
  function LastUpdate(st: StatusState, ticks: seq<Tick>): u64 {
    var j := LastFullPush(st, ticks);
    if j == -1 then st.recon.lastStatusUpdate else ticks[j].sample.now
  }

  lemma {:induction false} UpdateIsLastFullPush(st: StatusState, ticks: seq<Tick>)
    ensures Run(st, ticks).recon.lastStatusUpdate == LastUpdate(st, ticks)
  {
    if ticks != [] {
      UpdateIsLastFullPush(st, ticks[..|ticks| - 1]);
    }
  }

  /** A tick that flips nothing pushes exactly if its clock is set and reads five minutes or
      more after the last full push, whatever failed in between. */
  lemma SkippedOnlyWhenRecent(st: StatusState, ticks: seq<Tick>, s: Sample)
    ensures Pushes(Run(st, ticks).recon, s) <==>
              || (exists t :: Differs(Run(st, ticks).recon, s, t))
              || (s.now != 0 && s.now >= LastUpdate(st, ticks) + 300)
  {
    UpdateIsLastFullPush(st, ticks);
    FlipsExactly(Run(st, ticks).recon, s);
  }

  // ---- Ghosts ----------------------------------------------------------------------------

  lemma HauntedWithoutSlip(r: Recon, s: Sample)
    requires !TimeSlipped(r.window, s)
    ensures Evaluated(r, s, Haunted) == if GhostBetween(r.window.bssid, s.bssid) then True else False
    ensures VerdictOf(r.trackers, InputsOf(r.window, s), Haunted)
         == if GhostBetween(r.window.bssid, s.bssid) then NewGhost else Calm
  {
  }

  /** Two BSSIDs, both known, that differ. */
  predicate GhostBetween(earlier: u64, now: u64) {
    earlier != 0 && now != 0 && earlier != now
  }

  /** Without time slips, Haunted is True after a run exactly when the BSSIDs sampled
      now and at the last full push (or at creation) are both known and differ. */
  lemma HauntedMeansNewBssid(st: StatusState, ticks: seq<Tick>, s: Sample)
    requires !TimeSlipped(Run(st, ticks).recon.window, s)
    ensures var origin := SnapshotAt(st, ticks, LastFullPush(st, ticks)).bssid;
            Evaluated(Run(st, ticks).recon, s, Haunted) == if GhostBetween(origin, s.bssid) then True else False
  {
    WindowFromLastFullPush(st, ticks);
    HauntedWithoutSlip(Run(st, ticks).recon, s);
  }

  /** Once the BSSID stays the same, Haunted is Calm from the tick after the next
      full push on. */
  lemma GhostsCalmDown(st: StatusState, ticks: seq<Tick>, push: nat, s: Sample)
    requires push < |ticks| && FullPush(Before(st, ticks, push), ticks[push])
    requires forall l :: push <= l < |ticks| ==> ticks[l].sample.bssid == s.bssid
    requires !TimeSlipped(Run(st, ticks).recon.window, s)
    ensures Evaluated(Run(st, ticks).recon, s, Haunted) == False
    ensures VerdictOf(Run(st, ticks).recon.trackers, InputsOf(Run(st, ticks).recon.window, s), Haunted) == Calm
  {
    FullPushIsNotForgotten(st, ticks, push);
    WindowFromLastFullPush(st, ticks);
    HauntedWithoutSlip(Run(st, ticks).recon, s);
  }

  // ---- Reconnects --------------------------------------------------------------------------

  /** The reconnects reported by the full pushes of a run. */
  function Consumed(st: StatusState, ticks: seq<Tick>): nat {
    if ticks == [] then 0
    else
      var before, last := ticks[..|ticks| - 1], ticks[|ticks| - 1];
      Consumed(st, before)
      + (if FullPush(Run(st, before), last) then Reconnects(Run(st, before).recon.window, last.sample) else 0)
  }

  predicate CounterGrows(st: StatusState, ticks: seq<Tick>) {
    && (forall i :: 0 <= i < |ticks| ==> st.recon.window.assocTotal <= ticks[i].sample.assocTotal)
    && (forall i, j :: 0 <= i < j < |ticks| ==> ticks[i].sample.assocTotal <= ticks[j].sample.assocTotal)
  }

  /** While the counter does not wrap, what full pushes reported is how far the window
      has moved, whatever failed in between. */
  lemma {:induction false} ConsumedIsWindowMove(st: StatusState, ticks: seq<Tick>)
    requires CounterGrows(st, ticks)
    ensures Consumed(st, ticks) == Run(st, ticks).recon.window.assocTotal - st.recon.window.assocTotal
  {
    if ticks != [] {
      var before, last := ticks[..|ticks| - 1], ticks[|ticks| - 1];
      ConsumedIsWindowMove(st, before);
      WindowFromLastFullPush(st, before);
      WindowStep(Run(st, before), last);
    }
  }

  // ---- Conditions that change once ---------------------------------------------------------

  /** How often a run flips a condition. */
  function FlipCount(st: StatusState, ticks: seq<Tick>, t: CondType): nat {
    if ticks == [] then 0
    else
      var before, last := ticks[..|ticks| - 1], ticks[|ticks| - 1];
      FlipCount(st, before, t) + (if Differs(Run(st, before).recon, last.sample, t) then 1 else 0)
  }

  predicate OneWay(t: CondType) {
    t == Caffeinated || t == Existential
  }

  /** The threshold that a one-way condition waits for. */
  predicate Passed(s: Sample, t: CondType)
    requires OneWay(t)
  {
    if t == Caffeinated then s.uptimeSecs >= 600 else s.renewals >= 100
  }

  function StageStatus(t: CondType, passed: bool): CondStatus
    requires OneWay(t)
  {
    if (t == Caffeinated) == passed then False else True
  }

  lemma PassedDecides(r: Recon, s: Sample, t: CondType)
    requires OneWay(t)
    ensures Evaluated(r, s, t) == StageStatus(t, Passed(s, t))
  {
  }

  /** Whether the threshold was passed by the last tick, or before the run. */
  predicate LastPassed(initially: bool, ticks: seq<Tick>, t: CondType)
    requires OneWay(t)
  {
    if ticks == [] then initially else Passed(ticks[|ticks| - 1].sample, t)
  }

  predicate NeverUnpassed(initially: bool, ticks: seq<Tick>, t: CondType)
    requires OneWay(t)
  {
    && (initially ==> forall i :: 0 <= i < |ticks| ==> Passed(ticks[i].sample, t))
    && (forall i, j :: 0 <= i < j < |ticks| && Passed(ticks[i].sample, t) ==> Passed(ticks[j].sample, t))
  }

  /** With counters that never fall back, such a condition flips once if the run passes
      its threshold, and never otherwise. */
  lemma {:induction false} OneWayFlips(st: StatusState, initially: bool, ticks: seq<Tick>, t: CondType)
    requires OneWay(t) && Get(st.recon.trackers, t).status == StageStatus(t, initially)
    requires NeverUnpassed(initially, ticks, t)
    ensures FlipCount(st, ticks, t) == if LastPassed(initially, ticks, t) && !initially then 1 else 0
    ensures Get(Run(st, ticks).recon.trackers, t).status == StageStatus(t, LastPassed(initially, ticks, t))
  {
    if ticks != [] {
      var before, last := ticks[..|ticks| - 1], ticks[|ticks| - 1];
      OneWayFlips(st, initially, before, t);
      PassedDecides(Run(st, before).recon, last.sample, t);
      TickTracks(Run(st, before), last, t);
    }
  }

  lemma TickTracks(st: StatusState, k: Tick, t: CondType)
    ensures Get(StepTick(st, k).recon.trackers, t).status == Evaluated(st.recon, k.sample, t)
  {
    ObservedStatus(st.recon, k.sample, t);
    assert StepTick(st, k).recon.trackers == ObserveTick(st.recon, k.sample).trackers;
  }
}
