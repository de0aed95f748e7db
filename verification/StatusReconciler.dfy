/** src/reconcilers/status.rs, the condition trackers it updates in place, the status
    requests of src/k8s/api.rs and the initial push of src/kubelet.rs. */
module StatusReconciler {
  import opened Wrappers
  import opened MachineInts
  import opened Config
  import opened Buffers
  import opened Conditions
  import opened StatusModel
  import opened Models
  import opened StatusPatch
  import opened KubeErrors
  import WallClock

  // ---- Trackers ---------------------------------------------------------------------

  class NodeCondTracker {
    const ready: CondState<bool>
    const memoryPressure: CondState<bool>
    const diskPressure: CondState<bool>
    const pidPressure: CondState<bool>

    ghost const Repr: set<object> := {ready, memoryPressure, diskPressure, pidPressure}

    ghost predicate Valid() {
      memoryPressure != ready && memoryPressure != diskPressure && memoryPressure != pidPressure
    }

    constructor (now: u64)
      ensures Valid() && fresh(Repr)
      ensures ready.Value() == Cond(true, now) && memoryPressure.Value() == Cond(false, now)
      ensures diskPressure.Value() == Cond(false, now) && pidPressure.Value() == Cond(false, now)
    {
      ready := new CondState(true, now);
      memoryPressure := new CondState(false, now);
      diskPressure := new CondState(false, now);
      pidPressure := new CondState(false, now);
    }
  }

  class CustomCondTracker {
    const vibes: CondState<CondStatus>
    const caffeinated: CondState<CondStatus>
    const existential: CondState<CondStatus>
    const peckish: CondState<CondStatus>
    const haunted: CondState<CondStatus>

    ghost const Repr: set<object> := {vibes, caffeinated, existential, peckish, haunted}

    ghost predicate Valid() {
      && vibes != caffeinated && vibes != existential && vibes != peckish && vibes != haunted
      && caffeinated != existential && caffeinated != peckish && caffeinated != haunted
      && existential != peckish && existential != haunted && peckish != haunted
    }

    constructor (now: u64)
      ensures Valid() && fresh(Repr)
      ensures vibes.Value() == Cond(Unknown, now) && caffeinated.Value() == Cond(Unknown, now)
      ensures existential.Value() == Cond(Unknown, now) && peckish.Value() == Cond(Unknown, now)
      ensures haunted.Value() == Cond(Unknown, now)
    {
      vibes := new CondState(Unknown, now);
      caffeinated := new CondState(Unknown, now);
      existential := new CondState(Unknown, now);
      peckish := new CondState(Unknown, now);
      haunted := new CondState(Unknown, now);
    }

    /** The five observe calls of a tick. */
    method ObserveAll(i: Inputs, now: u64) returns (flipped: bool)
      requires Valid()
      modifies Repr
      ensures vibes.Value() == Observed(old(vibes.Value()), EvalVibes(i).Status(), now)
      ensures caffeinated.Value() == Observed(old(caffeinated.Value()), EvalCaffeinated(i).Status(), now)
      ensures existential.Value() == Observed(old(existential.Value()), EvalExistential(i).Status(), now)
      ensures peckish.Value() == Observed(old(peckish.Value()), EvalPeckish(i).Status(), now)
      ensures haunted.Value() == Observed(old(haunted.Value()), EvalHaunted(i).Status(), now)
      ensures flipped <==>
        || EvalVibes(i).Status() != old(vibes.status) || EvalCaffeinated(i).Status() != old(caffeinated.status)
        || EvalExistential(i).Status() != old(existential.status) || EvalPeckish(i).Status() != old(peckish.status)
        || EvalHaunted(i).Status() != old(haunted.status)
    {
      var v := vibes.Observe(EvalVibes(i).Status(), now);
      var c := caffeinated.Observe(EvalCaffeinated(i).Status(), now);
      var e := existential.Observe(EvalExistential(i).Status(), now);
      var p := peckish.Observe(EvalPeckish(i).Status(), now);
      var h := haunted.Observe(EvalHaunted(i).Status(), now);
      flipped := v || c || e || p || h;
    }
  }

  function TrackersOf(node: NodeCondTracker, custom: CustomCondTracker): Trackers
    reads node.ready, node.memoryPressure, node.diskPressure, node.pidPressure
    reads custom.vibes, custom.caffeinated, custom.existential, custom.peckish, custom.haunted
  {
    Trackers(node.ready.Value(), node.memoryPressure.Value(), node.diskPressure.Value(), node.pidPressure.Value(),
             custom.vibes.Value(), custom.caffeinated.Value(), custom.existential.Value(), custom.peckish.Value(),
             custom.haunted.Value())
  }

  // ---- Requests -----------------------------------------------------------------------

  /** What becomes of a request: no answer, whether or not the server acted on it, or
      an HTTP status; the server acts exactly when it answers 200. */
  datatype Fate = NoAnswer(applied: bool) | Answer(status: u16) {
    predicate Applied() {
      this == Answer(200) || this == NoAnswer(true)
    }
  }

  /** The stored conditions, and the octets of the last body that the server acted on. */
  class ApiServer {
    var conditions: Conds
    var received: string

    constructor ()
      ensures conditions == map[] && received == ""
    {
      conditions, received := map[], "";
    }
  }

  /** Up to the year 9999 the server stores what reading the octets it received says. */
  ghost predicate StoresWhatItReads(tr: Trackers, heartbeat: u64, before: Conds, server: ApiServer)
    reads server
  {
    FourDigitTimes(tr, heartbeat) ==> MergeText(before, server.received) == Some(server.conditions)
  }

  lemma FirmwareStamp() returns (stamp: Stamp)
    ensures PrintsRfc3339(stamp)
  {
    stamp := (u: u64) => WallClock.Rfc3339(u);
  }

  class KubeApi {
    const server: ApiServer
    ghost const stamp: Stamp

    /** Bodies are printed with fmt_rfc3339. */
    ghost predicate Valid() {
      PrintsRfc3339(stamp)
    }

    constructor (server: ApiServer)
      ensures Valid() && this.server == server
    {
      this.server := server;
      ghost var printer := FirmwareStamp();
      this.stamp := printer;
    }

    ghost function StatusBody(tr: Trackers, custom: seq<Stated>, heartbeat: u64): string {
      BodyText(PatchRows(tr, Entries(custom), heartbeat, stamp))
    }

    /** Fails without a request when the body does not fit its buffer; otherwise the body
        is sent, and the call succeeds exactly on a 200. */
    method PatchNodeStatus(tr: Trackers, custom: seq<Stated>, heartbeat: u64, fate: Fate)
      returns (r: Result<(), ReconcileError>)
      requires Valid()
      modifies server
      ensures var body := StatusBody(tr, custom, heartbeat);
              var acted := |body| <= 3072 && fate.Applied();
              && (r.Ok? <==> |body| <= 3072 && fate == Answer(200))
              && server.received == (if acted then body else old(server.received))
              && server.conditions == if acted then MergeStated(old(server.conditions), BuiltinStated(tr) + custom, heartbeat)
                                      else old(server.conditions)
    {
      var body := new HString(3072);
      var built := WriteStatusJson(tr, Entries(custom), heartbeat, body, stamp);
      if !built {
        return Err(BuildJson);
      }
      if fate.Applied() {
        server.received := body.text;
        server.conditions := MergeStated(server.conditions, BuiltinStated(tr) + custom, heartbeat);
      }
      match fate
      case NoAnswer(_) => r := Err(Api);
      case Answer(status) => r := if status == 200 then Ok(()) else Err(UnexpectedStatus(status));
    }

    /** The annotation is not part of the model; only the answer matters. */
    method PatchHeapAnnotation(fate: Fate) returns (r: Result<(), ReconcileError>)
      ensures r.Ok? <==> fate == Answer(200)
    {
      match fate
      case NoAnswer(_) => r := Err(Api);
      case Answer(status) => r := if status == 200 then Ok(()) else Err(UnexpectedStatus(status));
    }

    /** The status PATCH of a tick. Its body always fits, and up to the year 9999 a server
        that reads the octets it was sent and merges what they say stores the tick's nine
        rows. */
    method SendStatus(tr: Trackers, i: Inputs, heartbeat: u64, fate: Fate) returns (r: Result<(), ReconcileError>)
      requires Valid()
      modifies server
      ensures r.Ok? <==> fate == Answer(200)
      ensures server.conditions == (if fate.Applied() then Merge(old(server.conditions), Rows(tr, i, heartbeat))
                                    else old(server.conditions))
      ensures fate.Applied() ==> StoresWhatItReads(tr, heartbeat, old(server.conditions), server)
    {
      TickBodyFits(tr, i, heartbeat, stamp);
      MergeStatedIsMerge(server.conditions, tr, i, heartbeat);
      if FourDigitTimes(tr, heartbeat) {
        TextMerges(server.conditions, tr, i, heartbeat, stamp);
      }
      r := PatchNodeStatus(tr, CustomStated(tr, i), heartbeat, fate);
    }
  }

  function OutcomeOf(statusFate: Fate, annotationFate: Fate): Outcome {
    if statusFate == Answer(200) then
      if annotationFate == Answer(200) then BothAnswered else AnnotationFailed
    else if statusFate.Applied() then StatusAppliedUnanswered
    else StatusLost
  }

  /** A tick by whether it pushes and by what becomes of its requests. */
  lemma TickByCases(st: StatusState, s: Sample, outcome: Outcome)
    ensures var seen := ObserveTick(st.recon, s);
            StepTick(st, Tick(s, outcome)) ==
              if !Pushes(st.recon, s) then StatusState(seen, st.server)
              else StatusState(if outcome == BothAnswered then Settle(seen, s) else seen,
                               if outcome == StatusLost then st.server
                               else Merge(st.server, Rows(seen.trackers, InputsOf(st.recon.window, s), s.now)))
  {
  }

  // ---- The reconciler -----------------------------------------------------------------

  class StatusReconciler {
    const tracker: NodeCondTracker
    const custom: CustomCondTracker
    var lastStatusUpdate: u64
    var prevAssocTotal: u32
    var prevBssid: u64
    var prevUnix: u64
    var prevMonoMs: u64

    ghost predicate Valid() {
      tracker.Valid() && custom.Valid()
    }

    function Trackers(): Trackers
      reads tracker.ready, tracker.memoryPressure, tracker.diskPressure, tracker.pidPressure
      reads custom.vibes, custom.caffeinated, custom.existential, custom.peckish, custom.haunted
    {
      TrackersOf(tracker, custom)
    }

    function Snapshots(): Window
      reads this
    {
      Window(prevAssocTotal, prevBssid, prevUnix, prevMonoMs)
    }

    function State(): Recon
      reads this, tracker.ready, tracker.memoryPressure, tracker.diskPressure, tracker.pidPressure
      reads custom.vibes, custom.caffeinated, custom.existential, custom.peckish, custom.haunted
    {
      Recon(Trackers(), lastStatusUpdate, Snapshots())
    }

    /** Three clock reads and two atomics at creation. */
    constructor (tracker: NodeCondTracker, custom: CustomCondTracker,
                 now: u64, assocTotal: u32, bssid: u64, nowAgain: u64, nowMs: u64)
      requires tracker.Valid() && custom.Valid()
      ensures Valid() && this.tracker == tracker && this.custom == custom
      ensures lastStatusUpdate == now && Snapshots() == Window(assocTotal, bssid, nowAgain, nowMs)
    {
      this.tracker := tracker;
      this.custom := custom;
      lastStatusUpdate := now;
      prevAssocTotal := assocTotal;
      prevBssid := bssid;
      prevUnix := nowAgain;
      prevMonoMs := nowMs;
    }

    /** reconcile: the sample is what the clocks, the heap and the atomics return, the
        fates are what becomes of the two PATCHes. */
    method Reconcile(s: Sample, api: KubeApi, statusFate: Fate, annotationFate: Fate)
      returns (r: Result<(), ReconcileError>)
      requires Valid() && api.Valid()
      modifies this, tracker.memoryPressure, custom.Repr, api.server
      ensures Valid()
      ensures StatusState(State(), api.server.conditions)
           == StepTick(old(StatusState(State(), api.server.conditions)), Tick(s, OutcomeOf(statusFate, annotationFate)))
      ensures tracker.memoryPressure.status == (s.free < 20 * 1024)
      ensures r.Ok? <==> !Pushes(old(State()), s) || (statusFate == Answer(200) && annotationFate == Answer(200))
      ensures Pushes(old(State()), s) && statusFate.Applied() ==>
                StoresWhatItReads(Trackers(), s.now, old(api.server.conditions), api.server)
    {
      ghost var before := StatusState(State(), api.server.conditions);
      TickByCases(before, s, OutcomeOf(statusFate, annotationFate));
      var flipped, inputs := ObserveSample(s);
      var due := s.now != 0 && SaturatingSub(s.now, lastStatusUpdate) >= STATUS_UPDATE_PERIOD_SECS;
      if !(flipped || due) {
        return Ok(());
      }
      r := Push(s, inputs, api, statusFate, annotationFate);
    }

    /** All reads of a tick and the six observe calls. */
    method ObserveSample(s: Sample) returns (flipped: bool, inputs: Inputs)
      requires Valid()
      modifies tracker.memoryPressure, custom.Repr
      ensures inputs == InputsOf(Snapshots(), s)
      ensures State() == ObserveTick(old(State()), s)
      ensures flipped <==> Flips(old(State()), s)
    {
      ghost var before := State();
      var mpFlipped := tracker.memoryPressure.Observe(s.free < MEMORY_PRESSURE_FREE_BYTES, s.now);
      inputs := ReadInputs(s);
      var customFlipped := custom.ObserveAll(inputs, s.now);
      flipped := mpFlipped || customFlipped;
      FlipsByField(before, s);
    }

    /** Both PATCHes, and the new snapshots if both are answered with 200. */
    method Push(s: Sample, inputs: Inputs, api: KubeApi, statusFate: Fate, annotationFate: Fate)
      returns (r: Result<(), ReconcileError>)
      requires api.Valid()
      modifies this, api.server
      ensures Trackers() == old(Trackers())
      ensures var outcome := OutcomeOf(statusFate, annotationFate);
              && (r.Ok? <==> outcome == BothAnswered)
              && State() == (if outcome == BothAnswered then Settle(old(State()), s) else old(State()))
              && api.server.conditions == (if outcome == StatusLost then old(api.server.conditions)
                                           else Merge(old(api.server.conditions), Rows(Trackers(), inputs, s.now)))
      ensures statusFate.Applied() ==> StoresWhatItReads(Trackers(), s.now, old(api.server.conditions), api.server)
    {
      var patched := api.SendStatus(Trackers(), inputs, s.now, statusFate);
      if patched.Err? {
        return Err(patched.error);
      }
      var annotated := api.PatchHeapAnnotation(annotationFate);
      if annotated.Err? {
        return Err(annotated.error);
      }
      lastStatusUpdate := s.now;
      prevAssocTotal := s.assocTotal;
      prevBssid := s.bssid;
      prevUnix := s.now;
      prevMonoMs := s.nowMs;
      r := Ok(());
    }

    /** The deltas against the snapshots. */
    method ReadInputs(s: Sample) returns (i: Inputs)
      ensures i == InputsOf(Snapshots(), s)
    {
      var reconnects := SaturatingSub(s.assocTotal, prevAssocTotal);
      var bssidChanged := prevBssid != 0 && s.bssid != 0 && s.bssid != prevBssid;
      var wallDelta: int := WrapI64(WrapI64(s.now) - WrapI64(prevUnix));
      var monoDelta: int := WrapI64(SaturatingSub(s.nowMs, prevMonoMs) / 1000);
      var timeSlipped := WrapI64(Abs(WrapI64(wallDelta - monoDelta))) > HAUNTED_SLIP_SECS;
      i := Inputs(s.free, s.uptimeSecs, reconnects, s.renewals, bssidChanged, timeSlipped);
    }
  }

  // ---- Bootstrap ----------------------------------------------------------------------

  /** The inputs of the initial push: no window, no renewals. */
  function BootInputs(free: nat, uptimeSecs: u64): Inputs {
    Inputs(free, uptimeSecs, 0, 0, false, false)
  }

  /** The trackers that bootstrap hands to the reconciler: created at one time,
      observed once at a later one. */
  function BootTrackers(created: u64, now: u64, free: nat, uptimeSecs: u64): Trackers {
    var i := BootInputs(free, uptimeSecs);
    Trackers(Cond(true, created), Observed(Cond(false, created), free < MEMORY_PRESSURE_FREE_BYTES, now),
             Cond(false, created), Cond(false, created),
             Observed(Cond(Unknown, created), EvalVibes(i).Status(), now),
             Observed(Cond(Unknown, created), EvalCaffeinated(i).Status(), now),
             Observed(Cond(Unknown, created), EvalExistential(i).Status(), now),
             Observed(Cond(Unknown, created), EvalPeckish(i).Status(), now),
             Observed(Cond(Unknown, created), EvalHaunted(i).Status(), now))
  }

  function BootBody(created: u64, now: u64, free: nat, uptimeSecs: u64): Conds {
    Rows(BootTrackers(created, now, free, uptimeSecs), BootInputs(free, uptimeSecs), now)
  }

  /** bootstrap from the creation of the trackers on. */
  method Bootstrap(created: u64, now: u64, free: nat, uptimeSecs: u64, api: KubeApi, fate: Fate)
    returns (tracker: NodeCondTracker, custom: CustomCondTracker)
    requires api.Valid()
    modifies api.server
    ensures tracker.Valid() && custom.Valid() && fresh(tracker.Repr) && fresh(custom.Repr)
    ensures TrackersOf(tracker, custom) == BootTrackers(created, now, free, uptimeSecs)
    ensures api.server.conditions
         == if fate.Applied() then Merge(old(api.server.conditions), BootBody(created, now, free, uptimeSecs))
            else old(api.server.conditions)
  {
    tracker := new NodeCondTracker(created);
    custom := new CustomCondTracker(created);
    var mp := tracker.memoryPressure.Observe(free < MEMORY_PRESSURE_FREE_BYTES, now);
    var inputs := BootInputs(free, uptimeSecs);
    var flipped := custom.ObserveAll(inputs, now);
    var tr := TrackersOf(tracker, custom);
    assert tr == BootTrackers(created, now, free, uptimeSecs);
    var patched := api.SendStatus(tr, inputs, now, fate);
  }

  /** The trackers after the initial push, in the units of what it read: memory pressure is
      True since the push below 20 KiB, and has its creation time otherwise. */
  lemma BootStates(created: u64, now: u64, free: nat, uptimeSecs: u64, t: CondType)
    ensures Get(BootTrackers(created, now, free, uptimeSecs), t) ==
      match t
      case Ready => Cond(True, created)
      case MemoryPressure => if free < 20 * 1024 then Cond(True, now) else Cond(False, created)
      case DiskPressure | PIDPressure => Cond(False, created)
      case Vibes =>
        if free < 30 * 1024 then Cond(False, now)
        else if free < 51 * 1024 then Cond(Unknown, created)
        else Cond(True, now)
      case Caffeinated => Cond(if uptimeSecs < 600 then True else False, now)
      case Existential | Haunted => Cond(False, now)
      case Peckish => Cond(if free < 61 * 1024 then True else False, now)
  {
    EvaluatorThresholds(BootInputs(free, uptimeSecs));
  }

  /** And the rows of the initial push. */
  lemma BootRows(created: u64, now: u64, free: nat, uptimeSecs: u64, t: CondType)
    ensures t in BootBody(created, now, free, uptimeSecs)
    ensures var row, c := BootBody(created, now, free, uptimeSecs)[t], Get(BootTrackers(created, now, free, uptimeSecs), t);
            && row.status == c.status && row.transition == c.since && row.heartbeat == now
            && row.verdict ==
                 match t
                 case Ready => KubeletReady
                 case MemoryPressure => if free < 20 * 1024 then InsufficientMemory else SufficientMemory
                 case DiskPressure => NoDiskPressure
                 case PIDPressure => SufficientPid
                 case Vibes =>
                   if free < 30 * 1024 then Off
                   else if free < 51 * 1024 then Dissociating
                   else if free >= 71 * 1024 && uptimeSecs < 600 then Immaculate
                   else Cromulent
                 case Caffeinated => if uptimeSecs < 600 then FreshlyBrewed else Decaf
                 case Existential => Innocent
                 case Peckish => if free < 41 * 1024 then Hungry else if free < 61 * 1024 then CouldGoForASnack else Sated
                 case Haunted => Calm
  {
    EveryType(t);
    ReasonThresholds(BootInputs(free, uptimeSecs));
    BootStates(created, now, free, uptimeSecs, MemoryPressure);
  }

  predicate IsCustom(t: CondType) {
    t == Vibes || t == Caffeinated || t == Existential || t == Peckish || t == Haunted
  }

  /** A comment at CustomCondState::new says that the first evaluation always counts as a
      transition. It does, except for Vibes on a heap that is neither bad nor good: there
      the evaluator itself says Unknown. */
  lemma FirstEvaluationFlips(created: u64, now: u64, free: nat, uptimeSecs: u64, t: CondType)
    requires IsCustom(t)
    ensures var c := Get(BootTrackers(created, now, free, uptimeSecs), t);
            var indeterminate := t == Vibes && 30 * 1024 <= free < 51 * 1024;
            && (c.status != Unknown <==> !indeterminate)
            && c.since == if indeterminate then created else now
  {
    BootStates(created, now, free, uptimeSecs, t);
  }

  /** So a node that boots with 40 KiB free keeps the creation time for Vibes. */
  lemma FirstEvaluationCanBeSilent(created: u64, now: u64, uptimeSecs: u64)
    ensures Get(BootTrackers(created, now, 40 * 1024, uptimeSecs), Vibes) == Cond(Unknown, created)
  {
    FirstEvaluationFlips(created, now, 40 * 1024, uptimeSecs, Vibes);
  }

  /** A bootstrap whose status PATCH was answered leaves the server coherent, whatever
      it stored before: the start of every run of the reconciler. */
  lemma BootstrapIsCoherent(stored: Conds, created: u64, now: u64, free: nat, uptimeSecs: u64, last: u64, w: Window)
    ensures Coherent(StatusState(Recon(BootTrackers(created, now, free, uptimeSecs), last, w),
                                 Merge(stored, BootBody(created, now, free, uptimeSecs))))
  {
    var st := StatusState(Recon(BootTrackers(created, now, free, uptimeSecs), last, w),
                          Merge(stored, BootBody(created, now, free, uptimeSecs)));
    forall t
      ensures RowMatches(st, t)
    {
      EveryType(t);
      assert st.server[t] == RowOf(st.recon.trackers, BootInputs(free, uptimeSecs), now, t);
    }
  }
}
