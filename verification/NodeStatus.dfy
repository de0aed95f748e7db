/** What every interleaving keeps of the status task and of the counters it shares. */
module NodeStatus {
  import opened Wrappers
  import opened MachineInts
  import opened Conditions
  import opened StatusModel
  import StatusReconciler
  import opened WallClock
  import opened TimeSlip
  import opened Node

  // ---- One request at a time ------------------------------------------------------------

  predicate HoldsClient(n: Node, t: Task) {
    RequestOf(n, t).Some? && RequestOf(n, t) != Some(Queued)
  }

  ghost predicate Exclusive(n: Node) {
    forall t :: n.client == Some(t) <==> HoldsClient(n, t)
  }

  lemma StepExclusive(n: Node, e: Event)
    requires Enabled(n, e) && Exclusive(n)
    ensures Exclusive(Step(n, e))
  {
    var m := Step(n, e);
    assert HoldsClient(n, LeaseTask) <==> n.client == Some(LeaseTask);
    assert HoldsClient(n, StatusTask) <==> n.client == Some(StatusTask);
    forall t
      ensures m.client == Some(t) <==> HoldsClient(m, t)
    {
      match t
      case LeaseTask =>
      case StatusTask =>
    }
  }

  /** The two tasks never have requests on their way at the same time. */
  lemma {:induction false} OneRequestAtATime(n: Node, events: seq<Event>)
    requires Start(n) && Legal(n, events)
    ensures Exclusive(After(n, events))
    ensures !(HoldsClient(After(n, events), LeaseTask) && HoldsClient(After(n, events), StatusTask))
  {
    if events != [] {
      var before := events[..|events| - 1];
      OneRequestAtATime(n, before);
      StepExclusive(After(n, before), events[|events| - 1]);
    }
    assert Exclusive(After(n, events));
  }

  // ---- The status task runs the model of single ticks -------------------------------------

  /** Between ticks the status task and the server are where the model's run of the logged ticks
      is; within one they are where that run would be if the request failed now. */
  predicate Refines(start: StatusState, n: Node) {
    var st := Run(start, n.hist.log);
    if n.phase.Idle? then n.status == st
    else Pushes(st.recon, n.phase.sample) && n.status == StepTick(st, Tick(n.phase.sample, FailOutcome(n.phase)))
  }

  lemma RunAppend(st: StatusState, ticks: seq<Tick>, k: Tick)
    ensures Run(st, ticks + [k]) == StepTick(Run(st, ticks), k)
  {
    assert (ticks + [k])[..|ticks|] == ticks;
  }

  /** A tick that pushes, by outcome. */
  lemma PushedTick(st: StatusState, s: Sample)
    requires Pushes(st.recon, s)
    ensures var seen := ObserveTick(st.recon, s);
            var sent := Merge(st.server, Rows(seen.trackers, InputsOf(seen.window, s), s.now));
            && StepTick(st, Tick(s, StatusLost)) == StatusState(seen, st.server)
            && StepTick(st, Tick(s, StatusAppliedUnanswered)) == StatusState(seen, sent)
            && StepTick(st, Tick(s, AnnotationFailed)) == StatusState(seen, sent)
            && StepTick(st, Tick(s, BothAnswered)) == StatusState(Settle(seen, s), sent)
  {
  }

  /** Between its first await and its end, a tick has recorded its observations, and the
      server has its body exactly if it acted on the request. */
  predicate MidTick(st: StatusState, n: Node)
    requires !n.phase.Idle?
  {
    n.status == StepTick(st, Tick(n.phase.sample, FailOutcome(n.phase)))
  }

  lemma StatusServes(st: StatusState, n: Node)
    requires Enabled(n, Serve(StatusTask)) && Pushes(st.recon, n.phase.sample) && MidTick(st, n)
    ensures var m := Step(n, Serve(StatusTask)); !m.phase.Idle? && m.phase.sample == n.phase.sample && MidTick(st, m)
    ensures Step(n, Serve(StatusTask)).hist == n.hist
  {
    PushedTick(st, n.phase.sample);
  }

  lemma StatusAnswers(st: StatusState, n: Node)
    requires Enabled(n, Answer(StatusTask)) && Pushes(st.recon, n.phase.sample) && MidTick(st, n)
    ensures var m := Step(n, Answer(StatusTask));
            if m.phase.Idle? then
              exists o ::
                m.hist.log == n.hist.log + [Tick(n.phase.sample, o)] && m.status == StepTick(st, Tick(n.phase.sample, o))
            else m.phase.sample == n.phase.sample && MidTick(st, m) && m.hist == n.hist
  {
    var s := n.phase.sample;
    PushedTick(st, s);
    var m := Step(n, Answer(StatusTask));
    if m.phase.Idle? {
      var o := if n.phase.SendingStatus? then StatusLost
               else if n.phase.request.status == 200 then BothAnswered else AnnotationFailed;
      assert m.hist.log == n.hist.log + [Tick(s, o)] && m.status == StepTick(st, Tick(s, o));
    }
  }

  lemma StatusFails(st: StatusState, n: Node)
    requires Enabled(n, Fail(StatusTask)) && MidTick(st, n)
    ensures var m := Step(n, Fail(StatusTask));
            && m.phase.Idle? && m.hist.log == n.hist.log + [Tick(n.phase.sample, FailOutcome(n.phase))]
            && m.status == StepTick(st, Tick(n.phase.sample, FailOutcome(n.phase)))
  {
  }

  lemma StatusBegins(st: StatusState, n: Node, e: Event)
    requires e.StatusWake? && Enabled(n, e) && n.status == st
    ensures var s, m := Sampled(n, e.wallMs, e.nowMs, e.endMs, e.free), Step(n, e);
            if m.phase.Idle? then
              m.hist.log == n.hist.log + [Tick(s, BothAnswered)] && m.status == StepTick(st, Tick(s, BothAnswered))
            else m.phase.sample == s && Pushes(st.recon, s) && MidTick(st, m) && m.hist.log == n.hist.log
  {
    var s := Sampled(n, e.wallMs, e.nowMs, e.endMs, e.free);
    if Pushes(st.recon, s) {
      PushedTick(st, s);
    }
  }

  /** No event of the other tasks touches the status task, its log or its server. */
  predicate SameStatusSide(n: Node, m: Node) {
    m.status == n.status && m.hist.log == n.hist.log
    && (m.phase == n.phase || (!n.phase.Idle? && !m.phase.Idle? && m.phase.sample == n.phase.sample
                               && FailOutcome(m.phase) == FailOutcome(n.phase)))
  }

  predicate MovesStatus(e: Event) {
    e.StatusWake? || e in {Serve(StatusTask), Fail(StatusTask), Answer(StatusTask)}
  }

  lemma OtherEvents(n: Node, e: Event)
    requires Enabled(n, e) && !MovesStatus(e)
    ensures SameStatusSide(n, Step(n, e))
  {
  }

  lemma StepRefines(start: StatusState, n: Node, e: Event)
    requires Enabled(n, e) && Refines(start, n)
    ensures Refines(start, Step(n, e))
  {
    var st := Run(start, n.hist.log);
    match e {
      case StatusWake(_, _, _, _) =>
        StatusBegins(st, n, e);
        RunAppend(start, n.hist.log, Tick(Sampled(n, e.wallMs, e.nowMs, e.endMs, e.free), BothAnswered));
      case Serve(t) =>
        if t == StatusTask {
          StatusServes(st, n);
        } else {
          OtherEvents(n, e);
        }
      case Fail(t) =>
        if t == StatusTask {
          StatusFails(st, n);
          RunAppend(start, n.hist.log, Tick(n.phase.sample, FailOutcome(n.phase)));
        } else {
          OtherEvents(n, e);
        }
      case Answer(t) =>
        if t == StatusTask {
          StatusAnswers(st, n);
          if Step(n, e).phase.Idle? {
            var o :| Step(n, e).hist.log == n.hist.log + [Tick(n.phase.sample, o)]
                     && Step(n, e).status == StepTick(st, Tick(n.phase.sample, o));
            RunAppend(start, n.hist.log, Tick(n.phase.sample, o));
          }
        } else {
          OtherEvents(n, e);
        }
      case _ => OtherEvents(n, e);
    }
  }

  /** In every interleaving the status task does what the model of whole ticks says, so
      that every theorem about runs of ticks holds of the node. */
  lemma {:induction false} StatusTaskRefinesTicks(n: Node, events: seq<Event>)
    requires Start(n) && Legal(n, events)
    ensures Refines(n.status, After(n, events))
  {
    if events != [] {
      var before := events[..|events| - 1];
      StatusTaskRefinesTicks(n, before);
      StepRefines(n.status, After(n, before), events[|events| - 1]);
    }
  }

  /** The latest status PATCH was answered with 200, whether its tick is over or not. */
  predicate LastPatchAnswered(n: Node, bootAnswered: bool, m: Node) {
    match m.phase
    case Idle(_) => LatestPatchAnswered(n.status, bootAnswered, m.hist.log)
    case SendingStatus(_, request) => request == Replied(200)
    case SendingAnnotation(_, _) => true
  }

  /** Then, at any moment of any interleaving, the server's nine conditions are the
      trackers'. */
  lemma NodeIsCoherent(n: Node, events: seq<Event>, bootAnswered: bool)
    requires Start(n) && Legal(n, events) && (bootAnswered ==> Coherent(n.status))
    requires LastPatchAnswered(n, bootAnswered, After(n, events))
    ensures Coherent(After(n, events).status)
  {
    StatusTaskRefinesTicks(n, events);
    var m := After(n, events);
    if m.phase.Idle? {
      CoherentWhenAnswered(n.status, bootAnswered, m.hist.log);
    } else {
      SentBodyIsCoherent(Run(n.status, m.hist.log), Tick(m.phase.sample, FailOutcome(m.phase)));
    }
  }

  // ---- Samples follow each other ------------------------------------------------------------

  function SamplesOf(log: seq<Tick>): (samples: seq<Sample>)
    ensures |samples| == |log| && forall i :: 0 <= i < |log| ==> samples[i] == log[i].sample
  {
    seq(|log|, i requires 0 <= i < |log| => log[i].sample)
  }

  /** The samples of all ticks so far, the current one included. */
  function Samples(n: Node): seq<Sample> {
    SamplesOf(n.hist.log) + (if n.phase.Idle? then [] else [n.phase.sample])
  }

  /** Ticks are at least one period apart. */
  predicate ClockFollows(earlier: Sample, later: Sample) {
    earlier.nowMs + 10_000 <= later.wallMs && earlier.uptimeSecs <= later.uptimeSecs
  }

  /** A sample's clock reads happened a period or more after the run began, and by now. */
  predicate ReadSince(start: Node, s: Sample, n: Node) {
    && s.now == UnixNow(start.anchor, s.wallMs) && start.ms + 10_000 <= s.wallMs <= s.nowMs <= n.ms
    && start.ms / 1000 <= s.uptimeSecs <= n.ms / 1000
  }

  ghost predicate ClocksInOrder(start: Node, n: Node) {
    && n.anchor == start.anchor && start.ms <= n.ms
    && (forall i :: 0 <= i < |Samples(n)| ==> ReadSince(start, Samples(n)[i], n))
    && (forall i, j :: 0 <= i < j < |Samples(n)| ==> ClockFollows(Samples(n)[i], Samples(n)[j]))
    && (n.phase.Idle? ==>
          && start.ms + PERIOD_MS <= n.phase.until
          && forall i :: 0 <= i < |Samples(n)| ==> Samples(n)[i].nowMs + PERIOD_MS <= n.phase.until)
  }

  /** Neither counter has wrapped; they have no bearing on each other. */
  predicate AssociationsFit(start: Node, n: Node) {
    start.wifi.assocTotal + n.hist.associations < 0x1_0000_0000
  }

  predicate RenewalsFit(n: Node) {
    n.hist.renewed < 0x1_0000_0000
  }

  ghost predicate AssociationsInOrder(start: Node, n: Node) {
    && n.wifi.assocTotal == start.wifi.assocTotal + n.hist.associations
    && (forall i :: 0 <= i < |Samples(n)| ==> start.wifi.assocTotal <= Samples(n)[i].assocTotal <= n.wifi.assocTotal)
    && (forall i, j :: 0 <= i < j < |Samples(n)| ==> Samples(n)[i].assocTotal <= Samples(n)[j].assocTotal)
  }

  ghost predicate RenewalsInOrder(n: Node) {
    && n.cells.sharedCount == n.cells.renewals == n.hist.renewed
    && (forall i :: 0 <= i < |Samples(n)| ==> Samples(n)[i].renewals <= n.cells.sharedCount)
    && (forall i, j :: 0 <= i < j < |Samples(n)| ==> Samples(n)[i].renewals <= Samples(n)[j].renewals)
  }

  lemma StepSamples(n: Node, e: Event)
    requires Enabled(n, e)
    ensures Samples(Step(n, e)) ==
      if e.StatusWake? then Samples(n) + [Sampled(n, e.wallMs, e.nowMs, e.endMs, e.free)] else Samples(n)
  {
    var m := Step(n, e);
    if m.hist.log != n.hist.log {
      assert m.hist.log == n.hist.log + [m.hist.log[|n.hist.log|]];
    }
  }

  lemma StepClocks(start: Node, n: Node, e: Event)
    requires Enabled(n, e) && ClocksInOrder(start, n)
    ensures ClocksInOrder(start, Step(n, e))
  {
    var m := Step(n, e);
    assert m.anchor == n.anchor && n.ms <= m.ms;
    StepSamples(n, e);
    if m.phase.Idle? {
      NewDeadline(n, e);
    }
    forall i | 0 <= i < |Samples(n)|
      ensures ReadSince(start, Samples(n)[i], m)
      ensures e.StatusWake? ==> ClockFollows(Samples(n)[i], Sampled(n, e.wallMs, e.nowMs, e.endMs, e.free))
    {
      assert ReadSince(start, Samples(n)[i], n);
    }
  }

  /** A tick that ends sleeps for a period from then on. */
  lemma NewDeadline(n: Node, e: Event)
    requires Enabled(n, e) && Step(n, e).phase.Idle?
    ensures Step(n, e).phase == n.phase || Step(n, e).phase.until == Step(n, e).ms + PERIOD_MS
    ensures e.StatusWake? ==> Step(n, e).phase.until == e.endMs + PERIOD_MS
  {
  }

  lemma StepAssociations(start: Node, n: Node, e: Event)
    requires Enabled(n, e) && AssociationsFit(start, Step(n, e))
    ensures AssociationsFit(start, n)
    ensures AssociationsInOrder(start, n) ==> AssociationsInOrder(start, Step(n, e))
  {
    StepSamples(n, e);
  }

  lemma StepRenewals(n: Node, e: Event)
    requires Enabled(n, e) && RenewalsFit(Step(n, e))
    ensures RenewalsFit(n)
    ensures RenewalsInOrder(n) ==> RenewalsInOrder(Step(n, e))
  {
    StepSamples(n, e);
  }

  /** In every interleaving the clock reads of ticks follow each other; so do the reads of
      either counter while it does not wrap. */
  lemma {:induction false} RunInOrder(n: Node, events: seq<Event>)
    requires Start(n) && Legal(n, events)
    ensures ClocksInOrder(n, After(n, events))
    ensures AssociationsFit(n, After(n, events)) ==> AssociationsInOrder(n, After(n, events))
    ensures RenewalsFit(After(n, events)) ==> RenewalsInOrder(After(n, events))
  {
    if events != [] {
      var before, last := events[..|events| - 1], events[|events| - 1];
      RunInOrder(n, before);
      StepClocks(n, After(n, before), last);
      if AssociationsFit(n, After(n, events)) {
        StepAssociations(n, After(n, before), last);
      }
      if RenewalsFit(After(n, events)) {
        StepRenewals(After(n, before), last);
      }
    }
  }

  // ---- The shared counter -------------------------------------------------------------------

  lemma WrapNext(r: nat)
    ensures WrapU32(r % 0x1_0000_0000 + 1) == (r + 1) % 0x1_0000_0000
  {
  }

  predicate CountsRenewals(n: Node) {
    n.cells.sharedCount == n.cells.renewals == n.hist.renewed % 0x1_0000_0000
  }

  lemma StepCountsRenewals(n: Node, e: Event)
    requires Enabled(n, e) && CountsRenewals(n)
    ensures CountsRenewals(Step(n, e))
  {
    var m := Step(n, e);
    WrapNext(n.hist.renewed);
    if m.hist.renewed == n.hist.renewed {
      assert m.cells.sharedCount == n.cells.sharedCount && m.cells.renewals == n.cells.renewals;
    } else {
      assert m.hist.renewed == n.hist.renewed + 1;
      assert m.cells.sharedCount == m.cells.renewals == WrapU32(n.cells.renewals + 1);
    }
  }

  /** In every interleaving RENEWAL_COUNT is the lease task's own counter and the number
      of HTTP 200 renewals modulo 2^32. */
  lemma {:induction false} SharedCounter(n: Node, events: seq<Event>)
    requires Start(n) && Legal(n, events)
    ensures CountsRenewals(After(n, events))
  {
    if events != [] {
      var before := events[..|events| - 1];
      SharedCounter(n, before);
      StepCountsRenewals(After(n, before), events[|events| - 1]);
    }
  }

  // ---- Reconnects ---------------------------------------------------------------------------

  lemma LogGrows(start: Node, n: Node)
    requires AssociationsInOrder(start, n) && start.status.recon.window.assocTotal == start.wifi.assocTotal
    ensures CounterGrows(start.status, n.hist.log)
  {
    var log := n.hist.log;
    forall i | 0 <= i < |log|
      ensures log[i].sample == Samples(n)[i]
    {
    }
    forall i, j | 0 <= i < j < |log|
      ensures log[i].sample.assocTotal <= log[j].sample.assocTotal
    {
      assert Samples(n)[i].assocTotal <= Samples(n)[j].assocTotal;
    }
  }

  lemma StepKeepsWindow(st: StatusState, s: Sample, o: Outcome)
    requires o != BothAnswered
    ensures StepTick(st, Tick(s, o)).recon.window == st.recon.window
  {
  }

  lemma WindowOfNode(start: Node, n: Node)
    requires Refines(start.status, n)
    ensures n.status.recon.window == Run(start.status, n.hist.log).recon.window
  {
    if !n.phase.Idle? {
      StepKeepsWindow(Run(start.status, n.hist.log), n.phase.sample, FailOutcome(n.phase));
    }
  }

  lemma WindowBehindCounter(start: Node, n: Node)
    requires AssociationsInOrder(start, n) && Refines(start.status, n)
    requires start.status.recon.window.assocTotal == start.wifi.assocTotal
    ensures n.status.recon.window.assocTotal <= n.wifi.assocTotal
  {
    WindowOfNode(start, n);
    WindowFromLastFullPush(start.status, n.hist.log);
    var j := LastFullPush(start.status, n.hist.log);
    if j >= 0 {
      assert Samples(n)[j].assocTotal <= n.wifi.assocTotal;
    }
  }

  /** Below 2^32 associations, at any moment of any interleaving, what the full pushes
      reported and what a tick that starts now would report are together all
      associations since the reconciler was created. */
  lemma ReconnectsConserved(n: Node, events: seq<Event>, wallMs: u64, nowMs: u64, endMs: u64, free: nat)
    requires Start(n) && Legal(n, events) && AssociationsFit(n, After(n, events))
    ensures var m := After(n, events);
            Consumed(n.status, m.hist.log) + Reconnects(m.status.recon.window, Sampled(m, wallMs, nowMs, endMs, free))
            == m.hist.associations
  {
    var m := After(n, events);
    RunInOrder(n, events);
    StatusTaskRefinesTicks(n, events);
    LogGrows(n, m);
    ConsumedIsWindowMove(n.status, m.hist.log);
    WindowOfNode(n, m);
    WindowBehindCounter(n, m);
  }

  // ---- Conditions that change once ------------------------------------------------------------

  lemma NeverUnpassedInLog(start: Node, n: Node, t: CondType, initially: bool)
    requires OneWay(t) && ClocksInOrder(start, n) && (t == Existential ==> RenewalsInOrder(n))
    requires initially ==> t == Caffeinated && start.ms / 1000 >= 600
    ensures NeverUnpassed(initially, n.hist.log, t)
  {
    var log := n.hist.log;
    forall i | 0 <= i < |log|
      ensures log[i].sample == Samples(n)[i] && (initially ==> Passed(log[i].sample, t))
    {
      assert ReadSince(start, Samples(n)[i], n);
    }
    forall i, j | 0 <= i < j < |log| && Passed(log[i].sample, t)
      ensures Passed(log[j].sample, t)
    {
      assert ClockFollows(Samples(n)[i], Samples(n)[j]);
      assert t == Existential ==> Samples(n)[i].renewals <= Samples(n)[j].renewals;
    }
  }

  lemma BootStage(created: u64, now: u64, free: nat, uptimeSecs: u64, t: CondType)
    requires OneWay(t)
    ensures Get(StatusReconciler.BootTrackers(created, now, free, uptimeSecs), t).status
         == StageStatus(t, t == Caffeinated && uptimeSecs >= 600)
  {
  }

  /** After the initial push, Caffeinated flips once if the node was up for less than ten
      minutes then and a tick sees more, and Existential, while the counters do not wrap,
      once if a tick sees the 100th renewal; neither flips otherwise. */
  lemma FlipsAtMostOnce(n: Node, events: seq<Event>, created: u64, now: u64, free: nat, uptimeSecs: u64, t: CondType)
    requires Start(n) && Legal(n, events) && OneWay(t) && (t == Existential ==> RenewalsFit(After(n, events)))
    requires n.status.recon.trackers == StatusReconciler.BootTrackers(created, now, free, uptimeSecs)
    requires uptimeSecs <= n.ms / 1000
    ensures var initially := t == Caffeinated && uptimeSecs >= 600;
            var log := After(n, events).hist.log;
            FlipCount(n.status, log, t) == if LastPassed(initially, log, t) && !initially then 1 else 0
  {
    var initially := t == Caffeinated && uptimeSecs >= 600;
    RunInOrder(n, events);
    BootStage(created, now, free, uptimeSecs, t);
    NeverUnpassedInLog(n, After(n, events), t, initially);
    OneWayFlips(n.status, initially, After(n, events).hist.log, t);
  }

  // ---- What a tick of the node says ---------------------------------------------------------

  /** At any moment of any interleaving, a tick that starts then speaks of the node as it is:
      of the heap it finds, of the time since boot, of all renewals so far (modulo 2^32), of
      the associations and the access point since the last full push or the creation. */
  lemma TickSpeaksOfTheNode(n: Node, events: seq<Event>, e: Event)
    requires Start(n) && Legal(n, events) && e.StatusWake? && Enabled(After(n, events), e)
    ensures var m := After(n, events);
            var s := Sampled(m, e.wallMs, e.nowMs, e.endMs, e.free);
            var w := SnapshotAt(n.status, m.hist.log, LastFullPush(n.status, m.hist.log));
            && s.now == UnixNow(n.anchor, e.wallMs)
            && Evaluated(m.status.recon, s, MemoryPressure) == (if e.free < 20 * 1024 then True else False)
            && Evaluated(m.status.recon, s, Peckish) == (if e.free < 61 * 1024 then True else False)
            && Evaluated(m.status.recon, s, Caffeinated) == (if e.endMs < 600_000 then True else False)
            && Evaluated(m.status.recon, s, Existential) == (if m.hist.renewed % 0x1_0000_0000 >= 100 then True else False)
            && Evaluated(m.status.recon, s, Vibes) ==
                 (if m.wifi.assocTotal >= w.assocTotal + 3 || e.free < 30 * 1024 then False
                  else if m.wifi.assocTotal > w.assocTotal || e.free < 51 * 1024 then Unknown else True)
            && Evaluated(m.status.recon, s, Haunted) ==
                 (if GhostBetween(w.bssid, m.wifi.bssid) || TimeSlipped(w, s) then True else False)
  {
    var m := After(n, events);
    RunInOrder(n, events);
    SharedCounter(n, events);
    StatusTaskRefinesTicks(n, events);
    WindowOfNode(n, m);
    WindowFromLastFullPush(n.status, m.hist.log);
    TickThresholds(m.status.recon, Sampled(m, e.wallMs, e.nowMs, e.endMs, e.free));
  }

  // ---- The clock ------------------------------------------------------------------------------

  /** Anchored before the reconciler was created at createdMs, in range all along, and read
      quickly enough by every tick. */
  ghost predicate SteadyClock(n: Node, createdMs: u64, m: Node) {
    && Ticking(n.anchor, createdMs) && n.anchor.unix + m.ms / 1000 < 0x4000_0000_0000_0000
    && ReadPair(n.anchor, MAX_SKEW_MS, createdMs, n.status.recon.window.unix, n.status.recon.window.monoMs)
    && n.status.recon.window.monoMs <= n.ms
    && (forall i :: 0 <= i < |Samples(m)| ==> Samples(m)[i].nowMs <= Samples(m)[i].wallMs + MAX_SKEW_MS)
  }

  /** On such a clock no tick of any interleaving sees a time slip: it is haunted exactly
      by a BSSID that is new since the last full push. */
  lemma NodeNeverSlips(n: Node, events: seq<Event>, createdMs: u64, e: Event)
    requires Start(n) && Legal(n, events)
    requires e.StatusWake? && Enabled(After(n, events), e)
    requires SteadyClock(n, createdMs, Step(After(n, events), e))
    ensures var m := After(n, events);
            var s := Sampled(m, e.wallMs, e.nowMs, e.endMs, e.free);
            && !TimeSlipped(m.status.recon.window, s)
            && Evaluated(m.status.recon, s, Haunted) ==
                 if GhostBetween(SnapshotAt(n.status, m.hist.log, LastFullPush(n.status, m.hist.log)).bssid, m.wifi.bssid)
                 then True else False
  {
    var m := After(n, events);
    var s := Sampled(m, e.wallMs, e.nowMs, e.endMs, e.free);
    RunInOrder(n, events);
    StatusTaskRefinesTicks(n, events);
    StepSamples(m, e);
    var all := Samples(Step(m, e));
    assert all[|Samples(m)|] == s;
    forall i | 0 <= i < |m.hist.log|
      ensures var t := m.hist.log[i].sample;
              Ticking(n.anchor, t.wallMs) && ReadPair(n.anchor, MAX_SKEW_MS, t.wallMs, t.now, t.nowMs) && t.nowMs <= s.wallMs
    {
      assert all[i] == Samples(m)[i] == m.hist.log[i].sample;
      assert ReadSince(n, Samples(m)[i], m);
    }
    OneAnchorNeverSlips(n.anchor, n.status, createdMs, m.hist.log, s);
    WindowOfNode(n, m);
    WindowFromLastFullPush(n.status, m.hist.log);
    HauntedWithoutSlip(m.status.recon, s);
  }

  /** The finished ticks, and the present one as it would end if its request failed now. */
  function TicksSoFar(n: Node): seq<Tick> {
    n.hist.log + (if n.phase.Idle? then [] else [Tick(n.phase.sample, FailOutcome(n.phase))])
  }

  lemma RunSoFar(start: StatusState, n: Node)
    requires Refines(start, n)
    ensures n.status == Run(start, TicksSoFar(n))
  {
    if n.phase.Idle? {
      assert TicksSoFar(n) == n.hist.log;
    } else {
      RunAppend(start, n.hist.log, Tick(n.phase.sample, FailOutcome(n.phase)));
    }
  }

  /** A period later an anchored clock reads a later second. */
  lemma LaterSecond(a: Anchor, earlier: u64, later: u64)
    requires a.unix > 0 && a.bootMs <= earlier && earlier + 10_000 <= later
    requires a.unix + later / 1000 < 0x1_0000_0000_0000_0000
    ensures UnixNow(a, earlier) < UnixNow(a, later)
  {
  }

  lemma {:induction false} TicksAreStrict(start: Node, n: Node, k: nat)
    requires ClocksInOrder(start, n) && k <= |TicksSoFar(n)|
    requires start.anchor.unix > 0 && start.anchor.bootMs <= start.ms
    requires start.anchor.unix + n.ms / 1000 < 0x1_0000_0000_0000_0000
    ensures StrictClock(UnixNow(start.anchor, start.ms), TicksSoFar(n)[..k])
    ensures LastTime(UnixNow(start.anchor, start.ms), TicksSoFar(n)[..k])
         == if k == 0 then UnixNow(start.anchor, start.ms) else UnixNow(start.anchor, Samples(n)[k - 1].wallMs)
  {
    if k > 0 {
      TicksAreStrict(start, n, k - 1);
      var ticks, s := TicksSoFar(n), Samples(n)[k - 1];
      assert ticks[..k][..k - 1] == ticks[..k - 1] && ticks[k - 1].sample == s;
      assert ReadSince(start, s, n);
      if k > 1 {
        assert ClockFollows(Samples(n)[k - 2], s) && ReadSince(start, Samples(n)[k - 2], n);
        LaterSecond(start.anchor, Samples(n)[k - 2].wallMs, s.wallMs);
      } else {
        LaterSecond(start.anchor, start.ms, s.wallMs);
      }
    }
  }

  /** On an anchored clock, at any moment of any interleaving that starts coherent, the server
      agrees with the trackers if and only if no tick has flipped a condition since the last
      PATCH that the server acted on. */
  lemma NodeIsCoherentExactlyWhenSent(n: Node, events: seq<Event>)
    requires Start(n) && Legal(n, events) && Coherent(n.status)
    requires n.anchor.unix > 0 && n.anchor.bootMs <= n.ms
    requires n.anchor.unix + After(n, events).ms / 1000 < 0x1_0000_0000_0000_0000
    requires forall t :: Get(n.status.recon.trackers, t).since <= UnixNow(n.anchor, n.ms)
    ensures Coherent(After(n, events).status) <==> !FlippedUnsent(n.status, TicksSoFar(After(n, events)))
  {
    var m := After(n, events);
    RunInOrder(n, events);
    StatusTaskRefinesTicks(n, events);
    RunSoFar(n.status, m);
    TicksAreStrict(n, m, |TicksSoFar(m)|);
    assert TicksSoFar(m)[..|TicksSoFar(m)|] == TicksSoFar(m);
    CoherentExactlyWhenSent(n.status, UnixNow(n.anchor, n.ms), TicksSoFar(m));
  }

  lemma {:induction false} LogIsMonotone(start: Node, n: Node, k: nat)
    requires ClocksInOrder(start, n) && k <= |n.hist.log| && start.anchor.unix + n.ms / 1000 < 0x1_0000_0000_0000_0000
    ensures MonotoneClock(UnixNow(start.anchor, start.ms), n.hist.log[..k])
    ensures k > 0 ==> LastTime(UnixNow(start.anchor, start.ms), n.hist.log[..k]) == n.hist.log[k - 1].sample.now
  {
    if k > 0 {
      LogIsMonotone(start, n, k - 1);
      assert n.hist.log[..k][..k - 1] == n.hist.log[..k - 1];
      assert ReadSince(start, Samples(n)[k - 1], n);
      if k > 1 {
        assert ClockFollows(Samples(n)[k - 2], Samples(n)[k - 1]);
        assert ReadSince(start, Samples(n)[k - 2], n);
      }
    }
  }

  /** Whatever is on its way or stored by a tick of the node has its transitions no later
      than its heartbeat. */
  lemma SentBodiesAreOrdered(n: Node, events: seq<Event>, t: CondType)
    requires Start(n) && Legal(n, events) && !After(n, events).phase.Idle?
    requires n.anchor.unix + After(n, events).ms / 1000 < 0x1_0000_0000_0000_0000
    requires Get(n.status.recon.trackers, t).since <= UnixNow(n.anchor, n.ms)
    ensures var m := After(n, events);
            var body := Rows(m.status.recon.trackers, InputsOf(m.status.recon.window, m.phase.sample), m.phase.sample.now);
            t in body && body[t].transition <= body[t].heartbeat
  {
    var m := After(n, events);
    RunInOrder(n, events);
    StatusTaskRefinesTicks(n, events);
    SampleAfterLog(n, m);
    OrderedOnItsWay(n.status, UnixNow(n.anchor, n.ms), m.hist.log, m.phase.sample, FailOutcome(m.phase), t);
  }

  lemma SampleAfterLog(start: Node, n: Node)
    requires ClocksInOrder(start, n) && !n.phase.Idle? && start.anchor.unix + n.ms / 1000 < 0x1_0000_0000_0000_0000
    ensures MonotoneClock(UnixNow(start.anchor, start.ms), n.hist.log)
    ensures LastTime(UnixNow(start.anchor, start.ms), n.hist.log) <= n.phase.sample.now
  {
    var log := n.hist.log;
    LogIsMonotone(start, n, |log|);
    assert log[..|log|] == log;
    assert Samples(n)[|log|] == n.phase.sample && ReadSince(start, Samples(n)[|log|], n);
    if |log| > 0 {
      assert ClockFollows(Samples(n)[|log| - 1], Samples(n)[|log|]);
      assert ReadSince(start, Samples(n)[|log| - 1], n);
    }
  }

  lemma OrderedOnItsWay(st: StatusState, start: u64, log: seq<Tick>, s: Sample, o: Outcome, t: CondType)
    requires Pushes(Run(st, log).recon, s) && o != BothAnswered
    requires MonotoneClock(start, log) && Get(st.recon.trackers, t).since <= start && LastTime(start, log) <= s.now
    ensures var r := StepTick(Run(st, log), Tick(s, o)).recon;
            var body := Rows(r.trackers, InputsOf(r.window, s), s.now);
            t in body && body[t].transition <= body[t].heartbeat
  {
    BodiesAreOrdered(st, start, log, s, t);
    BodyOnItsWay(Run(st, log), s, o);
  }

  lemma BodyOnItsWay(st: StatusState, s: Sample, o: Outcome)
    requires Pushes(st.recon, s) && o != BothAnswered
    ensures var r := StepTick(st, Tick(s, o)).recon;
            Rows(r.trackers, InputsOf(r.window, s), s.now) == Body(st.recon, s)
  {
    StepKeepsWindow(st, s, o);
    assert StepTick(st, Tick(s, o)).recon.trackers == ObserveTick(st.recon, s).trackers;
  }
}
