/** How old the heartbeats that the status task leaves on the server can get. */
module NodeHeartbeat {
  import opened MachineInts
  import opened Config
  import opened Conditions
  import opened StatusModel
  import opened WallClock
  import opened Node
  import opened NodeLease
  import opened NodeStatus

  /** The timer wakes its task at most j milliseconds late, and a tick takes at most d, also
      one that ends without a request. */
  predicate StatusTimely(n: Node, j: nat, d: nat) {
    var start := n.hist.pushes.start;
    if n.phase.Idle? then n.ms <= n.phase.until + j && n.phase.until <= start + d + PERIOD_MS
    else n.ms <= start + d
  }

  /** At every moment of the run the status task was timely and at most k pushes in a row
      had failed. */
  predicate PushesWithinBounds(n: Node, events: seq<Event>, j: nat, d: nat, k: nat)
    requires Legal(n, events)
  {
    && StatusTimely(After(n, events), j, d) && After(n, events).hist.pushes.failed <= k
    && (events == [] || PushesWithinBounds(n, events[..|events| - 1], j, d, k))
  }

  // ---- What the server holds ---------------------------------------------------------------

  /** The server has the body of the present tick. */
  predicate BodyStored(n: Node) {
    !n.phase.Idle? && FailOutcome(n.phase) != StatusLost
  }

  predicate BeatsSince(server: Conds, unix: u64, t: CondType) {
    t in server && unix <= server[t].heartbeat
  }

  ghost predicate AllBeatSince(server: Conds, unix: u64) {
    forall t :: BeatsSince(server, unix, t)
  }

  /** No heartbeat is older than the last full push; the present tick reads a later time, and
      once the server has its body they all are that time. */
  ghost predicate HeartbeatsKept(n: Node) {
    var last := n.status.recon.lastStatusUpdate;
    && (n.hist.pushes.full ==> last <= UnixNow(n.anchor, n.ms) && AllBeatSince(n.status.server, last))
    && (!n.phase.Idle? ==> n.phase.sample.now <= UnixNow(n.anchor, n.ms))
    && (!n.phase.Idle? && n.hist.pushes.full ==> last <= n.phase.sample.now)
    && (BodyStored(n) ==> AllBeatSince(n.status.server, n.phase.sample.now))
  }

  lemma MergedBeats(stored: Conds, tr: Trackers, i: Inputs, heartbeat: u64, unix: u64)
    requires unix <= heartbeat
    ensures AllBeatSince(Merge(stored, Rows(tr, i, heartbeat)), unix)
  {
    forall t
      ensures BeatsSince(Merge(stored, Rows(tr, i, heartbeat)), unix, t)
    {
      EveryType(t);
    }
  }

  /** What the other events leave alone. */
  lemma OthersKeepPushes(n: Node, e: Event)
    requires Enabled(n, e) && !MovesStatus(e)
    ensures SameStatusSide(n, Step(n, e)) && Step(n, e).hist.pushes == n.hist.pushes
    ensures Step(n, e).anchor == n.anchor && n.ms <= Step(n, e).ms
    ensures n.phase.Idle? ==> Step(n, e).phase == n.phase
  {
  }

  lemma OthersKeepBeats(n: Node, e: Event)
    requires Enabled(n, e) && !MovesStatus(e) && HeartbeatsKept(n) && InRange(n.anchor, Step(n, e).ms)
    ensures HeartbeatsKept(Step(n, e))
  {
    OthersKeepPushes(n, e);
    UnixNowMonotone(n.anchor, n.ms, Step(n, e).ms);
  }

  lemma WakeKeepsBeats(n: Node, e: Event)
    requires Enabled(n, e) && e.StatusWake? && HeartbeatsKept(n) && InRange(n.anchor, e.endMs)
    ensures HeartbeatsKept(Step(n, e))
  {
    UnixNowMonotone(n.anchor, n.ms, e.wallMs);
    UnixNowMonotone(n.anchor, e.wallMs, e.endMs);
    var m := Step(n, e);
    assert m.status.recon.lastStatusUpdate == n.status.recon.lastStatusUpdate && m.status.server == n.status.server;
    assert m.hist.pushes.full == n.hist.pushes.full;
  }

  lemma ServeKeepsBeats(n: Node)
    requires Enabled(n, Serve(StatusTask)) && HeartbeatsKept(n)
    ensures HeartbeatsKept(Step(n, Serve(StatusTask)))
  {
    var r, s := n.status.recon, n.phase.sample;
    MergedBeats(n.status.server, r.trackers, InputsOf(r.window, s), s.now, s.now);
    if n.hist.pushes.full {
      MergedBeats(n.status.server, r.trackers, InputsOf(r.window, s), s.now, r.lastStatusUpdate);
    }
  }

  lemma EndKeepsBeats(n: Node, e: Event)
    requires e == Fail(StatusTask) || e == Answer(StatusTask)
    requires Enabled(n, e) && HeartbeatsKept(n)
    ensures HeartbeatsKept(Step(n, e))
  {
    assert Step(n, e).status.server == n.status.server && Step(n, e).ms == n.ms;
  }

  lemma StepKeepsBeats(n: Node, e: Event)
    requires Enabled(n, e) && HeartbeatsKept(n) && InRange(n.anchor, Step(n, e).ms)
    ensures HeartbeatsKept(Step(n, e))
  {
    if !MovesStatus(e) {
      OthersKeepBeats(n, e);
    } else if e.StatusWake? {
      assert Step(n, e).ms == e.endMs;
      WakeKeepsBeats(n, e);
    } else if e.Serve? {
      ServeKeepsBeats(n);
    } else {
      EndKeepsBeats(n, e);
    }
  }

  // ---- When the next push comes --------------------------------------------------------------

  /** The last tick that did not fail came within five minutes of the last full push, and the
      next one comes within the slack after it. */
  predicate OnBeat(n: Node, j: nat, d: nat) {
    var p := n.hist.pushes;
    var slack := Slack(p.failed, Cycle(j, d));
    && p.base <= p.start <= n.ms
    && (if n.phase.Idle? then n.phase.until + j <= p.base + slack else p.start <= p.base + slack)
    && (!n.phase.Idle? ==> UnixNow(n.anchor, p.start) <= n.phase.sample.now)
    && (p.full ==> UnixNow(n.anchor, p.base) < n.status.recon.lastStatusUpdate + STATUS_UPDATE_PERIOD_SECS)
  }

  lemma OthersKeepBeat(n: Node, e: Event, j: nat, d: nat)
    requires Enabled(n, e) && !MovesStatus(e) && OnBeat(n, j, d)
    ensures OnBeat(Step(n, e), j, d)
  {
    OthersKeepPushes(n, e);
  }

  lemma ServeKeepsBeat(n: Node, j: nat, d: nat)
    requires Enabled(n, Serve(StatusTask)) && OnBeat(n, j, d)
    ensures OnBeat(Step(n, Serve(StatusTask)), j, d)
  {
    assert Step(n, Serve(StatusTask)).status.recon == n.status.recon;
  }

  /** A tick that skips the push does so because the last full one is recent. */
  lemma WakeKeepsBeat(n: Node, e: Event, j: nat, d: nat)
    requires Enabled(n, e) && e.StatusWake? && OnBeat(n, j, d) && StatusTimely(n, j, d) && StatusTimely(Step(n, e), j, d)
    requires n.anchor.unix > 0 && InRange(n.anchor, e.endMs)
    ensures OnBeat(Step(n, e), j, d)
  {
    var s, m := Sampled(n, e.wallMs, e.nowMs, e.endMs, e.free), Step(n, e);
    UnixNowMonotone(n.anchor, n.ms, e.wallMs);
    UnixNowMonotone(n.anchor, e.wallMs, e.endMs);
    assert m.status.recon.lastStatusUpdate == n.status.recon.lastStatusUpdate && m.hist.pushes.start == n.ms;
    assert s.now == UnixNow(n.anchor, e.wallMs) && s.now != 0;
    if !Pushes(n.status.recon, s) {
      assert !Due(n.status.recon, s);
      assert m.phase == Idle(e.endMs + PERIOD_MS) && m.hist.pushes.base == n.ms;
    }
  }

  lemma EndKeepsBeat(n: Node, e: Event, j: nat, d: nat)
    requires e == Fail(StatusTask) || e == Answer(StatusTask)
    requires Enabled(n, e) && OnBeat(n, j, d) && StatusTimely(n, j, d)
    ensures OnBeat(Step(n, e), j, d)
  {
    var p := n.hist.pushes;
    assert Slack(p.failed + 1, Cycle(j, d)) == Slack(p.failed, Cycle(j, d)) + Cycle(j, d);
  }

  lemma StepKeepsBeat(n: Node, e: Event, j: nat, d: nat)
    requires Enabled(n, e) && OnBeat(n, j, d) && StatusTimely(n, j, d) && StatusTimely(Step(n, e), j, d)
    requires n.anchor.unix > 0 && InRange(n.anchor, Step(n, e).ms)
    ensures OnBeat(Step(n, e), j, d)
  {
    if !MovesStatus(e) {
      OthersKeepBeat(n, e, j, d);
    } else if e.StatusWake? {
      assert Step(n, e).ms == e.endMs;
      WakeKeepsBeat(n, e, j, d);
    } else if e.Serve? {
      ServeKeepsBeat(n, j, d);
    } else {
      EndKeepsBeat(n, e, j, d);
    }
  }

  lemma {:induction false} RunKeepsBeat(n: Node, events: seq<Event>, j: nat, d: nat, k: nat)
    requires Start(n) && Legal(n, events) && PushesWithinBounds(n, events, j, d, k)
    requires n.anchor.unix > 0 && InRange(n.anchor, After(n, events).ms)
    ensures OnBeat(After(n, events), j, d) && HeartbeatsKept(After(n, events))
  {
    if events != [] {
      var before, last := events[..|events| - 1], events[|events| - 1];
      InRangeEarlier(n, before, last);
      AnchorIsConstant(n, before);
      RunKeepsBeat(n, before, j, d, k);
      StepKeepsBeats(After(n, before), last);
      StepKeepsBeat(After(n, before), last, j, d);
    }
  }

  lemma BeatsWithin(n: Node, j: nat, d: nat, slack: nat, t: CondType)
    requires OnBeat(n, j, d) && HeartbeatsKept(n) && StatusTimely(n, j, d) && n.hist.pushes.full
    requires Slack(n.hist.pushes.failed, Cycle(j, d)) <= slack && InRange(n.anchor, n.ms)
    ensures t in n.status.server
    ensures UnixNow(n.anchor, n.ms) <= n.status.server[t].heartbeat + STATUS_UPDATE_PERIOD_SECS + (slack + d) / 1000
  {
    assert BeatsSince(n.status.server, n.status.recon.lastStatusUpdate, t);
    UnixNowAdvance(n.anchor, n.hist.pushes.base, n.ms, slack + d);
  }

  /** On an anchored clock: if the timer is at most j ms late, every status tick takes at most
      d ms and at most k pushes in a row fail, then after the first full push no heartbeat on
      the server is ever older than 300 s plus (k + 1) * (10 s + j + d) + d. */
  lemma HeartbeatsStayFresh(n: Node, events: seq<Event>, j: nat, d: nat, k: nat, t: CondType)
    requires Start(n) && Legal(n, events) && PushesWithinBounds(n, events, j, d, k)
    requires n.anchor.unix > 0 && InRange(n.anchor, After(n, events).ms) && After(n, events).hist.pushes.full
    ensures var m := After(n, events);
            && t in m.status.server
            && UnixNow(m.anchor, m.ms)
                 <= m.status.server[t].heartbeat + 300 + ((k + 1) * (10_000 + j + d) + d) / 1000
  {
    RunKeepsBeat(n, events, j, d, k);
    AnchorIsConstant(n, events);
    SlackMonotone(After(n, events).hist.pushes.failed, k, Cycle(j, d));
    BeatsWithin(After(n, events), j, d, Slack(k, Cycle(j, d)), t);
    SlackClosed(k, Cycle(j, d));
  }
}
