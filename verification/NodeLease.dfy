/** What every interleaving keeps of the lease task and of the lease it renews. */
module NodeLease {
  import opened Wrappers
  import opened MachineInts
  import opened LeaseReconciler
  import opened WallClock
  import opened Text
  import opened Node
  import opened StatusModel

  // ---- The wall clock of a node -----------------------------------------------------------

  /** The clock does not wrap before this instant. */
  predicate InRange(a: Anchor, ms: u64) {
    a.unix + ms / 1000 < 0x1_0000_0000_0000_0000
  }

  lemma UnixNowMonotone(a: Anchor, earlier: u64, later: u64)
    requires earlier <= later && InRange(a, later)
    ensures UnixNow(a, earlier) <= UnixNow(a, later)
  {
  }

  /** Rounding adds at most one second. */
  lemma UnixNowAdvance(a: Anchor, earlier: u64, later: u64, atMost: nat)
    requires earlier <= later <= earlier + atMost && InRange(a, later)
    ensures UnixNow(a, later) <= UnixNow(a, earlier) + atMost / 1000 + 1
  {
  }

  // ---- Freshness ----------------------------------------------------------------------------

  /** The timer wakes its task at most j milliseconds late, and a tick takes at most d. */
  predicate Timely(n: Node, j: nat, d: nat) {
    if n.lease.Sleeping? then n.ms <= n.lease.until + j else n.ms <= n.lease.start + d
  }

  /** At every moment of the run the lease task was timely and at most k ticks in a row
      had failed. */
  predicate WithinBounds(n: Node, events: seq<Event>, j: nat, d: nat, k: nat)
    requires Legal(n, events)
  {
    && Timely(After(n, events), j, d) && After(n, events).hist.failedTicks <= k
    && (events == [] || WithinBounds(n, events[..|events| - 1], j, d, k))
  }

  /** How long after the start of a good tick the next one may start if f ticks have
      failed since and a cycle takes this long. */
  function Slack(f: nat, cycle: nat): nat {
    if f == 0 then cycle else Slack(f - 1, cycle) + cycle
  }

  lemma {:induction false} SlackClosed(f: nat, cycle: nat)
    ensures Slack(f, cycle) == (f + 1) * cycle
  {
    if f > 0 {
      SlackClosed(f - 1, cycle);
    }
  }

  lemma {:induction false} SlackMonotone(f: nat, k: nat, cycle: nat)
    requires f <= k
    ensures Slack(f, cycle) <= Slack(k, cycle)
  {
    if f < k {
      SlackMonotone(f, k - 1, cycle);
    }
  }

  predicate IsOurs(n: Node) {
    n.stored.Some? && n.stored.value.ours
  }

  /** The sleep, its lateness and the tick. */
  function Cycle(j: nat, d: nat): nat {
    PERIOD_MS + j + d
  }

  /** Neither the stamp on its way nor the stored one is older than the last good tick,
      and the next tick starts within the slack. */
  predicate OnSchedule(n: Node, j: nat, d: nat) {
    var good, slack := n.hist.lastGood, Slack(n.hist.failedTicks, Cycle(j, d));
    && good <= n.ms
    && (IsOurs(n) ==> UnixNow(n.anchor, good) <= n.stored.value.renewTime)
    && (if n.lease.Sleeping? then n.lease.until + j <= good + slack
        else && good <= n.lease.start <= n.ms && n.lease.start <= good + slack
             && UnixNow(n.anchor, n.lease.start) <= n.lease.stamp
             && (IsOurs(n) && ServerActed(n) ==> n.stored.value.renewTime == n.lease.stamp))
  }

  predicate MovesLease(e: Event) {
    e == LeaseWake || (e.Acquire? && e.task == LeaseTask) || (e.Refuse? && e.task == LeaseTask)
    || e in {Serve(LeaseTask), Fail(LeaseTask), Answer(LeaseTask)}
  }

  /** The other tasks only let time pass, and others only delete or disown the lease. */
  lemma OthersKeepSchedule(n: Node, e: Event, j: nat, d: nat)
    requires Enabled(n, e) && !MovesLease(e) && OnSchedule(n, j, d)
    ensures OnSchedule(Step(n, e), j, d)
  {
    var m := Step(n, e);
    assert m.lease == n.lease && m.anchor == n.anchor && n.ms <= m.ms;
    assert m.hist.lastGood == n.hist.lastGood && m.hist.failedTicks == n.hist.failedTicks;
    assert IsOurs(m) ==> m.stored == n.stored;
  }

  lemma TickKeepsSchedule(n: Node, e: Event, j: nat, d: nat)
    requires Enabled(n, e) && MovesLease(e) && !e.Answer? && !e.Fail?
    requires InRange(n.anchor, n.ms) && Timely(n, j, d) && OnSchedule(n, j, d)
    ensures OnSchedule(Step(n, e), j, d)
  {
    if !n.lease.Sleeping? {
      UnixNowMonotone(n.anchor, n.hist.lastGood, n.lease.start);
    }
  }

  lemma EndKeepsSchedule(n: Node, e: Event, j: nat, d: nat)
    requires e == Fail(LeaseTask) || e == Answer(LeaseTask)
    requires Enabled(n, e) && InRange(n.anchor, n.ms) && Timely(n, j, d) && OnSchedule(n, j, d)
    ensures OnSchedule(Step(n, e), j, d)
  {
    UnixNowMonotone(n.anchor, n.hist.lastGood, n.lease.start);
    UnixNowMonotone(n.anchor, n.lease.start, n.ms);
    assert Slack(n.hist.failedTicks + 1, Cycle(j, d)) == Slack(n.hist.failedTicks, Cycle(j, d)) + Cycle(j, d);
  }

  lemma StepOnSchedule(n: Node, e: Event, j: nat, d: nat)
    requires Enabled(n, e) && InRange(n.anchor, n.ms)
    requires Timely(n, j, d) && OnSchedule(n, j, d)
    ensures OnSchedule(Step(n, e), j, d)
  {
    if !MovesLease(e) {
      OthersKeepSchedule(n, e, j, d);
    } else if e.Answer? || e.Fail? {
      EndKeepsSchedule(n, e, j, d);
    } else {
      TickKeepsSchedule(n, e, j, d);
    }
  }

  lemma StepTime(n: Node, e: Event)
    requires Enabled(n, e)
    ensures n.ms <= Step(n, e).ms && Step(n, e).anchor == n.anchor
  {
  }

  lemma {:induction false} RunOnSchedule(n: Node, events: seq<Event>, j: nat, d: nat, k: nat)
    requires Start(n) && Legal(n, events) && WithinBounds(n, events, j, d, k) && InRange(n.anchor, After(n, events).ms)
    ensures OnSchedule(After(n, events), j, d) && After(n, events).anchor == n.anchor
  {
    if events != [] {
      var before, last := events[..|events| - 1], events[|events| - 1];
      StepTime(After(n, before), last);
      InRangeEarlier(n, before, last);
      RunOnSchedule(n, before, j, d, k);
      StepOnSchedule(After(n, before), last, j, d);
    }
  }

  lemma {:induction false} AnchorIsConstant(n: Node, events: seq<Event>)
    requires Legal(n, events)
    ensures After(n, events).anchor == n.anchor && n.ms <= After(n, events).ms
  {
    if events != [] {
      AnchorIsConstant(n, events[..|events| - 1]);
      StepTime(After(n, events[..|events| - 1]), events[|events| - 1]);
    }
  }

  lemma InRangeEarlier(n: Node, before: seq<Event>, last: Event)
    requires Legal(n, before) && Enabled(After(n, before), last) && InRange(n.anchor, Step(After(n, before), last).ms)
    ensures InRange(n.anchor, After(n, before).ms) && InRange(After(n, before).anchor, Step(After(n, before), last).ms)
  {
    AnchorIsConstant(n, before);
    StepTime(After(n, before), last);
  }

  /** If the timer is at most j ms late, every tick takes at most d ms and at most k in a row
      fail, then a lease that the task wrote last is never older than
      (k + 1) * (10 s + j + d) + d, plus one second for rounding, deletions and new
      creations included. */
  lemma LeaseStaysFresh(n: Node, events: seq<Event>, j: nat, d: nat, k: nat)
    requires Start(n) && Legal(n, events) && WithinBounds(n, events, j, d, k) && InRange(n.anchor, After(n, events).ms)
    ensures var m := After(n, events);
            IsOurs(m) ==>
              UnixNow(m.anchor, m.ms) <= m.stored.value.renewTime + ((k + 1) * (10_000 + j + d) + d) / 1000 + 1
  {
    RunOnSchedule(n, events, j, d, k);
    SlackMonotone(After(n, events).hist.failedTicks, k, Cycle(j, d));
    FreshWithin(After(n, events), j, d, Slack(k, Cycle(j, d)));
    SlackClosed(k, Cycle(j, d));
  }

  lemma FreshWithin(n: Node, j: nat, d: nat, slack: nat)
    requires OnSchedule(n, j, d) && Timely(n, j, d) && Slack(n.hist.failedTicks, Cycle(j, d)) <= slack
    requires InRange(n.anchor, n.ms)
    ensures IsOurs(n) ==> UnixNow(n.anchor, n.ms) <= n.stored.value.renewTime + (slack + d) / 1000 + 1
  {
    UnixNowAdvance(n.anchor, n.hist.lastGood, n.ms, slack + d);
  }

  /** So two failures in a row stay below the lease duration of 40 s if lateness and length of
      ticks leave it 9 s: with ticks of up to 2 s the timer may be up to 333 ms late. */
  lemma TwoFailuresKeepTheLease(n: Node, events: seq<Event>, j: nat, d: nat)
    requires Start(n) && Legal(n, events) && WithinBounds(n, events, j, d, 2) && InRange(n.anchor, After(n, events).ms)
    requires 3 * j + 4 * d < 9000
    ensures var m := After(n, events);
            IsOurs(m) ==> UnixNow(m.anchor, m.ms) < m.stored.value.renewTime + 40
  {
    LeaseStaysFresh(n, events, j, d, 2);
    assert (2 + 1) * (10_000 + j + d) + d < 39_000;
  }

  predicate Undisturbed(events: seq<Event>) {
    forall i :: 0 <= i < |events| ==> !events[i].OthersDelete? && !events[i].OthersWrite?
  }

  /** The lease is ours as soon as the server acted, hence after every good tick. */
  predicate OursOnceServed(start: Node, n: Node) {
    && (!n.lease.Sleeping? && ServerActed(n) ==> IsOurs(n))
    && (start.ms < n.hist.lastGood ==> IsOurs(n))
    && start.ms <= n.ms && (n.lease.Sleeping? ==> start.ms < n.lease.until)
    && (!n.lease.Sleeping? ==> start.ms < n.lease.start)
  }

  lemma StepOurs(start: Node, n: Node, e: Event)
    requires Enabled(n, e) && !e.OthersDelete? && !e.OthersWrite? && OursOnceServed(start, n)
    ensures OursOnceServed(start, Step(n, e))
  {
  }

  /** If nobody else touches the lease, then from the first good tick on it is there, and
      the lease task wrote it last. */
  lemma {:induction false} UndisturbedLeaseIsKept(n: Node, events: seq<Event>)
    requires Start(n) && Legal(n, events) && Undisturbed(events)
    ensures OursOnceServed(n, After(n, events))
  {
    if events != [] {
      UndisturbedLeaseIsKept(n, events[..|events| - 1]);
      StepOurs(n, After(n, events[..|events| - 1]), events[|events| - 1]);
    }
  }

  // ---- Renew times ----------------------------------------------------------------------------

  /** Nothing that the lease task wrote or is about to write is newer than now, or older than
      what it wrote before. */
  predicate StampsInOrder(n: Node) {
    && (IsOurs(n) ==> n.stored.value.renewTime <= UnixNow(n.anchor, n.ms))
    && (!n.lease.Sleeping? ==> n.lease.stamp <= UnixNow(n.anchor, n.ms))
    && (!n.lease.Sleeping? && IsOurs(n) ==> n.stored.value.renewTime <= n.lease.stamp)
  }

  /** From here on the lease task writes nothing older than this time. */
  predicate NotBefore(n: Node, unix: u64) {
    && unix <= UnixNow(n.anchor, n.ms)
    && (IsOurs(n) ==> unix <= n.stored.value.renewTime)
    && (!n.lease.Sleeping? ==> unix <= n.lease.stamp)
  }

  lemma StepStamps(n: Node, e: Event, unix: u64)
    requires Enabled(n, e) && InRange(n.anchor, Step(n, e).ms)
    ensures StampsInOrder(n) ==> StampsInOrder(Step(n, e))
    ensures NotBefore(n, unix) ==> NotBefore(Step(n, e), unix)
  {
    StepTime(n, e);
    UnixNowMonotone(n.anchor, n.ms, Step(n, e).ms);
  }

  lemma {:induction false} LegalPrefix(n: Node, events: seq<Event>, i: nat)
    requires Legal(n, events) && i <= |events|
    ensures Legal(n, events[..i])
  {
    if i < |events| {
      var before := events[..|events| - 1];
      LegalPrefix(n, before, i);
      assert before[..i] == events[..i];
    } else {
      assert events[..i] == events;
    }
  }

  lemma {:induction false} RunStamps(n: Node, events: seq<Event>)
    requires Start(n) && Legal(n, events) && InRange(n.anchor, After(n, events).ms)
    ensures StampsInOrder(After(n, events))
  {
    if events != [] {
      var before, last := events[..|events| - 1], events[|events| - 1];
      InRangeEarlier(n, before, last);
      RunStamps(n, before);
      StepStamps(After(n, before), last, 0);
    }
  }

  lemma {:induction false} StampsFrom(n: Node, events: seq<Event>, i: nat)
    requires Start(n) && Legal(n, events) && InRange(n.anchor, After(n, events).ms) && i <= |events|
    ensures Legal(n, events[..i])
    ensures var m := After(n, events[..i]); IsOurs(m) ==> NotBefore(After(n, events), m.stored.value.renewTime)
  {
    LegalPrefix(n, events, i);
    if i == |events| {
      assert events[..i] == events;
      RunStamps(n, events);
    } else {
      var before, last := events[..|events| - 1], events[|events| - 1];
      assert before[..i] == events[..i];
      InRangeEarlier(n, before, last);
      StampsFrom(n, before, i);
      var m := After(n, events[..i]);
      StepStamps(After(n, before), last, if IsOurs(m) then m.stored.value.renewTime else 0);
    }
  }

  /** Over a whole run the renewTime that the lease task leaves on the server never goes back,
      whatever is lost, deleted or written by others in between; up to the year 9999
      neither does its text. */
  lemma RenewTimesNeverGoBack(n: Node, events: seq<Event>, i: nat)
    requires Start(n) && Legal(n, events) && InRange(n.anchor, After(n, events).ms) && i <= |events|
    ensures Legal(n, events[..i])
    ensures var earlier, later := After(n, events[..i]), After(n, events);
            IsOurs(earlier) && IsOurs(later) ==>
              && earlier.stored.value.renewTime <= later.stored.value.renewTime
              && (later.stored.value.renewTime <= LAST_FOUR_DIGIT_SECOND ==>
                  !LexLess(Rfc3339(later.stored.value.renewTime), Rfc3339(earlier.stored.value.renewTime)))
  {
    StampsFrom(n, events, i);
    var earlier, later := After(n, events[..i]), After(n, events);
    if IsOurs(earlier) && IsOurs(later) {
      var a, b := earlier.stored.value.renewTime, later.stored.value.renewTime;
      assert a <= b;
      if b <= LAST_FOUR_DIGIT_SECOND {
        Rfc3339Order(b, a);
      }
    }
  }

  // ---- Two readings of the clock in one tick ---------------------------------------------------

  /** The lease task reads a 404 to its renewal. */
  predicate ReadsMissing(n: Node, e: Event) {
    e == Answer(LeaseTask) && n.lease.Renewing? && n.lease.request == Replied(404)
  }

  /** A tick reads the clock as it starts, and once more exactly when it reads a 404. */
  lemma ClockReads(n: Node, e: Event)
    requires Enabled(n, e)
    ensures e == LeaseWake ==> Step(n, e).lease == Renewing(n.ms, UnixNow(n.anchor, n.ms), Queued)
    ensures ReadsMissing(n, e) ==> Step(n, e).lease == Creating(n.lease.start, UnixNow(n.anchor, n.ms), Queued)
    ensures e != LeaseWake && !ReadsMissing(n, e) && !Step(n, e).lease.Sleeping? ==>
              && !n.lease.Sleeping? && Step(n, e).lease.stamp == n.lease.stamp
              && Step(n, e).lease.Creating? == n.lease.Creating?
  {
  }

  /** At every step of the run that starts a renewal or a creation, its time is read then. */
  predicate StampedWhenRead(n: Node, events: seq<Event>)
    requires Legal(n, events)
  {
    events == []
    || var before, last := After(n, events[..|events| - 1]), events[|events| - 1];
       && StampedWhenRead(n, events[..|events| - 1])
       && (last == LeaseWake ==> After(n, events).lease == Renewing(before.ms, UnixNow(n.anchor, before.ms), Queued))
       && (ReadsMissing(before, last) ==>
             After(n, events).lease == Creating(before.lease.start, UnixNow(n.anchor, before.ms), Queued))
  }

  lemma {:induction false} RunIsStampedWhenRead(n: Node, events: seq<Event>)
    requires Legal(n, events)
    ensures StampedWhenRead(n, events)
  {
    if events != [] {
      var before := events[..|events| - 1];
      RunIsStampedWhenRead(n, before);
      AnchorIsConstant(n, before);
      ClockReads(After(n, before), events[|events| - 1]);
    }
  }

  /** What the server has of the present request carries its time. */
  predicate StoredAsSent(n: Node) {
    !n.lease.Sleeping? && ServerActed(n) && IsOurs(n) ==> n.stored.value.renewTime == n.lease.stamp
  }

  lemma {:induction false} RunStoresAsSent(n: Node, events: seq<Event>)
    requires Start(n) && Legal(n, events)
    ensures StoredAsSent(After(n, events))
  {
    if events != [] {
      RunStoresAsSent(n, events[..|events| - 1]);
    }
  }

  /** The lease that a tick makes anew, after a 404, carries the time at which that 404 was
      read: the answer to the renewal, not the start of the tick. */
  lemma {:induction false} CreationIsStampedWhenRead(n: Node, events: seq<Event>, i: nat)
    requires Start(n) && Legal(n, events) && i < |events| && Legal(n, events[..i])
    requires ReadsMissing(After(n, events[..i]), events[i])
    requires forall j :: i < j < |events| ==> events[j] != LeaseWake
    ensures var read, m := After(n, events[..i]), After(n, events);
            && (m.lease.Sleeping? || (m.lease.Creating? && m.lease.stamp == UnixNow(n.anchor, read.ms)))
            && (m.lease.Creating? && m.lease.request == Replied(201) && IsOurs(m) ==>
                  m.stored.value.renewTime == UnixNow(n.anchor, read.ms))
  {
    var before, last := events[..|events| - 1], events[|events| - 1];
    assert before[..i] == events[..i];
    AnchorIsConstant(n, before);
    ClockReads(After(n, before), last);
    RunStoresAsSent(n, events);
    if i < |before| {
      CreationIsStampedWhenRead(n, before, i);
    }
  }

  // ---- A clock that was never anchored --------------------------------------------------------

  lemma StepStaysZero(n: Node, e: Event)
    requires Enabled(n, e) && n.anchor.unix == 0
    requires (IsOurs(n) ==> n.stored.value.renewTime == 0) && (!n.lease.Sleeping? ==> n.lease.stamp == 0)
    ensures var m := Step(n, e);
            && m.anchor == n.anchor && (IsOurs(m) ==> m.stored.value.renewTime == 0)
            && (!m.lease.Sleeping? ==> m.lease.stamp == 0)
  {
  }

  lemma {:induction false} RunStaysZero(n: Node, events: seq<Event>)
    requires Start(n) && Legal(n, events) && n.anchor.unix == 0
    ensures var m := After(n, events);
            && m.anchor == n.anchor && (IsOurs(m) ==> m.stored.value.renewTime == 0)
            && (!m.lease.Sleeping? ==> m.lease.stamp == 0)
  {
    if events != [] {
      RunStaysZero(n, events[..|events| - 1]);
      StepStaysZero(After(n, events[..|events| - 1]), events[|events| - 1]);
    }
  }

  /** A comment in bootstrap says that a failed anchoring is tried again in the renewal loop.
      Nothing does that: on a node that starts without an anchor every renewTime that the
      lease task leaves is 0 for the whole run, and no status tick is ever due. */
  lemma NeverAnchoredForGood(n: Node, events: seq<Event>, wallMs: u64, nowMs: u64, endMs: u64, free: nat)
    requires Start(n) && Legal(n, events) && n.anchor == NEVER_ANCHORED
    ensures var m := After(n, events);
            && (IsOurs(m) ==> m.stored.value.renewTime == 0)
            && !Due(m.status.recon, Sampled(m, wallMs, nowMs, endMs, free))
  {
    RunStaysZero(n, events);
  }

  // ---- The lease task runs reconcile ----------------------------------------------------------

  function StoredTime(n: Node): Option<u64> {
    if n.stored.Some? then Some(n.stored.value.renewTime) else None
  }

  /** The LED takes signals at its own pace; the rest of the state is compared. */
  function Muted(s: LeaseState): LeaseState {
    s.(view := s.view.(signal := None))
  }

  function LeaseSide(n: Node): LeaseState {
    Muted(LeaseState(n.cells, StoredTime(n)))
  }

  /** Between ticks, counters and lease are where `AfterTick` takes them over the logged
      ticks; within one, they are where it would take them if the request failed now. */
  predicate RefinesReconcile(start: LeaseState, n: Node) {
    var st := RunLease(start, n.hist.leaseLog);
    if n.lease.Sleeping? then LeaseSide(n) == Muted(st)
    else && LeaseSide(n) == Muted(AfterTick(st, WholeLeaseTick(n, Lost(ServerActed(n)))))
         && (ServerActed(n) ==> st.lease.Some? == n.lease.Renewing?)
  }

  lemma RunLeaseAppend(s: LeaseState, ticks: seq<LeaseTick>, k: LeaseTick)
    ensures RunLease(s, ticks + [k]) == AfterTick(RunLease(s, ticks), k)
  {
    assert (ticks + [k])[..|ticks|] == ticks;
  }

  lemma FailureRefines(start: LeaseState, n: Node)
    requires Enabled(n, Fail(LeaseTask)) && RefinesReconcile(start, n)
    ensures RefinesReconcile(start, Step(n, Fail(LeaseTask)))
  {
    RunLeaseAppend(start, n.hist.leaseLog, WholeLeaseTick(n, Lost(ServerActed(n))));
  }

  /** Until the answer is read the tick looks like one whose answer is lost. */
  lemma AnsweredTick(st: LeaseState, n: Node)
    requires !n.lease.Sleeping? && n.lease.request.Replied? && (ServerActed(n) ==> st.lease.Some? == n.lease.Renewing?)
    ensures var lost := AfterTick(st, WholeLeaseTick(n, Lost(ServerActed(n))));
            if ServerActed(n) then
              AfterTick(st, WholeLeaseTick(n, Served))
                == lost.(view := if n.lease.Renewing? then Renewed(lost.view) else lost.view)
            else
              (n.lease.Renewing? && n.lease.request.status == 404)
              || AfterTick(st, WholeLeaseTick(n, Refused(n.lease.request.status))) == lost
  {
  }

  lemma RenewedMuted(v: LeaseView, w: LeaseView)
    requires v.(signal := None) == w.(signal := None)
    ensures Renewed(v) == Renewed(w)
  {
  }

  lemma AnswerRefines(start: LeaseState, n: Node)
    requires Enabled(n, Answer(LeaseTask)) && RefinesReconcile(start, n)
    ensures RefinesReconcile(start, Step(n, Answer(LeaseTask)))
  {
    var st, m := RunLease(start, n.hist.leaseLog), Step(n, Answer(LeaseTask));
    AnsweredTick(st, n);
    if ServerActed(n) {
      RunLeaseAppend(start, n.hist.leaseLog, WholeLeaseTick(n, Served));
      RenewedMuted(n.cells, st.view);
      assert m.hist.leaseLog == n.hist.leaseLog + [WholeLeaseTick(n, Served)] && m.stored == n.stored;
      assert m.cells == if n.lease.Renewing? then Renewed(n.cells) else n.cells;
    } else if n.lease.Renewing? && n.lease.request.status == 404 {
      assert m.hist == n.hist && m.stored == n.stored && m.cells == n.cells;
    } else {
      var k := WholeLeaseTick(n, Refused(n.lease.request.status));
      RunLeaseAppend(start, n.hist.leaseLog, k);
      assert m.hist.leaseLog == n.hist.leaseLog + [k] && m.stored == n.stored && m.cells == n.cells;
    }
  }

  lemma MidRefines(start: LeaseState, n: Node, e: Event)
    requires MovesLease(e) && !e.Fail? && !e.Answer?
    requires Enabled(n, e) && RefinesReconcile(start, n)
    ensures RefinesReconcile(start, Step(n, e))
  {
    assert Step(n, e).hist == n.hist;
  }

  lemma OthersRefine(start: LeaseState, n: Node, e: Event)
    requires !MovesLease(e) && !e.OthersDelete? && !e.OthersWrite?
    requires Enabled(n, e) && RefinesReconcile(start, n)
    ensures RefinesReconcile(start, Step(n, e))
  {
    var m := Step(n, e);
    assert m.lease == n.lease && m.stored == n.stored && m.anchor == n.anchor;
    assert m.hist.leaseLog == n.hist.leaseLog;
    assert m.cells.(signal := None) == n.cells.(signal := None);
  }

  /** In every interleaving with the other tasks, however time passes within ticks, the lease
      task does to the counters and to a lease that nobody else touches what the
      postcondition of LeaseReconciler.Reconcile says of whole ticks, whose first time is read
      as they start and whose second when they read a 404. */
  lemma {:induction false} LeaseTaskRefinesReconcile(n: Node, events: seq<Event>)
    requires Start(n) && Legal(n, events) && Undisturbed(events)
    ensures RefinesReconcile(LeaseState(n.cells, StoredTime(n)), After(n, events))
    ensures StampedWhenRead(n, events)
  {
    RunIsStampedWhenRead(n, events);
    if events != [] {
      var before, last := events[..|events| - 1], events[|events| - 1];
      var start := LeaseState(n.cells, StoredTime(n));
      LeaseTaskRefinesReconcile(n, before);
      if !MovesLease(last) {
        OthersRefine(start, After(n, before), last);
      } else if last.Fail? {
        FailureRefines(start, After(n, before));
      } else if last.Answer? {
        AnswerRefines(start, After(n, before));
      } else {
        MidRefines(start, After(n, before), last);
      }
    }
  }
}
