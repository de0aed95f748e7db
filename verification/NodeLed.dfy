/** What every interleaving keeps of the LED signal. */
module NodeLed {
  import opened Wrappers
  import opened Led
  import opened Node

  /** The current iteration of led_task began less than ten seconds ago. */
  predicate LedPrompt(n: Node) {
    n.ms < n.led.iterationStart + 10_000
  }

  predicate AlwaysPrompt(n: Node, events: seq<Event>)
    requires Legal(n, events)
  {
    LedPrompt(After(n, events)) && (events == [] || AlwaysPrompt(n, events[..|events| - 1]))
  }

  // ---- The signal ---------------------------------------------------------------------------

  /** Healthy has been signalled once if there was a renewal, and not otherwise. */
  predicate HealthyOnce(n: Node) {
    && n.cells.healthy == (n.hist.renewed > 0)
    && n.hist.healthySignals == (if n.hist.renewed > 0 then 1 else 0)
  }

  lemma StepHealthyOnce(n: Node, e: Event)
    requires Enabled(n, e) && HealthyOnce(n)
    ensures HealthyOnce(Step(n, e))
    ensures Step(n, e).hist.healthySignals > n.hist.healthySignals <==>
              e == Answer(LeaseTask) && n.lease.Renewing? && n.lease.request == Replied(200) && n.hist.renewed == 0
  {
  }

  /** Without any assumption on the LED: Healthy is signalled exactly once, by the first
      HTTP 200, and never by a creation. */
  lemma {:induction false} HealthySignalledOnce(n: Node, events: seq<Event>)
    requires Start(n) && Legal(n, events)
    ensures HealthyOnce(After(n, events))
  {
    if events != [] {
      HealthySignalledOnce(n, events[..|events| - 1]);
      StepHealthyOnce(After(n, events[..|events| - 1]), events[|events| - 1]);
    }
  }

  /** An unread signal is younger than the LED's iteration, and the next one is at least
      ten seconds younger still. */
  predicate SignalInTime(n: Node) {
    && n.hist.overwritten == 0
    && (n.cells.signal.Some? ==> n.led.iterationStart <= n.hist.signalledAt)
    && n.hist.signalledAt <= n.ms && n.led.iterationStart <= n.ms
    && (if n.lease.Sleeping? then n.hist.signalledAt + 10_000 <= n.lease.until
        else n.hist.signalledAt + 10_000 <= n.lease.start <= n.ms)
  }

  lemma StepSignalInTime(n: Node, e: Event)
    requires Enabled(n, e) && SignalInTime(n) && LedPrompt(n)
    ensures SignalInTime(Step(n, e))
  {
  }

  /** The steady pattern is Healthy, with at most an unread flash before it is seen again. */
  predicate SteadyHealthy(n: Node) {
    n.led.steady == Healthy && (n.cells.signal == None || n.cells.signal == Some(Activity))
  }

  /** From the first renewal on Healthy is either waiting unread or steady. */
  predicate HealthyShown(n: Node) {
    n.hist.renewed > 0 ==> n.cells.healthy && (n.cells.signal == Some(Healthy) || SteadyHealthy(n))
  }

  lemma StepHealthyShown(n: Node, e: Event)
    requires Enabled(n, e) && HealthyOnce(n) && HealthyShown(n) && SignalInTime(n) && LedPrompt(n)
    ensures HealthyShown(Step(n, e))
  {
  }

  /** Lease ticks are ten seconds apart and LED iterations shorter than that, so that no
      signal is overwritten unread and the Healthy one becomes the steady pattern. */
  lemma {:induction false} NoSignalIsLost(n: Node, events: seq<Event>)
    requires Start(n) && Legal(n, events) && AlwaysPrompt(n, events)
    ensures SignalInTime(After(n, events)) && HealthyShown(After(n, events))
  {
    if events != [] {
      var before, last := events[..|events| - 1], events[|events| - 1];
      NoSignalIsLost(n, before);
      HealthySignalledOnce(n, before);
      StepSignalInTime(After(n, before), last);
      StepHealthyShown(After(n, before), last);
    }
  }

  /** Ten seconds after a renewal at the latest the LED has taken its signal: the steady
      pattern is Healthy from then on. */
  lemma HealthyStaysSteady(n: Node, events: seq<Event>)
    requires Start(n) && Legal(n, events) && AlwaysPrompt(n, events)
    requires var m := After(n, events); m.hist.renewed > 0 && m.hist.signalledAt + 10_000 <= m.ms
    ensures SteadyHealthy(After(n, events)) && After(n, events).cells.signal == None
  {
    NoSignalIsLost(n, events);
  }

  /** Once steady, Healthy stays, however slow the LED is. */
  lemma {:induction false} SteadyForTheRest(n: Node, events: seq<Event>, more: seq<Event>)
    requires Start(n) && Legal(n, events) && Legal(n, events + more)
    requires After(n, events).hist.renewed > 0 && SteadyHealthy(After(n, events))
    ensures SteadyHealthy(After(n, events + more)) && After(n, events + more).hist.renewed > 0
  {
    if more == [] {
      assert events + more == events;
    } else {
      var shorter := more[..|more| - 1];
      assert (events + more)[..|events + more| - 1] == events + shorter;
      SteadyForTheRest(n, events, shorter);
      HealthySignalledOnce(n, events + shorter);
      StepSteady(After(n, events + shorter), more[|more| - 1]);
    }
  }

  lemma StepSteady(n: Node, e: Event)
    requires Enabled(n, e) && HealthyOnce(n) && n.hist.renewed > 0 && SteadyHealthy(n)
    ensures SteadyHealthy(Step(n, e)) && Step(n, e).hist.renewed > 0
  {
  }

  // ---- Frames -------------------------------------------------------------------------------

  predicate FrameTimed(n: Node) {
    n.led.phase.Waiting? ==> n.led.phase.frameAt == n.led.iterationStart + 33
  }

  /** In every run: while led_task waits, it goes on exactly if a signal is unread or its
      iteration began 33 ms or more ago. */
  lemma {:induction false} FramesOnTime(n: Node, events: seq<Event>)
    requires FrameTimed(n) && Legal(n, events)
    ensures var m := After(n, events);
            && FrameTimed(m)
            && (m.led.phase.Waiting? ==> (Enabled(m, LedWake) <==> m.cells.signal.Some? || m.led.iterationStart + 33 <= m.ms))
  {
    if events != [] {
      FramesOnTime(n, events[..|events| - 1]);
    }
  }
}
