/** src/k8s/conditions.rs: condition trackers and the five evaluators. */
module Conditions {
  import opened MachineInts
  import opened Config

  datatype CondStatus = True | False | Unknown

  // ---- Trackers ------------------------------------------------------------------

  /** What a tracker holds: a status and the time of its last flip. */
  datatype Cond<S> = Cond(status: S, since: u64)

  function Observed<S(==)>(c: Cond<S>, current: S, now: u64): Cond<S> {
    if current != c.status then Cond(current, now) else c
  }

  /** CondState (with a bool) and CustomCondState (with a CondStatus). */
  class CondState<S(==)> {
    var status: S
    var transitionedAt: u64

    function Value(): Cond<S>
      reads this
    {
      Cond(status, transitionedAt)
    }

    constructor (initial: S, now: u64)
      ensures Value() == Cond(initial, now)
    {
      status := initial;
      transitionedAt := now;
    }

    method Observe(current: S, now: u64) returns (flipped: bool)
      modifies this
      ensures Value() == Observed(old(Value()), current, now)
      ensures flipped <==> current != old(status)
    {
      flipped := current != status;
      if flipped {
        status := current;
        transitionedAt := now;
      }
    }
  }

  /** An observation of a status at a time. */
  datatype Observation<S> = Observation(status: S, now: u64)

  function ObservedAll<S(==)>(c: Cond<S>, history: seq<Observation<S>>): Cond<S> {
    if history == [] then c
    else
      var last := history[|history| - 1];
      Observed(ObservedAll(c, history[..|history| - 1]), last.status, last.now)
  }

  /** The k-th status of a history, the initial one being number 0, and its time. */
  function StatusAt<S>(c: Cond<S>, history: seq<Observation<S>>, k: nat): S
    requires k <= |history|
  {
    if k == 0 then c.status else history[k - 1].status
  }

  function TimeAt<S>(c: Cond<S>, history: seq<Observation<S>>, k: nat): u64
    requires k <= |history|
  {
    if k == 0 then c.since else history[k - 1].now
  }

  /** k is where the longest constant suffix of the statuses begins. */
  predicate SuffixStart<S(==)>(c: Cond<S>, history: seq<Observation<S>>, k: nat)
    requires k <= |history|
  {
    && (forall i :: k <= i <= |history| ==> StatusAt(c, history, i) == StatusAt(c, history, |history|))
    && (k == 0 || StatusAt(c, history, k - 1) != StatusAt(c, history, k))
  }

  /** After any observations a tracker holds the last status and the time at which
      the longest constant suffix of statuses began; there is one such suffix. */
  lemma {:induction false} TransitionTimeMeaning<S>(c: Cond<S>, history: seq<Observation<S>>) returns (k: nat)
    ensures k <= |history| && SuffixStart(c, history, k)
    ensures ObservedAll(c, history) == Cond(StatusAt(c, history, |history|), TimeAt(c, history, k))
    ensures forall j: nat :: j <= |history| && SuffixStart(c, history, j) ==> j == k
  {
    var n := |history|;
    if n == 0 {
      k := 0;
    } else {
      var before := history[..n - 1];
      var k0 := TransitionTimeMeaning(c, before);
      assert forall i :: 0 <= i <= n - 1 ==> StatusAt(c, history, i) == StatusAt(c, before, i);
      k := if StatusAt(c, history, n) == StatusAt(c, history, n - 1) then k0 else n;
      forall j: nat | j <= n && SuffixStart(c, history, j)
        ensures j == k
      {
        SuffixStartUnique(c, history, j, k);
      }
    }
  }

  lemma SuffixStartUnique<S>(c: Cond<S>, history: seq<Observation<S>>, j: nat, k: nat)
    requires j <= |history| && SuffixStart(c, history, j)
    requires k <= |history| && SuffixStart(c, history, k)
    ensures j == k
  {
  }

  // ---- Evaluators ----------------------------------------------------------------

  datatype Inputs = Inputs(
    heapFreeBytes: nat, uptimeSecs: u64, wifiReconnects: u32, renewalCount: u32, bssidChanged: bool, timeSlipped: bool)

  /** The reasons of all conditions; a reason goes with one message, and one of the
      five evaluated conditions' with one status. */
  datatype Verdict =
    | Cursed | Off | Immaculate | Cromulent | Dissociating
    | FreshlyBrewed | Decaf
    | Transcendent | Accepting | Questioning | Innocent
    | Hungry | Sated | CouldGoForASnack
    | NewGhost | TimeSlip | Calm
    | KubeletReady | InsufficientMemory | SufficientMemory | NoDiskPressure | SufficientPid
  {
    /** The status that an evaluator returns with this reason. */
    function Status(): CondStatus {
      match this
      case Cursed | Off | Decaf | Innocent | Sated | Calm => False
      case Dissociating => Unknown
      case _ => True
    }

    function Reason(): string {
      match this
      case Cursed => "Cursed"
      case Off => "Off"
      case Immaculate => "Immaculate"
      case Cromulent => "Cromulent"
      case Dissociating => "Dissociating"
      case FreshlyBrewed => "FreshlyBrewed"
      case Decaf => "Decaf"
      case Transcendent => "Transcendent"
      case Accepting => "Accepting"
      case Questioning => "Questioning"
      case Innocent => "Innocent"
      case Hungry => "Hungry"
      case Sated => "Sated"
      case CouldGoForASnack => "CouldGoForASnack"
      case NewGhost => "NewGhost"
      case TimeSlip => "TimeSlipped"
      case Calm => "Calm"
      case KubeletReady => "KubeletReady"
      case InsufficientMemory => "KubeletHasInsufficientMemory"
      case SufficientMemory => "KubeletHasSufficientMemory"
      case NoDiskPressure => "KubeletHasNoDiskPressure"
      case SufficientPid => "KubeletHasSufficientPID"
    }

    function Message(): string {
      match this
      case Cursed => "wifi keeps doing the thing"
      case Off => "heap is hostile"
      case Immaculate => "freshly booted, heap abundant"
      case Cromulent => "perfectly cromulent"
      case Dissociating => "vibes indeterminate"
      case FreshlyBrewed => "fresh out of the bootloader"
      case Decaf => "running on fumes and conviction"
      case Transcendent => "the lease is the self"
      case Accepting => "this is fine, mostly"
      case Questioning => "is this all there is"
      case Innocent => "still believes in pods"
      case Hungry => "would eat a byte right now"
      case Sated => "heap is plenty"
      case CouldGoForASnack => "could go for a snack"
      case NewGhost => "associated to a different bssid"
      case TimeSlip => "wall clock disagrees with monotonic"
      case Calm => "no ghosts this interval"
      case _ => BuiltinMessage()
    }

    function BuiltinMessage(): string {
      match this
      case KubeletReady => "ESP32-S3 sips electrons but is here"
      case InsufficientMemory => "free heap below threshold"
      case SufficientMemory => "more than zero bytes free"
      case NoDiskPressure => "there is no disk"
      case _ => "PIDs are also lies"
    }
  }

  function HeapPctFree(i: Inputs): nat {
    Min(i.heapFreeBytes, HEAP_TOTAL_BYTES) * 100 / HEAP_TOTAL_BYTES
  }

  function EvalVibes(i: Inputs): Verdict {
    if i.wifiReconnects >= VIBES_CURSED_RECONNECTS then Cursed
    else
      var pct := HeapPctFree(i);
      if pct < 30 then Off
      else if pct > 70 && i.wifiReconnects == 0 && i.uptimeSecs < CAFFEINATED_FRESH_SECS then Immaculate
      else if pct > 50 && i.wifiReconnects == 0 then Cromulent
      else Dissociating
  }

  function EvalCaffeinated(i: Inputs): Verdict {
    if i.uptimeSecs < CAFFEINATED_FRESH_SECS then FreshlyBrewed else Decaf
  }

  function EvalExistential(i: Inputs): Verdict {
    if i.renewalCount >= 10_000 then Transcendent
    else if i.renewalCount >= 1_000 then Accepting
    else if i.renewalCount >= 100 then Questioning
    else Innocent
  }

  function EvalPeckish(i: Inputs): Verdict {
    if i.heapFreeBytes < MEMORY_PRESSURE_FREE_BYTES then Hungry
    else
      var pct := HeapPctFree(i);
      if pct > 60 then Sated else if pct > 40 then CouldGoForASnack else Hungry
  }

  function EvalHaunted(i: Inputs): Verdict {
    if i.bssidChanged then NewGhost else if i.timeSlipped then TimeSlip else Calm
  }

  /** Each status in the units of its input: on a heap of 100 KiB a percent is 1 KiB,
      so every percentage branch is a threshold in bytes. */
  lemma EvaluatorThresholds(i: Inputs)
    ensures EvalVibes(i).Status() == True <==> i.wifiReconnects == 0 && i.heapFreeBytes >= 51 * 1024
    ensures EvalVibes(i).Status() == False <==> i.wifiReconnects >= 3 || i.heapFreeBytes < 30 * 1024
    ensures EvalPeckish(i).Status() == (if i.heapFreeBytes >= 61 * 1024 then False else True)
    ensures EvalExistential(i).Status() == (if i.renewalCount >= 100 then True else False)
    ensures EvalCaffeinated(i).Status() == (if i.uptimeSecs < 600 then True else False)
    ensures EvalHaunted(i).Status() == (if i.bssidChanged || i.timeSlipped then True else False)
  {
    HeapInKib(i);
  }

  lemma HeapInKib(i: Inputs)
    ensures HeapPctFree(i) == Min(i.heapFreeBytes, 100 * 1024) / 1024
  {
  }

  /** And each of the reasons that can be given. */
  lemma ReasonThresholds(i: Inputs)
    ensures EvalVibes(i) ==
      if i.wifiReconnects >= 3 then Cursed
      else if i.heapFreeBytes < 30 * 1024 then Off
      else if i.wifiReconnects > 0 || i.heapFreeBytes < 51 * 1024 then Dissociating
      else if i.heapFreeBytes >= 71 * 1024 && i.uptimeSecs < 600 then Immaculate
      else Cromulent
    ensures EvalPeckish(i) ==
      if i.heapFreeBytes < 41 * 1024 then Hungry else if i.heapFreeBytes < 61 * 1024 then CouldGoForASnack else Sated
    ensures EvalExistential(i) ==
      if i.renewalCount < 100 then Innocent
      else if i.renewalCount < 1_000 then Questioning
      else if i.renewalCount < 10_000 then Accepting
      else Transcendent
    ensures EvalCaffeinated(i) == if i.uptimeSecs < 600 then FreshlyBrewed else Decaf
    ensures EvalHaunted(i) == if i.bssidChanged then NewGhost else if i.timeSlipped then TimeSlip else Calm
  {
    HeapInKib(i);
  }

  /** The conditions that read one heap agree: memory pressure, below 20 KiB, makes Peckish
      hungry and rules out good vibes, good vibes rule out hunger, and a sated node without
      reconnects has good vibes. */
  lemma EvaluatorsAgree(i: Inputs)
    ensures i.heapFreeBytes < 20 * 1024 ==> EvalPeckish(i) == Hungry && EvalVibes(i).Status() == False
    ensures EvalVibes(i).Status() == True ==> EvalPeckish(i) != Hungry
    ensures EvalPeckish(i) == Sated && i.wifiReconnects == 0 ==> EvalVibes(i).Status() == True
  {
    EvaluatorThresholds(i);
    ReasonThresholds(i);
  }
}
