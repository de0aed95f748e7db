/** What an API server makes of a status body: it reads the text and merges the conditions
    by their type, as the comment at src/k8s/models.rs:128 says. */
module StatusPatch {
  import opened Wrappers
  import opened MachineInts
  import opened WallClock
  import opened Conditions
  import opened StatusModel
  import opened Models

  // ---- Merging row by row ---------------------------------------------------------------

  /** The rows of a body, merged one after the other by their type. */
  function MergeStated(stored: Conds, stated: seq<Stated>, heartbeat: u64): Conds {
    if stated == [] then stored
    else
      var last := stated[|stated| - 1];
      MergeStated(stored, stated[..|stated| - 1], heartbeat)
        [last.kind := Row(last.status, last.verdict, heartbeat, last.since)]
  }

  /** Of rows with different types, each is stored. */
  lemma {:induction false} MergedRow(stored: Conds, stated: seq<Stated>, heartbeat: u64, n: nat)
    requires n < |stated| && forall k :: n < k < |stated| ==> stated[k].kind != stated[n].kind
    ensures var merged := MergeStated(stored, stated, heartbeat);
            && stated[n].kind in merged
            && merged[stated[n].kind] == Row(stated[n].status, stated[n].verdict, heartbeat, stated[n].since)
  {
    if n < |stated| - 1 {
      MergedRow(stored, stated[..|stated| - 1], heartbeat, n);
    }
  }

  /** The nine conditions in the order of the body. */
  const BODY_ORDER: seq<CondType> :=
    [Ready, MemoryPressure, DiskPressure, PIDPressure, Vibes, Caffeinated, Existential, Peckish, Haunted]

  function BodyIndex(t: CondType): (n: nat)
    ensures n < 9 && BODY_ORDER[n] == t
  {
    match t
    case Ready => 0
    case MemoryPressure => 1
    case DiskPressure => 2
    case PIDPressure => 3
    case Vibes => 4
    case Caffeinated => 5
    case Existential => 6
    case Peckish => 7
    case Haunted => 8
  }

  lemma StatedInOrder(tr: Trackers, i: Inputs, heartbeat: u64, k: nat)
    requires k < 9
    ensures var all := BuiltinStated(tr) + CustomStated(tr, i);
            var row := RowOf(tr, i, heartbeat, BODY_ORDER[k]);
            |all| == 9 && all[k] == Stated(BODY_ORDER[k], row.status, row.verdict, row.transition)
    ensures BodyIndex(BODY_ORDER[k]) == k
  {
  }

  /** Merging the nine rows of a body one by one is the merge of the whole body. */
  lemma MergeStatedIsMerge(stored: Conds, tr: Trackers, i: Inputs, heartbeat: u64)
    ensures MergeStated(stored, BuiltinStated(tr) + CustomStated(tr, i), heartbeat) == Merge(stored, Rows(tr, i, heartbeat))
  {
    var all := BuiltinStated(tr) + CustomStated(tr, i);
    var merged := MergeStated(stored, all, heartbeat);
    forall t: CondType
      ensures t in merged && t in Rows(tr, i, heartbeat) && merged[t] == RowOf(tr, i, heartbeat, t)
    {
      EveryType(t);
      var n := BodyIndex(t);
      StatedInOrder(tr, i, heartbeat, n);
      forall k | n < k < 9
        ensures all[k].kind != all[n].kind
      {
        StatedInOrder(tr, i, heartbeat, k);
      }
      MergedRow(stored, all, heartbeat, n);
    }
  }

  // ---- Reading a row ----------------------------------------------------------------------

  function TypeNamed(name: string): Option<CondType> {
    match name
    case "Ready" => Some(Ready)
    case "MemoryPressure" => Some(MemoryPressure)
    case "DiskPressure" => Some(DiskPressure)
    case "PIDPressure" => Some(PIDPressure)
    case "Vibes" => Some(Vibes)
    case "Caffeinated" => Some(Caffeinated)
    case "Existential" => Some(Existential)
    case "Peckish" => Some(Peckish)
    case "Haunted" => Some(Haunted)
    case _ => None
  }

  function StatusNamed(name: string): Option<CondStatus> {
    if name == "True" then Some(True)
    else if name == "False" then Some(False)
    else if name == "Unknown" then Some(Unknown)
    else None
  }

  function Understood(message: string, expected: string, v: Verdict): Option<Verdict> {
    if message == expected then Some(v) else None
  }

  /** Each reason goes with one message. */
  function VerdictStated(reason: string, message: string): Option<Verdict> {
    match reason
    case "Cursed" => Understood(message, "wifi keeps doing the thing", Cursed)
    case "Off" => Understood(message, "heap is hostile", Off)
    case "Immaculate" => Understood(message, "freshly booted, heap abundant", Immaculate)
    case "Cromulent" => Understood(message, "perfectly cromulent", Cromulent)
    case "Dissociating" => Understood(message, "vibes indeterminate", Dissociating)
    case "FreshlyBrewed" => Understood(message, "fresh out of the bootloader", FreshlyBrewed)
    case "Decaf" => Understood(message, "running on fumes and conviction", Decaf)
    case "Transcendent" => Understood(message, "the lease is the self", Transcendent)
    case "Accepting" => Understood(message, "this is fine, mostly", Accepting)
    case "Questioning" => Understood(message, "is this all there is", Questioning)
    case "Innocent" => Understood(message, "still believes in pods", Innocent)
    case "Hungry" => Understood(message, "would eat a byte right now", Hungry)
    case "Sated" => Understood(message, "heap is plenty", Sated)
    case "CouldGoForASnack" => Understood(message, "could go for a snack", CouldGoForASnack)
    case "NewGhost" => Understood(message, "associated to a different bssid", NewGhost)
    case "TimeSlipped" => Understood(message, "wall clock disagrees with monotonic", TimeSlip)
    case "Calm" => Understood(message, "no ghosts this interval", Calm)
    case "KubeletReady" => Understood(message, "ESP32-S3 sips electrons but is here", KubeletReady)
    case "KubeletHasInsufficientMemory" => Understood(message, "free heap below threshold", InsufficientMemory)
    case "KubeletHasSufficientMemory" => Understood(message, "more than zero bytes free", SufficientMemory)
    case "KubeletHasNoDiskPressure" => Understood(message, "there is no disk", NoDiskPressure)
    case "KubeletHasSufficientPID" => Understood(message, "PIDs are also lies", SufficientPid)
    case _ => None
  }

  function RowRead(r: TextRow): Option<(CondType, Row)> {
    var kind :- TypeNamed(r.name);
    var status :- StatusNamed(r.status);
    var verdict :- VerdictStated(r.reason, r.message);
    var heartbeat :- TimeRead(r.heartbeat);
    var transition :- TimeRead(r.transition);
    Some((kind, Row(status, verdict, heartbeat, transition)))
  }

  function MergeRows(stored: Conds, rows: seq<TextRow>): Option<Conds> {
    if rows == [] then Some(stored)
    else
      var before :- MergeRows(stored, rows[..|rows| - 1]);
      var row :- RowRead(rows[|rows| - 1]);
      Some(before[row.0 := row.1])
  }

  /** A strategic merge PATCH with this body; None if any of it is not understood. */
  function MergeText(stored: Conds, body: string): Option<Conds> {
    var rows :- ReadBody(body);
    MergeRows(stored, rows)
  }

  // ---- What is written reads back -----------------------------------------------------------

  lemma TypeReadsBack(t: CondType)
    ensures TypeNamed(CondName(t)) == Some(t)
  {
  }

  lemma VerdictReadsBack(v: Verdict)
    ensures VerdictStated(v.Reason(), v.Message()) == Some(v)
  {
    match v
    case Cursed => case Off => case Immaculate => case Cromulent => case Dissociating => case FreshlyBrewed =>
    case Decaf => case Transcendent => case Accepting => case Questioning => case Innocent => case Hungry =>
    case Sated => case CouldGoForASnack => case NewGhost => case TimeSlip => case Calm => case KubeletReady =>
    case InsufficientMemory => case SufficientMemory => case NoDiskPressure => case SufficientPid =>
  }

  lemma StatusReadsBack(s: CondStatus)
    ensures StatusNamed(StatusText(s)) == Some(s)
  {
  }

  /** The stamp can be read back up to the year 9999. */
  ghost predicate Readable(stamp: Stamp) {
    forall u: u64 :: u <= LAST_FOUR_DIGIT_SECOND ==> TimeRead(stamp(u)) == Some(u)
  }

  lemma Rfc3339IsReadable(stamp: Stamp)
    requires PrintsRfc3339(stamp)
    ensures Readable(stamp)
  {
    forall u: u64 | u <= LAST_FOUR_DIGIT_SECOND
      ensures TimeRead(stamp(u)) == Some(u)
    {
      TimeReadsBack(u);
    }
  }

  lemma RowReadsBack(c: Stated, heartbeat: u64, stamp: Stamp)
    requires Readable(stamp) && heartbeat <= LAST_FOUR_DIGIT_SECOND && c.since <= LAST_FOUR_DIGIT_SECOND
    ensures RowRead(EntryRow(EntryOf(c), heartbeat, stamp)) == Some((c.kind, Row(c.status, c.verdict, heartbeat, c.since)))
  {
    TypeReadsBack(c.kind);
    StatusReadsBack(c.status);
    VerdictReadsBack(c.verdict);
  }

  /** Each row reads as the condition stated at its place. */
  ghost predicate RowsSay(rows: seq<TextRow>, stated: seq<Stated>, heartbeat: u64) {
    && |rows| == |stated|
    && forall k :: 0 <= k < |rows| ==>
         RowRead(rows[k]) == Some((stated[k].kind, Row(stated[k].status, stated[k].verdict, heartbeat, stated[k].since)))
  }

  lemma {:induction false} SaidRowsMerge(stored: Conds, rows: seq<TextRow>, stated: seq<Stated>, heartbeat: u64)
    requires RowsSay(rows, stated, heartbeat)
    ensures MergeRows(stored, rows) == Some(MergeStated(stored, stated, heartbeat))
  {
    if rows != [] {
      SaidRowsMerge(stored, rows[..|rows| - 1], stated[..|stated| - 1], heartbeat);
    }
  }

  lemma RowsMerge(stored: Conds, stated: seq<Stated>, heartbeat: u64, stamp: Stamp)
    requires Readable(stamp) && heartbeat <= LAST_FOUR_DIGIT_SECOND
    requires forall k :: 0 <= k < |stated| ==> stated[k].since <= LAST_FOUR_DIGIT_SECOND
    ensures MergeRows(stored, EntryRows(Entries(stated), heartbeat, stamp)) == Some(MergeStated(stored, stated, heartbeat))
  {
    var rows := EntryRows(Entries(stated), heartbeat, stamp);
    forall k | 0 <= k < |rows|
      ensures RowRead(rows[k]) == Some((stated[k].kind, Row(stated[k].status, stated[k].verdict, heartbeat, stated[k].since)))
    {
      assert rows[k] == EntryRow(EntryOf(stated[k]), heartbeat, stamp);
      RowReadsBack(stated[k], heartbeat, stamp);
    }
    SaidRowsMerge(stored, rows, stated, heartbeat);
  }

  ghost predicate FourDigitTimes(tr: Trackers, heartbeat: u64) {
    heartbeat <= LAST_FOUR_DIGIT_SECOND && forall t :: Get(tr, t).since <= LAST_FOUR_DIGIT_SECOND
  }

  /** Up to the year 9999: a server that reads the text of a tick's body and merges what it
      finds stores exactly the nine rows of the tick, and keeps every other condition. */
  lemma TextMerges(stored: Conds, tr: Trackers, i: Inputs, heartbeat: u64, stamp: Stamp)
    requires PrintsRfc3339(stamp) && FourDigitTimes(tr, heartbeat)
    ensures MergeText(stored, BodyText(PatchRows(tr, TickEntries(tr, i), heartbeat, stamp)))
         == Some(Merge(stored, Rows(tr, i, heartbeat)))
  {
    var all := BuiltinStated(tr) + CustomStated(tr, i);
    TickBodyReadsBack(tr, i, heartbeat, stamp);
    EntriesParts(BuiltinStated(tr), CustomStated(tr, i));
    RowsParts(BuiltinEntries(tr), TickEntries(tr, i), heartbeat, stamp);
    Rfc3339IsReadable(stamp);
    forall k | 0 <= k < |all|
      ensures all[k].since <= LAST_FOUR_DIGIT_SECOND
    {
      StatedInOrder(tr, i, heartbeat, k);
      assert all[k].since == Get(tr, BODY_ORDER[k]).since;
    }
    RowsMerge(stored, all, heartbeat, stamp);
    MergeStatedIsMerge(stored, tr, i, heartbeat);
  }
}
