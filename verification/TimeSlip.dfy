/** When the Haunted detector of src/reconcilers/status.rs fires: never while the
    wall clock keeps one anchor, always when it has been moved far enough. */
module TimeSlip {
  import opened MachineInts
  import opened Conditions
  import opened StatusModel
  import opened WallClock

  /** The largest gap between a tick's two clock reads that one anchor tolerates. */
  const MAX_SKEW_MS: nat := 4001

  /** The instant at which the wall part of a snapshot was read. */
  function SnapshotMs(createdMs: u64, ticks: seq<Tick>, j: int): u64
    requires -1 <= j < |ticks|
  {
    if j == -1 then createdMs else ticks[j].sample.wallMs
  }

  /** A wall clock reading and a monotonic one, taken wallMs and at most skew later. */
  predicate ReadPair(a: Anchor, skew: nat, wallMs: u64, unix: u64, monoMs: u64) {
    unix == UnixNow(a, wallMs) && wallMs <= monoMs <= wallMs + skew
  }

  /** The anchor was set before this instant and the clock is in range at it. */
  predicate Ticking(a: Anchor, ms: u64) {
    0 < a.unix && a.bootMs <= ms && a.unix + ms / 1000 < 0x4000_0000_0000_0000
  }

  // ---- Two snapshots --------------------------------------------------------------

  /** Two readings of one clock: the floor divisions never drift apart. */
  lemma OneAnchorDelta(a: Anchor, pw: u64, pm: u64, tw: u64, tm: u64)
    requires a.bootMs <= pw <= pm <= pw + MAX_SKEW_MS && pw <= tw <= tm <= tw + MAX_SKEW_MS && pm <= tm
    ensures -5 <= ((tw - a.bootMs) / 1000 - (pw - a.bootMs) / 1000) - (tm - pm) / 1000 <= 5
  {
    var u, v := (pw - a.bootMs) / 1000, (pw - a.bootMs) % 1000;
    var q, r := (tw - a.bootMs) / 1000, (tw - a.bootMs) % 1000;
    assert tm - pm == 1000 * (q - u) + (r - v) + (tm - tw) - (pm - pw);
  }

  lemma SlipArithmetic(w: Window, s: Sample)
    requires w.unix < 0x4000_0000_0000_0000 && s.now < 0x4000_0000_0000_0000 && w.monoMs <= s.nowMs
    ensures TimeSlipped(w, s) <==> Abs((s.now - w.unix) - (s.nowMs - w.monoMs) / 1000) > 5
  {
  }

  lemma OneAnchorPair(a: Anchor, wallMs: u64, w: Window, s: Sample)
    requires ReadPair(a, MAX_SKEW_MS, wallMs, w.unix, w.monoMs) && ReadPair(a, MAX_SKEW_MS, s.wallMs, s.now, s.nowMs)
    requires Ticking(a, wallMs) && Ticking(a, s.wallMs) && w.monoMs <= s.wallMs
    ensures !TimeSlipped(w, s)
  {
    OneAnchorDelta(a, wallMs, w.monoMs, s.wallMs, s.nowMs);
    SlipArithmetic(w, s);
  }

  // ---- Runs with one anchor ----------------------------------------------------------

  /** The clock was anchored once, before the reconciler was created at createdMs, and
      all reads of the run follow each other. */
  predicate OneAnchorRun(a: Anchor, st: StatusState, createdMs: u64, ticks: seq<Tick>, s: Sample) {
    && Ticking(a, createdMs)
    && ReadPair(a, MAX_SKEW_MS, createdMs, st.recon.window.unix, st.recon.window.monoMs)
    && st.recon.window.monoMs <= s.wallMs
    && (forall i :: 0 <= i < |ticks| ==>
          && Ticking(a, ticks[i].sample.wallMs)
          && ReadPair(a, MAX_SKEW_MS, ticks[i].sample.wallMs, ticks[i].sample.now, ticks[i].sample.nowMs)
          && ticks[i].sample.nowMs <= s.wallMs)
    && Ticking(a, s.wallMs)
    && ReadPair(a, MAX_SKEW_MS, s.wallMs, s.now, s.nowMs)
  }

  /** With one anchor no tick of any run sees a time slip, however long ago its
      snapshots were taken. */
  lemma OneAnchorNeverSlips(a: Anchor, st: StatusState, createdMs: u64, ticks: seq<Tick>, s: Sample)
    requires OneAnchorRun(a, st, createdMs, ticks, s)
    ensures !TimeSlipped(Run(st, ticks).recon.window, s)
  {
    var j := LastFullPush(st, ticks);
    WindowFromLastFullPush(st, ticks);
    OneAnchorPair(a, SnapshotMs(createdMs, ticks, j), SnapshotAt(st, ticks, j), s);
  }

  /** One millisecond more between the reads is too much, here for a tick that comes more
      than ten seconds after its snapshots. */
  lemma SkewBoundIsTight(a: Anchor, w: Window, s: Sample)
    requires a == Anchor(1, 0) && s.wallMs == s.nowMs == 16_000 && s.now == UnixNow(a, 16_000)
    requires w.unix == UnixNow(a, 999) && w.monoMs == 999 + MAX_SKEW_MS + 1
    ensures ReadPair(a, MAX_SKEW_MS + 1, 999, w.unix, w.monoMs) && ReadPair(a, MAX_SKEW_MS, 16_000, s.now, s.nowMs)
    ensures TimeSlipped(w, s)
  {
    SlipArithmetic(w, s);
  }

  /** A clock that was never anchored stands still, and six seconds of that are a slip. */
  lemma NeverAnchoredSlips(w: Window, s: Sample)
    requires w.unix == s.now == UnixNow(NEVER_ANCHORED, s.wallMs) && w.monoMs <= s.nowMs
    requires s.nowMs < 0x4000_0000_0000_0000
    ensures TimeSlipped(w, s) <==> s.nowMs - w.monoMs >= 6000
  {
    SlipArithmetic(w, s);
  }

  // ---- Re-anchoring -------------------------------------------------------------------

  /** How far setting the clock moves it. */
  function Jump(before: Anchor, after: Anchor): int {
    after.unix - UnixNow(before, after.bootMs)
  }

  /** The clock was moved once between the reads of the snapshots, the first at pw, and
      those of the tick; the reads of each pair are at most skew apart. */
  predicate Moved(before: Anchor, after: Anchor, skew: nat, pw: u64, w: Window, s: Sample) {
    && Ticking(before, pw) && ReadPair(before, skew, pw, w.unix, w.monoMs)
    && pw <= after.bootMs && w.monoMs <= s.nowMs
    && Ticking(before, after.bootMs) && Ticking(after, s.wallMs) && ReadPair(after, skew, s.wallMs, s.now, s.nowMs)
  }

  /** By how many milliseconds the monotonic delta exceeds the whole seconds that the two
      wall clocks counted: what the three floor divisions drop, and the two skews. */
  function Dropped(before: Anchor, after: Anchor, pw: u64, w: Window, s: Sample): int
    requires before.bootMs <= pw && before.bootMs <= after.bootMs <= s.wallMs
  {
    (after.bootMs - before.bootMs) % 1000 + (s.wallMs - after.bootMs) % 1000 - (pw - before.bootMs) % 1000
    + (s.nowMs - s.wallMs) - (w.monoMs - pw)
  }

  lemma WholeSeconds(x: int, y: int, rest: int)
    requires x == 1000 * y + rest
    ensures x / 1000 == y + rest / 1000
  {
  }

  /** Exactly when a moved clock is noticed, for any move and any skew. */
  lemma MovedClockSlips(before: Anchor, after: Anchor, skew: nat, pw: u64, w: Window, s: Sample)
    requires Moved(before, after, skew, pw, w, s)
    ensures TimeSlipped(w, s) <==> Abs(Jump(before, after) - Dropped(before, after, pw, w, s) / 1000) > 5
  {
    var u, x, q := (pw - before.bootMs) / 1000, (after.bootMs - before.bootMs) / 1000, (s.wallMs - after.bootMs) / 1000;
    var dropped := Dropped(before, after, pw, w, s);
    assert s.nowMs - w.monoMs == 1000 * (x + q - u) + dropped;
    WholeSeconds(s.nowMs - w.monoMs, x + q - u, dropped);
    SlipArithmetic(w, s);
    assert s.now - w.unix == Jump(before, after) + (x + q - u);
  }

  lemma DroppedBounds(before: Anchor, after: Anchor, pw: u64, w: Window, s: Sample)
    requires Moved(before, after, 1000, pw, w, s)
    ensures -2 <= Dropped(before, after, pw, w, s) / 1000 <= 2
  {
  }

  /** A move by at least 8 s is noticed by every tick, one by at most 3 s by none. */
  lemma MoveDecides(before: Anchor, after: Anchor, pw: u64, w: Window, s: Sample)
    requires Moved(before, after, 1000, pw, w, s)
    ensures Abs(Jump(before, after)) >= 8 ==> TimeSlipped(w, s)
    ensures Abs(Jump(before, after)) <= 3 ==> !TimeSlipped(w, s)
  {
    MovedClockSlips(before, after, 1000, pw, w, s);
    DroppedBounds(before, after, pw, w, s);
  }

  /** Reads at most 1 s apart, of a tick ten seconds or more after its snapshots, around a
      move by j seconds. */
  datatype Scene = Scene(before: Anchor, after: Anchor, pw: u64, w: Window, s: Sample) {
    predicate Moves(j: int) {
      Moved(before, after, 1000, pw, w, s) && Jump(before, after) == j && w.monoMs + 10_000 <= s.wallMs
    }

    predicate Slips() {
      TimeSlipped(w, s)
    }
  }

  /** One scene in which the divisions drop two seconds of the wall clocks, and one in which
      they drop two of the monotonic clock; adjacent reads are at most 2 ms apart. */
  function Slow(j: int): Scene
    requires -100 <= j <= 100
  {
    Scene(Anchor(1000, 0), Anchor(1010 + j, 10_999), 0, Window(0, 0, 1000, 0),
          Sample(11_998, 1010 + j, 12_000, 0, 0, 0, 12, 0))
  }

  function Fast(j: int): Scene
    requires -100 <= j <= 100
  {
    Scene(Anchor(1000, 0), Anchor(1011 + j, 11_000), 999, Window(0, 0, 1000, 1001),
          Sample(12_000, 1012 + j, 12_000, 0, 0, 0, 12, 0))
  }

  lemma SlowAndFast(j: int)
    requires -100 <= j <= 100
    ensures Slow(j).Moves(j) && (Slow(j).Slips() <==> Abs(j - 2) > 5)
    ensures Fast(j).Moves(j) && (Fast(j).Slips() <==> Abs(j + 2) > 5)
  {
    SlipArithmetic(Slow(j).w, Slow(j).s);
    SlipArithmetic(Fast(j).w, Fast(j).s);
  }

  /** A move by j seconds is noticed whatever the instants of the reads if and only if j is
      at least 8 either way; between 4 and 7 it can be noticed and can be missed. */
  lemma AlwaysNoticed(j: int)
    ensures (forall x: Scene :: x.Moves(j) ==> x.Slips()) <==> Abs(j) >= 8
  {
    if Abs(j) >= 8 {
      forall x: Scene | x.Moves(j)
        ensures x.Slips()
      {
        MoveDecides(x.before, x.after, x.pw, x.w, x.s);
      }
    } else {
      SlowAndFast(j);
      assert if j >= 0 then Slow(j).Moves(j) && !Slow(j).Slips() else Fast(j).Moves(j) && !Fast(j).Slips();
    }
  }

  /** Of the moves that can happen at all, those by at most 3 s, and no others, are never
      taken for a slip. */
  lemma NeverNoticed(j: int)
    requires exists x: Scene :: x.Moves(j)
    ensures (forall x: Scene :: x.Moves(j) ==> !x.Slips()) <==> Abs(j) <= 3
  {
    if Abs(j) <= 3 {
      forall x: Scene | x.Moves(j)
        ensures !x.Slips()
      {
        MoveDecides(x.before, x.after, x.pw, x.w, x.s);
      }
    } else if Abs(j) >= 8 {
      var x: Scene :| x.Moves(j);
      MoveDecides(x.before, x.after, x.pw, x.w, x.s);
      assert x.Slips();
    } else {
      SlowAndFast(j);
      assert if j >= 0 then Fast(j).Moves(j) && Fast(j).Slips() else Slow(j).Moves(j) && Slow(j).Slips();
    }
  }

  /** The scene of a run: its snapshots are those of the last full push, or of the creation. */
  predicate MovedInRun(before: Anchor, after: Anchor, st: StatusState, createdMs: u64, ticks: seq<Tick>, s: Sample) {
    var j := LastFullPush(st, ticks);
    Moved(before, after, 1000, SnapshotMs(createdMs, ticks, j), SnapshotAt(st, ticks, j), s)
  }

  /** One re-anchoring since the snapshots, by at least 8 s either way, is noticed by the next
      tick, so that Haunted is True; one by at most 3 s is not. */
  lemma ReanchoringIsNoticed(
    before: Anchor, after: Anchor, st: StatusState, createdMs: u64, ticks: seq<Tick>, s: Sample)
    requires MovedInRun(before, after, st, createdMs, ticks, s)
    ensures Abs(Jump(before, after)) >= 8 ==>
              TimeSlipped(Run(st, ticks).recon.window, s) && Evaluated(Run(st, ticks).recon, s, Haunted) == True
    ensures Abs(Jump(before, after)) <= 3 ==> !TimeSlipped(Run(st, ticks).recon.window, s)
  {
    WindowFromLastFullPush(st, ticks);
    var j := LastFullPush(st, ticks);
    MoveDecides(before, after, SnapshotMs(createdMs, ticks, j), SnapshotAt(st, ticks, j), s);
    if TimeSlipped(Run(st, ticks).recon.window, s) {
      SlippedIsHaunted(Run(st, ticks).recon, s);
    }
  }

  lemma SlippedIsHaunted(r: Recon, s: Sample)
    requires TimeSlipped(r.window, s)
    ensures Evaluated(r, s, Haunted) == True
  {
  }
}
