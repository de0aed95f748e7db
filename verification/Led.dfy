/** src/led.rs: the steady pattern and its rendering, the breathing curve, and the
    WS2812 framing. */
module Led {
  import opened MachineInts

  const LED_BRIGHTNESS_CAP: u8 := 38

  datatype LedPattern = SelfTest | Booting | Connecting | Healthy | Activity | Warning | Disconnected | Panic

  datatype Color = Color(r: u8, g: u8, b: u8) {
    predicate Capped() {
      r <= 38 && g <= 38 && b <= 38
    }
  }

  const OFF := Color(0, 0, 0)
  const RED := Color(LED_BRIGHTNESS_CAP, 0, 0)
  const GREEN := Color(0, LED_BRIGHTNESS_CAP, 0)
  const BLUE := Color(0, 0, LED_BRIGHTNESS_CAP)
  const WHITE := Color(LED_BRIGHTNESS_CAP, LED_BRIGHTNESS_CAP, LED_BRIGHTNESS_CAP)
  const YELLOW := Color(LED_BRIGHTNESS_CAP, LED_BRIGHTNESS_CAP, 0)

  // ---- Breathing --------------------------------------------------------------------

  function SaturatingMul(a: u32, b: u32): u32 {
    Min(a * b, 0xFFFF_FFFF)
  }

  function Quotient(a: nat, b: nat): nat
    requires b > 0
  {
    a / b
  }

  /** The triangle wave on 0..255; a period whose half is 0 in 32 bits divides by zero. */
  function Triangle(elapsedMs: u64, periodMs: u64): (n: nat)
    requires periodMs > 0 && WrapU32(periodMs / 2) != 0
    ensures n <= 255
  {
    var t := WrapU32(elapsedMs % periodMs);
    var half := WrapU32(periodMs / 2);
    var tri := if t < half then t else SaturatingSub(WrapU32(periodMs), t);
    Min(Quotient(SaturatingMul(tri, 255), half), 255)
  }

  /** Smoothstep in fixed point. */
  function Eased(n: nat): u32
    requires n <= 255
  {
    var nSq := n * n / 255;
    var nCu := nSq * n / 255;
    EasedBounds(n);
    Min(SaturatingSub(3 * nSq, 2 * nCu), 255)
  }

  function BreathePct(elapsedMs: u64, periodMs: u64): u8
    requires periodMs > 0 && WrapU32(periodMs / 2) != 0
  {
    EasedBounds(Triangle(elapsedMs, periodMs));
    5 + Eased(Triangle(elapsedMs, periodMs)) * 20 / 255
  }

  function Scale(cap: u8, pct: u8): u8
    requires pct <= 100
  {
    ScaleBounds(cap, pct);
    cap * pct / 100
  }

  lemma ScaleBounds(cap: u8, pct: u8)
    requires pct <= 100
    ensures 0 <= cap * pct / 100 <= cap
  {
    assert cap * pct <= cap * 100;
  }

  function Breathe(elapsedMs: u64, periodMs: u64, cap: Color): Color
    requires periodMs > 0 && WrapU32(periodMs / 2) != 0
  {
    var pct := BreathePct(elapsedMs, periodMs);
    PctInRange(elapsedMs, periodMs);
    Color(Scale(cap.r, pct), Scale(cap.g, pct), Scale(cap.b, pct))
  }

  lemma EasedBounds(n: nat)
    requires n <= 255
    ensures 0 <= n * n / 255 <= n && 0 <= n * n / 255 * n / 255 <= n * n / 255
  {
    ProductOver255(n, n);
    ProductOver255(n * n / 255, n);
  }

  lemma ProductOver255(x: nat, n: nat)
    requires n <= 255
    ensures 0 <= x * n / 255 <= x
  {
    MulMonotone(x, n, 255);
    Over255(x * n, x);
  }

  lemma Over255(product: int, x: nat)
    requires product <= x * 255
    ensures product / 255 <= x
  {
  }

  /** For any elapsed time and any period the brightness is between 5% and 25%. */
  lemma PctInRange(elapsedMs: u64, periodMs: u64)
    requires periodMs > 0 && WrapU32(periodMs / 2) != 0
    ensures 5 <= BreathePct(elapsedMs, periodMs) <= 25
  {
    EasedBounds(Triangle(elapsedMs, periodMs));
  }

  /** Both ends are reached: at the start of a period and, if it is even, in its middle. */
  lemma PctReachesEnds(periodMs: u64)
    requires 2 <= periodMs <= 0x100_0000
    ensures BreathePct(0, periodMs) == 5
    ensures periodMs % 2 == 0 ==> BreathePct(periodMs / 2, periodMs) == 25
  {
    var half := periodMs / 2;
    QuotientUnique(0, half, 0, 0);
    QuotientUnique(half * 255, half, 255, 0);
    if periodMs % 2 == 0 {
      MiddleOfPeriod(half);
      assert periodMs == 2 * half;
    }
    assert Triangle(0, periodMs) == 0;
    assert Eased(0) == 0 && Eased(255) == 255;
  }

  /** How far into its period a moment is. */
  function Phase(elapsedMs: u64, periodMs: u64): (t: nat)
    requires periodMs > 0
    ensures t < periodMs
  {
    elapsedMs % periodMs
  }

  /** Milliseconds to the nearest start of a period. */
  function Distance(phase: nat, periodMs: nat): nat
    requires phase <= periodMs
  {
    if phase <= periodMs - phase then phase else periodMs - phase
  }

  function Scaled(tri: nat, half: nat): nat
    requires half > 0
  {
    Min(Quotient(tri * 255, half), 255)
  }

  lemma TriangleAtPhase(elapsedMs: u64, periodMs: u64, t: nat, half: nat)
    requires 2 <= periodMs <= 0x100_0000 && t == Phase(elapsedMs, periodMs) && half == periodMs / 2
    ensures Triangle(elapsedMs, periodMs) == Scaled(if t < half then t else periodMs - t, half)
  {
  }

  lemma Floor(x: nat, m: nat)
    requires m > 0
    ensures Quotient(x, m) * m <= x < (Quotient(x, m) + 1) * m
  {
    assert x == x / m * m + x % m;
  }

  lemma ScaledIsFloor(tri: nat, half: nat)
    requires half > 0
    ensures if tri < half then Scaled(tri, half) * half <= 255 * tri < (Scaled(tri, half) + 1) * half
            else Scaled(tri, half) == 255
  {
    var q := Quotient(tri * 255, half);
    Floor(tri * 255, half);
    MulMonotone(half, q, 255);
    MulMonotone(half, 256, q + 1);
    MulMonotone(half, q + 1, 255);
  }

  /** The wave is the distance from the nearest start of a period, scaled so that half a
      period is 255, and rounded down. */
  lemma TriangleIsDistance(elapsedMs: u64, periodMs: u64)
    requires 2 <= periodMs <= 0x100_0000
    ensures var n, half, d := Triangle(elapsedMs, periodMs), periodMs / 2, Distance(Phase(elapsedMs, periodMs), periodMs);
            if d < half then n * half <= 255 * d < (n + 1) * half else n == 255
  {
    var t, half := Phase(elapsedMs, periodMs), periodMs / 2;
    TriangleAtPhase(elapsedMs, periodMs, t, half);
    ScaledIsFloor(if t < half then t else periodMs - t, half);
  }

  lemma Parts(x: nat, m: nat)
    requires m > 0
    ensures x == m * (x / m) + x % m && 0 <= x % m < m
  {
  }

  lemma NoneOrOne(m: nat, times: int, rest: nat)
    requires m > 0 && m * times == rest && rest < 2 * m
    ensures rest == 0 || rest == m
  {
    MulMonotone(m, times, 0);
    MulMonotone(m, 2, times);
    assert 0 <= times <= 1;
  }

  lemma OppositePhases(a: nat, b: nat, period: nat)
    requires period > 0 && (a + b) % period == 0
    ensures a % period + b % period == 0 || a % period + b % period == period
  {
    Parts(a, period);
    Parts(b, period);
    Parts(a + b, period);
    var times := (a + b) / period - a / period - b / period;
    assert period * times == period * ((a + b) / period) - period * (a / period) - period * (b / period);
    NoneOrOne(period, times, a % period + b % period);
  }

  /** So it repeats, and is symmetric about the middle of each period. */
  lemma TriangleIsSymmetric(elapsedMs: u64, mirroredMs: u64, periodMs: u64)
    requires 2 <= periodMs <= 0x100_0000 && (elapsedMs + mirroredMs) % periodMs == 0
    ensures Triangle(elapsedMs, periodMs) == Triangle(mirroredMs, periodMs)
  {
    var t, u, half := Phase(elapsedMs, periodMs), Phase(mirroredMs, periodMs), periodMs / 2;
    OppositePhases(elapsedMs, mirroredMs, periodMs);
    TriangleAtPhase(elapsedMs, periodMs, t, half);
    TriangleAtPhase(mirroredMs, periodMs, u, half);
    ScaledIsFloor(half, half);
    ScaledIsFloor(half + 1, half);
  }

  lemma QuotientUnique(x: nat, m: nat, h: nat, r: nat)
    requires m >= 1 && x == m * h + r && r < m
    ensures x / m == h
  {
    var q := x / m;
    assert m * q + x % m == x;
    MulMonotone(m, h + 1, q);
    MulMonotone(m, q + 1, h);
  }

  lemma MulMonotone(m: nat, a: int, b: int)
    ensures a <= b ==> m * a <= m * b
    ensures m * (a - 1) == m * a - m
  {
  }

  lemma MiddleOfPeriod(half: u64)
    requires 1 <= half <= 0x80_0000 && Quotient(half * 255, half) == 255
    ensures 2 * half / 2 == half && Triangle(half, 2 * half) == 255
  {
    QuotientUnique(half, 2 * half, 0, half);
    assert half % (2 * half) == half;
    assert SaturatingMul(half, 255) == half * 255;
  }

  /** The fixed-point curve lies strictly between smoothstep minus 3 and smoothstep
      plus 2, everything times 255 * 255: with a and b the remainders that the two
      divisions drop, it is off by (2n - 765) * a + 510 * b. */
  lemma EasedNearSmoothstep(n: nat)
    requires n <= 255
    ensures var smooth := 765 * (n * n) - 2 * (n * n * n);
            smooth - 3 * 65025 < 65025 * Eased(n) < smooth + 2 * 65025
  {
    EasedBounds(n);
    var q, a := n * n / 255, n * n % 255;
    var c, b := q * n / 255, q * n % 255;
    SmoothError(n, q, a, c, b);
    ErrorBounds(n, a, b);
    SmoothAtMost(n);
    assert Eased(n) == Min(3 * q - 2 * c, 255);
  }

  lemma SmoothError(n: int, q: int, a: int, c: int, b: int)
    requires n * n == 255 * q + a && q * n == 255 * c + b
    ensures 65025 * (3 * q - 2 * c) == 765 * (n * n) - 2 * (n * n * n) + (2 * (n * a) - 765 * a) + 510 * b
  {
    assert n * n * n == (255 * q + a) * n == 255 * (q * n) + n * a;
  }

  lemma ErrorBounds(n: int, a: int, b: int)
    requires 0 <= n <= 255 && 0 <= a <= 254 && 0 <= b <= 254
    ensures -3 * 65025 < 2 * (n * a) - 765 * a + 510 * b < 2 * 65025
  {
    assert 0 <= n * a <= 255 * a;
  }

  function Square(n: int): int {
    n * n
  }

  function Cube(n: int): int {
    n * n * n
  }

  lemma {:induction false} SmoothAtMost(n: nat)
    requires n <= 255
    ensures 765 * Square(n) - 2 * Cube(n) <= 255 * 65025
    decreases 255 - n
  {
    if n == 255 {
    } else {
      SmoothAtMost(n + 1);
      SmoothGrows(n, Square(n), Cube(n), Square(n + 1), Cube(n + 1)) by {
        NextPowers(n);
        SquareAtMost(n, 254);
      }
    }
  }

  lemma SmoothGrows(n: nat, square: int, cube: int, nextSquare: int, nextCube: int)
    requires n <= 254 && square <= 254 * n
    requires nextSquare == square + 2 * n + 1 && nextCube == cube + 3 * square + 3 * n + 1
    ensures 765 * square - 2 * cube <= 765 * nextSquare - 2 * nextCube
  {
  }

  lemma SquareAtMost(n: nat, most: nat)
    requires n <= most
    ensures Square(n) <= most * n
  {
    MulMonotone(n, n, most);
  }

  lemma NextPowers(n: int)
    ensures Square(n + 1) == Square(n) + 2 * n + 1
    ensures Cube(n + 1) == Cube(n) + 3 * Square(n) + 3 * n + 1
  {
    var s := n * n;
    assert (n + 1) * (n + 1) == s + 2 * n + 1;
    assert (s + 2 * n + 1) * (n + 1) == s * n + s + (2 * n + 1) * (n + 1);
    assert (2 * n + 1) * (n + 1) == 2 * s + 3 * n + 1;
  }

  // ---- Rendering ------------------------------------------------------------------------

  function RenderSteady(pattern: LedPattern, elapsedMs: u64): Color {
    match pattern
    case Booting => WHITE
    case Connecting => Breathe(elapsedMs, 667, BLUE)
    case Healthy => Breathe(elapsedMs, 3000, GREEN)
    case _ => OFF
  }

  /** Of a full channel the percentage, rounded down. */
  predicate Percent(channel: u8, pct: u8) {
    100 * channel <= 38 * pct < 100 * (channel + 1)
  }

  /** The brightness moves from 5 to 25 percent with the eased wave, rounded down. */
  lemma PctIsLinear(elapsedMs: u64, periodMs: u64)
    requires periodMs > 0 && WrapU32(periodMs / 2) != 0
    ensures var pct, eased := BreathePct(elapsedMs, periodMs), Eased(Triangle(elapsedMs, periodMs));
            255 * (pct - 5) <= 20 * eased < 255 * (pct - 4)
  {
  }

  /** Booting is white; Connecting breathes blue and Healthy green, of periods of 0.667 and
      3 seconds, on no other channel; everything else is dark. */
  lemma SteadyColors(elapsedMs: u64)
    ensures RenderSteady(Booting, elapsedMs) == Color(38, 38, 38)
    ensures var c := RenderSteady(Connecting, elapsedMs); c.r == c.g == 0 && Percent(c.b, BreathePct(elapsedMs, 667))
    ensures var c := RenderSteady(Healthy, elapsedMs); c.r == c.b == 0 && Percent(c.g, BreathePct(elapsedMs, 3000))
    ensures forall p: LedPattern :: p !in {Booting, Connecting, Healthy} ==> RenderSteady(p, elapsedMs) == Color(0, 0, 0)
  {
    PctInRange(elapsedMs, 667);
    PctInRange(elapsedMs, 3000);
  }

  /** Every colour that is written is within the brightness cap. */
  lemma SteadyIsCapped(pattern: LedPattern, elapsedMs: u64)
    ensures RenderSteady(pattern, elapsedMs).Capped()
    ensures RED.Capped() && GREEN.Capped() && BLUE.Capped() && OFF.Capped() && YELLOW.Capped()
  {
    if pattern == Connecting {
      BreatheIsCapped(elapsedMs, 667, BLUE);
    } else if pattern == Healthy {
      BreatheIsCapped(elapsedMs, 3000, GREEN);
    }
  }

  lemma BreatheIsCapped(elapsedMs: u64, periodMs: u64, cap: Color)
    requires periodMs > 0 && WrapU32(periodMs / 2) != 0 && cap.Capped()
    ensures Breathe(elapsedMs, periodMs, cap).Capped()
  {
    var pct := BreathePct(elapsedMs, periodMs);
    PctInRange(elapsedMs, periodMs);
    ScaleBounds(cap.r, pct);
    ScaleBounds(cap.g, pct);
    ScaleBounds(cap.b, pct);
  }

  /** Activity overlays the steady pattern, SelfTest ends in Booting, any other pattern
      becomes the steady one. */
  function SteadyAfter(steady: LedPattern, signal: LedPattern): LedPattern {
    if signal == Activity then steady else if signal == SelfTest then Booting else signal
  }

  /** What select returns in one turn of led_task: the frame timer, at a time, or a signal
      taken at a time and handled by a later one. */
  datatype Turn = FrameTimer(nowMs: u64) | Taken(signal: LedPattern, startMs: u64, endMs: u64)

  datatype LedState = LedState(steady: LedPattern, started: u64)

  function AfterTurn(s: LedState, t: Turn): LedState {
    if t.FrameTimer? || t.signal == Activity then s else LedState(SteadyAfter(s.steady, t.signal), t.endMs)
  }

  /** What a turn writes. */
  function ColorsOf(s: LedState, t: Turn): seq<Color> {
    match t
    case FrameTimer(nowMs) => [RenderSteady(s.steady, SaturatingSub(nowMs, s.started))]
    case Taken(Activity, _, endMs) => [YELLOW, RenderSteady(s.steady, SaturatingSub(endMs, s.started))]
    case Taken(SelfTest, _, _) => [RED, GREEN, BLUE, OFF]
    case _ => []
  }

  /** Frames show the steady pattern, a flash is yellow before it, and a self-test goes through
      red, green and blue into the dark. */
  lemma TurnColors(s: LedState, startMs: u64, endMs: u64)
    ensures ColorsOf(s, FrameTimer(endMs)) == [RenderSteady(s.steady, SaturatingSub(endMs, s.started))]
    ensures ColorsOf(s, Taken(Activity, startMs, endMs)) == [Color(38, 38, 0)] + ColorsOf(s, FrameTimer(endMs))
    ensures ColorsOf(s, Taken(SelfTest, startMs, endMs)) == [Color(38, 0, 0), Color(0, 38, 0), Color(0, 0, 38), Color(0, 0, 0)]
    ensures forall p: LedPattern :: p !in {Activity, SelfTest} ==> ColorsOf(s, Taken(p, startMs, endMs)) == []
  {
  }

  function RunTurns(s: LedState, turns: seq<Turn>): LedState {
    if turns == [] then s else AfterTurn(RunTurns(s, turns[..|turns| - 1]), turns[|turns| - 1])
  }

  function AllColors(s: LedState, turns: seq<Turn>): seq<Color> {
    if turns == [] then []
    else
      var before, last := turns[..|turns| - 1], turns[|turns| - 1];
      AllColors(s, before) + ColorsOf(RunTurns(s, before), last)
  }

  predicate Transient(t: Turn) {
    t.FrameTimer? || t.signal == Activity
  }

  /** The steady pattern is the last signal that was not a flash, shown since it was handled. */
  lemma {:induction false} SteadyIsLastSignal(s: LedState, turns: seq<Turn>, i: nat)
    requires i < |turns| && !Transient(turns[i]) && forall j :: i < j < |turns| ==> Transient(turns[j])
    ensures RunTurns(s, turns)
         == LedState(if turns[i].signal == SelfTest then Booting else turns[i].signal, turns[i].endMs)
  {
    if i < |turns| - 1 {
      SteadyIsLastSignal(s, turns[..|turns| - 1], i);
    }
  }

  predicate AllCapped(colors: seq<Color>) {
    forall i :: 0 <= i < |colors| ==> colors[i].Capped()
  }

  /** The state of led_task. */
  class LedTask {
    var steady: LedPattern
    var steadyStarted: u64

    constructor (nowMs: u64)
      ensures steady == Booting && steadyStarted == nowMs
    {
      steady := Booting;
      steadyStarted := nowMs;
    }

    function View(): LedState
      reads this
    {
      LedState(steady, steadyStarted)
    }

    /** A frame whose timer fired. */
    method Frame(nowMs: u64) returns (c: Color)
      ensures c == RenderSteady(steady, SaturatingSub(nowMs, steadyStarted)) && c.Capped()
    {
      var elapsed := SaturatingSub(nowMs, steadyStarted);
      c := RenderSteady(steady, elapsed);
      SteadyIsCapped(steady, elapsed);
    }

    /** A signal taken at startMs and handled by endMs. */
    method OnSignal(signal: LedPattern, startMs: u64, endMs: u64) returns (written: seq<Color>)
      requires startMs <= endMs
      modifies this
      ensures View() == AfterTurn(old(View()), Taken(signal, startMs, endMs))
      ensures written == ColorsOf(old(View()), Taken(signal, startMs, endMs))
      ensures AllCapped(written)
    {
      match signal
      case Activity =>
        var c := Frame(endMs);
        written := [YELLOW, c];
      case SelfTest =>
        written := [RED, GREEN, BLUE, OFF];
        steady := Booting;
        steadyStarted := endMs;
      case _ =>
        written := [];
        steady := signal;
        steadyStarted := endMs;
    }

    /** The loop of led_task up to any moment; nothing that it ever writes exceeds the cap. */
    method Turns(turns: seq<Turn>) returns (written: seq<Color>)
      requires forall i :: 0 <= i < |turns| && turns[i].Taken? ==> turns[i].startMs <= turns[i].endMs
      modifies this
      ensures View() == RunTurns(old(View()), turns)
      ensures written == AllColors(old(View()), turns)
      ensures AllCapped(written)
    {
      written := [];
      for i := 0 to |turns|
        invariant View() == RunTurns(old(View()), turns[..i])
        invariant written == AllColors(old(View()), turns[..i])
        invariant AllCapped(written)
      {
        assert turns[..i + 1][..i] == turns[..i];
        match turns[i]
        case FrameTimer(nowMs) =>
          var c := Frame(nowMs);
          written := written + [c];
        case Taken(signal, startMs, endMs) =>
          var colors := OnSignal(signal, startMs, endMs);
          written := written + colors;
      }
      assert turns[..|turns|] == turns;
    }
  }

  // ---- Framing --------------------------------------------------------------------------

  datatype PulseCode = Pulse(high: nat, low: nat) | EndMarker

  const T0H := 32
  const T0L := 68
  const T1H := 64
  const T1L := 36

  /** x >> k. */
  function Shifted(x: nat, k: nat): nat {
    if k == 0 then x else Shifted(x, k - 1) / 2
  }

  /** The bits of the three channels do not overlap, so the ors are sums. */
  function Grb(c: Color): nat {
    c.g * 0x1_0000 + c.r * 0x100 + c.b
  }

  /** What the LED shifts in: a long high half is a one. */
  function Decode(pulses: seq<PulseCode>): nat {
    if pulses == [] then 0
    else
      var last := pulses[|pulses| - 1];
      2 * Decode(pulses[..|pulses| - 1]) + (if last.Pulse? && last.high > last.low then 1 else 0)
  }

  function ColorOf(grb: nat): (int, int, int) {
    (grb / 0x100 % 0x100, grb / 0x1_0000, grb % 0x100)
  }

  lemma DecodeAppend(pulses: seq<PulseCode>, bit: nat)
    requires bit < 2
    ensures Decode(pulses + [PulseOf(bit)]) == 2 * Decode(pulses) + bit
  {
    assert (pulses + [PulseOf(bit)])[..|pulses|] == pulses;
  }

  function PulseOf(bit: nat): PulseCode {
    if bit == 1 then Pulse(T1H, T1L) else Pulse(T0H, T0L)
  }

  lemma GrbParts(c: Color)
    ensures ColorOf(Grb(c)) == (c.r, c.g, c.b) && Grb(c) < 0x100_0000
  {
    var upper := c.g * 0x100 + c.r;
    ByteParts(upper, c.b);
    ByteParts(c.g, c.r);
    assert Grb(c) == upper * 0x100 + c.b;
    assert Grb(c) / 0x1_0000 == Grb(c) / 0x100 / 0x100;
  }

  lemma ByteParts(upper: nat, lower: u8)
    ensures (upper * 0x100 + lower) / 0x100 == upper && (upper * 0x100 + lower) % 0x100 == lower
  {
  }

  /** write: 24 pulses, most significant bit of the GRB word first, and an end marker.
      They decode to the colour and all last 100 ticks. */
  method Encode(c: Color) returns (buf: array<PulseCode>)
    ensures fresh(buf) && buf.Length == 25 && buf[24] == EndMarker
    ensures forall i :: 0 <= i < 24 ==> buf[i] == Pulse(32, 68) || buf[i] == Pulse(64, 36)
    ensures ColorOf(Decode(buf[..24])) == (c.r, c.g, c.b)
  {
    GrbParts(c);
    buf := EncodeWord(Grb(c));
  }

  method EncodeWord(grb: nat) returns (buf: array<PulseCode>)
    requires grb < 0x100_0000
    ensures fresh(buf) && buf.Length == 25 && buf[24] == EndMarker
    ensures forall i :: 0 <= i < 24 ==> buf[i] == Pulse(32, 68) || buf[i] == Pulse(64, 36)
    ensures Decode(buf[..24]) == grb
  {
    buf := new PulseCode[25](_ => EndMarker);
    ShiftedOut(grb);
    var i := 0;
    while i < 24
      invariant 0 <= i <= 24 && buf[24] == EndMarker
      invariant forall j :: 0 <= j < i ==> buf[j] == Pulse(32, 68) || buf[j] == Pulse(64, 36)
      invariant Decode(buf[..i]) == Shifted(grb, 24 - i)
    {
      var bit := Shifted(grb, 23 - i) % 2;
      NextBit(grb, 23 - i);
      DecodeAppend(buf[..i], bit);
      ghost var before := buf[..i];
      buf[i] := PulseOf(bit);
      assert buf[..i + 1] == before + [PulseOf(bit)];
      i := i + 1;
    }
  }

  lemma NextBit(x: nat, k: nat)
    ensures 2 * Shifted(x, k + 1) + Shifted(x, k) % 2 == Shifted(x, k)
  {
  }

  function Pow2(e: nat): (p: nat)
    ensures p >= 1
  {
    if e == 0 then 1 else 2 * Pow2(e - 1)
  }

  lemma {:induction false} ShiftedBound(x: nat, width: nat, k: nat)
    requires x < Pow2(width) && k <= width
    ensures Shifted(x, k) < Pow2(width - k)
  {
    if k > 0 {
      ShiftedBound(x, width, k - 1);
      assert Pow2(width - (k - 1)) == 2 * Pow2(width - k);
    }
  }

  lemma ShiftedOut(x: nat)
    requires x < 0x100_0000
    ensures Shifted(x, 24) == 0
  {
    assert Pow2(4) == 16 && Pow2(8) == 256 && Pow2(12) == 4096;
    assert Pow2(16) == 0x1_0000 && Pow2(20) == 0x10_0000 && Pow2(24) == 0x100_0000;
    ShiftedBound(x, 24, 24);
    assert Pow2(0) == 1;
  }
}
