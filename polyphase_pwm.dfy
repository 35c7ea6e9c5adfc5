/**
 * Model of the single-threaded software polyphase PWM generator
 * (libgpiod/polyphase_pwm.c): the truth-table compiler, the edge-only
 * line evaluator, the tick counters of the main loop, the absolute-deadline
 * arithmetic of absSleep, and the two resolution formulas.
 *
 * Floating point is modelled by exact `real` arithmetic; C's `round` is
 * modelled by `Round` (halves away from zero). The GPIO library and the
 * sleeping clock are modelled as classes that log what they were asked to do.
 */
module PolyphasePwm {

  // ---------------------------------------------------------------------
  // Constants of the program
  // ---------------------------------------------------------------------

  /** Tick rate of the sleep loop in Hz (PWM_FREQ). */
  const PWM_FREQ: nat := 30000
  /** Sub-slots ("sweeps") per division (TEMPORAL_RESOLUTION). */
  const TEMPORAL_RESOLUTION: nat := 4
  /** Number of PWM channels (NUM_LINES). */
  const NUM_LINES: nat := 3
  /** Linux GPIO numbers of the channels (line_offsets). */
  const LINE_OFFSETS: seq<int> := [203, 11, 12]
  /** Entries of an input duty table: one per angle degree. */
  const TABLE_DEGREES: nat := 360
  /** Smallest phase resolution whose angle lookup reads past the duty table. */
  const MAX_PHASE_RESOLUTION: nat := 720
  const NANOS_PER_SECOND: int := 1000000000
  /** Tick interval in nanoseconds (sleeptime = round(10^9 / PWM_FREQ)). */
  const SLEEP_TIME: int := Round(NANOS_PER_SECOND as real / PWM_FREQ as real)

  // ---------------------------------------------------------------------
  // C's round(), on exact reals
  // ---------------------------------------------------------------------

  /** The nearest integer to `x`; halves are rounded away from zero. */
  function Round(x: real): (r: int)
    ensures x >= 0.0 ==> r as real - 0.5 <= x < r as real + 0.5
    ensures x < 0.0 ==> r as real - 0.5 < x <= r as real + 0.5
  {
    if x >= 0.0 then (x + 0.5).Floor else -((0.5 - x).Floor)
  }

  lemma SleepTimeValue()
    ensures SLEEP_TIME == 33333
    ensures 0 <= SLEEP_TIME < NANOS_PER_SECOND
  {
    var x := NANOS_PER_SECOND as real / PWM_FREQ as real;
    assert x * 3.0 == 100000.0;
    assert 33332.5 < x < 33333.5;
  }

  // ---------------------------------------------------------------------
  // Resolution calculator (getPhaseResolution, getTrueFreq)
  // ---------------------------------------------------------------------

  /** Divisions per output period for a target frequency: the rounded number
      of ticks per output period divided by TEMPORAL_RESOLUTION. */
  function PhaseResolution(targetFrequency: real): (r: int)
    requires targetFrequency != 0.0
    ensures var divs := PWM_FREQ as real / targetFrequency / TEMPORAL_RESOLUTION as real;
      r as real - 0.5 <= divs <= r as real + 0.5
    ensures targetFrequency > 0.0 ==> r >= 0
  {
    Round((PWM_FREQ as real / targetFrequency) / TEMPORAL_RESOLUTION as real)
  }

  /** The output frequency that `phaseResolution` divisions actually give:
      one output period every phaseResolution * TEMPORAL_RESOLUTION ticks. */
  function TrueFreq(phaseResolution: int): (r: real)
    requires phaseResolution != 0
    ensures r * (phaseResolution * TEMPORAL_RESOLUTION) as real == PWM_FREQ as real
  {
    PWM_FREQ as real / (phaseResolution as real * TEMPORAL_RESOLUTION as real)
  }

  lemma DefaultResolution()
    ensures PhaseResolution(300.0) == 25
    ensures TrueFreq(25) == 300.0
  {
    var divs := PWM_FREQ as real / 300.0 / TEMPORAL_RESOLUTION as real;
    assert divs == 25.0;
  }

  /** The achieved frequency is within half a division's worth of the target. */
  lemma TrueFreqNearTarget(targetFrequency: real)
    requires targetFrequency > 0.0
    requires PhaseResolution(targetFrequency) >= 1
    ensures var p := PhaseResolution(targetFrequency);
      var err := TrueFreq(p) - targetFrequency;
      -targetFrequency / (2 * p) as real <= err <= targetFrequency / (2 * p) as real
  {
    var f := targetFrequency;
    var p := PhaseResolution(f);
    var pr := p as real;
    var x := PWM_FREQ as real / f / TEMPORAL_RESOLUTION as real;
    assert x * f == 7500.0;
    assert pr - 0.5 <= x <= pr + 0.5;
    var t := TrueFreq(p);
    assert t * pr == 7500.0;
    assert (t - f) * pr == (x - pr) * f by {
      calc {
        (t - f) * pr;
        t * pr - f * pr;
        7500.0 - f * pr;
        x * f - pr * f;
      }
    }
    assert -0.5 * f <= (x - pr) * f <= 0.5 * f;
    assert (2.0 * pr) * (t - f) == 2.0 * (x - pr) * f;
    DivideBound(t - f, f, pr);
  }

  /** From |e * p| <= f / 2 and p > 0, conclude |e| <= f / (2p). */
  lemma DivideBound(e: real, f: real, p: real)
    requires p > 0.0
    requires -0.5 * f <= e * p <= 0.5 * f
    ensures -f / (2.0 * p) <= e <= f / (2.0 * p)
  {
    var b := f / (2.0 * p);
    assert b * (2.0 * p) == f;
  }

  // ---------------------------------------------------------------------
  // Timing-table compiler (generateTruthTable)
  // ---------------------------------------------------------------------

  /** angleLookup[i]: the degree of the duty table that division `i` samples. */
  function AngleIndex(phaseResolution: int, i: int): (r: int)
    requires 0 <= i < phaseResolution
    ensures 0 <= r <= TABLE_DEGREES
    ensures phaseResolution < MAX_PHASE_RESOLUTION ==> r < TABLE_DEGREES
  {
    var step := 360.0 / phaseResolution as real;
    assert step * phaseResolution as real == 360.0;
    assert i as real * step <= 360.0 - step by {
      assert (phaseResolution - 1 - i) as real * step >= 0.0;
    }
    assert phaseResolution < MAX_PHASE_RESOLUTION ==> step > 0.5;
    Round(i as real * step)
  }

  /** The duty-table index is in range for every division exactly when the
      phase resolution is below 720; at 720 the last division computes
      round(719 * 0.5) = 360, one past the end of the table. */
  lemma AngleIndexInRange(phaseResolution: int)
    requires phaseResolution >= 1
    ensures (forall i :: 0 <= i < phaseResolution ==> AngleIndex(phaseResolution, i) < TABLE_DEGREES)
        <==> phaseResolution < MAX_PHASE_RESOLUTION
  {
    if phaseResolution >= MAX_PHASE_RESOLUTION {
      var i := phaseResolution - 1;
      var step := 360.0 / phaseResolution as real;
      assert step * phaseResolution as real == 360.0;
      assert step <= 0.5;
      assert i as real * step == 360.0 - step;
      assert AngleIndex(phaseResolution, i) == TABLE_DEGREES;
    }
  }

  /** highSweepsTbl[i]: the rounded number of high sub-slots of division `i`
      (not clamped: a duty outside [0, 1] gives a count outside [0, 4]). */
  function HighSlots(inputFunctionTable: seq<real>, phaseResolution: int, i: int): int
    requires |inputFunctionTable| == TABLE_DEGREES
    requires 0 <= i < phaseResolution < MAX_PHASE_RESOLUTION
  {
    Round(inputFunctionTable[AngleIndex(phaseResolution, i)] * TEMPORAL_RESOLUTION as real)
  }

  /** One row of a truth table: sub-slot j is high exactly when j < highSlots. */
  function Row(highSlots: int): seq<bool>
  {
    seq(TEMPORAL_RESOLUTION, j => j < highSlots)
  }

  /** The truth table generateTruthTable writes, row by row. */
  function TruthTable(inputFunctionTable: seq<real>, phaseResolution: int): seq<seq<bool>>
    requires |inputFunctionTable| == TABLE_DEGREES
    requires 0 <= phaseResolution < MAX_PHASE_RESOLUTION
  {
    seq(phaseResolution, i requires 0 <= i < phaseResolution =>
      Row(HighSlots(inputFunctionTable, phaseResolution, i)))
  }

  function Clamp(highSlots: int): nat
  {
    if highSlots < 0 then 0 else if highSlots > TEMPORAL_RESOLUTION then TEMPORAL_RESOLUTION else highSlots
  }

  function Repeat(b: bool, n: nat): (s: seq<bool>)
    ensures |s| == n && forall i :: 0 <= i < n ==> s[i] == b
  {
    seq(n, _ => b)
  }

  /** Number of high entries of a row. */
  function CountTrue(s: seq<bool>): nat
  {
    if s == [] then 0 else (if s[0] then 1 else 0) + CountTrue(s[1..])
  }

  lemma {:induction false} CountTrueAppend(a: seq<bool>, b: seq<bool>)
    ensures CountTrue(a + b) == CountTrue(a) + CountTrue(b)
  {
    if a != [] {
      assert (a + b)[1..] == a[1..] + b;
      CountTrueAppend(a[1..], b);
    } else {
      assert a + b == b;
    }
  }

  lemma {:induction false} CountTrueRepeat(b: bool, n: nat)
    ensures CountTrue(Repeat(b, n)) == if b then n else 0
  {
    if n > 0 {
      assert Repeat(b, n)[1..] == Repeat(b, n - 1);
      CountTrueRepeat(b, n - 1);
    }
  }

  /** A row is a block of high sub-slots starting at slot 0, followed by low
      ones, and it holds min(max(highSlots, 0), TEMPORAL_RESOLUTION) highs. */
  lemma RowShape(highSlots: int)
    ensures var c := Clamp(highSlots);
      Row(highSlots) == Repeat(true, c) + Repeat(false, TEMPORAL_RESOLUTION - c)
      && CountTrue(Row(highSlots)) == c
  {
    var c := Clamp(highSlots);
    assert Row(highSlots) == Repeat(true, c) + Repeat(false, TEMPORAL_RESOLUTION - c);
    CountTrueAppend(Repeat(true, c), Repeat(false, TEMPORAL_RESOLUTION - c));
    CountTrueRepeat(true, c);
    CountTrueRepeat(false, TEMPORAL_RESOLUTION - c);
  }

  /** Row i of a compiled table: slot j is high exactly when j < highSweepsTbl[i];
      the highs form a prefix whose length is the clamped high-slot count. */
  lemma TruthTableRow(inputFunctionTable: seq<real>, phaseResolution: int, i: int)
    requires |inputFunctionTable| == TABLE_DEGREES
    requires 0 <= i < phaseResolution < MAX_PHASE_RESOLUTION
    ensures var row := TruthTable(inputFunctionTable, phaseResolution)[i];
      var h := HighSlots(inputFunctionTable, phaseResolution, i);
      |row| == TEMPORAL_RESOLUTION
      && (forall j :: 0 <= j < TEMPORAL_RESOLUTION ==> (row[j] <==> j < h))
      && row == Repeat(true, Clamp(h)) + Repeat(false, TEMPORAL_RESOLUTION - Clamp(h))
      && CountTrue(row) == Clamp(h)
  {
    RowShape(HighSlots(inputFunctionTable, phaseResolution, i));
  }

  /** With every duty in [0, 1] the rounded count already lies in
      [0, TEMPORAL_RESOLUTION], so the missing clamp changes nothing. */
  lemma UnitDutyNeedsNoClamp(inputFunctionTable: seq<real>, phaseResolution: int, i: int)
    requires |inputFunctionTable| == TABLE_DEGREES
    requires 0 <= i < phaseResolution < MAX_PHASE_RESOLUTION
    requires forall d :: 0 <= d < TABLE_DEGREES ==> 0.0 <= inputFunctionTable[d] <= 1.0
    ensures 0 <= HighSlots(inputFunctionTable, phaseResolution, i) <= TEMPORAL_RESOLUTION
    ensures Clamp(HighSlots(inputFunctionTable, phaseResolution, i)) == HighSlots(inputFunctionTable, phaseResolution, i)
  {
    var a := AngleIndex(phaseResolution, i);
    assert 0.0 <= inputFunctionTable[a] * 4.0 <= 4.0;
  }

  /** generateTruthTable: fills rows 0 .. phaseResolution-1 of the output table. */
  method GenerateTruthTable(inputFunctionTable: seq<real>, outputTruthTable: array2<bool>, phaseResolution: int)
    requires |inputFunctionTable| == TABLE_DEGREES
    requires 0 <= phaseResolution < MAX_PHASE_RESOLUTION
    requires phaseResolution <= outputTruthTable.Length0
    requires outputTruthTable.Length1 == TEMPORAL_RESOLUTION
    modifies outputTruthTable
    ensures forall i, j :: 0 <= i < phaseResolution && 0 <= j < TEMPORAL_RESOLUTION ==>
      outputTruthTable[i, j] == TruthTable(inputFunctionTable, phaseResolution)[i][j]
    ensures forall i, j :: phaseResolution <= i < outputTruthTable.Length0 && 0 <= j < TEMPORAL_RESOLUTION ==>
      outputTruthTable[i, j] == old(outputTruthTable[i, j])
  {
    // Duty-table index of each division
    var angleLookup := new int[phaseResolution];
    for i := 0 to phaseResolution
      modifies angleLookup
      invariant forall k :: 0 <= k < i ==> angleLookup[k] == AngleIndex(phaseResolution, k)
    {
      angleLookup[i] := Round(i as real * (360.0 / phaseResolution as real));
    }

    // Rounded number of high sub-slots of each division
    var highSweepsTbl := new int[phaseResolution];
    for i := 0 to phaseResolution
      modifies highSweepsTbl
      invariant forall k :: 0 <= k < i ==> highSweepsTbl[k] == HighSlots(inputFunctionTable, phaseResolution, k)
    {
      highSweepsTbl[i] := Round(inputFunctionTable[angleLookup[i]] * TEMPORAL_RESOLUTION as real);
    }

    for i := 0 to phaseResolution
      modifies outputTruthTable
      invariant forall k, j :: 0 <= k < i && 0 <= j < TEMPORAL_RESOLUTION ==>
        outputTruthTable[k, j] == (j < highSweepsTbl[k])
      invariant forall k, j :: i <= k < outputTruthTable.Length0 && 0 <= j < TEMPORAL_RESOLUTION ==>
        outputTruthTable[k, j] == old(outputTruthTable[k, j])
    {
      for j := 0 to TEMPORAL_RESOLUTION
        invariant forall k, l :: 0 <= k < i && 0 <= l < TEMPORAL_RESOLUTION ==>
          outputTruthTable[k, l] == (l < highSweepsTbl[k])
        invariant forall l :: 0 <= l < j ==> outputTruthTable[i, l] == (l < highSweepsTbl[i])
        invariant forall l :: j <= l < TEMPORAL_RESOLUTION ==> outputTruthTable[i, l] == old(outputTruthTable[i, l])
        invariant forall k, l :: i < k < outputTruthTable.Length0 && 0 <= l < TEMPORAL_RESOLUTION ==>
          outputTruthTable[k, l] == old(outputTruthTable[k, l])
      {
        if j < highSweepsTbl[i] {
          outputTruthTable[i, j] := true;
        } else {
          outputTruthTable[i, j] := false;
        }
      }
    }
  }

  // ---------------------------------------------------------------------
  // The GPIO line request (libgpiod), as a log of set-value calls
  // ---------------------------------------------------------------------

  datatype LineValue = Active | Inactive

  function LevelOf(high: bool): LineValue
  {
    if high then Active else Inactive
  }

  /** One gpiod_line_request_set_value call: the line offset and the value. */
  datatype LineWrite = LineWrite(offset: int, value: LineValue)

  /** The set-value call evaluateLine makes for a line whose table entry is
      `value` while its isHigh bit is `cached`: one write of the new level on a
      change, none otherwise. */
  function Transition(offset: int, value: bool, cached: bool): seq<LineWrite>
  {
    if value != cached then [LineWrite(offset, LevelOf(value))] else []
  }

  /** The requested line group. `initial` is the value the lines were requested
      with; `failing` holds the numbers (from 0) of the set-value calls that fail. */
  class LineRequest {
    const initial: LineValue
    const failing: set<nat>
    var writes: seq<LineWrite>

    constructor (initial: LineValue, failing: set<nat>)
      ensures this.initial == initial && this.failing == failing && writes == []
    {
      this.initial := initial;
      this.failing := failing;
      writes := [];
    }

    /** gpiod_line_request_set_value: 0 on success, -1 on failure. */
    method SetValue(offset: int, value: LineValue) returns (ret: int)
      modifies this
      ensures writes == old(writes) + [LineWrite(offset, value)]
      ensures ret == if |old(writes)| in failing then -1 else 0
    {
      ret := if |writes| in failing then -1 else 0;
      writes := writes + [LineWrite(offset, value)];
    }
  }

  // ---------------------------------------------------------------------
  // Edge-only line evaluator (evaluateLine)
  // ---------------------------------------------------------------------

  /** evaluateLine: drives line `offsetNo` to truthTable[divNum][sweepNum],
      writing to the line only when that differs from the cached isHigh bit.
      Returns 1 when nothing is written, else the write's return code; the
      cache follows the commanded value even when the write fails. */
  method EvaluateLine(request: LineRequest, divNum: nat, sweepNum: nat, truthTable: array2<bool>,
                      offsetNo: nat, isHigh: array<bool>) returns (ret: int)
    requires divNum < truthTable.Length0 && sweepNum < truthTable.Length1
    requires offsetNo < NUM_LINES && offsetNo < isHigh.Length
    modifies request, isHigh
    ensures isHigh[offsetNo] == truthTable[divNum, sweepNum]
    ensures forall k :: 0 <= k < isHigh.Length && k != offsetNo ==> isHigh[k] == old(isHigh[k])
    ensures var edge := truthTable[divNum, sweepNum] != old(isHigh[offsetNo]);
      && request.writes == old(request.writes)
           + Transition(LINE_OFFSETS[offsetNo], truthTable[divNum, sweepNum], old(isHigh[offsetNo]))
      && (ret == 1 <==> !edge)
      && (ret == 0 <==> edge && |old(request.writes)| !in request.failing)
      && (ret == -1 <==> edge && |old(request.writes)| in request.failing)
  {
    ret := 1;
    if truthTable[divNum, sweepNum] {
      if !isHigh[offsetNo] {
        ret := request.SetValue(LINE_OFFSETS[offsetNo], Active);
        isHigh[offsetNo] := true;
        return;
      }
      return;
    } else {
      if isHigh[offsetNo] {
        ret := request.SetValue(LINE_OFFSETS[offsetNo], Inactive);
        isHigh[offsetNo] := false;
        return;
      }
      return;
    }
  }

  // ---------------------------------------------------------------------
  // Tick counters of the main loop
  // ---------------------------------------------------------------------

  datatype Counters = Counters(divNum: nat, sweepNum: nat)

  /** The counters after `m` ticks from (0, 0) of an odometer whose sub-slot
      digit counts to TEMPORAL_RESOLUTION and whose division digit counts to
      phaseRes. */
  function CountersAt(m: nat, phaseRes: nat): (c: Counters)
    requires phaseRes >= 1
    ensures c.divNum < phaseRes && c.sweepNum < TEMPORAL_RESOLUTION
  {
    if m == 0 then Counters(0, 0)
    else
      var c := CountersAt(m - 1, phaseRes);
      if c.sweepNum + 1 < TEMPORAL_RESOLUTION then Counters(c.divNum, c.sweepNum + 1)
      else if c.divNum + 1 < phaseRes then Counters(c.divNum + 1, 0)
      else Counters(0, 0)
  }

  /** One odometer step adds one to the row-major position, modulo the
      number of positions. */
  lemma OdometerStep(divNum: nat, sweepNum: nat, phaseRes: nat)
    requires divNum < phaseRes && sweepNum < TEMPORAL_RESOLUTION
    ensures var c := if sweepNum + 1 < TEMPORAL_RESOLUTION then Counters(divNum, sweepNum + 1)
      else if divNum + 1 < phaseRes then Counters(divNum + 1, 0) else Counters(0, 0);
      c.divNum * TEMPORAL_RESOLUTION + c.sweepNum
        == (divNum * TEMPORAL_RESOLUTION + sweepNum + 1) % (phaseRes * TEMPORAL_RESOLUTION)
  {
    var x, n := divNum * TEMPORAL_RESOLUTION + sweepNum + 1, phaseRes * TEMPORAL_RESOLUTION;
    MulLess(divNum + 1, phaseRes, TEMPORAL_RESOLUTION);
    if sweepNum + 1 < TEMPORAL_RESOLUTION || divNum + 1 < phaseRes {
      DivModUnique(x, n, 0, x);
    } else {
      DivModUnique(x, n, 1, 0);
    }
  }

  /** The odometer reading after m ticks is the row-major decode of
      m mod (phaseRes * TEMPORAL_RESOLUTION). */
  lemma {:induction false} CountersRowMajor(m: nat, phaseRes: nat)
    requires phaseRes >= 1
    ensures var c := CountersAt(m, phaseRes);
      c.divNum * TEMPORAL_RESOLUTION + c.sweepNum == m % (phaseRes * TEMPORAL_RESOLUTION)
  {
    var n := phaseRes * TEMPORAL_RESOLUTION;
    if m == 0 {
      DivModUnique(0, n, 0, 0);
    } else {
      CountersRowMajor(m - 1, phaseRes);
      ModSucc(m - 1, n);
      var c := CountersAt(m - 1, phaseRes);
      OdometerStep(c.divNum, c.sweepNum, phaseRes);
    }
  }

  /** Euclidean division is determined by quotient and remainder. */
  lemma DivModUnique(x: int, n: int, q: int, r: int)
    requires n > 0 && 0 <= r < n && x == q * n + r
    ensures x / n == q && x % n == r
  {
    var q', r' := x / n, x % n;
    var d := q' - q;
    assert d * n == r - r' by {
      assert q' * n + r' == q * n + r;
      MulSub(q', q, n);
    }
    if d >= 1 {
      MulAtLeast(d, n);
    } else if d <= -1 {
      MulAtLeast(-d, n);
    }
  }

  lemma MulSub(a: int, b: int, n: int)
    ensures (a - b) * n == a * n - b * n
  {
  }

  lemma MulAtLeast(a: int, n: int)
    requires a >= 1 && n > 0
    ensures a * n >= n
  {
  }

  lemma {:induction false} ModAddPeriod(m: nat, n: int)
    requires n > 0
    ensures (m + n) % n == m % n
  {
    DivModUnique(m + n, n, m / n + 1, m % n);
  }

  lemma {:induction false} ModSucc(m: nat, n: int)
    requires n > 0
    ensures (m % n + 1) % n == (m + 1) % n
  {
    var q, r := m / n, m % n;
    if r + 1 < n {
      DivModUnique(m + 1, n, q, r + 1);
      DivModUnique(r + 1, n, 0, r + 1);
    } else {
      DivModUnique(m + 1, n, q + 1, 0);
      DivModUnique(r + 1, n, 1, 0);
    }
  }

  /** The counters come back to where they were after phaseRes * TEMPORAL_RESOLUTION ticks. */
  lemma CountersPeriodic(m: nat, phaseRes: nat)
    requires phaseRes >= 1
    ensures CountersAt(m + phaseRes * TEMPORAL_RESOLUTION, phaseRes) == CountersAt(m, phaseRes)
  {
    ModAddPeriod(m, phaseRes * TEMPORAL_RESOLUTION);
    CountersRowMajor(m, phaseRes);
    CountersRowMajor(m + phaseRes * TEMPORAL_RESOLUTION, phaseRes);
    var c, c' := CountersAt(m, phaseRes), CountersAt(m + phaseRes * TEMPORAL_RESOLUTION, phaseRes);
    DivModUnique(m % (phaseRes * TEMPORAL_RESOLUTION), TEMPORAL_RESOLUTION, c.divNum, c.sweepNum);
    DivModUnique(m % (phaseRes * TEMPORAL_RESOLUTION), TEMPORAL_RESOLUTION, c'.divNum, c'.sweepNum);
  }

  /** The counters are at (0, 0) exactly at multiples of phaseRes * TEMPORAL_RESOLUTION ticks:
      they return to the origin after exactly that many ticks and not before. */
  lemma CountersAtOrigin(m: nat, phaseRes: nat)
    requires phaseRes >= 1
    ensures CountersAt(m, phaseRes) == Counters(0, 0) <==> m % (phaseRes * TEMPORAL_RESOLUTION) == 0
  {
    CountersRowMajor(m, phaseRes);
  }

  /** The counter-advance block of the main loop (sweepNum/divNum update). It
      steps the row-major position divNum * tempRes + sweepNum by one, modulo
      the number of (division, sub-slot) pairs. */
  method AdvanceCounters(divNum: nat, sweepNum: nat, phaseRes: nat, tempRes: nat)
    returns (divNum': nat, sweepNum': nat)
    requires divNum < phaseRes && sweepNum < tempRes
    ensures divNum' < phaseRes && sweepNum' < tempRes
    ensures divNum' * tempRes + sweepNum' == (divNum * tempRes + sweepNum + 1) % (phaseRes * tempRes)
  {
    ghost var next := divNum * tempRes + sweepNum + 1;
    ghost var n := phaseRes * tempRes;
    MulLess(divNum + 1, phaseRes, tempRes);
    assert (divNum + 1) * tempRes == divNum * tempRes + tempRes;
    divNum', sweepNum' := divNum, sweepNum + 1;
    if sweepNum' == tempRes {
      sweepNum' := 0;
      divNum' := divNum' + 1;
      if divNum' == phaseRes {
        divNum' := 0;
        DivModUnique(next, n, 1, 0);
      } else {
        DivModUnique(next, n, 0, next);
      }
    } else {
      DivModUnique(next, n, 0, next);
    }
  }

  lemma MulLess(a: nat, b: nat, n: nat)
    requires a <= b
    ensures a * n <= b * n
  {
    MulSub(b, a, n);
  }

  // ---------------------------------------------------------------------
  // Absolute deadlines (absSleep)
  // ---------------------------------------------------------------------

  datatype Timespec = Timespec(tvSec: int, tvNsec: int)

  function Nanos(t: Timespec): int
  {
    t.tvSec * NANOS_PER_SECOND + t.tvNsec
  }

  predicate Normalized(t: Timespec)
  {
    0 <= t.tvNsec < NANOS_PER_SECOND
  }

  /** The deadline update of absSleep: adds `nanoseconds` to `t`, carrying at
      most one second into tv_sec. */
  function AddNanoseconds(t: Timespec, nanoseconds: int): (r: Timespec)
    ensures Nanos(r) == Nanos(t) + nanoseconds
    ensures Normalized(t) && 0 <= nanoseconds < NANOS_PER_SECOND ==> Normalized(r)
    ensures r.tvSec == t.tvSec || r.tvSec == t.tvSec + 1
  {
    var newTime := t.tvNsec + nanoseconds;
    if newTime > 999999999 then Timespec(t.tvSec + 1, newTime - NANOS_PER_SECOND)
    else Timespec(t.tvSec, newTime)
  }

  /** The absolute clock: `time1` is the global deadline, `deadlines` logs each
      clock_nanosleep(CLOCK_REALTIME, TIMER_ABSTIME, ...) call, and `errors` maps
      the number (from 0) of each call that fails to the error number it
      returns; every other call returns 0. */
  class Clock {
    const errors: map<nat, int>
    var time1: Timespec
    var deadlines: seq<Timespec>

    constructor (errors: map<nat, int>, time1: Timespec)
      ensures this.errors == errors && this.time1 == time1 && deadlines == []
    {
      this.errors := errors;
      this.time1 := time1;
      deadlines := [];
    }

    /** absSleep: moves the deadline on by `nanoseconds` from its previous
        value (not from the current time) and sleeps until it. */
    method AbsSleep(nanoseconds: int) returns (ret: int)
      modifies this
      ensures time1 == AddNanoseconds(old(time1), nanoseconds)
      ensures deadlines == old(deadlines) + [time1]
      ensures ret == if |old(deadlines)| in errors then errors[|old(deadlines)|] else 0
    {
      time1 := AddNanoseconds(time1, nanoseconds);
      ret := if |deadlines| in errors then errors[|deadlines|] else 0;
      deadlines := deadlines + [time1];
    }
  }

  // ---------------------------------------------------------------------
  // What one run of the scheduler writes
  // ---------------------------------------------------------------------

  /** A compiled truth table with at least one division, rows of TEMPORAL_RESOLUTION. */
  predicate WellFormed(t: seq<seq<bool>>)
  {
    |t| >= 1 && forall i :: 0 <= i < |t| ==> |t[i]| == TEMPORAL_RESOLUTION
  }

  /** The table entry the scheduler reads at tick m: the entries are read
      row by row, sub-slot by sub-slot, starting over after the last row. */
  function ValueAt(t: seq<seq<bool>>, m: nat): bool
    requires WellFormed(t)
  {
    var x := m % (|t| * TEMPORAL_RESOLUTION);
    t[x / TEMPORAL_RESOLUTION][x % TEMPORAL_RESOLUTION]
  }

  /** The isHigh bit before tick m (all bits start false). */
  function CachedAt(t: seq<seq<bool>>, m: nat): bool
    requires WellFormed(t)
  {
    if m == 0 then false else ValueAt(t, m - 1)
  }

  /** The write evaluateLine issues for one line at tick m, if any. */
  function EdgeWrite(t: seq<seq<bool>>, offset: int, m: nat): seq<LineWrite>
    requires WellFormed(t)
  {
    Transition(offset, ValueAt(t, m), CachedAt(t, m))
  }

  predicate ValidTables(tables: seq<seq<seq<bool>>>)
  {
    |tables| == NUM_LINES && forall k :: 0 <= k < NUM_LINES ==> WellFormed(tables[k])
  }

  /** The writes of tick m: line 0, then line 1, then line 2. */
  function TickWrites(tables: seq<seq<seq<bool>>>, m: nat): seq<LineWrite>
    requires ValidTables(tables)
  {
    EdgeWrite(tables[0], LINE_OFFSETS[0], m) + EdgeWrite(tables[1], LINE_OFFSETS[1], m)
      + EdgeWrite(tables[2], LINE_OFFSETS[2], m)
  }

  /** The writes of the first n ticks. */
  function RunWrites(tables: seq<seq<seq<bool>>>, n: nat): seq<LineWrite>
    requires ValidTables(tables)
  {
    if n == 0 then [] else RunWrites(tables, n - 1) + TickWrites(tables, n - 1)
  }

  /** The row-major sequence of the entries read over the first n ticks. */
  function Schedule(t: seq<seq<bool>>, n: nat): (s: seq<bool>)
    requires WellFormed(t)
    ensures |s| == n && forall m :: 0 <= m < n ==> s[m] == ValueAt(t, m)
  {
    if n == 0 then [] else Schedule(t, n - 1) + [ValueAt(t, n - 1)]
  }

  /** Number of logical transitions among the first n entries of `s`,
      counting a change from `previous` at the first. */
  function TransitionsIn(s: seq<bool>, n: nat, previous: bool): nat
    requires n <= |s|
  {
    if n == 0 then 0
    else TransitionsIn(s, n - 1, previous) + (if s[n - 1] != (if n == 1 then previous else s[n - 2]) then 1 else 0)
  }

  /** Number of logical transitions of `s`, counting a change from `previous`. */
  function Changes(s: seq<bool>, previous: bool): nat
  {
    TransitionsIn(s, |s|, previous)
  }

  /** Number of writes to line `offset` among the first n entries of a log. */
  function WritesIn(log: seq<LineWrite>, n: nat, offset: int): nat
    requires n <= |log|
  {
    if n == 0 then 0 else WritesIn(log, n - 1, offset) + (if log[n - 1].offset == offset then 1 else 0)
  }

  /** Number of writes to line `offset` in a log. */
  function WritesTo(log: seq<LineWrite>, offset: int): nat
  {
    WritesIn(log, |log|, offset)
  }

  /** The level last written to line `offset` among the first n entries of a
      log, or `initial` if none was. */
  function LevelAfter(log: seq<LineWrite>, n: nat, offset: int, initial: LineValue): LineValue
    requires n <= |log|
  {
    if n == 0 then initial
    else if log[n - 1].offset == offset then log[n - 1].value
    else LevelAfter(log, n - 1, offset, initial)
  }

  /** The level last written to line `offset`, or `initial` if none was. */
  function LastLevel(log: seq<LineWrite>, offset: int, initial: LineValue): LineValue
  {
    LevelAfter(log, |log|, offset, initial)
  }

  /** Appending entries does not change what a prefix of the log says. */
  lemma {:induction false} PrefixUnchanged(a: seq<LineWrite>, b: seq<LineWrite>, n: nat, offset: int, initial: LineValue)
    requires n <= |a|
    ensures WritesIn(a + b, n, offset) == WritesIn(a, n, offset)
    ensures LevelAfter(a + b, n, offset, initial) == LevelAfter(a, n, offset, initial)
  {
    if n > 0 {
      PrefixUnchanged(a, b, n - 1, offset, initial);
      assert (a + b)[n - 1] == a[n - 1];
    }
  }

  lemma {:induction false} SuffixCounted(a: seq<LineWrite>, b: seq<LineWrite>, j: nat, offset: int, initial: LineValue)
    requires j <= |b|
    ensures WritesIn(a + b, |a| + j, offset) == WritesTo(a, offset) + WritesIn(b, j, offset)
    ensures LevelAfter(a + b, |a| + j, offset, initial) == LevelAfter(b, j, offset, LastLevel(a, offset, initial))
  {
    if j == 0 {
      PrefixUnchanged(a, b, |a|, offset, initial);
    } else {
      SuffixCounted(a, b, j - 1, offset, initial);
      assert (a + b)[|a| + j - 1] == b[j - 1];
    }
  }

  lemma ChangesSnoc(s: seq<bool>, previous: bool, x: bool)
    ensures Changes(s + [x], previous) ==
      Changes(s, previous) + (if x != (if s == [] then previous else s[|s| - 1]) then 1 else 0)
  {
    TransitionsPrefix(s, x, |s|, previous);
  }

  lemma {:induction false} TransitionsPrefix(s: seq<bool>, x: bool, n: nat, previous: bool)
    requires n <= |s|
    ensures TransitionsIn(s + [x], n, previous) == TransitionsIn(s, n, previous)
  {
    if n > 0 {
      TransitionsPrefix(s, x, n - 1, previous);
      assert (s + [x])[n - 1] == s[n - 1];
      if n > 1 {
        assert (s + [x])[n - 2] == s[n - 2];
      }
    }
  }

  lemma WritesToAppend(a: seq<LineWrite>, b: seq<LineWrite>, offset: int)
    ensures WritesTo(a + b, offset) == WritesTo(a, offset) + WritesTo(b, offset)
  {
    SuffixCounted(a, b, |b|, offset, Inactive);
  }

  lemma LastLevelAppend(a: seq<LineWrite>, b: seq<LineWrite>, offset: int, initial: LineValue)
    ensures LastLevel(a + b, offset, initial) == LastLevel(b, offset, LastLevel(a, offset, initial))
  {
    SuffixCounted(a, b, |b|, offset, initial);
  }

  /** `e` is empty or a single write to line `offset`. */
  predicate AtMostOneWrite(e: seq<LineWrite>, offset: int)
  {
    e == [] || (|e| == 1 && e[0].offset == offset)
  }

  lemma OneWriteSeen(e: seq<LineWrite>, lineOffset: int, offset: int, initial: LineValue)
    requires AtMostOneWrite(e, lineOffset)
    ensures WritesTo(e, offset) == if e != [] && lineOffset == offset then 1 else 0
    ensures LastLevel(e, offset, initial) == if e != [] && lineOffset == offset then e[0].value else initial
  {
    if e != [] {
      assert WritesIn(e, 0, offset) == 0 && LevelAfter(e, 0, offset, initial) == initial;
    }
  }

  /** Three logs of at most one write each, to the three distinct lines in
      order: line k sees exactly the k-th of them. */
  lemma ThreeLinesTouch(e0: seq<LineWrite>, e1: seq<LineWrite>, e2: seq<LineWrite>, k: nat, initial: LineValue)
    requires AtMostOneWrite(e0, LINE_OFFSETS[0]) && AtMostOneWrite(e1, LINE_OFFSETS[1])
    requires AtMostOneWrite(e2, LINE_OFFSETS[2]) && k < NUM_LINES
    ensures var ek := if k == 0 then e0 else if k == 1 then e1 else e2;
      WritesTo(e0 + e1 + e2, LINE_OFFSETS[k]) == |ek|
      && LastLevel(e0 + e1 + e2, LINE_OFFSETS[k], initial) == (if ek == [] then initial else ek[0].value)
  {
    var off := LINE_OFFSETS[k];
    WritesToAppend(e0 + e1, e2, off);
    WritesToAppend(e0, e1, off);
    LastLevelAppend(e0 + e1, e2, off, initial);
    LastLevelAppend(e0, e1, off, initial);
    OneWriteSeen(e0, LINE_OFFSETS[0], off, LastLevel([], off, initial));
    OneWriteSeen(e1, LINE_OFFSETS[1], off, LastLevel(e0, off, initial));
    OneWriteSeen(e2, LINE_OFFSETS[2], off, LastLevel(e0 + e1, off, initial));
    OneWriteSeen(e0, LINE_OFFSETS[0], off, initial);
  }

  /** How the writes of one tick touch line k: one write of the new value to
      LINE_OFFSETS[k] exactly when its table entry changes. */
  lemma TickWritesTo(tables: seq<seq<seq<bool>>>, m: nat, k: nat, initial: LineValue)
    requires ValidTables(tables) && k < NUM_LINES
    ensures WritesTo(TickWrites(tables, m), LINE_OFFSETS[k]) ==
      if ValueAt(tables[k], m) != CachedAt(tables[k], m) then 1 else 0
    ensures LastLevel(TickWrites(tables, m), LINE_OFFSETS[k], initial) ==
      if ValueAt(tables[k], m) != CachedAt(tables[k], m) then LevelOf(ValueAt(tables[k], m)) else initial
  {
    ThreeLinesTouch(EdgeWrite(tables[0], LINE_OFFSETS[0], m), EdgeWrite(tables[1], LINE_OFFSETS[1], m),
      EdgeWrite(tables[2], LINE_OFFSETS[2], m), k, initial);
  }

  /** Edge-only writes: over the first n ticks, line k is written once per
      transition of the row-major sequence of its table entries, counting a
      change from the initial false, and not once per tick. */
  lemma {:induction false} EdgeOnlyWrites(tables: seq<seq<seq<bool>>>, n: nat, k: nat)
    requires ValidTables(tables) && k < NUM_LINES
    ensures WritesTo(RunWrites(tables, n), LINE_OFFSETS[k]) == Changes(Schedule(tables[k], n), false)
  {
    if n > 0 {
      var log, tick := RunWrites(tables, n - 1), TickWrites(tables, n - 1);
      assert RunWrites(tables, n) == log + tick;
      var s := Schedule(tables[k], n - 1);
      assert Schedule(tables[k], n) == s + [ValueAt(tables[k], n - 1)];
      EdgeOnlyWrites(tables, n - 1, k);
      WritesToAppend(log, tick, LINE_OFFSETS[k]);
      TickWritesTo(tables, n - 1, k, Inactive);
      ChangesSnoc(s, false, ValueAt(tables[k], n - 1));
      if n > 1 {
        assert s[n - 2] == ValueAt(tables[k], n - 2);
      }
    }
  }

  lemma LastLevelStep(log: seq<LineWrite>, tick: seq<LineWrite>, offset: int, value: bool, cached: bool)
    requires LastLevel(log, offset, Inactive) == LevelOf(cached)
    requires LastLevel(tick, offset, LevelOf(cached)) == if value != cached then LevelOf(value) else LevelOf(cached)
    ensures LastLevel(log + tick, offset, Inactive) == LevelOf(value)
  {
    LastLevelAppend(log, tick, offset, Inactive);
  }

  /** The cache equals the last commanded value: after n ticks the level last
      written to line k (Inactive if none) is isHigh[k]. */
  lemma {:induction false} CacheIsLastCommand(tables: seq<seq<seq<bool>>>, n: nat, k: nat)
    requires ValidTables(tables) && k < NUM_LINES
    ensures LastLevel(RunWrites(tables, n), LINE_OFFSETS[k], Inactive) == LevelOf(CachedAt(tables[k], n))
  {
    if n > 0 {
      CacheIsLastCommand(tables, n - 1, k);
      var before := LevelOf(CachedAt(tables[k], n - 1));
      TickWritesTo(tables, n - 1, k, before);
      LastLevelStep(RunWrites(tables, n - 1), TickWrites(tables, n - 1), LINE_OFFSETS[k],
        ValueAt(tables[k], n - 1), CachedAt(tables[k], n - 1));
    }
  }

  lemma {:induction false} LevelAfterUnwritten(log: seq<LineWrite>, n: nat, offset: int, initial: LineValue)
    requires n <= |log| && WritesIn(log, n, offset) == 0
    ensures LevelAfter(log, n, offset, initial) == initial
  {
    if n > 0 {
      LevelAfterUnwritten(log, n - 1, offset, initial);
    }
  }

  lemma {:induction false} LevelAfterWritten(log: seq<LineWrite>, n: nat, offset: int, a: LineValue, b: LineValue)
    requires n <= |log| && WritesIn(log, n, offset) > 0
    ensures LevelAfter(log, n, offset, a) == LevelAfter(log, n, offset, b)
  {
    if log[n - 1].offset != offset {
      LevelAfterWritten(log, n - 1, offset, a, b);
    }
  }

  /** The level last commanded for line k (the request's initial value until
      the first set-value call on it; a call counts whether or not it failed)
      agrees with the cached isHigh bit exactly when the lines were requested
      Inactive or line k has been commanded at least once. */
  lemma LineLevelMatchesCache(tables: seq<seq<seq<bool>>>, n: nat, k: nat, initial: LineValue)
    requires ValidTables(tables) && k < NUM_LINES
    ensures var log := RunWrites(tables, n);
      (LastLevel(log, LINE_OFFSETS[k], initial) == LevelOf(CachedAt(tables[k], n)))
      <==> (initial == Inactive || WritesTo(log, LINE_OFFSETS[k]) > 0)
  {
    var log := RunWrites(tables, n);
    CacheIsLastCommand(tables, n, k);
    if WritesTo(log, LINE_OFFSETS[k]) > 0 {
      LevelAfterWritten(log, |log|, LINE_OFFSETS[k], initial, Inactive);
    } else {
      LevelAfterUnwritten(log, |log|, LINE_OFFSETS[k], initial);
      LevelAfterUnwritten(log, |log|, LINE_OFFSETS[k], Inactive);
    }
  }

  /** With the lines requested Active, as main does, a line whose table starts
      low is never written on the first tick and stays high while isHigh says low. */
  lemma ActiveRequestDisagreesWithCache()
    ensures var low := [Repeat(false, TEMPORAL_RESOLUTION)];
      var tables := [low, low, low];
      ValidTables(tables)
      && !CachedAt(tables[2], 1)
      && LastLevel(RunWrites(tables, 1), LINE_OFFSETS[2], Active) == Active
  {
    var low := [Repeat(false, TEMPORAL_RESOLUTION)];
    var tables := [low, low, low];
    assert ValueAt(low, 0) == false;
    assert TickWrites(tables, 0) == [];
  }

  /** One counter advance moves the counters from tick m to tick m + 1. */
  lemma CountersAdvance(m: nat, phaseRes: nat, tempRes: nat, divNum: nat, sweepNum: nat, divNum': nat, sweepNum': nat)
    requires phaseRes >= 1 && tempRes == TEMPORAL_RESOLUTION
    requires Counters(divNum, sweepNum) == CountersAt(m, phaseRes)
    requires divNum' < phaseRes && sweepNum' < tempRes
    requires divNum' * tempRes + sweepNum' == (divNum * tempRes + sweepNum + 1) % (phaseRes * tempRes)
    ensures CountersAt(m + 1, phaseRes) == Counters(divNum', sweepNum')
  {
    var n := phaseRes * TEMPORAL_RESOLUTION;
    ModSucc(m, n);
    CountersRowMajor(m, phaseRes);
    CountersRowMajor(m + 1, phaseRes);
    var c' := CountersAt(m + 1, phaseRes);
    DivModUnique(divNum' * TEMPORAL_RESOLUTION + sweepNum', TEMPORAL_RESOLUTION, divNum', sweepNum');
    DivModUnique(c'.divNum * TEMPORAL_RESOLUTION + c'.sweepNum, TEMPORAL_RESOLUTION, c'.divNum, c'.sweepNum);
  }

  // ---------------------------------------------------------------------
  // The main program, for a bounded number of ticks
  // ---------------------------------------------------------------------

  /** The absolute deadline, in nanoseconds, after `ticks` calls of absSleep
      starting from `start`: each call moves it on by one SLEEP_TIME. */
  function DeadlineAfter(start: Timespec, ticks: nat): int
  {
    if ticks == 0 then Nanos(start) else DeadlineAfter(start, ticks - 1) + SLEEP_TIME
  }

  /** No drift: the deadline after k ticks is exactly k * 33333 ns after the
      start, however long each loop iteration took. */
  lemma {:induction false} DeadlineAfterClosedForm(start: Timespec, ticks: nat)
    ensures DeadlineAfter(start, ticks) == Nanos(start) + ticks * 33333
  {
    SleepTimeValue();
    if ticks > 0 {
      DeadlineAfterClosedForm(start, ticks - 1);
    }
  }

  /** `ds` are the deadlines of successive ticks from `start`: the l-th (from
      0) is l + 1 tick intervals after `start`, and they are normalised
      whenever `start` is. */
  predicate DeadlinesFrom(ds: seq<Timespec>, start: Timespec)
  {
    (forall l :: 0 <= l < |ds| ==> Nanos(ds[l]) == DeadlineAfter(start, l + 1))
    && (Normalized(start) ==> forall l :: 0 <= l < |ds| ==> Normalized(ds[l]))
  }

  lemma DeadlinesFromSnoc(ds: seq<Timespec>, start: Timespec, t: Timespec)
    requires DeadlinesFrom(ds, start)
    requires Nanos(t) == DeadlineAfter(start, |ds| + 1) && (Normalized(start) ==> Normalized(t))
    ensures DeadlinesFrom(ds + [t], start)
  {
  }

  /** The clock has slept `tick` times since `deadlines0` was its log and
      `now` the time read at start-up: one deadline per tick, none drifting. */
  ghost predicate SleptFrom(clock: Clock, deadlines0: seq<Timespec>, now: Timespec, tick: nat)
    reads clock
  {
    |clock.deadlines| == |deadlines0| + tick && clock.deadlines[..|deadlines0|] == deadlines0
    && DeadlinesFrom(clock.deadlines[|deadlines0|..], now)
    && Nanos(clock.time1) == DeadlineAfter(now, tick) && (Normalized(now) ==> Normalized(clock.time1))
  }

  lemma AppendAssoc<T>(a: seq<T>, b: seq<T>, c: seq<T>)
    ensures (a + b) + c == a + (b + c)
  {
  }

  /** The array `a` holds the compiled table `t`. */
  ghost predicate Holds(a: array2<bool>, t: seq<seq<bool>>)
    reads a
  {
    a.Length0 == |t| && a.Length1 == TEMPORAL_RESOLUTION
    && forall i, j :: 0 <= i < a.Length0 && 0 <= j < TEMPORAL_RESOLUTION ==> |t[i]| == TEMPORAL_RESOLUTION && a[i, j] == t[i][j]
  }

  /** The three arrays hold the three compiled tables, each of `phaseRes` rows. */
  ghost predicate Compiled(tables: seq<seq<seq<bool>>>, phaseRes: nat,
                           phase1TruthTable: array2<bool>, phase2TruthTable: array2<bool>,
                           phase3TruthTable: array2<bool>)
    reads phase1TruthTable, phase2TruthTable, phase3TruthTable
  {
    phaseRes >= 1 && ValidTables(tables)
    && |tables[0]| == phaseRes && |tables[1]| == phaseRes && |tables[2]| == phaseRes
    && Holds(phase1TruthTable, tables[0]) && Holds(phase2TruthTable, tables[1]) && Holds(phase3TruthTable, tables[2])
  }

  /** The isHigh cache holds each line's value before tick `tick`. */
  ghost predicate CacheAt(isHigh: array<bool>, tables: seq<seq<seq<bool>>>, tick: nat)
    requires ValidTables(tables)
    reads isHigh
  {
    isHigh.Length == NUM_LINES && forall k :: 0 <= k < NUM_LINES ==> isHigh[k] == CachedAt(tables[k], tick)
  }

  /** The entry the counters of tick `tick` select from an array holding `t`. */
  lemma HeldValue(a: array2<bool>, t: seq<seq<bool>>, tick: nat, divNum: nat, sweepNum: nat)
    requires WellFormed(t) && Holds(a, t) && Counters(divNum, sweepNum) == CountersAt(tick, |t|)
    ensures divNum < a.Length0 && sweepNum < a.Length1 && a[divNum, sweepNum] == ValueAt(t, tick)
  {
    CountersRowMajor(tick, |t|);
    DivModUnique(tick % (|t| * TEMPORAL_RESOLUTION), TEMPORAL_RESOLUTION, divNum, sweepNum);
  }

  /** The three evaluateLine calls of one tick, in order: lines 0, 1 and 2
      each see the entry the counters select from their own table. */
  method EvaluateLines(request: LineRequest, divNum: nat, sweepNum: nat,
                       phase1TruthTable: array2<bool>, phase2TruthTable: array2<bool>,
                       phase3TruthTable: array2<bool>, isHigh: array<bool>)
    requires divNum < phase1TruthTable.Length0 && sweepNum < phase1TruthTable.Length1
    requires divNum < phase2TruthTable.Length0 && sweepNum < phase2TruthTable.Length1
    requires divNum < phase3TruthTable.Length0 && sweepNum < phase3TruthTable.Length1
    requires isHigh.Length == NUM_LINES
    modifies request, isHigh
    ensures request.writes == old(request.writes)
      + Transition(LINE_OFFSETS[0], phase1TruthTable[divNum, sweepNum], old(isHigh[0]))
      + Transition(LINE_OFFSETS[1], phase2TruthTable[divNum, sweepNum], old(isHigh[1]))
      + Transition(LINE_OFFSETS[2], phase3TruthTable[divNum, sweepNum], old(isHigh[2]))
    ensures isHigh[0] == phase1TruthTable[divNum, sweepNum] && isHigh[1] == phase2TruthTable[divNum, sweepNum]
      && isHigh[2] == phase3TruthTable[divNum, sweepNum]
  {
    var _ := EvaluateLine(request, divNum, sweepNum, phase1TruthTable, 0, isHigh);
    var _ := EvaluateLine(request, divNum, sweepNum, phase2TruthTable, 1, isHigh);
    var _ := EvaluateLine(request, divNum, sweepNum, phase3TruthTable, 2, isHigh);
  }

  /** The writes of tick `tick` are the transitions of the three lines in
      order, and each line's entry becomes its cached bit for tick + 1. */
  lemma TickStep(tables: seq<seq<seq<bool>>>, tick: nat, writes0: seq<LineWrite>,
                 v0: bool, v1: bool, v2: bool, c0: bool, c1: bool, c2: bool)
    requires ValidTables(tables)
    requires v0 == ValueAt(tables[0], tick) && v1 == ValueAt(tables[1], tick) && v2 == ValueAt(tables[2], tick)
    requires c0 == CachedAt(tables[0], tick) && c1 == CachedAt(tables[1], tick) && c2 == CachedAt(tables[2], tick)
    ensures writes0 + RunWrites(tables, tick)
      + Transition(LINE_OFFSETS[0], v0, c0) + Transition(LINE_OFFSETS[1], v1, c1) + Transition(LINE_OFFSETS[2], v2, c2)
      == writes0 + RunWrites(tables, tick + 1)
    ensures v0 == CachedAt(tables[0], tick + 1) && v1 == CachedAt(tables[1], tick + 1) && v2 == CachedAt(tables[2], tick + 1)
  {
    var r := RunWrites(tables, tick);
    var t0, t1, t2 := Transition(LINE_OFFSETS[0], v0, c0), Transition(LINE_OFFSETS[1], v1, c1), Transition(LINE_OFFSETS[2], v2, c2);
    assert TickWrites(tables, tick) == t0 + t1 + t2;
    AppendAssoc(writes0, r, t0 + t1 + t2);
    AppendAssoc(writes0 + r, t0, t1);
    AppendAssoc(writes0 + r, t0 + t1, t2);
    AppendAssoc(writes0 + r + t0, t1, t2);
  }

  /** A cache whose three bits are the cached bits of tick `tick`. */
  lemma CacheFromLines(isHigh: array<bool>, tables: seq<seq<seq<bool>>>, tick: nat)
    requires ValidTables(tables) && isHigh.Length == NUM_LINES
    requires isHigh[0] == CachedAt(tables[0], tick) && isHigh[1] == CachedAt(tables[1], tick)
      && isHigh[2] == CachedAt(tables[2], tick)
    ensures CacheAt(isHigh, tables, tick)
  {
  }

  /** The evaluateLine calls of tick `tick`: the log grows by that tick's
      writes and the cache moves on to tick + 1. */
  method EvaluateTick(request: LineRequest, phaseRes: nat,
                      phase1TruthTable: array2<bool>, phase2TruthTable: array2<bool>,
                      phase3TruthTable: array2<bool>, isHigh: array<bool>,
                      divNum: nat, sweepNum: nat, ghost tables: seq<seq<seq<bool>>>, ghost tick: nat,
                      ghost writes0: seq<LineWrite>)
    requires Compiled(tables, phaseRes, phase1TruthTable, phase2TruthTable, phase3TruthTable)
    requires Counters(divNum, sweepNum) == CountersAt(tick, phaseRes)
    requires CacheAt(isHigh, tables, tick)
    requires request.writes == writes0 + RunWrites(tables, tick)
    modifies request, isHigh
    ensures request.writes == writes0 + RunWrites(tables, tick + 1)
    ensures CacheAt(isHigh, tables, tick + 1)
  {
    HeldValue(phase1TruthTable, tables[0], tick, divNum, sweepNum);
    HeldValue(phase2TruthTable, tables[1], tick, divNum, sweepNum);
    HeldValue(phase3TruthTable, tables[2], tick, divNum, sweepNum);
    ghost var c0, c1, c2 := isHigh[0], isHigh[1], isHigh[2];
    EvaluateLines(request, divNum, sweepNum, phase1TruthTable, phase2TruthTable, phase3TruthTable, isHigh);
    TickStep(tables, tick, writes0, isHigh[0], isHigh[1], isHigh[2], c0, c1, c2);
    CacheFromLines(isHigh, tables, tick + 1);
  }

  /** The absSleep call closing tick `tick`: one more deadline, SLEEP_TIME
      after the previous one. */
  method SleepTick(clock: Clock, ghost now: Timespec, ghost deadlines0: seq<Timespec>, ghost tick: nat)
    requires SleptFrom(clock, deadlines0, now, tick)
    modifies clock
    ensures SleptFrom(clock, deadlines0, now, tick + 1)
  {
    ghost var slept := clock.deadlines[|deadlines0|..];
    SleepTimeValue();
    var _ := clock.AbsSleep(SLEEP_TIME);
    assert clock.deadlines[|deadlines0|..] == slept + [clock.time1];
    DeadlinesFromSnoc(slept, now, clock.time1);
  }

  /** One iteration of the PWM loop: evaluate the three lines, advance the
      counters, sleep until the next deadline. */
  method PwmLoopIteration(request: LineRequest, clock: Clock, phaseRes: nat, tempRes: nat,
                          phase1TruthTable: array2<bool>, phase2TruthTable: array2<bool>,
                          phase3TruthTable: array2<bool>, isHigh: array<bool>,
                          divNum: nat, sweepNum: nat, ghost tables: seq<seq<seq<bool>>>, ghost tick: nat,
                          ghost writes0: seq<LineWrite>, ghost now: Timespec, ghost deadlines0: seq<Timespec>)
    returns (divNum': nat, sweepNum': nat)
    requires tempRes == TEMPORAL_RESOLUTION
    requires Compiled(tables, phaseRes, phase1TruthTable, phase2TruthTable, phase3TruthTable)
    requires Counters(divNum, sweepNum) == CountersAt(tick, phaseRes)
    requires CacheAt(isHigh, tables, tick)
    requires SleptFrom(clock, deadlines0, now, tick)
    requires request.writes == writes0 + RunWrites(tables, tick)
    modifies request, isHigh, clock
    ensures request.writes == writes0 + RunWrites(tables, tick + 1)
    ensures Counters(divNum', sweepNum') == CountersAt(tick + 1, phaseRes)
    ensures CacheAt(isHigh, tables, tick + 1)
    ensures SleptFrom(clock, deadlines0, now, tick + 1)
  {
    EvaluateTick(request, phaseRes, phase1TruthTable, phase2TruthTable, phase3TruthTable, isHigh,
                 divNum, sweepNum, tables, tick, writes0);
    divNum', sweepNum' := AdvanceCounters(divNum, sweepNum, phaseRes, tempRes);
    CountersAdvance(tick, phaseRes, tempRes, divNum, sweepNum, divNum', sweepNum');
    SleepTick(clock, now, deadlines0, tick);
  }

  /** The PWM loop of main, run for `ticks` iterations from counters (0, 0),
      an all-false cache and the deadline `now`. */
  method PwmLoop(request: LineRequest, clock: Clock, now: Timespec, ticks: nat, phaseRes: nat,
                 phase1TruthTable: array2<bool>, phase2TruthTable: array2<bool>, phase3TruthTable: array2<bool>,
                 ghost tables: seq<seq<seq<bool>>>)
    requires Compiled(tables, phaseRes, phase1TruthTable, phase2TruthTable, phase3TruthTable)
    modifies request, clock
    ensures request.writes == old(request.writes) + RunWrites(tables, ticks)
    ensures |clock.deadlines| == |old(clock.deadlines)| + ticks
    ensures clock.deadlines[..|old(clock.deadlines)|] == old(clock.deadlines)
    ensures DeadlinesFrom(clock.deadlines[|old(clock.deadlines)|..], now)
  {
    ghost var writes0, deadlines0 := request.writes, clock.deadlines;
    var divNum: nat, sweepNum: nat := 0, 0;
    var tempRes: nat := TEMPORAL_RESOLUTION;
    var isHigh := new bool[NUM_LINES](_ => false);
    clock.time1 := now;  // clock_gettime
    assert clock.deadlines[|deadlines0|..] == [];
    var tick: nat := 0;
    while tick < ticks
      invariant tick <= ticks
      invariant Counters(divNum, sweepNum) == CountersAt(tick, phaseRes)
      invariant CacheAt(isHigh, tables, tick)
      invariant request.writes == writes0 + RunWrites(tables, tick)
      invariant SleptFrom(clock, deadlines0, now, tick)
    {
      divNum, sweepNum := PwmLoopIteration(request, clock, phaseRes, tempRes, phase1TruthTable, phase2TruthTable,
                                           phase3TruthTable, isHigh, divNum, sweepNum, tables, tick, writes0, now, deadlines0);
      tick := tick + 1;
    }
  }

  /** main (after the line request and the sine tables): compiles one truth
      table per phase, reports the true frequency, and runs `ticks` iterations
      of the PWM loop. The writes issued are exactly the edges of the three
      tables read in row-major order, and the l-th deadline (from 0) is
      l + 1 tick intervals after the clock reading taken before the loop,
      whatever the loop body costs. */
  method PwmMain(sinLookup: seq<real>, sin120Lookup: seq<real>, sin240Lookup: seq<real>, drvFreq: real,
                 request: LineRequest, clock: Clock, now: Timespec, ticks: nat)
    returns (trueFrequency: real)
    requires |sinLookup| == TABLE_DEGREES && |sin120Lookup| == TABLE_DEGREES && |sin240Lookup| == TABLE_DEGREES
    requires drvFreq != 0.0 && 1 <= PhaseResolution(drvFreq) < MAX_PHASE_RESOLUTION
    modifies request, clock
    ensures var p := PhaseResolution(drvFreq);
      trueFrequency == TrueFreq(p)
      && request.writes == old(request.writes) +
           RunWrites([TruthTable(sinLookup, p), TruthTable(sin120Lookup, p), TruthTable(sin240Lookup, p)], ticks)
    ensures |clock.deadlines| == |old(clock.deadlines)| + ticks
    ensures clock.deadlines[..|old(clock.deadlines)|] == old(clock.deadlines)
    ensures DeadlinesFrom(clock.deadlines[|old(clock.deadlines)|..], now)
  {
    var phaseRes: nat := PhaseResolution(drvFreq);
    var phase1TruthTable := new bool[phaseRes, TEMPORAL_RESOLUTION];
    var phase2TruthTable := new bool[phaseRes, TEMPORAL_RESOLUTION];
    var phase3TruthTable := new bool[phaseRes, TEMPORAL_RESOLUTION];
    GenerateTruthTable(sinLookup, phase1TruthTable, phaseRes);
    GenerateTruthTable(sin120Lookup, phase2TruthTable, phaseRes);
    GenerateTruthTable(sin240Lookup, phase3TruthTable, phaseRes);
    trueFrequency := TrueFreq(phaseRes);
    ghost var tables := [TruthTable(sinLookup, phaseRes), TruthTable(sin120Lookup, phaseRes),
                         TruthTable(sin240Lookup, phaseRes)];
    PwmLoop(request, clock, now, ticks, phaseRes, phase1TruthTable, phase2TruthTable, phase3TruthTable, tables);
  }
}
