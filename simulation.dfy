/**
 * What the two data generators share: the network flow unit converted to
 * litres per second, the leak emitter switched on once and off once as the
 * hydraulic clock advances, and the leak size estimated from the leak node's
 * pressure during the leak.
 */
module Simulation {
  import opened Wrappers
  import opened Seqs
  import opened Strings

  // ---------------------------------------------------------------------------
  // Flow units

  /** _flow_to_lps_factor: litres per second in one unit of the network's flow; None is an unknown unit. */
  function FlowToLpsFactor(flowUnit: Option<string>): (f: real)
    ensures f > 0.0
  {
    if flowUnit.None? then 1.0 else UnitFactor(Upper(flowUnit.value))
  }

  /** The table, for a unit name already in upper case. */
  function UnitFactor(u: string): (f: real)
    ensures f > 0.0
  {
    if u == "LPS" then 1.0
    else if u == "LPM" then 1.0 / 60.0
    else if u == "CMH" then 1000.0 / 3600.0
    else if u == "CMD" then 1000.0 / 86400.0
    else if u == "MLD" then 1000000.0 / 86400.0
    else if u == "GPM" then 3.785411784 / 60.0
    else if u == "CFS" then 28.316846592
    else if u == "MGD" then (1000000.0 * 3.785411784) / 86400.0
    else if u == "AFD" then (43560.0 * 28.316846592) / 86400.0
    else 1.0
  }

  /** The unit's case does not matter. */
  lemma FlowFactorIgnoresCase(u: string)
    ensures FlowToLpsFactor(Some(Lower(u))) == FlowToLpsFactor(Some(u))
    ensures FlowToLpsFactor(Some(Upper(u))) == FlowToLpsFactor(Some(u))
  {
    UpperIdempotent(u);
  }

  /**
   * The table is consistent: a cubic metre per hour is 24 per day, a
   * megalitre per day is 1000 cubic metres per day, a million gallons per day
   * is a million gallons per minute over 1440 minutes, an acre-foot per day
   * is 43560 cubic feet per day.
   */
  lemma FlowFactorTable()
    ensures UnitFactor("LPS") == 1.0 && UnitFactor("LPM") == 1.0 / 60.0
    ensures UnitFactor("CMH") == 24.0 * UnitFactor("CMD")
    ensures UnitFactor("MLD") == 1000.0 * UnitFactor("CMD")
    ensures UnitFactor("MGD") == 1000000.0 * UnitFactor("GPM") / 1440.0
    ensures UnitFactor("AFD") == 43560.0 * UnitFactor("CFS") / 86400.0
  {
  }

  /** Without a unit, or with one outside the table, flows are taken to be in litres per second already. */
  lemma UnknownUnitIsLps(u: string)
    requires Upper(u) !in {"LPS", "LPM", "CMH", "CMD", "MLD", "GPM", "CFS", "MGD", "AFD"}
    ensures FlowToLpsFactor(Some(u)) == 1.0 && FlowToLpsFactor(Some(Lower(u))) == 1.0 && FlowToLpsFactor(None) == 1.0
  {
    UpperIdempotent(u);
  }

  // ---------------------------------------------------------------------------
  // The emitter toggle

  /** A call setting the leak node's emitter: to the coefficient, or back to 0. */
  datatype Command = SwitchOn(step: nat) | SwitchOff(step: nat)

  /** ts[i] is the first time in ts at or past bound. */
  predicate FirstReach(ts: seq<int>, i: nat, bound: int) {
    i < |ts| && ts[i] >= bound && forall j :: 0 <= j < i ==> ts[j] < bound
  }

  /** One of the first n times is at or past bound. */
  predicate Reached(ts: seq<int>, n: nat, bound: int)
    requires n <= |ts|
  {
    exists j :: 0 <= j < n && ts[j] >= bound
  }

  /** The calls at step i: on first, then off, as the loop body orders them. */
  function StepCommands(ts: seq<int>, i: nat, start: int, end: int): seq<Command>
    requires i < |ts|
  {
    (if FirstReach(ts, i, start) then [SwitchOn(i)] else []) + (if FirstReach(ts, i, end) then [SwitchOff(i)] else [])
  }

  /** The calls made over the first n steps, clocked by ts. */
  function Commands(ts: seq<int>, n: nat, start: int, end: int): seq<Command>
    requires n <= |ts|
  {
    if n == 0 then [] else Commands(ts, n - 1, start, end) + StepCommands(ts, n - 1, start, end)
  }

  /** The `started` / `ended` flags after step i, from the flags before it. */
  lemma ReachedStep(ts: seq<int>, i: nat, bound: int)
    requires i < |ts|
    ensures Reached(ts, i + 1, bound) <==> Reached(ts, i, bound) || ts[i] >= bound
    ensures FirstReach(ts, i, bound) <==> !Reached(ts, i, bound) && ts[i] >= bound
  {
    if Reached(ts, i + 1, bound) && !Reached(ts, i, bound) {
      var j :| 0 <= j < i + 1 && ts[j] >= bound;
      assert j == i;
    }
  }

  /** The calls made are exactly the switch-on at the first time past start and the switch-off at the first past end. */
  lemma {:induction false} CommandsExactly(ts: seq<int>, n: nat, start: int, end: int, c: Command)
    requires n <= |ts|
    ensures c in Commands(ts, n, start, end) <==>
      c.step < n && (if c.SwitchOn? then FirstReach(ts, c.step, start) else FirstReach(ts, c.step, end))
  {
    if n > 0 {
      CommandsExactly(ts, n - 1, start, end, c);
      var before, step := Commands(ts, n - 1, start, end), StepCommands(ts, n - 1, start, end);
      assert Commands(ts, n, start, end) == before + step;
      assert c in step <==> c.step == n - 1 && (if c.SwitchOn? then FirstReach(ts, c.step, start) else FirstReach(ts, c.step, end));
    }
  }

  lemma FirstReachUnique(ts: seq<int>, i: nat, j: nat, bound: int)
    requires FirstReach(ts, i, bound) && FirstReach(ts, j, bound)
    ensures i == j
  {
  }

  /** Each switch happens at most once, and with start <= end it is never switched on after it is off. */
  lemma SwitchesOnce(ts: seq<int>, n: nat, start: int, end: int, c: Command, d: Command)
    requires n <= |ts| && c in Commands(ts, n, start, end) && d in Commands(ts, n, start, end)
    ensures c.SwitchOn? == d.SwitchOn? ==> c == d
    ensures start <= end && c.SwitchOn? && d.SwitchOff? ==> c.step <= d.step
  {
    CommandsExactly(ts, n, start, end, c);
    CommandsExactly(ts, n, start, end, d);
    if c.SwitchOn? == d.SwitchOn? {
      FirstReachUnique(ts, c.step, d.step, if c.SwitchOn? then start else end);
    }
  }

  /** The emitter is on iff the last call switched it on. */
  predicate EmitterOn(cmds: seq<Command>) {
    cmds != [] && cmds[|cmds| - 1].SwitchOn?
  }

  /**
   * With start <= end the emitter is on after n steps iff some time has
   * reached start and none has reached end: once off it stays off.
   */
  lemma {:induction false} EmitterOnIff(ts: seq<int>, n: nat, start: int, end: int)
    requires n <= |ts| && start <= end
    ensures EmitterOn(Commands(ts, n, start, end)) <==> Reached(ts, n, start) && !Reached(ts, n, end)
  {
    if n > 0 {
      var i := n - 1;
      EmitterOnIff(ts, i, start, end);
      ReachedStep(ts, i, start);
      ReachedStep(ts, i, end);
      var prev, step := Commands(ts, i, start, end), StepCommands(ts, i, start, end);
      assert Commands(ts, n, start, end) == prev + step;
      if step == [] {
        AppendEmpty(prev);
      } else {
        assert (prev + step)[|prev + step| - 1] == step[|step| - 1];
      }
    }
  }

  // ---------------------------------------------------------------------------
  // The leak size

  /** A reading of the leak node at a simulator time. */
  type Reading = (int, real)

  /** `Series.clip(lower=0.0)` on one value. */
  function Clip(x: real): (y: real)
    ensures y >= 0.0 && (x >= 0.0 ==> y == x)
  {
    if x < 0.0 then 0.0 else x
  }

  predicate InLeak(start: int, end: int, r: Reading) {
    start <= r.0 < end
  }

  /** The clipped pressures of the readings inside the leak window. */
  function LeakPressures(series: seq<Reading>, start: int, end: int): (ps: seq<real>)
    ensures forall i :: 0 <= i < |ps| ==> ps[i] >= 0.0
    ensures |ps| == |Filter(series, (r: Reading) => InLeak(start, end, r))|
  {
    var inLeak := Filter(series, (r: Reading) => InLeak(start, end, r));
    seq(|inLeak|, i requires 0 <= i < |inLeak| => Clip(inLeak[i].1))
  }

  datatype LeakEstimate = LeakEstimate(sizeLps: real, pressureHead: real)

  /** The leak flow in litres per second at each clipped pressure: coeff · power(p) · factor. */
  function Flows(ps: seq<real>, coeff: real, factor: real, power: real -> real): (qs: seq<real>)
    ensures |qs| == |ps| && forall i :: 0 <= i < |ps| ==> qs[i] == coeff * power(ps[i]) * factor
  {
    seq(|ps|, i requires 0 <= i < |ps| => coeff * power(ps[i]) * factor)
  }

  /**
   * The emitter law averaged over the leak: the mean flow and the mean
   * pressure over the clipped pressures in [start, end); both 0 without such
   * a reading. power is p ↦ p ** exponent.
   */
  function LeakSize(series: seq<Reading>, start: int, end: int, coeff: real, factor: real, power: real -> real): (e: LeakEstimate)
    ensures LeakPressures(series, start, end) == [] ==> e == LeakEstimate(0.0, 0.0)
    ensures LeakPressures(series, start, end) != [] ==>
      e.pressureHead == Mean(LeakPressures(series, start, end)) &&
      e.sizeLps == Mean(Flows(LeakPressures(series, start, end), coeff, factor, power))
  {
    var ps := LeakPressures(series, start, end);
    if ps == [] then LeakEstimate(0.0, 0.0) else LeakEstimate(Mean(Flows(ps, coeff, factor, power)), Mean(ps))
  }

  /** Both estimates are non-negative for a non-negative coefficient and power. */
  lemma LeakSizeNonNegative(series: seq<Reading>, start: int, end: int, coeff: real, factor: real, power: real -> real)
    requires coeff >= 0.0 && factor > 0.0
    requires forall x :: x >= 0.0 ==> power(x) >= 0.0
    ensures LeakSize(series, start, end, coeff, factor, power).sizeLps >= 0.0
    ensures LeakSize(series, start, end, coeff, factor, power).pressureHead >= 0.0
  {
    var ps := LeakPressures(series, start, end);
    if ps != [] {
      var qs := Flows(ps, coeff, factor, power);
      forall i | 0 <= i < |qs| ensures qs[i] >= 0.0 {
        assert power(ps[i]) >= 0.0;
        assert coeff * power(ps[i]) >= 0.0;
      }
      MeanNonNegative(qs);
      MeanNonNegative(ps);
    }
  }

  /** With exponent 1 the leak size is coefficient · factor · mean pressure head. */
  lemma LinearLeakSize(series: seq<Reading>, start: int, end: int, coeff: real, factor: real, power: real -> real)
    requires forall x :: power(x) == x
    ensures var e := LeakSize(series, start, end, coeff, factor, power);
      e.sizeLps == coeff * factor * e.pressureHead
  {
    var ps := LeakPressures(series, start, end);
    if ps != [] {
      var qs := Flows(ps, coeff, factor, power);
      var scaled := Scale(ps, coeff * factor);
      forall i | 0 <= i < |ps| ensures qs[i] == scaled[i] {
        assert power(ps[i]) == ps[i];
        assert coeff * ps[i] * factor == (coeff * factor) * ps[i];
      }
      assert qs == scaled;
      MeanScale(ps, coeff * factor);
    }
  }
}
