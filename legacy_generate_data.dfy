/**
 * The earlier dataset generator: candidate leak nodes, one scenario run
 * (validation, the emitter toggle that acts before each hydraulic step,
 * hourly averaging of the observation pressures, the leak estimate and the
 * row) and the enumeration of the dataset's scenarios.
 *
 * As in the newer generator, the engine's steps are a given sequence of
 * Samples; the node lists of the network are given sequences.
 */
module LegacyGenerateData {
  import opened Wrappers
  import opened Seqs
  import opened Strings
  import opened Dict
  import opened Sorting
  import opened Simulation
  import opened GenerateData

  /** EMITTER_CHOICES: the coefficients every leak node is tried with. */
  const EmitterChoices: seq<real> := [0.01389, 0.02778, 0.1389, 0.2778, 0.4167, 0.5556]

  // ---------------------------------------------------------------------------
  // Node lists

  lemma StrOrder()
    ensures TotalPreorder(StrLe)
  {
    StrLeIsTotalPreorder();
  }

  /** list.sort() on names: ordered, and the same names as often as before. */
  function SortedNames(names: seq<string>): (r: seq<string>)
    ensures SortedBy(r, StrLe) && multiset(r) == multiset(names)
  {
    StrOrder();
    SortBy(names, StrLe)
  }

  function NotExcluded(excludeIds: seq<string>): string -> bool {
    (name: string) => name !in excludeIds
  }

  /** get_leak_nodes_from_inp: the junctions outside the exclusion list, sorted. */
  method LeakNodes(junctions: seq<string>, excludeIds: seq<string>) returns (leakNodes: seq<string>)
    ensures leakNodes == SortedNames(Filter(junctions, NotExcluded(excludeIds)))
  {
    var kept: seq<string> := [];
    for i := 0 to |junctions|
      invariant kept == Filter(junctions[..i], NotExcluded(excludeIds))
    {
      FilterSnoc(junctions[..i], junctions[i], NotExcluded(excludeIds));
      PrefixSnoc(junctions, i);
      if junctions[i] !in excludeIds {
        kept := kept + [junctions[i]];
      } else {
        AppendEmpty(kept);
      }
    }
    PrefixAll(junctions);
    leakNodes := SortedNames(kept);
  }

  /** The leak candidates are sorted and are exactly the junctions that are not excluded. */
  lemma LeakNodesAre(junctions: seq<string>, excludeIds: seq<string>, name: string)
    ensures SortedBy(SortedNames(Filter(junctions, NotExcluded(excludeIds))), StrLe)
    ensures name in SortedNames(Filter(junctions, NotExcluded(excludeIds))) <==> name in junctions && name !in excludeIds
  {
    var kept := Filter(junctions, NotExcluded(excludeIds));
    var r := SortedNames(kept);
    assert name in r <==> name in multiset(r);
    assert name in kept <==> name in multiset(kept);
    if name in junctions && name !in excludeIds {
      var k :| 0 <= k < |junctions| && junctions[k] == name;
      assert NotExcluded(excludeIds)(junctions[k]);
    }
  }

  /** names.append for each of more. */
  method AppendNames(names: seq<string>, more: seq<string>) returns (r: seq<string>)
    ensures r == names + more
  {
    r := names;
    for i := 0 to |more|
      invariant r == names + more[..i]
    {
      PrefixSnoc(more, i);
      AppendAssoc(names, more[..i], [more[i]]);
      r := r + [more[i]];
    }
    PrefixAll(more);
  }

  /** get_all_nodes_from_inp: junctions, tanks and reservoirs, sorted together. */
  method AllNodes(junctions: seq<string>, tanks: seq<string>, reservoirs: seq<string>) returns (names: seq<string>)
    ensures names == SortedNames(junctions + tanks + reservoirs)
  {
    names := AppendNames([], junctions);
    assert names == junctions;
    names := AppendNames(names, tanks);
    names := AppendNames(names, reservoirs);
    names := SortedNames(names);
  }

  /** Every node of the three kinds is listed, as often as it occurs, in order. */
  lemma AllNodesAre(junctions: seq<string>, tanks: seq<string>, reservoirs: seq<string>, name: string)
    ensures var r := SortedNames(junctions + tanks + reservoirs);
      SortedBy(r, StrLe) && |r| == |junctions| + |tanks| + |reservoirs| &&
      (name in r <==> name in junctions || name in tanks || name in reservoirs)
  {
    var all := junctions + tanks + reservoirs;
    var r := SortedNames(all);
    assert |multiset(r)| == |multiset(all)|;
    assert name in r <==> name in multiset(r);
    assert name in all <==> name in multiset(all);
  }

  // ---------------------------------------------------------------------------
  // Hourly averaging

  /** One reported step: its time and the finite pressures read at it, in observation order. */
  datatype TimedRow = TimedRow(t: int, values: seq<real>)

  function TimedRows(samples: seq<Sample>): (rs: seq<TimedRow>)
    ensures |rs| == |samples|
    ensures forall i :: 0 <= i < |samples| ==> rs[i] == TimedRow(samples[i].t, FinitePrefix(samples[i].pressures))
  {
    seq(|samples|, i requires 0 <= i < |samples| => TimedRow(samples[i].t, FinitePrefix(samples[i].pressures)))
  }

  /** One more step adds its row at the end. */
  lemma TimedRowsSnoc(samples: seq<Sample>, i: nat)
    requires i < |samples|
    ensures TimedRows(samples[..i + 1]) == TimedRows(samples[..i]) + [TimedRow(samples[i].t, FinitePrefix(samples[i].pressures))]
  {
  }

  /**
   * row[n] after the inner loop over the observation nodes: the reading
   * written last under the name n, among the positions the loop reached
   * before a break; None when it wrote none. A node listed twice is one key
   * of the dict, so its later reading overwrites the earlier one.
   */
  function Written(obs: seq<string>, vals: seq<real>, n: string): (r: Option<real>)
    ensures r.None? <==> forall k :: 0 <= k < |vals| && k < |obs| ==> obs[k] != n
    ensures r.Some? ==> exists k :: 0 <= k < |vals| && k < |obs| && obs[k] == n && r.value == vals[k]
    decreases |vals|
  {
    if vals == [] then None
    else
      var k := |vals| - 1;
      if k < |obs| && obs[k] == n then Some(vals[k])
      else
        var r := Written(obs, vals[..k], n);
        assert forall i :: 0 <= i < k ==> vals[..k][i] == vals[i];
        r
  }

  /** With no name listed twice, node j's entry is the reading at position j, if the loop reached it. */
  lemma WrittenDistinct(obs: seq<string>, vals: seq<real>, j: nat)
    requires Distinct(obs) && j < |obs|
    ensures Written(obs, vals, obs[j]) == if j < |vals| then Some(vals[j]) else None
  {
    var r := Written(obs, vals, obs[j]);
    if r.Some? {
      var k :| 0 <= k < |vals| && k < |obs| && obs[k] == obs[j] && r.value == vals[k];
      assert k == j;
    }
  }

  /** The step falls in hour h (t // 3600) and its row has an entry for the node named n. */
  predicate InHour(obs: seq<string>, n: string, h: int, r: TimedRow) {
    FloorDiv(r.t, 3600) == h && Written(obs, r.values, n).Some?
  }

  function HourFilter(obs: seq<string>, n: string, h: int): TimedRow -> bool {
    (r: TimedRow) => InHour(obs, n, h, r)
  }

  /** The entries of column n that groupby("hour_index") puts in hour h, in order. */
  function HourValues(rs: seq<TimedRow>, obs: seq<string>, n: string, h: int): (vs: seq<real>) {
    var inHour := Filter(rs, HourFilter(obs, n, h));
    seq(|inHour|, i requires 0 <= i < |inHour| => Written(obs, inHour[i].values, n).value)
  }

  /** The hour's mean of column n; None is NaN, an hour without readings. */
  function Hourly(rs: seq<TimedRow>, obs: seq<string>, n: string, h: int): Option<real> {
    var vs := HourValues(rs, obs, n, h);
    if vs == [] then None else Some(Mean(vs))
  }

  /** An hour is NaN exactly when no step of that hour has an entry for the node. */
  lemma HourlyNone(rs: seq<TimedRow>, obs: seq<string>, n: string, h: int)
    ensures Hourly(rs, obs, n, h).None? <==> forall i :: 0 <= i < |rs| ==> !InHour(obs, n, h, rs[i])
  {
    if exists i :: 0 <= i < |rs| && InHour(obs, n, h, rs[i]) {
      var i :| 0 <= i < |rs| && InHour(obs, n, h, rs[i]);
      assert HourFilter(obs, n, h)(rs[i]);
    }
  }

  /** The mean stays within any bounds all of the hour's entries lie in. */
  lemma HourlyWithin(rs: seq<TimedRow>, obs: seq<string>, n: string, h: int, lo: real, hi: real)
    requires forall i :: 0 <= i < |rs| && InHour(obs, n, h, rs[i]) ==> lo <= Written(obs, rs[i].values, n).value <= hi
    ensures Hourly(rs, obs, n, h).Some? ==> lo <= Hourly(rs, obs, n, h).value <= hi
  {
    var vs := HourValues(rs, obs, n, h);
    if vs != [] {
      var inHour := Filter(rs, HourFilter(obs, n, h));
      forall i | 0 <= i < |vs| ensures lo <= vs[i] <= hi {
        assert HourFilter(obs, n, h)(inHour[i]);
        var k :| 0 <= k < |rs| && rs[k] == inHour[i];
      }
      MeanWithin(vs, lo, hi);
    }
  }

  /** A step of another hour, or without an entry for the node, leaves the hour's mean as it was. */
  lemma HourlyOfOtherStep(rs: seq<TimedRow>, obs: seq<string>, r: TimedRow, n: string, h: int)
    requires !InHour(obs, n, h, r)
    ensures Hourly(rs + [r], obs, n, h) == Hourly(rs, obs, n, h)
  {
    FilterSnoc(rs, r, HourFilter(obs, n, h));
    AppendEmpty(Filter(rs, HourFilter(obs, n, h)));
    assert HourValues(rs + [r], obs, n, h) == HourValues(rs, obs, n, h);
  }

  /**
   * A node listed twice is averaged by name: with ["A", "B", "A"], a first
   * step that breaks at B and a second that reads 2.0 at both A positions,
   * the A column's hour holds the mean 1.5 of its entries 1.0 and 2.0.
   */
  lemma RepeatedNodeAveragedByName()
    ensures var obs := ["A", "B", "A"];
      var rs := [TimedRow(0, [1.0]), TimedRow(600, [2.0, 3.0, 2.0])];
      HourCell(rs, obs, "A", 0) == Num(1.5)
  {
    var obs := ["A", "B", "A"];
    var rs := [TimedRow(0, [1.0]), TimedRow(600, [2.0, 3.0, 2.0])];
    assert Written(obs, [1.0], "A") == Some(1.0);
    assert Written(obs, [2.0, 3.0, 2.0], "A") == Some(2.0);
    assert FloorDiv(0, 3600) == 0 && FloorDiv(600, 3600) == 0;
    assert InHour(obs, "A", 0, rs[0]) && InHour(obs, "A", 0, rs[1]);
    assert Filter(rs, HourFilter(obs, "A", 0)) == rs;
    assert HourValues(rs, obs, "A", 0) == [1.0, 2.0];
    assert Sum([1.0, 2.0]) == 3.0;
  }

  /** The cell of column n in hour h: its mean, or "" for NaN. */
  function HourCell(rs: seq<TimedRow>, obs: seq<string>, n: string, h: nat): (c: Cell)
    ensures Hourly(rs, obs, n, h).Some? ==> c == Num(Hourly(rs, obs, n, h).value)
    ensures Hourly(rs, obs, n, h).None? ==> c == Text("")
  {
    match Hourly(rs, obs, n, h)
    case Some(v) => Num(v)
    case None => Text("")
  }

  /** The cell the loop `for nid in obs_nodes` writes at position j, read through the name obs[j]. */
  function HourCells(rs: seq<TimedRow>, obs: seq<string>): (nat, nat) -> Cell {
    (j: nat, h: nat) => HourCell(rs, obs, if j < |obs| then obs[j] else "", h)
  }

  /** The frame has a column named n when some step's row has an entry for it. */
  predicate HasColumn(rs: seq<TimedRow>, obs: seq<string>, n: string) {
    exists i :: 0 <= i < |rs| && Written(obs, rs[i].values, n).Some?
  }

  /** The first observation position from j on whose column the frame lacks. */
  function FirstMissing(rs: seq<TimedRow>, obsNodes: seq<string>, j: nat): (m: Option<nat>)
    requires j <= |obsNodes|
    ensures m.None? <==> forall i :: j <= i < |obsNodes| ==> HasColumn(rs, obsNodes, obsNodes[i])
    ensures m.Some? ==>
      j <= m.value < |obsNodes| && !HasColumn(rs, obsNodes, obsNodes[m.value]) &&
      forall i :: j <= i < m.value ==> HasColumn(rs, obsNodes, obsNodes[i])
    decreases |obsNodes| - j
  {
    if j == |obsNodes| then None
    else if !HasColumn(rs, obsNodes, obsNodes[j]) then Some(j)
    else FirstMissing(rs, obsNodes, j + 1)
  }

  // ---------------------------------------------------------------------------
  // One scenario

  /** The leak arguments of a scenario; None is a parameter left unset. */
  datatype LeakArgs = LeakArgs(node: string, coeff: Option<real>, startHr: Option<real>, durationHr: Option<real>)

  /** The ValueErrors the scenario raises, and the KeyError of a pressure column no step read. */
  datatype ScenarioError =
    | MissingObservationNodes(missing: seq<string>)
    | UnknownLeakNode(node: string)
    | NoEmitterCoeff
    | NoLeakTiming
    | NoSuchColumn(column: string)

  function Unknown(nodeNames: seq<string>): string -> bool {
    (n: string) => n !in nodeNames
  }

  predicate AllKnown(obsNodes: seq<string>, nodeNames: seq<string>) {
    forall i :: 0 <= i < |obsNodes| ==> obsNodes[i] in nodeNames
  }

  /** The missing observation nodes are none exactly when every observation node is known. */
  lemma MissingIffUnknown(obsNodes: seq<string>, nodeNames: seq<string>)
    ensures Filter(obsNodes, Unknown(nodeNames)) == [] <==> AllKnown(obsNodes, nodeNames)
  {
    var missing := Filter(obsNodes, Unknown(nodeNames));
    if !AllKnown(obsNodes, nodeNames) {
      var i :| 0 <= i < |obsNodes| && obsNodes[i] !in nodeNames;
      assert Unknown(nodeNames)(obsNodes[i]);
    }
    if missing != [] {
      assert Unknown(nodeNames)(missing[0]);
      assert missing[0] in obsNodes;
    }
  }

  /** The validations made before the network is run, in their order. */
  function Validate(obsNodes: seq<string>, nodeNames: seq<string>, leak: Option<LeakArgs>): (e: Option<ScenarioError>)
    ensures !AllKnown(obsNodes, nodeNames) <==> e.Some? && e.value.MissingObservationNodes?
    ensures e.Some? && e.value.MissingObservationNodes? ==>
      e.value.missing == Filter(obsNodes, Unknown(nodeNames)) && e.value.missing != []
    ensures e.Some? && e.value.UnknownLeakNode? <==>
      AllKnown(obsNodes, nodeNames) && leak.Some? && leak.value.node !in nodeNames
    ensures e.Some? && e.value.UnknownLeakNode? ==> e.value.node == leak.value.node
    ensures e == Some(NoEmitterCoeff) <==>
      AllKnown(obsNodes, nodeNames) && leak.Some? && leak.value.node in nodeNames && leak.value.coeff.None?
    ensures e == Some(NoLeakTiming) <==>
      AllKnown(obsNodes, nodeNames) && leak.Some? && leak.value.node in nodeNames && leak.value.coeff.Some? &&
      (leak.value.startHr.None? || leak.value.durationHr.None?)
    ensures e.None? <==> AllKnown(obsNodes, nodeNames) && (leak.Some? ==> Complete(leak.value, nodeNames))
  {
    var missing := Filter(obsNodes, Unknown(nodeNames));
    MissingIffUnknown(obsNodes, nodeNames);
    if missing != [] then Some(MissingObservationNodes(missing))
    else if leak.None? then None
    else if leak.value.node !in nodeNames then Some(UnknownLeakNode(leak.value.node))
    else if leak.value.coeff.None? then Some(NoEmitterCoeff)
    else if leak.value.startHr.None? || leak.value.durationHr.None? then Some(NoLeakTiming)
    else None
  }

  /** A leak that passes the validations. */
  predicate Complete(leak: LeakArgs, nodeNames: seq<string>) {
    leak.node in nodeNames && leak.coeff.Some? && leak.startHr.Some? && leak.durationHr.Some?
  }

  /** int(x): rounds toward zero. */
  function Trunc(x: real): (i: int)
    ensures x >= 0.0 ==> i as real <= x < i as real + 1.0
    ensures x < 0.0 ==> i as real - 1.0 < x <= i as real
  {
    if x >= 0.0 then x.Floor else -((-x).Floor)
  }

  /** A whole number is its own int(). */
  lemma TruncWhole(k: int)
    ensures Trunc(k as real) == k
  {
  }

  /** leak_start_s and leak_end_s, from hours. */
  function LeakWindow(startHr: real, durationHr: real): (int, int) {
    var start := Trunc(startHr * 3600.0);
    (start, Trunc(start as real + durationHr * 3600.0))
  }

  /** A duration of whole seconds is the window's length; a whole start hour starts it on the hour. */
  lemma LeakWindowLength(startHr: real, durationHr: real, d: int, h: int)
    requires durationHr * 3600.0 == d as real
    ensures LeakWindow(startHr, durationHr).1 - LeakWindow(startHr, durationHr).0 == d
    ensures startHr == h as real ==> LeakWindow(startHr, durationHr).0 == 3600 * h
  {
    var start := Trunc(startHr * 3600.0);
    TruncWhole(start + d);
    assert start as real + durationHr * 3600.0 == (start + d) as real;
    if startHr == h as real {
      assert startHr * 3600.0 == (3600 * h) as real;
      TruncWhole(3600 * h);
    }
  }

  /** The clock the toggle reads: 0 before the first step, then the previous step's time. */
  function ToggleClock(ts: seq<int>): (c: seq<int>)
    ensures |c| == |ts| && forall i :: 0 <= i < |ts| ==> c[i] == if i == 0 then 0 else ts[i - 1]
  {
    seq(|ts|, i requires 0 <= i < |ts| => if i == 0 then 0 else ts[i - 1])
  }

  /**
   * The toggle runs before the engine advances, on the time of the step
   * before: the emitter goes on at step 0 when the leak starts at 0 or
   * earlier, and otherwise one step after the first time at or past the
   * start.
   */
  lemma {:induction false} ToggleLagsOneStep(ts: seq<int>, start: int, end: int, i: nat)
    requires i < |ts|
    ensures SwitchOn(i) in Commands(ToggleClock(ts), |ts|, start, end) <==>
      (i == 0 && start <= 0) || (0 < i && 0 < start && FirstReach(ts, i - 1, start))
  {
    var c := ToggleClock(ts);
    CommandsExactly(c, |ts|, start, end, SwitchOn(i));
    assert c[0] == 0;
    if 0 < i {
      assert c[i] == ts[i - 1];
      if FirstReach(c, i, start) {
        forall j | 0 <= j < i - 1 ensures ts[j] < start {
          assert c[j + 1] == ts[j];
        }
      }
      if 0 < start && FirstReach(ts, i - 1, start) {
        forall j | 0 <= j < i ensures c[j] < start {
          if j > 0 {
            assert c[j] == ts[j - 1];
          }
        }
      }
    }
  }

  /** The toggle at step i, read on the clock's time t for that step. */
  method Toggle(ghost clock: seq<int>, i: nat, t: int, start: int, end: int, started: bool, ended: bool, commands: seq<Command>)
    returns (started': bool, ended': bool, commands': seq<Command>)
    requires i < |clock| && clock[i] == t
    requires started <==> Reached(clock, i, start)
    requires ended <==> Reached(clock, i, end)
    requires commands == Commands(clock, i, start, end)
    ensures started' <==> Reached(clock, i + 1, start)
    ensures ended' <==> Reached(clock, i + 1, end)
    ensures commands' == Commands(clock, i + 1, start, end)
  {
    ReachedStep(clock, i, start);
    ReachedStep(clock, i, end);
    started', ended' := started, ended;
    var on: seq<Command> := [];
    if !started && t >= start {
      on := [SwitchOn(i)];
      started' := true;
    }
    var off: seq<Command> := [];
    if !ended && t >= end {
      off := [SwitchOff(i)];
      ended' := true;
    }
    AppendAssoc(commands, on, off);
    commands' := commands + on + off;
  }

  /** What the legacy loop collects. */
  datatype LegacyRun = LegacyRun(commands: seq<Command>, rows: seq<TimedRow>, leakPressure: seq<Reading>)

  /**
   * The loop of run_one_scenario_epanet_toolkit: with a leak, toggle the
   * emitter on the current time t, then let the engine advance to its next
   * time; record every step's row and, with a leak, the leak node's pressure.
   */
  method RunLegacySteps(samples: seq<Sample>, window: Option<(int, int)>) returns (run: LegacyRun)
    ensures window.Some? ==> run.commands == Commands(ToggleClock(Times(samples)), |samples|, window.value.0, window.value.1)
    ensures window.None? ==> run.commands == []
    ensures run.rows == TimedRows(samples)
    ensures run.leakPressure == if window.Some? then LeakReadings(samples, false) else []
  {
    ghost var clock := ToggleClock(Times(samples));
    var hasLeak := window.Some?;
    var (start, end) := if hasLeak then window.value else (0, 0);
    var commands: seq<Command> := [];
    var rows: seq<TimedRow> := [];
    var pressures: seq<Reading> := [];
    var t := 0;
    var started, ended := false, false;
    for i := 0 to |samples|
      invariant t == if i == 0 then 0 else samples[i - 1].t
      invariant hasLeak ==> (started <==> Reached(clock, i, start)) && (ended <==> Reached(clock, i, end))
      invariant commands == if hasLeak then Commands(clock, i, start, end) else []
      invariant rows == TimedRows(samples[..i])
      invariant pressures == if hasLeak then LeakReadings(samples[..i], false) else []
    {
      assert clock[i] == t;
      if hasLeak {
        started, ended, commands := Toggle(clock, i, t, start, end, started, ended, commands);
      }
      t := samples[i].t;
      var row := ReadRow(samples[i].pressures);
      TimedRowsSnoc(samples, i);
      rows := rows + [TimedRow(t, row)];
      if hasLeak {
        LeakReadingsSnoc(samples, i, false);
        pressures := pressures + [(t, samples[i].leakPressure)];
      }
    }
    PrefixAll(samples);
    run := LegacyRun(commands, rows, pressures);
  }

  /** The network's data that a scenario reads: node names, coordinates, flow unit and emitter exponent. */
  datatype Network = Network(nodeNames: seq<string>, coordinates: map<string, (real, real)>, flowUnit: Option<string>,
                             emitterExponent: real, pow: (real, real) -> real)

  /** p ↦ p ** exp. */
  function Power(net: Network, exp: real): real -> real {
    (p: real) => net.pow(p, exp)
  }

  /** The exponent of the leak estimate: the argument when given, else the network's. */
  function ExponentUsed(net: Network, emitterExponent: Option<real>): real {
    if emitterExponent.Some? then emitterExponent.value else net.emitterExponent
  }

  /** The leak fields of the row; the baseline has leak 0 and "" everywhere else. */
  function LeakFields(net: Network, leak: Option<LeakArgs>, estimate: LeakEstimate): seq<(string, Cell)>
    requires leak.Some? ==> Complete(leak.value, net.nodeNames)
  {
    if leak.None? then
      [("leak", Int(0)), ("leak_node", Text("")), ("leak_x", Text("")), ("leak_y", Text("")),
       ("leak_size_lps", Text("")), ("leak_node_pressure_head", Text("")), ("emitter_coeff", Text("")),
       ("leak_start_hr", Text("")), ("leak_duration_hr", Text(""))]
    else
      var l := leak.value;
      var xy: Option<(real, real)> := if l.node in net.coordinates then Some(net.coordinates[l.node]) else None;
      [("leak", Int(1)), ("leak_node", Text(l.node)),
       ("leak_x", if xy.Some? then Num(xy.value.0) else Text("")),
       ("leak_y", if xy.Some? then Num(xy.value.1) else Text("")),
       ("leak_size_lps", Num(estimate.sizeLps)), ("leak_node_pressure_head", Num(estimate.pressureHead)),
       ("emitter_coeff", Num(l.coeff.value)), ("leak_start_hr", Num(l.startHr.value)),
       ("leak_duration_hr", Num(l.durationHr.value))]
  }

  /** The row's "leak" field is 1 for a leak and 0 for the baseline. */
  lemma LeakFieldsLeak(net: Network, leak: Option<LeakArgs>, estimate: LeakEstimate)
    requires leak.Some? ==> Complete(leak.value, net.nodeNames)
    ensures LastValue(LeakFields(net, leak, estimate), "leak") == Some(Int(if leak.Some? then 1 else 0))
  {
    var fields := LeakFields(net, leak, estimate);
    var names := ["leak_node", "leak_x", "leak_y", "leak_size_lps", "leak_node_pressure_head",
                  "emitter_coeff", "leak_start_hr", "leak_duration_hr"];
    assert |fields| == 9 && fields[0] == ("leak", Int(if leak.Some? then 1 else 0));
    assert forall i :: 1 <= i < 9 ==> fields[i].0 == names[i - 1];
    assert forall i :: 0 <= i < 8 ==> names[i] != "leak";
    LastValueFirst(fields, "leak");
    LastValueAbsent(fields[1..], "leak");
  }

  /** The estimate of a leak over its window; the baseline has none. */
  function ScenarioEstimate(net: Network, leak: Option<LeakArgs>, emitterExponent: Option<real>, samples: seq<Sample>): (est: LeakEstimate)
    requires leak.Some? ==> Complete(leak.value, net.nodeNames)
    ensures leak.None? ==> est == LeakEstimate(0.0, 0.0)
  {
    if leak.None? then LeakEstimate(0.0, 0.0)
    else
      var (start, end) := LeakWindow(leak.value.startHr.value, leak.value.durationHr.value);
      LeakSize(LeakReadings(samples, false), start, end, leak.value.coeff.value, FlowToLpsFactor(net.flowUnit),
               Power(net, ExponentUsed(net, emitterExponent)))
  }

  /** The row: the leak fields, then "{nid}_Hour{h}" for every observation node and hour. */
  function HourRow(net: Network, obsNodes: seq<string>, totalHours: nat, leak: Option<LeakArgs>, estimate: LeakEstimate,
                   rows: seq<TimedRow>): (row: Table<string, Cell>)
    requires leak.Some? ==> Complete(leak.value, net.nodeNames)
  {
    PutAll(PutAll(Empty(), LeakFields(net, leak, estimate)), AllColumns(obsNodes, "Hour", HourCells(rows, obsNodes), totalHours))
  }

  /**
   * The row's leak field is 1 for a leak and 0 for the baseline, and the
   * column of each observation node and hour holds that node's mean
   * pressure in the hour, or "" where the hour has none.
   */
  lemma HourRowFields(net: Network, obsNodes: seq<string>, totalHours: nat, leak: Option<LeakArgs>, estimate: LeakEstimate,
                      rows: seq<TimedRow>, j: nat, h: nat)
    requires leak.Some? ==> Complete(leak.value, net.nodeNames)
    ensures var row := HourRow(net, obsNodes, totalHours, leak, estimate, rows);
      "leak" in row.entries && row.entries["leak"] == Int(if leak.Some? then 1 else 0)
    ensures var row := HourRow(net, obsNodes, totalHours, leak, estimate, rows);
      j < |obsNodes| && h < totalHours ==>
        ColumnKey(obsNodes[j], "Hour", h) in row.entries &&
        row.entries[ColumnKey(obsNodes[j], "Hour", h)] == HourCell(rows, obsNodes, obsNodes[j], h)
  {
    HourRowLeak(net, obsNodes, totalHours, leak, estimate, rows);
    if j < |obsNodes| && h < totalHours {
      HourCellsByName(rows, obsNodes);
      ColumnsOfRowByName(PutAll(Empty(), LeakFields(net, leak, estimate)), obsNodes, "Hour", HourCells(rows, obsNodes), totalHours, j, h);
    }
  }

  /** The hourly columns leave the row's leak field as LeakFields set it. */
  lemma HourRowLeak(net: Network, obsNodes: seq<string>, totalHours: nat, leak: Option<LeakArgs>, estimate: LeakEstimate,
                    rows: seq<TimedRow>)
    requires leak.Some? ==> Complete(leak.value, net.nodeNames)
    ensures var row := HourRow(net, obsNodes, totalHours, leak, estimate, rows);
      "leak" in row.entries && row.entries["leak"] == Int(if leak.Some? then 1 else 0)
  {
    var fields := LeakFields(net, leak, estimate);
    assert TrailingDigits("leak") == 0;
    LeakFieldsLeak(net, leak, estimate);
    PutAllLookup(Empty(), fields, "leak");
    FieldSurvivesColumns(PutAll(Empty(), fields), obsNodes, "Hour", HourCells(rows, obsNodes), totalHours, "leak");
  }

  /** Two positions holding one name get the same cells: the cell is read by name. */
  lemma HourCellsByName(rows: seq<TimedRow>, obs: seq<string>)
    ensures SameNameSameCell(obs, HourCells(rows, obs))
  {
  }

  /**
   * run_one_scenario_epanet_toolkit on the engine's steps: the validations come
   * first; a network that passes them yields its row unless some hour is to
   * be read from the column of an observation node no step read.
   */
  function ScenarioRow(net: Network, obsNodes: seq<string>, durationDays: int, leak: Option<LeakArgs>,
                       emitterExponent: Option<real>, samples: seq<Sample>): Result<Table<string, Cell>, ScenarioError>
  {
    var e := Validate(obsNodes, net.nodeNames, leak);
    if e.Some? then Err(e.value)
    else
      var rows := TimedRows(samples);
      var totalHours := NatOf(durationDays * 24);
      var missing := FirstMissing(rows, obsNodes, 0);
      if missing.Some? && totalHours > 0 then Err(NoSuchColumn(obsNodes[missing.value]))
      else Ok(HourRow(net, obsNodes, totalHours, leak, ScenarioEstimate(net, leak, emitterExponent, samples), rows))
  }

  /**
   * A failed validation is the scenario's error; otherwise an observation
   * node no step read fails as a missing column when there is an hour to
   * read, and else the row is the leak fields and the hourly columns, a
   * well-formed table.
   */
  lemma ScenarioRowCases(net: Network, obsNodes: seq<string>, durationDays: int, leak: Option<LeakArgs>,
                         emitterExponent: Option<real>, samples: seq<Sample>)
    ensures var r := ScenarioRow(net, obsNodes, durationDays, leak, emitterExponent, samples);
      Validate(obsNodes, net.nodeNames, leak).Some? ==> r == Err(Validate(obsNodes, net.nodeNames, leak).value)
    ensures var r := ScenarioRow(net, obsNodes, durationDays, leak, emitterExponent, samples);
      Validate(obsNodes, net.nodeNames, leak).None? ==>
      var missing := FirstMissing(TimedRows(samples), obsNodes, 0);
      if missing.Some? && durationDays > 0 then r == Err(NoSuchColumn(obsNodes[missing.value]))
      else r == Ok(HourRow(net, obsNodes, NatOf(durationDays * 24), leak, ScenarioEstimate(net, leak, emitterExponent, samples), TimedRows(samples)))
    ensures var r := ScenarioRow(net, obsNodes, durationDays, leak, emitterExponent, samples);
      r.Ok? ==> Valid(r.value)
  {
  }

  /** The scenario run: checks first, then the engine's loop, then the row. */
  method RunOneScenario(net: Network, obsNodes: seq<string>, durationDays: int, leak: Option<LeakArgs>,
                        emitterExponent: Option<real>, samples: seq<Sample>) returns (r: Result<Table<string, Cell>, ScenarioError>)
    ensures r == ScenarioRow(net, obsNodes, durationDays, leak, emitterExponent, samples)
  {
    var e := Validate(obsNodes, net.nodeNames, leak);
    if e.Some? {
      return Err(e.value);
    }
    var window: Option<(int, int)> := None;
    if leak.Some? {
      window := Some(LeakWindow(leak.value.startHr.value, leak.value.durationHr.value));
    }
    var run := RunLegacySteps(samples, window);
    var totalHours := NatOf(durationDays * 24);
    var estimate := LeakEstimate(0.0, 0.0);
    if leak.Some? {
      var (start, end) := window.value;
      estimate := LeakSize(run.leakPressure, start, end, leak.value.coeff.value, FlowToLpsFactor(net.flowUnit),
                           Power(net, ExponentUsed(net, emitterExponent)));
    }
    var base := PutAll(Empty(), LeakFields(net, leak, estimate));
    var missing := FirstMissing(run.rows, obsNodes, 0);
    if missing.Some? && totalHours > 0 {
      return Err(NoSuchColumn(obsNodes[missing.value]));
    }
    var row := AddColumns(base, obsNodes, "Hour", HourCells(run.rows, obsNodes), totalHours);
    r := Ok(row);
  }

  // ---------------------------------------------------------------------------
  // The dataset

  /** A scenario of the dataset: its scenario_id and its leak, None for the baseline. */
  datatype Scenario = Scenario(id: nat, leak: Option<LeakArgs>)

  /** A positive factor keeps the order of the other. */
  lemma MulMonotone(m: int, a: int, b: int)
    requires m > 0
    ensures a < b ==> m * a + m <= m * b
  {
    if a < b {
      var k := b - a - 1;
      assert m * b == m * a + m * k + m;
      assert m * k >= 0;
    }
  }

  /** Node i's scenarios, which follow the first 1 + i·m, end within the first 1 + n·m. */
  lemma StepWithin(i: nat, n: nat, m: nat)
    requires i < n
    ensures 1 + i * m + m == 1 + (i + 1) * m <= 1 + n * m
  {
    if m > 0 {
      MulMonotone(m, i, n);
    }
  }

  /** q = m·i + e with 0 <= e < m determines i and e. */
  lemma DivModOf(q: int, m: int, i: int, e: int)
    requires m > 0 && 0 <= e < m && q == m * i + e
    ensures q / m == i && q % m == e
  {
    var d := q / m;
    assert q == m * d + q % m;
    MulMonotone(m, i, d);
    MulMonotone(m, d, i);
  }

  /**
   * The k-th scenario build_dataset runs (k from 0): the baseline, then for
   * each leak node each emitter coefficient, with its start hour drawn in
   * turn.
   */
  function ScenarioAt(leakNodes: seq<string>, emitterChoices: seq<real>, startHours: seq<int>, durationHr: real, k: nat): (s: Scenario)
    requires |startHours| == |leakNodes| * |emitterChoices| && k <= |leakNodes| * |emitterChoices|
    ensures s.id == k + 1 && (s.leak.None? <==> k == 0)
  {
    if k == 0 then Scenario(1, None)
    else
      var m := |emitterChoices|;
      var q := k - 1;
      assert m > 0;
      assert q == m * (q / m) + q % m;
      MulMonotone(m, |leakNodes| - 1, q / m);
      assert q < m * |leakNodes|;
      Scenario(k + 1, Some(LeakArgs(leakNodes[q / m], Some(emitterChoices[q % m]), Some(startHours[q] as real), Some(durationHr))))
  }

  function Scenarios(leakNodes: seq<string>, emitterChoices: seq<real>, startHours: seq<int>, durationHr: real): (ss: seq<Scenario>)
    requires |startHours| == |leakNodes| * |emitterChoices|
    ensures |ss| == 1 + |leakNodes| * |emitterChoices|
    ensures forall k :: 0 <= k < |ss| ==> ss[k] == ScenarioAt(leakNodes, emitterChoices, startHours, durationHr, k)
  {
    seq(1 + |leakNodes| * |emitterChoices|,
        k requires 0 <= k < 1 + |leakNodes| * |emitterChoices| => ScenarioAt(leakNodes, emitterChoices, startHours, durationHr, k))
  }

  /** Node i with coefficient e is scenario 2 + i·|choices| + e, drawn as start hour i·|choices| + e. */
  lemma ScenarioOf(leakNodes: seq<string>, emitterChoices: seq<real>, startHours: seq<int>, durationHr: real, i: nat, e: nat)
    requires |startHours| == |leakNodes| * |emitterChoices| && i < |leakNodes| && e < |emitterChoices|
    ensures var q := i * |emitterChoices| + e;
      q < |startHours| &&
      ScenarioAt(leakNodes, emitterChoices, startHours, durationHr, q + 1) ==
        Scenario(q + 2, Some(LeakArgs(leakNodes[i], Some(emitterChoices[e]), Some(startHours[q] as real), Some(durationHr))))
  {
    var m := |emitterChoices|;
    var q := i * m + e;
    assert q < |leakNodes| * m by {
      assert q < i * m + m == (i + 1) * m;
      assert (i + 1) * m <= |leakNodes| * m;
    }
    DivModOf(q, m, i, e);
  }

  /** With every draw in [lo, hi], every leak scenario starts in [lo, hi]. */
  lemma StartHoursInRange(leakNodes: seq<string>, emitterChoices: seq<real>, startHours: seq<int>, durationHr: real, lo: int, hi: int, k: nat)
    requires |startHours| == |leakNodes| * |emitterChoices| && 0 < k <= |leakNodes| * |emitterChoices|
    requires forall d :: 0 <= d < |startHours| ==> lo <= startHours[d] <= hi
    ensures var s := ScenarioAt(leakNodes, emitterChoices, startHours, durationHr, k);
      s.leak.value.startHr.Some? && lo as real <= s.leak.value.startHr.value <= hi as real
  {
  }

  /** The keys other than k, in order. */
  function Without(keys: seq<string>, k: string): seq<string> {
    if keys == [] then [] else (if keys[0] == k then [] else [keys[0]]) + Without(keys[1..], k)
  }

  /** r["scenario_id"] = id, then the column list with scenario_id first. */
  function Identified(row: Table<string, Cell>, id: nat): Table<string, Cell> {
    Table(["scenario_id"] + Without(row.keys, "scenario_id"), row.entries["scenario_id" := Int(id)])
  }

  /** The identified row has scenario_id = id in its first column, and every other field of the row unchanged. */
  lemma IdentifiedFields(row: Table<string, Cell>, id: nat)
    ensures var r := Identified(row, id);
      |r.keys| > 0 && r.keys[0] == "scenario_id" && "scenario_id" in r.entries && r.entries["scenario_id"] == Int(id)
    ensures var r := Identified(row, id);
      forall k :: k != "scenario_id" ==> (k in r.entries <==> k in row.entries)
    ensures var r := Identified(row, id);
      forall k :: k != "scenario_id" && k in row.entries ==> r.entries[k] == row.entries[k]
  {
  }

  /** The row of a scenario: run_one_scenario_epanet_toolkit on the steps the engine takes for its leak. */
  function RowOf(net: Network, obsNodes: seq<string>, durationDays: int, emitterExponent: Option<real>,
                 sim: Option<LeakArgs> -> seq<Sample>): Runner
  {
    (s: Scenario) => ScenarioRow(net, obsNodes, durationDays, s.leak, emitterExponent, sim(s.leak))
  }

  /** The rows of the scenarios, in order; the first failing scenario's error ends the build. */
  function Dataset(rowOf: Runner, ss: seq<Scenario>)
    : (r: Result<seq<Table<string, Cell>>, ScenarioError>)
    ensures r.Ok? ==> |r.value| == |ss|
  {
    if ss == [] then Ok([])
    else
      var prev := Dataset(rowOf, ss[..|ss| - 1]);
      var s := ss[|ss| - 1];
      if prev.Err? then prev
      else
        match rowOf(s)
        case Err(e) => Err(e)
        case Ok(row) => Ok(prev.value + [Identified(row, s.id)])
  }

  /** One more scenario after a build that succeeded. */
  lemma DatasetSnoc(rowOf: Runner, ss: seq<Scenario>, n: nat)
    requires n < |ss| && Dataset(rowOf, ss[..n]).Ok?
    ensures rowOf(ss[n]).Err? ==> Dataset(rowOf, ss[..n + 1]) == Err(rowOf(ss[n]).error)
    ensures rowOf(ss[n]).Ok? ==>
      Dataset(rowOf, ss[..n + 1]) == Ok(Dataset(rowOf, ss[..n]).value + [Identified(rowOf(ss[n]).value, ss[n].id)])
  {
    PrefixSnoc(ss, n);
    assert ss[..n + 1][..n] == ss[..n];
  }

  /** An error in the first n scenarios is the build's error. */
  lemma {:induction false} DatasetErrStays(rowOf: Runner, ss: seq<Scenario>, n: nat)
    requires n <= |ss| && Dataset(rowOf, ss[..n]).Err?
    ensures Dataset(rowOf, ss) == Dataset(rowOf, ss[..n])
    decreases |ss| - n
  {
    if n < |ss| {
      PrefixSnoc(ss, n);
      assert ss[..n + 1][..n] == ss[..n];
      DatasetErrStays(rowOf, ss, n + 1);
    } else {
      PrefixAll(ss);
    }
  }

  /** A built dataset has the row of each scenario, identified by the scenario's id. */
  lemma {:induction false} DatasetRows(rowOf: Runner, ss: seq<Scenario>, k: nat)
    requires Dataset(rowOf, ss).Ok? && k < |ss|
    ensures rowOf(ss[k]).Ok? && Dataset(rowOf, ss).value[k] == Identified(rowOf(ss[k]).value, ss[k].id)
  {
    var init := ss[..|ss| - 1];
    if k < |init| {
      assert init[k] == ss[k];
      DatasetRows(rowOf, init, k);
    }
  }

  /** The build fails with the error of the first scenario that fails, and only when one does. */
  lemma {:induction false} DatasetFirstError(rowOf: Runner, ss: seq<Scenario>)
    ensures Dataset(rowOf, ss).Err? <==> exists k :: 0 <= k < |ss| && rowOf(ss[k]).Err?
    ensures Dataset(rowOf, ss).Err? ==>
      exists k :: 0 <= k < |ss| && rowOf(ss[k]) == Err(Dataset(rowOf, ss).error) && (forall j :: 0 <= j < k ==> rowOf(ss[j]).Ok?)
  {
    if ss != [] {
      var init, last := ss[..|ss| - 1], ss[|ss| - 1];
      DatasetFirstError(rowOf, init);
      var prev := Dataset(rowOf, init);
      if prev.Err? {
        var k :| 0 <= k < |init| && rowOf(init[k]) == Err(prev.error) && (forall j :: 0 <= j < k ==> rowOf(init[j]).Ok?);
        assert init[k] == ss[k];
        forall j | 0 <= j < k ensures rowOf(ss[j]).Ok? {
          assert init[j] == ss[j];
        }
        assert Dataset(rowOf, ss) == prev;
      } else {
        forall j | 0 <= j < |init| ensures rowOf(ss[j]).Ok? {
          DatasetRows(rowOf, init, j);
          assert init[j] == ss[j];
        }
        if rowOf(last).Err? {
          assert Dataset(rowOf, ss) == Err(rowOf(last).error);
          assert rowOf(ss[|ss| - 1]) == Err(Dataset(rowOf, ss).error);
        } else {
          assert Dataset(rowOf, ss).Ok?;
        }
      }
    }
  }


  /** The runner of one scenario: its row, or the error that ends the build. */
  type Runner = Scenario -> Result<Table<string, Cell>, ScenarioError>

  /**
   * One scenario of the build: run it, set its scenario_id and append its
   * row; a failing scenario ends the build with its error.
   */
  method AddScenario(rowOf: Runner, ghost ss: seq<Scenario>, n: nat, s: Scenario, rows: seq<Table<string, Cell>>)
    returns (r: Result<seq<Table<string, Cell>>, ScenarioError>)
    requires n < |ss| && ss[n] == s && Dataset(rowOf, ss[..n]) == Ok(rows)
    ensures r.Err? ==> r == Dataset(rowOf, ss)
    ensures r.Ok? ==> r == Dataset(rowOf, ss[..n + 1])
  {
    var row := rowOf(s);
    DatasetSnoc(rowOf, ss, n);
    if row.Err? {
      DatasetErrStays(rowOf, ss, n + 1);
      return Err(row.error);
    }
    r := Ok(rows + [Identified(row.value, s.id)]);
  }

  /** The scenario of leak node i with coefficient e, following the first lo of the build. */
  function NodeScenario(leakNodes: seq<string>, emitterChoices: seq<real>, startHours: seq<int>, leakDurationHr: real,
                        i: nat, lo: nat, e: nat): Scenario
    requires i < |leakNodes| && e < |emitterChoices| && 1 <= lo && lo + e <= |startHours|
  {
    Scenario(lo + e + 1, Some(LeakArgs(leakNodes[i], Some(emitterChoices[e]), Some(startHours[lo + e - 1] as real),
                                       Some(leakDurationHr))))
  }

  /** Scenarios lo .. lo + |choices| - 1 of ss are leak node i with each coefficient in turn. */
  predicate NodeScenariosAt(ss: seq<Scenario>, leakNodes: seq<string>, emitterChoices: seq<real>, startHours: seq<int>,
                            leakDurationHr: real, i: nat, lo: nat)
  {
    i < |leakNodes| && 1 <= lo && lo + |emitterChoices| <= |ss| == 1 + |startHours| &&
    forall e :: 0 <= e < |emitterChoices| ==>
      ss[lo + e] == NodeScenario(leakNodes, emitterChoices, startHours, leakDurationHr, i, lo, e)
  }

  /** Where leak node i's scenarios start: after the baseline and |choices| scenarios per earlier node. */
  function Offset(i: nat, m: nat): (lo: nat)
    ensures lo >= 1
  {
    if i == 0 then 1 else Offset(i - 1, m) + m
  }

  lemma {:induction false} OffsetIs(i: nat, m: nat)
    ensures Offset(i, m) == 1 + i * m
  {
    if i > 0 {
      OffsetIs(i - 1, m);
    }
  }

  /** Later leak nodes start later. */
  lemma {:induction false} OffsetMono(i: nat, n: nat, m: nat)
    requires i <= n
    ensures Offset(i, m) <= Offset(n, m)
    decreases n - i
  {
    if i < n {
      OffsetMono(i + 1, n, m);
    }
  }

  /** In the scenarios of build_dataset, leak node i's follow the first Offset(i, |choices|). */
  lemma NodeScenarios(leakNodes: seq<string>, emitterChoices: seq<real>, startHours: seq<int>, leakDurationHr: real, i: nat)
    requires |startHours| == |leakNodes| * |emitterChoices| && i < |leakNodes|
    ensures NodeScenariosAt(Scenarios(leakNodes, emitterChoices, startHours, leakDurationHr), leakNodes, emitterChoices,
                            startHours, leakDurationHr, i, Offset(i, |emitterChoices|))
  {
    var m := |emitterChoices|;
    OffsetIs(i, m);
    StepWithin(i, |leakNodes|, m);
    var lo := 1 + i * m;
    forall e | 0 <= e < m
      ensures Scenarios(leakNodes, emitterChoices, startHours, leakDurationHr)[lo + e] ==
        NodeScenario(leakNodes, emitterChoices, startHours, leakDurationHr, i, lo, e)
    {
      ScenarioOf(leakNodes, emitterChoices, startHours, leakDurationHr, i, e);
    }
  }

  /** ss is the baseline, then each leak node's scenarios in turn. */
  predicate ByNode(ss: seq<Scenario>, leakNodes: seq<string>, emitterChoices: seq<real>, startHours: seq<int>, leakDurationHr: real) {
    |ss| == Offset(|leakNodes|, |emitterChoices|) &&
    forall i {:trigger NodeScenariosAt(ss, leakNodes, emitterChoices, startHours, leakDurationHr, i, Offset(i, |emitterChoices|))} ::
      0 <= i < |leakNodes| ==> NodeScenariosAt(ss, leakNodes, emitterChoices, startHours, leakDurationHr, i, Offset(i, |emitterChoices|))
  }

  /** The scenarios of build_dataset come node by node. */
  lemma ScenariosByNode(leakNodes: seq<string>, emitterChoices: seq<real>, startHours: seq<int>, leakDurationHr: real)
    requires |startHours| == |leakNodes| * |emitterChoices|
    ensures ByNode(Scenarios(leakNodes, emitterChoices, startHours, leakDurationHr), leakNodes, emitterChoices, startHours, leakDurationHr)
  {
    forall i | 0 <= i < |leakNodes|
      ensures NodeScenariosAt(Scenarios(leakNodes, emitterChoices, startHours, leakDurationHr), leakNodes, emitterChoices,
                              startHours, leakDurationHr, i, Offset(i, |emitterChoices|))
    {
      NodeScenarios(leakNodes, emitterChoices, startHours, leakDurationHr, i);
    }
    OffsetIs(|leakNodes|, |emitterChoices|);
  }

  /**
   * The inner loop of build_dataset for one leak node, whose scenarios
   * follow the first lo: one scenario per emitter coefficient, in order, the
   * first failing one ending the build.
   */
  method AddNodeScenarios(rowOf: Runner, leakNodes: seq<string>, emitterChoices: seq<real>, startHours: seq<int>,
                          leakDurationHr: real, ghost ss: seq<Scenario>, i: nat, lo: nat, rows: seq<Table<string, Cell>>)
    returns (r: Result<seq<Table<string, Cell>>, ScenarioError>)
    requires NodeScenariosAt(ss, leakNodes, emitterChoices, startHours, leakDurationHr, i, lo)
    requires Dataset(rowOf, ss[..lo]) == Ok(rows)
    ensures r.Err? ==> r == Dataset(rowOf, ss)
    ensures r.Ok? ==> r == Dataset(rowOf, ss[..lo + |emitterChoices|])
  {
    var scenarioId := lo;
    r := Ok(rows);
    for e := 0 to |emitterChoices|
      invariant scenarioId == lo + e
      invariant r.Ok? && r == Dataset(rowOf, ss[..scenarioId])
    {
      var leak := LeakArgs(leakNodes[i], Some(emitterChoices[e]), Some(startHours[scenarioId - 1] as real), Some(leakDurationHr));
      assert ss[scenarioId] == NodeScenario(leakNodes, emitterChoices, startHours, leakDurationHr, i, lo, e);
      r := AddScenario(rowOf, ss, scenarioId, Scenario(scenarioId + 1, Some(leak)), r.value);
      if r.Err? {
        return;
      }
      scenarioId := scenarioId + 1;
    }
  }

  /** The outer loop of build_dataset, after the baseline: each leak node's scenarios in turn. */
  method AddLeakScenarios(rowOf: Runner, leakNodes: seq<string>, emitterChoices: seq<real>, startHours: seq<int>,
                          leakDurationHr: real, ghost ss: seq<Scenario>, rows: seq<Table<string, Cell>>)
    returns (result: Result<seq<Table<string, Cell>>, ScenarioError>)
    requires ByNode(ss, leakNodes, emitterChoices, startHours, leakDurationHr)
    requires Dataset(rowOf, ss[..1]) == Ok(rows)
    ensures result == Dataset(rowOf, ss)
  {
    var built := 1;
    result := Ok(rows);
    for i := 0 to |leakNodes|
      invariant built == Offset(i, |emitterChoices|) <= |ss|
      invariant result.Ok? && result == Dataset(rowOf, ss[..built])
    {
      assert NodeScenariosAt(ss, leakNodes, emitterChoices, startHours, leakDurationHr, i, Offset(i, |emitterChoices|));
      result := AddNodeScenarios(rowOf, leakNodes, emitterChoices, startHours, leakDurationHr, ss, i, built, result.value);
      if result.Err? {
        return;
      }
      built := built + |emitterChoices|;
    }
    PrefixAll(ss);
  }

  /**
   * build_dataset: the baseline as scenario 1, then each leak node with each
   * coefficient, scenario_id counting up, the k-th leak scenario starting at
   * the k-th start hour drawn; each scenario is run by
   * run_one_scenario_epanet_toolkit on the engine's steps for its leak.
   */
  method BuildDataset(net: Network, obsNodes: seq<string>, leakNodes: seq<string>, durationDays: int, leakDurationHr: real,
                      emitterChoices: seq<real>, emitterExponent: Option<real>, startHours: seq<int>,
                      sim: Option<LeakArgs> -> seq<Sample>)
    returns (result: Result<seq<Table<string, Cell>>, ScenarioError>)
    requires |startHours| == |leakNodes| * |emitterChoices|
    ensures result == Dataset(RowOf(net, obsNodes, durationDays, emitterExponent, sim),
                              Scenarios(leakNodes, emitterChoices, startHours, leakDurationHr))
  {
    var rowOf := RowOf(net, obsNodes, durationDays, emitterExponent, sim);
    ghost var ss := Scenarios(leakNodes, emitterChoices, startHours, leakDurationHr);
    assert ss[..0] == [] && ss[0] == Scenario(1, None);
    assert Dataset(rowOf, ss[..0]) == Ok([]);
    result := AddScenario(rowOf, ss, 0, Scenario(1, None), []);
    if result.Ok? {
      ScenariosByNode(leakNodes, emitterChoices, startHours, leakDurationHr);
      result := AddLeakScenarios(rowOf, leakNodes, emitterChoices, startHours, leakDurationHr, ss, result.value);
    }
  }

  /** A scenario's row marks it as a leak scenario iff it has a leak. */
  lemma ScenarioRowLeak(net: Network, obsNodes: seq<string>, durationDays: int, leak: Option<LeakArgs>,
                        emitterExponent: Option<real>, samples: seq<Sample>)
    requires ScenarioRow(net, obsNodes, durationDays, leak, emitterExponent, samples).Ok?
    ensures var row := ScenarioRow(net, obsNodes, durationDays, leak, emitterExponent, samples).value;
      "leak" in row.entries && row.entries["leak"] == Int(if leak.Some? then 1 else 0)
  {
    ScenarioRowCases(net, obsNodes, durationDays, leak, emitterExponent, samples);
    assert Validate(obsNodes, net.nodeNames, leak).None?;
    HourRowFields(net, obsNodes, NatOf(durationDays * 24), leak, ScenarioEstimate(net, leak, emitterExponent, samples),
                  TimedRows(samples), 0, 0);
  }

  /** The row of a scenario that runs has its scenario_id first, and leak 1 iff the scenario has a leak. */
  lemma IdentifiedRow(net: Network, obsNodes: seq<string>, durationDays: int, emitterExponent: Option<real>,
                      sim: Option<LeakArgs> -> seq<Sample>, s: Scenario)
    requires RowOf(net, obsNodes, durationDays, emitterExponent, sim)(s).Ok?
    ensures var r := Identified(RowOf(net, obsNodes, durationDays, emitterExponent, sim)(s).value, s.id);
      |r.keys| > 0 && r.keys[0] == "scenario_id" && "scenario_id" in r.entries && r.entries["scenario_id"] == Int(s.id) &&
      "leak" in r.entries && r.entries["leak"] == Int(if s.leak.Some? then 1 else 0)
  {
    ScenarioRowLeak(net, obsNodes, durationDays, s.leak, emitterExponent, sim(s.leak));
    IdentifiedFields(RowOf(net, obsNodes, durationDays, emitterExponent, sim)(s).value, s.id);
  }

  /**
   * A built dataset has 1 + |leak nodes|·|choices| rows; row k has
   * scenario_id k + 1 in its first column, and leak 0 for the baseline and
   * 1 for every other row.
   */
  lemma DatasetShape(net: Network, obsNodes: seq<string>, leakNodes: seq<string>, durationDays: int, leakDurationHr: real,
                     emitterChoices: seq<real>, emitterExponent: Option<real>, startHours: seq<int>,
                     sim: Option<LeakArgs> -> seq<Sample>, k: nat)
    requires |startHours| == |leakNodes| * |emitterChoices|
    requires Dataset(RowOf(net, obsNodes, durationDays, emitterExponent, sim), Scenarios(leakNodes, emitterChoices, startHours, leakDurationHr)).Ok?
    requires k <= |leakNodes| * |emitterChoices|
    ensures var rows := Dataset(RowOf(net, obsNodes, durationDays, emitterExponent, sim),
                                Scenarios(leakNodes, emitterChoices, startHours, leakDurationHr)).value;
      |rows| == 1 + |leakNodes| * |emitterChoices| &&
      |rows[k].keys| > 0 && rows[k].keys[0] == "scenario_id" &&
      "scenario_id" in rows[k].entries && rows[k].entries["scenario_id"] == Int(k + 1) &&
      "leak" in rows[k].entries && rows[k].entries["leak"] == Int(if k == 0 then 0 else 1)
  {
    var rowOf := RowOf(net, obsNodes, durationDays, emitterExponent, sim);
    var ss := Scenarios(leakNodes, emitterChoices, startHours, leakDurationHr);
    ScenarioShape(leakNodes, emitterChoices, startHours, leakDurationHr, k);
    DatasetRows(rowOf, ss, k);
    IdentifiedRow(net, obsNodes, durationDays, emitterExponent, sim, ss[k]);
  }

  /** Scenario k has id k + 1 and a leak unless it is the baseline. */
  lemma ScenarioShape(leakNodes: seq<string>, emitterChoices: seq<real>, startHours: seq<int>, durationHr: real, k: nat)
    requires |startHours| == |leakNodes| * |emitterChoices| && k <= |leakNodes| * |emitterChoices|
    ensures var ss := Scenarios(leakNodes, emitterChoices, startHours, durationHr);
      k < |ss| && ss[k].id == k + 1 && (ss[k].leak.Some? <==> k != 0)
  {
    var ss := Scenarios(leakNodes, emitterChoices, startHours, durationHr);
    assert ss[k] == ScenarioAt(leakNodes, emitterChoices, startHours, durationHr, k);
  }
}
