/**
 * The scenario generator: its time settings, one leak scenario's time
 * windows, the hydraulic stepping loop (emitter toggle, sampling inside the
 * collection window, leak-node readings), the leak-size estimate and the
 * output row with one column per observation node and sample step.
 *
 * The hydraulic engine is not modelled: each step is given as a Sample,
 * the time and the readings the engine reports for it.
 */
module GenerateData {
  import opened Wrappers
  import opened Seqs
  import opened Strings
  import opened Dict
  import opened Simulation

  /** OBS_NODES: the observation (sensor) nodes, in column order. */
  const ObsNodes: seq<string> := [
    "NODE_1383", "NODE_319", "NODE_9014", "NODE_434",
    "NODE_1119", "NODE_657", "NODEIN_3801",
    "NODE_472", "NODE_504", "NODE_433",
    "NODE_460", "NODE_470", "NODE_1185",
    "NODE_446", "NODE_1433",
    "NODE_1124", "NODE_501", "NODE_635",
    "NODE_444", "NODE_430", "NODE_1162"]

  /** No observation node is listed twice. */
  lemma ObsNodesDistinct()
    ensures Distinct(ObsNodes)
  {
    ObsNodesFrontDistinct();
    ObsNodesBackDistinct();
    ObsNodesHalvesDisjoint();
    DistinctSplit(ObsNodes, 10);
  }

  /** The first ten observation nodes, the last eleven, and the two groups against each other. */
  lemma ObsNodesFrontDistinct()
    ensures Distinct(ObsNodes[..10])
  {
  }

  lemma ObsNodesBackDistinct()
    ensures Distinct(ObsNodes[10..])
  {
  }

  lemma ObsNodesHalvesDisjoint()
    ensures forall i, j :: 0 <= i < 10 <= j < |ObsNodes| ==> ObsNodes[i] != ObsNodes[j]
  {
  }

  // ---------------------------------------------------------------------------
  // Settings

  /** get_resolution_label: RESOLUTION_MAP, else "Min" and the minutes. */
  function ResolutionLabel(sampleMinutes: int): string {
    if sampleMinutes == 10 then "TenMin"
    else if sampleMinutes == 15 then "QuarterHour"
    else if sampleMinutes == 30 then "HalfHour"
    else if sampleMinutes == 60 then "Hour"
    else "Min" + IntToString(sampleMinutes)
  }

  /** Different sample intervals get different labels, so columns of different resolutions never mix. */
  lemma ResolutionLabelInjective(a: int, b: int)
    requires ResolutionLabel(a) == ResolutionLabel(b)
    ensures a == b
  {
    var named := {10, 15, 30, 60};
    GeneratedLabel(a);
    GeneratedLabel(b);
    if a !in named && b !in named {
      assert ("Min" + IntToString(a))[3..] == IntToString(a);
      assert ("Min" + IntToString(b))[3..] == IntToString(b);
      IntToStringInjective(a, b);
    }
  }

  /** The labels the map does not name all start with "Min", which none of the named ones do. */
  lemma GeneratedLabel(m: int)
    ensures ResolutionLabel(m)[0] == 'M' <==> m !in {10, 15, 30, 60}
  {
  }

  /** Python's a // b, rounding toward negative infinity. */
  function FloorDiv(a: int, b: int): (q: int)
    requires b != 0
    ensures b > 0 ==> b * q <= a < b * q + b
    ensures b < 0 ==> b * q >= a > b * q + b
  {
    if b > 0 then a / b else (-a) / (-b)
  }

  /** The time settings of a DataGenerator; the network model it loads is not modelled. */
  datatype Generator = Generator(stepS: int, totalHours: int, totalSteps: int, emitterExp: real)

  /**
   * __init__: STEP_S = 60 · step_m and total_steps = (3600 · hours) // STEP_S;
   * a zero step divides by zero.
   */
  function NewGenerator(stepM: int, durationH: int): (g: Result<Generator, string>)
    ensures g.Err? <==> stepM == 0
    ensures g.Ok? ==>
      g.value.stepS == 60 * stepM && g.value.totalHours == durationH && g.value.emitterExp == 1.0 &&
      g.value.totalSteps == FloorDiv(3600 * durationH, 60 * stepM)
  {
    if stepM == 0 then Err("ZeroDivisionError")
    else Ok(Generator(60 * stepM, durationH, FloorDiv(3600 * durationH, 60 * stepM), 1.0))
  }

  /** total_steps is the number of whole steps in the duration. */
  lemma TotalStepsFit(stepM: int, durationH: int)
    requires stepM > 0
    ensures var g := NewGenerator(stepM, durationH).value;
      g.stepS * g.totalSteps <= 3600 * durationH < g.stepS * (g.totalSteps + 1)
  {
  }

  /** The label of the output columns: STEP_S // 60 is the step in minutes. */
  lemma LabelOfStep(stepM: int, durationH: int)
    requires stepM != 0
    ensures FloorDiv(NewGenerator(stepM, durationH).value.stepS, 60) == stepM
  {
  }

  // ---------------------------------------------------------------------------
  // Time windows

  /** Seconds on the hydraulic clock. */
  datatype Windows = Windows(collectionStart: int, collectionEnd: int, leakStart: int, leakEnd: int)

  /** The collection and leak windows of one scenario; every operand is whole, so nothing is rounded. */
  function TimeWindows(totalHours: int, collectionStartHour: int, leakStartMin: int, leakDurationHours: int): (w: Windows)
    ensures w.collectionStart == 3600 * collectionStartHour
    ensures w.collectionEnd - w.collectionStart == 3600 * totalHours
    ensures w.leakStart - w.collectionStart == 60 * leakStartMin
    ensures w.leakEnd - w.leakStart == 3600 * leakDurationHours
  {
    var cs := collectionStartHour * 3600;
    var ls := cs + leakStartMin * 60;
    Windows(cs, (collectionStartHour + totalHours) * 3600, ls, ls + leakDurationHours * 3600)
  }

  /** A leak that starts and ends within the collection period lies inside the collection window. */
  lemma LeakInsideCollection(totalHours: int, collectionStartHour: int, leakStartMin: int, leakDurationHours: int)
    requires 0 <= leakStartMin && 0 <= leakDurationHours
    requires 60 * leakStartMin + 3600 * leakDurationHours <= 3600 * totalHours
    ensures var w := TimeWindows(totalHours, collectionStartHour, leakStartMin, leakDurationHours);
      w.collectionStart <= w.leakStart <= w.leakEnd <= w.collectionEnd
  {
  }

  // ---------------------------------------------------------------------------
  // The stepping loop

  /**
   * One hydraulic step: its time, each observation node's pressure in
   * ObsNodes order (None where it is not finite), and the leak node's
   * pressure and demand.
   */
  datatype Sample = Sample(t: int, pressures: seq<Option<real>>, leakPressure: real, leakDemand: real)

  function Times(samples: seq<Sample>): (ts: seq<int>)
    ensures |ts| == |samples| && forall i :: 0 <= i < |samples| ==> ts[i] == samples[i].t
  {
    seq(|samples|, i requires 0 <= i < |samples| => samples[i].t)
  }

  /**
   * The row of one step: the pressures up to the first one that is not
   * finite, where the loop over the nodes breaks.
   */
  function FinitePrefix(ps: seq<Option<real>>): (row: seq<real>)
    ensures |row| <= |ps|
    ensures forall i :: 0 <= i < |row| ==> ps[i] == Some(row[i])
    ensures |row| < |ps| ==> ps[|row|].None?
  {
    if ps == [] || ps[0].None? then [] else [ps[0].value] + FinitePrefix(ps[1..])
  }

  /** The inner loop over the observation nodes. */
  method ReadRow(ps: seq<Option<real>>) returns (row: seq<real>)
    ensures row == FinitePrefix(ps)
  {
    row := [];
    var i := 0;
    while i < |ps|
      invariant 0 <= i <= |ps| && |row| == i
      invariant forall j :: 0 <= j < i ==> ps[j] == Some(row[j])
      decreases |ps| - i
    {
      if ps[i].None? {
        break;
      }
      row := row + [ps[i].value];
      i := i + 1;
    }
    FinitePrefixOf(ps, row);
  }

  /** FinitePrefix is the longest run of finite values at the front. */
  lemma {:induction false} FinitePrefixOf(ps: seq<Option<real>>, row: seq<real>)
    requires |row| <= |ps| && forall j :: 0 <= j < |row| ==> ps[j] == Some(row[j])
    requires |row| < |ps| ==> ps[|row|].None?
    ensures row == FinitePrefix(ps)
  {
    if row != [] {
      assert forall j :: 0 <= j < |row| - 1 ==> ps[1..][j] == Some(row[1..][j]);
      FinitePrefixOf(ps[1..], row[1..]);
    }
  }

  predicate InCollection(w: Windows, s: Sample) {
    w.collectionStart <= s.t < w.collectionEnd
  }

  /** The rows recorded over the steps: one per step inside the collection window. */
  function Recorded(samples: seq<Sample>, w: Windows): (rows: seq<seq<real>>)
    ensures |rows| <= |samples|
  {
    if samples == [] then []
    else
      var last := samples[|samples| - 1];
      Recorded(samples[..|samples| - 1], w) + if InCollection(w, last) then [FinitePrefix(last.pressures)] else []
  }

  /** The recorded rows are the rows of exactly the steps in the window, in order. */
  lemma {:induction false} RecordedInWindow(samples: seq<Sample>, w: Windows)
    ensures var kept := Filter(samples, (s: Sample) => InCollection(w, s));
      |Recorded(samples, w)| == |kept| &&
      forall k :: 0 <= k < |kept| ==> Recorded(samples, w)[k] == FinitePrefix(kept[k].pressures)
  {
    if samples != [] {
      var p := (s: Sample) => InCollection(w, s);
      var init, last := samples[..|samples| - 1], samples[|samples| - 1];
      RecordedInWindow(init, w);
      assert init + [last] == samples;
      FilterSnoc(init, last, p);
      var before, rows := Filter(init, p), Recorded(init, w);
      var tail: seq<Sample> := if p(last) then [last] else [];
      var rows' := rows + if p(last) then [FinitePrefix(last.pressures)] else [];
      assert Filter(samples, p) == before + tail;
      assert Recorded(samples, w) == rows';
      forall k | 0 <= k < |before + tail| ensures rows'[k] == FinitePrefix((before + tail)[k].pressures) {
        if k < |before| {
          assert rows'[k] == rows[k] && (before + tail)[k] == before[k];
        }
      }
    }
  }

  /** One more step adds its row at the end when it lies in the window. */
  lemma RecordedSnoc(samples: seq<Sample>, i: nat, w: Windows)
    requires i < |samples|
    ensures Recorded(samples[..i + 1], w) ==
      Recorded(samples[..i], w) + if InCollection(w, samples[i]) then [FinitePrefix(samples[i].pressures)] else []
  {
    assert samples[..i + 1][..i] == samples[..i];
  }

  /** `(int(t), value)` of the leak node at every step. */
  function LeakReadings(samples: seq<Sample>, demand: bool): (rs: seq<Reading>)
    ensures |rs| == |samples|
    ensures forall i :: 0 <= i < |samples| ==>
      rs[i] == (samples[i].t, if demand then samples[i].leakDemand else samples[i].leakPressure)
  {
    seq(|samples|, i requires 0 <= i < |samples| =>
      (samples[i].t, if demand then samples[i].leakDemand else samples[i].leakPressure))
  }

  /** One more step adds its reading at the end. */
  lemma LeakReadingsSnoc(samples: seq<Sample>, i: nat, demand: bool)
    requires i < |samples|
    ensures LeakReadings(samples[..i + 1], demand) ==
      LeakReadings(samples[..i], demand) + [(samples[i].t, if demand then samples[i].leakDemand else samples[i].leakPressure)]
  {
  }

  /** What the loop collects. */
  datatype Run = Run(commands: seq<Command>, rows: seq<seq<real>>, times: seq<nat>,
                     leakPressure: seq<Reading>, leakDemand: seq<Reading>)

  /** 0, 1, ..., n - 1. */
  predicate Consecutive(times: seq<nat>) {
    forall k :: 0 <= k < |times| ==> times[k] == k
  }

  /**
   * The loop of generate_data: at each step, after the engine reports the
   * time t, switch the emitter on the first time t reaches the leak start and
   * off the first time it reaches the leak end; record a row, numbered by
   * step_index, when t is in the collection window; note the leak node's
   * pressure and demand.
   */
  method RunSteps(samples: seq<Sample>, w: Windows) returns (run: Run)
    ensures run.commands == Commands(Times(samples), |samples|, w.leakStart, w.leakEnd)
    ensures run.rows == Recorded(samples, w)
    ensures |run.times| == |run.rows| && Consecutive(run.times)
    ensures run.leakPressure == LeakReadings(samples, false) && run.leakDemand == LeakReadings(samples, true)
  {
    ghost var ts := Times(samples);
    var commands: seq<Command> := [];
    var rows: seq<seq<real>> := [];
    var times: seq<nat> := [];
    var pressures: seq<Reading> := [];
    var demands: seq<Reading> := [];
    var started, ended := false, false;
    var stepIndex := 0;
    for i := 0 to |samples|
      invariant started <==> Reached(ts, i, w.leakStart)
      invariant ended <==> Reached(ts, i, w.leakEnd)
      invariant commands == Commands(ts, i, w.leakStart, w.leakEnd)
      invariant rows == Recorded(samples[..i], w)
      invariant stepIndex == |times| == |rows| && Consecutive(times)
      invariant pressures == LeakReadings(samples[..i], false) && demands == LeakReadings(samples[..i], true)
    {
      var s := samples[i];
      ReachedStep(ts, i, w.leakStart);
      ReachedStep(ts, i, w.leakEnd);
      var on: seq<Command> := [];
      if !started && s.t >= w.leakStart {
        on := [SwitchOn(i)];
        started := true;
      }
      var off: seq<Command> := [];
      if !ended && s.t >= w.leakEnd {
        off := [SwitchOff(i)];
        ended := true;
      }
      AppendAssoc(commands, on, off);
      assert on + off == StepCommands(ts, i, w.leakStart, w.leakEnd);
      commands := commands + on + off;
      RecordedSnoc(samples, i, w);
      LeakReadingsSnoc(samples, i, false);
      LeakReadingsSnoc(samples, i, true);
      if w.collectionStart <= s.t < w.collectionEnd {
        var row := ReadRow(s.pressures);
        rows := rows + [row];
        times := times + [stepIndex];
        stepIndex := stepIndex + 1;
      } else {
        AppendEmpty(rows);
      }
      pressures := pressures + [(s.t, s.leakPressure)];
      demands := demands + [(s.t, s.leakDemand)];
    }
    PrefixAll(samples);
    run := Run(commands, rows, times, pressures, demands);
  }

  // ---------------------------------------------------------------------------
  // The output row

  /** A value of the output row. */
  datatype Cell = Int(i: int) | Num(x: real) | Text(s: string) | Series(readings: seq<Reading>)

  /** `"{nid}_{res}{k}"`. */
  function ColumnKey(nid: string, res: string, k: nat): string {
    nid + "_" + res + NatToString(k)
  }

  /** Different (node, step) pairs name different columns, whatever the label. */
  lemma ColumnKeyInjective(n1: string, n2: string, res: string, k1: nat, k2: nat)
    ensures ColumnKey(n1, res, k1) == ColumnKey(n2, res, k2) <==> n1 == n2 && k1 == k2
  {
    if ColumnKey(n1, res, k1) == ColumnKey(n2, res, k2) {
      var x := "_" + res;
      var d1, d2 := NatToString(k1), NatToString(k2);
      assert ColumnKey(n1, res, k1) == (n1 + x) + d1 && ColumnKey(n2, res, k2) == (n2 + x) + d2;
      TrailingDigitsWithin(n1, x, 0);
      TrailingDigitsWithin(n2, x, 0);
      SplitTrailing(n1 + x, n2 + x, d1, d2);
      SuffixCancel(n1, n2, x);
      NatToStringInjective(k1, k2);
    }
  }

  /** `interval_press.loc[k, nid]`, or "" where the step or the node's pressure is missing. */
  function CellAt(rows: seq<seq<real>>, j: nat, k: nat): (c: Cell)
    ensures c.Num? <==> k < |rows| && j < |rows[k]|
    ensures c.Num? ==> c.x == rows[k][j]
    ensures !c.Num? ==> c == Text("")
  {
    if k < |rows| && j < |rows[k]| then Num(rows[k][j]) else Text("")
  }

  /** The cell of node j at step k, for every j and k. */
  function PressureCells(rows: seq<seq<real>>): (nat, nat) -> Cell {
    (j: nat, k: nat) => CellAt(rows, j, k)
  }

  /** The columns of the node at position j, for steps 0 .. n - 1. */
  function NodeColumns(nid: string, j: nat, res: string, cell: (nat, nat) -> Cell, n: nat): (cs: seq<(string, Cell)>)
    ensures |cs| == n && forall k :: 0 <= k < n ==> cs[k] == (ColumnKey(nid, res, k), cell(j, k))
  {
    seq(n, k requires 0 <= k < n => (ColumnKey(nid, res, k), cell(j, k)))
  }

  /** The columns in the order the nested loops assign them: node by node, step by step. */
  function AllColumns(obs: seq<string>, res: string, cell: (nat, nat) -> Cell, n: nat): seq<(string, Cell)> {
    if obs == [] then []
    else AllColumns(obs[..|obs| - 1], res, cell, n) + NodeColumns(obs[|obs| - 1], |obs| - 1, res, cell, n)
  }

  /** The nested loops over the nodes and steps. */
  method AddColumns(base: Table<string, Cell>, obs: seq<string>, res: string, cell: (nat, nat) -> Cell, n: nat)
    returns (row: Table<string, Cell>)
    requires Valid(base)
    ensures row == PutAll(base, AllColumns(obs, res, cell, n))
  {
    row := base;
    for j := 0 to |obs|
      invariant row == PutAll(base, AllColumns(obs[..j], res, cell, n))
    {
      ghost var before := AllColumns(obs[..j], res, cell, n);
      ghost var cols := NodeColumns(obs[j], j, res, cell, n);
      AppendEmpty(before);
      for k := 0 to n
        invariant row == PutAll(base, before + cols[..k])
      {
        PrefixSnoc(cols, k);
        AppendAssoc(before, cols[..k], [cols[k]]);
        PutAllSnoc(base, before + cols[..k], cols[k]);
        row := Put(row, ColumnKey(obs[j], res, k), cell(j, k));
      }
      PrefixAll(cols);
      PrefixSnoc(obs, j);
      assert obs[..j + 1][..j] == obs[..j];
    }
    PrefixAll(obs);
  }

  /** The pair of node j and step k is among the assigned columns. */
  lemma {:induction false} ColumnAssigned(obs: seq<string>, res: string, cell: (nat, nat) -> Cell, n: nat, j: nat, k: nat)
    requires j < |obs| && k < n
    ensures (ColumnKey(obs[j], res, k), cell(j, k)) in AllColumns(obs, res, cell, n)
  {
    var m := |obs| - 1;
    if j < m {
      var init := obs[..m];
      assert init[j] == obs[j];
      ColumnAssigned(init, res, cell, n, j, k);
    } else {
      assert NodeColumns(obs[m], m, res, cell, n)[k] == (ColumnKey(obs[j], res, k), cell(j, k));
    }
  }

  /** Every assigned column belongs to some node and step, and holds that node's cell at that step. */
  lemma {:induction false} ColumnOrigin(obs: seq<string>, res: string, cell: (nat, nat) -> Cell, n: nat, i: nat)
    requires i < |AllColumns(obs, res, cell, n)|
    ensures exists j: nat, k: nat ::
      j < |obs| && k < n && AllColumns(obs, res, cell, n)[i].0 == ColumnKey(obs[j], res, k) &&
      AllColumns(obs, res, cell, n)[i].1 == cell(j, k)
  {
    var m := |obs| - 1;
    var init := obs[..m];
    var a := AllColumns(init, res, cell, n);
    if i < |a| {
      ColumnOrigin(init, res, cell, n, i);
      var j: nat, k: nat :| j < |init| && k < n && a[i].0 == ColumnKey(init[j], res, k) && a[i].1 == cell(j, k);
      assert init[j] == obs[j];
      assert AllColumns(obs, res, cell, n)[i] == a[i];
    } else {
      assert AllColumns(obs, res, cell, n)[i] == (ColumnKey(obs[m], res, i - |a|), cell(m, i - |a|));
    }
  }

  /**
   * A field whose name does not end in a digit is never overwritten by a
   * column: it keeps the value the row had before the columns.
   */
  lemma FieldSurvivesColumns(base: Table<string, Cell>, obs: seq<string>, res: string, cell: (nat, nat) -> Cell, n: nat, name: string)
    requires Valid(base) && TrailingDigits(name) == 0
    ensures name in PutAll(base, AllColumns(obs, res, cell, n)).entries <==> name in base.entries
    ensures name in base.entries ==> PutAll(base, AllColumns(obs, res, cell, n)).entries[name] == base.entries[name]
  {
    var cols := AllColumns(obs, res, cell, n);
    forall i | 0 <= i < |cols| ensures cols[i].0 != name {
      ColumnOrigin(obs, res, cell, n, i);
      var j: nat, k: nat :| j < |obs| && k < n && cols[i].0 == ColumnKey(obs[j], res, k);
      assert ColumnKey(obs[j], res, k) == (obs[j] + "_" + res) + NatToString(k);
      TrailingDigitsAfter(obs[j] + "_" + res, NatToString(k));
    }
    PutAllLookup(base, cols, name);
  }

  /** With distinct nodes, no column is assigned twice. */
  lemma {:induction false} AllColumnsDistinct(obs: seq<string>, res: string, cell: (nat, nat) -> Cell, n: nat)
    requires Distinct(obs)
    ensures DistinctKeys(AllColumns(obs, res, cell, n))
  {
    if obs != [] {
      var m := |obs| - 1;
      var init := obs[..m];
      assert Distinct(init) by {
        forall p, q | 0 <= p < q < |init| ensures init[p] != init[q] {
          assert init[p] == obs[p] && init[q] == obs[q];
        }
      }
      AllColumnsDistinct(init, res, cell, n);
      var a := AllColumns(init, res, cell, n);
      var b := NodeColumns(obs[m], m, res, cell, n);
      var ab: seq<(string, Cell)> := a + b;
      assert AllColumns(obs, res, cell, n) == ab;
      forall i1: nat, i2: nat | i1 < i2 < |ab| ensures ab[i1].0 != ab[i2].0 {
        if i2 < |a| {
          assert ab[i1] == a[i1] && ab[i2] == a[i2];
        } else if i1 >= |a| {
          ColumnKeyInjective(obs[m], obs[m], res, i1 - |a|, i2 - |a|);
        } else {
          ColumnOrigin(init, res, cell, n, i1);
          var j: nat, k: nat :| j < |init| && k < n && a[i1].0 == ColumnKey(init[j], res, k);
          ColumnKeyInjective(init[j], obs[m], res, k, i2 - |a|);
          assert init[j] == obs[j];
        }
      }
    }
  }

  /**
   * The row has a column for every observation node and every step; when no
   * node is listed twice, it holds that node's cell at that step.
   */
  lemma ColumnsOfRow(base: Table<string, Cell>, obs: seq<string>, res: string, cell: (nat, nat) -> Cell, n: nat, j: nat, k: nat)
    requires Valid(base) && j < |obs| && k < n
    ensures ColumnKey(obs[j], res, k) in PutAll(base, AllColumns(obs, res, cell, n)).entries
    ensures Distinct(obs) ==>
      PutAll(base, AllColumns(obs, res, cell, n)).entries[ColumnKey(obs[j], res, k)] == cell(j, k)
  {
    var cols := AllColumns(obs, res, cell, n);
    var key := ColumnKey(obs[j], res, k);
    ColumnAssigned(obs, res, cell, n, j, k);
    var i :| 0 <= i < |cols| && cols[i] == (key, cell(j, k));
    PutAllLookup(base, cols, key);
    if Distinct(obs) {
      AllColumnsDistinct(obs, res, cell, n);
      LastValueDistinct(cols, i);
    }
  }

  /** The cell depends on the node's name, not on its position: positions with one name share their cells. */
  ghost predicate SameNameSameCell(obs: seq<string>, cell: (nat, nat) -> Cell) {
    forall j1: nat, j2: nat, k: nat :: j1 < |obs| && j2 < |obs| && obs[j1] == obs[j2] ==> cell(j1, k) == cell(j2, k)
  }

  /**
   * When the cell is a function of the node's name, every node's column
   * holds its cell even when a name is listed twice: the later assignment
   * writes the value the earlier one wrote.
   */
  lemma ColumnsOfRowByName(base: Table<string, Cell>, obs: seq<string>, res: string, cell: (nat, nat) -> Cell, n: nat, j: nat, k: nat)
    requires Valid(base) && j < |obs| && k < n && SameNameSameCell(obs, cell)
    ensures ColumnKey(obs[j], res, k) in PutAll(base, AllColumns(obs, res, cell, n)).entries
    ensures PutAll(base, AllColumns(obs, res, cell, n)).entries[ColumnKey(obs[j], res, k)] == cell(j, k)
  {
    var cols := AllColumns(obs, res, cell, n);
    var key := ColumnKey(obs[j], res, k);
    ColumnAssigned(obs, res, cell, n, j, k);
    PutAllLookup(base, cols, key);
    assert LastValue(cols, key).Some? by {
      var i :| 0 <= i < |cols| && cols[i] == (key, cell(j, k));
    }
    LastColumnOrigin(obs, res, cell, n, key);
    var j': nat, k': nat :| j' < |obs| && k' < n && key == ColumnKey(obs[j'], res, k') && LastValue(cols, key).value == cell(j', k');
    ColumnKeyInjective(obs[j'], obs[j], res, k', k);
  }

  /** The value a column ends up with is the cell of some node and step that names it. */
  lemma LastColumnOrigin(obs: seq<string>, res: string, cell: (nat, nat) -> Cell, n: nat, key: string)
    requires LastValue(AllColumns(obs, res, cell, n), key).Some?
    ensures exists j: nat, k: nat ::
      j < |obs| && k < n && key == ColumnKey(obs[j], res, k) && LastValue(AllColumns(obs, res, cell, n), key).value == cell(j, k)
  {
    var cols := AllColumns(obs, res, cell, n);
    var v := LastValue(cols, key).value;
    var i :| 0 <= i < |cols| && cols[i] == (key, v);
    ColumnOrigin(obs, res, cell, n, i);
  }

  /** The fields of the scenario row that precede the pressure columns. */
  function ScenarioFields(leakNode: string, x: real, y: real, estimate: LeakEstimate, emitterCoeff: real,
                          leakStartMin: int, leakDurationHours: int, collectionStartHour: int, totalHours: int,
                          run: Run): seq<(string, Cell)>
  {
    [("leak", Int(1)), ("leak_node", Text(leakNode)), ("leak_x", Num(x)), ("leak_y", Num(y)),
     ("leak_size_lps", Num(estimate.sizeLps)), ("leak_node_pressure_head", Num(estimate.pressureHead)),
     ("emitter_coeff", Num(emitterCoeff)), ("leak_start_min", Num(leakStartMin as real)),
     ("leak_duration_hr", Num(leakDurationHours as real)),
     ("collection_start_hr", Num(collectionStartHour as real)), ("collection_duration_hr", Num(totalHours as real)),
     ("leak_demand_time", Series(Clipped(run.leakDemand))), ("leak_pressure_time", Series(Clipped(run.leakPressure)))]
  }

  /** `Series(...).clip(lower=0.0)` on the readings. */
  function Clipped(rs: seq<Reading>): (cs: seq<Reading>)
    ensures |cs| == |rs| && forall i :: 0 <= i < |rs| ==> cs[i] == (rs[i].0, Clip(rs[i].1))
  {
    seq(|rs|, i requires 0 <= i < |rs| => (rs[i].0, Clip(rs[i].1)))
  }

  /**
   * generate_data for a leak node: the windows, the stepping loop, the leak
   * estimate with exponent 1 in litres per second, and the row. A node
   * without coordinates leaves leak_x unbound, which the row then reads.
   */
  method Generate(g: Generator, samples: seq<Sample>, leakNode: string, coordinates: Option<(real, real)>,
                  flowUnit: Option<string>, emitterCoeff: real, collectionStartHour: int, leakStartMin: int,
                  leakDurationHours: int)
    returns (result: Result<Table<string, Cell>, string>, run: Run)
    ensures var w := TimeWindows(g.totalHours, collectionStartHour, leakStartMin, leakDurationHours);
      run.commands == Commands(Times(samples), |samples|, w.leakStart, w.leakEnd) && run.rows == Recorded(samples, w)
    ensures result.Err? <==> coordinates.None?
    ensures result.Ok? ==>
      var w := TimeWindows(g.totalHours, collectionStartHour, leakStartMin, leakDurationHours);
      var estimate := LeakSize(run.leakPressure, w.leakStart, w.leakEnd, emitterCoeff, FlowToLpsFactor(flowUnit), (p: real) => p);
      var fields := ScenarioFields(leakNode, coordinates.value.0, coordinates.value.1, estimate, emitterCoeff,
                                   leakStartMin, leakDurationHours, collectionStartHour, g.totalHours, run);
      result.value == PutAll(PutAll(Empty(), fields), AllColumns(ObsNodes, ResolutionLabel(FloorDiv(g.stepS, 60)), PressureCells(run.rows), NatOf(g.totalSteps)))
  {
    var w := TimeWindows(g.totalHours, collectionStartHour, leakStartMin, leakDurationHours);
    run := RunSteps(samples, w);
    if coordinates.None? {
      return Err("UnboundLocalError: leak_x"), run;
    }
    var factor := FlowToLpsFactor(flowUnit);
    var estimate := LeakSize(run.leakPressure, w.leakStart, w.leakEnd, emitterCoeff, factor, (p: real) => p);
    var base := PutAll(Empty(), ScenarioFields(leakNode, coordinates.value.0, coordinates.value.1, estimate, emitterCoeff,
                                               leakStartMin, leakDurationHours, collectionStartHour, g.totalHours, run));
    var row := AddColumns(base, ObsNodes, ResolutionLabel(FloorDiv(g.stepS, 60)), PressureCells(run.rows), NatOf(g.totalSteps));
    result := Ok(row);
  }

  /** `range(n)` is empty for a negative n. */
  function NatOf(n: int): (m: nat)
    ensures n >= 0 ==> m == n
    ensures n < 0 ==> m == 0
  {
    if n < 0 then 0 else n
  }

  /**
   * In the row generate_data builds, the column of observation node j at
   * step k holds the pressure recorded for that node at that step, or "".
   */
  lemma PressureColumns(fields: seq<(string, Cell)>, res: string, rows: seq<seq<real>>, n: nat, j: nat, k: nat)
    requires j < |ObsNodes| && k < n
    ensures var row := PutAll(PutAll(Empty(), fields), AllColumns(ObsNodes, res, PressureCells(rows), n));
      ColumnKey(ObsNodes[j], res, k) in row.entries &&
      row.entries[ColumnKey(ObsNodes[j], res, k)] == CellAt(rows, j, k)
  {
    ObsNodesDistinct();
    ColumnsOfRow(PutAll(Empty(), fields), ObsNodes, res, PressureCells(rows), n, j, k);
  }
}
