/**
 * Inference-time feature handling: the 504 hourly columns the model reads,
 * the inputs standardised with the statistics saved at training time, and
 * the model's outputs mapped back to their own units.
 *
 * The network itself, the saved-model file and the device are not modelled:
 * predictions are given rows of numbers.
 */
module RunModel {
  import opened Wrappers
  import opened Seqs
  import opened Strings
  import opened Dict
  import opened Simulation
  import opened GenerateData
  import opened LegacyGenerateData
  import opened NormalizedDataset

  // ---------------------------------------------------------------------------
  // The input layout

  /** HOURLY_NODES: Hour0 … Hour23 of each observation node, node by node. */
  const HourlyNodes: seq<string> :=
    seq(504, k requires 0 <= k < 504 => ColumnKey(ObsNodes[k / 24], "Hour", k % 24))

  /** Name 24·j + h is node j's hour h, 504 names in all, each the name the column generator gives. */
  lemma HourlyNodesLayout(j: nat, h: nat)
    requires j < |ObsNodes| && h < 24
    ensures |HourlyNodes| == 504 == 24 * |ObsNodes|
    ensures HourlyNodes[24 * j + h] == ObsNodes[j] + "_Hour" + NatToString(h)
  {
    var k := 24 * j + h;
    assert k / 24 == j && k % 24 == h;
  }

  /** The first and last names. */
  lemma HourlyNodesEnds()
    ensures HourlyNodes[0] == "NODE_1383_Hour0"
    ensures HourlyNodes[503] == "NODE_1162_Hour23"
  {
    assert NatToString(23) == "23" by {
      assert NatToString(2) == "2";
    }
  }

  /** No name is listed twice. */
  lemma HourlyNodesDistinct()
    ensures Distinct(HourlyNodes)
  {
    ObsNodesDistinct();
    forall a, b | 0 <= a < b < |HourlyNodes| ensures HourlyNodes[a] != HourlyNodes[b] {
      ColumnKeyInjective(ObsNodes[a / 24], ObsNodes[b / 24], "Hour", a % 24, b % 24);
      if a / 24 == b / 24 {
        assert a == 24 * (a / 24) + a % 24 && b == 24 * (b / 24) + b % 24;
      }
    }
  }

  /**
   * Every input name is a column of a one-day scenario row, holding that
   * node's mean in that hour: the model reads what the generator writes.
   */
  lemma HourlyNodesAreScenarioColumns(net: Network, leak: Option<LeakArgs>, estimate: LeakEstimate, rows: seq<TimedRow>, k: nat)
    requires leak.Some? ==> Complete(leak.value, net.nodeNames)
    requires k < |HourlyNodes|
    ensures var row := HourRow(net, ObsNodes, 24, leak, estimate, rows);
      HourlyNodes[k] in row.entries && row.entries[HourlyNodes[k]] == HourCell(rows, ObsNodes, ObsNodes[k / 24], k % 24)
  {
    HourRowFields(net, ObsNodes, 24, leak, estimate, rows, k / 24, k % 24);
  }

  // ---------------------------------------------------------------------------
  // normalize_inputs

  /** The column has both a saved mean and a saved std. */
  predicate Known(means: Table<string, real>, stds: Table<string, real>, c: string) {
    c in means.entries && c in stds.entries
  }

  /** Every column that will be standardised has a nonzero saved std. */
  predicate KnownStdsNonZero(columns: seq<string>, means: Table<string, real>, stds: Table<string, real>) {
    forall i :: 0 <= i < |columns| && Known(means, stds, columns[i]) ==> stds.entries[columns[i]] != 0.0
  }

  /** Column c after normalize_inputs: standardised when known, raw otherwise. */
  function InputColumn(f: Frame, c: string, means: Table<string, real>, stds: Table<string, real>): (vs: seq<real>)
    requires c in f.columns && (Known(means, stds, c) ==> stds.entries[c] != 0.0)
    ensures |vs| == |f.columns[c]|
  {
    var raw := f.columns[c];
    if Known(means, stds, c) then StandardizeColumn(raw, means.entries[c], stds.entries[c]) else raw
  }

  function InputFrame(f: Frame, columns: seq<string>, means: Table<string, real>, stds: Table<string, real>)
    : map<string, seq<real>>
    requires Present(f, columns) && KnownStdsNonZero(columns, means, stds)
  {
    map c | c in columns :: InputColumn(f, c, means, stds)
  }

  /** The rows normalize_inputs returns. */
  function InputRows(f: Frame, columns: seq<string>, means: Table<string, real>, stds: Table<string, real>)
    : seq<seq<real>>
    requires WellFormed(f) && Present(f, columns) && KnownStdsNonZero(columns, means, stds)
  {
    Rows(InputFrame(f, columns, means, stds), columns, f.rows)
  }

  /**
   * Value r of column j is (v − m) / s when the column has a saved mean m
   * and std s, and v itself otherwise; one row per input row, one value per
   * column.
   */
  lemma InputValue(f: Frame, columns: seq<string>, means: Table<string, real>, stds: Table<string, real>, r: nat, j: nat)
    requires WellFormed(f) && Present(f, columns) && KnownStdsNonZero(columns, means, stds)
    requires r < f.rows && j < |columns|
    ensures var rows := InputRows(f, columns, means, stds);
      |rows| == f.rows && |rows[r]| == |columns|
    ensures var c, v := columns[j], f.columns[columns[j]][r];
      InputRows(f, columns, means, stds)[r][j] ==
        if Known(means, stds, c) then Standardize(v, means.entries[c], stds.entries[c]) else v
  {
  }

  /** The copy after the first i columns of the loop. */
  ghost predicate InputsUpTo(f: Frame, columns: seq<string>, means: Table<string, real>, stds: Table<string, real>,
                             i: nat, m: map<string, seq<real>>)
    requires Present(f, columns) && KnownStdsNonZero(columns, means, stds) && i <= |columns|
  {
    (forall j :: 0 <= j < |columns| ==> columns[j] in m) && (forall c :: c in m ==> c in columns) &&
    (forall j :: 0 <= j < i ==> m[columns[j]] == InputColumn(f, columns[j], means, stds)) &&
    (forall j :: i <= j < |columns| ==> m[columns[j]] == f.columns[columns[j]])
  }

  lemma InputsStep(f: Frame, columns: seq<string>, means: Table<string, real>, stds: Table<string, real>,
                   i: nat, m: map<string, seq<real>>)
    requires Present(f, columns) && Distinct(columns) && KnownStdsNonZero(columns, means, stds)
    requires i < |columns| && InputsUpTo(f, columns, means, stds, i, m)
    ensures InputsUpTo(f, columns, means, stds, i + 1, m[columns[i] := InputColumn(f, columns[i], means, stds)])
  {
  }

  /**
   * normalize_inputs: a copy of the frame in which every column with a
   * saved mean and std is standardised; the frame itself is a value and so
   * is not changed.
   */
  method NormalizeInputs(f: Frame, columns: seq<string>, means: Table<string, real>, stds: Table<string, real>)
    returns (rows: seq<seq<real>>)
    requires WellFormed(f) && Present(f, columns) && Distinct(columns) && KnownStdsNonZero(columns, means, stds)
    ensures rows == InputRows(f, columns, means, stds)
  {
    var normalized := map c | c in columns :: f.columns[c];
    for i := 0 to |columns|
      invariant InputsUpTo(f, columns, means, stds, i, normalized)
    {
      var column := columns[i];
      InputsStep(f, columns, means, stds, i, normalized);
      if column in means.entries && column in stds.entries {
        normalized := normalized[column := StandardizeColumn(f.columns[column], means.entries[column], stds.entries[column])];
      }
    }
    assert normalized == InputFrame(f, columns, means, stds);
    rows := Rows(normalized, columns, f.rows);
  }

  /**
   * With the statistics a normalising LeakDataset saved for the same
   * columns, inference standardises every value exactly as training did.
   */
  lemma InferenceMatchesTraining(f: Frame, columns: seq<string>, exclude: seq<string>, stats: Stats)
    requires WellFormed(f) && Present(f, columns) && StdsNonZero(f, columns, true, exclude, stats)
    ensures var means, stds := StatTable(f, columns, true, exclude, stats.mean), StatTable(f, columns, true, exclude, stats.std);
      KnownStdsNonZero(columns, means, stds) &&
      InputRows(f, columns, means, stds) == NormalizedRows(f, columns, true, exclude, stats)
  {
    var means, stds := StatTable(f, columns, true, exclude, stats.mean), StatTable(f, columns, true, exclude, stats.std);
    forall c | c in columns
      ensures Known(means, stds, c) <==> c !in exclude
      ensures Known(means, stds, c) ==> means.entries[c] == stats.mean(f.columns[c]) && stds.entries[c] == stats.std(f.columns[c])
    {
      StatTableEntries(f, columns, true, exclude, stats.mean, c);
      StatTableEntries(f, columns, true, exclude, stats.std, c);
    }
    assert KnownStdsNonZero(columns, means, stds);
    assert InputFrame(f, columns, means, stds) == NormalizedFrame(f, columns, true, exclude, stats);
  }

  // ---------------------------------------------------------------------------
  // denormalize_outputs

  /** Why denormalize_outputs stops: a key without a std, or a key past the last prediction column. */
  datatype OutputError = KeyError(key: string) | IndexError(column: nat)

  /** Output i cannot be mapped back. */
  predicate Fails(means: Table<string, real>, stds: Table<string, real>, width: nat, i: nat)
    requires i < |means.keys|
  {
    means.keys[i] !in stds.entries || i >= width
  }

  /** The error raised at output i: the missing std is looked up before the column. */
  function FailureAt(means: Table<string, real>, stds: Table<string, real>, i: nat): OutputError
    requires i < |means.keys|
  {
    if means.keys[i] !in stds.entries then KeyError(means.keys[i]) else IndexError(i)
  }

  /** predictions[:, i] · std + mean, as a list. */
  function RestoredColumn(predictions: seq<seq<real>>, i: nat, mean: real, std: real): (vs: seq<real>)
    requires forall p :: 0 <= p < |predictions| ==> i < |predictions[p]|
    ensures |vs| == |predictions| && forall p :: 0 <= p < |predictions| ==> vs[p] == Restore(predictions[p][i], mean, std)
  {
    seq(|predictions|, p requires 0 <= p < |predictions| => predictions[p][i] * std + mean)
  }

  /** zip(keys, values). */
  function Zip<K, V>(ks: seq<K>, vs: seq<V>): (kvs: seq<(K, V)>)
    requires |ks| == |vs|
    ensures |kvs| == |ks| && forall i :: 0 <= i < |ks| ==> kvs[i] == (ks[i], vs[i])
  {
    seq(|ks|, i requires 0 <= i < |ks| => (ks[i], vs[i]))
  }

  /**
   * denormalize_outputs: the i-th prediction column goes to the i-th key of
   * the saved output means, in their order, as p · std + mean. It fails at
   * the first key without a std or past the prediction columns.
   */
  method DenormalizeOutputs(predictions: seq<seq<real>>, width: nat, means: Table<string, real>, stds: Table<string, real>)
    returns (r: Result<Table<string, seq<real>>, OutputError>)
    requires Dict.Valid(means)
    requires forall p :: 0 <= p < |predictions| ==> |predictions[p]| == width
    ensures r.Err? <==> exists i :: 0 <= i < |means.keys| && Fails(means, stds, width, i)
    ensures r.Err? ==> exists i :: (0 <= i < |means.keys| && Fails(means, stds, width, i) &&
      (forall k :: 0 <= k < i ==> !Fails(means, stds, width, k)) && r.error == FailureAt(means, stds, i))
    ensures r.Ok? ==> Dict.Valid(r.value) && r.value.keys == means.keys
    ensures r.Ok? ==> forall i :: 0 <= i < |means.keys| ==>
      !Fails(means, stds, width, i) && means.keys[i] in r.value.entries &&
      r.value.entries[means.keys[i]] ==
        RestoredColumn(predictions, i, means.entries[means.keys[i]], stds.entries[means.keys[i]])
  {
    var data: seq<seq<real>> := [];
    for i := 0 to |means.keys|
      invariant |data| == i
      invariant forall k :: 0 <= k < i ==> (!Fails(means, stds, width, k) &&
        data[k] == RestoredColumn(predictions, k, means.entries[means.keys[k]], stds.entries[means.keys[k]]))
    {
      var key := means.keys[i];
      var mean := means.entries[key];
      if key !in stds.entries {
        r := Err(KeyError(key));
        assert Fails(means, stds, width, i) && r.error == FailureAt(means, stds, i);
        return;
      }
      var std := stds.entries[key];
      if i >= width {
        r := Err(IndexError(i));
        assert Fails(means, stds, width, i) && r.error == FailureAt(means, stds, i);
        return;
      }
      var column := seq(|predictions|, p requires 0 <= p < |predictions| => predictions[p][i] * std + mean);
      data := data + [column];
    }
    ZipTable(means.keys, data);
    r := Ok(PutAll(Empty(), Zip(means.keys, data)));
  }

  /** dict(zip(keys, values)) with distinct keys: the keys in order, each with its own value. */
  lemma ZipTable<V>(keys: seq<string>, vs: seq<V>)
    requires Distinct(keys) && |keys| == |vs|
    ensures var t := PutAll(Empty(), Zip(keys, vs));
      t.keys == keys && forall i :: 0 <= i < |keys| ==> keys[i] in t.entries && t.entries[keys[i]] == vs[i]
  {
    var pairs := Zip(keys, vs);
    assert DistinctKeys(pairs);
    PutAllDistinctKeys(pairs);
    assert KeysOf(pairs) == keys;
    forall i | 0 <= i < |keys|
      ensures keys[i] in PutAll(Empty(), pairs).entries
      ensures PutAll(Empty(), pairs).entries[keys[i]] == vs[i]
    {
      LastValueDistinct(pairs, i);
      PutAllLookup(Empty(), pairs, keys[i]);
    }
  }

  /**
   * Per value, mapping back with (mean, std) undoes standardising with them:
   * a prediction equal to the standardised target restores the target.
   */
  lemma DenormalizeUndoesNormalize(predictions: seq<seq<real>>, targets: seq<seq<real>>, i: nat, mean: real, std: real, p: nat)
    requires std != 0.0 && |targets| == |predictions| && p < |predictions|
    requires forall q :: 0 <= q < |predictions| ==> i < |predictions[q]| && i < |targets[q]|
    requires forall q :: 0 <= q < |predictions| ==> predictions[q][i] == Standardize(targets[q][i], mean, std)
    ensures RestoredColumn(predictions, i, mean, std)[p] == targets[p][i]
  {
    RestoreStandardize(targets[p][i], mean, std);
  }
}
