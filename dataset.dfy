/**
 * The training dataset: the input and output columns of the generated data,
 * each column not excluded standardised with its own mean and standard
 * deviation, and the statistics kept so that predictions can be mapped back.
 *
 * The mean and the standard deviation of a column are given functions of
 * its values (pandas computes them); the frame read from the file is given.
 */
module NormalizedDataset {
  import opened Wrappers
  import opened Seqs
  import opened Dict

  // ---------------------------------------------------------------------------
  // Per-value standardisation

  /** (v − mean) / std. */
  function Standardize(v: real, mean: real, std: real): real
    requires std != 0.0
  {
    (v - mean) / std
  }

  /** p · std + mean. */
  function Restore(p: real, mean: real, std: real): real {
    p * std + mean
  }

  /** With a nonzero std, restoring undoes standardising and standardising undoes restoring. */
  lemma RestoreStandardize(v: real, mean: real, std: real)
    requires std != 0.0
    ensures Restore(Standardize(v, mean, std), mean, std) == v
    ensures Standardize(Restore(v, mean, std), mean, std) == v
  {
    assert (v - mean) / std * std == v - mean;
    assert (v * std + mean - mean) / std == v;
  }

  /** Standardisation keeps the order of values. */
  lemma StandardizeMonotone(u: real, v: real, mean: real, std: real)
    requires std > 0.0 && u <= v
    ensures Standardize(u, mean, std) <= Standardize(v, mean, std)
  {
    QuotientBelow(u - mean, std, (v - mean) / std);
  }

  /** The column (v − mean) / std, value by value. */
  function StandardizeColumn(vs: seq<real>, mean: real, std: real): (r: seq<real>)
    requires std != 0.0
    ensures |r| == |vs| && forall i :: 0 <= i < |vs| ==> r[i] == Standardize(vs[i], mean, std)
  {
    seq(|vs|, i requires 0 <= i < |vs| => Standardize(vs[i], mean, std))
  }

  // ---------------------------------------------------------------------------
  // Frames and the normalised columns

  /** A table read from the file: the number of rows and each column's values. */
  datatype Frame = Frame(rows: nat, columns: map<string, seq<real>>)

  /** Every column has one value per row. */
  predicate WellFormed(f: Frame) {
    forall c :: c in f.columns ==> |f.columns[c]| == f.rows
  }

  /** data[columns] finds every column. */
  predicate Present(f: Frame, columns: seq<string>) {
    forall i :: 0 <= i < |columns| ==> columns[i] in f.columns
  }

  /** The column statistics pandas computes: Series.mean() and Series.std(). */
  datatype Stats = Stats(mean: seq<real> -> real, std: seq<real> -> real)

  /** The column is standardised: normalisation is on and the column is not excluded. */
  predicate Normalizes(normalize: bool, exclude: seq<string>, c: string) {
    normalize && c !in exclude
  }

  /** Every column to be standardised has a nonzero standard deviation. */
  predicate StdsNonZero(f: Frame, columns: seq<string>, normalize: bool, exclude: seq<string>, stats: Stats) {
    forall i :: 0 <= i < |columns| && columns[i] in f.columns && Normalizes(normalize, exclude, columns[i]) ==>
      stats.std(f.columns[columns[i]]) != 0.0
  }

  /** The values column c ends up with. */
  function ColumnValues(f: Frame, c: string, normalize: bool, exclude: seq<string>, stats: Stats): (vs: seq<real>)
    requires c in f.columns
    requires Normalizes(normalize, exclude, c) ==> stats.std(f.columns[c]) != 0.0
    ensures |vs| == |f.columns[c]|
  {
    var raw := f.columns[c];
    if Normalizes(normalize, exclude, c) then StandardizeColumn(raw, stats.mean(raw), stats.std(raw)) else raw
  }

  /** The selected columns after normalisation. */
  function NormalizedFrame(f: Frame, columns: seq<string>, normalize: bool, exclude: seq<string>, stats: Stats)
    : (m: map<string, seq<real>>)
    requires Present(f, columns) && StdsNonZero(f, columns, normalize, exclude, stats)
  {
    map c | c in columns :: ColumnValues(f, c, normalize, exclude, stats)
  }

  /** `.values`: one row per index, the columns in the given order. */
  function Rows(m: map<string, seq<real>>, columns: seq<string>, n: nat): (rs: seq<seq<real>>)
    requires forall i :: 0 <= i < |columns| ==> columns[i] in m && |m[columns[i]]| == n
    ensures |rs| == n && forall r :: 0 <= r < n ==> |rs[r]| == |columns|
  {
    seq(n, r requires 0 <= r < n => seq(|columns|, j requires 0 <= j < |columns| => m[columns[j]][r]))
  }

  /** The rows of the normalised selection. */
  function NormalizedRows(f: Frame, columns: seq<string>, normalize: bool, exclude: seq<string>, stats: Stats)
    : (rs: seq<seq<real>>)
    requires WellFormed(f) && Present(f, columns) && StdsNonZero(f, columns, normalize, exclude, stats)
  {
    Rows(NormalizedFrame(f, columns, normalize, exclude, stats), columns, f.rows)
  }

  /**
   * Value r of a selected column is (v − mean) / std of its raw value when
   * the column is standardised, and the raw value when it is excluded or
   * normalisation is off.
   */
  lemma NormalizedValue(f: Frame, columns: seq<string>, normalize: bool, exclude: seq<string>, stats: Stats, r: nat, j: nat)
    requires WellFormed(f) && Present(f, columns) && StdsNonZero(f, columns, normalize, exclude, stats)
    requires r < f.rows && j < |columns|
    ensures var raw := f.columns[columns[j]];
      NormalizedRows(f, columns, normalize, exclude, stats)[r][j] ==
        if Normalizes(normalize, exclude, columns[j]) then Standardize(raw[r], stats.mean(raw), stats.std(raw)) else raw[r]
  {
  }

  // ---------------------------------------------------------------------------
  // The statistic tables

  /** The (column, statistic) pairs the loop records, in column order. */
  function StatPairs(f: Frame, columns: seq<string>, exclude: seq<string>, stat: seq<real> -> real): (kvs: seq<(string, real)>)
    requires Present(f, columns)
  {
    if columns == [] then []
    else
      var c := columns[|columns| - 1];
      StatPairs(f, columns[..|columns| - 1], exclude, stat) + if c in exclude then [] else [(c, stat(f.columns[c]))]
  }

  /** The last pair for a column holds its statistic, and only columns not excluded have one. */
  lemma {:induction false} StatPairsLast(f: Frame, columns: seq<string>, exclude: seq<string>, stat: seq<real> -> real, c: string)
    requires Present(f, columns)
    ensures LastValue(StatPairs(f, columns, exclude, stat), c) ==
      if c in columns && c !in exclude then Some(stat(f.columns[c])) else None
  {
    if columns != [] {
      var init := columns[..|columns| - 1];
      var last := columns[|columns| - 1];
      StatPairsLast(f, init, exclude, stat, c);
      assert columns == init + [last];
      var prev := StatPairs(f, init, exclude, stat);
      if last in exclude {
        AppendEmpty(prev);
      }
    }
  }

  /** input_means and the like: the statistic of every column not excluded, or nothing without normalisation. */
  function StatTable(f: Frame, columns: seq<string>, normalize: bool, exclude: seq<string>, stat: seq<real> -> real)
    : (t: Table<string, real>)
    requires Present(f, columns)
    ensures Valid(t)
  {
    if normalize then PutAll(Empty(), StatPairs(f, columns, exclude, stat)) else Empty()
  }

  /**
   * A column has a recorded statistic iff normalisation is on, it is selected
   * and it is not excluded; the statistic is that of its raw values.
   */
  lemma StatTableEntries(f: Frame, columns: seq<string>, normalize: bool, exclude: seq<string>, stat: seq<real> -> real, c: string)
    requires Present(f, columns)
    ensures c in StatTable(f, columns, normalize, exclude, stat).entries <==> normalize && c in columns && c !in exclude
    ensures c in StatTable(f, columns, normalize, exclude, stat).entries ==>
      StatTable(f, columns, normalize, exclude, stat).entries[c] == stat(f.columns[c])
  {
    if normalize {
      StatPairsLast(f, columns, exclude, stat, c);
      PutAllLookup(Empty(), StatPairs(f, columns, exclude, stat), c);
    }
  }

  /** The mean and std tables list the same columns in the same order. */
  lemma {:induction false} StatTablesAlign(f: Frame, columns: seq<string>, normalize: bool, exclude: seq<string>,
                                           s1: seq<real> -> real, s2: seq<real> -> real)
    requires Present(f, columns)
    ensures StatTable(f, columns, normalize, exclude, s1).keys == StatTable(f, columns, normalize, exclude, s2).keys
  {
    if normalize {
      StatPairsKeys(f, columns, exclude, s1, s2);
      PutAllSameKeys(Empty<string, real>(), Empty<string, real>(), StatPairs(f, columns, exclude, s1), StatPairs(f, columns, exclude, s2));
    }
  }

  lemma {:induction false} StatPairsKeys(f: Frame, columns: seq<string>, exclude: seq<string>, s1: seq<real> -> real, s2: seq<real> -> real)
    requires Present(f, columns)
    ensures KeysOf(StatPairs(f, columns, exclude, s1)) == KeysOf(StatPairs(f, columns, exclude, s2))
  {
    if columns != [] {
      var init := columns[..|columns| - 1];
      StatPairsKeys(f, init, exclude, s1, s2);
      var a, b := StatPairs(f, init, exclude, s1), StatPairs(f, init, exclude, s2);
      var c := columns[|columns| - 1];
      var x := if c in exclude then [] else [(c, s1(f.columns[c]))];
      var y := if c in exclude then [] else [(c, s2(f.columns[c]))];
      assert KeysOf(a + x) == KeysOf(a) + KeysOf(x);
      assert KeysOf(b + y) == KeysOf(b) + KeysOf(y);
    }
  }

  /** After one column's normalisation step the tables grow by its pair, if any. */
  lemma StatPairsSnoc(f: Frame, columns: seq<string>, exclude: seq<string>, stat: seq<real> -> real, i: nat)
    requires Present(f, columns) && i < |columns|
    ensures StatPairs(f, columns[..i + 1], exclude, stat) ==
      StatPairs(f, columns[..i], exclude, stat) + if columns[i] in exclude then [] else [(columns[i], stat(f.columns[columns[i]]))]
  {
    assert columns[..i + 1][..i] == columns[..i];
  }

  /**
   * The columns after the first i steps of the loop: those columns hold
   * their final values, the others their raw ones.
   */
  ghost predicate ColumnsUpTo(f: Frame, columns: seq<string>, exclude: seq<string>, stats: Stats, i: nat,
                              m: map<string, seq<real>>)
    requires Present(f, columns) && StdsNonZero(f, columns, true, exclude, stats) && i <= |columns|
  {
    (forall j :: 0 <= j < |columns| ==> columns[j] in m) && (forall c :: c in m ==> c in columns) &&
    (forall j :: 0 <= j < i ==> m[columns[j]] == ColumnValues(f, columns[j], true, exclude, stats)) &&
    (forall j :: i <= j < |columns| ==> m[columns[j]] == f.columns[columns[j]])
  }

  /** The tables after the first i steps: the statistics recorded so far. */
  ghost predicate StatsUpTo(f: Frame, columns: seq<string>, exclude: seq<string>, stats: Stats, i: nat,
                            means: Table<string, real>, stds: Table<string, real>)
    requires Present(f, columns) && i <= |columns|
  {
    means == PutAll(Empty(), StatPairs(f, columns[..i], exclude, stats.mean)) &&
    stds == PutAll(Empty(), StatPairs(f, columns[..i], exclude, stats.std))
  }

  /** Once every column has had its step, the map is the normalised frame. */
  lemma ColumnsDone(f: Frame, columns: seq<string>, exclude: seq<string>, stats: Stats, m: map<string, seq<real>>)
    requires Present(f, columns) && StdsNonZero(f, columns, true, exclude, stats)
    requires ColumnsUpTo(f, columns, exclude, stats, |columns|, m)
    ensures m == NormalizedFrame(f, columns, true, exclude, stats)
  {
    var n := NormalizedFrame(f, columns, true, exclude, stats);
    assert m.Keys == n.Keys by {
      forall c | c in n ensures c in m {
        var j :| 0 <= j < |columns| && columns[j] == c;
      }
    }
    forall c | c in m ensures m[c] == n[c] {
      var j :| 0 <= j < |columns| && columns[j] == c;
    }
  }

  /** Giving column i its final values moves the columns on by one step. */
  lemma ColumnsStep(f: Frame, columns: seq<string>, exclude: seq<string>, stats: Stats, i: nat, m: map<string, seq<real>>)
    requires Present(f, columns) && Distinct(columns) && StdsNonZero(f, columns, true, exclude, stats)
    requires i < |columns| && ColumnsUpTo(f, columns, exclude, stats, i, m)
    ensures ColumnsUpTo(f, columns, exclude, stats, i + 1, m[columns[i] := ColumnValues(f, columns[i], true, exclude, stats)])
  {
  }

  /** Recording column i's statistics, unless it is excluded, moves the tables on by one step. */
  lemma StatsStep(f: Frame, columns: seq<string>, exclude: seq<string>, stats: Stats, i: nat,
                  means: Table<string, real>, stds: Table<string, real>)
    requires Present(f, columns) && i < |columns| && StatsUpTo(f, columns, exclude, stats, i, means, stds)
    ensures var c := columns[i];
      if c in exclude then StatsUpTo(f, columns, exclude, stats, i + 1, means, stds)
      else StatsUpTo(f, columns, exclude, stats, i + 1, Put(means, c, stats.mean(f.columns[c])), Put(stds, c, stats.std(f.columns[c])))
  {
    var c := columns[i];
    StatPairsSnoc(f, columns, exclude, stats.mean, i);
    StatPairsSnoc(f, columns, exclude, stats.std, i);
    if c in exclude {
      AppendEmpty(StatPairs(f, columns[..i], exclude, stats.mean));
      AppendEmpty(StatPairs(f, columns[..i], exclude, stats.std));
    } else {
      PutAllSnoc(Empty(), StatPairs(f, columns[..i], exclude, stats.mean), (c, stats.mean(f.columns[c])));
      PutAllSnoc(Empty(), StatPairs(f, columns[..i], exclude, stats.std), (c, stats.std(f.columns[c])));
    }
  }

  /**
   * The loop body for column i: unless it is excluded, record its mean and
   * std and overwrite it with its standardised values.
   */
  method NormalizeColumn(f: Frame, columns: seq<string>, exclude: seq<string>, stats: Stats, i: nat,
                         m: map<string, seq<real>>, means: Table<string, real>, stds: Table<string, real>)
    returns (m': map<string, seq<real>>, means': Table<string, real>, stds': Table<string, real>)
    requires Present(f, columns) && Distinct(columns) && StdsNonZero(f, columns, true, exclude, stats)
    requires i < |columns| && ColumnsUpTo(f, columns, exclude, stats, i, m) && StatsUpTo(f, columns, exclude, stats, i, means, stds)
    ensures ColumnsUpTo(f, columns, exclude, stats, i + 1, m') && StatsUpTo(f, columns, exclude, stats, i + 1, means', stds')
  {
    var col := columns[i];
    StatsStep(f, columns, exclude, stats, i, means, stds);
    ColumnsStep(f, columns, exclude, stats, i, m);
    if col in exclude {
      return m, means, stds;
    }
    var raw := m[col];
    var colMean, colStd := stats.mean(raw), stats.std(raw);
    means' := Put(means, col, colMean);
    stds' := Put(stds, col, colStd);
    var standardized := StandardizeColumn(raw, colMean, colStd);
    assert standardized == ColumnValues(f, col, true, exclude, stats);
    m' := m[col := standardized];
  }

  /**
   * One of the two normalisation loops: every column not excluded gets its
   * mean and std recorded and its values standardised.
   */
  method NormalizeColumns(f: Frame, columns: seq<string>, exclude: seq<string>, stats: Stats)
    returns (m: map<string, seq<real>>, means: Table<string, real>, stds: Table<string, real>)
    requires Present(f, columns) && Distinct(columns) && StdsNonZero(f, columns, true, exclude, stats)
    ensures m == NormalizedFrame(f, columns, true, exclude, stats)
    ensures means == StatTable(f, columns, true, exclude, stats.mean)
    ensures stds == StatTable(f, columns, true, exclude, stats.std)
  {
    m := map c | c in columns :: f.columns[c];
    means, stds := Empty(), Empty();
    for i := 0 to |columns|
      invariant ColumnsUpTo(f, columns, exclude, stats, i, m) && StatsUpTo(f, columns, exclude, stats, i, means, stds)
    {
      m, means, stds := NormalizeColumn(f, columns, exclude, stats, i, m, means, stds);
    }
    PrefixAll(columns);
    ColumnsDone(f, columns, exclude, stats, m);
  }

  /** The four tables get_normalization_params returns. */
  datatype NormalizationParams = NormalizationParams(inputMeans: Table<string, real>, inputStds: Table<string, real>,
                                                     outputMeans: Table<string, real>, outputStds: Table<string, real>)

  /** LeakDataset: the normalised inputs and outputs, row by row, and their statistics. */
  class LeakDataset {
    var inputs: seq<seq<real>>
    var outputs: seq<seq<real>>
    var inputMeans: Table<string, real>
    var inputStds: Table<string, real>
    var outputMeans: Table<string, real>
    var outputStds: Table<string, real>

    /** As many input rows as output rows; each mean table lists the columns of its std table. */
    ghost predicate Valid()
      reads this
    {
      |inputs| == |outputs| &&
      Dict.Valid(inputMeans) && Dict.Valid(inputStds) && Dict.Valid(outputMeans) && Dict.Valid(outputStds) &&
      inputMeans.keys == inputStds.keys && outputMeans.keys == outputStds.keys
    }

    /**
     * __init__ on the frame read from the file: the selected columns,
     * standardised unless excluded when normalize is set, then converted to
     * rows.
     */
    constructor(data: Frame, inputColumns: seq<string>, outputColumns: seq<string>, normalize: bool,
                exclude: seq<string>, stats: Stats)
      requires WellFormed(data) && Present(data, inputColumns) && Present(data, outputColumns)
      requires Distinct(inputColumns) && Distinct(outputColumns)
      requires StdsNonZero(data, inputColumns, normalize, exclude, stats)
      requires StdsNonZero(data, outputColumns, normalize, exclude, stats)
      ensures Valid()
      ensures inputs == NormalizedRows(data, inputColumns, normalize, exclude, stats)
      ensures outputs == NormalizedRows(data, outputColumns, normalize, exclude, stats)
      ensures inputMeans == StatTable(data, inputColumns, normalize, exclude, stats.mean)
      ensures inputStds == StatTable(data, inputColumns, normalize, exclude, stats.std)
      ensures outputMeans == StatTable(data, outputColumns, normalize, exclude, stats.mean)
      ensures outputStds == StatTable(data, outputColumns, normalize, exclude, stats.std)
    {
      var ins: map<string, seq<real>> := map c | c in inputColumns :: data.columns[c];
      var outs: map<string, seq<real>> := map c | c in outputColumns :: data.columns[c];
      var inMeans, inStds, outMeans, outStds := Empty(), Empty(), Empty(), Empty();
      if normalize {
        ins, inMeans, inStds := NormalizeColumns(data, inputColumns, exclude, stats);
        outs, outMeans, outStds := NormalizeColumns(data, outputColumns, exclude, stats);
      } else {
        assert ins == NormalizedFrame(data, inputColumns, normalize, exclude, stats);
        assert outs == NormalizedFrame(data, outputColumns, normalize, exclude, stats);
      }
      inputs := Rows(ins, inputColumns, data.rows);
      outputs := Rows(outs, outputColumns, data.rows);
      inputMeans, inputStds, outputMeans, outputStds := inMeans, inStds, outMeans, outStds;
      new;
      StatTablesAlign(data, inputColumns, normalize, exclude, stats.mean, stats.std);
      StatTablesAlign(data, outputColumns, normalize, exclude, stats.mean, stats.std);
    }

    /** __len__: the number of rows, inputs and outputs alike. */
    function Length(): (n: nat)
      reads this
      requires Valid()
      ensures n == |inputs| && n == |outputs|
    {
      |inputs|
    }

    /** __getitem__: input row and output row at the index; a negative index counts from the end. */
    function GetItem(index: int): (r: Result<(seq<real>, seq<real>), string>)
      reads this
      requires Valid()
      ensures r.Ok? <==> -|inputs| <= index < |inputs|
      ensures r.Ok? ==> var k := if index < 0 then index + |inputs| else index;
        r.value == (inputs[k], outputs[k])
    {
      if index < -|inputs| || index >= |inputs| then Err("IndexError")
      else
        var k := if index < 0 then index + |inputs| else index;
        Ok((inputs[k], outputs[k]))
    }

    /** get_normalization_params: the four tables, each mean table aligned with its std table. */
    function GetNormalizationParams(): (p: NormalizationParams)
      reads this
      requires Valid()
      ensures p == NormalizationParams(inputMeans, inputStds, outputMeans, outputStds)
      ensures p.inputMeans.keys == p.inputStds.keys && p.outputMeans.keys == p.outputStds.keys
    {
      NormalizationParams(inputMeans, inputStds, outputMeans, outputStds)
    }
  }

  /**
   * Without normalisation nothing is recorded and every selected value is
   * the raw one.
   */
  lemma NoNormalization(f: Frame, columns: seq<string>, exclude: seq<string>, stats: Stats, stat: seq<real> -> real, r: nat, j: nat)
    requires WellFormed(f) && Present(f, columns) && r < f.rows && j < |columns|
    ensures StatTable(f, columns, false, exclude, stat) == Empty()
    ensures NormalizedRows(f, columns, false, exclude, stats)[r][j] == f.columns[columns[j]][r]
  {
    NormalizedValue(f, columns, false, exclude, stats, r, j);
  }
}
