/**
 * hpycc/spray.py: the record set of a DataFrame, the literal of a chunk of
 * rows, the submit and concatenate scripts, and the steps `spray_file` plans.
 */
module Spray {
  import opened Wrappers
  import opened Strings
  import opened Table
  import opened Ecl

  /** `_get_type`: the branches that would give a richer type all fall through to STRING. */
  function GetType(dtype: string): (ecl: string)
    ensures ecl == "STRING"
  {
    if Contains(dtype, "float") then "STRING"
    else if Contains(dtype, "int") then "STRING"
    else if Contains(dtype, "bool") then "STRING"
    else "STRING"
  }

  /** The keys of `df.dtypes.to_dict()`: every label once, in order of first appearance (`DictKeysPrefix`). */
  function DictKeys(columns: seq<string>): (keys: seq<string>)
    ensures forall c :: c in keys <==> c in columns
    ensures forall i, j :: 0 <= i < j < |keys| ==> keys[i] != keys[j]
    decreases |columns|
  {
    if columns == [] then []
    else
      var init := DictKeys(columns[..|columns| - 1]);
      var last := columns[|columns| - 1];
      assert columns == columns[..|columns| - 1] + [last];
      if last in init then init else init + [last]
  }

  /**
   * Keys come in order of first appearance: the keys of any leading part of
   * the labels are a prefix of the keys of all of them, so a label met earlier
   * is listed earlier.
   */
  lemma {:induction false} DictKeysPrefix(columns: seq<string>, k: nat)
    requires k <= |columns|
    ensures DictKeys(columns[..k]) <= DictKeys(columns)
    decreases |columns| - k
  {
    if k < |columns| {
      var init := columns[..|columns| - 1];
      assert init[..k] == columns[..k];
      DictKeysPrefix(init, k);
    } else {
      assert columns[..k] == columns;
    }
  }

  /** `df.dtypes.to_dict()[key]`: a repeated label keeps the dtype of its last column. */
  function DictValue(columns: seq<string>, dtypes: seq<string>, key: string): string
    requires |dtypes| == |columns|
    decreases |columns|
  {
    if columns == [] then ""
    else if columns[|columns| - 1] == key then dtypes[|columns| - 1]
    else DictValue(columns[..|columns| - 1], dtypes[..|dtypes| - 1], key)
  }

  /**
   * `_make_record_set`: `"<type> <label>"` per dictionary entry, joined by `;`.
   * Whatever the dtypes, every entry is a STRING field.
   */
  function MakeRecordSet(t: Table): (recordSet: string)
    requires |t.dtypes| == |t.columns|
    ensures var keys := DictKeys(t.columns);
            recordSet == Join(";", seq(|keys|, i requires 0 <= i < |keys| => "STRING " + keys[i]))
  {
    var keys := DictKeys(t.columns);
    var entries := seq(|keys|, i requires 0 <= i < |keys| => GetType(DictValue(t.columns, t.dtypes, keys[i])) + " " + keys[i]);
    assert forall i :: 0 <= i < |keys| ==> entries[i] == "STRING " + keys[i];
    assert entries == seq(|keys|, i requires 0 <= i < |keys| => "STRING " + keys[i]);
    Join(";", entries)
  }

  lemma {:induction false} DictKeysOfDistinct(columns: seq<string>)
    requires forall i, j :: 0 <= i < j < |columns| ==> columns[i] != columns[j]
    ensures DictKeys(columns) == columns
  {
    if columns != [] {
      var init := columns[..|columns| - 1];
      DictKeysOfDistinct(init);
      assert columns[|columns| - 1] !in init;
      assert init + [columns[|columns| - 1]] == columns;
    }
  }

  /**
   * With distinct labels the record set holds one `STRING <label>` entry per
   * column, in column order, with the labels copied unchanged.
   */
  lemma RecordSetOnePerColumn(t: Table)
    requires |t.dtypes| == |t.columns|
    requires forall i, j :: 0 <= i < j < |t.columns| ==> t.columns[i] != t.columns[j]
    ensures MakeRecordSet(t) == Join(";", seq(|t.columns|, i requires 0 <= i < |t.columns| => "STRING " + t.columns[i]))
  {
    DictKeysOfDistinct(t.columns);
    var keys := DictKeys(t.columns);
    assert seq(|keys|, i requires 0 <= i < |keys| => "STRING " + keys[i])
        == seq(|t.columns|, i requires 0 <= i < |t.columns| => "STRING " + t.columns[i]);
  }

  /**
   * One cell as `_stringify_rows` leaves it: a quoted literal whose body, with
   * `\'` read as `'`, is the cell's text, or empty for a null.
   */
  function StringifyCell(c: Cell): (literal: string)
    ensures |literal| >= 2 && literal[0] == '\'' && literal[|literal| - 1] == '\''
    ensures InnerQuotesEscaped(literal)
    ensures UnescapeQuotes(literal[1..|literal| - 1]) == (if c.Missing? then "" else c.s)
  {
    QuoteLiteral(if c.Missing? then "" else c.s)
  }

  /** A cell without backslashes is read back by ECL as its text, or empty for a null. */
  lemma StringifyCellReadsBack(c: Cell, rest: string)
    requires c.Text? ==> forall i :: 0 <= i < |c.s| ==> c.s[i] != '\\'
    ensures ReadLiteral(StringifyCell(c) + rest) == Some((if c.Missing? then "" else c.s, rest))
  {
    ReadQuoteLiteral(if c.Missing? then "" else c.s, rest);
  }

  /** Some label names more than one column. */
  predicate RepeatedLabels(columns: seq<string>)
  {
    exists i, j :: 0 <= i < j < |columns| && columns[i] == columns[j]
  }

  /** None of the first `n` labels names a second column. */
  predicate UniqueUpTo(columns: seq<string>, n: nat)
  {
    n <= |columns| && forall c, d :: 0 <= c < n && 0 <= d < |columns| && c != d ==> columns[c] != columns[d]
  }

  /** A label found again before or after its own column is a repeated label. */
  lemma LabelFoundAgain(columns: seq<string>, col: nat)
    requires col < |columns|
    requires columns[col] in columns[..col] || columns[col] in columns[col + 1..]
    ensures RepeatedLabels(columns)
  {
    if columns[col] in columns[..col] {
      var d :| 0 <= d < col && columns[..col][d] == columns[col];
      assert columns[d] == columns[col];
    } else {
      var d :| 0 <= d < |columns| - col - 1 && columns[col + 1..][d] == columns[col];
      assert columns[col] == columns[col + 1 + d];
    }
  }

  /** A label found nowhere else extends the unique prefix by one. */
  lemma LabelNotFoundAgain(columns: seq<string>, col: nat)
    requires col < |columns| && UniqueUpTo(columns, col)
    requires columns[col] !in columns[..col] && columns[col] !in columns[col + 1..]
    ensures UniqueUpTo(columns, col + 1)
  {
    forall d | 0 <= d < |columns| && d != col ensures columns[col] != columns[d] {
      if d < col {
        assert columns[d] == columns[..col][d];
      } else {
        assert columns[d] == columns[col + 1..][d - col - 1];
      }
    }
  }

  lemma AllUniqueNotRepeated(columns: seq<string>)
    requires UniqueUpTo(columns, |columns|)
    ensures !RepeatedLabels(columns)
  {
  }

  /** Why `spray_file` raises. */
  datatype SprayError =
    | UnsupportedSource  // `TypeError`: the source is neither a DataFrame nor a path
    | RepeatedLabel      // `AttributeError`: `sliced_df[col]` is a DataFrame, which has no `.str`

  function StringifyCells(rows: seq<seq<Cell>>): seq<seq<string>>
  {
    seq(|rows|, r requires 0 <= r < |rows| =>
      seq(|rows[r]|, c requires 0 <= c < |rows[r]| => StringifyCell(rows[r][c])))
  }

  /**
   * What `_stringify_rows(df, start, num)` returns: rows start..start+num, both
   * included, each in braces; empty exactly when the slice holds no row.
   */
  function StringifiedRows(t: Table, start: nat, num: nat): (literal: string)
    ensures literal == "" <==> Loc(t.rows, start, start + num) == []
    ensures literal != "" ==> literal[0] == '{' && literal[|literal| - 1] == '}'
  {
    var rows := StringifyCells(Loc(t.rows, start, start + num));
    RowsLiteralShape(rows);
    RowsLiteral(rows)
  }

  /** `sliced_df[col] = …`: column `col` of every row replaced by its quoted literal, all else kept. */
  function QuoteColumn(rows: seq<seq<Cell>>, col: nat): (quoted: seq<seq<Cell>>)
    requires forall row :: 0 <= row < |rows| ==> col < |rows[row]|
    ensures |quoted| == |rows|
    ensures forall row :: 0 <= row < |rows| ==> |quoted[row]| == |rows[row]|
    ensures forall row, c :: 0 <= row < |rows| && 0 <= c < |rows[row]| ==>
              quoted[row][c] == if c == col then Text(StringifyCell(rows[row][c])) else rows[row][c]
  {
    seq(|rows|, row requires 0 <= row < |rows| => rows[row][col := Text(StringifyCell(rows[row][col]))])
  }

  /** Every row is `width` cells wide and the first `col` columns of `sliced` hold the quoted cells of `original`. */
  predicate QuotedUpTo(sliced: seq<seq<Cell>>, original: seq<seq<Cell>>, col: nat, width: nat)
  {
    && col <= width
    && |sliced| == |original|
    && (forall row :: 0 <= row < |sliced| ==> |sliced[row]| == width == |original[row]|)
    && (forall row, c :: 0 <= row < |sliced| && 0 <= c < col ==> sliced[row][c] == Text(StringifyCell(original[row][c])))
    && (forall row, c :: 0 <= row < |sliced| && col <= c < width ==> sliced[row][c] == original[row][c])
  }

  /** Quoting the next column extends the quoted prefix by one. */
  lemma QuoteColumnStep(sliced: seq<seq<Cell>>, original: seq<seq<Cell>>, col: nat, width: nat)
    requires QuotedUpTo(sliced, original, col, width) && col < width
    ensures QuotedUpTo(QuoteColumn(sliced, col), original, col + 1, width)
  {
  }

  /** A slice whose every cell was replaced by its quoted literal renders as the stringified rows. */
  lemma StringifiedSlice(sliced: seq<seq<Cell>>, original: seq<seq<Cell>>, width: nat)
    requires QuotedUpTo(sliced, original, width, width)
    ensures RenderRows(sliced) == StringifyCells(original)
  {
    forall row | 0 <= row < |sliced| ensures RenderRows(sliced)[row] == StringifyCells(original)[row] {
      assert forall c :: 0 <= c < |sliced[row]| ==> Render(sliced[row][c]) == StringifyCell(original[row][c]);
    }
  }

  /**
   * `_stringify_rows`: slices the rows, overwrites the slice column by column
   * with the quoted cells, then joins the rows into the literal.  At the first
   * label that names two columns the column lookup gives a frame, not a series,
   * and the call raises.
   */
  method StringifyRows(t: Table, start: nat, num: nat) returns (r: Result<string, SprayError>)
    requires WellFormed(t)
    ensures r.Failure? <==> RepeatedLabels(t.columns)
    ensures r.Failure? ==> r.error == RepeatedLabel
    ensures r.Success? ==> r.value == StringifiedRows(t, start, num)
  {
    var sliced := Loc(t.rows, start, start + num);
    ghost var original := sliced;
    var col := 0;
    while col < |t.columns|
      invariant 0 <= col <= |t.columns|
      invariant UniqueUpTo(t.columns, col)
      invariant QuotedUpTo(sliced, original, col, |t.columns|)
    {
      var name := t.columns[col];
      if name in t.columns[..col] || name in t.columns[col + 1..] {
        LabelFoundAgain(t.columns, col);
        return Failure(RepeatedLabel);
      }
      LabelNotFoundAgain(t.columns, col);
      QuoteColumnStep(sliced, original, col, |t.columns|);
      sliced := QuoteColumn(sliced, col);
      col := col + 1;
    }
    AllUniqueNotRepeated(t.columns);
    StringifiedSlice(sliced, original, |t.columns|);
    var literal := RowsLiteral(RenderRows(sliced));
    r := Success(literal);
  }

  /** The script `_spray_stringified_data` hands to the cluster. */
  function SubmitScript(data: string, recordSet: string, file: string, overwrite: bool): (script: string)
    ensures StartsWith(script, "a := DATASET([" + data + "], {" + recordSet + "});\nOUTPUT(a, ,'" + file + "' , EXPIRE(1)")
    ensures EndsWith(script, ");")
    ensures EndsWith(script, ", OVERWRITE);") <==> overwrite
    ensures |script| == |"a := DATASET([" + data + "], {" + recordSet + "});\nOUTPUT(a, ,'" + file + "' , EXPIRE(1)"|
                        + (if overwrite then 13 else 2)
  {
    var content := "a := DATASET([" + data + "], {" + recordSet + "});\nOUTPUT(a, ,'" + file + "' , EXPIRE(1)";
    var flagged := if overwrite then content + ", OVERWRITE" else content;
    var script := flagged + ");";
    assert !overwrite ==> script[|script| - 3] == ')';
    script
  }

  /** `DATASET('<name>', {<record set>}, THOR)`: reads one logical file. */
  function ReadFile(name: string, recordSet: string): (read: string)
    ensures StartsWith(read, "DATASET('" + name + "'")
    ensures EndsWith(read, "}, THOR)")
  {
    "DATASET('" + name + "', {" + recordSet + "}, THOR)"
  }

  /** Between the name and the closing `}, THOR)` stands exactly `, {<record set>`. */
  lemma ReadFileFields(name: string, recordSet: string)
    ensures var read := ReadFile(name, recordSet);
            && |read| == |"DATASET('" + name + "', {"| + |recordSet| + |"}, THOR)"|
            && read[|"DATASET('" + name + "'"|..|read| - |"}, THOR)"|] == ", {" + recordSet
  {
  }

  /** The reads of all files, in the given order, joined by `+\n`. */
  function ReadList(names: seq<string>, recordSet: string): (list: string)
    ensures names == [] ==> list == ""
    ensures |names| == 1 ==> list == ReadFile(names[0], recordSet)
  {
    Join("+\n", seq(|names|, i requires 0 <= i < |names| => ReadFile(names[i], recordSet)))
  }

  /** One more name adds its read at the end of the list: reads keep the input order. */
  lemma ReadListSnoc(names: seq<string>, name: string, recordSet: string)
    requires |names| > 0
    ensures ReadList(names + [name], recordSet) == ReadList(names, recordSet) + "+\n" + ReadFile(name, recordSet)
  {
    var parts := seq(|names|, i requires 0 <= i < |names| => ReadFile(names[i], recordSet));
    assert seq(|names + [name]|, i requires 0 <= i < |names + [name]| => ReadFile((names + [name])[i], recordSet))
        == parts + [ReadFile(name, recordSet)];
    JoinAppend("+\n", parts, [ReadFile(name, recordSet)]);
  }

  /** `concatenate_logical_files`: reads every file in order and writes the union. */
  function ConcatScript(toConcat: seq<string>, logicalFile: string, recordSet: string, overwrite: bool): (script: string)
    ensures StartsWith(script, "a := " + ReadList(toConcat, recordSet) + ";\nOUTPUT(a, ,'" + logicalFile + "' ")
    ensures EndsWith(script, ");")
    ensures EndsWith(script, ", OVERWRITE);") <==> overwrite
    ensures |script| == |"a := " + ReadList(toConcat, recordSet) + ";\nOUTPUT(a, ,'" + logicalFile + "' "|
                        + (if overwrite then 13 else 2)
  {
    var head := "a := " + ReadList(toConcat, recordSet) + ";\nOUTPUT(a, ,'" + logicalFile + "' ";
    var flagged := if overwrite then head + ", OVERWRITE" else head;
    var script := flagged + ");";
    assert !overwrite ==> script[|script| - 3] == ' ';
    script
  }

  /** Where `spray_file` takes its data from: a DataFrame, or a csv file read by pandas. */
  datatype Source = DataFrameSource(t: Table) | CsvSource(path: string, t: Table) | OtherSource

  /** What `spray_file` asks of the cluster, in order. */
  datatype Step =
    | Submit(file: string, script: string)
    | Concatenate(sources: seq<string>, target: string, script: string)
    | DeleteFile(name: string)


  /**
   * The shape taken for what `make_chunks` returns: consecutive (start, count)
   * pairs with positive counts that cover rows lo..n-1.
   */
  predicate ChunkPlan(chunks: seq<(nat, nat)>, lo: nat, n: nat)
    decreases |chunks|
  {
    if chunks == [] then lo == n
    else chunks[0].0 == lo && chunks[0].1 > 0 && ChunkPlan(chunks[1..], lo + chunks[0].1, n)
  }

  /** `TEMPHPYCC::<target>from<start>to<start+count>`, one per chunk. */
  function TempNames(logicalFile: string, chunks: seq<(nat, nat)>): (names: seq<string>)
    ensures |names| == |chunks|
    ensures forall i :: 0 <= i < |chunks| ==>
              StartsWith(names[i], "TEMPHPYCC::" + logicalFile + "from")
              && EndsWith(names[i], "to" + NatToString(chunks[i].0 + chunks[i].1))
              && names[i][|"TEMPHPYCC::" + logicalFile + "from"|..]
                 == NatToString(chunks[i].0) + "to" + NatToString(chunks[i].0 + chunks[i].1)
  {
    seq(|chunks|, i requires 0 <= i < |chunks| => TempName(logicalFile, chunks[i].0, chunks[i].0 + chunks[i].1))
  }

  /** One submission per chunk, each writing the chunk's rows to the chunk's temporary file. */
  function SubmitSteps(t: Table, recordSet: string, logicalFile: string, overwrite: bool, chunks: seq<(nat, nat)>): (steps: seq<Step>)
    ensures |steps| == |chunks|
    ensures forall i :: 0 <= i < |chunks| ==>
              steps[i].Submit?
              && steps[i].file == TempName(logicalFile, chunks[i].0, chunks[i].0 + chunks[i].1)
              && steps[i].script == SubmitScript(StringifiedRows(t, chunks[i].0, chunks[i].1), recordSet, steps[i].file, overwrite)
  {
    var names := TempNames(logicalFile, chunks);
    seq(|chunks|, i requires 0 <= i < |chunks| =>
      Submit(names[i], SubmitScript(StringifiedRows(t, chunks[i].0, chunks[i].1), recordSet, names[i], overwrite)))
  }

  /** The deletions at the end of `spray_file`, one per temporary file, in order. */
  function DeleteSteps(names: seq<string>): (steps: seq<Step>)
    ensures |steps| == |names|
  {
    seq(|names|, i requires 0 <= i < |names| => DeleteFile(names[i]))
  }

  /** What `spray_file` asks for once it has a frame: submissions, one concatenation, deletions. */
  function SprayPlan(t: Table, logicalFile: string, overwrite: bool, chunks: seq<(nat, nat)>): (steps: seq<Step>)
    requires |t.dtypes| == |t.columns|
    ensures |steps| == 2 * |chunks| + 1
  {
    var recordSet := MakeRecordSet(t);
    var names := TempNames(logicalFile, chunks);
    SubmitSteps(t, recordSet, logicalFile, overwrite, chunks)
    + [Concatenate(names, logicalFile, ConcatScript(names, logicalFile, recordSet, overwrite))]
    + DeleteSteps(names)
  }

  /**
   * `spray_file`: a source that is neither a DataFrame nor a path raises before
   * anything is sent.  The chunk literals are produced in the calling thread
   * while the futures are built, so with at least one chunk a repeated label
   * raises there, before any submission; otherwise the plan runs on the frame.
   */
  function SprayFile(source: Source, logicalFile: string, overwrite: bool, chunks: seq<(nat, nat)>): (r: Result<seq<Step>, SprayError>)
    requires !source.OtherSource? ==> WellFormed(source.t)
    ensures r == Failure(UnsupportedSource) <==> source.OtherSource?
    ensures r == Failure(RepeatedLabel) <==> !source.OtherSource? && chunks != [] && RepeatedLabels(source.t.columns)
    ensures r.Success? ==> r.value == SprayPlan(source.t, logicalFile, overwrite, chunks)
                           && |r.value| == 2 * |chunks| + 1
  {
    if source.OtherSource? then Failure(UnsupportedSource)
    else if chunks != [] && RepeatedLabels(source.t.columns) then Failure(RepeatedLabel)
    else Success(SprayPlan(source.t, logicalFile, overwrite, chunks))
  }

  /** Indexing into `a + [x] + b`. */
  lemma ThreeParts<T>(a: seq<T>, x: T, b: seq<T>)
    ensures forall i :: 0 <= i < |a| ==> (a + [x] + b)[i] == a[i]
    ensures (a + [x] + b)[|a|] == x
    ensures (a + [x] + b)[|a| + 1..] == b
  {
  }

  /** The first steps of `spray_file`: chunk `i` is submitted, with its rows, to its own temporary file. */
  lemma SprayPlanSubmits(t: Table, logicalFile: string, overwrite: bool, chunks: seq<(nat, nat)>)
    requires |t.dtypes| == |t.columns|
    ensures var steps := SprayPlan(t, logicalFile, overwrite, chunks);
            forall i :: 0 <= i < |chunks| ==>
              && steps[i].Submit?
              && steps[i].file == TempName(logicalFile, chunks[i].0, chunks[i].0 + chunks[i].1)
              && steps[i].script == SubmitScript(StringifiedRows(t, chunks[i].0, chunks[i].1), MakeRecordSet(t),
                                                 steps[i].file, overwrite)
  {
    var recordSet := MakeRecordSet(t);
    var names := TempNames(logicalFile, chunks);
    var concat := Concatenate(names, logicalFile, ConcatScript(names, logicalFile, recordSet, overwrite));
    ThreeParts(SubmitSteps(t, recordSet, logicalFile, overwrite, chunks), concat, DeleteSteps(names));
  }

  /**
   * After the submissions, `spray_file` concatenates into the target exactly
   * the files the submissions wrote, in the order they were written.
   */
  lemma SprayPlanConcat(t: Table, logicalFile: string, overwrite: bool, chunks: seq<(nat, nat)>)
    requires |t.dtypes| == |t.columns|
    ensures var steps, k := SprayPlan(t, logicalFile, overwrite, chunks), |chunks|;
            && steps[k].Concatenate?
            && steps[k].target == logicalFile
            && |steps[k].sources| == k
            && (forall i :: 0 <= i < k ==> steps[i].Submit? && steps[k].sources[i] == steps[i].file)
            && steps[k].script == ConcatScript(steps[k].sources, logicalFile, MakeRecordSet(t), overwrite)
  {
    var recordSet := MakeRecordSet(t);
    var names := TempNames(logicalFile, chunks);
    var concat := Concatenate(names, logicalFile, ConcatScript(names, logicalFile, recordSet, overwrite));
    ThreeParts(SubmitSteps(t, recordSet, logicalFile, overwrite, chunks), concat, DeleteSteps(names));
    SprayPlanSubmits(t, logicalFile, overwrite, chunks);
  }

  /** Last, `spray_file` deletes every temporary file it submitted to, in the same order. */
  lemma SprayPlanDeletes(t: Table, logicalFile: string, overwrite: bool, chunks: seq<(nat, nat)>)
    requires |t.dtypes| == |t.columns|
    ensures var steps, k := SprayPlan(t, logicalFile, overwrite, chunks), |chunks|;
            forall i :: 0 <= i < k ==> steps[i].Submit? && steps[k + 1 + i] == DeleteFile(steps[i].file)
  {
    var recordSet := MakeRecordSet(t);
    var names := TempNames(logicalFile, chunks);
    var concat := Concatenate(names, logicalFile, ConcatScript(names, logicalFile, recordSet, overwrite));
    var deletes := DeleteSteps(names);
    ThreeParts(SubmitSteps(t, recordSet, logicalFile, overwrite, chunks), concat, deletes);
    SprayPlanSubmits(t, logicalFile, overwrite, chunks);
    var steps := SprayPlan(t, logicalFile, overwrite, chunks);
    forall i | 0 <= i < |chunks| ensures steps[|chunks| + 1 + i] == deletes[i] {
      assert steps[|chunks| + 1 + i] == steps[|chunks| + 1..][i];
    }
  }

  lemma {:induction false} ChunkPlanStarts(chunks: seq<(nat, nat)>, lo: nat, n: nat)
    requires ChunkPlan(chunks, lo, n)
    ensures lo <= n && (chunks != [] ==> lo < n)
    ensures forall i :: 0 <= i < |chunks| ==> lo <= chunks[i].0 && chunks[i].0 + chunks[i].1 <= n
    ensures forall i, j :: 0 <= i < j < |chunks| ==> chunks[i].0 < chunks[j].0
  {
    if chunks != [] {
      ChunkPlanStarts(chunks[1..], lo + chunks[0].1, n);
      assert forall i :: 1 <= i < |chunks| ==> chunks[i] == chunks[1..][i - 1];
    }
  }

  /** For a chunk plan of the assumed shape the temporary names are pairwise distinct. */
  lemma TempNamesDistinct(logicalFile: string, chunks: seq<(nat, nat)>, n: nat)
    requires ChunkPlan(chunks, 0, n)
    ensures var names := TempNames(logicalFile, chunks);
            forall i, j :: 0 <= i < j < |names| ==> names[i] != names[j]
  {
    ChunkPlanStarts(chunks, 0, n);
    var names := TempNames(logicalFile, chunks);
    forall i, j | 0 <= i < j < |names| ensures names[i] != names[j] {
      if names[i] == names[j] {
        TempNameInjective(logicalFile, chunks[i].0, chunks[i].0 + chunks[i].1, chunks[j].0, chunks[j].0 + chunks[j].1);
      }
    }
  }

  /** The rows each chunk's literal is built from, as written: `.loc[start:start+count]`. */
  function ChunkRows<T>(rows: seq<T>, chunks: seq<(nat, nat)>): seq<seq<T>>
  {
    seq(|chunks|, i requires 0 <= i < |chunks| => Loc(rows, chunks[i].0, chunks[i].0 + chunks[i].1))
  }

  /**
   * As written, the inclusive slice puts the first row of every following chunk
   * into the chunk before it as well: the chunks together carry one extra row
   * per chunk boundary.
   */
  lemma {:induction false} ChunkRowsRepeatBoundaries<T>(rows: seq<T>, chunks: seq<(nat, nat)>, lo: nat)
    requires ChunkPlan(chunks, lo, |rows|) && chunks != []
    ensures |Flatten(ChunkRows(rows, chunks))| == |rows| - lo + |chunks| - 1
  {
    var m := chunks[0].1;
    var rest := chunks[1..];
    assert ChunkRows(rows, chunks)[1..] == ChunkRows(rows, rest);
    if rest == [] {
      assert Flatten(ChunkRows(rows, rest)) == [];
    } else {
      ChunkPlanStarts(rest, lo + m, |rows|);
      ChunkRowsRepeatBoundaries(rows, rest, lo + m);
    }
  }

  /** With two chunks or more, the rows sprayed are not the rows of the table. */
  lemma SprayedRowsDiffer<T>(rows: seq<T>, chunks: seq<(nat, nat)>)
    requires ChunkPlan(chunks, 0, |rows|) && |chunks| >= 2
    ensures Flatten(ChunkRows(rows, chunks)) != rows
  {
    ChunkRowsRepeatBoundaries(rows, chunks, 0);
  }

  /** Corrected slicing: `.iloc[start:start+count]`, the end excluded. */
  function CorrectedChunkRows<T>(rows: seq<T>, chunks: seq<(nat, nat)>): seq<seq<T>>
  {
    seq(|chunks|, i requires 0 <= i < |chunks| => ILoc(rows, chunks[i].0, chunks[i].0 + chunks[i].1))
  }

  /** With the end excluded, the chunks carry every row exactly once, in order. */
  lemma {:induction false} CorrectedChunksCoverRows<T>(rows: seq<T>, chunks: seq<(nat, nat)>, lo: nat)
    requires ChunkPlan(chunks, lo, |rows|) && lo <= |rows|
    ensures Flatten(CorrectedChunkRows(rows, chunks)) == rows[lo..]
  {
    if chunks != [] {
      var m := chunks[0].1;
      var rest := chunks[1..];
      assert CorrectedChunkRows(rows, chunks)[1..] == CorrectedChunkRows(rows, rest);
      ChunkPlanStarts(chunks, lo, |rows|);
      CorrectedChunksCoverRows(rows, rest, lo + m);
      assert rows[lo..] == rows[lo..lo + m] + rows[lo + m..];
    }
  }
}
