/**
 * hpycc/filerunning/sendfiles.py: the record set `make_recordset` derives from
 * a DataFrame's column labels (rewriting every cell as a quoted ECL literal on
 * the way), the row literal of `make_rows`, the row ranges of the chunked
 * upload, the scripts of `send_data` and `concat_files`, and the submissions
 * `send_file_internal` makes.
 */
module SendFiles {
  import opened Wrappers
  import opened Strings
  import opened Table
  import opened Ecl
  import Spray

  /** `_get_type`: every branch on the dtype is commented out, so every column is a STRING. */
  const EclType: string := "STRING"

  // ---------------------------------------------------------------------------
  // Column names
  // ---------------------------------------------------------------------------

  /** `re.sub('[^A-Za-z0-9]', '', name)`: only ASCII letters and digits survive, in order. */
  function Sanitize(name: string): (safe: string)
    ensures AllAlnum(safe)
    ensures |safe| <= |name|
  {
    if name == [] then []
    else (if IsAlnum(name[0]) then [name[0]] else []) + Sanitize(name[1..])
  }

  /** A name that is already letters and digits passes through unchanged. */
  lemma {:induction false} SanitizeKeepsSafeNames(name: string)
    requires AllAlnum(name)
    ensures Sanitize(name) == name
  {
    if name != [] {
      assert AllAlnum(name[1..]) by {
        forall i | 0 <= i < |name[1..]| ensures IsAlnum(name[1..][i]) {
          assert name[1..][i] == name[i + 1];
        }
      }
      SanitizeKeepsSafeNames(name[1..]);
      assert [name[0]] + name[1..] == name;
    }
  }

  /** Sanitising twice is sanitising once. */
  lemma SanitizeIdempotent(name: string)
    ensures Sanitize(Sanitize(name)) == Sanitize(name)
  {
    SanitizeKeepsSafeNames(Sanitize(name));
  }

  /** `re.sub` works character by character: the label's pieces are sanitised independently. */
  lemma {:induction false} SanitizeAppend(a: string, b: string)
    ensures Sanitize(a + b) == Sanitize(a) + Sanitize(b)
  {
    if a == [] {
      assert a + b == b;
    } else {
      var head := if IsAlnum(a[0]) then [a[0]] else [];
      assert Sanitize(a + b) == head + Sanitize(a[1..] + b) by {
        assert (a + b)[0] == a[0];
        assert (a + b)[1..] == a[1..] + b;
      }
      SanitizeAppend(a[1..], b);
      assert Sanitize(a) == head + Sanitize(a[1..]);
    }
  }

  /** One character survives exactly when it is an ASCII letter or digit. */
  lemma SanitizeChar(c: char)
    ensures Sanitize([c]) == (if IsAlnum(c) then [c] else [])
  {
    assert [c][1..] == [];
  }

  /** Letters and digits around two other characters: only the letters and digits are left. */
  lemma SanitizeDropsSeparators(p: string, c: char, q: string, d: char)
    requires AllAlnum(p) && AllAlnum(q) && !IsAlnum(c) && !IsAlnum(d)
    ensures Sanitize(p + [c] + q + [d]) == p + q
  {
    var pc := p + [c];
    var pcq := pc + q;
    assert Sanitize(pc) == p by {
      SanitizeAppend(p, [c]);
      SanitizeChar(c);
      SanitizeKeepsSafeNames(p);
    }
    assert Sanitize(pcq) == p + q by {
      SanitizeAppend(pc, q);
      SanitizeKeepsSafeNames(q);
    }
    assert Sanitize(pcq + [d]) == p + q by {
      SanitizeAppend(pcq, [d]);
      SanitizeChar(d);
    }
  }

  /**
   * The name a column gets: its sanitised label, or `unnamed<N>` when nothing
   * survives, with `num` in front when it would start with a digit.
   */
  function SafeName(name: string, unnamed: nat): (safe: string)
    ensures IsIdentifier(safe)
    ensures Sanitize(name) != "" && !IsDigit(Sanitize(name)[0]) ==> safe == Sanitize(name)
    ensures Sanitize(name) != "" && IsDigit(Sanitize(name)[0]) ==> safe == "num" + Sanitize(name)
    ensures Sanitize(name) == "" ==> safe == "unnamed" + NatToString(unnamed)
  {
    var stripped := Sanitize(name);
    var named := if stripped == "" then "unnamed" + NatToString(unnamed) else stripped;
    if IsDigit(named[0]) then "num" + named else named
  }

  /**
   * Separators in a label do not change its safe name, and a digit in front earns
   * it `num`: `2 Cost!` (p = `2`, q = `Cost`) and `2Cost` both give `num2Cost`.
   */
  lemma SafeNameIgnoresSeparators(p: string, c: char, q: string, d: char, unnamed: nat)
    requires AllAlnum(p) && AllAlnum(q) && !IsAlnum(c) && !IsAlnum(d)
    ensures SafeName(p + [c] + q + [d], unnamed) == SafeName(p + q, unnamed)
    ensures p + q != "" && IsDigit((p + q)[0]) ==> SafeName(p + q, unnamed) == "num" + p + q
  {
    assert Sanitize(p + [c] + q + [d]) == p + q by {
      SanitizeDropsSeparators(p, c, q, d);
    }
    assert Sanitize(p + q) == p + q by {
      assert AllAlnum(p + q) by {
        forall i | 0 <= i < |p + q| ensures IsAlnum((p + q)[i]) {
          if i >= |p| {
            assert (p + q)[i] == q[i - |p|];
          }
        }
      }
      SanitizeKeepsSafeNames(p + q);
    }
  }

  /** How many of the labels sanitise to nothing: the `unnamed_iterator` after them. */
  function UnnamedCount(names: seq<string>): (count: nat)
    ensures count <= |names|
  {
    if names == [] then 0
    else UnnamedCount(names[..|names| - 1]) + (if Sanitize(names[|names| - 1]) == "" then 1 else 0)
  }

  /** The `column_append` suffix: nothing first, then 1, 2, 3, … */
  function Suffix(k: nat): string
  {
    if k == 0 then "" else NatToString(k)
  }

  lemma SuffixInjective(a: nat, b: nat)
    requires Suffix(a) == Suffix(b)
    ensures a == b
  {
    if a != 0 && b != 0 {
      NatToStringInjective(a, b);
    }
  }

  ghost function Elems(xs: seq<string>): set<string>
  {
    set x | x in xs
  }

  /** The first `k` candidates `entry + Suffix(j)`. */
  ghost function Candidates(entry: string, k: nat): set<string>
  {
    if k == 0 then {} else Candidates(entry, k - 1) + {entry + Suffix(k - 1)}
  }

  lemma {:induction false} CandidatesSize(entry: string, k: nat)
    ensures |Candidates(entry, k)| == k
    ensures forall x :: x in Candidates(entry, k) ==> exists j :: 0 <= j < k && x == entry + Suffix(j)
  {
    if k > 0 {
      CandidatesSize(entry, k - 1);
      if entry + Suffix(k - 1) in Candidates(entry, k - 1) {
        var j :| 0 <= j < k - 1 && entry + Suffix(k - 1) == entry + Suffix(j);
        assert Suffix(k - 1) == (entry + Suffix(k - 1))[|entry|..];
        assert Suffix(j) == (entry + Suffix(j))[|entry|..];
        SuffixInjective(k - 1, j);
      }
    }
  }

  lemma SubsetSize<T>(a: set<T>, b: set<T>)
    requires a <= b
    ensures |a| <= |b|
  {
    assert b == a + (b - a);
    assert a * (b - a) == {};
  }

  /** Distinct candidates that are all taken cannot outnumber what is taken. */
  lemma CandidatesBound(taken: seq<string>, entry: string, k: nat)
    requires forall j :: 0 <= j < k ==> entry + Suffix(j) in taken
    ensures k <= |Elems(taken)|
  {
    CandidatesSize(entry, k);
    var c := Candidates(entry, k);
    forall x | x in c ensures x in Elems(taken) {
      var j :| 0 <= j < k && x == entry + Suffix(j);
    }
    SubsetSize(c, Elems(taken));
  }

  /** The smallest suffix index from `k` on whose candidate is not taken yet. */
  function FirstFree(taken: seq<string>, entry: string, k: nat): (free: nat)
    requires forall j :: 0 <= j < k ==> entry + Suffix(j) in taken
    ensures k <= free
    ensures entry + Suffix(free) !in taken
    ensures forall j :: 0 <= j < free ==> entry + Suffix(j) in taken
    decreases |Elems(taken)| - k
  {
    if entry + Suffix(k) in taken then
      assert forall j :: 0 <= j < k + 1 ==> entry + Suffix(j) in taken;
      CandidatesBound(taken, entry, k + 1);
      FirstFree(taken, entry, k + 1)
    else
      k
  }

  /** The record-set entries of `make_recordset`, one per column label, in order. */
  function Schema(names: seq<string>): (entries: seq<string>)
    ensures |entries| == |names|
  {
    if names == [] then []
    else
      var prev := Schema(names[..|names| - 1]);
      var entry := EclType + " " + SafeName(names[|names| - 1], UnnamedCount(names[..|names| - 1]));
      prev + [entry + Suffix(FirstFree(prev, entry, 0))]
  }

  lemma {:induction false} SchemaPrefix(names: seq<string>, m: nat)
    requires m <= |names|
    ensures Schema(names[..m]) == Schema(names)[..m]
  {
    if m < |names| {
      var init := names[..|names| - 1];
      SchemaPrefix(init, m);
      assert init[..m] == names[..m];
    } else {
      assert names[..m] == names;
    }
  }

  /** No two columns end up with the same entry. */
  lemma {:induction false} SchemaDistinct(names: seq<string>)
    ensures forall i, j :: 0 <= i < j < |names| ==> Schema(names)[i] != Schema(names)[j]
  {
    if names != [] {
      var init := names[..|names| - 1];
      SchemaDistinct(init);
      var s := Schema(names);
      forall i, j | 0 <= i < j < |names| ensures s[i] != s[j] {
        if j < |names| - 1 {
          assert s[i] == Schema(init)[i] && s[j] == Schema(init)[j];
        } else {
          assert s[i] == Schema(init)[i];
          assert s[i] in Schema(init);
        }
      }
    }
  }

  /** Appending a label appends the entry made from it against the entries before it. */
  lemma SchemaSnoc(names: seq<string>, name: string)
    ensures var entry := EclType + " " + SafeName(name, UnnamedCount(names));
            Schema(names + [name]) == Schema(names) + [entry + Suffix(FirstFree(Schema(names), entry, 0))]
  {
    assert (names + [name])[..|names|] == names;
  }

  lemma UnnamedCountSnoc(names: seq<string>, name: string)
    ensures UnnamedCount(names + [name]) == UnnamedCount(names) + (if Sanitize(name) == "" then 1 else 0)
  {
    assert (names + [name])[..|names|] == names;
  }

  lemma IdentifierWithDigits(safe: string, digits: string)
    requires IsIdentifier(safe) && AllDigits(digits)
    ensures IsIdentifier(safe + digits)
  {
    var name := safe + digits;
    forall c | 0 <= c < |name| ensures IsAlnum(name[c]) {
      if c < |safe| { assert name[c] == safe[c]; } else { assert name[c] == digits[c - |safe|]; }
    }
  }

  /** An entry built from a safe name and a suffix is `STRING ` and then a field name. */
  lemma EntryShape(safe: string, k: nat)
    requires IsIdentifier(safe)
    ensures StartsWith(EclType + " " + safe + Suffix(k), EclType + " ")
    ensures IsIdentifier((EclType + " " + safe + Suffix(k))[|EclType + " "|..])
  {
    var name := safe + Suffix(k);
    assert EclType + " " + safe + Suffix(k) == (EclType + " ") + name;
    IdentifierWithDigits(safe, Suffix(k));
  }

  /** The last entry, as `SchemaEntry` states it for every entry. */
  lemma SchemaLast(names: seq<string>)
    requires names != []
    ensures var init := names[..|names| - 1];
            var base := EclType + " " + SafeName(names[|names| - 1], UnnamedCount(init));
            && StartsWith(Schema(names)[|names| - 1], EclType + " ")
            && IsIdentifier(Schema(names)[|names| - 1][|EclType + " "|..])
            && Schema(names)[|names| - 1] == base + Suffix(FirstFree(Schema(init), base, 0))
  {
    var init := names[..|names| - 1];
    var safe := SafeName(names[|names| - 1], UnnamedCount(init));
    var k := FirstFree(Schema(init), EclType + " " + safe, 0);
    assert Schema(names)[|names| - 1] == EclType + " " + safe + Suffix(k);
    EntryShape(safe, k);
  }

  /**
   * Entry `i` is `STRING <safe name>` followed by the first suffix that the
   * entries before it have not used; the name part is a valid ECL field name.
   */
  lemma {:induction false} SchemaEntry(names: seq<string>, i: nat)
    requires i < |names|
    ensures StartsWith(Schema(names)[i], EclType + " ")
    ensures IsIdentifier(Schema(names)[i][|EclType + " "|..])
    ensures var base := EclType + " " + SafeName(names[i], UnnamedCount(names[..i]));
            Schema(names)[i] == base + Suffix(FirstFree(Schema(names)[..i], base, 0))
  {
    var init, pre := names[..i], names[..i + 1];
    var safe := SafeName(names[i], UnnamedCount(init));
    var base := EclType + " " + safe;
    var k := FirstFree(Schema(init), base, 0);
    assert Schema(pre)[i] == base + Suffix(k) by {
      assert pre[..i] == init;
      SchemaLast(pre);
    }
    assert Schema(names)[i] == base + Suffix(k) by {
      SchemaPrefix(names, i + 1);
    }
    assert FirstFree(Schema(names)[..i], base, 0) == k by {
      SchemaPrefix(names, i);
    }
    EntryShape(safe, k);
  }

  /** A lone column keeps its safe name with no suffix. */
  lemma SchemaSingle(name: string)
    ensures Schema([name]) == [EclType + " " + SafeName(name, 0)]
  {
    SchemaSnoc([], name);
    assert [] + [name] == [name];
    var entry := EclType + " " + SafeName(name, 0);
    assert FirstFree([], entry, 0) == 0;
    assert entry + Suffix(0) == entry;
  }

  /** The second of two equal entries takes suffix 1. */
  lemma SecondSuffix(entry: string)
    ensures FirstFree([entry], entry, 0) == 1
  {
    assert entry + Suffix(0) == entry;
    assert NatToString(1) == "1";
    assert entry + Suffix(1) !in [entry] by {
      assert |entry + Suffix(1)| == |entry| + 1;
    }
    assert FirstFree([entry], entry, 1) == 1;
  }

  /** Two columns: the first keeps its entry, the second takes the least suffix the first leaves free. */
  lemma SchemaPair(a: string, b: string)
    ensures var first := EclType + " " + SafeName(a, 0);
            var second := EclType + " " + SafeName(b, UnnamedCount([a]));
            Schema([a, b]) == [first, second + Suffix(FirstFree([first], second, 0))]
  {
    SchemaSnoc([a], b);
    assert [a] + [b] == [a, b];
    SchemaSingle(a);
  }

  /**
   * Two labels that sanitise to the same name (say `2 Cost!` and `2Cost`, both
   * `num2Cost`) get that name and the name followed by `1`.
   */
  lemma CollidingNamesGetSuffix(a: string, b: string)
    requires Sanitize(a) != "" && SafeName(a, 0) == SafeName(b, 0)
    ensures Schema([a, b]) == [EclType + " " + SafeName(a, 0), EclType + " " + SafeName(a, 0) + "1"]
  {
    var entry := EclType + " " + SafeName(a, 0);
    assert UnnamedCount([a]) == 0 by {
      assert [a][..0] == [];
    }
    SchemaPair(a, b);
    SecondSuffix(entry);
    assert Suffix(1) == "1" by {
      assert NatToString(1) == "1";
    }
  }

  // ---------------------------------------------------------------------------
  // Cells and the DataFrame
  // ---------------------------------------------------------------------------

  /** `nan`, `na` or `null` in any letter case: the text pandas and users write for a null. */
  predicate IsNullMarker(s: string)
  {
    Lower(s) == "nan" || Lower(s) == "na" || Lower(s) == "null"
  }

  /**
   * A STRING column's cell after `make_recordset`: a quoted literal that reads
   * back to empty for a missing cell or a null marker, and to the text otherwise.
   */
  function NormalizeCell(c: Cell): (normal: Cell)
    ensures normal.Text?
    ensures var lit := normal.s;
            |lit| >= 2 && lit[0] == '\'' && lit[|lit| - 1] == '\''
            && InnerQuotesEscaped(lit)
            && UnescapeQuotes(lit[1..|lit| - 1]) == (if c.Missing? || IsNullMarker(c.s) then "" else c.s)
  {
    var text := Render(c);
    assert c.Missing? ==> IsNullMarker(text) by {
      assert Lower("nan") == "nan";
    }
    Text(QuoteLiteral(if IsNullMarker(text) then "" else text))
  }

  /**
   * A normalised cell without backslashes is read back by ECL as its text, or
   * empty for a missing cell or a null marker.
   */
  lemma NormalizeCellReadsBack(c: Cell, rest: string)
    requires c.Text? ==> forall i :: 0 <= i < |c.s| ==> c.s[i] != '\\'
    ensures ReadLiteral(NormalizeCell(c).s + rest) == Some((if c.Missing? || IsNullMarker(c.s) then "" else c.s, rest))
  {
    var text := Render(c);
    assert c.Missing? ==> IsNullMarker(text) by {
      assert Lower("nan") == "nan";
    }
    ReadQuoteLiteral(if IsNullMarker(text) then "" else text, rest);
  }

  function NormalizeRows(rows: seq<seq<Cell>>): seq<seq<Cell>>
  {
    seq(|rows|, r requires 0 <= r < |rows| => seq(|rows[r]|, c requires 0 <= c < |rows[r]| => NormalizeCell(rows[r][c])))
  }

  /** The DataFrame read from the CSV file: its column labels and its rows of cells. */
  class Frame {
    var columns: seq<string>
    var rows: seq<seq<Cell>>

    ghost predicate Valid()
      reads this
    {
      forall r :: 0 <= r < |rows| ==> |rows[r]| == |columns|
    }

    constructor (columns: seq<string>, rows: seq<seq<Cell>>)
      requires forall r :: 0 <= r < |rows| ==> |rows[r]| == |columns|
      ensures Valid()
      ensures this.columns == columns && this.rows == rows
    {
      this.columns := columns;
      this.rows := rows;
    }
  }

  /** The `column_append` loop: counts up from no suffix until the entry is not taken. */
  method UniqueSuffix(entries: seq<string>, entry: string) returns (k: nat)
    ensures entry + Suffix(k) !in entries
    ensures forall j :: 0 <= j < k ==> entry + Suffix(j) in entries
    ensures k == FirstFree(entries, entry, 0)
  {
    k := 0;
    while entry + Suffix(k) in entries
      invariant forall j :: 0 <= j < k ==> entry + Suffix(j) in entries
      invariant FirstFree(entries, entry, k) == FirstFree(entries, entry, 0)
      decreases |Elems(entries)| - k
    {
      CandidatesBound(entries, entry, k + 1);
      k := k + 1;
    }
  }

  /**
   * One turn of `make_recordset`'s loop on the names: the next column's entry,
   * given the entries and the unnamed count of the columns before it.
   */
  method ColumnEntry(entries: seq<string>, name: string, unnamed: nat, ghost prior: seq<string>)
    returns (entry: string, nextUnnamed: nat)
    requires entries == Schema(prior) && unnamed == UnnamedCount(prior)
    ensures entries + [entry] == Schema(prior + [name])
    ensures nextUnnamed == UnnamedCount(prior + [name])
  {
    UnnamedCountSnoc(prior, name);
    SchemaSnoc(prior, name);
    nextUnnamed := unnamed;
    var safe := Sanitize(name);
    if safe == "" {
      safe := "unnamed" + NatToString(nextUnnamed);
      nextUnnamed := nextUnnamed + 1;
    }
    if IsDigit(safe[0]) {
      safe := "num" + safe;
    }
    var newEntry := EclType + " " + safe;
    var k := UniqueSuffix(entries, newEntry);
    entry := newEntry + Suffix(k);
  }

  /** `df[nam] = …` for a STRING column: column `col` of every row rewritten by `NormalizeCell`. */
  function NormalizeColumn(rows: seq<seq<Cell>>, col: nat): (out: seq<seq<Cell>>)
    ensures |out| == |rows|
    ensures forall r :: 0 <= r < |rows| ==> |out[r]| == |rows[r]|
    ensures forall r, c :: 0 <= r < |rows| && 0 <= c < |rows[r]| && c != col ==> out[r][c] == rows[r][c]
    ensures forall r :: 0 <= r < |rows| && col < |rows[r]| ==> out[r][col] == NormalizeCell(rows[r][col])
  {
    seq(|rows|, r requires 0 <= r < |rows| =>
          if col < |rows[r]| then rows[r][col := NormalizeCell(rows[r][col])] else rows[r])
  }

  /** The first `done` columns of `original` normalised, the others untouched, every row `width` wide. */
  ghost predicate NormalizedUpTo(rows: seq<seq<Cell>>, original: seq<seq<Cell>>, width: nat, done: nat)
  {
    && |rows| == |original|
    && (forall r :: 0 <= r < |rows| ==> |rows[r]| == width && |original[r]| == width)
    && (forall r, c :: 0 <= r < |rows| && 0 <= c < done && c < width ==> rows[r][c] == NormalizeCell(original[r][c]))
    && (forall r, c :: 0 <= r < |rows| && done <= c < width ==> rows[r][c] == original[r][c])
  }

  lemma NormalizeColumnStep(rows: seq<seq<Cell>>, original: seq<seq<Cell>>, width: nat, done: nat)
    requires NormalizedUpTo(rows, original, width, done) && done < width
    ensures NormalizedUpTo(NormalizeColumn(rows, done), original, width, done + 1)
  {
  }

  /** `df[nam] = …`: rewrites column `col` of the frame in place. */
  method NormalizeColumnInPlace(df: Frame, col: nat, ghost original: seq<seq<Cell>>)
    requires NormalizedUpTo(df.rows, original, |df.columns|, col) && col < |df.columns|
    modifies df
    ensures df.columns == old(df.columns)
    ensures df.rows == NormalizeColumn(old(df.rows), col)
    ensures NormalizedUpTo(df.rows, original, |df.columns|, col + 1)
  {
    NormalizeColumnStep(df.rows, original, |df.columns|, col);
    df.rows := NormalizeColumn(df.rows, col);
  }

  lemma NormalizedAll(rows: seq<seq<Cell>>, original: seq<seq<Cell>>, width: nat)
    requires NormalizedUpTo(rows, original, width, width)
    ensures rows == NormalizeRows(original)
  {
    forall r | 0 <= r < |rows| ensures rows[r] == NormalizeRows(original)[r] {
      assert |rows[r]| == |NormalizeRows(original)[r]|;
    }
  }

  /**
   * `make_recordset`: builds the record set column by column and rewrites each
   * column's cells as quoted literals in the frame itself.
   */
  method MakeRecordSet(df: Frame) returns (recordSet: string)
    requires df.Valid()
    requires forall i, j :: 0 <= i < j < |df.columns| ==> df.columns[i] != df.columns[j]
    modifies df
    ensures df.Valid()
    ensures df.columns == old(df.columns)
    ensures df.rows == NormalizeRows(old(df.rows))
    ensures recordSet == Join(";", Schema(df.columns))
  {
    var names := df.columns;
    ghost var original := df.rows;
    var entries: seq<string> := [];
    var unnamed: nat := 0;
    var i := 0;
    while i < |names|
      invariant 0 <= i <= |names|
      invariant df.columns == names
      invariant entries == Schema(names[..i])
      invariant unnamed == UnnamedCount(names[..i])
      invariant NormalizedUpTo(df.rows, original, |names|, i)
    {
      assert names[..i + 1] == names[..i] + [names[i]];
      var entry;
      entry, unnamed := ColumnEntry(entries, names[i], unnamed, names[..i]);
      entries := entries + [entry];
      NormalizeColumnInPlace(df, i, original);
      i := i + 1;
    }
    assert names[..i] == names;
    NormalizedAll(df.rows, original, |names|);
    recordSet := Join(";", entries);
  }

  // ---------------------------------------------------------------------------
  // Rows and chunks
  // ---------------------------------------------------------------------------

  /**
   * `make_rows(df, start, end)`: rows `start` to `end`, both included, as
   * `{c,…},{c,…}`; empty exactly when the slice holds no row.
   */
  function MakeRows(rows: seq<seq<Cell>>, start: nat, end: nat): string
  {
    RowsLiteral(RenderRows(Loc(rows, start, end)))
  }

  /** The rows literal is empty exactly when the range selects no row, and is braced otherwise. */
  lemma MakeRowsShape(rows: seq<seq<Cell>>, start: nat, end: nat)
    ensures var literal := MakeRows(rows, start, end);
            (literal == "" <==> (end < start || |rows| <= start))
            && (literal != "" ==> literal[0] == '{' && literal[|literal| - 1] == '}')
  {
    RowsLiteralShape(RenderRows(Loc(rows, start, end)));
  }

  /** Python's `break_positions[1:-1]`: empty for fewer than three positions. */
  function InteriorBreaks(breaks: seq<nat>): (interior: seq<nat>)
    ensures |breaks| < 2 ==> interior == []
    ensures |breaks| >= 2 ==> |interior| == |breaks| - 2
    ensures forall i :: 0 <= i < |interior| ==> interior[i] == breaks[i + 1]
  {
    if |breaks| >= 2 then breaks[1..|breaks| - 1] else []
  }

  /**
   * `zip(start_rows, end_rows)`: the first range starts at row 0, each later one
   * right after an interior break, and the last one ends at `len(df)`.
   */
  function ChunkBounds(breaks: seq<nat>, n: nat): (bounds: seq<(nat, nat)>)
    ensures |bounds| == |InteriorBreaks(breaks)| + 1
    ensures bounds[0].0 == 0
    ensures bounds[|bounds| - 1].1 == n
    ensures forall i :: 0 < i < |bounds| ==> bounds[i].0 == InteriorBreaks(breaks)[i - 1] + 1
    ensures forall i :: 0 <= i < |bounds| - 1 ==> bounds[i].1 == InteriorBreaks(breaks)[i]
  {
    var interior := InteriorBreaks(breaks);
    seq(|interior| + 1, i requires 0 <= i <= |interior| =>
          (if i == 0 then 0 else interior[i - 1] + 1, if i == |interior| then n else interior[i]))
  }

  predicate Sorted(xs: seq<nat>)
  {
    forall i, j :: 0 <= i < j < |xs| ==> xs[i] <= xs[j]
  }

  /** With sorted break positions inside the frame, the chunks read every row exactly once, in order. */
  lemma ChunksCoverRows(rows: seq<seq<Cell>>, breaks: seq<nat>)
    requires Sorted(InteriorBreaks(breaks))
    requires forall i :: 0 <= i < |InteriorBreaks(breaks)| ==> InteriorBreaks(breaks)[i] <= |rows|
    ensures Flatten(LocAll(rows, ChunkBounds(breaks, |rows|))) == rows
  {
    var bounds := ChunkBounds(breaks, |rows|);
    ChunkBoundsContiguous(breaks, |rows|);
    LocAllFlatten(rows, bounds);
    assert Loc(rows, 0, |rows|) == rows;
  }

  /** `make_rows` of each range, in order: none is empty when every range holds a row. */
  function ChunkLiterals(rows: seq<seq<Cell>>, bounds: seq<(nat, nat)>): (literals: seq<string>)
    ensures |literals| == |bounds|
  {
    seq(|bounds|, i requires 0 <= i < |bounds| => MakeRows(rows, bounds[i].0, bounds[i].1))
  }

  /** When every range starts inside the frame, no chunk's literal is empty. */
  lemma ChunkLiteralsNonEmpty(rows: seq<seq<Cell>>, bounds: seq<(nat, nat)>)
    requires RowRanges(bounds, |rows|)
    ensures forall i :: 0 <= i < |bounds| ==> ChunkLiterals(rows, bounds)[i] != ""
  {
    forall i | 0 <= i < |bounds| ensures ChunkLiterals(rows, bounds)[i] != "" {
      MakeRowsShape(rows, bounds[i].0, bounds[i].1);
    }
  }

  lemma ChunkLiteralsCons(rows: seq<seq<Cell>>, bounds: seq<(nat, nat)>)
    requires |bounds| > 0
    ensures ChunkLiterals(rows, bounds) == [MakeRows(rows, bounds[0].0, bounds[0].1)] + ChunkLiterals(rows, bounds[1..])
  {
  }

  /** Splitting an inclusive range after row `b` splits its literal at a comma. */
  lemma MakeRowsSplit(rows: seq<seq<Cell>>, a: nat, b: nat, c: nat)
    requires a <= b && b + 1 <= c && b + 1 < |rows|
    ensures MakeRows(rows, a, c) == MakeRows(rows, a, b) + "," + MakeRows(rows, b + 1, c)
  {
    LocSplit(rows, a, b, c);
    RenderRowsAppend(Loc(rows, a, b), Loc(rows, b + 1, c));
    RowsLiteralAppend(RenderRows(Loc(rows, a, b)), RenderRows(Loc(rows, b + 1, c)));
  }

  /** Every range starts inside the frame and is non-empty. */
  predicate RowRanges(bounds: seq<(nat, nat)>, n: nat)
  {
    forall i :: 0 <= i < |bounds| ==> bounds[i].0 <= bounds[i].1 && bounds[i].0 < n
  }

  lemma RowRangesTail(bounds: seq<(nat, nat)>, n: nat)
    requires |bounds| > 0 && RowRanges(bounds, n)
    ensures RowRanges(bounds[1..], n)
  {
    forall i | 0 <= i < |bounds| - 1 ensures bounds[1..][i].0 <= bounds[1..][i].1 && bounds[1..][i].0 < n {
      assert bounds[1..][i] == bounds[i + 1];
    }
  }

  /** The inductive step of `ChunkLiteralsJoin`: one more range in front adds its literal and a comma. */
  lemma ChunkLiteralsStep(rows: seq<seq<Cell>>, bounds: seq<(nat, nat)>)
    requires |bounds| > 1
    requires bounds[0].0 <= bounds[0].1 && bounds[1].0 == bounds[0].1 + 1
    requires bounds[1].0 <= bounds[|bounds| - 1].1 && bounds[1].0 < |rows|
    requires Join(",", ChunkLiterals(rows, bounds[1..])) == MakeRows(rows, bounds[1].0, bounds[|bounds| - 1].1)
    ensures Join(",", ChunkLiterals(rows, bounds)) == MakeRows(rows, bounds[0].0, bounds[|bounds| - 1].1)
  {
    var last := bounds[|bounds| - 1].1;
    ChunkLiteralsCons(rows, bounds);
    MakeRowsSplit(rows, bounds[0].0, bounds[0].1, last);
    JoinFront(",", ChunkLiterals(rows, bounds), MakeRows(rows, bounds[0].0, bounds[0].1),
      ChunkLiterals(rows, bounds[1..]), MakeRows(rows, bounds[1].0, last), MakeRows(rows, bounds[0].0, last));
  }

  /** The chunk literals joined with `,` are the literal of the whole range they span. */
  lemma {:induction false} ChunkLiteralsJoin(rows: seq<seq<Cell>>, bounds: seq<(nat, nat)>)
    requires |bounds| > 0 && Contiguous(bounds) && RowRanges(bounds, |rows|)
    ensures Join(",", ChunkLiterals(rows, bounds)) == MakeRows(rows, bounds[0].0, bounds[|bounds| - 1].1)
  {
    if |bounds| == 1 {
      ChunkLiteralsCons(rows, bounds);
    } else {
      ContiguousTail(bounds);
      RowRangesTail(bounds, |rows|);
      var rest := bounds[1..];
      ChunkLiteralsJoin(rows, rest);
      ContiguousSpan(rest);
      assert rest[0].0 <= rest[0].1 && rest[0].0 < |rows|;
      assert bounds[0].0 <= bounds[0].1 && bounds[1].0 == bounds[0].1 + 1;
      ChunkLiteralsStep(rows, bounds);
    }
  }

  /**
   * Sending the chunks' row literals one after the other sends, joined with `,`,
   * the same text as sending every row at once, when the break positions are
   * strictly increasing and each leaves a row after it.
   */
  lemma ChunkedRowsMatchDirect(rows: seq<seq<Cell>>, breaks: seq<nat>)
    requires |rows| > 0
    requires forall i, j :: 0 <= i < j < |InteriorBreaks(breaks)| ==> InteriorBreaks(breaks)[i] < InteriorBreaks(breaks)[j]
    requires forall i :: 0 <= i < |InteriorBreaks(breaks)| ==> InteriorBreaks(breaks)[i] + 1 < |rows|
    ensures Join(",", ChunkLiterals(rows, ChunkBounds(breaks, |rows|))) == MakeRows(rows, 0, |rows|)
  {
    ChunkBoundsContiguous(breaks, |rows|);
    ChunkBoundsRanges(breaks, |rows|);
    ChunkLiteralsJoin(rows, ChunkBounds(breaks, |rows|));
  }

  /** Sorted breaks inside the frame give contiguous ranges, each starting right after the previous one ends. */
  lemma ChunkBoundsContiguous(breaks: seq<nat>, n: nat)
    requires Sorted(InteriorBreaks(breaks))
    requires forall i :: 0 <= i < |InteriorBreaks(breaks)| ==> InteriorBreaks(breaks)[i] <= n
    ensures Contiguous(ChunkBounds(breaks, n))
  {
    var bounds := ChunkBounds(breaks, n);
    var interior := InteriorBreaks(breaks);
    forall i | 0 <= i < |bounds| ensures bounds[i].0 <= bounds[i].1 + 1 {
      if 0 < i < |bounds| - 1 {
        assert interior[i - 1] <= interior[i];
      } else if 0 < i {
        assert bounds[i - 1].1 == interior[i - 1];
      }
    }
  }

  /** Strictly increasing breaks that each leave a row after them give non-empty ranges inside the frame. */
  lemma ChunkBoundsRanges(breaks: seq<nat>, n: nat)
    requires n > 0
    requires forall i, j :: 0 <= i < j < |InteriorBreaks(breaks)| ==> InteriorBreaks(breaks)[i] < InteriorBreaks(breaks)[j]
    requires forall i :: 0 <= i < |InteriorBreaks(breaks)| ==> InteriorBreaks(breaks)[i] + 1 < n
    ensures RowRanges(ChunkBounds(breaks, n), n)
  {
    var bounds := ChunkBounds(breaks, n);
    var interior := InteriorBreaks(breaks);
    forall i | 0 <= i < |bounds| ensures bounds[i].0 <= bounds[i].1 && bounds[i].0 < n {
      if 0 < i < |bounds| - 1 {
        assert interior[i - 1] < interior[i];
      }
    }
  }

  // ---------------------------------------------------------------------------
  // Scripts
  // ---------------------------------------------------------------------------

  /** `send_data`'s script: the same ECL as the one `spray_file` submits per chunk. */
  function SendDataScript(allRows: string, recordSet: string, targetName: string, overwrite: bool): string
  {
    var overwriteFlag := if overwrite then ", OVERWRITE" else "";
    "a := DATASET([" + allRows + "], {" + recordSet + "});\nOUTPUT(a, ,'" + targetName + "' , EXPIRE(1)" + overwriteFlag + ");"
  }

  /** `send_data` writes byte for byte the script `spray.py` submits for the same rows and file. */
  lemma SendDataScriptMatchesSpray(allRows: string, recordSet: string, targetName: string, overwrite: bool)
    ensures SendDataScript(allRows, recordSet, targetName, overwrite)
            == Spray.SubmitScript(allRows, recordSet, targetName, overwrite)
  {
  }

  function DeleteCall(name: string): string
  {
    "STD.File.DeleteLogicalFile('" + name + "')"
  }

  /** One `STD.File.DeleteLogicalFile` call per name, `;`-separated, in order. */
  function DeleteList(names: seq<string>): (calls: string)
    ensures names == [] ==> calls == ""
    ensures |names| == 1 ==> calls == DeleteCall(names[0])
  {
    Join(";", seq(|names|, i requires 0 <= i < |names| => DeleteCall(names[i])))
  }

  /** Adding a name appends one more delete call. */
  lemma DeleteListSnoc(names: seq<string>, name: string)
    requires names != []
    ensures DeleteList(names + [name]) == DeleteList(names) + ";" + DeleteCall(name)
  {
    var calls := seq(|names|, i requires 0 <= i < |names| => DeleteCall(names[i]));
    var more := names + [name];
    assert seq(|more|, i requires 0 <= i < |more| => DeleteCall(more[i])) == calls + [DeleteCall(name)];
    JoinAppend(";", calls, [DeleteCall(name)]);
  }

  /**
   * `concat_files`'s script: the concatenation `spray_file` submits and, with
   * `delete` set, a trailer that deletes every source file.
   */
  function ConcatFilesScript(targetNames: seq<string>, targetName: string, recordSet: string,
                             overwrite: bool, delete: bool): string
  {
    var overwriteFlag := if overwrite then ", OVERWRITE" else "";
    var readParts := seq(|targetNames|, i requires 0 <= i < |targetNames| =>
                           "DATASET('" + targetNames[i] + "', {" + recordSet + "}, THOR)");
    var script := "a := " + Join("+\n", readParts) + ";\nOUTPUT(a, ,'" + targetName + "' " + overwriteFlag + ");";
    if delete then script + "\n\nIMPORT std;\n" + DeleteList(targetNames) + ";" else script
  }

  /**
   * `concat_files` writes byte for byte the concatenation `spray_file` submits
   * for the same files, followed by the delete trailer exactly when `delete` is set.
   */
  lemma ConcatFilesScriptMatchesSpray(targetNames: seq<string>, targetName: string, recordSet: string,
                                      overwrite: bool, delete: bool)
    ensures !delete ==> ConcatFilesScript(targetNames, targetName, recordSet, overwrite, delete)
                        == Spray.ConcatScript(targetNames, targetName, recordSet, overwrite)
    ensures delete ==> ConcatFilesScript(targetNames, targetName, recordSet, overwrite, delete)
                       == Spray.ConcatScript(targetNames, targetName, recordSet, overwrite)
                          + "\n\nIMPORT std;\n" + DeleteList(targetNames) + ";"
  {
    var readParts := seq(|targetNames|, i requires 0 <= i < |targetNames| =>
                           "DATASET('" + targetNames[i] + "', {" + recordSet + "}, THOR)");
    assert readParts == seq(|targetNames|, i requires 0 <= i < |targetNames| => Spray.ReadFile(targetNames[i], recordSet));
  }

  // ---------------------------------------------------------------------------
  // Submissions
  // ---------------------------------------------------------------------------

  /** What reaches the cluster: a script writing `target` from inline rows, or one concatenating files. */
  datatype Submission =
    | SendData(target: string, script: string)
    | ConcatFiles(sources: seq<string>, target: string, script: string)

  /** The temp file name of every chunk, in order. */
  function ChunkNames(targetName: string, bounds: seq<(nat, nat)>): (names: seq<string>)
    ensures |names| == |bounds|
  {
    seq(|bounds|, i requires 0 <= i < |bounds| => TempName(targetName, bounds[i].0, bounds[i].1))
  }

  /** One `send_data` per chunk, each writing its rows to `dest[i]`. */
  function ChunkSends(rows: seq<seq<Cell>>, recordSet: string, dest: seq<string>, overwrite: bool,
                      bounds: seq<(nat, nat)>): (sent: seq<Submission>)
    requires |dest| == |bounds|
    ensures |sent| == |bounds|
    ensures forall i :: 0 <= i < |bounds| ==> sent[i].SendData? && sent[i].target == dest[i]
  {
    seq(|bounds|, i requires 0 <= i < |bounds| =>
          SendData(dest[i], SendDataScript(MakeRows(rows, bounds[i].0, bounds[i].1), recordSet, dest[i], overwrite)))
  }

  /** Chunk `i`'s send carries `make_rows` of chunk `i`'s range under the record set. */
  lemma ChunkSendsScripts(rows: seq<seq<Cell>>, recordSet: string, dest: seq<string>, overwrite: bool,
                          bounds: seq<(nat, nat)>)
    requires |dest| == |bounds|
    ensures var sent := ChunkSends(rows, recordSet, dest, overwrite, bounds);
            forall i :: 0 <= i < |bounds| ==>
              sent[i].script == SendDataScript(ChunkLiterals(rows, bounds)[i], recordSet, dest[i], overwrite)
  {
  }

  /** `_send_file_in_chunks` as written: every chunk is written to `targetName` itself. */
  function ChunkedSubmissions(rows: seq<seq<Cell>>, recordSet: string, targetName: string,
                              overwrite: bool, delete: bool, breaks: seq<nat>): (sent: seq<Submission>)
    ensures |sent| == |ChunkBounds(breaks, |rows|)| + 1
  {
    var bounds := ChunkBounds(breaks, |rows|);
    var names := ChunkNames(targetName, bounds);
    ChunkSends(rows, recordSet, seq(|bounds|, _ => targetName), overwrite, bounds)
    + [ConcatFiles(names, targetName, ConcatFilesScript(names, targetName, recordSet, overwrite, delete))]
  }

  lemma ChunkNamesSnoc(targetName: string, bounds: seq<(nat, nat)>, i: nat)
    requires i < |bounds|
    ensures ChunkNames(targetName, bounds[..i + 1])
            == ChunkNames(targetName, bounds[..i]) + [TempName(targetName, bounds[i].0, bounds[i].1)]
  {
  }

  lemma ChunkSendsSnoc(rows: seq<seq<Cell>>, recordSet: string, targetName: string, overwrite: bool,
                       bounds: seq<(nat, nat)>, i: nat)
    requires i < |bounds|
    ensures ChunkSends(rows, recordSet, seq(i + 1, _ => targetName), overwrite, bounds[..i + 1])
            == ChunkSends(rows, recordSet, seq(i, _ => targetName), overwrite, bounds[..i])
               + [SendData(targetName, SendDataScript(MakeRows(rows, bounds[i].0, bounds[i].1), recordSet, targetName, overwrite))]
  {
  }

  /** The loop of `_send_file_in_chunks`, one submission per chunk, then the concatenation. */
  method SendFileInChunks(rows: seq<seq<Cell>>, recordSet: string, targetName: string,
                          overwrite: bool, delete: bool, breaks: seq<nat>) returns (sent: seq<Submission>)
    ensures sent == ChunkedSubmissions(rows, recordSet, targetName, overwrite, delete, breaks)
  {
    var interior := InteriorBreaks(breaks);
    var endRows := interior + [|rows|];
    var startRows := [0] + seq(|interior|, i requires 0 <= i < |interior| => interior[i] + 1);
    ghost var bounds := ChunkBounds(breaks, |rows|);
    var targetNames: seq<string> := [];
    sent := [];
    var i := 0;
    while i < |startRows|
      invariant 0 <= i <= |startRows| == |bounds|
      invariant targetNames == ChunkNames(targetName, bounds[..i])
      invariant sent == ChunkSends(rows, recordSet, seq(i, _ => targetName), overwrite, bounds[..i])
    {
      var start, end := startRows[i], endRows[i];
      assert (start, end) == bounds[i];
      ChunkNamesSnoc(targetName, bounds, i);
      ChunkSendsSnoc(rows, recordSet, targetName, overwrite, bounds, i);
      targetNames := targetNames + [TempName(targetName, start, end)];
      var allRows := MakeRows(rows, start, end);
      sent := sent + [SendData(targetName, SendDataScript(allRows, recordSet, targetName, overwrite))];
      i := i + 1;
    }
    assert bounds[..i] == bounds;
    sent := sent + [ConcatFiles(targetNames, targetName, ConcatFilesScript(targetNames, targetName, recordSet, overwrite, delete))];
  }

  /** `send_file_internal` on a frame whose record set is already made: one script, or chunks. */
  function SendPlan(rows: seq<seq<Cell>>, recordSet: string, targetName: string, overwrite: bool,
                    delete: bool, chunkSize: nat, breaks: seq<nat>): (sent: seq<Submission>)
    ensures |rows| <= chunkSize ==> sent == [SendData(targetName, Spray.SubmitScript(MakeRows(rows, 0, |rows|), recordSet, targetName, overwrite))]
    ensures |rows| > chunkSize ==> |sent| == |InteriorBreaks(breaks)| + 2 && sent[|sent| - 1].ConcatFiles?
                                   && sent[|sent| - 1].target == targetName
  {
    if |rows| > chunkSize then ChunkedSubmissions(rows, recordSet, targetName, overwrite, delete, breaks)
    else
      SendDataScriptMatchesSpray(MakeRows(rows, 0, |rows|), recordSet, targetName, overwrite);
      [SendData(targetName, SendDataScript(MakeRows(rows, 0, |rows|), recordSet, targetName, overwrite))]
  }

  /**
   * `send_file_internal` after `read_csv`: makes the record set (rewriting the
   * frame), then sends the rows whole or in chunks.
   */
  method SendFileInternal(df: Frame, targetName: string, overwrite: bool, delete: bool,
                          chunkSize: nat, breaks: seq<nat>) returns (sent: seq<Submission>)
    requires df.Valid()
    requires forall i, j :: 0 <= i < j < |df.columns| ==> df.columns[i] != df.columns[j]
    modifies df
    ensures df.columns == old(df.columns)
    ensures df.rows == NormalizeRows(old(df.rows))
    ensures sent == SendPlan(df.rows, Join(";", Schema(df.columns)), targetName, overwrite, delete, chunkSize, breaks)
  {
    var recordSet := MakeRecordSet(df);
    var rows := df.rows;
    if |rows| > chunkSize {
      sent := SendFileInChunks(rows, recordSet, targetName, overwrite, delete, breaks);
    } else {
      var allRows := MakeRows(rows, 0, |rows|);
      sent := [SendData(targetName, SendDataScript(allRows, recordSet, targetName, overwrite))];
    }
  }

  /**
   * As written, the chunked plan never writes a file its concatenation reads:
   * every chunk goes to `targetName`, and every source is a longer temp name.
   */
  lemma ChunkedSubmissionsReadUnwrittenFiles(rows: seq<seq<Cell>>, recordSet: string, targetName: string,
                                             overwrite: bool, delete: bool, breaks: seq<nat>)
    ensures var sent := ChunkedSubmissions(rows, recordSet, targetName, overwrite, delete, breaks);
            var concat := sent[|sent| - 1];
            && concat.ConcatFiles?
            && |concat.sources| == |sent| - 1
            && forall i, j :: 0 <= i < |sent| - 1 && 0 <= j < |concat.sources| ==>
                 sent[i].SendData? && sent[i].target != concat.sources[j]
  {
    ChunkedSubmissionsParts(rows, recordSet, targetName, overwrite, delete, breaks);
    TempNamesLonger(targetName, ChunkBounds(breaks, |rows|));
  }

  /** A list of sends followed by one last step: the sends come first, in order, and the step comes last. */
  lemma SendsThenLast(sent: seq<Submission>, sends: seq<Submission>, last: Submission)
    requires sent == sends + [last]
    ensures |sent| == |sends| + 1 && sent[|sent| - 1] == last
    ensures forall i :: 0 <= i < |sends| ==> sent[i] == sends[i]
  {
  }

  /** The as-written plan: one `send_data` to `targetName` per chunk, then the concatenation of the temp names. */
  lemma ChunkedSubmissionsParts(rows: seq<seq<Cell>>, recordSet: string, targetName: string,
                                overwrite: bool, delete: bool, breaks: seq<nat>)
    ensures var sent := ChunkedSubmissions(rows, recordSet, targetName, overwrite, delete, breaks);
            && sent[|sent| - 1].ConcatFiles?
            && sent[|sent| - 1].sources == ChunkNames(targetName, ChunkBounds(breaks, |rows|))
            && forall i :: 0 <= i < |sent| - 1 ==> sent[i].SendData? && sent[i].target == targetName
  {
    var bounds := ChunkBounds(breaks, |rows|);
    var names := ChunkNames(targetName, bounds);
    var sends := ChunkSends(rows, recordSet, seq(|bounds|, _ => targetName), overwrite, bounds);
    var last := ConcatFiles(names, targetName, ConcatFilesScript(names, targetName, recordSet, overwrite, delete));
    SendsThenLast(ChunkedSubmissions(rows, recordSet, targetName, overwrite, delete, breaks), sends, last);
  }

  /** Every temp name is longer than the target it is made from. */
  lemma TempNamesLonger(targetName: string, bounds: seq<(nat, nat)>)
    ensures forall j :: 0 <= j < |bounds| ==> |ChunkNames(targetName, bounds)[j]| > |targetName|
  {
  }

  /** The intended chunked plan: chunk `i` is written to the `i`-th temp file the concatenation reads. */
  function CorrectedChunkedSubmissions(rows: seq<seq<Cell>>, recordSet: string, targetName: string,
                                       overwrite: bool, delete: bool, breaks: seq<nat>): (sent: seq<Submission>)
    ensures |sent| == |ChunkBounds(breaks, |rows|)| + 1
  {
    var bounds := ChunkBounds(breaks, |rows|);
    var names := ChunkNames(targetName, bounds);
    ChunkSends(rows, recordSet, names, overwrite, bounds)
    + [ConcatFiles(names, targetName, ConcatFilesScript(names, targetName, recordSet, overwrite, delete))]
  }

  /** With strictly increasing break positions every chunk gets its own temp file name. */
  lemma ChunkNamesDistinct(targetName: string, breaks: seq<nat>, n: nat)
    requires forall i, j :: 0 <= i < j < |InteriorBreaks(breaks)| ==> InteriorBreaks(breaks)[i] < InteriorBreaks(breaks)[j]
    ensures var names := ChunkNames(targetName, ChunkBounds(breaks, n));
            forall i, j :: 0 <= i < j < |names| ==> names[i] != names[j]
  {
    var bounds := ChunkBounds(breaks, n);
    var names := ChunkNames(targetName, bounds);
    forall i, j | 0 <= i < j < |names| ensures names[i] != names[j] {
      assert bounds[i].0 < bounds[j].0 by {
        if i > 0 {
          assert bounds[i].0 == InteriorBreaks(breaks)[i - 1] + 1;
          assert bounds[j].0 == InteriorBreaks(breaks)[j - 1] + 1;
        }
      }
      if names[i] == names[j] {
        TempNameInjective(targetName, bounds[i].0, bounds[i].1, bounds[j].0, bounds[j].1);
      }
    }
  }

  /**
   * In the corrected plan the concatenation reads exactly the files the chunks
   * wrote, in the order written, into `targetName`; with strictly increasing
   * break positions those files are all distinct.
   */
  lemma CorrectedChunksFeedConcat(rows: seq<seq<Cell>>, recordSet: string, targetName: string,
                                  overwrite: bool, delete: bool, breaks: seq<nat>)
    requires forall i, j :: 0 <= i < j < |InteriorBreaks(breaks)| ==> InteriorBreaks(breaks)[i] < InteriorBreaks(breaks)[j]
    ensures var sent := CorrectedChunkedSubmissions(rows, recordSet, targetName, overwrite, delete, breaks);
            var concat := sent[|sent| - 1];
            && concat.ConcatFiles?
            && concat.target == targetName
            && |concat.sources| == |sent| - 1
            && (forall i :: 0 <= i < |sent| - 1 ==> sent[i].SendData? && sent[i].target == concat.sources[i])
            && (forall i, j :: 0 <= i < j < |concat.sources| ==> concat.sources[i] != concat.sources[j])
  {
    CorrectedChunkedSubmissionsParts(rows, recordSet, targetName, overwrite, delete, breaks);
    ChunkNamesDistinct(targetName, breaks, |rows|);
  }

  /** The corrected plan: chunk `i` goes to the `i`-th temp name, then those names are concatenated into `targetName`. */
  lemma CorrectedChunkedSubmissionsParts(rows: seq<seq<Cell>>, recordSet: string, targetName: string,
                                         overwrite: bool, delete: bool, breaks: seq<nat>)
    ensures var sent := CorrectedChunkedSubmissions(rows, recordSet, targetName, overwrite, delete, breaks);
            var names := ChunkNames(targetName, ChunkBounds(breaks, |rows|));
            && |sent| == |names| + 1
            && sent[|sent| - 1].ConcatFiles?
            && sent[|sent| - 1].sources == names && sent[|sent| - 1].target == targetName
            && forall i :: 0 <= i < |names| ==> sent[i].SendData? && sent[i].target == names[i]
  {
    var bounds := ChunkBounds(breaks, |rows|);
    var names := ChunkNames(targetName, bounds);
    var sends := ChunkSends(rows, recordSet, names, overwrite, bounds);
    var last := ConcatFiles(names, targetName, ConcatFilesScript(names, targetName, recordSet, overwrite, delete));
    SendsThenLast(CorrectedChunkedSubmissions(rows, recordSet, targetName, overwrite, delete, breaks), sends, last);
  }

  /** In the corrected plan chunk `i`'s send writes `make_rows` of chunk `i`, under the record set. */
  lemma CorrectedChunkScripts(rows: seq<seq<Cell>>, recordSet: string, targetName: string,
                              overwrite: bool, delete: bool, breaks: seq<nat>)
    ensures var sent := CorrectedChunkedSubmissions(rows, recordSet, targetName, overwrite, delete, breaks);
            var literals := ChunkLiterals(rows, ChunkBounds(breaks, |rows|));
            && |literals| == |sent| - 1
            && forall i :: 0 <= i < |literals| ==>
                 sent[i].SendData? && sent[i].script == SendDataScript(literals[i], recordSet, sent[i].target, overwrite)
  {
    var bounds := ChunkBounds(breaks, |rows|);
    var names := ChunkNames(targetName, bounds);
    var sends := ChunkSends(rows, recordSet, names, overwrite, bounds);
    var last := ConcatFiles(names, targetName, ConcatFilesScript(names, targetName, recordSet, overwrite, delete));
    SendsThenLast(CorrectedChunkedSubmissions(rows, recordSet, targetName, overwrite, delete, breaks), sends, last);
    ChunkSendsScripts(rows, recordSet, names, overwrite, bounds);
  }

  /**
   * The row literals the corrected plan sends, joined with `,`, are the rows
   * `send_file_internal` sends in one piece when the frame fits a single chunk:
   * the temporary files together hold exactly the table's rows, in order.
   */
  lemma CorrectedChunksCarryRows(rows: seq<seq<Cell>>, recordSet: string, targetName: string,
                                 overwrite: bool, delete: bool, breaks: seq<nat>)
    requires |rows| > 0
    requires forall i, j :: 0 <= i < j < |InteriorBreaks(breaks)| ==> InteriorBreaks(breaks)[i] < InteriorBreaks(breaks)[j]
    requires forall i :: 0 <= i < |InteriorBreaks(breaks)| ==> InteriorBreaks(breaks)[i] + 1 < |rows|
    ensures var sent := CorrectedChunkedSubmissions(rows, recordSet, targetName, overwrite, delete, breaks);
            var literals := ChunkLiterals(rows, ChunkBounds(breaks, |rows|));
            && |literals| == |sent| - 1
            && (forall i :: 0 <= i < |literals| ==>
                  sent[i].SendData? && sent[i].script == SendDataScript(literals[i], recordSet, sent[i].target, overwrite))
            && Join(",", literals) == MakeRows(rows, 0, |rows|)
  {
    CorrectedChunkScripts(rows, recordSet, targetName, overwrite, delete, breaks);
    ChunkedRowsMatchDirect(rows, breaks);
  }
}
