/**
 * A pandas DataFrame with its default integer index, as the spray code sees it:
 * column labels, the name of each column's dtype, and rows of cells.  Cells are
 * already rendered as text; `Missing` is a null (NaN) cell.
 */
module Table {
  import opened Strings

  datatype Cell = Missing | Text(s: string)

  datatype Table = Table(columns: seq<string>, dtypes: seq<string>, rows: seq<seq<Cell>>)

  /** Every row has one cell per column, and every column has a dtype. */
  predicate WellFormed(t: Table) {
    |t.dtypes| == |t.columns| && forall r :: 0 <= r < |t.rows| ==> |t.rows[r]| == |t.columns|
  }

  /** `x.astype(str)` of one cell: a null cell prints as `nan`. */
  function Render(c: Cell): string {
    match c
    case Missing => "nan"
    case Text(s) => s
  }

  /**
   * `df.loc[lo:hi]` on a default index: the rows labelled lo to hi, BOTH ends
   * included, clipped to the rows that exist.
   */
  function Loc<T>(rows: seq<T>, lo: nat, hi: nat): (r: seq<T>)
    ensures |r| == (if lo <= hi && lo < |rows| then (if hi < |rows| then hi + 1 else |rows|) - lo else 0)
    ensures forall k :: 0 <= k < |r| ==> r[k] == rows[lo + k]
  {
    var top := if hi + 1 < |rows| then hi + 1 else |rows|;
    if lo < top then rows[lo..top] else []
  }

  /** `df.iloc[lo:hi]`: positions lo up to but excluding hi, clipped. */
  function ILoc<T>(rows: seq<T>, lo: nat, hi: nat): (r: seq<T>)
    ensures |r| == (if lo < hi && lo < |rows| then (if hi < |rows| then hi else |rows|) - lo else 0)
    ensures forall k :: 0 <= k < |r| ==> r[k] == rows[lo + k]
  {
    var top := if hi < |rows| then hi else |rows|;
    if lo < top then rows[lo..top] else []
  }

  /** Two inclusive slices that meet end to end read the same rows as one slice. */
  lemma LocSplit<T>(rows: seq<T>, a: nat, b: nat, c: nat)
    requires a <= b + 1 && b <= c
    ensures Loc(rows, a, b) + Loc(rows, b + 1, c) == Loc(rows, a, c)
  {
  }

  function Flatten<T>(xss: seq<seq<T>>): seq<T>
  {
    if xss == [] then [] else xss[0] + Flatten(xss[1..])
  }

  /** Each row as `{c1,...,ck}`. */
  function Braced(rows: seq<seq<string>>): seq<string>
  {
    seq(|rows|, i requires 0 <= i < |rows| => "{" + Join(",", rows[i]) + "}")
  }

  /** `','.join('{' + ','.join(row) + '}' for row in rows)`: an ECL inline dataset body. */
  function RowsLiteral(rows: seq<seq<string>>): string
  {
    Join(",", Braced(rows))
  }

  /** The literal is empty exactly when there are no rows, and otherwise opens and closes with a brace. */
  lemma RowsLiteralShape(rows: seq<seq<string>>)
    ensures RowsLiteral(rows) == "" <==> rows == []
    ensures rows != [] ==> RowsLiteral(rows)[0] == '{' && RowsLiteral(rows)[|RowsLiteral(rows)| - 1] == '}'
  {
    if rows != [] {
      JoinEnds(",", Braced(rows));
    }
  }

  /**
   * The literal of two consecutive blocks of rows is the two literals joined by a
   * comma: sending rows in pieces carries the same text as sending them at once.
   */
  lemma RowsLiteralAppend(a: seq<seq<string>>, b: seq<seq<string>>)
    requires |a| > 0 && |b| > 0
    ensures RowsLiteral(a + b) == RowsLiteral(a) + "," + RowsLiteral(b)
  {
    assert Braced(a + b) == Braced(a) + Braced(b);
    JoinAppend(",", Braced(a), Braced(b));
  }

  /** One `Render`ed text per cell, as `df.astype(str)` gives it. */
  function RenderRows(rows: seq<seq<Cell>>): seq<seq<string>>
  {
    seq(|rows|, r requires 0 <= r < |rows| => seq(|rows[r]|, c requires 0 <= c < |rows[r]| => Render(rows[r][c])))
  }

  /**
   * Row ranges (first, last), both ends included, where each range starts right
   * after the previous one ends and none runs backwards by more than an empty range.
   */
  predicate Contiguous(bounds: seq<(nat, nat)>)
  {
    && (forall i :: 0 <= i < |bounds| ==> bounds[i].0 <= bounds[i].1 + 1)
    && (forall i :: 0 < i < |bounds| ==> bounds[i].0 == bounds[i - 1].1 + 1)
  }

  /** `df.loc[first:last]` for each range. */
  function LocAll<T>(rows: seq<T>, bounds: seq<(nat, nat)>): seq<seq<T>>
  {
    seq(|bounds|, i requires 0 <= i < |bounds| => Loc(rows, bounds[i].0, bounds[i].1))
  }

  lemma RenderRowsAppend(a: seq<seq<Cell>>, b: seq<seq<Cell>>)
    ensures RenderRows(a + b) == RenderRows(a) + RenderRows(b)
  {
  }

  /** Dropping the first range keeps the rest contiguous. */
  lemma ContiguousTail(bounds: seq<(nat, nat)>)
    requires |bounds| > 0 && Contiguous(bounds)
    ensures Contiguous(bounds[1..])
  {
    var rest := bounds[1..];
    forall i | 0 < i < |rest| ensures rest[i].0 == rest[i - 1].1 + 1 {
      assert rest[i] == bounds[i + 1] && rest[i - 1] == bounds[i];
    }
  }

  /** Contiguous ranges never move backwards: the first ends no later than the last. */
  lemma {:induction false} ContiguousSpan(bounds: seq<(nat, nat)>)
    requires |bounds| > 0 && Contiguous(bounds)
    ensures bounds[0].1 <= bounds[|bounds| - 1].1
    ensures bounds[0].0 <= bounds[|bounds| - 1].1 + 1
  {
    if |bounds| > 1 {
      ContiguousTail(bounds);
      ContiguousSpan(bounds[1..]);
    }
  }

  /** Contiguous inclusive ranges read, together and in order, the rows of the one range they span. */
  lemma {:induction false} LocAllFlatten<T>(rows: seq<T>, bounds: seq<(nat, nat)>)
    requires |bounds| > 0 && Contiguous(bounds)
    ensures bounds[0].1 <= bounds[|bounds| - 1].1
    ensures Flatten(LocAll(rows, bounds)) == Loc(rows, bounds[0].0, bounds[|bounds| - 1].1)
  {
    var rest := bounds[1..];
    assert LocAll(rows, bounds)[1..] == LocAll(rows, rest);
    if rest == [] {
      assert Flatten(LocAll(rows, rest)) == [];
    } else {
      assert Contiguous(rest) by {
        forall i | 0 < i < |rest| ensures rest[i].0 == rest[i - 1].1 + 1 {
          assert rest[i] == bounds[i + 1] && rest[i - 1] == bounds[i];
        }
      }
      LocAllFlatten(rows, rest);
      LocSplit(rows, bounds[0].0, bounds[0].1, bounds[|bounds| - 1].1);
    }
  }
}
