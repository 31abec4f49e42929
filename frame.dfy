/** Tables as the cleaning script sees them: named columns over rows of text cells. */
module Frame {
  import opened Wrappers

  /** One spreadsheet row: the cell text under each column name. */
  type Row = map<string, string>

  /** A table: its column names in display order, and its rows in order. */
  datatype Table = Table(columns: seq<string>, rows: seq<Row>)

  /** The set of names a column list mentions. */
  function ColumnSet(columns: seq<string>): set<string> {
    set c | c in columns
  }

  /** Every row holds exactly one cell per column of the table. */
  predicate WellFormed(t: Table) {
    forall i :: 0 <= i < |t.rows| ==> t.rows[i].Keys == ColumnSet(t.columns)
  }

  /** The names of `keep` that are not among `present`, in the order of `keep`. */
  function MissingColumns(keep: seq<string>, present: seq<string>): (m: seq<string>)
    ensures forall c :: c in m <==> c in keep && c !in present
    ensures |m| <= |keep|
  {
    if keep == [] then []
    else (if keep[0] in present then [] else [keep[0]]) + MissingColumns(keep[1..], present)
  }

  /** The cells of `row` under the names in `keep`. */
  function Restrict(row: Row, keep: seq<string>): (r: Row)
    requires forall c :: c in keep ==> c in row
    ensures r.Keys == ColumnSet(keep)
    ensures forall c :: c in keep ==> r[c] == row[c]
  {
    map c | c in ColumnSet(keep) :: row[c]
  }

  /**
   * Column selection `df[keep]`: either the table with exactly the columns
   * `keep`, in that order, each row keeping its cells; or, when a name of
   * `keep` is not a column, a failure listing every such name.
   */
  function Project(t: Table, keep: seq<string>): (r: Result<Table, seq<string>>)
    requires WellFormed(t)
    ensures r.Failure? <==> exists c :: c in keep && c !in t.columns
    ensures r.Failure? ==> forall c :: c in r.error <==> c in keep && c !in t.columns
    ensures r.Success? ==> r.value.columns == keep && WellFormed(r.value)
    ensures r.Success? ==> |r.value.rows| == |t.rows|
    ensures r.Success? ==> forall i, c :: 0 <= i < |t.rows| && c in keep ==> r.value.rows[i][c] == t.rows[i][c]
  {
    var missing := MissingColumns(keep, t.columns);
    if missing != [] then
      assert missing[0] in missing;
      Failure(missing)
    else
      assert forall i :: 0 <= i < |t.rows| ==> forall c :: c in keep ==> c in t.rows[i];
      Success(Table(keep, seq(|t.rows|, i requires 0 <= i < |t.rows| => Restrict(t.rows[i], keep))))
  }

  /** Reordering the rows of a table keeps every row's cells under the table's columns. */
  lemma WellFormedPermutation(t: Table, rows: seq<Row>)
    requires WellFormed(t) && multiset(rows) == multiset(t.rows)
    ensures WellFormed(Table(t.columns, rows))
  {
    forall i | 0 <= i < |rows| ensures rows[i].Keys == ColumnSet(t.columns) {
      assert rows[i] in multiset(t.rows);
    }
  }

  /** Projecting twice onto the same columns changes nothing. */
  lemma ProjectIdempotent(t: Table, keep: seq<string>)
    requires WellFormed(t) && Project(t, keep).Success?
    ensures Project(Project(t, keep).value, keep) == Project(t, keep)
  {
    var p := Project(t, keep).value;
    var q := Project(p, keep).value;
    assert |q.rows| == |p.rows|;
    forall i | 0 <= i < |p.rows| ensures q.rows[i] == p.rows[i] {
      assert q.rows[i].Keys == p.rows[i].Keys;
    }
    assert q.rows == p.rows;
  }
}
