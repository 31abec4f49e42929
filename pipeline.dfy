/**
 * One run of the cleaning script on an uploaded table: keep the seven
 * columns, add the numeric helper for `Identificador`, sort on it (numbers
 * from greatest to least, non-numbers last), drop the helper, and name the
 * download after the date of the run.
 */
module Pipeline {
  import opened Wrappers
  import opened Frame
  import opened Numeric
  import opened Sorting
  import opened ExportName

  /** The columns kept, in output order. */
  const KeptColumns: seq<string> :=
    ["Guia/PLAN", "Origen", "Destino", "Empresa", "Identificador", "Nombre/Descripcion", "Proyecto"]

  const IdColumn: string := "Identificador"

  /** The helper value `Identificador_num` of a row. */
  function IdKey(row: Row): Option<int>
    requires IdColumn in row
  {
    ParseInt(row[IdColumn])
  }

  predicate AllHaveId(rows: seq<Row>) {
    forall i :: 0 <= i < |rows| ==> IdColumn in rows[i]
  }

  /** Every row whose identifier is a number comes before every row whose identifier is not. */
  predicate NumbersFirst(rows: seq<Row>)
    requires AllHaveId(rows)
  {
    forall i, j :: 0 <= i < |rows| && 0 <= j < |rows| && IdKey(rows[i]).Some? && IdKey(rows[j]).None? ==> i < j
  }

  /** Among rows with a numeric identifier, the values do not increase from first to last. */
  predicate NumbersDescending(rows: seq<Row>)
    requires AllHaveId(rows)
  {
    forall i, j :: 0 <= i < j < |rows| && IdKey(rows[i]).Some? && IdKey(rows[j]).Some? ==>
      IdKey(rows[i]).value >= IdKey(rows[j]).value
  }

  /** The result of a successful run: the cleaned table and its download name. */
  datatype Export = Export(table: Table, fileName: string)

  /**
   * `df_limpio["Identificador_num"] = pd.to_numeric(...)`: pairs each row,
   * unchanged, with the numeric reading of its identifier.
   */
  method AddNumericKey(rows: seq<Row>) returns (a: array<KeyedRow>)
    requires AllHaveId(rows)
    ensures fresh(a) && a.Length == |rows|
    ensures forall i :: 0 <= i < |rows| ==> a[i].row == rows[i] && a[i].key == IdKey(rows[i])
  {
    a := new KeyedRow[|rows|](i requires 0 <= i < |rows| => KeyedRow(rows[i], IdKey(rows[i])));
  }

  /** Each entry's helper value is the numeric reading of its own row's identifier. */
  predicate KeysMatch(s: seq<KeyedRow>) {
    forall k :: 0 <= k < |s| ==> IdColumn in s[k].row && s[k].key == IdKey(s[k].row)
  }

  /** Reordering the entries keeps each helper value beside its own row. */
  lemma KeysMatchPermutation(s: seq<KeyedRow>, t: seq<KeyedRow>)
    requires KeysMatch(s) && multiset(s) == multiset(t)
    ensures KeysMatch(t)
  {
    forall k | 0 <= k < |t|
      ensures IdColumn in t[k].row && t[k].key == IdKey(t[k].row)
    {
      assert t[k] in multiset(s);
    }
  }

  /**
   * Once the entries are sorted on helper values that match their rows, the
   * rows without the helper are ordered by their numeric identifiers.
   */
  lemma DropKeyOrdered(s: seq<KeyedRow>)
    requires KeysMatch(s) && SortedByKey(s)
    ensures AllHaveId(DropKey(s))
    ensures NumbersFirst(DropKey(s)) && NumbersDescending(DropKey(s))
  {
  }

  /**
   * The whole run on table `input` on date `today`. It fails, with exactly
   * the missing names, when a kept column is absent, and then produces no
   * table and no name. Otherwise the table has exactly the kept columns, its
   * rows are a permutation of the projected rows and are ordered by the
   * numeric identifier, descending, with non-numbers last.
   */
  method Process(input: Table, today: Date) returns (r: Result<Export, seq<string>>)
    requires WellFormed(input) && ValidDate(today)
    ensures r.Failure? <==> exists c :: c in KeptColumns && c !in input.columns
    ensures r.Failure? ==> forall c :: c in r.error <==> c in KeptColumns && c !in input.columns
    ensures r.Success? ==> Project(input, KeptColumns).Success?
    ensures r.Success? ==> r.value.table.columns == KeptColumns && WellFormed(r.value.table)
    ensures r.Success? ==>
      multiset(r.value.table.rows) == multiset(Project(input, KeptColumns).value.rows)
    ensures r.Success? ==> AllHaveId(r.value.table.rows)
    ensures r.Success? ==> NumbersFirst(r.value.table.rows) && NumbersDescending(r.value.table.rows)
    ensures r.Success? ==> r.value.fileName == OutputFileName(today)
  {
    var projected := Project(input, KeptColumns);
    if projected.Failure? {
      return Failure(projected.error);
    }
    var cleaned := projected.value;
    assert IdColumn in ColumnSet(KeptColumns);
    var a := AddNumericKey(cleaned.rows);
    ghost var keyed := a[..];
    SortByKeyDescending(a);
    KeysMatchPermutation(keyed, a[..]);
    DropKeyOrdered(a[..]);
    DropKeyPermutation(a[..], keyed);
    assert DropKey(keyed) == cleaned.rows;
    WellFormedPermutation(cleaned, DropKey(a[..]));
    r := Success(Export(Table(cleaned.columns, DropKey(a[..])), OutputFileName(today)));
  }
}
