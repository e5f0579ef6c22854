/**
 * `preprocess_data` from knowledge_graph/data_processor.py, from the point
 * where the CSV file has been parsed: a header row and rows of cells, a
 * missing cell (pandas NaN) being `None`.
 */
module DataProcessor {
  import opened Wrappers
  import opened Text
  import opened Seqs
  import opened Schema

  type Row = seq<Option<string>>

  datatype Table = Table(header: seq<string>, rows: seq<Row>)

  /** `{'source': ..., 'target': ..., 'type': ...}` */
  datatype Relationship = Relationship(source: string, target: string, relType: string)

  datatype Ingested = Ingested(diseases: seq<string>, symptoms: seq<string>, relationships: seq<Relationship>)

  /** `df['Disease']` on a table without that column raises `KeyError`. */
  datatype IngestError = KeyError(column: string)

  const SYMPTOM_PREFIX: string := "Symptom_"

  /** The cell of `row` in column `j`; pandas pads a short row with NaN. */
  function Cell(row: Row, j: nat): Option<string>
  {
    if j < |row| then row[j] else None
  }

  /** A symptom cell that counts: not NaN and not blank once stripped. */
  predicate Kept(c: Option<string>)
  {
    c.Some? && !IsBlank(c.value)
  }

  /** The position of the first column called `name`, which is the one `df[name]` selects. */
  function ColumnIndex(header: seq<string>, name: string): (k: Option<nat>)
    ensures k.None? <==> name !in header
    ensures k.Some? ==> k.value < |header| && header[k.value] == name && name !in header[..k.value]
  {
    if name in header then Some(IndexOf(header, name)) else None
  }

  /** `[col for col in df.columns if col.startswith('Symptom_')]`, as column positions. */
  function SymptomColumns(header: seq<string>): (cols: seq<nat>)
    ensures forall j :: j in cols <==> 0 <= j < |header| && StartsWith(header[j], SYMPTOM_PREFIX)
    ensures forall a, b :: 0 <= a < b < |cols| ==> cols[a] < cols[b]
    decreases |header|
  {
    if header == [] then [] else
      var n := |header| - 1;
      var p := SymptomColumns(header[..n]);
      forall a | 0 <= a < |p| ensures p[a] < n {
        assert p[a] in p;
      }
      p + (if StartsWith(header[n], SYMPTOM_PREFIX) then [n] else [])
  }

  /** The rows' Disease cells are present (a NaN disease is not modelled). */
  predicate DiseasesPresent(t: Table)
  {
    var k := ColumnIndex(t.header, DISEASE);
    k.Some? ==> forall r :: r in t.rows ==> Cell(r, k.value).Some?
  }

  /** `row['Disease']`; `DiseasesPresent` rules out the NaN case. */
  function DiseaseOf(row: Row, k: nat): string
  {
    match Cell(row, k) case Some(s) => s case None => ""
  }

  /** `df['Disease']`, row by row. */
  function DiseaseColumn(rows: seq<Row>, k: nat): (r: seq<string>)
    ensures |r| == |rows| && forall i :: 0 <= i < |rows| ==> r[i] == DiseaseOf(rows[i], k)
    decreases |rows|
  {
    if rows == [] then [] else
      DiseaseColumn(rows[..|rows| - 1], k) + [DiseaseOf(rows[|rows| - 1], k)]
  }

  /** `df[col].dropna()`: the present cells of column `j`, in row order. */
  function ColumnValues(rows: seq<Row>, j: nat): seq<string>
    decreases |rows|
  {
    if rows == [] then [] else
      var n := |rows| - 1;
      ColumnValues(rows[..n], j) + (match Cell(rows[n], j) case Some(s) => [s] case None => [])
  }

  /** `all_symptoms` after the column loop: each column's distinct present cells, column after column. */
  function AllSymptomValues(rows: seq<Row>, cols: seq<nat>): seq<string>
    decreases |cols|
  {
    if cols == [] then [] else
      var n := |cols| - 1;
      AllSymptomValues(rows, cols[..n]) + Unique(ColumnValues(rows, cols[n]))
  }

  /** `[s for s in all_symptoms if isinstance(s, str) and s.strip()]` */
  function NonBlank(xs: seq<string>): (r: seq<string>)
    ensures forall s :: s in r <==> s in xs && !IsBlank(s)
    decreases |xs|
  {
    if xs == [] then [] else
      NonBlank(xs[..|xs| - 1]) + (if IsBlank(xs[|xs| - 1]) then [] else [xs[|xs| - 1]])
  }

  /** What the inner loop appends for one row: one relationship per kept symptom cell, in column order. */
  function RowRelationships(disease: string, row: Row, cols: seq<nat>): seq<Relationship>
    decreases |cols|
  {
    if cols == [] then [] else
      var n := |cols| - 1;
      RowRelationships(disease, row, cols[..n])
        + (if Kept(Cell(row, cols[n])) then [Relationship(disease, Cell(row, cols[n]).value, HAS_SYMPTOM)] else [])
  }

  /** The relationship list after the loop over `df.iterrows()`. */
  function Relationships(rows: seq<Row>, k: nat, cols: seq<nat>): seq<Relationship>
    decreases |rows|
  {
    if rows == [] then [] else
      var n := |rows| - 1;
      Relationships(rows[..n], k, cols) + RowRelationships(DiseaseOf(rows[n], k), rows[n], cols)
  }

  lemma RowStep(disease: string, row: Row, cols: seq<nat>, c: nat)
    requires c < |cols|
    ensures RowRelationships(disease, row, cols[..c + 1]) == RowRelationships(disease, row, cols[..c])
              + (if Kept(Cell(row, cols[c])) then [Relationship(disease, Cell(row, cols[c]).value, HAS_SYMPTOM)] else [])
  {
    assert cols[..c + 1][..c] == cols[..c];
  }

  lemma RowsStep(rows: seq<Row>, k: nat, cols: seq<nat>, i: nat)
    requires i < |rows|
    ensures Relationships(rows[..i + 1], k, cols) == Relationships(rows[..i], k, cols) + RowRelationships(DiseaseOf(rows[i], k), rows[i], cols)
  {
    assert rows[..i + 1][..i] == rows[..i];
  }

  /** The three results of `preprocess_data`, or the `KeyError` for a table without a Disease column. */
  function Ingest(t: Table): Result<Ingested, IngestError>
    requires DiseasesPresent(t)
  {
    match ColumnIndex(t.header, DISEASE)
    case None => Failure(KeyError(DISEASE))
    case Some(k) =>
      var cols := SymptomColumns(t.header);
      Success(Ingested(Unique(DiseaseColumn(t.rows, k)),
                       SortedUnique(NonBlank(AllSymptomValues(t.rows, cols))),
                       Relationships(t.rows, k, cols)))
  }

  /** The column loop: `all_symptoms.extend(df[col].dropna().unique())` for each symptom column. */
  method CollectSymptomValues(rows: seq<Row>, cols: seq<nat>) returns (allSymptoms: seq<string>)
    ensures allSymptoms == AllSymptomValues(rows, cols)
  {
    allSymptoms := [];
    for c := 0 to |cols|
      invariant allSymptoms == AllSymptomValues(rows, cols[..c])
    {
      assert cols[..c + 1][..c] == cols[..c];
      allSymptoms := allSymptoms + Unique(ColumnValues(rows, cols[c]));
    }
    assert cols[..|cols|] == cols;
  }

  /** The row loop with its inner column loop, appending one relationship per kept cell. */
  method CollectRelationships(rows: seq<Row>, k: nat, cols: seq<nat>) returns (relationships: seq<Relationship>)
    ensures relationships == Relationships(rows, k, cols)
  {
    relationships := [];
    for i := 0 to |rows|
      invariant relationships == Relationships(rows[..i], k, cols)
    {
      var row := rows[i];
      var disease := DiseaseOf(row, k);
      ghost var before := relationships;
      for c := 0 to |cols|
        invariant relationships == before + RowRelationships(disease, row, cols[..c])
      {
        RowStep(disease, row, cols, c);
        var symptom := Cell(row, cols[c]);
        if Kept(symptom) {
          relationships := relationships + [Relationship(disease, symptom.value, HAS_SYMPTOM)];
        }
      }
      assert cols[..|cols|] == cols;
      RowsStep(rows, k, cols, i);
    }
    assert rows[..|rows|] == rows;
  }

  /** `preprocess_data` after `pd.read_csv`. */
  method Preprocess(t: Table) returns (r: Result<Ingested, IngestError>)
    requires DiseasesPresent(t)
    ensures r == Ingest(t)
    ensures r.Failure? <==> DISEASE !in t.header
    ensures r.Failure? ==> r.error == KeyError(DISEASE)
  {
    var k := ColumnIndex(t.header, DISEASE);
    if k.None? {
      return Failure(KeyError(DISEASE));
    }
    var disease := k.value;
    var diseases := Unique(DiseaseColumn(t.rows, disease));
    var cols := SymptomColumns(t.header);
    var allSymptoms := CollectSymptomValues(t.rows, cols);
    var symptoms := SortedUnique(NonBlank(allSymptoms));
    var relationships := CollectRelationships(t.rows, disease, cols);
    r := Success(Ingested(diseases, symptoms, relationships));
  }

  // Properties of the three results.

  lemma {:induction false} DiseaseColumnMem(rows: seq<Row>, k: nat, d: string)
    ensures d in DiseaseColumn(rows, k) <==> exists i :: 0 <= i < |rows| && DiseaseOf(rows[i], k) == d
  {
    var col := DiseaseColumn(rows, k);
    if d in col {
      var i :| 0 <= i < |col| && col[i] == d;
      assert DiseaseOf(rows[i], k) == d;
    }
    if exists i :: 0 <= i < |rows| && DiseaseOf(rows[i], k) == d {
      var i :| 0 <= i < |rows| && DiseaseOf(rows[i], k) == d;
      assert col[i] == d;
    }
  }

  /** Some row holds `s` in column `j`. */
  ghost predicate InColumn(rows: seq<Row>, j: nat, s: string)
  {
    exists i :: 0 <= i < |rows| && Cell(rows[i], j) == Some(s)
  }

  lemma {:induction false} ColumnValuesMem(rows: seq<Row>, j: nat, s: string)
    ensures s in ColumnValues(rows, j) <==> InColumn(rows, j, s)
    decreases |rows|
  {
    if rows != [] {
      var n := |rows| - 1;
      var p := rows[..n];
      ColumnValuesMem(p, j, s);
      assert forall i :: 0 <= i < n ==> p[i] == rows[i];
      if Cell(rows[n], j) == Some(s) {
        assert s in ColumnValues(rows, j);
      }
      if InColumn(p, j, s) {
        var i :| 0 <= i < n && Cell(p[i], j) == Some(s);
        assert Cell(rows[i], j) == Some(s);
      }
    }
  }

  /** Some row holds `s` in one of the columns `cols`. */
  ghost predicate InSomeColumn(rows: seq<Row>, cols: seq<nat>, s: string)
  {
    exists c :: c in cols && InColumn(rows, c, s)
  }

  lemma InSomeColumnStep(rows: seq<Row>, cols: seq<nat>, s: string)
    requires cols != []
    ensures InSomeColumn(rows, cols, s) <==>
              InSomeColumn(rows, cols[..|cols| - 1], s) || InColumn(rows, cols[|cols| - 1], s)
  {
    var n := |cols| - 1;
    var front := cols[..n];
    if InSomeColumn(rows, cols, s) {
      var c :| c in cols && InColumn(rows, c, s);
      if c != cols[n] {
        assert c in front by { assert cols == front + [cols[n]]; }
      }
    }
    if InSomeColumn(rows, front, s) {
      var c :| c in front && InColumn(rows, c, s);
      assert c in cols;
    }
  }

  lemma {:induction false} AllSymptomValuesMem(rows: seq<Row>, cols: seq<nat>, s: string)
    ensures s in AllSymptomValues(rows, cols) <==> InSomeColumn(rows, cols, s)
    decreases |cols|
  {
    if cols != [] {
      var n := |cols| - 1;
      var col := Unique(ColumnValues(rows, cols[n]));
      AllSymptomValuesMem(rows, cols[..n], s);
      ColumnValuesMem(rows, cols[n], s);
      assert s in col <==> s in ColumnValues(rows, cols[n]);
      assert AllSymptomValues(rows, cols) == AllSymptomValues(rows, cols[..n]) + col;
      InSomeColumnStep(rows, cols, s);
    }
  }

  /** `rel` is what the inner loop appends for one kept cell among `cols` of `row`. */
  ghost predicate FromRow(disease: string, row: Row, cols: seq<nat>, rel: Relationship)
  {
    exists c :: c in cols && Kept(Cell(row, c)) && rel == Relationship(disease, Cell(row, c).value, HAS_SYMPTOM)
  }

  /** `rel` is appended for some row. */
  ghost predicate FromRows(rows: seq<Row>, k: nat, cols: seq<nat>, rel: Relationship)
  {
    exists i :: 0 <= i < |rows| && FromRow(DiseaseOf(rows[i], k), rows[i], cols, rel)
  }

  lemma {:induction false} RowRelationshipsMem(disease: string, row: Row, cols: seq<nat>, rel: Relationship)
    ensures rel in RowRelationships(disease, row, cols) <==> FromRow(disease, row, cols, rel)
    decreases |cols|
  {
    if cols != [] {
      var n := |cols| - 1;
      var front := cols[..n];
      RowRelationshipsMem(disease, row, front, rel);
      assert cols == front + [cols[n]];
      if FromRow(disease, row, cols, rel) {
        var c :| c in cols && Kept(Cell(row, c)) && rel == Relationship(disease, Cell(row, c).value, HAS_SYMPTOM);
        if c != cols[n] {
          assert c in front;
        }
      }
    }
  }

  lemma {:induction false} RelationshipsMem(rows: seq<Row>, k: nat, cols: seq<nat>, rel: Relationship)
    ensures rel in Relationships(rows, k, cols) <==> FromRows(rows, k, cols, rel)
    decreases |rows|
  {
    if rows != [] {
      var n := |rows| - 1;
      var p := rows[..n];
      var last := rows[n];
      RelationshipsMem(p, k, cols, rel);
      RowRelationshipsMem(DiseaseOf(last, k), last, cols, rel);
      assert Relationships(rows, k, cols) == Relationships(p, k, cols) + RowRelationships(DiseaseOf(last, k), last, cols);
      FromRowsStep(rows, k, cols, rel);
    }
  }

  lemma FromRowsStep(rows: seq<Row>, k: nat, cols: seq<nat>, rel: Relationship)
    requires rows != []
    ensures FromRows(rows, k, cols, rel) <==>
              FromRows(rows[..|rows| - 1], k, cols, rel) || FromRow(DiseaseOf(rows[|rows| - 1], k), rows[|rows| - 1], cols, rel)
  {
    var n := |rows| - 1;
    var p := rows[..n];
    if FromRows(rows, k, cols, rel) {
      var i :| 0 <= i < |rows| && FromRow(DiseaseOf(rows[i], k), rows[i], cols, rel);
      if i < n {
        assert p[i] == rows[i];
      }
    }
    if FromRows(p, k, cols, rel) {
      var i :| 0 <= i < n && FromRow(DiseaseOf(p[i], k), p[i], cols, rel);
      assert p[i] == rows[i];
    }
  }

  lemma {:induction false} RowRelationshipsLength(disease: string, row: Row, cols: seq<nat>)
    ensures |RowRelationships(disease, row, cols)| <= |cols|
    decreases |cols|
  {
    if cols != [] {
      RowRelationshipsLength(disease, row, cols[..|cols| - 1]);
    }
  }

  lemma MulSucc(a: nat, b: nat)
    ensures (a + 1) * b == a * b + b
  {
  }

  lemma {:induction false} RelationshipsLength(rows: seq<Row>, k: nat, cols: seq<nat>)
    ensures |Relationships(rows, k, cols)| <= |rows| * |cols|
    decreases |rows|
  {
    if rows != [] {
      var n := |rows| - 1;
      var front := Relationships(rows[..n], k, cols);
      var last := RowRelationships(DiseaseOf(rows[n], k), rows[n], cols);
      RelationshipsLength(rows[..n], k, cols);
      RowRelationshipsLength(DiseaseOf(rows[n], k), rows[n], cols);
      assert |Relationships(rows, k, cols)| == |front| + |last|;
      MulSucc(n, |cols|);
    }
  }

  /** `df['Disease'].unique()`: each disease once, in order of first appearance. */
  lemma IngestDiseases(t: Table, d: string)
    requires DiseasesPresent(t) && Ingest(t).Success?
    ensures var ds := Ingest(t).value.diseases;
      && NoDup(ds)
      && (d in ds <==> exists i :: 0 <= i < |t.rows| && Cell(t.rows[i], IndexOf(t.header, DISEASE)) == Some(d))
      && forall a, b :: 0 <= a < b < |ds| ==>
           IndexOf(DiseaseColumn(t.rows, IndexOf(t.header, DISEASE)), ds[a])
             < IndexOf(DiseaseColumn(t.rows, IndexOf(t.header, DISEASE)), ds[b])
  {
    var k := IndexOf(t.header, DISEASE);
    DiseaseColumnMem(t.rows, k, d);
    forall a, b | 0 <= a < b < |Unique(DiseaseColumn(t.rows, k))|
      ensures IndexOf(DiseaseColumn(t.rows, k), Unique(DiseaseColumn(t.rows, k))[a])
                < IndexOf(DiseaseColumn(t.rows, k), Unique(DiseaseColumn(t.rows, k))[b])
    {
      UniqueOrder(DiseaseColumn(t.rows, k), a, b);
    }
  }

  /**
   * `np.unique` of the non-blank symptom cells: sorted without repetition,
   * and holding exactly the non-blank cells found in the Symptom_ columns.
   */
  lemma IngestSymptoms(t: Table, s: string)
    requires DiseasesPresent(t) && Ingest(t).Success?
    ensures StrictlySorted(Ingest(t).value.symptoms)
    ensures s in Ingest(t).value.symptoms <==>
              !IsBlank(s)
              && exists i, j :: 0 <= i < |t.rows| && 0 <= j < |t.header| && StartsWith(t.header[j], SYMPTOM_PREFIX)
                   && Cell(t.rows[i], j) == Some(s)
  {
    var cols := SymptomColumns(t.header);
    AllSymptomValuesMem(t.rows, cols, s);
    if s in Ingest(t).value.symptoms {
      var c :| c in cols && InColumn(t.rows, c, s);
      var i :| 0 <= i < |t.rows| && Cell(t.rows[i], c) == Some(s);
    }
    if exists i, j :: 0 <= i < |t.rows| && 0 <= j < |t.header| && StartsWith(t.header[j], SYMPTOM_PREFIX)
         && Cell(t.rows[i], j) == Some(s) {
      var i, j :| 0 <= i < |t.rows| && 0 <= j < |t.header| && StartsWith(t.header[j], SYMPTOM_PREFIX)
         && Cell(t.rows[i], j) == Some(s);
      assert InColumn(t.rows, j, s);
    }
  }

  /** `s` fills some Symptom_ cell of the table. */
  ghost predicate InSymptomCell(t: Table, s: string)
  {
    exists i, j :: 0 <= i < |t.rows| && 0 <= j < |t.header| && StartsWith(t.header[j], SYMPTOM_PREFIX)
      && Cell(t.rows[i], j) == Some(s)
  }

  /**
   * The symptom list is the one sorted listing of the non-blank symptom
   * cells: any strictly sorted list of exactly those values is that list.
   */
  lemma IngestSymptomsDetermined(t: Table, xs: seq<string>)
    requires DiseasesPresent(t) && Ingest(t).Success?
    requires StrictlySorted(xs)
    requires forall y :: y in xs <==> !IsBlank(y) && InSymptomCell(t, y)
    ensures xs == Ingest(t).value.symptoms
  {
    var symptoms := Ingest(t).value.symptoms;
    forall y
      ensures y in xs <==> y in symptoms
    {
      IngestSymptoms(t, y);
    }
    IngestSymptoms(t, "");
    SortedListingUnique(xs, symptoms);
  }

  lemma RelationshipsIff(rows: seq<Row>, k: nat, cols: seq<nat>, rel: Relationship)
    ensures rel in Relationships(rows, k, cols) <==>
              exists i, j :: 0 <= i < |rows| && j in cols && Kept(Cell(rows[i], j))
                && rel == Relationship(DiseaseOf(rows[i], k), Cell(rows[i], j).value, HAS_SYMPTOM)
  {
    RelationshipsMem(rows, k, cols, rel);
    if FromRows(rows, k, cols, rel) {
      var i :| 0 <= i < |rows| && FromRow(DiseaseOf(rows[i], k), rows[i], cols, rel);
      var j :| j in cols && Kept(Cell(rows[i], j)) && rel == Relationship(DiseaseOf(rows[i], k), Cell(rows[i], j).value, HAS_SYMPTOM);
    }
    if exists i, j :: 0 <= i < |rows| && j in cols && Kept(Cell(rows[i], j))
         && rel == Relationship(DiseaseOf(rows[i], k), Cell(rows[i], j).value, HAS_SYMPTOM) {
      var i, j :| 0 <= i < |rows| && j in cols && Kept(Cell(rows[i], j))
         && rel == Relationship(DiseaseOf(rows[i], k), Cell(rows[i], j).value, HAS_SYMPTOM);
      assert FromRow(DiseaseOf(rows[i], k), rows[i], cols, rel);
    }
  }

  /** One relationship per kept symptom cell, from that row's disease, typed HAS_SYMPTOM. */
  lemma IngestRelationships(t: Table, rel: Relationship)
    requires DiseasesPresent(t) && Ingest(t).Success?
    ensures var k := IndexOf(t.header, DISEASE);
      rel in Ingest(t).value.relationships <==>
        exists i, j :: 0 <= i < |t.rows| && j in SymptomColumns(t.header) && Kept(Cell(t.rows[i], j))
          && rel == Relationship(DiseaseOf(t.rows[i], k), Cell(t.rows[i], j).value, HAS_SYMPTOM)
  {
    var k := IndexOf(t.header, DISEASE);
    assert Ingest(t).value.relationships == Relationships(t.rows, k, SymptomColumns(t.header));
    RelationshipsIff(t.rows, k, SymptomColumns(t.header), rel);
  }

  /** At most one relationship per (row, symptom column) pair. */
  lemma IngestRelationshipsBound(t: Table)
    requires DiseasesPresent(t) && Ingest(t).Success?
    ensures |Ingest(t).value.relationships| <= |t.rows| * |SymptomColumns(t.header)|
  {
    var k := IndexOf(t.header, DISEASE);
    var cols := SymptomColumns(t.header);
    assert Ingest(t).value.relationships == Relationships(t.rows, k, cols);
    RelationshipsLength(t.rows, k, cols);
  }

  /** The positions (row, column) of the kept symptom cells of one row. */
  ghost function RowCells(i: int, row: Row, cols: seq<nat>): set<(int, nat)>
  {
    set j | j in cols && Kept(Cell(row, j)) :: (i, j)
  }

  /** The positions of all kept symptom cells. */
  ghost function KeptCells(rows: seq<Row>, cols: seq<nat>): set<(int, nat)>
  {
    set i, j | 0 <= i < |rows| && j in cols && Kept(Cell(rows[i], j)) :: (i, j)
  }

  lemma {:induction false} RowRelationshipsCount(disease: string, i: int, row: Row, cols: seq<nat>)
    requires NoDup(cols)
    ensures |RowRelationships(disease, row, cols)| == |RowCells(i, row, cols)|
    decreases |cols|
  {
    if cols != [] {
      var n := |cols| - 1;
      var front := cols[..n];
      assert NoDup(front);
      RowRelationshipsCount(disease, i, row, front);
      assert cols == front + [cols[n]];
      assert cols[n] !in front;
      if Kept(Cell(row, cols[n])) {
        assert RowCells(i, row, cols) == RowCells(i, row, front) + {(i, cols[n])};
      } else {
        assert RowCells(i, row, cols) == RowCells(i, row, front);
      }
    } else {
      assert RowCells(i, row, cols) == {};
    }
  }

  lemma KeptCellsStep(rows: seq<Row>, cols: seq<nat>)
    requires rows != []
    ensures KeptCells(rows, cols) == KeptCells(rows[..|rows| - 1], cols) + RowCells(|rows| - 1, rows[|rows| - 1], cols)
    ensures KeptCells(rows[..|rows| - 1], cols) * RowCells(|rows| - 1, rows[|rows| - 1], cols) == {}
  {
    var n := |rows| - 1;
    var p := rows[..n];
    forall e | e in KeptCells(rows, cols)
      ensures e in KeptCells(p, cols) + RowCells(n, rows[n], cols)
    {
      var i, j :| 0 <= i < |rows| && j in cols && Kept(Cell(rows[i], j)) && e == (i, j);
      if i < n {
        assert p[i] == rows[i];
      }
    }
    forall e | e in KeptCells(p, cols) ensures e in KeptCells(rows, cols) {
      var i, j :| 0 <= i < n && j in cols && Kept(Cell(p[i], j)) && e == (i, j);
      assert p[i] == rows[i];
    }
  }

  lemma {:induction false} RelationshipsCount(rows: seq<Row>, k: nat, cols: seq<nat>)
    requires NoDup(cols)
    ensures |Relationships(rows, k, cols)| == |KeptCells(rows, cols)|
    decreases |rows|
  {
    if rows != [] {
      var n := |rows| - 1;
      RelationshipsCount(rows[..n], k, cols);
      RowRelationshipsCount(DiseaseOf(rows[n], k), n, rows[n], cols);
      KeptCellsStep(rows, cols);
    } else {
      assert KeptCells(rows, cols) == {};
    }
  }

  /** The relationship list is not deduplicated: one entry per kept symptom cell. */
  lemma IngestRelationshipsCount(t: Table)
    requires DiseasesPresent(t) && Ingest(t).Success?
    ensures |Ingest(t).value.relationships| == |KeptCells(t.rows, SymptomColumns(t.header))|
  {
    var k := IndexOf(t.header, DISEASE);
    var cols := SymptomColumns(t.header);
    assert Ingest(t).value.relationships == Relationships(t.rows, k, cols);
    assert NoDup(cols);
    RelationshipsCount(t.rows, k, cols);
  }

  /** A table with a header and no rows gives three empty lists. */
  lemma IngestHeaderOnly(t: Table)
    requires DISEASE in t.header && t.rows == []
    ensures DiseasesPresent(t) && Ingest(t).Success?
    ensures Ingest(t).value == Ingested([], [], [])
  {
    var cols := SymptomColumns(t.header);
    assert AllSymptomValues(t.rows, cols) == [] by {
      AllSymptomValuesEmpty(cols);
    }
  }

  lemma {:induction false} AllSymptomValuesEmpty(cols: seq<nat>)
    ensures AllSymptomValues([], cols) == []
    decreases |cols|
  {
    if cols != [] {
      AllSymptomValuesEmpty(cols[..|cols| - 1]);
    }
  }

  lemma RelationshipsClosed(rows: seq<Row>, k: nat, cols: seq<nat>, rel: Relationship)
    requires rel in Relationships(rows, k, cols)
    ensures rel.source in DiseaseColumn(rows, k)
    ensures rel.target in NonBlank(AllSymptomValues(rows, cols))
    ensures rel.relType == HAS_SYMPTOM
  {
    RelationshipsMem(rows, k, cols, rel);
    var i :| 0 <= i < |rows| && FromRow(DiseaseOf(rows[i], k), rows[i], cols, rel);
    var c :| c in cols && Kept(Cell(rows[i], c)) && rel == Relationship(DiseaseOf(rows[i], k), Cell(rows[i], c).value, HAS_SYMPTOM);
    DiseaseColumnMem(rows, k, rel.source);
    assert InColumn(rows, c, rel.target);
    AllSymptomValuesMem(rows, cols, rel.target);
  }

  /** Every relationship joins a listed disease to a listed symptom. */
  lemma IngestClosed(t: Table, rel: Relationship)
    requires DiseasesPresent(t) && Ingest(t).Success?
    requires rel in Ingest(t).value.relationships
    ensures rel.source in Ingest(t).value.diseases
    ensures rel.target in Ingest(t).value.symptoms
    ensures rel.relType == HAS_SYMPTOM
  {
    var k := IndexOf(t.header, DISEASE);
    var cols := SymptomColumns(t.header);
    assert Ingest(t).value == Ingested(Unique(DiseaseColumn(t.rows, k)),
                                       SortedUnique(NonBlank(AllSymptomValues(t.rows, cols))),
                                       Relationships(t.rows, k, cols));
    RelationshipsClosed(t.rows, k, cols, rel);
  }
}
