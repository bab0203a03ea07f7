/** The transformation: projection, recoding, classification and the row cap, each over the
    whole table, applied in the script's order. */
module Transformation {
  import opened Values
  import opened Recoding
  import opened Tiers
  import opened Frames

  /** The columns of `wanted` that `present` lacks, in the order of `wanted`. */
  function Absent(wanted: seq<string>, present: seq<string>): (m: seq<string>)
    ensures |m| <= |wanted|
    ensures forall c :: c in m <==> c in wanted && c !in present
  {
    if wanted == [] then []
    else (if wanted[0] in present then [] else [wanted[0]]) + Absent(wanted[1..], present)
  }

  /** The row has a cell for every projected column. */
  predicate HasProjected(row: RawRow)
  {
    && "customerID" in row && "gender" in row && "SeniorCitizen" in row
    && "Partner" in row && "Dependents" in row && "tenure" in row
  }

  /** A row whose keys are a header naming every projected column has every projected cell. */
  lemma HasProjectedFromHeader(row: RawRow, header: seq<string>)
    requires row.Keys == set c | c in header
    requires Absent(ProjectedColumns, header) == []
    ensures HasProjected(row)
  {
    forall k | 0 <= k < |ProjectedColumns| ensures ProjectedColumns[k] in row {
      assert ProjectedColumns[k] in ProjectedColumns;
    }
  }

  /** One row restricted to the six projected cells. */
  function ProjectRow(row: RawRow): (c: Customer)
    requires HasProjected(row)
    ensures forall k :: 0 <= k < |ProjectedColumns| ==> Cell(c, k) == row[ProjectedColumns[k]]
  {
    Customer(row["customerID"], row["gender"], row["SeniorCitizen"],
             row["Partner"], row["Dependents"], row["tenure"])
  }

  /** Column selection `df[[...]]`: the header must name all six columns, otherwise the
      selection fails listing the absent ones; every row is kept, in order, with exactly the
      six selected cells. */
  function Project(f: Frame): (r: Result<seq<Customer>>)
    ensures r.Err? <==> exists c :: c in ProjectedColumns && c !in f.columns
    ensures r.Err? ==> r.error == KeyError(Absent(ProjectedColumns, f.columns))
    ensures r.Ok? ==> |r.value| == |f.rows|
    ensures r.Ok? ==> forall i :: 0 <= i < |f.rows| ==> HasProjected(f.rows[i])
    ensures r.Ok? ==> forall i, k :: 0 <= i < |f.rows| && 0 <= k < |ProjectedColumns| ==>
                        ProjectedColumns[k] in f.rows[i] && Cell(r.value[i], k) == f.rows[i][ProjectedColumns[k]]
  {
    var missing := Absent(ProjectedColumns, f.columns);
    if missing != [] then
      assert missing[0] in missing;
      Err(KeyError(missing))
    else
      assert forall i :: 0 <= i < |f.rows| ==> HasProjected(f.rows[i]) by {
        forall i | 0 <= i < |f.rows| ensures HasProjected(f.rows[i]) {
          HasProjectedFromHeader(f.rows[i], f.columns);
        }
      }
      Ok(seq(|f.rows|, i requires 0 <= i < |f.rows| && HasProjected(f.rows[i]) => ProjectRow(f.rows[i])))
  }

  /** The position of a projected column. */
  function ColumnIndex(name: string): (k: nat)
    requires name in ProjectedColumns
    ensures k < |ProjectedColumns| && ProjectedColumns[k] == name
  {
    if name == "customerID" then 0
    else if name == "gender" then 1
    else if name == "SeniorCitizen" then 2
    else if name == "Partner" then 3
    else if name == "Dependents" then 4
    else 5
  }

  /** `df[name] = df[name].replace(m)`: in every row the named cell is replaced through `m` and
      every other cell is kept; rows keep their order. */
  function RecodeColumn(rows: seq<Customer>, name: string, m: Mapping): (r: seq<Customer>)
    requires name in ProjectedColumns
    ensures |r| == |rows|
    ensures forall i :: 0 <= i < |rows| ==> Cell(r[i], ColumnIndex(name)) == Replace(Cell(rows[i], ColumnIndex(name)), m)
    ensures forall i, j :: 0 <= i < |rows| && 0 <= j < |ProjectedColumns| && j != ColumnIndex(name) ==>
              Cell(r[i], j) == Cell(rows[i], j)
  {
    var k := ColumnIndex(name);
    Map((c: Customer) => WithCell(c, k, Replace(Cell(c, k), m)), rows)
  }

  /** Recoding a column whose replacements the table leaves alone a second time changes nothing. */
  lemma RecodeColumnIdempotent(rows: seq<Customer>, name: string, m: Mapping)
    requires name in ProjectedColumns
    requires forall t :: t in Targets(m) ==> Replace(t, m) == t
    ensures RecodeColumn(RecodeColumn(rows, name, m), name, m) == RecodeColumn(rows, name, m)
  {
    var once := RecodeColumn(rows, name, m);
    var twice := RecodeColumn(once, name, m);
    var k := ColumnIndex(name);
    forall i | 0 <= i < |rows| ensures twice[i] == once[i] {
      ReplaceIdempotent(Cell(rows[i], k), m);
      CellsDetermineRow(twice[i], once[i]);
    }
  }

  /** Lines 34, 37 and 38 applied a second time change nothing. */
  lemma RecodingIdempotent(rows: seq<Customer>)
    ensures RecodeColumn(RecodeColumn(rows, "SeniorCitizen", SeniorCitizenMapping), "SeniorCitizen", SeniorCitizenMapping)
         == RecodeColumn(rows, "SeniorCitizen", SeniorCitizenMapping)
    ensures RecodeColumn(RecodeColumn(rows, "Partner", YesNoMapping), "Partner", YesNoMapping)
         == RecodeColumn(rows, "Partner", YesNoMapping)
    ensures RecodeColumn(RecodeColumn(rows, "Dependents", YesNoMapping), "Dependents", YesNoMapping)
         == RecodeColumn(rows, "Dependents", YesNoMapping)
  {
    MappingsFixTheirTargets();
    RecodeColumnIdempotent(rows, "SeniorCitizen", SeniorCitizenMapping);
    RecodeColumnIdempotent(rows, "Partner", YesNoMapping);
    RecodeColumnIdempotent(rows, "Dependents", YesNoMapping);
  }

  /** The tenure cell as a number, when Python can compare it with one. */
  function Tenure(c: Customer): Option<int>
  {
    NumericValue(c.tenure)
  }

  /** `df['classification'] = df['tenure'].apply(classify_customers)`: every row gets the band
      of its own tenure and keeps its cells and its place; the first row whose tenure is a
      string raises, and then no rows are produced. */
  function AddClassification(rows: seq<Customer>): (r: Result<seq<Classified>>)
    ensures r.Ok? ==> |r.value| == |rows|
    ensures r.Ok? ==> forall i :: 0 <= i < |rows| ==>
              r.value[i].customer == rows[i] && Tenure(rows[i]).Some? &&
              r.value[i].classification == Classify(Tenure(rows[i]).value)
    ensures r.Err? ==> r.error.TypeError? && r.error.row < |rows| && Tenure(rows[r.error.row]).None?
    ensures r.Err? ==> forall j :: 0 <= j < r.error.row ==> Tenure(rows[j]).Some?
  {
    if rows == [] then Ok([])
    else
      match Tenure(rows[0])
      case None => Err(TypeError(0))
      case Some(t) =>
        match AddClassification(rows[1..])
        case Err(e) =>
          assert forall j :: 1 <= j < e.row + 1 ==> rows[j] == rows[1..][j - 1];
          Err(TypeError(e.row + 1))
        case Ok(rest) =>
          Ok([Classified(rows[0], Classify(t))] + rest)
  }

  /** Lines 34 to 38: SeniorCitizen, Partner and Dependents recoded, in every row, by their
      dictionaries; customerID, gender and tenure untouched; rows keep their order. */
  function Recode(rows: seq<Customer>): (r: seq<Customer>)
    ensures |r| == |rows|
    ensures forall i :: 0 <= i < |rows| ==>
              r[i] == Customer(rows[i].customerID, rows[i].gender,
                               RecodeSeniorCitizen(rows[i].seniorCitizen),
                               RecodeYesNo(rows[i].partner), RecodeYesNo(rows[i].dependents),
                               rows[i].tenure)
  {
    var s1 := RecodeColumn(rows, "SeniorCitizen", SeniorCitizenMapping);
    var s2 := RecodeColumn(s1, "Partner", YesNoMapping);
    var s3 := RecodeColumn(s2, "Dependents", YesNoMapping);
    assert forall i :: 0 <= i < |rows| ==>
             s3[i] == Customer(rows[i].customerID, rows[i].gender,
                               RecodeSeniorCitizen(rows[i].seniorCitizen),
                               RecodeYesNo(rows[i].partner), RecodeYesNo(rows[i].dependents),
                               rows[i].tenure) by {
      forall i | 0 <= i < |rows|
        ensures s3[i] == Customer(rows[i].customerID, rows[i].gender,
                                  RecodeSeniorCitizen(rows[i].seniorCitizen),
                                  RecodeYesNo(rows[i].partner), RecodeYesNo(rows[i].dependents),
                                  rows[i].tenure)
      {
        assert Cell(s1[i], 2) == RecodeSeniorCitizen(Cell(rows[i], 2));
        assert Cell(s2[i], 3) == RecodeYesNo(Cell(s1[i], 3));
        assert Cell(s3[i], 4) == RecodeYesNo(Cell(s2[i], 4));
        assert Cell(s3[i], 0) == Cell(s2[i], 0) == Cell(s1[i], 0) == Cell(rows[i], 0);
        assert Cell(s3[i], 1) == Cell(s2[i], 1) == Cell(s1[i], 1) == Cell(rows[i], 1);
        assert Cell(s3[i], 2) == Cell(s2[i], 2) == Cell(s1[i], 2);
        assert Cell(s3[i], 3) == Cell(s2[i], 3) && Cell(s1[i], 3) == Cell(rows[i], 3);
        assert Cell(s2[i], 4) == Cell(s1[i], 4) == Cell(rows[i], 4);
        assert Cell(s3[i], 5) == Cell(s2[i], 5) == Cell(s1[i], 5) == Cell(rows[i], 5);
      }
    }
    s3
  }

  /** The whole transformation, lines 31 to 57. */
  function Transform(f: Frame): (r: Result<seq<Classified>>)
    ensures r.Ok? ==> |r.value| == Min(|f.rows|, RowCap)
  {
    match Project(f)
    case Err(e) => Err(e)
    case Ok(projected) =>
      match AddClassification(Recode(projected))
      case Err(e) => Err(e)
      case Ok(classified) => Ok(Head(classified, RowCap))
  }

  /** The row's tenure cell can be compared with a number. */
  predicate NumericTenure(row: RawRow)
  {
    "tenure" in row && NumericValue(row["tenure"]).Some?
  }

  /** Reference for one row, computed row by row rather than column by column: the seven
      values the load receives for it. */
  function ExpectedTuple(row: RawRow): seq<Value>
    requires HasProjected(row) && NumericTenure(row)
  {
    [row["customerID"], row["gender"], RecodeSeniorCitizen(row["SeniorCitizen"]),
     RecodeYesNo(row["Partner"]), RecodeYesNo(row["Dependents"]), row["tenure"],
     VStr(Classify(NumericValue(row["tenure"]).value))]
  }

  /** A projected row, seen from the raw row it came from. */
  lemma ProjectedRow(f: Frame, p: seq<Customer>, i: nat)
    requires Project(f) == Ok(p) && i < |p|
    ensures HasProjected(f.rows[i])
    ensures p[i] == Customer(f.rows[i]["customerID"], f.rows[i]["gender"], f.rows[i]["SeniorCitizen"],
                             f.rows[i]["Partner"], f.rows[i]["Dependents"], f.rows[i]["tenure"])
  {
    var c := p[i];
    assert Cell(c, 0) == f.rows[i][ProjectedColumns[0]];
    assert Cell(c, 1) == f.rows[i][ProjectedColumns[1]];
    assert Cell(c, 2) == f.rows[i][ProjectedColumns[2]];
    assert Cell(c, 3) == f.rows[i][ProjectedColumns[3]];
    assert Cell(c, 4) == f.rows[i][ProjectedColumns[4]];
    assert Cell(c, 5) == f.rows[i][ProjectedColumns[5]];
  }

  /** A projected and recoded row, seen from the raw row it came from. */
  lemma RecodedRow(f: Frame, p: seq<Customer>, i: nat)
    requires Project(f) == Ok(p) && i < |p|
    ensures HasProjected(f.rows[i])
    ensures Recode(p)[i] == Customer(f.rows[i]["customerID"], f.rows[i]["gender"],
                                     RecodeSeniorCitizen(f.rows[i]["SeniorCitizen"]),
                                     RecodeYesNo(f.rows[i]["Partner"]), RecodeYesNo(f.rows[i]["Dependents"]),
                                     f.rows[i]["tenure"])
  {
    ProjectedRow(f, p, i);
  }

  /** A header lacking a selected column fails at the selection, before anything else. */
  lemma TransformMissingColumn(f: Frame)
    requires exists c :: c in ProjectedColumns && c !in f.columns
    ensures Transform(f) == Err(KeyError(Absent(ProjectedColumns, f.columns)))
  {
  }

  /** With the columns present, the first row with a string tenure, among all rows and not only
      the first hundred, makes the whole transformation fail. */
  lemma TransformTypeError(f: Frame, j: nat)
    requires forall c :: c in ProjectedColumns ==> c in f.columns
    requires j < |f.rows| && !NumericTenure(f.rows[j])
    requires forall i :: 0 <= i < j ==> NumericTenure(f.rows[i])
    ensures Transform(f) == Err(TypeError(j))
  {
    var p := Project(f).value;
    var recoded := Recode(p);
    var a := AddClassification(recoded);
    RecodedTenuresNumeric(f, p, j);
    RecodedRow(f, p, j);
    assert Tenure(recoded[j]).None?;
    assert a.Err? && a.error.row == j;
    TransformUnfolds(f, p);
  }

  /** The first `n` recoded rows have numeric tenures when their raw rows do. */
  lemma RecodedTenuresNumeric(f: Frame, p: seq<Customer>, n: nat)
    requires Project(f) == Ok(p) && n <= |p|
    requires forall i :: 0 <= i < n ==> NumericTenure(f.rows[i])
    ensures forall i :: 0 <= i < n ==> Tenure(Recode(p)[i]).Some?
  {
    forall i | 0 <= i < n ensures Tenure(Recode(p)[i]).Some? {
      RecodedRow(f, p, i);
    }
  }

  /** A classified row carries the reference values of the raw row it came from. */
  lemma ClassifiedRow(f: Frame, p: seq<Customer>, c: Classified, i: nat)
    requires Project(f) == Ok(p) && i < |p| && NumericTenure(f.rows[i])
    requires c.customer == Recode(p)[i] && c.classification == Classify(Tenure(Recode(p)[i]).value)
    ensures HasProjected(f.rows[i]) && Tuple(c) == ExpectedTuple(f.rows[i])
  {
    RecodedRow(f, p, i);
    TupleCells(c);
  }

  /** Once selection succeeds, a classification failure is the result; otherwise the result is
      the first hundred classified rows. */
  lemma TransformUnfolds(f: Frame, p: seq<Customer>)
    requires Project(f) == Ok(p)
    ensures AddClassification(Recode(p)).Err? ==> Transform(f) == Err(AddClassification(Recode(p)).error)
    ensures AddClassification(Recode(p)).Ok? ==> Transform(f) == Ok(Head(AddClassification(Recode(p)).value, RowCap))
  {
  }

  /** With the columns present and every tenure numeric, the result is the first
      min(N, 100) rows, in order, each carrying exactly the reference values of its raw row. */
  lemma TransformOk(f: Frame)
    requires forall c :: c in ProjectedColumns ==> c in f.columns
    requires forall i :: 0 <= i < |f.rows| ==> NumericTenure(f.rows[i])
    ensures Transform(f).Ok?
    ensures |Transform(f).value| == Min(|f.rows|, RowCap)
    ensures forall i :: 0 <= i < |Transform(f).value| ==>
              HasProjected(f.rows[i]) && Tuple(Transform(f).value[i]) == ExpectedTuple(f.rows[i])
  {
    var p := Project(f).value;
    RecodedTenuresNumeric(f, p, |p|);
    var a := AddClassification(Recode(p));
    var out := Head(a.value, RowCap);
    TransformUnfolds(f, p);
    forall i | 0 <= i < |out|
      ensures HasProjected(f.rows[i]) && Tuple(out[i]) == ExpectedTuple(f.rows[i])
    {
      assert out[i] == a.value[i];
      ClassifiedRow(f, p, out[i], i);
    }
  }
}
