/** The in-memory table the transformation works on, its records and its failures. */
module Frames {
  import opened Values

  /** A decoded row: column name to cell. */
  type RawRow = map<string, Value>

  /** A decoded table: its header and its rows in file order. */
  datatype RawFrame = RawFrame(columns: seq<string>, rows: seq<RawRow>)

  /** Every row has a cell for every header column and for no other column. */
  predicate Rectangular(f: RawFrame)
  {
    forall i :: 0 <= i < |f.rows| ==> f.rows[i].Keys == set c | c in f.columns
  }

  /** A table as CSV decoding produces it: always rectangular. */
  type Frame = f: RawFrame | Rectangular(f) witness RawFrame([], [])

  /** The failures the run can raise. */
  datatype Error =
    | KeyError(missing: seq<string>)  // selected columns absent from the header
    | TypeError(row: nat)             // the first row whose tenure cannot be compared with a number
    | ConnectionError                 // the warehouse could not be reached
    | DatabaseError(statement: nat)   // the position in the session of the statement the warehouse rejected

  datatype Result<T> = Ok(value: T) | Err(error: Error)

  /** The columns kept by the projection, in the order they are listed. */
  const ProjectedColumns: seq<string> := ["customerID", "gender", "SeniorCitizen", "Partner", "Dependents", "tenure"]

  /** The column the classification step adds. */
  const ClassificationColumn: string := "classification"

  /** The column list of the INSERT statement. */
  const InsertColumns: seq<string> :=
    ["customerID", "gender", "SeniorCitizen", "Partner", "Dependents", "tenure", "classification"]

  /** The number of rows kept for loading. */
  const RowCap: nat := 100

  /** A row after the projection: the six selected cells. */
  datatype Customer = Customer(customerID: Value, gender: Value, seniorCitizen: Value,
                               partner: Value, dependents: Value, tenure: Value)

  /** A row after the classification step: the six cells and the band label. */
  datatype Classified = Classified(customer: Customer, classification: string)

  /** Cell `k` of a customer row, the one of column `ProjectedColumns[k]`. */
  function Cell(c: Customer, k: nat): Value
    requires k < |ProjectedColumns|
  {
    if k == 0 then c.customerID
    else if k == 1 then c.gender
    else if k == 2 then c.seniorCitizen
    else if k == 3 then c.partner
    else if k == 4 then c.dependents
    else c.tenure
  }

  /** A customer row is determined by its cells. */
  lemma CellsDetermineRow(a: Customer, b: Customer)
    requires forall k :: 0 <= k < |ProjectedColumns| ==> Cell(a, k) == Cell(b, k)
    ensures a == b
  {
    assert Cell(a, 0) == Cell(b, 0) && Cell(a, 1) == Cell(b, 1) && Cell(a, 2) == Cell(b, 2);
    assert Cell(a, 3) == Cell(b, 3) && Cell(a, 4) == Cell(b, 4) && Cell(a, 5) == Cell(b, 5);
  }

  /** The cells of a customer row in column order. */
  function Fields(c: Customer): (vs: seq<Value>)
    ensures |vs| == |ProjectedColumns|
    ensures forall k :: 0 <= k < |ProjectedColumns| ==> vs[k] == Cell(c, k)
  {
    [c.customerID, c.gender, c.seniorCitizen, c.partner, c.dependents, c.tenure]
  }

  /** The row with cell `k` replaced by `v` and every other cell kept. */
  function WithCell(c: Customer, k: nat, v: Value): (d: Customer)
    requires k < |ProjectedColumns|
    ensures Cell(d, k) == v
    ensures forall j :: 0 <= j < |ProjectedColumns| && j != k ==> Cell(d, j) == Cell(c, j)
  {
    if k == 0 then c.(customerID := v)
    else if k == 1 then c.(gender := v)
    else if k == 2 then c.(seniorCitizen := v)
    else if k == 3 then c.(partner := v)
    else if k == 4 then c.(dependents := v)
    else c.(tenure := v)
  }

  /** The parameters an INSERT receives for a row: its cells in the table's column order. */
  function Tuple(c: Classified): (vs: seq<Value>)
    ensures |vs| == |InsertColumns|
  {
    Fields(c.customer) + [VStr(c.classification)]
  }

  /** Parameter `k` of a row's INSERT is the row's cell of column `InsertColumns[k]`: the
      INSERT's column list is the classified table's columns, the projected ones followed by the
      added one, so each parameter lands in the column of its name. */
  lemma TupleCells(c: Classified)
    ensures ProjectedColumns + [ClassificationColumn] == InsertColumns
    ensures forall k :: 0 <= k < |ProjectedColumns| ==>
              InsertColumns[k] == ProjectedColumns[k] && Tuple(c)[k] == Cell(c.customer, k)
    ensures InsertColumns[|ProjectedColumns|] == ClassificationColumn
    ensures Tuple(c)[|ProjectedColumns|] == VStr(c.classification)
  {
  }

  /** `f` applied to every element, order and length kept. */
  function Map<A, B>(f: A -> B, s: seq<A>): (r: seq<B>)
    ensures |r| == |s|
    ensures forall i :: 0 <= i < |s| ==> r[i] == f(s[i])
  {
    if s == [] then [] else [f(s[0])] + Map(f, s[1..])
  }

  function Min(a: int, b: int): int
  {
    if a <= b then a else b
  }

  /** `head(n)`: the first `n` elements, or all of them when there are fewer. */
  function Head<T>(s: seq<T>, n: nat): (r: seq<T>)
    ensures |r| == Min(|s|, n)
    ensures r <= s
  {
    if |s| <= n then s else s[..n]
  }
}
