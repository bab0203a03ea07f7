/** Cells of the customer dataset and how Python compares them. */
module Values {

  datatype Option<T> = None | Some(value: T)

  /** One decoded cell of the dataset: an integer, a string or a boolean. */
  datatype Value = VInt(i: int) | VStr(s: string) | VBool(b: bool)

  /** The number a cell stands for in Python comparisons and arithmetic.
      `bool` is a subclass of `int`, so False is 0 and True is 1; a string is no number. */
  function NumericValue(v: Value): Option<int>
  {
    match v
    case VInt(i) => Some(i)
    case VBool(b) => Some(if b then 1 else 0)
    case VStr(_) => None
  }

  /** Python's `==` between two cells: numbers and booleans compare by their numeric value,
      a string equals only the same string. */
  predicate PyEq(a: Value, b: Value)
  {
    if a.VStr? || b.VStr? then a == b else NumericValue(a) == NumericValue(b)
  }

  /** Python's `==` is an equivalence on cells, so a replacement table's keys behave like
      dictionary keys. */
  lemma PyEqEquivalence(a: Value, b: Value, c: Value)
    ensures PyEq(a, a)
    ensures PyEq(a, b) ==> PyEq(b, a)
    ensures PyEq(a, b) && PyEq(b, c) ==> PyEq(a, c)
  {
  }
}
