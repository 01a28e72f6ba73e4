/** Dynamically typed values of the tracker's records.

    The application keeps every transaction, holding and provider answer as a
    Python dict whose values may be numbers, strings, booleans, None or the
    NaN that pandas puts in a missing cell. A dict is modelled as a map from
    key to `Cell`; the helpers here give Python's `dict.get`, truthiness and
    `str.upper` on those values. */
module Values {

  datatype Option<T> = None | Some(value: T)

  /** One value of a record, a DataFrame cell or a provider answer. */
  datatype Cell =
    | Num(x: real)     // an int or a finite float
    | Text(s: string)  // a str
    | Flag(b: bool)    // a bool
    | NoneValue        // Python's None
    | Undefined        // a float NaN or infinity, or pandas' NaT

  /** A Python dict with string keys. */
  type Record = map<string, Cell>

  /** `r.get(k)`: the value stored under `k`, or None when the key is absent. */
  function Get(r: Record, k: string): Cell {
    if k in r then r[k] else NoneValue
  }

  /** `r.get(k, d)`: the value stored under `k`, or `d` when the key is absent. */
  function GetOr(r: Record, k: string, d: Cell): Cell {
    if k in r then r[k] else d
  }

  /** Python truthiness: zero, the empty string, False and None are false;
      NaN and infinities are true. */
  predicate Truthy(c: Cell) {
    match c
    case Num(x) => x != 0.0
    case Text(s) => s != ""
    case Flag(b) => b
    case NoneValue => false
    case Undefined => true
  }

  /** Python's `a or b`: `a` when it is truthy, otherwise `b`. */
  function Or(a: Cell, b: Cell): (r: Cell)
    ensures Truthy(a) ==> r == a
    ensures !Truthy(a) ==> r == b
  {
    if Truthy(a) then a else b
  }

  /** Python's `c == 0`: true of the number zero and of False. */
  predicate EqualsZero(c: Cell) {
    c == Num(0.0) || c == Flag(false)
  }

  /** `str.upper` on one character, for the ASCII letters. */
  function UpperChar(c: char): char {
    if 'a' <= c <= 'z' then (c as int - 32) as char else c
  }

  predicate IsLowerAscii(c: char) {
    'a' <= c <= 'z'
  }

  /** `str.upper` for ASCII text: every lower-case ASCII letter becomes its
      capital, every other character is kept, and the length is unchanged. */
  function Upper(s: string): (u: string)
    ensures |u| == |s|
    ensures forall i :: 0 <= i < |s| ==> u[i] == UpperChar(s[i])
    ensures forall i :: 0 <= i < |u| ==> !IsLowerAscii(u[i])
  {
    seq(|s|, i requires 0 <= i < |s| => UpperChar(s[i]))
  }

  /** Upper-casing twice is upper-casing once. */
  lemma UpperIdempotent(s: string)
    ensures Upper(Upper(s)) == Upper(s)
  {
    var u := Upper(s);
    assert forall i :: 0 <= i < |u| ==> UpperChar(u[i]) == u[i];
  }
}
