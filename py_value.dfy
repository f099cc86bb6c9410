/** The slice of Python's dynamic values that the quiz structures inspect:
    truthiness (`x if x else d`, `if not x`), `isinstance(x, str)`,
    `isinstance(x, bool)`, `x or y` and `str.lower()`. */
module PyValue {

  datatype Option<+T> = None | Some(value: T)

  /** The outcome of a Python expression that either yields a value or raises
      `TypeError` (for instance `'a' + 5`). */
  datatype Outcome<+T> = Value(value: T) | TypeError

  /** A Python value. `PObject` stands for every other object (a float, a
      list, a `uuid.UUID`, ...) and records only its truth value. */
  datatype Val =
    | PNone
    | PBool(b: bool)
    | PInt(i: int)
    | PStr(s: string)
    | PObject(truthy: bool)

  /** Python's truth value: `None`, `False`, `0` and `''` are false. */
  predicate Truthy(v: Val)
    ensures !Truthy(v) <==> v in {PNone, PBool(false), PInt(0), PStr(""), PObject(false)}
  {
    match v
    case PNone => false
    case PBool(b) => b
    case PInt(i) => i != 0
    case PStr(s) => s != ""
    case PObject(t) => t
  }

  /** `a or b`: Python returns the first operand when it is truthy, else the second. */
  function Or(a: Val, b: Val): (r: Val)
    ensures Truthy(r) <==> Truthy(a) || Truthy(b)
    ensures r == a || r == b
  {
    if Truthy(a) then a else b
  }

  /** The falsy-default idiom `v if v else default`. */
  function OrElse(v: Val, default: Val): Val
  {
    if Truthy(v) then v else default
  }

  function LowerChar(c: char): char
  {
    if 'A' <= c <= 'Z' then (c as int + 32) as char else c
  }

  /** `s.lower()` on the ASCII letters. */
  function Lower(s: string): (r: string)
    ensures |r| == |s|
    ensures forall i :: 0 <= i < |s| ==> r[i] == LowerChar(s[i])
    ensures forall i :: 0 <= i < |r| ==> !('A' <= r[i] <= 'Z')
  {
    seq(|s|, i requires 0 <= i < |s| => LowerChar(s[i]))
  }

  /** Lower-casing twice is lower-casing once. */
  lemma LowerIdempotent(s: string)
    ensures Lower(Lower(s)) == Lower(s)
  {
  }
}
