/** Column values of a table row and the order `ORDER BY col ASC` sorts
    them in: integers, text (code-point lexicographic, which is PostgreSQL's
    order under the C collation only), booleans (false first), timestamps,
    and NULL after every other value, which is PostgreSQL's default
    placement for ascending order. */
module Values {

  datatype Value = IntVal(i: int) | StrVal(s: string) | BoolVal(b: bool) | TimeVal(t: nat) | Null

  function Rank(v: Value): nat {
    match v
    case IntVal(_) => 0
    case StrVal(_) => 1
    case BoolVal(_) => 2
    case TimeVal(_) => 3
    case Null => 4
  }

  /** Lexicographic order on strings: a proper prefix comes first. */
  predicate StrLt(a: string, b: string)
    decreases |a|
  {
    if a == [] then b != []
    else b != [] && (a[0] < b[0] || (a[0] == b[0] && StrLt(a[1..], b[1..])))
  }

  predicate ValueLt(a: Value, b: Value) {
    if Rank(a) != Rank(b) then Rank(a) < Rank(b)
    else match (a, b)
      case (IntVal(x), IntVal(y)) => x < y
      case (StrVal(x), StrVal(y)) => StrLt(x, y)
      case (BoolVal(x), BoolVal(y)) => !x && y
      case (TimeVal(x), TimeVal(y)) => x < y
      case _ => false
  }

  lemma {:induction false} StrLtIrreflexive(a: string)
    ensures !StrLt(a, a)
    decreases |a|
  {
    if a != [] { StrLtIrreflexive(a[1..]); }
  }

  lemma {:induction false} StrLtTransitive(a: string, b: string, c: string)
    requires StrLt(a, b) && StrLt(b, c)
    ensures StrLt(a, c)
    decreases |a|
  {
    if a != [] && a[0] == b[0] && b[0] == c[0] {
      StrLtTransitive(a[1..], b[1..], c[1..]);
    }
  }

  lemma {:induction false} StrLtTotal(a: string, b: string)
    requires a != b
    ensures StrLt(a, b) || StrLt(b, a)
    decreases |a|
  {
    if a != [] && b != [] && a[0] == b[0] {
      assert a == [a[0]] + a[1..] && b == [b[0]] + b[1..];
      StrLtTotal(a[1..], b[1..]);
    }
  }

  lemma ValueLtIrreflexive(a: Value)
    ensures !ValueLt(a, a)
  {
    if a.StrVal? { StrLtIrreflexive(a.s); }
  }

  lemma ValueLtTransitive(a: Value, b: Value, c: Value)
    requires ValueLt(a, b) && ValueLt(b, c)
    ensures ValueLt(a, c)
  {
    if a.StrVal? && b.StrVal? && c.StrVal? { StrLtTransitive(a.s, b.s, c.s); }
  }

  lemma ValueLtTotal(a: Value, b: Value)
    requires a != b
    ensures ValueLt(a, b) || ValueLt(b, a)
  {
    if a.StrVal? && b.StrVal? { StrLtTotal(a.s, b.s); }
  }
}
