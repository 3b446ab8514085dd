/** SQL values with null, and the total order that comparisons, zone maps and sort keys share. */
module SqlValues {

  /** Strings are sequences of UTF-16 code units, compared unit by unit. */
  type CodeUnit = u: nat | u < 0x10000

  /** Numbers are exact: integers stay within 2^53 and no value is NaN. */
  datatype Value =
    | Null
    | Num(n: real)
    | Str(s: seq<CodeUnit>)
    | Bool(b: bool)

  predicate SameType(a: Value, b: Value) {
    (a.Num? && b.Num?) || (a.Str? && b.Str?) || (a.Bool? && b.Bool?)
  }

  predicate LexLess(s: seq<CodeUnit>, t: seq<CodeUnit>) {
    t != [] && (s == [] || s[0] < t[0] || (s[0] == t[0] && LexLess(s[1..], t[1..])))
  }

  predicate Before(a: Value, b: Value)
    requires SameType(a, b)
  {
    match (a, b)
    case (Num(x), Num(y)) => x < y
    case (Str(s), Str(t)) => LexLess(s, t)
    case (Bool(x), Bool(y)) => !x && y
  }

  /** Texts compare by the first unit in which they differ; a proper prefix comes first. */
  lemma {:induction false} LexFirstDifference(s: seq<CodeUnit>, t: seq<CodeUnit>)
    ensures LexLess(s, t) <==> s < t || exists i :: 0 <= i < |s| && i < |t| && s[..i] == t[..i] && s[i] < t[i]
  {
    if s != [] && t != [] && s[0] == t[0] {
      var u, v := s[1..], t[1..];
      LexFirstDifference(u, v);
      assert s == [s[0]] + u && t == [t[0]] + v;
      if i :| 0 <= i < |u| && i < |v| && u[..i] == v[..i] && u[i] < v[i] {
        assert s[..i + 1] == [s[0]] + u[..i] && t[..i + 1] == [t[0]] + v[..i] && s[i + 1] < t[i + 1];
      }
      if i :| 0 <= i < |s| && i < |t| && s[..i] == t[..i] && s[i] < t[i] {
        assert i > 0 && u[..i - 1] == s[..i][1..] && v[..i - 1] == t[..i][1..] && u[i - 1] < v[i - 1];
      }
    } else if s != [] && t != [] {
      if s[0] < t[0] { assert s[..0] == t[..0]; }
    }
  }

  lemma {:induction false} LexTotal(s: seq<CodeUnit>, t: seq<CodeUnit>)
    ensures !(LexLess(s, t) && LexLess(t, s))
    ensures !LexLess(s, t) && !LexLess(t, s) ==> s == t
  {
    if s != [] && t != [] {
      LexTotal(s[1..], t[1..]);
      if s[0] == t[0] && s[1..] == t[1..] {
        assert s == [s[0]] + s[1..] && t == [t[0]] + t[1..];
      }
    }
  }

  lemma {:induction false} LexTransitive(s: seq<CodeUnit>, t: seq<CodeUnit>, u: seq<CodeUnit>)
    requires LexLess(s, t) && LexLess(t, u)
    ensures LexLess(s, u)
  {
    if s != [] && s[0] == t[0] && t[0] == u[0] { LexTransitive(s[1..], t[1..], u[1..]); }
  }

  /** Values of one type are totally ordered by Before. */
  lemma {:induction false} BeforeTotal(a: Value, b: Value)
    requires SameType(a, b)
    ensures !(Before(a, b) && Before(b, a))
    ensures !Before(a, b) && !Before(b, a) ==> a == b
  {
    if a.Str? { LexTotal(a.s, b.s); }
  }

  lemma {:induction false} BeforeTransitive(a: Value, b: Value, c: Value)
    requires SameType(a, b) && SameType(b, c)
    ensures Before(a, b) && Before(b, c) ==> Before(a, c)
  {
    if a.Str? && Before(a, b) && Before(b, c) { LexTransitive(a.s, b.s, c.s); }
  }

  /** Chaining a strict with a non-strict step in either order. */
  lemma {:induction false} BeforeChain(a: Value, b: Value, c: Value)
    requires SameType(a, b) && SameType(b, c)
    ensures !Before(b, a) && Before(b, c) ==> Before(a, c)
    ensures Before(a, b) && !Before(c, b) ==> Before(a, c)
    ensures !Before(b, a) && !Before(c, b) ==> !Before(c, a)
  {
    BeforeTotal(a, b);
    BeforeTotal(b, c);
    BeforeTotal(a, c);
    BeforeTransitive(a, b, c);
    BeforeTransitive(c, a, b);
    BeforeTransitive(b, c, a);
    BeforeTransitive(c, b, a);
  }

  // ---------- comparison operators ----------

  datatype CompareOp = Eq | Ne | Lt | Le | Gt | Ge

  predicate Holds(op: CompareOp, a: Value, b: Value)
    requires SameType(a, b)
  {
    match op
    case Eq => a == b
    case Ne => a != b
    case Lt => Before(a, b)
    case Le => !Before(b, a)
    case Gt => Before(b, a)
    case Ge => !Before(a, b)
  }

  function Flipped(op: CompareOp): CompareOp {
    match op
    case Eq => Eq
    case Ne => Ne
    case Lt => Gt
    case Le => Ge
    case Gt => Lt
    case Ge => Le
  }

  lemma {:induction false} FlippedHolds(op: CompareOp, a: Value, b: Value)
    requires SameType(a, b)
    ensures Holds(Flipped(op), b, a) == Holds(op, a, b)
  {}

  /** What the operators say of numbers. */
  lemma {:induction false} NumbersCompare(x: real, y: real)
    ensures Holds(Eq, Num(x), Num(y)) <==> x == y
    ensures Holds(Ne, Num(x), Num(y)) <==> x != y
    ensures Holds(Lt, Num(x), Num(y)) <==> x < y
    ensures Holds(Le, Num(x), Num(y)) <==> x <= y
    ensures Holds(Gt, Num(x), Num(y)) <==> x > y
    ensures Holds(Ge, Num(x), Num(y)) <==> x >= y
  {}
}
