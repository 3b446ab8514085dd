/** What the row evaluator's operators mean: three-valued tables, membership, and LIKE by cutting up the text. */
module RowMeaning {
  import opened SqlValues
  import opened RowEval

  /** False, unknown and true in ascending order. */
  function Truth(v: Value): int
    requires v == Null || v.Bool?
  {
    if v == Null then 1 else if v.b then 2 else 0
  }

  /** AND is the least and OR the greatest of the two, NOT turns the order round (ISO/IEC 9075:1992, section 8.12). */
  lemma {:induction false} TruthTables(a: Value, b: Value)
    requires (a == Null || a.Bool?) && (b == Null || b.Bool?)
    ensures Truth(AndValues(a, b)) == if Truth(a) < Truth(b) then Truth(a) else Truth(b)
    ensures Truth(OrValues(a, b)) == if Truth(a) < Truth(b) then Truth(b) else Truth(a)
    ensures Truth(NotValue(a)) == 2 - Truth(a)
    ensures Truthy(a) <==> Truth(a) == 2
  {}

  /** Comparisons, BETWEEN and IN over numbers. */
  lemma {:induction false} NumbersInBetween(host: Host, x: real, low: real, high: real, literals: seq<Value>)
    ensures BetweenValues(host, Num(x), Num(low), Num(high)) == Bool(low <= x <= high)
    ensures CompareValues(host, Eq, Num(x), Num(high)) == Bool(x == high)
    ensures CompareValues(host, Ne, Num(x), Num(high)) == Bool(x != high)
    ensures CompareValues(host, Lt, Num(x), Num(high)) == Bool(x < high)
    ensures CompareValues(host, Gt, Num(x), Num(high)) == Bool(x > high)
    ensures CompareValues(host, Le, Num(x), Num(high)) == Bool(x <= high)
    ensures CompareValues(host, Ge, Num(x), Num(high)) == Bool(x >= high)
    ensures InLiterals(Num(x), literals) == Bool(true) <==> Num(x) in literals
    ensures InLiterals(Num(x), literals) == Bool(false) <==> Num(x) !in literals && Null !in literals
    ensures InLiterals(Null, literals) == Null
  {}

  // ---------- LIKE ----------

  /** The piece of the text that one unit of the pattern stands for. */
  predicate Fits(unit: CodeUnit, piece: seq<CodeUnit>) {
    if unit == PERCENT then forall u :: u in piece ==> !LineTerminator(u)
    else |piece| == 1 && if unit == UNDERSCORE then !LineTerminator(piece[0]) else piece[0] == unit
  }

  /** The piece between two cuts fits its unit. */
  predicate FitsAt(pattern: seq<CodeUnit>, text: seq<CodeUnit>, cuts: seq<nat>, i: nat)
    requires i < |pattern| && |cuts| == |pattern| + 1
  {
    cuts[i] <= cuts[i + 1] <= |text| && Fits(pattern[i], text[cuts[i]..cuts[i + 1]])
  }

  /** Cut points that divide the text into one fitting piece for every unit of the pattern. */
  predicate Cuts(pattern: seq<CodeUnit>, text: seq<CodeUnit>, cuts: seq<nat>) {
    && |cuts| == |pattern| + 1 && cuts[0] == 0 && cuts[|pattern|] == |text|
    && forall i :: 0 <= i < |pattern| ==> FitsAt(pattern, text, cuts, i)
  }

  /** Cut points of a text with n units put before it, and with n units taken off. */
  function Later(cuts: seq<nat>, n: nat): (later: seq<nat>)
    ensures |later| == |cuts| && forall i :: 0 <= i < |cuts| ==> later[i] == cuts[i] + n
  {
    seq(|cuts|, i requires 0 <= i < |cuts| => cuts[i] + n)
  }

  function Earlier(cuts: seq<nat>, n: nat): (earlier: seq<nat>)
    requires forall i :: 0 <= i < |cuts| ==> cuts[i] >= n
    ensures |earlier| == |cuts| && forall i :: 0 <= i < |cuts| ==> earlier[i] == cuts[i] - n
  {
    seq(|cuts|, i requires 0 <= i < |cuts| => cuts[i] - n)
  }

  lemma {:induction false} CutsGrow(pattern: seq<CodeUnit>, text: seq<CodeUnit>, cuts: seq<nat>, n: nat)
    requires Cuts(pattern, text, cuts) && 0 < n <= |pattern|
    ensures cuts[1] <= cuts[n]
  {
    if n > 1 {
      CutsGrow(pattern, text, cuts, n - 1);
      assert FitsAt(pattern, text, cuts, n - 1);
    }
  }

  /** The rest of the pattern on the rest of the text. */
  lemma {:induction false} CutsRest(pattern: seq<CodeUnit>, text: seq<CodeUnit>, cuts: seq<nat>)
    requires pattern != [] && Cuts(pattern, text, cuts)
    ensures cuts[1] <= |text| && forall i :: 0 <= i < |cuts[1..]| ==> cuts[1] <= cuts[1..][i]
    ensures Cuts(pattern[1..], text[cuts[1]..], Earlier(cuts[1..], cuts[1]))
  {
    assert FitsAt(pattern, text, cuts, 0);
    forall i | 0 <= i < |cuts[1..]| ensures cuts[1] <= cuts[1..][i] { CutsGrow(pattern, text, cuts, i + 1); }
    var rest, cuts' := text[cuts[1]..], Earlier(cuts[1..], cuts[1]);
    forall i | 0 <= i < |pattern| - 1 ensures FitsAt(pattern[1..], rest, cuts', i) {
      assert FitsAt(pattern, text, cuts, i + 1);
      assert rest[cuts'[i]..cuts'[i + 1]] == text[cuts[i + 1]..cuts[i + 2]];
    }
  }

  /** One piece put before the others. */
  lemma {:induction false} CutsBefore(pattern: seq<CodeUnit>, text: seq<CodeUnit>, n: nat, cuts: seq<nat>)
    requires pattern != [] && n <= |text| && Fits(pattern[0], text[..n]) && Cuts(pattern[1..], text[n..], cuts)
    ensures Cuts(pattern, text, [0] + Later(cuts, n))
  {
    var all := [0] + Later(cuts, n);
    forall i | 0 <= i < |pattern| ensures FitsAt(pattern, text, all, i) {
      if i == 0 {
        assert text[0..n] == text[..n];
      } else {
        assert FitsAt(pattern[1..], text[n..], cuts, i - 1);
        assert text[n..][cuts[i - 1]..cuts[i]] == text[all[i]..all[i + 1]];
      }
    }
  }

  /** A text that matches can be cut. */
  lemma {:induction false} MatchIsCut(pattern: seq<CodeUnit>, text: seq<CodeUnit>) returns (cuts: seq<nat>)
    requires LikeMatches(pattern, text)
    ensures Cuts(pattern, text, cuts)
    decreases |pattern| + |text|
  {
    if pattern == [] {
      cuts := [0];
    } else if pattern[0] == PERCENT && !LikeMatches(pattern[1..], text) {
      var longer := MatchIsCut(pattern, text[1..]);
      CutsRest(pattern, text[1..], longer);
      assert FitsAt(pattern, text[1..], longer, 0);
      var n := longer[1] + 1;
      assert text[..n] == [text[0]] + text[1..][0..longer[1]] && text[n..] == text[1..][longer[1]..];
      CutsBefore(pattern, text, n, Earlier(longer[1..], longer[1]));
      cuts := [0] + Later(Earlier(longer[1..], longer[1]), n);
    } else {
      var n := if pattern[0] == PERCENT then 0 else 1;
      var rest := MatchIsCut(pattern[1..], text[n..]);
      CutsBefore(pattern, text, n, rest);
      cuts := [0] + Later(rest, n);
    }
  }

  /** A percent sign takes in the units of its piece one after the other. */
  lemma {:induction false} PercentTakes(pattern: seq<CodeUnit>, text: seq<CodeUnit>, n: nat)
    requires pattern != [] && pattern[0] == PERCENT && n <= |text| && Fits(PERCENT, text[..n])
    requires LikeMatches(pattern[1..], text[n..])
    ensures LikeMatches(pattern, text)
    decreases n
  {
    if n == 0 {
      assert text[0..] == text;
    } else {
      assert text[..n][0] == text[0];
      assert text[1..][..n - 1] == text[..n][1..] && text[1..][n - 1..] == text[n..];
      PercentTakes(pattern, text[1..], n - 1);
    }
  }

  lemma {:induction false} CutMatches(pattern: seq<CodeUnit>, text: seq<CodeUnit>, cuts: seq<nat>)
    requires Cuts(pattern, text, cuts)
    ensures LikeMatches(pattern, text)
    decreases |pattern|
  {
    if pattern != [] {
      CutsRest(pattern, text, cuts);
      CutMatches(pattern[1..], text[cuts[1]..], Earlier(cuts[1..], cuts[1]));
      assert FitsAt(pattern, text, cuts, 0) && text[0..cuts[1]] == text[..cuts[1]];
      if pattern[0] == PERCENT { PercentTakes(pattern, text, cuts[1]); }
    }
  }

  /** A text matches a pattern exactly when it can be cut into pieces: for every unit itself, for every underscore one
      unit, for every percent sign any number of units, none of them a line terminator. */
  lemma {:induction false} LikeExact(pattern: seq<CodeUnit>, text: seq<CodeUnit>)
    ensures LikeMatches(pattern, text) <==> exists cuts :: Cuts(pattern, text, cuts)
  {
    if LikeMatches(pattern, text) {
      var cuts := MatchIsCut(pattern, text);
    }
    if cuts :| Cuts(pattern, text, cuts) { CutMatches(pattern, text, cuts); }
  }
}
