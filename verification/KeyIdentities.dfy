/** Key identities of src/execution/hash-table.ts: which values group together, and the text of a key. */
module KeyIdentities {
  import opened Wrappers

  predicate IsDigit(c: char) {
    '0' <= c <= '9'
  }

  predicate NotNumeral(s: string) {
    exists i :: 0 <= i < |s| && s[i] != '-' && !IsDigit(s[i])
  }


  /** A value as it reaches a key column. A number without an integer value (a fraction or an infinity) is
      given by the text the runtime prints for it, which is different for different numbers. */
  datatype EvalValue =
    | Undefined | Null
    | Whole(n: int) | BigInt(n: int) | Fraction(text: string) | NaN
    | Text(s: string) | Truth(b: bool)
    | Other(printed: string)

  datatype KeyIdentity =
    | NoKey | Number(n: int) | Big(n: int) | Inexact(text: string) | NaNKey | Word(s: string) | Flag(b: bool)

  const MAX_SAFE_INTEGER := 0x1F_FFFF_FFFF_FFFF

  predicate Safe(n: int) {
    -MAX_SAFE_INTEGER <= n <= MAX_SAFE_INTEGER
  }

  function KeyIdentityOf(v: EvalValue): KeyIdentity {
    match v
    case Undefined | Null => NoKey
    case Whole(n) => if Safe(n) then Number(n) else Big(n)
    case NaN => NaNKey
    case Fraction(text) => Inexact(text)
    case BigInt(n) => if Safe(n) then Number(n) else Big(n)
    case Text(s) => Word(s)
    case Truth(b) => Flag(b)
    case Other(printed) => Word(printed)
  }

  /** Values that count as the same key: integers by value whatever their representation, missing values
      with each other, NaN with itself, and an object with the text it prints as. */
  predicate SameKey(a: EvalValue, b: EvalValue) {
    || (a in {Undefined, Null} && b in {Undefined, Null})
    || ((a.Whole? || a.BigInt?) && (b.Whole? || b.BigInt?) && a.n == b.n)
    || (a.NaN? && b.NaN?)
    || (a.Fraction? && a == b)
    || (a.Truth? && a == b)
    || (Printed(a) != None && Printed(a) == Printed(b))
  }

  function Printed(v: EvalValue): Option<string> {
    match v
    case Text(s) => Some(s)
    case Other(p) => Some(p)
    case _ => None
  }

  lemma {:induction false} IdentityIsSameKey(a: EvalValue, b: EvalValue)
    ensures KeyIdentityOf(a) == KeyIdentityOf(b) <==> SameKey(a, b)
  {
    assert a in {Undefined, Null} <==> a.Undefined? || a.Null?;
    assert b in {Undefined, Null} <==> b.Undefined? || b.Null?;
  }

  /** The columns of a key; a column beyond the row reads as undefined. */
  function Column(values: seq<EvalValue>, col: nat): EvalValue {
    if col < |values| then values[col] else Undefined
  }

  function KeyOf(values: seq<EvalValue>, arity: nat): (key: seq<KeyIdentity>)
    ensures |key| == arity
    ensures forall col :: 0 <= col < arity ==> key[col] == KeyIdentityOf(Column(values, col))
  {
    seq(arity, col requires 0 <= col < arity => KeyIdentityOf(Column(values, col)))
  }

  /** Two rows have one key exactly when they agree column by column. */
  lemma {:induction false} SameKeyTuple(a: seq<EvalValue>, b: seq<EvalValue>, arity: nat)
    ensures KeyOf(a, arity) == KeyOf(b, arity) <==> forall col :: 0 <= col < arity ==>
            SameKey(Column(a, col), Column(b, col))
  {
    forall col | 0 <= col < arity
      ensures KeyOf(a, arity)[col] == KeyOf(b, arity)[col] <==> SameKey(Column(a, col), Column(b, col))
    {
      IdentityIsSameKey(Column(a, col), Column(b, col));
    }
  }

  // ---------- the text of a key ----------

  function Digit(d: nat): (c: char)
    requires d < 10
    ensures IsDigit(c)
  {
    ('0' as int + d) as char
  }

  function Numeral(n: nat): (s: string)
    ensures s != [] && forall i :: 0 <= i < |s| ==> IsDigit(s[i])
  {
    if n < 10 then [Digit(n)] else Numeral(n / 10) + [Digit(n % 10)]
  }

  function Decimal(n: int): string {
    if n < 0 then "-" + Numeral(-n) else Numeral(n)
  }

  function DigitValue(c: char): nat {
    if IsDigit(c) then (c - '0') as nat else 0
  }

  function Parse(s: string): nat {
    if s == [] then 0 else Parse(s[..|s| - 1]) * 10 + DigitValue(s[|s| - 1])
  }

  lemma {:induction false} ParseNumeral(n: nat)
    ensures Parse(Numeral(n)) == n
  {
    if n >= 10 {
      ParseNumeral(n / 10);
      assert Numeral(n)[..|Numeral(n)| - 1] == Numeral(n / 10);
    }
  }

  function ParseInt(s: string): int {
    if s != [] && s[0] == '-' then 0 - Parse(s[1..]) as int else Parse(s)
  }

  lemma {:induction false} ParseDecimal(n: int)
    ensures ParseInt(Decimal(n)) == n
  {
    if n < 0 {
      assert Decimal(n)[1..] == Numeral(-n);
      ParseNumeral(-n);
    } else {
      assert IsDigit(Numeral(n)[0]);
      ParseNumeral(n);
    }
  }


  function Tag(id: KeyIdentity): char {
    match id
    case NoKey => 'n'
    case Number(_) | Big(_) | Inexact(_) => 'd'
    case Word(_) => 's'
    case Flag(_) => 'b'
    case NaNKey => 'f'
  }

  function Body(id: KeyIdentity): string {
    match id
    case NoKey => ""
    case Number(n) => Decimal(n)
    case Big(n) => Decimal(n)
    case Inexact(text) => text
    case Word(s) => s
    case Flag(b) => if b then "true" else "false"
    case NaNKey => "NaN"
  }

  function Field(body: string): string {
    Numeral(|body|) + ":" + body
  }

  function ItemText(id: KeyIdentity): string {
    if id.NoKey? then "n" else [Tag(id)] + Field(Body(id))
  }

  function KeyText(key: seq<KeyIdentity>): string {
    if key == [] then "" else KeyText(key[..|key| - 1]) + ItemText(key[|key| - 1])
  }

  /** keyIdentityText: one loop over the columns. */
  method KeyIdentityText(values: seq<EvalValue>, arity: nat) returns (text: string)
    ensures text == KeyText(KeyOf(values, arity))
  {
    text := "";
    var col := 0;
    while col < arity
      invariant 0 <= col <= arity && text == KeyText(KeyOf(values, col))
    {
      var identity := KeyIdentityOf(Column(values, col));
      assert KeyOf(values, col + 1) == KeyOf(values, col) + [identity];
      assert KeyOf(values, col + 1)[..col] == KeyOf(values, col);
      if identity.NoKey? {
        text := text + "n";
      } else {
        text := text + ([Tag(identity)] + Field(Body(identity)));
      }
      col := col + 1;
    }
  }

  /** Identities as KeyIdentityOf makes them, when fractions print as numbers do. */
  predicate Canonical(id: KeyIdentity) {
    (id.Number? ==> Safe(id.n)) && (id.Big? ==> !Safe(id.n)) && (id.Inexact? ==> NotNumeral(id.text))
  }

  lemma {:induction false} DecimalIsNumeral(n: int)
    ensures !NotNumeral(Decimal(n))
  {
    var m := Numeral(if n < 0 then -n else n);
    forall i | 0 <= i < |Decimal(n)| ensures Decimal(n)[i] == '-' || IsDigit(Decimal(n)[i]) {
      assert n < 0 ==> Decimal(n) == ['-'] + m;
      assert forall j :: 0 <= j < |m| ==> IsDigit(m[j]);
    }
  }

  lemma {:induction false} BodyInjective(a: KeyIdentity, b: KeyIdentity)
    requires Canonical(a) && Canonical(b) && Tag(a) == Tag(b) && Body(a) == Body(b)
    ensures a == b
  {
    if (a.Number? || a.Big?) && (b.Number? || b.Big?) {
      ParseDecimal(a.n);
      ParseDecimal(b.n);
    } else if a.Number? || a.Big? {
      DecimalIsNumeral(a.n);
    } else if b.Number? || b.Big? {
      DecimalIsNumeral(b.n);
    }
  }

  /** A stretch without a colon ends at the first colon. */
  lemma {:induction false} UpToColon(p: string, u: string, q: string, v: string)
    requires ':' !in p && ':' !in q && p + ":" + u == q + ":" + v
    ensures p == q && u == v
  {
    var whole := p + ":" + u;
    assert whole[|p|] == ':' && whole[|q|] == ':';
    assert forall k :: 0 <= k < |q| ==> whole[k] == q[k];
    assert forall k :: 0 <= k < |p| ==> whole[k] == p[k];
    assert p == whole[..|p|] && q == whole[..|q|];
    assert u == whole[|p| + 1..] && v == whole[|q| + 1..];
  }

  lemma {:induction false} NumeralHasNoColon(n: nat)
    ensures ':' !in Numeral(n)
  {
    forall i | 0 <= i < |Numeral(n)| ensures Numeral(n)[i] != ':' {
      assert IsDigit(Numeral(n)[i]);
    }
  }

  /** Text counted by its length ends where the count says. */
  lemma {:induction false} FieldReadBack(u: string, x: string, v: string, y: string)
    requires Field(u) + x == Field(v) + y
    ensures u == v && x == y
  {
    assert Field(u) + x == Numeral(|u|) + ":" + (u + x);
    assert Field(v) + y == Numeral(|v|) + ":" + (v + y);
    NumeralHasNoColon(|u|);
    NumeralHasNoColon(|v|);
    UpToColon(Numeral(|u|), u + x, Numeral(|v|), v + y);
    ParseNumeral(|u|);
    ParseNumeral(|v|);
    assert u == (u + x)[..|u|] && x == (u + x)[|u|..];
    assert v == (v + y)[..|v|] && y == (v + y)[|v|..];
  }

  lemma {:induction false} ItemSplits(a: KeyIdentity, x: string)
    ensures (ItemText(a) + x)[0] == Tag(a)
    ensures (ItemText(a) + x)[1..] == if a.NoKey? then x else Field(Body(a)) + x
  {
    ConsSplits(Tag(a), if a.NoKey? then "" else Field(Body(a)), x);
  }

  lemma {:induction false} ConsSplits(c: char, f: string, x: string)
    ensures (([c] + f) + x)[1..] == f + x
  {}

  /** No item's text is a prefix of another's: a text starting with an item starts with no other. */
  lemma {:induction false} ItemReadBack(a: KeyIdentity, x: string, b: KeyIdentity, y: string)
    requires Canonical(a) && Canonical(b) && ItemText(a) + x == ItemText(b) + y
    ensures a == b && x == y
  {
    ItemSplits(a, x);
    ItemSplits(b, y);
    if a.NoKey? {
      assert x == (ItemText(a) + x)[1..];
    } else {
      FieldReadBack(Body(a), x, Body(b), y);
      BodyInjective(a, b);
    }
  }


  function TextFrom(key: seq<KeyIdentity>): string {
    if key == [] then "" else ItemText(key[0]) + TextFrom(key[1..])
  }

  lemma {:induction false} TextFromLast(key: seq<KeyIdentity>)
    requires key != []
    ensures TextFrom(key) == TextFrom(key[..|key| - 1]) + ItemText(key[|key| - 1])
  {
    if |key| > 1 {
      TextFromLast(key[1..]);
      assert key[..|key| - 1][1..] == key[1..][..|key[1..]| - 1];
    }
  }

  lemma {:induction false} KeyTextIsTextFrom(key: seq<KeyIdentity>)
    ensures KeyText(key) == TextFrom(key)
  {
    if key != [] {
      KeyTextIsTextFrom(key[..|key| - 1]);
      TextFromLast(key);
    }
  }

  lemma {:induction false} TextFromInjective(a: seq<KeyIdentity>, b: seq<KeyIdentity>)
    requires |a| == |b| && TextFrom(a) == TextFrom(b)
    requires forall i :: 0 <= i < |a| ==> Canonical(a[i]) && Canonical(b[i])
    ensures a == b
  {
    if a != [] {
      ItemReadBack(a[0], TextFrom(a[1..]), b[0], TextFrom(b[1..]));
      TextFromInjective(a[1..], b[1..]);
      assert a == [a[0]] + a[1..] && b == [b[0]] + b[1..];
    }
  }

  /** What the runtime prints for a number without an integer value is no integer numeral. */
  predicate Printable(v: EvalValue) {
    v.Fraction? ==> NotNumeral(v.text)
  }

  lemma {:induction false} CanonicalKey(a: seq<EvalValue>, arity: nat)
    requires forall col :: 0 <= col < arity ==> Printable(Column(a, col))
    ensures forall col :: 0 <= col < arity ==> Canonical(KeyOf(a, arity)[col])
  {
    forall col | 0 <= col < arity ensures Canonical(KeyOf(a, arity)[col]) {
      assert KeyOf(a, arity)[col] == KeyIdentityOf(Column(a, col));
    }
  }

  lemma {:induction false} KeyTextInjective(x: seq<KeyIdentity>, y: seq<KeyIdentity>)
    requires |x| == |y| && KeyText(x) == KeyText(y)
    requires forall i :: 0 <= i < |x| ==> Canonical(x[i]) && Canonical(y[i])
    ensures x == y
  {
    KeyTextIsTextFrom(x);
    KeyTextIsTextFrom(y);
    TextFromInjective(x, y);
  }

  /** The text of a key stands for the key: equal texts exactly for rows that agree column by column. */
  lemma {:induction false} KeyTextFaithful(a: seq<EvalValue>, b: seq<EvalValue>, arity: nat)
    requires forall col :: 0 <= col < arity ==> Printable(Column(a, col)) && Printable(Column(b, col))
    ensures KeyText(KeyOf(a, arity)) == KeyText(KeyOf(b, arity))
      <==> forall col :: 0 <= col < arity ==> SameKey(Column(a, col), Column(b, col))
  {
    CanonicalKey(a, arity);
    CanonicalKey(b, arity);
    if KeyText(KeyOf(a, arity)) == KeyText(KeyOf(b, arity)) { KeyTextInjective(KeyOf(a, arity), KeyOf(b, arity)); }
    SameKeyTuple(a, b, arity);
  }
}
