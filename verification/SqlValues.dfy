/** SQL values, columns and literals, and what a literal means as a value of a column. */
module SqlValues {
  datatype Result<T> = Ok(value: T) | Err(error: Error)

  datatype Error = Semantic | Constraint | Execution

  datatype DataType = UINT32 | INT64 | BOOLEAN | VARCHAR

  datatype Value = Null | U32(u: int) | I64(i: int) | Bool(b: bool) | Text(s: string)

  type Row = seq<Value>

  datatype Column = Column(name: string, dataType: DataType, nullable: bool, primaryKey: bool, maxBytes: nat)

  type Schema = seq<Column>

  datatype Literal =
    | NullLiteral
    | BoolLiteral(b: bool)
    | StringLiteral(s: string)
    | IntLiteral(negative: bool, digits: string)

  const UINT32_MAX: nat := 0xFFFF_FFFF
  const INT64_MAX: nat := 0x7FFF_FFFF_FFFF_FFFF

  // ---- Rows of a schema ----

  predicate TypeFits(t: DataType, v: Value) {
    match t
    case UINT32 => v.U32? && 0 <= v.u <= UINT32_MAX
    case INT64 => v.I64? && -(INT64_MAX as int) - 1 <= v.i <= INT64_MAX
    case BOOLEAN => v.Bool?
    case VARCHAR => v.Text?
  }

  predicate ValueFits(c: Column, v: Value) {
    if v.Null? then c.nullable else TypeFits(c.dataType, v) && (v.Text? ==> |v.s| <= c.maxBytes)
  }

  predicate RowFits(schema: Schema, row: Row) {
    |row| == |schema| && forall i :: 0 <= i < |row| ==> ValueFits(schema[i], row[i])
  }

  /** At most one primary key, and it is a UINT32 that cannot be NULL. */
  predicate SchemaOk(schema: Schema) {
    && (forall i :: 0 <= i < |schema| && schema[i].primaryKey ==> schema[i].dataType.UINT32? && !schema[i].nullable)
    && (forall i,
        j :: 0 <= i < |schema| && 0 <= j < |schema| && schema[i].primaryKey && schema[j].primaryKey ==> i == j)
  }

  /** The check of a row against its schema. */
  method ValidateValues(schema: Schema, row: Row) returns (ok: bool)
    ensures ok <==> RowFits(schema, row)
  {
    if |row| != |schema| {
      return false;
    }
    for i := 0 to |row|
      invariant forall k :: 0 <= k < i ==> ValueFits(schema[k], row[k])
    {
      if !ValueFits(schema[i], row[i]) {
        return false;
      }
    }
    ok := true;
  }

  // ---- Decimal literals ----

  predicate Digits(s: string) {
    forall i :: 0 <= i < |s| ==> '0' <= s[i] <= '9'
  }

  function Digit(c: char): (r: int) {
    c as int - '0' as int
  }

  function Decimal(s: string): (r: int) {
    if s == "" then 0 else Decimal(s[..|s| - 1]) * 10 + Digit(s[|s| - 1])
  }

  /** The number a literal stands for. */
  function Number(negative: bool, digits: string): (r: int) {
    if negative then -Decimal(digits) else Decimal(digits)
  }

  lemma {:induction false} DecimalNonNegative(s: string)
    requires Digits(s)
    ensures Decimal(s) >= 0
  {
    if s != "" {
      DecimalNonNegative(s[..|s| - 1]);
    }
  }

  /** More digits never make a number smaller. */
  lemma {:induction false} DecimalGrows(s: string, k: nat)
    requires Digits(s) && k <= |s|
    ensures Decimal(s[..k]) <= Decimal(s)
    decreases |s| - k
  {
    DecimalNonNegative(s[..k]);
    if k == |s| {
      assert s[..k] == s;
    } else {
      DecimalGrows(s, k + 1);
      assert s[..k + 1][..k] == s[..k];
    }
  }

  /** The number, if it is in range. */
  function Magnitude(digits: string, maximum: nat): (r: Result<nat>)
    requires Digits(digits)
  {
    if Decimal(digits) > maximum then Err(Constraint) else DecimalNonNegative(digits); Ok(Decimal(digits))
  }

  /** Reads digits into a bounded number without ever exceeding the bound: it succeeds exactly when the
      number is in range. */
  method AccumulateMagnitude(digits: string, maximum: nat) returns (value: Result<nat>)
    requires Digits(digits) && maximum >= 9
    ensures value == Magnitude(digits, maximum)
  {
    var v: nat := 0;
    for i := 0 to |digits|
      invariant v == Decimal(digits[..i]) && v <= maximum
    {
      var component := Digit(digits[i]);
      assert digits[..i + 1][..i] == digits[..i];
      if v > (maximum - component) / 10 {
        DecimalGrows(digits, i + 1);
        return Err(Constraint);
      }
      v := v * 10 + component;
    }
    assert digits[..|digits|] == digits;
    value := Ok(v);
  }

  // ---- Literals as values of a column ----

  predicate LiteralOk(l: Literal) {
    l.IntLiteral? ==> l.digits != "" && Digits(l.digits)
  }

  function ConvertLiteral(l: Literal, c: Column): (r: Result<Value>)
    requires LiteralOk(l)
    ensures r.Ok? ==> ValueFits(c, r.value) && Denotes(l, r.value)
  {
    match l
    case NullLiteral => if c.nullable then Ok(Null) else Err(Constraint)
    case BoolLiteral(b) => if c.dataType.BOOLEAN? then Ok(Bool(b)) else Err(Semantic)
    case StringLiteral(s) =>
      if !c.dataType.VARCHAR? then Err(Semantic) else if |s| > c.maxBytes then Err(Constraint) else Ok(Text(s))
    case IntLiteral(negative, digits) =>
      match c.dataType
      case UINT32 =>
        if negative then Err(Constraint)
        else
          (match Magnitude(digits, UINT32_MAX)
           case Ok(m) => Ok(U32(m))
           case Err(e) => Err(e))
      case INT64 =>
        (match Magnitude(digits, if negative then INT64_MAX + 1 else INT64_MAX)
         case Ok(m) => Ok(I64(if negative then -(m as int) else m))
         case Err(e) => Err(e))
      case _ => Err(Semantic)
  }

  /** The value is what the literal says. */
  predicate Denotes(l: Literal, v: Value) {
    match l
    case NullLiteral => v == Null
    case BoolLiteral(b) => v == Bool(b)
    case StringLiteral(s) => v == Text(s)
    case IntLiteral(negative, digits) =>
      (v.U32? && v.u == Number(negative, digits)) || (v.I64? && v.i == Number(negative, digits))
  }

  /** A literal is refused for a column exactly when no value of the column is what it says, except that a
      negated zero is refused for UINT32. */
  lemma ConvertExact(l: Literal, c: Column)
    requires LiteralOk(l)
    ensures ConvertLiteral(l, c).Err? <==>
              (forall v :: Denotes(l, v) ==> !ValueFits(c, v)) || (c.dataType.UINT32? && l.IntLiteral? && l.negative)
  {
    if ConvertLiteral(l, c).Ok? {
      assert Denotes(l, ConvertLiteral(l, c).value);
    } else if l.IntLiteral? {
      DecimalNonNegative(l.digits);
    }
  }

  // ---- Comparing ----

  /** -1, 0 or 1 as the first is less, equal or greater. */
  function Sign(x: int): (r: int) {
    if x < 0 then -1 else if x == 0 then 0 else 1
  }

  function CompareText(a: string, b: string): (r: int) {
    if a == b then 0
    else if a == "" then -1
    else if b == "" then 1
    else if a[0] != b[0] then (if a[0] < b[0] then -1 else 1)
    else CompareText(a[1..], b[1..])
  }

  /** The digits without leading zeros. */
  function Strip(s: string): (r: string) {
    if s != "" && s[0] == '0' then Strip(s[1..]) else s
  }

  function Normalized(s: string): (r: string) {
    if Strip(s) == "" then "0" else Strip(s)
  }

  /** The comparison of integer literals of any length, by sign, then length, then digits. */
  function CompareLiterals(negA: bool, a: string, negB: bool, b: string): (r: int) {
    var na, nb := Normalized(a), Normalized(b);
    var minusA, minusB := negA && na != "0", negB && nb != "0";
    if minusA != minusB then (if minusA then -1 else 1)
    else
      var c := if |na| != |nb| then (if |na| < |nb| then -1 else 1) else CompareText(na, nb);
      if minusA then -c else c
  }

  function Pow10(k: nat): (r: int) {
    if k == 0 then 1 else 10 * Pow10(k - 1)
  }

  lemma {:induction false} Pow10Grows(j: nat, k: nat)
    requires j <= k
    ensures 0 < Pow10(j) <= Pow10(k)
    decreases k
  {
    if k > 0 {
      Pow10Grows(if j == k then k - 1 else j, k - 1);
    }
  }

  /** The first digit counts most. */
  lemma {:induction false} DecimalHead(s: string)
    requires s != ""
    ensures Decimal(s) == Digit(s[0]) * Pow10(|s| - 1) + Decimal(s[1..])
    decreases |s|
  {
    if |s| == 1 {
      assert s[..0] == "" && s[1..] == "";
    } else {
      var front := s[..|s| - 1];
      DecimalHead(front);
      assert s[1..][..|s| - 2] == front[1..];
      Scaled(Digit(s[0]), Pow10(|s| - 2), Decimal(front[1..]));
    }
  }

  lemma Scaled(d: int, p: int, r: int)
    ensures (d * p + r) * 10 == d * (10 * p) + r * 10
  {
  }

  lemma {:induction false} DecimalBound(s: string)
    requires Digits(s)
    ensures 0 <= Decimal(s) < Pow10(|s|)
  {
    if s != "" {
      DecimalBound(s[..|s| - 1]);
    }
  }

  lemma {:induction false} StripSame(s: string)
    requires Digits(s)
    ensures Decimal(Strip(s)) == Decimal(s) && Digits(Strip(s)) && (Strip(s) != "" ==> Strip(s)[0] != '0')
  {
    if s != "" && s[0] == '0' {
      DecimalHead(s);
      StripSame(s[1..]);
    }
  }

  lemma NormalizedSame(s: string)
    requires Digits(s)
    ensures var n := Normalized(s);
            && Digits(n) && n != "" && Decimal(n) == Decimal(s)
            && (n[0] == '0' <==> n == "0") && (n == "0" <==> Decimal(s) == 0)
  {
    StripSame(s);
    var n := Normalized(s);
    if Strip(s) == "" {
      assert Decimal("0") == 0;
    } else {
      DecimalHead(n);
      DecimalBound(n[1..]);
      Leading(Digit(n[0]), Pow10(|n| - 1));
      Pow10Grows(0, |n| - 1);
    }
  }

  lemma Leading(d: int, p: int)
    requires d >= 1 && p > 0
    ensures d * p >= p
  {
  }

  /** Digits of one length compare like the numbers. */
  lemma {:induction false} SameLength(a: string, b: string)
    requires Digits(a) && Digits(b) && |a| == |b|
    ensures CompareText(a, b) == Sign(Decimal(a) - Decimal(b))
    decreases |a|
  {
    if a != b {
      DecimalHead(a);
      DecimalHead(b);
      DecimalBound(a[1..]);
      DecimalBound(b[1..]);
      if a[0] == b[0] {
        SameLength(a[1..], b[1..]);
      } else if a[0] < b[0] {
        Ahead(Digit(a[0]), Digit(b[0]), Pow10(|a| - 1));
      } else {
        Ahead(Digit(b[0]), Digit(a[0]), Pow10(|a| - 1));
      }
    }
  }

  lemma Ahead(d: int, e: int, p: int)
    requires d < e && p > 0
    ensures d * p + p <= e * p
  {
    assert d * p + p == (d + 1) * p;
  }

  /** Fewer digits, a smaller number. */
  lemma Shorter(a: string, b: string)
    requires Digits(a) && Digits(b) && |a| < |b| && b[0] != '0'
    ensures Decimal(a) < Decimal(b)
  {
    DecimalBound(a);
    DecimalHead(b);
    DecimalBound(b[1..]);
    Leading(Digit(b[0]), Pow10(|b| - 1));
    Pow10Grows(|a|, |b| - 1);
  }

  /** Comparing integer literals as text is comparing the numbers they stand for, whatever their length. */
  lemma CompareIsNumeric(negA: bool, a: string, negB: bool, b: string)
    requires Digits(a) && Digits(b)
    ensures CompareLiterals(negA, a, negB, b) == Sign(Number(negA, a) - Number(negB, b))
  {
    var na, nb := Normalized(a), Normalized(b);
    NormalizedSame(a);
    NormalizedSame(b);
    DecimalNonNegative(a);
    DecimalNonNegative(b);
    if |na| == |nb| {
      SameLength(na, nb);
    } else if |na| < |nb| {
      Shorter(na, nb);
    } else {
      Shorter(nb, na);
    }
  }
}
