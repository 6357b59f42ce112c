/** WHERE clauses: binding against a schema, three-valued evaluation, and the primary-key shortcut. */
module SqlExpressions {
  import opened Options
  import opened SqlValues

  datatype Truth = False | Unknown | True

  datatype Operator = And | Or | Equal | NotEqual | Less | LessEqual | Greater | GreaterEqual

  datatype Expression =
    | Identifier(name: string)
    | Constant(literal: Literal)
    | Not(operand: Expression)
    | Binary(op: Operator, left: Expression, right: Expression)

  predicate ExpressionOk(e: Expression) {
    match e
    case Identifier(_) => true
    case Constant(l) => LiteralOk(l)
    case Not(x) => ExpressionOk(x)
    case Binary(_, l, r) => ExpressionOk(l) && ExpressionOk(r)
  }

  // ---- Three-valued logic ----

  function TruthNot(t: Truth): (r: Truth) {
    match t
    case False => True
    case True => False
    case Unknown => Unknown
  }

  function TruthAnd(l: Truth, r: Truth): (res: Truth) {
    if l.False? || r.False? then False else if l.True? && r.True? then True else Unknown
  }

  function TruthOr(l: Truth, r: Truth): (res: Truth) {
    if l.True? || r.True? then True else if l.False? && r.False? then False else Unknown
  }

  /** False below Unknown below True: the truth tables are complement, minimum and maximum. */
  function Level(t: Truth): (r: int) {
    match t
    case False => 0
    case Unknown => 1
    case True => 2
  }

  lemma TruthTables(l: Truth, r: Truth)
    ensures Level(TruthNot(l)) == 2 - Level(l)
    ensures Level(TruthAnd(l, r)) == if Level(l) < Level(r) then Level(l) else Level(r)
    ensures Level(TruthOr(l, r)) == if Level(l) < Level(r) then Level(r) else Level(l)
  {
  }

  // ---- What a clause means ----

  /** A value without its storage type. */
  datatype Datum = Nothing | Number(n: int) | Flag(b: bool) | Words(s: string)

  function DatumOf(v: Value): (r: Datum) {
    match v
    case Null => Nothing
    case U32(u) => Number(u)
    case I64(i) => Number(i)
    case Bool(b) => Flag(b)
    case Text(s) => Words(s)
  }

  function DatumOfLiteral(l: Literal): (r: Datum) {
    match l
    case NullLiteral => Nothing
    case BoolLiteral(b) => Flag(b)
    case StringLiteral(s) => Words(s)
    case IntLiteral(negative, digits) => Number(SqlValues.Number(negative, digits))
  }

  function DatumOfTruth(t: Truth): (r: Datum) {
    match t
    case Unknown => Nothing
    case True => Flag(true)
    case False => Flag(false)
  }

  function TruthOfDatum(d: Datum): (r: Truth) {
    if d == Flag(true) then True else if d == Flag(false) then False else Unknown
  }

  function CompareBools(a: bool, b: bool): (r: int) {
    if a == b then 0 else if a then 1 else -1
  }

  function CompareData(a: Datum, b: Datum): (r: Option<int>) {
    if a.Number? && b.Number? then Some(Sign(a.n - b.n))
    else if a.Flag? && b.Flag? then Some(CompareBools(a.b, b.b))
    else if a.Words? && b.Words? then Some(CompareText(a.s, b.s))
    else None
  }

  predicate Holds(op: Operator, c: int)
    requires !op.And? && !op.Or?
  {
    match op
    case Equal => c == 0
    case NotEqual => c != 0
    case Less => c < 0
    case LessEqual => c <= 0
    case Greater => c > 0
    case GreaterEqual => c >= 0
  }

  function FindColumn(schema: Schema, name: string): (r: Option<nat>)
    ensures r.Some? ==> r.value < |schema| && schema[r.value].name == name
  {
    FindColumnFrom(schema, name, 0)
  }

  function FindColumnFrom(schema: Schema, name: string, k: nat): (r: Option<nat>)
    requires k <= |schema|
    ensures r.Some? ==> r.value < |schema| && schema[r.value].name == name
    decreases |schema| - k
  {
    if k == |schema| then None else if schema[k].name == name then Some(k) else FindColumnFrom(schema, name, k + 1)
  }

  /** The meaning of a clause on a row: numbers are integers of any size, both operands are always
      evaluated, and NULL makes a comparison unknown. */
  function Meaning(e: Expression, schema: Schema, row: Row): (res: Datum) {
    match e
    case Identifier(name) =>
      var i := FindColumn(schema, name);
      if i.Some? && i.value < |row| then DatumOf(row[i.value]) else Nothing
    case Constant(l) => DatumOfLiteral(l)
    case Not(x) => DatumOfTruth(TruthNot(TruthOfDatum(Meaning(x, schema, row))))
    case Binary(op, l, r) =>
      var a, b := Meaning(l, schema, row), Meaning(r, schema, row);
      if op.And? then DatumOfTruth(TruthAnd(TruthOfDatum(a), TruthOfDatum(b)))
      else if op.Or? then DatumOfTruth(TruthOr(TruthOfDatum(a), TruthOfDatum(b)))
      else
        var c := CompareData(a, b);
        if c.None? then Nothing else Flag(Holds(op, c.value))
  }

  // ---- Binding ----

  datatype BoundType = NullType | Uint32 | Int64 | Boolean | Varchar | Integer

  datatype Scalar =
    | SNull
    | SU32(u: int)
    | SI64(i: int)
    | SBool(b: bool)
    | SText(s: string)
    | SInteger(negative: bool, digits: string)

  datatype Bound =
    | BColumn(index: nat, boundType: BoundType)
    | BLiteral(scalar: Scalar, boundType: BoundType)
    | BNot(operand: Bound)
    | BBinary(op: Operator, left: Bound, right: Bound)

  function TypeOf(b: Bound): (r: BoundType) {
    if b.BColumn? || b.BLiteral? then b.boundType else Boolean
  }

  function BoundTypeOf(t: DataType): (r: BoundType) {
    match t
    case UINT32 => Uint32
    case INT64 => Int64
    case BOOLEAN => Boolean
    case VARCHAR => Varchar
  }

  function LiteralType(l: Literal): (r: BoundType) {
    match l
    case NullLiteral => NullType
    case BoolLiteral(_) => Boolean
    case StringLiteral(_) => Varchar
    case IntLiteral(_, _) => Integer
  }

  function LiteralScalar(l: Literal): (r: Scalar) {
    match l
    case NullLiteral => SNull
    case BoolLiteral(b) => SBool(b)
    case StringLiteral(s) => SText(s)
    case IntLiteral(negative, digits) => SInteger(negative, digits)
  }

  function ValueScalar(v: Value): (r: Scalar) {
    match v
    case Null => SNull
    case U32(u) => SU32(u)
    case I64(i) => SI64(i)
    case Bool(b) => SBool(b)
    case Text(s) => SText(s)
  }

  predicate Ordering(op: Operator) {
    op.Less? || op.LessEqual? || op.Greater? || op.GreaterEqual?
  }

  predicate Logical(b: Bound) {
    TypeOf(b).Boolean? || TypeOf(b).NullType?
  }

  /** A literal beside a column takes the column's type. */
  function ConvertContextual(l: Literal, c: Column, bound: Bound): (r: Result<Bound>)
    requires LiteralOk(l)
  {
    if l.NullLiteral? then Ok(bound)
    else
      match ConvertLiteral(l, c)
      case Ok(v) => Ok(BLiteral(ValueScalar(v), BoundTypeOf(c.dataType)))
      case Err(e) => Err(e)
  }

  /** Both sides of a comparison, with contextual literals converted, or a refusal. */
  function ValidateComparison(op: Operator, l: Bound, r: Bound, el: Expression, er: Expression,
                              schema: Schema): (res: Result<(Bound, Bound)>)
    requires ExpressionOk(el) && ExpressionOk(er)
    requires el.Identifier? ==> l.BColumn? && l.index < |schema|
    requires er.Identifier? ==> r.BColumn? && r.index < |schema|
  {
    if (TypeOf(l).Boolean? || TypeOf(r).Boolean?) && Ordering(op) then Err(Semantic)
    else if TypeOf(l).NullType? || TypeOf(r).NullType? then Ok((l, r))
    else
      var l' := if el.Constant? && er.Identifier? then ConvertContextual(el.literal, schema[r.index], l) else Ok(l);
      var r' := if el.Identifier? && er.Constant? then ConvertContextual(er.literal, schema[l.index], r) else Ok(r);
      if l'.Err? then Err(l'.error)
      else if r'.Err? then Err(r'.error)
      else if TypeOf(l'.value) != TypeOf(r'.value) then Err(Semantic)
      else Ok((l'.value, r'.value))
  }

  function Bind(e: Expression, schema: Schema): (r: Result<Bound>)
    requires ExpressionOk(e)
    ensures r.Ok? && e.Identifier? ==> r.value.BColumn? && r.value.index < |schema|
  {
    match e
    case Identifier(name) =>
      (match FindColumn(schema, name)
       case None => Err(Semantic)
       case Some(i) => Ok(BColumn(i, BoundTypeOf(schema[i].dataType))))
    case Constant(l) => Ok(BLiteral(LiteralScalar(l), LiteralType(l)))
    case Not(x) =>
      var b := Bind(x, schema);
      if b.Err? then b else if !Logical(b.value) then Err(Semantic) else Ok(BNot(b.value))
    case Binary(op, l, r) =>
      var bl := Bind(l, schema);
      if bl.Err? then bl
      else
        var br := Bind(r, schema);
        if br.Err? then br
        else if op.And? || op.Or? then
          if Logical(bl.value) && Logical(br.value) then Ok(BBinary(op, bl.value, br.value)) else Err(Semantic)
        else
          match ValidateComparison(op, bl.value, br.value, l, r, schema)
          case Err(e) => Err(e)
          case Ok((l', r')) => Ok(BBinary(op, l', r'))
  }

  // ---- Evaluation ----

  /** Comparing scalars of one kind; none when the kinds differ, which the engine would not survive. */
  function CompareScalars(a: Scalar, b: Scalar): (r: Option<int>) {
    if a.SU32? && b.SU32? then Some(Sign(a.u - b.u))
    else if a.SI64? && b.SI64? then Some(Sign(a.i - b.i))
    else if a.SBool? && b.SBool? then Some(CompareBools(a.b, b.b))
    else if a.SText? && b.SText? then Some(CompareText(a.s, b.s))
    else if a.SInteger? && b.SInteger? then Some(CompareLiterals(a.negative, a.digits, b.negative, b.digits))
    else None
  }

  function ScalarOfTruth(t: Truth): (r: Scalar) {
    match t
    case Unknown => SNull
    case True => SBool(true)
    case False => SBool(false)
  }

  /** The truth of a bound clause on a row, stopping early where one operand decides; none on a type mismatch
      or a column the row does not have. */
  function EvaluateTruth(b: Bound, row: Row): (res: Option<Truth>)
    decreases b, 1
  {
    match b
    case BNot(x) =>
      (match EvaluateTruth(x, row)
       case None => None
       case Some(t) => Some(TruthNot(t)))
    case BBinary(op, l, r) =>
      if op.And? || op.Or? then
        match EvaluateTruth(l, row)
        case None => None
        case Some(t) =>
          if op.And? && t.False? then Some(False)
          else if op.Or? && t.True? then Some(True)
          else
            match EvaluateTruth(r, row)
            case None => None
            case Some(u) => Some(if op.And? then TruthAnd(t, u) else TruthOr(t, u))
      else
        var x, y := EvaluateScalar(l, row), EvaluateScalar(r, row);
        if x.None? || y.None? then None
        else if x.value.SNull? || y.value.SNull? then Some(Unknown)
        else
          var c := CompareScalars(x.value, y.value);
          if c.None? then None else Some(if Holds(op, c.value) then True else False)
    case _ =>
      match EvaluateScalar(b, row)
      case None => None
      case Some(s) => if s.SNull? then Some(Unknown) else if s.SBool? then Some(if s.b then True else False) else None
  }

  function EvaluateScalar(b: Bound, row: Row): (r: Option<Scalar>)
    decreases b, if b.BColumn? || b.BLiteral? then 0 else 2
  {
    match b
    case BColumn(i, _) => if i < |row| then Some(ValueScalar(row[i])) else None
    case BLiteral(s, _) => Some(s)
    case _ =>
      match EvaluateTruth(b, row)
      case None => None
      case Some(t) => Some(ScalarOfTruth(t))
  }

  // ---- Binding preserves meaning ----

  function DatumOfScalar(s: Scalar): (r: Datum) {
    match s
    case SNull => Nothing
    case SU32(u) => Number(u)
    case SI64(i) => Number(i)
    case SBool(b) => Flag(b)
    case SText(t) => Words(t)
    case SInteger(negative, digits) => Number(SqlValues.Number(negative, digits))
  }

  /** A scalar of a bound type: NULL, or of that kind. */
  predicate ScalarFits(t: BoundType, s: Scalar) {
    || s.SNull?
    || (match t
        case NullType => false
        case Uint32 => s.SU32?
        case Int64 => s.SI64?
        case Boolean => s.SBool?
        case Varchar => s.SText?
        case Integer => s.SInteger? && Digits(s.digits))
  }

  /** What binding must deliver for one expression: on this row the bound form never hits a type mismatch and
      yields a scalar of its type that says what the clause means. */
  predicate Faithful(b: Bound, e: Expression, schema: Schema, row: Row) {
    var s := EvaluateScalar(b, row);
    s.Some? && ScalarFits(TypeOf(b), s.value) && DatumOfScalar(s.value) == Meaning(e, schema, row)
  }

  lemma TruthFromScalar(b: Bound, row: Row)
    ensures EvaluateScalar(b, row).Some? && Logical(b) && ScalarFits(TypeOf(b), EvaluateScalar(b, row).value) ==>
              EvaluateTruth(b, row) == Some(TruthOfDatum(DatumOfScalar(EvaluateScalar(b, row).value)))
  {
    if b.BNot? || b.BBinary? {
      var t := EvaluateTruth(b, row);
    }
  }

  lemma CompareFaithful(a: Scalar, b: Scalar, t: BoundType)
    requires ScalarFits(t, a) && ScalarFits(t, b) && !a.SNull? && !b.SNull?
    ensures CompareScalars(a, b) == CompareData(DatumOfScalar(a), DatumOfScalar(b)) && CompareScalars(a, b).Some?
  {
    if a.SInteger? {
      CompareIsNumeric(a.negative, a.digits, b.negative, b.digits);
    }
  }

  /** A converted literal says what the literal said. */
  lemma ContextualFaithful(l: Literal, c: Column, bound: Bound, schema: Schema, row: Row)
    requires LiteralOk(l) && ConvertContextual(l, c, bound).Ok? && Faithful(bound, Constant(l), schema, row)
    ensures Faithful(ConvertContextual(l, c, bound).value, Constant(l), schema, row)
  {
  }

  lemma ColumnFaithful(name: string, schema: Schema, row: Row)
    requires RowFits(schema, row) && Bind(Identifier(name), schema).Ok?
    ensures Faithful(Bind(Identifier(name), schema).value, Identifier(name), schema, row)
  {
    var i := FindColumn(schema, name).value;
    assert ValueFits(schema[i], row[i]);
  }

  /** Every bound clause means what was written, on every row of the schema. In particular the early exits of
      the evaluation change nothing, and no accepted clause ever compares values of different kinds. */
  lemma {:induction false} BindPreservesMeaning(e: Expression, schema: Schema, row: Row)
    requires ExpressionOk(e) && RowFits(schema, row) && Bind(e, schema).Ok?
    ensures Faithful(Bind(e, schema).value, e, schema, row)
  {
    match e
    case Identifier(name) => ColumnFaithful(name, schema, row);
    case Constant(_) =>
    case Not(x) =>
      BindPreservesMeaning(x, schema, row);
      TruthFromScalar(Bind(x, schema).value, row);
    case Binary(op, l, r) =>
      BindPreservesMeaning(l, schema, row);
      BindPreservesMeaning(r, schema, row);
      if op.And? || op.Or? {
        LogicFaithful(op, Bind(l, schema).value, Bind(r, schema).value, l, r, schema, row);
      } else {
        ComparisonFaithful(op, Bind(l, schema).value, Bind(r, schema).value, l, r, schema, row);
      }
  }

  lemma LogicFaithful(op: Operator, bl: Bound, br: Bound, l: Expression, r: Expression, schema: Schema, row: Row)
    requires op.And? || op.Or?
    requires Logical(bl) && Logical(br) && Faithful(bl, l, schema, row) && Faithful(br, r, schema, row)
    ensures Faithful(BBinary(op, bl, br), Binary(op, l, r), schema, row)
  {
    TruthFromScalar(bl, row);
    TruthFromScalar(br, row);
  }

  lemma ComparisonFaithful(op: Operator, bl: Bound, br: Bound, l: Expression, r: Expression, schema: Schema, row: Row)
    requires !op.And? && !op.Or? && ExpressionOk(l) && ExpressionOk(r)
    requires l.Identifier? ==> bl.BColumn? && bl.index < |schema|
    requires r.Identifier? ==> br.BColumn? && br.index < |schema|
    requires ValidateComparison(op, bl, br, l, r, schema).Ok?
    requires Faithful(bl, l, schema, row) && Faithful(br, r, schema, row)
    ensures var (bl', br') := ValidateComparison(op, bl, br, l, r, schema).value;
            Faithful(BBinary(op, bl', br'), Binary(op, l, r), schema, row)
  {
    hide Meaning;
    var (bl', br') := ValidateComparison(op, bl, br, l, r, schema).value;
    if l.Constant? && r.Identifier? && bl' != bl {
      ContextualFaithful(l.literal, schema[br.index], bl, schema, row);
    }
    if l.Identifier? && r.Constant? && br' != br {
      ContextualFaithful(r.literal, schema[bl.index], br, schema, row);
    }
    assert Faithful(bl', l, schema, row) && Faithful(br', r, schema, row);
    ComparedFaithful(op, bl', br', l, r, schema, row);
  }

  lemma ComparedFaithful(op: Operator, bl: Bound, br: Bound, l: Expression, r: Expression, schema: Schema, row: Row)
    requires !op.And? && !op.Or? && Faithful(bl, l, schema, row) && Faithful(br, r, schema, row)
    requires TypeOf(bl).NullType? || TypeOf(br).NullType? || TypeOf(bl) == TypeOf(br)
    ensures Faithful(BBinary(op, bl, br), Binary(op, l, r), schema, row)
  {
    var x, y := EvaluateScalar(bl, row).value, EvaluateScalar(br, row).value;
    if !x.SNull? && !y.SNull? {
      CompareFaithful(x, y, TypeOf(bl));
    }
  }

  /** The truth of an accepted WHERE clause is the truth of what it means. */
  lemma WhereMeans(e: Expression, schema: Schema, row: Row)
    requires ExpressionOk(e) && RowFits(schema, row) && Bind(e, schema).Ok? && Logical(Bind(e, schema).value)
    ensures EvaluateTruth(Bind(e, schema).value, row) == Some(TruthOfDatum(Meaning(e, schema, row)))
  {
    BindPreservesMeaning(e, schema, row);
    TruthFromScalar(Bind(e, schema).value, row);
  }

  // ---- The primary-key shortcut ----

  function MatchKey(column: Bound, literal: Bound, primaryKey: nat): (r: Option<int>) {
    if column.BColumn? && column.index == primaryKey && literal.BLiteral? && literal.scalar.SU32?
    then Some(literal.scalar.u)
    else None
  }

  function PrimaryKeyCandidate(b: Bound, primaryKey: nat): (r: Option<int>) {
    if !b.BBinary? then None
    else if b.op.And? then
      var l := PrimaryKeyCandidate(b.left, primaryKey);
      if l.Some? then l else PrimaryKeyCandidate(b.right, primaryKey)
    else if !b.op.Equal? then None
    else
      var c := MatchKey(b.left, b.right, primaryKey);
      if c.Some? then c else MatchKey(b.right, b.left, primaryKey)
  }

  /** Only the row with the candidate key can satisfy the clause. */
  lemma {:induction false} CandidateNecessary(b: Bound, primaryKey: nat, row: Row)
    requires PrimaryKeyCandidate(b, primaryKey).Some? && EvaluateTruth(b, row) == Some(True)
    ensures primaryKey < |row| && row[primaryKey] == U32(PrimaryKeyCandidate(b, primaryKey).value)
    decreases b
  {
    if b.op.And? {
      if PrimaryKeyCandidate(b.left, primaryKey).Some? {
        CandidateNecessary(b.left, primaryKey, row);
      } else {
        CandidateNecessary(b.right, primaryKey, row);
      }
    }
  }
}
