/**
 * A small stand-in for the engine's typed expression trees (package sem/tree):
 * datums, typed expressions whose column references are indexed variables,
 * placeholders bound through an evaluation context, evaluation against the
 * current row of an indexed-variable container, and the generic formatter with
 * its two interception hooks (placeholder formatting and indexed-variable
 * formatting). The real formatter, evaluator and datum printer are foreign to
 * the modelled core; this module fixes one concrete behaviour for them so that
 * the core's own properties can be stated and proved.
 */
module Tree {
  import opened Wrappers

  /** Resolved column and expression types. */
  datatype Type = IntType | BoolType | UnknownType

  /** Values held in rows and produced by evaluation. */
  datatype Datum = DNull | DInt(i: int) | DBool(b: bool)

  datatype BinaryOp = Plus | Minus | Mult | Div

  /**
   * A typed expression. `IndexedVar(i)` refers to ordinal `i` of the row of the
   * container it was bound against; `Placeholder(n)` is the statement
   * parameter `$n`.
   */
  datatype Expr =
    | IndexedVar(idx: nat)
    | Placeholder(name: nat)
    | Const(d: Datum)
    | BinExpr(op: BinaryOp, left: Expr, right: Expr)

  /** Session state used by evaluation: here only the placeholder bindings. */
  datatype EvalContext = EvalContext(placeholders: map<nat, Datum>)

  datatype EvalError =
    | NoValueForPlaceholder(name: nat)
    | DivisionByZero
    | UnsupportedBinaryOp(op: BinaryOp)

  function TypeOf(d: Datum): Type {
    match d
    case DNull => UnknownType
    case DInt(_) => IntType
    case DBool(_) => BoolType
  }

  // ---------------------------------------------------------------------
  // Variables and placeholders referenced by an expression

  /** The indexed-variable ordinals of `e`, left to right, with repetitions. */
  function Vars(e: Expr): seq<nat> {
    match e
    case IndexedVar(i) => [i]
    case Placeholder(_) => []
    case Const(_) => []
    case BinExpr(_, l, r) => Vars(l) + Vars(r)
  }

  /** Every variable of `e` addresses an ordinal below `n`. */
  predicate VarsBelow(e: Expr, n: nat) {
    match e
    case IndexedVar(i) => i < n
    case Placeholder(_) => true
    case Const(_) => true
    case BinExpr(_, l, r) => VarsBelow(l, n) && VarsBelow(r, n)
  }

  /** The placeholders of `e`. */
  function Placeholders(e: Expr): set<nat> {
    match e
    case IndexedVar(_) => {}
    case Placeholder(n) => {n}
    case Const(_) => {}
    case BinExpr(_, l, r) => Placeholders(l) + Placeholders(r)
  }

  // ---------------------------------------------------------------------
  // Evaluation

  /** `Placeholder.Eval`: the bound value, or an error when none is bound. */
  function EvalPlaceholder(name: nat, ctx: EvalContext): (r: Result<Datum, EvalError>)
    ensures r.Ok? <==> name in ctx.placeholders
  {
    if name in ctx.placeholders then Ok(ctx.placeholders[name])
    else Err(NoValueForPlaceholder(name))
  }

  /** Go's integer division, which truncates toward zero. */
  function TruncDiv(a: int, b: int): int
    requires b != 0
  {
    if (a >= 0) == (b > 0) then (if a >= 0 then a / b else (-a) / (-b))
    else -((if a >= 0 then a else -a) / (if b > 0 then b else -b))
  }

  function ApplyOp(op: BinaryOp, a: Datum, b: Datum): Result<Datum, EvalError> {
    if a.DNull? || b.DNull? then Ok(DNull)
    else if !a.DInt? || !b.DInt? then Err(UnsupportedBinaryOp(op))
    else
      match op
      case Plus => Ok(DInt(a.i + b.i))
      case Minus => Ok(DInt(a.i - b.i))
      case Mult => Ok(DInt(a.i * b.i))
      case Div => if b.i == 0 then Err(DivisionByZero) else Ok(DInt(TruncDiv(a.i, b.i)))
  }

  /**
   * `TypedExpr.Eval`. Indexed variables are resolved through the container
   * the expression was bound to; `row` is that container's current row, the
   * only state an indexed variable reads. Operands are evaluated left to right
   * and the first error aborts.
   */
  function Eval(e: Expr, row: seq<Datum>, ctx: EvalContext): Result<Datum, EvalError>
    requires VarsBelow(e, |row|)
  {
    match e
    case IndexedVar(i) => Ok(row[i])
    case Placeholder(n) => EvalPlaceholder(n, ctx)
    case Const(d) => Ok(d)
    case BinExpr(op, l, r) =>
      var a :- Eval(l, row, ctx);
      var b :- Eval(r, row, ctx);
      ApplyOp(op, a, b)
  }

  // ---------------------------------------------------------------------
  // Text

  predicate IsDigit(c: char) { 48 <= c as int <= 57 }

  function DigitChar(d: nat): (c: char)
    requires d < 10
    ensures IsDigit(c)
  {
    (48 + d) as char
  }

  /** The decimal digits of `n`, most significant first, without leading zeros. */
  function Decimal(n: nat): (s: string)
    ensures |s| > 0 && forall k :: 0 <= k < |s| ==> IsDigit(s[k])
  {
    if n < 10 then [DigitChar(n)] else Decimal(n / 10) + [DigitChar(n % 10)]
  }

  function FormatInt(i: int): string {
    if i < 0 then "-" + Decimal(-i) else Decimal(i)
  }

  /** `Datum.Format` in parsable form. */
  function FormatDatum(d: Datum): string {
    match d
    case DNull => "NULL"
    case DInt(i) => FormatInt(i)
    case DBool(b) => if b then "true" else "false"
  }

  function OpSymbol(op: BinaryOp): string {
    match op
    case Plus => "+"
    case Minus => "-"
    case Mult => "*"
    case Div => "/"
  }

  lemma FormatDatumHasNoMarker(d: Datum)
    ensures '@' !in FormatDatum(d) && '$' !in FormatDatum(d)
  {
    if d.DInt? {
      var s := Decimal(if d.i < 0 then -d.i else d.i);
      assert forall k :: 0 <= k < |s| ==> IsDigit(s[k]);
    }
  }

  // ---------------------------------------------------------------------
  // The generic formatter and its interception hooks

  /**
   * Fatal conditions raised (as Go panics) by interceptors installed by the
   * expression serialiser; they are internal-invariant violations, not data
   * errors.
   */
  datatype Fatal =
    | PlaceholderNotSerializable(name: nat, cause: EvalError)
    | UnmappedIndex(idx: nat)
    | IndexOutOfRange(idx: nat)

  type Rendered = Result<string, Fatal>

  /**
   * `FmtFlags`: the parsable base format plus optional interceptors for
   * placeholders and for indexed variables.
   */
  datatype FmtFlags = FmtFlags(
    placeholderFormat: Option<nat -> Rendered>,
    indexedVarFormat: Option<nat -> Rendered>)

  const FmtParsable: FmtFlags := FmtFlags(None, None)

  function FmtPlaceholderFormat(base: FmtFlags, fn: nat -> Rendered): (f: FmtFlags)
    ensures f.placeholderFormat == Some(fn) && f.indexedVarFormat == base.indexedVarFormat
  {
    base.(placeholderFormat := Some(fn))
  }

  function FmtIndexedVarFormat(base: FmtFlags, fn: nat -> Rendered): (f: FmtFlags)
    ensures f.indexedVarFormat == Some(fn) && f.placeholderFormat == base.placeholderFormat
  {
    base.(indexedVarFormat := Some(fn))
  }

  /**
   * `FormatNode`: renders `e`, handing each placeholder and each indexed
   * variable to the installed interceptor. Without an interceptor a
   * placeholder prints as `$n` and a variable as `@<i+1>`. A panic inside an
   * interceptor aborts the whole rendering; sub-expressions are rendered left
   * to right, so the first panic wins.
   */
  function FormatNode(flags: FmtFlags, e: Expr): Rendered {
    match e
    case IndexedVar(i) =>
      if flags.indexedVarFormat.Some? then flags.indexedVarFormat.value(i)
      else Ok("@" + Decimal(i + 1))
    case Placeholder(n) =>
      if flags.placeholderFormat.Some? then flags.placeholderFormat.value(n)
      else Ok("$" + Decimal(n))
    case Const(d) => Ok(FormatDatum(d))
    case BinExpr(op, l, r) =>
      var ls :- FormatNode(flags, l);
      var rs :- FormatNode(flags, r);
      Ok("(" + ls + " " + OpSymbol(op) + " " + rs + ")")
  }
}
