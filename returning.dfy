/**
 * The RETURNING clause helper of INSERT/UPDATE/DELETE (sql/returning.go).
 * Construction checks the clause, rejects aggregates and window functions,
 * and resolves every target against the table's columns into typed
 * expressions whose indexed variables address the table row. The helper is
 * itself the indexed-variable container of those expressions: every produced
 * row is installed as its current source row and the expressions are
 * evaluated against it.
 *
 * The planner's own name resolution and star expansion are foreign to the
 * modelled file; this module fixes one concrete behaviour for them (a column
 * name resolves to the first table column of that name; `*` expands to the
 * visible columns in table order).
 */
module Returning {
  import opened Wrappers
  import opened Tree

  // ---------------------------------------------------------------------
  // Columns, targets and clauses

  datatype ColumnDescriptor = ColumnDescriptor(name: string, typ: Type, hidden: bool)

  datatype ResultColumn = ResultColumn(name: string, typ: Type, hidden: bool)

  /** An unresolved expression as written in the statement. */
  datatype RawExpr =
    | ColumnName(name: string)
    | Star
    | RawConst(d: Datum)
    | RawPlaceholder(n: nat)
    | RawBinary(op: BinaryOp, left: RawExpr, right: RawExpr)
    | AggregateCall(fn: string, arg: RawExpr)
    | WindowCall(fn: string, arg: RawExpr)

  /** One RETURNING target, with its optional `AS` alias. */
  datatype SelectExpr = SelectExpr(expr: RawExpr, alias: Option<string>)

  /**
   * `tree.ReturningClause`. `OtherClause` stands for any other implementation
   * of the interface, which the constructor does not expect.
   */
  datatype ReturningClause =
    | ReturningExprs(targets: seq<SelectExpr>)
    | ReturningNothing
    | NoReturningClause
    | OtherClause

  datatype PlanError =
    | AggregateNotAllowed(context: string)
    | WindowNotAllowed(context: string)
    | UndefinedColumn(name: string)
    | StarCannotBeAliased
    | StarNotAllowedHere
    | FunctionNotSupported(fn: string)

  /**
   * Errors of construction. `UnexpectedReturningClause` stands for the panic
   * on a clause of an unknown kind.
   */
  datatype HelperError = Plan(err: PlanError) | UnexpectedReturningClause

  /** `ResultColumnsFromColDescs`: the table's columns as result columns. */
  function ResultColumnsFromColDescs(tablecols: seq<ColumnDescriptor>): (cols: seq<ResultColumn>)
    ensures |cols| == |tablecols|
    ensures forall k :: 0 <= k < |tablecols| ==>
      cols[k] == ResultColumn(tablecols[k].name, tablecols[k].typ, tablecols[k].hidden)
  {
    seq(|tablecols|, k requires 0 <= k < |tablecols| =>
      ResultColumn(tablecols[k].name, tablecols[k].typ, tablecols[k].hidden))
  }

  // ---------------------------------------------------------------------
  // Aggregation and windowing

  predicate HasAggregation(e: RawExpr) {
    match e
    case AggregateCall(_, _) => true
    case WindowCall(_, a) => HasAggregation(a)
    case RawBinary(_, l, r) => HasAggregation(l) || HasAggregation(r)
    case _ => false
  }

  predicate HasWindow(e: RawExpr) {
    match e
    case WindowCall(_, _) => true
    case AggregateCall(_, a) => HasWindow(a)
    case RawBinary(_, l, r) => HasWindow(l) || HasWindow(r)
    case _ => false
  }

  /**
   * `AssertNoAggregationOrWindowing`: aggregation is reported before
   * windowing.
   */
  function AssertNoAggregationOrWindowing(e: RawExpr, context: string): (r: Option<PlanError>)
    ensures r.None? <==> !HasAggregation(e) && !HasWindow(e)
    ensures r.Some? ==> r.value in {AggregateNotAllowed(context), WindowNotAllowed(context)}
    ensures HasAggregation(e) ==> r == Some(AggregateNotAllowed(context))
  {
    if HasAggregation(e) then Some(AggregateNotAllowed(context))
    else if HasWindow(e) then Some(WindowNotAllowed(context))
    else None
  }

  /** The check of every target, in order; the first offending target wins. */
  function CheckTargets(ts: seq<SelectExpr>): (r: Option<PlanError>)
    ensures r.None? <==>
      forall k :: 0 <= k < |ts| ==> !HasAggregation(ts[k].expr) && !HasWindow(ts[k].expr)
    ensures r.Some? ==>
      exists k :: 0 <= k < |ts| &&
        r == AssertNoAggregationOrWindowing(ts[k].expr, "RETURNING") &&
        forall j :: 0 <= j < k ==> AssertNoAggregationOrWindowing(ts[j].expr, "RETURNING").None?
    decreases |ts|
  {
    if ts == [] then None
    else
      var front := CheckTargets(ts[..|ts| - 1]);
      if front.Some? then front
      else AssertNoAggregationOrWindowing(ts[|ts| - 1].expr, "RETURNING")
  }

  // ---------------------------------------------------------------------
  // Rendering a target

  /** The first column named `name`, if any. */
  function FindColumn(cols: seq<ResultColumn>, name: string): (r: Option<nat>)
    ensures r.Some? ==> (r.value < |cols| && cols[r.value].name == name &&
      forall j :: 0 <= j < r.value ==> cols[j].name != name)
    ensures r.None? ==> forall j :: 0 <= j < |cols| ==> cols[j].name != name
  {
    if cols == [] then None
    else if cols[0].name == name then Some(0)
    else
      var rest := FindColumn(cols[1..], name);
      if rest.None? then None else Some(rest.value + 1)
  }

  /**
   * Name resolution and type checking of one expression against the source
   * columns: column names become indexed variables.
   */
  function Resolve(e: RawExpr, cols: seq<ResultColumn>): (r: Result<Expr, PlanError>)
    ensures r.Ok? ==> VarsBelow(r.value, |cols|)
  {
    match e
    case ColumnName(n) =>
      var k := FindColumn(cols, n);
      if k.None? then Err(UndefinedColumn(n)) else Ok(IndexedVar(k.value))
    case Star => Err(StarNotAllowedHere)
    case RawConst(d) => Ok(Const(d))
    case RawPlaceholder(n) => Ok(Placeholder(n))
    case RawBinary(op, l, r) =>
      var le :- Resolve(l, cols);
      var re :- Resolve(r, cols);
      Ok(BinExpr(op, le, re))
    case AggregateCall(fn, _) => Err(FunctionNotSupported(fn))
    case WindowCall(fn, _) => Err(FunctionNotSupported(fn))
  }

  /** The resolved type of a typed expression. */
  function TypeOfExpr(e: Expr, cols: seq<ResultColumn>): Type
    requires VarsBelow(e, |cols|)
  {
    match e
    case IndexedVar(i) => cols[i].typ
    case Placeholder(_) => UnknownType
    case Const(d) => TypeOf(d)
    case BinExpr(_, _, _) => IntType
  }

  /** The output name of a non-star target: its alias, else its column name. */
  function OutputName(t: SelectExpr): string {
    if t.alias.Some? then t.alias.value
    else if t.expr.ColumnName? then t.expr.name
    else "?column?"
  }

  /** The ordinals at or after `k` of the columns that are not hidden, in order. */
  function VisibleOrdinals(cols: seq<ResultColumn>, k: nat): (os: seq<nat>)
    requires k <= |cols|
    ensures forall j :: 0 <= j < |os| ==> k <= os[j] < |cols| && !cols[os[j]].hidden
    ensures forall i :: k <= i < |cols| && !cols[i].hidden ==> i in os
    ensures forall j, j' :: 0 <= j < j' < |os| ==> os[j] < os[j']
    decreases |cols| - k
  {
    if k == |cols| then []
    else if cols[k].hidden then VisibleOrdinals(cols, k + 1)
    else [k] + VisibleOrdinals(cols, k + 1)
  }

  /** The column list of a rendering together with its expressions. */
  predicate Describes(cs: seq<ResultColumn>, es: seq<Expr>, cols: seq<ResultColumn>) {
    |cs| == |es| &&
    (forall k :: 0 <= k < |es| ==> VarsBelow(es[k], |cols|)) &&
    forall k :: 0 <= k < |es| ==> cs[k].typ == TypeOfExpr(es[k], cols)
  }

  /**
   * `computeRenderAllowingStars`: an unaliased `*` expands to one indexed
   * variable per visible source column; any other target yields one column
   * and one expression.
   */
  function ComputeRender(t: SelectExpr, cols: seq<ResultColumn>)
    : (r: Result<(seq<ResultColumn>, seq<Expr>), PlanError>)
    ensures r.Ok? ==> Describes(r.value.0, r.value.1, cols)
    ensures t.expr != Star && r.Ok? ==> |r.value.1| == 1
  {
    if t.expr == Star then
      if t.alias.Some? then Err(StarCannotBeAliased)
      else
        var os := VisibleOrdinals(cols, 0);
        Ok((seq(|os|, j requires 0 <= j < |os| => cols[os[j]]),
            seq(|os|, j requires 0 <= j < |os| => IndexedVar(os[j]))))
    else
      var e :- Resolve(t.expr, cols);
      Ok(([ResultColumn(OutputName(t), TypeOfExpr(e, cols), false)], [e]))
  }

  /**
   * Rendering of every target in order: the columns and the expressions are
   * the concatenations of the targets' own, and the first failing target
   * aborts.
   */
  function RenderAll(ts: seq<SelectExpr>, cols: seq<ResultColumn>)
    : (r: Result<(seq<ResultColumn>, seq<Expr>), PlanError>)
    ensures r.Ok? ==> Describes(r.value.0, r.value.1, cols)
    ensures r.Ok? <==> forall k :: 0 <= k < |ts| ==> ComputeRender(ts[k], cols).Ok?
    ensures r.Err? ==>
      exists k :: 0 <= k < |ts| &&
        ComputeRender(ts[k], cols) == Err(r.error) &&
        forall j :: 0 <= j < k ==> ComputeRender(ts[j], cols).Ok?
    decreases |ts|
  {
    if ts == [] then Ok(([], []))
    else
      var front :- RenderAll(ts[..|ts| - 1], cols);
      var last :- ComputeRender(ts[|ts| - 1], cols);
      Ok((front.0 + last.0, front.1 + last.1))
  }

  /**
   * What `newReturningHelper` builds: `None` when there is nothing to return,
   * else the columns and expressions of the targets.
   */
  function PlanReturning(r: ReturningClause, tablecols: seq<ColumnDescriptor>)
    : (p: Result<Option<(seq<ResultColumn>, seq<Expr>)>, HelperError>)
    ensures p.Ok? && p.value.Some? ==>
      Describes(p.value.value.0, p.value.value.1, ResultColumnsFromColDescs(tablecols))
  {
    match r
    case ReturningNothing => Ok(None)
    case NoReturningClause => Ok(None)
    case OtherClause => Err(UnexpectedReturningClause)
    case ReturningExprs(ts) =>
      var check := CheckTargets(ts);
      if check.Some? then Err(Plan(check.value))
      else
        match RenderAll(ts, ResultColumnsFromColDescs(tablecols))
        case Err(e) => Err(Plan(e))
        case Ok(rendered) => Ok(Some(rendered))
  }

  // ---------------------------------------------------------------------
  // Evaluating a row

  /**
   * The row the expressions produce against the source row `row`:
   * expressions are evaluated in order and the first error aborts.
   */
  function EvalRow(es: seq<Expr>, row: seq<Datum>, ctx: EvalContext): (r: Result<seq<Datum>, EvalError>)
    requires forall k :: 0 <= k < |es| ==> VarsBelow(es[k], |row|)
    ensures r.Ok? ==> (|r.value| == |es| &&
      forall k :: 0 <= k < |es| ==> Eval(es[k], row, ctx) == Ok(r.value[k]))
    ensures r.Ok? <==> forall k :: 0 <= k < |es| ==> Eval(es[k], row, ctx).Ok?
    ensures r.Err? ==>
      exists k :: 0 <= k < |es| &&
        Eval(es[k], row, ctx) == Err(r.error) &&
        forall j :: 0 <= j < k ==> Eval(es[j], row, ctx).Ok?
    decreases |es|
  {
    if es == [] then Ok([])
    else
      var front :- EvalRow(es[..|es| - 1], row, ctx);
      var d :- Eval(es[|es| - 1], row, ctx);
      Ok(front + [d])
  }

  /** Once a prefix of the expressions fails, the whole row fails the same way. */
  lemma {:induction false} EvalRowPrefixError(es: seq<Expr>, n: nat, row: seq<Datum>, ctx: EvalContext)
    requires n <= |es|
    requires forall k :: 0 <= k < |es| ==> VarsBelow(es[k], |row|)
    requires EvalRow(es[..n], row, ctx).Err?
    ensures EvalRow(es, row, ctx) == EvalRow(es[..n], row, ctx)
    decreases |es|
  {
    if n < |es| {
      var front := es[..|es| - 1];
      assert front[..n] == es[..n];
      EvalRowPrefixError(front, n, row, ctx);
    } else {
      assert es[..n] == es;
    }
  }

  // ---------------------------------------------------------------------
  // The helper

  /**
   * `returningHelper`. It must stay at one address, since the indexed
   * variables of `exprs` refer back to it as their container; a class
   * reference has exactly that identity.
   */
  class ReturningHelper {
    /** The result columns. */
    var columns: seq<ResultColumn>
    /** The expressions, or `None` (Go's nil) when the statement returns no rows. */
    var exprs: Option<seq<Expr>>
    /** Rows passed through when there are no expressions. */
    var rowCount: int
    /** The source columns the expressions were resolved against. */
    var source: Option<seq<ResultColumn>>
    /** The row the expressions' indexed variables currently read. */
    var curSourceRow: seq<Datum>

    predicate Valid()
      reads this
    {
      exprs.Some? ==> source.Some? && Describes(columns, exprs.value, source.value)
    }

    /** `&returningHelper{p: p}`: every field at its zero value. */
    constructor ()
      ensures columns == [] && exprs.None? && rowCount == 0 && source.None? && curSourceRow == []
      ensures Valid()
    {
      columns := [];
      exprs := None;
      rowCount := 0;
      source := None;
      curSourceRow := [];
    }

    /**
     * `cookResultRow`. Without expressions the row itself is returned and
     * counted. Otherwise the row becomes the current source row, every
     * expression is evaluated against it in order and the first error is
     * returned instead of a row; the count is left alone.
     */
    method CookResultRow(rowVals: seq<Datum>, evalCtx: EvalContext) returns (r: Result<seq<Datum>, EvalError>)
      requires Valid()
      requires exprs.Some? ==> |rowVals| == |source.value|
      modifies this
      ensures Valid()
      ensures columns == old(columns) && exprs == old(exprs) && source == old(source)
      ensures old(exprs).None? ==>
        r == Ok(rowVals) && rowCount == old(rowCount) + 1 && curSourceRow == old(curSourceRow)
      ensures old(exprs).Some? ==>
        rowCount == old(rowCount) && curSourceRow == rowVals &&
        r == EvalRow(exprs.value, rowVals, evalCtx)
    {
      if exprs.None? {
        rowCount := rowCount + 1;
        return Ok(rowVals);
      }
      curSourceRow := rowVals;
      var es := exprs.value;
      var resRow := new Datum[|es|];
      for i := 0 to |es|
        invariant curSourceRow == rowVals && exprs == Some(es)
        invariant columns == old(columns) && source == old(source) && rowCount == old(rowCount)
        invariant EvalRow(es[..i], rowVals, evalCtx) == Ok(resRow[..i])
      {
        var d := Eval(es[i], curSourceRow, evalCtx);
        assert es[..i + 1][..i] == es[..i];
        if d.Err? {
          EvalRowPrefixError(es, i + 1, rowVals, evalCtx);
          return Err(d.error);
        }
        resRow[i] := d.value;
        assert resRow[..i + 1] == resRow[..i] + [d.value];
      }
      assert es[..|es|] == es;
      assert resRow[..] == resRow[..|es|];
      return Ok(resRow[..]);
    }

    /**
     * `IndexedVarEval`: an indexed variable bound to this helper reads the
     * current source row at its ordinal.
     */
    function IndexedVarEval(idx: nat): (d: Datum)
      reads this
      requires idx < |curSourceRow|
      ensures Eval(IndexedVar(idx), curSourceRow, EvalContext(map[])) == Ok(d)
    {
      curSourceRow[idx]
    }

    /** `IndexedVarResolvedType`: the type of source column `idx`. */
    function IndexedVarResolvedType(idx: nat): (t: Type)
      reads this
      requires source.Some? && idx < |source.value|
      ensures t == TypeOfExpr(IndexedVar(idx), source.value)
    {
      source.value[idx].typ
    }

    /**
     * `IndexedVarFormat`: the source's name for column `idx`. Name
     * resolution reads the printed name back as column `idx` unless an
     * earlier column has the same name.
     */
    function IndexedVarFormat(idx: nat): (s: string)
      reads this
      requires source.Some? && idx < |source.value|
      ensures FindColumn(source.value, s).Some? && FindColumn(source.value, s).value <= idx
      ensures (forall k :: 0 <= k < idx ==> source.value[k].name != source.value[idx].name) <==>
        FindColumn(source.value, s) == Some(idx)
    {
      source.value[idx].name
    }
  }

  /** The aggregation and windowing check of every target, in order. */
  method CheckAllTargets(targets: seq<SelectExpr>) returns (check: Option<PlanError>)
    ensures check == CheckTargets(targets)
  {
    for i := 0 to |targets|
      invariant CheckTargets(targets[..i]).None?
    {
      check := AssertNoAggregationOrWindowing(targets[i].expr, "RETURNING");
      assert targets[..i + 1][..i] == targets[..i];
      if check.Some? {
        CheckTargetsPrefix(targets, i + 1);
        return;
      }
    }
    assert targets[..|targets|] == targets;
    return None;
  }

  /** Once a prefix of the targets fails the check, all of them fail it the same way. */
  lemma {:induction false} CheckTargetsPrefix(ts: seq<SelectExpr>, n: nat)
    requires n <= |ts|
    requires CheckTargets(ts[..n]).Some?
    ensures CheckTargets(ts) == CheckTargets(ts[..n])
    decreases |ts|
  {
    if n < |ts| {
      var front := ts[..|ts| - 1];
      assert front[..n] == ts[..n];
      CheckTargetsPrefix(front, n);
    } else {
      assert ts[..n] == ts;
    }
  }

  /**
   * The rendering loop of `newReturningHelper`: each target's columns and
   * expressions are appended in order; the first failing target aborts.
   */
  method RenderTargets(targets: seq<SelectExpr>, src: seq<ResultColumn>)
    returns (r: Result<(seq<ResultColumn>, seq<Expr>), PlanError>)
    ensures r == RenderAll(targets, src)
  {
    var columns: seq<ResultColumn> := [];
    var exprs: seq<Expr> := [];
    for i := 0 to |targets|
      invariant RenderAll(targets[..i], src) == Ok((columns, exprs))
    {
      var rendered := ComputeRender(targets[i], src);
      assert targets[..i + 1][..i] == targets[..i];
      if rendered.Err? {
        RenderAllPrefix(targets, i + 1, src);
        return Err(rendered.error);
      }
      columns := columns + rendered.value.0;
      exprs := exprs + rendered.value.1;
    }
    assert targets[..|targets|] == targets;
    return Ok((columns, exprs));
  }

  /**
   * `newReturningHelper`: dispatches on the clause kind, checks every target
   * for aggregation and windowing before rendering any of them, then appends
   * each target's columns and expressions in order. On an error no helper is
   * returned.
   */
  method NewReturningHelper(r: ReturningClause, tablecols: seq<ColumnDescriptor>)
    returns (rh: ReturningHelper?, err: Option<HelperError>)
    ensures var plan := PlanReturning(r, tablecols);
      match plan
      case Err(e) => rh == null && err == Some(e)
      case Ok(None) =>
        err.None? && rh != null && fresh(rh) &&
        rh.exprs.None? && rh.columns == [] && rh.source.None? &&
        rh.rowCount == 0 && rh.curSourceRow == []
      case Ok(Some(rendered)) =>
        err.None? && rh != null && fresh(rh) && rh.Valid() &&
        rh.columns == rendered.0 && rh.exprs == Some(rendered.1) &&
        rh.source == Some(ResultColumnsFromColDescs(tablecols)) &&
        rh.rowCount == 0 && rh.curSourceRow == []
  {
    rh := new ReturningHelper();
    var targets: seq<SelectExpr>;
    match r {
      case ReturningExprs(ts) =>
        targets := ts;
      case ReturningNothing =>
        return rh, None;
      case NoReturningClause =>
        return rh, None;
      case OtherClause =>
        return null, Some(UnexpectedReturningClause);
    }

    var check := CheckAllTargets(targets);
    if check.Some? {
      return null, Some(Plan(check.value));
    }

    var src := ResultColumnsFromColDescs(tablecols);
    var rendered := RenderTargets(targets, src);
    if rendered.Err? {
      return null, Some(Plan(rendered.error));
    }
    rh.columns := rendered.value.0;
    rh.source := Some(src);
    rh.exprs := Some(rendered.value.1);
    return rh, None;
  }

  /** Once a prefix of the targets fails to render, all of them fail the same way. */
  lemma {:induction false} RenderAllPrefix(ts: seq<SelectExpr>, n: nat, cols: seq<ResultColumn>)
    requires n <= |ts|
    requires RenderAll(ts[..n], cols).Err?
    ensures RenderAll(ts, cols) == RenderAll(ts[..n], cols)
    decreases |ts|
  {
    if n < |ts| {
      var front := ts[..|ts| - 1];
      assert front[..n] == ts[..n];
      RenderAllPrefix(front, n, cols);
    } else {
      assert ts[..n] == ts;
    }
  }

  // ---------------------------------------------------------------------
  // Properties of construction and of cooked rows

  /**
   * A target that aggregates or windows makes construction fail with the
   * aggregation or windowing error, even when another target could not be
   * rendered at all: the check runs over all targets first.
   */
  lemma AggregationRejected(ts: seq<SelectExpr>, tablecols: seq<ColumnDescriptor>, k: nat)
    requires k < |ts| && (HasAggregation(ts[k].expr) || HasWindow(ts[k].expr))
    ensures PlanReturning(ReturningExprs(ts), tablecols).Err?
    ensures PlanReturning(ReturningExprs(ts), tablecols).error
         in {Plan(AggregateNotAllowed("RETURNING")), Plan(WindowNotAllowed("RETURNING"))}
  {
    var check := CheckTargets(ts);
    assert check.Some?;
    var j :| 0 <= j < |ts| && check == AssertNoAggregationOrWindowing(ts[j].expr, "RETURNING");
  }

  /**
   * Without aggregation or windowing, construction succeeds exactly when
   * every target renders, and the helper's columns and expressions are the
   * concatenation of the targets' own, in order.
   */
  lemma {:induction false} PlanConcatenatesTargets(ts: seq<SelectExpr>, t: SelectExpr, tablecols: seq<ColumnDescriptor>)
    requires CheckTargets(ts + [t]).None?
    requires PlanReturning(ReturningExprs(ts), tablecols).Ok?
    requires ComputeRender(t, ResultColumnsFromColDescs(tablecols)).Ok?
    ensures PlanReturning(ReturningExprs(ts + [t]), tablecols) ==
      Ok(Some((PlanReturning(ReturningExprs(ts), tablecols).value.value.0
                 + ComputeRender(t, ResultColumnsFromColDescs(tablecols)).value.0,
               PlanReturning(ReturningExprs(ts), tablecols).value.value.1
                 + ComputeRender(t, ResultColumnsFromColDescs(tablecols)).value.1)))
  {
    assert (ts + [t])[..|ts + [t]| - 1] == ts;
    assert forall k :: 0 <= k < |ts| ==> ts[k] == (ts + [t])[k];
    assert CheckTargets(ts).None?;
  }

  /**
   * An explicit empty RETURNING list gives a helper whose expressions are
   * present but empty: every cooked row is empty and no row is counted.
   */
  lemma EmptyReturningList(tablecols: seq<ColumnDescriptor>, row: seq<Datum>, ctx: EvalContext)
    ensures PlanReturning(ReturningExprs([]), tablecols) == Ok(Some(([], [])))
    ensures EvalRow([], row, ctx) == Ok([])
  {
  }

  /**
   * A statement with `RETURNING NOTHING` passes rows through and counts
   * them; an explicit empty list cooks empty rows and counts nothing.
   */
  method PassThroughScenario() returns (r1: Result<seq<Datum>, EvalError>, count1: int,
                                        r2: Result<seq<Datum>, EvalError>, count2: int)
    ensures r1 == Ok([DInt(7)]) && count1 == 2
    ensures r2 == Ok([]) && count2 == 0
  {
    var tablecols := [ColumnDescriptor("a", IntType, false)];
    var ctx := EvalContext(map[]);
    var rh, err := NewReturningHelper(ReturningNothing, tablecols);
    r1 := rh.CookResultRow([DInt(5)], ctx);
    r1 := rh.CookResultRow([DInt(7)], ctx);
    count1 := rh.rowCount;

    var rh2, err2 := NewReturningHelper(ReturningExprs([]), tablecols);
    assert CheckTargets([]) == None;
    r2 := rh2.CookResultRow([DInt(7)], ctx);
    count2 := rh2.rowCount;
  }

  /** A table `(a, b, rowid)` whose `rowid` is hidden. */
  const ScenarioTable: seq<ColumnDescriptor> :=
    [ColumnDescriptor("a", IntType, false), ColumnDescriptor("b", IntType, false),
     ColumnDescriptor("rowid", IntType, true)]

  /** `RETURNING *, a * 2, $1`. */
  const ScenarioTargets: seq<SelectExpr> :=
    [SelectExpr(Star, None),
     SelectExpr(RawBinary(Mult, ColumnName("a"), RawConst(DInt(2))), None),
     SelectExpr(RawPlaceholder(1), None)]

  const ScenarioExprs: seq<Expr> :=
    [IndexedVar(0), IndexedVar(1), BinExpr(Mult, IndexedVar(0), Const(DInt(2))), Placeholder(1)]

  lemma RenderAllSnoc(ts: seq<SelectExpr>, t: SelectExpr, cols: seq<ResultColumn>)
    requires RenderAll(ts, cols).Ok? && ComputeRender(t, cols).Ok?
    ensures RenderAll(ts + [t], cols) ==
      Ok((RenderAll(ts, cols).value.0 + ComputeRender(t, cols).value.0,
          RenderAll(ts, cols).value.1 + ComputeRender(t, cols).value.1))
  {
    assert (ts + [t])[..|ts|] == ts;
  }

  lemma EvalRowSnoc(es: seq<Expr>, e: Expr, row: seq<Datum>, ctx: EvalContext)
    requires forall k :: 0 <= k < |es| ==> VarsBelow(es[k], |row|)
    requires VarsBelow(e, |row|)
    requires EvalRow(es, row, ctx).Ok? && Eval(e, row, ctx).Ok?
    ensures EvalRow(es + [e], row, ctx) == Ok(EvalRow(es, row, ctx).value + [Eval(e, row, ctx).value])
  {
    assert (es + [e])[..|es|] == es;
  }

  const ScenarioColumns: seq<ResultColumn> :=
    [ResultColumn("a", IntType, false), ResultColumn("b", IntType, false),
     ResultColumn("?column?", IntType, false), ResultColumn("?column?", UnknownType, false)]

  /** The star expands to the visible columns `a` and `b`; `rowid` is left out. */
  lemma ScenarioStarRender(src: seq<ResultColumn>)
    requires src == ResultColumnsFromColDescs(ScenarioTable)
    ensures ComputeRender(ScenarioTargets[0], src) == Ok((ScenarioColumns[..2], ScenarioExprs[..2]))
  {
    var ca, cb := ResultColumn("a", IntType, false), ResultColumn("b", IntType, false);
    assert src[0] == ca && src[1] == cb && src[2].hidden;
    assert VisibleOrdinals(src, 2) == [];
    assert VisibleOrdinals(src, 1) == [1] + [];
    var os := VisibleOrdinals(src, 0);
    assert os == [0, 1];
    assert seq(|os|, j requires 0 <= j < |os| => src[os[j]]) == [ca, cb];
    assert seq(|os|, j requires 0 <= j < |os| => IndexedVar(os[j])) == [IndexedVar(0), IndexedVar(1)];
    assert ScenarioColumns[..2] == [ca, cb];
    assert ScenarioExprs[..2] == [IndexedVar(0), IndexedVar(1)];
  }

  /** `a * 2` resolves `a` to ordinal 0; `$1` stays a placeholder. */
  lemma ScenarioTargetsRender(src: seq<ResultColumn>)
    requires src == ResultColumnsFromColDescs(ScenarioTable)
    ensures ComputeRender(ScenarioTargets[1], src) == Ok(([ScenarioColumns[2]], [ScenarioExprs[2]]))
    ensures ComputeRender(ScenarioTargets[2], src) == Ok(([ScenarioColumns[3]], [ScenarioExprs[3]]))
  {
    assert src[0] == ResultColumn("a", IntType, false);
    assert FindColumn(src, "a") == Some(0);
    assert Resolve(ScenarioTargets[1].expr, src) == Ok(ScenarioExprs[2]);
  }

  /** Three targets that each render give, rendered together, their outputs side by side. */
  lemma RenderThree(t0: SelectExpr, t1: SelectExpr, t2: SelectExpr, cols: seq<ResultColumn>,
                    c0: seq<ResultColumn>, c1: seq<ResultColumn>, c2: seq<ResultColumn>,
                    e0: seq<Expr>, e1: seq<Expr>, e2: seq<Expr>)
    requires ComputeRender(t0, cols) == Ok((c0, e0))
    requires ComputeRender(t1, cols) == Ok((c1, e1))
    requires ComputeRender(t2, cols) == Ok((c2, e2))
    ensures RenderAll([t0, t1, t2], cols) == Ok((c0 + c1 + c2, e0 + e1 + e2))
  {
    assert RenderAll([], cols) == Ok(([], []));
    RenderAllSnoc([], t0, cols);
    assert [] + [t0] == [t0] && [] + c0 == c0 && [] + e0 == e0;
    RenderAllSnoc([t0], t1, cols);
    assert [t0] + [t1] == [t0, t1];
    RenderAllSnoc([t0, t1], t2, cols);
    assert [t0, t1] + [t2] == [t0, t1, t2];
  }

  /** The scenario's columns and expressions are those of its three targets, side by side. */
  lemma ScenarioPieces()
    ensures ScenarioTargets == [ScenarioTargets[0], ScenarioTargets[1], ScenarioTargets[2]]
    ensures ScenarioColumns == ScenarioColumns[..2] + [ScenarioColumns[2]] + [ScenarioColumns[3]]
    ensures ScenarioExprs == ScenarioExprs[..2] + [ScenarioExprs[2]] + [ScenarioExprs[3]]
  {
  }

  lemma ScenarioRender(src: seq<ResultColumn>)
    requires src == ResultColumnsFromColDescs(ScenarioTable)
    ensures RenderAll(ScenarioTargets, src) == Ok((ScenarioColumns, ScenarioExprs))
  {
    var cs, es := ScenarioColumns, ScenarioExprs;
    ScenarioStarRender(src);
    ScenarioTargetsRender(src);
    RenderThree(ScenarioTargets[0], ScenarioTargets[1], ScenarioTargets[2], src,
                cs[..2], [cs[2]], [cs[3]], es[..2], [es[2]], [es[3]]);
    ScenarioPieces();
  }

  /** `RETURNING *, a * 2, $1` plans to four columns; `rowid` is left out. */
  lemma ScenarioPlan()
    ensures PlanReturning(ReturningExprs(ScenarioTargets), ScenarioTable) ==
      Ok(Some((ScenarioColumns, ScenarioExprs)))
  {
    ScenarioRender(ResultColumnsFromColDescs(ScenarioTable));
    assert CheckTargets(ScenarioTargets) == None;
  }

  /** The cooked row of the scenario reads the installed source row. */
  lemma ScenarioRow(row: seq<Datum>, ctx: EvalContext)
    requires row == [DInt(10), DInt(20), DInt(99)] && ctx == EvalContext(map[1 := DBool(true)])
    ensures EvalRow(ScenarioExprs, row, ctx) == Ok([DInt(10), DInt(20), DInt(20), DBool(true)])
  {
    var v0, v1, e2, e3 := IndexedVar(0), IndexedVar(1), BinExpr(Mult, IndexedVar(0), Const(DInt(2))), Placeholder(1);
    assert |row| == 3 && row[0] == DInt(10) && row[1] == DInt(20);
    assert VarsBelow(v0, 3) && VarsBelow(v1, 3) && VarsBelow(e2, 3);
    assert Eval(v0, row, ctx) == Ok(DInt(10));
    assert Eval(v1, row, ctx) == Ok(DInt(20));
    assert Eval(e2, row, ctx) == Ok(DInt(20));
    assert Eval(e3, row, ctx) == Ok(DBool(true));
    var es := ScenarioExprs;
    assert es == [v0, v1, e2, e3];
    assert forall k :: 0 <= k < 4 ==> VarsBelow(es[k], |row|);
    var r := EvalRow(es, row, ctx);
    assert r.Ok?;
    assert |r.value| == 4;
    assert Eval(es[0], row, ctx) == Ok(r.value[0]);
    assert Eval(es[1], row, ctx) == Ok(r.value[1]);
    assert Eval(es[2], row, ctx) == Ok(r.value[2]);
    assert Eval(es[3], row, ctx) == Ok(r.value[3]);
    assert r.value[0] == DInt(10) && r.value[1] == DInt(20);
    assert r.value[2] == DInt(20) && r.value[3] == DBool(true);
    assert r.value == [DInt(10), DInt(20), DInt(20), DBool(true)];
  }

  /**
   * `RETURNING *, a * 2, $1` over the scenario table, cooking the row
   * `(10, 20, 99)` with `$1 = true`.
   */
  method CookScenario() returns (r: Result<seq<Datum>, EvalError>, names: seq<string>)
    ensures r == Ok([DInt(10), DInt(20), DInt(20), DBool(true)])
    ensures names == ["a", "b", "?column?", "?column?"]
  {
    assert ScenarioColumns[0].name == "a" && ScenarioColumns[1].name == "b";
    ScenarioPlan();
    var rh, err := NewReturningHelper(ReturningExprs(ScenarioTargets), ScenarioTable);
    assert rh != null && rh.columns == ScenarioColumns && rh.exprs == Some(ScenarioExprs);
    assert rh.source.Some? && |rh.source.value| == 3;
    var ctx := EvalContext(map[1 := DBool(true)]);
    var row := [DInt(10), DInt(20), DInt(99)];
    ScenarioRow(row, ctx);
    r := rh.CookResultRow(row, ctx);
    var cols := rh.columns;
    names := [cols[0].name, cols[1].name, cols[2].name, cols[3].name];
  }
}
