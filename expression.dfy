/**
 * The expression wire serialiser of the distributed SQL planner
 * (distsqlplan/expression.go): a typed expression is rendered as parsable text
 * in which every placeholder is replaced by the text of its value and every
 * indexed variable `i` is written `@<j+1>`, where `j` is `i` itself or, when a
 * remap table is supplied, the table's entry for `i`.
 */
module DistSQLExpression {
  import opened Wrappers
  import opened Tree

  /** `distsqlrun.Expression`: the wire form, a single string. */
  datatype Expression = Expression(expr: string)

  // ---------------------------------------------------------------------
  // The two interceptors

  /**
   * The placeholder interceptor of `exprFmtFlagsBase`: evaluates the
   * placeholder now and prints its value; a failed evaluation is fatal.
   */
  function PlaceholderInterceptor(evalCtx: EvalContext, name: nat): (r: Rendered)
    ensures r.Ok? <==> name in evalCtx.placeholders
    ensures r.Err? ==> r.error == PlaceholderNotSerializable(name, NoValueForPlaceholder(name))
  {
    match EvalPlaceholder(name, evalCtx)
    case Ok(d) => Ok(FormatDatum(d))
    case Err(e) => Err(PlaceholderNotSerializable(name, e))
  }

  function ExprFmtFlagsBase(evalCtx: EvalContext): FmtFlags {
    FmtPlaceholderFormat(FmtParsable, (name: nat) => PlaceholderInterceptor(evalCtx, name))
  }

  /** The indexed-variable interceptor of `exprFmtFlagsNoMap`: `@<idx+1>`. */
  function NoMapVarFormat(idx: nat): Rendered {
    Ok("@" + Decimal(idx + 1))
  }

  function ExprFmtFlagsNoMap(evalCtx: EvalContext): FmtFlags {
    FmtIndexedVarFormat(ExprFmtFlagsBase(evalCtx), (idx: nat) => NoMapVarFormat(idx))
  }

  /**
   * The remapping interceptor installed by `MakeExpression` when a table is
   * supplied: `@<indexVarMap[idx]+1>`. Indexing past the end of the table is
   * Go's index-out-of-range panic; a negative entry is the "unmapped index"
   * panic.
   */
  function RemapVarFormat(indexVarMap: seq<int>, idx: nat): Rendered {
    if idx >= |indexVarMap| then Err(IndexOutOfRange(idx))
    else if indexVarMap[idx] < 0 then Err(UnmappedIndex(idx))
    else Ok("@" + Decimal(indexVarMap[idx] + 1))
  }

  /** The formatting flags `MakeExpression` selects; `None` is a nil table. */
  function MakeFlags(evalCtx: EvalContext, indexVarMap: Option<seq<int>>): FmtFlags {
    if indexVarMap.None? then ExprFmtFlagsNoMap(evalCtx)
    else FmtIndexedVarFormat(ExprFmtFlagsBase(evalCtx), (idx: nat) => RemapVarFormat(indexVarMap.value, idx))
  }

  lemma VarFormatOf(evalCtx: EvalContext, indexVarMap: Option<seq<int>>, i: nat)
    ensures FormatNode(MakeFlags(evalCtx, indexVarMap), IndexedVar(i))
         == if indexVarMap.None? then NoMapVarFormat(i) else RemapVarFormat(indexVarMap.value, i)
  {
  }

  lemma PlaceholderFormatOf(evalCtx: EvalContext, indexVarMap: Option<seq<int>>, n: nat)
    ensures FormatNode(MakeFlags(evalCtx, indexVarMap), Placeholder(n)) == PlaceholderInterceptor(evalCtx, n)
  {
  }

  /**
   * `MakeExpression`: a nil expression gives the empty wire expression;
   * otherwise the expression is formatted with the interceptors above. A
   * fatal result stands for the Go panic.
   */
  function MakeExpression(expr: Option<Expr>, evalCtx: EvalContext, indexVarMap: Option<seq<int>>)
    : (r: Result<Expression, Fatal>)
    ensures expr.None? ==> r == Ok(Expression(""))
  {
    if expr.None? then Ok(Expression(""))
    else
      var s :- FormatNode(MakeFlags(evalCtx, indexVarMap), expr.value);
      Ok(Expression(s))
  }

  // ---------------------------------------------------------------------
  // When serialisation succeeds

  /** Every variable `vs` references has a table entry that is not negative. */
  predicate Mapped(vs: seq<nat>, indexVarMap: Option<seq<int>>) {
    indexVarMap.Some? ==>
      forall i :: i in vs ==> i < |indexVarMap.value| && indexVarMap.value[i] >= 0
  }

  /** Every placeholder of `e` is bound in `evalCtx`. */
  predicate PlaceholdersBound(e: Expr, evalCtx: EvalContext) {
    Placeholders(e) <= evalCtx.placeholders.Keys
  }

  /** The remote ordinal of local variable `i`. */
  function WireOrdinal(indexVarMap: Option<seq<int>>, i: nat): int
    requires indexVarMap.Some? ==> i < |indexVarMap.value|
  {
    if indexVarMap.None? then i else indexVarMap.value[i]
  }

  lemma {:induction false} FormatNodeOkIff(e: Expr, evalCtx: EvalContext, indexVarMap: Option<seq<int>>)
    ensures FormatNode(MakeFlags(evalCtx, indexVarMap), e).Ok?
        <==> PlaceholdersBound(e, evalCtx) && Mapped(Vars(e), indexVarMap)
  {
    match e
    case IndexedVar(i) =>
      VarFormatOf(evalCtx, indexVarMap, i);
      assert Vars(e) == [i];
      assert forall j :: j in Vars(e) <==> j == i;
      assert Placeholders(e) == {};
      assert Mapped(Vars(e), indexVarMap)
        <==> indexVarMap.None? || (i < |indexVarMap.value| && indexVarMap.value[i] >= 0);
      if indexVarMap.Some? {
        assert RemapVarFormat(indexVarMap.value, i).Ok?
          <==> i < |indexVarMap.value| && indexVarMap.value[i] >= 0;
      }
    case Placeholder(n) =>
      PlaceholderFormatOf(evalCtx, indexVarMap, n);
      assert Vars(e) == [];
    case Const(_) =>
      assert Vars(e) == [] && Placeholders(e) == {};
    case BinExpr(_, l, r) =>
      FormatNodeOkIff(l, evalCtx, indexVarMap);
      FormatNodeOkIff(r, evalCtx, indexVarMap);
      assert forall i :: i in Vars(e) <==> i in Vars(l) || i in Vars(r);
  }

  /**
   * Serialisation of a present expression succeeds exactly when every
   * placeholder has a value and, if a table is supplied, every referenced
   * variable has a non-negative entry in it.
   */
  lemma MakeExpressionOkIff(e: Expr, evalCtx: EvalContext, indexVarMap: Option<seq<int>>)
    ensures MakeExpression(Some(e), evalCtx, indexVarMap).Ok?
        <==> PlaceholdersBound(e, evalCtx) && Mapped(Vars(e), indexVarMap)
  {
    FormatNodeOkIff(e, evalCtx, indexVarMap);
  }

  /**
   * A referenced variable whose table entry is negative makes serialisation
   * fatal: it never returns a wire expression.
   */
  lemma UnmappedIndexIsFatal(e: Expr, evalCtx: EvalContext, m: seq<int>, i: nat)
    requires i in Vars(e) && i < |m| && m[i] < 0
    ensures MakeExpression(Some(e), evalCtx, Some(m)).Err?
  {
    MakeExpressionOkIff(e, evalCtx, Some(m));
  }

  /** An unbound placeholder makes serialisation fatal, with or without a table. */
  lemma UnboundPlaceholderIsFatal(e: Expr, evalCtx: EvalContext, indexVarMap: Option<seq<int>>, n: nat)
    requires n in Placeholders(e) && n !in evalCtx.placeholders
    ensures MakeExpression(Some(e), evalCtx, indexVarMap).Err?
  {
    MakeExpressionOkIff(e, evalCtx, indexVarMap);
  }

  // ---------------------------------------------------------------------
  // Reading `@N` references back out of the wire text

  /** The longest prefix of `s` made of decimal digits. */
  function LeadingDigits(s: string): (d: string)
    ensures |d| <= |s| && d == s[..|d|]
    ensures forall k :: 0 <= k < |d| ==> IsDigit(d[k])
  {
    if s != [] && IsDigit(s[0]) then [s[0]] + LeadingDigits(s[1..]) else []
  }

  /** The number a string of decimal digits denotes. */
  function DigitsValue(d: string): nat
    requires forall k :: 0 <= k < |d| ==> IsDigit(d[k])
  {
    if d == [] then 0
    else
      var last := d[|d| - 1];
      assert IsDigit(last);
      DigitsValue(d[..|d| - 1]) * 10 + (last as int - 48)
  }

  /**
   * The ordinals `N` of the `@N` tokens of a wire text, in order: what a
   * remote node binds against its own row layout.
   */
  function VarRefs(s: string): seq<int>
    decreases |s|
  {
    if s == [] then []
    else if s[0] == '@' then
      var d := LeadingDigits(s[1..]);
      [DigitsValue(d)] + VarRefs(s[1 + |d|..])
    else VarRefs(s[1..])
  }

  lemma {:induction false} DecimalValue(n: nat)
    ensures DigitsValue(Decimal(n)) == n
  {
    if n >= 10 {
      DecimalValue(n / 10);
      var d := Decimal(n);
      assert d[..|d| - 1] == Decimal(n / 10);
    }
  }

  lemma {:induction false} LeadingDigitsAppend(x: string, y: string)
    requires y == [] || !IsDigit(y[0])
    ensures LeadingDigits(x + y) == LeadingDigits(x)
  {
    if x == [] {
      assert x + y == y;
    } else {
      assert (x + y)[0] == x[0];
      assert (x + y)[1..] == x[1..] + y;
      LeadingDigitsAppend(x[1..], y);
    }
  }

  lemma {:induction false} LeadingDigitsOfDigits(x: string)
    requires forall k :: 0 <= k < |x| ==> IsDigit(x[k])
    ensures LeadingDigits(x) == x
  {
    if x != [] {
      LeadingDigitsOfDigits(x[1..]);
    }
  }

  /**
   * Cutting a wire text before a character that cannot continue a number
   * splits its references accordingly.
   */
  lemma {:induction false} VarRefsAppend(a: string, b: string)
    requires b == [] || !IsDigit(b[0])
    ensures VarRefs(a + b) == VarRefs(a) + VarRefs(b)
    decreases |a|
  {
    if a == [] {
      assert a + b == b;
    } else if a[0] == '@' {
      var d := LeadingDigits(a[1..]);
      assert (a + b)[0] == '@';
      assert (a + b)[1..] == a[1..] + b;
      LeadingDigitsAppend(a[1..], b);
      assert (a + b)[1 + |d|..] == a[1 + |d|..] + b;
      VarRefsAppend(a[1 + |d|..], b);
    } else {
      assert (a + b)[0] == a[0];
      assert (a + b)[1..] == a[1..] + b;
      VarRefsAppend(a[1..], b);
    }
  }

  /** Text without an `@` in front of `b` adds no reference. */
  lemma {:induction false} VarRefsSkipsPlainText(a: string, b: string)
    requires '@' !in a
    ensures VarRefs(a + b) == VarRefs(b)
  {
    if a == [] {
      assert a + b == b;
    } else {
      assert a[0] in a;
      assert (a + b)[0] == a[0];
      assert (a + b)[1..] == a[1..] + b;
      assert forall c :: c in a[1..] ==> c in a;
      VarRefsSkipsPlainText(a[1..], b);
    }
  }

  lemma VarRefsOfPlainText(a: string)
    requires '@' !in a
    ensures VarRefs(a) == []
  {
    VarRefsSkipsPlainText(a, []);
    assert a + [] == a;
  }

  lemma VarRefsOfReference(n: nat)
    ensures VarRefs("@" + Decimal(n)) == [n]
  {
    var s := "@" + Decimal(n);
    assert s[1..] == Decimal(n);
    LeadingDigitsOfDigits(Decimal(n));
    DecimalValue(n);
    assert s[1 + |Decimal(n)|..] == [];
  }

  /** The wire ordinals, plus one, of the variables `vs`, in order. */
  function WireRefs(vs: seq<nat>, indexVarMap: Option<seq<int>>): (r: seq<int>)
    requires Mapped(vs, indexVarMap)
    ensures |r| == |vs|
  {
    seq(|vs|, k requires 0 <= k < |vs| => assert vs[k] in vs; WireOrdinal(indexVarMap, vs[k]) + 1)
  }

  lemma WireRefsAppend(vs1: seq<nat>, vs2: seq<nat>, indexVarMap: Option<seq<int>>)
    requires Mapped(vs1 + vs2, indexVarMap)
    ensures Mapped(vs1, indexVarMap) && Mapped(vs2, indexVarMap)
    ensures WireRefs(vs1 + vs2, indexVarMap) == WireRefs(vs1, indexVarMap) + WireRefs(vs2, indexVarMap)
  {
    assert forall i :: i in vs1 || i in vs2 ==> i in vs1 + vs2;
    var w, w1, w2 := WireRefs(vs1 + vs2, indexVarMap), WireRefs(vs1, indexVarMap), WireRefs(vs2, indexVarMap);
    assert forall k :: 0 <= k < |vs1| ==> w[k] == w1[k];
    assert forall k :: 0 <= k < |vs2| ==> w[|vs1| + k] == w2[k];
  }

  /**
   * The text around the operands of a binary expression adds no reference:
   * the references of the whole are those of the left operand, then those of
   * the right one.
   */
  lemma BinaryTextRefs(ls: string, op: BinaryOp, rs: string)
    ensures VarRefs("(" + ls + " " + OpSymbol(op) + " " + rs + ")") == VarRefs(ls) + VarRefs(rs)
    ensures '$' !in ls && '$' !in rs ==> '$' !in "(" + ls + " " + OpSymbol(op) + " " + rs + ")"
  {
    var sym := " " + OpSymbol(op) + " ";
    var tail := sym + (rs + ")");
    assert "(" + ls + " " + OpSymbol(op) + " " + rs + ")" == "(" + (ls + tail);
    VarRefsSkipsPlainText("(", ls + tail);
    VarRefsAppend(ls, tail);
    VarRefsSkipsPlainText(sym, rs + ")");
    VarRefsAppend(rs, ")");
    VarRefsOfPlainText(")");
  }

  lemma VarTextRefs(evalCtx: EvalContext, indexVarMap: Option<seq<int>>, i: nat, s: string)
    requires FormatNode(MakeFlags(evalCtx, indexVarMap), IndexedVar(i)) == Ok(s)
    ensures Mapped([i], indexVarMap)
    ensures VarRefs(s) == WireRefs([i], indexVarMap)
    ensures '$' !in s
  {
    VarFormatOf(evalCtx, indexVarMap, i);
    assert i in [i];
    var w := WireOrdinal(indexVarMap, i);
    assert s == "@" + Decimal(w + 1);
    VarRefsOfReference(w + 1);
    assert WireRefs([i], indexVarMap) == [w + 1];
    var d := Decimal(w + 1);
    assert forall k :: 0 <= k < |d| ==> IsDigit(d[k]);
    assert s[0] == '@' && s[1..] == d;
  }

  lemma {:induction false} FormatNodeRefs(e: Expr, evalCtx: EvalContext, indexVarMap: Option<seq<int>>, s: string)
    requires FormatNode(MakeFlags(evalCtx, indexVarMap), e) == Ok(s)
    ensures Mapped(Vars(e), indexVarMap)
    ensures VarRefs(s) == WireRefs(Vars(e), indexVarMap)
    ensures '$' !in s
  {
    FormatNodeOkIff(e, evalCtx, indexVarMap);
    match e
    case IndexedVar(i) =>
      VarTextRefs(evalCtx, indexVarMap, i, s);
    case Placeholder(n) =>
      PlaceholderFormatOf(evalCtx, indexVarMap, n);
      FormatDatumHasNoMarker(evalCtx.placeholders[n]);
      VarRefsOfPlainText(s);
    case Const(d) =>
      FormatDatumHasNoMarker(d);
      VarRefsOfPlainText(s);
    case BinExpr(op, l, r) =>
      var flags := MakeFlags(evalCtx, indexVarMap);
      var ls, rs := FormatNode(flags, l).value, FormatNode(flags, r).value;
      FormatNodeRefs(l, evalCtx, indexVarMap, ls);
      FormatNodeRefs(r, evalCtx, indexVarMap, rs);
      BinaryTextRefs(ls, op, rs);
      WireRefsAppend(Vars(l), Vars(r), indexVarMap);
  }

  /**
   * The `@N` references of the wire text are exactly the remapped ordinals
   * (plus one) of the variables of the expression, in order, with no
   * reference lost, added or duplicated; and no placeholder survives.
   */
  lemma WireTextReferences(e: Expr, evalCtx: EvalContext, indexVarMap: Option<seq<int>>, w: Expression)
    requires MakeExpression(Some(e), evalCtx, indexVarMap) == Ok(w)
    ensures Mapped(Vars(e), indexVarMap)
    ensures VarRefs(w.expr) == WireRefs(Vars(e), indexVarMap)
    ensures '$' !in w.expr
  {
    FormatNodeRefs(e, evalCtx, indexVarMap, w.expr);
  }

  /** As a set: the references are `{map[i]+1 | i referenced}`, or `{i+1}` without a table. */
  lemma WireTextReferenceSet(e: Expr, evalCtx: EvalContext, indexVarMap: Option<seq<int>>, w: Expression)
    requires MakeExpression(Some(e), evalCtx, indexVarMap) == Ok(w)
    ensures Mapped(Vars(e), indexVarMap)
    ensures forall n :: n in VarRefs(w.expr) <==> exists i :: i in Vars(e) && n == WireOrdinal(indexVarMap, i) + 1
  {
    WireTextReferences(e, evalCtx, indexVarMap, w);
    var vs := Vars(e);
    forall n | n in VarRefs(w.expr)
      ensures exists i :: i in vs && n == WireOrdinal(indexVarMap, i) + 1
    {
      var k :| 0 <= k < |vs| && n == WireRefs(vs, indexVarMap)[k];
      assert vs[k] in vs;
    }
    forall i | i in vs
      ensures WireOrdinal(indexVarMap, i) + 1 in VarRefs(w.expr)
    {
      var k :| 0 <= k < |vs| && vs[k] == i;
      assert WireRefs(vs, indexVarMap)[k] == WireOrdinal(indexVarMap, i) + 1;
    }
  }

  // ---------------------------------------------------------------------
  // What the output depends on

  lemma {:induction false} FormatNodeIgnoresUnreferencedEntries(e: Expr, evalCtx: EvalContext, m1: seq<int>, m2: seq<int>)
    requires forall i :: i in Vars(e) ==> (i < |m1| <==> i < |m2|) && (i < |m1| ==> m1[i] == m2[i])
    ensures FormatNode(MakeFlags(evalCtx, Some(m1)), e) == FormatNode(MakeFlags(evalCtx, Some(m2)), e)
  {
    match e
    case IndexedVar(i) =>
      assert Vars(e) == [i];
      assert i in Vars(e);
      VarFormatOf(evalCtx, Some(m1), i);
      VarFormatOf(evalCtx, Some(m2), i);
    case Placeholder(_) =>
    case Const(_) =>
    case BinExpr(_, l, r) =>
      assert forall i :: i in Vars(l) || i in Vars(r) ==> i in Vars(e);
      FormatNodeIgnoresUnreferencedEntries(l, evalCtx, m1, m2);
      FormatNodeIgnoresUnreferencedEntries(r, evalCtx, m1, m2);
  }

  /**
   * The output depends on the remap table only at the indices the expression
   * references: two tables that agree there give the same result, success or
   * failure.
   */
  lemma MakeExpressionIgnoresUnreferencedEntries(e: Expr, evalCtx: EvalContext, m1: seq<int>, m2: seq<int>)
    requires forall i :: i in Vars(e) ==> (i < |m1| <==> i < |m2|) && (i < |m1| ==> m1[i] == m2[i])
    ensures MakeExpression(Some(e), evalCtx, Some(m1)) == MakeExpression(Some(e), evalCtx, Some(m2))
  {
    FormatNodeIgnoresUnreferencedEntries(e, evalCtx, m1, m2);
  }

  /** The table `0 -> 0, 1 -> 1, ..., n-1 -> n-1`. */
  function IdentityMap(n: nat): (m: seq<int>)
    ensures |m| == n && forall i :: 0 <= i < n ==> m[i] == i
  {
    seq(n, i => i)
  }

  lemma {:induction false} FormatNodeNoMapIsIdentity(e: Expr, evalCtx: EvalContext, n: nat)
    requires VarsBelow(e, n)
    ensures FormatNode(MakeFlags(evalCtx, None), e) == FormatNode(MakeFlags(evalCtx, Some(IdentityMap(n))), e)
  {
    match e
    case IndexedVar(i) =>
      VarFormatOf(evalCtx, None, i);
      VarFormatOf(evalCtx, Some(IdentityMap(n)), i);
    case Placeholder(_) =>
    case Const(_) =>
    case BinExpr(_, l, r) =>
      FormatNodeNoMapIsIdentity(l, evalCtx, n);
      FormatNodeNoMapIsIdentity(r, evalCtx, n);
  }

  /**
   * Serialising without a table is serialising with the identity table over
   * any range that covers the referenced variables.
   */
  lemma NoMapIsIdentityMap(e: Expr, evalCtx: EvalContext, n: nat)
    requires VarsBelow(e, n)
    ensures MakeExpression(Some(e), evalCtx, None) == MakeExpression(Some(e), evalCtx, Some(IdentityMap(n)))
  {
    FormatNodeNoMapIsIdentity(e, evalCtx, n);
  }

  /** `@1 + @2` with the table `{0 -> 2, 1 -> 5}` becomes `@3 + @6`; without a table it stays `@1 + @2`. */
  lemma RemapExample(evalCtx: EvalContext)
    ensures MakeExpression(Some(BinExpr(Plus, IndexedVar(0), IndexedVar(1))), evalCtx, Some([2, 5]))
         == Ok(Expression("(@3 + @6)"))
    ensures MakeExpression(Some(BinExpr(Plus, IndexedVar(0), IndexedVar(1))), evalCtx, None)
         == Ok(Expression("(@1 + @2)"))
  {
    assert Decimal(1) == ['1'] && Decimal(2) == ['2'] && Decimal(3) == ['3'] && Decimal(6) == ['6'];
    assert "@" + Decimal(1) == "@1" && "@" + Decimal(2) == "@2";
    assert "@" + Decimal(3) == "@3" && "@" + Decimal(6) == "@6";
    assert RemapVarFormat([2, 5], 0) == Ok("@3");
    assert RemapVarFormat([2, 5], 1) == Ok("@6");
    VarFormatOf(evalCtx, Some([2, 5]), 0);
    VarFormatOf(evalCtx, Some([2, 5]), 1);
    VarFormatOf(evalCtx, None, 0);
    VarFormatOf(evalCtx, None, 1);
    var e := BinExpr(Plus, IndexedVar(0), IndexedVar(1));
    var f1, f2 := MakeFlags(evalCtx, Some([2, 5])), MakeFlags(evalCtx, None);
    assert FormatNode(f1, IndexedVar(0)) == Ok("@3");
    assert FormatNode(f1, IndexedVar(1)) == Ok("@6");
    assert FormatNode(f2, IndexedVar(0)) == Ok("@1");
    assert FormatNode(f2, IndexedVar(1)) == Ok("@2");
    assert FormatNode(f1, e) == Ok("(" + "@3" + " " + "+" + " " + "@6" + ")");
    assert FormatNode(f2, e) == Ok("(" + "@1" + " " + "+" + " " + "@2" + ")");
    assert "(" + "@3" + " " + "+" + " " + "@6" + ")" == "(@3 + @6)";
    assert "(" + "@1" + " " + "+" + " " + "@2" + ")" == "(@1 + @2)";
  }
}
