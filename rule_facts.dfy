/**
 * Properties of the per-op rules of resolveVarOp: once a rule answers, resolving more
 * operands does not change the answer (the rounds of resolve never revisit a resolved
 * operand), and the operator rules wait exactly for their operands.
 */
module RuleFacts {
  import opened Wrappers
  import opened Types
  import opened Ir
  import opened PhpStrings
  import opened PhpArrays
  import opened TypeMatrix
  import opened Reconstructor

  /** `b` resolves every operand `a` resolves, to the same type. */
  predicate Extends(a: Resolved, b: Resolved)
  {
    a.Keys <= b.Keys && forall k :: k in a ==> b[k] == a[k]
  }

  lemma LookupsStable(vs: seq<VarId>, a: Resolved, b: Resolved)
    requires Extends(a, b) && Lookups(vs, a).Some?
    ensures Lookups(vs, b) == Lookups(vs, a)
  {
    assert Lookups(vs, b).Some?;
    assert Lookups(vs, b).value == Lookups(vs, a).value;
  }

  /** A class type found stays found; an operand already resolved keeps its (possibly absent) class type. */
  lemma GetClassTypeStable(ctx: Context, v: VarId, a: Resolved, b: Resolved)
    requires Extends(a, b)
    requires GetClassType(ctx, v, a) != Ok(None) || v in a
    ensures GetClassType(ctx, v, b) == GetClassType(ctx, v, a)
  {
  }

  lemma {:induction false} ProcessTypeAssertionStable(ctx: Context, ta: TypeAssertion, a: Resolved, b: Resolved)
    requires Extends(a, b) && ProcessTypeAssertion(ctx, ta, a) != Ok(None)
    ensures ProcessTypeAssertion(ctx, ta, b) == ProcessTypeAssertion(ctx, ta, a)
    decreases ta
  {
    match ta
    case OperandAssertion(v) =>
    case CompositeAssertion(isUnion, subs) =>
      ProcessSubAssertionsStable(ctx, subs, a, b);
  }

  lemma {:induction false} ProcessSubAssertionsStable(ctx: Context, subs: seq<TypeAssertion>, a: Resolved, b: Resolved)
    requires Extends(a, b) && ProcessSubAssertions(ctx, subs, a) != Ok(None)
    ensures ProcessSubAssertions(ctx, subs, b) == ProcessSubAssertions(ctx, subs, a)
    decreases subs
  {
    if subs != [] {
      ProcessTypeAssertionStable(ctx, subs[0], a, b);
      if ProcessTypeAssertion(ctx, subs[0], a).Ok? {
        ProcessSubAssertionsStable(ctx, subs[1..], a, b);
      }
    }
  }

  /** A negated assertion reads its source, so it is stable only once the source is resolved. */
  lemma {:induction false} ProcessAssertionStable(ctx: Context, asr: Assertion, source: VarId, a: Resolved, b: Resolved)
    requires Extends(a, b) && ProcessAssertion(ctx, asr, source, a) != Ok(None)
    requires asr.Negated? ==> source in a
    ensures ProcessAssertion(ctx, asr, source, b) == ProcessAssertion(ctx, asr, source, a)
    decreases asr
  {
    match asr
    case TypeAssert(ta) =>
      ProcessTypeAssertionStable(ctx, ta, a, b);
    case Negated(inner) =>
      ProcessAssertionStable(ctx, inner, source, a, b);
  }

  lemma ResolveClassConstantStable(ctx: Context, cls: string, constName: string, a: Resolved, b: Resolved)
    requires Extends(a, b) && ResolveClassConstant(ctx, cls, constName, a) != NoCandidates
    ensures ResolveClassConstant(ctx, cls, constName, b) == ResolveClassConstant(ctx, cls, constName, a)
  {
    var direct := cls + "::" + constName;
    if direct in ctx.constants {
      LookupsStable(ctx.constants[direct], a, b);
    } else if cls in ctx.classResolvedBy {
      LookupsStable(ConstantOperands(ctx, Keys(Entry(ctx.classResolves, cls)), constName), a, b);
    }
  }

  /** The rules that read the types of their operands directly. */
  lemma OperandRulesStable(ctx: Context, op: Op, a: Resolved, b: Resolved)
    requires Extends(a, b) && Rule(ctx, op, a) != NoCandidates
    requires op.IteratorValue? || op.BinaryOp? || op.BitwiseNot? || op.UnaryMinus? || op.UnaryPlus? || op.Cast? ||
             op.ArrayDimFetch? || op.Assign? || op.AssignRef? || op.Clone? || op.ArrayLiteral?
    ensures Rule(ctx, op, b) == Rule(ctx, op, a)
  {
    if op.ArrayLiteral? {
      LookupsStable(op.values, a, b);
    }
  }

  /** The rules that look up a class from an operand: `new`, property fetches and method calls. */
  lemma ClassRulesStable(ctx: Context, op: Op, a: Resolved, b: Resolved)
    requires Extends(a, b) && Rule(ctx, op, a) != NoCandidates
    requires op.New? || op.PropertyFetch? || op.StaticPropertyFetch?
    requires op.New? ==> op.cls in a
    ensures Rule(ctx, op, b) == Rule(ctx, op, a)
  {
    if op.New? {
      NewRuleStable(ctx, op, a, b);
    } else {
      FetchRuleStable(ctx, op, a, b);
    }
  }

  lemma NewRuleStable(ctx: Context, op: Op, a: Resolved, b: Resolved)
    requires Extends(a, b) && Rule(ctx, op, a) != NoCandidates
    requires op.New? && op.cls in a
    ensures Rule(ctx, op, b) == Rule(ctx, op, a)
  {
    GetClassTypeStable(ctx, op.cls, a, b);
  }

  lemma FetchRuleStable(ctx: Context, op: Op, a: Resolved, b: Resolved)
    requires Extends(a, b) && Rule(ctx, op, a) != NoCandidates
    requires op.PropertyFetch? || op.StaticPropertyFetch?
    ensures Rule(ctx, op, b) == Rule(ctx, op, a)
  {
    match op
    case PropertyFetch(s, n) =>
      if KindOf(ctx, n).Literal? {
        GetClassTypeStable(ctx, s, a, b);
      }
    case StaticPropertyFetch(c, n) =>
      if KindOf(ctx, n).Literal? {
        GetClassTypeStable(ctx, c, a, b);
      }
  }

  /** Static and instance method calls. */
  lemma CallRulesStable(ctx: Context, op: Op, a: Resolved, b: Resolved)
    requires Extends(a, b) && Rule(ctx, op, a) != NoCandidates
    requires op.StaticCall? || op.MethodCall?
    ensures Rule(ctx, op, b) == Rule(ctx, op, a)
  {
  }

  /** Assertions and constant fetches. */
  lemma LookupRulesStable(ctx: Context, op: Op, a: Resolved, b: Resolved)
    requires Extends(a, b) && Rule(ctx, op, a) != NoCandidates
    requires op.AssertionOp? || op.ConstFetch?
    requires op.AssertionOp? && op.assertion.Negated? ==> op.expr in a
    ensures Rule(ctx, op, b) == Rule(ctx, op, a)
  {
    match op
    case AssertionOp(asr, e) =>
      ProcessAssertionStable(ctx, asr, e, a, b);
    case ConstFetch(n) =>
      if KindOf(ctx, n).Literal? && KindOf(ctx, n).value.LString? && KindOf(ctx, n).value.s in ctx.constants
         && Lookups(ctx.constants[KindOf(ctx, n).value.s], a).Some? {
        LookupsStable(ctx.constants[KindOf(ctx, n).value.s], a, b);
      }
  }

  /** Class constant fetches. */
  lemma ClassConstRulesStable(ctx: Context, op: Op, a: Resolved, b: Resolved)
    requires Extends(a, b) && Rule(ctx, op, a) != NoCandidates
    requires op.ClassConstFetch?
    ensures Rule(ctx, op, b) == Rule(ctx, op, a)
  {
    match op
    case ClassConstFetch(c, name) =>
      if KindOf(ctx, c).Literal? {
        if KindOf(ctx, c).value.LString? {
          ResolveClassConstantStable(ctx, Lower(KindOf(ctx, c).value.s), name, a, b);
        }
      } else {
        ResolveClassConstantStable(ctx, Lower(a[c].name), name, a, b);
      }
  }

  /**
   * Once a rule gives an answer (candidates or an error), resolving more operands leaves
   * that answer unchanged. The two rules that answer a provisional type while an operand
   * is unresolved are the exceptions: `new` of an unresolved class (a generic object) and
   * a negated assertion on an unresolved source (mixed() narrowed).
   */
  lemma RuleStable(ctx: Context, op: Op, a: Resolved, b: Resolved)
    requires Extends(a, b) && Rule(ctx, op, a) != NoCandidates
    requires op.New? ==> op.cls in a
    requires op.AssertionOp? && op.assertion.Negated? ==> op.expr in a
    ensures Rule(ctx, op, b) == Rule(ctx, op, a)
  {
    if op.IteratorValue? || op.BinaryOp? || op.BitwiseNot? || op.UnaryMinus? || op.UnaryPlus? || op.Cast? ||
       op.ArrayDimFetch? || op.Assign? || op.AssignRef? || op.Clone? || op.ArrayLiteral? {
      OperandRulesStable(ctx, op, a, b);
    } else if op.New? || op.PropertyFetch? || op.StaticPropertyFetch? {
      ClassRulesStable(ctx, op, a, b);
    } else if op.StaticCall? || op.MethodCall? {
      CallRulesStable(ctx, op, a, b);
    } else if op.AssertionOp? || op.ConstFetch? {
      LookupRulesStable(ctx, op, a, b);
    } else if op.ClassConstFetch? {
      ClassConstRulesStable(ctx, op, a, b);
    }
  }

  /** The operand types the operator rules read. */
  function OperatorOperands(op: Op): seq<VarId>
  {
    match op
    case BinaryOp(_, l, r) => [l, r]
    case BitwiseNot(e) => [e]
    case UnaryMinus(e) => [e]
    case UnaryPlus(e) => [e]
    case Assign(e) => [e]
    case AssignRef(e) => [e]
    case Clone(e) => [e]
    case ArrayDimFetch(s) => [s]
    case ArrayLiteral(values) => values
    case _ => []
  }

  /** The arithmetic and bitwise operators, the sign operators, assignments, clones, fetches and array literals. */
  predicate IsOperator(op: Op)
  {
    (op.BinaryOp? && op.kind in {Div, Plus, Minus, Mul, BitwiseAnd, BitwiseOr, BitwiseXor}) ||
    op.BitwiseNot? || op.UnaryMinus? || op.UnaryPlus? || op.Assign? || op.AssignRef? || op.Clone? ||
    op.ArrayDimFetch? || op.ArrayLiteral?
  }

  /**
   * An operator rule answers exactly when every operand it reads is resolved, and then it
   * answers with candidates, never an error and never an empty list.
   */
  lemma OperatorWaitsForOperands(ctx: Context, op: Op, resolved: Resolved)
    requires IsOperator(op)
    ensures Rule(ctx, op, resolved) != NoCandidates <==> Lookups(OperatorOperands(op), resolved).Some?
    ensures Rule(ctx, op, resolved) != NoCandidates ==>
      Rule(ctx, op, resolved).Ok? && Rule(ctx, op, resolved).value.Some? && Rule(ctx, op, resolved).value.value != []
  {
    if op.BinaryOp? {
      BinaryOpWaits(ctx, op, resolved);
    } else if op.ArrayLiteral? {
      ArrayLiteralWaits(ctx, op, resolved);
    } else {
      SingleWaits(ctx, op, resolved);
    }
  }

  /** The two-operand operators answer exactly when both operands are resolved. */
  lemma BinaryOpWaits(ctx: Context, op: Op, resolved: Resolved)
    requires op.BinaryOp? && op.kind in {Div, Plus, Minus, Mul, BitwiseAnd, BitwiseOr, BitwiseXor}
    ensures Rule(ctx, op, resolved) != NoCandidates <==> Lookups(OperatorOperands(op), resolved).Some?
    ensures Rule(ctx, op, resolved) != NoCandidates ==>
      Rule(ctx, op, resolved).Ok? && Rule(ctx, op, resolved).value.Some? && Rule(ctx, op, resolved).value.value != []
  {
    BinaryWaits(op.kind, op.left, op.right, resolved);
  }

  /** An array literal answers exactly when all its values are resolved. */
  lemma ArrayLiteralWaits(ctx: Context, op: Op, resolved: Resolved)
    requires op.ArrayLiteral?
    ensures Rule(ctx, op, resolved) != NoCandidates <==> Lookups(OperatorOperands(op), resolved).Some?
    ensures Rule(ctx, op, resolved) != NoCandidates ==>
      Rule(ctx, op, resolved).Ok? && Rule(ctx, op, resolved).value.Some? && Rule(ctx, op, resolved).value.value != []
  {
  }

  /** The one-operand operators answer exactly when their operand is resolved. */
  lemma SingleWaits(ctx: Context, op: Op, resolved: Resolved)
    requires op.BitwiseNot? || op.UnaryMinus? || op.UnaryPlus? || op.Assign? || op.AssignRef? || op.Clone? || op.ArrayDimFetch?
    ensures Rule(ctx, op, resolved) != NoCandidates <==> Lookups(OperatorOperands(op), resolved).Some?
    ensures Rule(ctx, op, resolved) != NoCandidates ==>
      Rule(ctx, op, resolved).Ok? && Rule(ctx, op, resolved).value.Some? && Rule(ctx, op, resolved).value.value != []
  {
    var x := OperatorOperands(op)[0];
    assert OperatorOperands(op) == [x];
    LookupsOne(x, resolved);
  }

  /** A single operand is looked up exactly when it is resolved. */
  lemma LookupsOne(x: VarId, resolved: Resolved)
    ensures Lookups([x], resolved).Some? <==> x in resolved
  {
    if x !in resolved {
      assert [x][0] !in resolved;
    }
  }

  /** The arithmetic and bitwise rules answer exactly when both operands are resolved. */
  lemma BinaryWaits(k: BinaryKind, l: VarId, r: VarId, resolved: Resolved)
    requires k in {Div, Plus, Minus, Mul, BitwiseAnd, BitwiseOr, BitwiseXor}
    ensures BinaryRule(k, l, r, resolved) != NoCandidates <==> Lookups([l, r], resolved).Some?
    ensures BinaryRule(k, l, r, resolved) != NoCandidates ==>
      BinaryRule(k, l, r, resolved).Ok? && BinaryRule(k, l, r, resolved).value.Some? &&
      BinaryRule(k, l, r, resolved).value.value != []
  {
    if Lookups([l, r], resolved).None? {
      var i :| 0 <= i < 2 && [l, r][i] !in resolved;
    }
  }

  /**
   * `+ - * /` on numbers: an int with an int stays an int, any mix with a float is a float;
   * both as single candidates.
   */
  lemma ArithmeticOnNumbers(l: VarId, r: VarId, resolved: Resolved)
    requires l in resolved && r in resolved
    requires (resolved[l].Long? || resolved[l].Double?) && (resolved[r].Long? || resolved[r].Double?)
    ensures Arithmetic(l, r, resolved) == Ok(Some([if resolved[l].Double? || resolved[r].Double? then Double else Long]))
  {
  }

  /**
   * true, false and null are recognised in any letter case and before any declared
   * constant; another name needs a declared constant whose values are all resolved.
   */
  lemma ConstFetchNames(ctx: Context, n: VarId, s: string, resolved: Resolved)
    requires KindOf(ctx, n) == Literal(LString(s))
    ensures Lower(s) == "true" || Lower(s) == "false" ==> ResolveOpConstFetch(ctx, n, resolved) == Ok(Some([Boolean]))
    ensures Lower(s) == "null" ==> ResolveOpConstFetch(ctx, n, resolved) == Ok(Some([Null]))
    ensures Lower(s) != "true" && Lower(s) != "false" && Lower(s) != "null" ==>
      (ResolveOpConstFetch(ctx, n, resolved) != NoCandidates <==>
       s in ctx.constants && Lookups(ctx.constants[s], resolved).Some?)
  {
  }

  /** A constant name that is not a string literal is a TypeError (strtolower under strict types). */
  lemma ConstFetchNeedsString(ctx: Context, n: VarId, v: Value, resolved: Resolved)
    requires KindOf(ctx, n) == Literal(v) && !v.LString?
    ensures ResolveOpConstFetch(ctx, n, resolved) == Err(NotAString)
  {
  }

  /**
   * A call of a user function answers one candidate per same-named declaration (the
   * lower-cased name), the declared return type where there is one; the internal
   * table is not consulted.
   */
  lemma FuncCallUserFunctions(ctx: Context, n: VarId, s: string)
    requires KindOf(ctx, n) == Literal(LString(s)) && Lower(s) in ctx.functionLookup
    ensures var fs := ctx.functionLookup[Lower(s)];
      ResolveOpFuncCall(ctx, n).Ok? ==>
        ResolveOpFuncCall(ctx, n).value.Some? && |ResolveOpFuncCall(ctx, n).value.value| == |fs| &&
        forall k :: 0 <= k < |fs| && fs[k].returnType.Some? ==> ResolveOpFuncCall(ctx, n).value.value[k] == fs[k].returnType.value
    ensures ResolveOpFuncCall(ctx, n).Err? <==> FunctionReturns(ctx.functionLookup[Lower(s)]).Err?
  {
  }

  /**
   * A method call waits for its receiver: unresolved, or resolved to neither an object
   * nor a string, it gives no candidates; a string receiver that is not a literal gives mixed.
   */
  lemma MethodCallReceiver(ctx: Context, cls: VarId, n: VarId, s: string, resolved: Resolved)
    requires KindOf(ctx, n) == Literal(LString(s))
    ensures cls !in resolved ==> ResolveMethodCall(ctx, cls, n, resolved) == NoCandidates
    ensures cls in resolved && !resolved[cls].Object? && !resolved[cls].String? ==>
      ResolveMethodCall(ctx, cls, n, resolved) == NoCandidates
    ensures cls in resolved && resolved[cls].String? && !KindOf(ctx, cls).Literal? ==>
      ResolveMethodCall(ctx, cls, n, resolved) == Ok(Some([Mixed()]))
    ensures cls in resolved && resolved[cls].Object? ==>
      ResolveMethodCall(ctx, cls, n, resolved) == MethodsOf(ctx, Lower(resolved[cls].name), Lower(s))
  {
  }
}
