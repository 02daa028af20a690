/**
 * Properties of the reconstructor's rules: what a merge can produce, the three
 * outcomes of a Phi, narrowing by a negated null assertion, nullable parameters,
 * and when resolveVar gathers candidates.
 */
module ReconstructorFacts {
  import opened Wrappers
  import opened PhpStrings
  import opened PhpArrays
  import opened Types
  import opened Ir
  import opened DeclParser
  import opened Reconstructor
  import TypeFacts

  // ---------------------------------------------------------------------------
  // resolveProperty
  // ---------------------------------------------------------------------------

  /** resolveProperty gives up exactly when one of the classes declares the property without a type. */
  lemma {:induction false} PropertyTypesFails(ctx: Context, entry: PhpArray<DeclRef>, name: Value)
    ensures PropertyTypes(ctx, entry, name).None? <==> exists i :: 0 <= i < |entry| && Untyped(ctx, entry[i].1, name)
  {
    if entry != [] {
      var tail := entry[1..];
      PropertyTypesFails(ctx, tail, name);
      if PropertyTypes(ctx, tail, name).None? {
        var i :| 0 <= i < |tail| && Untyped(ctx, tail[i].1, name);
        assert entry[i + 1] == tail[i];
      }
      if exists i :: 0 <= i < |entry| && Untyped(ctx, entry[i].1, name) {
        var i :| 0 <= i < |entry| && Untyped(ctx, entry[i].1, name);
        if i > 0 {
          assert tail[i - 1] == entry[i];
        }
      }
    }
  }

  /** Every type resolveProperty collects is the declared type of the property in one of the classes. */
  lemma {:induction false} PropertyTypesDeclared(ctx: Context, entry: PhpArray<DeclRef>, name: Value)
    ensures PropertyTypes(ctx, entry, name).Some? ==>
      forall k :: 0 <= k < |PropertyTypes(ctx, entry, name).value| ==>
        exists i :: 0 <= i < |entry| && Declares(ctx, entry[i].1, name, PropertyTypes(ctx, entry, name).value[k])
  {
    if entry != [] && PropertyTypes(ctx, entry, name).Some? {
      var tail := entry[1..];
      PropertyTypesDeclared(ctx, tail, name);
      var r := PropertyTypes(ctx, entry, name).value;
      var more := PropertyTypes(ctx, tail, name);
      forall k | 0 <= k < |r| ensures exists i :: 0 <= i < |entry| && Declares(ctx, entry[i].1, name, r[k]) {
        if FindProperty(StmtsOf(ctx, entry[0].1), name).None? {
          assert r == more.value;
          var i :| 0 <= i < |tail| && Declares(ctx, tail[i].1, name, r[k]);
          assert entry[i + 1] == tail[i];
        } else if k == 0 {
          assert Declares(ctx, entry[0].1, name, r[0]);
        } else {
          assert r[k] == more.value[k - 1];
          var i :| 0 <= i < |tail| && Declares(ctx, tail[i].1, name, more.value[k - 1]);
          assert entry[i + 1] == tail[i];
        }
      }
    }
  }

  // ---------------------------------------------------------------------------
  // computeMergedType
  // ---------------------------------------------------------------------------

  /** A merge of simplified candidates is simplified, and a merge of several candidates is never Unknown. */
  lemma MergedIsSimplified(types: seq<Type>)
    requires forall i :: 0 <= i < |types| ==> TypeFacts.IsSimplified(types[i])
    ensures ComputeMergedType(types).Some? ==> TypeFacts.IsSimplified(ComputeMergedType(types).value)
    ensures ComputeMergedType(types).Some? && |types| != 1 ==> !ComputeMergedType(types).value.Unknown?
  {
    if |types| != 1 && !(|types| > 0 && AllEqualFirst(types)) {
      TypeFacts.SimplifyIsSimplified(Union(types));
    }
  }

  /** Merging any number of copies of one known type gives that type back. */
  lemma MergeCopies(t: Type, n: nat)
    requires n >= 1 && !t.Unknown?
    ensures ComputeMergedType(seq(n, _ => t)) == Some(t)
  {
    var ts := seq(n, _ => t);
    assert ts[0] == t;
    TypeFacts.EqualsReflexive(t);
    assert forall i :: 0 <= i < n ==> ts[i] == t;
  }

  /** Two different known candidates that are not unions merge into the two-member union, in the order they came. */
  lemma MergeTwo(a: Type, b: Type)
    requires !a.Unknown? && !b.Unknown? && !a.Union? && !b.Union? && !Equals(a, b)
    requires TypeFacts.IsSimplified(a) && TypeFacts.IsSimplified(b)
    ensures ComputeMergedType([a, b]) == Some(Union([a, b]))
  {
    assert !AllEqualFirst([a, b]) by { assert !Equals([a, b][0], [a, b][1]); }
    TypeFacts.SimplifiedIsFixed(Union([a, b]));
  }

  /**
   * Several known candidates, or none: candidates all equal to the first give the first as
   * it came; any other list gives the union of the candidates' union leaves, each simplified, in order.
   */
  lemma MergeSeveral(types: seq<Type>)
    requires |types| != 1 && forall i :: 0 <= i < |types| ==> !types[i].Unknown?
    ensures |types| > 0 && AllEqualFirst(types) ==> ComputeMergedType(types) == Some(types[0])
    ensures !(|types| > 0 && AllEqualFirst(types)) ==>
      ComputeMergedType(types).Some? && ComputeMergedType(types).value.Union? &&
      ComputeMergedType(types).value.members == TypeFacts.MapSimplify(TypeFacts.LeavesAll(TUnion, types))
  {
    TypeFacts.SimplifyFlattens(Union(types));
  }

  /** Class names compare without case, so `A` and `a` merge into the first as written. */
  lemma MergeNamesIgnoreCase()
    ensures ComputeMergedType([Object("A"), Object("a")]) == Some(Object("A"))
  {
    var ts := [Object("A"), Object("a")];
    assert Lower("A") == Lower("a");
    assert Equals(ts[0], ts[1]);
    TypeFacts.EqualsReflexive(ts[0]);
    assert AllEqualFirst(ts);
  }

  /** No candidates at all merge into the empty union. */
  lemma MergeNothing()
    ensures ComputeMergedType([]) == Some(Union([]))
  {
    TypeFacts.SimplifyFlattens(Union([]));
  }

  /** Merging is not commutative: a then b and b then a give different unions. */
  lemma MergeOrderMatters(a: Type, b: Type)
    requires !a.Unknown? && !b.Unknown? && !a.Union? && !b.Union? && !Equals(a, b)
    requires TypeFacts.IsSimplified(a) && TypeFacts.IsSimplified(b)
    ensures ComputeMergedType([a, b]) != ComputeMergedType([b, a])
  {
    if Equals(b, a) { TypeFacts.EqualsSymmetric(b, a); }
    TypeFacts.EqualsReflexive(a);
    MergeTwo(a, b);
    MergeTwo(b, a);
    assert [a, b][0] != [b, a][0];
  }

  /**
   * The `return false` of computeMergedType: an Unknown among two candidates means
   * "no type", which the `: Type` declaration turns into an error.
   */
  lemma MergeWithUnknownRaises()
    ensures ComputeMergedType([Unknown, Long]) == None
    ensures ComputeMergedTypeAsWritten([Unknown, Long]) == Err(ReturnedFalse)
  {
    assert [Unknown, Long][0].Unknown?;
  }

  // ---------------------------------------------------------------------------
  // resolveOp_Phi
  // ---------------------------------------------------------------------------

  /** With every incoming operand resolved, the present types are the full lookup, in order. */
  lemma {:induction false} PresentAll(vs: seq<VarId>, resolved: Resolved)
    requires AllPresent(vs, resolved)
    ensures Lookups(vs, resolved) == Some(Present(vs, resolved))
  {
    if vs != [] {
      assert AllPresent(vs[1..], resolved) by {
        forall j | 0 <= j < |vs| - 1 ensures vs[1..][j] in resolved {
          assert vs[1..][j] == vs[j + 1];
        }
      }
      PresentAll(vs[1..], resolved);
    }
  }

  /** A Phi none of whose operands is resolved fails and writes nothing. */
  lemma PhiNoneResolved(v: VarId, vars: seq<VarId>, resolved: Resolved)
    requires forall j :: 0 <= j < |vars| ==> vars[j] !in resolved
    ensures ResolveOpPhi(v, vars, resolved) == Step(NoCandidates, resolved)
  {
    assert Present(vars, resolved) == [];
  }

  /** A Phi whose operands are all resolved answers the merge of their types and writes nothing. */
  lemma PhiAllResolved(v: VarId, vars: seq<VarId>, resolved: Resolved)
    requires AllPresent(vars, resolved) && |vars| > 0
    ensures Lookups(vars, resolved).Some?
    ensures ResolveOpPhi(v, vars, resolved).resolved == resolved
    ensures ResolveOpPhi(v, vars, resolved).answer ==
      match ComputeMergedType(Lookups(vars, resolved).value)
      case Some(t) => Give([t])
      case None => NoCandidates
  {
    PresentAll(vars, resolved);
    var types := Present(vars, resolved);
    assert types != [] by { assert vars[0] in resolved; }
    match ComputeMergedType(types) {
      case None =>
        assert ResolveOpPhi(v, vars, resolved) == Step(NoCandidates, resolved);
      case Some(t) =>
        assert ResolveOpPhi(v, vars, resolved) == Step(Give([t]), resolved);
    }
  }

  /**
   * A Phi with some but not all operands resolved fails, yet records the merge of the
   * resolved ones under its own operand for the next round.
   */
  lemma PhiPartlyResolved(v: VarId, vars: seq<VarId>, resolved: Resolved, j: nat)
    requires j < |vars| && vars[j] in resolved && !AllPresent(vars, resolved)
    ensures ResolveOpPhi(v, vars, resolved).answer == NoCandidates
    ensures ComputeMergedType(Present(vars, resolved)).Some? ==>
      ResolveOpPhi(v, vars, resolved).resolved == resolved[v := ComputeMergedType(Present(vars, resolved)).value]
    ensures ComputeMergedType(Present(vars, resolved)).None? ==> ResolveOpPhi(v, vars, resolved).resolved == resolved
  {
    assert Present(vars, resolved) != [];
  }

  // ---------------------------------------------------------------------------
  // Assertions and parameters
  // ---------------------------------------------------------------------------

  /** fromDecl('null') in any spelling is the null type. */
  lemma NullDecl(s: string)
    requires Lower(s) == "null"
    ensures FromDecl(s) == Ok(Null)
  {
    assert LowerChar(s[0]) == 'n';
    assert s != "0";
    assert FromDecl(s) == FromUnprefixed(s);
  }

  /** A negated null assertion answers the source's type, or mixed() while it is unresolved, with null removed. */
  lemma NegatedNull(ctx: Context, n: VarId, s: string, e: VarId, resolved: Resolved)
    requires KindOf(ctx, n) == Literal(LString(s)) && Lower(s) == "null"
    ensures ResolveOpAssertion(ctx, Negated(TypeAssert(OperandAssertion(n))), e, resolved) ==
      match RemoveType(if e in resolved then resolved[e] else Mixed(), Null)
      case Ok(t) => Give([t])
      case Err(err) => Err(err)
  {
    NullDecl(s);
    assert ProcessTypeAssertion(ctx, OperandAssertion(n), resolved) == Ok(Some(Null));
    assert ProcessAssertion(ctx, TypeAssert(OperandAssertion(n)), e, resolved) == Ok(Some(Null));
  }

  /** `!($x instanceof null)`-style narrowing: a negated null assertion strips null from a nullable `T|null`. */
  lemma NegatedNullNarrows(ctx: Context, n: VarId, s: string, e: VarId, t: Type, resolved: Resolved)
    requires KindOf(ctx, n) == Literal(LString(s)) && Lower(s) == "null"
    requires e in resolved && resolved[e] == Union([t, Null]) && !Equals(t, Null)
    ensures ResolveOpAssertion(ctx, Negated(TypeAssert(OperandAssertion(n))), e, resolved) == Give([t])
  {
    NegatedNull(ctx, n, s, e, resolved);
    TypeFacts.RemoveNullFromNullable(t);
  }

  /** A list of types none of which is null or a union does not allow null. */
  lemma {:induction false} NoNullMember(ms: seq<Type>)
    requires forall i :: 0 <= i < |ms| ==> !ms[i].Null? && !ms[i].Union?
    ensures !AnyAllowsNull(ms)
  {
    if ms != [] {
      assert forall i :: 0 <= i < |ms| - 1 ==> ms[1..][i] == ms[i + 1];
      NoNullMember(ms[1..]);
    }
  }

  /** mixed() without its leading null: the seven other primitives, none of which allows null. */
  lemma MixedWithoutNull()
    ensures !AllowsNull(Union(Mixed().members[1..]))
  {
    var rest := Mixed().members[1..];
    NoNullMember(rest);
  }

  /** A negated null assertion on an operand not resolved yet narrows mixed() to the seven other primitives. */
  lemma NegatedNullOnUnresolved(ctx: Context, n: VarId, s: string, e: VarId, resolved: Resolved)
    requires KindOf(ctx, n) == Literal(LString(s)) && Lower(s) == "null"
    requires e !in resolved
    ensures ResolveOpAssertion(ctx, Negated(TypeAssert(OperandAssertion(n))), e, resolved) == Give([Union(Mixed().members[1..])])
  {
    NegatedNull(ctx, n, s, e, resolved);
    TypeFacts.RemoveNullFromMixed();
  }

  /** A parameter whose default is `null` gets a simplified type that allows null; without a default its declared type stands. */
  lemma NullDefaultMakesNullable(name: string, default: string, t: Type)
    requires FromDecl(name) == Ok(t) && Lower(default) == "null"
    ensures var c := ResolveOpParam(DeclaredLiteral(name), Some(ConstFetchNamed(default)));
      c.Ok? && c.value.Some? && |c.value.value| == 1 &&
      AllowsNull(c.value.value[0]) && TypeFacts.IsSimplified(c.value.value[0])
    ensures ResolveOpParam(DeclaredLiteral(name), None) == Give([t])
  {
    var u := Union([t, Null]);
    assert AllowsNull(u) by {
      assert u.members[1..] == [Null];
      assert AllowsNull([Null][0]);
    }
    TypeFacts.SimplifyKeepsAllowsNull(u);
    TypeFacts.SimplifyIsSimplified(u);
  }

  // ---------------------------------------------------------------------------
  // resolveVar
  // ---------------------------------------------------------------------------

  /** A handler's answer that resolveVar accepts: a non-empty list of candidates. */
  predicate Answers(c: Candidates)
  {
    c.Ok? && c.value.Some? && c.value.value != []
  }

  /**
   * Without Phi producers the resolved map is left alone, and candidates are gathered
   * exactly when every producer answers with some.
   */
  lemma {:induction false} CollectWithoutPhi(ctx: Context, v: VarId, ops: seq<Op>, resolved: Resolved)
    requires forall i :: 0 <= i < |ops| ==> !ops[i].Phi?
    ensures Collect(ctx, v, ops, resolved).resolved == resolved
    ensures Collect(ctx, v, ops, resolved).answer.Ok? && Collect(ctx, v, ops, resolved).answer.value.Some? <==>
      forall i :: 0 <= i < |ops| ==> Answers(Rule(ctx, ops[i], resolved))
  {
    if ops != [] {
      assert forall i :: 1 <= i < |ops| ==> ops[1..][i - 1] == ops[i];
      CollectWithoutPhi(ctx, v, ops[1..], resolved);
    }
  }

  /** resolveVar without Phi producers: a type only when there is a producer and every producer answers. */
  lemma ResolveVarWithoutPhi(ctx: Context, v: VarId, ops: seq<Op>, resolved: Resolved)
    requires forall i :: 0 <= i < |ops| ==> !ops[i].Phi?
    ensures ResolveVar(ctx, v, ops, resolved).resolved == resolved
    ensures ResolveVar(ctx, v, ops, resolved).result.Ok? && ResolveVar(ctx, v, ops, resolved).result.value.Some? ==>
      |ops| > 0 && forall i :: 0 <= i < |ops| ==> Answers(Rule(ctx, ops[i], resolved))
  {
    CollectWithoutPhi(ctx, v, ops, resolved);
  }
}
