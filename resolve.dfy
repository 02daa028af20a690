/**
 * TypeReconstructor::resolve and resolveAllProperties: the properties of every class
 * are typed from their doc comments, the operands are seeded, rounds of resolveVar run
 * until nothing is left or a round resolves nothing new, and the types are written back.
 */
module Resolution {
  import opened Wrappers
  import opened Types
  import opened Ir
  import opened DeclParser
  import opened Reconstructor
  import opened StateModel
  import Cfg

  /** The parts of the State the rules read, as they are now. */
  function ContextOf(st: State): Context
    reads st
  {
    Context(st.operands, st.constants, st.functionLookup, st.internal, st.classResolves, st.classResolvedBy,
            st.interfaces, st.classes, st.resolver)
  }

  function Elems(s: seq<VarId>): set<VarId>
  {
    set x | x in s
  }

  // ---------------------------------------------------------------------------
  // resolveAllProperties
  // ---------------------------------------------------------------------------

  /** A Property statement takes the type of its doc comment's @var tag; other statements are left alone. */
  function TypeStmt(s: Stmt): Result<Stmt>
  {
    if s.Property? then
      match ExtractTypeFromComment(VarTag, s.doc)
      case Err(e) => Err(e)
      case Ok(t) => Ok(s.(ptype := Some(t)))
    else Ok(s)
  }

  /** The statements of one class, typed in order; the first failure aborts. */
  function TypeStmts(stmts: seq<Stmt>): (r: Result<seq<Stmt>>)
    ensures r.Ok? ==> |r.value| == |stmts|
  {
    if stmts == [] then Ok([])
    else
      match TypeStmts(stmts[..|stmts| - 1])
      case Err(e) => Err(e)
      case Ok(done) =>
        match TypeStmt(stmts[|stmts| - 1])
        case Err(e) => Err(e)
        case Ok(s) => Ok(done + [s])
  }

  /** Every class with its statements typed, class by class. */
  function TypeClasses(classes: seq<ClassDecl>): (r: Result<seq<ClassDecl>>)
    ensures r.Ok? ==> |r.value| == |classes|
  {
    if classes == [] then Ok([])
    else
      var c := classes[|classes| - 1];
      match TypeClasses(classes[..|classes| - 1])
      case Err(e) => Err(e)
      case Ok(done) =>
        match TypeStmts(c.stmts)
        case Err(e) => Err(e)
        case Ok(stmts) => Ok(done + [c.(stmts := stmts)])
  }

  /**
   * The statements as the in-place typing leaves them, whether or not it raised: a
   * statement is typed exactly when it and every statement before it typed (PartialStmtsAt).
   */
  function TypeStmtsPartial(stmts: seq<Stmt>): (r: seq<Stmt>)
    ensures |r| == |stmts|
  {
    if stmts == [] then []
    else
      var init := stmts[..|stmts| - 1];
      var last := stmts[|stmts| - 1];
      TypeStmtsPartial(init) + [if TypeStmts(init).Ok? && TypeStmt(last).Ok? then TypeStmt(last).value else last]
  }

  /** Statement k is left typed exactly when it and every statement before it typed. */
  lemma {:induction false} PartialStmtsAt(stmts: seq<Stmt>, k: nat)
    requires k < |stmts|
    ensures TypeStmtsPartial(stmts)[k] ==
      if TypeStmts(stmts[..k]).Ok? && TypeStmt(stmts[k]).Ok? then TypeStmt(stmts[k]).value else stmts[k]
  {
    var init := stmts[..|stmts| - 1];
    var last := stmts[|stmts| - 1];
    var p := TypeStmtsPartial(init);
    assert TypeStmtsPartial(stmts) == p + [if TypeStmts(init).Ok? && TypeStmt(last).Ok? then TypeStmt(last).value else last];
    if k < |init| {
      PartialStmtsAt(init, k);
      assert init[..k] == stmts[..k] && init[k] == stmts[k];
      assert TypeStmtsPartial(stmts)[k] == p[k];
    } else {
      assert stmts[..k] == init;
    }
  }

  /** When the typing succeeds, the statements are left exactly as typed. */
  lemma {:induction false} PartialStmtsOk(stmts: seq<Stmt>)
    ensures TypeStmts(stmts).Ok? ==> TypeStmtsPartial(stmts) == TypeStmts(stmts).value
  {
    if stmts != [] {
      PartialStmtsOk(stmts[..|stmts| - 1]);
    }
  }

  /**
   * The classes as resolveAllProperties leaves them, whether or not it raised: the classes
   * before the failing one are typed, the failing one as far as it got, the rest untouched
   * (PartialClassesAt).
   */
  function TypeClassesPartial(classes: seq<ClassDecl>): (r: seq<ClassDecl>)
    ensures |r| == |classes|
  {
    if classes == [] then []
    else
      var init := classes[..|classes| - 1];
      var last := classes[|classes| - 1];
      TypeClassesPartial(init) + [if TypeClasses(init).Ok? then last.(stmts := TypeStmtsPartial(last.stmts)) else last]
  }

  /** Class i is left with its statements as far as they typed when every class before it typed, and untouched otherwise. */
  lemma {:induction false} PartialClassesAt(classes: seq<ClassDecl>, i: nat)
    requires i < |classes|
    ensures TypeClassesPartial(classes)[i] ==
      if TypeClasses(classes[..i]).Ok? then classes[i].(stmts := TypeStmtsPartial(classes[i].stmts)) else classes[i]
  {
    var init := classes[..|classes| - 1];
    if i < |init| {
      PartialClassesAt(init, i);
      assert init[..i] == classes[..i] && init[i] == classes[i];
    }
  }

  /** When every class types, the classes are left exactly as typed. */
  lemma {:induction false} PartialClassesOk(classes: seq<ClassDecl>)
    ensures TypeClasses(classes).Ok? ==> TypeClassesPartial(classes) == TypeClasses(classes).value
  {
    if classes != [] {
      var last := classes[|classes| - 1];
      PartialClassesOk(classes[..|classes| - 1]);
      PartialStmtsOk(last.stmts);
    }
  }

  /** The statement loop of resolveAllProperties for one class, with the statements as it leaves them. */
  method TypeClassStmts(stmts: seq<Stmt>) returns (r: Result<seq<Stmt>>, typed: seq<Stmt>)
    ensures r == TypeStmts(stmts)
    ensures typed == TypeStmtsPartial(stmts)
  {
    var done: seq<Stmt> := [];
    var j := 0;
    while j < |stmts|
      invariant 0 <= j <= |stmts|
      invariant TypeStmts(stmts[..j]) == Ok(done)
    {
      TypeStmtsSnoc(stmts, j, done);
      var s := TypeStmt(stmts[j]);
      if s.Err? {
        TypeStmtsAbort(stmts, j + 1);
        PartialStmtsAbort(stmts, j);
        return Err(s.error), done + stmts[j..];
      }
      done := done + [s.value];
      j := j + 1;
    }
    assert stmts[..j] == stmts;
    PartialStmtsOk(stmts);
    return Ok(done), done;
  }

  lemma TypeStmtsSnoc(stmts: seq<Stmt>, j: nat, done: seq<Stmt>)
    requires j < |stmts| && TypeStmts(stmts[..j]) == Ok(done)
    ensures TypeStmts(stmts[..j + 1]) ==
      match TypeStmt(stmts[j])
      case Err(e) => Err(e)
      case Ok(s) => Ok(done + [s])
  {
    assert stmts[..j + 1][..j] == stmts[..j];
  }

  /** Once a prefix of the statements fails, the whole list fails with the same error. */
  lemma {:induction false} TypeStmtsAbort(stmts: seq<Stmt>, j: nat)
    requires j <= |stmts| && TypeStmts(stmts[..j]).Err?
    ensures TypeStmts(stmts) == TypeStmts(stmts[..j])
    decreases |stmts| - j
  {
    if j < |stmts| {
      assert stmts[..j + 1][..j] == stmts[..j];
      TypeStmtsAbort(stmts, j + 1);
    } else {
      assert stmts[..j] == stmts;
    }
  }

  lemma {:induction false} TypeClassesAbort(classes: seq<ClassDecl>, i: nat)
    requires i <= |classes| && TypeClasses(classes[..i]).Err?
    ensures TypeClasses(classes) == TypeClasses(classes[..i])
    decreases |classes| - i
  {
    if i < |classes| {
      assert classes[..i + 1][..i] == classes[..i];
      TypeClassesAbort(classes, i + 1);
    } else {
      assert classes[..i] == classes;
    }
  }

  /** The typing of the first i + 1 classes extends that of the first i by class i. */
  lemma TypeClassesSnoc(classes: seq<ClassDecl>, i: nat, done: seq<ClassDecl>)
    requires i < |classes| && TypeClasses(classes[..i]) == Ok(done)
    ensures TypeClasses(classes[..i + 1]) ==
      match TypeStmts(classes[i].stmts)
      case Err(e) => Err(e)
      case Ok(stmts) => Ok(done + [classes[i].(stmts := stmts)])
  {
    var prefix := classes[..i + 1];
    assert prefix[..|prefix| - 1] == classes[..i] && prefix[|prefix| - 1] == classes[i];
  }

  /** One class of resolveAllProperties: a failing body ends the whole run with its error, a typed one extends the prefix. */
  lemma TypeClassesStep(classes: seq<ClassDecl>, i: nat, done: seq<ClassDecl>)
    requires i < |classes| && TypeClasses(classes[..i]) == Ok(done)
    ensures TypeStmts(classes[i].stmts).Err? ==> TypeClasses(classes) == Err(TypeStmts(classes[i].stmts).error)
    ensures TypeStmts(classes[i].stmts).Ok? ==>
      TypeClasses(classes[..i + 1]) == Ok(done + [classes[i].(stmts := TypeStmts(classes[i].stmts).value)])
  {
    TypeClassesSnoc(classes, i, done);
    if TypeStmts(classes[i].stmts).Err? {
      TypeClassesAbort(classes, i + 1);
    }
  }

  /** Replacing element i of a list whose tail from i is that of another list. */
  lemma UpdateAt<T>(a: seq<T>, b: seq<T>, i: nat, x: T)
    requires i < |a| == |b| && a[i..] == b[i..]
    ensures a[i := x] == a[..i] + [x] + b[i + 1..]
    ensures a[i := x][..i + 1] == a[..i] + [x] && a[i := x][i + 1..] == b[i + 1..]
  {
    assert a[i + 1..] == a[i..][1..];
  }

  /** A prefix followed by the tail of all but the last element, then the last element, is that prefix followed by the tail. */
  lemma SnocAfter<T>(p: seq<T>, done: seq<T>, s: seq<T>, j: nat)
    requires j < |s| && p == done + s[..|s| - 1][j..]
    ensures p + [s[|s| - 1]] == done + s[j..]
  {
    SliceSnoc(s, j);
    assert done + s[..|s| - 1][j..] + [s[|s| - 1]] == done + (s[..|s| - 1][j..] + [s[|s| - 1]]);
  }

  /** A suffix of a list is the same suffix of all but its last element, followed by that element. */
  lemma SliceSnoc<T>(s: seq<T>, j: nat)
    requires j < |s|
    ensures s[..|s| - 1][j..] + [s[|s| - 1]] == s[j..]
  {
  }

  /** A statement that fails to type ends the typing: the earlier ones are typed and it and the later ones are not. */
  lemma {:induction false} PartialStmtsAbort(stmts: seq<Stmt>, j: nat)
    requires j < |stmts| && TypeStmts(stmts[..j]).Ok? && TypeStmt(stmts[j]).Err?
    ensures TypeStmtsPartial(stmts) == TypeStmts(stmts[..j]).value + stmts[j..]
    decreases |stmts|
  {
    var init := stmts[..|stmts| - 1];
    var last := stmts[|stmts| - 1];
    if j == |stmts| - 1 {
      assert init == stmts[..j] && stmts[j..] == [last];
      PartialStmtsAbortLast(stmts);
    } else {
      assert init[..j] == stmts[..j] && init[j] == stmts[j];
      PartialStmtsAbort(init, j);
      StmtsFailLater(stmts, j, |stmts| - 1);
      PartialStmtsAbortStep(stmts, j, TypeStmts(stmts[..j]).value);
    }
  }

  /** A failure before the last statement leaves the last one untouched. */
  lemma PartialStmtsAbortStep(stmts: seq<Stmt>, j: nat, typed: seq<Stmt>)
    requires j < |stmts| - 1 && TypeStmts(stmts[..|stmts| - 1]).Err?
    requires TypeStmtsPartial(stmts[..|stmts| - 1]) == typed + stmts[..|stmts| - 1][j..]
    ensures TypeStmtsPartial(stmts) == typed + stmts[j..]
  {
    PartialStmtsUntyped(stmts);
    SnocAfter(TypeStmtsPartial(stmts[..|stmts| - 1]), typed, stmts, j);
  }

  /** The last statement is the first that fails to type. */
  lemma PartialStmtsAbortLast(stmts: seq<Stmt>)
    requires |stmts| > 0 && TypeStmts(stmts[..|stmts| - 1]).Ok? && TypeStmt(stmts[|stmts| - 1]).Err?
    ensures TypeStmtsPartial(stmts) == TypeStmts(stmts[..|stmts| - 1]).value + [stmts[|stmts| - 1]]
  {
    PartialStmtsOk(stmts[..|stmts| - 1]);
    PartialStmtsUntyped(stmts);
  }

  /** A last statement that does not type, or that follows one that did not, is left as it was. */
  lemma PartialStmtsUntyped(stmts: seq<Stmt>)
    requires |stmts| > 0
    requires !(TypeStmts(stmts[..|stmts| - 1]).Ok? && TypeStmt(stmts[|stmts| - 1]).Ok?)
    ensures TypeStmtsPartial(stmts) == TypeStmtsPartial(stmts[..|stmts| - 1]) + [stmts[|stmts| - 1]]
  {
  }

  lemma StmtsFailLater(stmts: seq<Stmt>, j: nat, k: nat)
    requires j < k <= |stmts| && TypeStmts(stmts[..j]).Ok? && TypeStmt(stmts[j]).Err?
    ensures TypeStmts(stmts[..k]).Err?
  {
    TypeStmtsSnoc(stmts, j, TypeStmts(stmts[..j]).value);
    assert stmts[..k][..j + 1] == stmts[..j + 1];
    TypeStmtsAbort(stmts[..k], j + 1);
  }

  lemma ClassesFailLater(classes: seq<ClassDecl>, i: nat, k: nat)
    requires i < k <= |classes| && TypeClasses(classes[..i]).Ok? && TypeStmts(classes[i].stmts).Err?
    ensures TypeClasses(classes[..k]).Err?
  {
    TypeClassesSnoc(classes, i, TypeClasses(classes[..i]).value);
    assert classes[..k][..i + 1] == classes[..i + 1];
    TypeClassesAbort(classes[..k], i + 1);
  }

  /** A class that fails to type ends resolveAllProperties: earlier classes typed, it as far as it got, later ones untouched. */
  lemma {:induction false} PartialClassesAbort(classes: seq<ClassDecl>, i: nat)
    requires i < |classes| && TypeClasses(classes[..i]).Ok? && TypeStmts(classes[i].stmts).Err?
    ensures TypeClassesPartial(classes) ==
      TypeClasses(classes[..i]).value + [classes[i].(stmts := TypeStmtsPartial(classes[i].stmts))] + classes[i + 1..]
    decreases |classes|
  {
    var init := classes[..|classes| - 1];
    var last := classes[|classes| - 1];
    if i == |classes| - 1 {
      assert init == classes[..i];
      PartialClassesOk(init);
      assert classes[i + 1..] == [];
    } else {
      ClassesFailLater(classes, i, |classes| - 1);
      assert init[..i] == classes[..i] && init[i] == classes[i];
      PartialClassesAbort(init, i);
      SliceSnoc(classes, i + 1);
    }
  }

  /**
   * resolveAllProperties: every Property of every class takes its doc-comment type in place.
   * Interfaces are not touched. On an exception the properties typed so far stay typed.
   */
  method ResolveAllProperties(st: State) returns (r: Result<()>)
    modifies st`classes
    ensures r.Ok? <==> TypeClasses(old(st.classes)).Ok?
    ensures r.Ok? ==> st.classes == TypeClasses(old(st.classes)).value
    ensures r.Err? ==> r.error == TypeClasses(old(st.classes)).error
    ensures st.classes == TypeClassesPartial(old(st.classes))
  {
    ghost var original := st.classes;
    var i := 0;
    while i < |st.classes|
      invariant 0 <= i <= |st.classes| == |original|
      invariant TypeClasses(original[..i]) == Ok(st.classes[..i])
      invariant st.classes[i..] == original[i..]
    {
      var c := st.classes[i];
      assert c == original[i];
      var stmts, typed := TypeClassStmts(c.stmts);
      TypeClassesStep(original, i, st.classes[..i]);
      if stmts.Err? {
        PartialClassesAbort(original, i);
        UpdateAt(st.classes, original, i, c.(stmts := typed));
        st.classes := st.classes[i := c.(stmts := typed)];
        return Err(stmts.error);
      }
      UpdateAt(st.classes, original, i, c.(stmts := stmts.value));
      st.classes := st.classes[i := c.(stmts := stmts.value)];
      i := i + 1;
    }
    assert original[..i] == original;
    assert st.classes[..i] == st.classes;
    PartialClassesOk(original);
    return Ok(());
  }

  // ---------------------------------------------------------------------------
  // Seeding
  // ---------------------------------------------------------------------------

  /** The operand storages after seeding: resolved types, unresolved operands in order, and the `type` fields. */
  datatype Seeding = Seeding(resolved: Resolved, unresolved: seq<VarId>, types: map<VarId, Option<Type>>)

  function Current(types: map<VarId, Option<Type>>, v: VarId): Option<Type>
  {
    if v in types then types[v] else None
  }

  /** SplObjectStorage::attach of an object it already holds changes nothing. */
  function Attach(s: seq<VarId>, v: VarId): (r: seq<VarId>)
    ensures Elems(r) == Elems(s) + {v}
  {
    if v in s then s else s + [v]
  }

  /** A `type` field that is set and not unknown (`!empty($op->type) && $op->type->type !== TYPE_UNKNOWN`). */
  predicate Known(t: Option<Type>)
  {
    t.Some? && !t.value.Unknown?
  }

  /** One operand of the seeding loop. */
  function SeedOne(ctx: Context, s: Seeding, v: VarId): (r: Result<Seeding>)
    ensures r.Ok? ==> r.value.resolved.Keys <= s.resolved.Keys + {v} && Elems(r.value.unresolved) <= Elems(s.unresolved) + {v}
    ensures r.Ok? ==> s.resolved.Keys + Elems(s.unresolved) + {v} <= r.value.resolved.Keys + Elems(r.value.unresolved)
    // a known type is kept, and only the resolved map learns it
    ensures Known(Current(s.types, v)) ==> r == Ok(s.(resolved := s.resolved[v := Current(s.types, v).value]))
    // a $this-like bound variable takes the type its owner declares, on the operand and in the map
    ensures !Known(Current(s.types, v)) && KindOf(ctx, v).BoundVariable? && KindOf(ctx, v).objectScope ==>
      var t := FromDeclValue(KindOf(ctx, v).extra);
      (r.Err? <==> t.Err?) && (r.Ok? ==> r.value == Seeding(s.resolved[v := t.value], s.unresolved, s.types[v := Some(t.value)]))
    // a literal takes the type of its value, and a null literal raises
    ensures !Known(Current(s.types, v)) && KindOf(ctx, v).Literal? ==>
      var t := FromValue(KindOf(ctx, v).value);
      (r.Err? <==> t.Err?) && (r.Ok? ==> r.value == Seeding(s.resolved[v := t.value], s.unresolved, s.types[v := Some(t.value)]))
    // any other operand waits
    ensures !Known(Current(s.types, v)) && !KindOf(ctx, v).Literal? && !(KindOf(ctx, v).BoundVariable? && KindOf(ctx, v).objectScope) ==>
      r == Ok(s.(unresolved := Attach(s.unresolved, v)))
    // no other operand is touched
    ensures r.Ok? ==> forall k :: k != v && k in s.resolved ==> k in r.value.resolved && r.value.resolved[k] == s.resolved[k]
    ensures r.Ok? ==> forall k :: k != v ==> Current(r.value.types, k) == Current(s.types, k)
    ensures r.Ok? ==> forall k :: k in s.unresolved ==> k in r.value.unresolved
  {
    var current := Current(s.types, v);
    if current.Some? && !current.value.Unknown? then Ok(s.(resolved := s.resolved[v := current.value]))
    else match KindOf(ctx, v)
      case BoundVariable(objectScope, extra) =>
        if objectScope then
          match FromDeclValue(extra)
          case Err(e) => Err(e)
          case Ok(t) => Ok(Seeding(s.resolved[v := t], s.unresolved, s.types[v := Some(t)]))
        else Ok(s.(unresolved := Attach(s.unresolved, v)))
      case Literal(value) =>
        (match FromValue(value)
         case Err(e) => Err(e)
         case Ok(t) => Ok(Seeding(s.resolved[v := t], s.unresolved, s.types[v := Some(t)])))
      case Temporary => Ok(s.(unresolved := Attach(s.unresolved, v)))
  }

  /**
   * The seeding loop of resolve: an operand that already has a known type keeps it, a
   * $this-like bound variable is typed from its owner, a literal from its value, and any
   * other operand waits, unresolved.
   */
  function Seed(ctx: Context, vars: seq<VarId>, types: map<VarId, Option<Type>>): (r: Result<Seeding>)
    ensures r.Ok? ==> r.value.resolved.Keys <= Elems(vars) && Elems(r.value.unresolved) <= Elems(vars)
    ensures r.Ok? ==> Elems(vars) <= r.value.resolved.Keys + Elems(r.value.unresolved)
  {
    if vars == [] then Ok(Seeding(map[], [], types))
    else
      var v := vars[|vars| - 1];
      var init := vars[..|vars| - 1];
      assert Elems(vars) == Elems(init) + {v} by {
        assert vars == init + [v];
      }
      match Seed(ctx, init, types)
      case Err(e) => Err(e)
      case Ok(s) => SeedOne(ctx, s, v)
  }

  // ---------------------------------------------------------------------------
  // Rounds
  // ---------------------------------------------------------------------------

  /** The producers of an operand (`$var->ops`). */
  function OpsOf(ctx: Context, v: VarId): seq<Op>
  {
    if v in ctx.operands then ctx.operands[v].ops else []
  }

  /**
   * resolveVar as a round calls it: the outcome for an operand given the resolved map so far.
   * Like resolveVar, it writes at most the operand's own entry.
   */
  type VarResolver = f: (VarId, Resolved) -> Outcome | forall v, res :: OnlyWrites(res, f(v, res).resolved, v)
    witness (v: VarId, res: Resolved) => Outcome(Ok(None), res)

  /** resolveVar over the operand's producers (`$var->ops`), in the given context. */
  function ResolverOf(ctx: Context): VarResolver
  {
    (v: VarId, res: Resolved) => ResolveVar(ctx, v, OpsOf(ctx, v), res)
  }

  /** Part of a round: the resolved map so far and the operands resolved in it (`$toRemove`). */
  datatype Pass = Pass(resolved: Resolved, removed: seq<VarId>)

  /** One step of a round: resolveVar on v, recording its type and marking it for removal when it has one. */
  function Visit(rv: VarResolver, p: Pass, v: VarId): (r: Result<Pass>)
    ensures r.Ok? ==> p.resolved.Keys <= r.value.resolved.Keys <= p.resolved.Keys + {v}
    ensures r.Ok? ==> r.value.removed == p.removed || (r.value.removed == p.removed + [v] && v in r.value.resolved)
    // finalising an operand that already had a (speculative Phi) entry is no growth
    ensures r.Ok? && v in p.resolved ==> r.value.resolved.Keys == p.resolved.Keys
  {
    var o := rv(v, p.resolved);
    match o.result
    case Err(e) => Err(e)
    case Ok(None) => Ok(Pass(o.resolved, p.removed))
    case Ok(Some(t)) => Ok(Pass(o.resolved[v := t], p.removed + [v]))
  }

  /** The first |vars| steps of a round over the unresolved operands, in their order. */
  function RoundOver(rv: VarResolver, vars: seq<VarId>, resolved: Resolved): (r: Result<Pass>)
    ensures r.Ok? ==> resolved.Keys <= r.value.resolved.Keys <= resolved.Keys + Elems(vars)
    ensures r.Ok? ==> Elems(r.value.removed) <= Elems(vars) && Elems(r.value.removed) <= r.value.resolved.Keys
  {
    if vars == [] then Ok(Pass(resolved, []))
    else
      var v := vars[|vars| - 1];
      var init := vars[..|vars| - 1];
      assert Elems(vars) == Elems(init) + {v} by {
        assert vars == init + [v];
      }
      match RoundOver(rv, init, resolved)
      case Err(e) => Err(e)
      case Ok(p) =>
        var r := Visit(rv, p, v);
        assert r.Ok? ==> Elems(r.value.removed) <= Elems(p.removed) + {v};
        r
  }

  /** The unresolved operands left after detaching the removed ones, in their order. */
  function Without(s: seq<VarId>, removed: seq<VarId>): (r: seq<VarId>)
    ensures Elems(r) == Elems(s) - Elems(removed)
    ensures |r| <= |s|
  {
    if s == [] then []
    else
      var rest := Without(s[1..], removed);
      assert Elems(s) == {s[0]} + Elems(s[1..]) by {
        assert s == [s[0]] + s[1..];
      }
      assert Elems([s[0]] + rest) == {s[0]} + Elems(rest);
      if s[0] in removed then rest else [s[0]] + rest
  }

  /** Where the rounds stop: the resolved map and the operands still unresolved. */
  datatype Fixpoint = Fixpoint(resolved: Resolved, unresolved: seq<VarId>)

  /**
   * The do-while loop of resolve: run a round, detach what it resolved, and go again while
   * something is unresolved and the round grew the resolved map. Every key of the map is
   * one of the operands, so the map can grow only finitely often.
   */
  function Rounds(rv: VarResolver, universe: set<VarId>, unresolved: seq<VarId>, resolved: Resolved): (r: Result<Fixpoint>)
    requires resolved.Keys <= universe && Elems(unresolved) <= universe
    ensures r.Ok? ==> resolved.Keys <= r.value.resolved.Keys <= universe
    ensures r.Ok? ==> Elems(unresolved) <= r.value.resolved.Keys + Elems(r.value.unresolved)
    ensures r.Ok? ==> Elems(r.value.unresolved) <= Elems(unresolved)
    decreases |universe| - |resolved.Keys|
  {
    match RoundOver(rv, unresolved, resolved)
    case Err(e) => Err(e)
    case Ok(p) =>
      var left := Without(unresolved, p.removed);
      Cfg.SubsetCard(p.resolved.Keys, universe);
      if |left| > 0 && |resolved.Keys| < |p.resolved.Keys| then Rounds(rv, universe, left, p.resolved)
      else Ok(Fixpoint(p.resolved, left))
  }

  /** How many rounds the loop runs. */
  function RoundCount(rv: VarResolver, universe: set<VarId>, unresolved: seq<VarId>, resolved: Resolved): (n: nat)
    requires resolved.Keys <= universe && Elems(unresolved) <= universe
    ensures 1 <= n <= |universe| - |resolved.Keys| + 1
    decreases |universe| - |resolved.Keys|
  {
    Cfg.SubsetCard(resolved.Keys, universe);
    match RoundOver(rv, unresolved, resolved)
    case Err(_) => 1
    case Ok(p) =>
      var left := Without(unresolved, p.removed);
      Cfg.SubsetCard(p.resolved.Keys, universe);
      if |left| > 0 && |resolved.Keys| < |p.resolved.Keys| then 1 + RoundCount(rv, universe, left, p.resolved)
      else 1
  }

  // ---------------------------------------------------------------------------
  // Write-back and the whole of resolve
  // ---------------------------------------------------------------------------

  /** Every resolved operand takes its type, then every unresolved one takes Unknown, overriding a speculative entry. */
  function WriteBack(types: map<VarId, Option<Type>>, resolved: Resolved, unresolved: seq<VarId>): map<VarId, Option<Type>>
  {
    (types + map k | k in resolved :: Some(resolved[k])) + map k | k in unresolved :: Some(Unknown)
  }

  /** What resolve leaves in the operands' `type` fields, once the properties are typed. */
  function Reconstruct(ctx: Context, vars: seq<VarId>, types: map<VarId, Option<Type>>): Result<map<VarId, Option<Type>>>
  {
    match Seed(ctx, vars, types)
    case Err(e) => Err(e)
    case Ok(s) =>
      if s.unresolved == [] then Ok(s.types)
      else
        match Rounds(ResolverOf(ctx), Elems(vars), s.unresolved, s.resolved)
        case Err(e) => Err(e)
        case Ok(f) => Ok(WriteBack(s.types, f.resolved, f.unresolved))
  }

  /**
   * The `type` fields as the seeding loop leaves them, whether or not it raised: a raising
   * operand writes nothing, and the loop stops there (SeedTypesAbort).
   */
  function SeedTypes(ctx: Context, vars: seq<VarId>, types: map<VarId, Option<Type>>): (r: map<VarId, Option<Type>>)
    ensures Seed(ctx, vars, types).Ok? ==> r == Seed(ctx, vars, types).value.types
  {
    if vars == [] then types
    else
      match Seed(ctx, vars[..|vars| - 1], types)
      case Err(_) => SeedTypes(ctx, vars[..|vars| - 1], types)
      case Ok(s) =>
        match SeedOne(ctx, s, vars[|vars| - 1])
        case Err(_) => s.types
        case Ok(s') => s'.types
  }

  /** Seeding operand i raises, so the seeding of the first i + 1 operands does. */
  lemma SeedStepErr(ctx: Context, vars: seq<VarId>, types: map<VarId, Option<Type>>, i: nat)
    requires i < |vars| && Seed(ctx, vars[..i], types).Ok?
    requires SeedOne(ctx, Seed(ctx, vars[..i], types).value, vars[i]).Err?
    ensures Seed(ctx, vars[..i + 1], types).Err?
  {
    var pre := vars[..i + 1];
    assert pre[..|pre| - 1] == vars[..i] && pre[|pre| - 1] == vars[i];
  }

  /** When operand i raises, the `type` fields are those the operands before it wrote. */
  lemma {:induction false} SeedTypesAbort(ctx: Context, vars: seq<VarId>, types: map<VarId, Option<Type>>, i: nat)
    requires i < |vars| && Seed(ctx, vars[..i], types).Ok?
    requires SeedOne(ctx, Seed(ctx, vars[..i], types).value, vars[i]).Err?
    ensures SeedTypes(ctx, vars, types) == Seed(ctx, vars[..i], types).value.types
    decreases |vars|
  {
    var init := vars[..|vars| - 1];
    if i == |vars| - 1 {
      assert init == vars[..i];
    } else {
      assert init[..i] == vars[..i] && init[i] == vars[i];
      SeedStepErr(ctx, init, types, i);
      SeedAbort(ctx, init, types, i + 1);
      SeedTypesAbort(ctx, init, types, i);
    }
  }

  /** Seeding stops at the first operand that raises, with that operand's error and what came before it written. */
  lemma SeedStops(ctx: Context, vars: seq<VarId>, types: map<VarId, Option<Type>>, i: nat)
    requires i < |vars| && Seed(ctx, vars[..i], types).Ok?
    requires SeedOne(ctx, Seed(ctx, vars[..i], types).value, vars[i]).Err?
    ensures Seed(ctx, vars, types) == SeedOne(ctx, Seed(ctx, vars[..i], types).value, vars[i])
    ensures SeedTypes(ctx, vars, types) == Seed(ctx, vars[..i], types).value.types
  {
    var pre := vars[..i + 1];
    assert pre[..|pre| - 1] == vars[..i] && pre[|pre| - 1] == vars[i];
    SeedAbort(ctx, vars, types, i + 1);
    SeedTypesAbort(ctx, vars, types, i);
  }

  /** One turn of the seeding loop: a raising operand ends the seeding, any other extends the prefix. */
  lemma SeedAdvance(ctx: Context, vars: seq<VarId>, types: map<VarId, Option<Type>>, i: nat, s: Seeding)
    requires i < |vars| && Seed(ctx, vars[..i], types) == Ok(s)
    ensures SeedOne(ctx, s, vars[i]).Ok? ==> Seed(ctx, vars[..i + 1], types) == SeedOne(ctx, s, vars[i])
    ensures SeedOne(ctx, s, vars[i]).Err? ==>
      Seed(ctx, vars, types) == SeedOne(ctx, s, vars[i]) && SeedTypes(ctx, vars, types) == s.types
  {
    var pre := vars[..i + 1];
    assert pre[..|pre| - 1] == vars[..i] && pre[|pre| - 1] == vars[i];
    if SeedOne(ctx, s, vars[i]).Err? {
      SeedStops(ctx, vars, types, i);
    }
  }

  /** The body of the seeding loop: seed operand i. */
  method SeedNext(ctx: Context, vars: seq<VarId>, types: map<VarId, Option<Type>>, i: nat, s: Seeding)
    returns (next: Result<Seeding>)
    requires i < |vars| && Seed(ctx, vars[..i], types) == Ok(s)
    ensures next.Ok? ==> Seed(ctx, vars[..i + 1], types) == next
    ensures next.Err? ==> Seed(ctx, vars, types) == next && SeedTypes(ctx, vars, types) == s.types
  {
    next := SeedOne(ctx, s, vars[i]);
    SeedAdvance(ctx, vars, types, i, s);
  }

  /** The seeding loop starts from an empty map and list. */
  lemma SeedStart(ctx: Context, vars: seq<VarId>, types: map<VarId, Option<Type>>)
    ensures Seed(ctx, vars[..0], types) == Ok(Seeding(map[], [], types))
  {
    assert vars[..0] == [];
  }

  /** The seeding loop ran over every operand. */
  lemma SeedComplete(ctx: Context, vars: seq<VarId>, types: map<VarId, Option<Type>>, s: Seeding)
    requires Seed(ctx, vars[..|vars|], types) == Ok(s)
    ensures Seed(ctx, vars, types) == Ok(s) && SeedTypes(ctx, vars, types) == s.types
  {
    assert vars[..|vars|] == vars;
  }

  /** The seeding loop, with the `type` fields as it leaves them. */
  method SeedVariables(ctx: Context, vars: seq<VarId>, types: map<VarId, Option<Type>>)
    returns (r: Result<Seeding>, written: map<VarId, Option<Type>>)
    ensures r == Seed(ctx, vars, types)
    ensures written == SeedTypes(ctx, vars, types)
  {
    var s := Seeding(map[], [], types);
    var i := 0;
    SeedStart(ctx, vars, types);
    while i < |vars|
      invariant 0 <= i <= |vars|
      invariant Seed(ctx, vars[..i], types) == Ok(s)
    {
      var next := SeedNext(ctx, vars, types, i, s);
      if next.Err? {
        return next, s.types;
      }
      s := next.value;
      i := i + 1;
    }
    SeedComplete(ctx, vars, types, s);
    return Ok(s), s.types;
  }

  lemma {:induction false} SeedAbort(ctx: Context, vars: seq<VarId>, types: map<VarId, Option<Type>>, i: nat)
    requires i <= |vars| && Seed(ctx, vars[..i], types).Err?
    ensures Seed(ctx, vars, types) == Seed(ctx, vars[..i], types)
    decreases |vars| - i
  {
    if i < |vars| {
      assert vars[..i + 1][..i] == vars[..i];
      SeedAbort(ctx, vars, types, i + 1);
    } else {
      assert vars[..i] == vars;
    }
  }

  /** One round: resolveVar on each unresolved operand in order, each seeing what the earlier ones resolved. */
  method RunRound(rv: VarResolver, unresolved: seq<VarId>, resolved: Resolved) returns (r: Result<Pass>)
    ensures r == RoundOver(rv, unresolved, resolved)
  {
    var p := Pass(resolved, []);
    var i := 0;
    while i < |unresolved|
      invariant 0 <= i <= |unresolved|
      invariant RoundOver(rv, unresolved[..i], resolved) == Ok(p)
    {
      var next := Visit(rv, p, unresolved[i]);
      RoundStep(rv, unresolved, resolved, i, p);
      if next.Err? {
        return next;
      }
      p := next.value;
      i := i + 1;
    }
    RoundComplete(rv, unresolved, resolved);
    return Ok(p);
  }

  lemma RoundComplete(rv: VarResolver, vars: seq<VarId>, resolved: Resolved)
    ensures RoundOver(rv, vars[..|vars|], resolved) == RoundOver(rv, vars, resolved)
  {
    assert vars[..|vars|] == vars;
  }

  /** One step of the round: a failing visit ends the whole round with its error, a successful one extends the prefix. */
  lemma RoundStep(rv: VarResolver, vars: seq<VarId>, resolved: Resolved, i: nat, p: Pass)
    requires i < |vars| && RoundOver(rv, vars[..i], resolved) == Ok(p)
    ensures Visit(rv, p, vars[i]).Err? ==> RoundOver(rv, vars, resolved) == Visit(rv, p, vars[i])
    ensures Visit(rv, p, vars[i]).Ok? ==> RoundOver(rv, vars[..i + 1], resolved) == Visit(rv, p, vars[i])
  {
    RoundOverSnoc(rv, vars, resolved, i, p);
    if Visit(rv, p, vars[i]).Err? {
      RoundAbort(rv, vars, resolved, i + 1);
    }
  }

  lemma RoundOverSnoc(rv: VarResolver, vars: seq<VarId>, resolved: Resolved, i: nat, p: Pass)
    requires i < |vars| && RoundOver(rv, vars[..i], resolved) == Ok(p)
    ensures RoundOver(rv, vars[..i + 1], resolved) == Visit(rv, p, vars[i])
  {
    assert vars[..i + 1][..i] == vars[..i];
  }

  lemma {:induction false} RoundAbort(rv: VarResolver, vars: seq<VarId>, resolved: Resolved, i: nat)
    requires i <= |vars| && RoundOver(rv, vars[..i], resolved).Err?
    ensures RoundOver(rv, vars, resolved) == RoundOver(rv, vars[..i], resolved)
    decreases |vars| - i
  {
    if i < |vars| {
      assert vars[..i + 1][..i] == vars[..i];
      RoundAbort(rv, vars, resolved, i + 1);
    } else {
      assert vars[..i] == vars;
    }
  }

  /** `foreach ($toRemove as $remove) $unresolved->detach($remove);` */
  method Detach(unresolved: seq<VarId>, removed: seq<VarId>) returns (left: seq<VarId>)
    ensures left == Without(unresolved, removed)
  {
    left := [];
    var i := |unresolved|;
    while i > 0
      invariant 0 <= i <= |unresolved|
      invariant left == Without(unresolved[i..], removed)
    {
      i := i - 1;
      assert unresolved[i..][1..] == unresolved[i + 1..];
      if unresolved[i] !in removed {
        left := [unresolved[i]] + left;
      }
    }
  }

  /** The do-while loop of resolve, from a seeded state with something unresolved. */
  method RunRounds(rv: VarResolver, ghost universe: set<VarId>, unresolved: seq<VarId>, resolved: Resolved)
    returns (r: Result<Fixpoint>)
    requires resolved.Keys <= universe && Elems(unresolved) <= universe
    ensures r == Rounds(rv, universe, unresolved, resolved)
  {
    var un, res := unresolved, resolved;
    while true
      invariant res.Keys <= universe && Elems(un) <= universe
      invariant Rounds(rv, universe, un, res) == Rounds(rv, universe, unresolved, resolved)
      decreases |universe| - |res.Keys|
    {
      var start := |res.Keys|;
      var p := RunRound(rv, un, res);
      if p.Err? {
        return Err(p.error);
      }
      var left := Detach(un, p.value.removed);
      Cfg.SubsetCard(p.value.resolved.Keys, universe);
      if !(|left| > 0 && start < |p.value.resolved.Keys|) {
        return Ok(Fixpoint(p.value.resolved, left));
      }
      un, res := left, p.value.resolved;
    }
  }

  /** The map after writing the resolved types of `done`. */
  function WrittenResolved(base: map<VarId, Option<Type>>, resolved: Resolved, done: set<VarId>): map<VarId, Option<Type>>
    requires done <= resolved.Keys
  {
    base + map k | k in done :: Some(resolved[k])
  }

  lemma WriteResolvedStep(base: map<VarId, Option<Type>>, resolved: Resolved, done: set<VarId>, k: VarId)
    requires done <= resolved.Keys && k in resolved
    ensures WrittenResolved(base, resolved, done)[k := Some(resolved[k])] == WrittenResolved(base, resolved, done + {k})
  {
  }

  /** The map after writing Unknown for the operands in `done`. */
  function WrittenUnknown(base: map<VarId, Option<Type>>, done: seq<VarId>): map<VarId, Option<Type>>
  {
    base + map k | k in done :: Some(Unknown)
  }

  lemma WriteUnknownStep(base: map<VarId, Option<Type>>, s: seq<VarId>, i: nat)
    requires i < |s|
    ensures WrittenUnknown(base, s[..i])[s[i] := Some(Unknown)] == WrittenUnknown(base, s[..i + 1])
  {
    assert forall k :: k in s[..i + 1] <==> k in s[..i] || k == s[i];
  }

  /** The write-back loops of resolve. */
  method WriteTypes(st: State, resolved: Resolved, unresolved: seq<VarId>)
    modifies st`operandTypes
    ensures st.operandTypes == WriteBack(old(st.operandTypes), resolved, unresolved)
  {
    ghost var original := st.operandTypes;
    var keys := resolved.Keys;
    while keys != {}
      invariant keys <= resolved.Keys
      invariant st.operandTypes == WrittenResolved(original, resolved, resolved.Keys - keys)
      decreases keys
    {
      var k :| k in keys;
      WriteResolvedStep(original, resolved, resolved.Keys - keys, k);
      st.operandTypes := st.operandTypes[k := Some(resolved[k])];
      assert resolved.Keys - keys + {k} == resolved.Keys - (keys - {k});
      keys := keys - {k};
    }
    assert resolved.Keys - keys == resolved.Keys;
    ghost var base := st.operandTypes;
    var i := 0;
    while i < |unresolved|
      invariant 0 <= i <= |unresolved|
      invariant st.operandTypes == WrittenUnknown(base, unresolved[..i])
    {
      WriteUnknownStep(base, unresolved, i);
      st.operandTypes := st.operandTypes[unresolved[i] := Some(Unknown)];
      i := i + 1;
    }
    assert unresolved[..i] == unresolved;
  }

  /**
   * The `type` fields as resolve leaves them once the properties are typed, whether or not it
   * raised: seeding writes as it goes, the rounds write nothing, and the write-back runs only
   * after the last round.
   */
  function ResolvedTypes(ctx: Context, vars: seq<VarId>, types: map<VarId, Option<Type>>): (r: map<VarId, Option<Type>>)
    ensures Reconstruct(ctx, vars, types).Ok? ==> r == Reconstruct(ctx, vars, types).value
  {
    match Reconstruct(ctx, vars, types)
    case Ok(m) => m
    case Err(_) =>
      match Seed(ctx, vars, types)
      case Err(_) => SeedTypes(ctx, vars, types)
      case Ok(s) => s.types
  }

  /**
   * TypeReconstructor::resolve: type the properties, seed, run the rounds and write the
   * types back. On an exception the state is left as far as it got: the properties and
   * operand types written before it stay written.
   */
  method Resolve(st: State) returns (r: Result<()>)
    modifies st`classes, st`operandTypes
    ensures st.classes == TypeClassesPartial(old(st.classes))
    ensures TypeClasses(old(st.classes)).Err? ==>
      r == Err(TypeClasses(old(st.classes)).error) && st.operandTypes == old(st.operandTypes)
    ensures TypeClasses(old(st.classes)).Ok? ==> st.classes == TypeClasses(old(st.classes)).value
    ensures TypeClasses(old(st.classes)).Ok? ==>
      var outcome := Reconstruct(ContextOf(st), st.variables, old(st.operandTypes));
      (outcome.Err? ==> r == Err(outcome.error)) &&
      (outcome.Ok? ==> r == Ok(())) &&
      st.operandTypes == ResolvedTypes(ContextOf(st), st.variables, old(st.operandTypes))
  {
    var typed := ResolveAllProperties(st);
    if typed.Err? {
      return Err(typed.error);
    }
    var ctx := ContextOf(st);
    var seeded, written := SeedVariables(ctx, st.variables, st.operandTypes);
    st.operandTypes := written;
    if seeded.Err? {
      return Err(seeded.error);
    }
    var s := seeded.value;
    if s.unresolved == [] {
      return Ok(());
    }
    var fix := RunRounds(ResolverOf(ctx), Elems(st.variables), s.unresolved, s.resolved);
    if fix.Err? {
      return Err(fix.error);
    }
    WriteTypes(st, fix.value.resolved, fix.value.unresolved);
    return Ok(());
  }
}
