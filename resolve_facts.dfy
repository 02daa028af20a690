/**
 * Properties of resolve and resolveAllProperties: properties are typed statement by
 * statement and typing twice changes nothing; after resolve every operand has a type
 * (Unknown at worst) and no other entry changes; the rounds are bounded by the
 * number of operands.
 */
module ResolutionFacts {
  import opened Wrappers
  import opened Types
  import opened Ir
  import opened DeclParser
  import opened Reconstructor
  import opened Resolution
  import Cfg

  // ---------------------------------------------------------------------------
  // resolveAllProperties
  // ---------------------------------------------------------------------------

  /** Typing a statement keeps its kind, name and doc comment and gives a Property a type; typing it again changes nothing. */
  lemma TypeStmtKeeps(s: Stmt)
    ensures TypeStmt(s).Err? ==> s.Property?
    ensures TypeStmt(s).Ok? ==>
      var t := TypeStmt(s).value;
      (s.Property? ==> t.Property? && t.name == s.name && t.doc == s.doc && t.ptype.Some?) &&
      (!s.Property? ==> t == s) &&
      TypeStmt(t) == Ok(t)
  {
  }

  /** When every statement of a class body types, so does the body. */
  lemma {:induction false} TypeStmtsAllOk(stmts: seq<Stmt>)
    requires forall i :: 0 <= i < |stmts| ==> TypeStmt(stmts[i]).Ok?
    ensures TypeStmts(stmts).Ok?
  {
    if stmts != [] {
      var init := stmts[..|stmts| - 1];
      assert forall i :: 0 <= i < |init| ==> init[i] == stmts[i];
      TypeStmtsAllOk(init);
    }
  }

  /** The typing loop over a class body fails exactly when typing one of its statements fails. */
  lemma TypeStmtsSucceeds(stmts: seq<Stmt>)
    ensures TypeStmts(stmts).Ok? <==> forall i :: 0 <= i < |stmts| ==> TypeStmt(stmts[i]).Ok?
  {
    if forall i :: 0 <= i < |stmts| ==> TypeStmt(stmts[i]).Ok? {
      TypeStmtsAllOk(stmts);
    }
    if TypeStmts(stmts).Ok? {
      TypeStmtsPointwise(stmts);
    }
  }

  /** A typed class body is its typed prefix followed by its typed last statement. */
  lemma TypeStmtsLast(stmts: seq<Stmt>)
    requires TypeStmts(stmts).Ok? && stmts != []
    ensures TypeStmts(stmts[..|stmts| - 1]).Ok? && TypeStmt(stmts[|stmts| - 1]).Ok?
    ensures TypeStmts(stmts).value == TypeStmts(stmts[..|stmts| - 1]).value + [TypeStmt(stmts[|stmts| - 1]).value]
  {
  }

  /** The typing loop over a class body works statement by statement: its i-th result is the i-th statement typed. */
  lemma {:induction false} TypeStmtsPointwise(stmts: seq<Stmt>)
    requires TypeStmts(stmts).Ok?
    ensures |TypeStmts(stmts).value| == |stmts|
    ensures forall i :: 0 <= i < |stmts| ==> TypeStmt(stmts[i]) == Ok(TypeStmts(stmts).value[i])
  {
    if stmts != [] {
      var n := |stmts| - 1;
      var init := stmts[..n];
      TypeStmtsLast(stmts);
      TypeStmtsPointwise(init);
      var head := TypeStmts(init).value;
      var r := TypeStmts(stmts).value;
      forall i | 0 <= i < |stmts| ensures TypeStmt(stmts[i]) == Ok(r[i]) {
        if i < n {
          assert init[i] == stmts[i] && r[i] == head[i];
        } else {
          assert r[i] == TypeStmt(stmts[n]).value;
        }
      }
    }
  }

  /** Typing an already typed class body gives it back unchanged. */
  lemma TypeStmtsIdempotent(stmts: seq<Stmt>)
    requires TypeStmts(stmts).Ok?
    ensures TypeStmts(TypeStmts(stmts).value) == TypeStmts(stmts)
  {
    var typed := TypeStmts(stmts).value;
    TypeStmtsPointwise(stmts);
    forall i | 0 <= i < |typed| ensures TypeStmt(typed[i]) == Ok(typed[i]) {
      TypeStmtKeeps(stmts[i]);
    }
    TypeStmtsSucceeds(typed);
    TypeStmtsPointwise(typed);
    assert TypeStmts(typed).value == typed;
  }

  /** When every class body types, resolveAllProperties succeeds, typing each body in place. */
  lemma {:induction false} TypeClassesAllOk(classes: seq<ClassDecl>)
    requires forall i :: 0 <= i < |classes| ==> TypeStmts(classes[i].stmts).Ok?
    ensures TypeClasses(classes).Ok? && |TypeClasses(classes).value| == |classes|
    ensures forall i :: 0 <= i < |classes| ==>
      TypeClasses(classes).value[i] == classes[i].(stmts := TypeStmts(classes[i].stmts).value)
  {
    if classes != [] {
      var init := classes[..|classes| - 1];
      assert forall i :: 0 <= i < |init| ==> init[i] == classes[i];
      TypeClassesAllOk(init);
    }
  }

  /** When resolveAllProperties succeeds, every class body typed. */
  lemma {:induction false} TypeClassesOkEach(classes: seq<ClassDecl>)
    requires TypeClasses(classes).Ok?
    ensures forall i :: 0 <= i < |classes| ==> TypeStmts(classes[i].stmts).Ok?
  {
    if classes != [] {
      var init := classes[..|classes| - 1];
      TypeClassesOkEach(init);
      assert forall i :: 0 <= i < |init| ==> init[i] == classes[i];
    }
  }

  /** resolveAllProperties works class by class: each class keeps everything but its body, which is typed. */
  lemma TypeClassesPointwise(classes: seq<ClassDecl>)
    ensures TypeClasses(classes).Ok? <==> forall i :: 0 <= i < |classes| ==> TypeStmts(classes[i].stmts).Ok?
    ensures TypeClasses(classes).Ok? ==>
      |TypeClasses(classes).value| == |classes| &&
      forall i :: 0 <= i < |classes| ==>
        TypeClasses(classes).value[i] == classes[i].(stmts := TypeStmts(classes[i].stmts).value)
  {
    if TypeClasses(classes).Ok? {
      TypeClassesOkEach(classes);
    }
    if forall i :: 0 <= i < |classes| ==> TypeStmts(classes[i].stmts).Ok? {
      TypeClassesAllOk(classes);
    }
  }

  /** Running resolveAllProperties a second time leaves the classes as the first run left them. */
  lemma TypeClassesIdempotent(classes: seq<ClassDecl>)
    requires TypeClasses(classes).Ok?
    ensures TypeClasses(TypeClasses(classes).value) == TypeClasses(classes)
  {
    var typed := TypeClasses(classes).value;
    TypeClassesPointwise(classes);
    TypeClassesPointwise(typed);
    forall i | 0 <= i < |typed| ensures TypeStmts(typed[i].stmts) == Ok(typed[i].stmts) {
      TypeStmtsIdempotent(classes[i].stmts);
    }
    assert TypeClasses(typed).value == typed;
  }

  // ---------------------------------------------------------------------------
  // Seeding and write-back
  // ---------------------------------------------------------------------------

  /** A seeding whose resolved operands have their types recorded, and whose other entries are those of `types` outside vars. */
  predicate Records(s: Seeding, types: map<VarId, Option<Type>>, vars: seq<VarId>)
  {
    (forall v :: v in s.resolved ==> v in s.types && s.types[v] == Some(s.resolved[v])) &&
    (forall k :: k in types && k !in vars ==> k in s.types && s.types[k] == types[k])
  }

  /** Seeding an operand with a type records the type under it. */
  lemma RecordsTyped(s: Seeding, types: map<VarId, Option<Type>>, init: seq<VarId>, v: VarId, t: Type)
    requires Records(s, types, init)
    ensures Records(Seeding(s.resolved[v := t], s.unresolved, s.types[v := Some(t)]), types, init + [v])
  {
    assert forall k :: k !in init + [v] ==> k !in init && k != v;
  }

  /** Leaving an operand unresolved, or keeping the type it had, records nothing new. */
  lemma RecordsKept(s: Seeding, types: map<VarId, Option<Type>>, init: seq<VarId>, v: VarId, s': Seeding)
    requires Records(s, types, init)
    requires s'.types == s.types
    requires s'.resolved == s.resolved || (v in s.types && s.types[v].Some? && s'.resolved == s.resolved[v := s.types[v].value])
    ensures Records(s', types, init + [v])
  {
    assert forall k :: k !in init + [v] ==> k !in init;
  }

  lemma SeedOneRecords(ctx: Context, s: Seeding, v: VarId, types: map<VarId, Option<Type>>, init: seq<VarId>)
    requires Records(s, types, init)
    ensures SeedOne(ctx, s, v).Ok? ==> Records(SeedOne(ctx, s, v).value, types, init + [v])
  {
    var current := Current(s.types, v);
    if SeedOne(ctx, s, v).Ok? {
      var s' := SeedOne(ctx, s, v).value;
      if s'.types == s.types {
        RecordsKept(s, types, init, v, s');
      } else {
        RecordsTyped(s, types, init, v, s'.resolved[v]);
      }
    }
  }

  /**
   * After seeding, every seeded operand's `type` field holds its resolved type, and every
   * entry for an operand not in the list is as it was.
   */
  lemma {:induction false} SeedRecords(ctx: Context, vars: seq<VarId>, types: map<VarId, Option<Type>>)
    ensures Seed(ctx, vars, types).Ok? ==> Records(Seed(ctx, vars, types).value, types, vars)
  {
    if vars != [] {
      var init := vars[..|vars| - 1];
      SeedRecords(ctx, init, types);
      assert vars == init + [vars[|vars| - 1]];
      if Seed(ctx, init, types).Ok? {
        SeedOneRecords(ctx, Seed(ctx, init, types).value, vars[|vars| - 1], types, init);
      }
    }
  }

  /** What the seeding loop gives one operand, from its `type` field before seeding: a type, a wait (None), or an error. */
  function SeedsTo(ctx: Context, types: map<VarId, Option<Type>>, v: VarId): Result<Option<Type>>
  {
    var cur := Current(types, v);
    if Known(cur) then Ok(cur)
    else match KindOf(ctx, v)
      case BoundVariable(objectScope, extra) =>
        if objectScope then
          (match FromDeclValue(extra)
           case Err(e) => Err(e)
           case Ok(t) => Ok(Some(t)))
        else Ok(None)
      case Literal(value) =>
        (match FromValue(value)
         case Err(e) => Err(e)
         case Ok(t) => Ok(Some(t)))
      case Temporary => Ok(None)
  }

  /** A seeding in which v has got what SeedsTo promises it. */
  predicate SeedReached(ctx: Context, types: map<VarId, Option<Type>>, s: Seeding, v: VarId)
  {
    match SeedsTo(ctx, types, v)
    case Err(_) => false
    case Ok(Some(t)) => v in s.resolved && s.resolved[v] == t && Current(s.types, v) == Some(t) && !t.Unknown?
    case Ok(None) => v !in s.resolved && v in s.unresolved && Current(s.types, v) == Current(types, v)
  }

  /** One more operand of the seeding loop: it gets its outcome, and the operands seeded before keep theirs. */
  lemma SeedOneReaches(ctx: Context, types: map<VarId, Option<Type>>, init: seq<VarId>, s: Seeding, x: VarId)
    requires forall v :: v in init ==> SeedReached(ctx, types, s, v)
    requires forall k :: k !in init ==> Current(s.types, k) == Current(types, k)
    requires s.resolved.Keys <= Elems(init)
    ensures SeedOne(ctx, s, x).Ok? <==> SeedsTo(ctx, types, x).Ok?
    ensures SeedOne(ctx, s, x).Ok? ==> forall v :: v in init + [x] ==> SeedReached(ctx, types, SeedOne(ctx, s, x).value, v)
  {
    if KindOf(ctx, x).BoundVariable? && FromDeclValue(KindOf(ctx, x).extra).Ok? {
      assert !FromDeclValue(KindOf(ctx, x).extra).value.Unknown?;
    }
    if x !in init {
      assert x !in s.resolved;
    }
    if SeedOne(ctx, s, x).Ok? {
      var s' := SeedOne(ctx, s, x).value;
      forall v | v in init + [x] ensures SeedReached(ctx, types, s', v) {
        if v != x {
          assert v in init;
        }
      }
    }
  }

  /**
   * The seeding loop raises exactly when one operand's conversion raises; otherwise every
   * operand of the list has its outcome, and the `type` fields of other operands are as they were.
   */
  lemma {:induction false} SeedReaches(ctx: Context, vars: seq<VarId>, types: map<VarId, Option<Type>>)
    ensures Seed(ctx, vars, types).Ok? <==> forall v :: v in vars ==> SeedsTo(ctx, types, v).Ok?
    ensures Seed(ctx, vars, types).Ok? ==> forall v :: v in vars ==> SeedReached(ctx, types, Seed(ctx, vars, types).value, v)
    ensures Seed(ctx, vars, types).Ok? ==> forall k :: k !in vars ==> Current(Seed(ctx, vars, types).value.types, k) == Current(types, k)
  {
    if vars != [] {
      var init := vars[..|vars| - 1];
      var x := vars[|vars| - 1];
      assert vars == init + [x];
      SeedReaches(ctx, init, types);
      if Seed(ctx, init, types).Ok? {
        var s := Seed(ctx, init, types).value;
        assert s.resolved.Keys <= Elems(init);
        SeedOneReaches(ctx, types, init, s, x);
      } else {
        var v :| v in init && SeedsTo(ctx, types, v).Err?;
        assert v in vars;
      }
    }
  }

  /**
   * Seeding, operand by operand: a known type is kept, an object-scope bound variable is
   * typed from its declaration, a literal from its value, and any other operand waits
   * unresolved with its `type` field untouched.
   */
  lemma SeedOutcome(ctx: Context, vars: seq<VarId>, types: map<VarId, Option<Type>>, v: VarId)
    requires v in vars && Seed(ctx, vars, types).Ok?
    ensures var r := Seed(ctx, vars, types).value;
      var cur := Current(types, v);
      var kind := KindOf(ctx, v);
      (Known(cur) ==> v in r.resolved && r.resolved[v] == cur.value) &&
      (!Known(cur) && kind.BoundVariable? && kind.objectScope ==>
         FromDeclValue(kind.extra).Ok? && v in r.resolved && r.resolved[v] == FromDeclValue(kind.extra).value &&
         Current(r.types, v) == Some(r.resolved[v])) &&
      (!Known(cur) && kind.Literal? ==>
         FromValue(kind.value).Ok? && v in r.resolved && r.resolved[v] == FromValue(kind.value).value &&
         Current(r.types, v) == Some(r.resolved[v])) &&
      (!Known(cur) && !kind.Literal? && !(kind.BoundVariable? && kind.objectScope) ==>
         v !in r.resolved && v in r.unresolved && Current(r.types, v) == cur)
  {
    SeedReaches(ctx, vars, types);
    assert SeedReached(ctx, types, Seed(ctx, vars, types).value, v);
  }

  /** The number of distinct operands in a list is at most its length. */
  lemma {:induction false} ElemsCard(s: seq<VarId>)
    ensures |Elems(s)| <= |s|
  {
    if s != [] {
      var init := s[..|s| - 1];
      assert Elems(s) == Elems(init) + {s[|s| - 1]} by {
        assert s == init + [s[|s| - 1]];
      }
      ElemsCard(init);
    }
  }

  /** The write-back gives a type to every operand it knows about and leaves the other entries alone. */
  lemma WriteBackCovers(types: map<VarId, Option<Type>>, resolved: Resolved, unresolved: seq<VarId>, k: VarId)
    ensures k in resolved || k in unresolved ==> k in WriteBack(types, resolved, unresolved) && WriteBack(types, resolved, unresolved)[k].Some?
    ensures k !in resolved && k !in unresolved && k in types ==> k in WriteBack(types, resolved, unresolved) && WriteBack(types, resolved, unresolved)[k] == types[k]
  {
  }

  /** Seeding alone, when it resolves everything, leaves every operand typed. */
  lemma SeedCovers(ctx: Context, vars: seq<VarId>, types: map<VarId, Option<Type>>, v: VarId)
    requires Seed(ctx, vars, types).Ok? && Seed(ctx, vars, types).value.unresolved == [] && v in vars
    ensures v in Seed(ctx, vars, types).value.types && Seed(ctx, vars, types).value.types[v].Some?
  {
    SeedRecords(ctx, vars, types);
    assert v in Elems(vars);
  }

  /**
   * After resolve, every operand of the script has a type in its `type` field (Unknown
   * for those no round could resolve), and entries for other operands are untouched.
   */
  lemma ReconstructCovers(ctx: Context, vars: seq<VarId>, types: map<VarId, Option<Type>>)
    ensures Reconstruct(ctx, vars, types).Ok? ==>
      var m := Reconstruct(ctx, vars, types).value;
      (forall v :: v in vars ==> v in m && m[v].Some?) &&
      (forall k :: k in types && k !in vars ==> k in m && m[k] == types[k])
  {
    SeedRecords(ctx, vars, types);
    if Seed(ctx, vars, types).Ok? {
      var s := Seed(ctx, vars, types).value;
      if s.unresolved == [] {
        forall v | v in vars ensures v in s.types && s.types[v].Some? {
          SeedCovers(ctx, vars, types, v);
        }
      } else if Rounds(ResolverOf(ctx), Elems(vars), s.unresolved, s.resolved).Ok? {
        var f := Rounds(ResolverOf(ctx), Elems(vars), s.unresolved, s.resolved).value;
        var m := WriteBack(s.types, f.resolved, f.unresolved);
        assert Reconstruct(ctx, vars, types) == Ok(m);
        forall v | v in vars ensures v in m && m[v].Some? {
          assert v in Elems(vars);
          WriteBackCovers(s.types, f.resolved, f.unresolved, v);
        }
        forall k | k in types && k !in vars ensures k in m && m[k] == types[k] {
          assert k !in Elems(vars);
          WriteBackCovers(s.types, f.resolved, f.unresolved, k);
        }
      }
    }
  }

  /** In the write-back, Unknown overrides any type for the operands still unresolved. */
  lemma WriteBackMarks(types: map<VarId, Option<Type>>, resolved: Resolved, unresolved: seq<VarId>)
    ensures forall v :: v in unresolved ==> WriteBack(types, resolved, unresolved)[v] == Some(Unknown)
    ensures forall v :: v in resolved && v !in unresolved ==> WriteBack(types, resolved, unresolved)[v] == Some(resolved[v])
  {
  }

  /** The operands left unresolved by the last round are written back as Unknown, the resolved ones with their types. */
  lemma ReconstructMarksUnknown(ctx: Context, vars: seq<VarId>, types: map<VarId, Option<Type>>, s: Seeding, f: Fixpoint)
    requires Seed(ctx, vars, types) == Ok(s) && s.unresolved != []
    requires Rounds(ResolverOf(ctx), Elems(vars), s.unresolved, s.resolved) == Ok(f)
    ensures Reconstruct(ctx, vars, types).Ok?
    ensures forall v :: v in f.unresolved ==> Reconstruct(ctx, vars, types).value[v] == Some(Unknown)
    ensures forall v :: v in f.resolved && v !in f.unresolved ==> Reconstruct(ctx, vars, types).value[v] == Some(f.resolved[v])
  {
    assert Reconstruct(ctx, vars, types) == Ok(WriteBack(s.types, f.resolved, f.unresolved));
    WriteBackMarks(s.types, f.resolved, f.unresolved);
  }

  // ---------------------------------------------------------------------------
  // Rounds
  // ---------------------------------------------------------------------------

  /** A subset at least as large as its superset is the superset. */
  lemma SubsetSameSize(a: set<VarId>, b: set<VarId>)
    requires a <= b && |b| <= |a|
    ensures a == b
  {
    if a != b {
      var x :| x in b && x !in a;
      Cfg.SubsetCard(a, b - {x});
    }
  }

  /**
   * How the rounds ended: the last round ran over `unresolved` from `resolved`, gave the
   * fixpoint's map, left exactly the fixpoint's unresolved operands, and either nothing is
   * left or that round added no key.
   */
  predicate LastRound(rv: VarResolver, f: Fixpoint, unresolved: seq<VarId>, resolved: Resolved)
  {
    RoundOver(rv, unresolved, resolved).Ok? &&
    RoundOver(rv, unresolved, resolved).value.resolved == f.resolved &&
    f.unresolved == Without(unresolved, RoundOver(rv, unresolved, resolved).value.removed) &&
    (f.unresolved == [] || resolved.Keys == f.resolved.Keys)
  }

  /** The do-while loop stops only when nothing is unresolved or its last round added no key. */
  lemma {:induction false} RoundsStop(rv: VarResolver, universe: set<VarId>, unresolved: seq<VarId>, resolved: Resolved)
    requires resolved.Keys <= universe && Elems(unresolved) <= universe
    requires Rounds(rv, universe, unresolved, resolved).Ok?
    ensures exists u, res :: LastRound(rv, Rounds(rv, universe, unresolved, resolved).value, u, res)
    decreases |universe| - |resolved.Keys|
  {
    var p := RoundOver(rv, unresolved, resolved).value;
    var left := Without(unresolved, p.removed);
    Cfg.SubsetCard(p.resolved.Keys, universe);
    if |left| > 0 && |resolved.Keys| < |p.resolved.Keys| {
      RoundsStop(rv, universe, left, p.resolved);
    } else {
      if |left| > 0 {
        SubsetSameSize(resolved.Keys, p.resolved.Keys);
      }
      assert LastRound(rv, Rounds(rv, universe, unresolved, resolved).value, unresolved, resolved);
    }
  }

  /** One visit of a round, seen from the prefix before it. */
  lemma RoundPrefixStep(rv: VarResolver, vars: seq<VarId>, resolved: Resolved, i: nat)
    requires i < |vars|
    ensures RoundOver(rv, vars[..i + 1], resolved).Ok? ==> RoundOver(rv, vars[..i], resolved).Ok?
    ensures RoundOver(rv, vars[..i], resolved).Ok? ==>
      RoundOver(rv, vars[..i + 1], resolved) == Visit(rv, RoundOver(rv, vars[..i], resolved).value, vars[i])
  {
    assert vars[..i + 1][..i] == vars[..i];
  }

  /** Along a round the map only gains keys, from any prefix to any longer one. */
  lemma {:induction false} RoundKeysGrow(rv: VarResolver, vars: seq<VarId>, resolved: Resolved, j: nat, i: nat)
    requires j <= i <= |vars| && RoundOver(rv, vars[..i], resolved).Ok?
    ensures RoundOver(rv, vars[..j], resolved).Ok?
    ensures RoundOver(rv, vars[..j], resolved).value.resolved.Keys <= RoundOver(rv, vars[..i], resolved).value.resolved.Keys
    decreases i
  {
    if j < i {
      RoundPrefixStep(rv, vars, resolved, i - 1);
      RoundKeysGrow(rv, vars, resolved, j, i - 1);
    }
  }

  /**
   * Within a round, later visits read the map the earlier ones built: an operand the visit
   * of vars[j] resolved is a key of the map the visit of vars[i] reads (RoundPrefixStep says
   * that visit runs on that map).
   */
  lemma RoundSeesEarlier(rv: VarResolver, vars: seq<VarId>, resolved: Resolved, j: nat, i: nat)
    requires j < i <= |vars| && RoundOver(rv, vars[..i], resolved).Ok?
    ensures RoundOver(rv, vars[..j + 1], resolved).Ok?
    ensures vars[j] in RoundOver(rv, vars[..j + 1], resolved).value.removed ==>
      vars[j] in RoundOver(rv, vars[..i], resolved).value.resolved
  {
    RoundKeysGrow(rv, vars, resolved, j + 1, i);
    RemovedIsResolved(rv, vars[..j + 1], resolved, vars[j]);
  }

  /** An operand a round marks for removal is resolved by it. */
  lemma RemovedIsResolved(rv: VarResolver, vars: seq<VarId>, resolved: Resolved, v: VarId)
    requires RoundOver(rv, vars, resolved).Ok?
    ensures v in RoundOver(rv, vars, resolved).value.removed ==> v in RoundOver(rv, vars, resolved).value.resolved
  {
    if v in RoundOver(rv, vars, resolved).value.removed {
      assert v in Elems(RoundOver(rv, vars, resolved).value.removed);
    }
  }

  /** The do-while loop of resolve runs at most one round more than there are operands. */
  lemma RoundsBounded(ctx: Context, vars: seq<VarId>, types: map<VarId, Option<Type>>)
    requires Seed(ctx, vars, types).Ok?
    ensures var s := Seed(ctx, vars, types).value;
      RoundCount(ResolverOf(ctx), Elems(vars), s.unresolved, s.resolved) <= |vars| + 1
  {
    ElemsCard(vars);
  }
}
