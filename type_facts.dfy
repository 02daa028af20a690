/**
 * Properties of the type lattice: equals is an equivalence that respects member
 * order, simplify flattens same-tag members into an ordered leaf list and is
 * idempotent, and allowsNull asks whether Null is one of a union's leaves.
 */
module TypeFacts {
  import opened Wrappers
  import opened PhpStrings
  import opened Types

  // ---------------------------------------------------------------------------
  // equals is an equivalence relation
  // ---------------------------------------------------------------------------

  lemma {:induction false} EqualsReflexive(t: Type)
    ensures Equals(t, t)
    decreases Size(t), 1
  {
    if HasSubtypes(t) {
      MembersEqualReflexive(t.members);
    }
  }

  lemma {:induction false} MembersEqualReflexive(ms: seq<Type>)
    ensures MembersEqual(ms, ms)
    decreases SizeAll(ms), 2
  {
    if ms != [] {
      EqualsReflexive(ms[0]);
      MembersEqualReflexive(ms[1..]);
    }
  }

  lemma {:induction false} EqualsSymmetric(a: Type, b: Type)
    requires Equals(a, b)
    ensures Equals(b, a)
    decreases Size(a), 1
  {
    if HasSubtypes(a) {
      MembersEqualSymmetric(a.members, b.members);
    }
  }

  lemma {:induction false} MembersEqualSymmetric(xs: seq<Type>, ys: seq<Type>)
    requires MembersEqual(xs, ys)
    ensures MembersEqual(ys, xs)
    decreases SizeAll(xs), 2
  {
    if xs != [] {
      EqualsSymmetric(xs[0], ys[0]);
      MembersEqualSymmetric(xs[1..], ys[1..]);
    }
  }

  lemma {:induction false} EqualsTransitive(a: Type, b: Type, c: Type)
    requires Equals(a, b) && Equals(b, c)
    ensures Equals(a, c)
    decreases Size(a), 1
  {
    if HasSubtypes(a) {
      MembersEqualTransitive(a.members, b.members, c.members);
    }
  }

  lemma {:induction false} MembersEqualTransitive(xs: seq<Type>, ys: seq<Type>, zs: seq<Type>)
    requires MembersEqual(xs, ys) && MembersEqual(ys, zs)
    ensures MembersEqual(xs, zs)
    decreases SizeAll(xs), 2
  {
    if xs != [] {
      EqualsTransitive(xs[0], ys[0], zs[0]);
      MembersEqualTransitive(xs[1..], ys[1..], zs[1..]);
    }
  }

  /** Member order matters: int|string is not string|int. */
  lemma UnionOrderMatters()
    ensures !Equals(Union([Long, String]), Union([String, Long]))
    ensures Equals(Object("Foo"), Object("fOO"))
  {
    assert Lower("Foo") == "foo" && Lower("fOO") == "foo";
  }

  // ---------------------------------------------------------------------------
  // simplify
  // ---------------------------------------------------------------------------

  /** A type simplify leaves alone: no Union/Intersection has a member of its own tag, at any depth. */
  predicate IsSimplified(t: Type)
  {
    match t
    case Union(ms) => forall i :: 0 <= i < |ms| ==> !ms[i].Union? && IsSimplified(ms[i])
    case Intersection(ms) => forall i :: 0 <= i < |ms| ==> !ms[i].Intersection? && IsSimplified(ms[i])
    case _ => true
  }

  predicate FlatMembers(c: Tag, ms: seq<Type>)
  {
    forall i :: 0 <= i < |ms| ==> TagOf(ms[i]) != c && IsSimplified(ms[i])
  }

  lemma FlatMembersAppend(c: Tag, a: seq<Type>, b: seq<Type>)
    requires FlatMembers(c, a) && FlatMembers(c, b)
    ensures FlatMembers(c, a + b)
  {
    forall i | 0 <= i < |a + b| ensures TagOf((a + b)[i]) != c && IsSimplified((a + b)[i]) {
      if i >= |a| { assert (a + b)[i] == b[i - |a|]; }
    }
  }

  lemma {:induction false} SimplifyIsSimplified(t: Type)
    ensures IsSimplified(Simplify(t))
    decreases Size(t), 1
  {
    match t
    case Union(ms) => SimplifyMembersFlat(TUnion, ms);
    case Intersection(ms) => SimplifyMembersFlat(TIntersection, ms);
    case _ =>
  }

  lemma {:induction false} SimplifyMembersFlat(c: Tag, ms: seq<Type>)
    requires IsCombinator(c)
    ensures FlatMembers(c, SimplifyMembers(c, ms))
    decreases SizeAll(ms), 2
  {
    if ms != [] {
      var s := Simplify(ms[0]);
      SimplifyIsSimplified(ms[0]);
      var here := if TagOf(s) == c then s.members else [Simplify(s)];
      if TagOf(s) != c {
        SimplifyIsSimplified(s);
      }
      SimplifyMembersFlat(c, ms[1..]);
      FlatMembersAppend(c, here, SimplifyMembers(c, ms[1..]));
    }
  }

  lemma {:induction false} SimplifiedIsFixed(t: Type)
    requires IsSimplified(t)
    ensures Simplify(t) == t
    decreases Size(t), 1
  {
    match t
    case Union(ms) => FlatMembersFixed(TUnion, ms);
    case Intersection(ms) => FlatMembersFixed(TIntersection, ms);
    case _ =>
  }

  lemma {:induction false} FlatMembersFixed(c: Tag, ms: seq<Type>)
    requires IsCombinator(c) && FlatMembers(c, ms)
    ensures SimplifyMembers(c, ms) == ms
    decreases SizeAll(ms), 2
  {
    if ms != [] {
      SimplifiedIsFixed(ms[0]);
      SimplifiedIsFixed(Simplify(ms[0]));
      FlatMembersFixed(c, ms[1..]);
      assert ms == [ms[0]] + ms[1..];
    }
  }

  /** simplify is idempotent. */
  lemma SimplifyIdempotent(t: Type)
    ensures Simplify(Simplify(t)) == Simplify(t)
  {
    SimplifyIsSimplified(t);
    SimplifiedIsFixed(Simplify(t));
  }

  /** The leaves of t under combinator c: nested members of tag c are opened, anything else is a leaf. */
  function Leaves(c: Tag, t: Type): seq<Type>
    requires IsCombinator(c)
    decreases Size(t), 1
  {
    if TagOf(t) == c then LeavesAll(c, t.members) else [t]
  }

  function LeavesAll(c: Tag, ms: seq<Type>): seq<Type>
    requires IsCombinator(c)
    decreases SizeAll(ms), 2
  {
    if ms == [] then [] else Leaves(c, ms[0]) + LeavesAll(c, ms[1..])
  }

  function MapSimplify(ms: seq<Type>): (r: seq<Type>)
    ensures |r| == |ms| && forall i :: 0 <= i < |ms| ==> r[i] == Simplify(ms[i])
  {
    if ms == [] then [] else [Simplify(ms[0])] + MapSimplify(ms[1..])
  }

  lemma MapSimplifyAppend(a: seq<Type>, b: seq<Type>)
    ensures MapSimplify(a + b) == MapSimplify(a) + MapSimplify(b)
  {
  }

  lemma {:induction false} SimplifyMembersLeaves(c: Tag, ms: seq<Type>)
    requires IsCombinator(c)
    ensures SimplifyMembers(c, ms) == MapSimplify(LeavesAll(c, ms))
    decreases SizeAll(ms), 2
  {
    if ms != [] {
      var m := ms[0];
      var s := Simplify(m);
      if TagOf(m) == c {
        SimplifyMembersLeaves(c, m.members);
      } else {
        SimplifyIdempotent(m);
      }
      SimplifyMembersLeaves(c, ms[1..]);
      MapSimplifyAppend(Leaves(c, m), LeavesAll(c, ms[1..]));
    }
  }

  /**
   * simplify on a Union or Intersection keeps the tag and lists the simplified leaves
   * in their original left-to-right order, one per leaf: nothing is deduplicated.
   */
  lemma SimplifyFlattens(t: Type)
    requires t.Union? || t.Intersection?
    ensures TagOf(Simplify(t)) == TagOf(t)
    ensures Simplify(t).members == MapSimplify(LeavesAll(TagOf(t), t.members))
    ensures forall i :: 0 <= i < |Simplify(t).members| ==> TagOf(Simplify(t).members[i]) != TagOf(t)
  {
    SimplifyMembersLeaves(TagOf(t), t.members);
    SimplifyIsSimplified(t);
  }

  /** (A|B)|C simplifies like A|B|C. */
  lemma NestedUnionFlattens(a: Type, b: Type, c: Type)
    requires !a.Union? && !b.Union? && !c.Union?
    ensures Simplify(Union([Union([a, b]), c])) == Simplify(Union([a, b, c]))
  {
    var nested := Union([Union([a, b]), c]);
    var flat := Union([a, b, c]);
    assert LeavesAll(TUnion, nested.members) == [a, b, c] by {
      LeavesAllOfFlat(TUnion, [a, b]);
      LeavesAllOfFlat(TUnion, [c]);
      assert nested.members[1..] == [c];
    }
    assert LeavesAll(TUnion, flat.members) == [a, b, c] by {
      LeavesAllOfFlat(TUnion, [a, b, c]);
    }
    SimplifyFlattens(nested);
    SimplifyFlattens(flat);
  }

  // ---------------------------------------------------------------------------
  // allowsNull
  // ---------------------------------------------------------------------------

  lemma {:induction false} AllowsNullLeaves(t: Type)
    ensures AllowsNull(t) <==> Null in Leaves(TUnion, t)
    decreases Size(t), 1
  {
    if t.Union? {
      AnyAllowsNullLeaves(t.members);
    }
  }

  lemma {:induction false} AnyAllowsNullLeaves(ms: seq<Type>)
    ensures AnyAllowsNull(ms) <==> Null in LeavesAll(TUnion, ms)
    decreases SizeAll(ms), 2
  {
    if ms != [] {
      AllowsNullLeaves(ms[0]);
      AnyAllowsNullLeaves(ms[1..]);
    }
  }

  lemma {:induction false} LeavesAllOfFlat(c: Tag, ms: seq<Type>)
    requires IsCombinator(c)
    requires forall i :: 0 <= i < |ms| ==> TagOf(ms[i]) != c
    ensures LeavesAll(c, ms) == ms
  {
    if ms != [] {
      LeavesAllOfFlat(c, ms[1..]);
      assert ms == [ms[0]] + ms[1..];
    }
  }

  /** A union allows null exactly when Null is one of its leaves; simplify does not change the answer. */
  lemma SimplifyKeepsAllowsNull(t: Type)
    ensures AllowsNull(Simplify(t)) == AllowsNull(t)
  {
    if t.Union? {
      var l := LeavesAll(TUnion, t.members);
      SimplifyFlattens(t);
      var r := Simplify(t);
      LeavesAllOfFlat(TUnion, r.members);
      AllowsNullLeaves(r);
      AllowsNullLeaves(t);
      NullSurvivesSimplify(l);
    }
  }

  /** Simplifying each type of a list neither creates nor removes a null. */
  lemma NullSurvivesSimplify(l: seq<Type>)
    ensures Null in MapSimplify(l) <==> Null in l
  {
    var m := MapSimplify(l);
    if Null in l {
      var i :| 0 <= i < |l| && l[i] == Null;
      assert m[i] == Simplify(Null);
    }
    if Null in m {
      var i :| 0 <= i < |m| && m[i] == Null;
      assert TagOf(Simplify(l[i])) == TagOf(l[i]);
    }
  }

  /** An Intersection never allows null, whatever its members. */
  lemma IntersectionNeverAllowsNull(ms: seq<Type>)
    ensures !AllowsNull(Intersection(ms))
  {
  }

  /** mixed() allows null: its first member is Null. */
  lemma MixedAllowsNull()
    ensures AllowsNull(Mixed())
  {
    var m := Mixed();
    assert m.members[0] == Null;
    assert AllowsNull(m.members[0]);
  }

  /** A union none of whose members is a union or an intersection is simplified and simplify leaves it alone. */
  lemma FlatUnion(ms: seq<Type>)
    requires forall i :: 0 <= i < |ms| ==> !ms[i].Union? && !ms[i].Intersection?
    ensures IsSimplified(Union(ms)) && Simplify(Union(ms)) == Union(ms)
  {
    SimplifiedIsFixed(Union(ms));
  }

  /** mixed() is already simplified: none of its members is a union. */
  lemma MixedFacts()
    ensures IsSimplified(Mixed())
    ensures Simplify(Mixed()) == Mixed()
  {
    FlatUnion(Mixed().members);
  }



  /** numeric() is int|float and does not allow null. */
  lemma NumericFacts()
    ensures !AllowsNull(Numeric())
    ensures IsSimplified(Numeric())
  {
    assert [Long, Double][1..] == [Double];
  }

  // ---------------------------------------------------------------------------
  // removeType
  // ---------------------------------------------------------------------------

  /** Removing Null from ?T-style unions: Union([t, Null]) minus Null is t when t is not null. */
  lemma RemoveNullFromNullable(t: Type)
    requires !Equals(t, Null)
    ensures RemoveType(Union([t, Null]), Null) == Ok(t)
  {
    EqualsReflexive(Null);
    assert [t, Null][1..] == [Null];
    assert Keep([Null], Null) == [];
    assert Keep([t, Null], Null) == [t];
  }

  lemma {:induction false} KeepNoneEqual(ms: seq<Type>, x: Type)
    requires forall i :: 0 <= i < |ms| ==> !Equals(ms[i], x)
    ensures Keep(ms, x) == ms
  {
    if ms != [] {
      KeepNoneEqual(ms[1..], x);
      assert ms == [ms[0]] + ms[1..];
    }
  }

  /** Removing Null from a union that starts with Null keeps the other members, in order. */
  lemma RemoveLeadingNull(ms: seq<Type>)
    requires |ms| >= 3 && ms[0] == Null
    requires forall i :: 1 <= i < |ms| ==> TagOf(ms[i]) != TNull
    ensures RemoveType(Union(ms), Null) == Ok(Union(ms[1..]))
  {
    var rest := ms[1..];
    EqualsReflexive(Null);
    assert forall i :: 0 <= i < |rest| ==> TagOf(rest[i]) != TNull;
    KeepNoneEqual(rest, Null);
    assert ms == [Null] + rest;
    assert Keep(ms, Null) == rest;
  }

  /** Removing Null from mixed() leaves the other seven primitives, in order. */
  lemma RemoveNullFromMixed()
    ensures RemoveType(Mixed(), Null) == Ok(Union(Mixed().members[1..]))
  {
    RemoveLeadingNull(Mixed().members);
  }

  /** removeType on a kind without members turns an equal type into Null, the "nothing left" marker. */
  lemma RemoveSelfIsNull(t: Type)
    requires !HasSubtypes(t)
    ensures RemoveType(t, t) == Ok(Null)
  {
    EqualsReflexive(t);
  }
}
