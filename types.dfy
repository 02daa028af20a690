/**
 * The type lattice: the Type value, its structural equality, simplification,
 * subtraction, nullability and the canned `mixed` and `numeric` unions.
 * Types are immutable values; member lists are ordered sequences because
 * equality and subtraction depend on member order.
 */
module Types {
  import opened Wrappers
  import opened PhpStrings

  /** Object names keep their spelling; "" is the generic object of Type::object(). */
  datatype Type =
    | Unknown
    | Null
    | Boolean
    | Long
    | Double
    | String
    | Object(name: string)
    | Array(members: seq<Type>)
    | Callable
    | Union(members: seq<Type>)
    | Intersection(members: seq<Type>)

  /** The integer tag of a type (TYPE_UNKNOWN .. TYPE_INTERSECTION). */
  datatype Tag = TUnknown | TNull | TBoolean | TLong | TDouble | TString | TObject | TArray | TCallable | TUnion | TIntersection

  function TagOf(t: Type): Tag
  {
    match t
    case Unknown => TUnknown
    case Null => TNull
    case Boolean => TBoolean
    case Long => TLong
    case Double => TDouble
    case String => TString
    case Object(_) => TObject
    case Array(_) => TArray
    case Callable => TCallable
    case Union(_) => TUnion
    case Intersection(_) => TIntersection
  }

  /** The tags listed in $hasSubtypes: only these carry a member list. */
  predicate HasSubtypes(t: Type)
  {
    t.Array? || t.Union? || t.Intersection?
  }

  predicate IsCombinator(c: Tag)
  {
    c == TUnion || c == TIntersection
  }

  /** `new Type($tag, $members)` for a tag that carries members. */
  function Make(c: Tag, ms: seq<Type>): (r: Type)
    requires c == TArray || IsCombinator(c)
    ensures TagOf(r) == c && HasSubtypes(r) && r.members == ms
  {
    if c == TArray then Array(ms) else if c == TUnion then Union(ms) else Intersection(ms)
  }

  /** Members of a type, empty for the kinds that have none (the $subTypes field). */
  function SubTypes(t: Type): seq<Type>
  {
    if HasSubtypes(t) then t.members else []
  }

  // ---------------------------------------------------------------------------
  // Size: a termination measure for the recursive operations
  // ---------------------------------------------------------------------------

  function Size(t: Type): nat
  {
    match t
    case Array(ms) => 1 + SizeAll(ms)
    case Union(ms) => 1 + SizeAll(ms)
    case Intersection(ms) => 1 + SizeAll(ms)
    case _ => 1
  }

  function SizeAll(ms: seq<Type>): nat
  {
    if ms == [] then 0 else Size(ms[0]) + SizeAll(ms[1..])
  }

  lemma {:induction false} SizeAllAppend(a: seq<Type>, b: seq<Type>)
    ensures SizeAll(a + b) == SizeAll(a) + SizeAll(b)
  {
    if a == [] {
      assert a + b == b;
    } else {
      assert (a + b)[0] == a[0] && (a + b)[1..] == a[1..] + b;
      SizeAllAppend(a[1..], b);
    }
  }

  // ---------------------------------------------------------------------------
  // equals
  // ---------------------------------------------------------------------------

  /**
   * Type::equals. Different tags never match; objects compare lower-cased names;
   * Array, Union and Intersection need the same member count and pairwise-equal
   * members in the same position; every other same-tag pair is equal.
   */
  predicate Equals(a: Type, b: Type)
    decreases Size(a), 1
  {
    if TagOf(a) != TagOf(b) then false
    else if a.Object? then Lower(a.name) == Lower(b.name)
    else if HasSubtypes(a) then MembersEqual(a.members, b.members)
    else true
  }

  /** The member comparison loop: each member must equal the first member not yet matched. */
  predicate MembersEqual(xs: seq<Type>, ys: seq<Type>)
    decreases SizeAll(xs), 2
  {
    |xs| == |ys| && (xs == [] || (Equals(xs[0], ys[0]) && MembersEqual(xs[1..], ys[1..])))
  }

  lemma {:induction false} MembersEqualAt(xs: seq<Type>, ys: seq<Type>)
    ensures MembersEqual(xs, ys) <==> |xs| == |ys| && forall i :: 0 <= i < |xs| ==> Equals(xs[i], ys[i])
    decreases |xs|
  {
    if xs != [] && |xs| == |ys| {
      MembersEqualAt(xs[1..], ys[1..]);
      if Equals(xs[0], ys[0]) && MembersEqual(xs[1..], ys[1..]) {
        forall i | 0 <= i < |xs| ensures Equals(xs[i], ys[i]) {
          if i > 0 { assert xs[i] == xs[1..][i - 1] && ys[i] == ys[1..][i - 1]; }
        }
      }
      if forall i :: 0 <= i < |xs| ==> Equals(xs[i], ys[i]) {
        forall i | 0 <= i < |xs| - 1 ensures Equals(xs[1..][i], ys[1..][i]) {
          assert xs[1..][i] == xs[i + 1];
        }
      }
    }
  }

  // ---------------------------------------------------------------------------
  // Canned types
  // ---------------------------------------------------------------------------

  /** The tags Type::getPrimitives lists, in its order, each as the type makeCachedType builds for it. */
  function Primitives(): seq<Type>
  {
    [Null, Boolean, Long, Double, String, Object(""), Array([]), Callable]
  }

  /** Type::mixed: the union of every primitive, in getPrimitives order. */
  function Mixed(): Type
  {
    Union(Primitives())
  }

  /** Type::numeric: int or float. */
  function Numeric(): Type
  {
    Union([Long, Double])
  }

  // ---------------------------------------------------------------------------
  // simplify
  // ---------------------------------------------------------------------------

  /**
   * Type::simplify. The identity on every kind but Union and Intersection
   * (an Array's element is left alone); otherwise each member is simplified and
   * a member of the parent's own tag has its members spliced in.
   */
  function Simplify(t: Type): (r: Type)
    ensures TagOf(r) == TagOf(t)
    ensures Size(r) <= Size(t)
    ensures t.Object? ==> r == t
    decreases Size(t), 1
  {
    match t
    case Union(ms) => Union(SimplifyMembers(TUnion, ms))
    case Intersection(ms) => Intersection(SimplifyMembers(TIntersection, ms))
    case _ => t
  }

  /** The member loop of simplify, for a parent of tag c. */
  function SimplifyMembers(c: Tag, ms: seq<Type>): (r: seq<Type>)
    requires IsCombinator(c)
    ensures SizeAll(r) <= SizeAll(ms)
    decreases SizeAll(ms), 2
  {
    if ms == [] then []
    else
      var s := Simplify(ms[0]);
      var here := if TagOf(s) == c then s.members else [Simplify(s)];
      assert SizeAll(here) <= Size(ms[0]) by {
        if TagOf(s) != c { assert here[1..] == []; }
      }
      var rest := SimplifyMembers(c, ms[1..]);
      SizeAllAppend(here, rest);
      here + rest
  }

  // ---------------------------------------------------------------------------
  // removeType
  // ---------------------------------------------------------------------------

  /** The members of ms that do not equal x, in order (the $new array of removeType). */
  function Keep(ms: seq<Type>, x: Type): (r: seq<Type>)
    ensures |r| <= |ms|
    ensures forall i :: 0 <= i < |r| ==> !Equals(r[i], x)
  {
    if ms == [] then []
    else
      var rest := Keep(ms[1..], x);
      if Equals(ms[0], x) then rest else [ms[0]] + rest
  }

  /** Keep removes every occurrence of a member equal to x and keeps every other member as often as it occurs. */
  lemma {:induction false} KeepCounts(ms: seq<Type>, x: Type)
    ensures forall y :: multiset(Keep(ms, x))[y] == if Equals(y, x) then 0 else multiset(ms)[y]
  {
    if ms != [] {
      KeepCounts(ms[1..], x);
      assert ms == [ms[0]] + ms[1..];
    }
  }

  /** Keep works member by member: the survivors of a + b are those of a followed by those of b. */
  lemma {:induction false} KeepAppend(a: seq<Type>, b: seq<Type>, x: Type)
    ensures Keep(a + b, x) == Keep(a, x) + Keep(b, x)
  {
    if a == [] {
      assert a + b == b;
    } else {
      assert (a + b)[0] == a[0] && (a + b)[1..] == a[1..] + b;
      KeepAppend(a[1..], b, x);
    }
  }

  /** A single member survives exactly when it does not equal x. */
  lemma KeepSingle(m: Type, x: Type)
    ensures Keep([m], x) == if Equals(m, x) then [] else [m]
  {
    assert [m][1..] == [];
  }

  /** Nothing survives exactly when every member equals x. */
  lemma {:induction false} KeepEmpty(ms: seq<Type>, x: Type)
    ensures Keep(ms, x) == [] <==> forall i :: 0 <= i < |ms| ==> Equals(ms[i], x)
  {
    if ms != [] {
      KeepEmpty(ms[1..], x);
      if forall i :: 0 <= i < |ms| - 1 ==> Equals(ms[1..][i], x) {
        if Equals(ms[0], x) {
          forall i | 0 <= i < |ms| ensures Equals(ms[i], x) {
            if i > 0 { assert ms[i] == ms[1..][i - 1]; }
          }
        }
      } else {
        var i :| 0 <= i < |ms| - 1 && !Equals(ms[1..][i], x);
        assert ms[i + 1] == ms[1..][i];
      }
    }
  }

  /**
   * Type::removeType. A kind without members becomes Null when it equals x and is
   * kept otherwise; Array, Union and Intersection drop the members equal to x,
   * fail when none survive, and return a single survivor bare.
   */
  function RemoveType(t: Type, x: Type): (r: Result<Type>)
    ensures !HasSubtypes(t) ==> r == Ok(if Equals(t, x) then Null else t)
    ensures r.Err? <==> HasSubtypes(t) && forall i :: 0 <= i < |t.members| ==> Equals(t.members[i], x)
    ensures HasSubtypes(t) && r.Ok? ==>
      var kept := Keep(t.members, x);
      (|kept| == 1 ==> r.value == kept[0]) &&
      (|kept| > 1 ==> TagOf(r.value) == TagOf(t) && r.value.members == kept)
  {
    if !HasSubtypes(t) then Ok(if Equals(t, x) then Null else t)
    else
      var kept := Keep(t.members, x);
      KeepEmpty(t.members, x);
      if kept == [] then Err(EmptyRemoval)
      else if |kept| == 1 then Ok(kept[0])
      else Ok(Make(TagOf(t), kept))
  }

  // ---------------------------------------------------------------------------
  // allowsNull
  // ---------------------------------------------------------------------------

  /**
   * Type::allowsNull. Null allows null, a Union does when one of its members does;
   * every other type, Intersection included (its loop can only return false), does not.
   */
  predicate AllowsNull(t: Type)
  {
    match t
    case Null => true
    case Union(ms) => AnyAllowsNull(ms)
    case _ => false
  }

  predicate AnyAllowsNull(ms: seq<Type>)
  {
    ms != [] && (AllowsNull(ms[0]) || AnyAllowsNull(ms[1..]))
  }

  // ---------------------------------------------------------------------------
  // fromValue
  // ---------------------------------------------------------------------------

  /**
   * A literal's runtime value. A float carries the text PHP gives it when it is
   * used as a string; LNull stands for every kind fromValue rejects.
   */
  datatype Value = LInt(i: int) | LBool(b: bool) | LDouble(text: string) | LString(s: string) | LNull

  /** Type::fromValue: int, bool, float and string map to their tags; anything else throws. */
  function FromValue(v: Value): (r: Result<Type>)
    ensures r.Err? <==> v.LNull?
    ensures v.LInt? ==> r == Ok(Long)
    ensures v.LBool? ==> r == Ok(Boolean)
    ensures v.LDouble? ==> r == Ok(Double)
    ensures v.LString? ==> r == Ok(String)
  {
    match v
    case LInt(_) => Ok(Long)
    case LBool(_) => Ok(Boolean)
    case LDouble(_) => Ok(Double)
    case LString(_) => Ok(String)
    case LNull => Err(UnknownValueType)
  }

  /** The string PHP makes of a value used as a name (`(string) $value`). */
  function ValueText(v: Value): string
  {
    match v
    case LInt(i) => IntToString(i)
    case LBool(b) => if b then "1" else ""
    case LDouble(text) => text
    case LString(s) => s
    case LNull => ""
  }
}
