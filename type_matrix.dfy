/**
 * The class-hierarchy index of State::computeTypeMatrix, as folds over the
 * interface and class declarations. `Resolves(ifaces, classes)` is the value the
 * method leaves in classResolves: for each lower-cased name X, an ordered array
 * from the names that resolve to X (X itself, and what extends or implements it)
 * to their declarations.
 */
module TypeMatrix {
  import opened Wrappers
  import opened PhpStrings
  import opened PhpArrays
  import opened Ir

  type Index = map<string, PhpArray<DeclRef>>

  /** `name` is a key of the inner array stored under `key`. */
  predicate Has(m: Index, key: string, name: string)
  {
    key in m && HasKey(m[key], name)
  }

  function Entry(m: Index, key: string): PhpArray<DeclRef>
  {
    if key in m then m[key] else []
  }

  /** `$map[$key][$name] = $ref`, creating the inner array when it is missing. */
  function Link(m: Index, key: string, name: string, ref: DeclRef): Index
  {
    m[key := Put(Entry(m, key), name, ref)]
  }

  lemma LinkHas(m: Index, key: string, name: string, ref: DeclRef)
    ensures forall k, n :: Has(Link(m, key, name, ref), k, n) <==> Has(m, k, n) || (k == key && n == name)
  {
    PutKeys(Entry(m, key), name, ref);
  }

  /** Link `name` under every key of `keys`, in order. */
  function LinkAll(m: Index, keys: seq<string>, name: string, ref: DeclRef): Index
    decreases |keys|
  {
    if keys == [] then m
    else
      LinkAll(Link(m, keys[0], name, ref), keys[1..], name, ref)
  }

  lemma {:induction false} LinkAllKeys(m: Index, keys: seq<string>, name: string, ref: DeclRef)
    ensures forall k :: k in LinkAll(m, keys, name, ref) <==> k in m || k in keys
    decreases |keys|
  {
    if keys != [] {
      LinkAllKeys(Link(m, keys[0], name, ref), keys[1..], name, ref);
      assert forall k :: k in keys <==> k == keys[0] || k in keys[1..];
    }
  }

  lemma {:induction false} LinkAllHas(m: Index, keys: seq<string>, name: string, ref: DeclRef)
    ensures forall k, n :: Has(LinkAll(m, keys, name, ref), k, n) <==> Has(m, k, n) || (k in keys && n == name)
    decreases |keys|
  {
    if keys != [] {
      LinkHas(m, keys[0], name, ref);
      LinkAllHas(Link(m, keys[0], name, ref), keys[1..], name, ref);
      assert forall k :: k in keys <==> k == keys[0] || k in keys[1..];
    }
  }

  lemma {:induction false} LinkAllConcat(m: Index, a: seq<string>, b: seq<string>, name: string, ref: DeclRef)
    ensures LinkAll(m, a + b, name, ref) == LinkAll(LinkAll(m, a, name, ref), b, name, ref)
    decreases |a|
  {
    if a != [] {
      assert (a + b)[0] == a[0] && (a + b)[1..] == a[1..] + b;
      LinkAllConcat(Link(m, a[0], name, ref), a[1..], b, name, ref);
    } else {
      assert a + b == b;
    }
  }

  /** Linking a prefix one key longer is one more Link. */
  lemma LinkAllSnoc(m: Index, keys: seq<string>, j: nat, name: string, ref: DeclRef)
    requires j < |keys|
    ensures LinkAll(m, keys[..j + 1], name, ref) == Link(LinkAll(m, keys[..j], name, ref), keys[j], name, ref)
  {
    assert keys[..j + 1] == keys[..j] + [keys[j]];
    LinkAllConcat(m, keys[..j], [keys[j]], name, ref);
  }

  /** `$map[$name] = [$name => $ref]`: the entry of a declared name is replaced outright. */
  function Reset(m: Index, name: string, ref: DeclRef): (r: Index)
    ensures forall k, n :: Has(r, k, n) <==> (k == name && n == name) || (k != name && Has(m, k, n))
  {
    var r := m[name := [(name, ref)]];
    assert forall n :: HasKey(r[name], n) <==> n == name by {
      assert r[name][0].0 == name;
    }
    r
  }

  function LowerAll(names: seq<string>): (r: seq<string>)
    ensures |r| == |names| && forall i :: 0 <= i < |names| ==> r[i] == Lower(names[i])
  {
    if names == [] then [] else [Lower(names[0])] + LowerAll(names[1..])
  }

  // ---------------------------------------------------------------------------
  // The three passes
  // ---------------------------------------------------------------------------

  /** A class whose parent is linked in the last pass: `[$name, $parent, $class]`. */
  datatype Pending = Pending(name: string, parent: string, ref: DeclRef)

  /** The local arrays of computeTypeMatrix: $map, $interfaceMap, $classMap and $toProcess. */
  datatype Tables = Tables(
    index: Index,
    interfaceMap: map<string, seq<string>>,
    classMap: map<string, seq<string>>,
    toProcess: seq<Pending>)

  const EmptyTables: Tables := Tables(map[], map[], map[], [])

  /** One interface: its entry is reset to itself, and it is linked under each interface it extends. */
  function SeedInterface(t: Tables, d: InterfaceDecl, ref: DeclRef): Tables
  {
    var name := Lower(d.name);
    var subs := LowerAll(d.parents);
    t.(index := LinkAll(Reset(t.index, name, ref), subs, name, ref),
       interfaceMap := t.interfaceMap[name := subs])
  }

  function SeedInterfaces(t: Tables, ifaces: seq<InterfaceDecl>, i: nat): Tables
    requires i <= |ifaces|
    decreases |ifaces| - i
  {
    if i == |ifaces| then t else SeedInterfaces(SeedInterface(t, ifaces[i], InterfaceRef(i)), ifaces, i + 1)
  }

  /** The names one implemented interface links a class under: itself, then the interfaces it was declared to extend. */
  function Implemented(iname: string, ifaceParents: map<string, seq<string>>): seq<string>
  {
    [iname] + (if iname in ifaceParents then ifaceParents[iname] else [])
  }

  /** The names a class is linked under for its whole implements list. */
  function Expand(impls: seq<string>, ifaceParents: map<string, seq<string>>): seq<string>
  {
    if impls == [] then []
    else Implemented(Lower(impls[0]), ifaceParents) + Expand(impls[1..], ifaceParents)
  }

  /** One class: its entry is reset, it is linked under Expand(implements), and its parent is queued. */
  function SeedClass(t: Tables, d: ClassDecl, ref: DeclRef): Tables
  {
    var name := Lower(d.name);
    var linked := Expand(d.implements, t.interfaceMap);
    Tables(LinkAll(Reset(t.index, name, ref), linked, name, ref),
           t.interfaceMap,
           t.classMap[name := [name] + linked],
           if d.parent.Some? then t.toProcess + [Pending(name, Lower(d.parent.value), ref)] else t.toProcess)
  }

  function SeedClasses(t: Tables, classes: seq<ClassDecl>, i: nat): Tables
    requires i <= |classes|
    decreases |classes| - i
  {
    if i == |classes| then t else SeedClasses(SeedClass(t, classes[i], ClassRef(i)), classes, i + 1)
  }

  /** The last pass: a class with a declared parent is linked under every name in the parent's class map. */
  function ApplyExtends(m: Index, classMap: map<string, seq<string>>, pending: seq<Pending>, i: nat): Index
    requires i <= |pending|
    decreases |pending| - i
  {
    if i == |pending| then m
    else
      var p := pending[i];
      var m' := if p.parent in classMap then LinkAll(m, classMap[p.parent], p.name, p.ref) else m;
      ApplyExtends(m', classMap, pending, i + 1)
  }

  /** Expand distributes over concatenation of implements lists. */
  lemma {:induction false} ExpandAppend(a: seq<string>, b: seq<string>, ifaceParents: map<string, seq<string>>)
    ensures Expand(a + b, ifaceParents) == Expand(a, ifaceParents) + Expand(b, ifaceParents)
    decreases |a|
  {
    if a == [] {
      assert a + b == b;
    } else {
      assert (a + b)[0] == a[0] && (a + b)[1..] == a[1..] + b;
      ExpandAppend(a[1..], b, ifaceParents);
    }
  }

  /** Expand grows by one interface at a time along the implements list. */
  lemma ExpandSnoc(impls: seq<string>, j: nat, ifaceParents: map<string, seq<string>>)
    requires j < |impls|
    ensures Expand(impls[..j + 1], ifaceParents) == Expand(impls[..j], ifaceParents) + Implemented(Lower(impls[j]), ifaceParents)
  {
    assert impls[..j + 1] == impls[..j] + [impls[j]];
    ExpandAppend(impls[..j], [impls[j]], ifaceParents);
    assert Expand([impls[j]], ifaceParents) == Implemented(Lower(impls[j]), ifaceParents) + Expand([], ifaceParents);
  }

  function Seeded(ifaces: seq<InterfaceDecl>, classes: seq<ClassDecl>): Tables
  {
    SeedClasses(SeedInterfaces(EmptyTables, ifaces, 0), classes, 0)
  }

  /** classResolves after computeTypeMatrix. */
  function Resolves(ifaces: seq<InterfaceDecl>, classes: seq<ClassDecl>): Index
  {
    var t := Seeded(ifaces, classes);
    ApplyExtends(t.index, t.classMap, t.toProcess, 0)
  }

  /** classResolvedBy is the inverse of classResolves: d maps to the names a whose entry holds d. */
  ghost predicate IsInverse(rb: map<string, set<string>>, m: Index)
  {
    (forall d, a :: d in rb && a in rb[d] ==> Has(m, a, d)) &&
    (forall a, d :: Has(m, a, d) ==> d in rb && a in rb[d]) &&
    (forall d :: d in rb ==> rb[d] != {})
  }
}
