/**
 * What the class-hierarchy index records: every declared name resolves to
 * itself; `I extends J`, `C implements I` and `C extends P` put the subtype in the
 * supertype's entry, one level deep; re-seeding a name drops what was linked
 * into it before; and every name inside an entry has an entry of its own.
 */
module TypeMatrixFacts {
  import opened Wrappers
  import opened PhpStrings
  import opened PhpArrays
  import opened Ir
  import opened TypeMatrix

  // ---------------------------------------------------------------------------
  // One step at a time
  // ---------------------------------------------------------------------------

  lemma SeedInterfaceHas(t: Tables, d: InterfaceDecl, ref: DeclRef)
    ensures forall k, n :: Has(SeedInterface(t, d, ref).index, k, n) <==>
      (k == Lower(d.name) && n == Lower(d.name)) ||
      (k != Lower(d.name) && Has(t.index, k, n)) ||
      (k in LowerAll(d.parents) && n == Lower(d.name))
  {
    LinkAllHas(Reset(t.index, Lower(d.name), ref), LowerAll(d.parents), Lower(d.name), ref);
  }

  lemma SeedClassHas(t: Tables, d: ClassDecl, ref: DeclRef)
    ensures forall k, n :: Has(SeedClass(t, d, ref).index, k, n) <==>
      (k == Lower(d.name) && n == Lower(d.name)) ||
      (k != Lower(d.name) && Has(t.index, k, n)) ||
      (k in Expand(d.implements, t.interfaceMap) && n == Lower(d.name))
  {
    LinkAllHas(Reset(t.index, Lower(d.name), ref), Expand(d.implements, t.interfaceMap), Lower(d.name), ref);
  }

  /** The last pass only adds: an edge (k, n) is new exactly when some queued class n has a parent whose class map holds k. */
  lemma {:induction false} ApplyExtendsHas(m: Index, cm: map<string, seq<string>>, pend: seq<Pending>, i: nat)
    requires i <= |pend|
    ensures forall k, n :: Has(ApplyExtends(m, cm, pend, i), k, n) <==>
      Has(m, k, n) ||
      exists q :: i <= q < |pend| && pend[q].parent in cm && k in cm[pend[q].parent] && n == pend[q].name
    decreases |pend| - i
  {
    if i < |pend| {
      var p := pend[i];
      var m' := if p.parent in cm then LinkAll(m, cm[p.parent], p.name, p.ref) else m;
      if p.parent in cm {
        LinkAllHas(m, cm[p.parent], p.name, p.ref);
      }
      ApplyExtendsHas(m', cm, pend, i + 1);
    }
  }

  // ---------------------------------------------------------------------------
  // Edges that survive the folds
  // ---------------------------------------------------------------------------

  /** An edge survives every interface whose name differs from its key. */
  lemma {:induction false} SeedInterfacesKeeps(t: Tables, ifaces: seq<InterfaceDecl>, i: nat, k: string, n: string)
    requires i <= |ifaces|
    requires Has(t.index, k, n)
    requires forall j :: i <= j < |ifaces| ==> Lower(ifaces[j].name) != k
    ensures Has(SeedInterfaces(t, ifaces, i).index, k, n)
    decreases |ifaces| - i
  {
    if i < |ifaces| {
      SeedInterfaceHas(t, ifaces[i], InterfaceRef(i));
      SeedInterfacesKeeps(SeedInterface(t, ifaces[i], InterfaceRef(i)), ifaces, i + 1, k, n);
    }
  }

  /** An edge survives every class whose name differs from its key. */
  lemma {:induction false} SeedClassesKeeps(t: Tables, classes: seq<ClassDecl>, i: nat, k: string, n: string)
    requires i <= |classes|
    requires Has(t.index, k, n)
    requires forall j :: i <= j < |classes| ==> Lower(classes[j].name) != k
    ensures Has(SeedClasses(t, classes, i).index, k, n)
    decreases |classes| - i
  {
    if i < |classes| {
      SeedClassHas(t, classes[i], ClassRef(i));
      SeedClassesKeeps(SeedClass(t, classes[i], ClassRef(i)), classes, i + 1, k, n);
    }
  }

  /** Self edges are never lost, and each interface seeded adds its own. */
  lemma {:induction false} SeedInterfacesSelf(t: Tables, ifaces: seq<InterfaceDecl>, i: nat)
    requires i <= |ifaces|
    ensures forall x :: Has(t.index, x, x) ==> Has(SeedInterfaces(t, ifaces, i).index, x, x)
    ensures forall j :: i <= j < |ifaces| ==> Has(SeedInterfaces(t, ifaces, i).index, Lower(ifaces[j].name), Lower(ifaces[j].name))
    decreases |ifaces| - i
  {
    if i < |ifaces| {
      SeedInterfaceHas(t, ifaces[i], InterfaceRef(i));
      SeedInterfacesSelf(SeedInterface(t, ifaces[i], InterfaceRef(i)), ifaces, i + 1);
    }
  }

  lemma {:induction false} SeedClassesSelf(t: Tables, classes: seq<ClassDecl>, i: nat)
    requires i <= |classes|
    ensures forall x :: Has(t.index, x, x) ==> Has(SeedClasses(t, classes, i).index, x, x)
    ensures forall j :: i <= j < |classes| ==> Has(SeedClasses(t, classes, i).index, Lower(classes[j].name), Lower(classes[j].name))
    decreases |classes| - i
  {
    if i < |classes| {
      SeedClassHas(t, classes[i], ClassRef(i));
      SeedClassesSelf(SeedClass(t, classes[i], ClassRef(i)), classes, i + 1);
    }
  }

  /** Every declared interface and class resolves to itself. */
  lemma SelfMember(ifaces: seq<InterfaceDecl>, classes: seq<ClassDecl>)
    ensures forall j :: 0 <= j < |ifaces| ==> Has(Resolves(ifaces, classes), Lower(ifaces[j].name), Lower(ifaces[j].name))
    ensures forall j :: 0 <= j < |classes| ==> Has(Resolves(ifaces, classes), Lower(classes[j].name), Lower(classes[j].name))
  {
    var t1 := SeedInterfaces(EmptyTables, ifaces, 0);
    var t2 := SeedClasses(t1, classes, 0);
    SeedInterfacesSelf(EmptyTables, ifaces, 0);
    SeedClassesSelf(t1, classes, 0);
    ApplyExtendsHas(t2.index, t2.classMap, t2.toProcess, 0);
  }

  // ---------------------------------------------------------------------------
  // Interface tables
  // ---------------------------------------------------------------------------

  /** Interfaces leave the class map and the queue alone. */
  lemma {:induction false} SeedInterfacesClassTables(t: Tables, ifaces: seq<InterfaceDecl>, i: nat)
    requires i <= |ifaces|
    ensures SeedInterfaces(t, ifaces, i).classMap == t.classMap
    ensures SeedInterfaces(t, ifaces, i).toProcess == t.toProcess
    decreases |ifaces| - i
  {
    if i < |ifaces| {
      SeedInterfacesClassTables(SeedInterface(t, ifaces[i], InterfaceRef(i)), ifaces, i + 1);
    }
  }

  lemma {:induction false} SeedClassesInterfaceMap(t: Tables, classes: seq<ClassDecl>, i: nat)
    requires i <= |classes|
    ensures SeedClasses(t, classes, i).interfaceMap == t.interfaceMap
    decreases |classes| - i
  {
    if i < |classes| {
      SeedClassesInterfaceMap(SeedClass(t, classes[i], ClassRef(i)), classes, i + 1);
    }
  }

  /** The direct parents recorded for an interface come from the last interface of that name. */
  lemma {:induction false} SeedInterfacesParents(t: Tables, ifaces: seq<InterfaceDecl>, i: nat, ii: nat)
    requires i <= ii < |ifaces|
    requires forall j :: ii < j < |ifaces| ==> Lower(ifaces[j].name) != Lower(ifaces[ii].name)
    ensures var im := SeedInterfaces(t, ifaces, i).interfaceMap;
      Lower(ifaces[ii].name) in im && im[Lower(ifaces[ii].name)] == LowerAll(ifaces[ii].parents)
    decreases |ifaces| - i
  {
    var t' := SeedInterface(t, ifaces[i], InterfaceRef(i));
    if i < ii {
      SeedInterfacesParents(t', ifaces, i + 1, ii);
    } else {
      SeedInterfacesMapKeeps(t', ifaces, i + 1, Lower(ifaces[ii].name));
    }
  }

  lemma {:induction false} SeedInterfacesMapKeeps(t: Tables, ifaces: seq<InterfaceDecl>, i: nat, x: string)
    requires i <= |ifaces|
    requires x in t.interfaceMap
    requires forall j :: i <= j < |ifaces| ==> Lower(ifaces[j].name) != x
    ensures x in SeedInterfaces(t, ifaces, i).interfaceMap
    ensures SeedInterfaces(t, ifaces, i).interfaceMap[x] == t.interfaceMap[x]
    decreases |ifaces| - i
  {
    if i < |ifaces| {
      SeedInterfacesMapKeeps(SeedInterface(t, ifaces[i], InterfaceRef(i)), ifaces, i + 1, x);
    }
  }

  /** Expand lists each implemented interface and, when it was declared, the interfaces it extends. */
  lemma {:induction false} ExpandHas(impls: seq<string>, ip: map<string, seq<string>>, j: nat)
    requires j < |impls|
    ensures Lower(impls[j]) in Expand(impls, ip)
    ensures Lower(impls[j]) in ip ==> forall s :: s in ip[Lower(impls[j])] ==> s in Expand(impls, ip)
  {
    if j > 0 {
      ExpandHas(impls[1..], ip, j - 1);
      assert impls[1..][j - 1] == impls[j];
    }
  }

  // ---------------------------------------------------------------------------
  // The edge rules
  // ---------------------------------------------------------------------------

  /** The class seeded at position c is linked under every name of Expand(implements). */
  lemma {:induction false} SeedClassesLinks(t: Tables, classes: seq<ClassDecl>, i: nat, c: nat, k: string)
    requires i <= c < |classes|
    requires k in Expand(classes[c].implements, t.interfaceMap)
    requires forall j :: c < j < |classes| ==> Lower(classes[j].name) != k
    ensures Has(SeedClasses(t, classes, i).index, k, Lower(classes[c].name))
    decreases |classes| - i
  {
    var t' := SeedClass(t, classes[i], ClassRef(i));
    SeedClassHas(t, classes[i], ClassRef(i));
    if i < c {
      SeedClassesLinks(t', classes, i + 1, c, k);
    } else {
      SeedClassesKeeps(t', classes, i + 1, k, Lower(classes[c].name));
    }
  }

  /**
   * `C implements I` puts C in I's entry, unless a later class carries I's name and
   * re-seeds that entry.
   */
  lemma ImplementsEdge(ifaces: seq<InterfaceDecl>, classes: seq<ClassDecl>, c: nat, j: nat)
    requires c < |classes| && j < |classes[c].implements|
    requires forall k :: c < k < |classes| ==> Lower(classes[k].name) != Lower(classes[c].implements[j])
    ensures Has(Resolves(ifaces, classes), Lower(classes[c].implements[j]), Lower(classes[c].name))
  {
    var t1 := SeedInterfaces(EmptyTables, ifaces, 0);
    var t2 := SeedClasses(t1, classes, 0);
    ExpandHas(classes[c].implements, t1.interfaceMap, j);
    SeedClassesInterfaceMap(t1, classes, 0);
    SeedClassesLinks(t1, classes, 0, c, Lower(classes[c].implements[j]));
    ApplyExtendsHas(t2.index, t2.classMap, t2.toProcess, 0);
  }

  /**
   * `C implements I` and `I extends J` put C in J's entry too, when I is declared
   * (the last interface of its name is the one consulted) and no later class is named J.
   */
  lemma InheritedInterfaceEdge(ifaces: seq<InterfaceDecl>, classes: seq<ClassDecl>, c: nat, j: nat, ii: nat, p: nat)
    requires c < |classes| && j < |classes[c].implements|
    requires ii < |ifaces| && Lower(ifaces[ii].name) == Lower(classes[c].implements[j])
    requires forall k :: ii < k < |ifaces| ==> Lower(ifaces[k].name) != Lower(ifaces[ii].name)
    requires p < |ifaces[ii].parents|
    requires forall k :: c < k < |classes| ==> Lower(classes[k].name) != Lower(ifaces[ii].parents[p])
    ensures Has(Resolves(ifaces, classes), Lower(ifaces[ii].parents[p]), Lower(classes[c].name))
  {
    var t1 := SeedInterfaces(EmptyTables, ifaces, 0);
    var t2 := SeedClasses(t1, classes, 0);
    SeedInterfacesParents(EmptyTables, ifaces, 0, ii);
    ExpandHas(classes[c].implements, t1.interfaceMap, j);
    assert LowerAll(ifaces[ii].parents)[p] == Lower(ifaces[ii].parents[p]);
    SeedClassesLinks(t1, classes, 0, c, Lower(ifaces[ii].parents[p]));
    ApplyExtendsHas(t2.index, t2.classMap, t2.toProcess, 0);
  }

  /** The interface seeded at position ii is linked under each name it extends. */
  lemma {:induction false} SeedInterfacesLinks(t: Tables, ifaces: seq<InterfaceDecl>, i: nat, ii: nat, p: nat)
    requires i <= ii < |ifaces| && p < |ifaces[ii].parents|
    requires forall k :: ii < k < |ifaces| ==> Lower(ifaces[k].name) != Lower(ifaces[ii].parents[p])
    ensures Has(SeedInterfaces(t, ifaces, i).index, Lower(ifaces[ii].parents[p]), Lower(ifaces[ii].name))
    decreases |ifaces| - i
  {
    var t' := SeedInterface(t, ifaces[i], InterfaceRef(i));
    SeedInterfaceHas(t, ifaces[i], InterfaceRef(i));
    if i < ii {
      SeedInterfacesLinks(t', ifaces, i + 1, ii, p);
    } else {
      assert LowerAll(ifaces[ii].parents)[p] == Lower(ifaces[ii].parents[p]);
      SeedInterfacesKeeps(t', ifaces, i + 1, Lower(ifaces[ii].parents[p]), Lower(ifaces[ii].name));
    }
  }

  /**
   * `I extends J` puts I in J's entry, unless J is seeded afterwards: by a later
   * interface or by any class of that name.
   */
  lemma InterfaceParentEdge(ifaces: seq<InterfaceDecl>, classes: seq<ClassDecl>, ii: nat, p: nat)
    requires ii < |ifaces| && p < |ifaces[ii].parents|
    requires forall k :: ii < k < |ifaces| ==> Lower(ifaces[k].name) != Lower(ifaces[ii].parents[p])
    requires forall k :: 0 <= k < |classes| ==> Lower(classes[k].name) != Lower(ifaces[ii].parents[p])
    ensures Has(Resolves(ifaces, classes), Lower(ifaces[ii].parents[p]), Lower(ifaces[ii].name))
  {
    var t1 := SeedInterfaces(EmptyTables, ifaces, 0);
    var t2 := SeedClasses(t1, classes, 0);
    SeedInterfacesLinks(EmptyTables, ifaces, 0, ii, p);
    SeedClassesKeeps(t1, classes, 0, Lower(ifaces[ii].parents[p]), Lower(ifaces[ii].name));
    ApplyExtendsHas(t2.index, t2.classMap, t2.toProcess, 0);
  }

  // ---------------------------------------------------------------------------
  // Class maps and the queue of parents
  // ---------------------------------------------------------------------------

  /** Each class map starts with its own name. */
  ghost predicate HeadsOwnName(cm: map<string, seq<string>>)
  {
    forall x :: x in cm ==> |cm[x]| > 0 && cm[x][0] == x
  }

  lemma {:induction false} SeedClassesClassMap(t: Tables, classes: seq<ClassDecl>, i: nat)
    requires i <= |classes|
    requires HeadsOwnName(t.classMap)
    ensures HeadsOwnName(SeedClasses(t, classes, i).classMap)
    ensures t.classMap.Keys <= SeedClasses(t, classes, i).classMap.Keys
    ensures forall j :: i <= j < |classes| ==> Lower(classes[j].name) in SeedClasses(t, classes, i).classMap
    decreases |classes| - i
  {
    if i < |classes| {
      var name := Lower(classes[i].name);
      var t' := SeedClass(t, classes[i], ClassRef(i));
      assert t'.classMap == t.classMap[name := [name] + Expand(classes[i].implements, t.interfaceMap)];
      assert HeadsOwnName(t'.classMap);
      SeedClassesClassMap(t', classes, i + 1);
    }
  }

  /** Every class with a parent is queued, and nothing queued earlier is dropped. */
  lemma {:induction false} SeedClassesQueue(t: Tables, classes: seq<ClassDecl>, i: nat)
    requires i <= |classes|
    ensures forall p :: p in t.toProcess ==> p in SeedClasses(t, classes, i).toProcess
    ensures forall c :: i <= c < |classes| && classes[c].parent.Some? ==>
      Pending(Lower(classes[c].name), Lower(classes[c].parent.value), ClassRef(c)) in SeedClasses(t, classes, i).toProcess
    decreases |classes| - i
  {
    if i < |classes| {
      SeedClassesQueue(SeedClass(t, classes[i], ClassRef(i)), classes, i + 1);
    }
  }

  /**
   * `C extends P` puts C in P's entry whenever some class is named P: the parent's
   * class map starts with P itself.
   */
  lemma ParentEdge(ifaces: seq<InterfaceDecl>, classes: seq<ClassDecl>, c: nat, q: nat)
    requires c < |classes| && classes[c].parent.Some?
    requires q < |classes| && Lower(classes[q].name) == Lower(classes[c].parent.value)
    ensures Has(Resolves(ifaces, classes), Lower(classes[c].parent.value), Lower(classes[c].name))
  {
    var t1 := SeedInterfaces(EmptyTables, ifaces, 0);
    var t2 := SeedClasses(t1, classes, 0);
    var parent := Lower(classes[c].parent.value);
    var pend := Pending(Lower(classes[c].name), parent, ClassRef(c));
    SeedInterfacesClassTables(EmptyTables, ifaces, 0);
    SeedClassesClassMap(t1, classes, 0);
    SeedClassesQueue(t1, classes, 0);
    var pos :| 0 <= pos < |t2.toProcess| && t2.toProcess[pos] == pend;
    assert parent in t2.classMap[parent];
    ApplyExtendsHas(t2.index, t2.classMap, t2.toProcess, 0);
  }

  // ---------------------------------------------------------------------------
  // Names inside entries have entries
  // ---------------------------------------------------------------------------

  /** Every name recorded inside an entry is itself a key of the index. */
  ghost predicate Closed(m: Index)
  {
    forall k, n :: Has(m, k, n) ==> n in m
  }

  lemma {:induction false} SeedInterfacesClosed(t: Tables, ifaces: seq<InterfaceDecl>, i: nat)
    requires i <= |ifaces|
    requires Closed(t.index)
    ensures Closed(SeedInterfaces(t, ifaces, i).index)
    decreases |ifaces| - i
  {
    if i < |ifaces| {
      SeedInterfaceHas(t, ifaces[i], InterfaceRef(i));
      LinkAllKeys(Reset(t.index, Lower(ifaces[i].name), InterfaceRef(i)), LowerAll(ifaces[i].parents), Lower(ifaces[i].name), InterfaceRef(i));
      SeedInterfacesClosed(SeedInterface(t, ifaces[i], InterfaceRef(i)), ifaces, i + 1);
    }
  }

  /** Seeding classes keeps the index closed, and every queued name has an entry. */
  lemma {:induction false} SeedClassesClosed(t: Tables, classes: seq<ClassDecl>, i: nat)
    requires i <= |classes|
    requires Closed(t.index)
    requires forall p :: p in t.toProcess ==> p.name in t.index
    ensures Closed(SeedClasses(t, classes, i).index)
    ensures forall p :: p in SeedClasses(t, classes, i).toProcess ==> p.name in SeedClasses(t, classes, i).index
    decreases |classes| - i
  {
    if i < |classes| {
      SeedClassHas(t, classes[i], ClassRef(i));
      LinkAllKeys(Reset(t.index, Lower(classes[i].name), ClassRef(i)), Expand(classes[i].implements, t.interfaceMap), Lower(classes[i].name), ClassRef(i));
      SeedClassesClosed(SeedClass(t, classes[i], ClassRef(i)), classes, i + 1);
    }
  }

  lemma {:induction false} ApplyExtendsClosed(m: Index, cm: map<string, seq<string>>, pend: seq<Pending>, i: nat)
    requires i <= |pend|
    requires Closed(m)
    requires forall q :: i <= q < |pend| ==> pend[q].name in m
    ensures Closed(ApplyExtends(m, cm, pend, i))
    decreases |pend| - i
  {
    if i < |pend| {
      var p := pend[i];
      if p.parent in cm {
        LinkAllHas(m, cm[p.parent], p.name, p.ref);
        LinkAllKeys(m, cm[p.parent], p.name, p.ref);
      }
      var m' := if p.parent in cm then LinkAll(m, cm[p.parent], p.name, p.ref) else m;
      ApplyExtendsClosed(m', cm, pend, i + 1);
    }
  }

  lemma ResolvesClosed(ifaces: seq<InterfaceDecl>, classes: seq<ClassDecl>)
    ensures Closed(Resolves(ifaces, classes))
  {
    var t1 := SeedInterfaces(EmptyTables, ifaces, 0);
    var t2 := SeedClasses(t1, classes, 0);
    SeedInterfacesClosed(EmptyTables, ifaces, 0);
    SeedInterfacesClassTables(EmptyTables, ifaces, 0);
    SeedClassesClosed(t1, classes, 0);
    ApplyExtendsClosed(t2.index, t2.classMap, t2.toProcess, 0);
  }

  /** Every key of classResolvedBy is a key of classResolves. */
  lemma ResolvedByKeysResolve(ifaces: seq<InterfaceDecl>, classes: seq<ClassDecl>, rb: map<string, set<string>>)
    requires IsInverse(rb, Resolves(ifaces, classes))
    ensures rb.Keys <= Resolves(ifaces, classes).Keys
  {
    ResolvesClosed(ifaces, classes);
    forall d | d in rb ensures d in Resolves(ifaces, classes) {
      var a :| a in rb[d];
    }
  }

  // ---------------------------------------------------------------------------
  // Two consequences of the code as written
  // ---------------------------------------------------------------------------

  /**
   * `interface I extends J` declared before `interface J`: seeding J afterwards
   * replaces J's entry, so I is not recorded as resolving to J.
   */
  lemma SeedingDropsEarlierEdge()
    ensures var ifaces := [InterfaceDecl("I", ["J"], []), InterfaceDecl("J", [], [])];
      !Has(Resolves(ifaces, []), "j", "i") && Has(Resolves(ifaces, []), "j", "j")
  {
    var ifaces := [InterfaceDecl("I", ["J"], []), InterfaceDecl("J", [], [])];
    assert Lower("J") == "j" && Lower("I") == "i";
    var t0 := SeedInterface(EmptyTables, ifaces[0], InterfaceRef(0));
    var t1 := SeedInterface(t0, ifaces[1], InterfaceRef(1));
    assert SeedInterfaces(EmptyTables, ifaces, 0) == t1;
    SeedInterfaceHas(t0, ifaces[1], InterfaceRef(1));
    assert LowerAll(ifaces[1].parents) == [];
    assert Resolves(ifaces, []) == t1.index;
  }

  /**
   * `A extends B` and `B extends C`: the parent link is one level deep, so A is in
   * B's entry and B in C's, but A is not in C's.
   */
  lemma ExtendsIsOneLevel(a: ClassDecl, b: ClassDecl, c: ClassDecl)
    requires Lower(a.name) != Lower(b.name) && Lower(b.name) != Lower(c.name) && Lower(a.name) != Lower(c.name)
    requires a.parent == Some(b.name) && b.parent == Some(c.name) && c.parent == None
    requires a.implements == [] && b.implements == [] && c.implements == []
    ensures Has(Resolves([], [a, b, c]), Lower(b.name), Lower(a.name))
    ensures Has(Resolves([], [a, b, c]), Lower(c.name), Lower(b.name))
    ensures !Has(Resolves([], [a, b, c]), Lower(c.name), Lower(a.name))
  {
    var classes := [a, b, c];
    ParentEdge([], classes, 0, 1);
    ParentEdge([], classes, 1, 2);
    var t0 := SeedClass(EmptyTables, a, ClassRef(0));
    var t1 := SeedClass(t0, b, ClassRef(1));
    var t2 := SeedClass(t1, c, ClassRef(2));
    assert Seeded([], classes) == t2 by {
      assert SeedInterfaces(EmptyTables, [], 0) == EmptyTables;
      assert classes[0] == a && classes[1] == b && classes[2] == c;
      assert SeedClasses(t2, classes, 3) == t2;
      assert SeedClasses(t1, classes, 2) == t2;
      assert SeedClasses(t0, classes, 1) == t2;
    }
    assert !Has(t2.index, Lower(c.name), Lower(a.name)) by {
      SeedClassHas(t1, c, ClassRef(2));
    }
    assert Lower(b.name) in t2.classMap && t2.classMap[Lower(b.name)] == [Lower(b.name)];
    assert t2.toProcess == [Pending(Lower(a.name), Lower(b.name), ClassRef(0)), Pending(Lower(b.name), Lower(c.name), ClassRef(1))];
    ApplyExtendsHas(t2.index, t2.classMap, t2.toProcess, 0);
  }
}
