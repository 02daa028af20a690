/**
 * State: the declarations found in a script and the lookup tables built from
 * them (functionLookup, classResolves, classResolvedBy, methodCalls, newCalls).
 */
module StateModel {
  import opened Wrappers
  import opened PhpStrings
  import opened PhpArrays
  import opened Types
  import opened Ir
  import opened Cfg
  import opened TypeMatrix

  /** The functions whose lower-cased name is n, in declaration order. */
  function Named(functions: seq<FunctionDecl>, n: string): (r: seq<FunctionDecl>)
    ensures forall k :: 0 <= k < |r| ==> Lower(r[k].name) == n && r[k] in functions
  {
    if functions == [] then []
    else
      var init := functions[..|functions| - 1];
      var last := functions[|functions| - 1];
      Named(init, n) + (if Lower(last.name) == n then [last] else [])
  }

  /** Grouping two runs of declarations is grouping each, in declaration order. */
  lemma {:induction false} NamedAppend(a: seq<FunctionDecl>, b: seq<FunctionDecl>, n: string)
    ensures Named(a + b, n) == Named(a, n) + Named(b, n)
    decreases |b|
  {
    if b == [] {
      assert a + b == a;
    } else {
      var init := b[..|b| - 1];
      assert (a + b)[..|a + b| - 1] == a + init;
      assert (a + b)[|a + b| - 1] == b[|b| - 1];
      NamedAppend(a, init, n);
    }
  }

  /** A single declaration is in the group of its own lower-cased name and no other. */
  lemma NamedSingle(f: FunctionDecl, n: string)
    ensures Named([f], n) == if Lower(f.name) == n then [f] else []
  {
    assert [f][..0] == [];
  }

  /** The lookup holds, under each lower-cased name that some function has, exactly the functions of that name, in declaration order. */
  ghost predicate GroupsByName(lookup: map<string, seq<FunctionDecl>>, functions: seq<FunctionDecl>)
  {
    (forall n :: n in lookup <==> Named(functions, n) != []) &&
    (forall n :: n in lookup ==> lookup[n] == Named(functions, n))
  }

  /** A name has functions exactly when some function is declared under it, in any case. */
  lemma {:induction false} NamedNonEmpty(functions: seq<FunctionDecl>, n: string)
    ensures Named(functions, n) != [] <==> exists k :: 0 <= k < |functions| && Lower(functions[k].name) == n
  {
    if exists k :: 0 <= k < |functions| && Lower(functions[k].name) == n {
      var k :| 0 <= k < |functions| && Lower(functions[k].name) == n;
      NamedHas(functions, n, k);
    }
    if Named(functions, n) != [] {
      var f := Named(functions, n)[0];
      assert Lower(f.name) == n && f in functions;
      var k :| 0 <= k < |functions| && functions[k] == f;
    }
  }

  /** A function named n in any case is in the group of n. */
  lemma {:induction false} NamedHas(functions: seq<FunctionDecl>, n: string, k: nat)
    requires k < |functions| && Lower(functions[k].name) == n
    ensures functions[k] in Named(functions, n)
  {
    var init := functions[..|functions| - 1];
    if k < |init| {
      assert init[k] == functions[k];
      NamedHas(init, n, k);
    }
  }


  /** The ops of kind `kind` reached from each root, root after root. */
  function Collected(g: seq<Block>, orders: seq<seq<BlockId>>, kind: string): seq<CfgOp>
    requires forall r, k :: 0 <= r < |orders| && 0 <= k < |orders[r]| ==> orders[r][k] < |g|
  {
    if orders == [] then []
    else Collected(g, orders[..|orders| - 1], kind) + Matching(g, orders[|orders| - 1], kind)
  }

  /** Each root's block order lists, once each, exactly the blocks reachable from that root. */
  ghost predicate WalkOrders(g: seq<Block>, roots: seq<BlockId>, orders: seq<seq<BlockId>>)
  {
    |orders| == |roots| &&
    (forall r, k :: 0 <= r < |orders| && 0 <= k < |orders[r]| ==> orders[r][k] < |g|) &&
    forall r :: 0 <= r < |roots| ==> NoDuplicates(orders[r]) && forall b :: b in orders[r] <==> Reachable(g, roots[r], b)
  }

  /** `found` lists the ops of kind `kind` reached from each root, root after root, in some walk order. */
  ghost predicate FoundFromRoots(g: seq<Block>, roots: seq<BlockId>, kind: string, found: seq<CfgOp>)
  {
    exists orders :: WalkOrders(g, roots, orders) && found == Collected(g, orders, kind)
  }

  class State {
    /** The blocks of the script, and the roots: each function's body, then the main body. */
    const cfg: seq<Block>
    const blocks: seq<BlockId>

    /** The operands the variable finder collected, in its order, and what each one is. */
    const operands: map<VarId, OperandInfo>
    const variables: seq<VarId>

    /** The `type` field of each operand, which the reconstructor fills in. */
    var operandTypes: map<VarId, Option<Type>>

    const interfaces: seq<InterfaceDecl>
    /** Classes are mutable: the reconstructor types their properties in place. */
    var classes: seq<ClassDecl>
    const functions: seq<FunctionDecl>
    /** Constant declarations by name, each naming the operand of its value. */
    const constants: map<string, seq<VarId>>

    /** The internal function and method tables, and TypeResolver::resolves. */
    const internal: InternalInfo
    const resolver: (Type, Type) -> bool

    var functionLookup: map<string, seq<FunctionDecl>>
    var classResolves: Index
    var classResolvedBy: map<string, set<string>>
    var methodCalls: seq<CfgOp>
    var newCalls: seq<CfgOp>

    /** Takes the declaration finders' results as given, then builds the tables as load() does. */
    constructor (cfg: seq<Block>, blocks: seq<BlockId>, operands: map<VarId, OperandInfo>, variables: seq<VarId>,
                 operandTypes: map<VarId, Option<Type>>, interfaces: seq<InterfaceDecl>, classes: seq<ClassDecl>,
                 functions: seq<FunctionDecl>, constants: map<string, seq<VarId>>, internal: InternalInfo,
                 resolver: (Type, Type) -> bool)
      requires ValidGraph(cfg) && forall k :: 0 <= k < |blocks| ==> blocks[k] < |cfg|
      ensures this.cfg == cfg && this.blocks == blocks && this.operands == operands && this.variables == variables
      ensures this.operandTypes == operandTypes && this.interfaces == interfaces && this.classes == classes
      ensures this.functions == functions && this.constants == constants && this.internal == internal
      ensures this.resolver == resolver
      ensures GroupsByName(functionLookup, functions)
      ensures FoundFromRoots(cfg, blocks, "Expr_MethodCall", methodCalls)
      ensures FoundFromRoots(cfg, blocks, "Expr_New", newCalls)
      ensures classResolves == Resolves(interfaces, classes)
      ensures IsInverse(classResolvedBy, classResolves)
    {
      this.cfg := cfg;
      this.blocks := blocks;
      this.operands := operands;
      this.variables := variables;
      this.operandTypes := operandTypes;
      this.interfaces := interfaces;
      this.classes := classes;
      this.functions := functions;
      this.constants := constants;
      this.internal := internal;
      this.resolver := resolver;
      new;
      Load();
    }

    /** State::load after the declaration finders: the function lookup, the call lists and the type matrix. */
    method Load()
      requires ValidGraph(cfg) && forall k :: 0 <= k < |blocks| ==> blocks[k] < |cfg|
      modifies this`functionLookup, this`methodCalls, this`newCalls, this`classResolves, this`classResolvedBy
      ensures GroupsByName(functionLookup, functions)
      ensures FoundFromRoots(cfg, blocks, "Expr_MethodCall", methodCalls)
      ensures FoundFromRoots(cfg, blocks, "Expr_New", newCalls)
      ensures classResolves == Resolves(interfaces, classes)
      ensures IsInverse(classResolvedBy, classResolves)
    {
      functionLookup := BuildFunctionLookup(functions);
      var found, orders := FindMethodCalls();
      methodCalls := found;
      assert WalkOrders(cfg, blocks, orders);
      found, orders := FindNewCalls();
      newCalls := found;
      assert WalkOrders(cfg, blocks, orders);
      classResolves, classResolvedBy := ComputeTypeMatrix();
    }

    /** State::buildFunctionLookup: functions grouped under their lower-cased name, in declaration order. */
    method BuildFunctionLookup(functions: seq<FunctionDecl>) returns (lookup: map<string, seq<FunctionDecl>>)
      ensures GroupsByName(lookup, functions)
    {
      lookup := map[];
      var i := 0;
      while i < |functions|
        invariant 0 <= i <= |functions|
        invariant forall n :: n in lookup <==> Named(functions[..i], n) != []
        invariant forall n :: n in lookup ==> lookup[n] == Named(functions[..i], n)
      {
        var name := Lower(functions[i].name);
        if name !in lookup {
          lookup := lookup[name := []];
        }
        lookup := lookup[name := lookup[name] + [functions[i]]];
        assert functions[..i + 1][..i] == functions[..i];
        i := i + 1;
      }
      assert functions[..|functions|] == functions;
    }

    /**
     * The worklist of findTypedBlock is sound: its blocks are blocks of the arena,
     * listed once, not yet processed, and, like every processed block, reachable from the root.
     */
    ghost predicate QueueOk(root: BlockId, queue: seq<BlockId>, processed: set<BlockId>)
    {
      (forall k :: 0 <= k < |queue| ==> queue[k] < |cfg|) &&
      NoDuplicates(queue) &&
      (forall b :: b in queue ==> b !in processed) &&
      (forall b :: b in processed || b in queue ==> Reachable(cfg, root, b))
    }

    /**
     * Scanning the first i ops of `block`: the queue has only grown, every sub-block
     * of those ops is processed or queued, and `found` holds those ops of kind `kind`.
     */
    ghost predicate Scanned(kind: string, root: BlockId, block: BlockId, toProcess: seq<BlockId>, processed: set<BlockId>,
                            i: nat, queue: seq<BlockId>, found: seq<CfgOp>)
      requires block < |cfg| && i <= |cfg[block]|
    {
      QueueOk(root, queue, processed) &&
      (forall b :: b in toProcess ==> b in queue) &&
      (forall i', j :: 0 <= i' < i && 0 <= j < |cfg[block][i'].subBlocks| ==>
         cfg[block][i'].subBlocks[j] in processed || cfg[block][i'].subBlocks[j] in queue) &&
      found == OpsOfKind(cfg[block][..i], kind)
    }

    /** One op of the block: collected if its kind matches, and its sub-blocks queued. */
    method ScanOp(kind: string, ghost root: BlockId, block: BlockId, ghost toProcess: seq<BlockId>, processed: set<BlockId>,
                  i: nat, queue: seq<BlockId>, found: seq<CfgOp>)
      returns (queue': seq<BlockId>, found': seq<CfgOp>)
      requires ValidGraph(cfg) && block < |cfg| && i < |cfg[block]| && block in processed
      requires Scanned(kind, root, block, toProcess, processed, i, queue, found)
      ensures Scanned(kind, root, block, toProcess, processed, i + 1, queue', found')
    {
      var op := cfg[block][i];
      found' := found;
      if op.kind == kind {
        found' := found' + [op];
      }
      assert cfg[block][..i + 1][..i] == cfg[block][..i];
      queue' := QueueSubBlocks(root, block, i, queue, processed);
    }

    /**
     * The body of findTypedBlock's foreach for one block: collects its ops of kind
     * `kind` and queues every sub-block not yet processed.
     */
    method ScanBlock(kind: string, ghost root: BlockId, block: BlockId, toProcess: seq<BlockId>, processed: set<BlockId>)
      returns (queue: seq<BlockId>, found: seq<CfgOp>)
      requires ValidGraph(cfg) && block < |cfg| && block in processed
      requires QueueOk(root, toProcess, processed)
      ensures QueueOk(root, queue, processed)
      ensures forall b :: b in toProcess ==> b in queue
      ensures forall b :: Edge(cfg, block, b) ==> b in processed || b in queue
      ensures found == OpsOfKind(cfg[block], kind)
    {
      queue := toProcess;
      found := [];
      var i := 0;
      while i < |cfg[block]|
        invariant 0 <= i <= |cfg[block]|
        invariant Scanned(kind, root, block, toProcess, processed, i, queue, found)
      {
        queue, found := ScanOp(kind, root, block, toProcess, processed, i, queue, found);
        i := i + 1;
      }
      assert cfg[block][..i] == cfg[block];
      forall b | Edge(cfg, block, b) ensures b in processed || b in queue {
        var i', j :| 0 <= i' < |cfg[block]| && 0 <= j < |cfg[block][i'].subBlocks| && cfg[block][i'].subBlocks[j] == b;
      }
    }

    /** The innermost loop of findTypedBlock: the sub-blocks of op i of `block` that are not processed join the queue. */
    method QueueSubBlocks(ghost root: BlockId, block: BlockId, i: nat, toProcess: seq<BlockId>, processed: set<BlockId>)
      returns (queue: seq<BlockId>)
      requires ValidGraph(cfg) && block < |cfg| && i < |cfg[block]| && block in processed
      requires QueueOk(root, toProcess, processed)
      ensures QueueOk(root, queue, processed)
      ensures forall b :: b in toProcess ==> b in queue
      ensures forall j :: 0 <= j < |cfg[block][i].subBlocks| ==>
        cfg[block][i].subBlocks[j] in processed || cfg[block][i].subBlocks[j] in queue
    {
      var subs := cfg[block][i].subBlocks;
      queue := toProcess;
      var j := 0;
      while j < |subs|
        invariant 0 <= j <= |subs|
        invariant QueueOk(root, queue, processed)
        invariant forall b :: b in toProcess ==> b in queue
        invariant forall j' :: 0 <= j' < j ==> subs[j'] in processed || subs[j'] in queue
      {
        var sub := subs[j];
        if sub !in processed && sub !in queue {
          assert Edge(cfg, block, sub) by {
            assert cfg[block][i].subBlocks[j] == sub;
          }
          ReachableStep(cfg, root, block, sub);
          queue := queue + [sub];
        }
        j := j + 1;
      }
    }

    /**
     * The state of findTypedBlock's walk: `order` lists the processed blocks in the
     * order they were taken from the queue, every edge out of a processed block
     * ends in a processed or queued block, and `result` holds the matching ops
     * of the processed blocks after `acc`.
     */
    ghost predicate Walking(kind: string, root: BlockId, acc: seq<CfgOp>, order: seq<BlockId>,
                            processed: set<BlockId>, toProcess: seq<BlockId>, result: seq<CfgOp>)
    {
      (forall k :: 0 <= k < |order| ==> order[k] < |cfg|) &&
      NoDuplicates(order) &&
      QueueOk(root, toProcess, processed) &&
      (forall b :: b in processed <==> b in order) &&
      (order == [] ==> toProcess == [root]) &&
      (order != [] ==> order[0] == root) &&
      (forall a, b :: a in processed && Edge(cfg, a, b) ==> b in processed || b in toProcess) &&
      result == acc + Matching(cfg, order, kind)
    }

    /** Detaching the head of the queue and marking it processed keeps the queue sound. */
    lemma Detached(kind: string, root: BlockId, acc: seq<CfgOp>, order: seq<BlockId>,
                   processed: set<BlockId>, toProcess: seq<BlockId>, result: seq<CfgOp>)
      requires |toProcess| > 0 && Walking(kind, root, acc, order, processed, toProcess, result)
      ensures toProcess[0] < |cfg| && toProcess[0] !in order
      ensures QueueOk(root, toProcess[1..], processed + {toProcess[0]})
    {
      assert forall b :: b in toProcess[1..] ==> b in toProcess && b != toProcess[0];
    }

    /** Once the detached block is scanned, the walk has taken one more step. */
    lemma Visited(kind: string, root: BlockId, acc: seq<CfgOp>, order: seq<BlockId>,
                  processed: set<BlockId>, toProcess: seq<BlockId>, result: seq<CfgOp>,
                  queue: seq<BlockId>, found: seq<CfgOp>)
      requires |toProcess| > 0 && Walking(kind, root, acc, order, processed, toProcess, result)
      requires toProcess[0] < |cfg| && toProcess[0] !in order
      requires QueueOk(root, queue, processed + {toProcess[0]})
      requires forall b :: b in toProcess[1..] ==> b in queue
      requires forall b :: Edge(cfg, toProcess[0], b) ==> b in processed + {toProcess[0]} || b in queue
      requires found == OpsOfKind(cfg[toProcess[0]], kind)
      ensures Walking(kind, root, acc, order + [toProcess[0]], processed + {toProcess[0]}, queue, result + found)
      ensures |order| + 1 <= |cfg|
    {
      var block := toProcess[0];
      var processed' := processed + {block};
      VisitedOrder(root, order, processed, toProcess);
      VisitedClosed(processed, toProcess, queue);
      MatchingSnoc(cfg, order, block, kind);
      AppendAssoc(acc, Matching(cfg, order, kind), found);
      assert QueueOk(root, queue, processed');
      DistinctBelow(order + [block], |cfg|);
    }

    /** Visiting the head of the queue appends it to the visit order, which stays duplicate-free and rooted. */
    lemma VisitedOrder(root: BlockId, order: seq<BlockId>, processed: set<BlockId>, toProcess: seq<BlockId>)
      requires |toProcess| > 0 && toProcess[0] < |cfg| && toProcess[0] !in order
      requires forall k :: 0 <= k < |order| ==> order[k] < |cfg|
      requires NoDuplicates(order)
      requires forall b :: b in processed <==> b in order
      requires order == [] ==> toProcess == [root]
      requires order != [] ==> order[0] == root
      ensures forall k :: 0 <= k < |order| + 1 ==> (order + [toProcess[0]])[k] < |cfg|
      ensures NoDuplicates(order + [toProcess[0]])
      ensures forall b :: b in processed + {toProcess[0]} <==> b in order + [toProcess[0]]
      ensures (order + [toProcess[0]])[0] == root
    {
      var order' := order + [toProcess[0]];
      assert forall k :: 0 <= k < |order| ==> order'[k] == order[k];
    }

    /** After the visit every edge out of a processed block still ends in a processed or queued block. */
    lemma VisitedClosed(processed: set<BlockId>, toProcess: seq<BlockId>, queue: seq<BlockId>)
      requires |toProcess| > 0
      requires forall a, b :: a in processed && Edge(cfg, a, b) ==> b in processed || b in toProcess
      requires forall b :: b in toProcess[1..] ==> b in queue
      requires forall b :: Edge(cfg, toProcess[0], b) ==> b in processed + {toProcess[0]} || b in queue
      ensures forall a, b :: a in processed + {toProcess[0]} && Edge(cfg, a, b) ==> b in processed + {toProcess[0]} || b in queue
    {
      var block := toProcess[0];
      forall a, b | a in processed + {block} && Edge(cfg, a, b) ensures b in processed + {block} || b in queue {
        if a != block && b in toProcess && b != block {
          assert b in toProcess[1..];
        }
      }
    }

    /** One turn of findTypedBlock's outer loop: the head of the queue is detached, marked processed and scanned. */
    method VisitNext(kind: string, ghost root: BlockId, ghost acc: seq<CfgOp>, ghost order: seq<BlockId>,
                     processed: set<BlockId>, toProcess: seq<BlockId>, result: seq<CfgOp>)
      returns (ghost order': seq<BlockId>, processed': set<BlockId>, toProcess': seq<BlockId>, result': seq<CfgOp>)
      requires ValidGraph(cfg) && |toProcess| > 0
      requires Walking(kind, root, acc, order, processed, toProcess, result)
      ensures Walking(kind, root, acc, order', processed', toProcess', result')
      ensures |order'| == |order| + 1 <= |cfg|
    {
      Detached(kind, root, acc, order, processed, toProcess, result);
      var block := toProcess[0];
      processed' := processed + {block};
      order' := order + [block];
      var found;
      toProcess', found := ScanBlock(kind, root, block, toProcess[1..], processed');
      result' := result + found;
      Visited(kind, root, acc, order, processed, toProcess, result, toProcess', found);
    }

    /**
     * State::findTypedBlock: visits every block reachable from `root` once, and
     * appends to `acc` the ops of kind `kind` of the blocks in the order visited.
     */
    method FindTypedBlock(kind: string, root: BlockId, acc: seq<CfgOp>) returns (result: seq<CfgOp>, ghost order: seq<BlockId>)
      requires ValidGraph(cfg) && root < |cfg|
      ensures NoDuplicates(order) && |order| > 0 && order[0] == root
      ensures forall k :: 0 <= k < |order| ==> order[k] < |cfg|
      ensures forall b :: b in order <==> Reachable(cfg, root, b)
      ensures result == acc + Matching(cfg, order, kind)
    {
      var toProcess: seq<BlockId> := [root];
      var processed: set<BlockId> := {};
      result := acc;
      order := [];
      ReachableRoot(cfg, root);
      while |toProcess| > 0
        invariant Walking(kind, root, acc, order, processed, toProcess, result)
        invariant |order| <= |cfg|
        decreases |cfg| - |order|
      {
        order, processed, toProcess, result := VisitNext(kind, root, acc, order, processed, toProcess, result);
      }
      forall b | Reachable(cfg, root, b) ensures b in order {
        var p :| IsPath(cfg, p) && p[0] == root && p[|p| - 1] == b;
        ClosedHoldsReachable(cfg, root, processed, p);
      }
    }

    /** The loop shared by findNewCalls and findMethodCalls: findTypedBlock folded over every root block. */
    method FindOpsOfKind(kind: string) returns (found: seq<CfgOp>, ghost orders: seq<seq<BlockId>>)
      requires ValidGraph(cfg) && forall k :: 0 <= k < |blocks| ==> blocks[k] < |cfg|
      ensures |orders| == |blocks|
      ensures forall r, k :: 0 <= r < |orders| && 0 <= k < |orders[r]| ==> orders[r][k] < |cfg|
      ensures forall r :: 0 <= r < |blocks| ==> NoDuplicates(orders[r]) && forall b :: b in orders[r] <==> Reachable(cfg, blocks[r], b)
      ensures found == Collected(cfg, orders, kind)
    {
      found := [];
      orders := [];
      var r := 0;
      while r < |blocks|
        invariant 0 <= r <= |blocks| && |orders| == r
        invariant forall r', k :: 0 <= r' < |orders| && 0 <= k < |orders[r']| ==> orders[r'][k] < |cfg|
        invariant forall r' :: 0 <= r' < r ==> NoDuplicates(orders[r']) && forall b :: b in orders[r'] <==> Reachable(cfg, blocks[r'], b)
        invariant found == Collected(cfg, orders, kind)
      {
        ghost var order;
        found, order := FindTypedBlock(kind, blocks[r], found);
        ghost var before := orders;
        orders := orders + [order];
        assert orders[..|orders| - 1] == before;
        r := r + 1;
      }
    }

    /** State::findNewCalls. */
    method FindNewCalls() returns (found: seq<CfgOp>, ghost orders: seq<seq<BlockId>>)
      requires ValidGraph(cfg) && forall k :: 0 <= k < |blocks| ==> blocks[k] < |cfg|
      ensures |orders| == |blocks|
      ensures forall r, k :: 0 <= r < |orders| && 0 <= k < |orders[r]| ==> orders[r][k] < |cfg|
      ensures forall r :: 0 <= r < |blocks| ==> NoDuplicates(orders[r]) && forall b :: b in orders[r] <==> Reachable(cfg, blocks[r], b)
      ensures found == Collected(cfg, orders, "Expr_New")
    {
      found, orders := FindOpsOfKind("Expr_New");
    }

    /** State::findMethodCalls. */
    method FindMethodCalls() returns (found: seq<CfgOp>, ghost orders: seq<seq<BlockId>>)
      requires ValidGraph(cfg) && forall k :: 0 <= k < |blocks| ==> blocks[k] < |cfg|
      ensures |orders| == |blocks|
      ensures forall r, k :: 0 <= r < |orders| && 0 <= k < |orders[r]| ==> orders[r][k] < |cfg|
      ensures forall r :: 0 <= r < |blocks| ==> NoDuplicates(orders[r]) && forall b :: b in orders[r] <==> Reachable(cfg, blocks[r], b)
      ensures found == Collected(cfg, orders, "Expr_MethodCall")
    {
      found, orders := FindOpsOfKind("Expr_MethodCall");
    }

    /**
     * State::computeTypeMatrix: builds classResolves by the three passes of
     * TypeMatrix.Resolves, then classResolvedBy as its exact inverse.
     */
    method ComputeTypeMatrix() returns (resolves: Index, resolvedBy: map<string, set<string>>)
      ensures resolves == Resolves(interfaces, classes)
      ensures IsInverse(resolvedBy, resolves)
    {
      resolves := BuildIndex();
      resolvedBy := Invert(resolves);
    }

    /** The three passes of computeTypeMatrix over $map, $interfaceMap, $classMap and $toProcess. */
    method BuildIndex() returns (index: Index)
      ensures index == Resolves(interfaces, classes)
    {
      var t := EmptyTables;
      var i := 0;
      while i < |interfaces|
        invariant 0 <= i <= |interfaces|
        invariant SeedInterfaces(t, interfaces, i) == SeedInterfaces(EmptyTables, interfaces, 0)
      {
        t := SeedOneInterface(t, interfaces[i], InterfaceRef(i));
        i := i + 1;
      }
      i := 0;
      while i < |classes|
        invariant 0 <= i <= |classes|
        invariant SeedClasses(t, classes, i) == Seeded(interfaces, classes)
      {
        t := SeedOneClass(t, classes[i], ClassRef(i));
        i := i + 1;
      }
      index := t.index;
      i := 0;
      while i < |t.toProcess|
        invariant 0 <= i <= |t.toProcess|
        invariant ApplyExtends(index, t.classMap, t.toProcess, i) == Resolves(interfaces, classes)
      {
        var p := t.toProcess[i];
        if p.parent in t.classMap {
          index := LinkEach(index, t.classMap[p.parent], p.name, p.ref);
        }
        i := i + 1;
      }
    }

    /** The classResolvedBy pass: for each entry a and each name d in it, record a under d. */
    method Invert(index: Index) returns (resolvedBy: map<string, set<string>>)
      ensures IsInverse(resolvedBy, index)
    {
      resolvedBy := map[];
      var remaining := index.Keys;
      ghost var done: set<string> := {};
      while remaining != {}
        invariant remaining + done == index.Keys && remaining !! done
        invariant forall d, a :: d in resolvedBy && a in resolvedBy[d] ==> a in done && Has(index, a, d)
        invariant forall a, d :: a in done && Has(index, a, d) ==> d in resolvedBy && a in resolvedBy[d]
        invariant forall d :: d in resolvedBy ==> resolvedBy[d] != {}
        decreases remaining
      {
        var child :| child in remaining;
        var parent := index[child];
        var j := 0;
        while j < |parent|
          invariant 0 <= j <= |parent|
          invariant forall d, a :: d in resolvedBy && a in resolvedBy[d] ==> (a in done && Has(index, a, d)) || (a == child && HasKey(parent[..j], d))
          invariant forall a, d :: a in done && Has(index, a, d) ==> d in resolvedBy && a in resolvedBy[d]
          invariant forall d :: HasKey(parent[..j], d) ==> d in resolvedBy && child in resolvedBy[d]
          invariant forall d :: d in resolvedBy ==> resolvedBy[d] != {}
        {
          var name := parent[j].0;
          HasKeyPrefix(parent, j);
          var names := if name in resolvedBy then resolvedBy[name] else {};
          resolvedBy := resolvedBy[name := names + {child}];
          j := j + 1;
        }
        assert parent[..|parent|] == parent;
        remaining := remaining - {child};
        done := done + {child};
      }
    }
  }

  /** `foreach ($keys as $key) $map[$key][$name] = $ref;` */
  method LinkEach(m: Index, keys: seq<string>, name: string, ref: DeclRef) returns (index: Index)
    ensures index == LinkAll(m, keys, name, ref)
  {
    index := m;
    var k := 0;
    while k < |keys|
      invariant 0 <= k <= |keys|
      invariant index == LinkAll(m, keys[..k], name, ref)
    {
      LinkAllSnoc(m, keys, k, name, ref);
      index := Link(index, keys[k], name, ref);
      k := k + 1;
    }
    assert keys[..k] == keys;
  }

  /** One iteration of computeTypeMatrix's interface loop. */
  method SeedOneInterface(t: Tables, iface: InterfaceDecl, ref: DeclRef) returns (r: Tables)
    ensures r == SeedInterface(t, iface, ref)
  {
    var name := Lower(iface.name);
    ghost var subs := LowerAll(iface.parents);
    ghost var base := Reset(t.index, name, ref);
    var index := t.index[name := [(name, ref)]];
    var interfaceMap := t.interfaceMap[name := []];
    var j := 0;
    while j < |iface.parents|
      invariant 0 <= j <= |iface.parents|
      invariant interfaceMap == t.interfaceMap[name := subs[..j]]
      invariant index == LinkAll(base, subs[..j], name, ref)
    {
      var sub := Lower(iface.parents[j]);
      assert subs[..j + 1] == subs[..j] + [sub];
      interfaceMap := interfaceMap[name := interfaceMap[name] + [sub]];
      LinkAllSnoc(base, subs, j, name, ref);
      index := Link(index, sub, name, ref);
      j := j + 1;
    }
    assert subs[..j] == subs;
    r := t.(index := index, interfaceMap := interfaceMap);
  }

  /**
   * The body of the implements loop for one interface: its own name, then the
   * interfaces it was declared to extend, each appended to the class's class-map
   * entry and linked to the class.
   */
  method LinkInterface(index: Index, entry: seq<string>, iname: string, interfaceMap: map<string, seq<string>>,
                       name: string, ref: DeclRef)
    returns (index': Index, entry': seq<string>)
    ensures entry' == entry + Implemented(iname, interfaceMap)
    ensures index' == LinkAll(index, Implemented(iname, interfaceMap), name, ref)
  {
    ghost var linked := Implemented(iname, interfaceMap);
    entry' := entry + [iname];
    index' := Link(index, iname, name, ref);
    LinkAllSnoc(index, linked, 0, name, ref);
    assert linked[..0] == [];
    assert linked[..1] == [iname];
    if iname in interfaceMap {
      var parents := interfaceMap[iname];
      var k := 0;
      while k < |parents|
        invariant 0 <= k <= |parents|
        invariant entry' == entry + linked[..k + 1]
        invariant index' == LinkAll(index, linked[..k + 1], name, ref)
      {
        var sub := parents[k];
        assert linked[k + 1] == sub;
        LinkAllSnoc(index, linked, k + 1, name, ref);
        assert linked[..k + 2] == linked[..k + 1] + [sub];
        AppendAssoc(entry, linked[..k + 1], [sub]);
        entry' := entry' + [sub];
        index' := Link(index', sub, name, ref);
        k := k + 1;
      }
      assert linked[..k + 1] == linked;
    } else {
      assert linked[..1] == linked;
    }
  }

  /** The implements loop of one class: each interface in turn, through LinkInterface. */
  method LinkImplements(index: Index, entry: seq<string>, impls: seq<string>, interfaceMap: map<string, seq<string>>,
                        name: string, ref: DeclRef)
    returns (index': Index, entry': seq<string>)
    ensures entry' == entry + Expand(impls, interfaceMap)
    ensures index' == LinkAll(index, Expand(impls, interfaceMap), name, ref)
  {
    index', entry' := index, entry;
    var j := 0;
    while j < |impls|
      invariant 0 <= j <= |impls|
      invariant entry' == entry + Expand(impls[..j], interfaceMap)
      invariant index' == LinkAll(index, Expand(impls[..j], interfaceMap), name, ref)
    {
      var iname := Lower(impls[j]);
      ghost var done := Expand(impls[..j], interfaceMap);
      ghost var head := Implemented(iname, interfaceMap);
      ExpandSnoc(impls, j, interfaceMap);
      LinkAllConcat(index, done, head, name, ref);
      AppendAssoc(entry, done, head);
      index', entry' := LinkInterface(index', entry', iname, interfaceMap, name, ref);
      j := j + 1;
    }
    assert impls[..j] == impls;
  }

  /** One iteration of computeTypeMatrix's class loop. */
  method SeedOneClass(t: Tables, cls: ClassDecl, ref: DeclRef) returns (r: Tables)
    ensures r == SeedClass(t, cls, ref)
  {
    var name := Lower(cls.name);
    var index := t.index[name := [(name, ref)]];
    var entry;
    index, entry := LinkImplements(index, [name], cls.implements, t.interfaceMap, name, ref);
    r := Tables(index, t.interfaceMap, t.classMap[name := entry],
                if cls.parent.Some? then t.toProcess + [Pending(name, Lower(cls.parent.value), ref)] else t.toProcess);
  }
}
