/**
 * The blocks of a script as an arena: each block lists its ops in order, and each
 * op names the kind it is (its getType()) and the blocks it owns as sub-blocks.
 * Reachability is what findTypedBlock walks.
 */
module Cfg {
  import opened Wrappers

  type BlockId = nat

  datatype CfgOp = CfgOp(kind: string, subBlocks: seq<BlockId>)

  type Block = seq<CfgOp>

  /** Every sub-block named by an op is a block of the arena. */
  predicate ValidGraph(g: seq<Block>)
  {
    forall b, i, j :: 0 <= b < |g| && 0 <= i < |g[b]| && 0 <= j < |g[b][i].subBlocks| ==> g[b][i].subBlocks[j] < |g|
  }

  /** Block `to` is a sub-block of some op of block `from`. */
  ghost predicate Edge(g: seq<Block>, from: BlockId, to: BlockId)
  {
    from < |g| && exists i, j :: 0 <= i < |g[from]| && 0 <= j < |g[from][i].subBlocks| && g[from][i].subBlocks[j] == to
  }

  ghost predicate IsPath(g: seq<Block>, p: seq<BlockId>)
  {
    |p| > 0 && forall k :: 0 <= k < |p| - 1 ==> Edge(g, p[k], p[k + 1])
  }

  ghost predicate Reachable(g: seq<Block>, root: BlockId, b: BlockId)
  {
    exists p :: IsPath(g, p) && p[0] == root && p[|p| - 1] == b
  }

  lemma ReachableRoot(g: seq<Block>, root: BlockId)
    ensures Reachable(g, root, root)
  {
    assert IsPath(g, [root]);
  }

  lemma ReachableStep(g: seq<Block>, root: BlockId, a: BlockId, b: BlockId)
    requires Reachable(g, root, a) && Edge(g, a, b)
    ensures Reachable(g, root, b)
  {
    var p :| IsPath(g, p) && p[0] == root && p[|p| - 1] == a;
    var q := p + [b];
    assert forall k :: 0 <= k < |q| - 1 ==> q[k] == p[k];
    assert IsPath(g, q);
  }

  /** A set holding the root and closed under edges holds everything reachable from the root. */
  lemma {:induction false} ClosedHoldsReachable(g: seq<Block>, root: BlockId, s: set<BlockId>, p: seq<BlockId>)
    requires root in s
    requires forall a, b :: a in s && Edge(g, a, b) ==> b in s
    requires IsPath(g, p) && p[0] == root
    ensures p[|p| - 1] in s
    decreases |p|
  {
    if |p| > 1 {
      var q := p[..|p| - 1];
      assert IsPath(g, q) by {
        forall k | 0 <= k < |q| - 1 ensures Edge(g, q[k], q[k + 1]) {
          assert q[k] == p[k] && q[k + 1] == p[k + 1];
        }
      }
      ClosedHoldsReachable(g, root, s, q);
      assert Edge(g, p[|p| - 2], p[|p| - 1]);
    }
  }

  /** The ops of one block whose kind is `kind`, in order. */
  function OpsOfKind(ops: seq<CfgOp>, kind: string): (r: seq<CfgOp>)
    ensures |r| <= |ops|
    ensures forall k :: 0 <= k < |r| ==> r[k].kind == kind && r[k] in ops
  {
    if ops == [] then []
    else
      var init := ops[..|ops| - 1];
      var rest := OpsOfKind(init, kind);
      if ops[|ops| - 1].kind == kind then rest + [ops[|ops| - 1]] else rest
  }

  /** Every op of the kind is collected. */
  lemma {:induction false} OpsOfKindHas(ops: seq<CfgOp>, kind: string, k: nat)
    requires k < |ops| && ops[k].kind == kind
    ensures ops[k] in OpsOfKind(ops, kind)
  {
    var init := ops[..|ops| - 1];
    if k < |init| {
      assert init[k] == ops[k];
      OpsOfKindHas(init, kind, k);
    }
  }

  /** Collecting over two runs of ops is collecting over each, in order. */
  lemma {:induction false} OpsOfKindAppend(a: seq<CfgOp>, b: seq<CfgOp>, kind: string)
    ensures OpsOfKind(a + b, kind) == OpsOfKind(a, kind) + OpsOfKind(b, kind)
    decreases |b|
  {
    if b == [] {
      assert a + b == a;
    } else {
      var init := b[..|b| - 1];
      assert (a + b)[..|a + b| - 1] == a + init;
      assert (a + b)[|a + b| - 1] == b[|b| - 1];
      OpsOfKindAppend(a, init, kind);
    }
  }

  /** A single op is collected exactly when it has the kind. */
  lemma OpsOfKindSingle(o: CfgOp, kind: string)
    ensures OpsOfKind([o], kind) == if o.kind == kind then [o] else []
  {
    assert [o][..0] == [];
  }

  /** The ops of kind `kind` of the blocks in `order`, block after block. */
  function Matching(g: seq<Block>, order: seq<BlockId>, kind: string): seq<CfgOp>
    requires forall k :: 0 <= k < |order| ==> order[k] < |g|
  {
    if order == [] then []
    else Matching(g, order[..|order| - 1], kind) + OpsOfKind(g[order[|order| - 1]], kind)
  }

  /** Visiting one more block appends its matching ops. */
  lemma MatchingSnoc(g: seq<Block>, order: seq<BlockId>, b: BlockId, kind: string)
    requires forall k :: 0 <= k < |order| ==> order[k] < |g|
    requires b < |g|
    ensures forall k :: 0 <= k < |order + [b]| ==> (order + [b])[k] < |g|
    ensures Matching(g, order + [b], kind) == Matching(g, order, kind) + OpsOfKind(g[b], kind)
  {
    assert (order + [b])[..|order|] == order;
  }

  predicate NoDuplicates(s: seq<BlockId>)
  {
    forall i, j :: 0 <= i < j < |s| ==> s[i] != s[j]
  }

  function Range(n: nat): (r: set<nat>)
    ensures forall i: nat :: i in r <==> i < n
    ensures |r| == n
  {
    if n == 0 then {} else Range(n - 1) + {n - 1}
  }

  /** A duplicate-free list of block ids below n has at most n entries. */
  lemma DistinctBelow(s: seq<BlockId>, n: nat)
    requires NoDuplicates(s) && forall k :: 0 <= k < |s| ==> s[k] < n
    ensures |s| <= n
  {
    var elems := set k | 0 <= k < |s| :: s[k];
    assert elems <= Range(n);
    DistinctCard(s);
    SubsetCard(elems, Range(n));
  }

  lemma {:induction false} SubsetCard(a: set<nat>, b: set<nat>)
    requires a <= b
    ensures |a| <= |b|
    decreases |b|
  {
    if a != {} {
      var x :| x in a;
      SubsetCard(a - {x}, b - {x});
    }
  }

  lemma {:induction false} DistinctCard(s: seq<BlockId>)
    requires NoDuplicates(s)
    ensures |set k | 0 <= k < |s| :: s[k]| == |s|
  {
    if s != [] {
      var t := s[..|s| - 1];
      DistinctCard(t);
      assert (set k | 0 <= k < |s| :: s[k]) == (set k | 0 <= k < |t| :: t[k]) + {s[|s| - 1]};
      assert s[|s| - 1] !in (set k | 0 <= k < |t| :: t[k]);
    }
  }
}
