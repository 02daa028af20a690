/**
 * A whole run of the reconstructor on a small script: `$x = 1;` gives $x the type int.
 * Each stage (seeding, the rounds, the write-back) is stated on its own.
 */
module Scenarios {
  import opened Wrappers
  import opened Types
  import opened Ir
  import opened Reconstructor
  import opened Resolution

  function EmptyContext(operands: map<VarId, OperandInfo>): Context
  {
    Context(operands, map[], map[], InternalInfo(map[], map[]), map[], map[], [], [], (a: Type, b: Type) => false)
  }

  /** `$x = 1;`: operand 0 is the literal 1, operand 1 is $x, written by an assignment from operand 0. */
  function AssignProgram(): Context
  {
    EmptyContext(map[0 := OperandInfo(Literal(LInt(1)), []), 1 := OperandInfo(Temporary, [Assign(0)])])
  }

  lemma AssignSeeded()
    ensures Seed(AssignProgram(), [0, 1], map[]) == Ok(Seeding(map[0 := Long], [1], map[0 := Some(Long)]))
  {
    var ctx := AssignProgram();
    var vars: seq<VarId> := [0, 1];
    assert vars[..1] == [0] && [0][..0] == [];
    var s0 := Seeding(map[], [], map[]);
    assert Seed(ctx, [], map[]) == Ok(s0);
    var s1 := Seeding(map[0 := Long], [], map[0 := Some(Long)]);
    assert SeedOne(ctx, s0, 0) == Ok(s1);
    assert Seed(ctx, [0], map[]) == Ok(s1);
    assert KindOf(ctx, 1) == Temporary && Current(s1.types, 1) == None;
    assert Attach([], 1) == [1];
  }

  /** $x's one producer, the assignment, gives it the literal's type. */
  lemma AssignResolvesTarget()
    ensures ResolveVar(AssignProgram(), 1, [Assign(0)], map[0 := Long]) == Outcome(Ok(Some(Long)), map[0 := Long])
  {
    var ctx := AssignProgram();
    var r: Resolved := map[0 := Long];
    assert ResolveVarOp(ctx, 1, Assign(0), r) == Step(Give([Long]), r);
    assert Collect(ctx, 1, [], r) == Step(Give([]), r);
    assert [Long] + [] == [Long];
    assert Collect(ctx, 1, [Assign(0)], r) == Step(Give([Long]), r) by {
      assert [Assign(0)][1..] == [];
    }
  }

  /** The first round resolves $x from the literal and marks it changed. */
  lemma AssignFirstRound()
    ensures RoundOver(ResolverOf(AssignProgram()), [1], map[0 := Long]) == Ok(Pass(map[0 := Long, 1 := Long], [1]))
  {
    var ctx := AssignProgram();
    var r: Resolved := map[0 := Long];
    assert OpsOf(ctx, 1) == [Assign(0)];
    AssignResolvesTarget();
    assert [1][..0] == [];
    assert RoundOver(ResolverOf(ctx), [], r) == Ok(Pass(r, []));
    assert r[1 := Long] == map[0 := Long, 1 := Long];
    assert [] + [1] == [1];
    assert Visit(ResolverOf(ctx), Pass(r, []), 1) == Ok(Pass(map[0 := Long, 1 := Long], [1]));
  }

  lemma AssignRounds()
    ensures Rounds(ResolverOf(AssignProgram()), {0, 1}, [1], map[0 := Long]) == Ok(Fixpoint(map[0 := Long, 1 := Long], []))
  {
    AssignFirstRound();
    assert Without([1], [1]) == [];
  }

  lemma AssignWrites()
    ensures WriteBack(map[0 := Some(Long)], map[0 := Long, 1 := Long], []) == map[0 := Some(Long), 1 := Some(Long)]
  {
    var w := WriteBack(map[0 := Some(Long)], map[0 := Long, 1 := Long], []);
    var none: seq<VarId> := [];
    assert (map k | k in none :: Some(Unknown)) == map[];
    assert (map k | k in map[0 := Long, 1 := Long] :: Some(map[0 := Long, 1 := Long][k])) == map[0 := Some(Long), 1 := Some(Long)];
  }

  /** `$x = 1;`: the literal is an int and the assigned variable takes its type. */
  lemma AssignLiteral()
    ensures Reconstruct(AssignProgram(), [0, 1], map[]) == Ok(map[0 := Some(Long), 1 := Some(Long)])
  {
    AssignSeeded();
    assert Elems([0, 1]) == {0, 1};
    AssignRounds();
    AssignWrites();
  }
}
