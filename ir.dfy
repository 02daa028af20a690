/**
 * The control-flow IR the reconstructor reads, reduced to what it inspects:
 * operands are numbered, each operand lists the ops that produce it, and each
 * op kind carries the operands and names its rule looks at.
 */
module Ir {
  import opened Wrappers
  import opened Types

  /** An operand, by its index in the operand table. */
  type VarId = nat

  /**
   * Temporaries and ordinary variables; literals with their value; bound
   * variables ($this and friends) with their scope and the literal naming their owner.
   */
  datatype OperandKind =
    | Temporary
    | Literal(value: Value)
    | BoundVariable(objectScope: bool, extra: Value)

  /** An operand and the ops that write it (`$var->ops`). */
  datatype OperandInfo = OperandInfo(kind: OperandKind, ops: seq<Op>)

  /** A declared parameter or return type: only a literal name can be resolved. */
  datatype DeclaredType = DeclaredLiteral(name: string) | DeclaredOther

  datatype BinaryKind =
    | Equal | NotEqual | Greater | GreaterOrEqual | Identical | NotIdentical | Smaller | SmallerOrEqual
    | LogicalAnd | LogicalOr | LogicalXor
    | BitwiseAnd | BitwiseOr | BitwiseXor
    | Div | Plus | Minus | Mul
    | Concat | Mod | ShiftLeft | ShiftRight
    | BooleanAnd | BooleanOr | Coalesce | Pow | Spaceship

  datatype CastKind = CastBool | CastString | CastInt | CastDouble | CastArray | CastObject | CastUnset

  /** The first op of a parameter's default-value block. */
  datatype DefaultStart = ConstFetchNamed(name: string) | OtherStart

  /** A TypeAssertion: an operand (literal type name or variable) or a union/intersection of sub-assertions. */
  datatype TypeAssertion =
    | OperandAssertion(operand: VarId)
    | CompositeAssertion(isUnion: bool, subs: seq<TypeAssertion>)

  datatype Assertion =
    | TypeAssert(assertion: TypeAssertion)
    | Negated(inner: Assertion)

  datatype Op =
    | InstanceOf | BooleanNot | Empty | Isset | ConcatList | Print | Exit
    | IteratorReset | IteratorValid
    | IteratorKey(subject: VarId)
    | IteratorValue(subject: VarId)
    | BinaryOp(kind: BinaryKind, left: VarId, right: VarId)
    | BitwiseNot(expr: VarId)
    | UnaryMinus(expr: VarId)
    | UnaryPlus(expr: VarId)
    | Cast(cast: CastKind, expr: VarId)
    | Eval | Yield | Include
    | ArrayLiteral(values: seq<VarId>)
    | ArrayDimFetch(subject: VarId)
    | Assign(expr: VarId)
    | AssignRef(expr: VarId)
    | Clone(expr: VarId)
    | Closure
    | FuncCall(name: VarId)
    | New(cls: VarId)
    | Param(declaredType: DeclaredType, defaultStart: Option<DefaultStart>)
    | PropertyFetch(subject: VarId, name: VarId)
    | StaticPropertyFetch(cls: VarId, name: VarId)
    | AssertionOp(assertion: Assertion, expr: VarId)
    | ConstFetch(name: VarId)
    | ClassConstFetch(cls: VarId, constName: string)
    | StaticCall(cls: VarId, name: VarId)
    | MethodCall(subject: VarId, name: VarId)
    | Phi(vars: seq<VarId>)
    | OtherOp

  // ---------------------------------------------------------------------------
  // Declarations found in the script
  // ---------------------------------------------------------------------------

  /** The statements of a class-like body the lookups inspect; `ptype` is the Property's `type` field. */
  datatype Stmt =
    | Property(name: string, doc: Option<string>, ptype: Option<Type>)
    | ClassMethod(name: string, doc: Option<string>, returnType: DeclaredType)
    | OtherStmt

  datatype InterfaceDecl = InterfaceDecl(name: string, parents: seq<string>, stmts: seq<Stmt>)

  datatype ClassDecl = ClassDecl(name: string, parent: Option<string>, implements: seq<string>, stmts: seq<Stmt>)

  /** A declaration by position in the interface or class list (the object the index points at). */
  datatype DeclRef = InterfaceRef(index: nat) | ClassRef(index: nat)

  /** A function: its name, its return type already converted to a Type, and its doc comment. */
  datatype FunctionDecl = FunctionDecl(name: string, returnType: Option<Type>, doc: Option<string>)

  /** The internal function and method tables: return declarations as strings. */
  datatype InternalClass = InternalClass(children: seq<string>, methods: map<string, string>)

  datatype InternalInfo = InternalInfo(functions: map<string, string>, methods: map<string, InternalClass>)
}
