/**
 * The rules of TypeReconstructor: computeMergedType, resolveVar and the per-op-kind
 * handlers behind resolveVarOp, with the lookups they make in the class index.
 * Every rule reads a snapshot of the State and the map of operands resolved so far;
 * only the Phi rule writes to that map (a speculative entry for its own result).
 */
module Reconstructor {
  import opened Wrappers
  import opened PhpStrings
  import opened PhpArrays
  import opened Types
  import opened Ir
  import opened DeclParser
  import opened TypeMatrix

  /** The `$resolved` storage: operand to type. */
  type Resolved = map<VarId, Type>

  /**
   * What a handler answers: an exception, `false` (None), or a list of candidate types.
   * An empty list is falsy in PHP, so resolveVar treats Some([]) as a failure too.
   */
  type Candidates = Result<Option<seq<Type>>>

  /** The parts of State the rules read. */
  datatype Context = Context(
    operands: map<VarId, OperandInfo>,
    constants: map<string, seq<VarId>>,
    functionLookup: map<string, seq<FunctionDecl>>,
    internal: InternalInfo,
    classResolves: Index,
    classResolvedBy: map<string, set<string>>,
    interfaces: seq<InterfaceDecl>,
    classes: seq<ClassDecl>,
    resolver: (Type, Type) -> bool)

  /** What kind of operand v is; an operand missing from the table is treated as a temporary. */
  function KindOf(ctx: Context, v: VarId): OperandKind
  {
    if v in ctx.operands then ctx.operands[v].kind else Temporary
  }

  /** A literal's value used where strict_types demands a string (strtolower): anything else is a TypeError. */
  function NameOf(v: Value): (r: Result<string>)
    ensures r.Ok? <==> v.LString?
  {
    if v.LString? then Ok(v.s) else Err(NotAString)
  }

  const NoCandidates: Candidates := Ok(None)

  function Give(ts: seq<Type>): Candidates
  {
    Ok(Some(ts))
  }

  // ---------------------------------------------------------------------------
  // computeMergedType
  // ---------------------------------------------------------------------------

  predicate AllEqualFirst(types: seq<Type>)
    requires |types| > 0
  {
    forall i :: 0 <= i < |types| ==> Equals(types[0], types[i])
  }

  /**
   * computeMergedType as its callers expect it: a single candidate is returned as it is;
   * otherwise any Unknown gives no type (None, the `return false`), candidates all
   * equal to the first give the first, and anything else gives simplify(Union(candidates)).
   */
  function ComputeMergedType(types: seq<Type>): (r: Option<Type>)
    ensures r.None? <==> |types| != 1 && exists i :: 0 <= i < |types| && types[i].Unknown?
    ensures |types| == 1 ==> r == Some(types[0])
  {
    if |types| == 1 then Some(types[0])
    else if exists i :: 0 <= i < |types| && types[i].Unknown? then None
    else if |types| > 0 && AllEqualFirst(types) then Some(types[0])
    else Some(Simplify(Union(types)))
  }

  /**
   * computeMergedType as written: it is declared to return a Type, so its `return false`
   * raises a TypeError instead of reporting failure.
   */
  function ComputeMergedTypeAsWritten(types: seq<Type>): (r: Result<Type>)
    ensures r.Err? <==> ComputeMergedType(types).None?
    ensures r.Ok? ==> ComputeMergedType(types) == Some(r.value)
  {
    match ComputeMergedType(types)
    case None => Err(ReturnedFalse)
    case Some(t) => Ok(t)
  }

  // ---------------------------------------------------------------------------
  // Reading the resolved map
  // ---------------------------------------------------------------------------

  /** The types of vs when every one of them is resolved, in order; None when one is not. */
  function Lookups(vs: seq<VarId>, resolved: Resolved): (r: Option<seq<Type>>)
    ensures r.None? <==> exists i :: 0 <= i < |vs| && vs[i] !in resolved
    ensures r.Some? ==> |r.value| == |vs| && forall i :: 0 <= i < |vs| ==> r.value[i] == resolved[vs[i]]
  {
    if vs == [] then Some([])
    else if vs[0] !in resolved then None
    else match Lookups(vs[1..], resolved)
      case None => None
      case Some(rest) => Some([resolved[vs[0]]] + rest)
  }

  /** The types of the resolved operands among vs, in order (Phi's `$types`). */
  function Present(vs: seq<VarId>, resolved: Resolved): (r: seq<Type>)
    ensures |r| <= |vs|
    ensures forall i :: 0 <= i < |r| ==> exists j :: 0 <= j < |vs| && vs[j] in resolved && r[i] == resolved[vs[j]]
    ensures r == [] <==> forall j :: 0 <= j < |vs| ==> vs[j] !in resolved
  {
    if vs == [] then []
    else
      var rest := Present(vs[1..], resolved);
      assert forall j :: 0 <= j < |vs| - 1 ==> vs[1..][j] == vs[j + 1];
      if vs[0] in resolved then [resolved[vs[0]]] + rest else rest
  }

  predicate AllPresent(vs: seq<VarId>, resolved: Resolved)
  {
    forall j :: 0 <= j < |vs| ==> vs[j] in resolved
  }

  // ---------------------------------------------------------------------------
  // Declarations: findMethod, findProperty, resolveDeclaredType
  // ---------------------------------------------------------------------------

  /** The statements of the declaration a class-index entry points at. */
  function StmtsOf(ctx: Context, ref: DeclRef): seq<Stmt>
  {
    match ref
    case InterfaceRef(i) => if i < |ctx.interfaces| then ctx.interfaces[i].stmts else []
    case ClassRef(i) => if i < |ctx.classes| then ctx.classes[i].stmts else []
  }

  /** findProperty: the first Property statement whose name is exactly the value looked up. */
  function FindProperty(stmts: seq<Stmt>, name: Value): (r: Option<Stmt>)
    ensures r.Some? ==> r.value in stmts && r.value.Property? && name == LString(r.value.name)
    ensures r.None? <==> forall i :: 0 <= i < |stmts| ==> !(stmts[i].Property? && name == LString(stmts[i].name))
  {
    if stmts == [] then None
    else if stmts[0].Property? && name == LString(stmts[0].name) then Some(stmts[0])
    else
      var r := FindProperty(stmts[1..], name);
      assert forall i :: 1 <= i < |stmts| ==> stmts[i] == stmts[1..][i - 1];
      r
  }

  /** The first method whose lower-cased name is `name`. */
  function FindMethodNamed(stmts: seq<Stmt>, name: string): (r: Option<Stmt>)
    ensures r.Some? ==> r.value in stmts && r.value.ClassMethod? && Lower(r.value.name) == name
    ensures r.None? <==> forall i :: 0 <= i < |stmts| ==> !(stmts[i].ClassMethod? && Lower(stmts[i].name) == name)
  {
    if stmts == [] then None
    else if stmts[0].ClassMethod? && Lower(stmts[0].name) == name then Some(stmts[0])
    else
      var r := FindMethodNamed(stmts[1..], name);
      assert forall i :: 1 <= i < |stmts| ==> stmts[i] == stmts[1..][i - 1];
      r
  }

  /** findMethod: the method called `name`, else (for any other name) the class's `__call`. */
  function FindMethod(stmts: seq<Stmt>, name: string): (r: Option<Stmt>)
    ensures FindMethodNamed(stmts, name).Some? ==> r == FindMethodNamed(stmts, name)
    ensures FindMethodNamed(stmts, name).None? ==> r == (if name != "__call" then FindMethodNamed(stmts, "__call") else None)
  {
    match FindMethodNamed(stmts, name)
    case Some(m) => Some(m)
    case None => if name != "__call" then FindMethodNamed(stmts, "__call") else None
  }

  /** resolveDeclaredType: only a literal type name converts; any other shape falls off the `: Type` function. */
  function ResolveDeclaredType(d: DeclaredType): (r: Result<Type>)
    ensures d.DeclaredOther? ==> r == Err(MissingDeclaredType)
    ensures d.DeclaredLiteral? ==> r == FromDecl(d.name)
  {
    match d
    case DeclaredLiteral(name) => FromDecl(name)
    case DeclaredOther => Err(MissingDeclaredType)
  }

  // ---------------------------------------------------------------------------
  // getClassType, resolveProperty, resolveClassConstant, resolveMethodCall
  // ---------------------------------------------------------------------------

  /**
   * getClassType: a literal names its class; $this-like bound variables are typed from
   * their owner's name; any other operand only when it is resolved to an object type.
   */
  function GetClassType(ctx: Context, v: VarId, resolved: Resolved): (r: Result<Option<Type>>)
    ensures KindOf(ctx, v).Literal? ==> r == Ok(Some(Object(ValueText(KindOf(ctx, v).value))))
    ensures !KindOf(ctx, v).Literal? && !(KindOf(ctx, v).BoundVariable? && KindOf(ctx, v).objectScope) ==>
      r == (if v in resolved && resolved[v].Object? then Ok(Some(resolved[v])) else Ok(None))
  {
    match KindOf(ctx, v)
    case Literal(value) => Ok(Some(Object(ValueText(value))))
    case BoundVariable(objectScope, extra) =>
      if objectScope then
        match FromDeclValue(extra)
        case Err(e) => Err(e)
        case Ok(t) => Ok(Some(t))
      else if v in resolved && resolved[v].Object? then Ok(Some(resolved[v]))
      else Ok(None)
    case Temporary =>
      if v in resolved && resolved[v].Object? then Ok(Some(resolved[v])) else Ok(None)
  }

  /** The declaration has a property of that name whose type is still unset. */
  predicate Untyped(ctx: Context, ref: DeclRef, name: Value)
  {
    FindProperty(StmtsOf(ctx, ref), name).Some? && FindProperty(StmtsOf(ctx, ref), name).value.ptype.None?
  }

  /** The declaration's property of that name has type t. */
  predicate Declares(ctx: Context, ref: DeclRef, name: Value, t: Type)
  {
    FindProperty(StmtsOf(ctx, ref), name).Some? && FindProperty(StmtsOf(ctx, ref), name).value.ptype == Some(t)
  }

  /**
   * The property types over the declarations of one class-index entry, in entry order:
   * None as soon as a matching property is untyped.
   */
  function PropertyTypes(ctx: Context, entry: PhpArray<DeclRef>, name: Value): (r: Option<seq<Type>>)
    ensures r.Some? ==> |r.value| <= |entry|
  {
    if entry == [] then Some([])
    else
      var rest := PropertyTypes(ctx, entry[1..], name);
      match FindProperty(StmtsOf(ctx, entry[0].1), name)
      case None => rest
      case Some(p) =>
        if p.ptype.None? then None
        else match rest
          case None => None
          case Some(more) => Some([p.ptype.value] + more)
  }

  /** resolveProperty: the declared types of the property in every class the object type resolves to. */
  function ResolveProperty(ctx: Context, objType: Type, name: Value): Candidates
  {
    if !objType.Object? then NoCandidates
    else
      var ut := Lower(objType.name);
      if ut !in ctx.classResolves then NoCandidates
      else match PropertyTypes(ctx, ctx.classResolves[ut], name)
        case None => NoCandidates
        case Some(ts) => if ts == [] then NoCandidates else Give(ts)
  }

  /** The value operands of the constants `name::constName`, name by name (the undeclared ones contribute nothing). */
  function ConstantOperands(ctx: Context, names: seq<string>, constName: string): seq<VarId>
  {
    if names == [] then []
    else
      var key := names[0] + "::" + constName;
      (if key in ctx.constants then ctx.constants[key] else []) + ConstantOperands(ctx, names[1..], constName)
  }

  lemma {:induction false} LookupsAppend(a: seq<VarId>, b: seq<VarId>, resolved: Resolved)
    ensures Lookups(a + b, resolved) ==
      match (Lookups(a, resolved), Lookups(b, resolved))
      case (Some(x), Some(y)) => Some(x + y)
      case _ => None
  {
    if a == [] {
      assert a + b == b;
      assert Lookups(a, resolved) == Some([]);
      if Lookups(b, resolved).Some? {
        assert [] + Lookups(b, resolved).value == Lookups(b, resolved).value;
      }
    } else {
      assert (a + b)[0] == a[0] && (a + b)[1..] == a[1..] + b;
      LookupsAppend(a[1..], b, resolved);
      if a[0] in resolved && Lookups(a[1..], resolved).Some? && Lookups(b, resolved).Some? {
        var x, y := Lookups(a[1..], resolved).value, Lookups(b, resolved).value;
        assert [resolved[a[0]]] + (x + y) == ([resolved[a[0]]] + x) + y;
      }
    }
  }

  /**
   * The constants `name::constName` over the names, in order, failing when one of their
   * values is unresolved: exactly the lookup of all their value operands at once.
   */
  function InheritedConstants(ctx: Context, names: seq<string>, constName: string, resolved: Resolved): (r: Option<seq<Type>>)
    ensures r == Lookups(ConstantOperands(ctx, names, constName), resolved)
  {
    if names == [] then Some([])
    else
      var rest := InheritedConstants(ctx, names[1..], constName, resolved);
      var key := names[0] + "::" + constName;
      var here := if key in ctx.constants then Lookups(ctx.constants[key], resolved) else Some([]);
      LookupsAppend(if key in ctx.constants then ctx.constants[key] else [], ConstantOperands(ctx, names[1..], constName), resolved);
      match here
      case None => None
      case Some(ts) =>
        match rest
        case None => None
        case Some(more) => Some(ts + more)
  }

  /**
   * resolveClassConstant: a constant declared as `cls::name` wins; otherwise, for a class
   * the index knows, the constants of that name in every class in classResolves[cls].
   */
  function ResolveClassConstant(ctx: Context, cls: string, constName: string, resolved: Resolved): Candidates
  {
    var direct := cls + "::" + constName;
    if direct in ctx.constants then
      match Lookups(ctx.constants[direct], resolved)
      case None => NoCandidates
      case Some(ts) => Give(ts)
    else if cls !in ctx.classResolvedBy then NoCandidates
    else match InheritedConstants(ctx, Keys(Entry(ctx.classResolves, cls)), constName, resolved)
      case None => NoCandidates
      case Some(ts) => if ts == [] then NoCandidates else Give(ts)
  }

  /** The return types an internal class and its listed parents declare for a method, where declared. */
  function InternalReturns(info: InternalInfo, children: seq<string>, name: string): (r: Result<seq<Type>>)
    ensures r.Ok? ==> |r.value| <= |children|
  {
    if children == [] then Ok([])
    else
      var child := children[0];
      var here :=
        if child in info.methods && name in info.methods[child].methods && Truthy(info.methods[child].methods[name])
        then match FromDecl(info.methods[child].methods[name])
          case Err(e) => Err(e)
          case Ok(t) => Ok([t])
        else Ok([]);
      match here
      case Err(e) => Err(e)
      case Ok(ts) =>
        match InternalReturns(info, children[1..], name)
        case Err(e) => Err(e)
        case Ok(more) => Ok(ts + more)
  }

  /** One method's type: the doc-comment type when the resolver accepts it against the declared type, else the declared one. */
  function MethodType(ctx: Context, m: Stmt): (r: Result<Type>)
    requires m.ClassMethod?
    ensures r.Ok? ==> ExtractTypeFromComment(ReturnTag, m.doc).Ok? && ResolveDeclaredType(m.returnType).Ok?
    ensures r.Ok? ==>
      r.value == (if ctx.resolver(ExtractTypeFromComment(ReturnTag, m.doc).value, ResolveDeclaredType(m.returnType).value)
                  then ExtractTypeFromComment(ReturnTag, m.doc).value else ResolveDeclaredType(m.returnType).value)
  {
    match ExtractTypeFromComment(ReturnTag, m.doc)
    case Err(e) => Err(e)
    case Ok(doc) =>
      match ResolveDeclaredType(m.returnType)
      case Err(e) => Err(e)
      case Ok(decl) => Ok(if ctx.resolver(doc, decl) then doc else decl)
  }

  /** The method types over the declarations of one class-index entry, skipping those without the method. */
  function MethodReturns(ctx: Context, entry: PhpArray<DeclRef>, name: string): (r: Result<seq<Type>>)
    ensures r.Ok? ==> |r.value| <= |entry|
    ensures r.Ok? && r.value == [] ==> forall i :: 0 <= i < |entry| ==> FindMethod(StmtsOf(ctx, entry[i].1), name).None?
  {
    if entry == [] then Ok([])
    else
      var here :=
        match FindMethod(StmtsOf(ctx, entry[0].1), name)
        case None => Ok([])
        case Some(m) =>
          match MethodType(ctx, m)
          case Err(e) => Err(e)
          case Ok(t) => Ok([t]);
      match here
      case Err(e) => Err(e)
      case Ok(ts) =>
        match MethodReturns(ctx, entry[1..], name)
        case Err(e) => Err(e)
        case Ok(more) =>
          assert forall i :: 1 <= i < |entry| ==> entry[i] == entry[1..][i - 1];
          Ok(ts + more)
  }

  /** The method types for a lower-cased class name: from the class index, else from the internal tables. */
  function MethodsOf(ctx: Context, className: string, name: string): Candidates
  {
    if className !in ctx.classResolves then
      if className in ctx.internal.methods then
        match InternalReturns(ctx.internal, ctx.internal.methods[className].children, name)
        case Err(e) => Err(e)
        case Ok(ts) => if ts == [] then NoCandidates else Give(ts)
      else NoCandidates
    else
      match MethodReturns(ctx, ctx.classResolves[className], name)
      case Err(e) => Err(e)
      case Ok(ts) => if ts == [] then NoCandidates else Give(ts)
  }

  /**
   * resolveMethodCall: the method name must be a literal; the receiver must be resolved,
   * to an object type or, for a literal class name, to a string; a string-typed
   * receiver that is not a literal gives mixed.
   */
  function ResolveMethodCall(ctx: Context, cls: VarId, n: VarId, resolved: Resolved): Candidates
  {
    match KindOf(ctx, n)
    case Literal(nv) =>
      (match NameOf(nv)
       case Err(e) => Err(e)
       case Ok(raw) =>
        var name := Lower(raw);
        if cls !in resolved then NoCandidates
        else if resolved[cls].String? then
          (match KindOf(ctx, cls)
           case Literal(cv) =>
             (match NameOf(cv)
              case Err(e) => Err(e)
              case Ok(u) => MethodsOf(ctx, Lower(u), name))
           case _ => Give([Mixed()]))
        else if !resolved[cls].Object? then NoCandidates
        else MethodsOf(ctx, Lower(resolved[cls].name), name))
    case _ => NoCandidates
  }

  // ---------------------------------------------------------------------------
  // processAssertion / processTypeAssertion
  // ---------------------------------------------------------------------------

  /**
   * processTypeAssertion: a literal names a type (fromDecl), a variable stands for its
   * resolved type, and a composite is the unsimplified Union or Intersection of its parts.
   */
  function ProcessTypeAssertion(ctx: Context, ta: TypeAssertion, resolved: Resolved): (r: Result<Option<Type>>)
    decreases ta
  {
    match ta
    case OperandAssertion(v) =>
      (match KindOf(ctx, v)
       case Literal(value) =>
         (match FromDeclValue(value)
          case Err(e) => Err(e)
          case Ok(t) => Ok(Some(t)))
       case _ => if v in resolved then Ok(Some(resolved[v])) else Ok(None))
    case CompositeAssertion(isUnion, subs) =>
      match ProcessSubAssertions(ctx, subs, resolved)
      case Err(e) => Err(e)
      case Ok(None) => Ok(None)
      case Ok(Some(ts)) => Ok(Some(if isUnion then Union(ts) else Intersection(ts)))
  }

  /** The sub-assertions in order, stopping at the first that is not resolved yet. */
  function ProcessSubAssertions(ctx: Context, subs: seq<TypeAssertion>, resolved: Resolved): (r: Result<Option<seq<Type>>>)
    ensures r.Ok? && r.value.Some? ==> |r.value.value| == |subs|
    decreases subs
  {
    if subs == [] then Ok(Some([]))
    else
      match ProcessTypeAssertion(ctx, subs[0], resolved)
      case Err(e) => Err(e)
      case Ok(None) => Ok(None)
      case Ok(Some(t)) =>
        match ProcessSubAssertions(ctx, subs[1..], resolved)
        case Err(e) => Err(e)
        case Ok(None) => Ok(None)
        case Ok(Some(ts)) => Ok(Some([t] + ts))
  }

  /**
   * processAssertion: a type assertion as above; a negated one removes the asserted type
   * from the source's resolved type, or from mixed() while the source is unresolved.
   */
  function ProcessAssertion(ctx: Context, a: Assertion, source: VarId, resolved: Resolved): (r: Result<Option<Type>>)
    decreases a
  {
    match a
    case TypeAssert(ta) => ProcessTypeAssertion(ctx, ta, resolved)
    case Negated(inner) =>
      match ProcessAssertion(ctx, inner, source, resolved)
      case Err(e) => Err(e)
      case Ok(None) => Ok(None)
      case Ok(Some(t)) =>
        var base := if source in resolved then resolved[source] else Mixed();
        match RemoveType(base, t)
        case Err(e) => Err(e)
        case Ok(narrowed) => Ok(Some(narrowed))
  }

  // ---------------------------------------------------------------------------
  // The resolveOp_* handlers
  // ---------------------------------------------------------------------------

  /** resolveOp_Expr_Array: an array of the merged element types, or an untyped array. */
  function ResolveOpArray(values: seq<VarId>, resolved: Resolved): Candidates
  {
    match Lookups(values, resolved)
    case None => NoCandidates
    case Some(types) =>
      if types == [] then Give([Array([])])
      else match ComputeMergedType(types)
        case Some(t) => Give([Array([t])])
        case None => Give([Array([])])
  }

  /** resolveOp_Expr_ArrayDimFetch: the members of a typed container, a string for a string, else mixed. */
  function ResolveOpArrayDimFetch(subject: VarId, resolved: Resolved): Candidates
  {
    if subject !in resolved then NoCandidates
    else if SubTypes(resolved[subject]) != [] then Give(SubTypes(resolved[subject]))
    else if resolved[subject].String? then Give([resolved[subject]])
    else Give([Mixed()])
  }

  /** Assign, AssignRef and Clone: the type of the assigned expression. */
  function PassThrough(e: VarId, resolved: Resolved): Candidates
  {
    if e in resolved then Give([resolved[e]]) else NoCandidates
  }

  /** The return types of same-named user functions: the declared type, else the doc comment's @return. */
  function FunctionReturns(fs: seq<FunctionDecl>): (r: Result<seq<Type>>)
    ensures r.Ok? ==> |r.value| == |fs|
    ensures r.Ok? ==> forall k :: 0 <= k < |fs| && fs[k].returnType.Some? ==> r.value[k] == fs[k].returnType.value
  {
    if fs == [] then Ok([])
    else
      var here := if fs[0].returnType.Some? then Ok(fs[0].returnType.value) else ExtractTypeFromComment(ReturnTag, fs[0].doc);
      match here
      case Err(e) => Err(e)
      case Ok(t) =>
        match FunctionReturns(fs[1..])
        case Err(e) => Err(e)
        case Ok(more) => Ok([t] + more)
  }

  /** resolveOp_Expr_FuncCall: user functions by lower-cased name first, then the internal function table. */
  function ResolveOpFuncCall(ctx: Context, n: VarId): Candidates
  {
    match KindOf(ctx, n)
    case Literal(value) =>
      (match NameOf(value)
       case Err(e) => Err(e)
       case Ok(raw) =>
         var name := Lower(raw);
         if name in ctx.functionLookup then
           match FunctionReturns(ctx.functionLookup[name])
           case Err(e) => Err(e)
           case Ok(ts) => Give(ts)
         else if name in ctx.internal.functions then
           var ret := ctx.internal.functions[name];
           if !Truthy(ret) then NoCandidates
           else match FromDecl(ret)
             case Err(e) => Err(e)
             case Ok(t) => Give([t])
         else NoCandidates)
    case _ => NoCandidates
  }

  /** resolveOp_Expr_New: the class type when it is known, otherwise a generic object. */
  function ResolveOpNew(ctx: Context, cls: VarId, resolved: Resolved): Candidates
  {
    match GetClassType(ctx, cls, resolved)
    case Err(e) => Err(e)
    case Ok(Some(t)) => Give([t])
    case Ok(None) => Give([Object("")])
  }

  /** resolveOp_Expr_Param: the declared type, made nullable by a `= null` default. */
  function ResolveOpParam(declared: DeclaredType, default: Option<DefaultStart>): Candidates
  {
    match ResolveDeclaredType(declared)
    case Err(e) => Err(e)
    case Ok(t) =>
      if default.Some? && default.value.ConstFetchNamed? && Lower(default.value.name) == "null"
      then Give([Simplify(Union([t, Null]))])
      else Give([t])
  }

  /** resolveOp_Expr_PropertyFetch (and StaticPropertyFetch): mixed for a variable name, else the property's types. */
  function ResolveOpPropertyFetch(ctx: Context, owner: VarId, n: VarId, resolved: Resolved): Candidates
  {
    match KindOf(ctx, n)
    case Literal(name) =>
      (match GetClassType(ctx, owner, resolved)
       case Err(e) => Err(e)
       case Ok(None) => NoCandidates
       case Ok(Some(t)) => ResolveProperty(ctx, t, name))
    case _ => Give([Mixed()])
  }

  /** resolveOp_Expr_Assertion. */
  function ResolveOpAssertion(ctx: Context, a: Assertion, e: VarId, resolved: Resolved): Candidates
  {
    match ProcessAssertion(ctx, a, e, resolved)
    case Err(err) => Err(err)
    case Ok(None) => NoCandidates
    case Ok(Some(t)) => Give([t])
  }

  /** resolveOp_Expr_ConstFetch: true/false/null by lower-cased name, else every declaration of the constant. */
  function ResolveOpConstFetch(ctx: Context, n: VarId, resolved: Resolved): Candidates
  {
    match KindOf(ctx, n)
    case Literal(value) =>
      (match NameOf(value)
       case Err(e) => Err(e)
       case Ok(raw) =>
         var c := Lower(raw);
         if c == "true" || c == "false" then Give([Boolean])
         else if c == "null" then Give([Null])
         else if raw in ctx.constants then
           match Lookups(ctx.constants[raw], resolved)
           case None => NoCandidates
           case Some(ts) => Give(ts)
         else NoCandidates)
    case _ => NoCandidates
  }

  /** resolveOp_Expr_ClassConstFetch: the class from a literal name or from a resolved, named object type. */
  function ResolveOpClassConstFetch(ctx: Context, cls: VarId, constName: string, resolved: Resolved): Candidates
  {
    match KindOf(ctx, cls)
    case Literal(value) =>
      (match NameOf(value)
       case Err(e) => Err(e)
       case Ok(raw) => ResolveClassConstant(ctx, Lower(raw), constName, resolved))
    case _ =>
      if cls !in resolved then NoCandidates
      else if !resolved[cls].Object? || !Truthy(resolved[cls].name) then NoCandidates
      else ResolveClassConstant(ctx, Lower(resolved[cls].name), constName, resolved)
  }

  // ---------------------------------------------------------------------------
  // The operator table of resolveVarOp
  // ---------------------------------------------------------------------------

  /** `+ - * /`: int with int is int, any other int/float mix is float, arrays merge their element types, anything else is mixed. */
  function Arithmetic(l: VarId, r: VarId, resolved: Resolved): Candidates
  {
    if l !in resolved || r !in resolved then NoCandidates
    else
      var a, b := resolved[l], resolved[r];
      if a.Long? && b.Long? then Give([Long])
      else if (a.Long? || a.Double?) && (b.Long? || b.Double?) then Give([Double])
      else if a.Array? && b.Array? then
        match ComputeMergedType(a.members + b.members)
        case Some(sub) => Give([Array([sub])])
        case None => Give([Array([])])
      else Give([Mixed()])
  }

  /** `& | ^`: string with string is a string, anything else an int. */
  function Bitwise(l: VarId, r: VarId, resolved: Resolved): Candidates
  {
    if l !in resolved || r !in resolved then NoCandidates
    else Give([if resolved[l].String? && resolved[r].String? then String else Long])
  }

  /** Unary minus and plus keep an int or a float and give numeric for anything else. */
  function Sign(e: VarId, resolved: Resolved): Candidates
  {
    if e !in resolved then NoCandidates
    else if resolved[e].Long? || resolved[e].Double? then Give([resolved[e]])
    else Give([Numeric()])
  }

  function BinaryRule(k: BinaryKind, l: VarId, r: VarId, resolved: Resolved): Candidates
  {
    match k
    case Equal => Give([Boolean])
    case NotEqual => Give([Boolean])
    case Greater => Give([Boolean])
    case GreaterOrEqual => Give([Boolean])
    case Identical => Give([Boolean])
    case NotIdentical => Give([Boolean])
    case Smaller => Give([Boolean])
    case SmallerOrEqual => Give([Boolean])
    case LogicalAnd => Give([Boolean])
    case LogicalOr => Give([Boolean])
    case LogicalXor => Give([Boolean])
    case BitwiseAnd => Bitwise(l, r, resolved)
    case BitwiseOr => Bitwise(l, r, resolved)
    case BitwiseXor => Bitwise(l, r, resolved)
    case Div => Arithmetic(l, r, resolved)
    case Plus => Arithmetic(l, r, resolved)
    case Minus => Arithmetic(l, r, resolved)
    case Mul => Arithmetic(l, r, resolved)
    case Concat => Give([String])
    case Mod => Give([Long])
    case ShiftLeft => Give([Long])
    case ShiftRight => Give([Long])
    case BooleanAnd => Err(UnknownOp)
    case BooleanOr => Err(UnknownOp)
    case Coalesce => Err(UnknownOp)
    case Pow => Err(UnknownOp)
    case Spaceship => Err(UnknownOp)
  }

  /** The casts: fixed types, except the object cast, which errors once its operand is resolved. */
  function CastRule(c: CastKind, e: VarId, resolved: Resolved): Candidates
  {
    match c
    case CastBool => Give([Boolean])
    case CastString => Give([String])
    case CastInt => Give([Long])
    case CastDouble => Give([Double])
    case CastArray => Give([Array([])])
    case CastObject => if e in resolved then Err(CallOnNonObject) else NoCandidates
    case CastUnset => Err(UnknownOp)
  }

  /** `after` differs from `before` at most by an entry for v. */
  predicate OnlyWrites(before: Resolved, after: Resolved, v: VarId)
  {
    before.Keys <= after.Keys <= before.Keys + {v} &&
    forall k :: k in before && k != v ==> after[k] == before[k]
  }

  /** The answer of one handler, and the resolved map it leaves behind. */
  datatype Step = Step(answer: Candidates, resolved: Resolved)

  /**
   * resolveOp_Phi: the merge of the resolved incoming operands. With every operand
   * resolved it is the answer; otherwise it is stored under the Phi's own operand
   * for the next round and the handler still fails.
   */
  function ResolveOpPhi(v: VarId, vars: seq<VarId>, resolved: Resolved): (r: Step)
    ensures OnlyWrites(resolved, r.resolved, v)
  {
    var types := Present(vars, resolved);
    if types == [] then Step(NoCandidates, resolved)
    else match ComputeMergedType(types)
      case None => Step(NoCandidates, resolved)
      case Some(t) =>
        if AllPresent(vars, resolved) then Step(Give([t]), resolved)
        else Step(NoCandidates, resolved[v := t])
  }

  /** resolveVarOp: dispatch on the op kind; an op kind it does not know is an error. */
  function ResolveVarOp(ctx: Context, v: VarId, op: Op, resolved: Resolved): (r: Step)
    ensures !op.Phi? ==> r.resolved == resolved
    ensures OnlyWrites(resolved, r.resolved, v)
  {
    match op
    case Phi(vars) => ResolveOpPhi(v, vars, resolved)
    case _ => Step(Rule(ctx, op, resolved), resolved)
  }

  /** The handlers of every op kind but Phi. */
  function Rule(ctx: Context, op: Op, resolved: Resolved): Candidates
  {
    match op
    case InstanceOf => Give([Boolean])
    case BooleanNot => Give([Boolean])
    case Empty => Give([Boolean])
    case Isset => Give([Boolean])
    case IteratorValid => Give([Boolean])
    case ConcatList => Give([String])
    case Print => Give([Long])
    case Exit => Give([Null])
    case IteratorReset => Give([Null])
    case IteratorKey(_) => NoCandidates
    case IteratorValue(s) =>
      if s in resolved && SubTypes(resolved[s]) != [] then Give(SubTypes(resolved[s])) else NoCandidates
    case BinaryOp(k, l, r) => BinaryRule(k, l, r, resolved)
    case BitwiseNot(e) =>
      if e in resolved then Give([if resolved[e].String? then String else Long]) else NoCandidates
    case UnaryMinus(e) => Sign(e, resolved)
    case UnaryPlus(e) => Sign(e, resolved)
    case Cast(c, e) => CastRule(c, e, resolved)
    case Eval => NoCandidates
    case Yield => NoCandidates
    case Include => NoCandidates
    case ArrayLiteral(values) => ResolveOpArray(values, resolved)
    case ArrayDimFetch(s) => ResolveOpArrayDimFetch(s, resolved)
    case Assign(e) => PassThrough(e, resolved)
    case AssignRef(e) => PassThrough(e, resolved)
    case Clone(e) => PassThrough(e, resolved)
    case Closure => Give([Object("Closure")])
    case FuncCall(n) => ResolveOpFuncCall(ctx, n)
    case New(c) => ResolveOpNew(ctx, c, resolved)
    case Param(d, default) => ResolveOpParam(d, default)
    case PropertyFetch(s, n) => ResolveOpPropertyFetch(ctx, s, n, resolved)
    case StaticPropertyFetch(c, n) => ResolveOpPropertyFetch(ctx, c, n, resolved)
    case AssertionOp(a, e) => ResolveOpAssertion(ctx, a, e, resolved)
    case ConstFetch(n) => ResolveOpConstFetch(ctx, n, resolved)
    case ClassConstFetch(c, name) => ResolveOpClassConstFetch(ctx, c, name, resolved)
    case StaticCall(c, n) => ResolveMethodCall(ctx, c, n, resolved)
    case MethodCall(s, n) => ResolveMethodCall(ctx, s, n, resolved)
    case Phi(_) => NoCandidates
    case OtherOp => Err(UnknownOp)
  }

  // ---------------------------------------------------------------------------
  // resolveVar
  // ---------------------------------------------------------------------------

  /** The candidates of every producer in order, threading the Phi writes; None once one producer fails. */
  function Collect(ctx: Context, v: VarId, ops: seq<Op>, resolved: Resolved): (r: Step)
    ensures OnlyWrites(resolved, r.resolved, v)
    ensures r.answer.Ok? && r.answer.value.Some? ==> |r.answer.value.value| >= |ops|
  {
    if ops == [] then Step(Give([]), resolved)
    else
      var s := ResolveVarOp(ctx, v, ops[0], resolved);
      match s.answer
      case Err(e) => Step(Err(e), s.resolved)
      case Ok(None) => Step(NoCandidates, s.resolved)
      case Ok(Some(ts)) =>
        if ts == [] then Step(NoCandidates, s.resolved)
        else
          var rest := Collect(ctx, v, ops[1..], s.resolved);
          match rest.answer
          case Ok(Some(more)) => Step(Give(ts + more), rest.resolved)
          case _ => rest
  }

  /** What resolveVar gives: an exception, no type (`false`), or the merged type, and the resolved map after it. */
  datatype Outcome = Outcome(result: Result<Option<Type>>, resolved: Resolved)

  /** resolveVar: every producer must answer with candidates, and there must be at least one; then they are merged. */
  function ResolveVar(ctx: Context, v: VarId, ops: seq<Op>, resolved: Resolved): (r: Outcome)
    ensures ops == [] ==> r == Outcome(Ok(None), resolved)
    ensures OnlyWrites(resolved, r.resolved, v)
  {
    var c := Collect(ctx, v, ops, resolved);
    match c.answer
    case Err(e) => Outcome(Err(e), c.resolved)
    case Ok(None) => Outcome(Ok(None), c.resolved)
    case Ok(Some(types)) =>
      if types == [] then Outcome(Ok(None), c.resolved)
      else Outcome(Ok(ComputeMergedType(types)), c.resolved)
  }
}
