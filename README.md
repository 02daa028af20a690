# php-types in Dafny

A Dafny model of the core of php-types, a type reconstructor for PHP. It reads a PHP
script's control-flow graph after it has been put in SSA form. It gives every operand a
type: a precise one where the rules can derive it, `unknown` otherwise.

The model covers three parts of the library:

- **The type lattice** (`Type`). These are the primitive types: null, bool, int, float,
  string, callable and object. Objects may carry a class name. There are also arrays of a
  member type, and unions and intersections. The model includes:
  - parsing of type declarations (`fromDecl`, `parseCompexDecl`);
  - doc comments (`@var`, `@return`);
  - literal values;
  - `simplify`, which flattens nested combinators;
  - structural `equals`, which is positional for members and ignores case for class names;
  - `removeType`;
  - `allowsNull`.
- **The program state** (`State`). This covers:
  - collecting ops of one kind from every reachable block (`findTypedBlock`);
  - the function lookup by lower-cased name;
  - the class-hierarchy index `classResolves`. It maps each class or interface to itself,
    its implementors and its direct subclasses. `classResolvedBy` is its inverse.
- **The reconstructor** (`TypeReconstructor`). This covers:
  - seeding from known types and literals;
  - the rounds that try every unresolved operand until a round adds nothing;
  - `resolveVar`, which merges the candidates of every producing op;
  - one rule per op kind: operators, casts, calls, `new`, properties, constants, assertions
    and Phi merges;
  - the final write-back, which marks what stayed unresolved as `unknown`.

PHP exceptions and TypeErrors raised along the way become `Err` values of a `Result`.
A handler's `false` becomes `None`. `SplObjectStorage` maps become Dafny maps from operand
numbers to types. PHP's ordered arrays become sequences of key/value pairs (`PhpArrays`).
Only `State`'s own fields are updated in place, so it is a class. Its methods carry loop
invariants and are proved equal to the functions that specify them. The rules are pure
functions. The rounds take `resolveVar` as a function value (`ResolverOf`). Its type
(`VarResolver`) only admits resolvers that write the operand they are given and no other.

## Model

| member | source | states |
|---|---|---|
| Types.Make | lib/PHPTypes/Type.php:72-85 | a composite type built from a tag keeps that tag and exactly the given members |
| Types.Simplify | lib/PHPTypes/Type.php:270-286 | simplification keeps the type's tag, never grows it, and leaves objects alone |
| TypeFacts.SimplifyIsSimplified | lib/PHPTypes/Type.php:270-286 | after simplify no union holds a union and no intersection holds an intersection, at any depth |
| TypeFacts.SimplifiedIsFixed | lib/PHPTypes/Type.php:270-286 | an already flat type is returned unchanged by simplify |
| TypeFacts.SimplifyIdempotent | lib/PHPTypes/Type.php:270-286 | simplifying twice is simplifying once |
| TypeFacts.SimplifyFlattens | lib/PHPTypes/Type.php:270-286 | a union's (intersection's) simplified members are the simplified leaves of its nested unions (intersections), in order |
| TypeFacts.NestedUnionFlattens | lib/PHPTypes/Type.php:270-286 | the union of (the union of a and b) and c simplifies like the flat union of a, b and c |
| TypeFacts.SimplifyKeepsAllowsNull | lib/PHPTypes/Type.php:210-231 | simplify does not change whether a type admits null |
| TypeFacts.AllowsNullLeaves | lib/PHPTypes/Type.php:210-231 | a type admits null exactly when null is one of its union leaves |
| TypeFacts.IntersectionNeverAllowsNull | lib/PHPTypes/Type.php:210-231 | an intersection never admits null, whatever its members |
| TypeFacts.EqualsReflexive | lib/PHPTypes/Type.php:381-415 | every type equals itself |
| TypeFacts.EqualsSymmetric | lib/PHPTypes/Type.php:381-415 | equality is symmetric |
| TypeFacts.EqualsTransitive | lib/PHPTypes/Type.php:381-415 | equality is transitive |
| Types.MembersEqualAt | lib/PHPTypes/Type.php:393-412 | member lists are equal exactly when they have the same length and are equal position by position |
| TypeFacts.UnionOrderMatters | lib/PHPTypes/Type.php:389-412 | the union of int and string is not equal to the union of string and int; class names compare without case |
| Types.Keep | lib/PHPTypes/Type.php:430-435 | the kept members are members of the input, none of them equal to the removed type |
| Types.KeepAppend | lib/PHPTypes/Type.php:430-435 | the survivors of two runs of members are those of the first run followed by those of the second, so the survivors keep their order |
| Types.KeepSingle | lib/PHPTypes/Type.php:430-435 | a single member survives exactly when it does not equal the removed type |
| Types.KeepCounts | lib/PHPTypes/Type.php:430-435 | removing keeps every other member with its multiplicity and drops every equal one |
| Types.RemoveType | lib/PHPTypes/Type.php:420-444 | a simple type equal to the removed one becomes null, and any other simple type is kept; removing every member of a composite raises; one survivor is returned bare, and several keep the composite's tag |
| TypeFacts.RemoveNullFromNullable | lib/PHPTypes/Type.php:420-444 | removing null from the union of T and null gives back T |
| TypeFacts.RemoveLeadingNull | lib/PHPTypes/Type.php:420-444 | removing null from a union that starts with null leaves the rest of the union |
| TypeFacts.RemoveNullFromMixed | lib/PHPTypes/Type.php:168-179 | removing null from mixed leaves the union of the other primitives |
| TypeFacts.RemoveSelfIsNull | lib/PHPTypes/Type.php:420-444 | a simple type minus itself is null |
| TypeFacts.MixedAllowsNull | lib/PHPTypes/Type.php:168-179 | mixed admits null |
| TypeFacts.MixedFacts | lib/PHPTypes/Type.php:168-198 | mixed, the union of the primitives, is already simplified |
| TypeFacts.NumericFacts | lib/PHPTypes/Type.php:159-166 | numeric does not admit null and is simplified |
| Types.FromValue | lib/PHPTypes/Type.php:360-376 | an int, bool, float or string literal gets its type; null raises |
| PhpStrings.Lower | lib/PHPTypes/Type.php:315 | strtolower maps exactly the ASCII capitals and keeps the length |
| PhpStrings.LowerIdempotent | lib/PHPTypes/Type.php:315 | lower-casing twice is lower-casing once |
| PhpStrings.IndexOf | lib/PHPTypes/Type.php:485-486 | the position found is the first occurrence of the character, and none is found only when it is absent |
| DeclParser.FromDecl | lib/PHPTypes/Type.php:293-355 | a parsed declaration is simplified and is never unknown |
| DeclFacts.QualifiedChars | lib/PHPTypes/Type.php:349 | a name the class-name pattern accepts starts with an identifier start, ends with an identifier character and holds only those and backslashes |
| DeclFacts.ClassNameLeaf | lib/PHPTypes/Type.php:349-354 | a qualified name that is no keyword declares an object of that class, with the name as written |
| DeclFacts.BadLeaf | lib/PHPTypes/Type.php:340-351 | any other text without combinators, parentheses or an array suffix that the class-name pattern rejects raises as an unknown declaration |
| DeclFacts.HyphenIsUnknown | lib/PHPTypes/Type.php:349-351 | `a-b` raises as an unknown declaration |
| DeclParser.GroupEnd | lib/PHPTypes/Type.php:466-478 | the closing parenthesis found is the first position where the nesting depth returns to zero; none is found when the depth never does |
| DeclParser.SplitPoint | lib/PHPTypes/Type.php:485-496 | the split point is the leftmost union or intersection sign, and there is none only when neither occurs |
| DeclParser.FromDeclValue | lib/PHPTypes/Type.php:293-300 | a declaration that is not a string raises; a string is parsed |
| DeclParser.ExtractTypeFromComment | lib/PHPTypes/Type.php:240-268 | without a comment or without the tag the type is mixed; otherwise it is the type parsed from the first tag's token |
| DeclFacts.EmptyDeclarations | lib/PHPTypes/Type.php:301-303 | an empty declaration and `"0"` raise |
| DeclFacts.KeywordAnyCase | lib/PHPTypes/Type.php:315-339 | the built-in type keywords are recognised in any letter case |
| DeclFacts.LeadingBackslash | lib/PHPTypes/Type.php:304-305 | a leading backslash is ignored |
| DeclFacts.NullablePrefix | lib/PHPTypes/Type.php:306-314 | `?T` is the simplified union of T and null, and admits null |
| DeclFacts.ArraySuffix | lib/PHPTypes/Type.php:344-348 | `T[]` is an array of T |
| DeclFacts.SplitsAtLeftmost | lib/PHPTypes/Type.php:461-512 | a declaration with a combinator splits at the first one into the simplified union or intersection of both sides |
| DeclFacts.ChainAssociatesRight | lib/PHPTypes/Type.php:461-512 | a chain `a op b op c` groups to the right |
| DeclFacts.ChainOuterNode | lib/PHPTypes/Type.php:461-512 | the outer node of a chain is the first combinator's kind |
| DeclFacts.NumericIsIntOrFloat | lib/PHPTypes/Type.php:337-338 | `numeric` parses to the same type as the declaration of int or float |
| DeclFacts.IntOrFloat | lib/PHPTypes/Type.php:337-338 | `int|float` in any letter case splits at the bar into its two keywords and simplifies to the `numeric` union |
| DeclFacts.LeadingCombinator | lib/PHPTypes/Type.php:497-499 | a declaration starting with a combinator raises |
| DeclFacts.Unclosed | lib/PHPTypes/Type.php:466-478 | an unclosed parenthesis raises |
| DeclFacts.FlatGroupEnd | lib/PHPTypes/Type.php:466-475 | a parenthesised group without nesting ends at its own closing parenthesis |
| DeclFacts.TextAfterGroup | lib/PHPTypes/Type.php:479-481 | a group followed by anything but a combinator raises |
| DeclFacts.VarTagToken | lib/PHPTypes/Type.php:247-250 | `@var T` gives the type of T |
| DeclFacts.TagFirst | lib/PHPTypes/Type.php:240-268 | a comment that starts with the tag gives the type of the token after it |
| PhpArrays.FindFirst | lib/PHPTypes/State.php:186-228 | the position found is the key's first position; none is found only when the key is absent |
| PhpArrays.PutInPlace | lib/PHPTypes/State.php:186-228 | writing an existing key replaces its value in place, and a new key is appended |
| PhpArrays.PutKeys | lib/PHPTypes/State.php:186-228 | after a write the keys are the old ones plus the key written |
| PhpArrays.PutUnique | lib/PHPTypes/State.php:186-228 | writes keep keys unique |
| Cfg.ClosedHoldsReachable | lib/PHPTypes/State.php:103-135 | a set holding the root and closed under successor edges holds the end of every path from the root |
| Cfg.OpsOfKind | lib/PHPTypes/State.php:112-115 | the ops collected from a block are ops of that block of the requested kind, and no more of them than the block has |
| Cfg.OpsOfKindHas | lib/PHPTypes/State.php:112-115 | every op of the block of the requested kind is collected |
| Cfg.OpsOfKindAppend | lib/PHPTypes/State.php:112-115 | collecting over two runs of ops is collecting over the first and then the second, so the collected ops keep the block's order |
| Cfg.OpsOfKindSingle | lib/PHPTypes/State.php:112-115 | a single op is collected exactly when it has the requested kind |
| StateModel.Named | lib/PHPTypes/State.php:163-176 | the group of a name holds functions of that lower-cased name only |
| StateModel.NamedHas | lib/PHPTypes/State.php:163-176 | every function whose lower-cased name is the key is in its group |
| StateModel.NamedAppend | lib/PHPTypes/State.php:163-176 | the group of a name over two runs of functions is the first run's group followed by the second's, so declaration order is kept |
| StateModel.NamedSingle | lib/PHPTypes/State.php:163-176 | a single function belongs to the group of its own lower-cased name and to no other |
| StateModel.NamedNonEmpty | lib/PHPTypes/State.php:163-176 | a name has a function group exactly when some function has that lower-cased name |
| StateModel.State.BuildFunctionLookup | lib/PHPTypes/State.php:163-176 | the lookup has a key for each lower-cased name some function has, and maps it to the group `Named` gives, which holds every function of that name and only those, in declaration order |
| StateModel.State.Load | lib/PHPTypes/State.php:137-161 | the function lookup groups the functions by name, the method calls and `new` ops are those collected from the blocks reachable from each root, and the type matrix is the index and its inverse |
| StateModel.State.FindTypedBlock | lib/PHPTypes/State.php:103-135 | the blocks visited are exactly the blocks reachable from the root, each once and the root first; the result is the accumulator followed by the ops of the kind, block by block |
| StateModel.State.FindOpsOfKind | lib/PHPTypes/State.php:242-260 | the ops of a kind are collected over the blocks reachable from each script block |
| StateModel.State.FindNewCalls | lib/PHPTypes/State.php:242-250 | the `new` ops found are those of the reachable blocks, block by block |
| StateModel.State.FindMethodCalls | lib/PHPTypes/State.php:252-260 | the method-call ops found are those of the reachable blocks, block by block |
| StateModel.State.BuildIndex | lib/PHPTypes/State.php:178-229 | the index built in place equals the index function `Resolves` |
| StateModel.State.Invert | lib/PHPTypes/State.php:229-239 | classResolvedBy is exactly the inverse of classResolves |
| StateModel.State.ComputeTypeMatrix | lib/PHPTypes/State.php:178-240 | classResolves is the index and classResolvedBy is its inverse |
| StateModel.LinkInterface | lib/PHPTypes/State.php:206-211 | linking a class to an interface also links it to that interface's parents |
| StateModel.LinkImplements | lib/PHPTypes/State.php:202-212 | a class is linked under every interface it implements and their parents |
| StateModel.SeedOneInterface | lib/PHPTypes/State.php:186-197 | seeding one interface in place matches the seeding function |
| StateModel.SeedOneClass | lib/PHPTypes/State.php:198-216 | seeding one class in place matches the seeding function |
| TypeMatrix.Reset | lib/PHPTypes/State.php:186-200 | a declaration's own entry is reset to just itself, and other entries are kept |
| TypeMatrixFacts.SelfMember | lib/PHPTypes/State.php:178-240 | every interface and class resolves to itself |
| TypeMatrixFacts.ImplementsEdge | lib/PHPTypes/State.php:202-205 | an implemented interface resolves to the implementing class, unless a later class has the interface's name |
| TypeMatrixFacts.InheritedInterfaceEdge | lib/PHPTypes/State.php:206-211 | the parents of an implemented interface resolve to the implementing class |
| TypeMatrixFacts.InterfaceParentEdge | lib/PHPTypes/State.php:190-195 | a parent interface resolves to its child interface, unless a later declaration reuses the name |
| TypeMatrixFacts.ParentEdge | lib/PHPTypes/State.php:217-228 | a declared parent class resolves to its direct subclass |
| TypeMatrixFacts.ResolvesClosed | lib/PHPTypes/State.php:178-240 | every name listed in the index is itself a key of the index |
| TypeMatrixFacts.ResolvedByKeysResolve | lib/PHPTypes/State.php:229-239 | every name in classResolvedBy is known to classResolves |
| TypeMatrixFacts.SeedingDropsEarlierEdge | lib/PHPTypes/State.php:186-197 | an interface declared before its parent is not listed under the parent |
| TypeMatrixFacts.ExtendsIsOneLevel | lib/PHPTypes/State.php:213-228 | extension is recorded one level deep: a grandchild is not listed under its grandparent |
| Reconstructor.ComputeMergedType | lib/PHPTypes/TypeReconstructor.php:73-99 | one candidate is returned as is; with several, any unknown gives no type |
| ReconstructorFacts.MergeSeveral | lib/PHPTypes/TypeReconstructor.php:73-99 | with no candidate or several known ones: all equal to the first gives the first, otherwise the union of the candidates' simplified union leaves, in order |
| ReconstructorFacts.MergeNamesIgnoreCase | lib/PHPTypes/TypeReconstructor.php:73-99 | `A` and `a` merge into `A`, the first as written |
| ReconstructorFacts.MergeNothing | lib/PHPTypes/TypeReconstructor.php:73-99 | no candidates merge into the empty union |
| Reconstructor.ComputeMergedTypeAsWritten | lib/PHPTypes/TypeReconstructor.php:73-99 | the function as declared raises exactly where the merge gives no type |
| ReconstructorFacts.MergedIsSimplified | lib/PHPTypes/TypeReconstructor.php:73-99 | merging simplified candidates gives a simplified type, never unknown |
| ReconstructorFacts.MergeCopies | lib/PHPTypes/TypeReconstructor.php:73-99 | copies of one type merge to that type |
| ReconstructorFacts.MergeTwo | lib/PHPTypes/TypeReconstructor.php:73-99 | two different simple types merge to their union |
| ReconstructorFacts.MergeOrderMatters | lib/PHPTypes/TypeReconstructor.php:73-99 | the merge depends on the order of the candidates |
| ReconstructorFacts.MergeWithUnknownRaises | lib/PHPTypes/TypeReconstructor.php:73-99 | `[unknown, int]` gives no type; the function as declared raises on it |
| Reconstructor.Lookups | lib/PHPTypes/TypeReconstructor.php:262-280 | the operands' types, in order, exactly when all of them are resolved |
| Reconstructor.Present | lib/PHPTypes/TypeReconstructor.php:493-503 | the types of the resolved operands only, empty exactly when none is resolved |
| Reconstructor.FindProperty | lib/PHPTypes/TypeReconstructor.php:533-542 | the first property statement with exactly that name, none only when no property has it |
| Reconstructor.FindMethodNamed | lib/PHPTypes/TypeReconstructor.php:519-526 | the first method whose lower-cased name matches, none only when no method matches |
| Reconstructor.FindMethod | lib/PHPTypes/TypeReconstructor.php:519-531 | the named method, else the class's `__call` for any other name |
| Reconstructor.ResolveDeclaredType | lib/PHPTypes/TypeReconstructor.php:391-396 | a literal declared type is parsed; any other shape is a TypeError |
| Reconstructor.GetClassType | lib/PHPTypes/TypeReconstructor.php:596-614 | a literal names its class; any other operand that is not `$this` gives its resolved type only when that is an object type |
| Reconstructor.InheritedConstants | lib/PHPTypes/TypeReconstructor.php:575-588 | the constants over all resolving classes are the lookup of all their value operands at once |
| Reconstructor.MethodType | lib/PHPTypes/TypeReconstructor.php:743-751 | a method's type is its `@return` type when the resolver accepts it against the declared type, else the declared type |
| Reconstructor.MethodReturns | lib/PHPTypes/TypeReconstructor.php:738-757 | at most one type per resolving class; none only when no resolving class has the method or `__call` |
| Reconstructor.FunctionReturns | lib/PHPTypes/TypeReconstructor.php:355-366 | one type per user function of the name, the declared return type where there is one |
| ReconstructorFacts.PropertyTypesFails | lib/PHPTypes/TypeReconstructor.php:676-687 | a property lookup fails exactly when some resolving class declares the property untyped |
| ReconstructorFacts.PropertyTypesDeclared | lib/PHPTypes/TypeReconstructor.php:668-696 | every property type found is declared by some resolving class |
| ReconstructorFacts.PhiNoneResolved | lib/PHPTypes/TypeReconstructor.php:493-517 | a Phi with no resolved input gives nothing and writes nothing |
| ReconstructorFacts.PhiAllResolved | lib/PHPTypes/TypeReconstructor.php:493-517 | a Phi with every input resolved answers the merge of their types |
| ReconstructorFacts.PhiPartlyResolved | lib/PHPTypes/TypeReconstructor.php:493-517 | a partly resolved Phi fails but records the merge of the known inputs for the next round |
| ReconstructorFacts.NegatedNull | lib/PHPTypes/TypeReconstructor.php:616-636 | `!== null` narrows the source's type by removing null, or mixed's when the source is unresolved |
| ReconstructorFacts.NegatedNullNarrows | lib/PHPTypes/TypeReconstructor.php:616-636 | `!== null` on a source typed as the union of T and null gives T |
| ReconstructorFacts.NegatedNullOnUnresolved | lib/PHPTypes/TypeReconstructor.php:622-630 | `!== null` on an unresolved source gives mixed without null |
| ReconstructorFacts.NullDefaultMakesNullable | lib/PHPTypes/TypeReconstructor.php:398-408 | a parameter defaulting to null gets a nullable, simplified type; without a default it gets the declared type |
| ReconstructorFacts.CollectWithoutPhi | lib/PHPTypes/TypeReconstructor.php:101-123 | without Phi producers the candidates are collected exactly when every producer answers, and nothing is written |
| ReconstructorFacts.ResolveVarWithoutPhi | lib/PHPTypes/TypeReconstructor.php:101-123 | an operand gets a type only when it has producers and all of them answer |
| Reconstructor.Collect | lib/PHPTypes/TypeReconstructor.php:101-123 | only the operand being resolved can gain an entry in the resolved map, and every producer contributes at least one candidate |
| Reconstructor.ResolveVar | lib/PHPTypes/TypeReconstructor.php:101-123 | an operand without producers gets no type; only its own entry can be written |
| Reconstructor.ResolveVarOp | lib/PHPTypes/TypeReconstructor.php:125-260 | only the Phi rule writes to the resolved map, and only its own operand's entry |
| RuleFacts.RuleStable | lib/PHPTypes/TypeReconstructor.php:125-260 | once a rule answers, resolving more operands does not change the answer, except for `new` of an unresolved class and a negated assertion on an unresolved source |
| RuleFacts.ProcessAssertionStable | lib/PHPTypes/TypeReconstructor.php:616-661 | a processed assertion keeps its result as more operands resolve, once a negated assertion's source is resolved |
| RuleFacts.ResolveClassConstantStable | lib/PHPTypes/TypeReconstructor.php:555-594 | a class constant's types, once found, do not change |
| RuleFacts.OperatorWaitsForOperands | lib/PHPTypes/TypeReconstructor.php:149-224 | an operator answers exactly when its operands are resolved, and then always with candidates |
| RuleFacts.ArithmeticOnNumbers | lib/PHPTypes/TypeReconstructor.php:173-183 | int with int is int; any int/float mix is float |
| RuleFacts.ConstFetchNames | lib/PHPTypes/TypeReconstructor.php:444-470 | true, false and null are known in any case; another name needs a declared constant whose values are all resolved |
| RuleFacts.ConstFetchNeedsString | lib/PHPTypes/TypeReconstructor.php:446-447 | a constant name that is not a string is a TypeError |
| RuleFacts.FuncCallUserFunctions | lib/PHPTypes/TypeReconstructor.php:351-367 | a user function's call answers one candidate per declaration of the name, its declared return type where there is one |
| RuleFacts.MethodCallReceiver | lib/PHPTypes/TypeReconstructor.php:698-761 | a method call waits for its receiver; a non-literal string receiver gives mixed; an object receiver looks the method up by class name |
| Resolution.TypeClassStmts | lib/PHPTypes/TypeReconstructor.php:544-553 | typing one class body in a loop matches the function that types every property |
| Resolution.TypeStmtsPartial | lib/PHPTypes/TypeReconstructor.php:547-551 | partial typing of a class body keeps the number of statements |
| Resolution.PartialStmtsAt | lib/PHPTypes/TypeReconstructor.php:547-551 | a statement is left with its `@var` type exactly when it and every statement before it typed, and is left as it was otherwise |
| Resolution.PartialStmtsOk | lib/PHPTypes/TypeReconstructor.php:547-551 | when every property types, the body is left exactly as the typing function gives it |
| Resolution.PartialStmtsAbort | lib/PHPTypes/TypeReconstructor.php:547-551 | when the property at j is the first with a bad comment, the statements before it are typed and the rest are untouched |
| Resolution.PartialClassesAt | lib/PHPTypes/TypeReconstructor.php:546-552 | a class is left typed as far as its body typed when every class before it typed, and untouched otherwise |
| Resolution.PartialClassesOk | lib/PHPTypes/TypeReconstructor.php:546-552 | when every class types, the classes are left exactly as the typing function gives them |
| Resolution.PartialClassesAbort | lib/PHPTypes/TypeReconstructor.php:546-552 | when class i fails first, the classes before it are typed, it is partly typed, and the rest are untouched |
| Resolution.ResolveAllProperties | lib/PHPTypes/TypeReconstructor.php:544-553 | every property of every class gets its `@var` type in place, or the first parse error is raised with the properties typed before it left typed |
| ResolutionFacts.TypeStmtsSucceeds | lib/PHPTypes/TypeReconstructor.php:544-553 | typing a class body succeeds exactly when every property's doc comment parses |
| ResolutionFacts.TypeStmtsIdempotent | lib/PHPTypes/TypeReconstructor.php:544-553 | typing properties twice changes nothing the second time |
| ResolutionFacts.TypeClassesPointwise | lib/PHPTypes/TypeReconstructor.php:544-553 | typing classes succeeds exactly when every class body types, and then types each class on its own |
| ResolutionFacts.TypeClassesIdempotent | lib/PHPTypes/TypeReconstructor.php:544-553 | typing classes twice changes nothing the second time |
| Resolution.Attach | lib/PHPTypes/TypeReconstructor.php:38 | adding to the unresolved list adds exactly that operand |
| Resolution.SeedOne | lib/PHPTypes/TypeReconstructor.php:30-40 | a known type is kept and only recorded; an object-scope bound variable takes its declared type and a literal its value's type, on the operand and in the map, raising when the conversion raises; any other operand waits unresolved; no other operand's entry or type changes |
| Resolution.Seed | lib/PHPTypes/TypeReconstructor.php:30-40 | after seeding, every variable is resolved or unresolved, and nothing else is |
| ResolutionFacts.SeedReaches | lib/PHPTypes/TypeReconstructor.php:30-40 | seeding raises exactly when some variable's conversion raises; otherwise every variable has its own outcome and other operands keep their types |
| ResolutionFacts.SeedOutcome | lib/PHPTypes/TypeReconstructor.php:30-40 | after seeding, each variable is resolved to its known type, its declared type or its value's type, or waits unresolved with its type untouched, by kind |
| Resolution.SeedTypes | lib/PHPTypes/TypeReconstructor.php:30-40 | the operands' types after seeding, when seeding succeeds |
| Resolution.SeedTypesAbort | lib/PHPTypes/TypeReconstructor.php:30-40 | when variable i raises, the operands' types are those the variables before it wrote |
| Resolution.SeedStops | lib/PHPTypes/TypeReconstructor.php:30-40 | seeding stops at the first variable that raises, with its error, leaving what came before it written |
| Resolution.SeedAdvance | lib/PHPTypes/TypeReconstructor.php:30-40 | seeding one more operand extends the seeding of the prefix; if it raises, the whole seeding raises with that error and leaves the types the prefix wrote |
| Resolution.SeedVariables | lib/PHPTypes/TypeReconstructor.php:30-40 | the seeding loop matches the seeding function, and the types it leaves are those of `SeedTypes`, also when it raises |
| ResolutionFacts.SeedRecords | lib/PHPTypes/TypeReconstructor.php:30-40 | a seeded operand's type is recorded on the operand as well as in the resolved map |
| Resolution.Visit | lib/PHPTypes/TypeReconstructor.php:50-56 | a visit resolves at most the visited operand, and marks it for removal only when it resolved; finalising an operand that already had an entry adds no key |
| Resolution.RoundOver | lib/PHPTypes/TypeReconstructor.php:47-60 | a round only adds entries for operands of the round, and removes only operands it resolved |
| Resolution.RunRound | lib/PHPTypes/TypeReconstructor.php:47-60 | the round's loop matches the round function |
| ResolutionFacts.RoundKeysGrow | lib/PHPTypes/TypeReconstructor.php:49-56 | along a round the resolved map only gains keys |
| ResolutionFacts.RoundSeesEarlier | lib/PHPTypes/TypeReconstructor.php:49-56 | when the visit at position j of a round removes its operand from the unresolved list, that operand is a key of the map after the first i > j visits, the map the visit at position i reads |
| ResolutionFacts.RoundPrefixStep | lib/PHPTypes/TypeReconstructor.php:49-56 | the visit at position i runs on the map the first i visits left, and the round gets past i visits only if it got past the first i |
| ResolutionFacts.RemovedIsResolved | lib/PHPTypes/TypeReconstructor.php:50-53 | an operand a round removes from the unresolved list is a key of the round's map |
| Resolution.Without | lib/PHPTypes/TypeReconstructor.php:57-59 | detaching leaves exactly the operands not removed |
| Resolution.Detach | lib/PHPTypes/TypeReconstructor.php:57-59 | the detaching loop matches `Without` |
| Resolution.Rounds | lib/PHPTypes/TypeReconstructor.php:46-61 | the rounds only grow the resolved map, and every operand ends resolved or still unresolved |
| Resolution.RoundCount | lib/PHPTypes/TypeReconstructor.php:46-61 | the number of rounds is at most one more than the number of operands that can still resolve |
| Resolution.RunRounds | lib/PHPTypes/TypeReconstructor.php:46-61 | the do-while loop matches the rounds function |
| ResolutionFacts.RoundsStop | lib/PHPTypes/TypeReconstructor.php:46-61 | the rounds stop only when nothing is unresolved or the last round added no key |
| ResolutionFacts.RoundsBounded | lib/PHPTypes/TypeReconstructor.php:46-61 | the loop runs at most one round more than there are variables |
| Resolution.WriteTypes | lib/PHPTypes/TypeReconstructor.php:62-67 | the write-back stores resolved types and marks the unresolved as unknown |
| ResolutionFacts.WriteBackMarks | lib/PHPTypes/TypeReconstructor.php:62-67 | an unresolved operand ends as unknown; a resolved one ends with its resolved type |
| ResolutionFacts.ReconstructCovers | lib/PHPTypes/TypeReconstructor.php:23-68 | after a successful run every variable has a type, and other operands keep theirs |
| ResolutionFacts.ReconstructMarksUnknown | lib/PHPTypes/TypeReconstructor.php:42-67 | what the rounds leave unresolved ends unknown, and what they resolve ends with its type |
| Resolution.ResolvedTypes | lib/PHPTypes/TypeReconstructor.php:23-68 | the operands' types resolve leaves, which are those of the reconstruction when it succeeds |
| Resolution.Resolve | lib/PHPTypes/TypeReconstructor.php:23-68 | properties are typed first, then the operands' types become those of the reconstruction, or the error is raised; on an error the properties and operand types written before it stay written |
| Scenarios.AssignLiteral | lib/PHPTypes/TypeReconstructor.php:23-68 | `$x = 1;` gives both the literal and $x the type int |

## Left out

- `State::__construct` and `State::load` receive the parser's `Script`. The model's `State`
  constructor takes the extracted declarations, blocks and operands instead.
  `Load` then builds the function lookup, the call lists and the type matrix from them.
- The parser, the CFG builder and the SSA pass are not part of this model. Operands, ops
  and blocks are given as data.
- `TypeResolver::resolves`, used by `resolveMethodCall` to choose between the doc-comment
  type and the declared type, is not part of this model. It is the function parameter
  `resolver` of the context.
- The internal function and method tables (`internalTypeInfo`) are not part of this
  model. They are the `InternalInfo` maps.
- `Type::fromTypeDecl` is not part of this model. A user function's declared return type
  arrives already converted, or absent.
- `Expr_Cast_Object`: its handler calls `resolves()` on the operand's type, which is not a
  class. The model raises `CallOnNonObject` once the operand is resolved and waits before.
- `__toString`, `toString` and the `$typeCache` of `makeCachedType` are left out. They
  give no types, and caching does not change any type.
- The `param` branch of `extractTypeFromComment` is left out. Nothing in the core calls it.
- The diagnostics that are printed (`echo`, `var_dump`) are left out.
- The `RuntimeException` and `LogicException` for handler results that are not types are
  left out. In the model a handler's result always has the right shape.
- `findTypedBlock` iterates an `SplObjectStorage` while detaching from it. The model visits
  queued blocks in first-in-first-out order. The set of blocks visited and the ops
  collected per block are modelled; PHP's exact visiting order is not.
- The Unicode and locale behaviour of `strtolower` and `preg_match` is left out. Only
  ASCII letters change case, and identifiers are ASCII.
- Operand identity is reduced to operand numbers. A declaration's identity is its
  position in the interface or class list. Properties typed in place are then visible
  through the class index.
- Reconstructor.ComputeMergedType: the model returns no type where the source's
  `return false` from a function declared `: Type` would raise a TypeError. The callers
  treat that `false` as "not resolved yet". The as-written behaviour is kept as
  `ComputeMergedTypeAsWritten` (see Findings).

## Findings

| source | as written | input that shows it | evidently intended | confidence | as-written member | corrected member |
|---|---|---|---|---|---|---|
| lib/PHPTypes/TypeReconstructor.php:73-99 | `computeMergedType` is declared `: Type` but returns `false` when a candidate is unknown, which raises a TypeError | the candidates `[unknown, int]` | return `false` so that the caller treats the operand as unresolved, as `resolveVar` and `resolveOp_Phi` expect | not executed | ReconstructorFacts.MergeWithUnknownRaises | Reconstructor.ComputeMergedType |
