/**
 * Type::fromDecl and its combinator parser parseCompexDecl, and the doc-comment
 * tag scanner behind Type::extractTypeFromComment.
 */
module DeclParser {
  import opened Wrappers
  import opened PhpStrings
  import opened Types
  import TypeFacts

  /** The keyword switch of fromDecl, keyed by the lower-cased declaration. */
  function Keywords(): map<string, Type>
  {
    map[
      "boolean" := Boolean, "bool" := Boolean, "false" := Boolean, "true" := Boolean,
      "integer" := Long, "int" := Long,
      "double" := Double, "real" := Double, "float" := Double,
      "string" := String,
      "array" := Array([]),
      "callable" := Callable,
      "null" := Null, "void" := Null,
      "numeric" := Numeric()
    ]
  }

  /** Union for '|', Intersection for '&': the two-member node parseCompexDecl builds. */
  function Combine(c: char, left: Type, right: Type): Type
  {
    if c == '|' then Union([left, right]) else Intersection([left, right])
  }

  // ---------------------------------------------------------------------------
  // Parenthesis matching
  // ---------------------------------------------------------------------------

  /** Open minus close parentheses in s. */
  function Balance(s: string): int
  {
    if s == [] then 0
    else Balance(s[..|s| - 1]) + (if s[|s| - 1] == '(' then 1 else if s[|s| - 1] == ')' then -1 else 0)
  }

  /**
   * The end of the balanced group `^\((?:[^()]+|(?1))*\)` at the start of s: the shortest
   * prefix whose parentheses balance. None when no prefix balances.
   */
  function GroupEnd(s: string): (r: Option<nat>)
    requires |s| > 0 && s[0] == '('
    ensures r.Some? ==> 2 <= r.value <= |s| && s[r.value - 1] == ')'
    ensures r.Some? ==> Balance(s[..r.value]) == 0 && forall k :: 1 <= k < r.value ==> Balance(s[..k]) > 0
    ensures r.None? ==> forall k :: 1 <= k <= |s| ==> Balance(s[..k]) > 0
  {
    assert s[..1][..0] == [];
    ScanGroup(s, 1, 1)
  }

  /** Extending a prefix by one character adds that character's contribution to the balance. */
  lemma BalanceSnoc(s: string, i: nat)
    requires i < |s|
    ensures Balance(s[..i + 1]) == Balance(s[..i]) + (if s[i] == '(' then 1 else if s[i] == ')' then -1 else 0)
  {
    assert s[..i + 1][..i] == s[..i];
  }

  function ScanGroup(s: string, i: nat, depth: nat): (r: Option<nat>)
    requires 1 <= i <= |s| && depth >= 1
    requires depth == Balance(s[..i])
    requires forall k :: 1 <= k <= i ==> Balance(s[..k]) > 0
    ensures r.Some? ==> i < r.value <= |s| && s[r.value - 1] == ')'
    ensures r.Some? ==> Balance(s[..r.value]) == 0 && forall k :: 1 <= k < r.value ==> Balance(s[..k]) > 0
    ensures r.None? ==> forall k :: 1 <= k <= |s| ==> Balance(s[..k]) > 0
    decreases |s| - i
  {
    if i == |s| then None
    else
      BalanceSnoc(s, i);
      var next: nat := if s[i] == '(' then depth + 1 else if s[i] == ')' then depth - 1 else depth;
      if next == 0 then Some(i + 1) else ScanGroup(s, i + 1, next)
  }

  // ---------------------------------------------------------------------------
  // fromDecl / parseCompexDecl
  // ---------------------------------------------------------------------------

  /**
   * Type::fromDecl on a string. '' and '0' (PHP's empty()) are rejected; a leading
   * '\' is dropped once; '?T' is simplify(T|null); then the keyword table, the
   * combinator parser, the 'T[]' suffix and the identifier check, in that order.
   */
  function FromDecl(decl: string): (r: Result<Type>)
    ensures r.Ok? ==> TypeFacts.IsSimplified(r.value) && !r.value.Unknown?
    decreases |decl|, 2
  {
    if decl == "" || decl == "0" then Err(EmptyDeclaration)
    else if decl[0] == '\\' then FromUnprefixed(decl[1..])
    else if decl[0] == '?' then
      match FromDecl(decl[1..])
      case Err(e) => Err(e)
      case Ok(t) =>
        TypeFacts.SimplifyIsSimplified(Union([t, Null]));
        Ok(Simplify(Union([t, Null])))
    else FromUnprefixed(decl)
  }

  /** The part of fromDecl after the prefix checks. */
  function FromUnprefixed(decl: string): (r: Result<Type>)
    ensures r.Ok? ==> TypeFacts.IsSimplified(r.value) && !r.value.Unknown?
    decreases |decl|, 1
  {
    var key := Lower(decl);
    if key in Keywords() then
      TypeFacts.NumericFacts();
      Ok(Keywords()[key])
    else if '|' in decl || '&' in decl || '(' in decl then
      match ParseComplexDecl(decl)
      case Err(e) => Err(e)
      case Ok(t) =>
        TypeFacts.SimplifyIsSimplified(t);
        Ok(Simplify(t))
    else if |decl| >= 2 && decl[|decl| - 2..] == "[]" then
      match FromDecl(decl[..|decl| - 2])
      case Err(e) => Err(e)
      case Ok(t) => Ok(Array([t]))
    else if MatchesNameRegex(decl) then Ok(Object(decl))
    else Err(UnknownDeclaration)
  }

  /**
   * Type::parseCompexDecl. A leading parenthesised group is parsed on its own and must
   * be followed by nothing or by '|'/'&' and a right operand; otherwise the leftmost
   * '|' or '&' splits the text, so combinators associate to the right without precedence.
   */
  function ParseComplexDecl(decl: string): (r: Result<Type>)
    ensures r.Ok? ==> !r.value.Unknown?
    decreases |decl|, 0
  {
    if |decl| > 0 && decl[0] == '(' then
      match GroupEnd(decl)
      case None => Err(UnmatchedBraces)
      case Some(n) =>
        match FromDecl(decl[1..n - 1])
        case Err(e) => Err(e)
        case Ok(left) =>
          if n == |decl| then Ok(left)
          else if decl[n] != '|' && decl[n] != '&' then Err(CombinatorPosition)
          else
            match FromDecl(decl[n + 1..])
            case Err(e) => Err(e)
            case Ok(right) => Ok(Combine(decl[n], left, right))
    else
      match SplitPoint(decl)
      case None => Err(NoCombinator)
      case Some(pos) =>
        if pos == 0 then Err(CombinatorPosition)
        else
          match FromDecl(decl[..pos])
          case Err(e) => Err(e)
          case Ok(left) =>
            match FromDecl(decl[pos + 1..])
            case Err(e) => Err(e)
            case Ok(right) => Ok(Combine(decl[pos], left, right))
  }

  /** The position of the leftmost '|' or '&' (min of the two strpos results). */
  function SplitPoint(decl: string): (r: Option<nat>)
    ensures r.None? <==> '|' !in decl && '&' !in decl
    ensures r.Some? ==> r.value < |decl| && (decl[r.value] == '|' || decl[r.value] == '&')
    ensures r.Some? ==> '|' !in decl[..r.value] && '&' !in decl[..r.value]
  {
    match (IndexOf(decl, '|'), IndexOf(decl, '&'))
    case (None, None) => None
    case (Some(o), None) => Some(o)
    case (None, Some(a)) => Some(a)
    case (Some(o), Some(a)) =>
      if o <= a then
        assert decl[..o] <= decl[..a];
        Some(o)
      else
        assert decl[..a] <= decl[..o];
        Some(a)
  }

  /** fromDecl on a literal's value: anything but a string is a logic error. */
  function FromDeclValue(v: Value): (r: Result<Type>)
    ensures v.LString? ==> r == FromDecl(v.s)
    ensures !v.LString? ==> r == Err(NotAString)
  {
    if v.LString? then FromDecl(v.s) else Err(NotAString)
  }

  // ---------------------------------------------------------------------------
  // Doc-comment tags
  // ---------------------------------------------------------------------------

  /** The two tags extractTypeFromComment scans for here: '@var' and '@return'. */
  datatype TagKind = VarTag | ReturnTag

  function TagText(k: TagKind): string
  {
    match k
    case VarTag => "@var"
    case ReturnTag => "@return"
  }

  /** The end of the longest run of characters from i on that are (or are not) whitespace. */
  function RunEnd(s: string, i: nat, space: bool): (r: nat)
    requires i <= |s|
    ensures i <= r <= |s|
    ensures forall k :: i <= k < r ==> IsSpace(s[k]) == space
    ensures r < |s| ==> IsSpace(s[r]) != space
    decreases |s| - i
  {
    if i == |s| || IsSpace(s[i]) != space then i else RunEnd(s, i + 1, space)
  }

  /** `tag\s+\S+` matches at position i. */
  predicate MatchAt(s: string, tag: string, i: nat)
  {
    i + |tag| <= |s| && s[i..i + |tag|] == tag &&
    var j := RunEnd(s, i + |tag|, true);
    j > i + |tag| && RunEnd(s, j, false) > j
  }

  /** The captured (\S+) of a match at i. */
  function TokenAt(s: string, tag: string, i: nat): (r: string)
    requires MatchAt(s, tag, i)
    ensures |r| > 0 && forall k :: 0 <= k < |r| ==> !IsSpace(r[k])
  {
    var j := RunEnd(s, i + |tag|, true);
    s[j..RunEnd(s, j, false)]
  }

  /** preg_match's leftmost match of `tag\s+(\S+)` at or after position i. */
  function ScanTag(s: string, tag: string, i: nat): (r: Option<string>)
    requires i <= |s|
    ensures r.None? ==> forall k :: i <= k <= |s| ==> !MatchAt(s, tag, k)
    ensures r.Some? ==> exists k :: i <= k <= |s| && MatchAt(s, tag, k) && r.value == TokenAt(s, tag, k) &&
                                    forall k' :: i <= k' < k ==> !MatchAt(s, tag, k')
    decreases |s| - i
  {
    if MatchAt(s, tag, i) then Some(TokenAt(s, tag, i))
    else if i == |s| then None
    else ScanTag(s, tag, i + 1)
  }

  /**
   * Type::extractTypeFromComment for 'var' and 'return': mixed() for a missing comment
   * or a comment without `@tag <token>`, fromDecl(token) otherwise.
   */
  function ExtractTypeFromComment(kind: TagKind, comment: Option<string>): (r: Result<Type>)
    ensures comment.None? ==> r == Ok(Mixed())
    ensures comment.Some? ==>
      match ScanTag(comment.value, TagText(kind), 0)
      case None => r == Ok(Mixed())
      case Some(token) => r == FromDecl(token)
  {
    match comment
    case None => Ok(Mixed())
    case Some(text) =>
      match ScanTag(text, TagText(kind), 0)
      case None => Ok(Mixed())
      case Some(token) => FromDecl(token)
  }
}
