/**
 * Properties of fromDecl and extractTypeFromComment: keywords are case-insensitive,
 * `?T` allows null, `T[]` is an array of T, a leading backslash is ignored, the
 * leftmost combinator splits the text (so `&` does not bind tighter than `|`), and
 * the malformed shapes give their errors.
 */
module DeclFacts {
  import opened Wrappers
  import opened PhpStrings
  import opened Types
  import opened DeclParser
  import TypeFacts

  // ---------------------------------------------------------------------------
  // Prefixes and keywords
  // ---------------------------------------------------------------------------

  /** Every keyword is at least three characters long and starts with a lower-case letter. */
  lemma KeywordStart(k: string)
    requires k in Keywords()
    ensures |k| >= 3 && 'a' <= k[0] <= 'z'
  {
  }

  /** Every keyword is made of lower-case letters only, so it holds no combinator, parenthesis or bracket. */
  lemma KeywordShape(k: string)
    requires k in Keywords()
    ensures |k| >= 3 && 'a' <= k[0] <= 'z'
    ensures forall i :: 0 <= i < |k| ==> 'a' <= k[i] <= 'z'
  {
    KeywordStart(k);
  }

  /** A keyword in any letter case is the keyword's type. */
  lemma KeywordAnyCase(s: string)
    requires Lower(s) in Keywords()
    ensures FromDecl(s) == Ok(Keywords()[Lower(s)])
  {
    KeywordStart(Lower(s));
    assert LowerChar(s[0]) == Lower(s)[0];
    assert s[0] != '\\' && s[0] != '?';
    assert s != "0";
  }

  /** Text without upper-case letters is its own lower-case form. */
  lemma LowerFixed(s: string)
    requires forall i :: 0 <= i < |s| ==> !('A' <= s[i] <= 'Z')
    ensures Lower(s) == s
  {
  }

  /** `\T` declares the same type as `T`. */
  lemma LeadingBackslash(d: string)
    requires d != "" && d != "0" && d[0] != '\\' && d[0] != '?'
    ensures FromDecl("\\" + d) == FromDecl(d)
  {
    assert ("\\" + d)[1..] == d;
  }

  /** `?T` declares a type that allows null, and is nothing but `T|null` simplified. */
  lemma NullablePrefix(d: string)
    ensures FromDecl("?" + d) ==
      match FromDecl(d)
      case Ok(t) => Ok(Simplify(Union([t, Null])))
      case Err(e) => Err(e)
    ensures FromDecl("?" + d).Ok? ==> AllowsNull(FromDecl("?" + d).value)
  {
    assert ("?" + d)[1..] == d;
    if FromDecl(d).Ok? {
      var u := Union([FromDecl(d).value, Null]);
      assert AllowsNull(u) by {
        assert u.members[1..] == [Null];
        assert AllowsNull([Null][0]);
      }
      TypeFacts.SimplifyKeepsAllowsNull(u);
    }
  }

  /** `T[]` declares an array of T when T contains no combinator or parenthesis. */
  lemma ArraySuffix(d: string)
    requires d != "" && d[0] != '\\' && d[0] != '?'
    requires '|' !in d && '&' !in d && '(' !in d
    ensures FromDecl(d + "[]") ==
      match FromDecl(d)
      case Ok(t) => Ok(Array([t]))
      case Err(e) => Err(e)
  {
    var s := d + "[]";
    assert s[0] == d[0] && s != "0";
    assert s[|s| - 1] == ']';
    assert Lower(s)[|s| - 1] == ']';
    if Lower(s) in Keywords() {
      KeywordShape(Lower(s));
      assert false;
    }
    assert '|' !in s && '&' !in s && '(' !in s by {
      forall i | 0 <= i < |s| ensures s[i] != '|' && s[i] != '&' && s[i] != '(' {
        if i < |d| { assert s[i] == d[i]; }
      }
    }
    assert s[|s| - 2..] == "[]";
    assert s[..|s| - 2] == d;
  }

  // ---------------------------------------------------------------------------
  // Combinators
  // ---------------------------------------------------------------------------

  /**
   * Text with a combinator c after a plain left part splits at that first c: the left
   * part and everything after c are parsed on their own, so a chain associates to the right.
   */
  lemma SplitsAtLeftmost(a: string, c: char, b: string)
    requires c == '|' || c == '&'
    requires a != "" && a[0] != '\\' && a[0] != '?' && a[0] != '('
    requires '|' !in a && '&' !in a && '(' !in a
    ensures FromDecl(a + [c] + b) ==
      match FromDecl(a)
      case Err(e) => Err(e)
      case Ok(l) =>
        match FromDecl(b)
        case Err(e) => Err(e)
        case Ok(r) => Ok(Simplify(Combine(c, l, r)))
  {
    var s := a + [c] + b;
    assert s[0] == a[0] && s[|a|] == c && s != "0";
    if Lower(s) in Keywords() {
      KeywordShape(Lower(s));
      assert false;
    }
    assert s[..|a|] == a && s[|a| + 1..] == b;
    assert c in s;
    assert SplitPoint(s) == Some(|a|);
    var inner := ParseComplexDecl(s);
    assert inner ==
      match FromDecl(a)
      case Err(e) => Err(e)
      case Ok(l) =>
        match FromDecl(b)
        case Err(e) => Err(e)
        case Ok(r) => Ok(Combine(c, l, r));
    assert FromDecl(s) == FromUnprefixed(s);
    assert c in s;
  }

  /**
   * `a c1 b c2 d` with plain a and b is a c1 (b c2 d): combinators associate to the right
   * and neither binds tighter, so the outer node is always the first combinator's.
   */
  lemma ChainAssociatesRight(a: string, c1: char, b: string, c2: char, d: string, x: Type, y: Type, z: Type)
    requires (c1 == '|' || c1 == '&') && (c2 == '|' || c2 == '&')
    requires a != "" && a[0] != '\\' && a[0] != '?' && a[0] != '(' && '|' !in a && '&' !in a && '(' !in a
    requires b != "" && b[0] != '\\' && b[0] != '?' && b[0] != '(' && '|' !in b && '&' !in b && '(' !in b
    requires FromDecl(a) == Ok(x) && FromDecl(b) == Ok(y) && FromDecl(d) == Ok(z)
    ensures FromDecl(a + [c1] + b + [c2] + d) == Ok(Simplify(Combine(c1, x, Simplify(Combine(c2, y, z)))))
  {
    var rest := b + [c2] + d;
    SplitOk(b, c2, d, y, z);
    Regroup(a, c1, b, c2, d);
    SplitOk(a, c1, rest, x, Simplify(Combine(c2, y, z)));
  }

  lemma Regroup(a: string, c1: char, b: string, c2: char, d: string)
    ensures a + [c1] + b + [c2] + d == a + [c1] + (b + [c2] + d)
  {
  }

  /** When both sides parse, a plain left side joined by a combinator parses into their simplified combination. */
  lemma SplitOk(a: string, c: char, b: string, l: Type, r: Type)
    requires c == '|' || c == '&'
    requires a != "" && a[0] != '\\' && a[0] != '?' && a[0] != '('
    requires '|' !in a && '&' !in a && '(' !in a
    requires FromDecl(a) == Ok(l) && FromDecl(b) == Ok(r)
    ensures FromDecl(a + [c] + b) == Ok(Simplify(Combine(c, l, r)))
  {
    SplitsAtLeftmost(a, c, b);
  }

  /** In such a chain the outer node is the first combinator's: `&` does not bind tighter than `|`. */
  lemma ChainOuterNode(a: string, c1: char, b: string, c2: char, d: string, x: Type, y: Type, z: Type)
    requires (c1 == '|' || c1 == '&') && (c2 == '|' || c2 == '&')
    requires a != "" && a[0] != '\\' && a[0] != '?' && a[0] != '(' && '|' !in a && '&' !in a && '(' !in a
    requires b != "" && b[0] != '\\' && b[0] != '?' && b[0] != '(' && '|' !in b && '&' !in b && '(' !in b
    requires FromDecl(a) == Ok(x) && FromDecl(b) == Ok(y) && FromDecl(d) == Ok(z)
    ensures FromDecl(a + [c1] + b + [c2] + d).Ok?
    ensures TagOf(FromDecl(a + [c1] + b + [c2] + d).value) == if c1 == '|' then TUnion else TIntersection
  {
    ChainAssociatesRight(a, c1, b, c2, d, x, y, z);
  }

  /** `numeric` and `int|float` declare the same type, in any letter case. */
  lemma NumericIsIntOrFloat(n: string, a: string, b: string)
    requires Lower(n) == "numeric" && Lower(a) == "int" && Lower(b) == "float"
    ensures FromDecl(n) == FromDecl(a + ['|'] + b) == Ok(Numeric())
  {
    KeywordAnyCase(n);
    IntOrFloat(a, b);
  }

  /** `int|float` in any letter case splits into its two keywords and simplifies to `numeric`. */
  lemma IntOrFloat(a: string, b: string)
    requires Lower(a) == "int" && Lower(b) == "float"
    ensures FromDecl(a + ['|'] + b) == Ok(Numeric())
  {
    KeywordAnyCase(a);
    KeywordAnyCase(b);
    assert FromDecl(a) == Ok(Long) && FromDecl(b) == Ok(Double);
    KeywordPlain(a);
    SplitsAtLeftmost(a, '|', b);
    NumericSimplified();
  }

  /** `numeric` is already in simplified form. */
  lemma NumericSimplified()
    ensures Simplify(Combine('|', Long, Double)) == Numeric()
  {
    TypeFacts.SimplifiedIsFixed(Union([Long, Double]));
  }

  /** A keyword in any letter case starts with a letter and holds no combinator or parenthesis. */
  lemma KeywordPlain(s: string)
    requires Lower(s) in Keywords()
    ensures s != "" && s[0] != '\\' && s[0] != '?' && s[0] != '('
    ensures '|' !in s && '&' !in s && '(' !in s
  {
    KeywordShape(Lower(s));
    assert LowerChar(s[0]) == Lower(s)[0];
    forall i | 0 <= i < |s| ensures s[i] != '|' && s[i] != '&' && s[i] != '(' {
      assert LowerChar(s[i]) == Lower(s)[i];
    }
  }

  // ---------------------------------------------------------------------------
  // Errors
  // ---------------------------------------------------------------------------

  /** A combinator with nothing before it is misplaced. */
  lemma LeadingCombinator(c: char, b: string)
    requires c == '|' || c == '&'
    ensures FromDecl([c] + b) == Err(CombinatorPosition)
  {
    var s := [c] + b;
    assert s[0] == c && s != "0";
    if Lower(s) in Keywords() {
      KeywordShape(Lower(s));
      assert false;
    }
    assert c in s;
    assert SplitPoint(s) == Some(0);
    assert ParseComplexDecl(s) == Err(CombinatorPosition);
    assert FromDecl(s) == FromUnprefixed(s);
  }

  /** An opening parenthesis that is never closed is an error, whatever follows it. */
  lemma Unclosed(b: string)
    requires ')' !in b
    ensures FromDecl("(" + b) == Err(UnmatchedBraces)
  {
    var s := "(" + b;
    assert s[0] == '(' && s != "0";
    if Lower(s) in Keywords() {
      KeywordShape(Lower(s));
      assert false;
    }
    assert '(' in s;
    assert FromDecl(s) == FromUnprefixed(s);
  }

  /** Characters other than parentheses leave the balance as it was. */
  lemma {:induction false} BalanceFlat(p: string, g: string)
    requires '(' !in g && ')' !in g
    ensures Balance(p + g) == Balance(p)
  {
    if g != [] {
      var init := g[..|g| - 1];
      var last := g[|g| - 1];
      assert last in g;
      assert forall i :: 0 <= i < |init| ==> init[i] == g[i];
      BalanceFlat(p, init);
      var s := p + g;
      BalanceSnoc(s, |s| - 1);
      assert s[..|s|] == s && s[..|s| - 1] == p + init && s[|s| - 1] == last;
    } else {
      assert p + g == p;
    }
  }

  /** A group without nested parentheses ends at its closing parenthesis, whatever follows. */
  lemma FlatGroupEnd(g: string, rest: string)
    requires '(' !in g && ')' !in g
    ensures GroupEnd("(" + g + ")" + rest) == Some(|g| + 2)
  {
    var s := "(" + g + ")" + rest;
    var n := |g| + 2;
    assert Balance("(") == 1 by { assert "("[..0] == []; }
    forall k | 1 <= k < n ensures Balance(s[..k]) > 0 {
      assert s[..k] == "(" + g[..k - 1];
      assert forall i :: 0 <= i < k - 1 ==> g[..k - 1][i] == g[i];
      BalanceFlat("(", g[..k - 1]);
    }
    BalanceFlat("(", g);
    assert Balance(s[..n]) == 0 by {
      assert s[..n][..n - 1] == "(" + g;
    }
  }

  /** Text after a parenthesised group that is not a combinator is rejected: `(int)x` is not a type. */
  lemma TextAfterGroup(g: string, c: char, x: string)
    requires '(' !in g && ')' !in g && FromDecl(g).Ok?
    requires c != '|' && c != '&'
    ensures FromDecl("(" + g + ")" + [c] + x) == Err(CombinatorPosition)
  {
    var s := "(" + g + ")" + [c] + x;
    var n := |g| + 2;
    assert s == "(" + g + ")" + ([c] + x);
    FlatGroupEnd(g, [c] + x);
    OpenNotKeyword(s);
    assert s[1..n - 1] == g && s[n] == c;
    assert ParseComplexDecl(s) == Err(CombinatorPosition);
    assert FromUnprefixed(s) == Err(CombinatorPosition) by {
      assert '(' in s;
    }
    assert s[0] == '(' && s != "0";
  }

  /** A declaration that opens a group is not a keyword, in any case. */
  lemma OpenNotKeyword(s: string)
    requires s != [] && s[0] == '('
    ensures Lower(s) !in Keywords()
  {
    if Lower(s) in Keywords() {
      KeywordShape(Lower(s));
      assert false;
    }
  }


  /** A qualified name starts with an identifier start, ends with an identifier character, and holds only those and backslashes. */
  lemma {:induction false} QualifiedChars(s: string)
    requires IsQualifiedName(s)
    ensures |s| > 0 && IsIdentStart(s[0]) && IsIdentChar(s[|s| - 1])
    ensures forall i :: 0 <= i < |s| ==> IsIdentChar(s[i]) || s[i] == '\\'
    decreases |s|
  {
    if !IsIdentifier(s) {
      var k :| 0 < k < |s| - 1 && s[k] == '\\' && IsIdentifier(s[..k]) && IsQualifiedName(s[k + 1..]);
      QualifiedChars(s[k + 1..]);
      assert s[0] == s[..k][0];
      assert s[|s| - 1] == s[k + 1..][|s| - k - 2];
      forall i | 0 <= i < |s| ensures IsIdentChar(s[i]) || s[i] == '\\' {
        if i < k {
          assert s[i] == s[..k][i];
        } else if i > k {
          assert s[i] == s[k + 1..][i - k - 1];
        }
      }
    }
  }

  /** A class name that is no keyword declares an object of that class, its text kept as written. */
  lemma ClassNameLeaf(d: string)
    requires IsQualifiedName(d) && Lower(d) !in Keywords()
    ensures FromDecl(d) == Ok(Object(d))
  {
    QualifiedChars(d);
    assert d != "0" && d[0] != '\\' && d[0] != '?';
    assert d[|d| - 1] != ']';
    assert '|' !in d && '&' !in d && '(' !in d;
  }

  /**
   * Text that is neither a keyword, nor combined or grouped, nor an array suffix, nor a
   * class name is an unknown declaration.
   */
  lemma BadLeaf(d: string)
    requires Truthy(d) && d[0] != '\\' && d[0] != '?' && Lower(d) !in Keywords()
    requires '|' !in d && '&' !in d && '(' !in d && !(|d| >= 2 && d[|d| - 2..] == "[]")
    requires !MatchesNameRegex(d)
    ensures FromDecl(d) == Err(UnknownDeclaration)
  {
  }

  /** `a-b` is not a class name: the hyphen is no identifier character. */
  lemma HyphenIsUnknown()
    ensures FromDecl("a-b") == Err(UnknownDeclaration)
  {
    var d := "a-b";
    assert d[1] == '-' && !IsIdentChar(d[1]);
    if IsQualifiedName(d) {
      QualifiedChars(d);
      assert false;
    }
    assert Lower(d) == d;
    BadLeaf(d);
  }

  /** PHP's empty(): '' and '0' are not declarations. */
  lemma EmptyDeclarations()
    ensures FromDecl("") == Err(EmptyDeclaration)
    ensures FromDecl("0") == Err(EmptyDeclaration)
  {
  }

  // ---------------------------------------------------------------------------
  // Doc comments
  // ---------------------------------------------------------------------------

  /** A run of non-space characters reaches the end of the text. */
  lemma RunToEnd(s: string, i: nat)
    requires i <= |s| && forall k :: i <= k < |s| ==> !IsSpace(s[k])
    ensures RunEnd(s, i, false) == |s|
  {
  }

  /** `@var` followed by a space and a token matches at the start, capturing the token. */
  lemma VarTagMatch(tok: string)
    requires tok != [] && forall k :: 0 <= k < |tok| ==> !IsSpace(tok[k])
    ensures MatchAt("@var " + tok, "@var", 0) && TokenAt("@var " + tok, "@var", 0) == tok
  {
    var s := "@var " + tok;
    assert s[0..4] == "@var";
    assert IsSpace(s[4]) && s[5] == tok[0];
    assert RunEnd(s, 5, true) == 5;
    assert RunEnd(s, 4, true) == 5;
    assert forall k :: 5 <= k < |s| ==> s[k] == tok[k - 5];
    RunToEnd(s, 5);
    assert s[5..] == tok;
  }

  /** A tag matching at the start of the comment is the one captured. */
  lemma ScanFirst(s: string, tag: string)
    requires MatchAt(s, tag, 0)
    ensures ScanTag(s, tag, 0) == Some(TokenAt(s, tag, 0))
  {
  }

  /** A comment that is exactly `@var <token>` declares the token's type. */
  lemma VarTagToken(tok: string)
    requires tok != [] && forall k :: 0 <= k < |tok| ==> !IsSpace(tok[k])
    ensures ExtractTypeFromComment(VarTag, Some("@var " + tok)) == FromDecl(tok)
  {
    VarTagMatch(tok);
    TagFirst(VarTag, "@var " + tok);
  }

  /** A comment that starts with the tag and a token is typed by that token. */
  lemma TagFirst(kind: TagKind, s: string)
    requires MatchAt(s, TagText(kind), 0)
    ensures ExtractTypeFromComment(kind, Some(s)) == FromDecl(TokenAt(s, TagText(kind), 0))
  {
    ScanFirst(s, TagText(kind));
  }
}
