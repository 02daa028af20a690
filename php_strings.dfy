/** The few PHP string primitives the engine relies on, on byte strings modelled as seq<char>. */
module PhpStrings {

  import opened Wrappers

  /** strtolower: ASCII upper-case letters map to lower case, every other character is kept. */
  function LowerChar(c: char): (r: char)
    ensures 'A' <= c <= 'Z' ==> r as int == c as int + 32
    ensures !('A' <= c <= 'Z') ==> r == c
  {
    if 'A' <= c <= 'Z' then (c as int + 32) as char else c
  }

  function Lower(s: string): (r: string)
    ensures |r| == |s|
    ensures forall i :: 0 <= i < |s| ==> r[i] == LowerChar(s[i])
  {
    seq(|s|, i requires 0 <= i < |s| => LowerChar(s[i]))
  }

  /** Lower-casing twice is lower-casing once. */
  lemma LowerIdempotent(s: string)
    ensures Lower(Lower(s)) == Lower(s)
  {
  }

  lemma LowerAppend(a: string, b: string)
    ensures Lower(a + b) == Lower(a) + Lower(b)
  {
  }

  /** PCRE's \s without the u flag: tab, newline, vertical tab, form feed, carriage return, space. */
  predicate IsSpace(c: char)
  {
    c == ' ' || c == '\t' || c == '\n' || c == '\r' || c == 11 as char || c == 12 as char
  }

  /** First character of an identifier: [a-zA-Z_\x7f-\xff]. */
  predicate IsIdentStart(c: char)
  {
    ('a' <= c <= 'z') || ('A' <= c <= 'Z') || c == '_' || (127 <= c as int <= 255)
  }

  /** Later characters of an identifier: [a-zA-Z0-9_\x7f-\xff]. */
  predicate IsIdentChar(c: char)
  {
    IsIdentStart(c) || ('0' <= c <= '9')
  }

  predicate IsIdentifier(s: string)
  {
    |s| > 0 && IsIdentStart(s[0]) && forall i :: 1 <= i < |s| ==> IsIdentChar(s[i])
  }

  /** (IDENT\\)*IDENT: identifiers separated by single backslashes. */
  predicate IsQualifiedName(s: string)
    decreases |s|
  {
    IsIdentifier(s) ||
    exists k :: 0 < k < |s| - 1 && s[k] == '\\' && IsIdentifier(s[..k]) && IsQualifiedName(s[k + 1..])
  }

  /** The whole-string identifier check, with PCRE's `$` also matching before one final newline. */
  predicate MatchesNameRegex(s: string)
  {
    IsQualifiedName(s) || (|s| > 0 && s[|s| - 1] == '\n' && IsQualifiedName(s[..|s| - 1]))
  }

  /** strpos: the first index of c in s, if any. */
  function IndexOf(s: string, c: char): (r: Option<nat>)
    ensures r.None? <==> c !in s
    ensures r.Some? ==> r.value < |s| && s[r.value] == c && c !in s[..r.value]
  {
    if |s| == 0 then None
    else if s[0] == c then Some(0)
    else match IndexOf(s[1..], c)
      case None => None
      case Some(k) => assert s[1..][..k] == s[1..k + 1]; Some(k + 1)
  }

  /** PHP truthiness of a string: everything but '' and '0'. */
  predicate Truthy(s: string)
  {
    s != "" && s != "0"
  }

  /** The decimal text PHP gives an integer when it is used as a string. */
  function IntToString(i: int): (r: string)
    ensures |r| > 0
    decreases if i < 0 then 1 - i else i
  {
    if i < 0 then "-" + IntToString(-i)
    else if i < 10 then [('0' as int + i) as char]
    else IntToString(i / 10) + [('0' as int + i % 10) as char]
  }
}
