/** The allow-list patterns of the consent tracker. A pattern is compared with
    a cookie name by equality first; a pattern holding '*' is then turned into
    the regular expression ^...$ in which every '*' stands for ".+" and every
    '.' for a literal dot. Patterns are restricted to those whose only special
    character is '*', so every other character stands for itself. */
module Glob {
  import opened Common

  /** The characters "." does not match in a JavaScript regular expression. */
  predicate IsLineTerminator(c: char) {
    c == '\n' || c == '\r' || c == '\U{2028}' || c == '\U{2029}'
  }

  predicate NoLineTerminator(s: string) {
    forall i :: 0 <= i < |s| ==> !IsLineTerminator(s[i])
  }

  /** Characters with a meaning in a regular expression besides '.' and '*'. */
  predicate IsRegexSpecial(c: char) {
    c == '\\' || c == '^' || c == '$' || c == '+' || c == '?' || c == '(' || c == ')'
    || c == '[' || c == ']' || c == '{' || c == '}' || c == '|'
  }

  /** A pattern the model covers: it holds no '*', so the regular expression is
      never built, or it holds no character with a regular-expression meaning
      other than '*' and '.'. */
  predicate SafePattern(p: string) {
    '*' !in p || forall i :: 0 <= i < |p| ==> !IsRegexSpecial(p[i])
  }

  /** Whether the whole of `name` matches the pattern, '*' being one or more
      characters other than line terminators. */
  function Matches(name: string, p: string): bool
    decreases |name| + |p|, 1
  {
    if p == [] then name == []
    else if p[0] == '*' then OneOrMore(name, p[1..])
    else name != [] && name[0] == p[0] && Matches(name[1..], p[1..])
  }

  /** Whether some non-empty prefix of `name` without line terminators is
      followed by a suffix matching `rest`. */
  function OneOrMore(name: string, rest: string): bool
    decreases |name| + |rest| + 1, 0
  {
    name != [] && !IsLineTerminator(name[0])
    && (Matches(name[1..], rest) || OneOrMore(name[1..], rest))
  }

  /** cookieMatches(cookieName, pattern). */
  function CookieMatches(name: string, pattern: string): (r: bool)
    requires SafePattern(pattern)
    ensures name == pattern ==> r
  {
    if name == pattern then true
    else if '*' !in pattern then false
    else Matches(name, pattern)
  }

  /** Without '*' a pattern matches exactly itself. */
  lemma {:induction false} MatchesLiteral(name: string, p: string)
    requires '*' !in p
    ensures Matches(name, p) <==> name == p
    decreases |p|
  {
    if p != [] {
      assert '*' !in p[1..] by {
        forall i | 0 <= i < |p[1..]| ensures p[1..][i] != '*' { assert p[1..][i] == p[i + 1]; }
      }
      MatchesLiteral(name[if name == [] then 0 else 1..], p[1..]);
      if name != [] && name[0] == p[0] && name[1..] == p[1..] {
        assert name == [name[0]] + name[1..] && p == [p[0]] + p[1..];
      }
    }
  }

  /** A '*' at the front of the pattern consumes a non-empty run of characters
      without line terminators: both directions. */
  lemma {:induction false} OneOrMoreIff(name: string, rest: string)
    ensures OneOrMore(name, rest) <==>
      exists k :: 1 <= k <= |name| && NoLineTerminator(name[..k]) && Matches(name[k..], rest)
    decreases |name|
  {
    if name != [] {
      OneOrMoreIff(name[1..], rest);
      if OneOrMore(name, rest) {
        if Matches(name[1..], rest) {
          assert NoLineTerminator(name[..1]) && Matches(name[1..], rest);
        } else {
          var k :| 1 <= k <= |name[1..]| && NoLineTerminator(name[1..][..k]) && Matches(name[1..][k..], rest);
          assert name[1..][k..] == name[k + 1..];
          var pre, tail := name[..k + 1], name[1..][..k];
          assert NoLineTerminator(pre) by {
            forall i | 0 <= i < k + 1 ensures !IsLineTerminator(pre[i]) {
              if i > 0 { assert pre[i] == tail[i - 1]; }
            }
          }
        }
      }
      if exists k :: 1 <= k <= |name| && NoLineTerminator(name[..k]) && Matches(name[k..], rest) {
        var k :| 1 <= k <= |name| && NoLineTerminator(name[..k]) && Matches(name[k..], rest);
        assert !IsLineTerminator(name[..k][0]);
        if k > 1 {
          assert name[1..][k - 1..] == name[k..];
          var tail, pre := name[1..][..k - 1], name[..k];
          assert NoLineTerminator(tail) by {
            forall i | 0 <= i < k - 1 ensures !IsLineTerminator(tail[i]) {
              assert tail[i] == pre[i + 1];
            }
          }
        }
      }
    }
  }

  /** A literal prefix followed by a single '*': the name starts with the prefix
      and goes on with at least one character, none of them a line terminator. */
  lemma {:induction false} PrefixStar(name: string, lit: string)
    requires '*' !in lit
    ensures Matches(name, lit + "*") <==>
      StartsWith(name, lit) && |name| > |lit| && NoLineTerminator(name[|lit|..])
    decreases |lit|
  {
    var p := lit + "*";
    if lit == [] {
      assert p[1..] == [];
      OneOrMoreIff(name, []);
      if |name| > 0 && NoLineTerminator(name) {
        assert name[..|name|] == name && name[|name|..] == [];
      }
      if Matches(name, p) {
        var k :| 1 <= k <= |name| && NoLineTerminator(name[..k]) && Matches(name[k..], []);
        assert name[k..] == [];
        assert name[..k] == name;
      }
    } else {
      assert p[0] == lit[0] && p[1..] == lit[1..] + "*";
      assert '*' !in lit[1..] by {
        forall i | 0 <= i < |lit[1..]| ensures lit[1..][i] != '*' { assert lit[1..][i] == lit[i + 1]; }
      }
      if name != [] {
        PrefixStar(name[1..], lit[1..]);
        if |lit| <= |name| { assert name[1..][|lit[1..]|..] == name[|lit|..]; }
        if name[0] == lit[0] {
          assert StartsWith(name[1..], lit[1..]) <==> StartsWith(name, lit) by {
            if StartsWith(name[1..], lit[1..]) && |lit| <= |name| {
              assert name[..|lit|] == [name[0]] + name[1..][..|lit[1..]|];
              assert lit == [lit[0]] + lit[1..];
            }
            if StartsWith(name, lit) {
              assert name[1..][..|lit[1..]|] == name[..|lit|][1..];
            }
          }
        } else {
          assert !StartsWith(name, lit) by {
            if |lit| <= |name| { assert name[..|lit|][0] != lit[0]; }
          }
        }
      }
    }
  }
}
