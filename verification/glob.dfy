// The exclusion-pattern matcher (`matchesPattern`). After back-slashes become
// slashes, a pattern ending in `/**` names a directory and everything under it,
// a pattern ending in `**` is a plain prefix test, and any other pattern is
// rewritten by a chain of replacements into an anchored regular expression.
// That expression is modelled here by a token sequence and its language.
module Glob {
  import opened Text

  /** The pieces of the regular expression the replacement chain builds. */
  datatype Token =
    | Lit(c: char)  // the character itself; `.` is escaped to a literal dot
    | AnyChar       // the `.` that `**` -> `.*` leaves behind: any character but a line terminator
    | Star          // `[^/]*`
    | Quest         // `[^/]`

  /** The characters a regular-expression `.` does not match. */
  predicate IsLineTerminator(c: char) {
    c == '\n' || c == '\r' || c as int == 0x2028 || c as int == 0x2029
  }

  /** A character the replacement chain would hand to `RegExp` unescaped, with a meaning of its own. */
  predicate IsRegexSyntax(c: char) {
    c == '+' || c == '(' || c == ')' || c == '[' || c == ']' || c == '{' || c == '}' ||
    c == '|' || c == '^' || c == '$'
  }

  predicate NoRegexSyntax(p: string) {
    forall i :: 0 <= i < |p| ==> !IsRegexSyntax(p[i])
  }

  /**
   * The patterns this model decides: every pattern answered by a prefix test, and
   * every other pattern built only from literals, `*`, `**`, `?` and `.`.
   */
  predicate Supported(pattern: string) {
    var np := NormalizeSlashes(pattern);
    EndsWith(np, "**") || NoRegexSyntax(np)
  }

  /**
   * The replacement chain `.` -> `\.`, `**` -> `.*`, `*` -> `[^/]*`, `?` -> `[^/]`,
   * read as tokens. The second rewrite also hits the `*` of `.*`, so a `**` in the
   * middle of a pattern becomes `.[^/]*`.
   */
  function Tokens(p: string): seq<Token> {
    if p == [] then []
    else if |p| >= 2 && p[0] == '*' && p[1] == '*' then [AnyChar, Star] + Tokens(p[2..])
    else if p[0] == '*' then [Star] + Tokens(p[1..])
    else if p[0] == '?' then [Quest] + Tokens(p[1..])
    else [Lit(p[0])] + Tokens(p[1..])
  }

  /** `^tokens$` matches the whole of `s`. */
  predicate Matches(t: seq<Token>, s: string)
    decreases |s|, |t|
  {
    if t == [] then s == []
    else match t[0]
      case Lit(c) => s != [] && s[0] == c && Matches(t[1..], s[1..])
      case AnyChar => s != [] && !IsLineTerminator(s[0]) && Matches(t[1..], s[1..])
      case Quest => s != [] && s[0] != '/' && Matches(t[1..], s[1..])
      case Star => Matches(t[1..], s) || (s != [] && s[0] != '/' && Matches(t, s[1..]))
  }

  /** `matchesPattern(filePath, pattern)`. */
  predicate MatchesPattern(path: string, pattern: string)
    requires Supported(pattern)
  {
    var np := NormalizeSlashes(pattern);
    if EndsWith(np, "/**") then
      var base := np[..|np| - 3];
      StartsWith(path, base + "/") || path == base
    else if EndsWith(np, "**") then
      StartsWith(path, np[..|np| - 2])
    else
      Matches(Tokens(np), path)
  }

  /** A pattern that takes the regular-expression route. */
  predicate RegexBranch(pattern: string) {
    var np := NormalizeSlashes(pattern);
    !EndsWith(np, "**") && NoRegexSyntax(np)
  }

  // ---------------------------------------------------------------- counting

  function Slashes(s: string): nat {
    if s == [] then 0 else (if s[0] == '/' then 1 else 0) + Slashes(s[1..])
  }

  function LitSlashes(t: seq<Token>): nat {
    if t == [] then 0 else (if t[0] == Lit('/') then 1 else 0) + LitSlashes(t[1..])
  }

  function AnyCount(t: seq<Token>): nat {
    if t == [] then 0 else (if t[0] == AnyChar then 1 else 0) + AnyCount(t[1..])
  }

  /** No `**` anywhere in the pattern. */
  predicate NoGlobstar(p: string) {
    forall i :: 0 <= i < |p| - 1 ==> !(p[i] == '*' && p[i + 1] == '*')
  }

  // ---------------------------------------------------------------- properties

  // `base/**` matches exactly `base` and the paths under `base/`.
  lemma DirectoryPattern(path: string, base: string)
    requires '\\' !in base
    ensures Supported(base + "/**")
    ensures MatchesPattern(path, base + "/**") <==> path == base || StartsWith(path, base + "/")
  {
    NormalizeSlashesKeeps(base + "/**");
    var np := base + "/**";
    assert np[|np| - 3..] == "/**";
    assert np[..|np| - 3] == base;
  }

  /** `base**` with `base` not ending in `/` is a plain prefix test, with no segment boundary. */
  lemma PrefixPattern(path: string, base: string)
    requires '\\' !in base && !EndsWith(base, "/")
    ensures Supported(base + "**")
    ensures MatchesPattern(path, base + "**") <==> StartsWith(path, base)
  {
    NormalizeSlashesKeeps(base + "**");
    var np := base + "**";
    assert np[|np| - 2..] == "**";
    assert np[..|np| - 2] == base;
    if base != [] {
      assert np[|np| - 3] == base[|base| - 1];
      assert base[|base| - 1..] == [base[|base| - 1]];
    }
  }

  // A sibling that merely shares the prefix, such as `node_modules_old` for `node_modules/**`, is not matched.
  lemma SiblingNotUnderDirectory(dir: string, rest: string)
    requires '\\' !in dir && rest != [] && rest[0] != '/'
    ensures !MatchesPattern(dir + rest, dir + "/**")
  {
    DirectoryPattern(dir + rest, dir);
    assert (dir + rest)[|dir|] == rest[0] && (dir + "/")[|dir|] == '/';
  }

  // The plain `**` form does cross the boundary: `node_modules**` matches `node_modules_old/a.js`.
  lemma PrefixCrossesBoundary(dir: string, rest: string)
    requires '\\' !in dir && !EndsWith(dir, "/")
    ensures MatchesPattern(dir + rest, dir + "**")
  {
    PrefixPattern(dir + rest, dir);
    assert (dir + rest)[..|dir|] == dir;
  }

  // A leading `**/` in a prefix-tested pattern is taken literally: it matches no path
  // that does not itself start with `*`.
  lemma LeadingGlobstarIsLiteral(dir: string, path: string)
    requires '\\' !in dir && path != [] && path[0] != '*'
    ensures !MatchesPattern(path, "**/" + dir + "/**")
  {
    DirectoryPattern(path, "**/" + dir);
  }

  /**
   * Only literal slashes and the any-character left by a `**` can match a `/`:
   * `*` and `?` never cross a segment boundary.
   */
  lemma {:induction false} SlashBounds(t: seq<Token>, s: string)
    requires Matches(t, s)
    ensures LitSlashes(t) <= Slashes(s) <= LitSlashes(t) + AnyCount(t)
    decreases |s|, |t|
  {
    if t != [] {
      match t[0]
      case Lit(c) => SlashBounds(t[1..], s[1..]);
      case AnyChar => SlashBounds(t[1..], s[1..]);
      case Quest => SlashBounds(t[1..], s[1..]);
      case Star =>
        if Matches(t[1..], s) {
          SlashBounds(t[1..], s);
        } else {
          SlashBounds(t, s[1..]);
        }
    }
  }

  lemma {:induction false} TokenCounts(p: string)
    ensures LitSlashes(Tokens(p)) == Slashes(p)
    ensures AnyCount(Tokens(p)) <= Slashes(p) + |p|
    ensures NoGlobstar(p) ==> AnyCount(Tokens(p)) == 0
  {
    if p != [] {
      if |p| >= 2 && p[0] == '*' && p[1] == '*' {
        TokenCounts(p[2..]);
        assert Tokens(p) == [AnyChar, Star] + Tokens(p[2..]);
        assert LitSlashes([AnyChar, Star] + Tokens(p[2..])) == LitSlashes(Tokens(p[2..]));
        assert AnyCount([AnyChar, Star] + Tokens(p[2..])) == 1 + AnyCount(Tokens(p[2..]));
        assert Slashes(p) == Slashes(p[1..]) == Slashes(p[2..]);
      } else {
        TokenCounts(p[1..]);
        assert Tokens(p)[1..] == Tokens(p[1..]);
        if NoGlobstar(p) {
          assert NoGlobstar(p[1..]) by {
            forall i | 0 <= i < |p[1..]| - 1 ensures !(p[1..][i] == '*' && p[1..][i + 1] == '*') {
              assert p[1..][i] == p[i + 1] && p[1..][i + 1] == p[i + 2];
            }
          }
        }
      }
    }
  }

  /**
   * A pattern on the regular-expression route matches only paths with at least as many
   * slashes as the pattern and at most one more per `**`; without `**`, exactly as many.
   */
  lemma RegexBranchSlashes(path: string, pattern: string)
    requires RegexBranch(pattern) && MatchesPattern(path, pattern)
    ensures Slashes(NormalizeSlashes(pattern)) <= Slashes(path)
    ensures NoGlobstar(NormalizeSlashes(pattern)) ==> Slashes(path) == Slashes(NormalizeSlashes(pattern))
  {
    var np := NormalizeSlashes(pattern);
    SlashBounds(Tokens(np), path);
    TokenCounts(np);
  }

  /** A pattern without `*` or `?` matches exactly itself: `.` is a literal dot. */
  lemma {:induction false} LiteralTokensMatch(p: string, s: string)
    requires '*' !in p && '?' !in p
    ensures Matches(Tokens(p), s) <==> s == p
  {
    if p != [] {
      assert Tokens(p) == [Lit(p[0])] + Tokens(p[1..]);
      LiteralTokensMatch(p[1..], if s == [] then [] else s[1..]);
      if s != [] && s[0] == p[0] && s[1..] == p[1..] {
        assert s == [s[0]] + s[1..];
        assert p == [p[0]] + p[1..];
      }
    }
  }

  lemma LiteralPattern(path: string, pattern: string)
    requires RegexBranch(pattern)
    requires '*' !in pattern && '?' !in pattern
    ensures MatchesPattern(path, pattern) <==> path == NormalizeSlashes(pattern)
  {
    var np := NormalizeSlashes(pattern);
    assert '*' !in np && '?' !in np by {
      forall i | 0 <= i < |np| ensures np[i] != '*' && np[i] != '?' {
        assert pattern[i] != '*' && pattern[i] != '?';
      }
    }
    LiteralTokensMatch(np, path);
  }

  /** `*` consumes a run of non-slash characters, and any such run. */
  lemma {:induction false} StarSplit(t: seq<Token>, s: string) returns (k: nat)
    requires Matches([Star] + t, s)
    ensures k <= |s| && '/' !in s[..k] && Matches(t, s[k..])
    decreases |s|
  {
    assert ([Star] + t)[1..] == t;
    if Matches(t, s) {
      k := 0;
    } else {
      var k' := StarSplit(t, s[1..]);
      k := k' + 1;
      assert s[..k] == [s[0]] + s[1..][..k'];
      assert s[k..] == s[1..][k'..];
    }
  }

  lemma {:induction false} StarRun(t: seq<Token>, s: string, k: nat)
    requires k <= |s| && '/' !in s[..k] && Matches(t, s[k..])
    ensures Matches([Star] + t, s)
    decreases k
  {
    assert ([Star] + t)[1..] == t;
    if k > 0 {
      assert s[0] == s[..k][0];
      assert s[1..][..k - 1] == s[1..k];
      assert s[1..][k - 1..] == s[k..];
      StarRun(t, s[1..], k - 1);
    }
  }

  /** Token sequences of a `*`-free prefix and the rest concatenate. */
  lemma {:induction false} TokensAppend(a: string, b: string)
    requires '*' !in a
    ensures Tokens(a + b) == Tokens(a) + Tokens(b)
  {
    if a == [] {
      assert a + b == b;
    } else {
      assert (a + b)[0] == a[0] != '*';
      assert (a + b)[1..] == a[1..] + b;
      TokensAppend(a[1..], b);
    }
  }

  /** The tokens of a literal prefix match exactly that prefix of the path. */
  lemma {:induction false} LiteralPrefixMatch(a: string, t: seq<Token>, s: string)
    requires '*' !in a && '?' !in a
    ensures Matches(Tokens(a) + t, s) <==> StartsWith(s, a) && Matches(t, s[|a|..])
  {
    if a == [] {
      assert Tokens(a) + t == t && s[|a|..] == s;
    } else {
      assert a[0] != '*' && a[0] != '?';
      assert Tokens(a) == [Lit(a[0])] + Tokens(a[1..]);
      assert (Tokens(a) + t)[1..] == Tokens(a[1..]) + t;
      if s != [] {
        LiteralPrefixMatch(a[1..], t, s[1..]);
        if |s| >= |a| {
          assert s[1..][|a| - 1..] == s[|a|..];
          assert s[..|a|] == [s[0]] + s[1..][..|a| - 1];
          assert a == [a[0]] + a[1..];
        }
      }
    }
  }

  /** What `.[^/]*` followed by a literal tail accepts: one character that is not a line terminator, a run without slashes, the tail. */
  ghost predicate GlobstarSplit(u: string, post: string) {
    exists m :: u == m + post && m != [] && !IsLineTerminator(m[0]) && '/' !in m[1..]
  }

  lemma GlobstarTailSound(post: string, u: string)
    requires '*' !in post && '?' !in post
    requires Matches([AnyChar, Star] + Tokens(post), u)
    ensures GlobstarSplit(u, post)
  {
    var t := Tokens(post);
    assert ([AnyChar, Star] + t)[1..] == [Star] + t;
    var k := StarSplit(t, u[1..]);
    LiteralTokensMatch(post, u[1..][k..]);
    var m := u[..k + 1];
    assert m[1..] == u[1..][..k];
    assert u == m + u[1..][k..];
  }

  lemma GlobstarTailComplete(post: string, u: string)
    requires '*' !in post && '?' !in post
    requires GlobstarSplit(u, post)
    ensures Matches([AnyChar, Star] + Tokens(post), u)
  {
    var t := Tokens(post);
    assert ([AnyChar, Star] + t)[1..] == [Star] + t;
    var m :| u == m + post && m != [] && !IsLineTerminator(m[0]) && '/' !in m[1..];
    LiteralTokensMatch(post, post);
    assert u[1..][..|m| - 1] == m[1..];
    assert u[1..][|m| - 1..] == post;
    StarRun(t, u[1..], |m| - 1);
  }

  /** A pattern with one `**` between two plain parts takes the regular-expression route. */
  lemma GlobstarPatternTokens(pre: string, post: string)
    requires '*' !in pre && '?' !in pre && '\\' !in pre && NoRegexSyntax(pre)
    requires '*' !in post && '?' !in post && '\\' !in post && NoRegexSyntax(post) && post != []
    ensures RegexBranch(pre + "**" + post) && NormalizeSlashes(pre + "**" + post) == pre + "**" + post
    ensures Tokens(pre + "**" + post) == Tokens(pre) + ([AnyChar, Star] + Tokens(post))
  {
    var p := pre + "**" + post;
    assert p == pre + ("**" + post);
    forall i | 0 <= i < |p| ensures p[i] != '\\' && !IsRegexSyntax(p[i]) {
      if i < |pre| { assert p[i] == pre[i]; }
      else if i < |pre| + 2 { assert p[i] == '*'; }
      else { assert p[i] == post[i - |pre| - 2]; }
    }
    NormalizeSlashesKeeps(p);
    assert p[|p| - 1] == post[|post| - 1];
    TokensAppend(pre, "**" + post);
    assert ("**" + post)[2..] == post;
  }

  /**
   * A `**` in the middle of a pattern takes one character (a slash included) and then
   * a run of non-slash characters: between a literal prefix and a literal tail it spans
   * one directory level, never zero and never two.
   */
  lemma MidGlobstar(pre: string, post: string, path: string)
    requires '*' !in pre && '?' !in pre && '\\' !in pre && NoRegexSyntax(pre)
    requires '*' !in post && '?' !in post && '\\' !in post && NoRegexSyntax(post) && post != []
    ensures RegexBranch(pre + "**" + post)
    ensures MatchesPattern(path, pre + "**" + post) <==> StartsWith(path, pre) && GlobstarSplit(path[|pre|..], post)
  {
    GlobstarPatternTokens(pre, post);
    var t := [AnyChar, Star] + Tokens(post);
    LiteralPrefixMatch(pre, t, path);
    if StartsWith(path, pre) {
      var u := path[|pre|..];
      if GlobstarSplit(u, post) {
        GlobstarTailComplete(post, u);
      }
      if Matches(t, u) {
        GlobstarTailSound(post, u);
      }
    }
  }
}
