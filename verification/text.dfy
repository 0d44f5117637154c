/**
 * String operations with the JavaScript semantics the exporter relies on:
 * the `\s` class and `trim`, ASCII case folding, global and first-occurrence
 * `replace` (including the `$` patterns of a replacement string), joining
 * path segments and turning back-slashes into slashes.
 */
module Text {

  /** JavaScript's WhiteSpace and LineTerminator code points: what `\s` matches and `trim` strips. */
  predicate IsSpace(c: char) {
    var n := c as int;
    n == 0x09 || n == 0x0A || n == 0x0B || n == 0x0C || n == 0x0D || n == 0x20 || n == 0xA0 ||
    n == 0x1680 || (0x2000 <= n <= 0x200A) || n == 0x2028 || n == 0x2029 || n == 0x202F ||
    n == 0x205F || n == 0x3000 || n == 0xFEFF
  }

  predicate NoSpace(s: string) {
    forall i :: 0 <= i < |s| ==> !IsSpace(s[i])
  }

  predicate StartsWith(s: string, prefix: string) {
    |prefix| <= |s| && s[..|prefix|] == prefix
  }

  predicate EndsWith(s: string, suffix: string) {
    |suffix| <= |s| && s[|s| - |suffix|..] == suffix
  }

  /** `p` occurs in `s` starting at index `i`. */
  predicate OccursAt(s: string, p: string, i: int) {
    0 <= i && i + |p| <= |s| && s[i..i + |p|] == p
  }

  predicate Contains(s: string, p: string) {
    exists i :: 0 <= i <= |s| && OccursAt(s, p, i)
  }

  function LowerChar(c: char): char {
    if 'A' <= c <= 'Z' then (c as int + 32) as char else c
  }

  /** `toLowerCase` on ASCII letters; every other character is kept. */
  function ToLower(s: string): (r: string)
    ensures |r| == |s|
    ensures forall i :: 0 <= i < |s| ==> r[i] == LowerChar(s[i])
  {
    seq(|s|, i requires 0 <= i < |s| => LowerChar(s[i]))
  }

  /** Drops the leading white space. */
  function TrimStart(s: string): (r: string)
    ensures |r| <= |s| && r == s[|s| - |r|..]
    ensures r == [] || !IsSpace(r[0])
  {
    if s != [] && IsSpace(s[0]) then TrimStart(s[1..]) else s
  }

  /** Drops the trailing white space. */
  function TrimEnd(s: string): (r: string)
    ensures |r| <= |s| && r == s[..|r|]
    ensures r == [] || !IsSpace(r[|r| - 1])
  {
    if s != [] && IsSpace(s[|s| - 1]) then TrimEnd(s[..|s| - 1]) else s
  }

  /** Trimming removes white space only. */
  lemma {:induction false} TrimStartRemovesSpaces(s: string)
    ensures forall i :: 0 <= i < |s| - |TrimStart(s)| ==> IsSpace(s[i])
  {
    if s != [] && IsSpace(s[0]) {
      TrimStartRemovesSpaces(s[1..]);
    }
  }

  lemma {:induction false} TrimEndRemovesSpaces(s: string)
    ensures forall i :: |TrimEnd(s)| <= i < |s| ==> IsSpace(s[i])
  {
    if s != [] && IsSpace(s[|s| - 1]) {
      TrimEndRemovesSpaces(s[..|s| - 1]);
    }
  }

  /** `String.prototype.trim`. */
  function Trim(s: string): (r: string)
    ensures r == [] || (!IsSpace(r[0]) && !IsSpace(r[|r| - 1]))
  {
    TrimEnd(TrimStart(s))
  }

  /**
   * `replace(/\s+/g, '-')` scanned left to right: every maximal run of white space
   * becomes one hyphen; `inRun` says that the character before `s` was white space.
   */
  function CollapseRun(s: string, inRun: bool): (r: string)
    ensures NoSpace(r)
  {
    if s == [] then []
    else if IsSpace(s[0]) then (if inRun then "" else "-") + CollapseRun(s[1..], true)
    else [s[0]] + CollapseRun(s[1..], false)
  }

  function CollapseSpaces(s: string): (r: string)
    ensures NoSpace(r)
  {
    CollapseRun(s, false)
  }

  lemma {:induction false} CollapseRunKeeps(s: string, inRun: bool)
    requires NoSpace(s)
    ensures CollapseRun(s, inRun) == s
  {
    if s != [] {
      CollapseRunKeeps(s[1..], false);
    }
  }

  /** A string without white space is left as it is. */
  lemma CollapseSpacesKeeps(s: string)
    requires NoSpace(s)
    ensures CollapseSpaces(s) == s
  {
    CollapseRunKeeps(s, false);
  }

  lemma {:induction false} CollapseRunAppend(a: string, b: string, inRun: bool)
    requires NoSpace(b)
    ensures CollapseRun(a + b, inRun) == CollapseRun(a, inRun) + b
  {
    if a == [] {
      assert a + b == b;
      CollapseRunKeeps(b, inRun);
    } else {
      assert (a + b)[1..] == a[1..] + b;
      CollapseRunAppend(a[1..], b, IsSpace(a[0]));
    }
  }

  /** Hyphenating white space never reaches into a space-free tail. */
  lemma CollapseSpacesAppend(a: string, b: string)
    requires NoSpace(b)
    ensures CollapseSpaces(a + b) == CollapseSpaces(a) + b
  {
    CollapseRunAppend(a, b, false);
  }

  /** A space-free front part passes through unchanged. */
  lemma {:induction false} CollapseRunPrefix(a: string, b: string)
    requires NoSpace(a) && a != []
    ensures CollapseRun(a + b, false) == a + CollapseRun(b, false)
  {
    assert (a + b)[1..] == a[1..] + b;
    if |a| == 1 {
      assert a[1..] + b == b;
      assert a == [a[0]];
    } else {
      CollapseRunPrefix(a[1..], b);
      assert a == [a[0]] + a[1..];
    }
  }

  /** One space between two words becomes one hyphen. */
  lemma CollapseOneSpace(a: string, b: string)
    requires NoSpace(a) && NoSpace(b) && a != []
    ensures CollapseSpaces(a + " " + b) == a + "-" + b
  {
    assert a + " " + b == a + (" " + b);
    CollapseRunPrefix(a, " " + b);
    assert (" " + b)[1..] == b;
    CollapseRunKeeps(b, true);
  }

  /** A string that neither starts nor ends in white space is its own trim. */
  lemma TrimKeeps(s: string)
    requires s == [] || (!IsSpace(s[0]) && !IsSpace(s[|s| - 1]))
    ensures Trim(s) == s
  {
  }

  predicate AllSpace(s: string) {
    forall i :: 0 <= i < |s| ==> IsSpace(s[i])
  }

  /** Whether the scan is inside a run of white space once it has passed `a`. */
  function RunAfter(a: string, inRun: bool): bool {
    if a == [] then inRun else IsSpace(a[|a| - 1])
  }

  /** The scan over `a + b` is the scan over `a`, then the scan over `b` in the state `a` leaves. */
  lemma {:induction false} CollapseRunConcat(a: string, b: string, inRun: bool)
    ensures CollapseRun(a + b, inRun) == CollapseRun(a, inRun) + CollapseRun(b, RunAfter(a, inRun))
    decreases |a|
  {
    if a == [] {
      assert a + b == b;
    } else {
      assert (a + b)[0] == a[0];
      assert (a + b)[1..] == a[1..] + b;
      CollapseRunConcat(a[1..], b, IsSpace(a[0]));
      if |a| > 1 {
        assert a[1..][|a| - 2] == a[|a| - 1];
      }
    }
  }

  /** A text that does not start with white space is scanned alike in either state. */
  lemma CollapseRunStart(b: string, inRun: bool)
    requires b == [] || !IsSpace(b[0])
    ensures CollapseRun(b, inRun) == CollapseRun(b, false)
  {
  }

  /** Cutting a text anywhere but inside a run of white space cuts its hyphenation there too. */
  lemma CollapseSpacesSplit(a: string, b: string)
    requires a == [] || !IsSpace(a[|a| - 1]) || b == [] || !IsSpace(b[0])
    ensures CollapseSpaces(a + b) == CollapseSpaces(a) + CollapseSpaces(b)
  {
    CollapseRunConcat(a, b, false);
    if !(a == [] || !IsSpace(a[|a| - 1])) {
      CollapseRunStart(b, RunAfter(a, false));
    }
  }

  lemma {:induction false} CollapseRunInRun(w: string)
    requires AllSpace(w)
    ensures CollapseRun(w, true) == ""
  {
    if w != [] {
      CollapseRunInRun(w[1..]);
    }
  }

  /** A whole run of white space becomes a single hyphen. */
  lemma CollapseSpacesRun(w: string)
    requires w != [] && AllSpace(w)
    ensures CollapseSpaces(w) == "-"
  {
    CollapseRunInRun(w[1..]);
  }

  /** A maximal run of white space between two parts becomes exactly one hyphen, and the parts are hyphenated on their own. */
  lemma CollapseSpacesGap(a: string, w: string, b: string)
    requires a == [] || !IsSpace(a[|a| - 1])
    requires w != [] && AllSpace(w)
    requires b == [] || !IsSpace(b[0])
    ensures CollapseSpaces(a + w + b) == CollapseSpaces(a) + "-" + CollapseSpaces(b)
  {
    CollapseSpacesSplit(a, w);
    CollapseSpacesSplit(a + w, b);
    CollapseSpacesRun(w);
  }

  lemma {:induction false} TrimStartSpaces(lead: string, x: string)
    requires AllSpace(lead) && (x == [] || !IsSpace(x[0]))
    ensures TrimStart(lead + x) == x
  {
    if lead == [] {
      assert lead + x == x;
    } else {
      assert (lead + x)[1..] == lead[1..] + x;
      TrimStartSpaces(lead[1..], x);
    }
  }

  lemma {:induction false} TrimEndSpaces(x: string, trail: string)
    requires AllSpace(trail) && (x == [] || !IsSpace(x[|x| - 1]))
    ensures TrimEnd(x + trail) == x
    decreases |trail|
  {
    if trail == [] {
      assert x + trail == x;
    } else {
      assert (x + trail)[..|x + trail| - 1] == x + trail[..|trail| - 1];
      TrimEndSpaces(x, trail[..|trail| - 1]);
    }
  }

  /** Trimming removes exactly the white space around a text that neither starts nor ends in it. */
  lemma TrimSpaces(lead: string, m: string, trail: string)
    requires AllSpace(lead) && AllSpace(trail)
    requires m == [] || (!IsSpace(m[0]) && !IsSpace(m[|m| - 1]))
    ensures Trim(lead + m + trail) == m
  {
    if m == [] {
      assert lead + m + trail == (lead + trail) + [];
      TrimStartSpaces(lead + trail, []);
    } else {
      assert lead + m + trail == lead + (m + trail);
      TrimStartSpaces(lead, m + trail);
      TrimEndSpaces(m, trail);
    }
  }

  /** A prefix one longer is the prefix and the next element. */
  lemma TakeSnoc<T>(s: seq<T>, i: nat)
    requires i < |s|
    ensures s[..i + 1] == s[..i] + [s[i]]
  {
  }

  /** Concatenation regroups freely. */
  lemma AppendAssoc<T>(x: seq<T>, y: seq<T>, z: seq<T>)
    ensures x + (y + z) == (x + y) + z
  {
  }

  lemma ToLowerAppend(a: string, b: string)
    ensures ToLower(a + b) == ToLower(a) + ToLower(b)
  {
  }

  lemma EndsWithAppend(a: string, b: string, suffix: string)
    requires |suffix| <= |b|
    ensures EndsWith(a + b, suffix) <==> EndsWith(b, suffix)
  {
    assert (a + b)[|a + b| - |suffix|..] == b[|b| - |suffix|..];
  }

  /** The characters that give a `$` in a replacement string a meaning. */
  predicate IsDollarCode(c: char) {
    c == '$' || c == '&' || c == '`' || c == '\''
  }

  /**
   * The text that replaces one match of a replace call: `$$`, `$&`, `` $` `` and `$'`
   * are expanded as String.prototype.replace expands them when the pattern has no
   * capture groups; every other `$` stands for itself.
   */
  function Expand(rep: string, matched: string, before: string, after: string): string
    decreases |rep|
  {
    if |rep| >= 2 && rep[0] == '$' && IsDollarCode(rep[1]) then
      (if rep[1] == '$' then "$" else if rep[1] == '&' then matched else if rep[1] == '`' then before else after)
      + Expand(rep[2..], matched, before, after)
    else if rep == [] then []
    else [rep[0]] + Expand(rep[1..], matched, before, after)
  }

  lemma {:induction false} ExpandPlain(rep: string, matched: string, before: string, after: string)
    requires '$' !in rep
    ensures Expand(rep, matched, before, after) == rep
  {
    if rep != [] {
      ExpandPlain(rep[1..], matched, before, after);
    }
  }

  /** Every character of an expansion comes from the replacement, the match or the text around it. */
  lemma {:induction false} ExpandChars(rep: string, matched: string, before: string, after: string, c: char)
    requires c in Expand(rep, matched, before, after)
    ensures c in rep || c in matched || c in before || c in after
    decreases |rep|
  {
    if |rep| >= 2 && rep[0] == '$' && IsDollarCode(rep[1]) {
      var head := if rep[1] == '$' then "$" else if rep[1] == '&' then matched else if rep[1] == '`' then before else after;
      if c !in head {
        assert c in Expand(rep[2..], matched, before, after);
        ExpandChars(rep[2..], matched, before, after, c);
      }
    } else if rep != [] {
      if c != rep[0] {
        assert c in Expand(rep[1..], matched, before, after);
        ExpandChars(rep[1..], matched, before, after, c);
      }
    }
  }

  /**
   * A global replace of the literal `pat` in `s` (a regular expression with the `g` flag
   * and no groups); `before` is the part of the original string already scanned.
   */
  function ReplaceAllFrom(before: string, s: string, pat: string, rep: string): string
    requires pat != []
    decreases |s|
  {
    if |s| < |pat| then s
    else if s[..|pat|] == pat then
      Expand(rep, pat, before, s[|pat|..]) + ReplaceAllFrom(before + pat, s[|pat|..], pat, rep)
    else [s[0]] + ReplaceAllFrom(before + [s[0]], s[1..], pat, rep)
  }

  function ReplaceAll(s: string, pat: string, rep: string): string
    requires pat != []
  {
    ReplaceAllFrom([], s, pat, rep)
  }

  /** Where the pattern's first character never appears, a global replace changes nothing. */
  lemma {:induction false} ReplaceAllFromNoMatch(before: string, s: string, pat: string, rep: string)
    requires pat != [] && pat[0] !in s
    ensures ReplaceAllFrom(before, s, pat, rep) == s
    decreases |s|
  {
    if |s| >= |pat| {
      assert s[..|pat|][0] != pat[0];
      ReplaceAllFromNoMatch(before + [s[0]], s[1..], pat, rep);
      assert s == [s[0]] + s[1..];
    }
  }

  /** A leading occurrence is expanded with nothing before it and the rest of the text after it. */
  lemma ReplaceAllLeading(pat: string, rest: string, rep: string)
    requires pat != [] && pat[0] !in rest
    ensures ReplaceAll(pat + rest, pat, rep) == Expand(rep, pat, [], rest) + rest
  {
    var s := pat + rest;
    assert s[..|pat|] == pat && s[|pat|..] == rest;
    ReplaceAllFromNoMatch([] + pat, rest, pat, rep);
  }

  /** `s.replace(pat, rep)` with a string pattern: only the first occurrence is replaced. */
  function ReplaceFirstFrom(before: string, s: string, pat: string, rep: string): string
    requires pat != []
    decreases |s|
  {
    if |s| < |pat| then s
    else if s[..|pat|] == pat then Expand(rep, pat, before, s[|pat|..]) + s[|pat|..]
    else [s[0]] + ReplaceFirstFrom(before + [s[0]], s[1..], pat, rep)
  }

  function ReplaceFirst(s: string, pat: string, rep: string): string
    requires pat != []
  {
    ReplaceFirstFrom([], s, pat, rep)
  }

  /** Where the pattern's first character never appears, a first-occurrence replace changes nothing. */
  lemma {:induction false} ReplaceFirstFromNoMatch(before: string, s: string, pat: string, rep: string)
    requires pat != [] && pat[0] !in s
    ensures ReplaceFirstFrom(before, s, pat, rep) == s
    decreases |s|
  {
    if |s| >= |pat| {
      assert s[..|pat|][0] != pat[0];
      ReplaceFirstFromNoMatch(before + [s[0]], s[1..], pat, rep);
      assert s == [s[0]] + s[1..];
    }
  }

  /** No occurrence of `pat` starts inside `a` when `pat` follows it: the match after `a` is the first. */
  predicate NoEarlyOccurrence(a: string, pat: string) {
    forall i :: 0 <= i < |a| ==> !OccursAt(a + pat, pat, i)
  }

  /** When the pattern's first character is not in `a`, no match starts inside `a`. */
  lemma FirstCharAbsent(a: string, pat: string)
    requires pat != [] && pat[0] !in a
    ensures NoEarlyOccurrence(a, pat)
  {
    forall i | 0 <= i < |a| ensures !OccursAt(a + pat, pat, i) {
      assert (a + pat)[i] == a[i] != pat[0];
      if i + |pat| <= |a + pat| {
        assert (a + pat)[i..i + |pat|][0] == a[i];
      }
    }
  }

  lemma NoEarlyOccurrenceTail(a: string, pat: string)
    requires a != [] && NoEarlyOccurrence(a, pat)
    ensures NoEarlyOccurrence(a[1..], pat)
  {
    forall i | 0 <= i < |a| - 1 ensures !OccursAt(a[1..] + pat, pat, i) {
      assert !OccursAt(a + pat, pat, i + 1);
      if i + |pat| <= |a[1..] + pat| {
        assert (a[1..] + pat)[i..i + |pat|] == (a + pat)[i + 1..i + 1 + |pat|];
      }
    }
  }

  lemma NoOccurrenceTail(s: string, pat: string)
    requires s != [] && !Contains(s, pat)
    ensures !Contains(s[1..], pat)
  {
    forall i | 0 <= i <= |s[1..]| ensures !OccursAt(s[1..], pat, i) {
      assert !OccursAt(s, pat, i + 1);
      if i + |pat| <= |s[1..]| {
        assert s[1..][i..i + |pat|] == s[i + 1..i + 1 + |pat|];
      }
    }
  }

  /** A text that starts inside `a` does not start with the match that follows `a`. */
  lemma FirstNotAtStart(a: string, pat: string, b: string)
    requires pat != [] && a != [] && NoEarlyOccurrence(a, pat)
    ensures |a + pat + b| >= |pat| && (a + pat + b)[..|pat|] != pat
  {
    assert !OccursAt(a + pat, pat, 0);
    assert (a + pat + b)[..|pat|] == (a + pat)[0..|pat|];
  }

  /**
   * The global replace copies the text before the first match, expands the match
   * with that text before it and the rest after it, then goes on after the match.
   */
  lemma {:induction false} ReplaceAllSplit(before: string, a: string, pat: string, b: string, rep: string)
    requires pat != [] && NoEarlyOccurrence(a, pat)
    ensures ReplaceAllFrom(before, a + pat + b, pat, rep) ==
      a + Expand(rep, pat, before + a, b) + ReplaceAllFrom(before + a + pat, b, pat, rep)
    decreases |a|
  {
    if a == [] {
      var s := pat + b;
      assert a + pat + b == s && before + a == before;
      assert s[..|pat|] == pat && s[|pat|..] == b;
    } else {
      var s, t := a + pat + b, a[1..] + pat + b;
      FirstNotAtStart(a, pat, b);
      assert s[0] == a[0] && s[1..] == t;
      assert ReplaceAllFrom(before, s, pat, rep) == [a[0]] + ReplaceAllFrom(before + [a[0]], t, pat, rep);
      NoEarlyOccurrenceTail(a, pat);
      ReplaceAllSplit(before + [a[0]], a[1..], pat, b, rep);
      assert before + [a[0]] + a[1..] == before + a;
      assert a == [a[0]] + a[1..];
    }
  }

  /** A text without an occurrence of the pattern comes out of a global replace unchanged. */
  lemma {:induction false} ReplaceAllNone(before: string, s: string, pat: string, rep: string)
    requires pat != [] && !Contains(s, pat)
    ensures ReplaceAllFrom(before, s, pat, rep) == s
    decreases |s|
  {
    if |s| >= |pat| {
      assert !OccursAt(s, pat, 0);
      NoOccurrenceTail(s, pat);
      ReplaceAllNone(before + [s[0]], s[1..], pat, rep);
      assert s == [s[0]] + s[1..];
    }
  }

  /** With a replacement free of `$`, what was scanned before does not matter. */
  lemma {:induction false} ReplaceAllRebase(before: string, other: string, s: string, pat: string, rep: string)
    requires pat != [] && '$' !in rep
    ensures ReplaceAllFrom(before, s, pat, rep) == ReplaceAllFrom(other, s, pat, rep)
    decreases |s|
  {
    if |s| >= |pat| {
      if s[..|pat|] == pat {
        ExpandPlain(rep, pat, before, s[|pat|..]);
        ExpandPlain(rep, pat, other, s[|pat|..]);
        ReplaceAllRebase(before + pat, other + pat, s[|pat|..], pat, rep);
      } else {
        ReplaceAllRebase(before + [s[0]], other + [s[0]], s[1..], pat, rep);
      }
    }
  }

  /** A global replace inserts no white space that neither the text nor a `$`-free replacement has. */
  lemma {:induction false} ReplaceAllNoSpace(before: string, s: string, pat: string, rep: string)
    requires pat != [] && NoSpace(s) && NoSpace(rep) && '$' !in rep
    ensures NoSpace(ReplaceAllFrom(before, s, pat, rep))
    decreases |s|
  {
    if |s| >= |pat| {
      if s[..|pat|] == pat {
        ExpandPlain(rep, pat, before, s[|pat|..]);
        ReplaceAllNoSpace(before + pat, s[|pat|..], pat, rep);
      } else {
        ReplaceAllNoSpace(before + [s[0]], s[1..], pat, rep);
      }
    }
  }

  /** A `$`-free replacement takes the place of the first match, and the rest is replaced alike. */
  lemma ReplaceAllFirst(a: string, pat: string, b: string, rep: string)
    requires pat != [] && NoEarlyOccurrence(a, pat) && '$' !in rep
    ensures ReplaceAll(a + pat + b, pat, rep) == a + rep + ReplaceAll(b, pat, rep)
  {
    ReplaceAllSplit([], a, pat, b, rep);
    ExpandPlain(rep, pat, [] + a, b);
    ReplaceAllRebase([] + a + pat, [], b, pat, rep);
  }

  /** The first-occurrence replace copies the text before the first match, expands the match and keeps the rest. */
  lemma {:induction false} ReplaceFirstSplit(before: string, a: string, pat: string, b: string, rep: string)
    requires pat != [] && NoEarlyOccurrence(a, pat)
    ensures ReplaceFirstFrom(before, a + pat + b, pat, rep) == a + Expand(rep, pat, before + a, b) + b
    decreases |a|
  {
    if a == [] {
      var s := pat + b;
      assert a + pat + b == s && before + a == before;
      assert s[..|pat|] == pat && s[|pat|..] == b;
    } else {
      var s, t := a + pat + b, a[1..] + pat + b;
      FirstNotAtStart(a, pat, b);
      assert s[0] == a[0] && s[1..] == t;
      assert ReplaceFirstFrom(before, s, pat, rep) == [a[0]] + ReplaceFirstFrom(before + [a[0]], t, pat, rep);
      NoEarlyOccurrenceTail(a, pat);
      ReplaceFirstSplit(before + [a[0]], a[1..], pat, b, rep);
      assert before + [a[0]] + a[1..] == before + a;
      assert a == [a[0]] + a[1..];
    }
  }

  /** A text without an occurrence of the pattern comes out of a first-occurrence replace unchanged. */
  lemma {:induction false} ReplaceFirstNone(before: string, s: string, pat: string, rep: string)
    requires pat != [] && !Contains(s, pat)
    ensures ReplaceFirstFrom(before, s, pat, rep) == s
    decreases |s|
  {
    if |s| >= |pat| {
      assert !OccursAt(s, pat, 0);
      NoOccurrenceTail(s, pat);
      ReplaceFirstNone(before + [s[0]], s[1..], pat, rep);
      assert s == [s[0]] + s[1..];
    }
  }

  /** Joins segments with a separator, as `path.join` does for plain names. */
  function Join(parts: seq<string>, sep: string): string {
    if parts == [] then ""
    else if |parts| == 1 then parts[0]
    else parts[0] + sep + Join(parts[1..], sep)
  }

  /** `replace(/\\/g, '/')`. */
  function NormalizeSlashes(s: string): (r: string)
    ensures |r| == |s| && '\\' !in r
    ensures forall i :: 0 <= i < |s| && s[i] != '\\' ==> r[i] == s[i]
  {
    seq(|s|, i requires 0 <= i < |s| => if s[i] == '\\' then '/' else s[i])
  }

  lemma NormalizeSlashesKeeps(s: string)
    requires '\\' !in s
    ensures NormalizeSlashes(s) == s
  {
  }

  /** `c.repeat(n)`. */
  function Repeat(c: char, n: nat): (r: string)
    ensures |r| == n && forall i :: 0 <= i < n ==> r[i] == c
  {
    seq(n, _ => c)
  }

  /** The decimal digit of `d`. */
  function Digit(d: nat): (c: char)
    requires d < 10
    ensures '0' <= c <= '9'
  {
    ('0' as int + d) as char
  }

  /** `n.toString()` for a non-negative integer: its decimal digits, without leading zeros. */
  function NatToString(n: nat): (r: string)
    ensures |r| >= 1 && forall i :: 0 <= i < |r| ==> '0' <= r[i] <= '9'
    ensures n < 10 <==> |r| == 1
    ensures r[0] == '0' ==> n == 0
    decreases n
  {
    if n < 10 then [Digit(n)] else NatToString(n / 10) + [Digit(n % 10)]
  }

  /** The number a string of decimal digits denotes. */
  function DecimalValue(s: string): nat
    requires forall i :: 0 <= i < |s| ==> '0' <= s[i] <= '9'
  {
    if s == [] then 0 else DecimalValue(s[..|s| - 1]) * 10 + (s[|s| - 1] as int - '0' as int)
  }

  /** The numeral denotes the number it was made from. */
  lemma {:induction false} NatToStringValue(n: nat)
    ensures DecimalValue(NatToString(n)) == n
    decreases n
  {
    if n >= 10 {
      NatToStringValue(n / 10);
      var r := NatToString(n);
      assert r[..|r| - 1] == NatToString(n / 10);
    }
  }

  /** Different numbers have different numerals. */
  lemma NatToStringInjective(m: nat, n: nat)
    requires NatToString(m) == NatToString(n)
    ensures m == n
  {
    NatToStringValue(m);
    NatToStringValue(n);
  }
}
