/**
 * The exclusion policy (`shouldExcludeFile`): four rules tried in a fixed order,
 * the first that fires excluding the entry. An entry is named by its path below
 * the workspace root, one segment per directory level; the workspace itself is
 * named by the base name of its root folder.
 */
module Exclusion {
  import opened Wrappers
  import opened Text
  import opened Settings
  import opened OutputNames
  import opened Glob

  /** The rule that excluded an entry, in the order the rules are tried. */
  datatype Rule = CurrentOutput | LikelyOutput | Hidden | Pattern(index: nat)

  /** `path.relative(root, file).replace(/\\/g, '/')` for a file given by its segments. */
  function RelativePath(segs: seq<string>): string {
    NormalizeSlashes(Join(segs, "/"))
  }

  /** `fileName.startsWith('.')`. */
  predicate IsHidden(name: string) {
    name != [] && name[0] == '.'
  }

  /** Every exclude pattern stays inside the grammar the matcher models. */
  predicate AllSupported(patterns: seq<string>) {
    forall i :: 0 <= i < |patterns| ==> Supported(patterns[i])
  }

  /** The first pattern from index `from` on that matches `path`. */
  function FirstMatch(path: string, patterns: seq<string>, from: nat): Option<nat>
    requires AllSupported(patterns)
    decreases |patterns| - from
  {
    if from >= |patterns| then None
    else if MatchesPattern(path, patterns[from]) then Some(from)
    else FirstMatch(path, patterns, from + 1)
  }

  /** `FirstMatch` finds a matching pattern with none before it, and finds none only when none matches. */
  lemma {:induction false} FirstMatchSpec(path: string, patterns: seq<string>, from: nat)
    requires AllSupported(patterns)
    decreases |patterns| - from
    ensures var r := FirstMatch(path, patterns, from);
      (r.Some? ==> from <= r.value < |patterns| && MatchesPattern(path, patterns[r.value])) &&
      (r.Some? ==> forall k :: from <= k < r.value ==> !MatchesPattern(path, patterns[k])) &&
      (r.None? ==> forall k :: from <= k < |patterns| ==> !MatchesPattern(path, patterns[k]))
  {
    if from >= |patterns| {
      assert FirstMatch(path, patterns, from) == None;
    } else if MatchesPattern(path, patterns[from]) {
      assert FirstMatch(path, patterns, from) == Some(from);
    } else {
      assert FirstMatch(path, patterns, from) == FirstMatch(path, patterns, from + 1);
      FirstMatchSpec(path, patterns, from + 1);
    }
  }

  /** The rule that excludes the entry, taken in the order the source tries them, or none. */
  function FirstRule(segs: seq<string>, config: Config, base: string): Option<Rule>
    requires segs != [] && AllSupported(config.excludePatterns)
  {
    var name := segs[|segs| - 1];
    if IsCurrentOutputFile(name, config, base) then Some(CurrentOutput)
    else if IsLikelyOutputFile(name) then Some(LikelyOutput)
    else if !config.includeHiddenFiles && IsHidden(name) then Some(Hidden)
    else match FirstMatch(RelativePath(segs), config.excludePatterns, 0)
      case Some(k) => Some(Pattern(k))
      case None => None
  }

  /** Some rule fires: the entry is left out of the export. */
  predicate Excluded(segs: seq<string>, config: Config, base: string)
    requires segs != [] && AllSupported(config.excludePatterns)
  {
    var name := segs[|segs| - 1];
    var patterns := config.excludePatterns;
    IsCurrentOutputFile(name, config, base) ||
    IsLikelyOutputFile(name) ||
    (!config.includeHiddenFiles && IsHidden(name)) ||
    AnyPatternMatches(RelativePath(segs), patterns)
  }

  /** Some exclude pattern matches the path. */
  predicate AnyPatternMatches(path: string, patterns: seq<string>)
    requires AllSupported(patterns)
  {
    exists k :: 0 <= k < |patterns| && MatchesPattern(path, patterns[k])
  }

  /** `shouldExcludeFile`: the rules in order, the patterns one by one until one matches. */
  method ShouldExcludeFile(segs: seq<string>, config: Config, base: string)
    returns (excluded: bool, rule: Option<Rule>)
    requires segs != [] && AllSupported(config.excludePatterns)
    ensures rule == FirstRule(segs, config, base)
    ensures excluded <==> Excluded(segs, config, base)
  {
    FirstRuleIffExcluded(segs, config, base);
    var name := segs[|segs| - 1];
    if IsCurrentOutputFile(name, config, base) {
      return true, Some(CurrentOutput);
    }
    if IsLikelyOutputFile(name) {
      return true, Some(LikelyOutput);
    }
    if !config.includeHiddenFiles && IsHidden(name) {
      return true, Some(Hidden);
    }
    var k := MatchingPattern(RelativePath(segs), config.excludePatterns);
    if k.Some? {
      return true, Some(Pattern(k.value));
    }
    return false, None;
  }

  /** The `for ... of` over the exclude patterns: the index of the first that matches. */
  method MatchingPattern(path: string, patterns: seq<string>) returns (k: Option<nat>)
    requires AllSupported(patterns)
    ensures k == FirstMatch(path, patterns, 0)
  {
    for i := 0 to |patterns|
      invariant FirstMatch(path, patterns, 0) == FirstMatch(path, patterns, i)
    {
      if MatchesPattern(path, patterns[i]) {
        return Some(i);
      }
    }
    return None;
  }

  // ---------------------------------------------------------------- properties

  /** The ordered rules fire exactly when some rule holds: an entry is kept iff none fires. */
  lemma FirstRuleIffExcluded(segs: seq<string>, config: Config, base: string)
    requires segs != [] && AllSupported(config.excludePatterns)
    ensures FirstRule(segs, config, base).Some? <==> Excluded(segs, config, base)
  {
    var path := RelativePath(segs);
    var patterns := config.excludePatterns;
    FirstMatchSpec(path, patterns, 0);
    if exists k :: 0 <= k < |patterns| && MatchesPattern(path, patterns[k]) {
      var k :| 0 <= k < |patterns| && MatchesPattern(path, patterns[k]);
      assert FirstMatch(path, patterns, 0).Some?;
    }
  }

  /** A pattern rule names the earliest pattern that matches, and only when no earlier rule fired. */
  lemma PatternRuleIsEarliest(segs: seq<string>, config: Config, base: string, k: nat)
    requires segs != [] && AllSupported(config.excludePatterns)
    requires FirstRule(segs, config, base) == Some(Pattern(k))
    ensures k < |config.excludePatterns| && MatchesPattern(RelativePath(segs), config.excludePatterns[k])
    ensures forall j :: 0 <= j < k ==> !MatchesPattern(RelativePath(segs), config.excludePatterns[j])
    ensures !IsCurrentOutputFile(segs[|segs| - 1], config, base) && !IsLikelyOutputFile(segs[|segs| - 1])
    ensures config.includeHiddenFiles || !IsHidden(segs[|segs| - 1])
  {
    var name := segs[|segs| - 1];
    assert !IsCurrentOutputFile(name, config, base);
    assert !IsLikelyOutputFile(name);
    assert config.includeHiddenFiles || !IsHidden(name);
    assert FirstMatch(RelativePath(segs), config.excludePatterns, 0) == Some(k);
    FirstMatchSpec(RelativePath(segs), config.excludePatterns, 0);
  }

  /** Whether some pattern matches does not depend on the order of the patterns. */
  lemma AnyPatternPermutation(path: string, patterns: seq<string>, others: seq<string>)
    requires AllSupported(patterns) && AllSupported(others)
    requires multiset(patterns) == multiset(others)
    ensures AnyPatternMatches(path, patterns) ==> AnyPatternMatches(path, others)
  {
    if AnyPatternMatches(path, patterns) {
      var k :| 0 <= k < |patterns| && MatchesPattern(path, patterns[k]);
      assert patterns[k] in multiset(others);
      var j :| 0 <= j < |others| && others[j] == patterns[k];
    }
  }

  /** Whether an entry is excluded does not depend on the order of the exclude patterns. */
  lemma PatternOrderIrrelevant(segs: seq<string>, config: Config, patterns: seq<string>, base: string)
    requires segs != [] && AllSupported(config.excludePatterns) && AllSupported(patterns)
    requires multiset(patterns) == multiset(config.excludePatterns)
    ensures Excluded(segs, config.(excludePatterns := patterns), base) <==> Excluded(segs, config, base)
  {
    var path := RelativePath(segs);
    AnyPatternPermutation(path, patterns, config.excludePatterns);
    AnyPatternPermutation(path, config.excludePatterns, patterns);
    var other := config.(excludePatterns := patterns);
    assert other.outputFileName == config.outputFileName && other.outputFormat == config.outputFormat;
    assert IsCurrentOutputFile(segs[|segs| - 1], other, base) == IsCurrentOutputFile(segs[|segs| - 1], config, base);
  }

  /** The output of a configured format is never exported, whatever the hidden-file and pattern settings. */
  lemma CurrentOutputAlwaysExcluded(segs: seq<string>, config: Config, base: string, ext: string)
    requires segs != [] && AllSupported(config.excludePatterns)
    requires (ext == "txt" && WantsTxt(config.outputFormat)) || (ext == "md" && WantsMd(config.outputFormat))
    requires segs[|segs| - 1] == OutputFileName(config, base, ext)
    ensures FirstRule(segs, config, base) == Some(CurrentOutput)
  {
  }

  /**
   * With the default template, a text or markdown output name is excluded even when
   * the configured format does not produce it, because it looks like output.
   */
  lemma DefaultOutputNamesExcluded(segs: seq<string>, config: Config, base: string, ext: string)
    requires segs != [] && AllSupported(config.excludePatterns)
    requires config.outputFileName == DefaultTemplate && (ext == "txt" || ext == "md")
    requires segs[|segs| - 1] == OutputFileName(config, base, ext)
    ensures FirstRule(segs, config, base) == Some(CurrentOutput) || FirstRule(segs, config, base) == Some(LikelyOutput)
  {
    DefaultNamesLookLikeOutput(config, base, ext);
  }

  /** Hidden entries are kept when `includeHiddenFiles` is set, unless another rule fires. */
  lemma HiddenRuleNeedsSetting(segs: seq<string>, config: Config, base: string)
    requires segs != [] && AllSupported(config.excludePatterns)
    ensures FirstRule(segs, config, base) == Some(Hidden) <==>
      !config.includeHiddenFiles && IsHidden(segs[|segs| - 1]) &&
      !IsCurrentOutputFile(segs[|segs| - 1], config, base) && !IsLikelyOutputFile(segs[|segs| - 1])
  {
  }

  // A `dir/**` pattern excludes the directory `dir` itself and every entry below it.
  lemma DirectoryPatternExcludes(segs: seq<string>, config: Config, base: string, k: nat, dir: string)
    requires segs != [] && AllSupported(config.excludePatterns)
    requires k < |config.excludePatterns| && config.excludePatterns[k] == dir + "/**" && '\\' !in dir
    requires RelativePath(segs) == dir || StartsWith(RelativePath(segs), dir + "/")
    ensures Excluded(segs, config, base)
  {
    DirectoryPattern(RelativePath(segs), dir);
  }
}
