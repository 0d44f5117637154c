/**
 * How the exporter names its own output (`generateProjectName`,
 * `generateOutputFileName`) and how it recognises files that are, or look like,
 * its output (`isCurrentOutputFile`, `isLikelyOutputFile`). The workspace is
 * given by the base name of its root folder.
 */
module OutputNames {
  import opened Text
  import opened Settings

  /** A character `generateOutputFileName` replaces with a hyphen. */
  predicate IsIllegal(c: char) {
    c == '<' || c == '>' || c == ':' || c == '"' || c == '/' || c == '\\' || c == '|' || c == '?' || c == '*'
  }

  predicate NoIllegal(s: string) {
    forall i :: 0 <= i < |s| ==> !IsIllegal(s[i])
  }

  /** `generateProjectName`: the trimmed base name with every run of white space made one hyphen. */
  function ProjectName(base: string): (r: string)
    ensures NoSpace(r)
  {
    CollapseSpaces(Trim(base))
  }

  /** `replace(/[<>:"/\\|?*]/g, '-')`. */
  function ReplaceIllegal(s: string): (r: string)
    ensures |r| == |s| && NoIllegal(r)
    ensures forall i :: 0 <= i < |s| && !IsIllegal(s[i]) ==> r[i] == s[i]
    ensures NoSpace(s) ==> NoSpace(r)
  {
    seq(|s|, i requires 0 <= i < |s| => if IsIllegal(s[i]) then '-' else s[i])
  }

  /** The name ends in `.txt` or `.md`, in any case. */
  predicate HasOutputExt(s: string) {
    EndsWith(ToLower(s), ".txt") || EndsWith(ToLower(s), ".md")
  }

  /** `replace(/\.(txt|md)$/i, '')`: one such ending is removed, and only one. */
  function StripOutputExt(s: string): (r: string)
    ensures StartsWith(s, r)
    ensures r == s <==> !HasOutputExt(s)
    ensures r != s ==> |s| - |r| == (if EndsWith(ToLower(s), ".txt") then 4 else 3)
  {
    var l := ToLower(s);
    if EndsWith(l, ".txt") then s[..|s| - 4]
    else if EndsWith(l, ".md") then s[..|s| - 3]
    else s
  }

  /** A prefix of a clean name is clean. */
  lemma CleanPrefix(s: string, r: string)
    requires StartsWith(s, r) && NoSpace(s) && NoIllegal(s)
    ensures NoSpace(r) && NoIllegal(r)
  {
    forall i | 0 <= i < |r| ensures r[i] == s[i] {
      assert r[i] == s[..|r|][i];
    }
  }

  /** The file name before its `.` and format extension. */
  function OutputStem(template: string, base: string): (r: string)
    ensures NoSpace(r) && NoIllegal(r)
  {
    var named := ReplaceAll(Trim(template), Placeholder, ProjectName(base));
    var cleaned := ReplaceIllegal(CollapseSpaces(named));
    CleanPrefix(cleaned, StripOutputExt(cleaned));
    StripOutputExt(cleaned)
  }

  /** `generateOutputFileName(config, workspace, ext)`: the stem, a dot and the format's extension. */
  function OutputFileName(config: Config, base: string, ext: string): string {
    OutputStem(config.outputFileName, base) + "." + ext
  }

  /** The markers of `isLikelyOutputFile`'s four patterns, lower-cased: the patterns ignore case. */
  const OutputMarkers: seq<string> := ["-estrutura-e-arquivos-do-projeto", "-output", "-project-export", "-full-project"]

  /** One pattern: the lower-cased name ends in the marker followed by `.txt` or `.md`. */
  predicate EndsWithMarker(l: string, marker: string) {
    EndsWith(l, marker + ".txt") || EndsWith(l, marker + ".md")
  }

  /** `outputPatterns.some(...)`. */
  predicate SomeMarker(l: string, markers: seq<string>) {
    markers != [] && (EndsWithMarker(l, markers[0]) || SomeMarker(l, markers[1..]))
  }

  /** `isLikelyOutputFile`: the base name, ignoring case, ends in one of the markers and `.txt` or `.md`. */
  predicate IsLikelyOutputFile(name: string) {
    SomeMarker(ToLower(name), OutputMarkers)
  }

  /** `isCurrentOutputFile`: the base name is the output name of a format the configuration produces. */
  predicate IsCurrentOutputFile(name: string, config: Config, base: string) {
    (WantsTxt(config.outputFormat) && name == OutputFileName(config, base, "txt")) ||
    (WantsMd(config.outputFormat) && name == OutputFileName(config, base, "md"))
  }

  // ---------------------------------------------------------------- properties

  lemma ReplaceIllegalAppend(a: string, b: string)
    ensures ReplaceIllegal(a + b) == ReplaceIllegal(a) + ReplaceIllegal(b)
  {
  }

  /** An ending decided by the last four characters is decided by the tail alone. */
  lemma HasOutputExtAppend(a: string, b: string)
    requires |b| >= 4
    ensures HasOutputExt(a + b) <==> HasOutputExt(b)
  {
    ToLowerAppend(a, b);
    EndsWithAppend(ToLower(a), ToLower(b), ".txt");
    EndsWithAppend(ToLower(a), ToLower(b), ".md");
  }

  /** A name that is already clean keeps its spelling as a project name. */
  lemma ProjectNameKeeps(base: string)
    requires NoSpace(base)
    ensures ProjectName(base) == base
  {
    TrimKeeps(base);
    CollapseSpacesKeeps(base);
  }

  lemma NameParts(stem: string, ext: string)
    ensures var r := stem + "." + ext;
      |r| > |ext| && r[..|r| - |ext| - 1] == stem && r[|r| - |ext| - 1..] == "." + ext
  {
  }

  /** A clean stem, a dot and an extension: the part before the dot is clean. */
  lemma CleanStemName(stem: string, ext: string, r: string)
    requires NoSpace(stem) && NoIllegal(stem) && r == stem + "." + ext
    ensures |r| > |ext| && r[|r| - |ext| - 1..] == "." + ext
    ensures NoSpace(r[..|r| - |ext| - 1]) && NoIllegal(r[..|r| - |ext| - 1])
  {
    NameParts(stem, ext);
  }

  /** An output name is a clean stem, a dot and the extension asked for. */
  lemma OutputFileNameShape(config: Config, base: string, ext: string)
    ensures var r := OutputFileName(config, base, ext);
      |r| > |ext| && r[|r| - |ext| - 1..] == "." + ext &&
      NoSpace(r[..|r| - |ext| - 1]) && NoIllegal(r[..|r| - |ext| - 1])
  {
    CleanStemName(OutputStem(config.outputFileName, base), ext, OutputFileName(config, base, ext));
  }

  /** The text and markdown outputs share one stem and differ only in the extension. */
  lemma SharedStem(config: Config, base: string)
    ensures var t, m := OutputFileName(config, base, "txt"), OutputFileName(config, base, "md");
      t[..|t| - 4] == m[..|m| - 3]
  {
    var stem := OutputStem(config.outputFileName, base);
    NameParts(stem, "txt");
    NameParts(stem, "md");
  }

  /**
   * A template made of the placeholder and a clean tail: the stem is the expanded
   * workspace name, hyphenated and cleaned, followed by the tail unchanged.
   */
  lemma LeadingPlaceholder(base: string, tail: string)
    requires CleanTail(tail)
    ensures OutputStem(Placeholder + tail, base) ==
      ReplaceIllegal(CollapseSpaces(Expand(ProjectName(base), Placeholder, [], tail))) + tail
  {
    var t := Placeholder + tail;
    assert !IsSpace(t[0]) && !IsSpace(t[|t| - 1]);
    TrimKeeps(t);
    var e := Expand(ProjectName(base), Placeholder, [], tail);
    ReplaceAllLeading(Placeholder, tail, ProjectName(base));
    assert ReplaceAll(Trim(t), Placeholder, ProjectName(base)) == e + tail;
    CollapseSpacesAppend(e, tail);
    var front := ReplaceIllegal(CollapseSpaces(e));
    ReplaceIllegalAppend(CollapseSpaces(e), tail);
    assert ReplaceIllegal(tail) == tail;
    assert ReplaceIllegal(CollapseSpaces(e + tail)) == front + tail;
    HasOutputExtAppend(front, tail);
    assert StripOutputExt(front + tail) == front + tail;
  }

  /**
   * The workspace name is trimmed and every maximal run of white space inside it
   * becomes one hyphen (with `CollapseSpacesGap` and `CollapseSpacesSplit`).
   */
  lemma ProjectNameRuns(lead: string, m: string, trail: string)
    requires AllSpace(lead) && AllSpace(trail)
    requires m == [] || (!IsSpace(m[0]) && !IsSpace(m[|m| - 1]))
    ensures ProjectName(lead + m + trail) == CollapseSpaces(m)
  {
    TrimSpaces(lead, m, trail);
  }

  /**
   * For a template without white space, the stem is the template with every
   * `{workspaceName}` replaced by the project name, illegal characters made
   * hyphens and one output ending removed.
   */
  lemma OutputStemSubstitutes(template: string, base: string)
    requires NoSpace(template) && '$' !in ProjectName(base)
    ensures OutputStem(template, base) ==
      StripOutputExt(ReplaceIllegal(ReplaceAll(template, Placeholder, ProjectName(base))))
  {
    TrimKeeps(template);
    var named := ReplaceAll(template, Placeholder, ProjectName(base));
    ReplaceAllNoSpace([], template, Placeholder, ProjectName(base));
    CollapseSpacesKeeps(named);
  }

  /**
   * Every `{workspaceName}` becomes the trimmed, hyphenated workspace name: the first
   * one is replaced by it, the text before it is kept, and the rest of the template
   * is replaced alike.
   */
  lemma PlaceholderBecomesProjectName(a: string, b: string, base: string)
    requires NoSpace(a) && NoSpace(b) && '{' !in a && '$' !in ProjectName(base)
    ensures OutputStem(a + Placeholder + b, base) ==
      StripOutputExt(ReplaceIllegal(a + ProjectName(base) + ReplaceAll(b, Placeholder, ProjectName(base))))
  {
    var t := a + Placeholder + b;
    assert NoSpace(Placeholder);
    assert NoSpace(t) by {
      forall i | 0 <= i < |t| ensures !IsSpace(t[i]) {
        if i < |a| {
          assert t[i] == a[i];
        } else if i < |a| + |Placeholder| {
          assert t[i] == Placeholder[i - |a|];
        } else {
          assert t[i] == b[i - |a| - |Placeholder|];
        }
      }
    }
    OutputStemSubstitutes(t, base);
    FirstCharAbsent(a, Placeholder);
    ReplaceAllFirst(a, Placeholder, b, ProjectName(base));
  }

  /** A template without the placeholder is only cleaned and stripped of its output ending. */
  lemma TemplateWithoutPlaceholder(template: string, base: string)
    requires NoSpace(template) && !Contains(template, Placeholder) && '$' !in ProjectName(base)
    ensures OutputStem(template, base) == StripOutputExt(ReplaceIllegal(template))
  {
    OutputStemSubstitutes(template, base);
    ReplaceAllNone([], template, Placeholder, ProjectName(base));
  }

  /** Two words with one space between them, such as `My Project`, become `My-Project`. */
  lemma TwoWordProjectName(a: string, b: string)
    requires a != [] && b != [] && NoSpace(a) && NoSpace(b)
    ensures ProjectName(a + " " + b) == a + "-" + b
  {
    var s := a + " " + b;
    assert s[0] == a[0] && s[|s| - 1] == b[|b| - 1];
    TrimKeeps(s);
    CollapseOneSpace(a, b);
  }

  /** A tail whose last four characters hold no dot cannot end in `.txt` or `.md`. */
  lemma NoOutputExtWithoutDot(s: string)
    requires |s| >= 4 && s[|s| - 4] != '.' && s[|s| - 3] != '.'
    ensures !HasOutputExt(s)
  {
    var l := ToLower(s);
    assert l[|l| - 4..][0] != '.';
    assert l[|l| - 3..][0] != '.';
  }

  /** What a template's text after the placeholder must be for the stem to end in it unchanged. */
  predicate CleanTail(tail: string) {
    |tail| >= 4 && NoSpace(tail) && NoIllegal(tail) && '{' !in tail && !HasOutputExt(tail)
  }

  /** The tail of the default template is clean, so the default stem ends in `-output` as written. */
  lemma OutputTailIsClean()
    ensures CleanTail(DefaultTemplate[|Placeholder|..])
  {
    assert DefaultTemplate[|Placeholder|..] == "-output";
    assert NoSpace("-output");
    assert NoIllegal("-output");
    assert '{' !in "-output";
    NoOutputExtWithoutDot("-output");
  }

  /** A leading placeholder and a clean tail: the stem is the project name, cleaned, followed by the tail. */
  lemma PlaceholderThenCleanTail(base: string, tail: string)
    requires CleanTail(tail)
    requires '$' !in ProjectName(base)
    ensures OutputStem(Placeholder + tail, base) == ReplaceIllegal(ProjectName(base)) + tail
  {
    LeadingPlaceholder(base, tail);
    ExpandPlain(ProjectName(base), Placeholder, [], tail);
    CollapseSpacesKeeps(ProjectName(base));
  }

  /** With a template such as `{workspaceName}-report`, `My Project` gives the stem `My-Project-report`. */
  lemma TwoWordStem(a: string, b: string, tail: string)
    requires a != [] && b != [] && NoSpace(a) && NoSpace(b) && NoIllegal(a) && NoIllegal(b)
    requires '$' !in a && '$' !in b && CleanTail(tail)
    ensures OutputStem(Placeholder + tail, a + " " + b) == a + "-" + b + tail
  {
    TwoWordProjectName(a, b);
    HyphenJoin(a, b);
    PlaceholderThenCleanTail(a + " " + b, tail);
    ReplaceIllegalKeeps(a + "-" + b);
  }

  lemma HyphenJoin(a: string, b: string)
    requires NoIllegal(a) && NoIllegal(b) && '$' !in a && '$' !in b
    ensures NoIllegal(a + "-" + b) && '$' !in a + "-" + b
  {
    var name := a + "-" + b;
    forall i | 0 <= i < |name| ensures !IsIllegal(name[i]) && name[i] != '$' {
      if i < |a| { assert name[i] == a[i]; }
      else if i == |a| { assert name[i] == '-'; }
      else { assert name[i] == b[i - |a| - 1]; }
    }
  }

  lemma ReplaceIllegalKeeps(s: string)
    requires NoIllegal(s)
    ensures ReplaceIllegal(s) == s
  {
  }

  /** A name ending in `-output.txt` or `-output.md`, in any case, looks like output. */
  lemma OutputMarkerLooksLikeOutput(front: string, ending: string)
    requires ending == "-output.txt" || ending == "-output.md"
    ensures IsLikelyOutputFile(front + ending)
  {
    var l := ToLower(front + ending);
    ToLowerAppend(front, ending);
    if ending == "-output.txt" {
      assert ToLower("-output.txt") == "-output.txt";
      assert "-output" + ".txt" == ending;
    } else {
      assert ToLower("-output.md") == "-output.md";
      assert "-output" + ".md" == ending;
    }
    assert l == ToLower(front) + ending;
    EndsWithAppend(ToLower(front), ending, ending);
    assert EndsWith(l, ending);
    assert EndsWithMarker(l, "-output");
    assert OutputMarkers[1..][0] == "-output";
    assert SomeMarker(l, OutputMarkers[1..]);
  }

  /** Any stem ending in `-output` gives names that look like output. */
  lemma OutputStemLooksLikeOutput(front: string, ext: string)
    requires ext == "txt" || ext == "md"
    ensures IsLikelyOutputFile(front + "-output" + "." + ext)
  {
    if ext == "txt" {
      assert front + "-output" + "." + ext == front + "-output.txt";
      OutputMarkerLooksLikeOutput(front, "-output.txt");
    } else {
      assert front + "-output" + "." + ext == front + "-output.md";
      OutputMarkerLooksLikeOutput(front, "-output.md");
    }
  }

  /** Whatever the workspace is called, the default names carry the `-output` marker and so look like output. */
  lemma DefaultNamesLookLikeOutput(config: Config, base: string, ext: string)
    requires config.outputFileName == DefaultTemplate
    requires ext == "txt" || ext == "md"
    ensures IsLikelyOutputFile(OutputFileName(config, base, ext))
  {
    OutputTailIsClean();
    LeadingPlaceholder(base, "-output");
    var front := ReplaceIllegal(CollapseSpaces(Expand(ProjectName(base), Placeholder, [], "-output")));
    OutputStemLooksLikeOutput(front, ext);
  }

  /** A name looks like output whatever its case, since the test lower-cases it first. */
  lemma LikelyOutputIgnoresCase(name: string)
    ensures IsLikelyOutputFile(name) <==> IsLikelyOutputFile(ToLower(name))
  {
    assert ToLower(ToLower(name)) == ToLower(name);
  }

  /** Only one ending is stripped. */
  lemma StripsOneEnding()
    ensures StripOutputExt("notes.txt.TXT") == "notes.txt"
  {
    assert ToLower("notes.txt.TXT") == "notes.txt.txt";
  }

  /** The ending is recognised whatever its case, and an ending that merely starts like `.md` stays. */
  lemma StripsAnyCase()
    ensures StripOutputExt("export.Md") == "export"
    ensures StripOutputExt("export.mdx") == "export.mdx"
  {
    assert ToLower("export.Md") == "export.md";
    assert ToLower("export.mdx") == "export.mdx";
  }
}
