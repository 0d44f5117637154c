/**
 * The two closed lookups keyed by a file's extension: whether a file is a text
 * file (`isTextFile`) and which fence language its contents get
 * (`getLanguageFromExtension`), together with Node's `path.extname` on a base name.
 */
module FileKinds {
  import opened Text

  /** The index of the last `.` in `s`, or -1 when there is none. */
  function LastDot(s: string): (r: int)
    ensures -1 <= r < |s|
    ensures r >= 0 ==> s[r] == '.'
    ensures forall i :: r < i < |s| ==> s[i] != '.'
  {
    if s == [] then -1
    else if s[|s| - 1] == '.' then |s| - 1
    else LastDot(s[..|s| - 1])
  }

  /**
   * `path.extname` of a base name: from the last dot to the end, except that a name
   * without a dot, a name whose only dot leads it (a dotfile) and `..` have none.
   */
  function ExtName(name: string): (r: string)
    ensures r == [] || (r[0] == '.' && EndsWith(name, r) && |r| < |name|)
    ensures forall i :: 0 < i < |r| ==> r[i] != '.'
  {
    var d := LastDot(name);
    if d <= 0 || name == ".." then "" else name[d..]
  }

  /** How many entries the list of text extensions has. */
  const TextExtensionCount: nat := 72

  /** The entries of the exporter's list of text extensions, in its order and spelling, one row per source line. */
  function TextExtension(i: nat): string
    requires i < TextExtensionCount
  {
    match i
    case 0 => ".html" case 1 => ".htm" case 2 => ".css" case 3 => ".js" case 4 => ".jsx" case 5 => ".ts" case 6 => ".tsx" case 7 => ".htaccess"
    case 8 => ".json" case 9 => ".xml" case 10 => ".txt" case 11 => ".md" case 12 => ".yml" case 13 => ".yaml"
    case 14 => ".php" case 15 => ".py" case 16 => ".cs" case 17 => ".java" case 18 => ".cpp" case 19 => ".c" case 20 => ".h"
    case 21 => ".sql" case 22 => ".ps1" case 23 => ".bat" case 24 => ".cmd" case 25 => ".sh" case 26 => ".vue"
    case 27 => ".svelte" case 28 => ".scss" case 29 => ".sass" case 30 => ".less" case 31 => ".ini"
    case 32 => ".conf" case 33 => ".config" case 34 => ".log" case 35 => ".gitignore" case 36 => ".env"
    case 37 => ".dockerfile" case 38 => ".Dockerfile" case 39 => ".makefile" case 40 => ".Makefile"
    case 41 => ".go" case 42 => ".rs" case 43 => ".rb" case 44 => ".swift" case 45 => ".kt" case 46 => ".scala"
    case 47 => ".r" case 48 => ".R" case 49 => ".m" case 50 => ".mm" case 51 => ".pl" case 52 => ".pm" case 53 => ".lua"
    case 54 => ".tcl" case 55 => ".vb" case 56 => ".vbs" case 57 => ".asm" case 58 => ".s" case 59 => ".f" case 60 => ".f90"
    case 61 => ".pro" case 62 => ".cmake" case 63 => ".gradle" case 64 => ".properties" case 65 => ".toml"
    case 66 => ".lock" case 67 => ".cfg" case 68 => ".cnf" case 69 => ".inf" case 70 => ".reg" case _ => ".manifest"
  }

  /** `textExtensions.includes(ext)`: some entry of the list is `ext`. */
  predicate IsTextExtension(ext: string) {
    exists k :: 0 <= k < TextExtensionCount && TextExtension(k) == ext
  }

  /** `isTextFile`: the lower-cased extension is one of the list. */
  predicate IsTextFile(name: string) {
    IsTextExtension(ToLower(ExtName(name)))
  }

  /** How many entries the language map has. */
  const LanguageCount: nat := 33

  /** The entries of the language map, extension and fence language, in the map's order. */
  function LanguageEntry(i: nat): (string, string)
    requires i < LanguageCount
  {
    match i
    case 0 => (".js", "javascript")
    case 1 => (".jsx", "jsx")
    case 2 => (".ts", "typescript")
    case 3 => (".tsx", "typescript")
    case 4 => (".py", "python")
    case 5 => (".java", "java")
    case 6 => (".cpp", "cpp")
    case 7 => (".c", "c")
    case 8 => (".cs", "csharp")
    case 9 => (".php", "php")
    case 10 => (".rb", "ruby")
    case 11 => (".go", "go")
    case 12 => (".rs", "rust")
    case 13 => (".swift", "swift")
    case 14 => (".kt", "kotlin")
    case 15 => (".scala", "scala")
    case 16 => (".html", "html")
    case 17 => (".css", "css")
    case 18 => (".scss", "scss")
    case 19 => (".sass", "sass")
    case 20 => (".less", "less")
    case 21 => (".xml", "xml")
    case 22 => (".json", "json")
    case 23 => (".yaml", "yaml")
    case 24 => (".yml", "yaml")
    case 25 => (".sql", "sql")
    case 26 => (".sh", "bash")
    case 27 => (".ps1", "powershell")
    case 28 => (".bat", "batch")
    case 29 => (".cmd", "batch")
    case 30 => (".dockerfile", "dockerfile")
    case 31 => (".vue", "vue")
    case _ => (".svelte", "svelte")
  }

  /** The language of the first entry at or after `i` whose key is `ext`, or `text` when there is none. */
  function LanguageFrom(ext: string, i: nat): string
    decreases LanguageCount - i
  {
    if i >= LanguageCount then "text"
    else if LanguageEntry(i).0 == ext then LanguageEntry(i).1
    else LanguageFrom(ext, i + 1)
  }

  /** `languageMap[ext.toLowerCase()] || 'text'`. */
  function LanguageOf(ext: string): string {
    LanguageFrom(ToLower(ext), 0)
  }

  predicate HasUpper(s: string) {
    exists i :: 0 <= i < |s| && 'A' <= s[i] <= 'Z'
  }

  // ---------------------------------------------------------------- properties

  /** A name has an extension exactly when some dot other than a leading one appears in it and it is not `..`. */
  lemma ExtNameCases(name: string)
    ensures ExtName(name) != [] <==> name != ".." && exists d :: 0 < d < |name| && name[d] == '.'
  {
    var d := LastDot(name);
    if name != ".." && exists d' :: 0 < d' < |name| && name[d'] == '.' {
      var d' :| 0 < d' < |name| && name[d'] == '.';
      assert d >= d';
    }
  }

  /** No entry of the list is empty. */
  lemma NoEmptyEntry(k: nat)
    requires k < TextExtensionCount
    ensures TextExtension(k) != ""
  {
  }

  /** A name without an extension is never a text file: the list has no empty entry. */
  lemma NoExtensionNotText(name: string)
    requires ExtName(name) == ""
    ensures !IsTextFile(name)
  {
    assert ToLower(ExtName(name)) == "";
    if IsTextFile(name) {
      var k :| 0 <= k < TextExtensionCount && TextExtension(k) == "";
      NoEmptyEntry(k);
    }
  }

  /** A dotfile without a second dot has no extension, so `.gitignore`, `.env` and `.htaccess` are not text files. */
  lemma DotfileHasNoExtension(name: string)
    requires |name| > 0 && name[0] == '.'
    requires forall i :: 0 < i < |name| ==> name[i] != '.'
    ensures ExtName(name) == "" && !IsTextFile(name)
  {
    assert LastDot(name) <= 0;
    NoExtensionNotText(name);
  }

  lemma ListedDotfilesAreNotText()
    ensures !IsTextFile(".gitignore") && !IsTextFile(".env") && !IsTextFile(".htaccess")
  {
    DotfileHasNoExtension(".gitignore");
    DotfileHasNoExtension(".env");
    DotfileHasNoExtension(".htaccess");
  }

  /** A lower-cased string holds no upper-case ASCII letter. */
  lemma ToLowerHasNoUpper(s: string)
    ensures !HasUpper(ToLower(s))
  {
    var r := ToLower(s);
    forall i | 0 <= i < |r| ensures !('A' <= r[i] <= 'Z') {
      assert r[i] == LowerChar(s[i]);
    }
  }

  /** The entries `.Dockerfile`, `.Makefile` and `.R` can never be what `isTextFile` looks up. */
  lemma UpperCaseEntriesAreDead(name: string)
    ensures ToLower(ExtName(name)) != ".Dockerfile"
    ensures ToLower(ExtName(name)) != ".Makefile"
    ensures ToLower(ExtName(name)) != ".R"
  {
    ToLowerHasNoUpper(ExtName(name));
    assert HasUpper(".Dockerfile") by { assert 'A' <= ".Dockerfile"[1] <= 'Z'; }
    assert HasUpper(".Makefile") by { assert 'A' <= ".Makefile"[1] <= 'Z'; }
    assert HasUpper(".R") by { assert 'A' <= ".R"[1] <= 'Z'; }
  }

  /** The language search answers other than `text` only for a key of the map. */
  lemma {:induction false} LanguageHasKey(ext: string, i: nat)
    requires LanguageFrom(ext, i) != "text"
    ensures exists j :: i <= j < LanguageCount && LanguageEntry(j).0 == ext
    decreases LanguageCount - i
  {
    if LanguageEntry(i).0 != ext {
      LanguageHasKey(ext, i + 1);
    }
  }

  /** The first eight keys of the language map are entries of the list of text extensions. */
  lemma KeysListedA(j: nat)
    requires j < 8
    ensures IsTextExtension(LanguageEntry(j).0)
  {
    match j
    case 0 => assert LanguageEntry(0).0 == TextExtension(3);
    case 1 => assert LanguageEntry(1).0 == TextExtension(4);
    case 2 => assert LanguageEntry(2).0 == TextExtension(5);
    case 3 => assert LanguageEntry(3).0 == TextExtension(6);
    case 4 => assert LanguageEntry(4).0 == TextExtension(15);
    case 5 => assert LanguageEntry(5).0 == TextExtension(17);
    case 6 => assert LanguageEntry(6).0 == TextExtension(18);
    case _ => assert j == 7; assert LanguageEntry(7).0 == TextExtension(19);
  }

  /** So are the next eight. */
  lemma KeysListedB(j: nat)
    requires 8 <= j < 16
    ensures IsTextExtension(LanguageEntry(j).0)
  {
    match j
    case 8 => assert LanguageEntry(8).0 == TextExtension(16);
    case 9 => assert LanguageEntry(9).0 == TextExtension(14);
    case 10 => assert LanguageEntry(10).0 == TextExtension(43);
    case 11 => assert LanguageEntry(11).0 == TextExtension(41);
    case 12 => assert LanguageEntry(12).0 == TextExtension(42);
    case 13 => assert LanguageEntry(13).0 == TextExtension(44);
    case 14 => assert LanguageEntry(14).0 == TextExtension(45);
    case _ => assert j == 15; assert LanguageEntry(15).0 == TextExtension(46);
  }

  /** And the eight after them. */
  lemma KeysListedC(j: nat)
    requires 16 <= j < 24
    ensures IsTextExtension(LanguageEntry(j).0)
  {
    match j
    case 16 => assert LanguageEntry(16).0 == TextExtension(0);
    case 17 => assert LanguageEntry(17).0 == TextExtension(2);
    case 18 => assert LanguageEntry(18).0 == TextExtension(28);
    case 19 => assert LanguageEntry(19).0 == TextExtension(29);
    case 20 => assert LanguageEntry(20).0 == TextExtension(30);
    case 21 => assert LanguageEntry(21).0 == TextExtension(9);
    case 22 => assert LanguageEntry(22).0 == TextExtension(8);
    case _ => assert j == 23; assert LanguageEntry(23).0 == TextExtension(13);
  }

  /** And the last nine. */
  lemma KeysListedD(j: nat)
    requires 24 <= j < 33
    ensures IsTextExtension(LanguageEntry(j).0)
  {
    match j
    case 24 => assert LanguageEntry(24).0 == TextExtension(12);
    case 25 => assert LanguageEntry(25).0 == TextExtension(21);
    case 26 => assert LanguageEntry(26).0 == TextExtension(25);
    case 27 => assert LanguageEntry(27).0 == TextExtension(22);
    case 28 => assert LanguageEntry(28).0 == TextExtension(23);
    case 29 => assert LanguageEntry(29).0 == TextExtension(24);
    case 30 => assert LanguageEntry(30).0 == TextExtension(37);
    case 31 => assert LanguageEntry(31).0 == TextExtension(26);
    case _ => assert j == 32; assert LanguageEntry(32).0 == TextExtension(27);
  }

  /** Every key of the language map is an entry of the list of text extensions. */
  lemma KeyListed(j: nat)
    requires j < LanguageCount
    ensures IsTextExtension(LanguageEntry(j).0)
  {
    if j < 8 {
      KeysListedA(j);
    } else if j < 16 {
      KeysListedB(j);
    } else if j < 24 {
      KeysListedC(j);
    } else {
      KeysListedD(j);
    }
  }

  /** The search walks past an entry whose key is not the extension. */
  lemma LanguageStep(ext: string, i: nat)
    requires i < LanguageCount && LanguageEntry(i).0 != ext
    ensures LanguageFrom(ext, i) == LanguageFrom(ext, i + 1)
  {
  }

  /** The search stops at an entry whose key is the extension. */
  lemma LanguageFound(ext: string, i: nat)
    requires i < LanguageCount && LanguageEntry(i).0 == ext
    ensures LanguageFrom(ext, i) == LanguageEntry(i).1
  {
  }

  /** The search walks past the first eight entries for any other extension. */
  lemma SkipFrom0(ext: string)
    requires ext != ".js" && ext != ".jsx" && ext != ".ts" && ext != ".tsx"
    requires ext != ".py" && ext != ".java" && ext != ".cpp" && ext != ".c"
    ensures LanguageFrom(ext, 0) == LanguageFrom(ext, 8)
  {
    LanguageStep(ext, 0);
    LanguageStep(ext, 1);
    LanguageStep(ext, 2);
    LanguageStep(ext, 3);
    LanguageStep(ext, 4);
    LanguageStep(ext, 5);
    LanguageStep(ext, 6);
    LanguageStep(ext, 7);
  }

  /** And past the next eight. */
  lemma SkipFrom8(ext: string)
    requires ext != ".cs" && ext != ".php" && ext != ".rb" && ext != ".go"
    requires ext != ".rs" && ext != ".swift" && ext != ".kt" && ext != ".scala"
    ensures LanguageFrom(ext, 8) == LanguageFrom(ext, 16)
  {
    LanguageStep(ext, 8);
    LanguageStep(ext, 9);
    LanguageStep(ext, 10);
    LanguageStep(ext, 11);
    LanguageStep(ext, 12);
    LanguageStep(ext, 13);
    LanguageStep(ext, 14);
    LanguageStep(ext, 15);
  }

  /** And past the eight after them. */
  lemma SkipFrom16(ext: string)
    requires ext != ".html" && ext != ".css" && ext != ".scss" && ext != ".sass"
    requires ext != ".less" && ext != ".xml" && ext != ".json" && ext != ".yaml"
    ensures LanguageFrom(ext, 16) == LanguageFrom(ext, 24)
  {
    LanguageStep(ext, 16);
    LanguageStep(ext, 17);
    LanguageStep(ext, 18);
    LanguageStep(ext, 19);
    LanguageStep(ext, 20);
    LanguageStep(ext, 21);
    LanguageStep(ext, 22);
    LanguageStep(ext, 23);
  }

  /** And past the five after them. */
  lemma SkipFrom24(ext: string)
    requires ext != ".yml" && ext != ".sql" && ext != ".sh" && ext != ".ps1" && ext != ".bat"
    ensures LanguageFrom(ext, 24) == LanguageFrom(ext, 29)
  {
    LanguageStep(ext, 24);
    LanguageStep(ext, 25);
    LanguageStep(ext, 26);
    LanguageStep(ext, 27);
    LanguageStep(ext, 28);
  }

  /** And past the last four, to the fallback. */
  lemma SkipFrom29(ext: string)
    requires ext != ".cmd" && ext != ".dockerfile" && ext != ".vue" && ext != ".svelte"
    ensures LanguageFrom(ext, 29) == LanguageFrom(ext, 33)
  {
    LanguageStep(ext, 29);
    LanguageStep(ext, 30);
    LanguageStep(ext, 31);
    LanguageStep(ext, 32);
  }

  /** The first eight keys of the language map find their own language. */
  lemma KeysFoundA(j: nat)
    requires j < 8
    ensures LanguageOf(LanguageEntry(j).0) == LanguageEntry(j).1
  {
    var ext := LanguageEntry(j).0;
    match j
    case 0 =>
      assert ToLower(".js") == ".js";
      LanguageFound(ext, 0);
    case 1 =>
      assert ToLower(".jsx") == ".jsx";
      LanguageStep(ext, 0);
      LanguageFound(ext, 1);
    case 2 =>
      assert ToLower(".ts") == ".ts";
      LanguageStep(ext, 0);
      LanguageStep(ext, 1);
      LanguageFound(ext, 2);
    case 3 =>
      assert ToLower(".tsx") == ".tsx";
      LanguageStep(ext, 0);
      LanguageStep(ext, 1);
      LanguageStep(ext, 2);
      LanguageFound(ext, 3);
    case 4 =>
      assert ToLower(".py") == ".py";
      LanguageStep(ext, 0);
      LanguageStep(ext, 1);
      LanguageStep(ext, 2);
      LanguageStep(ext, 3);
      LanguageFound(ext, 4);
    case 5 =>
      assert ToLower(".java") == ".java";
      LanguageStep(ext, 0);
      LanguageStep(ext, 1);
      LanguageStep(ext, 2);
      LanguageStep(ext, 3);
      LanguageStep(ext, 4);
      LanguageFound(ext, 5);
    case 6 =>
      assert ToLower(".cpp") == ".cpp";
      LanguageStep(ext, 0);
      LanguageStep(ext, 1);
      LanguageStep(ext, 2);
      LanguageStep(ext, 3);
      LanguageStep(ext, 4);
      LanguageStep(ext, 5);
      LanguageFound(ext, 6);
    case _ =>
      assert j == 7;
      assert ToLower(".c") == ".c";
      LanguageStep(ext, 0);
      LanguageStep(ext, 1);
      LanguageStep(ext, 2);
      LanguageStep(ext, 3);
      LanguageStep(ext, 4);
      LanguageStep(ext, 5);
      LanguageStep(ext, 6);
      LanguageFound(ext, 7);
  }

  /** The next four keys find theirs. */
  lemma KeysFoundB(j: nat)
    requires 8 <= j < 12
    ensures LanguageOf(LanguageEntry(j).0) == LanguageEntry(j).1
  {
    var ext := LanguageEntry(j).0;
    match j
    case 8 =>
      assert ToLower(".cs") == ".cs";
      SkipFrom0(ext);
      LanguageFound(ext, 8);
    case 9 =>
      assert ToLower(".php") == ".php";
      SkipFrom0(ext);
      LanguageStep(ext, 8);
      LanguageFound(ext, 9);
    case 10 =>
      assert ToLower(".rb") == ".rb";
      SkipFrom0(ext);
      LanguageStep(ext, 8);
      LanguageStep(ext, 9);
      LanguageFound(ext, 10);
    case _ =>
      assert j == 11;
      assert ToLower(".go") == ".go";
      SkipFrom0(ext);
      LanguageStep(ext, 8);
      LanguageStep(ext, 9);
      LanguageStep(ext, 10);
      LanguageFound(ext, 11);
  }

  /** And the four after them. */
  lemma KeysFoundC(j: nat)
    requires 12 <= j < 16
    ensures LanguageOf(LanguageEntry(j).0) == LanguageEntry(j).1
  {
    var ext := LanguageEntry(j).0;
    match j
    case 12 =>
      assert ToLower(".rs") == ".rs";
      SkipFrom0(ext);
      LanguageStep(ext, 8);
      LanguageStep(ext, 9);
      LanguageStep(ext, 10);
      LanguageStep(ext, 11);
      LanguageFound(ext, 12);
    case 13 =>
      assert ToLower(".swift") == ".swift";
      SkipFrom0(ext);
      LanguageStep(ext, 8);
      LanguageStep(ext, 9);
      LanguageStep(ext, 10);
      LanguageStep(ext, 11);
      LanguageStep(ext, 12);
      LanguageFound(ext, 13);
    case 14 =>
      assert ToLower(".kt") == ".kt";
      SkipFrom0(ext);
      LanguageStep(ext, 8);
      LanguageStep(ext, 9);
      LanguageStep(ext, 10);
      LanguageStep(ext, 11);
      LanguageStep(ext, 12);
      LanguageStep(ext, 13);
      LanguageFound(ext, 14);
    case _ =>
      assert j == 15;
      assert ToLower(".scala") == ".scala";
      SkipFrom0(ext);
      LanguageStep(ext, 8);
      LanguageStep(ext, 9);
      LanguageStep(ext, 10);
      LanguageStep(ext, 11);
      LanguageStep(ext, 12);
      LanguageStep(ext, 13);
      LanguageStep(ext, 14);
      LanguageFound(ext, 15);
  }

  /** And the four after them. */
  lemma KeysFoundD(j: nat)
    requires 16 <= j < 20
    ensures LanguageOf(LanguageEntry(j).0) == LanguageEntry(j).1
  {
    var ext := LanguageEntry(j).0;
    match j
    case 16 =>
      assert ToLower(".html") == ".html";
      SkipFrom0(ext);
      SkipFrom8(ext);
      LanguageFound(ext, 16);
    case 17 =>
      assert ToLower(".css") == ".css";
      SkipFrom0(ext);
      SkipFrom8(ext);
      LanguageStep(ext, 16);
      LanguageFound(ext, 17);
    case 18 =>
      assert ToLower(".scss") == ".scss";
      SkipFrom0(ext);
      SkipFrom8(ext);
      LanguageStep(ext, 16);
      LanguageStep(ext, 17);
      LanguageFound(ext, 18);
    case _ =>
      assert j == 19;
      assert ToLower(".sass") == ".sass";
      SkipFrom0(ext);
      SkipFrom8(ext);
      LanguageStep(ext, 16);
      LanguageStep(ext, 17);
      LanguageStep(ext, 18);
      LanguageFound(ext, 19);
  }

  /** And the four after them. */
  lemma KeysFoundE(j: nat)
    requires 20 <= j < 24
    ensures LanguageOf(LanguageEntry(j).0) == LanguageEntry(j).1
  {
    var ext := LanguageEntry(j).0;
    match j
    case 20 =>
      assert ToLower(".less") == ".less";
      SkipFrom0(ext);
      SkipFrom8(ext);
      LanguageStep(ext, 16);
      LanguageStep(ext, 17);
      LanguageStep(ext, 18);
      LanguageStep(ext, 19);
      LanguageFound(ext, 20);
    case 21 =>
      assert ToLower(".xml") == ".xml";
      SkipFrom0(ext);
      SkipFrom8(ext);
      LanguageStep(ext, 16);
      LanguageStep(ext, 17);
      LanguageStep(ext, 18);
      LanguageStep(ext, 19);
      LanguageStep(ext, 20);
      LanguageFound(ext, 21);
    case 22 =>
      assert ToLower(".json") == ".json";
      SkipFrom0(ext);
      SkipFrom8(ext);
      LanguageStep(ext, 16);
      LanguageStep(ext, 17);
      LanguageStep(ext, 18);
      LanguageStep(ext, 19);
      LanguageStep(ext, 20);
      LanguageStep(ext, 21);
      LanguageFound(ext, 22);
    case _ =>
      assert j == 23;
      assert ToLower(".yaml") == ".yaml";
      SkipFrom0(ext);
      SkipFrom8(ext);
      LanguageStep(ext, 16);
      LanguageStep(ext, 17);
      LanguageStep(ext, 18);
      LanguageStep(ext, 19);
      LanguageStep(ext, 20);
      LanguageStep(ext, 21);
      LanguageStep(ext, 22);
      LanguageFound(ext, 23);
  }

  /** And the three after them. */
  lemma KeysFoundF(j: nat)
    requires 24 <= j < 27
    ensures LanguageOf(LanguageEntry(j).0) == LanguageEntry(j).1
  {
    var ext := LanguageEntry(j).0;
    match j
    case 24 =>
      assert ToLower(".yml") == ".yml";
      SkipFrom0(ext);
      SkipFrom8(ext);
      SkipFrom16(ext);
      LanguageFound(ext, 24);
    case 25 =>
      assert ToLower(".sql") == ".sql";
      SkipFrom0(ext);
      SkipFrom8(ext);
      SkipFrom16(ext);
      LanguageStep(ext, 24);
      LanguageFound(ext, 25);
    case _ =>
      assert j == 26;
      assert ToLower(".sh") == ".sh";
      SkipFrom0(ext);
      SkipFrom8(ext);
      SkipFrom16(ext);
      LanguageStep(ext, 24);
      LanguageStep(ext, 25);
      LanguageFound(ext, 26);
  }

  /** And the two after them. */
  lemma KeysFoundG(j: nat)
    requires 27 <= j < 29
    ensures LanguageOf(LanguageEntry(j).0) == LanguageEntry(j).1
  {
    var ext := LanguageEntry(j).0;
    match j
    case 27 =>
      assert ToLower(".ps1") == ".ps1";
      SkipFrom0(ext);
      SkipFrom8(ext);
      SkipFrom16(ext);
      LanguageStep(ext, 24);
      LanguageStep(ext, 25);
      LanguageStep(ext, 26);
      LanguageFound(ext, 27);
    case _ =>
      assert j == 28;
      assert ToLower(".bat") == ".bat";
      SkipFrom0(ext);
      SkipFrom8(ext);
      SkipFrom16(ext);
      LanguageStep(ext, 24);
      LanguageStep(ext, 25);
      LanguageStep(ext, 26);
      LanguageStep(ext, 27);
      LanguageFound(ext, 28);
  }

  /** And the two after them. */
  lemma KeysFoundH(j: nat)
    requires 29 <= j < 31
    ensures LanguageOf(LanguageEntry(j).0) == LanguageEntry(j).1
  {
    var ext := LanguageEntry(j).0;
    match j
    case 29 =>
      assert ToLower(".cmd") == ".cmd";
      SkipFrom0(ext);
      SkipFrom8(ext);
      SkipFrom16(ext);
      SkipFrom24(ext);
      LanguageFound(ext, 29);
    case _ =>
      assert j == 30;
      assert ToLower(".dockerfile") == ".dockerfile";
      SkipFrom0(ext);
      SkipFrom8(ext);
      SkipFrom16(ext);
      SkipFrom24(ext);
      LanguageStep(ext, 29);
      LanguageFound(ext, 30);
  }

  /** And the last two. */
  lemma KeysFoundI(j: nat)
    requires 31 <= j < 33
    ensures LanguageOf(LanguageEntry(j).0) == LanguageEntry(j).1
  {
    var ext := LanguageEntry(j).0;
    match j
    case 31 =>
      assert ToLower(".vue") == ".vue";
      SkipFrom0(ext);
      SkipFrom8(ext);
      SkipFrom16(ext);
      SkipFrom24(ext);
      LanguageStep(ext, 29);
      LanguageStep(ext, 30);
      LanguageFound(ext, 31);
    case _ =>
      assert j == 32;
      assert ToLower(".svelte") == ".svelte";
      SkipFrom0(ext);
      SkipFrom8(ext);
      SkipFrom16(ext);
      SkipFrom24(ext);
      LanguageStep(ext, 29);
      LanguageStep(ext, 30);
      LanguageStep(ext, 31);
      LanguageFound(ext, 32);
  }

  /** Every key of the language map gets its own language, never the fallback `text`. */
  lemma LanguageOfKey(j: nat)
    requires j < LanguageCount
    ensures LanguageOf(LanguageEntry(j).0) == LanguageEntry(j).1 && LanguageEntry(j).1 != "text"
  {
    if j < 8 {
      KeysFoundA(j);
    } else if j < 12 {
      KeysFoundB(j);
    } else if j < 16 {
      KeysFoundC(j);
    } else if j < 20 {
      KeysFoundD(j);
    } else if j < 24 {
      KeysFoundE(j);
    } else if j < 27 {
      KeysFoundF(j);
    } else if j < 29 {
      KeysFoundG(j);
    } else if j < 31 {
      KeysFoundH(j);
    } else {
      KeysFoundI(j);
    }
  }

  /** The lookup answers other than `text` exactly for the keys of the map, whatever the case of the extension. */
  lemma LanguageIffKey(ext: string)
    ensures LanguageOf(ext) != "text" <==> exists j :: 0 <= j < LanguageCount && LanguageEntry(j).0 == ToLower(ext)
  {
    if LanguageOf(ext) != "text" {
      LanguageHasKey(ToLower(ext), 0);
    }
    if exists j :: 0 <= j < LanguageCount && LanguageEntry(j).0 == ToLower(ext) {
      var j :| 0 <= j < LanguageCount && LanguageEntry(j).0 == ToLower(ext);
      LanguageOfKey(j);
      ToLowerIdempotent(ext);
    }
  }

  lemma ToLowerIdempotent(s: string)
    ensures ToLower(ToLower(s)) == ToLower(s)
  {
  }

  /** Every extension with a language of its own is on the extension list. */
  lemma LanguageKeysAreText(ext: string)
    ensures LanguageOf(ext) != "text" ==> IsTextExtension(ToLower(ext))
  {
    if LanguageOf(ext) != "text" {
      LanguageHasKey(ToLower(ext), 0);
      var j :| 0 <= j < LanguageCount && LanguageEntry(j).0 == ToLower(ext);
      KeyListed(j);
    }
  }

  /** A file whose extension has a language other than the fallback `text` is a text file. */
  lemma LanguageImpliesText(name: string)
    ensures LanguageOf(ExtName(name)) != "text" ==> IsTextFile(name)
  {
    LanguageKeysAreText(ExtName(name));
  }

  /** The converse fails: a markdown file is a text file whose contents get the fallback language. */
  lemma MarkdownHasNoLanguage()
    ensures IsTextFile("notes.md") && LanguageOf(ExtName("notes.md")) == "text"
  {
    assert LastDot("notes.md") == 5;
    assert ToLower(".md") == ".md";
    assert TextExtension(11) == ".md";
    SkipFrom0(".md");
    SkipFrom8(".md");
    SkipFrom16(".md");
    SkipFrom24(".md");
    SkipFrom29(".md");
  }

  /** The extension keeps its case, and the text-file test folds it. */
  lemma UpperCaseExtensionIsText()
    ensures ExtName("index.TS") == ".TS" && IsTextFile("index.TS")
  {
    assert LastDot("index.TS") == 5;
    assert ToLower(".TS") == ".ts";
    assert TextExtension(5) == ".ts";
  }

  /** The language lookup folds the case of the extension too. */
  lemma UpperCaseExtensionLanguage()
    ensures LanguageOf(".TS") == "typescript"
  {
    assert ToLower(".TS") == ".ts";
  }

  /** A dotfile with a second dot has the extension after that dot. */
  lemma DottedDotfileHasExtension()
    ensures ExtName(".env.js") == ".js" && IsTextFile(".env.js")
  {
    assert LastDot(".env.js") == 4;
    assert ToLower(".js") == ".js"; assert LanguageFrom(".js", 0) == "javascript";
    assert TextExtension(3) == ".js";
  }

  /** Only the last extension counts. */
  lemma LastExtensionCounts()
    ensures ExtName("archive.tar.gz") == ".gz"
  {
    assert LastDot("archive.tar.gz") == 11;
  }

  /** `..` and a name without a dot have no extension. */
  lemma NoExtensionExamples()
    ensures ExtName("..") == "" && ExtName("Makefile") == ""
  {
  }
}
