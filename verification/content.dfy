/**
 * The file-contents part of both exports (`generateMarkdownFileContent` and
 * `generateFileContent`). Each walks the tree depth first: a directory's own
 * contents are written where the directory stands, a text file within the size
 * limit whose contents can be read gets a block of its own, and every other file
 * of a directory is listed once, after everything else of that directory.
 *
 * Reading a file, its timestamps, its hashes and its encoding are answers of the
 * file system: `read` gives a file's contents as UTF-8 or nothing when the read
 * fails, and `meta` gives the rest, already formatted.
 */
module Content {
  import opened Wrappers
  import opened Text
  import opened Settings
  import opened FileKinds
  import opened Tree
  import opened TreeFolds
  import opened Exclusion
  import opened Anchors

  /** What the file system says about a file besides its contents: the created and modified times (none when `stat` fails), the two hashes and the encoding. */
  datatype FileMeta = FileMeta(times: Option<(string, string)>, md5: string, sha256: string, encoding: string)

  /** A file's block is written: a text file within the size limit whose contents could be read. */
  predicate Embeds(f: Node, config: Config, read: seq<string> -> Option<string>) {
    IsTextFile(f.name) && SizeOf(f) <= config.maxFileSize && read(f.path).Some?
  }

  /** What the walk writes: a block per embedded file, and per directory a list of the files it did not embed. */
  datatype Section = FileSection(file: Node, body: string) | BinarySection(paths: seq<string>)

  /** The normalised paths of the files directly in `items` that get no block, in order. */
  function Skipped(items: seq<Node>, config: Config, read: seq<string> -> Option<string>): seq<string> {
    if items == [] then []
    else
      (if items[0].File? && !Embeds(items[0], config, read) then [RelativePath(items[0].path)] else []) +
      Skipped(items[1..], config, read)
  }

  /** The sections of a directory's entries, in order, without its own list of skipped files. */
  function Walk(items: seq<Node>, config: Config, read: seq<string> -> Option<string>): seq<Section>
    decreases items, 0
  {
    if items == [] then []
    else ItemSections(items[0], config, read) + Walk(items[1..], config, read)
  }

  function ItemSections(item: Node, config: Config, read: seq<string> -> Option<string>): seq<Section>
    decreases item
  {
    match item
    case Directory(_, _, children) => Sections(children, config, read)
    case File(_, path, _, _) =>
      if Embeds(item, config, read) then [FileSection(item, read(path).value)] else []
  }

  /** The sections of a directory: its entries', then the list of its skipped files when there are any. */
  function Sections(items: seq<Node>, config: Config, read: seq<string> -> Option<string>): seq<Section>
    decreases items, 1
  {
    var skipped := Skipped(items, config, read);
    Walk(items, config, read) + (if skipped != [] then [BinarySection(skipped)] else [])
  }

  // ---------------------------------------------------------------- the text of a section

  /** `path.dirname` of a normalised path, or `root` for a file at the top. */
  function RelDir(segs: seq<string>): string {
    if |segs| <= 1 then "root" else RelativePath(segs[..|segs| - 1])
  }

  /** `item.extension || 'none'`. */
  function ExtLabel(ext: string): string {
    if ext == "" then "none" else ext
  }

  const Wide: string := Repeat('=', 80)
  const Narrow: string := Repeat('-', 40)
  const TripleBacktick: string := "```"

  /** `escapeMarkdownContent`: every run of three backticks becomes `~~~~`, inside a four-backtick `markdown` fence. */
  function EscapeMarkdownContent(body: string): string {
    "````markdown\n" + ReplaceAll(body, TripleBacktick, "~~~~") + "\n````\n\n"
  }

  /** A markdown file's contents are escaped; any other file's are fenced with its language. */
  function MarkdownBody(ext: string, language: string, body: string): string {
    if ToLower(ext) == ".md" then EscapeMarkdownContent(body)
    else "```" + language + "\n" + body + "\n```\n\n"
  }

  function MarkdownTimes(times: Option<(string, string)>): string {
    match times
    case Some((created, modified)) => "- **Created**: " + created + "\n" + "- **Modified**: " + modified + "\n"
    case None => "- **Created**: Unable to retrieve\n" + "- **Modified**: Unable to retrieve\n"
  }

  function PlainTimes(times: Option<(string, string)>): string {
    match times
    case Some((created, modified)) => "Created: " + created + "\n" + "Modified: " + modified + "\n"
    case None => "Created: Unable to retrieve\n" + "Modified: Unable to retrieve\n"
  }

  const HeadingStart: string := "### <a id=\""
  const HeadingMid: string := "\"></a>\U{1F4C4} `"

  /** The heading of a markdown block, which carries the anchor the table of contents links to. */
  function MarkdownHeading(path: string): string {
    HeadingStart + Anchor(path) + HeadingMid + path + "`\n\n"
  }

  /** The info lines of a markdown block, down to the caption of the contents. */
  function MarkdownInfo(f: Node, formatSize: nat -> string, meta: FileMeta): string {
    var path := RelativePath(f.path);
    var ext := ExtOf(f);
    "**File Info:**\n" +
    "- **Size**: " + formatSize(SizeOf(f)) + "\n" +
    "- **Extension**: `" + ExtLabel(ext) + "`\n" +
    "- **Language**: `" + LanguageOf(ext) + "`\n" +
    "- **Location**: `" + path + "`\n" +
    "- **Relative Path**: `" + RelDir(f.path) + "`\n" +
    MarkdownTimes(meta.times) +
    "- **MD5**: `" + meta.md5 + "`\n" +
    "- **SHA256**: `" + meta.sha256 + "`\n" +
    "- **Encoding**: " + meta.encoding + "\n" +
    "\n" +
    "**File code content:**\n\n"
  }

  /** The markdown block of an embedded file: heading, info lines, contents, rule. */
  function MarkdownBlock(f: Node, body: string, formatSize: nat -> string, meta: FileMeta): string {
    var ext := ExtOf(f);
    MarkdownHeading(RelativePath(f.path)) + (MarkdownInfo(f, formatSize, meta) + MarkdownBody(ext, LanguageOf(ext), body) + "---\n\n")
  }

  /** The plain-text block of an embedded file. */
  function PlainBlock(f: Node, body: string, formatSize: nat -> string, meta: FileMeta): string {
    var path := RelativePath(f.path);
    var ext := ExtOf(f);
    "\n\n" + Wide + "\n" +
    "FILE: " + path + "\n" +
    Wide + "\n" +
    "\nFILE INFORMATION:\n" +
    Narrow + "\n" +
    "Size: " + formatSize(SizeOf(f)) + "\n" +
    "Extension: " + ExtLabel(ext) + "\n" +
    "Language: " + LanguageOf(ext) + "\n" +
    "Location: " + path + "\n" +
    "Relative Path: " + RelDir(f.path) + "\n" +
    PlainTimes(meta.times) +
    "MD5: " + meta.md5 + "\n" +
    "SHA256: " + meta.sha256 + "\n" +
    "Encoding: " + meta.encoding + "\n" +
    "\nFILE CONTENT:\n" +
    Narrow + "\n" +
    body +
    "\n" + Wide + "\n"
  }

  const MarkdownBinaryTitle: string := "## \U{1F6AB} Binary/Excluded Files\n\n"
  const MarkdownBinaryIntro: string := "The following files were not included in the text content:\n\n"
  const PlainBinaryTitle: string := "\n\n" + Wide + "\n" + "BINARY/EXCLUDED FILES (not included in text content)\n" + Wide + "\n"

  function MarkdownPathLine(path: string): string {
    "- `" + path + "`\n"
  }

  function PlainPathLine(path: string): string {
    "- " + path + "\n"
  }

  /** One line per path, in order. */
  function PathLines(line: string -> string, paths: seq<string>): string {
    if paths == [] then "" else PathLines(line, paths[..|paths| - 1]) + line(paths[|paths| - 1])
  }

  function MarkdownBinary(paths: seq<string>): string {
    MarkdownBinaryTitle + MarkdownBinaryIntro + PathLines(MarkdownPathLine, paths) + "\n"
  }

  function PlainBinary(paths: seq<string>): string {
    PlainBinaryTitle + PathLines(PlainPathLine, paths)
  }

  function MarkdownSection(s: Section, formatSize: nat -> string, meta: seq<string> -> FileMeta): string {
    match s
    case FileSection(f, body) => MarkdownBlock(f, body, formatSize, meta(f.path))
    case BinarySection(paths) => MarkdownBinary(paths)
  }

  function PlainSection(s: Section, formatSize: nat -> string, meta: seq<string> -> FileMeta): string {
    match s
    case FileSection(f, body) => PlainBlock(f, body, formatSize, meta(f.path))
    case BinarySection(paths) => PlainBinary(paths)
  }

  /** The markdown text of a section, for the size formatter and the file-system answers of one export. */
  function MarkdownRenderer(formatSize: nat -> string, meta: seq<string> -> FileMeta): Section -> string {
    s => MarkdownSection(s, formatSize, meta)
  }

  function PlainRenderer(formatSize: nat -> string, meta: seq<string> -> FileMeta): Section -> string {
    s => PlainSection(s, formatSize, meta)
  }

  /** The text of a sequence of sections, each rendered by `text`. */
  function Output(text: Section -> string, secs: seq<Section>): string {
    if secs == [] then "" else text(secs[0]) + Output(text, secs[1..])
  }

  // ---------------------------------------------------------------- the walks

  lemma {:induction false} OutputAppend(text: Section -> string, a: seq<Section>, b: seq<Section>)
    ensures Output(text, a + b) == Output(text, a) + Output(text, b)
  {
    if a == [] {
      assert a + b == b;
    } else {
      assert (a + b)[0] == a[0] && (a + b)[1..] == a[1..] + b;
      OutputAppend(text, a[1..], b);
      var t := text(a[0]);
      assert Output(text, a + b) == t + Output(text, a[1..] + b);
      AppendAssoc(t, Output(text, a[1..]), Output(text, b));
    }
  }

  lemma {:induction false} WalkAppend(a: seq<Node>, b: seq<Node>, config: Config, read: seq<string> -> Option<string>)
    ensures Walk(a + b, config, read) == Walk(a, config, read) + Walk(b, config, read)
    ensures Skipped(a + b, config, read) == Skipped(a, config, read) + Skipped(b, config, read)
  {
    if a == [] {
      assert a + b == b;
    } else {
      assert (a + b)[0] == a[0] && (a + b)[1..] == a[1..] + b;
      WalkAppend(a[1..], b, config, read);
      var w := ItemSections(a[0], config, read);
      assert Walk(a + b, config, read) == w + Walk(a[1..] + b, config, read);
      AppendAssoc(w, Walk(a[1..], config, read), Walk(b, config, read));
      var s := if a[0].File? && !Embeds(a[0], config, read) then [RelativePath(a[0].path)] else [];
      assert Skipped(a + b, config, read) == s + Skipped(a[1..] + b, config, read);
      AppendAssoc(s, Skipped(a[1..], config, read), Skipped(b, config, read));
    }
  }

  /** One pass of either loop: what is written so far and the files listed so far cover one more entry. */
  lemma ContentStep(text: Section -> string, items: seq<Node>, i: nat, config: Config, read: seq<string> -> Option<string>,
                    content: string, binaryFiles: seq<string>, piece: string, listed: seq<string>)
    requires i < |items|
    requires content == Output(text, Walk(items[..i], config, read))
    requires binaryFiles == Skipped(items[..i], config, read)
    requires piece == Output(text, ItemSections(items[i], config, read))
    requires listed == Skipped([items[i]], config, read)
    ensures content + piece == Output(text, Walk(items[..i + 1], config, read))
    ensures binaryFiles + listed == Skipped(items[..i + 1], config, read)
  {
    var a, x := items[..i], items[i];
    TakeSnoc(items, i);
    WalkSnoc(a, x, config, read);
    OutputAppend(text, Walk(a, config, read), ItemSections(x, config, read));
  }

  /** One more entry adds its own sections and skipped files after those of the entries before it. */
  lemma WalkSnoc(a: seq<Node>, x: Node, config: Config, read: seq<string> -> Option<string>)
    ensures Walk(a + [x], config, read) == Walk(a, config, read) + ItemSections(x, config, read)
    ensures Skipped(a + [x], config, read) == Skipped(a, config, read) + Skipped([x], config, read)
  {
    WalkAppend(a, [x], config, read);
    assert [x][1..] == [];
    assert Walk([x], config, read) == ItemSections(x, config, read) + Walk([], config, read);
    assert ItemSections(x, config, read) + [] == ItemSections(x, config, read);
  }

  /** After the loop: the entries' text, then the list of skipped files when there are any, is the whole text. */
  lemma ContentDone(text: Section -> string, items: seq<Node>, config: Config, read: seq<string> -> Option<string>, content: string, binaryFiles: seq<string>)
    requires content == Output(text, Walk(items[..|items|], config, read))
    requires binaryFiles == Skipped(items[..|items|], config, read)
    ensures binaryFiles == Skipped(items, config, read)
    ensures binaryFiles == [] ==> content == Output(text, Sections(items, config, read))
    ensures binaryFiles != [] ==>
      content + text(BinarySection(binaryFiles)) == Output(text, Sections(items, config, read))
  {
    assert items[..|items|] == items;
    var w := Walk(items, config, read);
    if binaryFiles == [] {
      assert Sections(items, config, read) == w + [];
      assert w + [] == w;
    } else {
      var b := [BinarySection(binaryFiles)];
      OutputAppend(text, w, b);
      assert Output(text, b) == text(BinarySection(binaryFiles)) + Output(text, []) by {
        assert b[1..] == [];
      }
    }
  }

  /** One more line of the list of skipped files. */
  lemma PathLinesStep(line: string -> string, paths: seq<string>, j: nat, prefix: string, content: string)
    requires j < |paths|
    requires content == prefix + PathLines(line, paths[..j])
    ensures content + line(paths[j]) == prefix + PathLines(line, paths[..j + 1])
  {
    var next := paths[..j + 1];
    assert next[..|next| - 1] == paths[..j] && next[|next| - 1] == paths[j];
  }

  lemma Regroup5(a: string, b: string, c: string, d: string, e: string)
    ensures a + b + c + d + e == a + (b + c + d + e)
  {
  }

  /** The `forEach` over the skipped files: one line each, in order. */
  method AppendPathLines(line: string -> string, content: string, paths: seq<string>) returns (r: string)
    ensures r == content + PathLines(line, paths)
  {
    r := content;
    for j := 0 to |paths|
      invariant r == content + PathLines(line, paths[..j])
    {
      PathLinesStep(line, paths, j, content, r);
      r := r + line(paths[j]);
    }
    assert paths[..|paths|] == paths;
  }

  /** What one entry contributes, for any renderer. */
  lemma ItemCases(item: Node, config: Config, read: seq<string> -> Option<string>, text: Section -> string)
    ensures Skipped([item], config, read) ==
      (if item.File? && !Embeds(item, config, read) then [RelativePath(item.path)] else [])
    ensures item.Directory? ==> Output(text, ItemSections(item, config, read)) == Output(text, Sections(item.children, config, read))
    ensures item.File? && !Embeds(item, config, read) ==> Output(text, ItemSections(item, config, read)) == ""
    ensures item.File? && Embeds(item, config, read) ==>
      Output(text, ItemSections(item, config, read)) == text(FileSection(item, read(item.path).value))
  {
    assert [item][1..] == [];
    if item.File? && Embeds(item, config, read) {
      var sec := FileSection(item, read(item.path).value);
      assert Output(text, [sec]) == text(sec) + Output(text, []);
    }
  }

  /** What the loop body of either walk must produce for one entry. */
  lemma ItemResult(item: Node, config: Config, read: seq<string> -> Option<string>, text: Section -> string,
                   piece: string, listed: seq<string>)
    requires item.Directory? ==> piece == Output(text, Sections(item.children, config, read)) && listed == []
    requires item.File? && Embeds(item, config, read) ==> piece == text(FileSection(item, read(item.path).value)) && listed == []
    requires item.File? && !Embeds(item, config, read) ==> piece == "" && listed == [RelativePath(item.path)]
    ensures piece == Output(text, ItemSections(item, config, read))
    ensures listed == Skipped([item], config, read)
  {
    ItemCases(item, config, read, text);
  }


  /**
   * The file branch of either loop body: a text file within the size limit whose
   * contents can be read gets its block; any other file goes on the list.
   */
  method FileEntry(item: Node, config: Config, read: seq<string> -> Option<string>, text: Section -> string)
    returns (piece: string, listed: seq<string>)
    requires item.File?
    ensures piece == Output(text, ItemSections(item, config, read))
    ensures listed == Skipped([item], config, read)
  {
    var normalized := RelativePath(item.path);
    piece, listed := "", [normalized];
    if IsTextFile(item.name) && item.size <= config.maxFileSize {
      var fileContent := read(item.path);
      if fileContent.Some? {
        piece := text(FileSection(item, fileContent.value));
        listed := [];
      }
    }
    ItemResult(item, config, read, text, piece, listed);
  }

  /** `generateMarkdownFileContent`. */
  method GenerateMarkdownFileContent(items: seq<Node>, config: Config, read: seq<string> -> Option<string>,
                                     formatSize: nat -> string, meta: seq<string> -> FileMeta)
    returns (content: string)
    ensures content == Output(MarkdownRenderer(formatSize, meta), Sections(items, config, read))
    decreases items
  {
    content := "";
    var binaryFiles: seq<string> := [];
    for i := 0 to |items|
      invariant content == Output(MarkdownRenderer(formatSize, meta), Walk(items[..i], config, read))
      invariant binaryFiles == Skipped(items[..i], config, read)
    {
      var piece, listed := MarkdownItem(items[i], config, read, formatSize, meta);
      ContentStep(MarkdownRenderer(formatSize, meta), items, i, config, read, content, binaryFiles, piece, listed);
      content := content + piece;
      binaryFiles := binaryFiles + listed;
    }
    ContentDone(MarkdownRenderer(formatSize, meta), items, config, read, content, binaryFiles);
    assert MarkdownRenderer(formatSize, meta)(BinarySection(binaryFiles)) == MarkdownBinary(binaryFiles);
    if |binaryFiles| > 0 {
      ghost var before := content;
      content := content + MarkdownBinaryTitle;
      content := content + MarkdownBinaryIntro;
      content := AppendPathLines(MarkdownPathLine, content, binaryFiles);
      content := content + "\n";
      Regroup5(before, MarkdownBinaryTitle, MarkdownBinaryIntro, PathLines(MarkdownPathLine, binaryFiles), "\n");
    }
  }

  /** One entry of the markdown walk: a directory's text, or a file's block or its place on the list. */
  method MarkdownItem(item: Node, config: Config, read: seq<string> -> Option<string>,
                      formatSize: nat -> string, meta: seq<string> -> FileMeta)
    returns (piece: string, listed: seq<string>)
    ensures piece == Output(MarkdownRenderer(formatSize, meta), ItemSections(item, config, read))
    ensures listed == Skipped([item], config, read)
    decreases item
  {
    match item {
      case Directory(_, _, children) =>
        piece := GenerateMarkdownFileContent(children, config, read, formatSize, meta);
        listed := [];
        ItemResult(item, config, read, MarkdownRenderer(formatSize, meta), piece, listed);
      case File(_, _, _, _) =>
        piece, listed := FileEntry(item, config, read, MarkdownRenderer(formatSize, meta));
    }
  }

  /** `generateFileContent`: the same walk, written as plain text. */
  method GenerateFileContent(items: seq<Node>, config: Config, read: seq<string> -> Option<string>,
                             formatSize: nat -> string, meta: seq<string> -> FileMeta)
    returns (content: string)
    ensures content == Output(PlainRenderer(formatSize, meta), Sections(items, config, read))
    decreases items
  {
    content := "";
    var binaryFiles: seq<string> := [];
    for i := 0 to |items|
      invariant content == Output(PlainRenderer(formatSize, meta), Walk(items[..i], config, read))
      invariant binaryFiles == Skipped(items[..i], config, read)
    {
      var piece, listed := PlainItem(items[i], config, read, formatSize, meta);
      ContentStep(PlainRenderer(formatSize, meta), items, i, config, read, content, binaryFiles, piece, listed);
      content := content + piece;
      binaryFiles := binaryFiles + listed;
    }
    ContentDone(PlainRenderer(formatSize, meta), items, config, read, content, binaryFiles);
    assert PlainRenderer(formatSize, meta)(BinarySection(binaryFiles)) == PlainBinary(binaryFiles);
    if |binaryFiles| > 0 {
      ghost var before := content;
      content := content + PlainBinaryTitle;
      content := AppendPathLines(PlainPathLine, content, binaryFiles);
      AppendAssoc(before, PlainBinaryTitle, PathLines(PlainPathLine, binaryFiles));
    }
  }

  /** One entry of the plain-text walk. */
  method PlainItem(item: Node, config: Config, read: seq<string> -> Option<string>,
                   formatSize: nat -> string, meta: seq<string> -> FileMeta)
    returns (piece: string, listed: seq<string>)
    ensures piece == Output(PlainRenderer(formatSize, meta), ItemSections(item, config, read))
    ensures listed == Skipped([item], config, read)
    decreases item
  {
    match item {
      case Directory(_, _, children) =>
        piece := GenerateFileContent(children, config, read, formatSize, meta);
        listed := [];
        ItemResult(item, config, read, PlainRenderer(formatSize, meta), piece, listed);
      case File(_, _, _, _) =>
        piece, listed := FileEntry(item, config, read, PlainRenderer(formatSize, meta));
    }
  }

}
