/**
 * What the file-contents walk promises about the tree as a whole: every file is
 * either embedded (a block of its own) or listed (a line in its directory's list
 * of skipped files), never both and never neither; the escaping of markdown files
 * cannot close the fence around them; and every block's heading carries the
 * anchor the table of contents links to.
 */
module ContentProperties {
  import opened Wrappers
  import opened Text
  import opened Settings
  import opened FileKinds
  import opened Tree
  import opened TreeFolds
  import opened Exclusion
  import opened Anchors
  import opened Content

  // ---------------------------------------------------------------- reference definitions

  /** The test that decides whether a file gets a block. */
  function EmbedTest(config: Config, read: seq<string> -> Option<string>): Node -> bool {
    f => Embeds(f, config, read)
  }

  /** The files among `files` that pass `keep`, in order. */
  function Kept(keep: Node -> bool, files: seq<Node>): seq<Node> {
    if files == [] then []
    else (if keep(files[0]) then [files[0]] else []) + Kept(keep, files[1..])
  }

  /** The normalised paths of the files among `files` that fail `keep`, in order. */
  function Dropped(keep: Node -> bool, files: seq<Node>): seq<string> {
    if files == [] then []
    else (if keep(files[0]) then [] else [RelativePath(files[0].path)]) + Dropped(keep, files[1..])
  }

  /** The files the sections write a block for, in order. */
  function Embedded(secs: seq<Section>): seq<Node> {
    if secs == [] then []
    else (if secs[0].FileSection? then [secs[0].file] else []) + Embedded(secs[1..])
  }

  /** The paths the sections list as skipped, in order. */
  function Listed(secs: seq<Section>): seq<string> {
    if secs == [] then []
    else (if secs[0].BinarySection? then secs[0].paths else []) + Listed(secs[1..])
  }

  lemma {:induction false} KeptAppend(keep: Node -> bool, a: seq<Node>, b: seq<Node>)
    ensures Kept(keep, a + b) == Kept(keep, a) + Kept(keep, b)
    ensures Dropped(keep, a + b) == Dropped(keep, a) + Dropped(keep, b)
  {
    if a == [] {
      assert a + b == b;
    } else {
      assert (a + b)[0] == a[0] && (a + b)[1..] == a[1..] + b;
      KeptAppend(keep, a[1..], b);
      var k := if keep(a[0]) then [a[0]] else [];
      assert Kept(keep, a + b) == k + Kept(keep, a[1..] + b);
      AppendAssoc(k, Kept(keep, a[1..]), Kept(keep, b));
      var d := if keep(a[0]) then [] else [RelativePath(a[0].path)];
      assert Dropped(keep, a + b) == d + Dropped(keep, a[1..] + b);
      AppendAssoc(d, Dropped(keep, a[1..]), Dropped(keep, b));
    }
  }

  lemma {:induction false} SectionsAppend(a: seq<Section>, b: seq<Section>)
    ensures Embedded(a + b) == Embedded(a) + Embedded(b)
    ensures Listed(a + b) == Listed(a) + Listed(b)
  {
    if a == [] {
      assert a + b == b;
    } else {
      assert (a + b)[0] == a[0] && (a + b)[1..] == a[1..] + b;
      SectionsAppend(a[1..], b);
      var e := if a[0].FileSection? then [a[0].file] else [];
      assert Embedded(a + b) == e + Embedded(a[1..] + b);
      AppendAssoc(e, Embedded(a[1..]), Embedded(b));
      var l := if a[0].BinarySection? then a[0].paths else [];
      assert Listed(a + b) == l + Listed(a[1..] + b);
      AppendAssoc(l, Listed(a[1..]), Listed(b));
    }
  }

  // ---------------------------------------------------------------- every file once

  /** A file entry is embedded or listed at its own level; a directory entry lists nothing at this level. */
  lemma FileEntryPartition(h: Node, config: Config, read: seq<string> -> Option<string>)
    requires h.File?
    ensures Embedded(ItemSections(h, config, read)) == Kept(EmbedTest(config, read), [h])
    ensures Listed(ItemSections(h, config, read)) == []
    ensures Skipped([h], config, read) == Dropped(EmbedTest(config, read), [h])
  {
    var keep := EmbedTest(config, read);
    assert [h][1..] == [];
    assert keep(h) == Embeds(h, config, read);
    var hs := ItemSections(h, config, read);
    if Embeds(h, config, read) {
      assert hs[1..] == [];
    }
  }

  /** What one entry's sections embed and list, with the entry's own place on its directory's list. */
  lemma {:induction false} ItemPartition(h: Node, config: Config, read: seq<string> -> Option<string>)
    ensures Embedded(ItemSections(h, config, read)) == Kept(EmbedTest(config, read), Files([h]))
    ensures multiset(Listed(ItemSections(h, config, read))) + multiset(Skipped([h], config, read))
         == multiset(Dropped(EmbedTest(config, read), Files([h])))
    decreases h
  {
    OneNode(h);
    if h.File? {
      FileEntryPartition(h, config, read);
    } else {
      assert [h][1..] == [];
      SectionsPartition(h.children, config, read);
    }
  }

  /**
   * The entries' sections embed exactly the embedded files below them, in order, and
   * they list, together with this level's own skipped files, every other file once.
   */
  lemma {:induction false} WalkPartition(items: seq<Node>, config: Config, read: seq<string> -> Option<string>)
    ensures Embedded(Walk(items, config, read)) == Kept(EmbedTest(config, read), Files(items))
    ensures multiset(Listed(Walk(items, config, read))) + multiset(Skipped(items, config, read))
         == multiset(Dropped(EmbedTest(config, read), Files(items)))
    decreases items, 0
  {
    if items != [] {
      var h, t := items[0], items[1..];
      WalkCons(items, config, read);
      KeptAppend(EmbedTest(config, read), Files([h]), Files(t));
      SectionsAppend(ItemSections(h, config, read), Walk(t, config, read));
      ItemPartition(h, config, read);
      WalkPartition(t, config, read);
    }
  }

  /** The first entry's files and skipped files come before the rest's. */
  lemma WalkCons(items: seq<Node>, config: Config, read: seq<string> -> Option<string>)
    requires items != []
    ensures Skipped(items, config, read) == Skipped([items[0]], config, read) + Skipped(items[1..], config, read)
    ensures Files(items) == Files([items[0]]) + Files(items[1..])
  {
    assert items == [items[0]] + items[1..];
    WalkAppend([items[0]], items[1..], config, read);
    FilesAppend([items[0]], items[1..]);
  }

  /** A directory's sections embed exactly its embedded files, in order, and list every other file once. */
  lemma {:induction false} SectionsPartition(items: seq<Node>, config: Config, read: seq<string> -> Option<string>)
    ensures Embedded(Sections(items, config, read)) == Kept(EmbedTest(config, read), Files(items))
    ensures multiset(Listed(Sections(items, config, read))) == multiset(Dropped(EmbedTest(config, read), Files(items)))
    decreases items, 1
  {
    WalkPartition(items, config, read);
    var skipped := Skipped(items, config, read);
    var tail := if skipped != [] then [BinarySection(skipped)] else [];
    SectionsAppend(Walk(items, config, read), tail);
    if skipped != [] {
      assert tail[1..] == [];
    }
  }

  lemma {:induction false} KeptMembers(keep: Node -> bool, files: seq<Node>)
    ensures forall f :: f in Kept(keep, files) <==> f in files && keep(f)
  {
    if files != [] {
      KeptMembers(keep, files[1..]);
      assert files == [files[0]] + files[1..];
    }
  }

  lemma {:induction false} DroppedMembers(keep: Node -> bool, files: seq<Node>)
    ensures forall f :: f in files && !keep(f) ==> RelativePath(f.path) in Dropped(keep, files)
  {
    if files != [] {
      DroppedMembers(keep, files[1..]);
      forall f | f in files && !keep(f)
        ensures RelativePath(f.path) in Dropped(keep, files)
      {
        if f != files[0] {
          assert f in files[1..];
        }
      }
    }
  }

  /** A dropped path is the path of a file that failed the test. */
  lemma {:induction false} DroppedSource(keep: Node -> bool, files: seq<Node>, p: string) returns (g: Node)
    requires p in Dropped(keep, files)
    ensures g in files && !keep(g) && RelativePath(g.path) == p
  {
    if !keep(files[0]) && p == RelativePath(files[0].path) {
      g := files[0];
    } else {
      g := DroppedSource(keep, files[1..], p);
      assert g in files;
    }
  }

  /**
   * The fate of a file of the tree: it gets a block exactly when it is a text file
   * within the size limit whose contents can be read; otherwise its path is listed.
   */
  lemma FileFate(items: seq<Node>, config: Config, read: seq<string> -> Option<string>, f: Node)
    requires f in Files(items)
    ensures f in Embedded(Sections(items, config, read)) <==> Embeds(f, config, read)
    ensures !Embeds(f, config, read) ==> RelativePath(f.path) in Listed(Sections(items, config, read))
  {
    var keep := EmbedTest(config, read);
    SectionsPartition(items, config, read);
    KeptMembers(keep, Files(items));
    DroppedMembers(keep, Files(items));
    assert keep(f) == Embeds(f, config, read);
    if !Embeds(f, config, read) {
      assert RelativePath(f.path) in multiset(Dropped(keep, Files(items)));
    }
  }

  /** Only files that get no block are listed: a listed path is the path of such a file. */
  lemma ListedAreNotEmbedded(items: seq<Node>, config: Config, read: seq<string> -> Option<string>, p: string)
    requires p in Listed(Sections(items, config, read))
    ensures exists g :: g in Files(items) && !Embeds(g, config, read) && RelativePath(g.path) == p
  {
    var keep := EmbedTest(config, read);
    SectionsPartition(items, config, read);
    assert p in multiset(Listed(Sections(items, config, read)));
    assert p in multiset(Dropped(keep, Files(items)));
    var g := DroppedSource(keep, Files(items), p);
    assert keep(g) == Embeds(g, config, read);
  }

  lemma {:induction false} PartitionCounts(keep: Node -> bool, files: seq<Node>)
    ensures |Kept(keep, files)| + |Dropped(keep, files)| == |files|
  {
    if files != [] {
      PartitionCounts(keep, files[1..]);
    }
  }

  /** The counts add up: one block or one listed line per file of the tree. */
  lemma EveryFileOnce(items: seq<Node>, config: Config, read: seq<string> -> Option<string>)
    ensures |Embedded(Sections(items, config, read))| + |Listed(Sections(items, config, read))| == |Files(items)|
  {
    SectionsPartition(items, config, read);
    PartitionCounts(EmbedTest(config, read), Files(items));
    assert |Listed(Sections(items, config, read))| == |multiset(Listed(Sections(items, config, read)))|;
  }

  // ---------------------------------------------------------------- escaping

  /** No three backticks in a row: nothing inside can close a fence of three or more backticks. */
  predicate NoTriple(s: string) {
    forall i :: 0 <= i && i + 2 < |s| ==> !(s[i] == '`' && s[i + 1] == '`' && s[i + 2] == '`')
  }

  /**
   * Replacing every run of three backticks, scanning from the left, leaves none; and
   * what the replacement starts with (one or two backticks) the text already started with.
   */
  lemma {:induction false} EscapeLeavesNoTriple(before: string, s: string)
    ensures NoTriple(ReplaceAllFrom(before, s, TripleBacktick, "~~~~"))
    ensures var r := ReplaceAllFrom(before, s, TripleBacktick, "~~~~");
      |r| > 0 && r[0] == '`' ==> |s| > 0 && s[0] == '`'
    ensures var r := ReplaceAllFrom(before, s, TripleBacktick, "~~~~");
      |r| > 1 && r[0] == '`' && r[1] == '`' ==> |s| > 1 && s[0] == '`' && s[1] == '`'
    decreases |s|
  {
    var r := ReplaceAllFrom(before, s, TripleBacktick, "~~~~");
    if |s| < 3 {
      assert r == s;
    } else if s[..3] == TripleBacktick {
      var rest := ReplaceAllFrom(before + TripleBacktick, s[3..], TripleBacktick, "~~~~");
      EscapeLeavesNoTriple(before + TripleBacktick, s[3..]);
      ExpandPlain("~~~~", TripleBacktick, before, s[3..]);
      assert r == "~~~~" + rest;
      forall i | 0 <= i && i + 2 < |r|
        ensures !(r[i] == '`' && r[i + 1] == '`' && r[i + 2] == '`')
      {
        if i >= 4 {
          assert r[i] == rest[i - 4] && r[i + 1] == rest[i - 3] && r[i + 2] == rest[i - 2];
        } else {
          assert r[i] == '~';
        }
      }
    } else {
      var rest := ReplaceAllFrom(before + [s[0]], s[1..], TripleBacktick, "~~~~");
      EscapeLeavesNoTriple(before + [s[0]], s[1..]);
      assert r == [s[0]] + rest;
      forall i | 0 <= i && i + 2 < |r|
        ensures !(r[i] == '`' && r[i + 1] == '`' && r[i + 2] == '`')
      {
        if i >= 1 {
          assert r[i] == rest[i - 1] && r[i + 1] == rest[i] && r[i + 2] == rest[i + 1];
        } else if r[1] == '`' && r[2] == '`' {
          assert s[1] == '`' && s[2] == '`';
          assert s[..3] != TripleBacktick;
        }
      }
    }
  }

  /** A markdown file's contents, once escaped, hold no three backticks in a row, so they cannot end the four-backtick fence early. */
  lemma EscapedBodyCannotCloseFence(body: string)
    ensures NoTriple(ReplaceAll(body, TripleBacktick, "~~~~"))
    ensures !Contains(ReplaceAll(body, TripleBacktick, "~~~~"), TripleBacktick)
  {
    var r := ReplaceAll(body, TripleBacktick, "~~~~");
    EscapeLeavesNoTriple([], body);
    forall i | 0 <= i <= |r|
      ensures !OccursAt(r, TripleBacktick, i)
    {
      if i + 3 <= |r| {
        var w := r[i..i + 3];
        assert w[0] == r[i] && w[1] == r[i + 1] && w[2] == r[i + 2];
      }
    }
  }

  /** Contents without a backtick come through the escaping unchanged. */
  lemma EscapeKeepsPlainText(body: string)
    requires '`' !in body
    ensures EscapeMarkdownContent(body) == "````markdown\n" + body + "\n````\n\n"
  {
    ReplaceAllFromNoMatch([], body, TripleBacktick, "~~~~");
  }

  // ---------------------------------------------------------------- headings and links

  lemma StartsWithAppend(a: string, b: string, prefix: string)
    requires StartsWith(a, prefix)
    ensures StartsWith(a + b, prefix)
  {
    assert (a + b)[..|prefix|] == a[..|prefix|];
  }

  /** Whatever follows it, a heading starts with its anchor in full, closing quote included. */
  lemma HeadingPrefix(path: string, rest: string)
    ensures StartsWith(MarkdownHeading(path) + rest, HeadingStart + Anchor(path) + HeadingMid)
  {
    var p := HeadingStart + Anchor(path) + HeadingMid;
    StartsWithAppend(p, path, p);
    StartsWithAppend(p + path, "`\n\n", p);
    StartsWithAppend(MarkdownHeading(path), rest, p);
  }

  /** The heading of every markdown block carries the anchor of the file's link. */
  lemma HeadingCarriesLink(f: Node, body: string, formatSize: nat -> string, meta: FileMeta)
    ensures StartsWith(MarkdownBlock(f, body, formatSize, meta), HeadingStart + LinkOf(f).anchor + HeadingMid)
  {
    var ext := ExtOf(f);
    HeadingPrefix(RelativePath(f.path), MarkdownInfo(f, formatSize, meta) + MarkdownBody(ext, LanguageOf(ext), body) + "---\n\n");
  }

  /** The anchors of a list of links. */
  function LinkAnchors(links: seq<Link>): seq<string> {
    if links == [] then [] else [links[0].anchor] + LinkAnchors(links[1..])
  }

  /** The anchors the headings of blocks for these files carry. */
  function HeadingAnchors(files: seq<Node>): seq<string> {
    if files == [] then [] else [Anchor(RelativePath(files[0].path))] + HeadingAnchors(files[1..])
  }

  /** Every file gets a link, whether it gets a block or not: the anchors are those of the text files. */
  lemma {:induction false} LinksOfTextFiles(files: seq<Node>)
    requires forall f :: f in files ==> IsTextFile(f.name)
    ensures LinkAnchors(LinksOf(files)) == HeadingAnchors(files)
  {
    if files != [] {
      assert files[0] in files;
      LinksOfTextFiles(files[1..]);
    }
  }

  /** The table of contents and the file-links section are built from the text files, embedded or not. */
  function TableLinks(items: seq<Node>): seq<Link> {
    LinksOf(Files(items))
  }

  /** The file of the counterexample below is a text file at the top of the tree. */
  lemma BigTsFile()
    ensures IsTextFile("big.ts") && RelativePath(["big.ts"]) == "big.ts"
  {
    assert LastDot("big.ts") == 3;
    assert ToLower(".ts") == ".ts";
    assert TextExtension(5) == ".ts";
    assert Join(["big.ts"], "/") == "big.ts";
    NormalizeSlashesKeeps("big.ts");
  }

  /**
   * As written the table links to a block for every text file, also to one too
   * large to embed or unreadable, which has no heading: the link leads nowhere.
   */
  lemma BrokenTableLink(config: Config, read: seq<string> -> Option<string>)
    requires config.maxFileSize < 2
    ensures var items := [File("big.ts", ["big.ts"], 2, ".ts")];
      LinkAnchors(TableLinks(items)) == [Anchor("big.ts")] &&
      HeadingAnchors(Embedded(Sections(items, config, read))) == []
  {
    var f := File("big.ts", ["big.ts"], 2, ".ts");
    OneNode(f);
    BigTsFile();
    assert LinksOf([f]) == [LinkOf(f)] + LinksOf([]);
    SectionsPartition([f], config, read);
    assert !Embeds(f, config, read);
    assert Kept(EmbedTest(config, read), [f]) == [] + Kept(EmbedTest(config, read), []);
  }

  /** The links of the embedded files only: one per block. */
  function EmbeddedLinks(items: seq<Node>, config: Config, read: seq<string> -> Option<string>): seq<Link> {
    LinksOf(Kept(EmbedTest(config, read), Files(items)))
  }

  /** With the links taken from the embedded files, each link has a heading and each heading a link, in the same order. */
  lemma EmbeddedLinksMatchHeadings(items: seq<Node>, config: Config, read: seq<string> -> Option<string>)
    ensures LinkAnchors(EmbeddedLinks(items, config, read)) == HeadingAnchors(Embedded(Sections(items, config, read)))
  {
    var keep := EmbedTest(config, read);
    SectionsPartition(items, config, read);
    KeptMembers(keep, Files(items));
    forall f | f in Kept(keep, Files(items)) ensures IsTextFile(f.name) {
      assert keep(f) == Embeds(f, config, read);
    }
    LinksOfTextFiles(Kept(keep, Files(items)));
  }
}
