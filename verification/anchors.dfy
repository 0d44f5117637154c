/**
 * The table of contents of the markdown export (`generateTableOfContents`,
 * `generateFileLinks`): one link per text file of the tree, in depth-first order,
 * each pointing at an anchor made from the file's workspace-relative path.
 */
module Anchors {
  import opened Text
  import opened FileKinds
  import opened Tree
  import opened TreeFolds
  import opened Exclusion

  /** The characters `[a-z0-9]` that the slug keeps. */
  predicate IsSlugChar(c: char) {
    'a' <= c <= 'z' || '0' <= c <= '9'
  }

  /** `replace(/[^a-z0-9]/g, '-')`. */
  function Dashed(s: string): (r: string)
    ensures |r| == |s|
    ensures forall i :: 0 <= i < |s| ==> r[i] == (if IsSlugChar(s[i]) then s[i] else '-')
  {
    seq(|s|, i requires 0 <= i < |s| => if IsSlugChar(s[i]) then s[i] else '-')
  }

  /** `replace(/-+/g, '-')`: a run of hyphens keeps only its last. */
  function Squeeze(s: string): string
    decreases |s|
  {
    if |s| <= 1 then s
    else if s[0] == '-' && s[1] == '-' then Squeeze(s[1..])
    else [s[0]] + Squeeze(s[1..])
  }

  /** `replace(/^-|-$/g, '')`: one leading and one trailing hyphen go. */
  function TrimHyphens(s: string): string {
    var a := if s != [] && s[0] == '-' then s[1..] else s;
    if a != [] && a[|a| - 1] == '-' then a[..|a| - 1] else a
  }

  /** The anchor text of a normalised path, lower-cased with runs of other characters turned into single hyphens. */
  function Slug(path: string): string {
    TrimHyphens(Squeeze(Dashed(ToLower(path))))
  }

  const AnchorPrefix: string := "\U{1F4C4}-"

  function Anchor(path: string): string {
    AnchorPrefix + Slug(path)
  }

  /** An entry of the table of contents: the normalised path and the anchor it links to. */
  datatype Link = Link(name: string, anchor: string)

  function LinkOf(f: Node): Link {
    Link(RelativePath(f.path), Anchor(RelativePath(f.path)))
  }

  /** The links of the text files among `files`, in order. */
  function LinksOf(files: seq<Node>): seq<Link> {
    if files == [] then []
    else (if IsTextFile(files[0].name) then [LinkOf(files[0])] else []) + LinksOf(files[1..])
  }

  lemma {:induction false} LinksOfAppend(a: seq<Node>, b: seq<Node>)
    ensures LinksOf(a + b) == LinksOf(a) + LinksOf(b)
  {
    if a == [] {
      assert a + b == b;
    } else {
      var head := if IsTextFile(a[0].name) then [LinkOf(a[0])] else [];
      assert (a + b)[0] == a[0] && (a + b)[1..] == a[1..] + b;
      LinksOfAppend(a[1..], b);
      assert LinksOf(a + b) == head + LinksOf(a[1..] + b);
      AppendAssoc(head, LinksOf(a[1..]), LinksOf(b));
    }
  }

  /** One more item of a list being walked, as the links see it. */
  lemma LinksSnoc(items: seq<Node>, i: nat, links: seq<Link>, more: seq<Link>)
    requires i < |items|
    requires links == LinksOf(Files(items[..i]))
    requires more == LinksOf(Files([items[i]]))
    ensures links + more == LinksOf(Files(items[..i + 1]))
  {
    FilesSnoc(items, i);
    LinksOfAppend(Files(items[..i]), Files([items[i]]));
  }

  /** `generateFileLinks`: the links of the text files of the tree, in depth-first order. */
  method GenerateFileLinks(items: seq<Node>) returns (links: seq<Link>)
    ensures links == LinksOf(Files(items))
    decreases items
  {
    links := [];
    for i := 0 to |items|
      invariant links == LinksOf(Files(items[..i]))
    {
      var more := LinkItem(items[i]);
      LinksSnoc(items, i, links, more);
      links := links + more;
    }
    assert items[..|items|] == items;
  }

  /** One item of the walk: a directory's links, or a text file's own link. */
  method LinkItem(item: Node) returns (more: seq<Link>)
    ensures more == LinksOf(Files([item]))
    decreases item
  {
    OneNode(item);
    match item
    case Directory(_, _, children) =>
      more := GenerateFileLinks(children);
    case File(name, path, _, _) =>
      assert LinksOf([item]) == (if IsTextFile(name) then [LinkOf(item)] else []) + LinksOf([]);
      if IsTextFile(name) {
        var normalized := RelativePath(path);
        more := [Link(normalized, AnchorPrefix + TrimHyphens(Squeeze(Dashed(ToLower(normalized)))))];
      } else {
        more := [];
      }
  }

  const TocHeading: string := "## \U{1F4D1} Table of Contents\n\n"
  const TocIntro: string := "**Project Files:**\n\n"
  const TocEmpty: string := "*No text files found to display.*\n"
  const TocEnd: string := "\n---\n\n"

  function LinkLine(l: Link): string {
    "- [\U{1F4C4} " + l.name + "](#" + l.anchor + ")\n"
  }

  function LinkLines(links: seq<Link>): string {
    if links == [] then "" else LinkLines(links[..|links| - 1]) + LinkLine(links[|links| - 1])
  }

  /** The table of contents for a list of links. */
  function TocText(links: seq<Link>): string {
    TocHeading + (if links != [] then TocIntro + LinkLines(links) else TocEmpty) + TocEnd
  }

  /** `generateTableOfContents`: a heading, a line per link or a note that there are none, and a rule. */
  method GenerateTableOfContents(items: seq<Node>) returns (toc: string)
    ensures toc == TocText(LinksOf(Files(items)))
  {
    toc := TocHeading;
    var fileLinks := GenerateFileLinks(items);
    if |fileLinks| > 0 {
      toc := toc + TocIntro;
      toc := AppendLinkLines(toc, fileLinks);
      AppendAssoc(TocHeading, TocIntro, LinkLines(fileLinks));
    } else {
      toc := toc + TocEmpty;
    }
    toc := toc + TocEnd;
  }

  /** The `forEach` over the links: one line each, in order. */
  method AppendLinkLines(toc: string, links: seq<Link>) returns (r: string)
    ensures r == toc + LinkLines(links)
  {
    r := toc;
    for i := 0 to |links|
      invariant r == toc + LinkLines(links[..i])
    {
      assert links[..i + 1][..i] == links[..i];
      AppendAssoc(toc, LinkLines(links[..i]), LinkLine(links[i]));
      r := r + LinkLine(links[i]);
    }
    assert links[..|links|] == links;
  }

  // ---------------------------------------------------------------- properties

  /** What an anchor can look like: letters and digits in runs separated by single hyphens. */
  predicate WellFormedSlug(s: string) {
    (forall i :: 0 <= i < |s| ==> IsSlugChar(s[i]) || s[i] == '-') &&
    (s != [] ==> s[0] != '-' && s[|s| - 1] != '-') &&
    (forall i :: 0 <= i < |s| - 1 ==> s[i] != '-' || s[i + 1] != '-')
  }

  predicate SlugAlphabet(s: string) {
    forall i :: 0 <= i < |s| ==> IsSlugChar(s[i]) || s[i] == '-'
  }

  predicate NoDoubleHyphen(s: string) {
    forall i :: 0 <= i < |s| - 1 ==> s[i] != '-' || s[i + 1] != '-'
  }

  /** Squeezing keeps the alphabet, leaves no two hyphens side by side, and keeps the first character unless it starts a run. */
  lemma {:induction false} SqueezeShape(s: string)
    requires SlugAlphabet(s)
    ensures SlugAlphabet(Squeeze(s)) && NoDoubleHyphen(Squeeze(s))
    ensures |Squeeze(s)| <= |s|
    ensures s != [] ==> Squeeze(s) != [] && (Squeeze(s)[0] == '-' <==> s[0] == '-')
    ensures s != [] ==> Squeeze(s)[|Squeeze(s)| - 1] == s[|s| - 1]
    decreases |s|
  {
    if |s| > 1 {
      SqueezeShape(s[1..]);
      var t := Squeeze(s[1..]);
      if !(s[0] == '-' && s[1] == '-') {
        var r := [s[0]] + t;
        assert r[1..] == t;
        forall i | 0 <= i < |r| - 1
          ensures r[i] != '-' || r[i + 1] != '-'
        {
          if i > 0 {
            assert r[i] == t[i - 1] && r[i + 1] == t[i];
          }
        }
      }
    }
  }

  /** Every anchor is made of `[a-z0-9]` runs joined by single hyphens, with no hyphen at either end. */
  lemma SlugWellFormed(path: string)
    ensures WellFormedSlug(Slug(path))
  {
    var d := Dashed(ToLower(path));
    var q := Squeeze(d);
    SqueezeShape(d);
    var a := if q != [] && q[0] == '-' then q[1..] else q;
    assert SlugAlphabet(a) && NoDoubleHyphen(a);
    if a != [] && q != [] && q[0] == '-' {
      assert a[0] == q[1];
    }
    var r := TrimHyphens(q);
    if a != [] && a[|a| - 1] == '-' && |a| >= 2 {
      assert r[|r| - 1] == a[|a| - 2];
    }
  }

  lemma {:induction false} SqueezeFixed(s: string)
    requires NoDoubleHyphen(s)
    ensures Squeeze(s) == s
    decreases |s|
  {
    if |s| > 1 {
      SqueezeFixed(s[1..]);
      assert s == [s[0]] + s[1..];
    }
  }

  /** An anchor that is already well formed is its own anchor. */
  lemma SlugFixed(s: string)
    requires WellFormedSlug(s)
    ensures Slug(s) == s
  {
    AlphabetFixed(s);
    SqueezeFixed(s);
    TrimFixed(s);
    assert Slug(s) == TrimHyphens(Squeeze(s));
  }

  /** Trimming leaves a string without a leading or trailing hyphen as it is. */
  lemma TrimFixed(s: string)
    requires s != [] ==> s[0] != '-' && s[|s| - 1] != '-'
    ensures TrimHyphens(s) == s
  {
  }

  /** Lower-casing and dashing leave a string of the anchor alphabet as it is. */
  lemma AlphabetFixed(s: string)
    requires SlugAlphabet(s)
    ensures ToLower(s) == s && Dashed(s) == s
  {
    assert ToLower(s) == s;
  }

  /** Making an anchor twice gives the anchor made once. */
  lemma SlugIdempotent(path: string)
    ensures Slug(Slug(path)) == Slug(path)
  {
    SlugWellFormed(path);
    SlugFixed(Slug(path));
  }

  /** The letters and digits of a string, in order. */
  function Alnums(s: string): string {
    if s == [] then [] else (if IsSlugChar(s[0]) then [s[0]] else []) + Alnums(s[1..])
  }

  lemma {:induction false} AlnumsAppend(a: string, b: string)
    ensures Alnums(a + b) == Alnums(a) + Alnums(b)
  {
    if a == [] {
      assert a + b == b;
    } else {
      assert (a + b)[0] == a[0] && (a + b)[1..] == a[1..] + b;
      AlnumsAppend(a[1..], b);
      var h := if IsSlugChar(a[0]) then [a[0]] else [];
      assert Alnums(a + b) == h + Alnums(a[1..] + b);
      AppendAssoc(h, Alnums(a[1..]), Alnums(b));
    }
  }

  lemma {:induction false} DashedKeepsAlnums(s: string)
    ensures Alnums(Dashed(s)) == Alnums(s)
  {
    if s != [] {
      DashedKeepsAlnums(s[1..]);
      assert Dashed(s)[1..] == Dashed(s[1..]);
    }
  }

  lemma {:induction false} SqueezeKeepsAlnums(s: string)
    ensures Alnums(Squeeze(s)) == Alnums(s)
    decreases |s|
  {
    if |s| > 1 {
      SqueezeKeepsAlnums(s[1..]);
      AlnumsAppend([s[0]], s[1..]);
      assert s == [s[0]] + s[1..];
      if !(s[0] == '-' && s[1] == '-') {
        AlnumsAppend([s[0]], Squeeze(s[1..]));
      }
    }
  }

  lemma TrimKeepsAlnums(s: string)
    ensures Alnums(TrimHyphens(s)) == Alnums(s)
  {
    var a := if s != [] && s[0] == '-' then s[1..] else s;
    if s != [] && s[0] == '-' {
      AlnumsAppend([s[0]], s[1..]);
      assert s == [s[0]] + s[1..];
    }
    if a != [] && a[|a| - 1] == '-' {
      AlnumsAppend(a[..|a| - 1], [a[|a| - 1]]);
      assert a == a[..|a| - 1] + [a[|a| - 1]];
    }
  }

  /** The anchor drops only separators: its letters and digits are those of the lower-cased path, in order. */
  lemma SlugKeepsAlnums(path: string)
    ensures Alnums(Slug(path)) == Alnums(ToLower(path))
  {
    var d := Dashed(ToLower(path));
    DashedKeepsAlnums(ToLower(path));
    SqueezeKeepsAlnums(d);
    TrimKeepsAlnums(Squeeze(d));
  }

  /** Different paths can share an anchor: `a_b.ts` and `a-b.ts` both link to `a-b-ts`. */
  lemma AnchorsCollide()
    ensures Slug("a_b.ts") == Slug("a-b.ts") == "a-b-ts"
  {
    assert ToLower("a_b.ts") == "a_b.ts";
    assert ToLower("a-b.ts") == "a-b.ts";
    assert Dashed("a_b.ts") == "a-b-ts";
    assert Dashed("a-b.ts") == "a-b-ts";
    SqueezeFixed("a-b-ts");
  }

  /** There is one link per text file of the tree, and each names its file's path and that path's anchor. */
  lemma {:induction false} LinksOfFiles(files: seq<Node>)
    ensures |LinksOf(files)| <= |files|
    ensures forall l :: l in LinksOf(files) ==> l.anchor == Anchor(l.name)
    ensures forall f :: f in files && IsTextFile(f.name) ==> LinkOf(f) in LinksOf(files)
    ensures forall l :: l in LinksOf(files) ==> exists f :: f in files && IsTextFile(f.name) && l == LinkOf(f)
  {
    if files != [] {
      LinksOfFiles(files[1..]);
      var head := if IsTextFile(files[0].name) then [LinkOf(files[0])] else [];
      assert LinksOf(files) == head + LinksOf(files[1..]);
      forall f | f in files && IsTextFile(f.name)
        ensures LinkOf(f) in LinksOf(files)
      {
        if f != files[0] {
          assert f in files[1..];
        }
      }
      forall l | l in LinksOf(files)
        ensures exists f :: f in files && IsTextFile(f.name) && l == LinkOf(f)
      {
        if l in head {
          assert files[0] in files;
        } else {
          assert l in LinksOf(files[1..]);
          var f :| f in files[1..] && IsTextFile(f.name) && l == LinkOf(f);
          assert f in files;
        }
      }
    }
  }

  /** The table lists exactly the links, one line each, or says that there are none. */
  lemma {:induction false} LinkLinesCount(links: seq<Link>)
    ensures |LinkLines(links)| >= |links|
    ensures links == [] <==> LinkLines(links) == ""
  {
    if links != [] {
      LinkLinesCount(links[..|links| - 1]);
    }
  }
}
