/**
 * The box-drawing listing of the project tree (`generateTreeStructure`). Each
 * node gets one line: its indent, a connector (the last of a sibling list gets
 * the elbow, the others a tee), an icon and its name. Children are listed under
 * their directory with one more indent segment. The rows below say which line
 * each node gets; the text is the rows rendered one per line.
 */
module TreeText {
  import opened Text
  import opened Tree
  import opened TreeFolds

  const Tee: string := "├── "
  const Elbow: string := "└── "
  const Pipe: string := "│   "
  const Blank: string := "    "
  const FolderIcon: string := "\U{1F4C1} "
  const FileIcon: string := "\U{1F4C4} "

  function Connector(last: bool): string {
    if last then Elbow else Tee
  }

  /** What a line adds to the indent of the lines below it. */
  function Segment(last: bool): (r: string)
    ensures |r| == 4
  {
    if last then Blank else Pipe
  }

  /** One line of the listing: the indent it sits at, whether it closes its sibling list, and its node. */
  datatype Row = Row(indent: string, last: bool, item: Node)

  /** The rows of a sibling list and everything under it, in depth-first pre-order. */
  function Rows(items: seq<Node>, indent: string): seq<Row>
    decreases items, |items| + 1
  {
    RowsFrom(items, 0, indent)
  }

  /** The rows of the siblings from index `i` on. */
  function RowsFrom(items: seq<Node>, i: nat, indent: string): seq<Row>
    decreases items, |items| - i
  {
    if i >= |items| then []
    else
      var last := i == |items| - 1;
      [Row(indent, last, items[i])] +
      (if items[i].Directory? then Rows(items[i].children, indent + Segment(last)) else []) +
      RowsFrom(items, i + 1, indent)
  }

  /** `(size)` after a file's name, only when the size is not zero; `formatFileSize` is a parameter. */
  function SizeInfo(size: nat, formatSize: nat -> string): string {
    if size != 0 then " (" + formatSize(size) + ")" else ""
  }

  function Label(item: Node, formatSize: nat -> string): string {
    match item
    case Directory(name, _, _) => FolderIcon + name + "/"
    case File(name, _, size, _) => FileIcon + name + SizeInfo(size, formatSize)
  }

  function RowText(r: Row, formatSize: nat -> string): string {
    r.indent + Connector(r.last) + Label(r.item, formatSize)
  }

  /** The rows, one newline-terminated line each. */
  function Render(rows: seq<Row>, formatSize: nat -> string): string {
    if rows == [] then "" else RowText(rows[0], formatSize) + "\n" + Render(rows[1..], formatSize)
  }

  /** The text the loop adds for the sibling at `i`: its line, then its subtree. */
  function ItemText(items: seq<Node>, i: nat, indent: string, formatSize: nat -> string): string
    requires i < |items|
  {
    var last := i == |items| - 1;
    RowText(Row(indent, last, items[i]), formatSize) + "\n" +
    (if items[i].Directory? then Render(Rows(items[i].children, indent + Segment(last)), formatSize) else "")
  }

  lemma {:induction false} RenderAppend(a: seq<Row>, b: seq<Row>, formatSize: nat -> string)
    ensures Render(a + b, formatSize) == Render(a, formatSize) + Render(b, formatSize)
  {
    if a == [] {
      assert a + b == b;
    } else {
      assert (a + b)[0] == a[0] && (a + b)[1..] == a[1..] + b;
      RenderAppend(a[1..], b, formatSize);
    }
  }

  /** The text of the siblings from `i` on is the text of the sibling at `i`, then the rest. */
  lemma RenderFrom(items: seq<Node>, i: nat, indent: string, formatSize: nat -> string)
    requires i < |items|
    ensures Render(RowsFrom(items, i, indent), formatSize) ==
      ItemText(items, i, indent, formatSize) + Render(RowsFrom(items, i + 1, indent), formatSize)
  {
    var last := i == |items| - 1;
    var head := Row(indent, last, items[i]);
    var below := if items[i].Directory? then Rows(items[i].children, indent + Segment(last)) else [];
    var rest := RowsFrom(items, i + 1, indent);
    assert RowsFrom(items, i, indent) == [head] + below + rest;
    RenderAppend([head] + below, rest, formatSize);
    RenderAppend([head], below, formatSize);
    assert Render([head], formatSize) == RowText(head, formatSize) + "\n" by {
      assert [head][1..] == [];
    }
    if items[i].File? {
      assert Render(below, formatSize) == "";
    }
  }

  /** One pass of the loop keeps what is built, followed by what is left, equal to the whole listing. */
  lemma RenderStep(items: seq<Node>, i: nat, indent: string, formatSize: nat -> string, result: string, piece: string)
    requires i < |items|
    requires result + Render(RowsFrom(items, i, indent), formatSize) == Render(Rows(items, indent), formatSize)
    requires piece == ItemText(items, i, indent, formatSize)
    ensures (result + piece) + Render(RowsFrom(items, i + 1, indent), formatSize) == Render(Rows(items, indent), formatSize)
  {
    RenderFrom(items, i, indent, formatSize);
  }

  /** The line of a directory, as the loop assembles it. */
  lemma DirectoryLine(indent: string, last: bool, name: string, path: seq<string>, children: seq<Node>, formatSize: nat -> string)
    ensures RowText(Row(indent, last, Directory(name, path, children)), formatSize) + "\n" ==
      indent + Connector(last) + FolderIcon + name + "/" + "\n"
  {
  }

  /** The line of a file, as the loop assembles it. */
  lemma FileLine(indent: string, last: bool, name: string, path: seq<string>, size: nat, extension: string, formatSize: nat -> string)
    ensures RowText(Row(indent, last, File(name, path, size, extension)), formatSize) + "\n" ==
      indent + Connector(last) + FileIcon + name + SizeInfo(size, formatSize) + "\n"
  {
  }

  /** `generateTreeStructure`: the lines of the listing, built sibling by sibling. */
  method GenerateTreeStructure(items: seq<Node>, indent: string, formatSize: nat -> string) returns (result: string)
    ensures result == Render(Rows(items, indent), formatSize)
    decreases items, 1
  {
    result := "";
    for i := 0 to |items|
      invariant result + Render(RowsFrom(items, i, indent), formatSize) == Render(Rows(items, indent), formatSize)
    {
      var piece := TreeItem(items, i, indent, formatSize);
      RenderStep(items, i, indent, formatSize, result, piece);
      result := result + piece;
    }
    assert result + "" == result;
  }

  /** One pass of the loop of `generateTreeStructure`: the line of the sibling at `i`, then its subtree. */
  method TreeItem(items: seq<Node>, i: nat, indent: string, formatSize: nat -> string) returns (piece: string)
    requires i < |items|
    ensures piece == ItemText(items, i, indent, formatSize)
    decreases items, 0
  {
    var isLast := i == |items| - 1;
    var connector := if isLast then Elbow else Tee;
    var nextIndent := indent + (if isLast then Blank else Pipe);
    match items[i]
    case Directory(name, path, children) =>
      DirectoryLine(indent, isLast, name, path, children, formatSize);
      piece := indent + connector + FolderIcon + name + "/" + "\n";
      if |children| > 0 {
        var below := GenerateTreeStructure(children, nextIndent, formatSize);
        piece := piece + below;
      } else {
        assert Rows(children, nextIndent) == [];
        assert piece + "" == piece;
      }
    case File(name, path, size, extension) =>
      FileLine(indent, isLast, name, path, size, extension, formatSize);
      var sizeInfo := if size != 0 then " (" + formatSize(size) + ")" else "";
      piece := indent + connector + FileIcon + name + sizeInfo + "\n";
  }

  // ---------------------------------------------------------------- properties

  /** One row per node: as many lines as files and directories in the tree. */
  lemma {:induction false} RowsCount(items: seq<Node>, indent: string)
    ensures |Rows(items, indent)| == NodeCount(items)
    decreases items, |items| + 1
  {
    RowsFromCount(items, 0, indent);
    assert items[0..] == items;
  }

  lemma {:induction false} RowsFromCount(items: seq<Node>, i: nat, indent: string)
    requires i <= |items|
    ensures |RowsFrom(items, i, indent)| == NodeCount(items[i..])
    decreases items, |items| - i
  {
    if i < |items| {
      var last := i == |items| - 1;
      RowsFromCount(items, i + 1, indent);
      assert items[i..] == [items[i]] + items[i + 1..];
      FilesAppend([items[i]], items[i + 1..]);
      OneNode(items[i]);
      if items[i].Directory? {
        RowsCount(items[i].children, indent + Segment(last));
      }
    }
  }

  /** The rows of the siblings from `i` on end the rows of the whole list. */
  lemma {:induction false} RowsFromSuffix(items: seq<Node>, i: nat, indent: string)
    requires i <= |items|
    ensures |RowsFrom(items, i, indent)| <= |Rows(items, indent)|
    ensures Rows(items, indent)[|Rows(items, indent)| - |RowsFrom(items, i, indent)|..] == RowsFrom(items, i, indent)
  {
    if i > 0 {
      RowsFromSuffix(items, i - 1, indent);
      var r := RowsFrom(items, i - 1, indent);
      var s := RowsFrom(items, i, indent);
      assert r[|r| - |s|..] == s;
    }
  }

  /**
   * The sibling at `i` gets the row right after the nodes before it: at the list's
   * indent, the elbow exactly when it is the last sibling, and a directory's rows
   * follow with one more indent segment.
   */
  lemma SiblingRows(items: seq<Node>, i: nat, indent: string)
    requires i < |items|
    ensures var k := NodeCount(items[..i]); var rows := Rows(items, indent);
      var last := i == |items| - 1;
      k < |rows| && rows[k] == Row(indent, last, items[i]) &&
      (items[i].Directory? ==>
        var below := Rows(items[i].children, indent + Segment(last));
        k + 1 + |below| <= |rows| && rows[k + 1..k + 1 + |below|] == below)
  {
    var rows := Rows(items, indent);
    var from := RowsFrom(items, i, indent);
    RowsFromSuffix(items, i, indent);
    RowsCount(items, indent);
    RowsFromCount(items, i, indent);
    assert items == items[..i] + items[i..];
    FilesAppend(items[..i], items[i..]);
    var k := NodeCount(items[..i]);
    assert |rows| - |from| == k;
    assert rows[k..] == from;
  }

  /** Every line starts with its indent and connector; a directory's ends in `/`, a file's size shows only when not zero. */
  lemma LineShape(r: Row, formatSize: nat -> string)
    ensures StartsWith(RowText(r, formatSize), r.indent + Connector(r.last))
    ensures r.item.Directory? ==> EndsWith(RowText(r, formatSize), "/")
    ensures r.item.File? && r.item.size == 0 ==> EndsWith(RowText(r, formatSize), r.item.name)
    ensures r.item.File? && r.item.size != 0 ==> EndsWith(RowText(r, formatSize), " (" + formatSize(r.item.size) + ")")
  {
    var t := RowText(r, formatSize);
    var head := r.indent + Connector(r.last);
    assert t == head + Label(r.item, formatSize);
    assert t[..|head|] == head;
    match r.item
    case Directory(name, _, _) =>
      assert t == (head + FolderIcon + name) + "/";
    case File(name, _, size, _) =>
      assert t == (head + FileIcon + name) + SizeInfo(size, formatSize);
      if size == 0 {
        assert t == (head + FileIcon) + name;
      } else {
        assert t == (head + FileIcon + name) + (" (" + formatSize(size) + ")");
      }
  }

  function Newlines(s: string): nat {
    if s == [] then 0 else (if s[0] == '\n' then 1 else 0) + Newlines(s[1..])
  }

  lemma {:induction false} NewlinesAppend(a: string, b: string)
    ensures Newlines(a + b) == Newlines(a) + Newlines(b)
  {
    if a == [] {
      assert a + b == b;
    } else {
      assert (a + b)[1..] == a[1..] + b;
      NewlinesAppend(a[1..], b);
    }
  }

  lemma {:induction false} NoNewlines(s: string)
    requires '\n' !in s
    ensures Newlines(s) == 0
  {
    if s != [] {
      NoNewlines(s[1..]);
    }
  }

  /** When no line holds a line break of its own, the text has exactly one line break per row. */
  lemma {:induction false} RenderLines(rows: seq<Row>, formatSize: nat -> string)
    requires forall j :: 0 <= j < |rows| ==> '\n' !in RowText(rows[j], formatSize)
    ensures Newlines(Render(rows, formatSize)) == |rows|
  {
    if rows != [] {
      var t := RowText(rows[0], formatSize);
      RenderLines(rows[1..], formatSize);
      NoNewlines(t);
      NewlinesAppend(t, "\n");
      NewlinesAppend(t + "\n", Render(rows[1..], formatSize));
      assert Newlines("\n") == 1;
    }
  }

  /** A line holds a line break only if its indent, its name or the formatted size does. */
  lemma LineHasNoBreak(r: Row, formatSize: nat -> string)
    requires '\n' !in r.indent && '\n' !in r.item.name
    requires r.item.File? ==> '\n' !in formatSize(r.item.size)
    ensures '\n' !in RowText(r, formatSize)
  {
  }
}
