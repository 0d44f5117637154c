/**
 * Aggregates over the project tree: `countFiles` and `generateProjectStats`.
 * Both walk the tree depth first; the reference definitions below flatten the
 * tree into its file nodes in that order and count directories.
 */
module TreeFolds {
  import opened Text
  import opened FileKinds
  import opened Tree

  /** The file nodes of a forest, in depth-first pre-order. */
  function Files(nodes: seq<Node>): (r: seq<Node>)
    ensures forall i :: 0 <= i < |r| ==> r[i].File?
    decreases nodes
  {
    if nodes == [] then []
    else (if nodes[0].File? then [nodes[0]] else Files(nodes[0].children)) + Files(nodes[1..])
  }

  /** The number of directory nodes of a forest, at any depth. */
  function DirCount(nodes: seq<Node>): nat
    decreases nodes
  {
    if nodes == [] then 0
    else (if nodes[0].File? then 0 else 1 + DirCount(nodes[0].children)) + DirCount(nodes[1..])
  }

  lemma {:induction false} FilesAppend(a: seq<Node>, b: seq<Node>)
    ensures Files(a + b) == Files(a) + Files(b)
    ensures DirCount(a + b) == DirCount(a) + DirCount(b)
  {
    if a == [] {
      assert a + b == b;
    } else {
      assert (a + b)[0] == a[0] && (a + b)[1..] == a[1..] + b;
      FilesAppend(a[1..], b);
      var f := if a[0].File? then [a[0]] else Files(a[0].children);
      assert Files(a + b) == f + Files(a[1..] + b);
      AppendAssoc(f, Files(a[1..]), Files(b));
    }
  }

  /** The number of nodes of a forest, files and directories at any depth. */
  function NodeCount(nodes: seq<Node>): nat {
    |Files(nodes)| + DirCount(nodes)
  }

  /** A single node contributes itself, or what lies below it. */
  lemma OneNode(n: Node)
    ensures Files([n]) == if n.File? then [n] else Files(n.children)
    ensures DirCount([n]) == if n.File? then 0 else 1 + DirCount(n.children)
  {
    assert [n][1..] == [];
    if n.Directory? {
      assert Files([n]) == Files(n.children) + Files([]);
      assert Files(n.children) + [] == Files(n.children);
    }
  }

  /** One more item of a list being walked. */
  lemma FilesSnoc(items: seq<Node>, i: nat)
    requires i < |items|
    ensures Files(items[..i + 1]) == Files(items[..i]) + Files([items[i]])
    ensures DirCount(items[..i + 1]) == DirCount(items[..i]) + DirCount([items[i]])
  {
    assert items[..i + 1] == items[..i] + [items[i]];
    FilesAppend(items[..i], [items[i]]);
  }

  /** `countFiles`: files are counted, directories recursed into. */
  method CountFiles(items: seq<Node>) returns (count: nat)
    ensures count == |Files(items)|
    decreases items
  {
    count := 0;
    for i := 0 to |items|
      invariant count == |Files(items[..i])|
    {
      FilesSnoc(items, i);
      match items[i]
      case File(_, _, _, _) =>
        count := count + 1;
      case Directory(_, _, children) =>
        var below := CountFiles(children);
        count := count + below;
    }
    assert items[..|items|] == items;
  }

  // ---------------------------------------------------------------- file types

  /** `item.size || 0`: a node without a size counts as empty. */
  function SizeOf(n: Node): nat {
    if n.File? then n.size else 0
  }

  /** `item.extension || ''`. */
  function ExtOf(n: Node): string {
    if n.File? then n.extension else ""
  }

  /**
   * The `fileTypes` map. A JavaScript `Map` iterates in insertion order, so it is
   * an association list: a new extension is appended, a known one counted up in place.
   */
  type TypeCounts = seq<(string, nat)>

  function Bump(m: TypeCounts, ext: string): (r: TypeCounts)
    ensures |r| == |m| || |r| == |m| + 1
  {
    if m == [] then [(ext, 1)]
    else if m[0].0 == ext then [(ext, m[0].1 + 1)] + m[1..]
    else [m[0]] + Bump(m[1..], ext)
  }

  /** `m.get(ext) || 0`. */
  function Lookup(m: TypeCounts, ext: string): nat {
    if m == [] then 0 else if m[0].0 == ext then m[0].1 else Lookup(m[1..], ext)
  }

  predicate DistinctKeys(m: TypeCounts) {
    forall i, j :: 0 <= i < j < |m| ==> m[i].0 != m[j].0
  }

  function Total(m: TypeCounts): nat {
    if m == [] then 0 else m[0].1 + Total(m[1..])
  }

  /** The map after counting each file of `files`, in order. */
  function CountTypes(m: TypeCounts, files: seq<Node>): TypeCounts
    decreases |files|
  {
    if files == [] then m else CountTypes(Bump(m, ExtOf(files[0])), files[1..])
  }

  /** The number of files of `files` with extension `ext`. */
  function ExtCount(files: seq<Node>, ext: string): (r: nat)
    ensures r <= |files|
  {
    if files == [] then 0 else (if ExtOf(files[0]) == ext then 1 else 0) + ExtCount(files[1..], ext)
  }

  /** Counting one file adds one to the total. */
  lemma {:induction false} BumpTotal(m: TypeCounts, ext: string)
    ensures Total(Bump(m, ext)) == Total(m) + 1
  {
    if m != [] && m[0].0 != ext {
      BumpTotal(m[1..], ext);
    }
  }

  /** Counting one file adds one to its own extension and to nothing else. */
  lemma {:induction false} BumpLookup(m: TypeCounts, ext: string, other: string)
    requires DistinctKeys(m)
    ensures Lookup(Bump(m, ext), other) == Lookup(m, other) + (if other == ext then 1 else 0)
  {
    if m != [] {
      assert DistinctKeys(m[1..]);
      if m[0].0 != ext {
        BumpLookup(m[1..], ext, other);
      } else if other == ext {
        assert Bump(m, ext)[0] == (ext, m[0].1 + 1);
      } else {
        assert Bump(m, ext)[1..] == m[1..];
      }
    }
  }

  /** Counting one file keeps one entry per extension. */
  lemma {:induction false} BumpDistinct(m: TypeCounts, ext: string)
    requires DistinctKeys(m)
    ensures DistinctKeys(Bump(m, ext))
  {
    if m != [] && m[0].0 != ext {
      var r := Bump(m[1..], ext);
      assert DistinctKeys(m[1..]);
      BumpDistinct(m[1..], ext);
      KeysOfBump(m[1..], ext);
      forall j | 0 < j < |[m[0]] + r| ensures ([m[0]] + r)[j].0 != m[0].0 {
        assert r[j - 1].0 in Keys(r);
        if r[j - 1].0 != ext {
          var i :| 0 <= i < |m[1..]| && m[1..][i].0 == r[j - 1].0;
          assert m[i + 1].0 == r[j - 1].0;
        }
      }
    }
  }

  function Keys(m: TypeCounts): set<string> {
    set i | 0 <= i < |m| :: m[i].0
  }

  lemma KeysCons(x: (string, nat), r: TypeCounts)
    ensures Keys([x] + r) == {x.0} + Keys(r)
  {
    var m := [x] + r;
    forall k | k in Keys(m) ensures k in {x.0} + Keys(r) {
      var i :| 0 <= i < |m| && m[i].0 == k;
      if i > 0 { assert r[i - 1].0 == k; }
    }
    forall k | k in {x.0} + Keys(r) ensures k in Keys(m) {
      if k == x.0 {
        assert m[0].0 == k;
      } else {
        var i :| 0 <= i < |r| && r[i].0 == k;
        assert m[i + 1].0 == k;
      }
    }
  }

  lemma {:induction false} KeysOfBump(m: TypeCounts, ext: string)
    ensures Keys(Bump(m, ext)) == Keys(m) + {ext}
  {
    if m == [] {
      KeysCons((ext, 1), []);
      assert [(ext, 1)] + [] == [(ext, 1)];
    } else {
      assert m == [m[0]] + m[1..];
      KeysCons(m[0], m[1..]);
      if m[0].0 != ext {
        KeysOfBump(m[1..], ext);
        KeysCons(m[0], Bump(m[1..], ext));
      } else {
        KeysCons((ext, m[0].1 + 1), m[1..]);
      }
    }
  }

  /**
   * What the `fileTypes` map holds after counting `files`: one entry per extension,
   * the count of each extension, and counts that add up to the number of files.
   */
  lemma {:induction false} CountTypesCounts(m: TypeCounts, files: seq<Node>, ext: string)
    requires DistinctKeys(m)
    ensures DistinctKeys(CountTypes(m, files))
    ensures Total(CountTypes(m, files)) == Total(m) + |files|
    ensures Lookup(CountTypes(m, files), ext) == Lookup(m, ext) + ExtCount(files, ext)
    decreases |files|
  {
    if files != [] {
      BumpTotal(m, ExtOf(files[0]));
      BumpLookup(m, ExtOf(files[0]), ext);
      BumpDistinct(m, ExtOf(files[0]));
      CountTypesCounts(Bump(m, ExtOf(files[0])), files[1..], ext);
    }
  }

  lemma {:induction false} CountTypesAppend(m: TypeCounts, a: seq<Node>, b: seq<Node>)
    ensures CountTypes(m, a + b) == CountTypes(CountTypes(m, a), b)
    decreases |a|
  {
    if a == [] {
      assert a + b == b;
    } else {
      assert (a + b)[0] == a[0] && (a + b)[1..] == a[1..] + b;
      CountTypesAppend(Bump(m, ExtOf(a[0])), a[1..], b);
    }
  }

  // ---------------------------------------------------------------- statistics

  /** The record `generateProjectStats` fills in. */
  datatype Stats = Stats(totalFiles: nat, totalDirectories: nat, textFiles: nat, binaryFiles: nat,
                         totalSize: nat, fileTypes: TypeCounts)

  const NoStats := Stats(0, 0, 0, 0, 0, [])

  /** The number of files `isTextFile` accepts. */
  function TextCount(files: seq<Node>): nat {
    if files == [] then 0 else (if IsTextFile(files[0].name) then 1 else 0) + TextCount(files[1..])
  }

  /** The number of files `isTextFile` rejects. */
  function BinaryCount(files: seq<Node>): nat {
    if files == [] then 0 else (if IsTextFile(files[0].name) then 0 else 1) + BinaryCount(files[1..])
  }

  /** Every file is text or binary, and not both. */
  lemma {:induction false} TextOrBinary(files: seq<Node>)
    ensures TextCount(files) + BinaryCount(files) == |files|
  {
    if files != [] {
      TextOrBinary(files[1..]);
    }
  }

  function SizeSum(files: seq<Node>): nat
  {
    if files == [] then 0 else SizeOf(files[0]) + SizeSum(files[1..])
  }

  lemma {:induction false} SumsAppend(a: seq<Node>, b: seq<Node>)
    ensures TextCount(a + b) == TextCount(a) + TextCount(b)
    ensures BinaryCount(a + b) == BinaryCount(a) + BinaryCount(b)
    ensures SizeSum(a + b) == SizeSum(a) + SizeSum(b)
  {
    if a == [] {
      assert a + b == b;
    } else {
      assert (a + b)[0] == a[0] && (a + b)[1..] == a[1..] + b;
      SumsAppend(a[1..], b);
    }
  }

  /** The record after walking `items` on top of `s`. */
  function Walked(s: Stats, items: seq<Node>): Stats {
    var files := Files(items);
    Stats(s.totalFiles + |files|, s.totalDirectories + DirCount(items),
          s.textFiles + TextCount(files), s.binaryFiles + BinaryCount(files),
          s.totalSize + SizeSum(files), CountTypes(s.fileTypes, files))
  }

  lemma WalkedAppend(s: Stats, a: seq<Node>, b: seq<Node>)
    ensures Walked(Walked(s, a), b) == Walked(s, a + b)
  {
    WalkedAppendCounts(s, a, b);
    WalkedAppendTypes(s, a, b);
  }

  lemma WalkedAppendCounts(s: Stats, a: seq<Node>, b: seq<Node>)
    ensures var w, v := Walked(Walked(s, a), b), Walked(s, a + b);
      w.totalFiles == v.totalFiles && w.totalDirectories == v.totalDirectories &&
      w.textFiles == v.textFiles && w.binaryFiles == v.binaryFiles && w.totalSize == v.totalSize
  {
    FilesAppend(a, b);
    SumsAppend(Files(a), Files(b));
  }

  lemma WalkedAppendTypes(s: Stats, a: seq<Node>, b: seq<Node>)
    ensures Walked(Walked(s, a), b).fileTypes == Walked(s, a + b).fileTypes
  {
    FilesAppend(a, b);
    CountTypesAppend(s.fileTypes, Files(a), Files(b));
  }

  /** Walking one file counts it once, by kind, size and extension. */
  lemma WalkedFile(t: Stats, name: string, path: seq<string>, size: nat, extension: string)
    ensures var text := if IsTextFile(name) then 1 else 0;
      Walked(t, [File(name, path, size, extension)]) ==
        t.(totalFiles := t.totalFiles + 1, totalSize := t.totalSize + size,
           textFiles := t.textFiles + text, binaryFiles := t.binaryFiles + (1 - text),
           fileTypes := Bump(t.fileTypes, extension))
  {
    var f := File(name, path, size, extension);
    OneFile(f);
    OneFileCounts(f, t.fileTypes);
  }

  lemma OneFile(f: Node)
    requires f.File?
    ensures Files([f]) == [f] && DirCount([f]) == 0
  {
    assert [f][1..] == [];
  }

  lemma OneFileCounts(f: Node, m: TypeCounts)
    requires f.File?
    ensures TextCount([f]) == (if IsTextFile(f.name) then 1 else 0)
    ensures BinaryCount([f]) == (if IsTextFile(f.name) then 0 else 1)
    ensures SizeSum([f]) == f.size && CountTypes(m, [f]) == Bump(m, f.extension)
  {
    assert [f][1..] == [];
  }

  /** Walking one directory counts it and walks its children. */
  lemma WalkedDirectory(t: Stats, name: string, path: seq<string>, children: seq<Node>)
    ensures Walked(t, [Directory(name, path, children)]) ==
      Walked(t.(totalDirectories := t.totalDirectories + 1), children)
  {
    var d := Directory(name, path, children);
    assert [d][1..] == [];
    assert Files([d]) == Files(children) + Files([]);
    assert Files(children) + [] == Files(children);
    assert DirCount([d]) == 1 + DirCount(children);
  }

  /** The `processItems` closure as the source runs it: items left to right, directories recursively. */
  function Processed(s: Stats, items: seq<Node>): Stats
    decreases items
  {
    if items == [] then s else Processed(Visit(s, items[0]), items[1..])
  }

  /** One pass of the closure's loop: a directory is counted and walked, a file tallied. */
  function Visit(s: Stats, item: Node): Stats
    decreases item
  {
    match item
    case Directory(_, _, children) => Processed(s.(totalDirectories := s.totalDirectories + 1), children)
    case File(name, _, size, extension) =>
      var text := if IsTextFile(name) then 1 else 0;
      s.(totalFiles := s.totalFiles + 1, totalSize := s.totalSize + size,
         textFiles := s.textFiles + text, binaryFiles := s.binaryFiles + (1 - text),
         fileTypes := Bump(s.fileTypes, extension))
  }

  /** The item-by-item walk tallies exactly the files and directories of the flattened tree. */
  lemma {:induction false} ProcessedIsWalked(s: Stats, items: seq<Node>)
    ensures Processed(s, items) == Walked(s, items)
    decreases items
  {
    if items == [] {
      assert Files(items) == [] && DirCount(items) == 0;
    } else {
      var x, rest := items[0], items[1..];
      VisitIsWalked(s, x);
      ProcessedIsWalked(Visit(s, x), rest);
      assert items == [x] + rest;
      WalkedAppend(s, [x], rest);
    }
  }

  /** Visiting one item tallies it as the flattened definition does. */
  lemma {:induction false} VisitIsWalked(s: Stats, item: Node)
    ensures Visit(s, item) == Walked(s, [item])
    decreases item
  {
    match item
    case Directory(name, path, children) =>
      ProcessedIsWalked(s.(totalDirectories := s.totalDirectories + 1), children);
      WalkedDirectory(s, name, path, children);
    case File(name, path, size, extension) =>
      WalkedFile(s, name, path, size, extension);
  }

  /** The recursive `processItems` closure: it updates the record item by item. */
  method ProcessItems(items: seq<Node>, s: Stats) returns (t: Stats)
    ensures t == Processed(s, items)
    decreases items
  {
    t := s;
    for i := 0 to |items|
      invariant Processed(t, items[i..]) == Processed(s, items)
    {
      assert items[i..][0] == items[i] && items[i..][1..] == items[i + 1..];
      t := ProcessItem(items[i], t);
    }
  }

  /** The body of the closure's loop for one item: a directory is counted and walked, a file tallied. */
  method ProcessItem(item: Node, t: Stats) returns (u: Stats)
    ensures u == Visit(t, item)
    decreases item
  {
    if item.Directory? {
      u := ProcessItems(item.children, t.(totalDirectories := t.totalDirectories + 1));
    } else {
      u := CountFile(t, item.name, item.path, item.size, item.extension);
    }
  }

  /** The file branch of the loop body: one more file, of its kind, size and extension. */
  method CountFile(t: Stats, name: string, path: seq<string>, size: nat, extension: string) returns (u: Stats)
    ensures u == Visit(t, File(name, path, size, extension))
  {
    var text := if IsTextFile(name) then 1 else 0;
    u := t.(totalFiles := t.totalFiles + 1, totalSize := t.totalSize + size,
            textFiles := t.textFiles + text, binaryFiles := t.binaryFiles + (1 - text),
            fileTypes := Bump(t.fileTypes, extension));
  }

  /**
   * `generateProjectStats`: every file is counted once as text or binary, the
   * `fileTypes` counts add up to the number of files, and `countFiles` agrees.
   */
  method GenerateProjectStats(items: seq<Node>) returns (stats: Stats)
    ensures stats == Processed(NoStats, items) == Walked(NoStats, items)
    ensures stats.totalFiles == stats.textFiles + stats.binaryFiles == Total(stats.fileTypes)
    ensures stats.totalFiles == |Files(items)| && stats.totalDirectories == DirCount(items)
    ensures stats.totalSize == SizeSum(Files(items))
    ensures DistinctKeys(stats.fileTypes)
    ensures forall ext :: Lookup(stats.fileTypes, ext) == ExtCount(Files(items), ext)
  {
    stats := ProcessItems(items, NoStats);
    ProcessedIsWalked(NoStats, items);
    TextOrBinary(Files(items));
    CountTypesCounts([], Files(items), "");
    forall ext ensures Lookup(stats.fileTypes, ext) == ExtCount(Files(items), ext) {
      CountTypesCounts([], Files(items), ext);
    }
  }
}
