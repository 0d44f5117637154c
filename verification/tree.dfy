/**
 * The project tree (`buildProjectStructure`). A directory listing is read, each
 * entry not excluded is kept (a directory with its own listing, a file with its
 * size and extension), and the kept entries are sorted: directories first, then
 * by name. The file system is given as a value: a directory whose listing fails
 * is unreadable, and a file whose `stat` fails has no size.
 */
module Tree {
  import opened Wrappers
  import opened Settings
  import opened FileKinds
  import opened Exclusion

  /** What the file system holds under a directory, as `readdir` and `stat` would see it. */
  datatype FsEntry =
    | FsFile(name: string, size: Option<nat>)                    // `None`: `stat` fails
    | FsDir(name: string, readable: bool, entries: seq<FsEntry>) // `readable` false: `readdir` fails

  /** `ProjectStructure`: a node's path is its segments below the workspace root. */
  datatype Node =
    | File(name: string, path: seq<string>, size: nat, extension: string)
    | Directory(name: string, path: seq<string>, children: seq<Node>)

  /** `localeCompare`, abstracted: a total preorder on names. */
  ghost predicate TotalPreorder(le: (string, string) -> bool) {
    (forall a, b :: le(a, b) || le(b, a)) &&
    (forall a, b, c :: le(a, b) && le(b, c) ==> le(a, c))
  }

  /** The sort comparator: a directory before a file, otherwise by name. */
  predicate NodeLe(le: (string, string) -> bool, x: Node, y: Node) {
    if x.Directory? != y.Directory? then x.Directory? else le(x.name, y.name)
  }

  predicate Sorted(le: (string, string) -> bool, s: seq<Node>) {
    forall i, j :: 0 <= i < j < |s| ==> NodeLe(le, s[i], s[j])
  }

  /** Places `x` before the first element it may precede, so that equal keys keep their order. */
  function Insert(le: (string, string) -> bool, x: Node, s: seq<Node>): (r: seq<Node>)
    ensures multiset(r) == multiset(s) + multiset{x}
  {
    if s == [] then [x]
    else if NodeLe(le, x, s[0]) then [x] + s
    else
      assert s == [s[0]] + s[1..];
      [s[0]] + Insert(le, x, s[1..])
  }

  /** `Array.prototype.sort` with the comparator: a stable sort, here insertion sort. */
  function SortNodes(le: (string, string) -> bool, s: seq<Node>): (r: seq<Node>)
    ensures multiset(r) == multiset(s)
  {
    if s == [] then []
    else
      assert s == [s[0]] + s[1..];
      Insert(le, s[0], SortNodes(le, s[1..]))
  }

  /** The nodes kept from `entries` in listing order; a failing `stat` ends the listing there. */
  function Gather(le: (string, string) -> bool, config: Config, base: string, dir: seq<string>, entries: seq<FsEntry>): seq<Node>
    requires AllSupported(config.excludePatterns)
    decreases entries, 0
  {
    if entries == [] then []
    else
      var e := entries[0];
      var segs := dir + [e.name];
      if Excluded(segs, config, base) then Gather(le, config, base, dir, entries[1..])
      else match e
        case FsFile(name, size) =>
          if size.None? then []
          else [File(name, segs, size.value, ExtName(name))] + Gather(le, config, base, dir, entries[1..])
        case FsDir(name, readable, children) =>
          [Directory(name, segs, Listing(le, config, base, segs, readable, children))] +
          Gather(le, config, base, dir, entries[1..])
  }

  /** The sorted children of a directory; nothing when it cannot be listed. */
  function Listing(le: (string, string) -> bool, config: Config, base: string, dir: seq<string>,
                   readable: bool, entries: seq<FsEntry>): seq<Node>
    requires AllSupported(config.excludePatterns)
    decreases entries, 1
  {
    SortNodes(le, if readable then Gather(le, config, base, dir, entries) else [])
  }

  /**
   * `buildProjectStructure(dir)`: the loop pushes each kept entry, recursing into
   * directories; a failing `stat` leaves the loop, and the items so far are sorted.
   */
  method BuildProjectStructure(le: (string, string) -> bool, config: Config, base: string, dir: seq<string>,
                               readable: bool, entries: seq<FsEntry>)
    returns (items: seq<Node>)
    requires AllSupported(config.excludePatterns)
    ensures items == Listing(le, config, base, dir, readable, entries)
    decreases entries
  {
    var gathered: seq<Node> := [];
    if readable {
      ghost var all := Gather(le, config, base, dir, entries);
      var i := 0;
      var failed := false;
      ghost var todo := entries;
      while i < |entries| && !failed
        invariant 0 <= i <= |entries| && todo == entries[i..]
        invariant failed ==> gathered == all
        invariant !failed ==> gathered + Gather(le, config, base, dir, todo) == all
      {
        var e := entries[i];
        var segs := dir + [e.name];
        GatherStep(le, config, base, dir, todo);
        ghost var rest := Gather(le, config, base, dir, todo[1..]);
        var excluded, _ := ShouldExcludeFile(segs, config, base);
        if !excluded {
          match e
          case FsDir(name, dirReadable, children) =>
            var kids := BuildProjectStructure(le, config, base, segs, dirReadable, children);
            AppendOne(gathered, Directory(name, segs, kids), rest);
            gathered := gathered + [Directory(name, segs, kids)];
            assert gathered + rest == all;
          case FsFile(name, size) =>
            if size.None? {
              assert gathered + [] == gathered;
              failed := true;
            } else {
              var file := File(name, segs, size.value, ExtName(name));
              AppendOne(gathered, file, rest);
              gathered := gathered + [file];
              assert gathered + rest == all;
            }
        } else {
          assert gathered + rest == all;
        }
        todo := todo[1..];
        i := i + 1;
      }
      if !failed {
        assert todo == [] && gathered + [] == gathered;
      }
      assert gathered == all;
    }
    items := SortNodes(le, gathered);
  }

  lemma AppendOne(front: seq<Node>, x: Node, rest: seq<Node>)
    ensures front + ([x] + rest) == (front + [x]) + rest && front + [] == front
  {
  }

  /** One entry of the listing loop: what the entry at `i` adds before the rest. */
  lemma GatherStep(le: (string, string) -> bool, config: Config, base: string, dir: seq<string>, entries: seq<FsEntry>)
    requires AllSupported(config.excludePatterns) && entries != []
    ensures var e := entries[0]; var segs := dir + [e.name];
      var rest := Gather(le, config, base, dir, entries[1..]);
      Gather(le, config, base, dir, entries) ==
        if Excluded(segs, config, base) then rest
        else if e.FsFile? then (if e.size.None? then [] else [File(e.name, segs, e.size.value, ExtName(e.name))] + rest)
        else [Directory(e.name, segs, Listing(le, config, base, segs, e.readable, e.entries))] + rest
  {
  }

  // ---------------------------------------------------------------- properties

  lemma NodeLeTotal(le: (string, string) -> bool, x: Node, y: Node)
    requires TotalPreorder(le)
    ensures NodeLe(le, x, y) || NodeLe(le, y, x)
  {
  }

  lemma NodeLeTransitive(le: (string, string) -> bool, x: Node, y: Node, z: Node)
    requires TotalPreorder(le) && NodeLe(le, x, y) && NodeLe(le, y, z)
    ensures NodeLe(le, x, z)
  {
  }

  lemma {:induction false} InsertSorted(le: (string, string) -> bool, x: Node, s: seq<Node>)
    requires TotalPreorder(le) && Sorted(le, s)
    ensures Sorted(le, Insert(le, x, s))
  {
    if s != [] {
      if NodeLe(le, x, s[0]) {
        forall j | 0 <= j < |s| ensures NodeLe(le, x, s[j]) {
          if j > 0 { NodeLeTransitive(le, x, s[0], s[j]); }
        }
        SortedCons(le, x, s);
      } else {
        NodeLeTotal(le, x, s[0]);
        var rest := s[1..];
        InsertSorted(le, x, rest);
        assert forall j :: 0 <= j < |rest| ==> NodeLe(le, s[0], rest[j]) by {
          forall j | 0 <= j < |rest| ensures NodeLe(le, s[0], rest[j]) {
            assert rest[j] == s[j + 1];
          }
        }
        InsertBound(le, s[0], x, rest);
        SortedCons(le, s[0], Insert(le, x, rest));
      }
    }
  }

  /** A node that may precede every node of a sorted list may head it. */
  lemma SortedCons(le: (string, string) -> bool, y: Node, t: seq<Node>)
    requires Sorted(le, t) && forall j :: 0 <= j < |t| ==> NodeLe(le, y, t[j])
    ensures Sorted(le, [y] + t)
  {
    var r := [y] + t;
    forall i, j | 0 <= i < j < |r| ensures NodeLe(le, r[i], r[j]) {
      assert r[j] == t[j - 1];
      if i > 0 {
        assert r[i] == t[i - 1];
      }
    }
  }

  /** A node that may precede `x` and every node of `s` may precede every node after inserting `x`. */
  lemma InsertBound(le: (string, string) -> bool, y: Node, x: Node, s: seq<Node>)
    requires NodeLe(le, y, x) && forall j :: 0 <= j < |s| ==> NodeLe(le, y, s[j])
    ensures forall j :: 0 <= j < |Insert(le, x, s)| ==> NodeLe(le, y, Insert(le, x, s)[j])
  {
    var t := Insert(le, x, s);
    forall j | 0 <= j < |t| ensures NodeLe(le, y, t[j]) {
      assert t[j] in multiset(t);
      if t[j] != x {
        assert t[j] in multiset(s);
        var k :| 0 <= k < |s| && s[k] == t[j];
      }
    }
  }

  /** The sort orders by the comparator and keeps every node: a sorted permutation. */
  lemma {:induction false} SortNodesSorted(le: (string, string) -> bool, s: seq<Node>)
    requires TotalPreorder(le)
    ensures Sorted(le, SortNodes(le, s)) && multiset(SortNodes(le, s)) == multiset(s)
  {
    if s != [] {
      SortNodesSorted(le, s[1..]);
      InsertSorted(le, s[0], SortNodes(le, s[1..]));
    }
  }

  /** A sorted list has its directories first, and each group in name order. */
  lemma SortedGroups(le: (string, string) -> bool, s: seq<Node>)
    requires Sorted(le, s)
    ensures forall i, j :: 0 <= i < j < |s| && s[j].Directory? ==> s[i].Directory?
    ensures forall i, j :: 0 <= i < j < |s| && s[i].Directory? == s[j].Directory? ==> le(s[i].name, s[j].name)
  {
    forall i, j | 0 <= i < j < |s|
      ensures (s[j].Directory? ==> s[i].Directory?) && (s[i].Directory? == s[j].Directory? ==> le(s[i].name, s[j].name))
    {
      assert NodeLe(le, s[i], s[j]);
    }
  }

  /**
   * A node of the tree under `dir`: its path extends `dir` by its name, no exclusion
   * rule fires on it, a file carries the extension of its name, and a directory's
   * children are sorted and well formed in turn.
   */
  predicate NodeOk(le: (string, string) -> bool, config: Config, base: string, dir: seq<string>, n: Node)
    requires AllSupported(config.excludePatterns)
    decreases n
  {
    n.path == dir + [n.name] && !Excluded(n.path, config, base) &&
    match n
      case File(name, _, _, extension) => extension == ExtName(name)
      case Directory(_, path, children) =>
        Sorted(le, children) && forall i :: 0 <= i < |children| ==> NodeOk(le, config, base, path, children[i])
  }

  predicate AllOk(le: (string, string) -> bool, config: Config, base: string, dir: seq<string>, s: seq<Node>)
    requires AllSupported(config.excludePatterns)
  {
    forall i :: 0 <= i < |s| ==> NodeOk(le, config, base, dir, s[i])
  }

  lemma AllOkPermutation(le: (string, string) -> bool, config: Config, base: string, dir: seq<string>, s: seq<Node>, t: seq<Node>)
    requires AllSupported(config.excludePatterns)
    requires AllOk(le, config, base, dir, s) && multiset(t) == multiset(s)
    ensures AllOk(le, config, base, dir, t)
  {
    forall i | 0 <= i < |t| ensures NodeOk(le, config, base, dir, t[i]) {
      assert t[i] in multiset(s);
      var k :| 0 <= k < |s| && s[k] == t[i];
    }
  }

  /** Every node gathered is well formed. */
  lemma {:induction false} GatherOk(le: (string, string) -> bool, config: Config, base: string, dir: seq<string>, entries: seq<FsEntry>)
    requires AllSupported(config.excludePatterns) && TotalPreorder(le)
    ensures AllOk(le, config, base, dir, Gather(le, config, base, dir, entries))
    decreases entries, 0
  {
    if entries != [] {
      var e := entries[0];
      var segs := dir + [e.name];
      var rest := Gather(le, config, base, dir, entries[1..]);
      GatherStep(le, config, base, dir, entries);
      GatherOk(le, config, base, dir, entries[1..]);
      if !Excluded(segs, config, base) {
        if e.FsDir? {
          ListingOk(le, config, base, segs, e.readable, e.entries);
          var d := Directory(e.name, segs, Listing(le, config, base, segs, e.readable, e.entries));
          assert NodeOk(le, config, base, dir, d);
          AllOkCons(le, config, base, dir, d, rest);
        } else if e.size.Some? {
          var f := File(e.name, segs, e.size.value, ExtName(e.name));
          assert NodeOk(le, config, base, dir, f);
          AllOkCons(le, config, base, dir, f, rest);
        }
      }
    }
  }

  lemma AllOkCons(le: (string, string) -> bool, config: Config, base: string, dir: seq<string>, n: Node, s: seq<Node>)
    requires AllSupported(config.excludePatterns)
    requires NodeOk(le, config, base, dir, n) && AllOk(le, config, base, dir, s)
    ensures AllOk(le, config, base, dir, [n] + s)
  {
    var ok := (x: Node) => NodeOk(le, config, base, dir, x);
    AllCons(ok, n, s);
  }

  /** A property of every element holds of every element after one more that has it. */
  lemma AllCons(p: Node -> bool, n: Node, s: seq<Node>)
    requires p(n) && forall i :: 0 <= i < |s| ==> p(s[i])
    ensures forall i :: 0 <= i < |[n] + s| ==> p(([n] + s)[i])
  {
    forall i | 0 <= i < |[n] + s| ensures p(([n] + s)[i]) {
      if i > 0 {
        assert ([n] + s)[i] == s[i - 1];
      }
    }
  }

  /**
   * What `buildProjectStructure` promises: the listing is sorted (directories first,
   * then by name), and no node anywhere in it is one the exclusion policy rejects.
   */
  lemma {:induction false} ListingOk(le: (string, string) -> bool, config: Config, base: string, dir: seq<string>,
                                     readable: bool, entries: seq<FsEntry>)
    requires AllSupported(config.excludePatterns) && TotalPreorder(le)
    ensures Sorted(le, Listing(le, config, base, dir, readable, entries))
    ensures AllOk(le, config, base, dir, Listing(le, config, base, dir, readable, entries))
    decreases entries, 1
  {
    var g := if readable then Gather(le, config, base, dir, entries) else [];
    if readable {
      GatherOk(le, config, base, dir, entries);
    }
    SortNodesSorted(le, g);
    AllOkPermutation(le, config, base, dir, g, SortNodes(le, g));
  }

  /** A listing holds exactly the gathered nodes, reordered. */
  lemma ListingPermutes(le: (string, string) -> bool, config: Config, base: string, dir: seq<string>, entries: seq<FsEntry>)
    requires AllSupported(config.excludePatterns)
    ensures multiset(Listing(le, config, base, dir, true, entries)) == multiset(Gather(le, config, base, dir, entries))
    ensures Listing(le, config, base, dir, false, entries) == []
  {
  }

  /** The entry makes the listing stop: a kept file whose `stat` fails. */
  predicate Stops(config: Config, base: string, dir: seq<string>, e: FsEntry)
    requires AllSupported(config.excludePatterns)
  {
    e.FsFile? && e.size.None? && !Excluded(dir + [e.name], config, base)
  }

  predicate NoStop(config: Config, base: string, dir: seq<string>, entries: seq<FsEntry>)
    requires AllSupported(config.excludePatterns)
  {
    forall i :: 0 <= i < |entries| ==> !Stops(config, base, dir, entries[i])
  }

  /** Entries before any failing `stat` contribute independently of what follows them. */
  lemma {:induction false} GatherAppend(le: (string, string) -> bool, config: Config, base: string, dir: seq<string>,
                                        a: seq<FsEntry>, b: seq<FsEntry>)
    requires AllSupported(config.excludePatterns) && NoStop(config, base, dir, a)
    ensures Gather(le, config, base, dir, a + b) == Gather(le, config, base, dir, a) + Gather(le, config, base, dir, b)
  {
    if a == [] {
      assert a + b == b;
    } else {
      assert (a + b)[0] == a[0];
      assert (a + b)[1..] == a[1..] + b;
      assert !Stops(config, base, dir, a[0]);
      GatherAppend(le, config, base, dir, a[1..], b);
    }
  }

  /** A failing `stat` truncates its directory to the entries gathered before it. */
  lemma StatFailureTruncates(le: (string, string) -> bool, config: Config, base: string, dir: seq<string>,
                             a: seq<FsEntry>, e: FsEntry, b: seq<FsEntry>)
    requires AllSupported(config.excludePatterns) && NoStop(config, base, dir, a) && Stops(config, base, dir, e)
    ensures Gather(le, config, base, dir, a + [e] + b) == Gather(le, config, base, dir, a)
  {
    assert a + [e] + b == a + ([e] + b);
    GatherAppend(le, config, base, dir, a, [e] + b);
    assert ([e] + b)[0] == e;
  }

  /** A directory that cannot be listed appears with no children, and its siblings are unaffected. */
  lemma UnreadableDirectory(le: (string, string) -> bool, config: Config, base: string, dir: seq<string>,
                            a: seq<FsEntry>, name: string, entries: seq<FsEntry>, b: seq<FsEntry>)
    requires AllSupported(config.excludePatterns) && NoStop(config, base, dir, a)
    requires !Excluded(dir + [name], config, base)
    ensures Gather(le, config, base, dir, a + [FsDir(name, false, entries)] + b) ==
      Gather(le, config, base, dir, a) + [Directory(name, dir + [name], [])] + Gather(le, config, base, dir, b)
  {
    var d := FsDir(name, false, entries);
    assert a + [d] + b == a + ([d] + b);
    GatherAppend(le, config, base, dir, a, [d] + b);
    assert ([d] + b)[0] == d && ([d] + b)[1..] == b;
  }
}
