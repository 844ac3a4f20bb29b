/**
 Walking a directory tree (src/sync.rs:85-206).

 The tree is what the file system shows: its directories list their children in any order. The walker
 enumerates everything, filters by the predicate entry by entry, reads the metadata of what is left
 and sorts; above a threshold the records are pushed by parallel workers, so in any order.
 */
module Walk {
  import opened Wrappers
  import opened Sorting
  import opened Diffs

  const PARALLEL_THRESHOLD: nat := 100

  /** `stat` is None when the metadata cannot be read, as for a dangling link. */
  datatype Node = File(name: string, stat: Option<Meta>) | Dir(name: string, children: seq<Node>)

  /** One enumerated entry, by its path relative to the root. */
  datatype Found = Found(rel: string, isDir: bool, stat: Option<Meta>)

  type Predicate = (string, bool) -> bool

  /** Backslashes become slashes. */
  function Normalized(name: string): (r: string)
    ensures |r| == |name| && '\\' !in r
    ensures forall i: nat | i < |name| && name[i] != '\\' :: r[i] == name[i]
    ensures forall i: nat | i < |name| && name[i] == '\\' :: r[i] == '/'
  {
    seq(|name|, i requires 0 <= i < |name| => if name[i] == '\\' then '/' else name[i])
  }

  function Below(rel: string, name: string): string {
    if rel == "" then Normalized(name) else rel + "/" + Normalized(name)
  }

  /** The entry at `rel` and everything under it, each directory before its contents. */
  function Enumerate(node: Node, rel: string): seq<Found>
    decreases node, 0
  {
    match node
    case File(_, stat) => [Found(rel, false, stat)]
    case Dir(_, children) => [Found(rel, true, None)] + EnumerateAll(children, rel)
  }

  function EnumerateAll(nodes: seq<Node>, rel: string): seq<Found>
    decreases nodes
  {
    if nodes == [] then []
    else Enumerate(nodes[0], Below(rel, nodes[0].name)) + EnumerateAll(nodes[1..], rel)
  }

  function Kept(found: seq<Found>, keep: Predicate): seq<Found>
    decreases |found|
  {
    if found == [] then []
    else (if keep(found[0].rel, found[0].isDir) then [found[0]] else []) + Kept(found[1..], keep)
  }

  function Files(found: seq<Found>): seq<Found>
    decreases |found|
  {
    if found == [] then []
    else (if !found[0].isDir && found[0].rel != "" then [found[0]] else []) + Files(found[1..])
  }

  // ---------------------------------------------------------------- filtering against pruning

  /** The files of a walk that does not descend into a rejected directory. */
  function Pruned(node: Node, rel: string, keep: Predicate): seq<Found>
    decreases node, 0
  {
    if !keep(rel, node.Dir?) then []
    else match node
      case File(_, stat) => if rel != "" then [Found(rel, false, stat)] else []
      case Dir(_, children) => PrunedAll(children, rel, keep)
  }

  function PrunedAll(nodes: seq<Node>, rel: string, keep: Predicate): seq<Found>
    decreases nodes
  {
    if nodes == [] then []
    else Pruned(nodes[0], Below(rel, nodes[0].name), keep) + PrunedAll(nodes[1..], rel, keep)
  }

  /** The files the walker keeps: a flat filter over everything enumerated. */
  function Filtered(node: Node, rel: string, keep: Predicate): seq<Found> {
    Files(Kept(Enumerate(node, rel), keep))
  }

  /** The path of a chain of names under `rel`. */
  function Along(rel: string, names: seq<string>): string
    decreases |names|
  {
    if names == [] then rel else Along(Below(rel, names[0]), names[1..])
  }

  /** A name as a directory lists it. */
  predicate ValidName(name: string) {
    name != "" && '/' !in name && name != "." && name != ".."
  }

  predicate ValidNames(names: seq<string>) {
    forall i: nat | i < |names| :: ValidName(names[i])
  }

  predicate ValidTree(node: Node)
    decreases node, 0
  {
    node.Dir? ==> ValidTrees(node.children)
  }

  predicate ValidTrees(nodes: seq<Node>)
    decreases nodes
  {
    nodes == [] || (ValidName(nodes[0].name) && ValidTree(nodes[0]) && ValidTrees(nodes[1..]))
  }

  /** A rejected directory has no accepted file anywhere under it. */
  ghost predicate DescendantClosed(keep: Predicate) {
    forall above: seq<string>, names: seq<string> |
      ValidNames(above) && ValidNames(names) && names != [] && !keep(Along("", above), true) ::
      !keep(Along("", above + names), false)
  }

  lemma {:induction false} AlongAppends(rel: string, names: seq<string>, name: string)
    ensures Along(rel, names + [name]) == Below(Along(rel, names), name)
    decreases |names|
  {
    if names == [] {
      assert names + [name] == [name] && [name][1..] == [];
    } else {
      assert (names + [name])[1..] == names[1..] + [name];
      AlongAppends(Below(rel, names[0]), names[1..], name);
    }
  }

  lemma {:induction false} KeptAppends(a: seq<Found>, b: seq<Found>, keep: Predicate)
    ensures Kept(a + b, keep) == Kept(a, keep) + Kept(b, keep)
    decreases |a|
  {
    if a == [] {
      assert a + b == b;
    } else {
      assert (a + b)[1..] == a[1..] + b;
      KeptAppends(a[1..], b, keep);
      var head := if keep(a[0].rel, a[0].isDir) then [a[0]] else [];
      assert head + (Kept(a[1..], keep) + Kept(b, keep)) == (head + Kept(a[1..], keep)) + Kept(b, keep);
    }
  }

  lemma {:induction false} FilesAppend(a: seq<Found>, b: seq<Found>)
    ensures Files(a + b) == Files(a) + Files(b)
    decreases |a|
  {
    if a == [] {
      assert a + b == b;
    } else {
      assert (a + b)[1..] == a[1..] + b;
      FilesAppend(a[1..], b);
      var head := if !a[0].isDir && a[0].rel != "" then [a[0]] else [];
      assert head + (Files(a[1..]) + Files(b)) == (head + Files(a[1..])) + Files(b);
    }
  }

  lemma FilteredAll(node: Node, nodes: seq<Node>, rel: string, keep: Predicate)
    requires nodes != [] && node == nodes[0]
    ensures Files(Kept(EnumerateAll(nodes, rel), keep))
         == Filtered(node, Below(rel, node.name), keep) + Files(Kept(EnumerateAll(nodes[1..], rel), keep))
  {
    var a, b := Enumerate(node, Below(rel, node.name)), EnumerateAll(nodes[1..], rel);
    KeptAppends(a, b, keep);
    FilesAppend(Kept(a, keep), Kept(b, keep));
  }

  lemma FilteredFile(node: Node, rel: string, keep: Predicate)
    requires node.File?
    ensures Filtered(node, rel, keep) == if keep(rel, false) && rel != "" then [Found(rel, false, node.stat)] else []
  {
    var found := [Found(rel, false, node.stat)];
    var none: seq<Found> := [];
    assert found[1..] == none && Kept(none, keep) == none && Files(none) == none;
    assert Kept(found, keep) == if keep(rel, false) then found else none;
    assert Files(found) == (if rel != "" then found else none) + Files(none);
  }

  lemma FilteredDir(node: Node, rel: string, keep: Predicate)
    requires node.Dir?
    ensures Filtered(node, rel, keep) == Files(Kept(EnumerateAll(node.children, rel), keep))
  {
    var dir, rest := [Found(rel, true, None)], EnumerateAll(node.children, rel);
    assert Enumerate(node, rel) == dir + rest;
    KeptAppends(dir, rest, keep);
    FilesAppend(Kept(dir, keep), Kept(rest, keep));
    var none: seq<Found> := [];
    assert dir[1..] == none && Kept(none, keep) == none && Files(none) == none;
    assert Kept(dir, keep) == if keep(rel, true) then dir else none;
    assert Files(dir) == none;
  }

  /** Nothing under a rejected directory passes a descendant-closed filter. */
  lemma {:induction false} NothingBelow(node: Node, above: seq<string>, names: seq<string>, keep: Predicate)
    requires DescendantClosed(keep) && ValidNames(above) && ValidNames(names) && names != [] && ValidTree(node)
    requires !keep(Along("", above), true)
    ensures Filtered(node, Along("", above + names), keep) == []
    decreases node, 0
  {
    match node
    case File(_, _) => FilteredFile(node, Along("", above + names), keep);
    case Dir(_, children) =>
      FilteredDir(node, Along("", above + names), keep);
      NothingBelowAll(children, above, names, keep);
  }

  lemma {:induction false} NothingBelowAll(nodes: seq<Node>, above: seq<string>, names: seq<string>, keep: Predicate)
    requires DescendantClosed(keep) && ValidNames(above) && ValidNames(names) && ValidTrees(nodes)
    requires !keep(Along("", above), true)
    ensures Files(Kept(EnumerateAll(nodes, Along("", above + names)), keep)) == []
    decreases nodes
  {
    if nodes != [] {
      var rel, name := Along("", above + names), nodes[0].name;
      AlongAppends("", above + names, name);
      assert above + names + [name] == above + (names + [name]);
      NothingBelow(nodes[0], above, names + [name], keep);
      NothingBelowAll(nodes[1..], above, names, keep);
      FilteredAll(nodes[0], nodes, rel, keep);
    }
  }

  /** For a descendant-closed predicate, filtering keeps on every tree exactly the files that pruning keeps. */
  lemma {:induction false} FilterIsPrune(node: Node, above: seq<string>, keep: Predicate)
    requires DescendantClosed(keep) && ValidNames(above) && ValidTree(node)
    ensures Filtered(node, Along("", above), keep) == Pruned(node, Along("", above), keep)
    decreases node, 0
  {
    var rel := Along("", above);
    match node
    case File(_, _) => FilteredFile(node, rel, keep);
    case Dir(_, children) =>
      FilteredDir(node, rel, keep);
      if keep(rel, true) {
        FilterIsPruneAll(children, above, keep);
      } else {
        assert above + [] == above;
        NothingBelowAll(children, above, [], keep);
      }
  }

  lemma {:induction false} FilterIsPruneAll(nodes: seq<Node>, above: seq<string>, keep: Predicate)
    requires DescendantClosed(keep) && ValidNames(above) && ValidTrees(nodes)
    ensures Files(Kept(EnumerateAll(nodes, Along("", above)), keep)) == PrunedAll(nodes, Along("", above), keep)
    decreases nodes
  {
    if nodes != [] {
      AlongAppends("", above, nodes[0].name);
      FilterIsPrune(nodes[0], above + [nodes[0].name], keep);
      FilterIsPruneAll(nodes[1..], above, keep);
      FilteredAll(nodes[0], nodes, Along("", above), keep);
    }
  }

  /** A tree that is one chain of directories with one file at its end. */
  function Chain(name: string, names: seq<string>): Node
    decreases |names|
  {
    if names == [] then File(name, None) else Dir(name, [Chain(names[0], names[1..])])
  }

  lemma {:induction false} ChainIsValid(name: string, names: seq<string>)
    requires ValidNames(names)
    ensures ValidTree(Chain(name, names))
    decreases |names|
  {
    if names != [] {
      assert forall i: nat | i < |names[1..]| :: names[1..][i] == names[i + 1];
      ChainIsValid(names[0], names[1..]);
      var children := [Chain(names[0], names[1..])];
      assert children[1..] == [] && ValidTrees(children[1..]);
    }
  }

  /** The filter sees the chain's file by its own path. */
  lemma {:induction false} ChainFiltered(name: string, names: seq<string>, rel: string, keep: Predicate)
    requires keep(Along(rel, names), false) && Along(rel, names) != ""
    ensures Filtered(Chain(name, names), rel, keep) == [Found(Along(rel, names), false, None)]
    decreases |names|
  {
    var node := Chain(name, names);
    if names == [] {
      FilteredFile(node, rel, keep);
    } else {
      ChainFiltered(names[0], names[1..], Below(rel, names[0]), keep);
      FilteredDir(node, rel, keep);
      FilteredAll(node.children[0], node.children, rel, keep);
      assert EnumerateAll(node.children[1..], rel) == [] && Kept([], keep) == [] && Files([]) == [];
    }
  }

  /** Pruning loses it as soon as one directory on the way is rejected. */
  lemma {:induction false} ChainPruned(name: string, names: seq<string>, rel: string, keep: Predicate, k: nat)
    requires k < |names| && !keep(Along(rel, names[..k]), true)
    ensures Pruned(Chain(name, names), rel, keep) == []
    decreases |names|
  {
    if k == 0 {
      assert names[..0] == [];
    } else if keep(rel, true) {
      assert names[..k][1..] == names[1..][..k - 1];
      ChainPruned(names[0], names[1..], Below(rel, names[0]), keep, k - 1);
      assert [Chain(names[0], names[1..])][1..] == [];
      assert PrunedAll([Chain(names[0], names[1..])][1..], rel, keep) == [];
    }
  }

  lemma {:induction false} AlongNames(rel: string, names: seq<string>)
    requires ValidNames(names) && (rel != "" || names != [])
    ensures Along(rel, names) != ""
    decreases |names|
  {
    if names != [] {
      assert ValidName(names[0]);
      assert forall i: nat | i < |names[1..]| :: names[1..][i] == names[i + 1];
      AlongNames(Below(rel, names[0]), names[1..]);
    }
  }

  /** Where the predicate is not descendant-closed, there is a tree on which filtering keeps a file that pruning loses. */
  lemma FilterDiffersUnlessClosed(keep: Predicate) returns (tree: Node)
    requires !DescendantClosed(keep)
    ensures ValidTree(tree) && Filtered(tree, "", keep) != Pruned(tree, "", keep)
  {
    var above, names :|
      ValidNames(above) && ValidNames(names) && names != [] && !keep(Along("", above), true)
      && keep(Along("", above + names), false);
    var all := above + names;
    tree := Chain("", all);
    ChainIsValid("", all);
    AlongNames("", all);
    ChainFiltered("", all, "", keep);
    assert all[..|above|] == above;
    ChainPruned("", all, "", keep, |above|);
  }

  /** The documented pruning is what the filter does, on every tree, exactly for descendant-closed predicates. */
  lemma FilterIsPruneIffClosed(keep: Predicate)
    ensures (forall tree | ValidTree(tree) :: Filtered(tree, "", keep) == Pruned(tree, "", keep)) <==> DescendantClosed(keep)
  {
    if DescendantClosed(keep) {
      forall tree | ValidTree(tree) ensures Filtered(tree, "", keep) == Pruned(tree, "", keep) {
        FilterIsPrune(tree, [], keep);
      }
    } else {
      var tree := FilterDiffersUnlessClosed(keep);
    }
  }

  // ---------------------------------------------------------------- the default predicate

  predicate ContainsSlashDot(s: string) {
    exists i: nat :: i + 1 < |s| && s[i] == '/' && s[i + 1] == '.'
  }

  predicate DefaultKeep(rel: string, isDir: bool) {
    !(|rel| > 0 && rel[0] == '.') && rel != ".git" && !ContainsSlashDot(rel) && !("./.git" <= rel)
  }

  /** The parts of a path between slashes. */
  function Components(s: string): (cs: seq<string>)
    ensures cs != []
  {
    if s == "" then [""]
    else if s[0] == '/' then [""] + Components(s[1..])
    else
      var cs := Components(s[1..]);
      [[s[0]] + cs[0]] + cs[1..]
  }

  predicate Hidden(component: string) {
    component != "" && component[0] == '.'
  }

  ghost predicate SomeHidden(s: string) {
    exists k: nat :: k < |Components(s)| && Hidden(Components(s)[k])
  }

  /** A hidden component is the first one, or starts right after a slash. */
  lemma {:induction false} HiddenComponents(s: string)
    ensures Hidden(Components(s)[0]) <==> s != "" && s[0] == '.'
    ensures (exists k: nat :: 0 < k < |Components(s)| && Hidden(Components(s)[k])) <==> ContainsSlashDot(s)
  {
    if s != "" {
      var t := s[1..];
      var cs, ds := Components(s), Components(t);
      HiddenComponents(t);
      if s[0] == '/' {
        assert forall k: nat | 0 < k < |cs| :: cs[k] == ds[k - 1];
        SlashDotStep(s);
        if exists k: nat :: 0 < k < |cs| && Hidden(cs[k]) {
          var k: nat :| 0 < k < |cs| && Hidden(cs[k]);
          assert Hidden(ds[k - 1]);
        }
        if Hidden(ds[0]) {
          assert Hidden(cs[1]);
        }
        if exists k: nat :: 0 < k < |ds| && Hidden(ds[k]) {
          var k: nat :| 0 < k < |ds| && Hidden(ds[k]);
          assert Hidden(cs[k + 1]);
        }
      } else {
        assert forall k: nat | 0 < k < |cs| :: cs[k] == ds[k];
        SlashDotStep(s);
      }
    }
  }

  lemma SlashDotStep(s: string)
    requires s != ""
    ensures ContainsSlashDot(s) <==> (s[0] == '/' && |s| > 1 && s[1] == '.') || ContainsSlashDot(s[1..])
  {
    if ContainsSlashDot(s) {
      var i: nat :| i + 1 < |s| && s[i] == '/' && s[i + 1] == '.';
      if 0 < i {
        assert s[1..][i - 1] == '/' && s[1..][i - 1 + 1] == '.';
      }
    }
    if ContainsSlashDot(s[1..]) {
      var i: nat :| i + 1 < |s[1..]| && s[1..][i] == '/' && s[1..][i + 1] == '.';
      assert s[i + 1] == '/' && s[i + 1 + 1] == '.';
    }
  }

  /** The default predicate keeps exactly the paths with no component that starts with a dot. */
  lemma DefaultKeepsUnhidden(rel: string, isDir: bool)
    ensures DefaultKeep(rel, isDir) <==> !SomeHidden(rel)
  {
    HiddenComponents(rel);
    if SomeHidden(rel) {
      var k: nat :| k < |Components(rel)| && Hidden(Components(rel)[k]);
    }
  }

  function DefaultPredicate(): Predicate {
    (rel: string, isDir: bool) => DefaultKeep(rel, isDir)
  }

  lemma {:induction false} RejectedStays(rel: string, names: seq<string>)
    requires rel != "" && (rel[0] == '.' || ContainsSlashDot(rel))
    ensures !DefaultKeep(Along(rel, names), false)
    decreases |names|
  {
    if names != [] {
      var below := Below(rel, names[0]);
      if rel[0] == '.' {
        assert below[0] == '.';
      } else {
        var i: nat :| i + 1 < |rel| && rel[i] == '/' && rel[i + 1] == '.';
        assert below[i] == '/' && below[i + 1] == '.';
      }
      RejectedStays(below, names[1..]);
    }
  }

  lemma {:induction false} AlongConcat(rel: string, a: seq<string>, b: seq<string>)
    ensures Along(rel, a + b) == Along(Along(rel, a), b)
    decreases |a|
  {
    if a == [] {
      assert a + b == b;
    } else {
      assert (a + b)[1..] == a[1..] + b;
      AlongConcat(Below(rel, a[0]), a[1..], b);
    }
  }

  /** So with the default predicate the walk keeps, on every tree, what pruning would keep. */
  lemma DefaultIsDescendantClosed()
    ensures DescendantClosed(DefaultPredicate())
  {
    forall above: seq<string>, names: seq<string> |
      ValidNames(above) && ValidNames(names) && names != [] && !DefaultPredicate()(Along("", above), true)
      ensures !DefaultPredicate()(Along("", above + names), false)
    {
      var rel := Along("", above);
      assert rel == ".git" || "./.git" <= rel ==> rel[0] == '.';
      AlongConcat("", above, names);
      RejectedStays(rel, names);
    }
  }

  // ---------------------------------------------------------------- collecting the records

  /** The records of the files, or None when the metadata of one cannot be read. */
  function Records(files: seq<Found>): Option<seq<FileEntry>>
    decreases |files|
  {
    if files == [] then Some([])
    else match Records(files[..|files| - 1])
      case None => None
      case Some(rs) =>
        var f := files[|files| - 1];
        if f.stat.None? then None else Some(rs + [BuildEntry(f.rel, f.stat.value)])
  }

  /** The walk's result: the records of the kept files, sorted by path. */
  function WalkSpec(found: seq<Found>, keep: Predicate): Option<seq<FileEntry>> {
    match Records(Files(Kept(found, keep)))
    case None => None
    case Some(rs) => Some(Sort(rs, PathOf()))
  }

  ghost predicate DistinctPaths(files: seq<Found>) {
    forall i: nat, j: nat | i < j < |files| :: files[i].rel != files[j].rel
  }

  lemma {:induction false} RecordsOfFiles(files: seq<Found>)
    ensures Records(files).Some? <==> forall f | f in files :: f.stat.Some?
    ensures Records(files).Some? ==> |Records(files).value| == |files|
    ensures Records(files).Some? ==> forall i: nat | i < |files| ::
              files[i].stat.Some? && Records(files).value[i] == BuildEntry(files[i].rel, files[i].stat.value)
    decreases |files|
  {
    if files != [] {
      var init, f := files[..|files| - 1], files[|files| - 1];
      assert files == init + [f];
      RecordsOfFiles(init);
    }
  }

  lemma {:induction false} RecordsConcat(a: seq<Found>, b: seq<Found>)
    requires Records(a).Some? && Records(b).Some?
    ensures Records(a + b) == Some(Records(a).value + Records(b).value)
    decreases |b|
  {
    var none: seq<FileEntry> := [];
    if b == [] {
      assert a + b == a && Records(a).value + none == Records(a).value;
    } else {
      var init, f := b[..|b| - 1], b[|b| - 1];
      assert (a + b)[..|a + b| - 1] == a + init;
      RecordsConcat(a, init);
      var e := BuildEntry(f.rel, f.stat.value);
      assert Records(a).value + (Records(init).value + [e]) == (Records(a).value + Records(init).value) + [e];
    }
  }

  lemma AllReadable(files: seq<Found>, part: seq<Found>)
    requires Records(files).Some? && forall f | f in part :: f in files
    ensures Records(part).Some?
  {
    RecordsOfFiles(files);
    RecordsOfFiles(part);
  }

  /** The records of files with one more in the middle have one record more. */
  lemma RecordsMiddle(a: seq<Found>, f: Found, b: seq<Found>)
    requires Records(a).Some? && Records(b).Some? && f.stat.Some?
    ensures Records(a + b).Some? && Records(a + [f] + b).Some?
    ensures multiset(Records(a + [f] + b).value)
         == multiset(Records(a + b).value) + multiset{BuildEntry(f.rel, f.stat.value)}
  {
    RecordsConcat(a, b);
    RecordsAppend(a, f);
    RecordsConcat(a + [f], b);
  }

  lemma CancelOne(x: multiset<Found>, y: multiset<Found>, f: Found)
    requires x + multiset{f} == y + multiset{f}
    ensures x == y
  {
    assert x == x + multiset{f} - multiset{f} && y == y + multiset{f} - multiset{f};
  }

  lemma FindLast(files: seq<Found>, pushed: seq<Found>) returns (a: seq<Found>, b: seq<Found>)
    requires multiset(pushed) == multiset(files) && files != []
    ensures pushed == a + [files[|files| - 1]] + b
    ensures multiset(a + b) == multiset(files[..|files| - 1])
  {
    var init, f := files[..|files| - 1], files[|files| - 1];
    assert files == init + [f];
    assert f in multiset(pushed);
    var j: nat :| j < |pushed| && pushed[j] == f;
    a, b := pushed[..j], pushed[j + 1..];
    assert pushed == a + [f] + b;
    CancelOne(multiset(a + b), multiset(init), f);
  }

  /** The same files in any order have the same records. */
  lemma {:induction false} RecordsIgnoreOrder(files: seq<Found>, pushed: seq<Found>)
    requires multiset(pushed) == multiset(files) && Records(files).Some? && Records(pushed).Some?
    ensures multiset(Records(pushed).value) == multiset(Records(files).value)
    decreases |files|
  {
    if files == [] {
      SameElements(pushed, files);
    } else {
      var init, f := files[..|files| - 1], files[|files| - 1];
      var a, b := FindLast(files, pushed);
      AllReadable(pushed, a);
      AllReadable(pushed, b);
      RecordsMiddle(a, f, b);
      RecordsIgnoreOrder(init, a + b);
    }
  }

  lemma SameRecords(files: seq<Found>, pushed: seq<Found>, e: FileEntry)
    requires forall f :: f in pushed <==> f in files
    requires Records(files).Some? && Records(pushed).Some? && e in Records(files).value
    ensures e in Records(pushed).value
  {
    RecordsOfFiles(files);
    RecordsOfFiles(pushed);
    var i: nat :| i < |files| && Records(files).value[i] == e;
    assert files[i] in pushed;
    var j: nat :| j < |pushed| && pushed[j] == files[i];
    assert Records(pushed).value[j] == e;
  }

  /** However the parallel branch orders its pushes, distinct paths make the sorted result the sequential one. */
  lemma PushOrderIsInvisible(files: seq<Found>, pushed: seq<Found>)
    requires DistinctPaths(files) && multiset(pushed) == multiset(files)
    ensures Records(pushed).Some? <==> Records(files).Some?
    ensures Records(files).Some? ==> Sort(Records(pushed).value, PathOf()) == Sort(Records(files).value, PathOf())
  {
    SameElements(pushed, files);
    RecordsOfFiles(files);
    RecordsOfFiles(pushed);
    if Records(files).Some? {
      PermutedIsDistinct(files, pushed);
      var a, b := Records(files).value, Records(pushed).value;
      forall e ensures e in a <==> e in b {
        if e in a {
          SameRecords(files, pushed, e);
        }
        if e in b {
          SameRecords(pushed, files, e);
        }
      }
      SortIgnoresOrder(a, b, PathOf());
    }
  }

  lemma PermutedIsDistinct(files: seq<Found>, pushed: seq<Found>)
    requires DistinctPaths(files) && multiset(pushed) == multiset(files)
    ensures DistinctPaths(pushed)
  {
    forall i: nat, j: nat | i < j < |pushed| ensures pushed[i].rel != pushed[j].rel {
      SameElements(pushed, files);
      if pushed[i].rel == pushed[j].rel {
        assert pushed[i] in files && pushed[j] in files;
        var f := pushed[i];
        assert pushed[j] == f;
        TwiceInMultiset(pushed, i, j);
        OnceInDistinct(files, f);
      }
    }
  }

  lemma TwiceInMultiset(s: seq<Found>, i: nat, j: nat)
    requires i < j < |s| && s[i] == s[j]
    ensures multiset(s)[s[i]] >= 2
  {
    assert s == s[..j] + s[j..];
    assert s[..j][i] == s[i] && s[j..][0] == s[i];
    assert s[i] in multiset(s[..j]) && s[i] in multiset(s[j..]);
  }

  lemma {:induction false} OnceInDistinct(s: seq<Found>, f: Found)
    requires DistinctPaths(s)
    ensures multiset(s)[f] <= 1
    decreases |s|
  {
    if s != [] {
      var t := s[..|s| - 1];
      assert s == t + [s[|s| - 1]];
      OnceInDistinct(t, f);
      if s[|s| - 1] == f {
        assert f !in t;
        assert multiset(t)[f] == 0;
      }
    }
  }

  // ---------------------------------------------------------------- what is in the result

  /** A file other than the root that the predicate keeps. */
  predicate Wanted(f: Found, keep: Predicate) {
    !f.isDir && f.rel != "" && keep(f.rel, false)
  }

  /** The record tells the file's path, size, time and mode; executable if any execute bit of the mode is set. */
  ghost predicate Describes(e: FileEntry, f: Found) {
    && f.stat.Some? && e.path == f.rel
    && e.size == f.stat.value.len && e.mtime == f.stat.value.mtime && e.mode == f.stat.value.mode
    && (e.executable <==> e.mode % 2 == 1 || e.mode / 8 % 2 == 1 || e.mode / 64 % 2 == 1)
  }

  lemma {:induction false} KeptHas(found: seq<Found>, keep: Predicate, f: Found)
    ensures f in Kept(found, keep) <==> f in found && keep(f.rel, f.isDir)
    decreases |found|
  {
    if found != [] {
      assert found == [found[0]] + found[1..];
      KeptHas(found[1..], keep, f);
    }
  }

  lemma {:induction false} FilesHave(found: seq<Found>, f: Found)
    ensures f in Files(found) <==> f in found && !f.isDir && f.rel != ""
    decreases |found|
  {
    if found != [] {
      assert found == [found[0]] + found[1..];
      FilesHave(found[1..], f);
    }
  }

  lemma WantedAreFiles(found: seq<Found>, keep: Predicate, f: Found)
    ensures f in Files(Kept(found, keep)) <==> f in found && Wanted(f, keep)
  {
    KeptHas(found, keep, f);
    FilesHave(Kept(found, keep), f);
  }

  lemma RecordDescribes(files: seq<Found>, e: FileEntry)
    requires Records(files).Some?
    ensures e in Records(files).value <==> exists f :: f in files && Describes(e, f)
  {
    RecordsOfFiles(files);
    var rs := Records(files).value;
    if e in rs {
      var i: nat :| i < |rs| && rs[i] == e;
      assert files[i] in files && Describes(e, files[i]);
    }
    if f :| f in files && Describes(e, f) {
      var i: nat :| i < |files| && files[i] == f;
      assert e == BuildEntry(f.rel, f.stat.value) && rs[i] == e;
    }
  }

  /**
   The walk fails exactly if the metadata of a wanted file cannot be read; otherwise its result is in ascending
   order and has exactly the records that describe the wanted files.
   */
  lemma WalkExact(found: seq<Found>, keep: Predicate, e: FileEntry)
    ensures WalkSpec(found, keep).None? <==> exists f :: f in found && Wanted(f, keep) && f.stat.None?
    ensures WalkSpec(found, keep).Some? ==>
              && Ascending(WalkSpec(found, keep).value, PathOf())
              && (e in WalkSpec(found, keep).value <==> exists f :: f in found && Wanted(f, keep) && Describes(e, f))
  {
    var files := Files(Kept(found, keep));
    forall f ensures f in files <==> f in found && Wanted(f, keep) {
      WantedAreFiles(found, keep, f);
    }
    RecordsOfFiles(files);
    if Records(files).Some? {
      RecordDescribes(files, e);
      SortAscends(Records(files).value, PathOf());
      SameElements(Sort(Records(files).value, PathOf()), Records(files).value);
    }
  }

  // ---------------------------------------------------------------- as the source runs it

  method WalkDirWith(found: seq<Found>, keep: Predicate) returns (r: Option<seq<FileEntry>>)
    ensures DistinctPaths(Files(Kept(found, keep))) ==> r == WalkSpec(found, keep)
    ensures |Kept(found, keep)| <= PARALLEL_THRESHOLD ==> r == WalkSpec(found, keep)
    ensures r.Some? <==> WalkSpec(found, keep).Some?
    ensures r.Some? ==> Ascending(r.value, PathOf()) && multiset(r.value) == multiset(WalkSpec(found, keep).value)
  {
    var entries := [];
    for i := 0 to |found|
      invariant entries == Kept(found[..i], keep)
    {
      assert found[..i + 1] == found[..i] + [found[i]];
      KeptAppends(found[..i], [found[i]], keep);
      assert Kept([found[i]][1..], keep) == [];
      if keep(found[i].rel, found[i].isDir) {
        entries := entries + [found[i]];
      }
    }
    assert found[..|found|] == found;
    var collected: Option<seq<FileEntry>>;
    if |entries| > PARALLEL_THRESHOLD {
      ghost var pushed;
      collected, pushed := CollectInAnyOrder(Files(entries));
      RecordsOfFiles(Files(entries));
      if collected.Some? {
        RecordsIgnoreOrder(Files(entries), pushed);
      }
      if DistinctPaths(Files(entries)) {
        PushOrderIsInvisible(Files(entries), pushed);
      }
    } else {
      collected := CollectInOrder(entries);
    }
    r := if collected.None? then None else Some(Sort(collected.value, PathOf()));
    if r.Some? {
      SortAscends(collected.value, PathOf());
    }
  }

  method CollectInOrder(entries: seq<Found>) returns (r: Option<seq<FileEntry>>)
    ensures r == Records(Files(entries))
  {
    var collected := [];
    for i := 0 to |entries|
      invariant Records(Files(entries[..i])) == Some(collected)
    {
      var f := entries[i];
      FilesOneMore(entries, i);
      if f.isDir || f.rel == "" {
        continue;
      }
      RecordsAppend(Files(entries[..i]), f);
      if f.stat.None? {
        MissingStays(entries, i + 1);
        return None;
      }
      collected := collected + [BuildEntry(f.rel, f.stat.value)];
    }
    assert entries[..|entries|] == entries;
    return Some(collected);
  }

  lemma RecordsAppend(files: seq<Found>, f: Found)
    ensures Records(files + [f])
         == if Records(files).None? || f.stat.None? then None
            else Some(Records(files).value + [BuildEntry(f.rel, f.stat.value)])
  {
    assert (files + [f])[..|files|] == files;
  }

  lemma FilesOneMore(entries: seq<Found>, i: nat)
    requires i < |entries|
    ensures Files(entries[..i + 1])
         == if entries[i].isDir || entries[i].rel == "" then Files(entries[..i]) else Files(entries[..i]) + [entries[i]]
  {
    assert entries[..i + 1] == entries[..i] + [entries[i]];
    FilesAppend(entries[..i], [entries[i]]);
    assert Files([entries[i]][1..]) == [];
  }

  /** A file whose metadata is missing fails the walk whatever comes after it. */
  lemma MissingStays(entries: seq<Found>, i: nat)
    requires i <= |entries| && Records(Files(entries[..i])).None?
    ensures Records(Files(entries)).None?
  {
    assert entries == entries[..i] + entries[i..];
    FilesAppend(entries[..i], entries[i..]);
    RecordsOfFiles(Files(entries[..i]));
    RecordsOfFiles(Files(entries));
  }

  /** The parallel workers: each takes any file that is left and pushes its record. */
  method CollectInAnyOrder(files: seq<Found>) returns (r: Option<seq<FileEntry>>, ghost pushed: seq<Found>)
    ensures multiset(pushed) == multiset(files) && r == Records(pushed)
    ensures r.Some? <==> forall f | f in files :: f.stat.Some?
    ensures r.Some? ==> |r.value| == |files|
  {
    var left := files;
    var collected: Option<seq<FileEntry>> := Some([]);
    pushed := [];
    while left != []
      invariant multiset(pushed) + multiset(left) == multiset(files)
      invariant collected == Records(pushed)
      decreases |left|
    {
      var i: nat :| i < |left|;
      var f := left[i];
      assert left == left[..i] + [f] + left[i + 1..];
      left := left[..i] + left[i + 1..];
      RecordsAppend(pushed, f);
      pushed := pushed + [f];
      collected := if collected.None? || f.stat.None? then None
                   else Some(collected.value + [BuildEntry(f.rel, f.stat.value)]);
    }
    r := collected;
    SameElements(pushed, files);
    RecordsOfFiles(pushed);
  }
}
