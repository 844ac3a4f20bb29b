/**
 The paths of a tree (src/sync.rs:136-152): where the entries of each directory have different names and
 no name holds a backslash, no two entries of a walk have the same path.
 */
module WalkTrees {
  import opened Wrappers
  import opened Diffs
  import opened Walk

  /** A name that no separator of either kind occurs in. */
  predicate PlainName(name: string) {
    ValidName(name) && '\\' !in name
  }

  predicate PlainTree(node: Node)
    decreases node, 0
  {
    node.Dir? ==> PlainTrees(node.children)
  }

  /** Plain names, and no two siblings with the same one. */
  predicate PlainTrees(nodes: seq<Node>)
    decreases nodes
  {
    nodes == []
    || (PlainName(nodes[0].name) && PlainTree(nodes[0]) && PlainTrees(nodes[1..])
        && forall n | n in nodes[1..] :: n.name != nodes[0].name)
  }

  function Prefix(rel: string): string {
    if rel == "" then "" else rel + "/"
  }

  lemma BelowPlain(rel: string, name: string)
    requires PlainName(name)
    ensures Below(rel, name) == Prefix(rel) + name && Below(rel, name) != ""
  {
    assert Normalized(name) == name;
  }

  /** The path `at` or one below it. */
  ghost predicate Under(path: string, at: string) {
    path == at || at + "/" <= path
  }

  lemma LongerNameTold(prefix: string, a: string, b: string, path: string)
    requires '/' !in b && |a| <= |b| && a != b
    ensures prefix + b <= path ==> !Under(path, prefix + a)
  {
    if prefix + b <= path {
      var k := |prefix| + |a|;
      assert b == path[|prefix|..|prefix| + |b|];
      assert (prefix + a)[|prefix|..k] == a;
      assert |a| < |b| ==> path[k] == b[|a|] && b[|a|] in b;
      assert (prefix + a + "/")[k] == '/';
    }
  }

  /** Nothing is under two different names of a directory. */
  lemma SiblingsApart(rel: string, a: string, b: string, path: string)
    requires PlainName(a) && PlainName(b) && a != b && Under(path, Below(rel, a))
    ensures !Under(path, Below(rel, b))
  {
    BelowPlain(rel, a);
    BelowPlain(rel, b);
    if |a| <= |b| {
      LongerNameTold(Prefix(rel), a, b, path);
    } else {
      LongerNameTold(Prefix(rel), b, a, path);
    }
  }

  /** An entry of a directory's contents is under one of the names it lists. */
  ghost predicate Listed(nodes: seq<Node>, rel: string, path: string) {
    exists n :: n in nodes && PlainName(n.name) && Under(path, Below(rel, n.name))
  }

  lemma ListedIsInside(nodes: seq<Node>, rel: string, path: string)
    requires Listed(nodes, rel, path)
    ensures Prefix(rel) <= path && |Prefix(rel)| < |path|
  {
    var n :| n in nodes && PlainName(n.name) && Under(path, Below(rel, n.name));
    BelowPlain(rel, n.name);
    assert Prefix(rel) <= Below(rel, n.name) <= path;
  }

  lemma {:induction false} EnumeratesUnder(node: Node, rel: string, f: Found)
    requires PlainTree(node) && rel != "" && f in Enumerate(node, rel)
    ensures Under(f.rel, rel)
    decreases node, 0
  {
    if node.Dir? && f != Found(rel, true, None) {
      EnumeratesListed(node.children, rel, f);
      ListedIsInside(node.children, rel, f.rel);
    }
  }

  lemma {:induction false} EnumeratesListed(nodes: seq<Node>, rel: string, f: Found)
    requires PlainTrees(nodes) && f in EnumerateAll(nodes, rel)
    ensures Listed(nodes, rel, f.rel)
    decreases nodes
  {
    var name := nodes[0].name;
    BelowPlain(rel, name);
    if f in Enumerate(nodes[0], Below(rel, name)) {
      EnumeratesUnder(nodes[0], Below(rel, name), f);
      assert nodes[0] in nodes;
    } else {
      EnumeratesListed(nodes[1..], rel, f);
      var n :| n in nodes[1..] && PlainName(n.name) && Under(f.rel, Below(rel, n.name));
      assert n in nodes;
    }
  }

  lemma DistinctConcat(a: seq<Found>, b: seq<Found>)
    requires DistinctPaths(a) && DistinctPaths(b) && forall f, g | f in a && g in b :: f.rel != g.rel
    ensures DistinctPaths(a + b)
  {
    var c := a + b;
    forall i: nat, j: nat | i < j < |c| ensures c[i].rel != c[j].rel {
      if i < |a| <= j {
        assert c[i] in a && c[j] in b;
      }
    }
  }

  lemma {:induction false} EnumeratesDistinct(node: Node, rel: string)
    requires PlainTree(node)
    ensures DistinctPaths(Enumerate(node, rel))
    decreases node, 0
  {
    if node.Dir? {
      var all := EnumerateAll(node.children, rel);
      EnumeratesDistinctAll(node.children, rel);
      forall f | f in all ensures f.rel != rel {
        EnumeratesListed(node.children, rel, f);
        ListedIsInside(node.children, rel, f.rel);
      }
      DistinctConcat([Found(rel, true, None)], all);
    }
  }

  lemma {:induction false} EnumeratesDistinctAll(nodes: seq<Node>, rel: string)
    requires PlainTrees(nodes)
    ensures DistinctPaths(EnumerateAll(nodes, rel))
    decreases nodes
  {
    if nodes != [] {
      var name := nodes[0].name;
      var a, b := Enumerate(nodes[0], Below(rel, name)), EnumerateAll(nodes[1..], rel);
      EnumeratesDistinct(nodes[0], Below(rel, name));
      EnumeratesDistinctAll(nodes[1..], rel);
      forall f, g | f in a && g in b ensures f.rel != g.rel {
        FirstApart(nodes, rel, f, g);
      }
      DistinctConcat(a, b);
    }
  }

  lemma FirstApart(nodes: seq<Node>, rel: string, f: Found, g: Found)
    requires nodes != [] && PlainTrees(nodes)
    requires f in Enumerate(nodes[0], Below(rel, nodes[0].name)) && g in EnumerateAll(nodes[1..], rel)
    ensures f.rel != g.rel
  {
    BelowPlain(rel, nodes[0].name);
    EnumeratesUnder(nodes[0], Below(rel, nodes[0].name), f);
    EnumeratesListed(nodes[1..], rel, g);
    var n :| n in nodes[1..] && PlainName(n.name) && Under(g.rel, Below(rel, n.name));
    SiblingsApart(rel, nodes[0].name, n.name, f.rel);
  }

  lemma {:induction false} KeptDistinct(found: seq<Found>, keep: Predicate)
    requires DistinctPaths(found)
    ensures DistinctPaths(Kept(found, keep)) && forall f | f in Kept(found, keep) :: f in found
    decreases |found|
  {
    if found != [] {
      KeptDistinct(found[1..], keep);
      assert found == [found[0]] + found[1..];
      assert forall f | f in found[1..] :: found[0].rel != f.rel;
      DistinctConcat(if keep(found[0].rel, found[0].isDir) then [found[0]] else [], Kept(found[1..], keep));
    }
  }

  lemma {:induction false} FilesDistinct(found: seq<Found>)
    requires DistinctPaths(found)
    ensures DistinctPaths(Files(found)) && forall f | f in Files(found) :: f in found
    decreases |found|
  {
    if found != [] {
      FilesDistinct(found[1..]);
      assert found == [found[0]] + found[1..];
      assert forall f | f in found[1..] :: found[0].rel != f.rel;
      DistinctConcat(if !found[0].isDir && found[0].rel != "" then [found[0]] else [], Files(found[1..]));
    }
  }

  /**
   Every file of a plain tree has a path of its own, whatever the filter keeps; so the order in which
   parallel workers push the records never shows in the walk of such a tree.
   */
  lemma PlainTreesWalkAlike(tree: Node, keep: Predicate, pushed: seq<Found>)
    requires PlainTree(tree) && multiset(pushed) == multiset(Filtered(tree, "", keep))
    ensures DistinctPaths(Filtered(tree, "", keep))
    ensures WalkSpec(Enumerate(tree, ""), keep)
         == match Records(pushed)
            case None => None
            case Some(rs) => Some(Sorting.Sort(rs, PathOf()))
  {
    var found := Enumerate(tree, "");
    EnumeratesDistinct(tree, "");
    KeptDistinct(found, keep);
    FilesDistinct(Kept(found, keep));
    PushOrderIsInvisible(Filtered(tree, "", keep), pushed);
  }
}
