/** File records and the difference of two listings (src/sync.rs:26-70, 208-288). */
module Diffs {
  import opened Numbers
  import opened Sorting

  datatype Mtime = Mtime(secs: I64, nanos: U32)

  datatype FileEntry = FileEntry(path: string, size: U64, mtime: Mtime, executable: bool, mode: U32)

  /** What the file system says of a file. */
  datatype Meta = Meta(len: U64, mtime: Mtime, mode: U32)

  /** `mode & 0o111 != 0`: one of the three execute bits is set. */
  predicate HasExecuteBit(mode: U32) {
    mode % 2 == 1 || mode / 8 % 2 == 1 || mode / 64 % 2 == 1
  }

  function BuildEntry(rel: string, meta: Meta): FileEntry {
    FileEntry(rel, meta.len, meta.mtime, HasExecuteBit(meta.mode), meta.mode)
  }

  predicate SignatureChanged(a: FileEntry, b: FileEntry) {
    a.size != b.size || a.mtime != b.mtime || a.mode != b.mode
  }

  type Listing = map<string, FileEntry>

  function PathOf(): FileEntry -> string {
    (e: FileEntry) => e.path
  }

  type Change = (FileEntry, FileEntry)

  function ChangePath(): Change -> string {
    (c: Change) => c.0.path
  }

  /** The listing of a sequence of records: the last one for a path stays. */
  function ListingOf(entries: seq<FileEntry>): (m: Listing)
    ensures Keyed(m)
    decreases |entries|
  {
    if entries == [] then map[]
    else ListingOf(entries[..|entries| - 1])[entries[|entries| - 1].path := entries[|entries| - 1]]
  }

  /** Record i is the last one for the path. */
  ghost predicate LastFor(entries: seq<FileEntry>, i: nat, p: string) {
    i < |entries| && entries[i].path == p && forall j: nat | i < j < |entries| :: entries[j].path != p
  }

  /** A path is listed exactly if some record has it, and then with the last such record. */
  lemma {:induction false} ListingIsLast(entries: seq<FileEntry>, p: string)
    ensures var m := ListingOf(entries);
            if p in m then exists i: nat :: LastFor(entries, i, p) && entries[i] == m[p]
            else forall i: nat | i < |entries| :: entries[i].path != p
    decreases |entries|
  {
    if entries != [] {
      var init, last := entries[..|entries| - 1], |entries| - 1;
      ListingIsLast(init, p);
      assert forall i: nat | i < |init| :: init[i] == entries[i];
      if entries[last].path == p {
        assert LastFor(entries, last, p);
      } else if p in ListingOf(init) {
        var i: nat :| LastFor(init, i, p) && init[i] == ListingOf(init)[p];
        assert LastFor(entries, i, p);
      }
    }
  }

  ghost predicate Keyed(m: Listing) {
    forall p | p in m :: m[p].path == p
  }

  // ---------------------------------------------------------------- what a difference is

  predicate Lacks(m: Listing, other: Listing, e: FileEntry) {
    e.path in m && m[e.path] == e && e.path !in other
  }

  predicate Changed(source: Listing, target: Listing, c: Change) {
    && c.0.path in source && c.0.path in target
    && c == (source[c.0.path], target[c.0.path]) && SignatureChanged(c.0, c.1)
  }

  ghost predicate IsDiff(source: Listing, target: Listing,
                         added: seq<FileEntry>, removed: seq<FileEntry>, modified: seq<Change>) {
    && StrictlySorted(added, PathOf()) && (forall e :: e in added <==> Lacks(target, source, e))
    && StrictlySorted(removed, PathOf()) && (forall e :: e in removed <==> Lacks(source, target, e))
    && StrictlySorted(modified, ChangePath()) && (forall c :: c in modified <==> Changed(source, target, c))
  }

  /** The difference is determined by the two listings, whatever order their hash maps are walked in. */
  lemma DiffIsUnique(source: Listing, target: Listing,
                     a1: seq<FileEntry>, r1: seq<FileEntry>, m1: seq<Change>,
                     a2: seq<FileEntry>, r2: seq<FileEntry>, m2: seq<Change>)
    requires IsDiff(source, target, a1, r1, m1) && IsDiff(source, target, a2, r2, m2)
    ensures a1 == a2 && r1 == r2 && m1 == m2
  {
    SortedUnique(a1, a2, PathOf());
    SortedUnique(r1, r2, PathOf());
    SortedUnique(m1, m2, ChangePath());
  }

  // ---------------------------------------------------------------- the patch

  function Dropped(m: Listing, removed: seq<FileEntry>): Listing
    decreases |removed|
  {
    if removed == [] then m else Dropped(m, removed[1..]) - {removed[0].path}
  }

  function Added(m: Listing, added: seq<FileEntry>): Listing
    decreases |added|
  {
    if added == [] then m else Added(m, added[1..])[added[0].path := added[0]]
  }

  function Replaced(m: Listing, modified: seq<Change>): Listing
    decreases |modified|
  {
    if modified == [] then m else Replaced(m, modified[1..])[modified[0].1.path := modified[0].1]
  }

  /** Removing, inserting and replacing what a difference says. */
  function Patched(source: Listing, added: seq<FileEntry>, removed: seq<FileEntry>, modified: seq<Change>): Listing {
    Replaced(Added(Dropped(source, removed), added), modified)
  }

  lemma {:induction false} DroppedAt(m: Listing, removed: seq<FileEntry>, p: string)
    ensures p in Dropped(m, removed) <==> p in m && forall e | e in removed :: e.path != p
    ensures p in Dropped(m, removed) ==> Dropped(m, removed)[p] == m[p]
    decreases |removed|
  {
    if removed != [] {
      assert removed == [removed[0]] + removed[1..];
      DroppedAt(m, removed[1..], p);
    }
  }

  lemma {:induction false} AddedAt(m: Listing, added: seq<FileEntry>, t: Listing, p: string)
    requires forall e | e in added :: e.path in t && t[e.path] == e
    ensures var r := Added(m, added);
            if exists e :: e in added && e.path == p then p in r && r[p] == t[p]
            else (p in r <==> p in m) && (p in r ==> r[p] == m[p])
    decreases |added|
  {
    if added != [] {
      assert added == [added[0]] + added[1..];
      AddedAt(m, added[1..], t, p);
    }
  }

  lemma {:induction false} ReplacedAt(m: Listing, modified: seq<Change>, t: Listing, p: string)
    requires forall c | c in modified :: c.1.path == c.0.path && c.0.path in t && t[c.0.path] == c.1
    ensures var r := Replaced(m, modified);
            if exists c :: c in modified && c.0.path == p then p in r && r[p] == t[p]
            else (p in r <==> p in m) && (p in r ==> r[p] == m[p])
    decreases |modified|
  {
    if modified != [] {
      assert modified == [modified[0]] + modified[1..];
      ReplacedAt(m, modified[1..], t, p);
    }
  }

  /** At each path the patch has the target's record, except that a record whose signature is unchanged is the source's. */
  lemma PatchedAt(source: Listing, target: Listing,
                  added: seq<FileEntry>, removed: seq<FileEntry>, modified: seq<Change>, p: string)
    requires Keyed(source) && Keyed(target) && IsDiff(source, target, added, removed, modified)
    ensures var r := Patched(source, added, removed, modified);
            && (p in r <==> p in target)
            && (p in r ==> r[p] == if p in source && !SignatureChanged(source[p], target[p]) then source[p] else target[p])
  {
    DroppedAt(source, removed, p);
    AddedAt(Dropped(source, removed), added, target, p);
    ReplacedAt(Added(Dropped(source, removed), added), modified, target, p);
    if p in source && p !in target {
      assert source[p] in removed;
    }
    if p in target && p !in source {
      assert target[p] in added;
    }
    if p in source && p in target && SignatureChanged(source[p], target[p]) {
      assert (source[p], target[p]) in modified && (source[p], target[p]).0.path == p;
    }
  }

  /**
   Applying the difference gives exactly the target if and only if no record kept for its unchanged size,
   time and mode has another executable flag in the target: that flag is not part of the signature.
   */
  lemma PatchRebuildsTargetIff(source: Listing, target: Listing,
                               added: seq<FileEntry>, removed: seq<FileEntry>, modified: seq<Change>)
    requires Keyed(source) && Keyed(target) && IsDiff(source, target, added, removed, modified)
    ensures Patched(source, added, removed, modified) == target
       <==> forall p | p in source && p in target && !SignatureChanged(source[p], target[p]) ::
              source[p].executable == target[p].executable
  {
    var r := Patched(source, added, removed, modified);
    forall p
      ensures (p in r <==> p in target)
      ensures p in r ==> r[p] == if p in source && !SignatureChanged(source[p], target[p]) then source[p] else target[p]
    {
      PatchedAt(source, target, added, removed, modified, p);
    }
    if r == target {
      forall p | p in source && p in target && !SignatureChanged(source[p], target[p])
        ensures source[p].executable == target[p].executable
      {
        assert r[p] == source[p];
      }
    }
  }

  /** Records as the walker builds them: the executable flag comes from the mode. */
  ghost predicate Walked(entries: seq<FileEntry>) {
    forall e | e in entries :: e.executable == HasExecuteBit(e.mode)
  }

  lemma {:induction false} ListingHasEntries(entries: seq<FileEntry>, p: string)
    requires p in ListingOf(entries)
    ensures ListingOf(entries)[p] in entries
    decreases |entries|
  {
    if entries[|entries| - 1].path != p {
      ListingHasEntries(entries[..|entries| - 1], p);
    }
  }

  /** On walked listings the difference is a correct patch: it turns the source into exactly the target. */
  lemma DiffIsAPatch(source: seq<FileEntry>, target: seq<FileEntry>,
                     added: seq<FileEntry>, removed: seq<FileEntry>, modified: seq<Change>)
    requires Walked(source) && Walked(target)
    requires IsDiff(ListingOf(source), ListingOf(target), added, removed, modified)
    ensures Patched(ListingOf(source), added, removed, modified) == ListingOf(target)
  {
    var s, t := ListingOf(source), ListingOf(target);
    forall p | p in s && p in t && !SignatureChanged(s[p], t[p]) ensures s[p].executable == t[p].executable {
      ListingHasEntries(source, p);
      ListingHasEntries(target, p);
    }
    PatchRebuildsTargetIff(s, t, added, removed, modified);
  }

  function Flipped(modified: seq<Change>): seq<Change> {
    seq(|modified|, i requires 0 <= i < |modified| => (modified[i].1, modified[i].0))
  }

  /** Swapping the listings swaps added and removed, and flips the changes. */
  lemma DiffSwaps(source: Listing, target: Listing,
                  added: seq<FileEntry>, removed: seq<FileEntry>, modified: seq<Change>)
    requires Keyed(source) && Keyed(target) && IsDiff(source, target, added, removed, modified)
    ensures IsDiff(target, source, removed, added, Flipped(modified))
  {
    var flipped := Flipped(modified);
    forall i: nat, j: nat | i < j < |flipped| ensures Less(ChangePath()(flipped[i]), ChangePath()(flipped[j])) {
      assert modified[i] in modified && modified[j] in modified;
      assert Less(ChangePath()(modified[i]), ChangePath()(modified[j]));
    }
    forall c: Change ensures c in flipped <==> Changed(target, source, c) {
      if c in flipped {
        var i: nat :| i < |flipped| && flipped[i] == c;
        assert modified[i] in modified && modified[i] == (c.1, c.0);
      }
      if Changed(target, source, c) {
        assert Changed(source, target, (c.1, c.0));
        var i: nat :| i < |modified| && modified[i] == (c.1, c.0);
        assert flipped[i] == c;
      }
    }
  }

  /** Records that differ in the executable flag alone are reported as the same. */
  lemma ExecutableFlagIsMissed(p: string, size: U64, mtime: Mtime, mode: U32)
    ensures var source, target := map[p := FileEntry(p, size, mtime, false, mode)], map[p := FileEntry(p, size, mtime, true, mode)];
            IsDiff(source, target, [], [], []) && Patched(source, [], [], []) != target
  {
    var source, target := map[p := FileEntry(p, size, mtime, false, mode)], map[p := FileEntry(p, size, mtime, true, mode)];
    assert source[p] != target[p];
    assert Patched(source, [], [], []) == source;
  }

  // ---------------------------------------------------------------- as the source computes it

  method Listed(entries: seq<FileEntry>) returns (m: Listing)
    ensures m == ListingOf(entries)
  {
    m := map[];
    for i := 0 to |entries|
      invariant m == ListingOf(entries[..i])
    {
      assert entries[..i + 1][..i] == entries[..i];
      m := m[entries[i].path := entries[i]];
    }
    assert entries[..|entries|] == entries;
  }

  /** The pass over the target, in the order its hash map gives: new records and changed pairs. */
  method PassOverTarget(source: Listing, target: Listing) returns (added: seq<FileEntry>, modified: seq<Change>)
    requires Keyed(source) && Keyed(target)
    ensures DistinctKeys(added, PathOf()) && forall e :: e in added <==> Lacks(target, source, e)
    ensures DistinctKeys(modified, ChangePath()) && forall c :: c in modified <==> Changed(source, target, c)
  {
    added, modified := [], [];
    var left := target.Keys;
    while left != {}
      invariant left <= target.Keys
      invariant DistinctKeys(added, PathOf()) && DistinctKeys(modified, ChangePath())
      invariant forall e :: e in added <==> Lacks(target, source, e) && e.path !in left
      invariant forall c :: c in modified <==> Changed(source, target, c) && c.0.path !in left
      decreases left
    {
      var p :| p in left;
      left := left - {p};
      if p !in source {
        added := added + [target[p]];
      } else if SignatureChanged(source[p], target[p]) {
        modified := modified + [(source[p], target[p])];
      }
    }
  }

  /** The pass over the source: records whose paths the target lacks. */
  method PassOverSource(source: Listing, target: Listing) returns (removed: seq<FileEntry>)
    requires Keyed(source)
    ensures DistinctKeys(removed, PathOf()) && forall e :: e in removed <==> Lacks(source, target, e)
  {
    removed := [];
    var left := source.Keys;
    while left != {}
      invariant left <= source.Keys
      invariant DistinctKeys(removed, PathOf())
      invariant forall e :: e in removed <==> Lacks(source, target, e) && e.path !in left
      decreases left
    {
      var p :| p in left;
      left := left - {p};
      if p !in target {
        removed := removed + [source[p]];
      }
    }
  }

  method DiffEntries(source: seq<FileEntry>, target: seq<FileEntry>)
    returns (added: seq<FileEntry>, removed: seq<FileEntry>, modified: seq<Change>)
    ensures IsDiff(ListingOf(source), ListingOf(target), added, removed, modified)
  {
    var s := Listed(source);
    var t := Listed(target);
    var a, m := PassOverTarget(s, t);
    var r := PassOverSource(s, t);
    SortSorts(a, PathOf());
    SortSorts(r, PathOf());
    SortSorts(m, ChangePath());
    added, removed, modified := Sort(a, PathOf()), Sort(r, PathOf()), Sort(m, ChangePath());
    SameElements(added, a);
    SameElements(removed, r);
    SameElements(modified, m);
  }
}
