/** Extracting a validated archive into a fresh directory, and inspecting the same archive. */
module Archive {
  import opened Wrappers

  /** A path below the destination, as its non-empty list of segments. */
  type Path = seq<string>

  datatype EntryKind = FileEntry(size: nat) | DirectoryEntry | OtherEntry

  /** A tar entry; `path` is absent when the recorded name is not a safe relative path. */
  datatype TarEntry = TarEntry(path: Option<Path>, kind: EntryKind)

  datatype Limits = Limits(maxEntries: nat, maxFileBytes: nat, maxExpandedBytes: nat)

  datatype Inspection = Inspection(entries: nat, regularFiles: nat, directories: nat, expandedBytes: nat)

  datatype Node = Dir | File(size: nat)

  type Tree = map<Path, Node>

  predicate IsDir(tree: Tree, p: Path) { p == [] || (p in tree && tree[p].Dir?) }

  /** Whatever lies above an entry of the tree is a directory of the tree. */
  predicate WellFormed(tree: Tree) {
    [] !in tree && forall p, k | p in tree && 0 <= k < |p| :: IsDir(tree, p[..k])
  }

  /** Every directory on the way to `p` is one, or is still free. */
  predicate NoFileOnWay(tree: Tree, p: Path) {
    forall k | 1 <= k <= |p| :: p[..k] in tree ==> tree[p[..k]].Dir?
  }

  /** Of the directories on the way to `p`, those at levels `depth + 1` to `n` are free. */
  predicate NothingBelow(tree: Tree, p: Path, depth: nat, n: nat)
    requires n <= |p|
  {
    forall k | depth < k <= n :: p[..k] !in tree
  }

  function Ancestors(p: Path): set<Path> { set k | 1 <= k <= |p| :: p[..k] }

  function WithDirectories(tree: Tree, p: Path): Tree {
    (map q | q in Ancestors(p) :: Dir) + tree
  }

  /** Nothing has changed but that some directories on the way to `p` have come into being. */
  predicate AddsDirectories(before: Tree, after: Tree, p: Path) {
    && (forall q | q in before :: q in after && after[q] == before[q])
    && (forall q | q in after :: q in before || (q in Ancestors(p) && after[q].Dir?))
  }

  lemma SomeDirectoriesAdded(tree: Tree, p: Path, n: nat)
    requires n <= |p|
    ensures AddsDirectories(tree, WithDirectories(tree, p[..n]), p)
  {
    forall q | q in Ancestors(p[..n]) ensures q in Ancestors(p) {
      var k :| 1 <= k <= n && q == p[..n][..k];
      assert q == p[..k];
    }
  }

  /******* Extraction *******/

  class Extraction {
    var tree: Tree
    var inspection: Inspection
    const limits: Limits

    constructor (limits: Limits)
      ensures tree == map[] && inspection == Inspection(0, 0, 0, 0) && this.limits == limits
    {
      tree, inspection := map[], Inspection(0, 0, 0, 0);
      this.limits := limits;
    }

    /** Creates the missing directories down to `parent`, outermost first. */
    method EnsureParentDirectories(parent: Path) returns (ok: bool)
      requires WellFormed(tree)
      modifies `tree
      ensures ok <==> NoFileOnWay(old(tree), parent)
      ensures ok ==> tree == WithDirectories(old(tree), parent)
      ensures AddsDirectories(old(tree), tree, parent)
    {
      var depth := DeepestDirectory(tree, parent);
      AboveIsDirectory(tree, parent, depth);
      ok := MakeDirectories(parent, depth);
      if ok {
        NothingIsOnWay(old(tree), parent, depth);
      }
    }

    /** Creates the directories below the first `depth` levels, none of which is there yet. */
    method MakeDirectories(parent: Path, depth: nat) returns (ok: bool)
      requires depth <= |parent| && tree == WithDirectories(tree, parent[..depth])
      requires forall k | depth < k <= |parent| :: !IsDir(tree, parent[..k])
      modifies `tree
      ensures ok ==> NothingBelow(old(tree), parent, depth, |parent|) && tree == WithDirectories(old(tree), parent)
      ensures !ok ==> !NoFileOnWay(old(tree), parent)
      ensures AddsDirectories(old(tree), tree, parent)
    {
      for next := depth + 1 to |parent| + 1
        invariant NothingBelow(old(tree), parent, depth, next - 1)
        invariant tree == WithDirectories(old(tree), parent[..next - 1])
      {
        ok := MakeDirectory(parent, next, old(tree));
        if !ok {
          return;
        }
      }
      SomeDirectoriesAdded(old(tree), parent, |parent|);
      assert parent[..|parent|] == parent;
      return true;
    }

    /** Creates one directory, which must not be there as anything else. */
    method MakeDirectory(parent: Path, next: nat, ghost before: Tree) returns (ok: bool)
      requires 1 <= next <= |parent| && !IsDir(before, parent[..next])
      requires tree == WithDirectories(before, parent[..next - 1])
      modifies `tree
      ensures ok <==> parent[..next] !in before
      ensures if ok then tree == WithDirectories(before, parent[..next]) else tree == old(tree)
      ensures !ok ==> !NoFileOnWay(before, parent)
      ensures AddsDirectories(before, tree, parent)
    {
      SomeDirectoriesAdded(before, parent, if parent[..next] in tree then next - 1 else next);
      OneMoreDirectory(before, parent, next);
      if parent[..next] in tree {
        FileIsOnWay(before, parent, next);
        return false;
      }
      tree := tree[parent[..next] := Dir];
      return true;
    }

    method ExtractEntry(entry: TarEntry) returns (ok: bool)
      requires WellFormed(tree) && NonEmptyPath(entry)
      modifies this
      ensures ok <==> EntryAllowed(entry, limits) && old(inspection).entries < limits.maxEntries && HasRoom(old(tree), entry)
      ensures ok ==>
        && tree == Placed(old(tree), entry)
        && inspection == Counted(old(inspection), entry)
      ensures !ok && entry.path.None? ==> tree == old(tree)
      ensures !ok && entry.path.Some? ==> AddsDirectories(old(tree), tree, Parent(entry.path.value))
    {
      if entry.path.None? {
        return false;
      }
      inspection := inspection.(entries := inspection.entries + 1);
      if inspection.entries > limits.maxEntries {
        return false;
      }
      var path := entry.path.value;
      ok := EnsureParentDirectories(Parent(path));
      if !ok {
        return;
      }
      PathIsNotAncestor(path);
      match entry.kind
      case DirectoryEntry =>
        if path in tree {
          return false;
        }
        tree := tree[path := Dir];
        inspection := inspection.(directories := inspection.directories + 1);
      case FileEntry(size) =>
        if size > limits.maxFileBytes {
          return false;
        }
        if path in tree {
          return false;
        }
        tree := tree[path := File(size)];
        inspection := inspection.(regularFiles := inspection.regularFiles + 1);
      case OtherEntry =>
        return false;
    }

    /** Extracts every entry and then drains the stream, whose expanded size is `expandedBytes`. */
    method ExtractAll(entries: seq<TarEntry>, expandedBytes: nat) returns (ok: bool)
      requires tree == map[] && inspection == Inspection(0, 0, 0, 0)
      requires forall i | 0 <= i < |entries| :: NonEmptyPath(entries[i])
      modifies this
      ensures ok <==> Inspectable(entries, limits, expandedBytes) && Compatible(entries)
      ensures ok ==> IsTreeOf(tree, entries) && inspection == CountAll(entries).(expandedBytes := expandedBytes)
    {
      for i := 0 to |entries|
        invariant AllAllowed(entries[..i], limits) && Compatible(entries[..i])
        invariant IsTreeOf(tree, entries[..i]) && inspection == CountAll(entries[..i])
      {
        NextEntry(entries, i, tree, limits);
        ok := ExtractEntry(entries[i]);
        if !ok {
          return;
        }
      }
      assert entries[..|entries|] == entries;
      if expandedBytes > limits.maxExpandedBytes {
        return false;
      }
      inspection := inspection.(expandedBytes := expandedBytes);
      return true;
    }
  }

  function Parent(p: Path): Path
    requires p != []
  {
    p[..|p| - 1]
  }

  predicate NonEmptyPath(e: TarEntry) { e.path.Some? ==> e.path.value != [] }

  predicate EntryAllowed(e: TarEntry, limits: Limits) {
    && e.path.Some? && !e.kind.OtherEntry?
    && (e.kind.FileEntry? ==> e.kind.size <= limits.maxFileBytes)
  }

  /** The place is free and only directories lead to it. */
  predicate HasRoom(tree: Tree, e: TarEntry)
    requires NonEmptyPath(e) && e.path.Some?
  {
    e.path.value !in tree && NoFileOnWay(tree, Parent(e.path.value))
  }

  function Placed(tree: Tree, e: TarEntry): Tree
    requires NonEmptyPath(e) && e.path.Some? && !e.kind.OtherEntry?
  {
    WithDirectories(tree, Parent(e.path.value))[
      e.path.value := if e.kind.FileEntry? then File(e.kind.size) else Dir]
  }

  function Counted(c: Inspection, e: TarEntry): Inspection {
    c.(entries := c.entries + 1,
       regularFiles := c.regularFiles + (if e.kind.FileEntry? then 1 else 0),
       directories := c.directories + (if e.kind.DirectoryEntry? then 1 else 0))
  }

  function CountAll(entries: seq<TarEntry>): Inspection {
    if entries == [] then Inspection(0, 0, 0, 0) else Counted(CountAll(entries[..|entries| - 1]), entries[|entries| - 1])
  }

  predicate AllAllowed(entries: seq<TarEntry>, limits: Limits) {
    |entries| <= limits.maxEntries && forall i | 0 <= i < |entries| :: EntryAllowed(entries[i], limits)
  }

  predicate Inspectable(entries: seq<TarEntry>, limits: Limits, expandedBytes: nat) {
    AllAllowed(entries, limits) && expandedBytes <= limits.maxExpandedBytes
  }

  /** An earlier and a later entry can both be extracted: different places, the later one not
      above the earlier one, and the earlier one a directory if it is above the later one. */
  predicate CanFollow(earlier: TarEntry, later: TarEntry)
    requires earlier.path.Some? && later.path.Some?
  {
    var a, b := earlier.path.value, later.path.value;
    a != b && !(b < a) && (a < b ==> earlier.kind.DirectoryEntry?)
  }

  predicate Compatible(entries: seq<TarEntry>) {
    forall i, j | 0 <= i < j < |entries| && entries[i].path.Some? && entries[j].path.Some? ::
      CanFollow(entries[i], entries[j])
  }

  /** `p` is an entry's path or lies above one. */
  predicate Reached(entries: seq<TarEntry>, p: Path) {
    exists i :: 0 <= i < |entries| && entries[i].path.Some? && p <= entries[i].path.value
  }

  predicate IsFileOf(entries: seq<TarEntry>, p: Path, size: nat) {
    exists i :: 0 <= i < |entries| && entries[i] == TarEntry(Some(p), FileEntry(size))
  }

  /** The tree is exactly the entries together with everything above them. */
  ghost predicate IsTreeOf(tree: Tree, entries: seq<TarEntry>) {
    && WellFormed(tree)
    && (forall p :: p in tree <==> p != [] && Reached(entries, p))
    && (forall p, size | p in tree :: tree[p] == File(size) <==> IsFileOf(entries, p, size))
  }

  /** The deepest directory that already exists on the way to `p`. */
  method DeepestDirectory(tree: Tree, p: Path) returns (depth: nat)
    ensures depth <= |p| && IsDir(tree, p[..depth])
    ensures forall k | depth < k <= |p| :: !IsDir(tree, p[..k])
  {
    depth := |p|;
    while depth > 0 && !IsDir(tree, p[..depth])
      invariant 0 <= depth <= |p|
      invariant forall k | depth < k <= |p| :: !IsDir(tree, p[..k])
    {
      depth := depth - 1;
    }
  }

  lemma OneMoreDirectory(tree: Tree, p: Path, n: nat)
    requires 1 <= n <= |p|
    ensures p[..n] in WithDirectories(tree, p[..n - 1]) <==> p[..n] in tree
    ensures p[..n] !in tree ==> WithDirectories(tree, p[..n]) == WithDirectories(tree, p[..n - 1])[p[..n] := Dir]
  {
    AncestorsStep(p, n);
  }

  lemma AncestorsStep(p: Path, n: nat)
    requires 1 <= n <= |p|
    ensures Ancestors(p[..n]) == Ancestors(p[..n - 1]) + {p[..n]}
    ensures p[..n] !in Ancestors(p[..n - 1])
  {
    assert forall k | 1 <= k <= n :: p[..n][..k] == p[..k];
    assert forall k | 1 <= k <= n - 1 :: p[..n - 1][..k] == p[..k];
    forall q | q in Ancestors(p[..n]) ensures q in Ancestors(p[..n - 1]) + {p[..n]} {
      var k :| 1 <= k <= n && p[..n][..k] == q;
      assert k < n ==> p[..n - 1][..k] == q;
    }
    forall q | q in Ancestors(p[..n - 1]) ensures q in Ancestors(p[..n]) {
      var k :| 1 <= k <= n - 1 && p[..n - 1][..k] == q;
      assert p[..n][..k] == q;
    }
    assert p[..n][..n] == p[..n];
  }

  /** Below an existing directory nothing is in the way. */
  lemma AboveIsDirectory(tree: Tree, p: Path, depth: nat)
    requires WellFormed(tree) && depth <= |p| && IsDir(tree, p[..depth])
    ensures forall k | 1 <= k <= depth :: p[..k] in tree && tree[p[..k]].Dir?
    ensures WithDirectories(tree, p[..depth]) == tree
  {
    forall k | 1 <= k <= depth ensures p[..k] in tree && tree[p[..k]].Dir? {
      assert p[..depth][..k] == p[..k];
    }
    forall q | q in Ancestors(p[..depth]) ensures q in tree {
      var k :| 1 <= k <= depth && p[..depth][..k] == q;
      assert p[..depth][..k] == p[..k];
    }
  }

  lemma FileIsOnWay(tree: Tree, p: Path, n: nat)
    requires 1 <= n <= |p| && p[..n] in tree && !IsDir(tree, p[..n])
    ensures !NoFileOnWay(tree, p)
  {
  }

  lemma NothingIsOnWay(tree: Tree, p: Path, depth: nat)
    requires depth <= |p| && forall k | 1 <= k <= depth :: p[..k] in tree && tree[p[..k]].Dir?
    requires NothingBelow(tree, p, depth, |p|)
    ensures NoFileOnWay(tree, p)
  {
  }

  lemma AncestorsAreProperPrefixes(path: Path, p: Path)
    requires path != []
    ensures p in Ancestors(Parent(path)) <==> p != [] && p < path
  {
    if p != [] && p < path {
      assert p == Parent(path)[..|p|];
    }
  }

  lemma PathIsNotAncestor(p: Path)
    requires p != []
    ensures p !in Ancestors(Parent(p))
  {
  }

  /** There is room for the next entry exactly when it can follow every earlier one. */
  lemma RoomMeansCompatible(tree: Tree, done: seq<TarEntry>, e: TarEntry)
    requires IsTreeOf(tree, done) && NonEmptyPath(e) && e.path.Some?
    requires forall i | 0 <= i < |done| :: done[i].path.Some? && done[i].path.value != [] && !done[i].kind.OtherEntry?
    ensures HasRoom(tree, e) <==> forall i | 0 <= i < |done| :: CanFollow(done[i], e)
  {
    var path := e.path.value;
    if HasRoom(tree, e) {
      forall i | 0 <= i < |done| ensures CanFollow(done[i], e) {
        var d := done[i].path.value;
        assert Reached(done, d) && d in tree;
        assert path <= d ==> Reached(done, path);
        if d < path {
          assert Parent(path)[..|d|] == d;
          assert done[i].kind.FileEntry? ==> IsFileOf(done, d, done[i].kind.size);
        }
      }
    } else if path in tree {
      var i :| 0 <= i < |done| && path <= done[i].path.value;
      assert !CanFollow(done[i], e);
    } else {
      var k :| 1 <= k <= |Parent(path)| && Parent(path)[..k] in tree && !tree[Parent(path)[..k]].Dir?;
      var q := Parent(path)[..k];
      assert q < path;
      assert IsFileOf(done, q, tree[q].size);
      var i :| 0 <= i < |done| && done[i] == TarEntry(Some(q), FileEntry(tree[q].size));
      assert !CanFollow(done[i], e);
    }
  }

  lemma PlacedIsWellFormed(tree: Tree, e: TarEntry)
    requires WellFormed(tree) && NonEmptyPath(e) && e.path.Some? && !e.kind.OtherEntry? && HasRoom(tree, e)
    ensures WellFormed(Placed(tree, e))
  {
    var path := e.path.value;
    var t := Placed(tree, e);
    PathIsNotAncestor(path);
    forall p, k | p in t && 0 <= k < |p| ensures IsDir(t, p[..k]) {
      if k > 0 {
        var q := p[..k];
        if p == path {
          assert q == Parent(path)[..k] && q in Ancestors(Parent(path));
        } else if p in Ancestors(Parent(path)) {
          var n :| 1 <= n <= |Parent(path)| && Parent(path)[..n] == p;
          assert q == Parent(path)[..k] && q in Ancestors(Parent(path));
        } else {
          assert p in tree && IsDir(tree, q);
        }
        if q in Ancestors(Parent(path)) && q in tree {
          var n :| 1 <= n <= |Parent(path)| && Parent(path)[..n] == q;
          assert tree[Parent(path)[..n]].Dir?;
        }
        if q == path {
          assert p in tree;
          assert IsDir(tree, q);
        }
      }
    }
  }

  lemma PlacedIsTree(tree: Tree, done: seq<TarEntry>, e: TarEntry)
    requires IsTreeOf(tree, done) && NonEmptyPath(e) && e.path.Some? && !e.kind.OtherEntry? && HasRoom(tree, e)
    ensures IsTreeOf(Placed(tree, e), done + [e])
  {
    PlacedIsWellFormed(tree, e);
    var path := e.path.value;
    var t, all := Placed(tree, e), done + [e];
    PathIsNotAncestor(path);
    forall p ensures p in t <==> p != [] && Reached(all, p) {
      ReachedSplit(done, e, p);
      AncestorsAreProperPrefixes(path, p);
      assert p in t <==> p in Ancestors(Parent(path)) || p in tree || p == path;
      assert p <= path <==> p == path || p < path;
    }
    forall p, size | p in t ensures t[p] == File(size) <==> IsFileOf(all, p, size) {
      FileOfSplit(done, e, p, size);
      if p != path {
        assert IsFileOf(done, p, size) ==> p in tree by {
          assert IsFileOf(done, p, size) ==> Reached(done, p);
        }
      } else {
        assert IsFileOf(done, p, size) ==> Reached(done, p);
      }
    }
  }

  lemma ReachedSplit(done: seq<TarEntry>, e: TarEntry, p: Path)
    requires e.path.Some?
    ensures Reached(done + [e], p) <==> Reached(done, p) || p <= e.path.value
  {
    var all := done + [e];
    assert all[|done|] == e && forall i | 0 <= i < |done| :: all[i] == done[i];
    if Reached(done, p) {
      var i :| 0 <= i < |done| && done[i].path.Some? && p <= done[i].path.value;
      assert all[i].path.Some? && p <= all[i].path.value;
    }
  }

  lemma FileOfSplit(done: seq<TarEntry>, e: TarEntry, p: Path, size: nat)
    ensures IsFileOf(done + [e], p, size) <==> IsFileOf(done, p, size) || e == TarEntry(Some(p), FileEntry(size))
  {
    var all := done + [e];
    assert all[|done|] == e && forall i | 0 <= i < |done| :: all[i] == done[i];
    if IsFileOf(done, p, size) {
      var i :| 0 <= i < |done| && done[i] == TarEntry(Some(p), FileEntry(size));
      assert all[i] == TarEntry(Some(p), FileEntry(size));
    }
  }

  lemma {:induction false} CountsEntries(entries: seq<TarEntry>)
    ensures CountAll(entries).entries == |entries|
  {
    if entries != [] {
      CountsEntries(entries[..|entries| - 1]);
    }
  }

  /** The counts are those of the entries, kind by kind. */
  lemma {:induction false} CountsEachKind(entries: seq<TarEntry>)
    ensures CountAll(entries).entries == |entries| && CountAll(entries).expandedBytes == 0
    ensures CountAll(entries).regularFiles == |set i | 0 <= i < |entries| && entries[i].kind.FileEntry?|
    ensures CountAll(entries).directories == |set i | 0 <= i < |entries| && entries[i].kind == DirectoryEntry|
  {
    if entries != [] {
      var n := |entries| - 1;
      var done := entries[..n];
      CountsEachKind(done);
      OneMoreFile(entries, done);
      OneMoreDirectoryEntry(entries, done);
    }
  }

  lemma OneMoreFile(entries: seq<TarEntry>, done: seq<TarEntry>)
    requires entries != [] && done == entries[..|entries| - 1]
    ensures |set i | 0 <= i < |entries| && entries[i].kind.FileEntry?| ==
      |set i | 0 <= i < |done| && done[i].kind.FileEntry?| + if entries[|done|].kind.FileEntry? then 1 else 0
  {
    var files := set i | 0 <= i < |done| && done[i].kind.FileEntry?;
    assert (set i | 0 <= i < |entries| && entries[i].kind.FileEntry?) ==
      files + if entries[|done|].kind.FileEntry? then {|done|} else {};
  }

  lemma OneMoreDirectoryEntry(entries: seq<TarEntry>, done: seq<TarEntry>)
    requires entries != [] && done == entries[..|entries| - 1]
    ensures |set i | 0 <= i < |entries| && entries[i].kind == DirectoryEntry| ==
      |set i | 0 <= i < |done| && done[i].kind == DirectoryEntry| + if entries[|done|].kind == DirectoryEntry then 1 else 0
  {
    var directories := set i | 0 <= i < |done| && done[i].kind == DirectoryEntry;
    assert (set i | 0 <= i < |entries| && entries[i].kind == DirectoryEntry) ==
      directories + if entries[|done|].kind == DirectoryEntry then {|done|} else {};
  }

  /** One iteration: the next entry is extracted exactly when the entries so far, with it, are
      allowed and compatible; if it is not, no longer list is. */
  lemma NextEntry(entries: seq<TarEntry>, i: nat, tree: Tree, limits: Limits)
    requires i < |entries| && AllAllowed(entries[..i], limits) && Compatible(entries[..i])
    requires IsTreeOf(tree, entries[..i])
    requires forall j | 0 <= j < |entries| :: NonEmptyPath(entries[j])
    ensures var e := entries[i];
      var extracts := EntryAllowed(e, limits) && CountAll(entries[..i]).entries < limits.maxEntries && HasRoom(tree, e);
      && (extracts ==>
            && AllAllowed(entries[..i + 1], limits) && Compatible(entries[..i + 1])
            && IsTreeOf(Placed(tree, e), entries[..i + 1])
            && CountAll(entries[..i + 1]) == Counted(CountAll(entries[..i]), e))
      && (!extracts ==> !(AllAllowed(entries, limits) && Compatible(entries)))
  {
    var e, done := entries[i], entries[..i];
    assert entries[..i + 1] == done + [e] && entries[..i + 1][..i] == done;
    CountsEntries(done);
    if EntryAllowed(e, limits) {
      RoomMeansCompatible(tree, done, e);
      if HasRoom(tree, e) {
        PlacedIsTree(tree, done, e);
        OneMoreCompatible(done, e);
      } else {
        NeverCompatible(entries, i);
      }
    }
  }

  lemma OneMoreCompatible(done: seq<TarEntry>, e: TarEntry)
    requires Compatible(done) && e.path.Some?
    requires forall i | 0 <= i < |done| :: done[i].path.Some? && CanFollow(done[i], e)
    ensures Compatible(done + [e])
  {
  }

  lemma NeverCompatible(entries: seq<TarEntry>, i: nat)
    requires i < |entries| && entries[i].path.Some?
    requires exists j :: 0 <= j < i && entries[..i][j].path.Some? && !CanFollow(entries[..i][j], entries[i])
    ensures !Compatible(entries)
  {
    var j :| 0 <= j < i && entries[..i][j].path.Some? && !CanFollow(entries[..i][j], entries[i]);
    assert entries[j] == entries[..i][j];
  }

  /******* Inspection *******/

  method InspectTar(entries: seq<TarEntry>, limits: Limits, expandedBytes: nat) returns (r: Option<Inspection>)
    ensures r.Some? <==> Inspectable(entries, limits, expandedBytes)
    ensures r.Some? ==> r.value == CountAll(entries).(expandedBytes := expandedBytes)
  {
    var c := Inspection(0, 0, 0, 0);
    for i := 0 to |entries|
      invariant AllAllowed(entries[..i], limits) && c == CountAll(entries[..i])
    {
      CountsEntries(entries[..i]);
      assert entries[..i + 1] == entries[..i] + [entries[i]] && entries[..i + 1][..i] == entries[..i];
      if entries[i].path.None? {
        return None;
      }
      if c.entries + 1 > limits.maxEntries {
        return None;
      }
      match entries[i].kind {
        case FileEntry(size) =>
          if size > limits.maxFileBytes {
            return None;
          }
        case DirectoryEntry =>
        case OtherEntry =>
          return None;
      }
      c := Counted(c, entries[i]);
    }
    assert entries[..|entries|] == entries;
    if expandedBytes > limits.maxExpandedBytes {
      return None;
    }
    r := Some(c.(expandedBytes := expandedBytes));
  }

  /******* Listing pages *******/

  datatype EntryPage = EntryPage(entries: seq<TarEntry>, totalEntries: nat, nextOffset: Option<nat>)

  /** `list_tar_entries` on a stream that passes inspection: `limit` entries from `offset`. */
  method ListTarEntries(entries: seq<TarEntry>, limits: Limits, expandedBytes: nat, offset: nat, limit: nat)
    returns (r: Option<EntryPage>)
    ensures r.Some? <==>
      1 <= limit <= 500 && offset <= limits.maxEntries && Inspectable(entries, limits, expandedBytes)
    ensures r.Some? ==> r.value == PageAt(entries, offset, limit)
    ensures r.Some? ==> IsPage(r.value, entries, offset, limit)
  {
    if limit == 0 || limit > 500 || offset > limits.maxEntries {
      return None;
    }
    var inspected := InspectTar(entries, limits, expandedBytes);
    if inspected.None? {
      return None;
    }
    var selected: seq<TarEntry> := [];
    for i := 0 to |entries|
      invariant selected == Slice(entries[..i], offset, limit)
    {
      assert entries[..i + 1] == entries[..i] + [entries[i]];
      if i + 1 > offset && |selected| < limit {
        selected := selected + [entries[i]];
      }
    }
    assert entries[..|entries|] == entries;
    var through := offset + |selected|;
    r := Some(EntryPage(selected, |entries|, if through < |entries| then Some(through) else None));
  }

  function Slice<T>(s: seq<T>, offset: nat, limit: nat): seq<T> {
    if offset >= |s| then [] else if offset + limit <= |s| then s[offset..offset + limit] else s[offset..]
  }

  function PageAt(entries: seq<TarEntry>, offset: nat, limit: nat): EntryPage {
    var page := Slice(entries, offset, limit);
    EntryPage(page, |entries|, if offset + |page| < |entries| then Some(offset + |page|) else None)
  }

  /** Up to `limit` entries from `offset` on, the number of all entries, and where to go on if any
      are left. */
  ghost predicate IsPage(page: EntryPage, entries: seq<TarEntry>, offset: nat, limit: nat) {
    && page.totalEntries == |entries| && |page.entries| <= limit
    && (offset + limit < |entries| ==> |page.entries| == limit && page.nextOffset == Some(offset + limit))
    && (offset + limit >= |entries| ==>
          offset + |page.entries| == (if offset <= |entries| then |entries| else offset) && page.nextOffset == None)
    && forall i | 0 <= i < |page.entries| :: page.entries[i] == entries[offset + i]
  }

  /** Following the offsets from `offset` to the end. */
  function FollowPages(entries: seq<TarEntry>, offset: nat, limit: nat): seq<TarEntry>
    requires limit >= 1
    decreases |entries| - offset
  {
    var page := PageAt(entries, offset, limit);
    if page.nextOffset.None? then page.entries else page.entries + FollowPages(entries, page.nextOffset.value, limit)
  }

  /** The pages, one after the other, are the archive in its order, every entry once. */
  lemma {:induction false} PagesAreComplete(entries: seq<TarEntry>, offset: nat, limit: nat)
    requires limit >= 1 && offset <= |entries|
    ensures FollowPages(entries, offset, limit) == entries[offset..]
    decreases |entries| - offset
  {
    var page := PageAt(entries, offset, limit);
    if page.nextOffset.Some? {
      PagesAreComplete(entries, page.nextOffset.value, limit);
      assert entries[offset..] == entries[offset..offset + limit] + entries[offset + limit..];
    }
  }
}
