/** Normalising the selected capture roots: nested selections collapse into their outermost. */
module CaptureRoots {
  import opened Ordering
  import opened RemotePaths

  /** `parent` contains `child`, decided on the path strings. */
  predicate Covers(parent: string, child: string) {
    || parent == child
    || parent == "/"
    || (parent <= child && "/" <= child[|parent|..])
  }

  /** On valid paths, covering is exactly being a prefix segment by segment. */
  lemma CoversIsSegmentPrefix(p: string, c: string)
    requires ValidRemotePath(p) && ValidRemotePath(c)
    ensures Covers(p, c) <==> Segments(p) <= Segments(c)
  {
    SegmentsOf(p);
    SegmentsOf(c);
    if p != c && p != "/" {
      if Covers(p, c) {
        CoveredHasPrefix(p, c);
      }
      if Segments(p) <= Segments(c) {
        PrefixCovers(p, c);
      }
    }
  }

  lemma CoveredHasPrefix(p: string, c: string)
    requires ValidRemotePath(p) && ValidRemotePath(c) && p != "/" && p != c && Covers(p, c)
    ensures Segments(p) <= Segments(c)
  {
    var tail := c[|p|..][1..];
    assert c == p + "/" + tail;
    SplitAt(p, tail);
    assert Split(c) == Split(p) + Split(tail);
    SegmentsOf(p);
    SegmentsOf(c);
    assert |c| > 1;
  }

  lemma PrefixCovers(p: string, c: string)
    requires ValidRemotePath(p) && ValidRemotePath(c) && p != "/" && p != c && Segments(p) <= Segments(c)
    ensures Covers(p, c)
  {
    SegmentsOf(p);
    SegmentsOf(c);
    if Segments(p) == Segments(c) {
      SegmentsAreInjective(p, c);
    } else {
      var rest := Segments(c)[|Segments(p)|..];
      assert Split(c) == Split(p) + rest;
      PathExtends(p, c, rest);
      assert c[|p|..] == "/" + Join(rest);
    }
  }

  lemma PathExtends(p: string, c: string, rest: seq<string>)
    requires rest != [] && Split(c) == Split(p) + rest
    ensures c == p + ("/" + Join(rest))
  {
    JoinAppend(Split(p), rest);
    JoinSplit(p);
    JoinSplit(c);
  }

  /** Covering is a partial order on valid paths. */
  lemma CoversIsPartialOrder(p: string, q: string, r: string)
    requires ValidRemotePath(p) && ValidRemotePath(q) && ValidRemotePath(r)
    ensures Covers(p, p)
    ensures Covers(p, q) && Covers(q, p) ==> p == q
    ensures Covers(p, q) && Covers(q, r) ==> Covers(p, r)
  {
    CoversIsSegmentPrefix(p, q);
    CoversIsSegmentPrefix(q, p);
    CoversIsSegmentPrefix(q, r);
    CoversIsSegmentPrefix(p, r);
    if Segments(p) == Segments(q) {
      SegmentsAreInjective(p, q);
    }
  }

  /** Two paths that contain a third are themselves nested. */
  lemma CoversOfOneAreNested(p: string, q: string, c: string)
    requires ValidRemotePath(p) && ValidRemotePath(q) && ValidRemotePath(c)
    requires Covers(p, c) && Covers(q, c)
    ensures Covers(p, q) || Covers(q, p)
  {
    CoversIsSegmentPrefix(p, c);
    CoversIsSegmentPrefix(q, c);
    CoversIsSegmentPrefix(p, q);
    CoversIsSegmentPrefix(q, p);
    if |Segments(p)| <= |Segments(q)| {
      assert Segments(p) == Segments(c)[..|Segments(p)|] == Segments(q)[..|Segments(p)|];
    } else {
      assert Segments(q) == Segments(c)[..|Segments(q)|] == Segments(p)[..|Segments(q)|];
    }
  }

  /******* Normalisation *******/

  /** The order of processing: shorter paths first, then byte order. */
  predicate RootLe(left: string, right: string) {
    || Utf8Length(left) < Utf8Length(right)
    || (Utf8Length(left) == Utf8Length(right) && StringLe(left, right))
  }

  lemma RootLeIsTotalOrder()
    ensures TotalOrder(RootLe)
  {
    forall x: string, y: string
      ensures RootLe(x, y) || RootLe(y, x)
      ensures RootLe(x, y) && RootLe(y, x) ==> x == y
    {
      StringLeTotal(x, y);
    }
    forall x: string, y: string, z: string | RootLe(x, y) && RootLe(y, z) ensures RootLe(x, z) {
      if Utf8Length(x) == Utf8Length(y) == Utf8Length(z) {
        StringLeTransitive(x, y, z);
      }
    }
  }

  ghost predicate AllValid(paths: seq<string>) { forall p | p in paths :: ValidRemotePath(p) }

  /** No other path of the selection contains `p`. */
  ghost predicate Minimal(p: string, roots: seq<string>) {
    forall q | q in roots && Covers(q, p) :: q == p
  }

  /** The outermost paths of a selection, each once, in processing order. */
  ghost predicate IsNormalForm(roots: seq<string>, kept: seq<string>) {
    && Sorted(RootLe, kept) && NoRepeats(kept)
    && forall p :: p in kept <==> p in roots && Minimal(p, roots)
  }

  datatype CoveredPath = CoveredPath(path: string, coveredBy: string)

  ghost predicate CoveredBySome(kept: seq<string>, p: string) {
    exists k :: k in kept && Covers(k, p)
  }

  /** What holds when the first `i` paths have been processed. */
  ghost predicate Progress(roots: seq<string>, sorted: seq<string>, i: nat, kept: seq<string>)
    requires i <= |sorted|
  {
    && Sorted(RootLe, kept) && NoRepeats(kept)
    && (forall p :: p in kept <==> p in sorted[..i] && Minimal(p, roots))
    && (forall p | p in sorted[..i] :: CoveredBySome(kept, p))
  }

  method NormalizeRoots(roots: seq<string>) returns (kept: seq<string>, warnings: seq<CoveredPath>)
    requires AllValid(roots)
    ensures IsNormalForm(roots, kept)
    ensures |kept| + |warnings| == |roots|
    ensures WarningsFit(roots, kept, warnings)
    ensures Accounted(kept, warnings, roots)
    ensures forall p | p in roots :: CoveredBySome(kept, p)
  {
    var sorted := Sort(RootLe, roots);
    SortedRoots(roots);
    kept, warnings := [], [];
    for i := 0 to |sorted|
      invariant Normalizing(roots, sorted, i, kept, warnings)
    {
      kept, warnings := NormalizeNext(roots, sorted, i, kept, warnings);
    }
    AllProcessed(roots, sorted, kept);
    assert sorted[..|sorted|] == sorted;
  }

  /** What holds of the two lists when the first `i` paths have been processed. */
  ghost predicate Normalizing(
    roots: seq<string>, sorted: seq<string>, i: nat, kept: seq<string>, warnings: seq<CoveredPath>)
    requires i <= |sorted|
  {
    && Progress(roots, sorted, i, kept) && |kept| + |warnings| == i
    && WarningsFit(roots, kept, warnings) && Accounted(kept, warnings, sorted[..i])
  }

  /** The next path is warned about if a kept root contains it, and kept otherwise. */
  method NormalizeNext(roots: seq<string>, sorted: seq<string>, i: nat, before: seq<string>, warned: seq<CoveredPath>)
    returns (kept: seq<string>, warnings: seq<CoveredPath>)
    requires AllValid(roots) && i < |sorted| && Sorted(RootLe, sorted) && forall p :: p in sorted <==> p in roots
    requires Normalizing(roots, sorted, i, before, warned)
    ensures Normalizing(roots, sorted, i + 1, kept, warnings)
  {
    kept, warnings := before, warned;
    var path := sorted[i];
    assert path in sorted;
    assert sorted[..i + 1] == sorted[..i] + [path];
    var parent := Find(kept, path);
    if parent < |kept| {
      SkipStep(roots, sorted, i, kept, kept[parent]);
      AddWarning(roots, kept, warnings, CoveredPath(path, kept[parent]));
      AccountWarned(kept, warnings, sorted[..i], CoveredPath(path, kept[parent]));
      warnings := warnings + [CoveredPath(path, kept[parent])];
    } else {
      KeepStep(roots, sorted, i, kept);
      KeepWarnings(roots, kept, path, warnings);
      AccountKept(kept, warnings, sorted[..i], path);
      kept := kept + [path];
    }
  }

  /** The paths that are warned about. */
  function Warned(warnings: seq<CoveredPath>): (paths: seq<string>)
    ensures |paths| == |warnings| && forall i | 0 <= i < |paths| :: paths[i] == warnings[i].path
  {
    seq(|warnings|, i requires 0 <= i < |warnings| => warnings[i].path)
  }

  /** Every path of `done` was either kept or warned about, as often as it occurs. */
  predicate Accounted(kept: seq<string>, warnings: seq<CoveredPath>, done: seq<string>) {
    multiset(kept) + multiset(Warned(warnings)) == multiset(done)
  }

  lemma AccountWarned(kept: seq<string>, warnings: seq<CoveredPath>, done: seq<string>, w: CoveredPath)
    requires Accounted(kept, warnings, done)
    ensures Accounted(kept, warnings + [w], done + [w.path])
  {
    assert Warned(warnings + [w]) == Warned(warnings) + [w.path];
  }

  lemma AccountKept(kept: seq<string>, warnings: seq<CoveredPath>, done: seq<string>, path: string)
    requires Accounted(kept, warnings, done)
    ensures Accounted(kept + [path], warnings, done + [path])
  {
  }

  lemma SortedRoots(roots: seq<string>)
    ensures var sorted := Sort(RootLe, roots);
      Sorted(RootLe, sorted) && |sorted| == |roots| && multiset(sorted) == multiset(roots) && forall p :: p in sorted <==> p in roots
  {
    RootLeIsTotalOrder();
    SortIsSorted(RootLe, roots);
    SameMultisetSameElements(Sort(RootLe, roots), roots);
  }

  lemma AllProcessed(roots: seq<string>, sorted: seq<string>, kept: seq<string>)
    requires (forall p :: p in sorted <==> p in roots) && Progress(roots, sorted, |sorted|, kept)
    ensures IsNormalForm(roots, kept) && forall p | p in roots :: CoveredBySome(kept, p)
  {
    assert sorted[..|sorted|] == sorted;
  }

  /** Every warning names a selected path and a kept root that contains it. */
  predicate WarningsFit(roots: seq<string>, kept: seq<string>, warnings: seq<CoveredPath>) {
    forall i | 0 <= i < |warnings| ::
      warnings[i].path in roots && warnings[i].coveredBy in kept && Covers(warnings[i].coveredBy, warnings[i].path)
  }

  lemma AddWarning(roots: seq<string>, kept: seq<string>, warnings: seq<CoveredPath>, w: CoveredPath)
    requires WarningsFit(roots, kept, warnings)
    requires w.path in roots && w.coveredBy in kept && Covers(w.coveredBy, w.path)
    ensures WarningsFit(roots, kept, warnings + [w])
  {
  }

  lemma KeepWarnings(roots: seq<string>, kept: seq<string>, path: string, warnings: seq<CoveredPath>)
    requires WarningsFit(roots, kept, warnings)
    ensures WarningsFit(roots, kept + [path], warnings)
  {
  }

  lemma SkipStep(roots: seq<string>, sorted: seq<string>, i: nat, kept: seq<string>, parent: string)
    requires AllValid(roots) && i < |sorted| && Sorted(RootLe, sorted)
    requires forall p :: p in sorted <==> p in roots
    requires Progress(roots, sorted, i, kept) && parent in kept && Covers(parent, sorted[i])
    ensures Progress(roots, sorted, i + 1, kept)
  {
    var path := sorted[i];
    assert CoveredBySome(kept, path);
    Decides(roots, sorted, i, kept);
    OneMoreDone(sorted, i);
    forall p ensures p in kept <==> p in sorted[..i + 1] && Minimal(p, roots) {
    }
  }

  lemma OneMoreDone(sorted: seq<string>, i: nat)
    requires i < |sorted|
    ensures forall p :: p in sorted[..i + 1] <==> p in sorted[..i] || p == sorted[i]
  {
    assert sorted[..i + 1] == sorted[..i] + [sorted[i]];
  }

  lemma KeepStep(roots: seq<string>, sorted: seq<string>, i: nat, kept: seq<string>)
    requires AllValid(roots) && i < |sorted| && Sorted(RootLe, sorted)
    requires forall p :: p in sorted <==> p in roots
    requires Progress(roots, sorted, i, kept) && !CoveredBySome(kept, sorted[i])
    ensures Progress(roots, sorted, i + 1, kept + [sorted[i]])
  {
    var path := sorted[i];
    assert sorted[..i + 1] == sorted[..i] + [path];
    Decides(roots, sorted, i, kept);
    forall k | k in kept ensures RootLe(k, path) && k != path {
      ComesBefore(sorted, i, k);
      assert Covers(path, path);
    }
    KeptInOrder(kept, path);
    StillCovered(kept, sorted[..i], path);
  }

  lemma ComesBefore(sorted: seq<string>, i: nat, k: string)
    requires i < |sorted| && Sorted(RootLe, sorted) && k in sorted[..i]
    ensures RootLe(k, sorted[i])
  {
    var j :| 0 <= j < i && sorted[..i][j] == k;
    assert sorted[j] == k;
  }

  lemma KeptInOrder(kept: seq<string>, path: string)
    requires Sorted(RootLe, kept) && NoRepeats(kept) && forall k | k in kept :: RootLe(k, path) && k != path
    ensures Sorted(RootLe, kept + [path]) && NoRepeats(kept + [path])
  {
    assert forall j | 0 <= j < |kept| :: kept[j] in kept;
  }

  lemma StillCovered(kept: seq<string>, done: seq<string>, path: string)
    requires forall p | p in done :: CoveredBySome(kept, p)
    ensures forall p | p in done + [path] :: CoveredBySome(kept + [path], p)
  {
    forall p | p in done + [path] ensures CoveredBySome(kept + [path], p) {
      if p in done {
        var k :| k in kept && Covers(k, p);
        assert k in kept + [path];
      } else {
        assert path in kept + [path] && Covers(path, p);
      }
    }
  }

  /** The first kept root that contains `path`, or the length of `kept`. */
  method Find(kept: seq<string>, path: string) returns (k: nat)
    ensures k <= |kept| && (k < |kept| ==> Covers(kept[k], path))
    ensures forall j | 0 <= j < k :: !Covers(kept[j], path)
    ensures k == |kept| ==> !CoveredBySome(kept, path)
  {
    k := 0;
    while k < |kept| && !Covers(kept[k], path)
      invariant k <= |kept| && forall j | 0 <= j < k :: !Covers(kept[j], path)
    {
      k := k + 1;
    }
  }

  /** When a path's turn comes, some kept root contains it exactly if it is not minimal or has
      been kept already. */
  lemma Decides(roots: seq<string>, sorted: seq<string>, i: nat, kept: seq<string>)
    requires AllValid(roots) && i < |sorted| && Sorted(RootLe, sorted)
    requires forall p :: p in sorted <==> p in roots
    requires Progress(roots, sorted, i, kept)
    ensures CoveredBySome(kept, sorted[i]) <==> !Minimal(sorted[i], roots) || sorted[i] in kept
  {
    var path := sorted[i];
    assert path in sorted && Covers(path, path);
    if !Minimal(path, roots) {
      var q :| q in roots && Covers(q, path) && q != path;
      OuterCameFirst(roots, sorted, i, q);
      CoverPassesOn(roots, sorted, i, kept, q);
    } else if CoveredBySome(kept, path) {
      var k :| k in kept && Covers(k, path);
      assert k in sorted[..i] && k in sorted && k in roots;
    }
  }

  /** A path that properly contains another one is shorter, so it is processed earlier. */
  lemma OuterCameFirst(roots: seq<string>, sorted: seq<string>, i: nat, q: string)
    requires AllValid(roots) && i < |sorted| && Sorted(RootLe, sorted)
    requires forall p :: p in sorted <==> p in roots
    requires q in roots && Covers(q, sorted[i]) && q != sorted[i]
    ensures q in sorted[..i]
  {
    assert sorted[i] in sorted;
    ProperCoverIsShorter(q, sorted[i]);
    var j :| 0 <= j < |sorted| && sorted[j] == q;
    assert j < i;
    assert sorted[..i][j] == q;
  }

  /** Whatever contains a processed path contains what that path contains. */
  lemma CoverPassesOn(roots: seq<string>, sorted: seq<string>, i: nat, kept: seq<string>, q: string)
    requires AllValid(roots) && i < |sorted| && (forall p :: p in sorted <==> p in roots)
    requires Progress(roots, sorted, i, kept) && q in sorted[..i] && Covers(q, sorted[i])
    ensures CoveredBySome(kept, sorted[i])
  {
    assert sorted[i] in sorted && q in sorted;
    var k :| k in kept && Covers(k, q);
    assert k in sorted[..i] && k in sorted;
    CoversIsPartialOrder(k, q, sorted[i]);
  }

  lemma ProperCoverIsShorter(q: string, p: string)
    requires ValidRemotePath(q) && ValidRemotePath(p) && Covers(q, p) && q != p
    ensures Utf8Length(q) < Utf8Length(p)
  {
    if q == "/" {
      assert "/" <= p;
    }
    assert q <= p && p == q + p[|q|..];
    Utf8LengthOfConcatenation(q, p[|q|..]);
  }

  /** The result depends only on which paths were selected, not on their order or repetition. */
  lemma NormalFormIsCanonical(roots: seq<string>, kept: seq<string>, others: seq<string>, alsoKept: seq<string>)
    requires IsNormalForm(roots, kept) && IsNormalForm(others, alsoKept)
    requires forall p :: p in roots <==> p in others
    ensures kept == alsoKept
  {
    forall p ensures p in kept <==> p in alsoKept {
      assert Minimal(p, roots) <==> Minimal(p, others);
    }
    SameDistinctElements(kept, alsoKept);
    RootLeIsTotalOrder();
    SortedIsUnique(RootLe, kept, alsoKept);
  }

  /** Normalising a normal form changes nothing. */
  lemma NormalFormIsIdempotent(roots: seq<string>, kept: seq<string>, again: seq<string>)
    requires IsNormalForm(roots, kept) && IsNormalForm(kept, again)
    ensures again == kept
  {
    forall p | p in kept ensures Minimal(p, kept) {
      assert forall q | q in kept :: q in roots;
    }
    assert IsNormalForm(kept, kept);
    NormalFormIsCanonical(kept, again, kept, kept);
  }

  /** Every selected path lies under exactly one kept root. */
  lemma ExactlyOneKeptRoot(roots: seq<string>, kept: seq<string>, p: string, k: string, l: string)
    requires AllValid(roots) && IsNormalForm(roots, kept)
    requires p in roots && k in kept && l in kept && Covers(k, p) && Covers(l, p)
    ensures k == l
  {
    CoversOfOneAreNested(k, l, p);
  }
}
