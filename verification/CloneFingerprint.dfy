/** A cloned tree has the fingerprint of the tree it was cloned from. */
module CloneFingerprint {
  import opened Lexicographic
  import opened Paths
  import opened FileTrees
  import CloneLadder
  import opened Fingerprint

  /** The tree at and below a path. */
  function Subtree(tree: Tree, root: Path): (sub: Tree)
    ensures forall p :: p in sub <==> root + p in tree
    ensures forall p :: p in sub ==> sub[p] == tree[root + p]
  {
    assert forall q :: q in tree && root <= q ==> q == root + q[|root|..];
    map q | q in tree && root <= q :: q[|root|..] := tree[q]
  }

  /** No pipe, socket or device, which a clone leaves out. */
  ghost predicate NoSpecials(tree: Tree) {
    forall p :: Reached(tree, p) ==> !tree[p].Special?
  }

  /** Links that are recorded by the file they lead to lead to one like it, wherever they stand. */
  ghost predicate LeadAlike(from: Tree, to: Tree) {
    forall p :: p in from && p in to && from[p].Link? && to[p].Link? && (from[p].lead.ToFile? || to[p].lead.ToFile?) ==> to[p].lead == from[p].lead
  }

  lemma ComesIsReached(tree: Tree, src: Path, p: Path)
    ensures CloneLadder.Comes(tree, src, src + p) <==> Reached(Subtree(tree, src), p)
  {
    var q, sub := src + p, Subtree(tree, src);
    if CloneLadder.Comes(tree, src, q) {
      forall k | 0 <= k < |p| ensures Readable(sub, p[..k]) {
        assert src + p[..k] == q[..|src| + k];
      }
    }
    if Reached(sub, p) {
      forall k | |src| <= k < |q| ensures Readable(tree, q[..k]) {
        assert src + p[..k - |src|] == q[..k];
        assert Readable(sub, p[..k - |src|]);
      }
    }
  }

  /** The clone has the same reached entries, but for those it leaves out. */
  lemma {:induction false} SameReached(before: Tree, src: Path, dst: Path, after: Tree, p: Path)
    requires CloneLadder.Mirrors(before, src, dst, after)
    ensures Reached(Subtree(after, dst), p) <==> Reached(Subtree(before, src), p) && CloneLadder.Kept(before[src + p])
    ensures Reached(Subtree(after, dst), p) ==> CloneLadder.SameEntry(before[src + p], after[dst + p])
    decreases |p|
  {
    var from, to := Subtree(before, src), Subtree(after, dst);
    assert CloneLadder.MirrorAt(before, src, dst, after, dst + p);
    assert CloneLadder.SourceOf(src, dst, dst + p) == src + p;
    ComesIsReached(before, src, p);
    if Reached(from, p) {
      forall k | 0 <= k < |p| ensures Readable(to, p[..k]) {
        assert Reached(from, p[..k]) by {
          assert forall j :: 0 <= j < k ==> p[..k][..j] == p[..j];
          assert Readable(from, p[..k]);
        }
        SameReached(before, src, dst, after, p[..k]);
        assert Readable(from, p[..k]) && before[src + p[..k]] == from[p[..k]];
      }
    }
  }

  lemma SameListed(before: Tree, src: Path, dst: Path, after: Tree, p: Path)
    requires CloneLadder.Mirrors(before, src, dst, after)
    requires NoSpecials(Subtree(before, src)) && LeadAlike(Subtree(before, src), Subtree(after, dst))
    ensures Listed(Subtree(before, src), p) <==> Listed(Subtree(after, dst), p)
    ensures Listed(Subtree(before, src), p) ==> RecordAt(Subtree(before, src), p) == RecordAt(Subtree(after, dst), p)
  {
    SameReached(before, src, dst, after, p);
  }

  lemma SameListing(from: Tree, to: Tree, records: seq<Record>)
    requires forall p :: Listed(from, p) <==> Listed(to, p)
    requires forall p :: Listed(from, p) ==> RecordAt(from, p) == RecordAt(to, p)
    requires IsListing(from, records)
    ensures IsListing(to, records)
  {
    var paths :| Enumerates(from, paths) && multiset(records) == multiset(RecordsAt(from, paths));
    assert Enumerates(to, paths);
    assert RecordsAt(to, paths) == RecordsAt(from, paths);
  }

  /** Whatever rung copied each file, the clone of a tree without pipes or devices has the fingerprint of its source. */
  lemma CloneKeepsFingerprint(before: Tree, src: Path, dst: Path, after: Tree, a: seq<Record>, b: seq<Record>)
    requires CloneLadder.Mirrors(before, src, dst, after)
    requires NoSpecials(Subtree(before, src)) && LeadAlike(Subtree(before, src), Subtree(after, dst))
    requires IsListing(Subtree(before, src), a) && IsListing(Subtree(after, dst), b)
    ensures a == b
  {
    var from, to := Subtree(before, src), Subtree(after, dst);
    forall p ensures Listed(from, p) <==> Listed(to, p)
      ensures Listed(from, p) ==> RecordAt(from, p) == RecordAt(to, p)
    {
      SameListed(before, src, dst, after, p);
    }
    SameListing(from, to, a);
    ListingUnique(to, a, b);
  }
}
