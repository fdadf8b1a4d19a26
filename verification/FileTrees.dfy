/** A filesystem subtree as a map from relative paths to entries. */
module FileTrees {
  import opened Paths

  type Byte = bv8

  /** Where a symbolic link leads once followed. */
  datatype Lead = Nowhere | ToDirectory | ToFile(size: nat, mtime: nat)

  datatype Node =
    | File(data: seq<Byte>, mtime: nat)
    | Directory(readable: bool, mtime: nat)
    | Link(target: string, lead: Lead)
    | Special(size: nat, mtime: nat)   // a pipe, socket or device
    | Vanished                         // listed, but gone when looked at

  type Tree = map<Path, Node>

  predicate Readable(tree: Tree, d: Path) {
    d in tree && tree[d].Directory? && tree[d].readable
  }

  /** What listing a directory returns. */
  function Children(tree: Tree, d: Path): (c: set<Path>)
    ensures forall p :: p in c <==> p in tree && |p| == |d| + 1 && d <= p
  {
    set p | p in tree && |p| == |d| + 1 && d <= p
  }

  /** The path is reached by listing directories, never through a link. */
  predicate Reached(tree: Tree, p: Path) {
    p in tree && forall k :: 0 <= k < |p| ==> Readable(tree, p[..k])
  }

  lemma ChildReached(tree: Tree, d: Path, p: Path)
    requires Reached(tree, d) && Readable(tree, d) && p in Children(tree, d)
    ensures Reached(tree, p) && p[..|d|] == d
  {
    forall k | 0 <= k < |p| ensures Readable(tree, p[..k]) {
      assert p[..|d|] == d;
      assert k < |d| ==> p[..k] == d[..k];
    }
  }

  lemma ParentReached(tree: Tree, p: Path)
    requires Reached(tree, p) && p != []
    ensures Reached(tree, p[..|p| - 1]) && Readable(tree, p[..|p| - 1]) && p in Children(tree, p[..|p| - 1])
  {
    var d := p[..|p| - 1];
    assert forall k :: 0 <= k < |d| ==> d[..k] == p[..k];
  }
}
