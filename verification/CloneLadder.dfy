/** Copying files and trees by the best of three rungs, each of which may fail part-way. */
module CloneLadder {
  import opened Collections
  import opened Paths
  import opened FileTrees

  datatype Tier = Ficlone | CopyFileRange | Copy

  /** How a system call ends: with a count of bytes, or with an error that may be one to degrade on. */
  datatype Call = Moved(bytes: nat) | Error(degrades: bool)

  /** The system calls of one copy: the clone request, and the n-th range copy, read and write. */
  datatype Kernel = Kernel(clone: Call, range: nat -> Call, read: nat -> Call, write: nat -> Call)

  const CHUNK := 0x10_0000

  function AtMost(n: nat, limit: nat): nat {
    if n < limit then n else limit
  }

  /** A read or write of a nonempty buffer moves at least one byte, and at most what is asked for. */
  function Some(n: nat, limit: nat): (m: nat)
    requires limit > 0
    ensures 1 <= m <= limit
  {
    if n == 0 then 1 else AtMost(n, limit)
  }

  /** `data` written over `content` at an offset inside it. */
  function Written(content: seq<Byte>, offset: nat, data: seq<Byte>): seq<Byte>
    requires offset <= |content|
  {
    content[..offset] + data + if offset + |data| <= |content| then content[offset + |data|..] else []
  }

  lemma WriteAppends(src: seq<Byte>, offset: nat, n: nat)
    requires offset + n <= |src|
    ensures Written(src[..offset], offset, src[offset..offset + n]) == src[..offset + n]
  {
  }

  /** An open file: its bytes, and where the next plain write goes. */
  class OpenFile {
    var content: seq<Byte>
    var position: nat

    constructor (content: seq<Byte>)
      ensures this.content == content && position == 0
    {
      this.content, position := content, 0;
    }

    method Truncate()
      modifies this`content
      ensures content == []
    {
      content := [];
    }

    method WriteAt(offset: nat, data: seq<Byte>)
      requires offset <= |content|
      modifies this`content
      ensures content == Written(old(content), offset, data)
    {
      content := Written(content, offset, data);
    }

    /** The kernel's range copy, repeated; `done` when every byte was copied. */
    method CopyRanges(src: seq<Byte>, kernel: Kernel) returns (raised: bool, done: bool)
      requires content == []
      modifies this`content
      ensures done ==> content == src
      ensures raised ==> !done && exists n :: kernel.range(n) == Error(false)
    {
      raised, done := false, false;
      var offset, n := 0, 0;
      while offset < |src|
        invariant offset <= |src| && content == src[..offset] && !raised && !done
        decreases |src| - offset
      {
        match kernel.range(n) {
          case Error(degrades) =>
            raised := !degrades;
            return;
          case Moved(bytes) =>
            var written := AtMost(bytes, |src| - offset);
            if written == 0 {
              return;
            }
            WriteAppends(src, offset, written);
            WriteAt(offset, src[offset..offset + written]);
            offset := offset + written;
        }
        n := n + 1;
      }
      done := true;
    }

    /** Write one chunk, however little each call takes. */
    method WriteAll(chunk: seq<Byte>, kernel: Kernel, start: nat) returns (raised: bool, writes: nat)
      requires position == |content|
      modifies this
      ensures !raised ==> content == old(content) + chunk && position == |content|
      ensures raised ==> exists n :: kernel.write(n).Error?
    {
      raised, writes := false, start;
      var left := chunk;
      while left != []
        invariant position == |content| && |left| <= |chunk|
        invariant content == old(content) + chunk[..|chunk| - |left|] && left == chunk[|chunk| - |left|..]
        decreases |left|
      {
        match kernel.write(writes) {
          case Error(_) =>
            raised := true;
            return;
          case Moved(bytes) =>
            var taken := Some(bytes, |left|);
            ghost var at := |chunk| - |left|;
            assert chunk[..at] + left[..taken] == chunk[..at + taken];
            WriteAt(position, left[..taken]);
            position := position + taken;
            left := left[taken..];
        }
        writes := writes + 1;
      }
    }

    /** Plain reads and writes from the start, until a read finds the end. */
    method CopyPlainly(src: seq<Byte>, kernel: Kernel) returns (raised: bool)
      requires content == []
      modifies this
      ensures !raised ==> content == src
      ensures raised ==> exists n :: kernel.read(n).Error? || kernel.write(n).Error?
    {
      raised := false;
      position := 0;
      var offset, turn, writes := 0, 0, 0;
      while true
        invariant offset <= |src| && content == src[..offset] && position == |content| && !raised
        decreases |src| - offset
      {
        match kernel.read(turn) {
          case Error(_) =>
            raised := true;
            return;
          case Moved(bytes) =>
            if offset == |src| {
              return;
            }
            var n := Some(bytes, AtMost(CHUNK, |src| - offset));
            var chunk := src[offset..offset + n];
            raised, writes := WriteAll(chunk, kernel, writes);
            if raised {
              return;
            }
            assert src[..offset] + chunk == src[..offset + n];
            offset := offset + n;
        }
        turn := turn + 1;
      }
    }

    /**
      * Fill a freshly truncated file from an unchanged source, trying the given rung first. Whatever
      * fails on the way, a normal return leaves the source's bytes; errors that only mean that a
      * rung is not available never surface.
      */
    method CopyFd(src: seq<Byte>, tier: Tier, hasRange: bool, kernel: Kernel) returns (raised: bool)
      requires content == []
      modifies this
      ensures !raised ==> content == src
      ensures raised ==> (exists n :: kernel.range(n) == Error(false)) || exists n :: kernel.read(n).Error? || kernel.write(n).Error?
    {
      raised := false;
      if tier.Ficlone? {
        if kernel.clone.Moved? {
          content := src;
          return;
        }
        Truncate();
      }
      if !tier.Copy? && hasRange {
        var done;
        raised, done := CopyRanges(src, kernel);
        if raised || done {
          return;
        }
        Truncate();
      }
      raised := CopyPlainly(src, kernel);
    }
  }

  // Whole trees.

  /** Pipes, sockets and devices are not copied. */
  predicate Kept(node: Node) {
    node.File? || node.Directory? || node.Link?
  }

  /** A faithful copy: bytes and time of a file, mode and time of a directory, target of a link. */
  predicate SameEntry(a: Node, b: Node) {
    match a
    case File(data, mtime) => b == File(data, mtime)
    case Directory(readable, mtime) => b == Directory(readable, mtime)
    case Link(target, _) => b.Link? && b.target == target
    case _ => false
  }

  /** `q` is reached from `src` by listing directories. */
  predicate Comes(tree: Tree, src: Path, q: Path) {
    src <= q && q in tree && forall k :: |src| <= k < |q| ==> Readable(tree, q[..k])
  }

  function SourceOf(src: Path, dst: Path, p: Path): Path
    requires dst <= p
  {
    src + p[|dst|..]
  }

  predicate MirrorAt(before: Tree, src: Path, dst: Path, after: Tree, p: Path)
    requires dst <= p
  {
    var q := SourceOf(src, dst, p);
    && (p in after <==> Comes(before, src, q) && Kept(before[q]))
    && (p in after ==> SameEntry(before[q], after[p]))
  }

  /** What stands at and below the destination is exactly the copy of what comes from the source. */
  ghost predicate Mirrors(before: Tree, src: Path, dst: Path, after: Tree) {
    forall p :: dst <= p ==> MirrorAt(before, src, dst, after, p)
  }

  /** The same entry, but for the time of a directory. */
  predicate Touched(a: Node, b: Node) {
    if a.Directory? then b.Directory? && b.readable == a.readable else b == a
  }

  /** Outside the destination nothing changes, save the time of the directory it is in. */
  ghost predicate Aside(before: Tree, dst: Path, after: Tree) {
    forall p :: !(dst <= p) ==>
                  && (p in after <==> p in before)
                  && (p in before ==> if p == Parent(dst) then Touched(before[p], after[p]) else after[p] == before[p])
  }

  ghost predicate Free(tree: Tree, dst: Path) {
    forall p :: dst <= p ==> p !in tree
  }

  predicate PartAt(before: Tree, src: Path, dst: Path, after: Tree, done: set<Path>, p: Path)
    requires dst < p
  {
    var c, d := src + [p[|dst|]], dst + [p[|dst|]];
    if c in done then d <= p && MirrorAt(before, c, d, after, p) else p !in after
  }

  /** A directory copied up to some of its children. */
  ghost predicate PartMirrors(before: Tree, src: Path, dst: Path, after: Tree, done: set<Path>) {
    && dst in after && after[dst].Directory? && after[dst].readable
    && forall p :: dst < p ==> PartAt(before, src, dst, after, done, p)
  }

  lemma SourceSplit(src: Path, dst: Path, p: Path)
    requires dst < p
    ensures dst + [p[|dst|]] <= p && SourceOf(src, dst, p) == SourceOf(src + [p[|dst|]], dst + [p[|dst|]], p)
    ensures src + [p[|dst|]] <= SourceOf(src, dst, p)
  {
  }

  lemma ComesSplit(tree: Tree, src: Path, c: Path, q: Path)
    requires src <= c <= q && |c| == |src| + 1
    ensures Comes(tree, src, q) <==> Readable(tree, src) && c in Children(tree, src) && Comes(tree, c, q)
  {
    assert q[..|src|] == src && q[..|c|] == c;
    if Readable(tree, src) && Comes(tree, c, q) {
      forall k | |src| <= k < |q| ensures Readable(tree, q[..k]) {
        assert k == |src| || |c| <= k;
      }
    }
    if Comes(tree, src, q) {
      assert Readable(tree, q[..|src|]);
      assert if |c| < |q| then Readable(tree, q[..|c|]) else c == q;
      assert Comes(tree, c, q);
    }
  }

  /** All children copied, the directory is. */
  lemma PartComplete(before: Tree, src: Path, dst: Path, after: Tree)
    requires PartMirrors(before, src, dst, after, Children(before, src)) && Readable(before, src)
    ensures forall p :: dst < p ==> MirrorAt(before, src, dst, after, p)
  {
    forall p | dst < p ensures MirrorAt(before, src, dst, after, p) {
      assert PartAt(before, src, dst, after, Children(before, src), p);
      SourceSplit(src, dst, p);
      ComesSplit(before, src, src + [p[|dst|]], SourceOf(src, dst, p));
    }
  }

  /** What comes from a source depends on the entries below it only. */
  lemma ComesSame(t1: Tree, t2: Tree, c: Path, q: Path)
    requires forall p :: c <= p ==> (p in t1 <==> p in t2) && (p in t1 ==> t1[p] == t2[p])
    ensures Comes(t1, c, q) <==> Comes(t2, c, q)
  {
    if c <= q {
      assert forall k :: |c| <= k < |q| ==> c <= q[..k];
    }
  }

  lemma MirrorSame(t1: Tree, t2: Tree, c: Path, d: Path, after: Tree, p: Path)
    requires d <= p && MirrorAt(t1, c, d, after, p)
    requires forall p :: c <= p ==> (p in t1 <==> p in t2) && (p in t1 ==> t1[p] == t2[p])
    ensures MirrorAt(t2, c, d, after, p)
  {
    ComesSame(t1, t2, c, SourceOf(c, d, p));
  }

  /** Copying one more child. */
  lemma PartNext(before: Tree, src: Path, dst: Path, t1: Tree, t2: Tree, done: set<Path>, name: Component)
    requires PartMirrors(before, src, dst, t1, done)
    requires forall p :: src <= p ==> (p in t1 <==> p in before) && (p in before ==> t1[p] == before[p])
    requires Mirrors(t1, src + [name], dst + [name], t2) && Aside(t1, dst + [name], t2)
    ensures PartMirrors(before, src, dst, t2, done + {src + [name]})
  {
    var c, d := src + [name], dst + [name];
    assert Parent(d) == dst && !(d <= dst);
    forall p | dst < p ensures PartAt(before, src, dst, t2, done + {c}, p) {
      assert PartAt(before, src, dst, t1, done, p);
      if p[|dst|] == name {
        assert d <= p && MirrorAt(t1, c, d, t2, p);
        MirrorSame(t1, before, c, d, t2, p);
      } else {
        OtherChild(before, src, dst, t1, t2, done, name, p);
      }
    }
  }

  lemma OtherChild(before: Tree, src: Path, dst: Path, t1: Tree, t2: Tree, done: set<Path>, name: Component, p: Path)
    requires dst < p && PartAt(before, src, dst, t1, done, p) && p[|dst|] != name && Aside(t1, dst + [name], t2)
    ensures PartAt(before, src, dst, t2, done + {src + [name]}, p)
  {
    var c := src + [p[|dst|]];
    assert c[|src|] != (src + [name])[|src|];
    assert (dst + [name])[|dst|] == name;
    assert Parent(dst + [name]) == dst;
  }

  /** How the copies of individual files turn out, and the time at which everything happens. */
  datatype Environment = Environment(tier: Tier, hasRange: bool, kernels: Path -> Kernel, now: nat)

  /** Some system call of this copy fails in a way that is not met by the next rung. */
  ghost predicate KernelFails(kernel: Kernel) {
    exists n :: kernel.range(n) == Error(false) || kernel.read(n).Error? || kernel.write(n).Error?
  }

  /** An entry that cannot be copied. */
  ghost predicate Obstacle(node: Node, kernel: Kernel) {
    node.Vanished? || (node.Directory? && !node.readable) || (node.File? && KernelFails(kernel))
  }

  /** Something that comes from the source cannot be copied. */
  ghost predicate MayRaise(tree: Tree, src: Path, e: Environment) {
    src !in tree || exists p :: Comes(tree, src, p) && Obstacle(tree[p], e.kernels(p))
  }

  lemma ObstacleThere(tree: Tree, src: Path, e: Environment)
    requires src in tree && Obstacle(tree[src], e.kernels(src))
    ensures MayRaise(tree, src, e)
  {
    assert Comes(tree, src, src);
  }

  /** What is in the way of a child is in the way of its directory. */
  lemma ChildMayRaise(before: Tree, t1: Tree, src: Path, c: Path, e: Environment)
    requires Readable(before, src) && c in Children(before, src) && MayRaise(t1, c, e)
    requires forall p :: src <= p ==> (p in t1 <==> p in before) && (p in before ==> t1[p] == before[p])
    ensures MayRaise(before, src, e)
  {
    var p :| Comes(t1, c, p) && Obstacle(t1[p], e.kernels(p));
    ComesSame(t1, before, c, p);
    ComesSplit(before, src, c, p);
  }

  class Disk {
    var tree: Tree

    constructor (tree: Tree)
      ensures this.tree == tree
    {
      this.tree := tree;
    }

    /** Create an entry; the directory that it is in is dated. */
    method Create(p: Path, node: Node, now: nat)
      requires Free(tree, p)
      modifies this
      ensures p in tree && tree[p] == node && Aside(old(tree), p, tree) && forall q :: p < q ==> q !in tree
    {
      var above := Parent(p);
      if above in tree && above != p && tree[above].Directory? {
        tree := tree[above := Directory(tree[above].readable, now)];
      }
      tree := tree[p := node];
    }

    /** A link, a file, or a whole directory; anything else is passed over. */
    method CloneTree(src: Path, dst: Path, e: Environment) returns (raised: bool)
      requires !Overlap(src, dst) && Free(tree, dst)
      modifies this
      ensures Aside(old(tree), dst, tree)
      ensures !raised ==> src in old(tree) && Mirrors(old(tree), src, dst, tree)
      ensures raised ==> MayRaise(old(tree), src, e)
      decreases |Below(tree, src)|, 2
    {
      ghost var before := tree;
      raised := src !in tree || tree[src].Vanished?;
      if raised {
        if src in tree {
          ObstacleThere(tree, src, e);
        }
        return;
      }
      var node := tree[src];
      match node {
        case Link(target, _) =>
          Create(dst, Link(target, Nowhere), e.now);
        case File(data, mtime) =>
          Create(dst, File([], e.now), e.now);
          var file := new OpenFile([]);
          raised := file.CopyFd(data, e.tier, e.hasRange, e.kernels(src));
          tree := tree[dst := File(file.content, mtime)];
          if raised {
            ObstacleThere(before, src, e);
          }
        case Directory(readable, mtime) =>
          raised := CloneDirectory(src, dst, e);
        case Special(_, _) =>
      }
      if !raised && !node.Directory? {
        LeafMirrors(before, src, dst, tree);
      }
    }

    method CloneDirectory(src: Path, dst: Path, e: Environment) returns (raised: bool)
      requires !Overlap(src, dst) && Free(tree, dst) && src in tree && tree[src].Directory?
      modifies this
      ensures Aside(old(tree), dst, tree)
      ensures !raised ==> Mirrors(old(tree), src, dst, tree)
      ensures raised ==> MayRaise(old(tree), src, e)
      decreases |Below(tree, src)|, 1
    {
      ghost var before := tree;
      var node := tree[src];
      Create(dst, Directory(true, e.now), e.now);
      raised := !node.readable;
      if raised {
        ObstacleThere(before, src, e);
        return;
      }
      var left := Children(tree, src);
      SameBelow(before, src, dst, tree);
      while left != {}
        invariant left <= Children(before, src) && !raised
        invariant Aside(before, dst, tree) && PartMirrors(before, src, dst, tree, Children(before, src) - left)
        decreases |left|
      {
        var c :| c in left;
        SameBelow(before, src, dst, tree);
        raised := CloneChild(src, dst, c, e, before, Children(before, src) - left);
        if raised {
          return;
        }
        assert Children(before, src) - (left - {c}) == Children(before, src) - left + {c};
        left := left - {c};
      }
      assert Children(before, src) - {} == Children(before, src);
      PartComplete(before, src, dst, tree);
      ghost var t3 := tree;
      tree := tree[dst := Directory(node.readable, node.mtime)];
      DirectoryDone(before, src, dst, t3, tree);
    }

    /** One more child of a directory that is being copied. */
    method CloneChild(src: Path, dst: Path, c: Path, e: Environment, ghost before: Tree, ghost done: set<Path>) returns (raised: bool)
      requires !Overlap(src, dst) && Aside(before, dst, tree) && PartMirrors(before, src, dst, tree, done)
      requires Readable(before, src) && c in Children(before, src) && c !in done && Below(tree, src) == Below(before, src)
      modifies this
      ensures Aside(before, dst, tree)
      ensures !raised ==> PartMirrors(before, src, dst, tree, done + {c})
      ensures raised ==> MayRaise(before, src, e)
      decreases |Below(tree, src)|, 0
    {
      var name := c[|src|];
      ghost var t1 := tree;
      assert c == src + [name];
      SameBelow(before, src, dst, t1);
      ChildFree(before, src, dst, t1, done, name);
      SmallerBelow(before, t1, src, c);
      raised := CloneTree(c, dst + [name], e);
      AsideWithin(before, dst, t1, name, tree);
      if raised {
        ChildMayRaise(before, t1, src, c, e);
      } else {
        PartNext(before, src, dst, t1, tree, done, name);
      }
    }
  }

  /** Nothing comes from below anything but a directory. */
  lemma LeafMirrors(before: Tree, src: Path, dst: Path, after: Tree)
    requires src in before && !before[src].Directory? && (dst in after <==> Kept(before[src]))
    requires dst in after ==> SameEntry(before[src], after[dst])
    requires forall p :: dst < p ==> p !in after
    ensures Mirrors(before, src, dst, after)
  {
    forall p | dst <= p ensures MirrorAt(before, src, dst, after, p) {
      var q := SourceOf(src, dst, p);
      if p == dst {
        assert q == src;
      } else {
        assert q[..|src|] == src && !Readable(before, q[..|src|]);
      }
    }
  }

  function Below(tree: Tree, src: Path): set<Path> {
    set p | p in tree && src <= p
  }

  lemma SameBelow(before: Tree, src: Path, dst: Path, after: Tree)
    requires !Overlap(src, dst) && Aside(before, dst, after)
    ensures forall p :: src <= p ==> (p in after <==> p in before) && (p in before ==> after[p] == before[p])
    ensures Children(after, src) == Children(before, src) && Below(after, src) == Below(before, src)
  {
    forall p: Path {:trigger p in before} | src <= p ensures !(dst <= p) && p != Parent(dst) {
      if dst <= p {
        OverlapOfCommonDescendant(src, dst, p);
      }
    }
  }

  lemma ChildFree(before: Tree, src: Path, dst: Path, after: Tree, done: set<Path>, name: Component)
    requires PartMirrors(before, src, dst, after, done) && src + [name] !in done && !Overlap(src, dst)
    ensures Free(after, dst + [name]) && !Overlap(src + [name], dst + [name])
  {
    forall p | dst + [name] <= p ensures p !in after {
      assert dst < p && p[|dst|] == name;
      assert PartAt(before, src, dst, after, done, p);
    }
    if Overlap(src + [name], dst + [name]) {
      SnocOverlap(src, dst, name);
    }
  }

  lemma SnocOverlap(a: Path, b: Path, name: Component)
    requires Overlap(a + [name], b + [name])
    ensures Overlap(a, b)
  {
    var c := if a + [name] <= b + [name] then b + [name] else a + [name];
    assert a + [name] == c[..|a| + 1] && b + [name] == c[..|b| + 1];
    assert a == (a + [name])[..|a|] && b == (b + [name])[..|b|];
    OverlapOfCommonDescendant(a, b, c);
  }

  lemma SmallerBelow(before: Tree, after: Tree, src: Path, c: Path)
    requires src < c && src in before
    requires forall p :: src <= p ==> (p in after <==> p in before) && (p in before ==> after[p] == before[p])
    ensures |Below(after, c)| < |Below(before, src)|
  {
    assert Below(after, c) <= Below(before, src) - {src};
    SubsetSize(Below(after, c), Below(before, src) - {src});
  }

  lemma AsideWithin(before: Tree, dst: Path, t1: Tree, name: Component, t2: Tree)
    requires Aside(before, dst, t1) && Aside(t1, dst + [name], t2)
    ensures Aside(before, dst, t2)
  {
    assert Parent(dst + [name]) == dst;
  }

  /** Restoring the directory's own time last completes its copy. */
  lemma DirectoryDone(before: Tree, src: Path, dst: Path, t3: Tree, after: Tree)
    requires src in before && before[src].Directory? && (forall p :: dst < p ==> MirrorAt(before, src, dst, t3, p))
    requires after == t3[dst := before[src]] && Aside(before, dst, t3)
    ensures Mirrors(before, src, dst, after) && Aside(before, dst, after)
  {
    forall p | dst <= p ensures MirrorAt(before, src, dst, after, p) {
      if p == dst {
        assert SourceOf(src, dst, p) == src;
      } else {
        assert MirrorAt(before, src, dst, t3, p);
      }
    }
  }
}
