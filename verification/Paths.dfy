/** Canonical filesystem paths as sequences of components. */
module Paths {
  import opened Lexicographic

  type Component = string
  type Path = seq<Component>

  /** `path.is_relative_to(root)`: the path is the root or lies below it. */
  predicate Under(path: Path, root: Path) {
    root <= path
  }

  /** Two canonical paths that can name the same bytes. */
  predicate Overlap(a: Path, b: Path) {
    a <= b || b <= a
  }

  /** One resolved access: a path and whether it must be exclusive. */
  datatype Access = Access(path: Path, writes: bool)

  predicate Conflict(a: Access, b: Access) {
    (a.writes || b.writes) && Overlap(a.path, b.path)
  }

  predicate AnyConflict(xs: seq<Access>, ys: seq<Access>) {
    exists a, b :: a in xs && b in ys && Conflict(a, b)
  }

  lemma OverlapOfCommonDescendant(a: Path, b: Path, p: Path)
    requires a <= p && b <= p
    ensures Overlap(a, b)
  {
    if |a| <= |b| {
      assert a == p[..|a|] == b[..|a|];
    } else {
      assert b == p[..|b|] == a[..|b|];
    }
  }

  /** `path.parent`. */
  function Parent(p: Path): Path {
    if p == [] then [] else p[..|p| - 1]
  }

  lemma PrefixSnoc<T>(s: seq<T>, i: nat)
    requires i < |s|
    ensures s[..i + 1] == s[..i] + [s[i]]
  {
  }

  lemma SnocInjective<T>(s: seq<T>, x: T, t: seq<T>, y: T)
    requires s + [x] == t + [y]
    ensures s == t && x == y
  {
    assert |s + [x]| == |t + [y]|;
    assert s == (s + [x])[..|s|] && t == (t + [y])[..|t|];
    assert x == (s + [x])[|s|] && y == (t + [y])[|t|];
  }

  // Paths sort by their components, and components by their characters.

  predicate CharLe(a: char, b: char) {
    a <= b
  }

  predicate ComponentLe(a: Component, b: Component) {
    LexLe(CharLe, a, b)
  }

  predicate PathLe(a: Path, b: Path) {
    LexLe(ComponentLe, a, b)
  }

  lemma ComponentOrder()
    ensures TotalOrder(ComponentLe)
  {
    LexTotalOrder(CharLe);
    var le := (a: Component, b: Component) => LexLe(CharLe, a, b);
    assert forall a, b :: ComponentLe(a, b) == le(a, b);
  }

  lemma PathOrder()
    ensures TotalOrder(PathLe)
  {
    ComponentOrder();
    LexTotalOrder(ComponentLe);
    var le := (a: Path, b: Path) => LexLe(ComponentLe, a, b);
    assert forall a, b :: PathLe(a, b) == le(a, b);
  }
}
