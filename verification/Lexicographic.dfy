/** Sequences compared element by element, as Python compares strings, tuples and lists. */
module Lexicographic {

  ghost predicate TotalOrder<T(!new)>(le: (T, T) -> bool) {
    && (forall x, y :: le(x, y) || le(y, x))
    && (forall x, y :: le(x, y) && le(y, x) ==> x == y)
    && (forall x, y, z :: le(x, y) && le(y, z) ==> le(x, z))
  }

  predicate LexLe<T(==)>(le: (T, T) -> bool, a: seq<T>, b: seq<T>) {
    if a == [] then true
    else if b == [] then false
    else if a[0] == b[0] then LexLe(le, a[1..], b[1..])
    else le(a[0], b[0])
  }

  lemma {:induction false} LexTotal<T(!new)>(le: (T, T) -> bool, a: seq<T>, b: seq<T>)
    requires TotalOrder(le)
    ensures LexLe(le, a, b) || LexLe(le, b, a)
    decreases |a|
  {
    if a != [] && b != [] && a[0] == b[0] {
      LexTotal(le, a[1..], b[1..]);
    }
  }

  lemma {:induction false} LexAntisymmetric<T(!new)>(le: (T, T) -> bool, a: seq<T>, b: seq<T>)
    requires TotalOrder(le) && LexLe(le, a, b) && LexLe(le, b, a)
    ensures a == b
    decreases |a|
  {
    if a != [] && b != [] {
      LexAntisymmetric(le, a[1..], b[1..]);
      assert a == [a[0]] + a[1..] && b == [b[0]] + b[1..];
    }
  }

  lemma {:induction false} LexTransitive<T(!new)>(le: (T, T) -> bool, a: seq<T>, b: seq<T>, c: seq<T>)
    requires TotalOrder(le) && LexLe(le, a, b) && LexLe(le, b, c)
    ensures LexLe(le, a, c)
    decreases |a|
  {
    if a != [] && a[0] == b[0] == c[0] {
      LexTransitive(le, a[1..], b[1..], c[1..]);
    }
  }

  /** Comparing sequences over a total order is a total order. */
  lemma LexTotalOrder<T(!new)>(le: (T, T) -> bool)
    requires TotalOrder(le)
    ensures TotalOrder((a: seq<T>, b: seq<T>) => LexLe(le, a, b))
  {
    forall a: seq<T>, b: seq<T> ensures LexLe(le, a, b) || LexLe(le, b, a) {
      LexTotal(le, a, b);
    }
    forall a: seq<T>, b: seq<T> | LexLe(le, a, b) && LexLe(le, b, a) ensures a == b {
      LexAntisymmetric(le, a, b);
    }
    forall a: seq<T>, b: seq<T>, c: seq<T> | LexLe(le, a, b) && LexLe(le, b, c) ensures LexLe(le, a, c) {
      LexTransitive(le, a, b, c);
    }
  }

  /** What lies between a sequence and one of its extensions extends it too. */
  lemma {:induction false} LexBetween<T(!new)>(le: (T, T) -> bool, p: seq<T>, x: seq<T>, y: seq<T>)
    requires TotalOrder(le) && LexLe(le, p, x) && LexLe(le, x, y) && p <= y
    ensures p <= x
    decreases |p|
  {
    if p != [] {
      assert p[0] == y[0];
      assert p[1..] <= y[1..];
      LexBetween(le, p[1..], x[1..], y[1..]);
      assert p == [p[0]] + p[1..] && x == [x[0]] + x[1..];
    }
  }

  lemma {:induction false} LexPrefix<T(!new)>(le: (T, T) -> bool, p: seq<T>, x: seq<T>)
    requires p <= x
    ensures LexLe(le, p, x)
    decreases |p|
  {
    if p != [] {
      assert p[1..] <= x[1..];
      LexPrefix(le, p[1..], x[1..]);
    }
  }

  // Sorted sequences.

  ghost predicate OrderedBy<T(!new)>(le: (T, T) -> bool, s: seq<T>) {
    forall i, j :: 0 <= i < j < |s| ==> le(s[i], s[j])
  }

  lemma FirstIsLeast<T(!new)>(le: (T, T) -> bool, s: seq<T>, x: T)
    requires TotalOrder(le) && OrderedBy(le, s) && x in s
    ensures le(s[0], x)
  {
    var k :| 0 <= k < |s| && s[k] == x;
    assert k == 0 || le(s[0], s[k]);
  }

  /** A sorted sequence is determined by what it contains. */
  lemma {:induction false} OrderedUnique<T(!new)>(le: (T, T) -> bool, s: seq<T>, t: seq<T>)
    requires TotalOrder(le) && OrderedBy(le, s) && OrderedBy(le, t) && multiset(s) == multiset(t)
    ensures s == t
  {
    if s == [] {
      assert |t| == |multiset(t)| == |multiset(s)| == |s|;
    } else {
      assert s[0] in multiset(t);
      assert t[0] in multiset(s);
      FirstIsLeast(le, s, t[0]);
      FirstIsLeast(le, t, s[0]);
      assert s[0] == t[0];
      assert s == [s[0]] + s[1..] && t == [t[0]] + t[1..];
      assert multiset(s) == multiset{s[0]} + multiset(s[1..]);
      assert multiset(t) == multiset{t[0]} + multiset(t[1..]);
      assert multiset(s[1..]) == multiset(s) - multiset{s[0]};
      assert multiset(t[1..]) == multiset(t) - multiset{t[0]};
      OrderedUnique(le, s[1..], t[1..]);
    }
  }

  lemma InsertOrdered<T(!new)>(le: (T, T) -> bool, s: seq<T>, k: nat, x: T)
    requires TotalOrder(le) && OrderedBy(le, s) && k <= |s| && (forall i :: 0 <= i < k ==> le(s[i], x))
    requires k < |s| ==> le(x, s[k])
    ensures OrderedBy(le, s[..k] + [x] + s[k..])
  {
    var longer := s[..k] + [x] + s[k..];
    forall i, j | 0 <= i < j < |longer| ensures le(longer[i], longer[j]) {
      if i == k && j > k + 1 {
        assert le(x, s[k]) && le(s[k], s[j - 1]);
      }
    }
  }

  /** Insertion into sorted order. */
  method Sort<T(!new)>(le: (T, T) -> bool, s: seq<T>) returns (sorted: seq<T>)
    requires TotalOrder(le)
    ensures multiset(sorted) == multiset(s) && OrderedBy(le, sorted)
  {
    sorted := [];
    for n := 0 to |s|
      invariant multiset(sorted) == multiset(s[..n]) && OrderedBy(le, sorted)
    {
      var k := 0;
      while k < |sorted| && le(sorted[k], s[n])
        invariant 0 <= k <= |sorted|
        invariant forall i :: 0 <= i < k ==> le(sorted[i], s[n])
      {
        k := k + 1;
      }
      InsertOrdered(le, sorted, k, s[n]);
      assert s[..n + 1] == s[..n] + [s[n]];
      assert sorted == sorted[..k] + sorted[k..];
      sorted := sorted[..k] + [s[n]] + sorted[k..];
    }
    assert s[..|s|] == s;
  }
}
