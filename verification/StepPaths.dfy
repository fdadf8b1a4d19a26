/** Dotted step paths of a recipe tree, and the check that no two steps can share one. */
module StepPaths {
  /**
    * A step as declared: its free-form name, whether it is scattered, and the steps of the nested
    * recipe it runs (none for an ordinary step).
    */
  datatype StepRef = StepRef(name: string, scattered: bool, nested: seq<StepRef>)

  /** One step on the way down to a step. */
  datatype Segment = Segment(name: string, scattered: bool)

  /** A step path as the check sees it; `steps` lists the steps it goes through. */
  datatype StepPath = StepPath(canonical: string, literal: string, scattered: bool, steps: seq<Segment>)

  /** What the slice pattern takes for a digit: at least the decimal digits, none of these marks. */
  ghost predicate DigitClass(digit: char -> bool) {
    && (forall c :: '0' <= c <= '9' ==> digit(c))
    && !digit('[') && !digit(']') && !digit('.') && !digit('#')
  }

  /** Length of the run of digits at the start. */
  function DigitRun(digit: char -> bool, s: string): (n: nat)
    ensures n <= |s|
  {
    if s != "" && digit(s[0]) then 1 + DigitRun(digit, s[1..]) else 0
  }

  /** Whether a slice suffix, a bracketed run of digits, starts here; and its length. */
  function SliceLength(digit: char -> bool, s: string): (n: nat)
    ensures n <= |s|
  {
    if s == "" || s[0] != '[' then 0
    else
      var run := DigitRun(digit, s[1..]);
      if run > 0 && run + 1 < |s| && s[run + 1] == ']' then run + 2 else 0
  }

  lemma {:induction false} DigitRunMeans(digit: char -> bool, s: string)
    ensures
      var n := DigitRun(digit, s);
      (forall k :: 0 <= k < n ==> digit(s[k])) && (n < |s| ==> !digit(s[n]))
  {
    if s != "" && digit(s[0]) {
      DigitRunMeans(digit, s[1..]);
      assert forall k :: 1 <= k < |s| ==> s[k] == s[1..][k - 1];
    }
  }

  /** `n` characters: a bracket, at least one digit, a bracket. */
  ghost predicate SliceHere(digit: char -> bool, s: string, n: nat) {
    && 3 <= n <= |s| && s[0] == '[' && s[n - 1] == ']'
    && forall k :: 1 <= k < n - 1 ==> digit(s[k])
  }

  lemma SliceMeans(digit: char -> bool, s: string, n: nat)
    requires !digit(']') && n > 0
    ensures SliceLength(digit, s) == n <==> SliceHere(digit, s, n)
  {
    if s != "" && s[0] == '[' {
      var run := DigitRun(digit, s[1..]);
      DigitRunMeans(digit, s[1..]);
      assert forall k :: 1 <= k < |s| ==> s[k] == s[1..][k - 1];
      assert forall k :: 1 <= k <= run ==> digit(s[k]);
      assert run + 1 < |s| ==> !digit(s[run + 1]);
    }
  }

  /** Every slice index written as `[#]`. */
  function Canonical(digit: char -> bool, s: string): string
    decreases |s|
  {
    if s == "" then ""
    else if SliceLength(digit, s) > 0 then "[#]" + Canonical(digit, s[SliceLength(digit, s)..])
    else [s[0]] + Canonical(digit, s[1..])
  }

  function Decimal(n: nat): string {
    if n < 10 then ['0' + n as char] else Decimal(n / 10) + ['0' + (n % 10) as char]
  }

  function OwnDispatched(step: Segment, slice: nat): string {
    if step.scattered then step.name + ("[" + Decimal(slice) + "]") else step.name
  }

  function OwnCanonical(digit: char -> bool, step: Segment): string {
    if step.scattered then Canonical(digit, step.name) + "[#]" else Canonical(digit, step.name)
  }

  /** The path that dispatch uses when each scattered step on the way runs the given slice. */
  function Dispatched(steps: seq<Segment>, slices: seq<nat>): string
    requires |steps| == |slices|
  {
    if steps == [] then ""
    else if |steps| == 1 then OwnDispatched(steps[0], slices[0])
    else OwnDispatched(steps[0], slices[0]) + ("." + Dispatched(steps[1..], slices[1..]))
  }

  function OwnPath(digit: char -> bool, ref: StepRef): StepPath {
    var canonical := Canonical(digit, ref.name);
    if ref.scattered then StepPath(canonical + "[#]", ref.name + "[<i>]", true, [Segment(ref.name, true)])
    else StepPath(canonical, ref.name, false, [Segment(ref.name, false)])
  }

  function Nest(own: StepPath, sub: StepPath): StepPath {
    StepPath(own.canonical + "." + sub.canonical, own.literal + "." + sub.literal, own.scattered || sub.scattered, own.steps + sub.steps)
  }

  function NestAll(own: StepPath, subs: seq<StepPath>): seq<StepPath> {
    if subs == [] then [] else [Nest(own, subs[0])] + NestAll(own, subs[1..])
  }

  /** Every step path below a recipe, nested recipes included. */
  function Paths(digit: char -> bool, refs: seq<StepRef>): seq<StepPath> {
    if refs == [] then []
    else
      var own := OwnPath(digit, refs[0]);
      [own] + NestAll(own, Paths(digit, refs[0].nested)) + Paths(digit, refs[1..])
  }

  // What the paths are.

  function JoinedCanonical(digit: char -> bool, steps: seq<Segment>): string {
    if steps == [] then ""
    else if |steps| == 1 then OwnCanonical(digit, steps[0])
    else OwnCanonical(digit, steps[0]) + ("." + JoinedCanonical(digit, steps[1..]))
  }

  function JoinedLiteral(steps: seq<Segment>): string {
    if steps == [] then ""
    else
      var own := steps[0].name + if steps[0].scattered then "[<i>]" else "";
      if |steps| == 1 then own else own + ("." + JoinedLiteral(steps[1..]))
  }

  ghost predicate AnyScattered(steps: seq<Segment>) {
    exists k :: 0 <= k < |steps| && steps[k].scattered
  }

  ghost predicate Describes(digit: char -> bool, p: StepPath) {
    && p.steps != []
    && p.canonical == JoinedCanonical(digit, p.steps)
    && p.literal == JoinedLiteral(p.steps)
    && (p.scattered <==> AnyScattered(p.steps))
  }

  lemma NestDescribes(digit: char -> bool, own: StepPath, sub: StepPath)
    requires Describes(digit, own) && |own.steps| == 1 && Describes(digit, sub)
    ensures Describes(digit, Nest(own, sub))
  {
    var steps := own.steps + sub.steps;
    assert steps[1..] == sub.steps && steps[0] == own.steps[0];
    if k :| 0 <= k < |sub.steps| && sub.steps[k].scattered {
      assert steps[k + 1].scattered;
    }
    if k :| 0 <= k < |steps| && steps[k].scattered {
      assert k > 0 ==> sub.steps[k - 1].scattered;
    }
    if own.scattered {
      assert steps[0].scattered;
    }
  }

  lemma {:induction false} NestAllDescribes(digit: char -> bool, own: StepPath, subs: seq<StepPath>)
    requires Describes(digit, own) && |own.steps| == 1 && forall p :: p in subs ==> Describes(digit, p)
    ensures forall p :: p in NestAll(own, subs) ==> Describes(digit, p)
  {
    if subs != [] {
      NestDescribes(digit, own, subs[0]);
      NestAllDescribes(digit, own, subs[1..]);
    }
  }

  lemma OwnDescribes(digit: char -> bool, ref: StepRef)
    ensures Describes(digit, OwnPath(digit, ref))
  {
    assert OwnPath(digit, ref).steps[0].scattered == ref.scattered;
  }

  lemma {:induction false} PathsDescribe(digit: char -> bool, refs: seq<StepRef>)
    ensures forall p :: p in Paths(digit, refs) ==> Describes(digit, p)
  {
    if refs != [] {
      OwnDescribes(digit, refs[0]);
      PathsDescribe(digit, refs[0].nested);
      NestAllDescribes(digit, OwnPath(digit, refs[0]), Paths(digit, refs[0].nested));
      PathsDescribe(digit, refs[1..]);
    }
  }

  // Every declared step is listed, at whatever depth.

  /** A step is declared at a position: which step of the recipe, which step of its own recipe, and so on down. */
  type Position = seq<nat>

  /** `refs` are the steps of a recipe from number `first` on. */
  ghost predicate DeclaredFrom(refs: seq<StepRef>, first: nat, at: Position)
    decreases |at|
  {
    && at != [] && first <= at[0] < first + |refs|
    && (|at| > 1 ==> DeclaredFrom(refs[at[0] - first].nested, 0, at[1..]))
  }

  ghost predicate Declared(refs: seq<StepRef>, at: Position) {
    DeclaredFrom(refs, 0, at)
  }

  /** The steps met on the way down to a position. */
  ghost function SegmentsFrom(refs: seq<StepRef>, first: nat, at: Position): seq<Segment>
    requires DeclaredFrom(refs, first, at)
    decreases |at|
  {
    var ref := refs[at[0] - first];
    [Segment(ref.name, ref.scattered)] + if |at| > 1 then SegmentsFrom(ref.nested, 0, at[1..]) else []
  }

  ghost function SegmentsAt(refs: seq<StepRef>, at: Position): seq<Segment>
    requires Declared(refs, at)
  {
    SegmentsFrom(refs, 0, at)
  }

  function Below(n: nat, ats: seq<Position>): (r: seq<Position>)
    ensures |r| == |ats| && forall k :: 0 <= k < |r| ==> r[k] == [n] + ats[k]
  {
    seq(|ats|, k requires 0 <= k < |ats| => [n] + ats[k])
  }

  /** The positions, in the order in which the paths are listed. */
  ghost function PositionsFrom(refs: seq<StepRef>, first: nat): seq<Position> {
    if refs == [] then []
    else [[first]] + Below(first, PositionsFrom(refs[0].nested, 0)) + PositionsFrom(refs[1..], first + 1)
  }

  /** The k-th listed path goes through the steps met on the way to the k-th position. */
  ghost predicate Lists(refs: seq<StepRef>, first: nat, paths: seq<StepPath>, ats: seq<Position>) {
    && |paths| == |ats|
    && forall k :: 0 <= k < |ats| ==> DeclaredFrom(refs, first, ats[k]) && paths[k].steps == SegmentsFrom(refs, first, ats[k])
  }

  lemma {:induction false} NestAllAre(own: StepPath, subs: seq<StepPath>)
    ensures |NestAll(own, subs)| == |subs| && forall k :: 0 <= k < |subs| ==> NestAll(own, subs)[k] == Nest(own, subs[k])
  {
    if subs != [] {
      NestAllAre(own, subs[1..]);
    }
  }

  /** Positions in a recipe without its first step. */
  lemma DeclaredLater(refs: seq<StepRef>, first: nat, at: Position)
    requires refs != []
    ensures DeclaredFrom(refs[1..], first + 1, at) <==> DeclaredFrom(refs, first, at) && at[0] != first
    ensures DeclaredFrom(refs[1..], first + 1, at) ==> SegmentsFrom(refs[1..], first + 1, at) == SegmentsFrom(refs, first, at)
  {
    if at != [] && first < at[0] < first + |refs| {
      assert refs[1..][at[0] - (first + 1)] == refs[at[0] - first];
    }
  }

  /** Positions inside its first step. */
  lemma DeclaredInside(refs: seq<StepRef>, first: nat, at: Position)
    requires refs != [] && DeclaredFrom(refs[0].nested, 0, at)
    ensures DeclaredFrom(refs, first, [first] + at)
    ensures SegmentsFrom(refs, first, [first] + at) == [Segment(refs[0].name, refs[0].scattered)] + SegmentsFrom(refs[0].nested, 0, at)
  {
    assert ([first] + at)[1..] == at;
  }

  lemma ListsNested(digit: char -> bool, refs: seq<StepRef>, first: nat, ats: seq<Position>)
    requires refs != [] && Lists(refs[0].nested, 0, Paths(digit, refs[0].nested), ats)
    ensures Lists(refs, first, NestAll(OwnPath(digit, refs[0]), Paths(digit, refs[0].nested)), Below(first, ats))
  {
    NestAllAre(OwnPath(digit, refs[0]), Paths(digit, refs[0].nested));
    forall k | 0 <= k < |ats|
      ensures DeclaredFrom(refs, first, [first] + ats[k])
      ensures SegmentsFrom(refs, first, [first] + ats[k]) == [Segment(refs[0].name, refs[0].scattered)] + SegmentsFrom(refs[0].nested, 0, ats[k])
    {
      DeclaredInside(refs, first, ats[k]);
    }
  }

  lemma ListsRest(refs: seq<StepRef>, first: nat, paths: seq<StepPath>, ats: seq<Position>)
    requires refs != [] && Lists(refs[1..], first + 1, paths, ats)
    ensures Lists(refs, first, paths, ats)
  {
    forall k | 0 <= k < |ats| ensures DeclaredFrom(refs, first, ats[k]) && paths[k].steps == SegmentsFrom(refs, first, ats[k]) {
      DeclaredLater(refs, first, ats[k]);
    }
  }

  lemma ListsConcat(refs: seq<StepRef>, first: nat, ps: seq<StepPath>, xs: seq<Position>, qs: seq<StepPath>, ys: seq<Position>)
    requires Lists(refs, first, ps, xs) && Lists(refs, first, qs, ys)
    ensures Lists(refs, first, ps + qs, xs + ys)
  {
  }

  lemma {:induction false} PathsListed(digit: char -> bool, refs: seq<StepRef>, first: nat)
    ensures Lists(refs, first, Paths(digit, refs), PositionsFrom(refs, first))
  {
    if refs != [] {
      var own := OwnPath(digit, refs[0]);
      var nested, rest := Paths(digit, refs[0].nested), Paths(digit, refs[1..]);
      var inside, later := PositionsFrom(refs[0].nested, 0), PositionsFrom(refs[1..], first + 1);
      PathsListed(digit, refs[0].nested, 0);
      PathsListed(digit, refs[1..], first + 1);
      ListsNested(digit, refs, first, inside);
      ListsRest(refs, first, rest, later);
      assert Lists(refs, first, [own], [[first]]);
      ListsConcat(refs, first, [own], [[first]], NestAll(own, nested), Below(first, inside));
      ListsConcat(refs, first, [own] + NestAll(own, nested), [[first]] + Below(first, inside), rest, later);
    }
  }

  lemma {:induction false} PositionsComplete(refs: seq<StepRef>, first: nat, at: Position)
    requires DeclaredFrom(refs, first, at)
    ensures at in PositionsFrom(refs, first)
  {
    var inside, later := PositionsFrom(refs[0].nested, 0), PositionsFrom(refs[1..], first + 1);
    if at[0] != first {
      DeclaredLater(refs, first, at);
      PositionsComplete(refs[1..], first + 1, at);
    } else if |at| == 1 {
      assert at == [first];
    } else {
      PositionsComplete(refs[0].nested, 0, at[1..]);
      var k :| 0 <= k < |inside| && inside[k] == at[1..];
      assert Below(first, inside)[k] == at;
    }
  }

  ghost predicate AllDifferent(ats: seq<Position>) {
    forall i, j :: 0 <= i < j < |ats| ==> ats[i] != ats[j]
  }

  lemma DifferentConcat(xs: seq<Position>, ys: seq<Position>)
    requires AllDifferent(xs) && AllDifferent(ys) && forall x, y :: x in xs && y in ys ==> x != y
    ensures AllDifferent(xs + ys)
  {
    forall i, j | 0 <= i < j < |xs + ys| ensures (xs + ys)[i] != (xs + ys)[j] {
      if i < |xs| <= j {
        assert xs[i] in xs && ys[j - |xs|] in ys;
      }
    }
  }

  lemma BelowDifferent(n: nat, ats: seq<Position>)
    requires AllDifferent(ats)
    ensures AllDifferent(Below(n, ats))
  {
    forall i, j | 0 <= i < j < |ats| ensures [n] + ats[i] != [n] + ats[j] {
      assert ([n] + ats[i])[1..] == ats[i] && ([n] + ats[j])[1..] == ats[j];
    }
  }

  lemma {:induction false} PositionsDifferent(digit: char -> bool, refs: seq<StepRef>, first: nat)
    ensures AllDifferent(PositionsFrom(refs, first))
  {
    if refs != [] {
      var inside, later := PositionsFrom(refs[0].nested, 0), PositionsFrom(refs[1..], first + 1);
      PositionsDifferent(digit, refs[0].nested, 0);
      PositionsDifferent(digit, refs[1..], first + 1);
      PathsListed(digit, refs[0].nested, 0);
      PathsListed(digit, refs[1..], first + 1);
      BelowDifferent(first, inside);
      DifferentConcat([[first]], Below(first, inside));
      forall x, y | x in [[first]] + Below(first, inside) && y in later ensures x != y {
        assert x[0] == first && y[0] > first;
      }
      DifferentConcat([[first]] + Below(first, inside), later);
    }
  }

  /** Each position has exactly one listed path, which goes through the steps on the way to it. */
  ghost predicate OnePathEach(refs: seq<StepRef>, paths: seq<StepPath>, ats: seq<Position>) {
    Lists(refs, 0, paths, ats) && AllDifferent(ats) && forall at :: at in ats <==> Declared(refs, at)
  }

  lemma PathsComplete(digit: char -> bool, refs: seq<StepRef>)
    ensures exists ats :: OnePathEach(refs, Paths(digit, refs), ats)
  {
    var ats := PositionsFrom(refs, 0);
    PathsListed(digit, refs, 0);
    PositionsDifferent(digit, refs, 0);
    forall at | Declared(refs, at) ensures at in ats {
      PositionsComplete(refs, 0, at);
    }
    assert OnePathEach(refs, Paths(digit, refs), ats);
  }

  // Canonicalization commutes with joining by a dot and with appending a slice suffix.

  lemma {:induction false} RunAppend(digit: char -> bool, a: string, b: string)
    requires b != "" && !digit(b[0])
    ensures DigitRun(digit, a + b) == DigitRun(digit, a)
  {
    if a != "" {
      assert (a + b)[1..] == a[1..] + b;
      RunAppend(digit, a[1..], b);
    } else {
      assert a + b == b;
    }
  }

  lemma SliceAppend(digit: char -> bool, a: string, b: string)
    requires DigitClass(digit) && a != "" && b != "" && (b[0] == '.' || b[0] == '[')
    ensures SliceLength(digit, a + b) == SliceLength(digit, a)
  {
    assert (a + b)[1..] == a[1..] + b;
    RunAppend(digit, a[1..], b);
  }

  lemma {:induction false} CanonicalAppend(digit: char -> bool, a: string, b: string)
    requires DigitClass(digit) && (b == "" || b[0] == '.' || b[0] == '[')
    ensures Canonical(digit, a + b) == Canonical(digit, a) + Canonical(digit, b)
    decreases |a|
  {
    if a == "" {
      assert a + b == b;
    } else if b == "" {
      assert a + b == a;
    } else {
      SliceAppend(digit, a, b);
      var n := if SliceLength(digit, a) > 0 then SliceLength(digit, a) else 1;
      assert (a + b)[n..] == a[n..] + b;
      CanonicalAppend(digit, a[n..], b);
    }
  }

  lemma CanonicalDot(digit: char -> bool, a: string, b: string)
    requires DigitClass(digit)
    ensures Canonical(digit, a + ("." + b)) == Canonical(digit, a) + ("." + Canonical(digit, b))
  {
    CanonicalAppend(digit, a, "." + b);
    assert ("." + b)[1..] == b;
  }

  lemma {:induction false} DecimalDigits(digit: char -> bool, n: nat, rest: string)
    requires DigitClass(digit)
    ensures |Decimal(n)| > 0 && DigitRun(digit, Decimal(n) + rest) == |Decimal(n)| + DigitRun(digit, rest)
  {
    var last := ['0' + (n % 10) as char];
    assert digit(last[0]);
    assert (last + rest)[1..] == rest;
    if n >= 10 {
      DecimalDigits(digit, n / 10, last + rest);
      assert Decimal(n) + rest == Decimal(n / 10) + (last + rest);
    }
  }

  /** A scattered step's suffix is a slice, whatever the index. */
  lemma CanonicalSlice(digit: char -> bool, a: string, n: nat)
    requires DigitClass(digit)
    ensures Canonical(digit, a + ("[" + Decimal(n) + "]")) == Canonical(digit, a) + "[#]"
  {
    var suffix := "[" + Decimal(n) + "]";
    CanonicalAppend(digit, a, suffix);
    DecimalDigits(digit, n, "]");
    assert suffix[1..] == Decimal(n) + "]";
    assert SliceLength(digit, suffix) == |suffix|;
    assert suffix[|suffix|..] == "";
  }

  /** Whatever slices run, the dispatched path of a step has that step's canonical path. */
  lemma {:induction false} DispatchedCanonical(digit: char -> bool, steps: seq<Segment>, slices: seq<nat>)
    requires DigitClass(digit) && |steps| == |slices|
    ensures Canonical(digit, Dispatched(steps, slices)) == JoinedCanonical(digit, steps)
  {
    if steps != [] {
      if steps[0].scattered {
        CanonicalSlice(digit, steps[0].name, slices[0]);
      }
      if |steps| > 1 {
        DispatchedCanonical(digit, steps[1..], slices[1..]);
        CanonicalDot(digit, OwnDispatched(steps[0], slices[0]), Dispatched(steps[1..], slices[1..]));
      }
    }
  }

  /** A step that is nowhere scattered is dispatched under its literal path. */
  lemma {:induction false} DispatchedLiteral(steps: seq<Segment>, slices: seq<nat>)
    requires |steps| == |slices| && !AnyScattered(steps)
    ensures Dispatched(steps, slices) == JoinedLiteral(steps)
  {
    if steps != [] {
      assert !steps[0].scattered;
      forall k | 0 <= k < |steps[1..]| ensures !steps[1..][k].scattered {
        assert !steps[k + 1].scattered;
      }
      DispatchedLiteral(steps[1..], slices[1..]);
    }
  }

  // The check.

  predicate Clash(p: StepPath, q: StepPath) {
    p.canonical == q.canonical && (p.scattered || q.scattered || p.literal == q.literal)
  }

  ghost predicate AnyClash(paths: seq<StepPath>) {
    exists i, j :: 0 <= i < j < |paths| && Clash(paths[i], paths[j])
  }

  /** `seen` holds the paths so far by canonical path, in order. */
  ghost predicate Groups(seen: map<string, seq<StepPath>>, paths: seq<StepPath>) {
    && (forall c, p :: c in seen && p in seen[c] ==> p in paths && p.canonical == c)
    && (forall p :: p in paths ==> p.canonical in seen && p in seen[p.canonical])
  }

  method ClashesWith(others: seq<StepPath>, path: StepPath) returns (found: bool)
    requires forall p :: p in others ==> p.canonical == path.canonical
    ensures found <==> exists p :: p in others && Clash(p, path)
  {
    for n := 0 to |others|
      invariant forall m :: 0 <= m < n ==> !Clash(others[m], path)
    {
      var other := others[n];
      if path.scattered || other.scattered || path.literal == other.literal {
        assert Clash(other, path);
        return true;
      }
    }
    found := false;
  }

  lemma GroupsSnoc(seen: map<string, seq<StepPath>>, paths: seq<StepPath>, path: StepPath)
    requires Groups(seen, paths)
    ensures Groups(seen[path.canonical := (if path.canonical in seen then seen[path.canonical] else []) + [path]], paths + [path])
  {
  }

  /** The clash found among the paths seen so far is one with some earlier path. */
  lemma GroupsFind(seen: map<string, seq<StepPath>>, paths: seq<StepPath>, path: StepPath)
    requires Groups(seen, paths)
    ensures (exists p :: p in (if path.canonical in seen then seen[path.canonical] else []) && Clash(p, path)) <==>
            (exists p :: p in paths && Clash(p, path))
  {
  }

  method RefusePaths(paths: seq<StepPath>) returns (refused: bool)
    ensures refused <==> AnyClash(paths)
  {
    var seen: map<string, seq<StepPath>> := map[];
    refused := false;
    for k := 0 to |paths|
      invariant Groups(seen, paths[..k])
      invariant !refused && !AnyClash(paths[..k])
    {
      var path := paths[k];
      var others := if path.canonical in seen then seen[path.canonical] else [];
      refused := ClashesWith(others, path);
      GroupsFind(seen, paths[..k], path);
      ClashSnoc(paths, k);
      if refused {
        return;
      }
      GroupsSnoc(seen, paths[..k], path);
      seen := seen[path.canonical := others + [path]];
      assert paths[..k + 1] == paths[..k] + [path];
    }
    assert paths[..|paths|] == paths;
  }

  lemma ClashSnoc(paths: seq<StepPath>, k: nat)
    requires k < |paths|
    ensures AnyClash(paths[..k + 1]) <==> AnyClash(paths[..k]) || exists p :: p in paths[..k] && Clash(p, paths[k])
    ensures AnyClash(paths[..k + 1]) ==> AnyClash(paths)
  {
    var before, now := paths[..k], paths[..k + 1];
    if i, j :| 0 <= i < j < |now| && Clash(now[i], now[j]) {
      assert Clash(paths[i], paths[j]);
      assert now[i] in before;
      assert j < k ==> Clash(before[i], before[j]);
    }
    if p :| p in before && Clash(p, paths[k]) {
      var i :| 0 <= i < |before| && before[i] == p;
      assert Clash(now[i], now[k]);
    }
    if i, j :| 0 <= i < j < |before| && Clash(before[i], before[j]) {
      assert Clash(now[i], now[j]);
    }
  }

  /** Refuse a recipe when two of its step paths clash. */
  method RefuseCollisions(digit: char -> bool, refs: seq<StepRef>) returns (refused: bool)
    ensures refused <==> AnyClash(Paths(digit, refs))
  {
    refused := RefusePaths(Paths(digit, refs));
  }

  /** Some choice of slices dispatches two steps, each reached through these, under one path. */
  ghost predicate StepsShare(xs: seq<Segment>, ys: seq<Segment>) {
    exists i, j :: |i| == |xs| && |j| == |ys| && Dispatched(xs, i) == Dispatched(ys, j)
  }

  ghost predicate CanShare(p: StepPath, q: StepPath) {
    StepsShare(p.steps, q.steps)
  }

  lemma ListedNeverShare(digit: char -> bool, refs: seq<StepRef>, a: nat, b: nat)
    requires DigitClass(digit) && a < b < |Paths(digit, refs)|
    requires CanShare(Paths(digit, refs)[a], Paths(digit, refs)[b])
    ensures AnyClash(Paths(digit, refs))
  {
    var p, q := Paths(digit, refs)[a], Paths(digit, refs)[b];
    PathsDescribe(digit, refs);
    assert Describes(digit, p) && Describes(digit, q);
    var i, j :| |i| == |p.steps| && |j| == |q.steps| && Dispatched(p.steps, i) == Dispatched(q.steps, j);
    DispatchedCanonical(digit, p.steps, i);
    DispatchedCanonical(digit, q.steps, j);
    if !p.scattered && !q.scattered {
      DispatchedLiteral(p.steps, i);
      DispatchedLiteral(q.steps, j);
    }
    assert Clash(p, q);
  }

  /** The same of the steps at two positions. */
  ghost predicate ShareAt(refs: seq<StepRef>, a: Position, b: Position)
    requires Declared(refs, a) && Declared(refs, b)
  {
    StepsShare(SegmentsAt(refs, a), SegmentsAt(refs, b))
  }

  ghost predicate AnyShare(refs: seq<StepRef>) {
    exists a, b :: Declared(refs, a) && Declared(refs, b) && a != b && ShareAt(refs, a, b)
  }

  ghost predicate AnyListedShare(paths: seq<StepPath>) {
    exists a, b :: 0 <= a < b < |paths| && CanShare(paths[a], paths[b])
  }

  lemma ShareSymmetric(xs: seq<Segment>, ys: seq<Segment>)
    requires StepsShare(xs, ys)
    ensures StepsShare(ys, xs)
  {
    var i, j :| |i| == |xs| && |j| == |ys| && Dispatched(xs, i) == Dispatched(ys, j);
    assert Dispatched(ys, j) == Dispatched(xs, i);
  }

  /** Two positions share a path exactly when two listed paths can. */
  lemma ShareIffListed(refs: seq<StepRef>, paths: seq<StepPath>, ats: seq<Position>)
    requires OnePathEach(refs, paths, ats)
    ensures AnyShare(refs) <==> AnyListedShare(paths)
  {
    if a, b :| Declared(refs, a) && Declared(refs, b) && a != b && ShareAt(refs, a, b) {
      var k :| 0 <= k < |ats| && ats[k] == a;
      var m :| 0 <= m < |ats| && ats[m] == b;
      ShareSymmetric(paths[k].steps, paths[m].steps);
      assert if k < m then CanShare(paths[k], paths[m]) else CanShare(paths[m], paths[k]);
    }
    if k, m :| 0 <= k < m < |paths| && CanShare(paths[k], paths[m]) {
      assert ats[k] in ats && ats[m] in ats && ats[k] != ats[m];
      assert ShareAt(refs, ats[k], ats[m]);
    }
  }

  /** If the check accepts, no choice of slices gives two declared steps the same path, however deep they are. */
  lemma AcceptedNeverShare(digit: char -> bool, refs: seq<StepRef>)
    requires DigitClass(digit) && AnyShare(refs)
    ensures AnyClash(Paths(digit, refs))
  {
    var paths := Paths(digit, refs);
    PathsComplete(digit, refs);
    var ats :| OnePathEach(refs, paths, ats);
    ShareIffListed(refs, paths, ats);
    var a, b :| 0 <= a < b < |paths| && CanShare(paths[a], paths[b]);
    ListedNeverShare(digit, refs, a, b);
  }

  // Exactly which steps can share a path.

  /** What a path is made of: characters, literal slices with their digits, and slices still to be chosen. */
  datatype Piece = Letter(c: char) | Literal(digits: string) | Chosen

  /** How much of a path its first piece takes. */
  function FirstLength(digit: char -> bool, s: string): (n: nat)
    requires s != ""
    ensures 0 < n <= |s|
  {
    if SliceLength(digit, s) > 0 then SliceLength(digit, s) else 1
  }

  function FirstPiece(digit: char -> bool, s: string): Piece
    requires s != ""
  {
    if SliceLength(digit, s) > 0 then Literal(s[1..SliceLength(digit, s) - 1]) else Letter(s[0])
  }

  function Pieces(digit: char -> bool, s: string): seq<Piece>
    decreases |s|
  {
    if s == "" then [] else [FirstPiece(digit, s)] + Pieces(digit, s[FirstLength(digit, s)..])
  }

  function WrittenPiece(piece: Piece): string {
    match piece
    case Letter(c) => [c]
    case Literal(digits) => "[" + digits + "]"
    case Chosen => ""
  }

  function Written(pieces: seq<Piece>): string {
    if pieces == [] then "" else WrittenPiece(pieces[0]) + Written(pieces[1..])
  }

  lemma FirstWritten(digit: char -> bool, s: string)
    requires s != ""
    ensures WrittenPiece(FirstPiece(digit, s)) == s[..FirstLength(digit, s)]
  {
  }

  lemma WrittenFirst(digit: char -> bool, s: string, rest: string)
    requires s != "" && rest == s[FirstLength(digit, s)..] && Written(Pieces(digit, rest)) == rest
    ensures Written(Pieces(digit, s)) == s
  {
    FirstWritten(digit, s);
    assert Pieces(digit, s)[1..] == Pieces(digit, rest);
    assert s == s[..FirstLength(digit, s)] + rest;
  }

  lemma {:induction false} PiecesWritten(digit: char -> bool, s: string)
    ensures Written(Pieces(digit, s)) == s
    decreases |s|
  {
    if s != "" {
      PiecesWritten(digit, s[FirstLength(digit, s)..]);
      WrittenFirst(digit, s, s[FirstLength(digit, s)..]);
    }
  }

  lemma FirstAppend(digit: char -> bool, a: string, b: string)
    requires DigitClass(digit) && a != "" && b != "" && (b[0] == '.' || b[0] == '[')
    ensures FirstLength(digit, a + b) == FirstLength(digit, a) && FirstPiece(digit, a + b) == FirstPiece(digit, a)
  {
    SliceAppend(digit, a, b);
    var n := SliceLength(digit, a);
    assert n > 0 ==> (a + b)[1..n - 1] == a[1..n - 1];
  }

  lemma DropAppend(a: string, b: string, n: nat)
    requires n <= |a|
    ensures (a + b)[n..] == a[n..] + b
  {
  }

  lemma PiecesCons(digit: char -> bool, s: string, rest: string)
    requires s != "" && rest == s[FirstLength(digit, s)..]
    ensures Pieces(digit, s) == [FirstPiece(digit, s)] + Pieces(digit, rest)
  {
  }

  lemma Regroup<T>(x: T, whole: seq<T>, tail: seq<T>, front: seq<T>, rest: seq<T>, more: seq<T>)
    requires whole == [x] + tail && front == [x] + rest && tail == rest + more
    ensures whole == front + more
  {
  }

  lemma {:induction false} PiecesAppend(digit: char -> bool, a: string, b: string)
    requires DigitClass(digit) && (b == "" || b[0] == '.' || b[0] == '[')
    ensures Pieces(digit, a + b) == Pieces(digit, a) + Pieces(digit, b)
    decreases |a|
  {
    if a == "" {
      assert a + b == b;
    } else if b == "" {
      assert a + b == a;
    } else {
      var rest := a[FirstLength(digit, a)..];
      PiecesAppend(digit, rest, b);
      FirstAppend(digit, a, b);
      DropAppend(a, b, FirstLength(digit, a));
      PiecesCons(digit, a + b, rest + b);
      PiecesCons(digit, a, rest);
      Regroup(FirstPiece(digit, a), Pieces(digit, a + b), Pieces(digit, rest + b), Pieces(digit, a), Pieces(digit, rest), Pieces(digit, b));
    }
  }

  lemma PiecesOfSlice(digit: char -> bool, n: nat)
    requires DigitClass(digit)
    ensures Pieces(digit, "[" + Decimal(n) + "]") == [Literal(Decimal(n))]
  {
    var s := "[" + Decimal(n) + "]";
    DecimalDigits(digit, n, "]");
    assert s[1..] == Decimal(n) + "]";
    assert SliceLength(digit, s) == |s| && s[1..|s| - 1] == Decimal(n) && s[|s|..] == "";
    assert Pieces(digit, s[|s|..]) == [];
  }

  function OwnPattern(digit: char -> bool, step: Segment, slice: Piece): seq<Piece> {
    Pieces(digit, step.name) + if step.scattered then [slice] else []
  }

  /** The pieces of a step's paths, its slices still to be chosen. */
  function Pattern(digit: char -> bool, steps: seq<Segment>): seq<Piece> {
    if steps == [] then []
    else if |steps| == 1 then OwnPattern(digit, steps[0], Chosen)
    else OwnPattern(digit, steps[0], Chosen) + ([Letter('.')] + Pattern(digit, steps[1..]))
  }

  /** A piece that the choice of slices can turn into the given one. */
  predicate Becomes(x: Piece, y: Piece) {
    if x.Chosen? then y.Literal? && Numeral(y.digits) else x == y
  }

  predicate AllBecome(xs: seq<Piece>, ys: seq<Piece>) {
    |xs| == |ys| && forall k :: 0 <= k < |xs| ==> Becomes(xs[k], ys[k])
  }

  /** Decimal digits without leading zeros. */
  predicate Numeral(t: string) {
    t != "" && (forall k :: 0 <= k < |t| ==> '0' <= t[k] <= '9') && (|t| > 1 ==> t[0] != '0')
  }

  lemma {:induction false} DecimalNumeral(n: nat)
    ensures Numeral(Decimal(n)) && (n > 0 ==> Decimal(n)[0] != '0')
  {
    if n >= 10 {
      DecimalNumeral(n / 10);
    }
  }

  lemma {:induction false} NumeralDecimal(t: string) returns (n: nat)
    requires Numeral(t)
    ensures Decimal(n) == t && (t[0] != '0' ==> n > 0)
  {
    var last := (t[|t| - 1] - '0') as nat;
    if |t| == 1 {
      n := last;
      assert t == [t[0]];
    } else {
      var m := NumeralDecimal(t[..|t| - 1]);
      n := 10 * m + last;
      assert t == t[..|t| - 1] + [t[|t| - 1]];
    }
  }

  /** What the pieces of one step and the rest become, they become together. */
  lemma BecomeAppend(xs: seq<Piece>, ys: seq<Piece>, xs': seq<Piece>, ys': seq<Piece>)
    requires AllBecome(xs, ys) && AllBecome(xs', ys')
    ensures AllBecome(xs + xs', ys + ys')
  {
  }

  lemma BecomeSplit(xs: seq<Piece>, xs': seq<Piece>, ys: seq<Piece>)
    requires AllBecome(xs + xs', ys)
    ensures AllBecome(xs, ys[..|xs|]) && AllBecome(xs', ys[|xs|..])
  {
    forall k | 0 <= k < |xs| ensures Becomes(xs[k], ys[..|xs|][k]) {
      assert Becomes((xs + xs')[k], ys[k]);
    }
    forall k | 0 <= k < |xs'| ensures Becomes(xs'[k], ys[|xs|..][k]) {
      assert Becomes((xs + xs')[|xs| + k], ys[|xs| + k]);
    }
  }

  lemma {:induction false} NoneChosen(digit: char -> bool, s: string)
    ensures forall x :: x in Pieces(digit, s) ==> !x.Chosen?
    decreases |s|
  {
    if s != "" {
      NoneChosen(digit, s[FirstLength(digit, s)..]);
    }
  }

  lemma OwnPieces(digit: char -> bool, step: Segment, slice: nat)
    requires DigitClass(digit)
    ensures Pieces(digit, OwnDispatched(step, slice)) == OwnPattern(digit, step, Literal(Decimal(slice)))
  {
    if step.scattered {
      PiecesAppend(digit, step.name, "[" + Decimal(slice) + "]");
      PiecesOfSlice(digit, slice);
    }
  }

  /** A step's dispatched path starts with the step's own part. */
  lemma DispatchedPieces(digit: char -> bool, steps: seq<Segment>, slices: seq<nat>)
    requires DigitClass(digit) && |steps| == |slices| > 1
    ensures Pieces(digit, Dispatched(steps, slices)) ==
            OwnPattern(digit, steps[0], Literal(Decimal(slices[0]))) + ([Letter('.')] + Pieces(digit, Dispatched(steps[1..], slices[1..])))
  {
    var rest := Dispatched(steps[1..], slices[1..]);
    PiecesAppend(digit, OwnDispatched(steps[0], slices[0]), "." + rest);
    OwnPieces(digit, steps[0], slices[0]);
    assert ("." + rest)[1..] == rest;
  }

  lemma OwnBecomes(digit: char -> bool, step: Segment, slice: nat)
    ensures AllBecome(OwnPattern(digit, step, Chosen), OwnPattern(digit, step, Literal(Decimal(slice))))
  {
    NoneChosen(digit, step.name);
    DecimalNumeral(slice);
  }

  /** Whatever slices run, the pattern becomes the pieces of the dispatched path. */
  lemma {:induction false} PatternBecomes(digit: char -> bool, steps: seq<Segment>, slices: seq<nat>)
    requires DigitClass(digit) && |steps| == |slices|
    ensures AllBecome(Pattern(digit, steps), Pieces(digit, Dispatched(steps, slices)))
  {
    if steps != [] {
      OwnBecomes(digit, steps[0], slices[0]);
      if |steps| == 1 {
        OwnPieces(digit, steps[0], slices[0]);
      } else {
        PatternBecomes(digit, steps[1..], slices[1..]);
        DispatchedPieces(digit, steps, slices);
        var rest := Pieces(digit, Dispatched(steps[1..], slices[1..]));
        BecomeAppend([Letter('.')], [Letter('.')], Pattern(digit, steps[1..]), rest);
        BecomeAppend(OwnPattern(digit, steps[0], Chosen), OwnPattern(digit, steps[0], Literal(Decimal(slices[0]))),
                     [Letter('.')] + Pattern(digit, steps[1..]), [Letter('.')] + rest);
      }
    }
  }

  /** One slice makes a step's own pattern anything that it can become. */
  lemma OwnChoice(digit: char -> bool, step: Segment, pieces: seq<Piece>) returns (slice: nat)
    requires AllBecome(OwnPattern(digit, step, Chosen), pieces)
    ensures pieces == OwnPattern(digit, step, Literal(Decimal(slice)))
  {
    var own, n := OwnPattern(digit, step, Chosen), |Pieces(digit, step.name)|;
    NoneChosen(digit, step.name);
    slice := 0;
    if step.scattered {
      assert Becomes(own[n], pieces[n]);
      slice := NumeralDecimal(pieces[n].digits);
    }
    forall k | 0 <= k < n ensures pieces[k] == Pieces(digit, step.name)[k] {
      assert Becomes(own[k], pieces[k]) && own[k] in Pieces(digit, step.name);
    }
  }

  /** What a longer pattern becomes is the first step's part, a dot, and the rest. */
  lemma PatternSplit(digit: char -> bool, steps: seq<Segment>, pieces: seq<Piece>) returns (n: nat)
    requires |steps| > 1 && AllBecome(Pattern(digit, steps), pieces)
    ensures n < |pieces| && pieces == pieces[..n] + ([Letter('.')] + pieces[n + 1..])
    ensures AllBecome(OwnPattern(digit, steps[0], Chosen), pieces[..n]) && AllBecome(Pattern(digit, steps[1..]), pieces[n + 1..])
  {
    var own, rest := OwnPattern(digit, steps[0], Chosen), Pattern(digit, steps[1..]);
    n := |own|;
    BecomeSplit(own, [Letter('.')] + rest, pieces);
    BecomeSplit([Letter('.')], rest, pieces[n..]);
    assert Becomes(Letter('.'), pieces[n..][0]) by {
      assert Becomes([Letter('.')][0], pieces[n..][..1][0]);
    }
    assert pieces[n..][1..] == pieces[n + 1..];
  }

  /** And every path that the pattern can become is dispatched by some choice of slices. */
  lemma {:induction false} Choice(digit: char -> bool, steps: seq<Segment>, pieces: seq<Piece>) returns (slices: seq<nat>)
    requires DigitClass(digit) && AllBecome(Pattern(digit, steps), pieces)
    ensures |slices| == |steps| && pieces == Pieces(digit, Dispatched(steps, slices))
  {
    if steps == [] {
      slices := [];
    } else if |steps| == 1 {
      var slice := OwnChoice(digit, steps[0], pieces);
      slices := [slice];
      OwnPieces(digit, steps[0], slice);
    } else {
      var n := PatternSplit(digit, steps, pieces);
      var slice := OwnChoice(digit, steps[0], pieces[..n]);
      var more := Choice(digit, steps[1..], pieces[n + 1..]);
      slices := [slice] + more;
      assert slices[1..] == more;
      DispatchedPieces(digit, steps, slices);
    }
  }

  /** Equal characters, equal literal slices, a numeral against a scattered slice, or two scattered slices. */
  predicate Meet(x: Piece, y: Piece) {
    if x.Chosen? then y.Chosen? || Becomes(x, y) else Becomes(y, x)
  }

  predicate Aligned(xs: seq<Piece>, ys: seq<Piece>) {
    |xs| == |ys| && forall k :: 0 <= k < |xs| ==> Meet(xs[k], ys[k])
  }

  /** What two pieces that meet both become. */
  function Common(x: Piece, y: Piece): Piece {
    if !x.Chosen? then x else if !y.Chosen? then y else Literal("0")
  }

  /** Two steps can be dispatched under one path exactly when their patterns align piece by piece. */
  lemma CanShareIffAligned(digit: char -> bool, p: StepPath, q: StepPath)
    requires DigitClass(digit)
    ensures CanShare(p, q) <==> Aligned(Pattern(digit, p.steps), Pattern(digit, q.steps))
  {
    var xs, ys := Pattern(digit, p.steps), Pattern(digit, q.steps);
    if i, j :| |i| == |p.steps| && |j| == |q.steps| && Dispatched(p.steps, i) == Dispatched(q.steps, j) {
      PatternBecomes(digit, p.steps, i);
      PatternBecomes(digit, q.steps, j);
    }
    if Aligned(xs, ys) {
      var pieces := seq(|xs|, k requires 0 <= k < |xs| => Common(xs[k], ys[k]));
      PatternsMeet(digit, p, q, pieces);
    }
  }

  lemma PatternsMeet(digit: char -> bool, p: StepPath, q: StepPath, pieces: seq<Piece>)
    requires DigitClass(digit) && Aligned(Pattern(digit, p.steps), Pattern(digit, q.steps)) && |pieces| == |Pattern(digit, p.steps)|
    requires forall k :: 0 <= k < |pieces| ==> pieces[k] == Common(Pattern(digit, p.steps)[k], Pattern(digit, q.steps)[k])
    ensures CanShare(p, q)
  {
    forall k | 0 <= k < |pieces| ensures Becomes(Pattern(digit, p.steps)[k], pieces[k]) && Becomes(Pattern(digit, q.steps)[k], pieces[k]) {
      assert Meet(Pattern(digit, p.steps)[k], Pattern(digit, q.steps)[k]);
    }
    var i := Choice(digit, p.steps, pieces);
    var j := Choice(digit, q.steps, pieces);
    PiecesWritten(digit, Dispatched(p.steps, i));
    PiecesWritten(digit, Dispatched(q.steps, j));
  }

  // When the check is exact.

  /** No slice and no slice mark anywhere in the name. */
  ghost predicate PlainName(digit: char -> bool, name: string) {
    forall k :: 0 <= k < |name| ==> SliceLength(digit, name[k..]) == 0 && !("[#]" <= name[k..])
  }

  ghost predicate Plain(digit: char -> bool, steps: seq<Segment>) {
    forall k :: 0 <= k < |steps| ==> PlainName(digit, steps[k].name)
  }

  lemma PlainRest(digit: char -> bool, a: string)
    requires PlainName(digit, a) && a != ""
    ensures PlainName(digit, a[1..]) && SliceLength(digit, a) == 0 && !("[#]" <= a)
  {
    assert a[0..] == a;
    forall k | 0 <= k < |a[1..]| ensures SliceLength(digit, a[1..][k..]) == 0 && !("[#]" <= a[1..][k..]) {
      assert a[1..][k..] == a[k + 1..];
    }
  }

  /** Every `[#]` replaced by the same slice index. */
  function Fill(s: string, n: nat): string {
    if "[#]" <= s then "[" + Decimal(n) + "]" + Fill(s[3..], n)
    else if s == "" then ""
    else [s[0]] + Fill(s[1..], n)
  }

  /** No mark runs from a plain name into what follows it. */
  lemma NoMarkAcross(digit: char -> bool, a: string, b: string)
    requires PlainName(digit, a) && a != "" && (b == "" || b[0] == '.' || b[0] == '[')
    ensures !("[#]" <= a + b)
  {
    PlainRest(digit, a);
    if |a| >= 3 {
      assert (a + b)[..3] == a[..3];
    } else if b != "" {
      assert (a + b)[|a|] == b[0];
    } else {
      assert a + b == a;
    }
  }

  lemma FillCons(c: char, rest: string, filled: string, n: nat)
    requires !("[#]" <= [c] + rest) && Fill(rest, n) == filled
    ensures Fill([c] + rest, n) == [c] + filled
  {
    assert ([c] + rest)[1..] == rest;
  }

  lemma {:induction false} FillAppend(digit: char -> bool, a: string, b: string, n: nat)
    requires PlainName(digit, a) && (b == "" || b[0] == '.' || b[0] == '[')
    ensures Fill(a + b, n) == a + Fill(b, n)
  {
    if a == "" {
      assert a + b == b;
    } else {
      PlainRest(digit, a);
      FillAppend(digit, a[1..], b, n);
      NoMarkAcross(digit, a, b);
      Regroup(a[0], [a[0]] + (a[1..] + b), a[1..] + b, a, a[1..], b);
      FillCons(a[0], a[1..] + b, a[1..] + Fill(b, n), n);
      Regroup(a[0], Fill(a + b, n), a[1..] + Fill(b, n), a, a[1..], Fill(b, n));
    }
  }

  lemma {:induction false} CanonicalPlain(digit: char -> bool, a: string)
    requires PlainName(digit, a)
    ensures Canonical(digit, a) == a
  {
    if a != "" {
      PlainRest(digit, a);
      CanonicalPlain(digit, a[1..]);
    }
  }

  lemma FillSlice(rest: string, n: nat)
    ensures Fill("[#]" + rest, n) == "[" + Decimal(n) + "]" + Fill(rest, n)
  {
    assert ("[#]" + rest)[..3] == "[#]" && ("[#]" + rest)[3..] == rest;
  }

  /** One step's own part of the path, followed by the rest. */
  lemma FillOwn(digit: char -> bool, step: Segment, rest: string, n: nat)
    requires PlainName(digit, step.name) && (rest == "" || rest[0] == '.')
    ensures Fill(OwnCanonical(digit, step) + rest, n) == OwnDispatched(step, n) + Fill(rest, n)
  {
    CanonicalPlain(digit, step.name);
    if step.scattered {
      assert step.name + "[#]" + rest == step.name + ("[#]" + rest);
      FillAppend(digit, step.name, "[#]" + rest, n);
      FillSlice(rest, n);
      assert step.name + ("[" + Decimal(n) + "]") + Fill(rest, n) == step.name + ("[" + Decimal(n) + "]" + Fill(rest, n));
    } else {
      FillAppend(digit, step.name, rest, n);
    }
  }

  /** With plain names the canonical path says exactly which paths a step can be dispatched under. */
  lemma {:induction false} FillJoined(digit: char -> bool, steps: seq<Segment>, slices: seq<nat>, n: nat)
    requires Plain(digit, steps) && |slices| == |steps| && forall k :: 0 <= k < |slices| ==> slices[k] == n
    ensures Fill(JoinedCanonical(digit, steps), n) == Dispatched(steps, slices)
  {
    if |steps| == 1 {
      FillOwn(digit, steps[0], "", n);
      assert OwnCanonical(digit, steps[0]) + "" == OwnCanonical(digit, steps[0]);
    } else if |steps| > 1 {
      FillJoined(digit, steps[1..], slices[1..], n);
      var rest := JoinedCanonical(digit, steps[1..]);
      assert ("." + rest)[1..] == rest;
      FillOwn(digit, steps[0], "." + rest, n);
    }
  }

  lemma ClashShares(digit: char -> bool, p: StepPath, q: StepPath)
    requires Describes(digit, p) && Describes(digit, q) && Plain(digit, p.steps) && Plain(digit, q.steps) && Clash(p, q)
    ensures CanShare(p, q)
  {
    var i, j := seq(|p.steps|, _ => 0), seq(|q.steps|, _ => 0);
    FillJoined(digit, p.steps, i, 0);
    FillJoined(digit, q.steps, j, 0);
    assert Dispatched(p.steps, i) == Dispatched(q.steps, j);
  }

  /** Where nothing is scattered the check compares the paths as they are. */
  lemma LiteralExact(digit: char -> bool, p: StepPath, q: StepPath)
    requires DigitClass(digit) && Describes(digit, p) && Describes(digit, q) && !p.scattered && !q.scattered
    ensures Clash(p, q) <==> CanShare(p, q)
    ensures CanShare(p, q) <==> JoinedLiteral(p.steps) == JoinedLiteral(q.steps)
  {
    var i, j := seq(|p.steps|, _ => 0), seq(|q.steps|, _ => 0);
    DispatchedLiteral(p.steps, i);
    DispatchedLiteral(q.steps, j);
    DispatchedCanonical(digit, p.steps, i);
    DispatchedCanonical(digit, q.steps, j);
    if x, y :| |x| == |p.steps| && |y| == |q.steps| && Dispatched(p.steps, x) == Dispatched(q.steps, y) {
      DispatchedLiteral(p.steps, x);
      DispatchedLiteral(q.steps, y);
    }
    if JoinedLiteral(p.steps) == JoinedLiteral(q.steps) {
      assert Dispatched(p.steps, i) == Dispatched(q.steps, j);
    }
  }

  lemma PlainListedExact(digit: char -> bool, refs: seq<StepRef>)
    requires DigitClass(digit) && forall p :: p in Paths(digit, refs) ==> Plain(digit, p.steps)
    ensures AnyClash(Paths(digit, refs)) <==> AnyListedShare(Paths(digit, refs))
  {
    var paths := Paths(digit, refs);
    PathsDescribe(digit, refs);
    if a, b :| 0 <= a < b < |paths| && Clash(paths[a], paths[b]) {
      ClashShares(digit, paths[a], paths[b]);
    }
    if a, b :| 0 <= a < b < |paths| && CanShare(paths[a], paths[b]) {
      ListedNeverShare(digit, refs, a, b);
    }
  }

  /** With names free of slices and slice marks, the check refuses exactly the recipes in which two steps can share a path. */
  lemma PlainExact(digit: char -> bool, refs: seq<StepRef>)
    requires DigitClass(digit) && forall at :: Declared(refs, at) ==> Plain(digit, SegmentsAt(refs, at))
    ensures AnyClash(Paths(digit, refs)) <==> AnyShare(refs)
  {
    var paths := Paths(digit, refs);
    PathsComplete(digit, refs);
    var ats :| OnePathEach(refs, paths, ats);
    ShareIffListed(refs, paths, ats);
    forall p | p in paths ensures Plain(digit, p.steps) {
      var k :| 0 <= k < |paths| && paths[k] == p;
      assert ats[k] in ats;
    }
    PlainListedExact(digit, refs);
  }

  lemma SlicesDiffer(a: string, b: string, i: seq<nat>, j: seq<nat>, k: nat)
    requires |i| == 1 && |j| == 1 && k < |a| && k < |b| && a[k] != b[k]
    ensures Dispatched([Segment(a, true)], i) != Dispatched([Segment(b, true)], j)
  {
    assert Dispatched([Segment(a, true)], i)[k] == a[k];
    assert Dispatched([Segment(b, true)], j)[k] == b[k];
  }

  lemma PathsOfTwo(digit: char -> bool, x: StepRef, y: StepRef)
    requires x.nested == [] && y.nested == []
    ensures Paths(digit, [x, y]) == [OwnPath(digit, x), OwnPath(digit, y)]
  {
    assert [x, y][1..] == [y] && [y][1..] == [];
    assert Paths(digit, [y]) == [OwnPath(digit, y)];
  }

  lemma BracketsClash(digit: char -> bool)
    requires DigitClass(digit)
    ensures Clash(OwnPath(digit, StepRef("a[1]", true, [])), OwnPath(digit, StepRef("a[2]", true, [])))
  {
    CanonicalSlice(digit, "a", 1);
    CanonicalSlice(digit, "a", 2);
    assert "a" + ("[" + Decimal(1) + "]") == "a[1]";
    assert "a" + ("[" + Decimal(2) + "]") == "a[2]";
  }

  /** With brackets it may refuse without need: these two steps never share a path. */
  lemma RefusedWithoutNeed(digit: char -> bool)
    requires DigitClass(digit)
    ensures
      var paths := Paths(digit, [StepRef("a[1]", true, []), StepRef("a[2]", true, [])]);
      |paths| == 2 && AnyClash(paths) && !CanShare(paths[0], paths[1])
  {
    var x, y := StepRef("a[1]", true, []), StepRef("a[2]", true, []);
    var p, q := OwnPath(digit, x), OwnPath(digit, y);
    PathsOfTwo(digit, x, y);
    BracketsClash(digit);
    assert Clash([p, q][0], [p, q][1]);
    forall i: seq<nat>, j: seq<nat> | |i| == 1 && |j| == 1 ensures Dispatched(p.steps, i) != Dispatched(q.steps, j) {
      SlicesDiffer("a[1]", "a[2]", i, j, 2);
    }
  }
}
