/** JSON payloads as cells that refer to each other, positions in them, and the resolver of
    dotted paths with wildcards. A Python reference to a container is a `Ref`; editing a container
    in place replaces its cell and leaves every reference to it valid. */
module PayloadPaths {
  import opened Wrappers

  type Ref = nat

  /** A scalar, a list of references, or a dictionary with its keys in insertion order. */
  datatype Cell =
    | Scalar(truthy: bool, text: string)
    | ListCell(items: seq<Ref>)
    | DictCell(keys: seq<string>, vals: map<string, Ref>)

  type Cells = map<Ref, Cell>

  ghost predicate WellFormed(cells: Cells) {
    forall r <- cells.Keys :: CellWellFormed(cells, cells[r])
  }

  ghost predicate CellWellFormed(cells: Cells, cell: Cell) {
    match cell
    case Scalar(_, _) => true
    case ListCell(items) => forall i <- items :: i in cells
    case DictCell(keys, vals) =>
      && (forall k :: k in keys <==> k in vals)
      && (forall k <- vals.Keys :: vals[k] in cells)
      && (forall i, j :: 0 <= i < j < |keys| ==> keys[i] != keys[j])
  }

  // --- positions ---

  /** One step down a payload: into a list element, or into a dictionary value. */
  datatype Step = Index(index: nat) | Key(key: string)

  type Position = seq<Step>

  /** The reference that `step` leads to from a cell. */
  function Child(cell: Cell, step: Step): Option<Ref> {
    match (cell, step)
    case (ListCell(items), Index(i)) => if i < |items| then Some(items[i]) else None
    case (DictCell(keys, vals), Key(k)) => if k in vals then Some(vals[k]) else None
    case _ => None
  }

  /** The reference at a position below `root`, if the payload has that position. */
  function Walk(cells: Cells, root: Ref, position: Position): Option<Ref> {
    if position == [] then
      if root in cells then Some(root) else None
    else
      match Walk(cells, root, position[..|position| - 1])
      case None => None
      case Some(r) => if r in cells then Child(cells[r], position[|position| - 1]) else None
  }

  /** No container is shared: two positions never lead to the same reference. Parsed JSON is such a tree. */
  ghost predicate IsTree(cells: Cells, root: Ref) {
    && WellFormed(cells)
    && root in cells
    && forall p, q :: Walk(cells, root, p).Some? && Walk(cells, root, p) == Walk(cells, root, q) ==> p == q
  }

  lemma {:induction false} WalkStaysInside(cells: Cells, root: Ref, position: Position)
    requires WellFormed(cells) && Walk(cells, root, position).Some?
    ensures Walk(cells, root, position).value in cells
    ensures forall n :: 0 <= n <= |position| ==> Walk(cells, root, position[..n]).Some?
  {
    var n := |position|;
    assert position[..n] == position;
    if n != 0 {
      WalkStaysInside(cells, root, position[..n - 1]);
      assert forall m :: 0 <= m <= n - 1 ==> position[..n - 1][..m] == position[..m];
      var r := Walk(cells, root, position[..n - 1]).value;
      assert CellWellFormed(cells, cells[r]);
    }
  }

  lemma {:induction false} WalkFrom(cells: Cells, root: Ref, p: Position, q: Position)
    requires WellFormed(cells)
    ensures Walk(cells, root, p + q)
            == match Walk(cells, root, p) case None => None case Some(r) => Walk(cells, r, q)
  {
    if q == [] {
      assert p + q == p;
      if Walk(cells, root, p).Some? { WalkStaysInside(cells, root, p); }
    } else {
      var init := q[..|q| - 1];
      assert (p + q)[..|p + q| - 1] == p + init;
      WalkFrom(cells, root, p, init);
    }
  }

  // --- paths ---

  const WILDCARD := "*"

  predicate StepMatches(segment: string, step: Step) {
    segment == "*" || step == Key(segment)
  }

  predicate Matches(segments: seq<string>, position: Position) {
    |segments| == |position| && forall i :: 0 <= i < |segments| ==> StepMatches(segments[i], position[i])
  }

  function Values(keys: seq<string>, vals: map<string, Ref>): seq<Ref> {
    if keys == [] then []
    else if keys[0] in vals then [vals[keys[0]]] + Values(keys[1..], vals)
    else Values(keys[1..], vals)
  }

  /** The references one segment leads to from a reference, in document order. */
  function Expand(cells: Cells, r: Ref, segment: string): seq<Ref> {
    if r !in cells then [] else
      match cells[r]
      case Scalar(_, _) => []
      case ListCell(items) => if segment == WILDCARD then items else []
      case DictCell(keys, vals) =>
        if segment == WILDCARD then Values(keys, vals)
        else if segment in vals then [vals[segment]] else []
  }

  function ExpandAll(cells: Cells, rs: seq<Ref>, segment: string): seq<Ref> {
    if rs == [] then [] else Expand(cells, rs[0], segment) + ExpandAll(cells, rs[1..], segment)
  }

  /** The recursive meaning of a path: depth first, children in document order. */
  function Resolve(cells: Cells, r: Ref, segments: seq<string>): seq<Ref>
    decreases |segments|, 1, 0
  {
    if segments == [] then [r] else ResolveAll(cells, Expand(cells, r, segments[0]), segments[1..])
  }

  function ResolveAll(cells: Cells, rs: seq<Ref>, segments: seq<string>): seq<Ref>
    decreases |segments|, 2, |rs|
  {
    if rs == [] then [] else Resolve(cells, rs[0], segments) + ResolveAll(cells, rs[1..], segments)
  }

  lemma {:induction false} ResolveAllNone(cells: Cells, rs: seq<Ref>)
    ensures ResolveAll(cells, rs, []) == rs
  {
    if rs != [] { ResolveAllNone(cells, rs[1..]); }
  }

  lemma ResolveAllEmpty(cells: Cells, segments: seq<string>)
    ensures ResolveAll(cells, [], segments) == []
  {
  }

  lemma {:induction false} ResolveAllConcat(cells: Cells, a: seq<Ref>, b: seq<Ref>, segments: seq<string>)
    ensures ResolveAll(cells, a + b, segments) == ResolveAll(cells, a, segments) + ResolveAll(cells, b, segments)
  {
    if a == [] {
      assert a + b == b;
    } else {
      assert (a + b)[1..] == a[1..] + b;
      ResolveAllConcat(cells, a[1..], b, segments);
    }
  }

  /** Breadth-first and depth-first agree: expanding a whole frontier by one segment does not
      change what it resolves to. */
  lemma {:induction false} FrontierStep(cells: Cells, rs: seq<Ref>, segments: seq<string>)
    requires segments != []
    ensures ResolveAll(cells, rs, segments) == ResolveAll(cells, ExpandAll(cells, rs, segments[0]), segments[1..])
  {
    if rs != [] {
      FrontierStep(cells, rs[1..], segments);
      ResolveAllConcat(cells, Expand(cells, rs[0], segments[0]), ExpandAll(cells, rs[1..], segments[0]), segments[1..]);
    }
  }

  /** Resolving p.q is resolving q at each match of p, in order. */
  lemma {:induction false} ResolveComposes(cells: Cells, rs: seq<Ref>, p: seq<string>, q: seq<string>)
    ensures ResolveAll(cells, rs, p + q) == ResolveAll(cells, ResolveAll(cells, rs, p), q)
    decreases |p|
  {
    if p == [] {
      assert p + q == q;
      ResolveAllNone(cells, rs);
    } else {
      assert (p + q)[1..] == p[1..] + q;
      FrontierStep(cells, rs, p + q);
      FrontierStep(cells, rs, p);
      ResolveComposes(cells, ExpandAll(cells, rs, p[0]), p[1..], q);
    }
  }

  lemma ResolveOne(cells: Cells, r: Ref, segments: seq<string>)
    ensures ResolveAll(cells, [r], segments) == Resolve(cells, r, segments)
  {
    assert ResolveAll(cells, [r][1..], segments) == [];
  }

  // --- what a path resolves to, as positions ---

  lemma {:induction false} ValuesContain(keys: seq<string>, vals: map<string, Ref>, r: Ref)
    ensures r in Values(keys, vals) <==> exists k <- keys :: k in vals && vals[k] == r
  {
    if keys != [] {
      ValuesContain(keys[1..], vals, r);
      assert forall k :: k in keys <==> k == keys[0] || k in keys[1..];
    }
  }

  lemma ExpandContains(cells: Cells, r: Ref, segment: string, child: Ref)
    requires WellFormed(cells) && r in cells
    ensures child in Expand(cells, r, segment)
            <==> exists step :: StepMatches(segment, step) && Child(cells[r], step) == Some(child)
  {
    assert CellWellFormed(cells, cells[r]);
    match cells[r]
    case Scalar(_, _) =>
    case ListCell(items) =>
      if child in Expand(cells, r, segment) {
        var i :| 0 <= i < |items| && items[i] == child;
        assert Child(cells[r], Index(i)) == Some(child);
      }
    case DictCell(keys, vals) =>
      ValuesContain(keys, vals, child);
      if child in Expand(cells, r, segment) {
        if segment == WILDCARD {
          var k :| k in keys && k in vals && vals[k] == child;
          assert Child(cells[r], Key(k)) == Some(child);
        } else {
          assert Child(cells[r], Key(segment)) == Some(child);
        }
      }
  }

  lemma ResolveLast(cells: Cells, root: Ref, segments: seq<string>, last: string, r: Ref)
    ensures r in Resolve(cells, root, segments + [last])
            <==> exists parent <- Resolve(cells, root, segments) :: r in Expand(cells, parent, last)
  {
    hide Resolve, ResolveAll, Expand;
    ResolveOne(cells, root, segments + [last]);
    ResolveOne(cells, root, segments);
    ResolveComposes(cells, [root], segments, [last]);
    ResolveAllContains(cells, Resolve(cells, root, segments), last, r);
  }

  lemma {:induction false} MatchIsResolved(cells: Cells, root: Ref, segments: seq<string>, position: Position, r: Ref)
    requires WellFormed(cells) && root in cells
    requires Matches(segments, position) && Walk(cells, root, position) == Some(r)
    ensures r in Resolve(cells, root, segments)
    decreases |segments|
  {
    var n := |segments|;
    if n != 0 {
      hide Resolve, Expand;
      var init, last := segments[..n - 1], segments[n - 1];
      var p, step := position[..n - 1], position[n - 1];
      assert segments == init + [last] && StepMatches(last, step);
      var parent := Walk(cells, root, p).value;
      WalkStaysInside(cells, root, p);
      MatchIsResolved(cells, root, init, p, parent);
      ExpandContains(cells, parent, last, r);
      ResolveLast(cells, root, init, last, r);
    }
  }

  lemma {:induction false} ResolvedIsMatch(cells: Cells, root: Ref, segments: seq<string>, r: Ref)
    returns (position: Position)
    requires WellFormed(cells) && root in cells && r in Resolve(cells, root, segments)
    ensures Matches(segments, position) && Walk(cells, root, position) == Some(r)
    decreases |segments|
  {
    var n := |segments|;
    position := [];
    if n != 0 {
      hide Resolve, Expand, Child, WellFormed, Walk;
      var init, last := segments[..n - 1], segments[n - 1];
      assert segments == init + [last];
      ResolveLast(cells, root, init, last, r);
      var parent :| parent in Resolve(cells, root, init) && r in Expand(cells, parent, last);
      var p := ResolvedIsMatch(cells, root, init, parent);
      var step := StepDown(cells, root, p, last, r);
      position := p + [step];
    }
  }

  lemma StepDown(cells: Cells, root: Ref, p: Position, segment: string, r: Ref) returns (step: Step)
    requires WellFormed(cells) && Walk(cells, root, p).Some? && r in Expand(cells, Walk(cells, root, p).value, segment)
    ensures StepMatches(segment, step) && Walk(cells, root, p + [step]) == Some(r)
  {
    var parent := Walk(cells, root, p).value;
    WalkStaysInside(cells, root, p);
    ExpandContains(cells, parent, segment, r);
    step :| StepMatches(segment, step) && Child(cells[parent], step) == Some(r);
    assert (p + [step])[..|p|] == p;
  }

  /** A path resolves to exactly the references at the positions it matches. */
  lemma ResolveIsMatching(cells: Cells, root: Ref, segments: seq<string>, r: Ref)
    requires WellFormed(cells) && root in cells
    ensures r in Resolve(cells, root, segments)
            <==> exists position :: Matches(segments, position) && Walk(cells, root, position) == Some(r)
  {
    if r in Resolve(cells, root, segments) {
      var position := ResolvedIsMatch(cells, root, segments, r);
    }
    if position :| Matches(segments, position) && Walk(cells, root, position) == Some(r) {
      MatchIsResolved(cells, root, segments, position, r);
    }
  }

  lemma {:induction false} ResolveAllContains(cells: Cells, rs: seq<Ref>, segment: string, r: Ref)
    ensures r in ResolveAll(cells, rs, [segment]) <==> exists parent <- rs :: r in Expand(cells, parent, segment)
  {
    if rs != [] {
      ResolveAllContains(cells, rs[1..], segment, r);
      assert [segment][1..] == [];
      ResolveAllNone(cells, Expand(cells, rs[0], segment));
      assert forall parent :: parent in rs <==> parent == rs[0] || parent in rs[1..];
    }
  }

  // --- the resolver ---

  /** Splits at every `separator`; the parts contain none. */
  function Split(s: string, separator: char): (parts: seq<string>)
    ensures |parts| >= 1
    ensures forall part <- parts :: separator !in part
  {
    if s == [] then [""]
    else if s[0] == separator then [""] + Split(s[1..], separator)
    else
      var rest := Split(s[1..], separator);
      [[s[0]] + rest[0]] + rest[1..]
  }

  lemma {:induction false} SplitWithoutSeparator(s: string, separator: char)
    requires separator !in s
    ensures Split(s, separator) == [s]
  {
    if s != [] {
      assert s[0] in s && forall c <- s[1..] :: c in s;
      SplitWithoutSeparator(s[1..], separator);
      assert [s[0]] + s[1..] == s;
    }
  }

  function Segments(path: string): seq<string> { NonEmpty(Split(path, '.')) }

  lemma {:induction false} SplitAtSeparator(p: string, separator: char, q: string)
    ensures Split(p + [separator] + q, separator) == Split(p, separator) + Split(q, separator)
  {
    if p == [] {
      assert p + [separator] + q == [separator] + q;
    } else {
      assert (p + [separator] + q)[1..] == p[1..] + [separator] + q;
      SplitAtSeparator(p[1..], separator, q);
    }
  }

  /** The resolver composes on path texts too: the segments of "p.q" are those of p, then those of q. */
  lemma SegmentsOfJoinedPaths(p: string, q: string)
    ensures Segments(p + "." + q) == Segments(p) + Segments(q)
  {
    SplitAtSeparator(p, '.', q);
    NonEmptyConcat(Split(p, '.'), Split(q, '.'));
  }

  lemma ExpandNone(cells: Cells, segment: string)
    ensures ExpandAll(cells, [], segment) == []
  {
  }

  lemma {:induction false} ExpandOneMore(cells: Cells, rs: seq<Ref>, r: Ref, segment: string)
    ensures ExpandAll(cells, rs + [r], segment) == ExpandAll(cells, rs, segment) + Expand(cells, r, segment)
  {
    hide Expand;
    if rs == [] {
      assert [r][1..] == [] && ExpandAll(cells, [], segment) == [];
    } else {
      assert (rs + [r])[1..] == rs[1..] + [r];
      ExpandOneMore(cells, rs[1..], r, segment);
    }
  }

  /** One segment of the walk: the children of every node of the frontier, in order. */
  method ExpandFrontier(cells: Cells, current: seq<Ref>, segment: string) returns (following: seq<Ref>)
    ensures following == ExpandAll(cells, current, segment)
  {
    hide Values, ExpandAll;
    following := [];
    ExpandNone(cells, segment);
    for j := 0 to |current|
      invariant following == ExpandAll(cells, current[..j], segment)
    {
      var node := current[j];
      ghost var before := following;
      assert current[..j + 1] == current[..j] + [node];
      ExpandOneMore(cells, current[..j], node, segment);
      if segment == WILDCARD {
        if node in cells && cells[node].ListCell? {
          following := following + cells[node].items;
        } else if node in cells && cells[node].DictCell? {
          following := following + Values(cells[node].keys, cells[node].vals);
        }
      } else if node in cells && cells[node].DictCell? && segment in cells[node].vals {
        following := following + [cells[node].vals[segment]];
      }
      assert following == before + Expand(cells, node, segment);
    }
    assert current[..|current|] == current;
  }

  /** All references in the payload at `root` that `path` addresses, in document order: the frontier
      loop with its early exit computes the recursive meaning. An empty path addresses nothing. */
  method ResolvePath(cells: Cells, root: Ref, path: string) returns (matches: seq<Ref>)
    ensures matches == if Segments(path) == [] then [] else Resolve(cells, root, Segments(path))
  {
    hide Resolve, ResolveAll, Segments, ExpandAll;
    var segments := Segments(path);
    if segments == [] {
      return [];
    }
    ResolveOne(cells, root, segments);
    assert segments[0..] == segments;
    var current := [root];
    for i := 0 to |segments|
      invariant ResolveAll(cells, current, segments[i..]) == Resolve(cells, root, segments)
    {
      assert segments[i..][1..] == segments[i + 1..];
      FrontierStep(cells, current, segments[i..]);
      var following := ExpandFrontier(cells, current, segments[i]);
      if following == [] {
        ResolveAllEmpty(cells, segments[i + 1..]);
        return [];
      }
      current := following;
    }
    assert segments[|segments|..] == [];
    ResolveAllNone(cells, current);
    return current;
  }
}
