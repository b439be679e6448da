/** The order and multiplicity of what a path resolves to: every matching position once, in the order a
    reader of the document meets them. */
module DocumentOrder {
  import opened Wrappers
  import opened PayloadPaths

  /** The steps one segment takes from a cell, in document order. */
  function Steps(cell: Cell, segment: string): seq<Step> {
    match cell
    case Scalar(_, _) => []
    case ListCell(items) => if segment == WILDCARD then Indices(|items|) else []
    case DictCell(keys, vals) =>
      if segment == WILDCARD then Keys(keys) else if segment in vals then [Key(segment)] else []
  }

  function Indices(n: nat): seq<Step> { if n == 0 then [] else Indices(n - 1) + [Index(n - 1)] }

  function Keys(keys: seq<string>): seq<Step> { if keys == [] then [] else [Key(keys[0])] + Keys(keys[1..]) }

  /** Of two children of a cell, `a` is written before `b`. */
  ghost predicate StepBefore(cell: Cell, a: Step, b: Step) {
    match cell
    case Scalar(_, _) => false
    case ListCell(items) => a.Index? && b.Index? && a.index < b.index
    case DictCell(keys, vals) => exists i, j :: 0 <= i < j < |keys| && a == Key(keys[i]) && b == Key(keys[j])
  }

  /** Of two positions below a reference, `p` is written before `q`: they part at some depth, and there
      p's step comes first. */
  ghost predicate PositionBefore(cells: Cells, r: Ref, p: Position, q: Position)
    decreases |p|
  {
    && p != [] && q != [] && r in cells
    && if p[0] == q[0] then
         Child(cells[r], p[0]).Some? && PositionBefore(cells, Child(cells[r], p[0]).value, p[1..], q[1..])
       else StepBefore(cells[r], p[0], q[0])
  }

  /** The matching positions of a path, depth first. */
  function MatchesOf(cells: Cells, r: Ref, segments: seq<string>): seq<Position>
    decreases |segments|, 1, 0
  {
    if segments == [] then [[]]
    else if r !in cells then []
    else MatchesVia(cells, r, Steps(cells[r], segments[0]), segments[1..])
  }

  function MatchesVia(cells: Cells, r: Ref, steps: seq<Step>, segments: seq<string>): seq<Position>
    decreases |segments|, 2, |steps|
  {
    if steps == [] || r !in cells then []
    else
      (match Child(cells[r], steps[0])
       case None => []
       case Some(child) => Prefixed(steps[0], MatchesOf(cells, child, segments)))
      + MatchesVia(cells, r, steps[1..], segments)
  }

  function Prefixed(step: Step, positions: seq<Position>): (prefixed: seq<Position>)
    ensures |prefixed| == |positions|
    ensures forall i :: 0 <= i < |positions| ==> prefixed[i] == [step] + positions[i]
  {
    seq(|positions|, i requires 0 <= i < |positions| => [step] + positions[i])
  }

  ghost predicate InOrder(cells: Cells, r: Ref, positions: seq<Position>) {
    forall i, j :: 0 <= i < j < |positions| ==> PositionBefore(cells, r, positions[i], positions[j])
  }

  ghost predicate StepsInOrder(cell: Cell, steps: seq<Step>) {
    && (forall i, j :: 0 <= i < j < |steps| ==> StepBefore(cell, steps[i], steps[j]) && steps[i] != steps[j])
    && (forall step <- steps :: Child(cell, step).Some?)
  }

  lemma {:induction false} IndicesAt(n: nat)
    ensures |Indices(n)| == n && forall i :: 0 <= i < n ==> Indices(n)[i] == Index(i)
  {
    if n != 0 { IndicesAt(n - 1); }
  }

  lemma {:induction false} KeysAt(keys: seq<string>)
    ensures |Keys(keys)| == |keys| && forall i :: 0 <= i < |keys| ==> Keys(keys)[i] == Key(keys[i])
  {
    if keys != [] { KeysAt(keys[1..]); }
  }

  lemma KeysInOrder(cell: Cell)
    requires cell.DictCell? && (forall k <- cell.keys :: k in cell.vals)
    requires forall i, j :: 0 <= i < j < |cell.keys| ==> cell.keys[i] != cell.keys[j]
    ensures StepsInOrder(cell, Keys(cell.keys))
  {
    hide Keys;
    KeysAt(cell.keys);
    var steps := Keys(cell.keys);
    forall i, j | 0 <= i < j < |steps| ensures StepBefore(cell, steps[i], steps[j]) && steps[i] != steps[j] {
      assert steps[i] == Key(cell.keys[i]) && steps[j] == Key(cell.keys[j]);
    }
    forall step <- steps ensures Child(cell, step).Some? {
      var i :| 0 <= i < |steps| && steps[i] == step;
      assert cell.keys[i] in cell.keys;
    }
  }

  lemma IndicesInOrder(cell: Cell)
    requires cell.ListCell?
    ensures StepsInOrder(cell, Indices(|cell.items|))
  {
    hide Indices;
    IndicesAt(|cell.items|);
  }

  lemma StepsAreInOrder(cells: Cells, r: Ref, segment: string)
    requires WellFormed(cells) && r in cells
    ensures StepsInOrder(cells[r], Steps(cells[r], segment))
  {
    hide Keys, Indices;
    assert CellWellFormed(cells, cells[r]);
    match cells[r]
    case Scalar(_, _) =>
    case ListCell(items) => IndicesInOrder(cells[r]);
    case DictCell(keys, vals) => KeysInOrder(cells[r]);
  }

  lemma PrefixedInOrder(cells: Cells, r: Ref, step: Step, positions: seq<Position>)
    requires r in cells && Child(cells[r], step).Some? && InOrder(cells, Child(cells[r], step).value, positions)
    ensures InOrder(cells, r, Prefixed(step, positions))
  {
    var prefixed := Prefixed(step, positions);
    forall i, j | 0 <= i < j < |positions| ensures PositionBefore(cells, r, prefixed[i], prefixed[j]) {
      assert prefixed[i][1..] == positions[i] && prefixed[j][1..] == positions[j];
    }
  }

  lemma {:induction false} ViaStartsWithStep(cells: Cells, r: Ref, steps: seq<Step>, segments: seq<string>)
    ensures forall position <- MatchesVia(cells, r, steps, segments) :: position != [] && position[0] in steps
  {
    if steps != [] && r in cells {
      ViaStartsWithStep(cells, r, steps[1..], segments);
      assert steps[0] in steps && forall step <- steps[1..] :: step in steps;
    }
  }

  lemma FirstStepFirst(cells: Cells, r: Ref, steps: seq<Step>, first: seq<Position>, rest: seq<Position>)
    requires r in cells && steps != [] && StepsInOrder(cells[r], steps)
    requires forall position <- rest :: position != [] && position[0] in steps[1..]
    ensures var a := Prefixed(steps[0], first);
            forall i, j :: 0 <= i < |a| && 0 <= j < |rest| ==> PositionBefore(cells, r, a[i], rest[j])
  {
    hide Child;
    var a := Prefixed(steps[0], first);
    forall i, j | 0 <= i < |a| && 0 <= j < |rest| ensures PositionBefore(cells, r, a[i], rest[j]) {
      assert rest[j] in rest;
      var k :| 0 <= k < |steps| - 1 && steps[1..][k] == rest[j][0];
      assert StepBefore(cells[r], steps[0], steps[k + 1]);
    }
  }

  lemma {:induction false} ViaInOrder(cells: Cells, r: Ref, steps: seq<Step>, segments: seq<string>)
    requires WellFormed(cells) && r in cells && StepsInOrder(cells[r], steps)
    ensures InOrder(cells, r, MatchesVia(cells, r, steps, segments))
    decreases |segments|, 2, |steps|
  {
    if steps != [] {
      var step, rest := steps[0], steps[1..];
      assert step in steps && forall s <- rest :: s in steps;
      assert forall i :: 0 <= i < |rest| ==> rest[i] == steps[i + 1];
      var child := Child(cells[r], step).value;
      MatchesInOrder(cells, child, segments);
      PrefixedInOrder(cells, r, step, MatchesOf(cells, child, segments));
      ViaInOrder(cells, r, rest, segments);
      ViaStartsWithStep(cells, r, rest, segments);
      var matches, others := MatchesOf(cells, child, segments), MatchesVia(cells, r, rest, segments);
      FirstStepFirst(cells, r, steps, matches, others);
      InOrderConcat(cells, r, Prefixed(step, matches), others);
    }
  }

  lemma InOrderConcat(cells: Cells, r: Ref, a: seq<Position>, b: seq<Position>)
    requires InOrder(cells, r, a) && InOrder(cells, r, b)
    requires forall i, j :: 0 <= i < |a| && 0 <= j < |b| ==> PositionBefore(cells, r, a[i], b[j])
    ensures InOrder(cells, r, a + b)
  {
    hide PositionBefore;
  }

  /** The matches come in document order, so none comes twice. */
  lemma {:induction false} MatchesInOrder(cells: Cells, r: Ref, segments: seq<string>)
    requires WellFormed(cells)
    ensures InOrder(cells, r, MatchesOf(cells, r, segments))
    decreases |segments|, 1, 0
  {
    if segments != [] && r in cells {
      StepsAreInOrder(cells, r, segments[0]);
      ViaInOrder(cells, r, Steps(cells[r], segments[0]), segments[1..]);
    }
  }

  function ChildrenOf(cell: Cell, steps: seq<Step>): seq<Ref>
    requires forall step <- steps :: Child(cell, step).Some?
  {
    if steps == [] then [] else
      assert steps[0] in steps && forall step <- steps[1..] :: step in steps;
      [Child(cell, steps[0]).value] + ChildrenOf(cell, steps[1..])
  }

  lemma {:induction false} ChildrenAt(cell: Cell, steps: seq<Step>)
    requires forall step <- steps :: Child(cell, step).Some?
    ensures |ChildrenOf(cell, steps)| == |steps|
    ensures forall i :: 0 <= i < |steps| ==> ChildrenOf(cell, steps)[i] == Child(cell, steps[i]).value
  {
    if steps != [] {
      assert steps[0] in steps && forall step <- steps[1..] :: step in steps;
      ChildrenAt(cell, steps[1..]);
    }
  }

  lemma {:induction false} ValuesAt(keys: seq<string>, vals: map<string, Ref>)
    requires forall k <- keys :: k in vals
    ensures |Values(keys, vals)| == |keys| && forall i :: 0 <= i < |keys| ==> Values(keys, vals)[i] == vals[keys[i]]
  {
    if keys != [] {
      assert keys[0] in keys && forall k <- keys[1..] :: k in keys;
      ValuesAt(keys[1..], vals);
    }
  }

  lemma ExpandIsChildren(cells: Cells, r: Ref, segment: string)
    requires WellFormed(cells) && r in cells
    ensures StepsInOrder(cells[r], Steps(cells[r], segment))
    ensures Expand(cells, r, segment) == ChildrenOf(cells[r], Steps(cells[r], segment))
  {
    hide Keys, Indices, Values, ChildrenOf;
    StepsAreInOrder(cells, r, segment);
    ChildrenAt(cells[r], Steps(cells[r], segment));
    assert CellWellFormed(cells, cells[r]);
    match cells[r]
    case Scalar(_, _) =>
    case ListCell(items) => IndicesAt(|items|);
    case DictCell(keys, vals) =>
      KeysAt(keys);
      ValuesAt(keys, vals);
  }

  /** `refs` are the references the positions lead to from r, one for one. */
  ghost predicate LeadTo(cells: Cells, r: Ref, positions: seq<Position>, refs: seq<Ref>) {
    |positions| == |refs| && forall i :: 0 <= i < |refs| ==> Walk(cells, r, positions[i]) == Some(refs[i])
  }

  lemma PrefixedLeadTo(cells: Cells, r: Ref, step: Step, positions: seq<Position>, refs: seq<Ref>)
    requires WellFormed(cells) && r in cells && Child(cells[r], step).Some?
    requires LeadTo(cells, Child(cells[r], step).value, positions, refs)
    ensures LeadTo(cells, r, Prefixed(step, positions), refs)
  {
    forall i | 0 <= i < |refs| ensures Walk(cells, r, [step] + positions[i]) == Some(refs[i]) {
      WalkFrom(cells, r, [step], positions[i]);
      assert [step][..0] == [] && Walk(cells, r, []) == Some(r);
    }
  }

  lemma {:induction false} ViaLeadTo(cells: Cells, r: Ref, steps: seq<Step>, segments: seq<string>)
    requires WellFormed(cells) && r in cells && forall step <- steps :: Child(cells[r], step).Some?
    ensures LeadTo(cells, r, MatchesVia(cells, r, steps, segments),
                   ResolveAll(cells, ChildrenOf(cells[r], steps), segments))
    decreases |segments|, 2, |steps|
  {
    if steps != [] {
      hide Walk, MatchesOf, MatchesVia, Resolve, ResolveAll, ChildrenOf, LeadTo;
      assert steps[0] in steps && forall step <- steps[1..] :: step in steps;
      var child := Child(cells[r], steps[0]).value;
      ChildInside(cells, r, steps[0]);
      MatchesLeadTo(cells, child, segments);
      PrefixedLeadTo(cells, r, steps[0], MatchesOf(cells, child, segments), Resolve(cells, child, segments));
      ViaLeadTo(cells, r, steps[1..], segments);
      Unfold(cells, r, steps, segments);
      LeadToConcat(cells, r, Prefixed(steps[0], MatchesOf(cells, child, segments)), Resolve(cells, child, segments),
                   MatchesVia(cells, r, steps[1..], segments),
                   ResolveAll(cells, ChildrenOf(cells[r], steps[1..]), segments));
    } else {
      assert MatchesVia(cells, r, steps, segments) == [] && ChildrenOf(cells[r], steps) == [];
    }
  }

  lemma ChildInside(cells: Cells, r: Ref, step: Step)
    requires WellFormed(cells) && r in cells && Child(cells[r], step).Some?
    ensures Child(cells[r], step).value in cells
  {
    assert CellWellFormed(cells, cells[r]);
  }

  lemma Unfold(cells: Cells, r: Ref, steps: seq<Step>, segments: seq<string>)
    requires steps != [] && r in cells && forall step <- steps :: Child(cells[r], step).Some?
    requires Child(cells[r], steps[0]).Some? && forall step <- steps[1..] :: Child(cells[r], step).Some?
    ensures var child := Child(cells[r], steps[0]).value;
            && MatchesVia(cells, r, steps, segments)
               == Prefixed(steps[0], MatchesOf(cells, child, segments)) + MatchesVia(cells, r, steps[1..], segments)
            && ResolveAll(cells, ChildrenOf(cells[r], steps), segments)
               == Resolve(cells, child, segments) + ResolveAll(cells, ChildrenOf(cells[r], steps[1..]), segments)
  {
    hide MatchesOf, Resolve;
    assert ChildrenOf(cells[r], steps)[1..] == ChildrenOf(cells[r], steps[1..]);
  }

  lemma LeadToConcat(cells: Cells, r: Ref, a: seq<Position>, refsA: seq<Ref>, b: seq<Position>, refsB: seq<Ref>)
    requires LeadTo(cells, r, a, refsA) && LeadTo(cells, r, b, refsB)
    ensures LeadTo(cells, r, a + b, refsA + refsB)
  {
    hide Walk;
  }

  /** What a path resolves to are the references at its matching positions, one for one: in document
      order, each match once. */
  lemma {:induction false} MatchesLeadTo(cells: Cells, r: Ref, segments: seq<string>)
    requires WellFormed(cells) && r in cells
    ensures LeadTo(cells, r, MatchesOf(cells, r, segments), Resolve(cells, r, segments))
    decreases |segments|, 1, 0
  {
    if segments == [] {
      assert Walk(cells, r, []) == Some(r);
    } else {
      ExpandIsChildren(cells, r, segments[0]);
      ViaLeadTo(cells, r, Steps(cells[r], segments[0]), segments[1..]);
    }
  }

  /** In a tree the depth-first list holds exactly the positions the path matches. */
  lemma MatchesAreComplete(cells: Cells, root: Ref, segments: seq<string>, position: Position)
    requires IsTree(cells, root)
    ensures position in MatchesOf(cells, root, segments)
            <==> Matches(segments, position) && Walk(cells, root, position).Some?
  {
    hide MatchesOf, Resolve, Walk, Matches;
    var positions, refs := MatchesOf(cells, root, segments), Resolve(cells, root, segments);
    MatchesLeadTo(cells, root, segments);
    if position in positions {
      var i :| 0 <= i < |positions| && positions[i] == position;
      ResolveIsMatching(cells, root, segments, refs[i]);
      var other :| Matches(segments, other) && Walk(cells, root, other) == Some(refs[i]);
      assert other == position;
    }
    if Matches(segments, position) && Walk(cells, root, position).Some? {
      var r := Walk(cells, root, position).value;
      ResolveIsMatching(cells, root, segments, r);
      var i :| 0 <= i < |refs| && refs[i] == r;
      assert Walk(cells, root, positions[i]) == Walk(cells, root, position);
    }
  }
}
