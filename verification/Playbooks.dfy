/** Playbooks: chains of tool calls declared as data. The reverse index from operations to steps, the
    lint of a chain's own graph, and the hints rendered for an operation that is a step of several chains. */
module Playbooks {
  import opened Wrappers

  datatype VerifyWith = VerifyWith(operationId: string, how: string)

  datatype OnFailure = OnFailure(
    idempotent: bool, leftBehind: Option<string>, verifyWith: Option<VerifyWith>, next: string, askUser: bool)

  datatype PlaybookStep = PlaybookStep(
    operationId: string, successors: seq<string>, incompleteAlone: Option<string>, onFailure: Option<OnFailure>)

  datatype Playbook = Playbook(name: string, entryOperation: string, steps: seq<PlaybookStep>)

  /** One step with the position that gives it a number. */
  datatype StepRef = StepRef(playbook: Playbook, index: nat)

  ghost predicate IsStep(ref: StepRef) { ref.index < |ref.playbook.steps| }

  function StepOf(ref: StepRef): PlaybookStep
    requires ref.index < |ref.playbook.steps|
  {
    ref.playbook.steps[ref.index]
  }

  /** The authored successors, else the next step in the list, else none. */
  function NextOperations(ref: StepRef): seq<string>
    requires ref.index < |ref.playbook.steps|
  {
    if StepOf(ref).successors != [] then StepOf(ref).successors
    else if ref.index + 1 < |ref.playbook.steps| then [ref.playbook.steps[ref.index + 1].operationId]
    else []
  }

  predicate IsFinal(ref: StepRef)
    requires ref.index < |ref.playbook.steps|
    ensures IsFinal(ref) <==> StepOf(ref).successors == [] && ref.index + 1 == |ref.playbook.steps|
  {
    NextOperations(ref) == []
  }

  // --- the registry ---

  /** Every step that calls an operation, found by scanning one playbook's first `n` steps. */
  function ScanSteps(playbook: Playbook, n: nat, operationId: string): seq<StepRef>
    requires n <= |playbook.steps|
  {
    if n == 0 then [] else
      var earlier := ScanSteps(playbook, n - 1, operationId);
      if playbook.steps[n - 1].operationId == operationId then earlier + [StepRef(playbook, n - 1)] else earlier
  }

  /** The full scan of all playbooks, in load order. */
  function Scan(playbooks: seq<Playbook>, operationId: string): seq<StepRef> {
    if playbooks == [] then [] else
      var last := playbooks[|playbooks| - 1];
      Scan(playbooks[..|playbooks| - 1], operationId) + ScanSteps(last, |last.steps|, operationId)
  }

  ghost predicate DistinctNames(playbooks: seq<Playbook>) {
    forall i, j :: 0 <= i < j < |playbooks| ==> playbooks[i].name != playbooks[j].name
  }

  function Listed(byOperation: map<string, seq<StepRef>>, operationId: string): seq<StepRef> {
    if operationId in byOperation then byOperation[operationId] else []
  }

  lemma ScanOneMore(playbook: Playbook, n: nat, operationId: string)
    requires n < |playbook.steps|
    ensures ScanSteps(playbook, n + 1, operationId)
            == if playbook.steps[n].operationId == operationId
               then ScanSteps(playbook, n, operationId) + [StepRef(playbook, n)]
               else ScanSteps(playbook, n, operationId)
  {
  }

  lemma ScanMore(playbooks: seq<Playbook>, playbook: Playbook, operationId: string)
    ensures Scan(playbooks + [playbook], operationId)
            == Scan(playbooks, operationId) + ScanSteps(playbook, |playbook.steps|, operationId)
  {
    assert (playbooks + [playbook])[..|playbooks|] == playbooks;
  }

  lemma NameIsFree(playbooks: seq<Playbook>, playbook: Playbook)
    requires DistinctNames(playbooks)
    ensures DistinctNames(playbooks + [playbook])
            <==> forall i :: 0 <= i < |playbooks| ==> playbooks[i].name != playbook.name
  {
    var all := playbooks + [playbook];
    assert all[|playbooks|] == playbook && forall i :: 0 <= i < |playbooks| ==> all[i] == playbooks[i];
  }

  class PlaybookRegistry {
    var names: seq<string>
    var playbooks: map<string, Playbook>
    var byOperation: map<string, seq<StepRef>>
    ghost var loaded: seq<Playbook>

    ghost predicate Valid()
      reads this
    {
      && DistinctNames(loaded)
      && |names| == |loaded|
      && (forall i :: 0 <= i < |loaded| ==>
            names[i] == loaded[i].name && names[i] in playbooks && playbooks[names[i]] == loaded[i])
      && (forall name :: name in playbooks <==> name in names)
      && (forall operationId :: Indexed(operationId) == Scan(loaded, operationId))
    }

    function Indexed(operationId: string): seq<StepRef>
      reads this
    {
      Listed(byOperation, operationId)
    }

    constructor ()
      ensures Valid() && loaded == []
    {
      names, playbooks, byOperation, loaded := [], map[], map[], [];
    }

    /** Registers the playbooks in load order, up to the first one whose name is taken. */
    method Load(files: seq<Playbook>) returns (duplicate: Option<string>)
      requires Valid() && loaded == []
      modifies this
      ensures Valid()
      ensures duplicate.None? ==> loaded == files
      ensures duplicate.None? <==> DistinctNames(files)
      ensures duplicate.Some? ==>
                && |loaded| < |files| && loaded == files[..|loaded|] && duplicate.value == files[|loaded|].name
                && exists playbook <- loaded :: playbook.name == duplicate.value
    {
      duplicate := None;
      for i := 0 to |files|
        invariant Valid() && loaded == files[..i]
      {
        var playbook := files[i];
        if playbook.name in playbooks {
          assert playbook.name in names;
          var j :| 0 <= j < |names| && names[j] == playbook.name;
          assert files[j].name == loaded[j].name == files[i].name && loaded[j] in loaded;
          return Some(playbook.name);
        }
        Add(playbook);
        assert files[..i + 1] == files[..i] + [playbook];
      }
      assert files[..|files|] == files;
    }

    method Add(playbook: Playbook)
      requires Valid() && playbook.name !in playbooks
      modifies this
      ensures Valid() && loaded == old(loaded) + [playbook]
    {
      hide ScanSteps, Scan, DistinctNames, Listed;
      ghost var before := loaded;
      IndexSteps(playbook);
      NameIsFree(before, playbook);
      names, playbooks := names + [playbook.name], playbooks[playbook.name := playbook];
      loaded := loaded + [playbook];
      forall operationId ensures Indexed(operationId) == Scan(loaded, operationId) {
        ScanMore(before, playbook, operationId);
      }
    }

    method IndexSteps(playbook: Playbook)
      modifies this`byOperation
      ensures forall operationId ::
                Indexed(operationId) == old(Indexed(operationId)) + ScanSteps(playbook, |playbook.steps|, operationId)
    {
      ghost var before := byOperation;
      for i := 0 to |playbook.steps|
        invariant forall operationId ::
                    Indexed(operationId) == Listed(before, operationId) + ScanSteps(playbook, i, operationId)
      {
        hide ScanSteps;
        ghost var soFar := byOperation;
        var operationId := playbook.steps[i].operationId;
        byOperation := byOperation[operationId := Indexed(operationId) + [StepRef(playbook, i)]];
        forall other ensures Indexed(other) == Listed(before, other) + ScanSteps(playbook, i + 1, other) {
          ScanOneMore(playbook, i, other);
          assert Listed(soFar, other) == Listed(before, other) + ScanSteps(playbook, i, other);
        }
      }
    }

    /** Every step that calls the operation, across all playbooks: the scan of them all in load order. */
    method StepsFor(operationId: string) returns (refs: seq<StepRef>)
      requires Valid()
      ensures refs == Scan(loaded, operationId)
    {
      refs := Indexed(operationId);
    }
  }

  lemma {:induction false} ScanFindsExactlyTheSteps(playbooks: seq<Playbook>, operationId: string, ref: StepRef)
    ensures ref in Scan(playbooks, operationId)
            <==> ref.playbook in playbooks && IsStep(ref) && StepOf(ref).operationId == operationId
  {
    if playbooks != [] {
      var n := |playbooks| - 1;
      ScanFindsExactlyTheSteps(playbooks[..n], operationId, ref);
      ScanStepsFinds(playbooks[n], |playbooks[n].steps|, operationId, ref);
      assert forall p :: p in playbooks <==> p in playbooks[..n] || p == playbooks[n];
    }
  }

  lemma {:induction false} ScanStepsFinds(playbook: Playbook, n: nat, operationId: string, ref: StepRef)
    requires n <= |playbook.steps|
    ensures ref in ScanSteps(playbook, n, operationId)
            <==> ref.playbook == playbook && ref.index < n && playbook.steps[ref.index].operationId == operationId
  {
    if n != 0 { ScanStepsFinds(playbook, n - 1, operationId, ref); }
  }

  /** Where a step stands among all playbooks. */
  datatype Place = Place(playbook: nat, step: nat)

  predicate Before(a: Place, b: Place) { a.playbook < b.playbook || (a.playbook == b.playbook && a.step < b.step) }

  /** The steps at these places, in load order and then in list order. */
  ghost predicate AreAt(playbooks: seq<Playbook>, refs: seq<StepRef>, places: seq<Place>) {
    && |places| == |refs|
    && (forall k :: 0 <= k < |refs| ==>
          places[k].playbook < |playbooks| && refs[k] == StepRef(playbooks[places[k].playbook], places[k].step))
    && (forall i, j :: 0 <= i < j < |places| ==> Before(places[i], places[j]))
  }

  ghost predicate StepsInOrder(playbook: Playbook, n: nat, refs: seq<StepRef>) {
    && (forall i, j :: 0 <= i < j < |refs| ==> refs[i].index < refs[j].index)
    && (forall i :: 0 <= i < |refs| ==> refs[i].index < n && refs[i].playbook == playbook)
  }

  lemma {:induction false} ScanStepsInOrder(playbook: Playbook, n: nat, operationId: string)
    requires n <= |playbook.steps|
    ensures StepsInOrder(playbook, n, ScanSteps(playbook, n, operationId))
  {
    if n == 0 {
      assert ScanSteps(playbook, n, operationId) == [];
    } else {
      ScanStepsInOrder(playbook, n - 1, operationId);
      ScanOneMore(playbook, n - 1, operationId);
      hide ScanSteps;
    }
  }

  lemma PlacesOneMore(playbooks: seq<Playbook>, playbook: Playbook, earlier: seq<StepRef>, places: seq<Place>,
                      refs: seq<StepRef>) returns (all: seq<Place>)
    requires AreAt(playbooks, earlier, places) && StepsInOrder(playbook, |playbook.steps|, refs)
    ensures AreAt(playbooks + [playbook], earlier + refs, all)
  {
    var n := |playbooks|;
    var more := seq(|refs|, k requires 0 <= k < |refs| => Place(n, refs[k].index));
    all := places + more;
    forall k | 0 <= k < |all|
      ensures all[k].playbook < n + 1
      ensures (earlier + refs)[k] == StepRef((playbooks + [playbook])[all[k].playbook], all[k].step)
    {
      if k < |places| { assert all[k] == places[k]; } else { assert all[k] == more[k - |places|]; }
    }
    forall i, j | 0 <= i < j < |all| ensures Before(all[i], all[j]) {
      if |places| <= i {
        assert refs[i - |places|].index < refs[j - |places|].index;
      } else if j < |places| {
        assert Before(places[i], places[j]);
      }
    }
  }

  /** The scan goes through the playbooks in load order and through the steps of each in list order. */
  lemma {:induction false} ScanInOrder(playbooks: seq<Playbook>, operationId: string) returns (places: seq<Place>)
    ensures AreAt(playbooks, Scan(playbooks, operationId), places)
  {
    if playbooks == [] {
      places := [];
    } else {
      var n := |playbooks| - 1;
      var earlier := ScanInOrder(playbooks[..n], operationId);
      ScanStepsInOrder(playbooks[n], |playbooks[n].steps|, operationId);
      hide ScanSteps;
      assert playbooks == playbooks[..n] + [playbooks[n]];
      places := PlacesOneMore(playbooks[..n], playbooks[n], Scan(playbooks[..n], operationId), earlier,
                              ScanSteps(playbooks[n], |playbooks[n].steps|, operationId));
    }
  }

  // --- the chain's own graph ---

  ghost predicate Names(playbook: Playbook, operationId: string) {
    exists step <- playbook.steps :: step.operationId == operationId
  }

  ghost predicate Distinct(playbook: Playbook) {
    forall i, j :: 0 <= i < j < |playbook.steps| ==> playbook.steps[i].operationId != playbook.steps[j].operationId
  }

  ghost predicate SuccessorsAreSteps(playbook: Playbook) {
    forall step <- playbook.steps :: forall successor <- step.successors :: Names(playbook, successor)
  }

  /** From step i the chain says to call step j next: authored successors replace the next in the list. */
  ghost predicate Follows(playbook: Playbook, i: nat, j: nat) {
    && i < |playbook.steps| && j < |playbook.steps|
    && if playbook.steps[i].successors != [] then playbook.steps[j].operationId in playbook.steps[i].successors
       else j == i + 1
  }

  lemma NextOperationsFollow(playbook: Playbook, i: nat, j: nat)
    requires Distinct(playbook) && i < |playbook.steps| && j < |playbook.steps|
    ensures playbook.steps[j].operationId in NextOperations(StepRef(playbook, i)) <==> Follows(playbook, i, j)
  {
  }

  ghost predicate IsPath(playbook: Playbook, path: seq<nat>) {
    && path != [] && path[0] < |playbook.steps| && playbook.steps[path[0]].operationId == playbook.entryOperation
    && forall k: nat :: k < |path| - 1 ==> Follows(playbook, path[k], path[k + 1])
  }

  /** An agent that enters at the entry and follows the successors can come to step i. */
  ghost predicate Reachable(playbook: Playbook, i: nat) {
    exists path :: IsPath(playbook, path) && path[|path| - 1] == i
  }

  /** A sound chain: unique operations, an entry and successors that are steps, and no dead step. */
  ghost predicate IsSound(playbook: Playbook) {
    && playbook.steps != []
    && Distinct(playbook)
    && Names(playbook, playbook.entryOperation)
    && SuccessorsAreSteps(playbook)
    && forall i: nat :: i < |playbook.steps| ==> Reachable(playbook, i)
  }

  datatype LintError =
    | NoSteps
    | Repeated(operationId: string)
    | EntryIsNoStep
    | NoSuchStep(successor: string)
    | Unreachable(operationIds: seq<string>)

  ghost predicate IsIndex(playbook: Playbook, n: nat, index: map<string, nat>) {
    && n <= |playbook.steps|
    && (forall i :: 0 <= i < n ==> playbook.steps[i].operationId in index && index[playbook.steps[i].operationId] == i)
    && (forall operationId <- index.Keys ::
          index[operationId] < n && playbook.steps[index[operationId]].operationId == operationId)
  }

  ghost predicate IsWorklist(playbook: Playbook, reachable: set<nat>, frontier: seq<nat>) {
    && (forall i <- reachable :: i < |playbook.steps| && Reachable(playbook, i))
    && (forall i <- frontier :: i < |playbook.steps| && Reachable(playbook, i))
    && (forall i <- reachable :: forall j :: Follows(playbook, i, j) ==> j in reachable || j in frontier)
    && (forall i: nat :: i < |playbook.steps| && playbook.steps[i].operationId == playbook.entryOperation ==>
          i in reachable || i in frontier)
  }

  ghost function Indices(n: nat): (indices: set<nat>)
    ensures forall i: nat :: i in indices <==> i < n
  {
    if n == 0 then {} else Indices(n - 1) + {n - 1}
  }

  ghost predicate RepeatedAt(playbook: Playbook, j: nat, operationId: string) {
    && j < |playbook.steps| && playbook.steps[j].operationId == operationId
    && (exists i :: 0 <= i < j && playbook.steps[i].operationId == operationId)
    && (forall i, k :: 0 <= i < k < j ==> playbook.steps[i].operationId != playbook.steps[k].operationId)
  }

  ghost predicate IsDangling(playbook: Playbook, successor: string) {
    !Names(playbook, successor) && exists step <- playbook.steps :: successor in step.successors
  }

  /** The operations of exactly the unreachable steps, in list order. */
  ghost predicate AreUnreachable(playbook: Playbook, operationIds: seq<string>) {
    exists positions :: AreDead(playbook, operationIds, positions)
  }

  ghost function Dead(playbook: Playbook): nat -> bool { (i: nat) => !Reachable(playbook, i) }

  function NotVisited(reachable: set<nat>): nat -> bool { (i: nat) => i !in reachable }

  ghost predicate AreDead(playbook: Playbook, operationIds: seq<string>, positions: seq<nat>) {
    && AreKept(positions, |playbook.steps|, Dead(playbook))
    && |operationIds| == |positions|
    && forall k :: 0 <= k < |positions| ==>
         positions[k] < |playbook.steps| && operationIds[k] == playbook.steps[positions[k]].operationId
  }

  /** What each error says; the checks come in this order, and the first that fails is reported. */
  ghost predicate Reports(playbook: Playbook, error: LintError) {
    match error
    case NoSteps => playbook.steps == []
    case Repeated(operationId) => exists j :: RepeatedAt(playbook, j, operationId)
    case EntryIsNoStep => playbook.steps != [] && Distinct(playbook) && !Names(playbook, playbook.entryOperation)
    case NoSuchStep(successor) =>
      Distinct(playbook) && Names(playbook, playbook.entryOperation) && IsDangling(playbook, successor)
    case Unreachable(operationIds) =>
      && Distinct(playbook) && Names(playbook, playbook.entryOperation) && SuccessorsAreSteps(playbook)
      && operationIds != [] && AreUnreachable(playbook, operationIds)
  }

  /** The lint passes exactly on sound chains, and terminates on cyclic ones: each round visits a new
      step or shortens the frontier. */
  method AssertStepsReachable(playbook: Playbook) returns (error: Option<LintError>)
    ensures error.None? <==> IsSound(playbook)
    ensures error.Some? ==> Reports(playbook, error.value)
  {
    hide Reachable, Follows, RepeatedAt;
    if playbook.steps == [] {
      return Some(NoSteps);
    }
    var index, repeated := IndexOperations(playbook);
    if repeated.Some? {
      return Some(Repeated(repeated.value));
    }
    IndexNames(playbook, index);
    if playbook.entryOperation !in index {
      return Some(EntryIsNoStep);
    }
    var dangling := FindDangling(playbook, index);
    if dangling.Some? {
      return Some(NoSuchStep(dangling.value));
    }
    var reachable := Walk(playbook, index);
    var unreachable, positions := NotIn(playbook, reachable);
    assert AreDead(playbook, unreachable, positions);
    return if unreachable == [] then None else Some(Unreachable(unreachable));
  }

  /** Positions by operation, or the first operation listed twice. */
  method IndexOperations(playbook: Playbook) returns (index: map<string, nat>, repeated: Option<string>)
    ensures repeated.None? <==> Distinct(playbook)
    ensures repeated.None? ==> IsIndex(playbook, |playbook.steps|, index)
    ensures repeated.Some? ==> exists j :: RepeatedAt(playbook, j, repeated.value)
  {
    index := map[];
    for i := 0 to |playbook.steps|
      invariant IsIndex(playbook, i, index)
    {
      var operationId := playbook.steps[i].operationId;
      if operationId in index {
        assert RepeatedAt(playbook, i, operationId);
        return index, Some(operationId);
      }
      index := index[operationId := i];
    }
    repeated := None;
  }

  /** The operations of the steps that are not in `reachable`, in list order. */
  method NotIn(playbook: Playbook, reachable: set<nat>)
    returns (operations: seq<string>, ghost positions: seq<nat>)
    ensures AreKept(positions, |playbook.steps|, NotVisited(reachable))
    ensures |operations| == |positions|
    ensures forall k :: 0 <= k < |positions| ==>
              positions[k] < |playbook.steps| && operations[k] == playbook.steps[positions[k]].operationId
    ensures operations == [] <==> forall k: nat :: k < |playbook.steps| ==> k in reachable
  {
    hide AreKept;
    operations, positions := [], [];
    NoneKept(0, NotVisited(reachable));
    for i := 0 to |playbook.steps|
      invariant AreKept(positions, i, NotVisited(reachable)) && |operations| == |positions|
      invariant forall k :: 0 <= k < |positions| ==>
                  positions[k] < i && operations[k] == playbook.steps[positions[k]].operationId
    {
      KeepOneMore(positions, i, NotVisited(reachable));
      if i !in reachable {
        operations, positions := operations + [playbook.steps[i].operationId], positions + [i];
      }
    }
    NoneKept(|playbook.steps|, NotVisited(reachable));
    if positions != [] {
      SomeKept(positions, |playbook.steps|, NotVisited(reachable));
    } else {
      forall k: nat | k < |playbook.steps| ensures k in reachable {
        assert !NotVisited(reachable)(k);
      }
    }
  }

  lemma IndexNames(playbook: Playbook, index: map<string, nat>)
    requires IsIndex(playbook, |playbook.steps|, index)
    ensures forall operationId :: operationId in index <==> Names(playbook, operationId)
  {
    forall operationId ensures operationId in index <==> Names(playbook, operationId) {
      if operationId in index {
        assert playbook.steps[index[operationId]] in playbook.steps;
      }
    }
  }

  method FindDangling(playbook: Playbook, index: map<string, nat>) returns (dangling: Option<string>)
    requires IsIndex(playbook, |playbook.steps|, index)
    ensures dangling.None? <==> SuccessorsAreSteps(playbook)
    ensures dangling.Some? ==> IsDangling(playbook, dangling.value)
  {
    IndexNames(playbook, index);
    for i := 0 to |playbook.steps|
      invariant forall step <- playbook.steps[..i] :: forall successor <- step.successors :: successor in index
    {
      var step := playbook.steps[i];
      for j := 0 to |step.successors|
        invariant forall successor <- step.successors[..j] :: successor in index
      {
        if step.successors[j] !in index {
          assert step in playbook.steps && step.successors[j] in step.successors;
          return Some(step.successors[j]);
        }
      }
    }
    return None;
  }

  /** The worklist: the frontier is a stack that may hold a step more than once. */
  method Walk(playbook: Playbook, index: map<string, nat>) returns (reachable: set<nat>)
    requires IsIndex(playbook, |playbook.steps|, index) && playbook.entryOperation in index
    requires Distinct(playbook) && SuccessorsAreSteps(playbook)
    ensures forall i: nat :: i in reachable <==> i < |playbook.steps| && Reachable(playbook, i)
  {
    reachable := {};
    var frontier := [index[playbook.entryOperation]];
    StartOfWalk(playbook, frontier[0]);
    while frontier != []
      invariant IsWorklist(playbook, reachable, frontier)
      decreases Indices(|playbook.steps|) - reachable, |frontier|
    {
      var i := frontier[|frontier| - 1];
      assert i in frontier;
      ghost var rest := frontier[..|frontier| - 1];
      assert forall k :: k in frontier <==> k in rest || k == i;
      frontier := frontier[..|frontier| - 1];
      if i !in reachable {
        assert i in Indices(|playbook.steps|);
        var next := Resolve(playbook, index, i);
        VisitOne(playbook, reachable, rest, i, next);
        reachable := reachable + {i};
        frontier := frontier + next;
      }
    }
    ClosedIsAll(playbook, reachable);
  }

  /** Every successor resolves: authored ones were checked, and the positional default is a step. */
  method Resolve(playbook: Playbook, index: map<string, nat>, i: nat) returns (next: seq<nat>)
    requires IsIndex(playbook, |playbook.steps|, index) && i < |playbook.steps|
    requires SuccessorsAreSteps(playbook) && Distinct(playbook)
    ensures forall j: nat :: j in next <==> Follows(playbook, i, j)
  {
    var operations := NextOperations(StepRef(playbook, i));
    SuccessorsAreIndexed(playbook, index, i);
    hide NextOperations, SuccessorsAreSteps, Distinct;
    next := [];
    for k := 0 to |operations|
      invariant forall j: nat :: j in next <==>
                  j < |playbook.steps| && playbook.steps[j].operationId in operations[..k]
    {
      var operation := operations[k];
      assert operations[..k + 1] == operations[..k] + [operation] && operation in operations;
      next := next + [index[operation]];
    }
    assert operations[..|operations|] == operations;
    forall j: nat | j < |playbook.steps| ensures j in next <==> Follows(playbook, i, j) {
      NextOperationsFollow(playbook, i, j);
    }
  }

  lemma SuccessorsAreIndexed(playbook: Playbook, index: map<string, nat>, i: nat)
    requires IsIndex(playbook, |playbook.steps|, index) && i < |playbook.steps| && SuccessorsAreSteps(playbook)
    ensures forall operation <- NextOperations(StepRef(playbook, i)) :: operation in index
  {
    IndexNames(playbook, index);
    assert playbook.steps[i] in playbook.steps;
  }

  lemma StartOfWalk(playbook: Playbook, entry: nat)
    requires entry < |playbook.steps| && playbook.steps[entry].operationId == playbook.entryOperation
    requires Distinct(playbook)
    ensures IsWorklist(playbook, {}, [entry])
  {
    assert IsPath(playbook, [entry]) && [entry][|[entry]| - 1] == entry;
  }

  lemma OneFurther(playbook: Playbook, i: nat, j: nat)
    requires Reachable(playbook, i) && Follows(playbook, i, j)
    ensures Reachable(playbook, j)
  {
    var path :| IsPath(playbook, path) && path[|path| - 1] == i;
    var longer := path + [j];
    assert forall k: nat :: k < |path| - 1 ==> Follows(playbook, longer[k], longer[k + 1]);
    assert IsPath(playbook, longer) && longer[|longer| - 1] == j;
  }

  lemma VisitOne(playbook: Playbook, reachable: set<nat>, rest: seq<nat>, i: nat, next: seq<nat>)
    requires forall k :: k in reachable || k in rest || k == i ==> k < |playbook.steps| && Reachable(playbook, k)
    requires forall a <- reachable :: forall b :: Follows(playbook, a, b) ==> b in reachable || b in rest || b == i
    requires forall k: nat :: k < |playbook.steps| && playbook.steps[k].operationId == playbook.entryOperation ==>
               k in reachable || k in rest || k == i
    requires forall j: nat :: j in next <==> Follows(playbook, i, j)
    ensures IsWorklist(playbook, reachable + {i}, rest + next)
  {
    forall j <- next ensures Reachable(playbook, j) {
      OneFurther(playbook, i, j);
    }
  }

  lemma {:induction false} PathStaysInside(playbook: Playbook, reachable: set<nat>, path: seq<nat>)
    requires IsWorklist(playbook, reachable, []) && IsPath(playbook, path)
    ensures path[|path| - 1] in reachable
  {
    var n := |path| - 1;
    if n != 0 {
      assert forall k: nat :: k < n - 1 ==> Follows(playbook, path[..n][k], path[..n][k + 1]);
      PathStaysInside(playbook, reachable, path[..n]);
      assert Follows(playbook, path[n - 1], path[n - 1 + 1]);
    }
  }

  lemma ClosedIsAll(playbook: Playbook, reachable: set<nat>)
    requires IsWorklist(playbook, reachable, [])
    ensures forall i: nat :: i in reachable <==> i < |playbook.steps| && Reachable(playbook, i)
  {
    forall i: nat | i < |playbook.steps| && Reachable(playbook, i) ensures i in reachable {
      var path :| IsPath(playbook, path) && path[|path| - 1] == i;
      PathStaysInside(playbook, reachable, path);
    }
  }
}
