/** Removing named fields from a payload before it reaches the client. */
module Omit {
  import opened Wrappers
  import opened PayloadPaths

  datatype Reason = Duplicate | InternalDetail | AvailableFromTool | Credential
  datatype OmitEntry = OmitEntry(path: string, reason: Reason, see: string)
  datatype Record = Record(path: string, reason: Reason, see: Option<string>)

  // --- paths as the lint accepts them ---

  /** Splits at the last dot, like Python's rpartition. */
  function ParentPathAndKey(path: string): (r: (string, string))
    ensures '.' !in r.1
    ensures if '.' in path then path == r.0 + "." + r.1 else r == ("", path)
  {
    if path == "" then ("", "") else
      var n := |path| - 1;
      if path[n] == '.' then (path[..n], "")
      else
        var (parent, key) := ParentPathAndKey(path[..n]);
        assert path == path[..n] + [path[n]];
        (parent, key + [path[n]])
  }

  /** The path conditions of the boot lint: no empty segment, and the last one names a key. */
  predicate Linted(path: string) {
    var parts := Split(path, '.');
    (forall part <- parts :: part != "") && parts[|parts| - 1] != "*"
  }

  /** For a linted path the resolver sees the parent's segments followed by the key removed, and
      no dot means exactly that the key is taken from the payload itself. */
  lemma LintedPathSplits(path: string)
    requires Linted(path)
    ensures var (parent, key) := ParentPathAndKey(path);
            && Segments(path) == Segments(parent) + [key]
            && key != WILDCARD
            && (parent == "" <==> Segments(parent) == [])
  {
    hide ParentPathAndKey, Split, NonEmpty;
    var (parent, key) := ParentPathAndKey(path);
    var parts := Split(path, '.');
    SplitWithoutSeparator(key, '.');
    NonEmptyKeepsNonEmpty(parts);
    if '.' in path {
      SplitAtSeparator(parent, '.', key);
      assert parts == Split(parent, '.') + [key];
      assert forall part <- Split(parent, '.') :: part in parts;
      NonEmptyKeepsNonEmpty(Split(parent, '.'));
      SplitWithoutSeparator("", '.');
      assert Split(parent, '.')[0] in parts;
    } else {
      assert key in parts;
      SegmentsOfNothing();
    }
  }

  lemma SegmentsOfNothing()
    ensures Segments("") == []
  {
    assert Split("", '.') == [""];
    assert NonEmpty([""]) == NonEmpty([""][1..]);
  }

  // --- what a set of paths addresses ---

  /** `position` is at or below a match of the path with these segments. */
  predicate AtOrBelow(segments: seq<string>, position: Position) {
    |segments| <= |position| && Matches(segments, position[..|segments|])
  }

  ghost predicate Addressed(entries: seq<OmitEntry>, position: Position) {
    exists entry <- entries :: AtOrBelow(Segments(entry.path), position)
  }

  function Without(keys: seq<string>, gone: set<string>): seq<string> {
    if keys == [] then []
    else if keys[0] in gone then Without(keys[1..], gone)
    else [keys[0]] + Without(keys[1..], gone)
  }

  /** What a client sees at one position: the scalar, the list's length, or the dictionary's keys in order. */
  datatype Shape = OfScalar(truthy: bool, text: string) | OfList(length: nat) | OfDict(keys: seq<string>)

  function ShapeOf(cell: Cell): Shape {
    match cell
    case Scalar(truthy, text) => OfScalar(truthy, text)
    case ListCell(items) => OfList(|items|)
    case DictCell(keys, _) => OfDict(keys)
  }

  ghost function GoneKeys(entries: seq<OmitEntry>, position: Position, keys: seq<string>): set<string> {
    set k | k in keys && Addressed(entries, position + [Key(k)])
  }

  ghost function Trim(entries: seq<OmitEntry>, position: Position, shape: Shape): Shape {
    match shape
    case OfDict(keys) => OfDict(Without(keys, GoneKeys(entries, position, keys)))
    case _ => shape
  }

  /** The payload `after` is the payload `before` without the addressed positions: exactly they are
      gone, and everything else keeps its value, its list length or its remaining keys in order. */
  ghost predicate IsPruned(before: Cells, root: Ref, after: Cells, newRoot: Ref, entries: seq<OmitEntry>)
    requires WellFormed(before) && WellFormed(after)
  {
    forall position ::
      && (Walk(after, newRoot, position).Some?
          <==> Walk(before, root, position).Some? && !Addressed(entries, position))
      && (Walk(after, newRoot, position).Some? ==> SameButTrimmed(before, root, after, newRoot, entries, position))
  }

  ghost predicate SameButTrimmed(before: Cells, root: Ref, after: Cells, newRoot: Ref, entries: seq<OmitEntry>,
                                 position: Position)
    requires WellFormed(before) && WellFormed(after)
    requires Walk(before, root, position).Some? && Walk(after, newRoot, position).Some?
  {
    WalkStaysInside(before, root, position);
    WalkStaysInside(after, newRoot, position);
    ShapeOf(after[Walk(after, newRoot, position).value])
    == Trim(entries, position, ShapeOf(before[Walk(before, root, position).value]))
  }

  // --- deleting one key from every parent ---

  function RemoveKey(cell: Cell, key: string): Cell {
    match cell
    case DictCell(keys, vals) => DictCell(Without(keys, {key}), vals - {key})
    case _ => cell
  }

  ghost predicate IsDeletion(before: Cells, after: Cells, parents: seq<Ref>, key: string) {
    && after.Keys == before.Keys
    && forall r <- before.Keys :: after[r] == if r in parents then RemoveKey(before[r], key) else before[r]
  }

  lemma {:induction false} WithoutKeeps(keys: seq<string>, gone: set<string>)
    ensures forall k :: k in Without(keys, gone) <==> k in keys && k !in gone
    ensures |Without(keys, gone)| <= |keys|
    ensures (forall i, j :: 0 <= i < j < |keys| ==> keys[i] != keys[j]) ==>
              forall i, j :: 0 <= i < j < |Without(keys, gone)| ==> Without(keys, gone)[i] != Without(keys, gone)[j]
  {
    if keys != [] {
      WithoutKeeps(keys[1..], gone);
      assert forall k :: k in keys <==> k == keys[0] || k in keys[1..];
      assert (forall i, j :: 0 <= i < j < |keys| ==> keys[i] != keys[j]) ==> keys[0] !in keys[1..];
    }
  }

  lemma {:induction false} WithoutConcat(a: seq<string>, b: seq<string>, gone: set<string>)
    ensures Without(a + b, gone) == Without(a, gone) + Without(b, gone)
  {
    if a == [] {
      assert a + b == b;
    } else {
      assert (a + b)[1..] == a[1..] + b;
      WithoutConcat(a[1..], b, gone);
    }
  }

  function KeptAt(keys: seq<string>, gone: set<string>): nat -> bool { (i: nat) => i < |keys| && keys[i] !in gone }

  /** What is left of the first n keys is in their order. */
  lemma {:induction false} WithoutByPosition(keys: seq<string>, gone: set<string>, n: nat) returns (positions: seq<nat>)
    requires n <= |keys|
    ensures AreKept(positions, n, KeptAt(keys, gone)) && |Without(keys[..n], gone)| == |positions|
    ensures forall k :: 0 <= k < |positions| ==>
              positions[k] < |keys| && Without(keys[..n], gone)[k] == keys[positions[k]]
  {
    hide AreKept;
    if n == 0 {
      positions := [];
      NoneKept(0, KeptAt(keys, gone));
    } else {
      var earlier := WithoutByPosition(keys, gone, n - 1);
      KeepOneMore(earlier, n - 1, KeptAt(keys, gone));
      assert keys[..n] == keys[..n - 1] + [keys[n - 1]];
      WithoutConcat(keys[..n - 1], [keys[n - 1]], gone);
      assert Without([keys[n - 1]][1..], gone) == [];
      positions := if keys[n - 1] in gone then earlier else earlier + [n - 1];
    }
  }

  lemma {:induction false} WithoutTwice(keys: seq<string>, a: set<string>, b: set<string>, both: set<string>)
    requires forall k <- keys :: k in both <==> k in a || k in b
    ensures Without(Without(keys, a), b) == Without(keys, both)
  {
    if keys != [] {
      assert forall k <- keys[1..] :: k in keys;
      WithoutTwice(keys[1..], a, b, both);
      var rest := Without(keys[1..], a);
      if keys[0] !in a {
        assert ([keys[0]] + rest)[1..] == rest;
      }
    }
  }

  lemma {:induction false} WithoutNothing(keys: seq<string>, gone: set<string>)
    requires forall k <- keys :: k !in gone
    ensures Without(keys, gone) == keys
  {
    if keys != [] {
      assert forall k <- keys[1..] :: k in keys;
      WithoutNothing(keys[1..], gone);
    }
  }

  lemma DeletionIsWellFormed(before: Cells, after: Cells, parents: seq<Ref>, key: string)
    requires WellFormed(before) && IsDeletion(before, after, parents, key)
    ensures WellFormed(after)
  {
    forall r <- after.Keys ensures CellWellFormed(after, after[r]) {
      assert CellWellFormed(before, before[r]);
      if before[r].DictCell? {
        WithoutKeeps(before[r].keys, {key});
      }
    }
  }

  lemma WalkStep(cells: Cells, root: Ref, position: Position, step: Step)
    ensures Walk(cells, root, position + [step])
            == match Walk(cells, root, position)
               case None => None
               case Some(r) => if r in cells then Child(cells[r], step) else None
  {
    assert (position + [step])[..|position|] == position;
  }

  lemma ChildAfterDeletion(before: Cells, after: Cells, parents: seq<Ref>, key: string, r: Ref, step: Step)
    requires IsDeletion(before, after, parents, key) && r in before
    ensures Child(after[r], step) == if r in parents && step == Key(key) then None else Child(before[r], step)
  {
  }

  lemma BelowStaysBelow(path: seq<string>, position: Position, step: Step)
    requires AtOrBelow(path, position)
    ensures AtOrBelow(path, position + [step])
  {
    hide Matches;
    assert (position + [step])[..|path|] == position[..|path|];
  }

  /** Deleting one key from every match of a path removes exactly the positions at or below the
      longer path: in a tree no other position runs through the edited dictionaries' key. */
  lemma {:induction false} DeletionRemoves(before: Cells, after: Cells, root: Ref, segments: seq<string>, key: string,
                                           position: Position)
    requires IsTree(before, root) && key != WILDCARD
    requires IsDeletion(before, after, Resolve(before, root, segments), key)
    ensures Walk(after, root, position)
            == if AtOrBelow(segments + [key], position) then None else Walk(before, root, position)
  {
    var path := segments + [key];
    if position == [] {
      assert !AtOrBelow(path, position);
    } else {
      var n := |position| - 1;
      var init, step := position[..n], position[n];
      DeletionRemoves(before, after, root, segments, key, init);
      hide Resolve, AtOrBelow, Matches, Walk, RemoveKey, WellFormed, Child;
      assert position == init + [step];
      WalkStep(before, root, init, step);
      WalkStep(after, root, init, step);
      if AtOrBelow(path, init) {
        BelowStaysBelow(path, init, step);
      } else if Walk(before, root, init).Some? {
        var r := Walk(before, root, init).value;
        ChildAtOrBelow(segments, key, init, step);
        WalkStaysInside(before, root, init);
        assert init[..n] == init;
        ParentIsUnique(before, root, segments, init, r);
        ChildAfterDeletion(before, after, Resolve(before, root, segments), key, r, step);
      }
    }
  }

  lemma ParentIsUnique(cells: Cells, root: Ref, segments: seq<string>, position: Position, r: Ref)
    requires IsTree(cells, root) && Walk(cells, root, position) == Some(r)
    ensures r in Resolve(cells, root, segments) <==> Matches(segments, position)
  {
    ResolveIsMatching(cells, root, segments, r);
  }

  lemma DeletionKeepsTree(before: Cells, after: Cells, root: Ref, segments: seq<string>, key: string)
    requires IsTree(before, root) && key != WILDCARD
    requires IsDeletion(before, after, Resolve(before, root, segments), key)
    ensures IsTree(after, root)
  {
    hide Resolve, Walk, AtOrBelow;
    DeletionIsWellFormed(before, after, Resolve(before, root, segments), key);
    forall p, q | Walk(after, root, p).Some? && Walk(after, root, p) == Walk(after, root, q) ensures p == q {
      DeletionRemoves(before, after, root, segments, key, p);
      DeletionRemoves(before, after, root, segments, key, q);
    }
  }

  // --- one entry after the other ---

  /** What the loop over the entries has done after `entries`: addressed positions are gone, every other
      position leads where it did, and each remaining dictionary lost just its addressed keys. */
  ghost predicate PrunedInPlace(before: Cells, after: Cells, root: Ref, entries: seq<OmitEntry>) {
    && IsTree(after, root)
    && after.Keys == before.Keys
    && forall position :: PrunedAt(before, after, root, entries, position)
  }

  ghost predicate PrunedAt(before: Cells, after: Cells, root: Ref, entries: seq<OmitEntry>, position: Position) {
    && Walk(after, root, position) == (if Addressed(entries, position) then None else Walk(before, root, position))
    && (forall r :: Walk(after, root, position) == Some(r) && r in before && r in after ==>
          ShapeOf(after[r]) == Trim(entries, position, ShapeOf(before[r])))
  }

  lemma NothingPruned(before: Cells, root: Ref)
    requires IsTree(before, root)
    ensures PrunedInPlace(before, before, root, [])
  {
    forall position ensures PrunedAt(before, before, root, [], position) {
      forall r | Walk(before, root, position) == Some(r) && r in before
        ensures ShapeOf(before[r]) == Trim([], position, ShapeOf(before[r]))
      {
        if before[r].DictCell? {
          WithoutNothing(before[r].keys, {});
          assert GoneKeys([], position, before[r].keys) == {};
        }
      }
    }
  }

  lemma AddressedOneMore(entries: seq<OmitEntry>, entry: OmitEntry, position: Position)
    ensures Addressed(entries + [entry], position)
            <==> Addressed(entries, position) || AtOrBelow(Segments(entry.path), position)
  {
    hide AtOrBelow, Segments;
    var all := entries + [entry];
    assert entry in all && forall e :: e in all <==> e in entries || e == entry;
  }

  lemma PruneOneMore(before: Cells, mid: Cells, after: Cells, root: Ref, entries: seq<OmitEntry>, entry: OmitEntry,
                     segments: seq<string>, key: string)
    requires PrunedInPlace(before, mid, root, entries)
    requires Segments(entry.path) == segments + [key] && key != WILDCARD
    requires IsDeletion(mid, after, Resolve(mid, root, segments), key)
    ensures PrunedInPlace(before, after, root, entries + [entry])
  {
    DeletionKeepsTree(mid, after, root, segments, key);
    forall position ensures PrunedAt(before, after, root, entries + [entry], position) {
      PruneOneMoreAt(before, mid, after, root, entries, entry, segments, key, position);
    }
  }

  lemma PruneOneMoreAt(before: Cells, mid: Cells, after: Cells, root: Ref, entries: seq<OmitEntry>, entry: OmitEntry,
                       segments: seq<string>, key: string, position: Position)
    requires PrunedInPlace(before, mid, root, entries)
    requires Segments(entry.path) == segments + [key] && key != WILDCARD
    requires IsDeletion(mid, after, Resolve(mid, root, segments), key)
    ensures PrunedAt(before, after, root, entries + [entry], position)
  {
    hide Walk, Resolve, Segments, Addressed, AtOrBelow;
    assert PrunedAt(before, mid, root, entries, position);
    DeletionRemoves(mid, after, root, segments, key, position);
    AddressedOneMore(entries, entry, position);
    forall r | Walk(after, root, position) == Some(r) && r in before && r in after
      ensures ShapeOf(after[r]) == Trim(entries + [entry], position, ShapeOf(before[r]))
    {
      TrimOneMore(before, mid, after, root, entries, entry, segments, key, position, r);
    }
  }

  lemma TrimOneMore(before: Cells, mid: Cells, after: Cells, root: Ref, entries: seq<OmitEntry>, entry: OmitEntry,
                    segments: seq<string>, key: string, position: Position, r: Ref)
    requires IsTree(mid, root) && Walk(mid, root, position) == Some(r)
    requires r in before && r in mid && r in after
    requires ShapeOf(mid[r]) == Trim(entries, position, ShapeOf(before[r]))
    requires Segments(entry.path) == segments + [key] && key != WILDCARD
    requires IsDeletion(mid, after, Resolve(mid, root, segments), key)
    requires !AtOrBelow(Segments(entry.path), position)
    ensures ShapeOf(after[r]) == Trim(entries + [entry], position, ShapeOf(before[r]))
  {
    hide Walk, Resolve, Segments, Addressed;
    ParentIsUnique(mid, root, segments, position, r);
    if before[r].DictCell? {
      var keys := before[r].keys;
      var gone := GoneKeys(entries, position, keys);
      var goneNow := if r in Resolve(mid, root, segments) then {key} else {};
      forall k <- keys
        ensures k in GoneKeys(entries + [entry], position, keys) <==> k in gone || k in goneNow
      {
        AddressedOneMore(entries, entry, position + [Key(k)]);
        ChildAtOrBelow(segments, key, position, Key(k));
      }
      WithoutTwice(keys, gone, goneNow, GoneKeys(entries + [entry], position, keys));
      WithoutNothing(Without(keys, gone), {});
    }
  }

  lemma ChildAtOrBelow(segments: seq<string>, key: string, position: Position, step: Step)
    requires !AtOrBelow(segments + [key], position)
    ensures AtOrBelow(segments + [key], position + [step]) <==> Matches(segments, position) && StepMatches(key, step)
  {
    var path, child := segments + [key], position + [step];
    if |path| <= |position| {
      assert child[..|path|] == position[..|path|];
    } else if |path| == |child| {
      assert child[..|path|] == child && path[|segments|] == key;
      assert forall i :: 0 <= i < |segments| ==> path[i] == segments[i] && child[i] == position[i];
      assert Matches(path, child) ==> StepMatches(path[|segments|], child[|segments|]);
      assert Matches(path, child) ==> Matches(segments, position) by {
        if Matches(path, child) {
          forall i | 0 <= i < |segments| ensures StepMatches(segments[i], position[i]) {
            assert StepMatches(path[i], child[i]);
          }
        }
      }
    }
  }

  // --- which entries are reported ---

  /** The entry finds something to remove that no earlier entry removed. */
  ghost predicate Removes(before: Cells, root: Ref, earlier: seq<OmitEntry>, entry: OmitEntry) {
    exists position ::
      && Matches(Segments(entry.path), position)
      && Walk(before, root, position).Some?
      && !Addressed(earlier, position)
  }

  function RecordOf(entry: OmitEntry): Record {
    Record(entry.path, entry.reason, if entry.see != "" then Some(entry.see) else None)
  }

  /** One record for each entry that removed something, in declaration order. */
  ghost function Removed(before: Cells, root: Ref, entries: seq<OmitEntry>): seq<Record> {
    if entries == [] then [] else
      var n := |entries| - 1;
      var earlier := Removed(before, root, entries[..n]);
      if Removes(before, root, entries[..n], entries[n]) then earlier + [RecordOf(entries[n])] else earlier
  }

  ghost function RemovesAt(before: Cells, root: Ref, entries: seq<OmitEntry>): nat -> bool {
    (i: nat) => i < |entries| && Removes(before, root, entries[..i], entries[i])
  }

  /** The record of an entry: its path and reason, and the other tool if there is one. */
  ghost predicate IsRecordOf(record: Record, entry: OmitEntry) {
    && record.path == entry.path && record.reason == entry.reason
    && (entry.see == "" ==> record.see.None?) && (entry.see != "" ==> record.see == Some(entry.see))
  }

  /** The records are those of the entries that removed something, in declaration order. */
  ghost predicate AreRecords(before: Cells, root: Ref, entries: seq<OmitEntry>, records: seq<Record>) {
    exists positions ::
      && AreKept(positions, |entries|, RemovesAt(before, root, entries)) && |records| == |positions|
      && forall k :: 0 <= k < |positions| ==>
           positions[k] < |entries| && IsRecordOf(records[k], entries[positions[k]])
  }

  lemma {:induction false} RemovedAreRecords(before: Cells, root: Ref, entries: seq<OmitEntry>)
    ensures AreRecords(before, root, entries, Removed(before, root, entries))
  {
    var positions := RemovedByPosition(before, root, entries, |entries|);
    assert entries[..|entries|] == entries;
  }

  lemma {:induction false} RemovedByPosition(before: Cells, root: Ref, entries: seq<OmitEntry>, n: nat)
    returns (positions: seq<nat>)
    requires n <= |entries|
    ensures AreKept(positions, n, RemovesAt(before, root, entries))
    ensures var records := Removed(before, root, entries[..n]);
            && |records| == |positions|
            && forall k :: 0 <= k < |positions| ==>
                 positions[k] < |entries| && IsRecordOf(records[k], entries[positions[k]])
  {
    hide AreKept, Removes;
    if n == 0 {
      positions := [];
      NoneKept(0, RemovesAt(before, root, entries));
    } else {
      var earlier := RemovedByPosition(before, root, entries, n - 1);
      KeepOneMore(earlier, n - 1, RemovesAt(before, root, entries));
      assert entries[..n][..n - 1] == entries[..n - 1];
      positions := if RemovesAt(before, root, entries)(n - 1) then earlier + [n - 1] else earlier;
    }
  }

  ghost predicate HoldsKey(cells: Cells, r: Ref, key: string) {
    r in cells && cells[r].DictCell? && key in cells[r].vals
  }

  ghost predicate SomeHold(cells: Cells, refs: seq<Ref>, key: string) { exists r <- refs :: HoldsKey(cells, r, key) }

  lemma KeyHeldIsMatch(cells: Cells, root: Ref, segments: seq<string>, key: string)
    requires WellFormed(cells) && root in cells && key != WILDCARD
    ensures SomeHold(cells, Resolve(cells, root, segments), key)
            <==> exists position :: Matches(segments + [key], position) && Walk(cells, root, position).Some?
  {
    hide Resolve, Walk, Matches;
    if parent :| parent in Resolve(cells, root, segments) && HoldsKey(cells, parent, key) {
      ResolveLast(cells, root, segments, key, cells[parent].vals[key]);
      ResolveIsMatching(cells, root, segments + [key], cells[parent].vals[key]);
    }
    if position :| Matches(segments + [key], position) && Walk(cells, root, position).Some? {
      var r := Walk(cells, root, position).value;
      ResolveIsMatching(cells, root, segments + [key], r);
      ResolveLast(cells, root, segments, key, r);
      var parent :| parent in Resolve(cells, root, segments) && r in Expand(cells, parent, key);
      assert HoldsKey(cells, parent, key);
    }
  }

  lemma MatchedIsRemoves(before: Cells, mid: Cells, root: Ref, earlier: seq<OmitEntry>, entry: OmitEntry,
                         segments: seq<string>, key: string)
    requires PrunedInPlace(before, mid, root, earlier)
    requires Segments(entry.path) == segments + [key] && key != WILDCARD
    ensures SomeHold(mid, Resolve(mid, root, segments), key) <==> Removes(before, root, earlier, entry)
  {
    hide Resolve, Walk, Matches, Segments, Addressed, HoldsKey;
    KeyHeldIsMatch(mid, root, segments, key);
    if position :| Matches(segments + [key], position) && Walk(mid, root, position).Some? {
      assert PrunedAt(before, mid, root, earlier, position);
    }
    if Removes(before, root, earlier, entry) {
      var position :| && Matches(Segments(entry.path), position)
                      && Walk(before, root, position).Some?
                      && !Addressed(earlier, position);
      assert PrunedAt(before, mid, root, earlier, position);
    }
  }

  lemma NoneRemoved(before: Cells, root: Ref, entries: seq<OmitEntry>)
    requires WellFormed(before)
    ensures Removed(before, root, entries) == []
            <==> forall position :: Walk(before, root, position).Some? ==> !Addressed(entries, position)
  {
    hide Walk, Matches, Segments;
    if entries != [] {
      var n := |entries| - 1;
      var earlier, entry := entries[..n], entries[n];
      assert entries == earlier + [entry];
      NoneRemoved(before, root, earlier);
      forall position | Walk(before, root, position).Some? && AtOrBelow(Segments(entry.path), position)
        ensures Walk(before, root, position[..|Segments(entry.path)|]).Some?
        ensures Matches(Segments(entry.path), position[..|Segments(entry.path)|])
      {
        WalkStaysInside(before, root, position);
      }
      forall position ensures Addressed(entries, position)
                              <==> Addressed(earlier, position) || AtOrBelow(Segments(entry.path), position)
      {
        AddressedOneMore(earlier, entry, position);
      }
      if position :| Matches(Segments(entry.path), position) && Walk(before, root, position).Some? {
        assert position[..|position|] == position;
        MatchIsAtOrBelow(Segments(entry.path), position);
      }
    }
  }

  lemma MatchIsAtOrBelow(segments: seq<string>, position: Position)
    requires Matches(segments, position)
    ensures AtOrBelow(segments, position)
  {
    assert position[..|segments|] == position;
  }

  // --- the operation ---

  /** A payload in memory. Two objects never share cells, so an edit of one is invisible in the other. */
  class Payload {
    var cells: Cells
    const root: Ref

    constructor (cells: Cells, root: Ref)
      ensures this.cells == cells && this.root == root
    {
      this.cells, this.root := cells, root;
    }

    method DeepCopy() returns (copy: Payload)
      ensures fresh(copy) && copy.cells == cells && copy.root == root
    {
      copy := new Payload(cells, root);
    }

    /** Deletes `key` from every dictionary among `parents`. */
    method DeleteKey(parents: seq<Ref>, key: string) returns (matched: bool)
      requires WellFormed(cells)
      modifies this
      ensures IsDeletion(old(cells), cells, parents, key)
      ensures matched <==> SomeHold(old(cells), parents, key)
    {
      hide IsDeletion, SomeHold, RemoveKey, WellFormed;
      matched := false;
      NothingDeleted(cells, key);
      assert parents[..0] == [];
      for i := 0 to |parents|
        invariant IsDeletion(old(cells), cells, parents[..i], key)
        invariant matched <==> SomeHold(old(cells), parents[..i], key)
      {
        var parent := parents[i];
        assert parents[..i + 1] == parents[..i] + [parent];
        DeletedOneMore(old(cells), cells, parents[..i], parent, key);
        if parent in cells && cells[parent].DictCell? && key in cells[parent].vals {
          cells := cells[parent := RemoveKey(cells[parent], key)];
          matched := true;
        }
      }
      assert parents[..|parents|] == parents;
    }
  }

  lemma NothingDeleted(cells: Cells, key: string)
    ensures IsDeletion(cells, cells, [], key) && !SomeHold(cells, [], key)
  {
  }

  lemma DeletedOneMore(before: Cells, mid: Cells, parents: seq<Ref>, parent: Ref, key: string)
    requires WellFormed(before) && IsDeletion(before, mid, parents, key)
    ensures HoldsKey(mid, parent, key) ==>
              IsDeletion(before, mid[parent := RemoveKey(mid[parent], key)], parents + [parent], key)
    ensures !HoldsKey(mid, parent, key) ==> IsDeletion(before, mid, parents + [parent], key)
    ensures SomeHold(before, parents + [parent], key) <==> SomeHold(before, parents, key) || HoldsKey(mid, parent, key)
  {
    assert forall p :: p in parents + [parent] <==> p in parents || p == parent;
    if parent in before && before[parent].DictCell? && key !in before[parent].vals {
      assert CellWellFormed(before, before[parent]);
      WithoutNothing(before[parent].keys, {key});
      assert before[parent].vals - {key} == before[parent].vals;
    }
  }

  /** `data` without the omitted paths, and what was removed. The same object comes back when nothing
      matched; otherwise a copy does, and `data` itself is never edited. */
  method ApplyOmit(entries: seq<OmitEntry>, data: Payload) returns (result: Payload, removed: Option<seq<Record>>)
    requires IsTree(data.cells, data.root)
    requires forall entry <- entries :: Linted(entry.path)
    ensures data.cells == old(data.cells)
    ensures removed == if Removed(data.cells, data.root, entries) == [] then None
                       else Some(Removed(data.cells, data.root, entries))
    ensures removed != Some([])
    ensures AreRecords(data.cells, data.root, entries, if removed.None? then [] else removed.value)
    ensures if removed.None? then result == data else fresh(result)
    ensures IsTree(result.cells, result.root)
    ensures IsPruned(data.cells, data.root, result.cells, result.root, entries)
  {
    hide AreRecords;
    ghost var before, root := data.cells, data.root;
    NothingPruned(before, root);
    RemovedAreRecords(before, root, entries);
    if entries == [] {
      PrunedMeans(before, before, root, entries);
      return data, None;
    }
    var trimmed := data.DeepCopy();
    var records: seq<Record> := [];
    for i := 0 to |entries|
      invariant fresh(trimmed) && trimmed.root == root && data.cells == before
      invariant PrunedInPlace(before, trimmed.cells, root, entries[..i])
      invariant records == Removed(before, root, entries[..i])
    {
      hide PrunedInPlace, IsTree, Removes, Linted, Segments;
      var entry := entries[i];
      assert entries[..i + 1] == entries[..i] + [entry];
      LintedPathSplits(entry.path);
      var (parentPath, key) := ParentPathAndKey(entry.path);
      var parents: seq<Ref>;
      PrunedIsTree(before, trimmed.cells, root, entries[..i]);
      if parentPath != "" {
        parents := ResolvePath(trimmed.cells, trimmed.root, parentPath);
      } else {
        parents := [trimmed.root];
      }
      MatchedIsRemoves(before, trimmed.cells, root, entries[..i], entry, Segments(parentPath), key);
      ghost var mid := trimmed.cells;
      var matched := trimmed.DeleteKey(parents, key);
      PruneOneMore(before, mid, trimmed.cells, root, entries[..i], entry, Segments(parentPath), key);
      if matched {
        records := records + [RecordOf(entry)];
      }
    }
    assert entries[..|entries|] == entries;
    PrunedMeans(before, trimmed.cells, root, entries);
    NoneRemoved(before, root, entries);
    if records == [] {
      NothingAddressed(before, root, entries);
      return data, None;
    }
    return trimmed, Some(records);
  }

  lemma PrunedIsTree(before: Cells, after: Cells, root: Ref, entries: seq<OmitEntry>)
    requires PrunedInPlace(before, after, root, entries)
    ensures IsTree(after, root) && WellFormed(after)
  {
  }

  lemma PrunedMeans(before: Cells, after: Cells, root: Ref, entries: seq<OmitEntry>)
    requires IsTree(before, root) && PrunedInPlace(before, after, root, entries)
    ensures IsTree(after, root) && IsPruned(before, root, after, root, entries)
  {
    hide Walk, Addressed, Trim;
    forall position
      ensures Walk(after, root, position).Some? <==> Walk(before, root, position).Some? && !Addressed(entries, position)
      ensures Walk(after, root, position).Some? ==> SameButTrimmed(before, root, after, root, entries, position)
    {
      assert PrunedAt(before, after, root, entries, position);
      if Walk(after, root, position).Some? {
        WalkStaysInside(before, root, position);
        WalkStaysInside(after, root, position);
      }
    }
  }

  lemma NothingAddressed(before: Cells, root: Ref, entries: seq<OmitEntry>)
    requires IsTree(before, root)
    requires forall position :: Walk(before, root, position).Some? ==> !Addressed(entries, position)
    ensures IsPruned(before, root, before, root, entries)
  {
    forall position | Walk(before, root, position).Some?
      ensures SameButTrimmed(before, root, before, root, entries, position)
    {
      WalkStaysInside(before, root, position);
      var r := Walk(before, root, position).value;
      if before[r].DictCell? {
        var keys := before[r].keys;
        assert CellWellFormed(before, before[r]);
        forall k <- keys ensures k !in GoneKeys(entries, position, keys) {
          assert (position + [Key(k)])[..|position|] == position;
          assert Walk(before, root, position + [Key(k)]).Some?;
        }
        WithoutNothing(keys, GoneKeys(entries, position, keys));
      }
    }
  }

  // --- what follows for the client ---

  ghost predicate SamePayload(a: Cells, rootA: Ref, b: Cells, rootB: Ref)
    requires WellFormed(a) && WellFormed(b)
  {
    forall position ::
      && (Walk(a, rootA, position).Some? <==> Walk(b, rootB, position).Some?)
      && (Walk(a, rootA, position).Some? ==> SameShape(a, rootA, b, rootB, position))
  }

  ghost predicate SameShape(a: Cells, rootA: Ref, b: Cells, rootB: Ref, position: Position)
    requires WellFormed(a) && WellFormed(b)
    requires Walk(a, rootA, position).Some? && Walk(b, rootB, position).Some?
  {
    WalkStaysInside(a, rootA, position);
    WalkStaysInside(b, rootB, position);
    ShapeOf(a[Walk(a, rootA, position).value]) == ShapeOf(b[Walk(b, rootB, position).value])
  }

  /** The order of the entries, and repeating one, does not change what the client gets. */
  lemma OrderIsIrrelevant(before: Cells, root: Ref, a: Cells, rootA: Ref, b: Cells, rootB: Ref,
                          entries: seq<OmitEntry>, others: seq<OmitEntry>)
    requires WellFormed(before) && WellFormed(a) && WellFormed(b)
    requires IsPruned(before, root, a, rootA, entries) && IsPruned(before, root, b, rootB, others)
    requires forall entry :: entry in entries <==> entry in others
    ensures SamePayload(a, rootA, b, rootB)
  {
    hide Walk, AtOrBelow;
    forall position
      ensures Walk(a, rootA, position).Some? <==> Walk(b, rootB, position).Some?
      ensures Walk(a, rootA, position).Some? ==> SameShape(a, rootA, b, rootB, position)
    {
      assert forall p :: Addressed(entries, p) <==> Addressed(others, p);
      if Walk(a, rootA, position).Some? {
        assert SameButTrimmed(before, root, a, rootA, entries, position);
        assert SameButTrimmed(before, root, b, rootB, others, position);
        WalkStaysInside(before, root, position);
        var shape := ShapeOf(before[Walk(before, root, position).value]);
        if shape.OfDict? {
          assert GoneKeys(entries, position, shape.keys) == GoneKeys(others, position, shape.keys);
        }
      }
    }
  }

  /** Applying the block to its own result removes nothing, so ApplyOmit hands that result back as it is. */
  lemma ApplyingTwiceIsApplyingOnce(before: Cells, root: Ref, after: Cells, newRoot: Ref, entries: seq<OmitEntry>)
    requires WellFormed(before) && WellFormed(after) && IsPruned(before, root, after, newRoot, entries)
    ensures Removed(after, newRoot, entries) == []
  {
    NoneRemoved(after, newRoot, entries);
  }

  /** No omitted path, credential or not, resolves to anything in the result. */
  lemma NothingLeftToResolve(before: Cells, root: Ref, after: Cells, newRoot: Ref, entries: seq<OmitEntry>,
                             entry: OmitEntry)
    requires WellFormed(before) && WellFormed(after) && IsPruned(before, root, after, newRoot, entries)
    requires entry in entries && newRoot in after
    ensures Resolve(after, newRoot, Segments(entry.path)) == []
  {
    hide Resolve, Walk, Matches, Segments;
    var matches := Resolve(after, newRoot, Segments(entry.path));
    if matches != [] {
      var position := ResolvedIsMatch(after, newRoot, Segments(entry.path), matches[0]);
      assert !Addressed(entries, position);
      MatchIsAtOrBelow(Segments(entry.path), position);
      assert false;
    }
  }

  // --- the credential alarm ---

  predicate Truthy(data: Shape) {
    match data
    case OfScalar(truthy, _) => truthy
    case OfList(length) => length != 0
    case OfDict(keys) => keys != []
  }

  predicate Reported(omitted: Option<seq<Record>>, path: string) {
    omitted.Some? && exists record <- omitted.value :: record.path == path
  }

  /** The credential paths that removed nothing from a non-empty answer. */
  function UnmatchedCredentialPaths(entries: seq<OmitEntry>, data: Shape, omitted: Option<seq<Record>>): seq<string> {
    if !Truthy(data) || entries == [] then [] else
      var entry := entries[|entries| - 1];
      UnmatchedCredentialPaths(entries[..|entries| - 1], data, omitted)
      + if entry.reason == Credential && !Reported(omitted, entry.path) then [entry.path] else []
  }

  lemma {:induction false} UnmatchedContains(entries: seq<OmitEntry>, data: Shape, omitted: Option<seq<Record>>,
                                             path: string)
    ensures path in UnmatchedCredentialPaths(entries, data, omitted)
            <==> Truthy(data) && !Reported(omitted, path)
                 && exists entry <- entries :: entry.path == path && entry.reason == Credential
  {
    if entries != [] {
      var n := |entries| - 1;
      UnmatchedContains(entries[..n], data, omitted, path);
      assert forall entry :: entry in entries <==> entry == entries[n] || entry in entries[..n];
    }
  }

  ghost function UnmatchedAt(entries: seq<OmitEntry>, omitted: Option<seq<Record>>): nat -> bool {
    (i: nat) => && i < |entries| && entries[i].reason == Credential
                && forall record <- if omitted.None? then [] else omitted.value :: record.path != entries[i].path
  }

  /** They come in declaration order. */
  lemma {:induction false} UnmatchedByPosition(entries: seq<OmitEntry>, data: Shape, omitted: Option<seq<Record>>,
                                               n: nat)
    returns (positions: seq<nat>)
    requires Truthy(data) && n <= |entries|
    ensures AreKept(positions, n, UnmatchedAt(entries, omitted))
    ensures var paths := UnmatchedCredentialPaths(entries[..n], data, omitted);
            && |paths| == |positions|
            && forall k :: 0 <= k < |positions| ==> positions[k] < |entries| && paths[k] == entries[positions[k]].path
  {
    hide AreKept;
    if n == 0 {
      positions := [];
      NoneKept(0, UnmatchedAt(entries, omitted));
    } else {
      var earlier := UnmatchedByPosition(entries, data, omitted, n - 1);
      KeepOneMore(earlier, n - 1, UnmatchedAt(entries, omitted));
      assert entries[..n][..n - 1] == entries[..n - 1];
      positions := if UnmatchedAt(entries, omitted)(n - 1) then earlier + [n - 1] else earlier;
    }
  }

  ghost predicate DistinctPaths(entries: seq<OmitEntry>) {
    forall i, j :: 0 <= i < j < |entries| ==> entries[i].path != entries[j].path
  }

  lemma {:induction false} RecordedPaths(before: Cells, root: Ref, entries: seq<OmitEntry>, i: nat)
    requires DistinctPaths(entries) && i < |entries|
    ensures (exists record <- Removed(before, root, entries) :: record.path == entries[i].path)
            <==> Removes(before, root, entries[..i], entries[i])
    decreases |entries|
  {
    hide Removes;
    var n := |entries| - 1;
    var init := entries[..n];
    var records, earlier := Removed(before, root, entries), Removed(before, root, init);
    assert forall record :: record in records <==>
        record in earlier || (record == RecordOf(entries[n]) && Removes(before, root, init, entries[n]));
    if i < n {
      assert init[..i] == entries[..i];
      RecordedPaths(before, root, init, i);
    } else {
      RecordsComeFromEntries(before, root, init);
    }
  }

  lemma {:induction false} RecordsComeFromEntries(before: Cells, root: Ref, entries: seq<OmitEntry>)
    ensures forall record <- Removed(before, root, entries) ::
              exists i :: 0 <= i < |entries| && entries[i].path == record.path
  {
    hide Removes;
    if entries != [] {
      var n := |entries| - 1;
      RecordsComeFromEntries(before, root, entries[..n]);
      assert RecordOf(entries[n]).path == entries[n].path;
      forall record <- Removed(before, root, entries)
        ensures exists i :: 0 <= i < |entries| && entries[i].path == record.path
      {
        if record in Removed(before, root, entries[..n]) {
          var i :| 0 <= i < n && entries[..n][i].path == record.path;
          assert entries[i].path == record.path;
        }
      }
    }
  }

  /** What ApplyOmit reports, and what the transport checks it against: the answer that goes out. */
  ghost function Report(before: Cells, root: Ref, entries: seq<OmitEntry>): Option<seq<Record>> {
    var removed := Removed(before, root, entries);
    if removed == [] then None else Some(removed)
  }

  ghost function Alarm(before: Cells, root: Ref, entries: seq<OmitEntry>): seq<string>
    requires root in before
  {
    UnmatchedCredentialPaths(entries, Trim(entries, [], ShapeOf(before[root])), Report(before, root, entries))
  }

  ghost predicate AllLinted(entries: seq<OmitEntry>) {
    forall entry <- entries :: Linted(entry.path)
  }

  /** The answer that goes out is not empty: a dictionary keeps some key. */
  ghost predicate SomethingLeft(before: Cells, root: Ref, entries: seq<OmitEntry>)
    requires root in before
  {
    match before[root]
    case Scalar(truthy, _) => truthy
    case ListCell(items) => items != []
    case DictCell(keys, _) => exists k <- keys :: !Addressed(entries, [Key(k)])
  }

  lemma SomethingLeftIsTruthy(before: Cells, root: Ref, entries: seq<OmitEntry>)
    requires root in before
    ensures Truthy(Trim(entries, [], ShapeOf(before[root]))) <==> SomethingLeft(before, root, entries)
  {
    if before[root].DictCell? {
      hide Addressed;
      var keys := before[root].keys;
      assert forall k :: [] + [Key(k)] == [Key(k)];
      var gone := GoneKeys(entries, [], keys);
      WithoutKeeps(keys, gone);
      assert Without(keys, gone) != [] ==> Without(keys, gone)[0] in Without(keys, gone);
    }
  }

  lemma RootOfResult(before: Cells, root: Ref, after: Cells, newRoot: Ref, entries: seq<OmitEntry>)
    requires WellFormed(before) && WellFormed(after) && root in before && AllLinted(entries)
    requires IsPruned(before, root, after, newRoot, entries)
    ensures newRoot in after && ShapeOf(after[newRoot]) == Trim(entries, [], ShapeOf(before[root]))
  {
    hide Linted, Segments;
    forall entry <- entries ensures !AtOrBelow(Segments(entry.path), []) {
      LintedPathSplits(entry.path);
    }
    assert Walk(after, newRoot, []).Some?;
    assert SameButTrimmed(before, root, after, newRoot, entries, []);
  }

  /** When the alarm goes off: the transport checks the trimmed answer, and a credential path is reported
      exactly when something of the answer is left and all matches of the path in the input, if any, lay
      at or below a match of an earlier entry. */
  lemma CredentialAlarm(before: Cells, root: Ref, after: Cells, newRoot: Ref, entries: seq<OmitEntry>, i: nat)
    requires WellFormed(before) && WellFormed(after) && root in before && AllLinted(entries)
    requires IsPruned(before, root, after, newRoot, entries)
    requires DistinctPaths(entries) && i < |entries|
    ensures newRoot in after
    ensures UnmatchedCredentialPaths(entries, ShapeOf(after[newRoot]), Report(before, root, entries))
            == Alarm(before, root, entries)
    ensures entries[i].path in Alarm(before, root, entries)
            <==> && SomethingLeft(before, root, entries)
                 && entries[i].reason == Credential
                 && forall position ::
                      Matches(Segments(entries[i].path), position) && Walk(before, root, position).Some?
                      ==> Addressed(entries[..i], position)
  {
    hide Matches, Walk, Segments, Addressed, UnmatchedCredentialPaths, SomethingLeft, Trim, IsPruned, Removed,
         AllLinted, DistinctPaths, ShapeOf;
    RootOfResult(before, root, after, newRoot, entries);
    AlarmContains(before, root, entries, i);
  }

  lemma AlarmContains(before: Cells, root: Ref, entries: seq<OmitEntry>, i: nat)
    requires root in before && DistinctPaths(entries) && i < |entries|
    ensures entries[i].path in Alarm(before, root, entries)
            <==> && SomethingLeft(before, root, entries)
                 && entries[i].reason == Credential
                 && !Removes(before, root, entries[..i], entries[i])
  {
    hide Removes, Removed, SomethingLeft, Trim;
    var data := Trim(entries, [], ShapeOf(before[root]));
    UnmatchedContains(entries, data, Report(before, root, entries), entries[i].path);
    SomethingLeftIsTruthy(before, root, entries);
    RecordedPaths(before, root, entries, i);
    assert entries[i] in entries;
  }

  // --- the alarm and the order of the entries ---

  /** The same entries in another order. */
  ghost predicate Rearranges(order: seq<OmitEntry>, entries: seq<OmitEntry>) {
    DistinctPaths(order) && forall entry :: entry in order <==> entry in entries
  }

  ghost predicate AlarmIgnoresOrder(before: Cells, root: Ref, entries: seq<OmitEntry>, path: string)
    requires root in before
  {
    forall order :: Rearranges(order, entries) ==>
      (path in Alarm(before, root, order) <==> path in Alarm(before, root, entries))
  }

  function Others(entries: seq<OmitEntry>, i: nat): seq<OmitEntry>
    requires i < |entries|
  {
    entries[..i] + entries[i + 1..]
  }

  lemma OthersAreOthers(entries: seq<OmitEntry>, i: nat)
    requires i < |entries| && DistinctPaths(entries)
    ensures forall entry :: entry in Others(entries, i) <==> entry in entries && entry.path != entries[i].path
    ensures Rearranges([entries[i]] + Others(entries, i), entries)
    ensures Rearranges(Others(entries, i) + [entries[i]], entries)
  {
    var entry, others := entries[i], Others(entries, i);
    forall other ensures other in others <==> other in entries && other.path != entry.path {
      if other in entries && other.path != entry.path {
        var j :| 0 <= j < |entries| && entries[j] == other;
        assert others[if j < i then j else j - 1] == other;
      }
    }
    assert DistinctPaths(others);
    hide Others;
    assert forall j :: 0 <= j < |others| ==> others[j] in others;
    InsertKeepsDistinct(entry, others);
    assert forall other :: other in [entry] + others <==> other == entry || other in others;
    assert forall other :: other in others + [entry] <==> other == entry || other in others;
  }

  lemma InsertKeepsDistinct(entry: OmitEntry, others: seq<OmitEntry>)
    requires DistinctPaths(others) && forall other <- others :: other.path != entry.path
    ensures DistinctPaths([entry] + others) && DistinctPaths(others + [entry])
  {
  }

  lemma SameEntriesSameRest(before: Cells, root: Ref, order: seq<OmitEntry>, entries: seq<OmitEntry>)
    requires root in before && forall entry :: entry in order <==> entry in entries
    ensures SomethingLeft(before, root, order) <==> SomethingLeft(before, root, entries)
  {
    hide AtOrBelow, Segments;
    assert forall p :: Addressed(order, p) <==> Addressed(entries, p);
  }

  lemma FewerRemoveMore(before: Cells, root: Ref, fewer: seq<OmitEntry>, more: seq<OmitEntry>, entry: OmitEntry)
    requires (forall e <- fewer :: e in more) && Removes(before, root, more, entry)
    ensures Removes(before, root, fewer, entry)
  {
    hide AtOrBelow, Segments, Walk, Matches;
    var position :| && Matches(Segments(entry.path), position)
                    && Walk(before, root, position).Some?
                    && !Addressed(more, position);
    assert !Addressed(fewer, position);
  }

  /** The alarm for a credential is the same for every order of the entries exactly if nothing of the
      answer is left, the credential is not in it, or some occurrence of it is removed by no other entry. */
  lemma AlarmIgnoresOrderExactlyIf(before: Cells, root: Ref, entries: seq<OmitEntry>, i: nat)
    requires root in before && DistinctPaths(entries) && i < |entries| && entries[i].reason == Credential
    ensures AlarmIgnoresOrder(before, root, entries, entries[i].path)
            <==> || !SomethingLeft(before, root, entries)
                 || !Removes(before, root, [], entries[i])
                 || Removes(before, root, Others(entries, i), entries[i])
  {
    hide Removes, SomethingLeft, Alarm, Others;
    var entry, others := entries[i], Others(entries, i);
    OthersAreOthers(entries, i);
    AlarmContains(before, root, entries, i);
    var first, last := [entry] + others, others + [entry];
    assert first[..0] == [] && last[..|others|] == others;
    AlarmContains(before, root, first, 0);
    AlarmContains(before, root, last, |others|);
    SameEntriesSameRest(before, root, first, entries);
    SameEntriesSameRest(before, root, last, entries);
    if || !SomethingLeft(before, root, entries)
       || !Removes(before, root, [], entry)
       || Removes(before, root, others, entry)
    {
      AlarmAt(before, root, entries, entries, i, i);
      forall order | Rearranges(order, entries)
        ensures entry.path in Alarm(before, root, order) <==> entry.path in Alarm(before, root, entries)
      {
        assert entry in order;
        var j: nat :| j < |order| && order[j] == entry;
        AlarmAt(before, root, entries, order, i, j);
      }
    }
  }

  lemma AlarmAt(before: Cells, root: Ref, entries: seq<OmitEntry>, order: seq<OmitEntry>, i: nat, j: nat)
    requires root in before && DistinctPaths(entries) && i < |entries| && entries[i].reason == Credential
    requires Rearranges(order, entries) && j < |order| && order[j] == entries[i]
    requires || !SomethingLeft(before, root, entries)
             || !Removes(before, root, [], entries[i])
             || Removes(before, root, Others(entries, i), entries[i])
    ensures entries[i].path in Alarm(before, root, order)
            <==> SomethingLeft(before, root, entries) && !Removes(before, root, [], entries[i])
  {
    hide Removes, SomethingLeft, Alarm, Others;
    var entry, others := entries[i], Others(entries, i);
    OthersAreOthers(entries, i);
    SameEntriesSameRest(before, root, order, entries);
    AlarmContains(before, root, order, j);
    forall e <- order[..j] ensures e in others {
      assert e in order;
      var k :| 0 <= k < j && order[k] == e;
      assert order[k].path != order[j].path;
    }
    if Removes(before, root, others, entry) {
      FewerRemoveMore(before, root, order[..j], others, entry);
      FewerRemoveMore(before, root, [], others, entry);
    }
    if Removes(before, root, order[..j], entry) {
      FewerRemoveMore(before, root, [], order[..j], entry);
    }
  }

  /** An answer {"a": {"b": "t"}, "c": 1}, an entry for the credential in it and one for what it sits in. */
  const ANSWER: Cells := map[0 := DictCell(["a", "c"], map["a" := 1, "c" := 3]), 1 := DictCell(["b"], map["b" := 2]),
                             2 := Scalar(true, "t"), 3 := Scalar(true, "1")]
  const TOKEN := OmitEntry("a.b", Credential, "")
  const PARENT := OmitEntry("a", InternalDetail, "")

  lemma TokenIsThere()
    ensures Removes(ANSWER, 0, [], TOKEN)
  {
    TwoPaths();
    hide Segments, Linted;
    var path := [Key("a"), Key("b")];
    WalkStep(ANSWER, 0, [], Key("a"));
    WalkStep(ANSWER, 0, [Key("a")], Key("b"));
    assert [] + [Key("a")] == [Key("a")] && [Key("a")] + [Key("b")] == path;
    assert Walk(ANSWER, 0, []) == Some(0);
    hide Walk;
    assert Matches(["a", "b"], path);
  }

  lemma TokenGoesWithItsParent()
    ensures !Removes(ANSWER, 0, [PARENT], TOKEN)
  {
    TwoPaths();
    hide Segments, Linted, Walk;
    forall position | Matches(["a", "b"], position) ensures Addressed([PARENT], position) {
      assert StepMatches("a", position[0]);
      assert PARENT in [PARENT] && AtOrBelow(["a"], position);
    }
  }

  lemma KeyIsLeft(entries: seq<OmitEntry>)
    requires forall entry <- entries :: entry == TOKEN || entry == PARENT
    ensures SomethingLeft(ANSWER, 0, entries)
  {
    TwoPaths();
    hide Segments;
    var position := [Key("c")];
    assert position[..1] == position;
    assert !StepMatches(["a"][0], position[0]);
    assert "c" in ANSWER[0].keys && !Addressed(entries, position);
  }

  lemma TokenAlarm(order: seq<OmitEntry>, i: nat)
    requires order == [TOKEN, PARENT] || order == [PARENT, TOKEN]
    requires i < |order| && order[i] == TOKEN
    ensures TOKEN.path in Alarm(ANSWER, 0, order) <==> !Removes(ANSWER, 0, order[..i], TOKEN)
  {
    hide Removes, SomethingLeft, Alarm;
    KeyIsLeft(order);
    AlarmContains(ANSWER, 0, order, i);
  }

  /** It does depend on it in general: a field is removed with the object it sits in, and its credential is
      reported as unmatched if the object is removed first, although the answer no longer holds it. */
  lemma AlarmDependsOnOrder()
    ensures AllLinted([TOKEN, PARENT])
    ensures TOKEN.path !in Alarm(ANSWER, 0, [TOKEN, PARENT])
    ensures TOKEN.path in Alarm(ANSWER, 0, [PARENT, TOKEN])
  {
    TwoPaths();
    TokenIsThere();
    TokenGoesWithItsParent();
    hide Removes, Alarm, Linted;
    assert [TOKEN, PARENT][..0] == [] && [PARENT, TOKEN][..1] == [PARENT];
    TokenAlarm([TOKEN, PARENT], 0);
    TokenAlarm([PARENT, TOKEN], 1);
  }

  lemma TwoPaths()
    ensures Segments("a.b") == ["a", "b"] && Segments("a") == ["a"] && Linted("a.b") && Linted("a")
  {
    SplitAtSeparator("a", '.', "b");
    SplitWithoutSeparator("a", '.');
    SplitWithoutSeparator("b", '.');
    assert "a.b" == "a" + ['.'] + "b";
    NonEmptyKeepsNonEmpty(["a", "b"]);
    NonEmptyKeepsNonEmpty(["a"]);
  }

  /** The transport's two steps: what goes out, what is said to be omitted, and the paths warned about. */
  method TrimAnswer(entries: seq<OmitEntry>, data: Payload)
    returns (answer: Payload, omitted: Option<seq<Record>>, unmatched: seq<string>)
    requires IsTree(data.cells, data.root) && AllLinted(entries)
    ensures data.cells == old(data.cells)
    ensures IsTree(answer.cells, answer.root)
    ensures IsPruned(data.cells, data.root, answer.cells, answer.root, entries)
    ensures omitted == Report(data.cells, data.root, entries)
    ensures unmatched == Alarm(data.cells, data.root, entries)
  {
    answer, omitted := ApplyOmit(entries, data);
    RootOfResult(data.cells, data.root, answer.cells, answer.root, entries);
    unmatched := UnmatchedCredentialPaths(entries, ShapeOf(answer.cells[answer.root]), omitted);
  }
}
