/** What the other modules share: a value that may be absent, the positions a loop keeps, and the non-empty
    ones of a list of texts. */
module Wrappers {

  datatype Option<T> = None | Some(value: T)

  /** The positions below n that are kept, each once and in order. */
  ghost predicate AreKept(positions: seq<nat>, n: nat, kept: nat -> bool) {
    && (forall i, j :: 0 <= i < j < |positions| ==> positions[i] < positions[j])
    && (forall i: nat :: i in positions <==> i < n && kept(i))
  }

  lemma KeepOneMore(positions: seq<nat>, n: nat, kept: nat -> bool)
    requires AreKept(positions, n, kept)
    ensures AreKept(if kept(n) then positions + [n] else positions, n + 1, kept)
  {
    if kept(n) {
      var all := positions + [n];
      assert forall i :: 0 <= i < |positions| ==> positions[i] in positions;
      assert forall i: nat :: i in all <==> i in positions || i == n;
    }
  }

  lemma NoneKept(n: nat, kept: nat -> bool)
    ensures AreKept([], n, kept) <==> forall i: nat :: i < n ==> !kept(i)
  {
  }

  lemma SomeKept(positions: seq<nat>, n: nat, kept: nat -> bool)
    requires AreKept(positions, n, kept) && positions != []
    ensures positions[0] < n && kept(positions[0])
  {
    assert positions[0] in positions;
  }

  function NonEmpty(parts: seq<string>): (r: seq<string>)
    ensures forall part <- r :: part != ""
  {
    if parts == [] then []
    else if parts[0] == "" then NonEmpty(parts[1..])
    else [parts[0]] + NonEmpty(parts[1..])
  }

  lemma {:induction false} NonEmptyKeepsNonEmpty(parts: seq<string>)
    requires forall part <- parts :: part != ""
    ensures NonEmpty(parts) == parts
  {
    if parts != [] {
      assert parts[0] in parts && forall part <- parts[1..] :: part in parts;
      NonEmptyKeepsNonEmpty(parts[1..]);
    }
  }

  function NonEmptyAt(parts: seq<string>): nat -> bool { (i: nat) => i < |parts| && parts[i] != "" }

  lemma {:induction false} NonEmptyConcat(a: seq<string>, b: seq<string>)
    ensures NonEmpty(a + b) == NonEmpty(a) + NonEmpty(b)
  {
    if a == [] {
      assert a + b == b;
    } else {
      assert (a + b)[1..] == a[1..] + b;
      NonEmptyConcat(a[1..], b);
    }
  }

  /** What is kept of the first n parts, by position. */
  lemma {:induction false} NonEmptyPositions(parts: seq<string>, n: nat) returns (positions: seq<nat>)
    requires n <= |parts|
    ensures AreKept(positions, n, NonEmptyAt(parts)) && |NonEmpty(parts[..n])| == |positions|
    ensures forall k :: 0 <= k < |positions| ==>
              positions[k] < n && NonEmpty(parts[..n])[k] == parts[positions[k]]
  {
    hide AreKept;
    if n == 0 {
      positions := [];
      NoneKept(0, NonEmptyAt(parts));
    } else {
      var earlier := NonEmptyPositions(parts, n - 1);
      KeepOneMore(earlier, n - 1, NonEmptyAt(parts));
      assert parts[..n] == parts[..n - 1] + [parts[n - 1]];
      NonEmptyConcat(parts[..n - 1], [parts[n - 1]]);
      assert NonEmpty([parts[n - 1]][1..]) == [];
      positions := if parts[n - 1] == "" then earlier else earlier + [n - 1];
    }
  }
}
