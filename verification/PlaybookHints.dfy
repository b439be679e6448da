/** The clauses of the failure tail rendered for an operation that is a step of playbooks. */
module PlaybookHints {
  import opened Wrappers
  import opened Playbooks
  import opened HintSizes

  /** One sentence of the failure tail. */
  datatype Clause =
    | OneChain(name: string, number: nat, total: nat)
    | SeveralChains(names: seq<string>)
    | Idempotent
    | NotIdempotent
    | LeftBehind(text: string)
    | Verify(with: VerifyWith)
    | ThenDo(text: string)
    | DiffersByChain
    | AskTheUser

  /** The on_failure declarations among the steps, in order. */
  function Declared(refs: seq<StepRef>): (declared: seq<OnFailure>)
    requires forall ref <- refs :: ref.index < |ref.playbook.steps|
    ensures forall onFailure ::
              onFailure in declared <==> exists ref <- refs :: StepOf(ref).onFailure == Some(onFailure)
  {
    if refs == [] then [] else
      var last := refs[|refs| - 1];
      assert forall ref :: ref in refs <==> ref in refs[..|refs| - 1] || ref == last;
      var earlier := Declared(refs[..|refs| - 1]);
      if StepOf(last).onFailure.Some? then earlier + [StepOf(last).onFailure.value] else earlier
  }

  function ClauseIf(condition: bool, clause: Clause): seq<Clause> { if condition then [clause] else [] }

  function LeftBehindClause(leftBehind: Option<string>): seq<Clause> {
    if leftBehind.Some? && leftBehind.value != "" then [LeftBehind(leftBehind.value)] else []
  }

  function VerifyClause(verifyWith: Option<VerifyWith>): seq<Clause> {
    if verifyWith.Some? then [Verify(verifyWith.value)] else []
  }

  /** The order of the clauses in both forms of the tail. */
  function Assemble(head: Clause, idempotent: bool, leftBehind: Option<string>, verifyWith: Option<VerifyWith>,
                    recovery: Clause, askUser: bool): seq<Clause> {
    [head, if idempotent then Idempotent else NotIdempotent]
    + LeftBehindClause(leftBehind) + VerifyClause(verifyWith) + [recovery] + ClauseIf(askUser, AskTheUser)
  }

  /** Where a clause stands in the tail. */
  function Place(clause: Clause): nat {
    match clause
    case OneChain(_, _, _) => 0
    case SeveralChains(_) => 0
    case Idempotent => 1
    case NotIdempotent => 1
    case LeftBehind(_) => 2
    case Verify(_) => 3
    case ThenDo(_) => 4
    case DiffersByChain => 4
    case AskTheUser => 5
  }

  /** At most one clause for each place below n, in the order of the places. */
  ghost predicate InPlace(clauses: seq<Clause>, n: nat) {
    && (forall i, j :: 0 <= i < j < |clauses| ==> Place(clauses[i]) < Place(clauses[j]))
    && forall i :: 0 <= i < |clauses| ==> Place(clauses[i]) < n
  }

  lemma NextPlace(clauses: seq<Clause>, more: seq<Clause>, n: nat)
    requires InPlace(clauses, n) && |more| <= 1 && (more != [] ==> Place(more[0]) == n)
    ensures InPlace(clauses + more, n + 1)
  {
  }

  lemma AssembledInPlace(head: Clause, idempotent: bool, leftBehind: Option<string>, verifyWith: Option<VerifyWith>,
                         recovery: Clause, askUser: bool)
    requires Place(head) == 0 && Place(recovery) == 4
    ensures InPlace(Assemble(head, idempotent, leftBehind, verifyWith, recovery, askUser), 6)
    ensures Assemble(head, idempotent, leftBehind, verifyWith, recovery, askUser) != []
  {
    var left, verify := LeftBehindClause(leftBehind), VerifyClause(verifyWith);
    var clauses := [head, if idempotent then Idempotent else NotIdempotent];
    assert InPlace(clauses, 2);
    hide InPlace;
    NextPlace(clauses, left, 2);
    NextPlace(clauses + left, verify, 3);
    NextPlace(clauses + left + verify, [recovery], 4);
    NextPlace(clauses + left + verify + [recovery], ClauseIf(askUser, AskTheUser), 5);
  }

  lemma AssembleContains(head: Clause, idempotent: bool, leftBehind: Option<string>, verifyWith: Option<VerifyWith>,
                         recovery: Clause, askUser: bool)
    requires (head.OneChain? || head.SeveralChains?) && (recovery.ThenDo? || recovery.DiffersByChain?)
    ensures var clauses := Assemble(head, idempotent, leftBehind, verifyWith, recovery, askUser);
            && (forall clause :: Place(clause) == 0 ==> (clause in clauses <==> clause == head))
            && (forall clause :: Place(clause) == 4 ==> (clause in clauses <==> clause == recovery))
            && (NotIdempotent in clauses <==> !idempotent)
            && (Idempotent in clauses <==> idempotent)
            && (AskTheUser in clauses <==> askUser)
            && (forall text :: LeftBehind(text) in clauses <==> text != "" && leftBehind == Some(text))
            && (forall verifier :: Verify(verifier) in clauses <==> verifyWith == Some(verifier))
  {
    var clauses := Assemble(head, idempotent, leftBehind, verifyWith, recovery, askUser);
    var left, verify, ask := LeftBehindClause(leftBehind), VerifyClause(verifyWith), ClauseIf(askUser, AskTheUser);
    assert forall clause :: clause in clauses <==>
        clause == head || clause == (if idempotent then Idempotent else NotIdempotent)
        || clause in left || clause in verify || clause == recovery || clause in ask;
  }

  /** The specific tail, for an operation in exactly one chain. */
  function OneFailureHint(ref: StepRef, onFailure: OnFailure): seq<Clause> {
    Assemble(OneChain(ref.playbook.name, ref.index + 1, |ref.playbook.steps|),
             onFailure.idempotent, onFailure.leftBehind, onFailure.verifyWith, ThenDo(onFailure.next),
             onFailure.askUser)
  }

  /** What all of the declarations say, if they say the same. */
  function AgreedLeftBehind(declared: seq<OnFailure>): Option<string> {
    if declared != [] && forall onFailure <- declared :: onFailure.leftBehind == declared[0].leftBehind
    then declared[0].leftBehind else None
  }

  function AgreedVerifyWith(declared: seq<OnFailure>): Option<VerifyWith> {
    if declared != [] && forall onFailure <- declared :: onFailure.verifyWith == declared[0].verifyWith
    then declared[0].verifyWith else None
  }

  ghost predicate AllIdempotent(declared: seq<OnFailure>) { forall onFailure <- declared :: onFailure.idempotent }
  ghost predicate SomeAsks(declared: seq<OnFailure>) { exists onFailure <- declared :: onFailure.askUser }

  /** The tail for an operation in several chains: only what holds in all of them. */
  ghost function MergedFailureHint(refs: seq<StepRef>): seq<Clause>
    requires forall ref <- refs :: ref.index < |ref.playbook.steps|
  {
    var declared := Declared(refs);
    Assemble(SeveralChains(PlaybookNames(refs)), AllIdempotent(declared), AgreedLeftBehind(declared),
             AgreedVerifyWith(declared), DiffersByChain, SomeAsks(declared))
  }

  /** The tail's clauses; none if no candidate step declares on_failure. */
  ghost function FailureHint(refs: seq<StepRef>): seq<Clause>
    requires forall ref <- refs :: ref.index < |ref.playbook.steps|
  {
    if Declared(refs) == [] then []
    else if |refs| == 1 then OneFailureHint(refs[0], Declared(refs)[0])
    else MergedFailureHint(refs)
  }

  lemma OnlyElement<T>(s: set<T>, x: T)
    requires x in s
    ensures |s| == 1 <==> s == {x}
  {
    if |s| == 1 {
      assert |s - {x}| == 0;
      assert s == {x} + (s - {x});
    }
  }

  /** The sets of values the tail is built from: one element means all declarations agree. */
  method Agreed(declared: seq<OnFailure>) returns (leftBehind: Option<string>, verifyWith: Option<VerifyWith>)
    requires declared != []
    ensures leftBehind == AgreedLeftBehind(declared) && verifyWith == AgreedVerifyWith(declared)
  {
    var texts := set onFailure | onFailure in declared :: onFailure.leftBehind;
    var verifiers := set onFailure | onFailure in declared :: onFailure.verifyWith;
    var first := declared[0];
    assert first in declared;
    OnlyElement(texts, first.leftBehind);
    OnlyElement(verifiers, first.verifyWith);
    leftBehind, verifyWith := None, None;
    if |texts| == 1 {
      leftBehind :| leftBehind in texts;
      assert forall onFailure <- declared :: onFailure.leftBehind in texts;
    }
    if |verifiers| == 1 {
      verifyWith :| verifyWith in verifiers;
      assert forall onFailure <- declared :: onFailure.verifyWith in verifiers;
    }
  }

  /** Renders the merged tail part by part. */
  method RenderMergedFailureHint(refs: seq<StepRef>) returns (parts: seq<Clause>)
    requires forall ref <- refs :: ref.index < |ref.playbook.steps|
    requires Declared(refs) != []
    ensures parts == MergedFailureHint(refs)
  {
    hide PlaybookNames, Declared, AgreedLeftBehind, AgreedVerifyWith;
    var declared := Declared(refs);
    var idempotent, askUser := true, false;
    for i := 0 to |declared|
      invariant idempotent <==> AllIdempotent(declared[..i])
      invariant askUser <==> SomeAsks(declared[..i])
    {
      assert declared[..i + 1] == declared[..i] + [declared[i]];
      assert forall onFailure ::
          onFailure in declared[..i + 1] <==> onFailure in declared[..i] || onFailure == declared[i];
      idempotent := idempotent && declared[i].idempotent;
      askUser := askUser || declared[i].askUser;
    }
    assert declared[..|declared|] == declared;
    var leftBehind, verifyWith := Agreed(declared);
    parts := [SeveralChains(PlaybookNames(refs)), if idempotent then Idempotent else NotIdempotent];
    parts := parts + LeftBehindClause(leftBehind);
    parts := parts + VerifyClause(verifyWith);
    parts := parts + [DiffersByChain];
    parts := parts + ClauseIf(askUser, AskTheUser);
  }

  /** Adding chains errs towards caution: once a candidate declares on_failure, further chains never drop
      "not idempotent" or "ask the user", and never add a left-behind or verification clause. */
  lemma AddingChainsStaysCautious(refs: seq<StepRef>, more: seq<StepRef>)
    requires forall ref <- more :: ref.index < |ref.playbook.steps|
    requires (forall ref <- refs :: ref in more) && Declared(refs) != [] && |refs| <= |more|
    ensures NotIdempotent in FailureHint(refs) ==> NotIdempotent in FailureHint(more)
    ensures AskTheUser in FailureHint(refs) ==> AskTheUser in FailureHint(more)
    ensures forall text :: LeftBehind(text) in FailureHint(more) ==> LeftBehind(text) in FailureHint(refs)
    ensures forall verifier :: Verify(verifier) in FailureHint(more) ==> Verify(verifier) in FailureHint(refs)
  {
    hide PlaybookNames;
    var declared, all := Declared(refs), Declared(more);
    assert forall onFailure <- declared :: onFailure in all;
    assert declared[0] in declared && all[0] in all;
    Contains(refs);
    Contains(more);
  }

  lemma NothingDeclared(refs: seq<StepRef>)
    requires forall ref <- refs :: ref.index < |ref.playbook.steps|
    ensures Declared(refs) == [] <==> forall ref <- refs :: StepOf(ref).onFailure.None?
  {
    var declared := Declared(refs);
    if declared == [] {
      assert forall ref <- refs :: StepOf(ref).onFailure.Some? ==> StepOf(ref).onFailure.value in declared;
    } else {
      assert declared[0] in declared;
    }
  }

  lemma OneInPlace(ref: StepRef, only: OnFailure)
    ensures InPlace(OneFailureHint(ref, only), 6) && OneFailureHint(ref, only) != []
  {
    hide Assemble, InPlace;
    AssembledInPlace(OneChain(ref.playbook.name, ref.index + 1, |ref.playbook.steps|), only.idempotent,
                     only.leftBehind, only.verifyWith, ThenDo(only.next), only.askUser);
  }

  lemma MergedInPlace(refs: seq<StepRef>)
    requires forall ref <- refs :: ref.index < |ref.playbook.steps|
    ensures InPlace(MergedFailureHint(refs), 6) && MergedFailureHint(refs) != []
  {
    var declared := Declared(refs);
    hide Declared, AllIdempotent, SomeAsks, AgreedLeftBehind, AgreedVerifyWith, Assemble, PlaybookNames, InPlace;
    AssembledInPlace(SeveralChains(PlaybookNames(refs)), AllIdempotent(declared), AgreedLeftBehind(declared),
                     AgreedVerifyWith(declared), DiffersByChain, SomeAsks(declared));
  }

  /** There is a tail exactly if some step declares on_failure, and its clauses are in their places. */
  lemma TailInPlace(refs: seq<StepRef>)
    requires forall ref <- refs :: ref.index < |ref.playbook.steps|
    ensures FailureHint(refs) == [] <==> forall ref <- refs :: StepOf(ref).onFailure.None?
    ensures InPlace(FailureHint(refs), 6)
  {
    NothingDeclared(refs);
    assert InPlace([], 6);
    hide Declared, OneFailureHint, MergedFailureHint, InPlace;
    if Declared(refs) != [] {
      if |refs| == 1 {
        OneInPlace(refs[0], Declared(refs)[0]);
      } else {
        MergedInPlace(refs);
      }
    }
  }

  /** In one chain the tail names the step and says what that chain does next. */
  lemma OneChainIsNamed(ref: StepRef)
    requires ref.index < |ref.playbook.steps| && StepOf(ref).onFailure.Some?
    ensures forall clause ::
              && (Place(clause) == 0 ==>
                    (clause in FailureHint([ref])
                     <==> clause == OneChain(ref.playbook.name, ref.index + 1, |ref.playbook.steps|)))
              && (Place(clause) == 4 ==>
                    (clause in FailureHint([ref]) <==> clause == ThenDo(StepOf(ref).onFailure.value.next)))
  {
    hide Assemble;
    var only := StepOf(ref).onFailure.value;
    assert [ref][..0] == [];
    assert Declared([ref]) == [only];
    AssembleContains(OneChain(ref.playbook.name, ref.index + 1, |ref.playbook.steps|),
                     only.idempotent, only.leftBehind, only.verifyWith, ThenDo(only.next), only.askUser);
  }

  /** In several it names all of them in order, and says that they differ. */
  lemma SeveralChainsAreNamed(refs: seq<StepRef>)
    requires forall ref <- refs :: ref.index < |ref.playbook.steps|
    requires Declared(refs) != [] && |refs| != 1
    ensures forall clause ::
              && (Place(clause) == 0 ==>
                    (clause in FailureHint(refs) <==> clause.SeveralChains? && AreNames(clause.names, refs)))
              && (Place(clause) == 4 ==> (clause in FailureHint(refs) <==> clause == DiffersByChain))
  {
    hide Assemble;
    var declared := Declared(refs);
    NamesInOrder(refs);
    hide Declared, AllIdempotent, SomeAsks, AgreedLeftBehind, AgreedVerifyWith, PlaybookNames, AreNames;
    AssembleContains(SeveralChains(PlaybookNames(refs)), AllIdempotent(declared), AgreedLeftBehind(declared),
                     AgreedVerifyWith(declared), DiffersByChain, SomeAsks(declared));
  }

  /** Which cautious and which helpful clauses the tail holds, whatever the number of chains. */
  lemma Contains(refs: seq<StepRef>)
    requires forall ref <- refs :: ref.index < |ref.playbook.steps|
    requires Declared(refs) != []
    ensures var declared := Declared(refs);
            && (NotIdempotent in FailureHint(refs) <==> exists onFailure <- declared :: !onFailure.idempotent)
            && (Idempotent in FailureHint(refs) <==> NotIdempotent !in FailureHint(refs))
            && (AskTheUser in FailureHint(refs) <==> exists onFailure <- declared :: onFailure.askUser)
            && (forall text :: LeftBehind(text) in FailureHint(refs)
                               <==> text != "" && forall onFailure <- declared :: onFailure.leftBehind == Some(text))
            && (forall verifier :: Verify(verifier) in FailureHint(refs)
                                   <==> forall onFailure <- declared :: onFailure.verifyWith == Some(verifier))
  {
    hide PlaybookNames, Assemble;
    var declared := Declared(refs);
    assert declared[0] in declared;
    if |refs| == 1 {
      var only := declared[0];
      assert forall ref <- refs :: ref == refs[0];
      assert forall onFailure :: onFailure in declared <==> onFailure == only;
      AssembleContains(OneChain(refs[0].playbook.name, refs[0].index + 1, |refs[0].playbook.steps|),
                       only.idempotent, only.leftBehind, only.verifyWith, ThenDo(only.next), only.askUser);
    } else {
      AssembleContains(SeveralChains(PlaybookNames(refs)), AllIdempotent(declared), AgreedLeftBehind(declared),
                       AgreedVerifyWith(declared), DiffersByChain, SomeAsks(declared));
    }
  }
}
