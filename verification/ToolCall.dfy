/** The tool-call handler: which of its exits write an audit line, with an exception possible at every
    step, and how the limiter's bound carries over to the upstream while calls interleave. */
module ToolCall {
  import opened Wrappers
  import opened RateLimit

  datatype ErrorType = RateLimited | InvalidArguments | UpstreamUnreachable | MappedUpstream | Internal

  datatype AuditLine = AuditLine(errorType: Option<ErrorType>)

  /** How the dispatch, or the local handler in its place, ends. */
  datatype Outcome = OkResult | ErrorResult | MissingArgument | Unreachable | OtherDispatchError

  /** The points at which the handler can raise: before the guarded part, in it, and in the catch-all.
      `Dispatch` raises something none of the handler's own clauses expects. `AuditLost` raises instead
      of writing the line, `AuditBroken` after having written it. */
  datatype Stage =
    | LookUpOperation | ReadClient
    | ReadContext | SetContext | Acquire | Track | Validate | LookUpSteps | Dispatch | WantsImages | MapError
    | AuditLost | AuditBroken | LogDetail | Capture | RenderHint | PostProcess | BuildAnswer
    | CatchAllCapture | CatchAllLog | CatchAllAnswer

  /** What one call meets: its user, its arguments, the dispatch, and where exceptions strike. */
  datatype Script = Script(
    user: Option<string>, local: bool, argumentsValid: bool, outcome: Outcome, detailed: bool, raises: set<Stage>)

  /** How the handler ends: `Escaped` is an exception that reaches the client unmapped. */
  datatype Ending = Result(isError: bool) | Escaped

  // --- what one call should come to ---

  const PRELUDE := {LookUpOperation, ReadClient}
  const LOGGING := {AuditLost, AuditBroken}
  const CATCH_ALL := {CatchAllCapture, CatchAllLog, CatchAllAnswer}

  predicate Hits(script: Script, stages: set<Stage>) { exists stage <- stages :: stage in script.raises }

  /** The handler gets to know the user. */
  predicate Identified(script: Script) {
    script.user.Some? && !Hits(script, PRELUDE) && ReadContext !in script.raises
  }

  /** The audit line's error type when nothing raises. */
  function Expected(script: Script, allowed: bool): Option<ErrorType> {
    if !allowed then Some(RateLimited)
    else if !script.argumentsValid then Some(InvalidArguments)
    else match script.outcome
         case OkResult => None
         case ErrorResult => Some(MappedUpstream)
         case MissingArgument => Some(InvalidArguments)
         case Unreachable => Some(UpstreamUnreachable)
         case OtherDispatchError => Some(Internal)
  }

  /** The stages of the guarded part before the audit line is due. */
  function BeforeAudit(script: Script, allowed: bool): set<Stage> {
    {ReadContext}
    + (if script.user.Some? then {SetContext, Acquire} else {})
    + (if script.user.Some? && allowed then {Track, Validate} else {})
    + (if script.user.Some? && allowed && script.argumentsValid then DispatchStages(script.outcome) else {})
  }

  function DispatchStages(outcome: Outcome): set<Stage> {
    {LookUpSteps, Dispatch}
    + (if outcome.OkResult? then {WantsImages} else if outcome.ErrorResult? then {MapError} else {})
  }

  /** The stages from the audit line on. */
  function FromAudit(script: Script, allowed: bool): set<Stage> {
    if script.user.None? then {BuildAnswer} else
      LOGGING +
      match Expected(script, allowed)
      case None => {PostProcess}
      case Some(UpstreamUnreachable) => {Capture, RenderHint, BuildAnswer}
      case Some(Internal) => {Capture, BuildAnswer}
      case Some(MappedUpstream) => DetailStages(script)
      case Some(_) => {BuildAnswer}
  }

  function DetailStages(script: Script): set<Stage> {
    if script.detailed then {LogDetail, Capture, RenderHint} else {RenderHint}
  }

  predicate Caught(script: Script, allowed: bool) {
    Hits(script, BeforeAudit(script, allowed) + FromAudit(script, allowed))
  }

  /** What an audit line tells about the call. */
  predicate Tells(line: AuditLine, script: Script, allowed: bool) {
    match line.errorType
    case None => allowed && script.argumentsValid && script.outcome.OkResult?
    case Some(RateLimited) => !allowed
    case Some(InvalidArguments) => allowed && (!script.argumentsValid || script.outcome.MissingArgument?)
    case Some(UpstreamUnreachable) => allowed && script.argumentsValid && script.outcome.Unreachable?
    case Some(MappedUpstream) => allowed && script.argumentsValid && script.outcome.ErrorResult?
    case Some(Internal) =>
      script.raises != {} || (allowed && script.argumentsValid && script.outcome.OtherDispatchError?)
  }

  /** The audit lines of a finished call: at most one, and exactly one if the user is known unless the
      logger fails before writing. */
  function LinesOf(script: Script, allowed: bool): (lines: seq<AuditLine>)
    ensures |lines| <= 1
    ensures |lines| == 1 <==> Identified(script) && AuditLost !in script.raises
    ensures forall line <- lines :: Tells(line, script, allowed)
  {
    if !Identified(script) || AuditLost in script.raises then []
    else if Hits(script, BeforeAudit(script, allowed)) then [AuditLine(Some(Internal))]
    else [AuditLine(Expected(script, allowed))]
  }

  /** An exception gets out from before the guarded part, or is caught and then met by another one: in the
      catch-all's own steps, or in the audit line that only the catch-all came to write. */
  predicate Escapes(script: Script, allowed: bool) {
    || Hits(script, PRELUDE)
    || (Caught(script, allowed) && Hits(script, CATCH_ALL))
    || (Identified(script) && Hits(script, BeforeAudit(script, allowed)) && Hits(script, LOGGING))
  }

  /** How a finished call ended: an answer that is no error has its audit line, and no exception gets past
      the catch-all unless it, the logger or what precedes the guarded part fails. */
  function EndingOf(script: Script, allowed: bool): (ending: Ending)
    ensures ending == Result(false) ==> LinesOf(script, allowed) == [AuditLine(None)]
    ensures !Hits(script, PRELUDE + LOGGING + CATCH_ALL) ==> ending.Result?
    ensures script.raises == {} && script.user.Some? ==>
              ending == Result(!(allowed && script.argumentsValid && script.outcome.OkResult?))
  {
    if Escapes(script, allowed) then Escaped
    else Result(Caught(script, allowed) || script.user.None? || Expected(script, allowed).Some?)
  }

  predicate Acquires(script: Script) { Identified(script) && !Hits(script, {SetContext, Acquire}) }

  predicate Dispatches(script: Script, allowed: bool) {
    && Acquires(script) && allowed && script.argumentsValid && !script.local
    && !Hits(script, {Track, Validate, LookUpSteps})
  }

  lemma EndsInCatchAll(script: Script, allowed: bool, stage: Stage)
    requires Identified(script) && stage in BeforeAudit(script, allowed) && stage in script.raises
    ensures LinesOf(script, allowed) == if AuditLost in script.raises then [] else [AuditLine(Some(Internal))]
    ensures EndingOf(script, allowed)
            == if Hits(script, LOGGING) || Hits(script, CATCH_ALL) then Escaped else Result(true)
  {
    hide BeforeAudit, FromAudit;
  }

  lemma EndsInAnswer(script: Script, allowed: bool)
    requires Identified(script) && !Hits(script, BeforeAudit(script, allowed))
    ensures LinesOf(script, allowed)
            == if AuditLost in script.raises then [] else [AuditLine(Expected(script, allowed))]
    ensures EndingOf(script, allowed)
            == if !Hits(script, FromAudit(script, allowed)) then Result(Expected(script, allowed).Some?)
               else if Hits(script, CATCH_ALL) then Escaped else Result(true)
  {
    hide BeforeAudit, FromAudit, Expected;
  }

  /** The stages of a call that the limiter has decided on. */
  lemma DecidedStages(script: Script)
    requires Acquires(script)
    ensures {Track, Validate} <= BeforeAudit(script, true)
    ensures Hits(script, {Track, Validate}) <==> Track in script.raises || Validate in script.raises
    ensures Hits(script, {Track, Validate, LookUpSteps})
            <==> Hits(script, {Track, Validate}) || LookUpSteps in script.raises
    ensures script.argumentsValid ==> LookUpSteps in BeforeAudit(script, true)
    ensures Identified(script) && !Dispatches(script, false)
    ensures Dispatches(script, true)
            <==> script.argumentsValid && !script.local && !Hits(script, {Track, Validate, LookUpSteps})
    ensures !Hits(script, BeforeAudit(script, false)) && FromAudit(script, false) == LOGGING + {BuildAnswer}
    ensures !script.argumentsValid && !Hits(script, {Track, Validate}) ==>
              !Hits(script, BeforeAudit(script, true)) && FromAudit(script, true) == LOGGING + {BuildAnswer}
  {
    assert forall stage <- {SetContext, Acquire} :: stage !in script.raises;
  }

  /** The stages of a call that has come to its dispatch. */
  lemma DispatchedStages(script: Script)
    requires Acquires(script) && script.argumentsValid && !Hits(script, {Track, Validate, LookUpSteps})
    ensures Dispatch in BeforeAudit(script, true)
    ensures script.outcome.OkResult? ==> WantsImages in BeforeAudit(script, true)
    ensures script.outcome.ErrorResult? ==> MapError in BeforeAudit(script, true)
    ensures Hits(script, BeforeAudit(script, true))
            <==> || Dispatch in script.raises
                 || (script.outcome.OkResult? && WantsImages in script.raises)
                 || (script.outcome.ErrorResult? && MapError in script.raises)
    ensures FromAudit(script, true)
            == LOGGING + match script.outcome
                         case OkResult => {PostProcess}
                         case ErrorResult => DetailStages(script)
                         case MissingArgument => {BuildAnswer}
                         case Unreachable => {Capture, RenderHint, BuildAnswer}
                         case OtherDispatchError => {Capture, BuildAnswer}
  {
    hide DetailStages;
    var before := BeforeAudit(script, true);
    assert forall stage <- {Track, Validate, LookUpSteps} :: stage !in script.raises;
    assert forall stage <- {SetContext, Acquire} :: stage !in script.raises;
  }

  // --- the handler ---

  /** Where a call is: each phase but the last ends at an await, at which other calls may take over. */
  datatype Phase = New | AwaitsAcquire | Decided(allowed: bool) | AwaitsDispatch | Over(ending: Ending)

  /** What the limiter and the upstream have to do with one call; `ticket` is the position of its acquire
      in the limiter's log. */
  datatype Entry = Entry(user: Option<string>, acquired: Option<bool>, ticket: Option<nat>, dispatched: bool)

  class ToolCall {
    const script: Script
    var userContext: Option<string>
    var audited: bool
    var phase: Phase
    ghost var lines: seq<AuditLine>
    ghost var acquired: Option<bool>
    ghost var dispatched: bool

    ghost predicate Allowed()
      reads this
    {
      acquired == Some(true)
    }

    ghost function EntryWith(ticket: Option<nat>): Entry
      reads this
    {
      Entry(script.user, acquired, ticket, dispatched)
    }

    ghost predicate InProgress()
      reads this
    {
      Identified(script) && SetContext !in script.raises && userContext == script.user && !audited && lines == []
    }

    ghost predicate Valid()
      reads this
    {
      match phase
      case New => userContext.None? && !audited && lines == [] && acquired.None? && !dispatched
      case AwaitsAcquire => InProgress() && acquired.None? && !dispatched
      case Decided(allowed) => InProgress() && Acquires(script) && acquired == Some(allowed) && !dispatched
      case AwaitsDispatch =>
        && InProgress() && Acquires(script) && Allowed() && script.argumentsValid && dispatched == !script.local
        && !Hits(script, {Track, Validate, LookUpSteps})
      case Over(ending) =>
        && lines == LinesOf(script, Allowed())
        && ending == EndingOf(script, Allowed())
        && (acquired.Some? <==> Acquires(script))
        && (dispatched <==> Dispatches(script, Allowed()))
    }

    constructor (script: Script)
      ensures this.script == script && phase == New && Valid()
    {
      this.script := script;
      userContext, audited, phase := None, false, New;
      lines, acquired, dispatched := [], None, false;
    }

    /** Writes the audit line if there is a user to attribute it to; false if that raises. */
    method Emit(errorType: Option<ErrorType>) returns (ok: bool)
      modifies this`audited, this`lines
      ensures userContext.None? ==> ok && audited == old(audited) && lines == old(lines)
      ensures userContext.Some? ==> audited && (ok <==> !Hits(script, LOGGING))
      ensures userContext.Some? ==>
                lines == if AuditLost in script.raises then old(lines) else old(lines) + [AuditLine(errorType)]
    {
      if userContext.None? {
        return true;
      }
      audited := true;
      if AuditLost in script.raises {
        return false;
      }
      lines := lines + [AuditLine(errorType)];
      return AuditBroken !in script.raises;
    }

    /** The catch-all around the guarded part. */
    method CatchAll()
      modifies this`audited, this`lines, this`phase
      ensures lines == if old(audited) || userContext.None? || AuditLost in script.raises then old(lines)
                       else old(lines) + [AuditLine(Some(Internal))]
      ensures phase == Over(if (!old(audited) && userContext.Some? && Hits(script, LOGGING)) || Hits(script, CATCH_ALL)
                            then Escaped else Result(true))
    {
      if !audited {
        var ok := Emit(Some(Internal));
        if !ok {
          phase := Over(Escaped);
          return;
        }
      }
      phase := Over(if Hits(script, CATCH_ALL) then Escaped else Result(true));
    }

    /** Emits, then maybe captures or renders something that can raise, then answers. */
    method Answer(errorType: Option<ErrorType>, afterwards: set<Stage>)
      requires userContext.Some? && !audited && lines == []
      modifies this`audited, this`lines, this`phase
      ensures lines == if AuditLost in script.raises then [] else [AuditLine(errorType)]
      ensures phase == Over(if !Hits(script, LOGGING + afterwards) then Result(errorType.Some?)
                            else if Hits(script, CATCH_ALL) then Escaped else Result(true))
    {
      var ok := Emit(errorType);
      if !ok || Hits(script, afterwards) {
        CatchAll();
      } else {
        phase := Over(Result(errorType.Some?));
      }
    }

    /** A stage of the guarded part raises before the audit line is due. */
    method FailAt(stage: Stage)
      requires Valid() && (phase.Decided? || phase.AwaitsDispatch?)
      requires stage in BeforeAudit(script, Allowed()) && stage in script.raises
      requires dispatched <==> Dispatches(script, Allowed())
      modifies this`audited, this`lines, this`phase
      ensures Valid() && phase.Over?
    {
      hide LinesOf, EndingOf, BeforeAudit, FromAudit, Hits, Dispatches;
      EndsInCatchAll(script, Allowed(), stage);
      CatchAll();
    }

    /** The audit line is due, and these stages come after it. */
    method Conclude(errorType: Option<ErrorType>, afterwards: set<Stage>)
      requires Valid() && (phase.Decided? || phase.AwaitsDispatch?)
      requires !Hits(script, BeforeAudit(script, Allowed()))
      requires errorType == Expected(script, Allowed()) && FromAudit(script, Allowed()) == LOGGING + afterwards
      requires dispatched <==> Dispatches(script, Allowed())
      modifies this`audited, this`lines, this`phase
      ensures Valid() && phase.Over?
    {
      hide LinesOf, EndingOf, BeforeAudit, FromAudit, Hits, Dispatches, Expected;
      EndsInAnswer(script, Allowed());
      Answer(errorType, afterwards);
    }

    /** From the start to the await on the limiter. */
    method Start()
      requires Valid() && phase == New
      modifies this
      ensures Valid() && (phase.AwaitsAcquire? || phase.Over?) && acquired.None? && !dispatched
      ensures phase.AwaitsAcquire?
              <==> && script.user.Some? && LookUpOperation !in script.raises && ReadClient !in script.raises
                   && ReadContext !in script.raises && SetContext !in script.raises
    {
      if Hits(script, PRELUDE) {
        phase := Over(Escaped);
        return;
      }
      assert ReadContext in BeforeAudit(script, false);
      if ReadContext in script.raises {
        CatchAll();
        return;
      }
      userContext := script.user;
      if userContext.None? {
        if BuildAnswer in script.raises {
          CatchAll();
        } else {
          phase := Over(Result(true));
        }
        return;
      }
      if SetContext in script.raises {
        EndsInCatchAll(script, false, SetContext);
        CatchAll();
        return;
      }
      phase := AwaitsAcquire;
    }

    /** The limiter's decision on this call. */
    method Decide(limiter: InMemoryRateLimiter, now: real)
      requires Valid() && phase == AwaitsAcquire && limiter.Valid()
      modifies this, limiter
      ensures Valid() && limiter.Valid() && !dispatched && (phase.Decided? || phase.Over?)
      ensures (phase.Decided? <==> Acquire !in script.raises) && (acquired.Some? <==> phase.Decided?)
      ensures acquired.None? ==> limiter.log == old(limiter.log)
      ensures acquired.Some? ==>
                && script.user.Some?
                && limiter.log == old(limiter.log) + [Event(script.user.value, Call(now, acquired.value))]
    {
      hide LinesOf, EndingOf;
      if Acquire in script.raises {
        EndsInCatchAll(script, false, Acquire);
        CatchAll();
        return;
      }
      var decision := limiter.Acquire(userContext.value, now);
      acquired, phase := Some(decision.allowed), Decided(decision.allowed);
    }

    /** From the limiter's decision to the await on the upstream. */
    method Proceed()
      requires Valid() && phase.Decided?
      modifies this
      ensures Valid() && acquired == old(acquired) && (phase.AwaitsDispatch? || phase.Over?)
      ensures dispatched
              <==> && acquired == Some(true) && script.argumentsValid && !script.local
                   && Track !in script.raises && Validate !in script.raises && LookUpSteps !in script.raises
    {
      if phase.allowed {
        ProceedAllowed();
      } else {
        DecidedStages(script);
        hide LinesOf, EndingOf, BeforeAudit, FromAudit, Hits, Dispatches;
        Conclude(Some(RateLimited), {BuildAnswer});
      }
    }

    /** Analytics, validation and the look-up of the operation's steps. */
    method ProceedAllowed()
      requires Valid() && phase == Decided(true)
      modifies this
      ensures Valid() && acquired == old(acquired) && (phase.AwaitsDispatch? || phase.Over?)
      ensures dispatched
              <==> && script.argumentsValid && !script.local
                   && Track !in script.raises && Validate !in script.raises && LookUpSteps !in script.raises
    {
      DecidedStages(script);
      hide LinesOf, EndingOf, BeforeAudit, FromAudit, Hits, Dispatches, Acquires, Identified;
      if Hits(script, {Track, Validate}) {
        FailAt(if Track in script.raises then Track else Validate);
      } else if !script.argumentsValid {
        Conclude(Some(InvalidArguments), {BuildAnswer});
      } else if LookUpSteps in script.raises {
        FailAt(LookUpSteps);
      } else {
        dispatched, phase := !script.local, AwaitsDispatch;
      }
    }

    /** From the end of the dispatch to the end of the call. */
    method Finish()
      requires Valid() && phase == AwaitsDispatch
      modifies this
      ensures Valid() && phase.Over? && acquired == old(acquired) && dispatched == old(dispatched)
    {
      if Dispatch in script.raises {
        DispatchedStages(script);
        hide LinesOf, EndingOf, BeforeAudit, FromAudit, Hits;
        FailAt(Dispatch);
      } else if script.outcome.OkResult? || script.outcome.ErrorResult? {
        FinishResult();
      } else {
        FinishException();
      }
    }

    /** The dispatch raised one of the exceptions it is known to raise. */
    method FinishException()
      requires Valid() && phase == AwaitsDispatch && Dispatch !in script.raises
      requires !script.outcome.OkResult? && !script.outcome.ErrorResult?
      modifies this
      ensures Valid() && phase.Over? && acquired == old(acquired) && dispatched == old(dispatched)
    {
      DispatchedStages(script);
      hide LinesOf, EndingOf, BeforeAudit, FromAudit, Hits;
      match script.outcome
      case MissingArgument =>
        Conclude(Some(InvalidArguments), {BuildAnswer});
      case Unreachable =>
        Conclude(Some(UpstreamUnreachable), {Capture, RenderHint, BuildAnswer});
      case OtherDispatchError =>
        Conclude(Some(Internal), {Capture, BuildAnswer});
    }

    /** The dispatch returned, ok or not. */
    method FinishResult()
      requires Valid() && phase == AwaitsDispatch && Dispatch !in script.raises
      requires script.outcome.OkResult? || script.outcome.ErrorResult?
      modifies this
      ensures Valid() && phase.Over? && acquired == old(acquired) && dispatched == old(dispatched)
    {
      DispatchedStages(script);
      hide LinesOf, EndingOf, BeforeAudit, FromAudit, Hits;
      var unready := if script.outcome.OkResult? then WantsImages else MapError;
      if unready in script.raises {
        FailAt(unready);
      } else if script.outcome.OkResult? {
        Conclude(None, {PostProcess});
      } else {
        Conclude(Some(MappedUpstream), DetailStages(script));
      }
    }

    /** The whole handler, when no other call takes over at its awaits. */
    method OnCallTool(limiter: InMemoryRateLimiter, now: real) returns (ending: Ending)
      requires Valid() && phase == New && limiter.Valid()
      modifies this, limiter
      ensures Valid() && limiter.Valid() && phase == Over(ending)
      ensures acquired.None? ==> limiter.log == old(limiter.log)
      ensures acquired.Some? ==>
                && script.user.Some?
                && limiter.log == old(limiter.log) + [Event(script.user.value, Call(now, acquired.value))]
    {
      Start();
      if phase == AwaitsAcquire {
        Decide(limiter, now);
        if phase.Decided? {
          Proceed();
          if phase == AwaitsDispatch {
            Finish();
          }
        }
      }
      ending := phase.ending;
    }
  }

  // --- dispatches over a run of calls ---

  ghost predicate OnlyAllowedDispatched(log: seq<Event>, dispatched: seq<bool>) {
    |dispatched| == |log| && forall k :: 0 <= k < |log| ==> dispatched[k] ==> log[k].call.allowed
  }

  /** The calls of one key from position i of the limiter's log on that reached the upstream: `dispatched`
      says so for each acquire. */
  ghost function DispatchedFrom(log: seq<Event>, dispatched: seq<bool>, key: string, i: nat): set<nat>
    requires |dispatched| == |log|
  {
    set n: nat | i <= n < |log| && log[n].key == key && dispatched[n]
  }

  lemma {:induction false} HistoryPrefix(log: seq<Event>, key: string, i: nat)
    requires i <= |log|
    ensures HistoryOf(log[..i], key) <= HistoryOf(log, key)
  {
    if i == |log| {
      assert log[..i] == log;
    } else {
      var n := |log| - 1;
      HistoryPrefix(log[..n], key, i);
      assert log[..n][..i] == log[..i];
    }
  }

  lemma {:induction false} DispatchedWereAllowed(log: seq<Event>, dispatched: seq<bool>, key: string, i: nat)
    requires OnlyAllowedDispatched(log, dispatched) && i <= |log|
    ensures |DispatchedFrom(log, dispatched, key, i)|
            <= AllowedFrom(HistoryOf(log, key), |HistoryOf(log[..i], key)|)
  {
    if i == |log| {
      assert DispatchedFrom(log, dispatched, key, i) == {};
    } else {
      var n := |log| - 1;
      hide DispatchedFrom;
      DispatchedWereAllowed(log[..n], dispatched[..n], key, i);
      HistoryPrefix(log[..n], key, i);
      assert log[..n][..i] == log[..i];
      DispatchedOneMore(log, dispatched, key, i);
      hide OnlyAllowedDispatched;
      AllowedOneMore(log, key, |HistoryOf(log[..i], key)|);
    }
  }

  lemma DispatchedOneMore(log: seq<Event>, dispatched: seq<bool>, key: string, i: nat)
    requires |dispatched| == |log| && i < |log|
    ensures var n := |log| - 1;
            |DispatchedFrom(log, dispatched, key, i)|
            == |DispatchedFrom(log[..n], dispatched[..n], key, i)|
               + if log[n].key == key && dispatched[n] then 1 else 0
  {
    var n := |log| - 1;
    var earlier := DispatchedFrom(log[..n], dispatched[..n], key, i);
    assert n !in earlier;
    assert DispatchedFrom(log, dispatched, key, i)
           == if log[n].key == key && dispatched[n] then earlier + {n} else earlier;
  }

  lemma AllowedOneMore(log: seq<Event>, key: string, k: nat)
    requires log != [] && k <= |HistoryOf(log[..|log| - 1], key)|
    ensures var last := log[|log| - 1];
            AllowedFrom(HistoryOf(log, key), k)
            == AllowedFrom(HistoryOf(log[..|log| - 1], key), k)
               + if last.key == key && last.call.allowed then 1 else 0
  {
    var hist, before := HistoryOf(log, key), HistoryOf(log[..|log| - 1], key);
    if log[|log| - 1].key == key { assert hist[..|hist| - 1] == before; }
  }

  lemma {:induction false} HistoryFromLog(log: seq<Event>, key: string, k: nat) returns (n: nat)
    requires k < |HistoryOf(log, key)|
    ensures n < |log| && log[n] == Event(key, HistoryOf(log, key)[k])
  {
    n := |log| - 1;
    if log[n].key != key || k < |HistoryOf(log[..n], key)| { n := HistoryFromLog(log[..n], key, k); }
  }

  /** The clock does not step back between two calls of this key. */
  ghost predicate InTimeOrder(log: seq<Event>, key: string) {
    forall m, n :: 0 <= m <= n < |log| && log[m].key == key == log[n].key ==> log[m].call.now <= log[n].call.now
  }

  lemma {:induction false} HistoryInTimeOrder(log: seq<Event>, key: string)
    requires InTimeOrder(log, key)
    ensures NonDecreasing(HistoryOf(log, key))
  {
    if log != [] {
      var last := |log| - 1;
      HistoryInTimeOrder(log[..last], key);
      var before := HistoryOf(log[..last], key);
      if log[last].key == key {
        forall k: nat | k < |before| ensures before[k].now <= log[last].call.now {
          var n := HistoryFromLog(log[..last], key, k);
          assert log[n] == log[..last][n];
        }
      }
    }
  }

  /** The limiter's bound carries over to the upstream, by acquire time: between any two calls of one user,
      at most capacity plus refill of that user's calls are forwarded, for each bucket. */
  lemma DispatchesFitTheBuckets(specs: seq<BucketSpec>, log: seq<Event>, dispatched: seq<bool>, key: string,
                                spec: BucketSpec, i: nat, j: nat)
    requires WellFormed(specs) && IsRun(specs, log) && OnlyAllowedDispatched(log, dispatched)
    requires spec in specs && InTimeOrder(log, key) && i <= j < |log| && log[i].key == key == log[j].key
    ensures |set n: nat | i <= n <= j && log[n].key == key && dispatched[n]| as real
            <= spec.capacity + (log[j].call.now - log[i].call.now) * spec.refillRate
  {
    hide IsKeyRun, IsRun, NonDecreasing, AllowedFrom, HistoryOf, InTimeOrder, OnlyAllowedDispatched;
    var k, hist := |HistoryOf(log[..i], key)|, HistoryOf(log[..j + 1], key);
    DispatchedInWindow(log, dispatched, key, i, j);
    KeyRunUpTo(specs, log, key, j + 1);
    assert hist[..|hist|] == hist;
    EveryWindowConforms(specs, hist, spec, k, |hist| - 1);
  }

  lemma KeyRunUpTo(specs: seq<BucketSpec>, log: seq<Event>, key: string, n: nat)
    requires IsRun(specs, log) && InTimeOrder(log, key) && n <= |log|
    ensures IsKeyRun(specs, HistoryOf(log[..n], key)) && NonDecreasing(HistoryOf(log[..n], key))
  {
    HistoryInTimeOrder(log[..n], key);
    hide IsKeyRun, HistoryOf, NonDecreasing, IsRun;
    RunPrefix(specs, log, n);
    KeyRunInRun(specs, log[..n], key);
  }

  lemma DispatchedInWindow(log: seq<Event>, dispatched: seq<bool>, key: string, i: nat, j: nat)
    requires OnlyAllowedDispatched(log, dispatched)
    requires i <= j < |log| && log[i].key == key == log[j].key
    ensures var k, hist := |HistoryOf(log[..i], key)|, HistoryOf(log[..j + 1], key);
            && k < |hist| && hist[k] == log[i].call && hist[|hist| - 1] == log[j].call
            && |set n: nat | i <= n <= j && log[n].key == key && dispatched[n]| <= AllowedFrom(hist, k)
  {
    var upTo, reached := log[..j + 1], dispatched[..j + 1];
    assert DispatchedFrom(upTo, reached, key, i)
           == (set n: nat | i <= n <= j && log[n].key == key && dispatched[n]);
    hide HistoryOf, AllowedFrom, DispatchedFrom;
    DispatchedWereAllowed(upTo, reached, key, i);
    assert upTo[..i] == log[..i];
    CallAt(upTo, key, i);
    LastCall(upTo, key);
  }

  lemma CallAt(log: seq<Event>, key: string, i: nat)
    requires i < |log| && log[i].key == key
    ensures var k, hist := |HistoryOf(log[..i], key)|, HistoryOf(log, key);
            k < |hist| && hist[k] == log[i].call
  {
    HistoryPrefix(log, key, i + 1);
    assert log[..i + 1][..i] == log[..i];
  }

  lemma LastCall(log: seq<Event>, key: string)
    requires log != [] && log[|log| - 1].key == key
    ensures var hist := HistoryOf(log, key);
            hist != [] && hist[|hist| - 1] == log[|log| - 1].call
  {
  }

  ghost predicate TicketFits(entry: Entry, log: seq<Event>) {
    match entry.ticket
    case None => entry.acquired.None?
    case Some(k) =>
      k < |log| && entry.user == Some(log[k].key) && entry.acquired == Some(log[k].call.allowed)
  }

  ghost predicate LedUpstream(ledger: seq<Entry>, k: nat) {
    exists entry <- ledger :: entry.ticket == Some(k) && entry.dispatched
  }

  /** Every acquired call has a ticket of its own, and `dispatched` marks those whose call led upstream. */
  ghost predicate LedgerFits(ledger: seq<Entry>, dispatched: seq<bool>, log: seq<Event>) {
    && |dispatched| == |log|
    && (forall entry <- ledger :: TicketFits(entry, log) && (entry.dispatched ==> entry.acquired == Some(true)))
    && (forall i, j :: 0 <= i < j < |ledger| ==> ledger[i].ticket.None? || ledger[i].ticket != ledger[j].ticket)
    && (forall k: nat :: k < |dispatched| ==> (dispatched[k] <==> LedUpstream(ledger, k)))
  }

  lemma OnlyAllowedWentUpstream(ledger: seq<Entry>, dispatched: seq<bool>, log: seq<Event>)
    requires LedgerFits(ledger, dispatched, log)
    ensures OnlyAllowedDispatched(log, dispatched)
  {
    forall k: nat | k < |dispatched| && dispatched[k] ensures log[k].call.allowed {
      assert LedUpstream(ledger, k);
    }
  }

  lemma LedgerAfterArrival(ledger: seq<Entry>, dispatched: seq<bool>, log: seq<Event>, entry: Entry)
    requires LedgerFits(ledger, dispatched, log) && entry.acquired.None? && entry.ticket.None? && !entry.dispatched
    ensures LedgerFits(ledger + [entry], dispatched, log)
  {
    assert forall e :: e in ledger + [entry] <==> e in ledger || e == entry;
    assert forall k: nat :: LedUpstream(ledger + [entry], k) <==> LedUpstream(ledger, k);
  }

  lemma LedgerAfterAcquire(ledger: seq<Entry>, dispatched: seq<bool>, log: seq<Event>, i: nat, event: Event)
    requires LedgerFits(ledger, dispatched, log)
    requires i < |ledger| && ledger[i].acquired.None? && ledger[i].user == Some(event.key)
    ensures var entry := ledger[i].(acquired := Some(event.call.allowed), ticket := Some(|log|));
            LedgerFits(ledger[i := entry], dispatched + [false], log + [event])
  {
    var entry := ledger[i].(acquired := Some(event.call.allowed), ticket := Some(|log|));
    var after := ledger[i := entry];
    assert ledger[i] in ledger;
    forall j: nat | j < |ledger| && j != i
      ensures TicketFits(after[j], log + [event]) && after[j].ticket != Some(|log|)
    {
      assert after[j] == ledger[j] && ledger[j] in ledger;
    }
    forall k: nat ensures LedUpstream(after, k) <==> LedUpstream(ledger, k) {
      OthersLedUpstream(ledger, i, entry, k);
    }
  }

  lemma OthersLedUpstream(ledger: seq<Entry>, i: nat, entry: Entry, k: nat)
    requires i < |ledger|
    ensures LedUpstream(ledger[i := entry], k)
            <==> || (entry.ticket == Some(k) && entry.dispatched)
                 || exists j :: 0 <= j < |ledger| && j != i && ledger[j].ticket == Some(k) && ledger[j].dispatched
    ensures LedUpstream(ledger, k)
            <==> || (ledger[i].ticket == Some(k) && ledger[i].dispatched)
                 || exists j :: 0 <= j < |ledger| && j != i && ledger[j].ticket == Some(k) && ledger[j].dispatched
  {
    var after := ledger[i := entry];
    assert after[i] == entry && forall j :: 0 <= j < |ledger| && j != i ==> after[j] == ledger[j];
    assert forall j :: 0 <= j < |ledger| ==> after[j] in after && ledger[j] in ledger;
  }

  lemma LedgerAfterDispatch(ledger: seq<Entry>, dispatched: seq<bool>, log: seq<Event>, i: nat)
    requires LedgerFits(ledger, dispatched, log)
    requires i < |ledger| && ledger[i].acquired == Some(true)
    ensures ledger[i].ticket.Some? && ledger[i].ticket.value < |dispatched|
    ensures LedgerFits(ledger[i := ledger[i].(dispatched := true)], dispatched[ledger[i].ticket.value := true], log)
  {
    assert ledger[i] in ledger;
    var entry := ledger[i].(dispatched := true);
    var after := ledger[i := entry];
    forall j: nat | j < |ledger| && j != i ensures after[j] in ledger {
      assert after[j] == ledger[j];
    }
    forall k: nat ensures LedUpstream(after, k) <==> k == entry.ticket.value || LedUpstream(ledger, k) {
      OthersLedUpstream(ledger, i, entry, k);
    }
  }

  /** A server whose calls interleave at their awaits. */
  class ToolServer {
    const limiter: InMemoryRateLimiter
    var calls: seq<ToolCall>
    ghost var ledger: seq<Entry>
    ghost var dispatched: seq<bool>

    ghost predicate Valid()
      reads this, limiter, calls
    {
      && limiter.Valid()
      && LedgerFits(ledger, dispatched, limiter.log)
      && |ledger| == |calls|
      && (forall i, j :: 0 <= i < j < |calls| ==> calls[i] != calls[j])
      && (forall i :: 0 <= i < |calls| ==> calls[i].Valid() && ledger[i] == calls[i].EntryWith(ledger[i].ticket))
    }

    constructor (specs: seq<BucketSpec>)
      requires WellFormed(specs)
      ensures Valid() && fresh(limiter) && limiter.specs == specs && calls == []
    {
      limiter := new InMemoryRateLimiter(specs);
      calls, ledger, dispatched := [], [], [];
    }

    /** A call arrives and runs up to its await on the limiter. */
    method Arrive(script: Script)
      requires Valid()
      modifies this`calls, this`ledger
      ensures Valid() && OnlyAllowedDispatched(limiter.log, dispatched)
      ensures |calls| == |old(calls)| + 1 && old(calls) <= calls && calls[|calls| - 1].script == script
    {
      hide LedgerFits, OnlyAllowedDispatched, IsRun, HistoryOf, StatesMatch, WellFormed, LinesOf, EndingOf;
      var call := new ToolCall(script);
      call.Start();
      ghost var entry := call.EntryWith(None);
      LedgerAfterArrival(ledger, dispatched, limiter.log, entry);
      calls, ledger := calls + [call], ledger + [entry];
      OnlyAllowedWentUpstream(ledger, dispatched, limiter.log);
    }

    /** The limiter decides on call i. */
    method Decide(i: nat, now: real)
      requires Valid() && i < |calls| && calls[i].phase.AwaitsAcquire?
      modifies this`ledger, this`dispatched, limiter, calls[i]
      ensures Valid() && OnlyAllowedDispatched(limiter.log, dispatched)
      ensures limiter.log == old(limiter.log) || exists event :: limiter.log == old(limiter.log) + [event]
      ensures dispatched == old(dispatched) || dispatched == old(dispatched) + [false]
    {
      hide LedgerFits, OnlyAllowedDispatched, IsRun, HistoryOf, StatesMatch, WellFormed, LinesOf, EndingOf;
      ghost var before := limiter.log;
      calls[i].Decide(limiter, now);
      if calls[i].acquired.Some? {
        ghost var event := limiter.log[|before|];
        LedgerAfterAcquire(ledger, dispatched, before, i, event);
        ledger := ledger[i := ledger[i].(acquired := Some(event.call.allowed), ticket := Some(|before|))];
        dispatched := dispatched + [false];
      }
      OnlyAllowedWentUpstream(ledger, dispatched, limiter.log);
    }

    /** Call i goes on to its await on the upstream. */
    method Proceed(i: nat)
      requires Valid() && i < |calls| && calls[i].phase.Decided?
      modifies this`ledger, this`dispatched, calls[i]
      ensures Valid() && OnlyAllowedDispatched(limiter.log, dispatched)
    {
      hide LedgerFits, OnlyAllowedDispatched, IsRun, HistoryOf, StatesMatch, WellFormed, LinesOf, EndingOf;
      calls[i].Proceed();
      if calls[i].dispatched {
        LedgerAfterDispatch(ledger, dispatched, limiter.log, i);
        dispatched := dispatched[ledger[i].ticket.value := true];
        ledger := ledger[i := ledger[i].(dispatched := true)];
      }
      OnlyAllowedWentUpstream(ledger, dispatched, limiter.log);
    }

    /** Call i ends. */
    method Finish(i: nat)
      requires Valid() && i < |calls| && calls[i].phase.AwaitsDispatch?
      modifies calls[i]
      ensures Valid() && calls[i].phase.Over? && OnlyAllowedDispatched(limiter.log, dispatched)
    {
      hide LedgerFits, OnlyAllowedDispatched, IsRun, HistoryOf, StatesMatch, WellFormed, LinesOf, EndingOf;
      calls[i].Finish();
      OnlyAllowedWentUpstream(ledger, dispatched, limiter.log);
    }
  }
}
