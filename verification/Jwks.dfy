/** The signing-key client: a cache of a published JWK Set (section 5 of RFC 7517) with a time to live,
    a refresh on an unknown key id, a throttle on refresh attempts, and a lock around each refresh.
    Coroutines interleave at their two await points, the lock and the fetch; each stretch in between
    is one step. */
module Jwks {
  import opened Wrappers

  datatype Jwk = Jwk(kid: Option<string>, material: string)

  /** How a fetch ends: a document with a list of keys, a document without one, an HTTP or decoding
      error, or an exception of another kind. */
  datatype Outcome = Document(keys: seq<Jwk>) | Malformed | Failed | Crashed

  /** What a `get_key` or `refresh` call ends with. */
  datatype Answer = Key(jwk: Jwk) | Refreshed | UnknownKid | JWKSUnavailable | OtherError

  type TaskId = nat

  /** Where a call is suspended; `begun` is when it entered `get_key`. */
  datatype Pc =
    | Waiting(kid: string, begun: real)
    | Fetching(kid: string, begun: real)
    | ForcedWaiting
    | ForcedFetching

  /** One fetch, and how and when it ended. */
  datatype Attempt = Attempt(start: real, forced: bool, ended: Option<Ended>)
  datatype Ended = Ended(outcome: Outcome, at: real)

  datatype Config = Config(ttl: real, minRefreshInterval: real)

  /** The client's fields and lock, the suspended calls, and the history of attempts. */
  datatype State = State(
    cache: map<string, Jwk>,
    fetchedAt: Option<real>,
    lastAttemptAt: Option<real>,
    holder: Option<TaskId>,
    tasks: map<TaskId, Pc>,
    attempts: seq<Attempt>,
    clock: real)

  /** One uninterrupted stretch of one call, with the clock readings it takes. */
  datatype Step =
    | BeginGetKey(id: TaskId, kid: string, now: real)
    | BeginRefresh(id: TaskId, now: real)
    | LockGetKey(id: TaskId, now: real, throttleNow: real, stamp: real)
    | LockRefresh(id: TaskId, stamp: real)
    | FetchDone(id: TaskId, outcome: Outcome, now: real)

  /** The keys of a document by id; a later key replaces an earlier one with the same id. */
  function KidMap(keys: seq<Jwk>): map<string, Jwk> {
    if keys == [] then map[] else
      var last := keys[|keys| - 1];
      var m := KidMap(keys[..|keys| - 1]);
      if last.kid.Some? then m[last.kid.value := last] else m
  }

  predicate LastWith(keys: seq<Jwk>, kid: string, i: nat) {
    i < |keys| && keys[i].kid == Some(kid) && forall j :: i < j < |keys| ==> keys[j].kid != Some(kid)
  }

  /** The map holds exactly the ids of the document's keys, each with the last key of that id. */
  lemma {:induction false} LastKeyWins(keys: seq<Jwk>, kid: string)
    ensures kid !in KidMap(keys) ==> forall k <- keys :: k.kid != Some(kid)
    ensures kid in KidMap(keys) ==> exists i: nat :: LastWith(keys, kid, i) && KidMap(keys)[kid] == keys[i]
  {
    if keys != [] {
      var n := |keys| - 1;
      LastKeyWins(keys[..n], kid);
      if keys[n].kid == Some(kid) {
        assert LastWith(keys, kid, n);
      } else if kid in KidMap(keys) {
        var i: nat :| LastWith(keys[..n], kid, i) && KidMap(keys[..n])[kid] == keys[..n][i];
        assert LastWith(keys, kid, i);
      }
    }
  }

  predicate IsFresh(cfg: Config, s: State, now: real) {
    s.fetchedAt.Some? && now - s.fetchedAt.value < cfg.ttl
  }

  predicate CanRefresh(cfg: Config, s: State, now: real) {
    s.lastAttemptAt.None? || now - s.lastAttemptAt.value >= cfg.minRefreshInterval
  }

  function Init(now: real): State { State(map[], None, None, None, map[], [], now) }

  ghost predicate Enabled(s: State, step: Step) {
    match step
    case BeginGetKey(id, _, now) => id !in s.tasks && s.clock <= now
    case BeginRefresh(id, now) => id !in s.tasks && s.clock <= now
    case LockGetKey(id, now, throttleNow, stamp) =>
      s.holder.None? && id in s.tasks && s.tasks[id].Waiting? && s.clock <= now <= throttleNow <= stamp
    case LockRefresh(id, stamp) => s.holder.None? && id in s.tasks && s.tasks[id].ForcedWaiting? && s.clock <= stamp
    case FetchDone(id, _, now) => s.holder == Some(id) && id in s.tasks && s.clock <= now
  }

  function Lookup(cache: map<string, Jwk>, kid: string): Answer {
    if kid in cache then Key(cache[kid]) else UnknownKid
  }

  /** The step's effect, and the answer if it ends its call. */
  ghost function Next(cfg: Config, s: State, step: Step): (State, Option<Answer>)
    requires Enabled(s, step)
  {
    match step
    case BeginGetKey(id, kid, now) =>
      var s := s.(clock := now);
      if IsFresh(cfg, s, now) && kid in s.cache then (s, Some(Key(s.cache[kid])))
      else (s.(tasks := s.tasks[id := Waiting(kid, now)]), None)
    case BeginRefresh(id, now) =>
      (s.(clock := now, tasks := s.tasks[id := ForcedWaiting]), None)
    case LockGetKey(id, now, throttleNow, stamp) =>
      var kid, begun := s.tasks[id].kid, s.tasks[id].begun;
      var done := s.(clock := stamp, tasks := s.tasks - {id});
      if IsFresh(cfg, s, now) && kid in s.cache then (done, Some(Key(s.cache[kid])))
      else if CanRefresh(cfg, s, throttleNow) then (StartFetch(s, id, Fetching(kid, begun), false, stamp), None)
      else if s.fetchedAt.None? then (done, Some(JWKSUnavailable))
      else (done, Some(Lookup(s.cache, kid)))
    case LockRefresh(id, stamp) =>
      (StartFetch(s, id, ForcedFetching, true, stamp), None)
    case FetchDone(id, outcome, now) =>
      var pc := s.tasks[id];
      var n := |s.attempts|;
      var ended := s.(clock := now, holder := None, tasks := s.tasks - {id},
                      attempts := if n == 0 then []
                                  else s.attempts[n - 1 := s.attempts[n - 1].(ended := Some(Ended(outcome, now)))]);
      match outcome
      case Document(keys) =>
        var filled := ended.(cache := KidMap(keys), fetchedAt := Some(now));
        (filled, Some(if pc.Fetching? then Lookup(filled.cache, pc.kid) else Refreshed))
      case Malformed => (ended, Some(JWKSUnavailable))
      case Failed => (ended, Some(JWKSUnavailable))
      case Crashed => (ended, Some(OtherError))
  }

  function StartFetch(s: State, id: TaskId, pc: Pc, forced: bool, stamp: real): State {
    s.(clock := stamp, lastAttemptAt := Some(stamp), holder := Some(id), tasks := s.tasks[id := pc],
       attempts := s.attempts + [Attempt(stamp, forced, None)])
  }

  // --- runs ---

  ghost predicate IsRun(cfg: Config, start: real, steps: seq<Step>)
    decreases |steps|, 0
  {
    steps != [] ==>
      var init := steps[..|steps| - 1];
      IsRun(cfg, start, init) && Enabled(After(cfg, start, init), steps[|steps| - 1])
  }

  /** The state any interleaving `steps` of calls leads to. */
  ghost function After(cfg: Config, start: real, steps: seq<Step>): State
    requires IsRun(cfg, start, steps)
    decreases |steps|, 1
  {
    if steps == [] then Init(start)
    else Next(cfg, After(cfg, start, steps[..|steps| - 1]), steps[|steps| - 1]).0
  }

  datatype Fetched = Fetched(keys: seq<Jwk>, at: real)

  /** The newest document fetched successfully, with the time its fetch ended. */
  ghost function Newest(attempts: seq<Attempt>): Option<Fetched> {
    if attempts == [] then None else
      var last := attempts[|attempts| - 1];
      if HasDocument(last) then Some(Fetched(last.ended.value.outcome.keys, last.ended.value.at))
      else Newest(attempts[..|attempts| - 1])
  }

  predicate HasDocument(attempt: Attempt) { attempt.ended.Some? && attempt.ended.value.outcome.Document? }

  /** Attempt i brought a document and no later one did. */
  ghost predicate IsNewest(attempts: seq<Attempt>, i: nat) {
    i < |attempts| && HasDocument(attempts[i]) && forall j :: i < j < |attempts| ==> !HasDocument(attempts[j])
  }

  function KeysOf(attempts: seq<Attempt>, i: nat): seq<Jwk>
    requires i < |attempts| && HasDocument(attempts[i])
  {
    attempts[i].ended.value.outcome.keys
  }

  lemma {:induction false} NewestAt(attempts: seq<Attempt>) returns (i: nat)
    ensures Newest(attempts).None? ==> forall attempt <- attempts :: !HasDocument(attempt)
    ensures Newest(attempts).Some? ==>
              && IsNewest(attempts, i)
              && Newest(attempts).value == Fetched(KeysOf(attempts, i), attempts[i].ended.value.at)
  {
    i := 0;
    if attempts != [] {
      var n := |attempts| - 1;
      if HasDocument(attempts[n]) {
        i := n;
      } else {
        i := NewestAt(attempts[..n]);
        assert forall attempt :: attempt in attempts <==> attempt in attempts[..n] || attempt == attempts[n];
      }
    }
  }

  ghost predicate IsFetching(pc: Pc) { pc.Fetching? || pc.ForcedFetching? }

  ghost predicate LockInv(s: State) {
    && (forall id <- s.tasks.Keys :: IsFetching(s.tasks[id]) <==> s.holder == Some(id))
    && (s.holder.Some? ==> s.holder.value in s.tasks && s.attempts != [])
    && (forall i :: 0 <= i < |s.attempts| ==>
          (s.attempts[i].ended.None? <==> s.holder.Some? && i == |s.attempts| - 1))
  }

  ghost predicate CacheInv(s: State) {
    match Newest(s.attempts)
    case None => s.fetchedAt.None? && s.cache == map[]
    case Some(fetched) => s.fetchedAt == Some(fetched.at) && s.cache == KidMap(fetched.keys)
  }

  /** Attempts in the order of their starts; one driven by `get_key` keeps its distance. */
  ghost predicate Spaced(cfg: Config, attempts: seq<Attempt>) {
    && (forall i, j :: 0 <= i <= j < |attempts| ==> attempts[i].start <= attempts[j].start)
    && (forall i :: 0 < i < |attempts| && !attempts[i].forced ==>
          attempts[i].start - attempts[i - 1].start >= cfg.minRefreshInterval)
  }

  ghost predicate TimeInv(cfg: Config, s: State) {
    && Spaced(cfg, s.attempts)
    && s.lastAttemptAt == (if s.attempts == [] then None else Some(s.attempts[|s.attempts| - 1].start))
    && (s.attempts != [] ==> s.attempts[|s.attempts| - 1].start <= s.clock)
    && (s.fetchedAt.Some? ==> s.fetchedAt.value <= s.clock)
    && (forall id <- s.tasks.Keys :: BegunInTime(s, s.tasks[id]))
  }

  ghost predicate BegunInTime(s: State, pc: Pc) {
    match pc
    case Waiting(_, begun) => begun <= s.clock
    case Fetching(_, begun) => s.attempts != [] ==> begun <= s.attempts[|s.attempts| - 1].start
    case _ => true
  }

  ghost predicate Inv(cfg: Config, s: State) { LockInv(s) && CacheInv(s) && TimeInv(cfg, s) }

  lemma NewestOfEnded(attempts: seq<Attempt>, ended: Ended)
    requires attempts != [] && attempts[|attempts| - 1].ended.None?
    ensures var after := attempts[|attempts| - 1 := attempts[|attempts| - 1].(ended := Some(ended))];
            Newest(after)
            == if ended.outcome.Document? then Some(Fetched(ended.outcome.keys, ended.at)) else Newest(attempts)
  {
    var after := attempts[|attempts| - 1 := attempts[|attempts| - 1].(ended := Some(ended))];
    assert after[..|attempts| - 1] == attempts[..|attempts| - 1];
  }

  lemma NewestOfStarted(attempts: seq<Attempt>, attempt: Attempt)
    requires attempt.ended.None?
    ensures Newest(attempts + [attempt]) == Newest(attempts)
  {
    assert (attempts + [attempt])[..|attempts|] == attempts;
  }

  lemma LockInvHolds(cfg: Config, s: State, step: Step)
    requires LockInv(s) && Enabled(s, step)
    ensures LockInv(Next(cfg, s, step).0)
  {
    hide KidMap, IsFresh, CanRefresh;
  }

  lemma CacheInvHolds(cfg: Config, s: State, step: Step)
    requires LockInv(s) && CacheInv(s) && Enabled(s, step)
    ensures CacheInv(Next(cfg, s, step).0)
  {
    hide KidMap, IsFresh, CanRefresh, Newest;
    if step.FetchDone? {
      NewestOfEnded(s.attempts, Ended(step.outcome, step.now));
    } else {
      var after := Next(cfg, s, step).0;
      if after.attempts != s.attempts {
        NewestOfStarted(s.attempts, after.attempts[|s.attempts|]);
      }
    }
  }

  lemma SpacedAfterStart(cfg: Config, attempts: seq<Attempt>, attempt: Attempt)
    requires Spaced(cfg, attempts)
    requires attempts != [] ==> attempts[|attempts| - 1].start <= attempt.start
    requires attempts != [] && !attempt.forced ==>
               attempt.start - attempts[|attempts| - 1].start >= cfg.minRefreshInterval
    ensures Spaced(cfg, attempts + [attempt])
  {
  }

  lemma SpacedAfterEnd(cfg: Config, attempts: seq<Attempt>, ended: Ended)
    requires Spaced(cfg, attempts) && attempts != []
    ensures Spaced(cfg, attempts[|attempts| - 1 := attempts[|attempts| - 1].(ended := Some(ended))])
  {
  }

  lemma SpacedHolds(cfg: Config, s: State, step: Step)
    requires LockInv(s) && TimeInv(cfg, s) && Enabled(s, step)
    ensures Spaced(cfg, Next(cfg, s, step).0.attempts)
  {
    hide KidMap, Newest, LockInv, Spaced, BegunInTime, IsFresh;
    var after := Next(cfg, s, step).0;
    match step
    case BeginGetKey(_, _, _) =>
    case BeginRefresh(_, _) =>
    case LockGetKey(_, _, _, stamp) =>
      if after.attempts != s.attempts { SpacedAfterStart(cfg, s.attempts, Attempt(stamp, false, None)); }
    case LockRefresh(_, stamp) => SpacedAfterStart(cfg, s.attempts, Attempt(stamp, true, None));
    case FetchDone(_, outcome, now) =>
      if s.attempts != [] { SpacedAfterEnd(cfg, s.attempts, Ended(outcome, now)); }
  }

  lemma TasksStayInTime(cfg: Config, s: State, step: Step)
    requires LockInv(s) && TimeInv(cfg, s) && Enabled(s, step)
    ensures var after := Next(cfg, s, step).0; forall id <- after.tasks.Keys :: BegunInTime(after, after.tasks[id])
  {
    hide KidMap, Newest, Spaced, IsFresh, CanRefresh;
    var after := Next(cfg, s, step).0;
    forall id <- after.tasks.Keys ensures BegunInTime(after, after.tasks[id]) {
      if id in s.tasks { assert BegunInTime(s, s.tasks[id]); }
    }
  }

  lemma TimeInvHolds(cfg: Config, s: State, step: Step)
    requires LockInv(s) && TimeInv(cfg, s) && Enabled(s, step)
    ensures TimeInv(cfg, Next(cfg, s, step).0)
  {
    SpacedHolds(cfg, s, step);
    TasksStayInTime(cfg, s, step);
    hide KidMap, Newest, Spaced, BegunInTime, LockInv, IsFresh, CanRefresh;
  }

  /** The invariant holds in every state of every interleaving. */
  lemma {:induction false} InvAlways(cfg: Config, start: real, steps: seq<Step>)
    requires IsRun(cfg, start, steps)
    ensures Inv(cfg, After(cfg, start, steps))
  {
    if steps != [] {
      hide Next, LockInv, CacheInv, TimeInv;
      var init, step := steps[..|steps| - 1], steps[|steps| - 1];
      InvAlways(cfg, start, init);
      LockInvHolds(cfg, After(cfg, start, init), step);
      CacheInvHolds(cfg, After(cfg, start, init), step);
      TimeInvHolds(cfg, After(cfg, start, init), step);
    }
  }

  /** The cache mirrors the newest document fetched, never a mix of two, and its age counts from the end of
      that fetch; and no attempt is in flight that the lock does not know of. */
  lemma CacheMirrorsNewestDocument(cfg: Config, start: real, steps: seq<Step>)
    requires IsRun(cfg, start, steps)
    ensures var s := After(cfg, start, steps);
            if exists i: nat :: IsNewest(s.attempts, i) then
              exists i: nat :: IsNewest(s.attempts, i)
                          && s.cache == KidMap(KeysOf(s.attempts, i))
                          && s.fetchedAt == Some(s.attempts[i].ended.value.at)
            else s.cache == map[] && s.fetchedAt.None?
    ensures var s := After(cfg, start, steps);
            s.holder.None? <==> forall attempt <- s.attempts :: attempt.ended.Some?
  {
    hide KidMap, Newest, After, IsRun;
    InvAlways(cfg, start, steps);
    var s := After(cfg, start, steps);
    assert s.attempts != [] ==> s.attempts[|s.attempts| - 1] in s.attempts;
    var i := NewestAt(s.attempts);
  }

  // --- what the callers see ---

  ghost function KidOf(s: State, step: Step): string
    requires Enabled(s, step)
  {
    match step
    case BeginGetKey(_, kid, _) => kid
    case LockGetKey(id, _, _, _) => s.tasks[id].kid
    case FetchDone(id, _, _) => if s.tasks[id].Fetching? then s.tasks[id].kid else ""
    case _ => ""
  }

  /** When the `get_key` call that a step belongs to began. */
  ghost function BegunOf(s: State, step: Step): real
    requires Enabled(s, step)
  {
    match step
    case BeginGetKey(_, _, now) => now
    case LockGetKey(id, _, _, _) => s.tasks[id].begun
    case FetchDone(id, _, _) => if s.tasks[id].Fetching? then s.tasks[id].begun else 0.0
    case _ => 0.0
  }

  ghost predicate OfGetKey(s: State, step: Step)
    requires Enabled(s, step)
  {
    match step
    case BeginGetKey(_, _, _) => true
    case LockGetKey(_, _, _, _) => true
    case FetchDone(id, _, _) => s.tasks[id].Fetching?
    case _ => false
  }

  /** The first clock reading of a step: the one freshness is judged by. */
  function FirstReading(step: Step): real {
    match step
    case BeginGetKey(_, _, now) => now
    case BeginRefresh(_, now) => now
    case LockGetKey(_, now, _, _) => now
    case LockRefresh(_, stamp) => stamp
    case FetchDone(_, _, now) => now
  }

  /** The newest document, fetched less than a time to live ago, holds the key. */
  ghost predicate FreshHit(cfg: Config, attempts: seq<Attempt>, kid: string, now: real) {
    exists i: nat :: && IsNewest(attempts, i)
                && now - attempts[i].ended.value.at < cfg.ttl
                && exists key <- KeysOf(attempts, i) :: key.kid == Some(kid)
  }

  /** No attempt was started less than the refresh interval ago. */
  ghost predicate ThrottleIsOpen(cfg: Config, attempts: seq<Attempt>, now: real) {
    forall attempt <- attempts :: now - attempt.start >= cfg.minRefreshInterval
  }

  /** `jwk` is the last key with this id in the newest document, which attempt i brought. */
  ghost predicate IsKeyOf(attempts: seq<Attempt>, i: nat, kid: string, jwk: Jwk) {
    IsNewest(attempts, i) && exists k: nat :: LastWith(KeysOf(attempts, i), kid, k) && KeysOf(attempts, i)[k] == jwk
  }

  lemma CacheHolds(s: State, kid: string) returns (i: nat)
    requires CacheInv(s)
    ensures s.fetchedAt.None? <==> forall attempt <- s.attempts :: !HasDocument(attempt)
    ensures s.fetchedAt.Some? ==> IsNewest(s.attempts, i) && s.fetchedAt.value == s.attempts[i].ended.value.at
    ensures kid in s.cache ==> s.fetchedAt.Some? && IsKeyOf(s.attempts, i, kid, s.cache[kid])
    ensures kid !in s.cache && s.fetchedAt.Some? ==> forall key <- KeysOf(s.attempts, i) :: key.kid != Some(kid)
  {
    hide KidMap, Newest;
    i := NewestAt(s.attempts);
    if s.fetchedAt.Some? {
      assert s.attempts[i] in s.attempts;
      LastKeyWins(KeysOf(s.attempts, i), kid);
    }
  }

  lemma OneNewest(attempts: seq<Attempt>, i: nat, j: nat)
    requires IsNewest(attempts, i) && IsNewest(attempts, j)
    ensures i == j
  {
  }

  /** The fast path's test, and the throttle's, in terms of the history. */
  lemma FreshMeans(cfg: Config, s: State, kid: string, now: real)
    requires CacheInv(s)
    ensures IsFresh(cfg, s, now) && kid in s.cache <==> FreshHit(cfg, s.attempts, kid, now)
  {
    hide KidMap, Newest;
    var i := CacheHolds(s, kid);
    hide CacheInv;
    if IsFresh(cfg, s, now) && kid in s.cache {
      var k: nat :| LastWith(KeysOf(s.attempts, i), kid, k) && KeysOf(s.attempts, i)[k] == s.cache[kid];
      assert KeysOf(s.attempts, i)[k] in KeysOf(s.attempts, i);
    }
    if FreshHit(cfg, s.attempts, kid, now) {
      var j: nat :| && IsNewest(s.attempts, j)
               && now - s.attempts[j].ended.value.at < cfg.ttl
               && exists key <- KeysOf(s.attempts, j) :: key.kid == Some(kid);
      assert s.attempts[j] in s.attempts;
      OneNewest(s.attempts, i, j);
    }
  }

  lemma ThrottleMeans(cfg: Config, s: State, now: real)
    requires TimeInv(cfg, s)
    ensures CanRefresh(cfg, s, now) <==> ThrottleIsOpen(cfg, s.attempts, now)
  {
    if s.attempts != [] {
      var last := |s.attempts| - 1;
      assert s.attempts[last] in s.attempts;
      assert forall i :: 0 <= i < |s.attempts| ==> s.attempts[i].start <= s.attempts[last].start;
    }
  }

  /** In every reachable state: a call answers at once, and starts no fetch, exactly if the newest document is
      less than a time to live old and holds its key; with the lock it starts a fetch exactly if that is not
      so and no attempt was started less than the refresh interval ago. */
  lemma FetchStartsExactlyIf(cfg: Config, start: real, steps: seq<Step>, step: Step)
    requires IsRun(cfg, start, steps) && Enabled(After(cfg, start, steps), step)
    requires step.BeginGetKey? || step.LockGetKey?
    ensures var s := After(cfg, start, steps);
            var (after, answer) := Next(cfg, s, step);
            var hit := FreshHit(cfg, s.attempts, KidOf(s, step), FirstReading(step));
            && (step.BeginGetKey? ==> (answer.Some? <==> hit) && after.attempts == s.attempts)
            && (step.LockGetKey? ==>
                  var fetches := !hit && ThrottleIsOpen(cfg, s.attempts, step.throttleNow);
                  && (answer.None? <==> fetches)
                  && after.attempts == s.attempts + if fetches then [Attempt(step.stamp, false, None)] else [])
  {
    InvAlways(cfg, start, steps);
    var s := After(cfg, start, steps);
    FreshMeans(cfg, s, KidOf(s, step), FirstReading(step));
    if step.LockGetKey? { ThrottleMeans(cfg, s, step.throttleNow); }
    hide KidMap, Newest, TimeInv, CacheInv, LockInv, After, IsRun, IsFresh, CanRefresh, FreshHit, ThrottleIsOpen;
    assert s.attempts + [] == s.attempts;
  }

  /** In every reachable state, what an answer means. A key comes from the newest document and from no
      mix; if that document is a TTL old or older, an attempt was made less than the refresh interval
      before. UnknownKid means a document was fetched and the newest one lacks the id. JWKSUnavailable
      means this call's own fetch failed, or no fetch ever succeeded. A call whose own fetch brought no
      document gets the error for that. */
  lemma AnswersAreJustified(cfg: Config, start: real, steps: seq<Step>, step: Step)
    requires 0.0 < cfg.ttl && IsRun(cfg, start, steps) && Enabled(After(cfg, start, steps), step)
    ensures var s := After(cfg, start, steps);
            var (after, answer) := Next(cfg, s, step);
            answer.Some? ==>
              match answer.value
              case Key(jwk) =>
                && OfGetKey(s, step)
                && exists i: nat ::
                     && IsKeyOf(after.attempts, i, KidOf(s, step), jwk)
                     && (|| FirstReading(step) - after.attempts[i].ended.value.at < cfg.ttl
                         || (step.LockGetKey?
                             && step.throttleNow - after.attempts[|after.attempts| - 1].start < cfg.minRefreshInterval))
              case Refreshed => step.FetchDone? && step.outcome.Document? && !OfGetKey(s, step)
              case UnknownKid =>
                && OfGetKey(s, step)
                && exists i: nat :: IsNewest(after.attempts, i)
                               && forall key <- KeysOf(after.attempts, i) :: key.kid != Some(KidOf(s, step))
              case JWKSUnavailable =>
                || (step.FetchDone? && (step.outcome.Failed? || step.outcome.Malformed?))
                || (OfGetKey(s, step) && forall attempt <- after.attempts :: !HasDocument(attempt))
              case OtherError => step.FetchDone? && step.outcome.Crashed?
    ensures var answer := Next(cfg, After(cfg, start, steps), step).1;
            step.FetchDone? ==>
              && answer.Some?
              && (step.outcome.Failed? || step.outcome.Malformed? <==> answer.value.JWKSUnavailable?)
              && (step.outcome.Crashed? <==> answer.value.OtherError?)
  {
    InvAlways(cfg, start, steps);
    var s := After(cfg, start, steps);
    LockInvHolds(cfg, s, step);
    CacheInvHolds(cfg, s, step);
    var after := Next(cfg, s, step).0;
    var i := CacheHolds(after, KidOf(s, step));
    hide KidMap, Newest, CacheInv, LockInv, After, IsRun, IsKeyOf, Spaced, BegunInTime;
    match step
    case BeginGetKey(_, _, _) =>
    case BeginRefresh(_, _) =>
    case LockGetKey(_, _, _, _) =>
    case LockRefresh(_, _) =>
    case FetchDone(_, _, _) =>
  }

  // --- fetch spacing ---

  /** At most one fetch is in flight, in every reachable state. */
  lemma OneFetchAtATime(cfg: Config, start: real, steps: seq<Step>, a: TaskId, b: TaskId)
    requires IsRun(cfg, start, steps)
    ensures var s := After(cfg, start, steps);
            a in s.tasks && b in s.tasks && IsFetching(s.tasks[a]) && IsFetching(s.tasks[b]) ==> a == b
  {
    InvAlways(cfg, start, steps);
  }

  ghost function DrivenWithin(attempts: seq<Attempt>, lo: real, hi: real): nat {
    if attempts == [] then 0 else
      var last := attempts[|attempts| - 1];
      DrivenWithin(attempts[..|attempts| - 1], lo, hi) + if !last.forced && lo <= last.start <= hi then 1 else 0
  }

  /** The time `n` refresh intervals take. */
  function Intervals(cfg: Config, n: int): real { n as real * cfg.minRefreshInterval }

  lemma OneMoreInterval(cfg: Config, n: int)
    ensures Intervals(cfg, 0) == 0.0
    ensures Intervals(cfg, n + 1) == Intervals(cfg, n) + cfg.minRefreshInterval
  {
  }

  lemma IntervalsThatFit(cfg: Config, n: int, width: real)
    requires 0.0 < cfg.minRefreshInterval && Intervals(cfg, n) <= width
    ensures n <= (width / cfg.minRefreshInterval).Floor
  {
    var ratio := width / cfg.minRefreshInterval;
    assert ratio * cfg.minRefreshInterval == width;
    MulKeepsOrder(n as real, ratio, cfg.minRefreshInterval);
  }

  lemma MulKeepsOrder(a: real, b: real, m: real)
    requires 0.0 < m
    ensures a <= b <==> a * m <= b * m
  {
    if b < a {
      assert 0.0 < (a - b) * m;
    } else {
      assert 0.0 <= (b - a) * m;
    }
  }

  /** The last `get_key`-driven attempt counted starts (count - 1) intervals after the window opens. */
  lemma {:induction false} DrivenAreApart(cfg: Config, attempts: seq<Attempt>, lo: real, hi: real) returns (j: nat)
    requires Spaced(cfg, attempts) && 0.0 < cfg.minRefreshInterval && 0 < DrivenWithin(attempts, lo, hi)
    ensures j < |attempts| && lo <= attempts[j].start <= hi
    ensures Intervals(cfg, DrivenWithin(attempts, lo, hi) - 1) <= attempts[j].start - lo
  {
    hide Intervals;
    var n := |attempts| - 1;
    var init, last := attempts[..n], attempts[n];
    var counted: int := DrivenWithin(init, lo, hi);
    j := n;
    OneMoreInterval(cfg, counted - 1);
    if counted != 0 {
      var before := DrivenAreApart(cfg, init, lo, hi);
      if !last.forced && lo <= last.start <= hi {
        assert attempts[before].start <= attempts[n - 1].start;
        assert last.start - attempts[n - 1].start >= cfg.minRefreshInterval;
      } else {
        j := before;
      }
    }
  }

  /** A window of length W holds at most floor(W / interval) + 1 fetches driven by `get_key`, for any
      interleaving, any outcomes and durations of fetches, and any number of forced refreshes. */
  lemma FetchesInAnyWindow(cfg: Config, start: real, steps: seq<Step>, lo: real, hi: real)
    requires 0.0 < cfg.minRefreshInterval && lo <= hi && IsRun(cfg, start, steps)
    ensures DrivenWithin(After(cfg, start, steps).attempts, lo, hi) <= ((hi - lo) / cfg.minRefreshInterval).Floor + 1
  {
    hide Intervals, DrivenWithin;
    InvAlways(cfg, start, steps);
    var attempts := After(cfg, start, steps).attempts;
    var counted: int := DrivenWithin(attempts, lo, hi);
    OneMoreInterval(cfg, 0);
    if counted == 0 {
      IntervalsThatFit(cfg, 0, hi - lo);
    } else {
      var j := DrivenAreApart(cfg, attempts, lo, hi);
      IntervalsThatFit(cfg, counted - 1, hi - lo);
    }
  }

  // --- picking up a rotated key ---

  ghost predicate Publishes(outcome: Outcome, kid: string) {
    outcome.Document? && kid in KidMap(outcome.keys)
  }

  /** Every fetch started from `from` on that has ended succeeded with a document holding `kid`. */
  ghost predicate PublishedFrom(attempts: seq<Attempt>, from: real, kid: string) {
    forall i :: 0 <= i < |attempts| && from <= attempts[i].start && attempts[i].ended.Some? ==>
      Publishes(attempts[i].ended.value.outcome, kid)
  }

  lemma NewestIsLast(attempts: seq<Attempt>)
    requires attempts != [] && HasDocument(attempts[|attempts| - 1])
    ensures Newest(attempts).Some? && Newest(attempts).value.keys == KeysOf(attempts, |attempts| - 1)
  {
  }

  /** Once `kid` is published, every `get_key(kid)` begun a refresh interval later returns a key,
      whatever other calls are in flight. */
  lemma RotatedKeyIsPickedUp(cfg: Config, start: real, steps: seq<Step>, step: Step, from: real)
    requires IsRun(cfg, start, steps) && Enabled(After(cfg, start, steps), step)
    requires var s := After(cfg, start, steps);
             && PublishedFrom(Next(cfg, s, step).0.attempts, from, KidOf(s, step))
             && OfGetKey(s, step)
             && from <= BegunOf(s, step)
             && from + cfg.minRefreshInterval <= BegunOf(s, step)
    ensures var answer := Next(cfg, After(cfg, start, steps), step).1;
            answer.Some? ==> answer.value.Key?
  {
    InvAlways(cfg, start, steps);
    var s := After(cfg, start, steps);
    hide KidMap, Newest, After, IsRun;
    match step
    case BeginGetKey(_, _, _) =>
    case LockGetKey(id, now, throttleNow, stamp) =>
      if !CanRefresh(cfg, s, throttleNow) {
        var n := |s.attempts| - 1;
        assert from <= s.attempts[n].start && s.attempts[n].ended.Some?;
        assert Publishes(s.attempts[n].ended.value.outcome, KidOf(s, step));
        NewestIsLast(s.attempts);
      }
    case FetchDone(id, outcome, now) =>
      var n := |s.attempts| - 1;
      var after := Next(cfg, s, step).0;
      assert after.attempts[n].start == s.attempts[n].start && after.attempts[n].ended == Some(Ended(outcome, now));
      assert Publishes(outcome, KidOf(s, step));
  }

  // --- the client itself ---

  class JWKSClient {
    const cfg: Config
    var cache: map<string, Jwk>
    var fetchedAt: Option<real>
    var lastAttemptAt: Option<real>
    var holder: Option<TaskId>
    ghost var tasks: map<TaskId, Pc>
    ghost var attempts: seq<Attempt>
    ghost var clock: real

    ghost function Abs(): State
      reads this
    {
      State(cache, fetchedAt, lastAttemptAt, holder, tasks, attempts, clock)
    }

    constructor (cfg: Config, ghost now: real)
      ensures this.cfg == cfg && Abs() == Init(now)
    {
      this.cfg := cfg;
      cache, fetchedAt, lastAttemptAt, holder := map[], None, None, None;
      tasks, attempts, clock := map[], [], now;
    }

    predicate Fresh(now: real)
      reads this
    {
      fetchedAt.Some? && now - fetchedAt.value < cfg.ttl
    }

    predicate MayRefresh(now: real)
      reads this
    {
      if lastAttemptAt.None? then true else now - lastAttemptAt.value >= cfg.minRefreshInterval
    }

    /** `get_key` up to its first await: the fast path that leaves the lock alone. */
    method BeginGetKey(id: TaskId, kid: string, now: real) returns (answer: Option<Answer>)
      requires Enabled(Abs(), Step.BeginGetKey(id, kid, now))
      modifies this
      ensures (Abs(), answer) == Next(cfg, old(Abs()), Step.BeginGetKey(id, kid, now))
    {
      clock := now;
      if Fresh(now) && kid in cache {
        return Some(Key(cache[kid]));
      }
      tasks := tasks[id := Waiting(kid, now)];
      answer := None;
    }

    /** `get_key` from the moment it has the lock, up to the await of its fetch. */
    method LockGetKey(id: TaskId, kid: string, now: real, throttleNow: real, stamp: real)
      returns (answer: Option<Answer>)
      requires Enabled(Abs(), Step.LockGetKey(id, now, throttleNow, stamp)) && tasks[id].kid == kid
      modifies this
      ensures (Abs(), answer) == Next(cfg, old(Abs()), Step.LockGetKey(id, now, throttleNow, stamp))
    {
      clock := stamp;
      if Fresh(now) && kid in cache {
        tasks := tasks - {id};
        return Some(Key(cache[kid]));
      }
      if MayRefresh(throttleNow) {
        lastAttemptAt, holder := Some(stamp), Some(id);
        attempts, tasks := attempts + [Attempt(stamp, false, None)], tasks[id := Fetching(kid, tasks[id].begun)];
        return None;
      }
      tasks := tasks - {id};
      if fetchedAt.None? {
        return Some(JWKSUnavailable);
      }
      if kid !in cache {
        return Some(UnknownKid);
      }
      return Some(Key(cache[kid]));
    }

    /** The rest of `get_key` or `refresh` once the fetch has ended; an exception releases the lock too. */
    method FetchDone(id: TaskId, kid: Option<string>, outcome: Outcome, now: real) returns (answer: Option<Answer>)
      requires Inv(cfg, Abs()) && Enabled(Abs(), Step.FetchDone(id, outcome, now))
      requires kid == if tasks[id].Fetching? then Some(tasks[id].kid) else None
      modifies this
      ensures (Abs(), answer) == Next(cfg, old(Abs()), Step.FetchDone(id, outcome, now))
    {
      ghost var n := |attempts|;
      attempts := attempts[n - 1 := attempts[n - 1].(ended := Some(Ended(outcome, now)))];
      clock, tasks, holder := now, tasks - {id}, None;
      match outcome
      case Failed => return Some(JWKSUnavailable);
      case Malformed => return Some(JWKSUnavailable);
      case Crashed => return Some(OtherError);
      case Document(keys) =>
        cache := KidMap(keys);
        fetchedAt := Some(now);
        if kid.None? {
          return Some(Refreshed);
        }
        if kid.value !in cache {
          return Some(UnknownKid);
        }
        return Some(Key(cache[kid.value]));
    }

    method BeginRefresh(id: TaskId, now: real)
      requires Enabled(Abs(), Step.BeginRefresh(id, now))
      modifies this
      ensures Abs() == Next(cfg, old(Abs()), Step.BeginRefresh(id, now)).0
    {
      clock, tasks := now, tasks[id := ForcedWaiting];
    }

    /** A forced refresh once it has the lock: no throttle. */
    method LockRefresh(id: TaskId, stamp: real)
      requires Enabled(Abs(), Step.LockRefresh(id, stamp))
      modifies this
      ensures Abs() == Next(cfg, old(Abs()), Step.LockRefresh(id, stamp)).0
    {
      clock, lastAttemptAt, holder := stamp, Some(stamp), Some(id);
      attempts, tasks := attempts + [Attempt(stamp, true, None)], tasks[id := ForcedFetching];
    }
  }
}
