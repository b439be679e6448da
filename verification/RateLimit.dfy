/** Per-user token buckets: the bucket arithmetic, the in-process limiter, and the
    sliding-window log that the stored tokens turn out to be a compressed form of.
    Time and token counts are reals. */
module RateLimit {
  import opened Wrappers

  datatype BucketSpec = BucketSpec(name: string, capacity: real, refillRate: real)
  datatype BucketState = BucketState(tokens: real, ts: real)
  datatype RateLimitResult = RateLimitResult(allowed: bool, retryAfter: real)

  type BucketStates = map<string, BucketState>

  function Max(a: real, b: real): real { if a < b then b else a }
  function Min(a: real, b: real): real { if b < a then b else a }

  /** Tokens gained over `elapsed` seconds. */
  function Refill(spec: BucketSpec, elapsed: real): real { elapsed * spec.refillRate }

  lemma RefillIs(spec: BucketSpec, elapsed: real)
    ensures Refill(spec, elapsed) == elapsed * spec.refillRate
  {
  }

  lemma RefillBetween(spec: BucketSpec, from: real, to: real)
    ensures Refill(spec, to - from) == (to - from) * spec.refillRate
  {
  }

  lemma RefillAdds(spec: BucketSpec, a: real, b: real)
    ensures Refill(spec, a) + Refill(spec, b) == Refill(spec, a + b)
  {
  }

  lemma RefillGrows(spec: BucketSpec, a: real, b: real)
    requires 0.0 < spec.refillRate && a <= b
    ensures Refill(spec, a) <= Refill(spec, b)
  {
    assert 0.0 <= (b - a) * spec.refillRate;
  }

  // --- one evaluation of all buckets ---

  /** Tokens a bucket holds once refilled to `now`; a bucket without a state is full. */
  function Refilled(states: BucketStates, spec: BucketSpec, now: real): real {
    var tokens := if spec.name in states then states[spec.name].tokens else spec.capacity;
    var ts := if spec.name in states then states[spec.name].ts else now;
    Min(spec.capacity, tokens + Refill(spec, Max(0.0, now - ts)))
  }

  function Names(specs: seq<BucketSpec>): set<string> {
    set spec | spec in specs :: spec.name
  }

  ghost predicate LastOfItsName(specs: seq<BucketSpec>, i: nat)
    requires i < |specs|
  {
    forall j :: i < j < |specs| ==> specs[j].name != specs[i].name
  }

  /** Seconds until a bucket at `level` holds `cost` tokens. */
  function Wait(spec: BucketSpec, level: real, cost: real): real
    requires spec.refillRate != 0.0
  {
    (cost - level) / spec.refillRate
  }

  /** `r` is the longest wait over the buckets whose level is below `cost`, 0 if there is none. */
  ghost predicate IsLongestWait(specs: seq<BucketSpec>, level: BucketSpec -> real, cost: real, r: real)
    requires forall spec <- specs :: spec.refillRate != 0.0
  {
    && 0.0 <= r
    && (forall spec <- specs :: level(spec) < cost ==> Wait(spec, level(spec), cost) <= r)
    && (r == 0.0 || exists spec <- specs :: level(spec) < cost && r == Wait(spec, level(spec), cost))
  }

  lemma SameLevelsSameWait(specs: seq<BucketSpec>, f: BucketSpec -> real, g: BucketSpec -> real, cost: real, r: real)
    requires forall spec <- specs :: spec.refillRate != 0.0 && f(spec) == g(spec)
    ensures IsLongestWait(specs, f, cost, r) <==> IsLongestWait(specs, g, cost, r)
  {
    hide Wait;
  }

  lemma NoWait(level: BucketSpec -> real, cost: real)
    ensures IsLongestWait([], level, cost, 0.0)
  {
  }

  lemma LongerWait(specs: seq<BucketSpec>, spec: BucketSpec, level: BucketSpec -> real, cost: real, r: real)
    requires forall other <- specs + [spec] :: other.refillRate != 0.0
    requires IsLongestWait(specs, level, cost, r)
    ensures IsLongestWait(specs + [spec], level, cost,
                          if level(spec) < cost then Max(r, Wait(spec, level(spec), cost)) else r)
  {
    hide Wait;
    var all := specs + [spec];
    assert forall other :: other in all <==> other in specs || other == spec;
    if r != 0.0 {
      var longest :| longest in specs && level(longest) < cost && r == Wait(longest, level(longest), cost);
      assert longest in all;
    }
  }

  /** Of several specs with one name the last one counts, as in a dictionary built in order. */
  ghost predicate IsRefill(states: BucketStates, specs: seq<BucketSpec>, now: real, refilled: map<string, real>) {
    && refilled.Keys == Names(specs)
    && forall i: nat :: i < |specs| && LastOfItsName(specs, i) ==>
         refilled[specs[i].name] == Refilled(states, specs[i], now)
  }

  lemma RefillOneMore(states: BucketStates, specs: seq<BucketSpec>, spec: BucketSpec, now: real,
                      refilled: map<string, real>)
    requires IsRefill(states, specs, now, refilled)
    ensures IsRefill(states, specs + [spec], now, refilled[spec.name := Refilled(states, spec, now)])
  {
    hide Refilled;
    var all := specs + [spec];
    assert Names(all) == Names(specs) + {spec.name};
    forall i: nat | i < |specs| && LastOfItsName(all, i) ensures LastOfItsName(specs, i) && specs[i].name != spec.name {
      assert all[|specs|].name != all[i].name;
      assert forall j :: i < j < |specs| ==> all[j] == specs[j];
    }
  }

  method Persist(specs: seq<BucketSpec>, refilled: map<string, real>, debit: real, now: real)
    returns (newStates: BucketStates)
    requires refilled.Keys == Names(specs)
    ensures newStates == map name | name in refilled :: BucketState(refilled[name] - debit, now)
  {
    newStates := map[];
    for n := 0 to |specs|
      invariant newStates.Keys == Names(specs[..n])
      invariant forall name <- newStates.Keys :: name in refilled &&
                  newStates[name] == BucketState(refilled[name] - debit, now)
    {
      assert specs[..n + 1] == specs[..n] + [specs[n]];
      var name := specs[n].name;
      newStates := newStates[name := BucketState(refilled[name] - debit, now)];
    }
    assert specs[..|specs|] == specs;
  }

  /** What the evaluation loop has computed once it has seen `specs`. */
  ghost predicate Evaluates(states: BucketStates, specs: seq<BucketSpec>, now: real, cost: real,
                            refilled: map<string, real>, allowed: bool, retryAfter: real)
    requires forall spec <- specs :: spec.refillRate != 0.0
  {
    && IsRefill(states, specs, now, refilled)
    && (allowed <==> forall spec <- specs :: cost <= Refilled(states, spec, now))
    && IsLongestWait(specs, spec => Refilled(states, spec, now), cost, retryAfter)
  }

  lemma EvaluatesOneMore(states: BucketStates, specs: seq<BucketSpec>, spec: BucketSpec, now: real, cost: real,
                         refilled: map<string, real>, allowed: bool, retryAfter: real)
    requires forall other <- specs + [spec] :: other.refillRate != 0.0
    requires forall other <- specs :: other.refillRate != 0.0
    requires Evaluates(states, specs, now, cost, refilled, allowed, retryAfter)
    ensures var tokens := Refilled(states, spec, now);
            Evaluates(states, specs + [spec], now, cost, refilled[spec.name := tokens], allowed && cost <= tokens,
                      if tokens < cost then Max(retryAfter, Wait(spec, tokens, cost)) else retryAfter)
  {
    hide Refilled, Wait;
    RefillOneMore(states, specs, spec, now, refilled);
    LongerWait(specs, spec, other => Refilled(states, other, now), cost, retryAfter);
    assert forall other :: other in specs + [spec] <==> other in specs || other == spec;
  }

  lemma EvaluatesNothing(states: BucketStates, now: real, cost: real)
    ensures Evaluates(states, [], now, cost, map[], true, 0.0)
  {
  }

  /** Refills every bucket to `now` and compares it with `cost`. */
  method RefillBuckets(states: BucketStates, specs: seq<BucketSpec>, now: real, cost: real)
    returns (refilled: map<string, real>, allowed: bool, retryAfter: real)
    requires forall spec <- specs :: spec.refillRate != 0.0
    ensures Evaluates(states, specs, now, cost, refilled, allowed, retryAfter)
  {
    hide Evaluates, Refill, Wait;
    refilled, allowed, retryAfter := map[], true, 0.0;
    EvaluatesNothing(states, now, cost);
    for n := 0 to |specs|
      invariant Evaluates(states, specs[..n], now, cost, refilled, allowed, retryAfter)
    {
      var spec := specs[n];
      assert specs[..n + 1] == specs[..n] + [spec];
      EvaluatesOneMore(states, specs[..n], spec, now, cost, refilled, allowed, retryAfter);
      var tokens := if spec.name in states then states[spec.name].tokens else spec.capacity;
      var ts := if spec.name in states then states[spec.name].ts else now;
      var elapsed := Max(0.0, now - ts);
      tokens := Min(spec.capacity, tokens + Refill(spec, elapsed));
      refilled := refilled[spec.name := tokens];
      if tokens < cost {
        allowed := false;
        retryAfter := Max(retryAfter, Wait(spec, tokens, cost));
      }
    }
    assert specs[..|specs|] == specs;
  }

  /** Allows iff every bucket holds `cost` tokens, and takes them from all buckets or from none. */
  method EvaluateBuckets(states: BucketStates, specs: seq<BucketSpec>, now: real, cost: real)
    returns (allowed: bool, newStates: BucketStates, retryAfter: real)
    requires forall spec <- specs :: spec.refillRate != 0.0
    ensures allowed <==> forall spec <- specs :: cost <= Refilled(states, spec, now)
    ensures newStates.Keys == Names(specs)
    ensures forall i: nat :: i < |specs| && LastOfItsName(specs, i) ==>
              newStates[specs[i].name]
              == BucketState(Refilled(states, specs[i], now) - (if allowed then cost else 0.0), now)
    ensures IsLongestWait(specs, spec => Refilled(states, spec, now), cost, retryAfter)
    ensures allowed ==> retryAfter == 0.0
  {
    hide Refilled, Wait;
    var refilled;
    refilled, allowed, retryAfter := RefillBuckets(states, specs, now, cost);
    newStates := Persist(specs, refilled, if allowed then cost else 0.0, now);
  }

  /** The minute and hour buckets; a non-positive ceiling disables its bucket. */
  method BuildBucketSpecs(perMinute: int, perHour: int) returns (specs: seq<BucketSpec>)
    ensures WellFormed(specs)
    ensures forall spec <- specs :: 1.0 <= spec.capacity
    ensures |specs| == (if 0 < perMinute then 1 else 0) + (if 0 < perHour then 1 else 0)
    ensures 0 < perMinute ==> BucketSpec("minute", perMinute as real, perMinute as real / 60.0) in specs
    ensures 0 < perHour ==> BucketSpec("hour", perHour as real, perHour as real / 3600.0) in specs
  {
    specs := [];
    if perMinute > 0 {
      specs := specs + [BucketSpec("minute", perMinute as real, perMinute as real / 60.0)];
    }
    if perHour > 0 {
      specs := specs + [BucketSpec("hour", perHour as real, perHour as real / 3600.0)];
    }
  }

  ghost predicate WellFormed(specs: seq<BucketSpec>) {
    && (forall spec <- specs :: 0.0 <= spec.capacity && 0.0 < spec.refillRate)
    && (forall i, j :: 0 <= i < j < |specs| ==> specs[i].name != specs[j].name)
  }

  // --- what the buckets mean over the history of one key ---

  /** One call of one key, and how it was answered. */
  datatype Call = Call(now: real, allowed: bool)

  function Debit(call: Call): real { if call.allowed then 1.0 else 0.0 }

  /** Level of a bucket at `now`, as the history of its key determines it. */
  function Level(spec: BucketSpec, hist: seq<Call>, now: real): real {
    if hist == [] then spec.capacity else
      var last := hist[|hist| - 1];
      var left := Level(spec, hist[..|hist| - 1], last.now) - Debit(last);
      Min(spec.capacity, left + Refill(spec, Max(0.0, now - last.now)))
  }

  ghost predicate Allows(specs: seq<BucketSpec>, hist: seq<Call>, now: real) {
    forall spec <- specs :: 1.0 <= Level(spec, hist, now)
  }

  /** `hist` is a run of the limiter on one key. */
  ghost predicate IsKeyRun(specs: seq<BucketSpec>, hist: seq<Call>) {
    forall i :: 0 <= i < |hist| ==> (hist[i].allowed <==> Allows(specs, hist[..i], hist[i].now))
  }

  lemma KeyRunPrefix(specs: seq<BucketSpec>, hist: seq<Call>, n: nat)
    requires IsKeyRun(specs, hist) && n <= |hist|
    ensures IsKeyRun(specs, hist[..n])
  {
    assert forall i :: 0 <= i < n ==> hist[..n][..i] == hist[..i];
  }

  ghost predicate NonDecreasing(hist: seq<Call>) {
    forall i, j :: 0 <= i <= j < |hist| ==> hist[i].now <= hist[j].now
  }

  ghost predicate NotBefore(hist: seq<Call>, now: real) {
    hist != [] ==> hist[|hist| - 1].now <= now
  }

  /** Calls allowed at positions k, k+1, ... of the history. */
  function AllowedFrom(hist: seq<Call>, k: nat): nat {
    if |hist| <= k then 0
    else AllowedFrom(hist[..|hist| - 1], k) + if hist[|hist| - 1].allowed then 1 else 0
  }

  lemma {:induction false} AllowedFromCounts(hist: seq<Call>, k: nat)
    ensures AllowedFrom(hist, k) == |set n: nat | k <= n < |hist| && hist[n].allowed|
  {
    var counted := set n: nat | k <= n < |hist| && hist[n].allowed;
    if k < |hist| {
      var last := |hist| - 1;
      AllowedFromCounts(hist[..last], k);
      var earlier := set n: nat | k <= n < last && hist[..last][n].allowed;
      assert counted == if hist[last].allowed then earlier + {last} else earlier;
    } else {
      assert counted == {};
    }
  }

  function TimeAt(hist: seq<Call>, now: real, k: nat): real {
    if k < |hist| then hist[k].now else now
  }

  /** The sliding-window log: admitting one more call at `now` keeps every window that starts
      at an earlier call of this key, or at this one, within capacity plus refill. */
  ghost predicate FitsEveryWindow(spec: BucketSpec, hist: seq<Call>, now: real) {
    forall k: nat :: k <= |hist| ==> WindowHolds(spec, hist, now, k, 1.0)
  }

  ghost predicate WindowHolds(spec: BucketSpec, hist: seq<Call>, now: real, k: nat, more: real) {
    AllowedFrom(hist, k) as real + more <= spec.capacity + (now - TimeAt(hist, now, k)) * spec.refillRate
  }

  lemma WindowStep(spec: BucketSpec, hist: seq<Call>, now: real, k: nat, x: real)
    requires k < |hist|
    ensures var last := hist[|hist| - 1];
            WindowHolds(spec, hist, now, k, x)
            <==> WindowHolds(spec, hist[..|hist| - 1], last.now, k, x + Debit(last) - Refill(spec, now - last.now))
  {
    var last := hist[|hist| - 1];
    RefillAdds(spec, last.now - TimeAt(hist, now, k), now - last.now);
  }

  /** The stored level is the tightest of the window bounds. */
  lemma {:induction false} LevelIsTightestWindow(spec: BucketSpec, hist: seq<Call>, now: real, x: real)
    requires NonDecreasing(hist) && NotBefore(hist, now)
    ensures x <= Level(spec, hist, now) <==> forall k: nat :: k <= |hist| ==> WindowHolds(spec, hist, now, k, x)
  {
    var n := |hist|;
    assert WindowHolds(spec, hist, now, n, x) <==> x <= spec.capacity;
    if n != 0 {
      var init, last := hist[..n - 1], hist[n - 1];
      var refill := Refill(spec, now - last.now);
      var y := x + Debit(last) - refill;
      assert NonDecreasing(init);
      assert NotBefore(init, last.now);
      LevelIsTightestWindow(spec, init, last.now, y);
      forall k: nat | k < n
        ensures WindowHolds(spec, hist, now, k, x) <==> WindowHolds(spec, init, last.now, k, y)
      {
        WindowStep(spec, hist, now, k, x);
      }
      assert Level(spec, hist, now) == Min(spec.capacity, Level(spec, init, last.now) - Debit(last) + refill);
    }
  }

  /** The token buckets decide exactly as the sliding-window log of the same calls does. */
  lemma TokenBucketIsSlidingWindow(specs: seq<BucketSpec>, hist: seq<Call>, now: real)
    requires NonDecreasing(hist) && NotBefore(hist, now)
    ensures Allows(specs, hist, now) <==> forall spec <- specs :: FitsEveryWindow(spec, hist, now)
  {
    forall spec <- specs ensures 1.0 <= Level(spec, hist, now) <==> FitsEveryWindow(spec, hist, now) {
      LevelIsTightestWindow(spec, hist, now, 1.0);
    }
  }

  lemma WindowRefills(spec: BucketSpec, hist: seq<Call>, now: real, k: nat, more: real)
    ensures WindowHolds(spec, hist, now, k, more)
            <==> AllowedFrom(hist, k) as real + more <= spec.capacity + Refill(spec, now - TimeAt(hist, now, k))
  {
  }

  lemma {:induction false} WindowConforms(specs: seq<BucketSpec>, hist: seq<Call>, spec: BucketSpec,
                                          i: nat, j: nat)
    requires IsKeyRun(specs, hist) && NonDecreasing(hist)
    requires spec in specs && 0.0 <= spec.capacity && 0.0 < spec.refillRate
    requires i <= j < |hist|
    ensures AllowedFrom(hist[..j + 1], i) as real <= spec.capacity + Refill(spec, hist[j].now - hist[i].now)
    decreases j
  {
    hide Refill, Level;
    var upTo := hist[..j + 1];
    assert upTo[..j] == hist[..j];
    RefillGrows(spec, 0.0, hist[j].now - hist[i].now);
    assert Refill(spec, 0.0) == 0.0 by { RefillAdds(spec, 0.0, 0.0); }
    if hist[j].allowed {
      TokenBucketIsSlidingWindow(specs, hist[..j], hist[j].now);
      WindowRefills(spec, hist[..j], hist[j].now, i, 1.0);
      assert WindowHolds(spec, hist[..j], hist[j].now, i, 1.0);
    } else if i < j {
      WindowConforms(specs, hist, spec, i, j - 1);
      RefillGrows(spec, hist[j - 1].now - hist[i].now, hist[j].now - hist[i].now);
    } else {
      assert AllowedFrom(hist[..j], i) == 0;
    }
  }

  /** Every window of every run conforms: from call i to call j at most
      capacity + rate * elapsed calls are allowed. */
  lemma EveryWindowConforms(specs: seq<BucketSpec>, hist: seq<Call>, spec: BucketSpec, i: nat, j: nat)
    requires IsKeyRun(specs, hist) && NonDecreasing(hist)
    requires spec in specs && 0.0 <= spec.capacity && 0.0 < spec.refillRate
    requires i <= j < |hist|
    ensures AllowedFrom(hist[..j + 1], i) as real <= spec.capacity + (hist[j].now - hist[i].now) * spec.refillRate
  {
    hide Refill, AllowedFrom, IsKeyRun, NonDecreasing;
    WindowConforms(specs, hist, spec, i, j);
    RefillBetween(spec, hist[i].now, hist[j].now);
  }

  // --- denied calls ---

  lemma LevelAfter(spec: BucketSpec, hist: seq<Call>, call: Call, now: real)
    ensures Level(spec, hist + [call], now)
            == Min(spec.capacity, Level(spec, hist, call.now) - Debit(call) + Refill(spec, Max(0.0, now - call.now)))
  {
    assert (hist + [call])[..|hist|] == hist;
  }

  ghost predicate AllDenied(calls: seq<Call>) {
    forall call <- calls :: !call.allowed
  }

  /** Refilling twice is refilling once, so denied calls do not move a bucket's level. */
  lemma {:induction false} DeniedKeepLevel(spec: BucketSpec, hist: seq<Call>, denied: seq<Call>, now: real)
    requires 0.0 < spec.refillRate && AllDenied(denied)
    requires NonDecreasing(hist + denied) && NotBefore(hist + denied, now)
    ensures Level(spec, hist + denied, now) == Level(spec, hist, now)
    decreases |denied|
  {
    if denied == [] {
      assert hist + denied == hist;
    } else {
      var init, last := denied[..|denied| - 1], denied[|denied| - 1];
      var all := hist + denied;
      assert all[..|all| - 1] == hist + init;
      assert NonDecreasing(hist + init) by {
        assert forall i :: 0 <= i < |hist + init| ==> (hist + init)[i] == all[i];
      }
      assert NotBefore(hist + init, last.now) by {
        if hist + init != [] { assert (hist + init)[|hist + init| - 1] == all[|all| - 2]; }
      }
      assert all[|all| - 1] == last && (hist != [] ==> all[|hist| - 1] == hist[|hist| - 1]);
      DeniedKeepLevel(spec, hist, init, last.now);
      RefillTwice(spec, hist, last.now, now);
    }
  }

  lemma RefillTwice(spec: BucketSpec, hist: seq<Call>, mid: real, now: real)
    requires 0.0 < spec.refillRate && NotBefore(hist, mid) && mid <= now
    ensures Min(spec.capacity, Level(spec, hist, mid) + Refill(spec, now - mid)) == Level(spec, hist, now)
  {
    RefillGrows(spec, 0.0, now - mid);
    if hist != [] {
      var last := hist[|hist| - 1];
      RefillAdds(spec, mid - last.now, now - mid);
    }
  }

  /** The calls of `hist` whose position is not in `dropped`. */
  function Drop(hist: seq<Call>, dropped: set<nat>): seq<Call> {
    if hist == [] then [] else
      var n := |hist| - 1;
      if n in dropped then Drop(hist[..n], dropped) else Drop(hist[..n], dropped) + [hist[n]]
  }

  /** Exactly the dropped positions go, the others keep their order. */
  lemma {:induction false} DropByPosition(hist: seq<Call>, dropped: set<nat>) returns (positions: seq<nat>)
    ensures AreKept(positions, |hist|, i => i !in dropped) && |Drop(hist, dropped)| == |positions|
    ensures forall k :: 0 <= k < |positions| ==>
              positions[k] < |hist| && Drop(hist, dropped)[k] == hist[positions[k]]
  {
    hide AreKept;
    if hist == [] {
      positions := [];
      NoneKept(0, i => i !in dropped);
    } else {
      var n := |hist| - 1;
      positions := DropByPosition(hist[..n], dropped);
      KeepOneMore(positions, n, i => i !in dropped);
      positions := if n in dropped then positions else positions + [n];
    }
  }

  ghost predicate OnlyDenied(hist: seq<Call>, dropped: set<nat>) {
    forall i <- dropped :: i < |hist| ==> !hist[i].allowed
  }

  lemma {:induction false} DropKeepsLevel(spec: BucketSpec, hist: seq<Call>, dropped: set<nat>, now: real)
    requires 0.0 < spec.refillRate && NonDecreasing(hist) && NotBefore(hist, now)
    requires OnlyDenied(hist, dropped)
    ensures NotBefore(Drop(hist, dropped), now)
    ensures Level(spec, Drop(hist, dropped), now) == Level(spec, hist, now)
  {
    hide Refill, Level;
    if hist != [] {
      var n := |hist| - 1;
      var init, last := hist[..n], hist[n];
      assert init + [last] == hist;
      if n in dropped {
        DeniedKeepLevel(spec, init, [last], now);
        DropKeepsLevel(spec, init, dropped, now);
      } else {
        DropKeepsLevel(spec, init, dropped, last.now);
        LevelAfter(spec, init, last, now);
        LevelAfter(spec, Drop(init, dropped), last, now);
      }
    }
  }

  // --- retry_after ---

  ghost predicate IsRetryAfter(specs: seq<BucketSpec>, hist: seq<Call>, now: real, r: real)
    requires forall spec <- specs :: spec.refillRate != 0.0
  {
    IsLongestWait(specs, spec => Level(spec, hist, now), 1.0, r)
  }

  lemma WaitIsExact(spec: BucketSpec, level: real, d: real)
    requires 0.0 < spec.refillRate
    ensures Wait(spec, level, 1.0) <= d <==> 1.0 <= level + Refill(spec, d)
  {
    var w := Wait(spec, level, 1.0);
    assert w * spec.refillRate == 1.0 - level;
    if w <= d {
      assert w * spec.refillRate <= d * spec.refillRate;
    } else {
      assert d * spec.refillRate < w * spec.refillRate;
    }
  }

  /** retry_after is exact. After a denial at `now`, and whatever denied calls follow it, a call
      at now + d is allowed exactly from d = retry_after on, provided every bucket can hold one
      token at all; otherwise it is never allowed. */
  lemma RetryAfterIsExact(specs: seq<BucketSpec>, hist: seq<Call>, now: real, r: real, denied: seq<Call>, d: real)
    requires WellFormed(specs) && !Allows(specs, hist, now) && IsRetryAfter(specs, hist, now, r)
    requires 0.0 <= d && AllDenied(denied)
    requires var all := hist + ([Call(now, false)] + denied); NonDecreasing(all) && NotBefore(all, now + d)
    ensures Allows(specs, hist + ([Call(now, false)] + denied), now + d)
            <==> r <= d && forall spec <- specs :: 1.0 <= spec.capacity
  {
    var later := [Call(now, false)] + denied;
    var all := hist + later;
    assert NotBefore(hist, now) by {
      if hist != [] { assert all[|hist| - 1] == hist[|hist| - 1] && all[|hist|].now == now; }
    }
    forall spec <- specs
      ensures Level(spec, all, now + d) == Min(spec.capacity, Level(spec, hist, now) + Refill(spec, d))
      ensures 1.0 <= Level(spec, all, now + d) <==>
              1.0 <= spec.capacity && Wait(spec, Level(spec, hist, now), 1.0) <= d
    {
      DeniedKeepLevel(spec, hist, later, now + d);
      RefillTwice(spec, hist, now, now + d);
      WaitIsExact(spec, Level(spec, hist, now), d);
    }
    forall spec <- specs
      ensures 1.0 <= Level(spec, hist, now) ==> Wait(spec, Level(spec, hist, now), 1.0) <= 0.0
    {
      WaitIsExact(spec, Level(spec, hist, now), 0.0);
    }
    if Allows(specs, all, now + d) && r != 0.0 {
      var spec :| spec in specs && Level(spec, hist, now) < 1.0 && r == Wait(spec, Level(spec, hist, now), 1.0);
      assert 1.0 <= Level(spec, all, now + d);
    }
  }

  /** The whole seconds shown to the user: at least 1, rounded up. */
  function RetrySeconds(retryAfter: real): int {
    var ceiling := -((-retryAfter).Floor);
    if ceiling < 1 then 1 else ceiling
  }

  /** The seconds shown always suffice, and unless 1 is shown one second less would not. */
  lemma ShownSecondsSuffice(specs: seq<BucketSpec>, hist: seq<Call>, now: real, r: real)
    requires WellFormed(specs) && (forall spec <- specs :: 1.0 <= spec.capacity)
    requires NonDecreasing(hist) && NotBefore(hist, now)
    requires !Allows(specs, hist, now) && IsRetryAfter(specs, hist, now, r)
    ensures Allows(specs, hist + [Call(now, false)], now + RetrySeconds(r) as real)
    ensures 1 < RetrySeconds(r) ==> !Allows(specs, hist + [Call(now, false)], now + (RetrySeconds(r) - 1) as real)
  {
    assert hist + ([Call(now, false)] + []) == hist + [Call(now, false)];
    RetryAfterIsExact(specs, hist, now, r, [], RetrySeconds(r) as real);
    if 1 < RetrySeconds(r) {
      RetryAfterIsExact(specs, hist, now, r, [], (RetrySeconds(r) - 1) as real);
    }
  }

  // --- any clock at all ---

  /** Sum of the forward clock steps from call k to `now`. */
  function ForwardTime(hist: seq<Call>, k: nat, now: real): real {
    if |hist| <= k then 0.0
    else ForwardTime(hist[..|hist| - 1], k, hist[|hist| - 1].now) + Max(0.0, now - hist[|hist| - 1].now)
  }

  lemma {:induction false} ForwardTimeBounds(specs: seq<BucketSpec>, hist: seq<Call>, spec: BucketSpec, k: nat,
                                             now: real)
    requires WellFormed(specs) && IsKeyRun(specs, hist) && spec in specs
    ensures 0.0 <= Level(spec, hist, now) <= spec.capacity
    ensures Level(spec, hist, now) + AllowedFrom(hist, k) as real
            <= spec.capacity + Refill(spec, ForwardTime(hist, k, now))
  {
    hide Refill;
    assert Refill(spec, 0.0) == 0.0 by { RefillAdds(spec, 0.0, 0.0); }
    if hist != [] {
      var n := |hist| - 1;
      var init, last := hist[..n], hist[n];
      KeyRunPrefix(specs, hist, n);
      ForwardTimeBounds(specs, init, spec, k, last.now);
      assert last.allowed ==> 1.0 <= Level(spec, init, last.now);
      var step := Max(0.0, now - last.now);
      RefillGrows(spec, 0.0, step);
      RefillAdds(spec, ForwardTime(init, k, last.now), step);
    }
  }

  /** Even if the clock steps backwards, levels stay between 0 and capacity, and the calls allowed
      since any call k fit capacity plus the refill of the forward clock steps. */
  lemma AnyClockBound(specs: seq<BucketSpec>, hist: seq<Call>, spec: BucketSpec, k: nat, now: real)
    requires WellFormed(specs) && IsKeyRun(specs, hist) && spec in specs
    ensures 0.0 <= Level(spec, hist, now) <= spec.capacity
    ensures Level(spec, hist, now) + AllowedFrom(hist, k) as real
            <= spec.capacity + ForwardTime(hist, k, now) * spec.refillRate
  {
    hide Refill, AllowedFrom, IsKeyRun, WellFormed, Level, ForwardTime;
    ForwardTimeBounds(specs, hist, spec, k, now);
    RefillIs(spec, ForwardTime(hist, k, now));
  }

  // --- all keys together ---

  datatype Event = Event(key: string, call: Call)

  function HistoryOf(log: seq<Event>, key: string): seq<Call> {
    if log == [] then [] else
      var last := log[|log| - 1];
      var init := HistoryOf(log[..|log| - 1], key);
      if last.key == key then init + [last.call] else init
  }

  /** `log` is a run of the limiter on all keys. */
  ghost predicate IsRun(specs: seq<BucketSpec>, log: seq<Event>) {
    forall i :: 0 <= i < |log| ==> IsDecision(specs, log[..i], log[i])
  }

  ghost predicate IsDecision(specs: seq<BucketSpec>, before: seq<Event>, event: Event) {
    event.call.allowed <==> Allows(specs, HistoryOf(before, event.key), event.call.now)
  }

  lemma RunPrefix(specs: seq<BucketSpec>, log: seq<Event>, n: nat)
    requires IsRun(specs, log) && n <= |log|
    ensures IsRun(specs, log[..n])
  {
    assert forall i :: 0 <= i < n ==> log[..n][..i] == log[..i];
  }

  /** The calls of one key form a run of that key, whatever other keys did in between. */
  lemma {:induction false} KeyRunInRun(specs: seq<BucketSpec>, log: seq<Event>, key: string)
    requires IsRun(specs, log)
    ensures IsKeyRun(specs, HistoryOf(log, key))
  {
    if log != [] {
      var n := |log| - 1;
      RunPrefix(specs, log, n);
      KeyRunInRun(specs, log[..n], key);
      var init, hist := HistoryOf(log[..n], key), HistoryOf(log, key);
      assert IsDecision(specs, log[..n], log[n]);
      assert forall i :: 0 <= i <= |init| ==> hist[..i] == init[..i];
      assert init[..|init|] == init;
    }
  }

  function OnlyKeys(log: seq<Event>, keys: set<string>): seq<Event> {
    if log == [] then [] else
      var last := log[|log| - 1];
      var init := OnlyKeys(log[..|log| - 1], keys);
      if last.key in keys then init + [last] else init
  }

  lemma {:induction false} OnlyKeysHistory(log: seq<Event>, keys: set<string>, key: string)
    requires key in keys
    ensures HistoryOf(OnlyKeys(log, keys), key) == HistoryOf(log, key)
  {
    if log != [] {
      var n := |log| - 1;
      OnlyKeysHistory(log[..n], keys, key);
      if log[n].key in keys {
        var kept := OnlyKeys(log, keys);
        assert kept[..|kept| - 1] == OnlyKeys(log[..n], keys);
      }
    }
  }

  /** Deleting every call of some keys from a run leaves a run, in which the others made the same calls:
      users do not affect each other. */
  lemma {:induction false} KeysAreIndependent(specs: seq<BucketSpec>, log: seq<Event>, keys: set<string>)
    requires IsRun(specs, log)
    ensures IsRun(specs, OnlyKeys(log, keys))
    ensures forall key :: HistoryOf(OnlyKeys(log, keys), key) == if key in keys then HistoryOf(log, key) else []
  {
    if log != [] {
      var n := |log| - 1;
      RunPrefix(specs, log, n);
      KeysAreIndependent(specs, log[..n], keys);
      var init, kept := OnlyKeys(log[..n], keys), OnlyKeys(log, keys);
      assert IsDecision(specs, log[..n], log[n]);
      if log[n].key in keys {
        OnlyKeysHistory(log[..n], keys, log[n].key);
        assert kept[..|init|] == init;
        assert forall i :: 0 <= i < |init| ==> kept[..i] == init[..i];
      }
    }
  }

  // --- the in-process limiter ---

  /** The stored states of one key are the levels its history determines. */
  ghost predicate StatesMatch(specs: seq<BucketSpec>, hist: seq<Call>, states: BucketStates) {
    if hist == [] then states == map[] else
      var last := hist[|hist| - 1];
      forall spec <- specs :: spec.name in states &&
        states[spec.name] == BucketState(Level(spec, hist[..|hist| - 1], last.now) - Debit(last), last.now)
  }

  lemma StoredLevel(specs: seq<BucketSpec>, hist: seq<Call>, states: BucketStates, now: real)
    requires StatesMatch(specs, hist, states)
    ensures forall spec <- specs :: Refilled(states, spec, now) == Level(spec, hist, now)
  {
  }

  lemma StatesMatchAfter(specs: seq<BucketSpec>, hist: seq<Call>, current: BucketStates, newStates: BucketStates,
                         call: Call)
    requires WellFormed(specs) && specs != [] && StatesMatch(specs, hist, current) && newStates.Keys == Names(specs)
    requires forall i: nat :: i < |specs| && LastOfItsName(specs, i) ==>
               newStates[specs[i].name] == BucketState(Refilled(current, specs[i], call.now) - Debit(call), call.now)
    ensures StatesMatch(specs, hist + [call], newStates)
  {
    StoredLevel(specs, hist, current, call.now);
    hide Refill;
    assert (hist + [call])[..|hist|] == hist;
    forall spec <- specs
      ensures spec.name in newStates
      ensures newStates[spec.name] == BucketState(Level(spec, hist, call.now) - Debit(call), call.now)
    {
      var i: nat :| i < |specs| && specs[i] == spec;
      assert LastOfItsName(specs, i);
    }
  }

  lemma HistoryAfter(log: seq<Event>, event: Event, key: string)
    ensures HistoryOf(log + [event], key)
            == if event.key == key then HistoryOf(log, key) + [event.call] else HistoryOf(log, key)
  {
    assert (log + [event])[..|log|] == log;
  }

  lemma RunAfter(specs: seq<BucketSpec>, log: seq<Event>, event: Event)
    requires IsRun(specs, log) && IsDecision(specs, log, event)
    ensures IsRun(specs, log + [event])
  {
    var all := log + [event];
    assert all[..|log|] == log;
    assert forall i :: 0 <= i < |log| ==> all[..i] == log[..i];
  }

  class InMemoryRateLimiter {
    const specs: seq<BucketSpec>
    var states: map<string, BucketStates>
    ghost var log: seq<Event>

    ghost predicate Valid()
      reads this
    {
      && WellFormed(specs)
      && IsRun(specs, log)
      && (specs != [] ==> forall key :: StatesMatch(specs, HistoryOf(log, key), StatesOf(key)))
    }

    function StatesOf(key: string): BucketStates
      reads this
    {
      if key in states then states[key] else map[]
    }

    constructor (specs: seq<BucketSpec>)
      requires WellFormed(specs)
      ensures Valid() && this.specs == specs && log == []
    {
      this.specs := specs;
      states := map[];
      log := [];
    }

    /** One call of `key` when the clock reads `now`. */
    method Acquire(key: string, now: real) returns (result: RateLimitResult)
      requires Valid()
      modifies this
      ensures Valid()
      ensures log == old(log) + [Event(key, Call(now, result.allowed))]
      ensures result.allowed <==> Allows(specs, HistoryOf(old(log), key), now)
      ensures IsRetryAfter(specs, HistoryOf(old(log), key), now, result.retryAfter)
      ensures result.allowed ==> result.retryAfter == 0.0
    {
      hide Wait, Level, Refilled, StatesMatch, IsLongestWait, IsRun, HistoryOf;
      ghost var hist := HistoryOf(log, key);
      if specs == [] {
        NoWait(spec => Level(spec, hist, now), 1.0);
        result := RateLimitResult(true, 0.0);
      } else {
        var current := StatesOf(key);
        StoredLevel(specs, hist, current, now);
        var allowed, newStates, retryAfter := EvaluateBuckets(current, specs, now, 1.0);
        SameLevelsSameWait(specs, spec => Refilled(current, spec, now), spec => Level(spec, hist, now), 1.0,
                           retryAfter);
        states := states[key := newStates];
        result := RateLimitResult(allowed, retryAfter);
        StatesMatchAfter(specs, hist, current, newStates, Call(now, allowed));
      }
      ghost var event := Event(key, Call(now, result.allowed));
      RunAfter(specs, log, event);
      forall other {
        HistoryAfter(log, event, other);
      }
      log := log + [event];
    }
  }
}
