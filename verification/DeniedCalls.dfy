/** Whether denied calls leave a trace: for which sequences of clock readings deleting denied calls from a
    run changes no other decision, whatever the buckets are. */
module DeniedCalls {
  import opened RateLimit

  function Times(hist: seq<Call>): seq<real> { seq(|hist|, i requires 0 <= i < |hist| => hist[i].now) }

  predicate StepsBack(ts: seq<real>, i: nat) { i + 1 < |ts| && ts[i + 1] < ts[i] }

  predicate StepsForward(ts: seq<real>, i: nat) { i + 1 < |ts| && ts[i] < ts[i + 1] }

  /** Once the clock has stepped back it never steps forward again. */
  ghost predicate NeverResumes(ts: seq<real>) {
    forall i: nat, j: nat :: i < j && StepsBack(ts, i) ==> !StepsForward(ts, j)
  }

  /** For every set of buckets and every run with these clock readings, deleting any denied calls leaves a
      run: no other decision changes. */
  ghost predicate DenialsLeaveNoTrace(ts: seq<real>) {
    forall specs, hist, dropped ::
      WellFormed(specs) && IsKeyRun(specs, hist) && Times(hist) == ts && OnlyDenied(hist, dropped)
      ==> IsKeyRun(specs, Drop(hist, dropped))
  }

  /** Denied calls leave no trace exactly if the clock never steps forward after having stepped back; a
      clock that never steps back is a case of this. */
  lemma DenialsLeaveNoTraceExactlyIf(ts: seq<real>)
    ensures DenialsLeaveNoTrace(ts) <==> NeverResumes(ts)
  {
    hide IsKeyRun, WellFormed, Drop, OnlyDenied;
    if NeverResumes(ts) {
      forall specs, hist, dropped |
        WellFormed(specs) && IsKeyRun(specs, hist) && Times(hist) == ts && OnlyDenied(hist, dropped)
        ensures IsKeyRun(specs, Drop(hist, dropped))
      {
        DeniedLeaveNoTrace(specs, hist, dropped);
      }
    } else {
      var specs, hist, dropped := DeniedLeaveATrace(ts);
    }
  }

  // --- no trace ---

  lemma RunOneMore(specs: seq<BucketSpec>, hist: seq<Call>, call: Call)
    requires IsKeyRun(specs, hist) && (call.allowed <==> Allows(specs, hist, call.now))
    ensures IsKeyRun(specs, hist + [call])
  {
    hide Allows;
    var all := hist + [call];
    assert all[..|hist|] == hist && forall i :: 0 <= i < |hist| ==> all[..i] == hist[..i];
  }

  /** A level can rise from one time to another by no more than the refill of the forward step between. */
  lemma LevelRisesByRefill(spec: BucketSpec, hist: seq<Call>, mid: real, now: real)
    requires 0.0 < spec.refillRate
    ensures Level(spec, hist, now) <= Min(spec.capacity, Level(spec, hist, mid) + Refill(spec, Max(0.0, now - mid)))
  {
    hide Refill;
    RefillGrows(spec, 0.0, Max(0.0, now - mid));
    assert Refill(spec, 0.0) == 0.0 by { RefillAdds(spec, 0.0, 0.0); }
    if hist != [] {
      var last := hist[|hist| - 1];
      RefillAdds(spec, Max(0.0, mid - last.now), Max(0.0, now - mid));
      RefillGrows(spec, Max(0.0, now - last.now), Max(0.0, mid - last.now) + Max(0.0, now - mid));
    }
  }

  /** Whatever the clock does, deleting denied calls never raises a level. */
  lemma {:induction false} DropLowersLevel(spec: BucketSpec, hist: seq<Call>, dropped: set<nat>, now: real)
    requires 0.0 < spec.refillRate && OnlyDenied(hist, dropped)
    ensures Level(spec, Drop(hist, dropped), now) <= Level(spec, hist, now)
  {
    hide Refill, Level;
    if hist != [] {
      var n := |hist| - 1;
      var init, last := hist[..n], hist[n];
      assert init + [last] == hist;
      LevelAfter(spec, init, last, now);
      if n in dropped {
        DropLowersLevel(spec, init, dropped, now);
        LevelRisesByRefill(spec, init, last.now, now);
      } else {
        DropLowersLevel(spec, init, dropped, last.now);
        LevelAfter(spec, Drop(init, dropped), last, now);
      }
    }
  }

  lemma {:induction false} NoStepBack(hist: seq<Call>)
    requires forall i :: 0 <= i < |hist| - 1 ==> hist[i].now <= hist[i + 1].now
    ensures NonDecreasing(hist)
  {
    if 1 < |hist| {
      var n := |hist| - 1;
      NoStepBack(hist[..n]);
      assert hist[n - 1].now <= hist[n - 1 + 1].now;
      forall i, j | 0 <= i <= j < |hist| ensures hist[i].now <= hist[j].now {
        assert i < n ==> hist[..n][i].now <= hist[..n][n - 1].now;
        assert j < n ==> hist[..n][i].now <= hist[..n][j].now;
      }
    }
  }

  lemma ResumesNotBefore(hist: seq<Call>, now: real)
    requires NeverResumes(Times(hist) + [now]) && hist != [] && hist[|hist| - 1].now < now
    ensures NonDecreasing(hist)
  {
    var ts, j := Times(hist) + [now], |hist| - 1;
    assert StepsForward(ts, j);
    forall i: nat | i < |hist| - 1 ensures hist[i].now <= hist[i + 1].now {
      assert !StepsBack(ts, i);
    }
    NoStepBack(hist);
  }

  /** Where the run allows a call, deleting denied calls before it keeps every level: either the clock has
      not stepped back yet, or nothing refilled since, so that the calls since then were allowed too. */
  lemma {:induction false} DropKeepsAllowingLevels(specs: seq<BucketSpec>, hist: seq<Call>, dropped: set<nat>,
                                                   now: real)
    requires WellFormed(specs) && IsKeyRun(specs, hist) && OnlyDenied(hist, dropped)
    requires NeverResumes(Times(hist) + [now]) && Allows(specs, hist, now)
    ensures forall spec <- specs :: Level(spec, Drop(hist, dropped), now) == Level(spec, hist, now)
  {
    hide Refill, Level, NeverResumes, NonDecreasing;
    if hist == [] || hist[|hist| - 1].now < now {
      if hist == [] { assert NonDecreasing(hist) by { NoStepBack(hist); } } else { ResumesNotBefore(hist, now); }
      forall spec <- specs ensures Level(spec, Drop(hist, dropped), now) == Level(spec, hist, now) {
        DropKeepsLevel(spec, hist, dropped, now);
      }
    } else {
      var n := |hist| - 1;
      var init, last := hist[..n], hist[n];
      assert hist == init + [last];
      forall spec <- specs
        ensures Level(spec, hist, now) == Min(spec.capacity, Level(spec, init, last.now) - Debit(last))
        ensures Level(spec, Drop(init, dropped) + [last], now)
                == Min(spec.capacity, Level(spec, Drop(init, dropped), last.now) - Debit(last))
      {
        assert Refill(spec, 0.0) == 0.0 by { RefillAdds(spec, 0.0, 0.0); }
        LevelAfter(spec, init, last, now);
        LevelAfter(spec, Drop(init, dropped), last, now);
      }
      assert Allows(specs, init, last.now);
      KeyRunPrefix(specs, hist, n);
      TimesPrefix(hist, now);
      DropKeepsAllowingLevels(specs, init, dropped, last.now);
    }
  }

  lemma TimesPrefix(hist: seq<Call>, now: real)
    requires NeverResumes(Times(hist) + [now]) && hist != []
    ensures NeverResumes(Times(hist[..|hist| - 1]) + [hist[|hist| - 1].now]) && NeverResumes(Times(hist))
  {
    var all, init := Times(hist) + [now], Times(hist[..|hist| - 1]) + [hist[|hist| - 1].now];
    assert init == Times(hist);
    assert forall i :: 0 <= i < |init| ==> init[i] == all[i];
    assert forall i: nat :: StepsBack(init, i) ==> StepsBack(all, i);
    assert forall i: nat :: StepsForward(init, i) ==> StepsForward(all, i);
  }

  lemma {:induction false} DeniedLeaveNoTrace(specs: seq<BucketSpec>, hist: seq<Call>, dropped: set<nat>)
    requires WellFormed(specs) && IsKeyRun(specs, hist) && NeverResumes(Times(hist)) && OnlyDenied(hist, dropped)
    ensures IsKeyRun(specs, Drop(hist, dropped))
  {
    if hist != [] {
      hide Level, NeverResumes;
      var n := |hist| - 1;
      var init, last := hist[..n], hist[n];
      var kept := Drop(init, dropped);
      assert Times(hist) == Times(init) + [last.now];
      KeyRunPrefix(specs, hist, n);
      if init != [] { TimesPrefix(init, last.now); } else { assert NeverResumes(Times(init)) by { NoReadings(); } }
      DeniedLeaveNoTrace(specs, init, dropped);
      if n !in dropped {
        if Allows(specs, init, last.now) {
          DropKeepsAllowingLevels(specs, init, dropped, last.now);
        }
        forall spec <- specs ensures Level(spec, kept, last.now) <= Level(spec, init, last.now) {
          DropLowersLevel(spec, init, dropped, last.now);
        }
        assert Allows(specs, kept, last.now) <==> Allows(specs, init, last.now);
        RunOneMore(specs, kept, last);
      }
    }
  }

  lemma NoReadings()
    ensures NeverResumes([])
  {
  }

  // --- a trace ---

  /** The clock steps back at m, stands still from m + 1 to j, and steps forward at j. */
  ghost predicate IsTurn(ts: seq<real>, m: nat, j: nat) {
    && m < j
    && StepsBack(ts, m)
    && StepsForward(ts, j)
    && forall k :: m < k < j ==> !StepsBack(ts, k) && !StepsForward(ts, k)
  }

  lemma {:induction false} FindTurn(ts: seq<real>, i: nat, k: nat) returns (m: nat, j: nat)
    requires i < k && StepsBack(ts, i) && StepsForward(ts, k)
    ensures IsTurn(ts, m, j)
    decreases k - i
  {
    hide StepsBack, StepsForward;
    if n: nat :| i < n < k && StepsBack(ts, n) {
      m, j := FindTurn(ts, n, k);
    } else if n: nat :| i < n < k && StepsForward(ts, n) {
      m, j := FindTurn(ts, i, n);
    } else {
      m, j := i, k;
    }
  }

  lemma StepsBackThenForward(ts: seq<real>) returns (i: nat, k: nat)
    requires !NeverResumes(ts)
    ensures i < k && StepsBack(ts, i) && StepsForward(ts, k)
  {
    i, k :| i < k && StepsBack(ts, i) && StepsForward(ts, k);
  }

  /** The limiter's run on these clock readings. */
  ghost function RunOf(specs: seq<BucketSpec>, ts: seq<real>): seq<Call> {
    if ts == [] then [] else
      var n := |ts| - 1;
      var init := RunOf(specs, ts[..n]);
      init + [Call(ts[n], Allows(specs, init, ts[n]))]
  }

  lemma {:induction false} RunOfIsRun(specs: seq<BucketSpec>, ts: seq<real>)
    ensures IsKeyRun(specs, RunOf(specs, ts)) && Times(RunOf(specs, ts)) == ts
  {
    if ts != [] {
      hide Allows, IsKeyRun;
      var n := |ts| - 1;
      RunOfIsRun(specs, ts[..n]);
      var init := RunOf(specs, ts[..n]);
      var last := Call(ts[n], Allows(specs, init, ts[n]));
      RunOneMore(specs, init, last);
      assert Times(init + [last]) == Times(init) + [ts[n]];
    } else {
      assert IsKeyRun(specs, []) by { NoCalls(specs); }
    }
  }

  lemma NoCalls(specs: seq<BucketSpec>)
    ensures IsKeyRun(specs, [])
  {
  }

  /** Sum of the forward clock steps up to reading n. */
  function Forward(ts: seq<real>, n: nat): real
    requires n < |ts|
  {
    ForwardTime(seq(n, i requires 0 <= i < n => Call(ts[i], false)), 0, ts[n])
  }

  lemma ForwardStep(ts: seq<real>, n: nat)
    requires n < |ts| - 1
    ensures Forward(ts, n + 1) == Forward(ts, n) + Max(0.0, ts[n + 1] - ts[n])
  {
    var calls := seq(n + 1, i requires 0 <= i < n + 1 => Call(ts[i], false));
    assert calls[..n] == seq(n, i requires 0 <= i < n => Call(ts[i], false));
  }

  lemma {:induction false} ForwardGrows(ts: seq<real>, n: nat, m: nat)
    requires n <= m < |ts|
    ensures 0.0 <= Forward(ts, n) <= Forward(ts, m)
  {
    if m != 0 {
      ForwardStep(ts, m - 1);
      ForwardGrows(ts, if n < m then n else m - 1, m - 1);
    }
  }

  lemma {:induction false} ForwardStandsStill(ts: seq<real>, m: nat, j: nat, k: nat)
    requires IsTurn(ts, m, j) && m <= k <= j
    ensures Forward(ts, k) == Forward(ts, m)
  {
    if m < k {
      ForwardStep(ts, k - 1);
      ForwardStandsStill(ts, m, j, k - 1);
      assert m < k - 1 ==> !StepsForward(ts, k - 1);
    }
  }

  /** What call k leaves in the bucket. */
  function Left(spec: BucketSpec, hist: seq<Call>, k: nat): real
    requires k < |hist|
  {
    Level(spec, hist[..k], hist[k].now) - Debit(hist[k])
  }

  lemma LevelFromLeft(spec: BucketSpec, hist: seq<Call>, k: nat, now: real)
    requires k < |hist|
    ensures Level(spec, hist[..k + 1], now)
            == Min(spec.capacity, Left(spec, hist, k) + Refill(spec, Max(0.0, now - hist[k].now)))
  {
    assert hist[..k + 1][..k] == hist[..k];
  }

  /** With room for one token, the first call empties the bucket and the forward steps refill it; until
      they amount to a token every call is denied. */
  lemma {:induction false} DeniedUntilRefilled(spec: BucketSpec, hist: seq<Call>, k: nat)
    requires spec.capacity == 1.0 && 0.0 < spec.refillRate && IsKeyRun([spec], hist) && k < |hist|
    requires Refill(spec, Forward(Times(hist), k)) < 1.0
    ensures Left(spec, hist, k) == Refill(spec, Forward(Times(hist), k))
    ensures hist[k].allowed <==> k == 0
  {
    hide Refill, Forward, IsKeyRun, Level;
    var ts := Times(hist);
    AllowedByOne(spec, hist, k);
    if k == 0 {
      assert Forward(ts, 0) == 0.0 by { ForwardAtStart(ts); }
      assert Refill(spec, 0.0) == 0.0 by { RefillAdds(spec, 0.0, 0.0); }
      assert Level(spec, hist[..0], hist[0].now) == 1.0 by { EmptyHistory(spec, hist[0].now); }
    } else {
      ForwardStep(ts, k - 1);
      ForwardGrows(ts, k - 1, k);
      RefillGrows(spec, Forward(ts, k - 1), Forward(ts, k));
      DeniedUntilRefilled(spec, hist, k - 1);
      LevelFromLeft(spec, hist, k - 1, hist[k].now);
      RefillAdds(spec, Forward(ts, k - 1), Max(0.0, ts[k] - ts[k - 1]));
    }
  }

  lemma EmptyHistory(spec: BucketSpec, now: real)
    ensures Level(spec, [], now) == spec.capacity
  {
  }

  lemma ForwardAtStart(ts: seq<real>)
    requires ts != []
    ensures Forward(ts, 0) == 0.0
  {
  }

  lemma AllowedByOne(spec: BucketSpec, hist: seq<Call>, k: nat)
    requires IsKeyRun([spec], hist) && k < |hist|
    ensures hist[k].allowed <==> 1.0 <= Level(spec, hist[..k], hist[k].now)
  {
    hide Level;
    assert spec in [spec];
    assert hist[k].allowed <==> Allows([spec], hist[..k], hist[k].now);
  }

  lemma {:induction false} DropRunAt(specs: seq<BucketSpec>, hist: seq<Call>, dropped: set<nat>, n: nat)
    requires IsKeyRun(specs, Drop(hist, dropped)) && n < |hist| && n !in dropped
    ensures hist[n].allowed <==> Allows(specs, Drop(hist[..n], dropped), hist[n].now)
    decreases |hist|
  {
    hide Level;
    var last := |hist| - 1;
    var kept, all := Drop(hist[..last], dropped), Drop(hist, dropped);
    assert all[..|kept|] == kept;
    if n < last {
      KeyRunPrefix(specs, all, |kept|);
      assert hist[..last][..n] == hist[..n];
      DropRunAt(specs, hist[..last], dropped, n);
    }
  }

  /** The positions from m + 1 to j. */
  function Stretch(m: nat, j: nat): (s: set<nat>)
    ensures forall k: nat :: k in s <==> m < k <= j
  {
    if j <= m then {} else Stretch(m, j - 1) + {j}
  }

  lemma {:induction false} DropStretch(hist: seq<Call>, dropped: set<nat>, m: nat, j: nat)
    requires m <= j <= |hist| && forall k: nat :: k < j ==> (k in dropped <==> m <= k)
    ensures Drop(hist[..j], dropped) == hist[..m]
    decreases j
  {
    if j != 0 {
      assert hist[..j][..j - 1] == hist[..j - 1];
      DropStretch(hist, dropped, if m < j then m else j - 1, j - 1);
    }
  }

  /** If the clock resumes after a step back, one bucket with room for one token, refilled in just the time
      that the run's forward steps amount to, tells the difference: the denied calls after the step back
      moved its timestamp back, and without them the time they covered twice refills it only once. */
  lemma DeniedLeaveATrace(ts: seq<real>) returns (specs: seq<BucketSpec>, hist: seq<Call>, dropped: set<nat>)
    requires !NeverResumes(ts)
    ensures WellFormed(specs) && IsKeyRun(specs, hist) && Times(hist) == ts && OnlyDenied(hist, dropped)
    ensures !IsKeyRun(specs, Drop(hist, dropped))
  {
    hide NeverResumes, IsKeyRun, Forward, Level, Drop, RunOf;
    var i, k := StepsBackThenForward(ts);
    var m, j := FindTurn(ts, i, k);
    var before, step := Forward(ts, m), ts[j + 1] - ts[j];
    ForwardGrows(ts, 0, m);
    var spec := BucketSpec("b", 1.0, 1.0 / (before + step));
    specs := [spec];
    hist := RunOf(specs, ts);
    RunOfIsRun(specs, ts);
    dropped := Stretch(m, j);
    FullAfter(spec, before + step);
    forall k: nat | k <= j
      ensures Left(spec, hist, k) == Refill(spec, Forward(ts, k)) && (hist[k].allowed <==> k == 0)
    {
      ForwardGrows(ts, k, j);
      ForwardStandsStill(ts, m, j, j);
      NotFullBefore(spec, Forward(ts, k), before + step);
      DeniedUntilRefilled(spec, hist, k);
    }
    assert hist[j + 1].allowed && !Allows(specs, hist[..m + 1], hist[j + 1].now) by {
      hide Refill;
      assert spec in specs;
      AllowedByOne(spec, hist, j + 1);
      LevelFromLeft(spec, hist, j, hist[j + 1].now);
      LevelFromLeft(spec, hist, m, hist[j + 1].now);
      ForwardStandsStill(ts, m, j, j);
      ForwardStandsStill(ts, m, j, m + 1);
      StandsStill(ts, m, j, j);
      var later := Max(0.0, ts[j + 1] - ts[m]);
      RefillAdds(spec, before, step);
      RefillAdds(spec, before, later);
      NotFullBefore(spec, before + later, before + step);
    }
    if IsKeyRun(specs, Drop(hist, dropped)) {
      DropRunAt(specs, hist, dropped, j + 1);
      DropStretch(hist, dropped, m + 1, j + 1);
    }
  }

  lemma {:induction false} StandsStill(ts: seq<real>, m: nat, j: nat, k: nat)
    requires IsTurn(ts, m, j) && m < k <= j
    ensures ts[k] < ts[m]
  {
    if m + 1 < k {
      StandsStill(ts, m, j, k - 1);
      assert !StepsForward(ts, k - 1);
    }
  }

  lemma FullAfter(spec: BucketSpec, time: real)
    requires 0.0 < time && spec.refillRate == 1.0 / time
    ensures Refill(spec, time) == 1.0
  {
  }

  lemma NotFullBefore(spec: BucketSpec, elapsed: real, time: real)
    requires 0.0 < time && spec.refillRate == 1.0 / time && elapsed < time
    ensures Refill(spec, elapsed) < 1.0
  {
    assert elapsed * spec.refillRate < time * spec.refillRate;
  }

  /** The smallest such case: the denied call at time 0 moves the bucket's timestamp back, and the time from
      0 to 1 refills it a second time. */
  lemma DeniedLeaveATraceWhenTheClockStepsBack()
    ensures var spec := BucketSpec("b", 1.0, 1.0);
            var hist := [Call(1.0, true), Call(0.0, false), Call(1.0, true)];
            IsKeyRun([spec], hist) && !IsKeyRun([spec], Drop(hist, {1}))
  {
    var spec := BucketSpec("b", 1.0, 1.0);
    var hist := [Call(1.0, true), Call(0.0, false), Call(1.0, true)];
    assert hist[..0] == [] && hist[..1] == [hist[0]] && hist[..2] == [hist[0], hist[1]];
    assert hist[..2][..1] == [hist[0]] && hist[..1][..0] == [];
    assert Level(spec, hist[..1], 0.0) == 0.0;
    assert Level(spec, hist[..2], 1.0) == 1.0;
    assert Drop(hist, {1}) == [hist[0], hist[2]] by {
      assert Drop(hist[..1], {1}) == [hist[0]];
      assert Drop(hist[..2], {1}) == [hist[0]];
    }
    assert [hist[0], hist[2]][..1] == [hist[0]];
    assert Level(spec, [hist[0]], 1.0) == 0.0;
    assert !Allows([spec], [hist[0]], 1.0) by { assert spec in [spec]; }
    forall i | 0 <= i < 3 ensures hist[i].allowed <==> Allows([spec], hist[..i], hist[i].now) {
      assert spec in [spec];
    }
  }
}
