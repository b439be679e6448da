/** The thumbnail pass: a process-wide gate in front of each call's own gate, downloads that interleave
    behind both, a deadline for each call, and a batch that keeps whatever landed. */
module ImageFetch {
  import opened Wrappers
  import opened ImageDownload

  const MAX_IMAGES := 20
  const CONCURRENCY: nat := 6
  const MAX_CONCURRENT_FETCHES: nat := 12

  // --- the two gates ---

  type CallId = nat

  /** Where one image is: waiting for its call's gate, holding that and waiting for the process-wide
      gate, downloading or decoding behind both gates, or done. */
  datatype Phase = Queued | HoldsCall | HoldsBoth(download: Download) | Ended(result: Result)

  datatype Task = Task(call: CallId, url: string, phase: Phase)

  /** Free permits of the process-wide gate and of each call's gate, the URLs each call wants, and the
      images of all calls. */
  datatype State = State(globalFree: nat, callFree: seq<nat>, wanted: seq<seq<string>>, tasks: seq<Task>)

  /** The world each image's download sees, and the byte ceiling. */
  datatype Env = Env(webs: nat -> Web, maxBytes: nat)

  /** One step of one image, or a new call with its URLs. `Interrupt` is the call's deadline, a fault or a
      cancellation, which can strike in any phase. */
  datatype Step =
    | NewCall(urls: seq<string>)
    | EnterCall(i: nat)
    | EnterGlobal(i: nat)
    | Event(i: nat)
    | Interrupt(i: nat, reason: Result)

  const INIT := State(MAX_CONCURRENT_FETCHES, [], [], [])

  function Wanted(urls: seq<string>): seq<string> {
    var named := NonEmpty(urls);
    if |named| <= MAX_IMAGES then named else named[..MAX_IMAGES]
  }

  /** The first 20 of the non-empty URLs, or all of them if there are fewer, in order. */
  lemma WantedAreTheFirst(urls: seq<string>) returns (positions: seq<nat>)
    ensures AreKept(positions, |urls|, NonEmptyAt(urls))
    ensures |Wanted(urls)| == if |positions| <= 20 then |positions| else 20
    ensures forall k :: 0 <= k < |Wanted(urls)| ==>
              positions[k] < |urls| && Wanted(urls)[k] == urls[positions[k]]
  {
    positions := NonEmptyPositions(urls, |urls|);
    assert urls[..|urls|] == urls;
  }

  ghost predicate Enabled(s: State, step: Step) {
    match step
    case NewCall(_) => true
    case EnterCall(i) =>
      && i < |s.tasks| && s.tasks[i].phase.Queued?
      && s.tasks[i].call < |s.callFree| && 0 < s.callFree[s.tasks[i].call]
    case EnterGlobal(i) => i < |s.tasks| && s.tasks[i].phase.HoldsCall? && 0 < s.globalFree
    case Event(i) => i < |s.tasks| && s.tasks[i].phase.HoldsBoth?
    case Interrupt(i, reason) => i < |s.tasks| && !s.tasks[i].phase.Ended? && !reason.Returned?
  }

  function Enqueue(call: CallId, urls: seq<string>): seq<Task> {
    seq(|urls|, k requires 0 <= k < |urls| => Task(call, urls[k], Queued))
  }

  /** An image ends and gives back what its phase holds. */
  function End(s: State, i: nat, result: Result): State
    requires i < |s.tasks|
  {
    var task := s.tasks[i];
    State(
      if task.phase.HoldsBoth? then s.globalFree + 1 else s.globalFree,
      if (task.phase.HoldsBoth? || task.phase.HoldsCall?) && task.call < |s.callFree|
      then s.callFree[task.call := s.callFree[task.call] + 1] else s.callFree,
      s.wanted,
      s.tasks[i := task.(phase := Ended(result))])
  }

  ghost function Next(s: State, step: Step, env: Env): State
    requires Enabled(s, step)
  {
    match step
    case NewCall(urls) =>
      s.(callFree := s.callFree + [CONCURRENCY], wanted := s.wanted + [Wanted(urls)],
         tasks := s.tasks + Enqueue(|s.callFree|, Wanted(urls)))
    case EnterCall(i) =>
      var call := s.tasks[i].call;
      s.(callFree := s.callFree[call := s.callFree[call] - 1], tasks := s.tasks[i := s.tasks[i].(phase := HoldsCall)])
    case EnterGlobal(i) =>
      s.(globalFree := s.globalFree - 1,
         tasks := s.tasks[i := s.tasks[i].(phase := HoldsBoth(Requesting([], s.tasks[i].url)))])
    case Event(i) =>
      (match Advance(env.webs(i), env.maxBytes, s.tasks[i].phase.download)
       case Going(download) => s.(tasks := s.tasks[i := s.tasks[i].(phase := HoldsBoth(download))])
       case Done(result) => End(s, i, result))
    case Interrupt(i, reason) => End(s, i, reason)
  }

  // --- permits and bytes, counted over all images ---

  function GlobalHolders(tasks: seq<Task>): nat {
    if tasks == [] then 0
    else GlobalHolders(tasks[..|tasks| - 1]) + GlobalWeight(tasks[|tasks| - 1])
  }

  function GlobalWeight(task: Task): nat { if task.phase.HoldsBoth? then 1 else 0 }

  function CallHolders(tasks: seq<Task>, call: CallId): nat {
    if tasks == [] then 0
    else CallHolders(tasks[..|tasks| - 1], call) + CallWeight(tasks[|tasks| - 1], call)
  }

  function CallWeight(task: Task, call: CallId): nat {
    if task.call == call && (task.phase.HoldsCall? || task.phase.HoldsBoth?) then 1 else 0
  }

  /** Body bytes received behind the gates, each counted once. */
  function BytesReceived(tasks: seq<Task>): nat {
    if tasks == [] then 0
    else BytesReceived(tasks[..|tasks| - 1]) + ReceivedBy(tasks[|tasks| - 1])
  }

  function ReceivedBy(task: Task): nat { if task.phase.HoldsBoth? then Received(task.phase.download) else 0 }

  /** Body bytes in memory behind the gates between two steps, each copy counted. */
  function BytesResident(tasks: seq<Task>): nat {
    if tasks == [] then 0
    else BytesResident(tasks[..|tasks| - 1]) + ResidentFor(tasks[|tasks| - 1])
  }

  function ResidentFor(task: Task): nat { if task.phase.HoldsBoth? then Resident(task.phase.download) else 0 }

  /** The images of one call, in the order of its URLs. */
  function ImagesOf(tasks: seq<Task>, call: CallId): (images: seq<nat>)
    ensures forall k :: 0 <= k < |images| ==> images[k] < |tasks| && tasks[images[k]].call == call
  {
    if tasks == [] then [] else
      var n := |tasks| - 1;
      var earlier := ImagesOf(tasks[..n], call);
      if tasks[n].call == call then earlier + [n] else earlier
  }

  function UrlsOf(tasks: seq<Task>, call: CallId): seq<string> {
    if tasks == [] then [] else
      var last := tasks[|tasks| - 1];
      var earlier := UrlsOf(tasks[..|tasks| - 1], call);
      if last.call == call then earlier + [last.url] else earlier
  }

  /** A download is where the web's answers so far have led it, and an image that ended without an
      interruption ended with what its URL comes to. */
  ghost predicate TaskInv(env: Env, i: nat, task: Task) {
    match task.phase
    case HoldsBoth(download) => DownloadInv(env.webs(i), task.url, env.maxBytes, download)
    case Ended(result) => result.Returned? ==> IsResult(env.webs(i), task.url, env.maxBytes, result)
    case _ => true
  }

  ghost predicate PermitsInv(s: State) {
    && s.globalFree + GlobalHolders(s.tasks) == MAX_CONCURRENT_FETCHES
    && (forall call: nat :: call < |s.callFree| ==> s.callFree[call] + CallHolders(s.tasks, call) == CONCURRENCY)
    && (forall task <- s.tasks :: task.call < |s.callFree|)
  }

  ghost predicate TasksInv(s: State, env: Env) {
    forall i: nat :: i < |s.tasks| ==> TaskInv(env, i, s.tasks[i])
  }

  ghost predicate UrlsInv(s: State) {
    && |s.wanted| == |s.callFree|
    && forall call: nat :: call < |s.wanted| ==> UrlsOf(s.tasks, call) == s.wanted[call]
  }

  ghost predicate Inv(s: State, env: Env) { PermitsInv(s) && TasksInv(s, env) && UrlsInv(s) }

  lemma {:induction false} CountsAfterUpdate(tasks: seq<Task>, i: nat, task: Task, call: CallId)
    requires i < |tasks|
    ensures GlobalHolders(tasks[i := task]) == GlobalHolders(tasks) - GlobalWeight(tasks[i]) + GlobalWeight(task)
    ensures CallHolders(tasks[i := task], call)
            == CallHolders(tasks, call) - CallWeight(tasks[i], call) + CallWeight(task, call)
  {
    var n := |tasks| - 1;
    if i < n {
      CountsAfterUpdate(tasks[..n], i, task, call);
      assert tasks[i := task][..n] == tasks[..n][i := task];
    } else {
      assert tasks[i := task][..n] == tasks[..n];
    }
  }

  lemma EnqueueOneMore(tasks: seq<Task>, newCall: CallId, urls: seq<string>)
    requires urls != []
    ensures var n := |urls| - 1;
            tasks + Enqueue(newCall, urls)
            == (tasks + Enqueue(newCall, urls[..n])) + [Task(newCall, urls[n], Queued)]
  {
  }

  lemma CountsOneMore(tasks: seq<Task>, task: Task, call: CallId)
    ensures GlobalHolders(tasks + [task]) == GlobalHolders(tasks) + GlobalWeight(task)
    ensures CallHolders(tasks + [task], call) == CallHolders(tasks, call) + CallWeight(task, call)
  {
    assert (tasks + [task])[..|tasks|] == tasks;
  }

  lemma {:induction false} CountsAfterEnqueue(tasks: seq<Task>, newCall: CallId, urls: seq<string>, call: CallId)
    ensures GlobalHolders(tasks + Enqueue(newCall, urls)) == GlobalHolders(tasks)
    ensures CallHolders(tasks + Enqueue(newCall, urls), call) == CallHolders(tasks, call)
    decreases |urls|
  {
    hide GlobalHolders, CallHolders;
    if urls == [] {
      assert tasks + Enqueue(newCall, urls) == tasks;
    } else {
      hide Enqueue;
      var n := |urls| - 1;
      EnqueueOneMore(tasks, newCall, urls);
      CountsAfterEnqueue(tasks, newCall, urls[..n], call);
      CountsOneMore(tasks + Enqueue(newCall, urls[..n]), Task(newCall, urls[n], Queued), call);
    }
  }

  lemma {:induction false} NoHolders(tasks: seq<Task>, call: CallId)
    requires forall task <- tasks :: task.call != call
    ensures CallHolders(tasks, call) == 0
  {
    if tasks != [] {
      var n := |tasks| - 1;
      assert tasks[n] in tasks && forall task <- tasks[..n] :: task in tasks;
      NoHolders(tasks[..n], call);
    }
  }

  lemma PermitsAfterNewCall(s: State, urls: seq<string>)
    requires PermitsInv(s)
    ensures PermitsInv(s.(callFree := s.callFree + [CONCURRENCY], tasks := s.tasks + Enqueue(|s.callFree|, urls)))
  {
    hide GlobalHolders, CallHolders;
    var newCall := |s.callFree|;
    var after := s.(callFree := s.callFree + [CONCURRENCY], tasks := s.tasks + Enqueue(newCall, urls));
    NoHolders(s.tasks, newCall);
    CountsAfterEnqueue(s.tasks, newCall, urls, newCall);
    forall call: nat | call < |after.callFree|
      ensures after.callFree[call] + CallHolders(after.tasks, call) == CONCURRENCY
    {
      CountsAfterEnqueue(s.tasks, newCall, urls, call);
    }
  }

  /** One image takes or gives back permits, and both gates' counts change by as much. */
  lemma PermitsAfterUpdate(s: State, i: nat, task: Task, after: State)
    requires PermitsInv(s) && i < |s.tasks| && task.call == s.tasks[i].call
    requires after.tasks == s.tasks[i := task] && |after.callFree| == |s.callFree|
    requires after.globalFree + GlobalWeight(task) == s.globalFree + GlobalWeight(s.tasks[i])
    requires forall call: nat :: call < |s.callFree| ==>
               after.callFree[call] + CallWeight(task, call) == s.callFree[call] + CallWeight(s.tasks[i], call)
    ensures PermitsInv(after)
  {
    hide GlobalHolders, CallHolders, GlobalWeight, CallWeight;
    assert s.tasks[i] in s.tasks;
    CountsAfterUpdate(s.tasks, i, task, 0);
    forall call: nat | call < |after.callFree|
      ensures after.callFree[call] + CallHolders(after.tasks, call) == CONCURRENCY
    {
      CountsAfterUpdate(s.tasks, i, task, call);
    }
    forall other <- after.tasks ensures other.call < |after.callFree| {
      assert other == task || other in s.tasks;
    }
  }

  lemma PermitsAfterEnd(s: State, i: nat, result: Result)
    requires PermitsInv(s) && i < |s.tasks| && !s.tasks[i].phase.Ended?
    ensures PermitsInv(End(s, i, result))
  {
    hide GlobalHolders, CallHolders;
    assert s.tasks[i] in s.tasks;
    PermitsAfterUpdate(s, i, s.tasks[i].(phase := Ended(result)), End(s, i, result));
  }

  lemma PermitsInvHolds(s: State, step: Step, env: Env)
    requires PermitsInv(s) && Enabled(s, step)
    ensures PermitsInv(Next(s, step, env))
  {
    hide GlobalHolders, CallHolders, Wanted, Advance, PermitsInv, End;
    var after := Next(s, step, env);
    match step
    case NewCall(urls) =>
      PermitsAfterNewCall(s, Wanted(urls));
      SamePermits(after.(wanted := s.wanted), after);
    case EnterCall(i) => PermitsAfterUpdate(s, i, after.tasks[i], after);
    case EnterGlobal(i) => PermitsAfterUpdate(s, i, after.tasks[i], after);
    case Event(i) =>
      match Advance(env.webs(i), env.maxBytes, s.tasks[i].phase.download) {
        case Going(_) => PermitsAfterUpdate(s, i, after.tasks[i], after);
        case Done(result) => PermitsAfterEnd(s, i, result);
      }
    case Interrupt(i, reason) => PermitsAfterEnd(s, i, reason);
  }

  lemma SamePermits(s: State, t: State)
    requires PermitsInv(s) && t == s.(wanted := t.wanted)
    ensures PermitsInv(t)
  {
  }

  lemma TasksInvHolds(s: State, step: Step, env: Env)
    requires TasksInv(s, env) && Enabled(s, step)
    ensures TasksInv(Next(s, step, env), env)
  {
    hide Wanted, Advance, DownloadInv, IsResult;
    if step.EnterGlobal? {
      StartsRight(env.webs(step.i), s.tasks[step.i].url, env.maxBytes);
    } else if step.Event? {
      assert TaskInv(env, step.i, s.tasks[step.i]);
      AdvanceIsSound(env.webs(step.i), s.tasks[step.i].url, env.maxBytes, s.tasks[step.i].phase.download);
    }
  }

  lemma StartsRight(web: Web, url: string, maxBytes: nat)
    ensures DownloadInv(web, url, maxBytes, Requesting([], url))
  {
  }

  lemma {:induction false} UrlsAfterUpdate(tasks: seq<Task>, i: nat, task: Task, call: CallId)
    requires i < |tasks| && task.call == tasks[i].call && task.url == tasks[i].url
    ensures UrlsOf(tasks[i := task], call) == UrlsOf(tasks, call)
  {
    var n := |tasks| - 1;
    if i < n {
      UrlsAfterUpdate(tasks[..n], i, task, call);
      assert tasks[i := task][..n] == tasks[..n][i := task];
    } else {
      assert tasks[i := task][..n] == tasks[..n];
    }
  }

  lemma UrlsOneMore(tasks: seq<Task>, task: Task, call: CallId)
    ensures UrlsOf(tasks + [task], call) == UrlsOf(tasks, call) + if task.call == call then [task.url] else []
  {
    assert (tasks + [task])[..|tasks|] == tasks;
  }

  lemma {:induction false} UrlsAfterEnqueue(tasks: seq<Task>, newCall: CallId, urls: seq<string>, call: CallId)
    ensures UrlsOf(tasks + Enqueue(newCall, urls), call) == UrlsOf(tasks, call) + if call == newCall then urls else []
    decreases |urls|
  {
    hide UrlsOf;
    if urls == [] {
      assert tasks + Enqueue(newCall, urls) == tasks;
    } else {
      hide Enqueue;
      var n := |urls| - 1;
      EnqueueOneMore(tasks, newCall, urls);
      UrlsAfterEnqueue(tasks, newCall, urls[..n], call);
      UrlsOneMore(tasks + Enqueue(newCall, urls[..n]), Task(newCall, urls[n], Queued), call);
      assert urls == urls[..n] + [urls[n]];
    }
  }

  lemma {:induction false} NoUrls(tasks: seq<Task>, call: CallId)
    requires forall task <- tasks :: task.call != call
    ensures UrlsOf(tasks, call) == []
  {
    if tasks != [] {
      var n := |tasks| - 1;
      assert tasks[n] in tasks && forall task <- tasks[..n] :: task in tasks;
      NoUrls(tasks[..n], call);
    }
  }

  lemma {:induction false} UrlsOfImages(tasks: seq<Task>, call: CallId)
    ensures |UrlsOf(tasks, call)| == |ImagesOf(tasks, call)|
    ensures forall k :: 0 <= k < |UrlsOf(tasks, call)| ==> UrlsOf(tasks, call)[k] == tasks[ImagesOf(tasks, call)[k]].url
  {
    if tasks != [] {
      UrlsOfImages(tasks[..|tasks| - 1], call);
    }
  }

  lemma UrlsInvHolds(s: State, step: Step, env: Env)
    requires PermitsInv(s) && UrlsInv(s) && Enabled(s, step)
    ensures UrlsInv(Next(s, step, env))
  {
    hide UrlsOf, Wanted, Advance;
    var after := Next(s, step, env);
    if step.NewCall? {
      var newCall, urls := |s.callFree|, Wanted(step.urls);
      NoUrls(s.tasks, newCall);
      forall call: nat | call <= newCall ensures UrlsOf(after.tasks, call) == after.wanted[call] {
        UrlsAfterEnqueue(s.tasks, newCall, urls, call);
      }
    } else {
      forall call: nat | call < |s.wanted| ensures UrlsOf(after.tasks, call) == UrlsOf(s.tasks, call) {
        UrlsAfterUpdate(s.tasks, step.i, after.tasks[step.i], call);
      }
    }
  }

  lemma InvHolds(s: State, step: Step, env: Env)
    requires Inv(s, env) && Enabled(s, step)
    ensures Inv(Next(s, step, env), env)
  {
    hide PermitsInv, TasksInv, UrlsInv, Next;
    PermitsInvHolds(s, step, env);
    TasksInvHolds(s, step, env);
    UrlsInvHolds(s, step, env);
  }

  ghost predicate IsRun(steps: seq<Step>, env: Env)
    decreases |steps|, 0
  {
    steps != [] ==>
      var init := steps[..|steps| - 1];
      IsRun(init, env) && Enabled(After(init, env), steps[|steps| - 1])
  }

  ghost function After(steps: seq<Step>, env: Env): State
    requires IsRun(steps, env)
    decreases |steps|, 1
  {
    if steps == [] then INIT else Next(After(steps[..|steps| - 1], env), steps[|steps| - 1], env)
  }

  lemma {:induction false} InvAlways(steps: seq<Step>, env: Env)
    requires IsRun(steps, env)
    ensures Inv(After(steps, env), env)
  {
    if steps != [] {
      hide Next, Inv;
      InvAlways(steps[..|steps| - 1], env);
      InvHolds(After(steps[..|steps| - 1], env), steps[|steps| - 1], env);
    }
  }

  ghost function BehindBoth(tasks: seq<Task>): set<nat> {
    set i: nat | i < |tasks| && tasks[i].phase.HoldsBoth?
  }

  ghost function BehindCall(tasks: seq<Task>, call: CallId): set<nat> {
    set i: nat | i < |tasks| && tasks[i].call == call && (tasks[i].phase.HoldsCall? || tasks[i].phase.HoldsBoth?)
  }

  lemma {:induction false} HoldersAreCounted(tasks: seq<Task>, call: CallId)
    ensures GlobalHolders(tasks) == |BehindBoth(tasks)| && CallHolders(tasks, call) == |BehindCall(tasks, call)|
  {
    if tasks == [] {
      assert BehindBoth(tasks) == {} && BehindCall(tasks, call) == {};
    } else {
      var n := |tasks| - 1;
      HoldersAreCounted(tasks[..n], call);
      OneMoreBehindBoth(tasks);
      OneMoreBehindCall(tasks, call);
      hide BehindBoth, BehindCall;
    }
  }

  lemma OneMoreBehindBoth(tasks: seq<Task>)
    requires tasks != []
    ensures var n := |tasks| - 1;
            |BehindBoth(tasks)| == |BehindBoth(tasks[..n])| + GlobalWeight(tasks[n])
  {
    var n := |tasks| - 1;
    var earlier := BehindBoth(tasks[..n]);
    assert n !in earlier;
    assert BehindBoth(tasks) == if tasks[n].phase.HoldsBoth? then earlier + {n} else earlier;
  }

  lemma OneMoreBehindCall(tasks: seq<Task>, call: CallId)
    requires tasks != []
    ensures var n := |tasks| - 1;
            |BehindCall(tasks, call)| == |BehindCall(tasks[..n], call)| + CallWeight(tasks[n], call)
  {
    var n := |tasks| - 1;
    var earlier := BehindCall(tasks[..n], call);
    assert n !in earlier;
    assert BehindCall(tasks, call) == if CallWeight(tasks[n], call) == 1 then earlier + {n} else earlier;
  }

  /** At every step of every interleaving of any number of calls: free permits plus holders are 12
      process-wide and 6 for each call. */
  lemma PermitsAreConserved(steps: seq<Step>, env: Env, call: CallId)
    requires IsRun(steps, env)
    ensures var s := After(steps, env);
            && s.globalFree + |BehindBoth(s.tasks)| == 12
            && (call < |s.callFree| ==> s.callFree[call] + |BehindCall(s.tasks, call)| == 6)
  {
    InvAlways(steps, env);
    HoldersAreCounted(After(steps, env).tasks, call);
  }

  lemma {:induction false} BytesFitTheGate(tasks: seq<Task>, maxBytes: nat)
    requires forall task <- tasks :: ReceivedBy(task) <= maxBytes
    ensures BytesReceived(tasks) <= GlobalHolders(tasks) * maxBytes
    ensures BytesResident(tasks) <= GlobalHolders(tasks) * (2 * maxBytes)
  {
    if tasks != [] {
      var n := |tasks| - 1;
      assert tasks[n] in tasks && forall task <- tasks[..n] :: task in tasks;
      BytesFitTheGate(tasks[..n], maxBytes);
      OneHolderMore(GlobalHolders(tasks[..n]), maxBytes);
      OneHolderMore(GlobalHolders(tasks[..n]), 2 * maxBytes);
    }
  }

  lemma OneHolderMore(holders: nat, m: nat)
    ensures (holders + 1) * m == holders * m + m
  {
  }

  lemma ReceivedIsBounded(s: State, env: Env)
    requires TasksInv(s, env)
    ensures forall task <- s.tasks :: ReceivedBy(task) <= env.maxBytes
  {
    hide Delivers, IsWalk, IsResult, Reached, Concat;
    forall task <- s.tasks ensures ReceivedBy(task) <= env.maxBytes {
      var i: nat :| i < |s.tasks| && s.tasks[i] == task;
      assert TaskInv(env, i, s.tasks[i]);
    }
  }

  /** The body bytes that gated downloads have received never exceed 12 * maxBytes, each byte counted once,
      whatever the calls and the web do. */
  lemma GatedBytesAreBounded(steps: seq<Step>, env: Env)
    requires IsRun(steps, env)
    ensures BytesReceived(After(steps, env).tasks) <= 12 * env.maxBytes
  {
    hide BytesReceived, BytesResident, GlobalHolders, Next, TaskInv, CallHolders;
    InvAlways(steps, env);
    var tasks := After(steps, env).tasks;
    ReceivedIsBounded(After(steps, env), env);
    BytesFitTheGate(tasks, env.maxBytes);
    ScaleUp(GlobalHolders(tasks), 12, env.maxBytes);
  }

  /** In memory they are up to 24 * maxBytes, because a body in the decoding pool is there twice. */
  lemma ResidentBytesAreBounded(steps: seq<Step>, env: Env)
    requires IsRun(steps, env)
    ensures BytesResident(After(steps, env).tasks) <= 24 * env.maxBytes
  {
    hide BytesReceived, BytesResident, GlobalHolders, Next, TaskInv, CallHolders;
    InvAlways(steps, env);
    var tasks := After(steps, env).tasks;
    ReceivedIsBounded(After(steps, env), env);
    BytesFitTheGate(tasks, env.maxBytes);
    ScaleUp(GlobalHolders(tasks), 12, 2 * env.maxBytes);
  }

  lemma {:induction false} ResidentAfterUpdate(tasks: seq<Task>, i: nat, task: Task)
    requires i < |tasks|
    ensures BytesResident(tasks[i := task]) == BytesResident(tasks) - ResidentFor(tasks[i]) + ResidentFor(task)
  {
    hide ResidentFor;
    var n := |tasks| - 1;
    if i < n {
      ResidentAfterUpdate(tasks[..n], i, task);
      assert tasks[i := task][..n] == tasks[..n][i := task];
    } else {
      assert tasks[i := task][..n] == tasks[..n];
    }
  }

  /** Body bytes in memory while image i handles its next event, the arriving chunk included. */
  function PeakAt(tasks: seq<Task>, i: nat): nat
    requires i < |tasks| && tasks[i].phase.HoldsBoth?
  {
    BytesResident(tasks) + Arriving(tasks[i].phase.download)
  }

  /** While a chunk is compared with the ceiling it is in memory too, however large it is; its download then
      holds its body only once. */
  lemma PeakIsBounded(steps: seq<Step>, env: Env, i: nat)
    requires IsRun(steps, env) && Enabled(After(steps, env), Event(i))
    ensures var tasks := After(steps, env).tasks;
            PeakAt(tasks, i) <= if tasks[i].phase.download.Streaming?
                                then 23 * env.maxBytes + Arriving(tasks[i].phase.download)
                                else 24 * env.maxBytes
  {
    hide BytesReceived, BytesResident, GlobalHolders, CallHolders, Next, TaskInv;
    ResidentBytesAreBounded(steps, env);
    InvAlways(steps, env);
    var tasks := After(steps, env).tasks;
    if tasks[i].phase.download.Streaming? {
      ReceivedIsBounded(After(steps, env), env);
      var idle := tasks[i].(phase := Queued);
      var others := tasks[i := idle];
      assert forall task <- others :: task in tasks || task == idle;
      CountsAfterUpdate(tasks, i, idle, 0);
      ResidentAfterUpdate(tasks, i, idle);
      BytesFitTheGate(others, env.maxBytes);
      ScaleUp(GlobalHolders(others), 11, 2 * env.maxBytes);
      assert tasks[i] in tasks && ResidentFor(tasks[i]) == ReceivedBy(tasks[i]);
    }
  }

  lemma ScaleUp(a: nat, b: nat, m: nat)
    requires a <= b
    ensures a * m <= b * m
  {
    assert b * m == a * m + (b - a) * m;
  }

  lemma {:induction false} EndedHoldNothing(tasks: seq<Task>, call: CallId)
    requires forall task <- tasks :: task.phase.Ended? || task.phase.Queued?
    ensures GlobalHolders(tasks) == 0 && CallHolders(tasks, call) == 0
  {
    if tasks != [] {
      var n := |tasks| - 1;
      assert tasks[n] in tasks && forall task <- tasks[..n] :: task in tasks;
      EndedHoldNothing(tasks[..n], call);
    }
  }

  /** Once every image has ended, by whatever exits, both gates are full again. */
  lemma GatesRefill(steps: seq<Step>, env: Env, call: CallId)
    requires IsRun(steps, env) && forall task <- After(steps, env).tasks :: task.phase.Ended?
    ensures var s := After(steps, env);
            s.globalFree == 12 && (call < |s.callFree| ==> s.callFree[call] == 6)
  {
    InvAlways(steps, env);
    EndedHoldNothing(After(steps, env).tasks, call);
  }

  lemma {:induction false} SomeGlobalHolder(tasks: seq<Task>) returns (i: nat)
    requires 0 < GlobalHolders(tasks)
    ensures i < |tasks| && tasks[i].phase.HoldsBoth?
  {
    var n := |tasks| - 1;
    i := n;
    if !tasks[n].phase.HoldsBoth? {
      i := SomeGlobalHolder(tasks[..n]);
    }
  }

  lemma {:induction false} SomeCallHolder(tasks: seq<Task>, call: CallId) returns (i: nat)
    requires 0 < CallHolders(tasks, call)
    ensures i < |tasks| && (tasks[i].phase.HoldsCall? || tasks[i].phase.HoldsBoth?)
  {
    var n := |tasks| - 1;
    i := n;
    if CallWeight(tasks[n], call) == 0 {
      i := SomeCallHolder(tasks[..n], call);
    }
  }

  /** The nested gates never deadlock: while an image is unfinished, one can enter a gate or go on with its
      download, which ends by itself, without any deadline having to strike. */
  lemma NeverStuck(steps: seq<Step>, env: Env, i: nat) returns (step: Step)
    requires IsRun(steps, env)
    requires i < |After(steps, env).tasks| && !After(steps, env).tasks[i].phase.Ended?
    ensures Enabled(After(steps, env), step) && (step.EnterCall? || step.EnterGlobal? || step.Event?)
  {
    hide Next, GlobalHolders, CallHolders;
    InvAlways(steps, env);
    var s := After(steps, env);
    var task := s.tasks[i];
    assert task in s.tasks;
    var holder := i;
    if task.phase.Queued? {
      if 0 < s.callFree[task.call] {
        return EnterCall(i);
      }
      holder := SomeCallHolder(s.tasks, task.call);
    }
    if s.tasks[holder].phase.HoldsCall? {
      if 0 < s.globalFree {
        return EnterGlobal(holder);
      }
      holder := SomeGlobalHolder(s.tasks);
    }
    return Event(holder);
  }

  // --- the bound on resident bytes is reached ---

  lemma Extend(steps: seq<Step>, env: Env, step: Step)
    requires IsRun(steps, env) && Enabled(After(steps, env), step)
    ensures IsRun(steps + [step], env) && After(steps + [step], env) == Next(After(steps, env), step, env)
  {
    assert (steps + [step])[..|steps + [step]| - 1] == steps;
  }

  const SIX_URLS := ["u", "u", "u", "u", "u", "u"]

  function TwoChunks(size: nat): seq<Bytes>
    requires 2 <= size
  {
    [seq(size - 1, _ => 0 as bv8), [0 as bv8]]
  }

  /** A web that answers every request with the same body. */
  function AlwaysBody(chunks: seq<Bytes>): Web {
    Web(_ => true, (_, _) => None, (_, _) => Body(chunks, Complete), _ => Unusable)
  }

  function OneWeb(web: Web, maxBytes: nat): Env { Env(_ => web, maxBytes) }

  /** Every image's body fills the ceiling in two chunks. */
  function TwoChunkEnv(size: nat): Env
    requires 2 <= size
  {
    OneWeb(AlwaysBody(TwoChunks(size)), size)
  }

  function WholeBody(size: nat): Bytes
    requires 2 <= size
  {
    TwoChunks(size)[0] + TwoChunks(size)[1]
  }

  /** Two calls with six images each, of which the first k wait for the decoding pool. */
  function Staged(size: nat, k: nat): State
    requires 2 <= size && k <= 12
  {
    State(12 - k, [if k < 6 then 6 - k else 0, if k < 6 then 6 else 12 - k], [SIX_URLS, SIX_URLS],
          StagedTasks(size, k, 12))
  }

  function StagedTasks(size: nat, k: nat, n: nat): (tasks: seq<Task>)
    requires 2 <= size
    ensures |tasks| == n
  {
    if n == 0 then [] else StagedTasks(size, k, n - 1) + [StagedTask(size, n - 1, n - 1 < k)]
  }

  lemma {:induction false} StagedTaskAt(size: nat, k: nat, n: nat)
    requires 2 <= size
    ensures forall i: nat :: i < n ==> StagedTasks(size, k, n)[i] == StagedTask(size, i, i < k)
  {
    if n != 0 {
      hide StagedTask;
      StagedTaskAt(size, k, n - 1);
    }
  }

  function StagedTask(size: nat, i: nat, encoding: bool): Task
    requires 2 <= size
  {
    Task(if i < 6 then 0 else 1, "u", if encoding then HoldsBoth(Encoding(WholeBody(size))) else Queued)
  }

  lemma StageNothing(size: nat) returns (steps: seq<Step>)
    requires 2 <= size
    ensures IsRun(steps, TwoChunkEnv(size)) && After(steps, TwoChunkEnv(size)) == Staged(size, 0)
  {
    var env := TwoChunkEnv(size);
    SixAreWanted();
    StagedTaskAt(size, 0, 12);
    hide Wanted, StagedTasks;
    steps := [];
    Extend(steps, env, NewCall(SIX_URLS));
    steps := steps + [NewCall(SIX_URLS)];
    assert After(steps, env) == State(12, [6], [SIX_URLS], Enqueue(0, SIX_URLS)) by {
      assert [] + Enqueue(0, SIX_URLS) == Enqueue(0, SIX_URLS);
    }
    Extend(steps, env, NewCall(SIX_URLS));
    steps := steps + [NewCall(SIX_URLS)];
    var tasks := Enqueue(0, SIX_URLS) + Enqueue(1, SIX_URLS);
    forall i: nat | i < 12 ensures tasks[i] == StagedTasks(size, 0, 12)[i] {
    }
    assert tasks == StagedTasks(size, 0, 12);
  }

  lemma SixAreWanted()
    ensures Wanted(SIX_URLS) == SIX_URLS
  {
    NonEmptyKeepsNonEmpty(SIX_URLS);
  }

  /** Image k holds its call's gate. */
  function Waiting(size: nat, k: nat): State
    requires 2 <= size && k < 12
  {
    State(12 - k, Staged(size, k + 1).callFree, [SIX_URLS, SIX_URLS],
          StagedTasks(size, k, 12)[k := Task(if k < 6 then 0 else 1, "u", HoldsCall)])
  }

  /** Image k is downloading. */
  function During(size: nat, k: nat, download: Download): State
    requires 2 <= size && k < 12
  {
    State(11 - k, Staged(size, k + 1).callFree, [SIX_URLS, SIX_URLS],
          StagedTasks(size, k + 1, 12)[k := Task(if k < 6 then 0 else 1, "u", HoldsBoth(download))])
  }

  lemma EntersGates(size: nat, k: nat)
    requires 2 <= size && k < 12
    ensures Enabled(Staged(size, k), EnterCall(k))
    ensures Next(Staged(size, k), EnterCall(k), TwoChunkEnv(size)) == Waiting(size, k)
    ensures Enabled(Waiting(size, k), EnterGlobal(k))
    ensures Next(Waiting(size, k), EnterGlobal(k), TwoChunkEnv(size)) == During(size, k, Requesting([], "u"))
  {
    StagedTaskAt(size, k, 12);
    StagedTaskAt(size, k + 1, 12);
    hide StagedTasks, WholeBody;
    var after := Next(Waiting(size, k), EnterGlobal(k), TwoChunkEnv(size));
    assert after.tasks == During(size, k, Requesting([], "u")).tasks;
  }

  lemma GoesOn(size: nat, k: nat, download: Download, further: Download)
    requires 2 <= size && k < 12
    requires Advance(TwoChunkEnv(size).webs(k), size, download) == Going(further)
    ensures Enabled(During(size, k, download), Event(k))
    ensures Next(During(size, k, download), Event(k), TwoChunkEnv(size)) == During(size, k, further)
  {
    hide StagedTasks, Advance;
    var after := Next(During(size, k, download), Event(k), TwoChunkEnv(size));
    assert after.tasks == During(size, k, further).tasks;
  }

  /** What a download from this web goes through. */
  function Course(size: nat): seq<Download>
    requires 2 <= size
  {
    var chunks := TwoChunks(size);
    [Requesting([], "u"),
     Streaming(["u"], chunks, Complete, 0, []),
     Streaming(["u"], chunks, Complete, 1, chunks[0]),
     Streaming(["u"], chunks, Complete, 2, WholeBody(size)),
     Encoding(WholeBody(size))]
  }

  lemma CourseIsTaken(size: nat, k: nat, n: nat)
    requires 2 <= size && n < 4
    ensures Advance(TwoChunkEnv(size).webs(k), size, Course(size)[n]) == Going(Course(size)[n + 1])
  {
    assert [] + ["u"] == ["u"];
    assert [] + TwoChunks(size)[0] == TwoChunks(size)[0];
  }

  lemma StageOneMore(size: nat, k: nat, before: seq<Step>) returns (steps: seq<Step>)
    requires 2 <= size && k < 12
    requires IsRun(before, TwoChunkEnv(size)) && After(before, TwoChunkEnv(size)) == Staged(size, k)
    ensures IsRun(steps, TwoChunkEnv(size)) && After(steps, TwoChunkEnv(size)) == Staged(size, k + 1)
  {
    hide IsRun, After, Staged, Waiting, During, Course, Enabled, Next;
    var env := TwoChunkEnv(size);
    EntersGates(size, k);
    Extend(before, env, EnterCall(k));
    Extend(before + [EnterCall(k)], env, EnterGlobal(k));
    steps := before + [EnterCall(k)] + [EnterGlobal(k)];
    CourseEnds(size, k);
    for n := 0 to 4
      invariant IsRun(steps, env) && After(steps, env) == During(size, k, Course(size)[n])
    {
      CourseIsTaken(size, k, n);
      GoesOn(size, k, Course(size)[n], Course(size)[n + 1]);
      Extend(steps, env, Event(k));
      steps := steps + [Event(k)];
    }
  }

  lemma CourseEnds(size: nat, k: nat)
    requires 2 <= size && k < 12
    ensures |Course(size)| == 5 && Course(size)[0] == Requesting([], "u")
    ensures During(size, k, Course(size)[4]) == Staged(size, k + 1)
  {
    StagedTaskAt(size, k + 1, 12);
    hide StagedTasks, WholeBody;
    assert During(size, k, Course(size)[4]).tasks == Staged(size, k + 1).tasks;
  }

  lemma {:induction false} EqualShares(tasks: seq<Task>, share: nat)
    requires forall task <- tasks :: ResidentFor(task) == share
    ensures BytesResident(tasks) == |tasks| * share
  {
    if tasks != [] {
      var n := |tasks| - 1;
      assert tasks[n] in tasks && forall task <- tasks[..n] :: task in tasks;
      EqualShares(tasks[..n], share);
      OneHolderMore(n, share);
    }
  }

  /** The bound is reached for every ceiling: twelve images that fill it, all waiting for the decoding pool. */
  lemma ResidentBytesAreReached(maxBytes: nat) returns (steps: seq<Step>)
    requires 2 <= maxBytes
    ensures IsRun(steps, TwoChunkEnv(maxBytes))
    ensures BytesResident(After(steps, TwoChunkEnv(maxBytes)).tasks) == 24 * maxBytes
  {
    hide IsRun, After;
    steps := StageNothing(maxBytes);
    for k := 0 to 12
      invariant IsRun(steps, TwoChunkEnv(maxBytes)) && After(steps, TwoChunkEnv(maxBytes)) == Staged(maxBytes, k)
    {
      steps := StageOneMore(maxBytes, k, steps);
    }
    assert |WholeBody(maxBytes)| == maxBytes;
    StagedTaskAt(maxBytes, 12, 12);
    forall task <- Staged(maxBytes, 12).tasks ensures ResidentFor(task) == 2 * maxBytes {
      var i :| 0 <= i < 12 && task == Staged(maxBytes, 12).tasks[i];
      assert task == StagedTask(maxBytes, i, true);
    }
    EqualShares(Staged(maxBytes, 12).tasks, 2 * maxBytes);
  }

  ghost predicate BoundsResidentBytes(bound: nat, maxBytes: nat) {
    forall steps, env :: IsRun(steps, env) && env.maxBytes == maxBytes ==>
      BytesResident(After(steps, env).tasks) <= bound
  }

  /** So 24 * maxBytes, and nothing less, bounds the resident bytes of every run. */
  lemma ResidentBoundExactlyIf(bound: nat, maxBytes: nat)
    requires 2 <= maxBytes
    ensures BoundsResidentBytes(bound, maxBytes) <==> 24 * maxBytes <= bound
  {
    hide IsRun, After, BytesResident;
    var steps := ResidentBytesAreReached(maxBytes);
    assert TwoChunkEnv(maxBytes).maxBytes == maxBytes;
    if 24 * maxBytes <= bound {
      forall steps, env | IsRun(steps, env) && env.maxBytes == maxBytes
        ensures BytesResident(After(steps, env).tasks) <= bound
      {
        ResidentBytesAreBounded(steps, env);
      }
    }
  }

  // --- the batch ---

  datatype Batch = Batch(thumbnails: seq<Thumbnail>, requested: nat)

  predicate Landed(result: Result) { result.Returned? && result.thumbnail.Some? }

  function LandedAt(results: seq<Result>): nat -> bool { (i: nat) => i < |results| && Landed(results[i]) }

  /** The thumbnails of the results at these positions, which are all that landed, in order. */
  ghost predicate ShowsLanded(results: seq<Result>, thumbnails: seq<Thumbnail>, n: nat, positions: seq<nat>) {
    && AreKept(positions, n, LandedAt(results))
    && |thumbnails| == |positions|
    && forall k :: 0 <= k < |positions| ==>
         positions[k] < |results| && results[positions[k]] == Returned(Some(thumbnails[k]))
  }

  /** None stands for the cancellation raised on; otherwise one bad image costs one thumbnail, the order is
      kept, and something is missing exactly if some wanted image did not land. */
  ghost predicate IsBatch(results: seq<Result>, batch: Option<Batch>) {
    match batch
    case None => Cancelled in results
    case Some(batch) =>
      && Cancelled !in results
      && batch.requested == |results|
      && (exists positions :: ShowsLanded(results, batch.thumbnails, |results|, positions))
      && (|batch.thumbnails| < batch.requested <==> exists result <- results :: !Landed(result))
  }

  lemma ShowsOneMore(results: seq<Result>, thumbnails: seq<Thumbnail>, n: nat, positions: seq<nat>)
    requires n < |results| && ShowsLanded(results, thumbnails, n, positions)
    ensures Landed(results[n]) ==>
              ShowsLanded(results, thumbnails + [results[n].thumbnail.value], n + 1, positions + [n])
    ensures !Landed(results[n]) ==> ShowsLanded(results, thumbnails, n + 1, positions)
  {
    hide AreKept;
    KeepOneMore(positions, n, LandedAt(results));
  }

  method Collect(results: seq<Result>) returns (batch: Option<Batch>)
    ensures IsBatch(results, batch)
  {
    hide ShowsLanded;
    var thumbnails := [];
    ghost var positions: seq<nat> := [];
    NothingShown(results);
    for i := 0 to |results|
      invariant Cancelled !in results[..i]
      invariant ShowsLanded(results, thumbnails, i, positions) && |thumbnails| <= i
      invariant |thumbnails| < i <==> exists result <- results[..i] :: !Landed(result)
    {
      var result := results[i];
      assert results[..i + 1] == results[..i] + [result];
      ShowsOneMore(results, thumbnails, i, positions);
      match result
      case Cancelled => return None;
      case DeadlineExceeded =>
      case Fault =>
      case Returned(thumbnail) =>
        if thumbnail.Some? {
          thumbnails, positions := thumbnails + [thumbnail.value], positions + [i];
        }
    }
    assert results[..|results|] == results;
    return Some(Batch(thumbnails, |results|));
  }

  lemma NothingShown(results: seq<Result>)
    ensures ShowsLanded(results, [], 0, [])
  {
  }

  ghost predicate Finished(tasks: seq<Task>, call: CallId) {
    var images := ImagesOf(tasks, call);
    forall k :: 0 <= k < |images| ==> tasks[images[k]].phase.Ended?
  }

  /** How the images of a finished call ended, in the order of its URLs. */
  function ResultsOf(tasks: seq<Task>, call: CallId): seq<Result>
    requires Finished(tasks, call)
  {
    var images := ImagesOf(tasks, call);
    seq(|images|, k requires 0 <= k < |images| => tasks[images[k]].phase.result)
  }

  /** Image k of the call: what its URL comes to, unless something cut it short. */
  ghost predicate FollowsUrl(s: State, env: Env, call: CallId, k: nat, result: Result)
    requires call < |s.wanted| && k < |s.wanted[call]| && k < |ImagesOf(s.tasks, call)|
  {
    result.Returned? ==> IsResult(env.webs(ImagesOf(s.tasks, call)[k]), s.wanted[call][k], env.maxBytes, result)
  }

  /** From URLs to results: whatever other images and calls did, a finished call has one result for each
      URL it wants, in their order, and every one that was not cut short is what its URL comes to. */
  lemma ResultsFollowUrls(s: State, env: Env, call: CallId)
    requires Inv(s, env) && call < |s.wanted| && Finished(s.tasks, call)
    ensures |ResultsOf(s.tasks, call)| == |s.wanted[call]| == |ImagesOf(s.tasks, call)|
    ensures forall k: nat :: k < |s.wanted[call]| ==> FollowsUrl(s, env, call, k, ResultsOf(s.tasks, call)[k])
  {
    UrlsOfImages(s.tasks, call);
    hide IsResult, ImagesOf, UrlsOf;
    var images := ImagesOf(s.tasks, call);
    assert UrlsOf(s.tasks, call) == s.wanted[call];
    forall k: nat | k < |images| ensures FollowsUrl(s, env, call, k, ResultsOf(s.tasks, call)[k]) {
      assert TaskInv(env, images[k], s.tasks[images[k]]);
      assert UrlsOf(s.tasks, call)[k] == s.tasks[images[k]].url;
    }
  }

  /** The results of a finished call of any run: one for each URL, in their order, every landed image made
      of the body its URL delivers; and an image that is missing was cut short, or its URL delivers no body
      that encodes. */
  lemma BatchFollowsUrls(steps: seq<Step>, env: Env, call: CallId)
    requires IsRun(steps, env)
    requires var s := After(steps, env); call < |s.wanted| && Finished(s.tasks, call)
    ensures var s := After(steps, env);
            var results, images, wanted := ResultsOf(s.tasks, call), ImagesOf(s.tasks, call), s.wanted[call];
            && |results| == |images| == |wanted|
            && (forall k: nat :: k < |wanted| && Landed(results[k]) ==>
                  exists body :: Delivers(env.webs(images[k]), wanted[k], env.maxBytes, Delivered(body))
                                 && env.webs(images[k]).encode(body) == Image(results[k].thumbnail.value))
            && (forall k: nat, body ::
                  (&& k < |wanted| && results[k].Returned?
                   && Delivers(env.webs(images[k]), wanted[k], env.maxBytes, Delivered(body))
                   && env.webs(images[k]).encode(body).Image?) ==> Landed(results[k]))
  {
    InvAlways(steps, env);
    var s := After(steps, env);
    ResultsFollowUrls(s, env, call);
    hide Delivers, ImagesOf, After, Inv, ResultsOf, Finished;
    var results, images, wanted := ResultsOf(s.tasks, call), ImagesOf(s.tasks, call), s.wanted[call];
    forall k: nat | k < |wanted| && results[k].Returned?
      ensures Landed(results[k]) ==>
                exists body :: Delivers(env.webs(images[k]), wanted[k], env.maxBytes, Delivered(body))
                               && env.webs(images[k]).encode(body) == Image(results[k].thumbnail.value)
      ensures forall body ::
                (&& Delivers(env.webs(images[k]), wanted[k], env.maxBytes, Delivered(body))
                 && env.webs(images[k]).encode(body).Image?) ==> Landed(results[k])
    {
      assert FollowsUrl(s, env, call, k, results[k]);
      ResultMeans(env.webs(images[k]), wanted[k], env.maxBytes, results[k]);
    }
  }

  /** The URL delivers a body that encodes to this thumbnail. */
  ghost predicate EncodesTo(web: Web, url: string, maxBytes: nat, thumbnail: Thumbnail) {
    exists body :: Delivers(web, url, maxBytes, Delivered(body)) && web.encode(body) == Image(thumbnail)
  }

  /** The thumbnails belong to these positions among the wanted URLs, in their order. */
  ghost predicate ShowsUrls(s: State, env: Env, call: CallId, thumbnails: seq<Thumbnail>, positions: seq<nat>)
    requires call < |s.wanted|
  {
    var images, wanted := ImagesOf(s.tasks, call), s.wanted[call];
    && |images| == |wanted| && |positions| == |thumbnails|
    && (forall i, j :: 0 <= i < j < |positions| ==> positions[i] < positions[j])
    && forall k :: 0 <= k < |positions| ==>
         && positions[k] < |wanted|
         && EncodesTo(env.webs(images[positions[k]]), wanted[positions[k]], env.maxBytes, thumbnails[k])
  }

  /** From URLs to the batch: thumbnail k is made of what the k-th landed URL delivers, in URL order. */
  lemma BatchShowsUrls(s: State, env: Env, call: CallId, batch: Batch)
    requires Inv(s, env) && call < |s.wanted| && Finished(s.tasks, call)
    requires IsBatch(ResultsOf(s.tasks, call), Some(batch))
    ensures batch.requested == |s.wanted[call]|
    ensures exists positions :: ShowsUrls(s, env, call, batch.thumbnails, positions)
  {
    ResultsFollowUrls(s, env, call);
    hide Inv, Finished, ImagesOf, ResultsOf, IsResult, Delivers;
    var results, images, wanted := ResultsOf(s.tasks, call), ImagesOf(s.tasks, call), s.wanted[call];
    var positions :| ShowsLanded(results, batch.thumbnails, |results|, positions);
    forall k | 0 <= k < |positions|
      ensures EncodesTo(env.webs(images[positions[k]]), wanted[positions[k]], env.maxBytes, batch.thumbnails[k])
    {
      var i := positions[k];
      assert FollowsUrl(s, env, call, i, results[i]);
      ResultMeans(env.webs(images[i]), wanted[i], env.maxBytes, results[i]);
    }
    assert ShowsUrls(s, env, call, batch.thumbnails, positions);
  }

  lemma ResultMeans(web: Web, url: string, maxBytes: nat, result: Result)
    requires IsResult(web, url, maxBytes, result) && result.Returned?
    ensures Landed(result) ==>
              exists body ::
                Delivers(web, url, maxBytes, Delivered(body)) && web.encode(body) == Image(result.thumbnail.value)
    ensures forall body :: (Delivers(web, url, maxBytes, Delivered(body)) && web.encode(body).Image?) ==> Landed(result)
  {
    hide Delivers;
    var delivery :| Delivers(web, url, maxBytes, delivery) && result == DeliveredResult(web, delivery);
    if Landed(result) {
      assert Delivers(web, url, maxBytes, Delivered(delivery.body));
    }
    forall body | Delivers(web, url, maxBytes, Delivered(body)) ensures delivery == Delivered(body) {
      DeliversOneThing(web, url, maxBytes, delivery, Delivered(body));
    }
  }

  // --- the objects ---

  lemma CallIsKnown(s: State, env: Env, i: nat)
    requires Inv(s, env) && i < |s.tasks|
    ensures s.tasks[i].call < |s.callFree|
  {
    assert s.tasks[i] in s.tasks;
  }

  /** The process-wide gate, created on first use, with the gates of the calls in progress. */
  class FetchGates {
    const env: Env
    var globalFree: nat
    var callFree: seq<nat>
    var wanted: seq<seq<string>>
    var tasks: seq<Task>

    ghost function Abs(): State
      reads this
    {
      State(globalFree, callFree, wanted, tasks)
    }

    constructor (env: Env)
      ensures this.env == env && Abs() == INIT && Inv(Abs(), env)
    {
      this.env := env;
      globalFree, callFree, wanted, tasks := MAX_CONCURRENT_FETCHES, [], [], [];
    }

    /** A call starts its pass over its URLs with a gate of its own. */
    method NewCall(urls: seq<string>) returns (call: CallId)
      requires Inv(Abs(), env)
      modifies this
      ensures call == |old(callFree)| && Abs() == Next(old(Abs()), Step.NewCall(urls), env)
      ensures Inv(Abs(), env) && call < |wanted| && wanted[call] == Wanted(urls)
    {
      InvHolds(Abs(), Step.NewCall(urls), env);
      hide Inv;
      call := |callFree|;
      callFree, tasks := callFree + [CONCURRENCY], tasks + Enqueue(call, Wanted(urls));
      wanted := wanted + [Wanted(urls)];
    }

    method EnterCall(i: nat)
      requires Inv(Abs(), env) && Enabled(Abs(), Step.EnterCall(i))
      modifies this
      ensures Abs() == Next(old(Abs()), Step.EnterCall(i), env) && Inv(Abs(), env)
    {
      InvHolds(Abs(), Step.EnterCall(i), env);
      hide Inv;
      var call := tasks[i].call;
      callFree, tasks := callFree[call := callFree[call] - 1], tasks[i := tasks[i].(phase := HoldsCall)];
    }

    method EnterGlobal(i: nat)
      requires Inv(Abs(), env) && Enabled(Abs(), Step.EnterGlobal(i))
      modifies this
      ensures Abs() == Next(old(Abs()), Step.EnterGlobal(i), env) && Inv(Abs(), env)
    {
      InvHolds(Abs(), Step.EnterGlobal(i), env);
      hide Inv;
      globalFree, tasks := globalFree - 1, tasks[i := tasks[i].(phase := HoldsBoth(Requesting([], tasks[i].url)))];
    }

    /** The download goes on by one event; where that ends it, its permits are given back. */
    method Receive(i: nat)
      requires Inv(Abs(), env) && Enabled(Abs(), Event(i))
      modifies this
      ensures Abs() == Next(old(Abs()), Event(i), env) && Inv(Abs(), env)
    {
      InvHolds(Abs(), Event(i), env);
      CallIsKnown(Abs(), env, i);
      hide Inv;
      match Advance(env.webs(i), env.maxBytes, tasks[i].phase.download)
      case Going(download) => tasks := tasks[i := tasks[i].(phase := HoldsBoth(download))];
      case Done(result) => Exit(i, result);
    }

    /** The deadline, a fault or a cancellation strikes. */
    method Interrupt(i: nat, reason: Result)
      requires Inv(Abs(), env) && Enabled(Abs(), Step.Interrupt(i, reason))
      modifies this
      ensures Abs() == Next(old(Abs()), Step.Interrupt(i, reason), env) && Inv(Abs(), env)
    {
      InvHolds(Abs(), Step.Interrupt(i, reason), env);
      CallIsKnown(Abs(), env, i);
      hide Inv;
      Exit(i, reason);
    }

    /** The exits of the nested context managers, innermost first. */
    method Exit(i: nat, result: Result)
      requires i < |tasks| && tasks[i].call < |callFree| && !tasks[i].phase.Ended?
      modifies this
      ensures Abs() == End(old(Abs()), i, result)
    {
      var Task(call, url, phase) := tasks[i];
      if phase.HoldsBoth? {
        globalFree := globalFree + 1;
      }
      if phase.HoldsBoth? || phase.HoldsCall? {
        callFree := callFree[call := callFree[call] + 1];
      }
      tasks := tasks[i := Task(call, url, Ended(result))];
    }

    /** The batch of a finished call, from the results its images left. */
    method FetchThumbnails(call: CallId) returns (batch: Option<Batch>)
      requires Inv(Abs(), env) && call < |wanted| && Finished(tasks, call)
      ensures |ResultsOf(tasks, call)| == |wanted[call]|
      ensures IsBatch(ResultsOf(tasks, call), batch)
      ensures batch.Some? ==>
                && batch.value.requested == |wanted[call]|
                && exists positions :: ShowsUrls(Abs(), env, call, batch.value.thumbnails, positions)
    {
      ResultsFollowUrls(Abs(), env, call);
      batch := Collect(ResultsOf(tasks, call));
      hide Inv, Finished, ResultsOf, IsBatch, ShowsUrls, ImagesOf;
      if batch.Some? { BatchShowsUrls(Abs(), env, call, batch.value); }
    }
  }
}
