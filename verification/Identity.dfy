/** The two-tier identity cache: every worker keeps a bounded LRU (L1) and all workers share a store
    with expiring keys (L2) in front of the upstream lookup. A lookup is suspended at each round trip;
    one step is one stretch in between, or one command executed by the shared store. */
module Identity {
  import opened Wrappers

  datatype SelfIdentity = SelfIdentity(userId: string, name: Option<string>, email: Option<string>)

  /** None is the negative answer: no identity for this user. */
  type Answer = Option<SelfIdentity>

  datatype Lookup = Miss | Hit(answer: Answer)

  datatype Config = Config(redis: bool, positiveTtl: real, negativeTtl: real, maxL1Entries: nat)

  function Ttl(cfg: Config, answer: Answer): real {
    if answer.Some? then cfg.positiveTtl else cfg.negativeTtl
  }

  // --- L1: an ordered dictionary, least recently used first ---

  datatype L1Entry = L1Entry(identity: Answer, expiresAt: real)
  datatype L1 = L1(order: seq<string>, entries: map<string, L1Entry>)

  const EMPTY_L1 := L1([], map[])

  ghost predicate L1WellFormed(l1: L1) {
    && (forall sub :: sub in l1.order <==> sub in l1.entries)
    && Distinct(l1.order)
  }

  ghost predicate Distinct(subs: seq<string>) {
    forall i, j :: 0 <= i < j < |subs| ==> subs[i] != subs[j]
  }

  function Remove(subs: seq<string>, sub: string): seq<string> {
    if subs == [] then []
    else if subs[0] == sub then Remove(subs[1..], sub)
    else [subs[0]] + Remove(subs[1..], sub)
  }

  function MoveToEnd(subs: seq<string>, sub: string): seq<string> { Remove(subs, sub) + [sub] }

  predicate IsSuffix(a: seq<string>, b: seq<string>) { |a| <= |b| && a == b[|b| - |a|..] }

  /** The last `n` elements, or all of them. */
  function TakeLast(subs: seq<string>, n: nat): seq<string> {
    if |subs| <= n then subs else subs[|subs| - n..]
  }

  /** The entry is found while its expiry lies ahead; an expired one is dropped. */
  function L1Get(l1: L1, sub: string, now: real): (L1, Lookup) {
    if sub !in l1.entries then (l1, Miss)
    else if l1.entries[sub].expiresAt <= now then (L1(Remove(l1.order, sub), l1.entries - {sub}), Miss)
    else (L1(MoveToEnd(l1.order, sub), l1.entries), Hit(l1.entries[sub].identity))
  }

  function L1Put(cfg: Config, l1: L1, sub: string, identity: Answer, now: real): L1 {
    var order := TakeLast(MoveToEnd(l1.order, sub), cfg.maxL1Entries);
    var entries := l1.entries[sub := L1Entry(identity, now + Ttl(cfg, identity))];
    L1(order, Only(entries, order))
  }

  function Only(entries: map<string, L1Entry>, subs: seq<string>): map<string, L1Entry> {
    map s | s in entries && s in subs :: entries[s]
  }

  lemma OnlyAll(entries: map<string, L1Entry>, subs: seq<string>)
    requires forall s <- entries.Keys :: s in subs
    ensures Only(entries, subs) == entries
  {
  }

  /** Evicting the oldest entry past the cap moves towards the truncation and never beyond it. */
  lemma EvictOldest(entries: map<string, L1Entry>, order: seq<string>, n: nat)
    requires Distinct(order) && n < |order|
    ensures Only(entries, order[1..]) == Only(entries, order) - {order[0]}
    ensures Distinct(order[1..]) && TakeLast(order[1..], n) == TakeLast(order, n)
  {
    var rest := order[1..];
    assert forall i :: 0 <= i < |rest| ==> rest[i] == order[i + 1];
    assert order[0] !in rest;
    assert forall s :: s in order <==> s == order[0] || s in rest;
  }

  lemma {:induction false} RemoveContains(subs: seq<string>, sub: string)
    ensures forall s :: s in Remove(subs, sub) <==> s in subs && s != sub
    ensures Distinct(subs) ==> Distinct(Remove(subs, sub))
    ensures |Remove(subs, sub)| <= |subs|
  {
    if subs != [] {
      RemoveContains(subs[1..], sub);
      assert forall s :: s in subs <==> s == subs[0] || s in subs[1..];
      assert Distinct(subs) ==> Distinct(subs[1..]) && subs[0] !in subs[1..];
    }
  }

  lemma {:induction false} RemoveAbsent(subs: seq<string>, sub: string)
    requires sub !in subs
    ensures Remove(subs, sub) == subs
  {
    if subs != [] { RemoveAbsent(subs[1..], sub); }
  }

  lemma {:induction false} RemoveConcat(a: seq<string>, b: seq<string>, sub: string)
    ensures Remove(a + b, sub) == Remove(a, sub) + Remove(b, sub)
  {
    if a == [] {
      assert a + b == b;
    } else {
      assert (a + b)[1..] == a[1..] + b;
      RemoveConcat(a[1..], b, sub);
    }
  }

  lemma {:induction false} RemoveOnce(subs: seq<string>, sub: string)
    requires Distinct(subs) && sub in subs
    ensures |Remove(subs, sub)| == |subs| - 1
  {
    if subs[0] == sub {
      assert sub !in subs[1..];
      RemoveAbsent(subs[1..], sub);
    } else {
      assert Distinct(subs[1..]);
      RemoveOnce(subs[1..], sub);
    }
  }

  lemma MoveToEndContains(subs: seq<string>, sub: string)
    ensures forall s :: s in MoveToEnd(subs, sub) <==> s in subs || s == sub
    ensures Distinct(subs) ==> Distinct(MoveToEnd(subs, sub))
  {
    RemoveContains(subs, sub);
    var rest := Remove(subs, sub);
    assert forall i :: 0 <= i < |rest| ==> rest[i] in rest;
  }

  lemma MoveWithinSize(subs: seq<string>, sub: string)
    requires Distinct(subs) && sub in subs
    ensures |MoveToEnd(subs, sub)| == |subs|
  {
    RemoveOnce(subs, sub);
  }

  lemma GetStaysWellFormed(l1: L1, sub: string, now: real)
    requires L1WellFormed(l1)
    ensures L1WellFormed(L1Get(l1, sub, now).0) && |L1Get(l1, sub, now).0.order| <= |l1.order|
  {
    hide Remove, Distinct;
    RemoveContains(l1.order, sub);
    MoveToEndContains(l1.order, sub);
    if sub in l1.entries { MoveWithinSize(l1.order, sub); }
  }

  lemma TakeLastAll(subs: seq<string>, n: nat)
    requires |subs| <= n
    ensures TakeLast(subs, n) == subs
  {
  }

  lemma TakeLastContains(subs: seq<string>, n: nat)
    ensures |TakeLast(subs, n)| <= n
    ensures forall s <- TakeLast(subs, n) :: s in subs
    ensures Distinct(subs) ==> Distinct(TakeLast(subs, n))
  {
  }

  lemma PutStaysWellFormed(cfg: Config, l1: L1, sub: string, identity: Answer, now: real)
    requires L1WellFormed(l1)
    ensures L1WellFormed(L1Put(cfg, l1, sub, identity, now))
    ensures |L1Put(cfg, l1, sub, identity, now).order| <= cfg.maxL1Entries
  {
    hide Remove, Distinct, TakeLast, MoveToEnd;
    MoveToEndContains(l1.order, sub);
    TakeLastContains(MoveToEnd(l1.order, sub), cfg.maxL1Entries);
  }

  lemma TakeLastIsSuffix(a: seq<string>, b: seq<string>, n: nat)
    ensures a == TakeLast(b, n) <==> IsSuffix(a, b) && |a| == if n < |b| then n else |b|
  {
  }

  /** A put leaves its entry as the most recently used, to expire after the time to live of its sign. */
  lemma PutEntry(cfg: Config, l1: L1, sub: string, answer: Answer, at: real)
    requires 0 < cfg.maxL1Entries
    ensures var after := L1Put(cfg, l1, sub, answer, at);
            && after.order != [] && after.order[|after.order| - 1] == sub
            && sub in after.entries
            && after.entries[sub]
               == L1Entry(answer, at + if answer.None? then cfg.negativeTtl else cfg.positiveTtl)
  {
    hide Remove, TakeLast;
    var moved, after := MoveToEnd(l1.order, sub), L1Put(cfg, l1, sub, answer, at);
    TakeLastIsSuffix(after.order, moved, cfg.maxL1Entries);
    assert moved[|moved| - 1] == sub;
  }

  /** What was put is found until its sign's time to live has passed, and not from then on. */
  lemma PutThenGet(cfg: Config, l1: L1, sub: string, answer: Answer, at: real, now: real)
    requires 0 < cfg.maxL1Entries
    ensures L1Get(L1Put(cfg, l1, sub, answer, at), sub, now).1
            == if now < at + (if answer.None? then cfg.negativeTtl else cfg.positiveTtl) then Hit(answer) else Miss
  {
    PutEntry(cfg, l1, sub, answer, at);
    hide L1Put, Remove;
  }

  // --- L1 is a true LRU ---

  /** What happens to one worker's L1: a lookup finds or puts an entry, or drops an expired one. */
  datatype Touch = Touched(sub: string, put: Option<L1Entry>) | Expired(sub: string)

  /** The users touched and not dropped since, the most recently touched last. */
  function Live(touches: seq<Touch>): seq<string> {
    if touches == [] then [] else
      var earlier, last := Live(touches[..|touches| - 1]), touches[|touches| - 1];
      if last.Touched? then MoveToEnd(earlier, last.sub) else Remove(earlier, last.sub)
  }

  function LastPutOf(touches: seq<Touch>, sub: string): Option<L1Entry> {
    if touches == [] then None else
      var last := touches[|touches| - 1];
      if last.Touched? && last.sub == sub && last.put.Some? then last.put
      else LastPutOf(touches[..|touches| - 1], sub)
  }

  ghost predicate NothingExpired(touches: seq<Touch>) { forall touch <- touches :: touch.Touched? }

  /** The cached users are the most recently touched ones, in order and without a gap: whoever was touched
      later than a cached user, and not dropped as expired since, is cached too. While nothing has expired
      they are the last max_l1_entries of them, and every entry is the last one put. */
  ghost predicate IsLruOf(cfg: Config, l1: L1, touches: seq<Touch>) {
    && L1WellFormed(l1)
    && IsSuffix(l1.order, Live(touches))
    && (NothingExpired(touches) ==>
          |l1.order| == if cfg.maxL1Entries < |Live(touches)| then cfg.maxL1Entries else |Live(touches)|)
    && forall sub <- l1.entries.Keys :: Some(l1.entries[sub]) == LastPutOf(touches, sub)
  }

  lemma TakeLastOf(a: seq<string>, b: seq<string>)
    ensures TakeLast(a + b, |b|) == b
  {
    assert (a + b)[|a|..] == b;
  }

  lemma MoveWithin(dropped: seq<string>, kept: seq<string>, sub: string)
    requires Distinct(dropped + kept) && sub in kept
    ensures TakeLast(MoveToEnd(kept, sub), |kept|) == TakeLast(MoveToEnd(dropped + kept, sub), |kept|)
  {
    hide Remove, TakeLast;
    var all := dropped + kept;
    var at :| 0 <= at < |kept| && kept[at] == sub;
    forall i | 0 <= i < |dropped| ensures dropped[i] != sub {
      assert all[i] != all[|dropped| + at];
    }
    assert Distinct(kept) by { assert forall j :: 0 <= j < |kept| ==> all[|dropped| + j] == kept[j]; }
    RemoveConcat(dropped, kept, sub);
    RemoveAbsent(dropped, sub);
    RemoveOnce(kept, sub);
    var moved := Remove(kept, sub) + [sub];
    assert MoveToEnd(all, sub) == dropped + moved && MoveToEnd(kept, sub) == [] + moved;
    TakeLastOf(dropped, moved);
    TakeLastOf([], moved);
  }

  lemma MoveFromOutside(dropped: seq<string>, kept: seq<string>, sub: string)
    requires kept != [] && sub !in kept
    ensures TakeLast(MoveToEnd(kept, sub), |kept|) == TakeLast(MoveToEnd(dropped + kept, sub), |kept|)
  {
    hide Remove, TakeLast;
    RemoveConcat(dropped, kept, sub);
    RemoveAbsent(kept, sub);
    var moved := kept[1..] + [sub];
    assert MoveToEnd(dropped + kept, sub) == Remove(dropped, sub) + [kept[0]] + moved;
    assert MoveToEnd(kept, sub) == [kept[0]] + moved;
    TakeLastOf(Remove(dropped, sub) + [kept[0]], moved);
    TakeLastOf([kept[0]], moved);
  }

  /** Truncating before a move keeps enough to truncate after it. */
  lemma TruncateThenMove(subs: seq<string>, sub: string, n: nat)
    requires Distinct(subs) && 0 < n
    ensures TakeLast(MoveToEnd(TakeLast(subs, n), sub), n) == TakeLast(MoveToEnd(subs, sub), n)
  {
    hide MoveToEnd;
    if n < |subs| {
      var dropped, kept := subs[..|subs| - n], subs[|subs| - n..];
      assert subs == dropped + kept;
      if sub in kept {
        MoveWithin(dropped, kept, sub);
      } else {
        MoveFromOutside(dropped, kept, sub);
      }
    }
  }

  lemma TakeLastShort(cfg: Config, subs: seq<string>, longer: seq<string>)
    requires |subs| == |TakeLast(longer, cfg.maxL1Entries)|
    ensures TakeLast(subs, cfg.maxL1Entries) == subs
  {
  }

  lemma {:induction false} LiveIsDistinct(touches: seq<Touch>)
    ensures Distinct(Live(touches))
  {
    hide Remove, Distinct;
    if touches != [] {
      var earlier, last := touches[..|touches| - 1], touches[|touches| - 1];
      LiveIsDistinct(earlier);
      RemoveContains(Live(earlier), last.sub);
      MoveToEndContains(Live(earlier), last.sub);
    } else {
      assert Distinct([]) by { NobodyIsDistinct(); }
    }
  }

  lemma NobodyIsDistinct()
    ensures Distinct([])
  {
  }

  lemma SuffixOfMoved(a: seq<string>, b: seq<string>, sub: string)
    requires IsSuffix(a, b)
    ensures IsSuffix(Remove(a, sub), Remove(b, sub)) && IsSuffix(MoveToEnd(a, sub), MoveToEnd(b, sub))
  {
    hide Remove;
    var dropped := b[..|b| - |a|];
    assert b == dropped + a;
    RemoveConcat(dropped, a, sub);
    assert MoveToEnd(b, sub) == Remove(dropped, sub) + MoveToEnd(a, sub);
  }

  lemma SuffixOfTruncated(a: seq<string>, b: seq<string>, n: nat)
    requires IsSuffix(a, b)
    ensures IsSuffix(TakeLast(a, n), b)
  {
  }

  lemma LruAfterGet(cfg: Config, l1: L1, touches: seq<Touch>, sub: string, now: real)
    requires IsLruOf(cfg, l1, touches) && sub in l1.entries
    ensures var touch := if l1.entries[sub].expiresAt <= now then Expired(sub) else Touched(sub, None);
            IsLruOf(cfg, L1Get(l1, sub, now).0, touches + [touch])
  {
    hide Remove, TakeLast, Distinct, IsSuffix;
    var touch := if l1.entries[sub].expiresAt <= now then Expired(sub) else Touched(sub, None);
    var all := touches + [touch];
    assert all[..|touches|] == touches;
    assert touch in all && forall t <- touches :: t in all;
    SuffixOfMoved(l1.order, Live(touches), sub);
    GetStaysWellFormed(l1, sub, now);
    if touch.Touched? && NothingExpired(all) {
      LiveIsDistinct(touches);
      MoveWithinSize(l1.order, sub);
      TakeLastIsSuffix(l1.order, Live(touches), cfg.maxL1Entries);
      TruncatedMove(cfg, Live(touches), sub);
      TakeLastShort(cfg, MoveToEnd(l1.order, sub), Live(touches));
      TakeLastIsSuffix(MoveToEnd(l1.order, sub), Live(all), cfg.maxL1Entries);
    }
  }

  lemma TruncatedMove(cfg: Config, subs: seq<string>, sub: string)
    requires Distinct(subs)
    ensures TakeLast(MoveToEnd(TakeLast(subs, cfg.maxL1Entries), sub), cfg.maxL1Entries)
            == TakeLast(MoveToEnd(subs, sub), cfg.maxL1Entries)
  {
    hide Remove;
    if 0 < cfg.maxL1Entries { TruncateThenMove(subs, sub, cfg.maxL1Entries); }
  }

  lemma LruAfterPut(cfg: Config, l1: L1, touches: seq<Touch>, sub: string, answer: Answer, now: real)
    requires IsLruOf(cfg, l1, touches)
    ensures var life := if answer.None? then cfg.negativeTtl else cfg.positiveTtl;
            IsLruOf(cfg, L1Put(cfg, l1, sub, answer, now), touches + [Touched(sub, Some(L1Entry(answer, now + life)))])
  {
    hide Remove, TakeLast, Distinct, IsSuffix;
    var touch := Touched(sub, Some(L1Entry(answer, now + Ttl(cfg, answer))));
    var all := touches + [touch];
    assert all[..|touches|] == touches;
    assert forall t <- touches :: t in all;
    SuffixOfMoved(l1.order, Live(touches), sub);
    SuffixOfTruncated(MoveToEnd(l1.order, sub), Live(all), cfg.maxL1Entries);
    PutStaysWellFormed(cfg, l1, sub, answer, now);
    LiveIsDistinct(touches);
    TruncatedMove(cfg, Live(touches), sub);
    TakeLastIsSuffix(l1.order, Live(touches), cfg.maxL1Entries);
    TakeLastIsSuffix(L1Put(cfg, l1, sub, answer, now).order, Live(all), cfg.maxL1Entries);
  }

  /** The touch at i is the last one of this user. */
  ghost predicate IsLastOf(touches: seq<Touch>, sub: string, i: nat) {
    && i < |touches| && touches[i].sub == sub
    && forall j :: i < j < |touches| ==> touches[j].sub != sub
  }

  lemma {:induction false} RemoveKeepsOrder(subs: seq<string>, sub: string, a: nat, b: nat)
      returns (i: nat, j: nat)
    requires a < b < |Remove(subs, sub)|
    ensures i < j < |subs| && subs[i] == Remove(subs, sub)[a] && subs[j] == Remove(subs, sub)[b]
  {
    if subs[0] == sub {
      i, j := RemoveKeepsOrder(subs[1..], sub, a, b);
      i, j := i + 1, j + 1;
    } else if 0 < a {
      i, j := RemoveKeepsOrder(subs[1..], sub, a - 1, b - 1);
      i, j := i + 1, j + 1;
    } else {
      RemoveContains(subs[1..], sub);
      var other := Remove(subs[1..], sub)[b - 1];
      assert other in subs[1..];
      var k :| 0 <= k < |subs| - 1 && subs[1..][k] == other;
      i, j := 0, k + 1;
    }
  }

  lemma LastOfLonger(touches: seq<Touch>, touch: Touch, sub: string, i: nat)
    ensures IsLastOf(touches + [touch], sub, i)
            <==> if touch.sub == sub then i == |touches| else IsLastOf(touches, sub, i)
  {
    var all := touches + [touch];
    assert all[|touches|] == touch && forall j :: 0 <= j < |touches| ==> all[j] == touches[j];
  }

  /** The live users are those whose last touch is no expiry, in the order of their last touches. */
  lemma {:induction false} LiveIsByLastTouch(touches: seq<Touch>)
    ensures forall sub :: sub in Live(touches)
                          <==> exists i: nat :: IsLastOf(touches, sub, i) && touches[i].Touched?
    ensures forall a, b, i: nat, j: nat ::
              && 0 <= a < b < |Live(touches)|
              && IsLastOf(touches, Live(touches)[a], i) && IsLastOf(touches, Live(touches)[b], j) ==>
                i < j
  {
    hide IsLastOf, Remove;
    if touches == [] {
      forall sub, i: nat ensures !IsLastOf(touches, sub, i) { NothingIsLast(sub, i); }
    } else {
      var n := |touches| - 1;
      var earlier, last := touches[..n], touches[n];
      var before, after := Live(earlier), Live(touches);
      assert touches == earlier + [last];
      LiveIsByLastTouch(earlier);
      LiveIsDistinct(touches);
      RemoveContains(before, last.sub);
      forall sub, i: nat
        ensures IsLastOf(touches, sub, i) <==> if last.sub == sub then i == n else IsLastOf(earlier, sub, i)
        ensures IsLastOf(earlier, sub, i) ==> i < n && touches[i] == earlier[i]
      {
        LastOfLonger(earlier, last, sub, i);
        LastIsThere(earlier, sub, i);
      }
      forall sub ensures sub in after <==> exists i: nat :: IsLastOf(touches, sub, i) && touches[i].Touched? {
        if sub == last.sub { assert IsLastOf(touches, sub, n); }
      }
      forall a, b, i: nat, j: nat |
        && 0 <= a < b < |after| && IsLastOf(touches, after[a], i) && IsLastOf(touches, after[b], j)
        ensures i < j
      {
        assert after[a] != after[b];
        if after[b] != last.sub {
          assert Remove(before, last.sub) <= after;
          var x, y := RemoveKeepsOrder(before, last.sub, a, b);
          assert after[a] in Remove(before, last.sub);
          assert IsLastOf(earlier, before[x], i) && IsLastOf(earlier, before[y], j);
        }
      }
    }
  }

  lemma NothingIsLast(sub: string, i: nat)
    ensures !IsLastOf([], sub, i)
  {
  }

  lemma LastIsThere(touches: seq<Touch>, sub: string, i: nat)
    ensures IsLastOf(touches, sub, i) ==> i < |touches|
  {
  }

  /** The entry put at i is the last one put for this user. */
  ghost predicate IsLastPut(touches: seq<Touch>, sub: string, entry: L1Entry, i: nat) {
    && i < |touches| && touches[i] == Touched(sub, Some(entry))
    && forall j :: i < j < |touches| && touches[j].Touched? && touches[j].sub == sub ==> touches[j].put.None?
  }

  lemma {:induction false} LastPutIsLast(touches: seq<Touch>, sub: string) returns (i: nat)
    ensures match LastPutOf(touches, sub)
            case None => forall touch <- touches :: touch.Touched? && touch.sub == sub ==> touch.put.None?
            case Some(entry) => IsLastPut(touches, sub, entry, i)
  {
    i := 0;
    if touches != [] {
      var n := |touches| - 1;
      assert forall touch :: touch in touches <==> touch in touches[..n] || touch == touches[n];
      i := LastPutIsLast(touches[..n], sub);
      if LastPutOf(touches, sub) != LastPutOf(touches[..n], sub) { i := n; }
      if touches[n].Touched? && touches[n].sub == sub && touches[n].put.Some? { i := n; }
    }
  }

  // --- each lookup completes before the next ---

  lemma ResolvedOnHit(cfg: Config, l1: L1, touches: seq<Touch>, sub: string, now: real)
    requires NothingExpired(touches) && IsLruOf(cfg, l1, touches) && L1Get(l1, sub, now).1.Hit?
    ensures NothingExpired(touches + [Touched(sub, None)])
    ensures IsLruOf(cfg, L1Get(l1, sub, now).0, touches + [Touched(sub, None)])
  {
    hide IsLruOf;
    LruAfterGet(cfg, l1, touches, sub, now);
  }

  /** A lookup that misses, be it absent or expired, counts as one touch, whatever the L1 held meanwhile. */
  lemma ResolvedOnMiss(cfg: Config, l1: L1, touches: seq<Touch>, sub: string, answer: Answer, now: real, later: real)
    requires 0 < cfg.maxL1Entries && NothingExpired(touches) && IsLruOf(cfg, l1, touches)
    requires L1Get(l1, sub, now).1.Miss?
    ensures var entry := L1Entry(answer, later + if answer.None? then cfg.negativeTtl else cfg.positiveTtl);
            var all := touches + [Touched(sub, Some(entry))];
            NothingExpired(all) && IsLruOf(cfg, L1Put(cfg, L1Get(l1, sub, now).0, sub, answer, later), all)
  {
    hide Remove, TakeLast, IsSuffix, Distinct;
    var all := touches + [Touched(sub, Some(L1Entry(answer, later + Ttl(cfg, answer))))];
    assert all[..|touches|] == touches;
    var read := L1Get(l1, sub, now).0;
    LiveIsDistinct(touches);
    TakeLastIsSuffix(l1.order, Live(touches), cfg.maxL1Entries);
    TruncateThenMove(Live(touches), sub, cfg.maxL1Entries);
    GetStaysWellFormed(l1, sub, now);
    PutStaysWellFormed(cfg, read, sub, answer, later);
    RemoveContains(l1.order, sub);
    RemoveAbsent(Remove(l1.order, sub), sub);
    assert MoveToEnd(read.order, sub) == MoveToEnd(l1.order, sub);
    TakeLastIsSuffix(L1Put(cfg, read, sub, answer, later).order, Live(all), cfg.maxL1Entries);
  }

  // --- one worker's cache ---

  /** One worker's resolver. `history` has one touch for each completed lookup of the runs in which each
      lookup completes before the next begins. */
  class CachedIdentityResolver {
    const cfg: Config
    var order: seq<string>
    var entries: map<string, L1Entry>
    ghost var history: seq<Touch>

    ghost function Abs(): L1
      reads this
    {
      L1(order, entries)
    }

    ghost predicate Valid()
      reads this
    {
      L1WellFormed(Abs()) && (0 < cfg.maxL1Entries ==> NothingExpired(history) && IsLruOf(cfg, Abs(), history))
    }

    constructor (cfg: Config)
      ensures this.cfg == cfg && Valid() && Abs() == EMPTY_L1 && history == []
    {
      this.cfg := cfg;
      order, entries, history := [], map[], [];
    }

    method Get(sub: string, now: real) returns (lookup: Lookup)
      requires L1WellFormed(Abs())
      modifies this`order, this`entries
      ensures (Abs(), lookup) == L1Get(old(Abs()), sub, now)
    {
      if sub !in entries {
        return Miss;
      }
      if entries[sub].expiresAt <= now {
        order, entries := Remove(order, sub), entries - {sub};
        return Miss;
      }
      order := MoveToEnd(order, sub);
      return Hit(entries[sub].identity);
    }

    /** Stores the entry as the most recently used and evicts the oldest ones past the cap. */
    method Put(sub: string, identity: Answer, now: real)
      requires L1WellFormed(Abs())
      modifies this`order, this`entries
      ensures Abs() == L1Put(cfg, old(Abs()), sub, identity, now)
      ensures L1WellFormed(Abs()) && |order| <= cfg.maxL1Entries
      ensures 0 < cfg.maxL1Entries ==>
                && sub in entries && order != [] && order[|order| - 1] == sub
                && entries[sub].identity == identity
                && entries[sub].expiresAt == now + if identity.None? then cfg.negativeTtl else cfg.positiveTtl
    {
      hide Remove, Only, MoveToEnd, Distinct, TakeLast, L1Get;
      ghost var before := Abs();
      MoveToEndContains(order, sub);
      PutStaysWellFormed(cfg, before, sub, identity, now);
      entries := entries[sub := L1Entry(identity, now + Ttl(cfg, identity))];
      order := MoveToEnd(order, sub);
      ghost var moved, all := order, entries;
      ghost var kept := TakeLast(moved, cfg.maxL1Entries);
      assert L1Put(cfg, before, sub, identity, now) == L1(kept, Only(all, kept));
      OnlyAll(all, moved);
      hide L1WellFormed, L1Put;
      while |order| > cfg.maxL1Entries
        invariant Distinct(order) && entries == Only(all, order)
        invariant TakeLast(order, cfg.maxL1Entries) == kept
      {
        EvictOldest(all, order, cfg.maxL1Entries);
        entries := entries - {order[0]};
        order := order[1..];
      }
      TakeLastAll(order, cfg.maxL1Entries);
      if 0 < cfg.maxL1Entries { PutEntry(cfg, before, sub, identity, now); }
    }

    /** One lookup that completes before the next: L1, then what L2 said, then the upstream's answer. */
    method Resolve(sub: string, now: real, l2: Lookup, upstream: Answer, later: real) returns (answer: Answer)
      requires Valid()
      modifies this
      ensures Valid()
      ensures var lookup := L1Get(old(Abs()), sub, now).1;
              var life := if answer.None? then cfg.negativeTtl else cfg.positiveTtl;
              && answer == (if lookup.Hit? then lookup.answer else if l2.Hit? then l2.answer else upstream)
              && history == old(history) + [Touched(sub, if lookup.Hit? then None
                                                         else Some(L1Entry(answer, later + life)))]
    {
      ghost var before := Abs();
      hide L1Get, L1Put, IsLruOf, L1WellFormed, NothingExpired;
      GetStaysWellFormed(before, sub, now);
      var lookup := Get(sub, now);
      if lookup.Hit? {
        if 0 < cfg.maxL1Entries { ResolvedOnHit(cfg, before, history, sub, now); }
        history := history + [Touched(sub, None)];
        return lookup.answer;
      }
      answer := if l2.Hit? then l2.answer else upstream;
      if 0 < cfg.maxL1Entries { ResolvedOnMiss(cfg, before, history, sub, answer, now, later); }
      Put(sub, answer, later);
      history := history + [Touched(sub, Some(L1Entry(answer, later + Ttl(cfg, answer))))];
    }
  }

  // --- the cluster ---

  type Worker = nat
  type TaskId = nat

  /** What the shared store holds under a key. Values it did not get from a worker read as a miss,
      or, if they decode to something that is not an object, make the lookup raise. */
  datatype L2Value =
    | Negative
    | Positive(userId: string, name: Option<string>, email: Option<string>)
    | Garbage
    | NotAnObject

  function Encode(answer: Answer): L2Value {
    match answer
    case None => Negative
    case Some(id) => Positive(id.userId, id.name, id.email)
  }

  datatype L2Read = Found(answer: Answer) | NotFound | Raises

  function Decode(value: L2Value): L2Read {
    match value
    case Negative => Found(None)
    case Positive(userId, name, email) =>
      if userId == "" then NotFound else Found(Some(SelfIdentity(userId, name, email)))
    case Garbage => NotFound
    case NotAnObject => Raises
  }

  /** What is written is read back, except an identity with an empty user id, which reads as a miss. */
  lemma DecodeEncode(answer: Answer)
    ensures Decode(Encode(answer)) == if answer.Some? && answer.value.userId == "" then NotFound else Found(answer)
  {
  }

  datatype UpstreamAnswer = UpstreamAnswer(sub: string, answer: Answer, at: real)

  datatype Route = Direct | ViaL2(readAt: real, putAt: real)

  /** Where a cached answer came from: which upstream answer, when that was stored, and over which route. */
  datatype Origin = Origin(index: nat, storedAt: real, route: Route)

  datatype L2Entry = L2Entry(value: L2Value, expiresAt: real, origin: Origin)

  datatype Pc =
    | AwaitL2Read(worker: Worker, sub: string)
    | AwaitL2Reply(worker: Worker, sub: string, read: L2Read, readAt: real, origin: Origin)
    | AwaitUpstream(worker: Worker, sub: string)
    | AwaitL2Write(worker: Worker, sub: string, answer: Answer, index: nat)
    | AwaitL2Written(worker: Worker, sub: string, answer: Answer, index: nat)

  datatype State = State(
    l1: map<Worker, L1>,
    l2: map<string, L2Entry>,
    tasks: map<TaskId, Pc>,
    upstream: seq<UpstreamAnswer>,
    origins: map<(Worker, string), Origin>,
    clock: real)

  datatype Step =
    | Begin(id: TaskId, worker: Worker, sub: string)
    | L2Get(id: TaskId, ok: bool)
    | L2GetReply(id: TaskId)
    | UpstreamReply(id: TaskId, answer: Answer)
    | L2Set(id: TaskId, ok: bool)
    | L2SetReply(id: TaskId)
    | L2Lose(sub: string)
    | L2Overwrite(sub: string, value: L2Value)

  /** What a lookup returns, and where it came from; without an origin it is the fail-open None. */
  datatype Returned = Returned(sub: string, answer: Answer, origin: Option<Origin>)

  function Init(now: real): State { State(map[], map[], map[], [], map[], now) }

  function L1Of(s: State, worker: Worker): L1 {
    if worker in s.l1 then s.l1[worker] else EMPTY_L1
  }

  ghost predicate Enabled(cfg: Config, s: State, step: Step) {
    match step
    case Begin(id, _, _) => id !in s.tasks
    case L2Get(id, _) => id in s.tasks && s.tasks[id].AwaitL2Read?
    case L2GetReply(id) => id in s.tasks && s.tasks[id].AwaitL2Reply?
    case UpstreamReply(id, _) => id in s.tasks && s.tasks[id].AwaitUpstream?
    case L2Set(id, _) => id in s.tasks && s.tasks[id].AwaitL2Write?
    case L2SetReply(id) => id in s.tasks && s.tasks[id].AwaitL2Written?
    case L2Lose(_) => cfg.redis
    case L2Overwrite(_, value) => cfg.redis && (value.Garbage? || value.NotAnObject?)
  }

  /** The lookup puts the answer into its worker's L1 and returns it. */
  function PutAndReturn(cfg: Config, s: State, id: TaskId, worker: Worker, sub: string, answer: Answer,
                        origin: Origin, now: real)
    : (State, Option<Returned>)
  {
    (s.(l1 := s.l1[worker := L1Put(cfg, L1Of(s, worker), sub, answer, now)],
        origins := s.origins[(worker, sub) := origin],
        tasks := s.tasks - {id}),
     Some(Returned(sub, answer, Some(origin))))
  }

  const NO_ORIGIN := Origin(0, 0.0, Direct)

  /** The effect of a step at time `now`, and the answer if the step ends its lookup. */
  ghost function Next(cfg: Config, before: State, step: Step, now: real): (State, Option<Returned>)
    requires Enabled(cfg, before, step)
  {
    var s := before.(clock := now);
    match step
    case Begin(id, worker, sub) =>
      var (l1, lookup) := L1Get(L1Of(s, worker), sub, now);
      var s := s.(l1 := s.l1[worker := l1]);
      if lookup.Hit? then
        var origin := if (worker, sub) in s.origins then Some(s.origins[(worker, sub)]) else None;
        (s, Some(Returned(sub, lookup.answer, origin)))
      else
        (s.(tasks := s.tasks[id := if cfg.redis then AwaitL2Read(worker, sub) else AwaitUpstream(worker, sub)]), None)
    case L2Get(id, ok) =>
      var pc := s.tasks[id];
      var live := ok && pc.sub in s.l2 && now < s.l2[pc.sub].expiresAt;
      var read := if live then Decode(s.l2[pc.sub].value) else NotFound;
      var origin := if live then s.l2[pc.sub].origin else NO_ORIGIN;
      (s.(tasks := s.tasks[id := AwaitL2Reply(pc.worker, pc.sub, read, now, origin)]), None)
    case L2GetReply(id) =>
      var pc := s.tasks[id];
      (match pc.read
       case Found(answer) =>
         PutAndReturn(cfg, s, id, pc.worker, pc.sub, answer, pc.origin.(route := ViaL2(pc.readAt, now)), now)
       case NotFound => (s.(tasks := s.tasks[id := AwaitUpstream(pc.worker, pc.sub)]), None)
       case Raises => (s.(tasks := s.tasks - {id}), Some(Returned(pc.sub, None, None))))
    case UpstreamReply(id, answer) =>
      var pc := s.tasks[id];
      var index := |s.upstream|;
      var s := s.(upstream := s.upstream + [UpstreamAnswer(pc.sub, answer, now)]);
      if cfg.redis then (s.(tasks := s.tasks[id := AwaitL2Write(pc.worker, pc.sub, answer, index)]), None)
      else PutAndReturn(cfg, s, id, pc.worker, pc.sub, answer, Origin(index, now, Direct), now)
    case L2Set(id, ok) =>
      var pc := s.tasks[id];
      var s := s.(tasks := s.tasks[id := AwaitL2Written(pc.worker, pc.sub, pc.answer, pc.index)]);
      if ok then
        var entry := L2Entry(Encode(pc.answer), now + Ttl(cfg, pc.answer), Origin(pc.index, now, Direct));
        (s.(l2 := s.l2[pc.sub := entry]), None)
      else (s, None)
    case L2SetReply(id) =>
      var pc := s.tasks[id];
      PutAndReturn(cfg, s, id, pc.worker, pc.sub, pc.answer, Origin(pc.index, now, Direct), now)
    case L2Lose(sub) => (s.(l2 := s.l2 - {sub}), None)
    case L2Overwrite(sub, value) => (s.(l2 := s.l2[sub := L2Entry(value, now, NO_ORIGIN)]), None)
  }

  /** The answer is the one the upstream gave for this user, before it was stored. */
  ghost predicate FromUpstream(s: State, sub: string, answer: Answer, origin: Origin) {
    && origin.index < |s.upstream|
    && s.upstream[origin.index].sub == sub
    && s.upstream[origin.index].answer == answer
    && s.upstream[origin.index].at <= origin.storedAt <= s.clock
  }

  /** An answer read from L2 was within the time to live it had there. */
  ghost predicate ReadInTime(cfg: Config, answer: Answer, storedAt: real, readAt: real) {
    storedAt <= readAt < storedAt + Ttl(cfg, answer)
  }

  ghost predicate L2EntryInv(cfg: Config, s: State, sub: string, entry: L2Entry) {
    Decode(entry.value).Found? ==>
      var answer := Decode(entry.value).answer;
      FromUpstream(s, sub, answer, entry.origin) && entry.expiresAt == entry.origin.storedAt + Ttl(cfg, answer)
  }

  ghost predicate L2Inv(cfg: Config, s: State) {
    forall sub <- s.l2.Keys :: L2EntryInv(cfg, s, sub, s.l2[sub])
  }

  ghost predicate Answered(s: State, sub: string, answer: Answer, index: nat) {
    && index < |s.upstream|
    && s.upstream[index].sub == sub
    && s.upstream[index].answer == answer
    && s.upstream[index].at <= s.clock
  }

  ghost predicate PcInv(cfg: Config, s: State, pc: Pc) {
    match pc
    case AwaitL2Read(_, _) => cfg.redis
    case AwaitL2Reply(_, sub, read, readAt, origin) =>
      cfg.redis && readAt <= s.clock &&
      (read.Found? ==>
         FromUpstream(s, sub, read.answer, origin) && ReadInTime(cfg, read.answer, origin.storedAt, readAt))
    case AwaitUpstream(_, _) => true
    case AwaitL2Write(_, sub, answer, index) => cfg.redis && Answered(s, sub, answer, index)
    case AwaitL2Written(_, sub, answer, index) => cfg.redis && Answered(s, sub, answer, index)
  }

  ghost predicate TasksInv(cfg: Config, s: State) {
    forall id <- s.tasks.Keys :: PcInv(cfg, s, s.tasks[id])
  }

  ghost predicate EntryInv(cfg: Config, s: State, sub: string, entry: L1Entry, origin: Origin) {
    && FromUpstream(s, sub, entry.identity, origin)
    && match origin.route
       case Direct =>
         && entry.expiresAt == origin.storedAt + Ttl(cfg, entry.identity)
         && (!cfg.redis ==> origin.storedAt == s.upstream[origin.index].at)
       case ViaL2(readAt, putAt) =>
         && cfg.redis
         && ReadInTime(cfg, entry.identity, origin.storedAt, readAt)
         && readAt <= putAt
         && entry.expiresAt == putAt + Ttl(cfg, entry.identity)
  }

  /** One worker's L1: bounded, and every entry accounted for. */
  ghost predicate WorkerInv(cfg: Config, s: State, worker: Worker, l1: L1) {
    && L1WellFormed(l1)
    && |l1.order| <= cfg.maxL1Entries
    && forall sub <- l1.entries.Keys ::
         (worker, sub) in s.origins && EntryInv(cfg, s, sub, l1.entries[sub], s.origins[(worker, sub)])
  }

  ghost predicate L1Inv(cfg: Config, s: State) {
    forall worker <- s.l1.Keys :: WorkerInv(cfg, s, worker, s.l1[worker])
  }

  ghost predicate Inv(cfg: Config, s: State) { L2Inv(cfg, s) && TasksInv(cfg, s) && L1Inv(cfg, s) }

  /** The upstream has answered more since, and time has passed. */
  ghost predicate Later(s: State, later: State) { s.upstream <= later.upstream && s.clock <= later.clock }

  lemma StepGoesOn(cfg: Config, s: State, step: Step, now: real)
    requires Enabled(cfg, s, step) && s.clock <= now
    ensures Later(s, Next(cfg, s, step, now).0)
  {
    hide L1Get, L1Put, Decode, Encode;
  }

  lemma StepKeepsL2(cfg: Config, s: State, step: Step, now: real)
    requires Enabled(cfg, s, step) && !step.L2Set? && !step.L2Lose? && !step.L2Overwrite?
    ensures Next(cfg, s, step, now).0.l2 == s.l2
  {
    hide L1Get, L1Put, Decode, Encode;
  }

  /** A step changes no suspended lookup but its own. */
  lemma StepKeepsTasks(cfg: Config, s: State, step: Step, now: real, id: TaskId)
    requires Enabled(cfg, s, step) && (step.L2Lose? || step.L2Overwrite? || id != step.id)
    requires id in Next(cfg, s, step, now).0.tasks
    ensures id in s.tasks && Next(cfg, s, step, now).0.tasks[id] == s.tasks[id]
  {
    hide L1Get, L1Put, Decode, Encode;
  }

  lemma L2InvLater(cfg: Config, s: State, later: State)
    requires L2Inv(cfg, s) && Later(s, later)
    ensures forall sub <- s.l2.Keys :: L2EntryInv(cfg, later, sub, s.l2[sub])
  {
    hide Decode;
  }

  lemma L2InvHolds(cfg: Config, s: State, step: Step, now: real)
    requires Inv(cfg, s) && Enabled(cfg, s, step) && s.clock <= now
    ensures L2Inv(cfg, Next(cfg, s, step, now).0)
  {
    StepGoesOn(cfg, s, step, now);
    L2InvLater(cfg, s, Next(cfg, s, step, now).0);
    hide L1Put, L1Get, L1Inv, Later;
    if step.L2Set? {
      hide TasksInv;
      assert PcInv(cfg, s, s.tasks[step.id]) by { OwnPcInv(cfg, s, step.id); }
      WrittenIsSound(cfg, s, step, now);
    } else if !step.L2Lose? && !step.L2Overwrite? {
      StepKeepsL2(cfg, s, step, now);
      hide Next;
    }
  }

  lemma OwnPcInv(cfg: Config, s: State, id: TaskId)
    requires TasksInv(cfg, s) && id in s.tasks
    ensures PcInv(cfg, s, s.tasks[id])
  {
  }

  lemma WrittenIsSound(cfg: Config, s: State, step: Step, now: real)
    requires step.L2Set? && Enabled(cfg, s, step) && s.clock <= now && PcInv(cfg, s, s.tasks[step.id])
    ensures var pc, after := s.tasks[step.id], Next(cfg, s, step, now).0;
            L2EntryInv(cfg, after, pc.sub,
                       L2Entry(Encode(pc.answer), now + Ttl(cfg, pc.answer), Origin(pc.index, now, Direct)))
  {
    DecodeEncode(s.tasks[step.id].answer);
    hide Decode, Encode;
  }

  lemma PcInvLater(cfg: Config, s: State, later: State, pc: Pc)
    requires PcInv(cfg, s, pc) && Later(s, later)
    ensures PcInv(cfg, later, pc)
  {
  }

  lemma ReadIsSound(cfg: Config, s: State, step: Step, now: real)
    requires step.L2Get? && Inv(cfg, s) && Enabled(cfg, s, step) && s.clock <= now
    ensures PcInv(cfg, Next(cfg, s, step, now).0, Next(cfg, s, step, now).0.tasks[step.id])
  {
    hide L1Put, L1Get, L1Inv, Decode;
    OwnPcInv(cfg, s, step.id);
  }

  lemma OwnPcInvHolds(cfg: Config, s: State, step: Step, now: real)
    requires Inv(cfg, s) && Enabled(cfg, s, step) && s.clock <= now && !step.L2Lose? && !step.L2Overwrite?
    ensures var after := Next(cfg, s, step, now).0;
            step.id in after.tasks ==> PcInv(cfg, after, after.tasks[step.id])
  {
    if step.L2Get? {
      ReadIsSound(cfg, s, step, now);
    } else {
      hide L1Put, L1Get, L1Inv, L2Inv, Decode, Encode;
      if !step.Begin? { OwnPcInv(cfg, s, step.id); }
      hide TasksInv;
    }
  }

  lemma TasksInvHolds(cfg: Config, s: State, step: Step, now: real)
    requires Inv(cfg, s) && Enabled(cfg, s, step) && s.clock <= now
    ensures TasksInv(cfg, Next(cfg, s, step, now).0)
  {
    var after := Next(cfg, s, step, now).0;
    StepGoesOn(cfg, s, step, now);
    if !step.L2Lose? && !step.L2Overwrite? { OwnPcInvHolds(cfg, s, step, now); }
    hide Next, PcInv, L1Inv, L2Inv, Later;
    forall id <- after.tasks.Keys ensures PcInv(cfg, after, after.tasks[id]) {
      if step.L2Lose? || step.L2Overwrite? || id != step.id {
        StepKeepsTasks(cfg, s, step, now, id);
        PcInvLater(cfg, s, after, s.tasks[id]);
      }
    }
  }

  lemma EmptyWorkerInv(cfg: Config, s: State, worker: Worker)
    ensures WorkerInv(cfg, s, worker, EMPTY_L1)
  {
  }

  lemma EntryInvLater(cfg: Config, s: State, later: State, sub: string, entry: L1Entry, origin: Origin)
    requires EntryInv(cfg, s, sub, entry, origin) && Later(s, later)
    ensures EntryInv(cfg, later, sub, entry, origin)
  {
  }

  lemma WorkerInvLater(cfg: Config, s: State, later: State, worker: Worker, l1: L1)
    requires WorkerInv(cfg, s, worker, l1) && Later(s, later)
    requires forall sub <- l1.entries.Keys :: (worker, sub) in s.origins ==>
               (worker, sub) in later.origins && later.origins[(worker, sub)] == s.origins[(worker, sub)]
    ensures WorkerInv(cfg, later, worker, l1)
  {
    hide EntryInv, L1WellFormed, Later;
    forall sub <- l1.entries.Keys ensures EntryInv(cfg, later, sub, l1.entries[sub], later.origins[(worker, sub)]) {
      EntryInvLater(cfg, s, later, sub, l1.entries[sub], s.origins[(worker, sub)]);
    }
  }

  lemma WorkerInvAfterGet(cfg: Config, s: State, worker: Worker, l1: L1, sub: string, now: real)
    requires WorkerInv(cfg, s, worker, l1)
    ensures WorkerInv(cfg, s, worker, L1Get(l1, sub, now).0)
  {
    GetStaysWellFormed(l1, sub, now);
    hide EntryInv, L1WellFormed, Remove, MoveToEnd;
  }

  lemma WorkerInvAfterPut(cfg: Config, s: State, later: State, worker: Worker, l1: L1, sub: string, answer: Answer,
                          origin: Origin, now: real)
    requires WorkerInv(cfg, s, worker, l1) && Later(s, later)
    requires later.origins == s.origins[(worker, sub) := origin]
    requires EntryInv(cfg, later, sub, L1Entry(answer, now + Ttl(cfg, answer)), origin)
    ensures WorkerInv(cfg, later, worker, L1Put(cfg, l1, sub, answer, now))
  {
    PutStaysWellFormed(cfg, l1, sub, answer, now);
    var after := L1Put(cfg, l1, sub, answer, now);
    hide EntryInv, L1WellFormed, TakeLast, MoveToEnd, Later;
    forall other <- after.entries.Keys
      ensures (worker, other) in later.origins
      ensures EntryInv(cfg, later, other, after.entries[other], later.origins[(worker, other)])
    {
      if other != sub {
        EntryInvLater(cfg, s, later, other, l1.entries[other], s.origins[(worker, other)]);
      }
    }
  }

  lemma L1InvHolds(cfg: Config, s: State, step: Step, now: real)
    requires Inv(cfg, s) && Enabled(cfg, s, step) && s.clock <= now
    ensures L1Inv(cfg, Next(cfg, s, step, now).0)
  {
    hide Decode, Encode, L1Get, L1Put, WorkerInv, TasksInv, L2Inv, EntryInv, Later;
    var (after, returned) := Next(cfg, s, step, now);
    StepGoesOn(cfg, s, step, now);
    forall worker <- after.l1.Keys ensures WorkerInv(cfg, after, worker, after.l1[worker]) {
      EmptyWorkerInv(cfg, s, worker);
      assert WorkerInv(cfg, s, worker, L1Of(s, worker));
      if step.Begin? && worker == step.worker {
        WorkerInvAfterGet(cfg, s, worker, L1Of(s, worker), step.sub, now);
        WorkerInvLater(cfg, s, after, worker, after.l1[worker]);
      } else if !step.Begin? && returned.Some? && returned.value.origin.Some? && worker == s.tasks[step.id].worker {
        var sub, answer, origin := returned.value.sub, returned.value.answer, returned.value.origin.value;
        PutIsSound(cfg, s, step, now);
        WorkerInvAfterPut(cfg, s, after, worker, L1Of(s, worker), sub, answer, origin, now);
      } else {
        WorkerInvLater(cfg, s, after, worker, after.l1[worker]);
      }
    }
  }

  lemma PutIsSound(cfg: Config, s: State, step: Step, now: real)
    requires Inv(cfg, s) && Enabled(cfg, s, step) && s.clock <= now && !step.Begin?
    ensures var (after, returned) := Next(cfg, s, step, now);
            returned.Some? && returned.value.origin.Some? ==>
              EntryInv(cfg, after, returned.value.sub,
                       L1Entry(returned.value.answer, now + Ttl(cfg, returned.value.answer)),
                       returned.value.origin.value)
  {
    hide L1Get, L1Put, L1Inv, L2Inv, Decode;
    if !step.L2Lose? && !step.L2Overwrite? {
      assert PcInv(cfg, s, s.tasks[step.id]);
    }
  }

  /** What a lookup wrote into the shared store at time `at`, any lookup reads there until the time to live
      of its sign has passed, and not from then on; an identity without a user id is never read. */
  lemma WriteThenRead(cfg: Config, s: State, writer: TaskId, reader: TaskId, at: real, now: real)
    requires Enabled(cfg, s, L2Set(writer, true))
    requires var written := Next(cfg, s, L2Set(writer, true), at).0;
             && Enabled(cfg, written, L2Get(reader, true))
             && written.tasks[reader].sub == s.tasks[writer].sub
    ensures var answer := s.tasks[writer].answer;
            var written := Next(cfg, s, L2Set(writer, true), at).0;
            Next(cfg, written, L2Get(reader, true), now).0.tasks[reader].read
            == if && now < at + (if answer.None? then cfg.negativeTtl else cfg.positiveTtl)
                  && (answer.Some? ==> answer.value.userId != "")
               then Found(answer) else NotFound
  {
    DecodeEncode(s.tasks[writer].answer);
    hide Decode, Encode;
  }

  // --- runs of the cluster ---

  datatype Event = Event(step: Step, now: real)

  ghost predicate Possible(cfg: Config, s: State, event: Event) {
    Enabled(cfg, s, event.step) && s.clock <= event.now
  }

  ghost predicate IsRun(cfg: Config, start: real, events: seq<Event>)
    decreases |events|, 0
  {
    events != [] ==>
      var init := events[..|events| - 1];
      IsRun(cfg, start, init) && Possible(cfg, After(cfg, start, init), events[|events| - 1])
  }

  ghost function After(cfg: Config, start: real, events: seq<Event>): State
    requires IsRun(cfg, start, events)
    decreases |events|, 1
  {
    if events == [] then Init(start) else
      var last := events[|events| - 1];
      Next(cfg, After(cfg, start, events[..|events| - 1]), last.step, last.now).0
  }

  lemma {:induction false} InvAlways(cfg: Config, start: real, events: seq<Event>)
    requires IsRun(cfg, start, events)
    ensures Inv(cfg, After(cfg, start, events))
  {
    if events != [] {
      hide Next, L1Inv, L2Inv, TasksInv;
      var init, last := events[..|events| - 1], events[|events| - 1];
      InvAlways(cfg, start, init);
      L1InvHolds(cfg, After(cfg, start, init), last.step, last.now);
      L2InvHolds(cfg, After(cfg, start, init), last.step, last.now);
      TasksInvHolds(cfg, After(cfg, start, init), last.step, last.now);
    }
  }

  /** Every step of a lookup takes it on, so it is over after at most six. */
  function StepsLeft(pc: Pc): nat {
    match pc
    case AwaitL2Read(_, _) => 5
    case AwaitL2Reply(_, _, _, _, _) => 4
    case AwaitUpstream(_, _) => 3
    case AwaitL2Write(_, _, _, _) => 2
    case AwaitL2Written(_, _, _, _) => 1
  }

  /** What a step makes of its lookup: a failed read of the shared store is a miss, a miss goes to the
      upstream, and the upstream's answer is returned whether or not the store takes it. */
  lemma LookupGoesOn(cfg: Config, s: State, step: Step, now: real)
    requires Enabled(cfg, s, step) && !step.L2Lose? && !step.L2Overwrite?
    ensures var (after, returned) := Next(cfg, s, step, now);
            && (returned.Some? <==> step.id !in after.tasks)
            && (step.id in after.tasks ==>
                  StepsLeft(after.tasks[step.id]) < if step.Begin? then 6 else StepsLeft(s.tasks[step.id]))
            && (step.L2Get? && !step.ok ==> after.tasks[step.id].read == NotFound)
            && (step.L2GetReply? && s.tasks[step.id].read == NotFound ==>
                  after.tasks[step.id] == AwaitUpstream(s.tasks[step.id].worker, s.tasks[step.id].sub))
            && (step.UpstreamReply? && cfg.redis ==>
                  after.tasks[step.id].AwaitL2Write? && after.tasks[step.id].answer == step.answer)
            && (step.L2Set? ==> after.tasks[step.id].AwaitL2Written?
                                && after.tasks[step.id].answer == s.tasks[step.id].answer)
            && (step.L2SetReply? ==> returned.value.answer == s.tasks[step.id].answer)
  {
    hide L1Get, L1Put, Decode, Encode;
  }

  /** Some step of the run put something that decodes to no object under this user's key. */
  ghost predicate Foreign(events: seq<Event>, sub: string) {
    exists event <- events :: event.step == L2Overwrite(sub, NotAnObject)
  }

  ghost predicate OnlyForeignRaises(s: State, events: seq<Event>) {
    && (forall sub <- s.l2.Keys :: Decode(s.l2[sub].value).Raises? ==> Foreign(events, sub))
    && (forall id <- s.tasks.Keys ::
          s.tasks[id].AwaitL2Reply? && s.tasks[id].read.Raises? ==> Foreign(events, s.tasks[id].sub))
  }

  lemma {:induction false} OnlyForeignRaisesAlways(cfg: Config, start: real, events: seq<Event>)
    requires IsRun(cfg, start, events)
    ensures OnlyForeignRaises(After(cfg, start, events), events)
  {
    if events != [] {
      var init, last := events[..|events| - 1], events[|events| - 1];
      OnlyForeignRaisesAlways(cfg, start, init);
      ForeignAfterStep(cfg, After(cfg, start, init), init, last);
      assert init + [last] == events;
    }
  }

  lemma ForeignAfterStep(cfg: Config, s: State, init: seq<Event>, event: Event)
    requires Enabled(cfg, s, event.step) && OnlyForeignRaises(s, init)
    ensures OnlyForeignRaises(Next(cfg, s, event.step, event.now).0, init + [event])
  {
    StaysForeign(init, event);
    hide Foreign, L1Get, L1Put;
    ForeignL2AfterStep(cfg, s, init, event);
    var after := Next(cfg, s, event.step, event.now).0;
    forall id <- after.tasks.Keys | after.tasks[id].AwaitL2Reply? && after.tasks[id].read.Raises?
      ensures Foreign(init + [event], after.tasks[id].sub)
    {
      if event.step.L2Lose? || event.step.L2Overwrite? || id != event.step.id {
        StepKeepsTasks(cfg, s, event.step, event.now, id);
      }
    }
  }

  lemma StaysForeign(init: seq<Event>, event: Event)
    ensures forall sub :: Foreign(init, sub) || event.step == L2Overwrite(sub, NotAnObject) ==>
              Foreign(init + [event], sub)
  {
    assert event in init + [event] && forall e <- init :: e in init + [event];
  }

  lemma ForeignL2AfterStep(cfg: Config, s: State, init: seq<Event>, event: Event)
    requires Enabled(cfg, s, event.step) && OnlyForeignRaises(s, init)
    ensures var after := Next(cfg, s, event.step, event.now).0;
            forall sub <- after.l2.Keys :: Decode(after.l2[sub].value).Raises? ==> Foreign(init + [event], sub)
  {
    StaysForeign(init, event);
    hide Foreign, L1Get, L1Put;
    if event.step.L2Set? {
      DecodeEncode(s.tasks[event.step.id].answer);
    } else if !event.step.L2Lose? && !event.step.L2Overwrite? {
      StepKeepsL2(cfg, s, event.step, event.now);
      hide Next;
    }
  }

  /** How old an answer with this time to live may be, counted from when it was stored. */
  ghost function MaxAge(ttl: real, route: Route): real {
    match route
    case Direct => ttl
    case ViaL2(readAt, putAt) => 2.0 * ttl + (putAt - readAt)
  }

  /** Cluster-wide staleness. Whatever the workers and the shared store do in between, an answer a lookup
      returns is the one the upstream gave for that user, stored less than one time to live ago, or, if
      it came through L2, less than two plus the gap between the L2 read and the L1 put. It never
      compounds further; without a shared store one time to live is the bound. An answer without an
      origin is the None of a lookup that raised, which takes a foreign value under the user's key. */
  lemma AnswersAreRecent(cfg: Config, start: real, events: seq<Event>, event: Event)
    requires 0.0 < cfg.positiveTtl && 0.0 < cfg.negativeTtl
    requires IsRun(cfg, start, events) && Possible(cfg, After(cfg, start, events), event)
    ensures var (after, returned) := Next(cfg, After(cfg, start, events), event.step, event.now);
            returned.Some? ==>
              match returned.value.origin
              case None => returned.value.answer == None && cfg.redis && Foreign(events, returned.value.sub)
              case Some(origin) =>
                && FromUpstream(after, returned.value.sub, returned.value.answer, origin)
                && (returned.value.answer.None? ==>
                      event.now - origin.storedAt < MaxAge(cfg.negativeTtl, origin.route))
                && (returned.value.answer.Some? ==>
                      event.now - origin.storedAt < MaxAge(cfg.positiveTtl, origin.route))
                && (!cfg.redis ==>
                      origin.route.Direct? && origin.storedAt == after.upstream[origin.index].at)
  {
    InvAlways(cfg, start, events);
    OnlyForeignRaisesAlways(cfg, start, events);
    var s := After(cfg, start, events);
    hide After, IsRun, L2Inv, L1Put, Decode, Foreign;
    if event.step.Begin? {
      var l1 := L1Of(s, event.step.worker);
      EmptyWorkerInv(cfg, s, event.step.worker);
      assert WorkerInv(cfg, s, event.step.worker, l1);
    } else {
      PutIsSound(cfg, s, event.step, event.now);
      if !event.step.L2Lose? && !event.step.L2Overwrite? {
        assert PcInv(cfg, s, s.tasks[event.step.id]);
      }
    }
  }

  /** Under any interleaving no worker's L1 ever exceeds its cap. */
  lemma L1IsBounded(cfg: Config, start: real, events: seq<Event>, worker: Worker)
    requires IsRun(cfg, start, events)
    ensures |L1Of(After(cfg, start, events), worker).order| <= cfg.maxL1Entries
  {
    InvAlways(cfg, start, events);
    if worker in After(cfg, start, events).l1 {
      assert WorkerInv(cfg, After(cfg, start, events), worker, L1Of(After(cfg, start, events), worker));
    }
  }

  /** What one step does to a worker's L1. */
  ghost function TouchesOfStep(cfg: Config, s: State, event: Event, worker: Worker): seq<Touch>
    requires Possible(cfg, s, event)
  {
    var returned := Next(cfg, s, event.step, event.now).1;
    if event.step.Begin? then
      var l1, sub := L1Of(s, worker), event.step.sub;
      if event.step.worker != worker || sub !in l1.entries then []
      else if l1.entries[sub].expiresAt <= event.now then [Expired(sub)]
      else [Touched(sub, None)]
    else if returned.None? || returned.value.origin.None? || s.tasks[event.step.id].worker != worker then []
    else
      var answer := returned.value.answer;
      var life := if answer.None? then cfg.negativeTtl else cfg.positiveTtl;
      [Touched(returned.value.sub, Some(L1Entry(answer, event.now + life)))]
  }

  ghost function TouchesOf(cfg: Config, start: real, events: seq<Event>, worker: Worker): seq<Touch>
    requires IsRun(cfg, start, events)
  {
    if events == [] then [] else
      var init := events[..|events| - 1];
      TouchesOf(cfg, start, init, worker)
      + TouchesOfStep(cfg, After(cfg, start, init), events[|events| - 1], worker)
  }

  /** Under any interleaving of lookups every worker's L1 is a true LRU of the touches of that worker. */
  lemma {:induction false} LruAlways(cfg: Config, start: real, events: seq<Event>, worker: Worker)
    requires IsRun(cfg, start, events)
    ensures IsLruOf(cfg, L1Of(After(cfg, start, events), worker), TouchesOf(cfg, start, events, worker))
  {
    hide IsLruOf, L1Get, L1Put;
    if events == [] {
      assert IsLruOf(cfg, EMPTY_L1, []) by { EmptyIsLru(cfg); }
    } else {
      var init := events[..|events| - 1];
      LruAlways(cfg, start, init, worker);
      hide IsRun;
      LruAfterStep(cfg, After(cfg, start, init), events[|events| - 1], worker, TouchesOf(cfg, start, init, worker));
    }
  }

  lemma EmptyIsLru(cfg: Config)
    ensures IsLruOf(cfg, EMPTY_L1, [])
  {
  }

  lemma LruAfterStep(cfg: Config, s: State, event: Event, worker: Worker, touches: seq<Touch>)
    requires Possible(cfg, s, event) && IsLruOf(cfg, L1Of(s, worker), touches)
    ensures IsLruOf(cfg, L1Of(Next(cfg, s, event.step, event.now).0, worker),
                    touches + TouchesOfStep(cfg, s, event, worker))
  {
    hide IsLruOf, L1Put, Decode;
    assert touches + [] == touches;
    var l1 := L1Of(s, worker);
    var returned := Next(cfg, s, event.step, event.now).1;
    if event.step.Begin? {
      if event.step.worker == worker && event.step.sub in l1.entries {
        LruAfterGet(cfg, l1, touches, event.step.sub, event.now);
      }
    } else if returned.Some? && returned.value.origin.Some? && s.tasks[event.step.id].worker == worker {
      LruAfterPut(cfg, l1, touches, returned.value.sub, returned.value.answer, event.now);
    }
  }

  lemma Extend(cfg: Config, start: real, events: seq<Event>, step: Step, now: real)
    requires IsRun(cfg, start, events) && Possible(cfg, After(cfg, start, events), Event(step, now))
    ensures IsRun(cfg, start, events + [Event(step, now)])
    ensures After(cfg, start, events + [Event(step, now)]) == Next(cfg, After(cfg, start, events), step, now).0
  {
    var all := events + [Event(step, now)];
    assert all[..|all| - 1] == events;
  }

  // --- the bound is sharp ---

  /** Both signs: an identity that reads back, or the negative answer. */
  predicate ReadsBack(answer: Answer) { answer.Some? ==> answer.value.userId != "" }

  /** The bound is sharp: for every slack there is a run in which a worker returns an answer that old,
      with no gap between its L2 read and L1 put. */
  lemma TwoTtlIsApproached(cfg: Config, answer: Answer, slack: real) returns (events: seq<Event>, event: Event)
    requires cfg.redis && 0 < cfg.maxL1Entries && ReadsBack(answer)
    requires 0.0 < slack < if answer.None? then cfg.negativeTtl else cfg.positiveTtl
    ensures IsRun(cfg, 0.0, events) && Possible(cfg, After(cfg, 0.0, events), event)
    ensures var returned := Next(cfg, After(cfg, 0.0, events), event.step, event.now).1;
            && returned.Some? && returned.value.answer == answer
            && returned.value.origin.Some?
            && event.now - returned.value.origin.value.storedAt
               == 2.0 * (if answer.None? then cfg.negativeTtl else cfg.positiveTtl) - slack
            && GapFree(returned.value.origin.value)
  {
    var ttl := if answer.None? then cfg.negativeTtl else cfg.positiveTtl;
    var late := ttl - slack / 2.0;
    events := ReadL2(cfg, answer, late);
    PutEntry(cfg, EMPTY_L1, "u", answer, late);
    hide L1Put;
    Extend(cfg, 0.0, events, L2GetReply(1), late);
    events := events + [Event(L2GetReply(1), late)];
    var s3 := After(cfg, 0.0, events);
    assert L1Of(s3, 1).entries["u"] == L1Entry(answer, late + ttl) && 2 !in s3.tasks;
    assert s3.origins[(1, "u")] == Origin(0, 0.0, ViaL2(late, late));
    event := Event(Begin(2, 1, "u"), 2.0 * ttl - slack);
  }

  /** Worker 0 looks up user "u" at time 0 and stores the answer in L2. */
  lemma FillL2(cfg: Config, answer: Answer) returns (events: seq<Event>)
    requires cfg.redis && 0.0 < Ttl(cfg, answer)
    ensures IsRun(cfg, 0.0, events)
    ensures var s := After(cfg, 0.0, events);
            && s.clock == 0.0 && s.tasks.Keys == {0} && 1 !in s.l1 && "u" in s.l2
            && s.l2["u"] == L2Entry(Encode(answer), Ttl(cfg, answer), Origin(0, 0.0, Direct))
  {
    hide L1Put;
    events := [];
    Extend(cfg, 0.0, events, Begin(0, 0, "u"), 0.0);
    events := events + [Event(Begin(0, 0, "u"), 0.0)];
    assert After(cfg, 0.0, events).tasks == map[0 := AwaitL2Read(0, "u")];
    Extend(cfg, 0.0, events, L2Get(0, true), 0.0);
    events := events + [Event(L2Get(0, true), 0.0)];
    assert After(cfg, 0.0, events).tasks == map[0 := AwaitL2Reply(0, "u", NotFound, 0.0, NO_ORIGIN)];
    Extend(cfg, 0.0, events, L2GetReply(0), 0.0);
    events := events + [Event(L2GetReply(0), 0.0)];
    assert After(cfg, 0.0, events).tasks == map[0 := AwaitUpstream(0, "u")];
    Extend(cfg, 0.0, events, UpstreamReply(0, answer), 0.0);
    events := events + [Event(UpstreamReply(0, answer), 0.0)];
    assert After(cfg, 0.0, events).tasks == map[0 := AwaitL2Write(0, "u", answer, 0)];
    Extend(cfg, 0.0, events, L2Set(0, true), 0.0);
    events := events + [Event(L2Set(0, true), 0.0)];
  }

  /** Then worker 1 looks up the same user, and the store reads the answer late in its life. */
  lemma ReadL2(cfg: Config, answer: Answer, late: real) returns (events: seq<Event>)
    requires cfg.redis && 0.0 <= late < Ttl(cfg, answer) && ReadsBack(answer)
    ensures IsRun(cfg, 0.0, events)
    ensures var s := After(cfg, 0.0, events);
            && s.clock == late && s.tasks.Keys == {0, 1} && L1Of(s, 1) == EMPTY_L1
            && s.tasks[1] == AwaitL2Reply(1, "u", Found(answer), late, Origin(0, 0.0, Direct))
  {
    hide L1Put;
    events := FillL2(cfg, answer);
    var s0 := After(cfg, 0.0, events);
    Extend(cfg, 0.0, events, Begin(1, 1, "u"), late);
    events := events + [Event(Begin(1, 1, "u"), late)];
    var s1 := After(cfg, 0.0, events);
    assert s1.l2 == s0.l2 && s1.tasks[1] == AwaitL2Read(1, "u") && s1.clock == late && L1Of(s1, 1) == EMPTY_L1;
    Extend(cfg, 0.0, events, L2Get(1, true), late);
    events := events + [Event(L2Get(1, true), late)];
    DecodeEncode(answer);
  }

  /** The answer came straight from the upstream, or was put into L1 at the very time L2 read it. */
  ghost predicate GapFree(origin: Origin) {
    origin.route.ViaL2? ==> origin.route.putAt == origin.route.readAt
  }

  /** In every run, every answer of this sign that a lookup returns was stored less than one time to live
      ago; with `gapFree` only answers put into L1 at the time of their L2 read are looked at. */
  ghost predicate OneTtlBounds(cfg: Config, known: bool, gapFree: bool) {
    forall start, events, event :: IsRun(cfg, start, events) && Possible(cfg, After(cfg, start, events), event) ==>
      var returned := Next(cfg, After(cfg, start, events), event.step, event.now).1;
      returned.Some? && returned.value.origin.Some? && returned.value.answer.Some? == known ==>
        (gapFree ==> GapFree(returned.value.origin.value)) ==>
          event.now - returned.value.origin.value.storedAt < if known then cfg.positiveTtl else cfg.negativeTtl
  }

  /** Which configurations one time to live bounds, for either sign: exactly those without a shared store,
      and, if the round trips to it are not counted, also those whose workers cache nothing. */
  lemma OneTtlBoundsExactlyIf(cfg: Config, known: bool, gapFree: bool)
    requires 0.0 < cfg.positiveTtl && 0.0 < cfg.negativeTtl
    ensures OneTtlBounds(cfg, known, gapFree) <==> !cfg.redis || (gapFree && cfg.maxL1Entries == 0)
  {
    hide IsRun, After, Next;
    var answer := if known then Some(SelfIdentity("id", None, None)) else None;
    if !cfg.redis || (gapFree && cfg.maxL1Entries == 0) {
      forall start, events, event | IsRun(cfg, start, events) && Possible(cfg, After(cfg, start, events), event)
        ensures var returned := Next(cfg, After(cfg, start, events), event.step, event.now).1;
                returned.Some? && returned.value.origin.Some? ==>
                  (gapFree ==> GapFree(returned.value.origin.value)) ==>
                    event.now - returned.value.origin.value.storedAt < Ttl(cfg, returned.value.answer)
      {
        AnswersAreRecent(cfg, start, events, event);
        if cfg.redis {
          WithoutL1(cfg, start, events, event);
        }
      }
    } else if 0 < cfg.maxL1Entries {
      var events, event := TwoTtlIsApproached(cfg, answer, Ttl(cfg, answer) / 2.0);
    } else {
      var events, event := SlowReply(cfg, answer);
    }
  }

  /** With no room in L1 every answer that came through L2 is returned as soon as it arrives. */
  lemma WithoutL1(cfg: Config, start: real, events: seq<Event>, event: Event)
    requires cfg.maxL1Entries == 0
    requires IsRun(cfg, start, events) && Possible(cfg, After(cfg, start, events), event)
    ensures var returned := Next(cfg, After(cfg, start, events), event.step, event.now).1;
            returned.Some? && returned.value.origin.Some? && returned.value.origin.value.route.ViaL2? ==>
              var origin := returned.value.origin.value;
              && event.now == origin.route.putAt
              && origin.route.readAt < origin.storedAt + Ttl(cfg, returned.value.answer)
  {
    InvAlways(cfg, start, events);
    var s := After(cfg, start, events);
    hide After, IsRun, L2Inv, L1Put, Decode;
    if event.step.Begin? {
      var l1 := L1Of(s, event.step.worker);
      EmptyWorkerInv(cfg, s, event.step.worker);
      assert WorkerInv(cfg, s, event.step.worker, l1);
      assert event.step.sub !in l1.entries;
    } else if event.step.L2GetReply? {
      assert PcInv(cfg, s, s.tasks[event.step.id]);
    }
  }

  /** Even without L1, an answer whose L2 read was answered slowly is more than one time to live old. */
  lemma SlowReply(cfg: Config, answer: Answer) returns (events: seq<Event>, event: Event)
    requires cfg.redis && 0.0 < Ttl(cfg, answer) && ReadsBack(answer)
    ensures IsRun(cfg, 0.0, events) && Possible(cfg, After(cfg, 0.0, events), event)
    ensures var returned := Next(cfg, After(cfg, 0.0, events), event.step, event.now).1;
            && returned.Some? && returned.value.answer == answer
            && returned.value.origin.Some?
            && event.now - returned.value.origin.value.storedAt == 2.0 * Ttl(cfg, answer)
  {
    events := ReadL2(cfg, answer, 0.0);
    hide L1Put, IsRun;
    event := Event(L2GetReply(1), 2.0 * Ttl(cfg, answer));
  }
}
