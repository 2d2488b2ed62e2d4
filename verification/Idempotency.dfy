/**
 * At most one application per (user, idempotency key) while the cached response lives: true of
 * every interleaving in which a keyed call takes at most D seconds from reading the cache to
 * writing it and no call is lost after its commit, exactly when 2 * D <= 30.
 */
module Idempotency {
  import opened Prelude
  import opened CreditApply

  // ---------------------------------------------------------------- what a call is doing

  /** It has read the cache, found nothing, and not tried the lock yet. */
  predicate Waiting(c: Call) { Keyed(c.req) && c.phase == Missed }

  /** It has claimed the idempotency lock and is still on its way to the cache write. */
  predicate Holding(c: Call) {
    Keyed(c.req) && c.phase in {Ready, Locked, Evaluated, Committed, Unlocked}
  }

  /** It has created an application and written its response to the cache. */
  predicate Wrote(c: Call) { Keyed(c.req) && c.phase == Replied && c.application.Some? }

  /** It was answered from the cache. */
  predicate Hit(c: Call) { Keyed(c.req) && c.phase == Replied && c.application.None? }

  predicate SameSlot(c: Call, d: Call) {
    Keyed(c.req) && Keyed(d.req) && c.req.user == d.req.user && c.req.key == d.req.key
  }

  // ---------------------------------------------------------------- assumptions on a run

  /** No keyed call has been on its way for more than D seconds since it read the cache. */
  ghost predicate Timely(s: State, D: nat) {
    forall i :: 0 <= i < |s.calls| && (Waiting(s.calls[i]) || Holding(s.calls[i])) ==> s.now <= s.calls[i].readAt + D
  }

  /** No call has failed after it committed an application. */
  ghost predicate NothingLost(s: State) {
    forall i :: 0 <= i < |s.calls| && s.calls[i].phase in {Raising, Failed} ==> s.calls[i].application.None?
  }

  ghost predicate GoodRun(p: Policy, run: seq<State>, D: nat) {
    IsRun(p, run) && forall i :: 0 <= i < |run| ==> Timely(run[i], D) && NothingLost(run[i])
  }

  // ---------------------------------------------------------------- the guarantee

  /** For one (user, key): a later application's call read the cache after the earlier response had expired from it. */
  ghost predicate OncePerLife(s: State) {
    forall i, j :: 0 <= i < |s.calls| && 0 <= j < |s.calls| && SameSlot(s.calls[i], s.calls[j])
                   && s.calls[i].application.Some? && s.calls[j].application.Some?
                   && s.calls[i].application.value < s.calls[j].application.value ==>
                     Wrote(s.calls[i]) && s.calls[j].readAt > s.calls[i].wroteAt + CACHE_TTL
  }

  // ---------------------------------------------------------------- the invariant

  predicate LockKept(s: State, c: Call, id: nat)
    requires Keyed(c.req)
  {
    SlotOf(c.req) in s.keyLocks && s.keyLocks[SlotOf(c.req)] == Claim(c.claimedAt + LOCK_TTL, id)
  }

  predicate ResponseKept(s: State, c: Call)
    requires Keyed(c.req)
  {
    && (s.now <= c.wroteAt + CACHE_TTL ==>
          SlotOf(c.req) in s.cache && s.cache[SlotOf(c.req)] == Cached(ResponseOf(c), c.wroteAt + CACHE_TTL))
    && (s.now <= c.claimedAt + LOCK_TTL ==>
          SlotOf(c.req) in s.keyLocks && s.keyLocks[SlotOf(c.req)].expiry == c.claimedAt + LOCK_TTL)
  }

  /** The cached response came from call `c` and was alive when call `b` read it. */
  predicate AnsweredBy(b: Call, c: Call) {
    Wrote(c) && SameSlot(b, c) && b.reply == Some(ResponseOf(c)) && c.wroteAt <= b.readAt <= c.wroteAt + CACHE_TTL
  }

  ghost predicate CallOk(s: State, D: nat, i: nat)
    requires i < |s.calls|
  {
    var c := s.calls[i];
    && (Waiting(c) ==> c.readAt <= s.now)
    && (Holding(c) ==> c.readAt <= c.claimedAt <= s.now && LockKept(s, c, i))
    && (Wrote(c) ==> c.readAt <= c.claimedAt <= c.wroteAt <= s.now && c.wroteAt <= c.readAt + D && ResponseKept(s, c))
    && (Wrote(c) ==> c.reply == Some(ResponseOf(c)))
    && (c.application.Some? ==> c.phase in {Committed, Unlocked, Replied} && c.application.value < |s.apps|)
    && (c.phase in {Committed, Unlocked} ==> c.application.Some?)
    && (c.phase in {Arrived, Missed} ==> Keyed(c.req))
    && (Hit(c) ==> exists k :: 0 <= k < |s.calls| && AnsweredBy(c, s.calls[k]))
  }

  predicate Precedes(c: Call, b: Call) {
    c.application.Some? && (b.application.None? || c.application.value < b.application.value)
  }

  predicate PairOk(c: Call, b: Call) {
    && (c.application.Some? && b.application.Some? ==> c.application.value != b.application.value)
    && (SameSlot(c, b) ==>
          && (Wrote(c) && Waiting(b) ==> b.readAt <= c.wroteAt || b.readAt > c.wroteAt + CACHE_TTL)
          && (Precedes(c, b) && (Holding(b) || Wrote(b)) ==> Wrote(c) && b.readAt > c.wroteAt + CACHE_TTL))
  }

  predicate CacheOk(s: State, slot: Slot, c: Call)
    requires slot in s.cache
  {
    Wrote(c) && SlotOf(c.req) == slot && s.cache[slot] == Cached(ResponseOf(c), c.wroteAt + CACHE_TTL)
  }

  ghost predicate Calls(s: State, D: nat) { forall i: nat :: i < |s.calls| ==> CallOk(s, D, i) }

  ghost predicate Pairs(s: State) {
    forall i: nat, j: nat :: i < |s.calls| && j < |s.calls| && i != j ==> PairOk(s.calls[i], s.calls[j])
  }

  ghost predicate CacheFilled(s: State) {
    forall slot :: slot in s.cache ==> exists k :: 0 <= k < |s.calls| && CacheOk(s, slot, s.calls[k])
  }

  ghost predicate Inv(s: State, D: nat) { Calls(s, D) && Pairs(s) && CacheFilled(s) }

  // ---------------------------------------------------------------- each step keeps it

  /** Replacing a call that has not written its response leaves every other call's witness in place. */
  lemma WitnessesStay(s: State, t: State, D: nat, id: nat, i: nat)
    requires Calls(s, D) && id < |s.calls| <= |t.calls| && i < |s.calls| && i != id
    requires !Wrote(s.calls[id]) && forall j :: 0 <= j < |s.calls| && j != id ==> t.calls[j] == s.calls[j]
    ensures Hit(t.calls[i]) ==> exists k :: 0 <= k < |t.calls| && AnsweredBy(t.calls[i], t.calls[k])
  {
    assert CallOk(s, D, i);
    if Hit(s.calls[i]) {
      var k :| 0 <= k < |s.calls| && AnsweredBy(s.calls[i], s.calls[k]);
      assert t.calls[k] == s.calls[k];
    }
  }

  lemma CacheStays(s: State, t: State, id: nat)
    requires CacheFilled(s) && id < |s.calls| <= |t.calls| && t.cache == s.cache
    requires !Wrote(s.calls[id]) && forall j :: 0 <= j < |s.calls| && j != id ==> t.calls[j] == s.calls[j]
    ensures CacheFilled(t)
  {
    forall slot | slot in t.cache
      ensures exists k :: 0 <= k < |t.calls| && CacheOk(t, slot, t.calls[k])
    {
      var k :| 0 <= k < |s.calls| && CacheOk(s, slot, s.calls[k]);
      assert CacheOk(t, slot, t.calls[k]);
    }
  }

  /** A step of call `id` that writes neither the cache nor the key locks and creates nothing. */
  lemma QuietStep(s: State, t: State, D: nat, id: nat)
    requires Inv(s, D) && id < |s.calls| && !Wrote(s.calls[id])
    requires t.now == s.now && t.cache == s.cache && t.keyLocks == s.keyLocks && t.apps == s.apps
    requires |t.calls| == |s.calls| && t.calls == s.calls[id := t.calls[id]]
    requires CallOk(t, D, id)
    requires forall j :: 0 <= j < |s.calls| && j != id ==>
               PairOk(s.calls[j], t.calls[id]) && PairOk(t.calls[id], s.calls[j])
    ensures Inv(t, D)
  {
    forall i: nat | i < |t.calls|
      ensures CallOk(t, D, i)
    {
      if i != id {
        assert CallOk(s, D, i);
        WitnessesStay(s, t, D, id, i);
      }
    }
    forall i: nat, j: nat | i < |t.calls| && j < |t.calls| && i != j
      ensures PairOk(t.calls[i], t.calls[j])
    {
      assert PairOk(s.calls[i], s.calls[j]);
    }
    CacheStays(s, t, id);
  }

  lemma ReadCall(s: State, D: nat, id: nat)
    requires Inv(s, D) && At(s, id, {Arrived})
    ensures CallOk(AfterRead(s, id), D, id)
  {
    var t := AfterRead(s, id);
    assert CallOk(s, D, id);
    var slot := SlotOf(s.calls[id].req);
    if CacheLive(s, slot) {
      var k :| 0 <= k < |s.calls| && CacheOk(s, slot, s.calls[k]);
      assert CallOk(s, D, k);
      assert AnsweredBy(t.calls[id], t.calls[k]);
    }
  }

  lemma ReadKeeps(s: State, D: nat, id: nat)
    requires Inv(s, D) && At(s, id, {Arrived})
    ensures Inv(AfterRead(s, id), D)
  {
    var c, t := s.calls[id], AfterRead(s, id);
    ReadCall(s, D, id);
    assert CallOk(s, D, id);
    forall j: nat | j < |s.calls| && j != id
      ensures PairOk(s.calls[j], t.calls[id]) && PairOk(t.calls[id], s.calls[j])
    {
      assert PairOk(s.calls[j], c) && PairOk(c, s.calls[j]) && CallOk(s, D, j);
    }
    QuietStep(s, t, D, id);
  }

  /** While a call of the same slot holds the lock or has just written, the SETNX of a timely waiting call fails. */
  lemma ClaimFindsNoRival(s: State, D: nat, id: nat, j: nat)
    requires Inv(s, D) && Timely(s, D) && 2 * D <= LOCK_TTL
    requires At(s, id, {Missed}) && Keyed(s.calls[id].req) && !KeyLockLive(s, SlotOf(s.calls[id].req))
    requires j < |s.calls| && j != id && SameSlot(s.calls[j], s.calls[id])
    ensures !Holding(s.calls[j])
    ensures s.calls[j].application.Some? ==> Wrote(s.calls[j]) && s.calls[id].readAt > s.calls[j].wroteAt + CACHE_TTL
    ensures Wrote(s.calls[j]) ==> s.now > s.calls[j].claimedAt + LOCK_TTL
  {
    assert CallOk(s, D, id) && CallOk(s, D, j) && PairOk(s.calls[j], s.calls[id]);
  }

  lemma ClaimWinsCalls(s: State, D: nat, id: nat)
    requires Inv(s, D) && Timely(s, D) && 2 * D <= LOCK_TTL && At(s, id, {Missed})
    requires Keyed(s.calls[id].req) && !KeyLockLive(s, SlotOf(s.calls[id].req))
    ensures Calls(AfterClaimKey(s, id), D)
  {
    var c, t := s.calls[id], AfterClaimKey(s, id);
    forall i: nat | i < |t.calls|
      ensures CallOk(t, D, i)
    {
      assert CallOk(s, D, i);
      if i != id {
        WitnessesStay(s, t, D, id, i);
        if SameSlot(s.calls[i], c) {
          ClaimFindsNoRival(s, D, id, i);
        }
      }
    }
  }

  lemma ClaimWinsPairs(s: State, D: nat, id: nat)
    requires Inv(s, D) && Timely(s, D) && 2 * D <= LOCK_TTL && At(s, id, {Missed})
    requires Keyed(s.calls[id].req) && !KeyLockLive(s, SlotOf(s.calls[id].req))
    ensures Pairs(AfterClaimKey(s, id))
  {
    var c, t := s.calls[id], AfterClaimKey(s, id);
    forall i: nat, j: nat | i < |t.calls| && j < |t.calls| && i != j
      ensures PairOk(t.calls[i], t.calls[j])
    {
      assert PairOk(s.calls[i], s.calls[j]);
      if j == id && SameSlot(s.calls[i], c) {
        ClaimFindsNoRival(s, D, id, i);
      }
    }
  }

  lemma ClaimKeyKeeps(s: State, D: nat, id: nat)
    requires Inv(s, D) && Timely(s, D) && 2 * D <= LOCK_TTL && At(s, id, {Missed})
    ensures Inv(AfterClaimKey(s, id), D)
  {
    var c, t := s.calls[id], AfterClaimKey(s, id);
    assert CallOk(s, D, id);
    if KeyLockLive(s, SlotOf(c.req)) {
      forall j: nat | j < |s.calls| && j != id
        ensures PairOk(s.calls[j], t.calls[id]) && PairOk(t.calls[id], s.calls[j])
      {
        assert PairOk(s.calls[j], c) && PairOk(c, s.calls[j]);
      }
      QuietStep(s, t, D, id);
    } else {
      ClaimWinsCalls(s, D, id);
      ClaimWinsPairs(s, D, id);
      CacheStays(s, t, id);
    }
  }

  /** Steps under the portfolio lock before the commit, and failures, change nothing the invariant looks at. */
  lemma InnerKeeps(s: State, D: nat, id: nat, c': Call)
    requires Inv(s, D) && id < |s.calls|
    requires var c := s.calls[id];
             && c'.req == c.req && c'.readAt == c.readAt && c'.claimedAt == c.claimedAt
             && c'.application == c.application
             && if c.phase in {Ready, Locked, Evaluated} then c'.phase in {Locked, Evaluated, Conflicted, Raising}
                else if c.phase == Raising then c'.phase == Failed
                else c.phase == Committed && c'.phase == Unlocked
    ensures Inv(SetCall(s, id, c'), D)
    ensures forall portfolio :: Inv(SetCall(s.(portfolio := portfolio), id, c'), D)
  {
    assert CallOk(s, D, id);
    forall j: nat | j < |s.calls| && j != id
      ensures PairOk(s.calls[j], c') && PairOk(c', s.calls[j])
    {
      assert PairOk(s.calls[j], s.calls[id]) && PairOk(s.calls[id], s.calls[j]);
    }
    QuietStep(s, SetCall(s, id, c'), D, id);
    forall portfolio
      ensures Inv(SetCall(s.(portfolio := portfolio), id, c'), D)
    {
      QuietStep(s, SetCall(s.(portfolio := portfolio), id, c'), D, id);
    }
  }

  /** Two calls of one slot never hold the idempotency lock together. */
  lemma OneHolder(s: State, D: nat, i: nat, j: nat)
    requires Calls(s, D) && i < |s.calls| && j < |s.calls| && SameSlot(s.calls[i], s.calls[j])
    requires Holding(s.calls[i]) && Holding(s.calls[j])
    ensures i == j
  {
    assert CallOk(s, D, i) && CallOk(s, D, j);
  }

  lemma CommitKeeps(s: State, D: nat, id: nat)
    requires Inv(s, D) && At(s, id, {Evaluated})
    ensures Inv(AfterCommit(s, id), D)
  {
    var c, t := s.calls[id], AfterCommit(s, id);
    assert CallOk(s, D, id);
    forall i: nat | i < |t.calls|
      ensures CallOk(t, D, i)
    {
      assert CallOk(s, D, i);
      if i != id {
        WitnessesStay(s, t, D, id, i);
      }
    }
    forall i: nat, j: nat | i < |t.calls| && j < |t.calls| && i != j
      ensures PairOk(t.calls[i], t.calls[j])
    {
      assert PairOk(s.calls[i], s.calls[j]) && CallOk(s, D, i) && CallOk(s, D, j);
      if i == id && SameSlot(c, s.calls[j]) && Holding(s.calls[j]) {
        OneHolder(s, D, id, j);
      }
    }
    CacheStays(s, t, id);
  }

  /** When a call answers, no other call of its slot is on its way and every earlier response has expired. */
  lemma ReplyIsAlone(s: State, D: nat, id: nat, j: nat)
    requires Inv(s, D) && At(s, id, {Unlocked}) && Keyed(s.calls[id].req)
    requires j < |s.calls| && j != id && SameSlot(s.calls[j], s.calls[id])
    ensures !Holding(s.calls[j])
    ensures s.calls[j].application.Some? ==>
              Wrote(s.calls[j]) && Precedes(s.calls[j], s.calls[id]) && s.now > s.calls[j].wroteAt + CACHE_TTL
  {
    assert CallOk(s, D, id) && CallOk(s, D, j) && PairOk(s.calls[j], s.calls[id]) && PairOk(s.calls[id], s.calls[j]);
    if Holding(s.calls[j]) {
      OneHolder(s, D, id, j);
    }
  }

  lemma ReplyKeepsCalls(s: State, D: nat, id: nat)
    requires Inv(s, D) && Timely(s, D) && At(s, id, {Unlocked})
    ensures Calls(AfterReply(s, id), D)
  {
    var c, t := s.calls[id], AfterReply(s, id);
    assert CallOk(s, D, id);
    forall i: nat | i < |t.calls|
      ensures CallOk(t, D, i)
    {
      assert CallOk(s, D, i);
      if i != id {
        WitnessesStay(s, t, D, id, i);
        if SameSlot(s.calls[i], c) {
          ReplyIsAlone(s, D, id, i);
        }
      }
    }
  }

  lemma ReplyKeepsPairs(s: State, D: nat, id: nat)
    requires Inv(s, D) && Timely(s, D) && At(s, id, {Unlocked})
    ensures Pairs(AfterReply(s, id))
  {
    var c, t := s.calls[id], AfterReply(s, id);
    forall i: nat, j: nat | i < |t.calls| && j < |t.calls| && i != j
      ensures PairOk(t.calls[i], t.calls[j])
    {
      assert PairOk(s.calls[i], s.calls[j]) && CallOk(s, D, i) && CallOk(s, D, j);
      if i == id && SameSlot(c, s.calls[j]) {
        ReplyIsAlone(s, D, id, j);
      }
    }
  }

  lemma ReplyKeeps(s: State, D: nat, id: nat)
    requires Inv(s, D) && Timely(s, D) && At(s, id, {Unlocked})
    ensures Inv(AfterReply(s, id), D)
  {
    assert CallOk(s, D, id);
    ReplyKeepsCalls(s, D, id);
    ReplyKeepsPairs(s, D, id);
    ReplyFillsCache(s, id);
  }

  lemma ReplyFillsCache(s: State, id: nat)
    requires CacheFilled(s) && At(s, id, {Unlocked}) && (Keyed(s.calls[id].req) ==> s.calls[id].application.Some?)
    ensures CacheFilled(AfterReply(s, id))
  {
    var c, t := s.calls[id], AfterReply(s, id);
    forall slot | slot in t.cache
      ensures exists k :: 0 <= k < |t.calls| && CacheOk(t, slot, t.calls[k])
    {
      if Keyed(c.req) && slot == SlotOf(c.req) {
        assert CacheOk(t, slot, t.calls[id]);
      } else {
        var k :| 0 <= k < |s.calls| && CacheOk(s, slot, s.calls[k]);
        assert CacheOk(t, slot, t.calls[k]);
      }
    }
  }

  lemma TickKeeps(s: State, D: nat, until: int)
    requires Inv(s, D) && s.now <= until
    ensures Inv(s.(now := until), D)
  {
    var t := s.(now := until);
    forall i: nat | i < |t.calls|
      ensures CallOk(t, D, i)
    {
      assert CallOk(s, D, i);
    }
    forall slot | slot in t.cache
      ensures exists k :: 0 <= k < |t.calls| && CacheOk(t, slot, t.calls[k])
    {
      var k :| 0 <= k < |s.calls| && CacheOk(s, slot, s.calls[k]);
      assert CacheOk(t, slot, t.calls[k]);
    }
  }

  lemma ArriveKeeps(s: State, D: nat, r: Request)
    requires Inv(s, D)
    ensures Inv(s.(calls := s.calls + [NewCall(s, r)]), D)
  {
    var t := s.(calls := s.calls + [NewCall(s, r)]);
    forall i: nat | i < |t.calls|
      ensures CallOk(t, D, i)
    {
      if i < |s.calls| {
        assert CallOk(s, D, i) && t.calls[i] == s.calls[i];
        if Hit(s.calls[i]) {
          var k :| 0 <= k < |s.calls| && AnsweredBy(s.calls[i], s.calls[k]);
          assert AnsweredBy(t.calls[i], t.calls[k]);
        }
      }
    }
    forall i: nat, j: nat | i < |t.calls| && j < |t.calls| && i != j
      ensures PairOk(t.calls[i], t.calls[j])
    {
      if i < |s.calls| && j < |s.calls| {
        assert PairOk(s.calls[i], s.calls[j]);
      }
    }
    forall slot | slot in t.cache
      ensures exists k :: 0 <= k < |t.calls| && CacheOk(t, slot, t.calls[k])
    {
      var k :| 0 <= k < |s.calls| && CacheOk(s, slot, s.calls[k]);
      assert CacheOk(t, slot, t.calls[k]);
    }
  }

  lemma StepKeeps(p: Policy, s: State, a: Action, D: nat)
    requires Inv(s, D) && Timely(s, D) && 2 * D <= LOCK_TTL && Enabled(p, s, a) && NothingLost(Next(p, s, a))
    ensures Inv(Next(p, s, a), D)
  {
    match a
    case Tick(until) => TickKeeps(s, D, until);
    case Arrive(r) => ArriveKeeps(s, D, r);
    case ReadCache(id) => ReadKeeps(s, D, id);
    case ClaimKey(id) => ClaimKeyKeeps(s, D, id);
    case ClaimPortfolio(id) => InnerKeeps(s, D, id, Next(p, s, a).calls[id]);
    case Evaluate(id, d) => InnerKeeps(s, D, id, Next(p, s, a).calls[id]);
    case Commit(id) => CommitKeeps(s, D, id);
    case Raise(id) =>
      assert CallOk(s, D, id);
      assert Next(p, s, a).calls[id].application.None?;
      InnerKeeps(s, D, id, Next(p, s, a).calls[id]);
    case Release(id) => InnerKeeps(s, D, id, Next(p, s, a).calls[id]);
    case Reply(id) => ReplyKeeps(s, D, id);
  }

  lemma {:induction false} RunKeeps(p: Policy, run: seq<State>, D: nat, n: nat)
    requires GoodRun(p, run, D) && 2 * D <= LOCK_TTL && n < |run|
    ensures Inv(run[n], D)
  {
    if n > 0 {
      RunKeeps(p, run, D, n - 1);
      assert Step(p, run[n - 1], run[n - 1 + 1]);
      var a :| Enabled(p, run[n - 1], a) && run[n] == Next(p, run[n - 1], a);
      StepKeeps(p, run[n - 1], a, D);
    }
  }

  // ---------------------------------------------------------------- the theorems

  /** At most one application per slot is created while the earlier cached response lives. */
  lemma AtMostOnePerLife(p: Policy, run: seq<State>, D: nat)
    requires GoodRun(p, run, D) && 2 * D <= LOCK_TTL
    ensures OncePerLife(Last(run))
  {
    var s := Last(run);
    RunKeeps(p, run, D, |run| - 1);
    forall i, j | 0 <= i < |s.calls| && 0 <= j < |s.calls| && SameSlot(s.calls[i], s.calls[j])
                  && s.calls[i].application.Some? && s.calls[j].application.Some?
                  && s.calls[i].application.value < s.calls[j].application.value
      ensures Wrote(s.calls[i]) && s.calls[j].readAt > s.calls[i].wroteAt + CACHE_TTL
    {
      assert CallOk(s, D, i) && CallOk(s, D, j) && PairOk(s.calls[i], s.calls[j]);
    }
  }

  /** While one response is cached no other response of its slot is, so any two written responses lived apart. */
  lemma LivesApart(s: State, D: nat, c: nat, k: nat)
    requires Inv(s, D) && c < |s.calls| && k < |s.calls| && c != k && SameSlot(s.calls[c], s.calls[k])
    requires Wrote(s.calls[c]) && Wrote(s.calls[k])
    ensures s.calls[k].readAt > s.calls[c].wroteAt + CACHE_TTL || s.calls[c].readAt > s.calls[k].wroteAt + CACHE_TTL
    ensures s.calls[c].readAt <= s.calls[c].wroteAt && s.calls[k].readAt <= s.calls[k].wroteAt
  {
    assert PairOk(s.calls[c], s.calls[k]) && PairOk(s.calls[k], s.calls[c]) && CallOk(s, D, c) && CallOk(s, D, k);
  }

  /**
   * Every successful reply of a slot that was read while a response of that slot was cached is that response, for
   * every life.
   */
  lemma RepliesAgree(p: Policy, run: seq<State>, D: nat, c: nat, b: nat)
    requires GoodRun(p, run, D) && 2 * D <= LOCK_TTL
    requires c < |Last(run).calls| && b < |Last(run).calls| && Wrote(Last(run).calls[c])
    requires SameSlot(Last(run).calls[b], Last(run).calls[c]) && Last(run).calls[b].phase == Replied
    requires Last(run).calls[c].wroteAt <= Last(run).calls[b].readAt <= Last(run).calls[c].wroteAt + CACHE_TTL
    ensures Last(run).calls[b].reply == Some(ResponseOf(Last(run).calls[c]))
  {
    var s := Last(run);
    RunKeeps(p, run, D, |run| - 1);
    assert CallOk(s, D, c) && CallOk(s, D, b);
    if Hit(s.calls[b]) {
      var k :| 0 <= k < |s.calls| && AnsweredBy(s.calls[b], s.calls[k]);
      if k != c {
        LivesApart(s, D, c, k);
      }
    } else if b != c {
      LivesApart(s, D, c, b);
    }
  }

  /** The first response of a slot is also the reply of every call that read before it was written. */
  lemma FirstRepliesAgree(p: Policy, run: seq<State>, D: nat, first: nat, b: nat)
    requires GoodRun(p, run, D) && 2 * D <= LOCK_TTL
    requires first < |Last(run).calls| && b < |Last(run).calls| && Wrote(Last(run).calls[first])
    requires forall k :: 0 <= k < |Last(run).calls| && SameSlot(Last(run).calls[k], Last(run).calls[first]) ==>
               !Precedes(Last(run).calls[k], Last(run).calls[first])
    requires SameSlot(Last(run).calls[b], Last(run).calls[first]) && Last(run).calls[b].phase == Replied
    requires Last(run).calls[b].readAt <= Last(run).calls[first].wroteAt + CACHE_TTL
    ensures Last(run).calls[b].reply == Some(ResponseOf(Last(run).calls[first]))
  {
    var s := Last(run);
    RunKeeps(p, run, D, |run| - 1);
    assert CallOk(s, D, first) && CallOk(s, D, b);
    forall k: nat | k < |s.calls| && k != first && Wrote(s.calls[k]) && SameSlot(s.calls[k], s.calls[first])
      ensures s.calls[k].readAt > s.calls[first].wroteAt + CACHE_TTL
    {
      assert PairOk(s.calls[first], s.calls[k]) && !Precedes(s.calls[k], s.calls[first]);
    }
    if Hit(s.calls[b]) {
      var k :| 0 <= k < |s.calls| && AnsweredBy(s.calls[b], s.calls[k]);
      assert CallOk(s, D, k);
    }
  }

  // ---------------------------------------------------------------- the bound is exact

  /** A state at the end of a good run. */
  ghost predicate Reached(p: Policy, s: State, D: nat) { exists run :: GoodRun(p, run, D) && Last(run) == s }

  lemma Advance(p: Policy, s: State, a: Action, D: nat) returns (t: State)
    requires Reached(p, s, D) && Enabled(p, s, a) && Timely(Next(p, s, a), D) && NothingLost(Next(p, s, a))
    ensures Reached(p, t, D) && t == Next(p, s, a)
  {
    var run :| GoodRun(p, run, D) && Last(run) == s;
    ExtendPath(p, run, a);
    t := Next(p, s, a);
    var longer := run + [t];
    assert forall i :: 0 <= i < |run| ==> longer[i] == run[i];
    assert GoodRun(p, longer, D) && Last(longer) == t;
  }

  lemma AtStart(p: Policy, D: nat)
    ensures Reached(p, START, D)
  {
    var run := [START];
    assert GoodRun(p, run, D) && Last(run) == START;
  }

  const TWICE: Request := Request("u", Some("k"), 0)

  /** A call of the counterexample: it read the cache at `r`, claimed both locks at `t`, and is in `phase`. */
  function CallAt(phase: Phase, r: int, t: int, application: Option<nat>): Call {
    Call(TWICE, phase, r, t, t, 0, NO_DECISION, application, None)
  }

  function Row(caller: nat): Application { Application(caller, "u", 0, NO_DECISION) }

  const KEY: Slot := Slot("u", "k")

  /** The first call has committed and left the portfolio lock; it has not written the cache. */
  const FIRST_COMMITTED: State :=
    State(0, map[], map[KEY := Claim(30, 0)], map[], [CallAt(Unlocked, 0, 0, Some(0))], [Row(0)])

  lemma FirstClaims(p: Policy, D: nat) returns (s: State)
    ensures Reached(p, s, D)
    ensures s == State(0, map[], map[KEY := Claim(30, 0)], map[], [CallAt(Ready, 0, 0, None)], [])
  {
    AtStart(p, D);
    s := Advance(p, START, Arrive(TWICE), D);
    s := Advance(p, s, ReadCache(0), D);
    s := Advance(p, s, ClaimKey(0), D);
  }

  lemma FirstLocks(p: Policy, D: nat) returns (s: State)
    ensures Reached(p, s, D)
    ensures s == FIRST_COMMITTED.(portfolio := map["u" := Claim(30, 0)], calls := [CallAt(Locked, 0, 0, None)],
                                  apps := [])
  {
    s := FirstClaims(p, D);
    s := Advance(p, s, ClaimPortfolio(0), D);
  }

  lemma FirstCreates(p: Policy, D: nat) returns (s: State)
    ensures Reached(p, s, D)
    ensures s == FIRST_COMMITTED.(portfolio := map["u" := Claim(30, 0)], calls := [CallAt(Committed, 0, 0, Some(0))])
  {
    s := FirstLocks(p, D);
    s := Advance(p, s, Evaluate(0, NO_DECISION), D);
    s := Advance(p, s, Commit(0), D);
  }

  lemma FirstCommits(p: Policy, D: nat) returns (s: State)
    ensures Reached(p, s, D) && s == FIRST_COMMITTED
  {
    s := FirstCreates(p, D);
    s := Advance(p, s, Release(0), D);
    assert s.portfolio == map[];
  }

  /**
   * The second call reads the empty cache at 16, just before the first writes it; at 31 it is about to try the
   * lock.
   */
  const SECOND_WAITING: State :=
    State(31, map[KEY := Cached(Response(0, NO_DECISION), 16 + CACHE_TTL)], map[KEY := Claim(30, 0)], map[],
          [CallAt(Replied, 0, 0, Some(0)).(wroteAt := 16, reply := Some(Response(0, NO_DECISION))),
           Call(TWICE, Missed, 16, 0, 0, 0, NO_DECISION, None, None)],
          [Row(0)])

  /** The second call has read the empty cache, and the first one is about to write it. */
  lemma SecondReads(p: Policy, D: nat) returns (s: State)
    requires 2 * D > LOCK_TTL
    ensures Reached(p, s, D)
    ensures s == FIRST_COMMITTED.(now := 16, calls := [CallAt(Unlocked, 0, 0, Some(0)), SECOND_WAITING.calls[1]])
  {
    s := FirstCommits(p, D);
    s := Advance(p, s, Arrive(TWICE), D);
    s := Advance(p, s, Tick(16), D);
    s := Advance(p, s, ReadCache(1), D);
  }

  lemma SecondWaits(p: Policy, D: nat) returns (s: State)
    requires 2 * D > LOCK_TTL
    ensures Reached(p, s, D) && s == SECOND_WAITING
  {
    s := SecondReads(p, D);
    s := Advance(p, s, Reply(0), D);
    s := Advance(p, s, Tick(31), D);
  }

  lemma SecondLocks(p: Policy, D: nat) returns (s: State)
    requires 2 * D > LOCK_TTL
    ensures Reached(p, s, D)
    ensures s == SECOND_WAITING.(keyLocks := map[KEY := Claim(61, 1)], portfolio := map["u" := Claim(61, 1)],
                                 calls := [SECOND_WAITING.calls[0],
                                   Call(TWICE, Locked, 16, 31, 31, 0, NO_DECISION, None, None)])
  {
    s := SecondWaits(p, D);
    s := Advance(p, s, ClaimKey(1), D);
    s := Advance(p, s, ClaimPortfolio(1), D);
  }

  /** With any larger bound, two applications are created for one key while the first response is cached. */
  lemma TwiceWithinOneLife(p: Policy, D: nat) returns (s: State)
    requires 2 * D > LOCK_TTL
    ensures Reached(p, s, D) && !OncePerLife(s)
  {
    s := SecondLocks(p, D);
    s := Advance(p, s, Evaluate(1, NO_DECISION), D);
    s := Advance(p, s, Commit(1), D);
    assert SameSlot(s.calls[0], s.calls[1]) && s.calls[0].application == Some(0) && s.calls[1].application == Some(1);
  }

  /** The guarantee holds in all good runs exactly when two bounded calls fit into one lock lifetime. */
  lemma OncePerLifeIff(p: Policy, D: nat)
    ensures (forall run :: GoodRun(p, run, D) ==> OncePerLife(Last(run))) <==> 2 * D <= LOCK_TTL
  {
    if 2 * D <= LOCK_TTL {
      forall run | GoodRun(p, run, D)
        ensures OncePerLife(Last(run))
      {
        AtMostOnePerLife(p, run, D);
      }
    } else {
      var s := TwiceWithinOneLife(p, D);
      var run :| GoodRun(p, run, D) && Last(run) == s;
      assert !OncePerLife(Last(run));
    }
  }

  // ---------------------------------------------------------------- a response that is lost

  ghost predicate TimelyRun(p: Policy, run: seq<State>, D: nat) {
    IsRun(p, run) && forall i :: 0 <= i < |run| ==> Timely(run[i], D)
  }

  /** A state at the end of such a run, in which calls may have failed anywhere. */
  ghost predicate ReachedLossy(p: Policy, s: State, D: nat) { exists run :: TimelyRun(p, run, D) && Last(run) == s }

  lemma AdvanceLossy(p: Policy, s: State, a: Action, D: nat) returns (t: State)
    requires ReachedLossy(p, s, D) && Enabled(p, s, a) && Timely(Next(p, s, a), D)
    ensures ReachedLossy(p, t, D) && t == Next(p, s, a)
  {
    var run :| TimelyRun(p, run, D) && Last(run) == s;
    ExtendPath(p, run, a);
    t := Next(p, s, a);
    var longer := run + [t];
    assert forall i :: 0 <= i < |run| ==> longer[i] == run[i];
    assert TimelyRun(p, longer, D) && Last(longer) == t;
  }

  lemma GoodIsLossy(p: Policy, s: State, D: nat)
    requires Reached(p, s, D)
    ensures ReachedLossy(p, s, D)
  {
    var run :| GoodRun(p, run, D) && Last(run) == s;
    assert TimelyRun(p, run, D);
  }

  /** The first call failed between its commit and its cache write; the second starts when the lock has lapsed. */
  function AfterFailure(second: Phase, keyLock: Claim, portfolio: map<string, Claim>): State {
    State(31, map[], map[KEY := keyLock], portfolio,
          [CallAt(Failed, 0, 0, Some(0)), Call(TWICE, second, 31, 31, 31, 31, NO_DECISION, None, None)], [Row(0)])
  }

  lemma SecondArrives(p: Policy, D: nat) returns (s: State)
    ensures ReachedLossy(p, s, D) && s == AfterFailure(Missed, Claim(30, 0), map[])
  {
    s := FirstCommits(p, D);
    GoodIsLossy(p, s, D);
    s := AdvanceLossy(p, s, Raise(0), D);
    s := AdvanceLossy(p, s, Tick(31), D);
    s := AdvanceLossy(p, s, Arrive(TWICE), D);
    s := AdvanceLossy(p, s, ReadCache(1), D);
  }

  lemma SecondAdmitted(p: Policy, D: nat) returns (s: State)
    ensures ReachedLossy(p, s, D) && s == AfterFailure(Evaluated, Claim(61, 1), map["u" := Claim(61, 1)])
  {
    s := SecondArrives(p, D);
    s := AdvanceLossy(p, s, ClaimKey(1), D);
    s := AdvanceLossy(p, s, ClaimPortfolio(1), D);
    s := AdvanceLossy(p, s, Evaluate(1, NO_DECISION), D);
  }

  /** Without the assumption that no response is lost after its commit, no bound on the calls helps, not even 0. */
  lemma LostResponseRepeats(p: Policy, D: nat) returns (s: State)
    ensures ReachedLossy(p, s, D) && !OncePerLife(s) && s.cache == map[]
  {
    s := SecondAdmitted(p, D);
    s := AdvanceLossy(p, s, Commit(1), D);
    assert SameSlot(s.calls[0], s.calls[1]) && s.calls[0].application == Some(0) && s.calls[1].application == Some(1);
  }
}
