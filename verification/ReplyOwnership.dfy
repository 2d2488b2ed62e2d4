/**
 * Whose decision a call is answered with: in every run, however calls interleave and fail and however slow
 * they are, a reply names an application of the caller's own user that was made under the caller's own key.
 */
module ReplyOwnership {
  import opened Prelude
  import opened CreditApply

  /** The response is the decision on an application of this user, made by a call with this header. */
  predicate Stands(s: State, r: Response, user: string, key: Option<string>) {
    && r.application < |s.apps|
    && var a := s.apps[r.application];
       && a.user == user && a.decision == r.decision
       && a.caller < |s.calls| && s.calls[a.caller].application == Some(r.application)
       && s.calls[a.caller].req.user == user && s.calls[a.caller].req.key == key
  }

  /** What a call has created, and what it was answered with. */
  predicate CallOk(s: State, i: nat)
    requires i < |s.calls|
  {
    var c := s.calls[i];
    && (c.phase in {Arrived, Missed, Ready, Locked, Evaluated} ==> c.application.None?)
    && (c.phase in {Arrived, Missed} ==> c.req.key.Some? && c.req.key.value != "")
    && (c.phase in {Committed, Unlocked} ==> c.application.Some?)
    && (c.application.Some? ==>
          c.application.value < |s.apps|
          && s.apps[c.application.value] == Application(i, c.req.user, c.req.amount, c.decision))
    && (c.phase == Replied ==>
          && c.reply.Some? && Stands(s, c.reply.value, c.req.user, c.req.key)
          && (c.req.key.None? || c.req.key.value == "" ==> c.application == Some(c.reply.value.application)))
  }

  predicate CachedOk(s: State, slot: Slot)
    requires slot in s.cache
  {
    Stands(s, s.cache[slot].response, slot.user, Some(slot.key))
  }

  /** Every application was made by one call, which knows it. */
  predicate AppOk(s: State, n: nat)
    requires n < |s.apps|
  {
    var a := s.apps[n];
    && a.caller < |s.calls| && s.calls[a.caller].application == Some(n)
    && s.calls[a.caller].req.user == a.user && s.calls[a.caller].req.amount == a.amount
  }

  ghost predicate Inv(s: State) {
    && (forall i: nat :: i < |s.calls| ==> CallOk(s, i))
    && (forall slot :: slot in s.cache ==> CachedOk(s, slot))
    && (forall n: nat :: n < |s.apps| ==> AppOk(s, n))
  }

  /** Calls keep their request and what they created, and applications stay. */
  predicate Grows(s: State, t: State) {
    && |s.calls| <= |t.calls| && s.apps <= t.apps
    && forall i :: 0 <= i < |s.calls| ==>
         t.calls[i].req == s.calls[i].req
         && (s.calls[i].application.Some? ==> t.calls[i].application == s.calls[i].application)
  }

  lemma StaysStanding(s: State, t: State, r: Response, user: string, key: Option<string>)
    requires Grows(s, t) && Stands(s, r, user, key)
    ensures Stands(t, r, user, key)
  {
    assert t.apps[r.application] == s.apps[r.application];
  }

  /** A step of call `id`: the others keep what they have, and so does the cache but for one slot. */
  lemma OneStep(s: State, t: State, id: nat)
    requires Inv(s) && id < |s.calls| == |t.calls| && t.calls == s.calls[id := t.calls[id]]
    requires Grows(s, t) && CallOk(t, id)
    requires forall slot :: slot in t.cache ==> (slot in s.cache && t.cache[slot] == s.cache[slot]) || CachedOk(t, slot)
    requires forall n: nat :: |s.apps| <= n < |t.apps| ==> AppOk(t, n)
    ensures Inv(t)
  {
    forall i: nat | i < |t.calls|
      ensures CallOk(t, i)
    {
      if i != id {
        OtherCall(s, t, i);
      }
    }
    forall slot | slot in t.cache
      ensures CachedOk(t, slot)
    {
      if slot in s.cache && t.cache[slot] == s.cache[slot] {
        assert CachedOk(s, slot);
        StaysStanding(s, t, s.cache[slot].response, slot.user, Some(slot.key));
      }
    }
    forall n: nat | n < |t.apps|
      ensures AppOk(t, n)
    {
      assert n < |s.apps| ==> AppOk(s, n) && t.apps[n] == s.apps[n];
    }
  }

  lemma OtherCall(s: State, t: State, i: nat)
    requires Grows(s, t) && i < |s.calls| && t.calls[i] == s.calls[i] && CallOk(s, i)
    ensures CallOk(t, i)
  {
    var c := s.calls[i];
    if c.phase == Replied {
      StaysStanding(s, t, c.reply.value, c.req.user, c.req.key);
    }
  }

  lemma ReadOwn(s: State, id: nat)
    requires Inv(s) && At(s, id, {Arrived})
    ensures Inv(AfterRead(s, id))
  {
    var t := AfterRead(s, id);
    assert CallOk(s, id);
    if CacheLive(s, SlotOf(s.calls[id].req)) {
      assert CachedOk(s, SlotOf(s.calls[id].req));
    }
    OneStep(s, t, id);
  }

  lemma CommitOwn(s: State, id: nat)
    requires Inv(s) && At(s, id, {Evaluated})
    ensures Inv(AfterCommit(s, id))
  {
    var t := AfterCommit(s, id);
    assert CallOk(s, id);
    OneStep(s, t, id);
  }

  lemma ReplyOwn(s: State, id: nat)
    requires Inv(s) && At(s, id, {Unlocked})
    ensures Inv(AfterReply(s, id))
  {
    var t := AfterReply(s, id);
    assert CallOk(s, id);
    OneStep(s, t, id);
  }

  lemma LocalOwn(s: State, t: State, id: nat)
    requires Inv(s) && id < |s.calls| == |t.calls| && t.calls == s.calls[id := t.calls[id]]
    requires t.cache == s.cache && t.apps == s.apps && t.calls[id].req == s.calls[id].req
    requires t.calls[id].application == s.calls[id].application
    requires t.calls[id].application.Some? ==> t.calls[id].decision == s.calls[id].decision
    requires t.calls[id].phase in {Ready, Locked, Evaluated} ==> t.calls[id].application.None?
    requires t.calls[id].phase in {Committed, Unlocked} ==> t.calls[id].application.Some?
    requires t.calls[id].phase !in {Replied, Arrived, Missed}
    ensures Inv(t)
  {
    assert CallOk(s, id);
    OneStep(s, t, id);
  }

  lemma ArriveOwn(s: State, r: Request)
    requires Inv(s)
    ensures Inv(s.(calls := s.calls + [NewCall(s, r)]))
  {
    var t := s.(calls := s.calls + [NewCall(s, r)]);
    forall i: nat | i < |t.calls|
      ensures CallOk(t, i)
    {
      if i < |s.calls| {
        OtherCall(s, t, i);
      }
    }
    forall slot | slot in t.cache
      ensures CachedOk(t, slot)
    {
      StaysStanding(s, t, s.cache[slot].response, slot.user, Some(slot.key));
    }
    forall n: nat | n < |t.apps|
      ensures AppOk(t, n)
    {
      assert AppOk(s, n);
    }
  }

  /** The claims of the two locks. */
  lemma ClaimOwn(p: Policy, s: State, a: Action)
    requires Inv(s) && Enabled(p, s, a) && (a.ClaimKey? || a.ClaimPortfolio?)
    ensures Inv(Next(p, s, a))
  {
    assert CallOk(s, a.id);
    LocalOwn(s, Next(p, s, a), a.id);
  }

  /** The steps under the portfolio lock that create nothing. */
  lemma InnerOwn(p: Policy, s: State, a: Action)
    requires Inv(s) && Enabled(p, s, a) && (a.Evaluate? || a.Raise? || a.Release?)
    ensures Inv(Next(p, s, a))
  {
    assert CallOk(s, a.id);
    LocalOwn(s, Next(p, s, a), a.id);
  }

  lemma StepOwn(p: Policy, s: State, a: Action)
    requires Inv(s) && Enabled(p, s, a)
    ensures Inv(Next(p, s, a))
  {
    match a
    case Tick(until) =>
      var t := s.(now := until);
      assert forall i: nat :: i < |s.calls| && CallOk(s, i) ==> CallOk(t, i);
      assert forall slot :: slot in s.cache && CachedOk(s, slot) ==> CachedOk(t, slot);
      assert forall n: nat :: n < |s.apps| && AppOk(s, n) ==> AppOk(t, n);
    case Arrive(r) => ArriveOwn(s, r);
    case ReadCache(id) => ReadOwn(s, id);
    case Commit(id) => CommitOwn(s, id);
    case Reply(id) => ReplyOwn(s, id);
    case ClaimKey(_) => ClaimOwn(p, s, a);
    case ClaimPortfolio(_) => ClaimOwn(p, s, a);
    case _ => InnerOwn(p, s, a);
  }

  lemma {:induction false} RunOwn(p: Policy, run: seq<State>, n: nat)
    requires IsRun(p, run) && n < |run|
    ensures Inv(run[n])
  {
    if n > 0 {
      RunOwn(p, run, n - 1);
      assert Step(p, run[n - 1], run[n - 1 + 1]);
      var a :| Enabled(p, run[n - 1], a) && run[n] == Next(p, run[n - 1], a);
      StepOwn(p, run[n - 1], a);
    }
  }

  /**
   * A call that is answered, from the cache or not, is answered with the decision on an application of its own
   * user, made by a call of that user with the same header; without a key it is the call's own application.
   */
  lemma RepliesAreOwn(p: Policy, run: seq<State>, i: nat)
    requires IsRun(p, run) && i < |Last(run).calls| && Last(run).calls[i].phase == Replied
    ensures var s := Last(run);
            var c := s.calls[i];
            && c.reply.Some? && c.reply.value.application < |s.apps|
            && var a := s.apps[c.reply.value.application];
               && a.user == c.req.user && a.decision == c.reply.value.decision
               && a.caller < |s.calls| && s.calls[a.caller].req.user == c.req.user
               && s.calls[a.caller].req.key == c.req.key
               && (c.req.key.None? || c.req.key.value == "" ==> a.caller == i)
  {
    RunOwn(p, run, |run| - 1);
    assert CallOk(Last(run), i);
  }

  /**
   * Every application was made by a call of its user for the amount that call asked, and each call made at most
   * one.
   */
  lemma OneApplicationPerCall(p: Policy, run: seq<State>, m: nat, n: nat)
    requires IsRun(p, run) && m < |Last(run).apps| && n < |Last(run).apps|
    ensures var s := Last(run);
            && s.apps[n].caller < |s.calls|
            && s.calls[s.apps[n].caller].req.user == s.apps[n].user
            && s.calls[s.apps[n].caller].req.amount == s.apps[n].amount
            && (s.apps[m].caller == s.apps[n].caller ==> m == n)
  {
    RunOwn(p, run, |run| - 1);
    assert AppOk(Last(run), m) && AppOk(Last(run), n);
  }
}
