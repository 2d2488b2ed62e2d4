/**
 * The per-user portfolio lock: mutual exclusion, ownership of the unconditional delete, and what
 * they give for the exposure check that is read before and written after.
 */
module PortfolioLock {
  import opened Prelude
  import opened CreditApply

  /** Between claiming the portfolio lock and the delete in the finally block. */
  predicate Inside(c: Call) { c.phase in {Locked, Evaluated, Committed, Raising} }

  /** No call has been inside for more than L seconds. */
  ghost predicate Prompt(s: State, L: nat) {
    forall i :: 0 <= i < |s.calls| && Inside(s.calls[i]) ==> s.now <= s.calls[i].lockedAt + L
  }

  ghost predicate PromptRun(p: Policy, run: seq<State>, L: nat) {
    IsRun(p, run) && forall i :: 0 <= i < |run| ==> Prompt(run[i], L)
  }

  // ---------------------------------------------------------------- the guarantees

  ghost predicate OneInside(s: State) {
    forall i, j :: 0 <= i < j < |s.calls| && Inside(s.calls[i]) && Inside(s.calls[j]) ==>
      s.calls[i].req.user != s.calls[j].req.user
  }

  /** Every approval in the log was admissible against the user's log as it stood when the approval was committed. */
  ghost predicate SerialLog(p: Policy, apps: seq<Application>) {
    forall k :: 0 <= k < |apps| && apps[k].decision.approved ==>
      Admits(p, UserApps(apps[..k], apps[k].user), apps[k].amount, apps[k].decision.grant)
  }

  // ---------------------------------------------------------------- the invariant

  predicate MemberOk(p: Policy, s: State, i: nat)
    requires i < |s.calls|
  {
    var c := s.calls[i];
    Inside(c) ==>
      && c.lockedAt <= s.now
      && c.req.user in s.portfolio && s.portfolio[c.req.user] == Claim(c.lockedAt + LOCK_TTL, i)
      && (c.phase == Evaluated && c.decision.approved ==>
            Admits(p, UserApps(s.apps, c.req.user), c.req.amount, c.decision.grant))
  }

  predicate OwnerOk(s: State, user: string)
    requires user in s.portfolio
  {
    var o := s.portfolio[user].owner;
    o < |s.calls| && Inside(s.calls[o]) && s.calls[o].req.user == user
  }

  ghost predicate Inv(p: Policy, s: State) {
    && (forall i: nat :: i < |s.calls| ==> MemberOk(p, s, i))
    && (forall user :: user in s.portfolio ==> OwnerOk(s, user))
    && SerialLog(p, s.apps)
  }

  lemma InsideIsOwner(p: Policy, s: State, i: nat, j: nat)
    requires Inv(p, s) && i < |s.calls| && j < |s.calls| && Inside(s.calls[i]) && Inside(s.calls[j])
    requires s.calls[i].req.user == s.calls[j].req.user
    ensures i == j
  {
    assert MemberOk(p, s, i) && MemberOk(p, s, j);
  }

  /** A step of a call that stays outside, or inside with its lock and the log untouched. */
  lemma LocalStep(p: Policy, s: State, t: State, id: nat)
    requires Inv(p, s) && id < |s.calls| == |t.calls| && t.calls == s.calls[id := t.calls[id]]
    requires t.now == s.now && t.portfolio == s.portfolio && t.apps == s.apps
    requires t.calls[id].req == s.calls[id].req && (Inside(t.calls[id]) <==> Inside(s.calls[id]))
    requires MemberOk(p, t, id)
    ensures Inv(p, t)
  {
    forall i: nat | i < |t.calls|
      ensures MemberOk(p, t, i)
    {
      assert MemberOk(p, s, i);
    }
    forall user | user in t.portfolio
      ensures OwnerOk(t, user)
    {
      assert OwnerOk(s, user);
    }
  }

  lemma ClaimKeeps(p: Policy, s: State, id: nat)
    requires Inv(p, s) && Prompt(s, LOCK_TTL) && At(s, id, {Ready})
    ensures Inv(p, AfterClaimPortfolio(s, id))
  {
    var c, t := s.calls[id], AfterClaimPortfolio(s, id);
    if PortfolioLive(s, c.req.user) {
      LocalStep(p, s, t, id);
    } else {
      forall i: nat | i < |t.calls|
        ensures MemberOk(p, t, i)
      {
        assert MemberOk(p, s, i);
      }
      forall user | user in t.portfolio
        ensures OwnerOk(t, user)
      {
        if user != c.req.user {
          assert OwnerOk(s, user);
        }
      }
    }
  }

  lemma UserAppsAppend(apps: seq<Application>, a: Application, user: string)
    ensures UserApps(apps + [a], user) == if a.user == user then UserApps(apps, user) + [a] else UserApps(apps, user)
  {
    assert (apps + [a])[..|apps|] == apps;
  }

  lemma SerialAppend(p: Policy, apps: seq<Application>, a: Application)
    requires SerialLog(p, apps)
    requires a.decision.approved ==> Admits(p, UserApps(apps, a.user), a.amount, a.decision.grant)
    ensures SerialLog(p, apps + [a])
  {
    var longer := apps + [a];
    forall k | 0 <= k < |longer| && longer[k].decision.approved
      ensures Admits(p, UserApps(longer[..k], longer[k].user), longer[k].amount, longer[k].decision.grant)
    {
      if k < |apps| {
        assert longer[..k] == apps[..k];
      } else {
        assert longer[..k] == apps;
      }
    }
  }

  lemma CommitKeeps(p: Policy, s: State, id: nat)
    requires Inv(p, s) && At(s, id, {Evaluated})
    ensures Inv(p, AfterCommit(s, id))
  {
    var c, t := s.calls[id], AfterCommit(s, id);
    var a := Application(id, c.req.user, c.req.amount, c.decision);
    assert MemberOk(p, s, id);
    SerialAppend(p, s.apps, a);
    forall i: nat | i < |t.calls|
      ensures MemberOk(p, t, i)
    {
      assert MemberOk(p, s, i);
      if i != id && Inside(s.calls[i]) {
        if s.calls[i].req.user == c.req.user {
          InsideIsOwner(p, s, i, id);
        }
        UserAppsAppend(s.apps, a, s.calls[i].req.user);
      }
    }
    forall user | user in t.portfolio
      ensures OwnerOk(t, user)
    {
      assert OwnerOk(s, user);
    }
  }

  /** The delete only ever removes the deleter's own claim. */
  lemma ReleaseKeeps(p: Policy, s: State, id: nat)
    requires Inv(p, s) && At(s, id, {Committed, Raising})
    ensures Inv(p, AfterRelease(s, id))
    ensures s.calls[id].req.user in s.portfolio && s.portfolio[s.calls[id].req.user].owner == id
  {
    var t := AfterRelease(s, id);
    assert MemberOk(p, s, id);
    forall i: nat | i < |t.calls|
      ensures MemberOk(p, t, i)
    {
      assert MemberOk(p, s, i);
    }
    forall user | user in t.portfolio
      ensures OwnerOk(t, user)
    {
      assert OwnerOk(s, user);
    }
  }

  lemma ArriveKeeps(p: Policy, s: State, r: Request)
    requires Inv(p, s)
    ensures Inv(p, s.(calls := s.calls + [NewCall(s, r)]))
  {
    var t := s.(calls := s.calls + [NewCall(s, r)]);
    forall i: nat | i < |t.calls|
      ensures MemberOk(p, t, i)
    {
      if i < |s.calls| {
        assert MemberOk(p, s, i);
      }
    }
    forall user | user in t.portfolio
      ensures OwnerOk(t, user)
    {
      assert OwnerOk(s, user);
    }
  }

  lemma TickKeeps(p: Policy, s: State, until: int)
    requires Inv(p, s) && s.now <= until
    ensures Inv(p, s.(now := until))
  {
    var t := s.(now := until);
    forall i: nat | i < |t.calls|
      ensures MemberOk(p, t, i)
    {
      assert MemberOk(p, s, i);
    }
    forall user | user in t.portfolio
      ensures OwnerOk(t, user)
    {
      assert OwnerOk(s, user);
    }
  }

  /** The steps of a call that is not inside. */
  lemma OutsideKeeps(p: Policy, s: State, a: Action)
    requires Inv(p, s) && Enabled(p, s, a) && (a.ReadCache? || a.ClaimKey? || a.Reply?)
    ensures Inv(p, Next(p, s, a))
  {
    LocalStep(p, s, Next(p, s, a), a.id);
  }

  lemma EvaluateKeeps(p: Policy, s: State, id: nat, d: Decision)
    requires Inv(p, s) && Enabled(p, s, Evaluate(id, d))
    ensures Inv(p, Next(p, s, Evaluate(id, d)))
  {
    assert MemberOk(p, s, id);
    LocalStep(p, s, Next(p, s, Evaluate(id, d)), id);
  }

  lemma RaiseKeeps(p: Policy, s: State, id: nat)
    requires Inv(p, s) && Enabled(p, s, Raise(id))
    ensures Inv(p, Next(p, s, Raise(id)))
  {
    assert MemberOk(p, s, id);
    LocalStep(p, s, Next(p, s, Raise(id)), id);
  }

  lemma StepKeeps(p: Policy, s: State, a: Action)
    requires Inv(p, s) && Prompt(s, LOCK_TTL) && Enabled(p, s, a)
    ensures Inv(p, Next(p, s, a))
  {
    match a
    case Tick(until) => TickKeeps(p, s, until);
    case Arrive(r) => ArriveKeeps(p, s, r);
    case ClaimPortfolio(id) => ClaimKeeps(p, s, id);
    case Commit(id) => CommitKeeps(p, s, id);
    case Release(id) => ReleaseKeeps(p, s, id);
    case Evaluate(id, d) => EvaluateKeeps(p, s, id, d);
    case Raise(id) => RaiseKeeps(p, s, id);
    case _ => OutsideKeeps(p, s, a);
  }

  lemma {:induction false} RunKeeps(p: Policy, run: seq<State>, L: nat, n: nat)
    requires PromptRun(p, run, L) && L <= LOCK_TTL && n < |run|
    ensures Inv(p, run[n])
  {
    if n > 0 {
      RunKeeps(p, run, L, n - 1);
      assert Step(p, run[n - 1], run[n - 1 + 1]);
      var a :| Enabled(p, run[n - 1], a) && run[n] == Next(p, run[n - 1], a);
      assert Prompt(run[n - 1], L);
      StepKeeps(p, run[n - 1], a);
    }
  }

  // ---------------------------------------------------------------- the theorems

  /** At most one call per user is inside, and every approval was decided on the log it was appended to. */
  lemma MutualExclusion(p: Policy, run: seq<State>, L: nat)
    requires PromptRun(p, run, L) && L <= LOCK_TTL
    ensures OneInside(Last(run)) && SerialLog(p, Last(run).apps)
  {
    var s := Last(run);
    RunKeeps(p, run, L, |run| - 1);
    forall i, j | 0 <= i < j < |s.calls| && Inside(s.calls[i]) && Inside(s.calls[j])
      ensures s.calls[i].req.user != s.calls[j].req.user
    {
      if s.calls[i].req.user == s.calls[j].req.user {
        InsideIsOwner(p, s, i, j);
      }
    }
  }

  /** Whoever is about to delete the lock owns it, and a call that is not inside, ended or never admitted, owns none. */
  lemma OnlyInsidersOwn(p: Policy, run: seq<State>, L: nat)
    requires PromptRun(p, run, L) && L <= LOCK_TTL
    ensures var s := Last(run);
            && (forall id: nat :: At(s, id, {Committed, Raising}) ==>
                  s.calls[id].req.user in s.portfolio && s.portfolio[s.calls[id].req.user].owner == id)
            && (forall user :: user in s.portfolio ==>
                  s.portfolio[user].owner < |s.calls| && Inside(s.calls[s.portfolio[user].owner]))
  {
    var s := Last(run);
    RunKeeps(p, run, L, |run| - 1);
    forall id: nat | At(s, id, {Committed, Raising})
      ensures s.calls[id].req.user in s.portfolio && s.portfolio[s.calls[id].req.user].owner == id
    {
      ReleaseKeeps(p, s, id);
    }
    forall user | user in s.portfolio
      ensures s.portfolio[user].owner < |s.calls| && Inside(s.calls[s.portfolio[user].owner])
    {
      assert OwnerOk(s, user);
    }
  }

  // ---------------------------------------------------------------- the bound is exact

  /** A state at the end of such a run. */
  ghost predicate Reached(p: Policy, s: State, L: nat) { exists run :: PromptRun(p, run, L) && Last(run) == s }

  lemma AtStart(p: Policy, L: nat)
    ensures Reached(p, START, L)
  {
    var run := [START];
    assert PromptRun(p, run, L) && Last(run) == START;
  }

  lemma Advance(p: Policy, s: State, a: Action, L: nat) returns (t: State)
    requires Reached(p, s, L) && Enabled(p, s, a) && Prompt(Next(p, s, a), L)
    ensures Reached(p, t, L) && t == Next(p, s, a)
  {
    var run :| PromptRun(p, run, L) && Last(run) == s;
    ExtendPath(p, run, a);
    t := Next(p, s, a);
    var longer := run + [t];
    assert forall i :: 0 <= i < |run| ==> longer[i] == run[i];
    assert PromptRun(p, longer, L) && Last(longer) == t;
  }

  const PLAIN: Request := Request("u", None, 0)

  /** A slow call loses its lock to a second one, so both are inside. */
  lemma TwoInside(p: Policy, L: nat) returns (s: State)
    requires L > LOCK_TTL
    ensures Reached(p, s, L) && !OneInside(s)
  {
    AtStart(p, L);
    s := Advance(p, START, Arrive(PLAIN), L);
    s := Advance(p, s, ClaimPortfolio(0), L);
    s := Advance(p, s, Tick(31), L);
    s := Advance(p, s, Arrive(PLAIN), L);
    s := Advance(p, s, ClaimPortfolio(1), L);
    assert Inside(s.calls[0]) && Inside(s.calls[1]);
  }

  lemma OneInsideIff(p: Policy, L: nat)
    ensures (forall run :: PromptRun(p, run, L) ==> OneInside(Last(run))) <==> L <= LOCK_TTL
  {
    if L <= LOCK_TTL {
      forall run | PromptRun(p, run, L)
        ensures OneInside(Last(run))
      {
        MutualExclusion(p, run, L);
      }
    } else {
      var s := TwoInside(p, L);
      var run :| PromptRun(p, run, L) && Last(run) == s;
      assert !OneInside(Last(run));
    }
  }

  // ---------------------------------------------------------------- exposure

  /** What the approved applications of a history grant together. */
  function Exposure(history: seq<Application>): int {
    if history == [] then 0
    else
      var d := history[|history| - 1].decision;
      Exposure(history[..|history| - 1]) + if d.approved then d.grant else 0
  }

  lemma ExposureAppend(history: seq<Application>, a: Application)
    ensures Exposure(history + [a]) == Exposure(history) + if a.decision.approved then a.decision.grant else 0
  {
    assert (history + [a])[..|history|] == history;
  }

  /** The intent of the guard: the new grant fits beside everything granted so far. */
  function SumPolicy(cap: int): Policy {
    (history, amount, grant) => Exposure(history) + grant <= cap
  }

  lemma {:induction false} SerialLogBounds(apps: seq<Application>, cap: nat, user: string)
    requires SerialLog(SumPolicy(cap), apps)
    ensures Exposure(UserApps(apps, user)) <= cap
    decreases |apps|
  {
    if apps != [] {
      var front, a := apps[..|apps| - 1], apps[|apps| - 1];
      assert apps == front + [a];
      assert forall k :: 0 <= k < |front| ==> front[..k] == apps[..k];
      SerialLogBounds(front, cap, user);
      UserAppsAppend(front, a, user);
      if a.user == user {
        ExposureAppend(UserApps(front, user), a);
        assert apps[..|front|] == front && apps[|front|] == a;
        assert a.decision.approved ==> Admits(SumPolicy(cap), UserApps(front, user), a.amount, a.decision.grant);
      }
    }
  }

  /** If the evaluation approves only what fits beside the exposure it read, no reachable state exceeds the cap. */
  lemma ExposureNeverExceedsCap(cap: nat, run: seq<State>, L: nat, user: string)
    requires PromptRun(SumPolicy(cap), run, L) && L <= LOCK_TTL
    ensures Exposure(UserApps(Last(run).apps, user)) <= cap
  {
    MutualExclusion(SumPolicy(cap), run, L);
    SerialLogBounds(Last(run).apps, cap, user);
  }

  /** COALESCE(MAX(approved_limit), 0) over the approved applications; grants are not negative. */
  function MaxGrant(history: seq<Application>): int {
    if history == [] then 0
    else
      var m, d := MaxGrant(history[..|history| - 1]), history[|history| - 1].decision;
      if d.approved && d.grant > m then d.grant else m
  }

  /** What the evaluation checks: the highest earlier limit plus the order amount, and the limit itself clamped. */
  function LimitPolicy(cap: int): Policy {
    (history, amount, grant) => MaxGrant(history) + amount <= cap && grant <= cap
  }

  predicate Granted(a: Application) { a.decision.approved && a.decision.grant > 0 }

  ghost predicate AtMostOneGrant(history: seq<Application>) {
    forall i, j :: 0 <= i < j < |history| ==> !(Granted(history[i]) && Granted(history[j]))
  }

  lemma {:induction false} MaxIsAGrant(history: seq<Application>)
    ensures MaxGrant(history) >= 0
    ensures MaxGrant(history) > 0 <==> exists i :: 0 <= i < |history| && Granted(history[i])
  {
    if history != [] {
      MaxIsAGrant(history[..|history| - 1]);
      var last := history[|history| - 1];
      assert Granted(last) ==> history[|history| - 1] == last;
    }
  }

  /** The maximum the evaluation reads is the exposure exactly for a user with at most one positive grant. */
  lemma {:induction false} MaxIsExposureIff(history: seq<Application>)
    requires forall a :: a in history && a.decision.approved ==> a.decision.grant >= 0
    ensures MaxGrant(history) <= Exposure(history)
    ensures MaxGrant(history) == Exposure(history) <==> AtMostOneGrant(history)
  {
    if history != [] {
      var front, last := history[..|history| - 1], history[|history| - 1];
      MaxIsExposureIff(front);
      MaxIsAGrant(front);
      if Granted(last) {
        if MaxGrant(front) > 0 {
          var i :| 0 <= i < |front| && Granted(front[i]);
          assert Granted(history[i]) && Granted(history[|history| - 1]);
        }
      }
    }
  }

  /**
   * What the evaluation's check is worth on a given history: whatever it admits fits beside the exposure
   * exactly when nothing has been granted yet, or when it admits nothing at all.
   */
  lemma LimitPolicySoundIff(history: seq<Application>, cap: nat)
    requires forall a :: a in history && a.decision.approved ==> a.decision.grant >= 0
    ensures (forall amount: int, grant: int :: amount >= 1 && Admits(LimitPolicy(cap), history, amount, grant) ==>
               Exposure(history) + grant <= cap)
            <==> Exposure(history) == 0 || MaxGrant(history) >= cap
  {
    MaxIsExposureIff(history);
    MaxIsAGrant(history);
    if MaxGrant(history) < cap {
      assert Admits(LimitPolicy(cap), history, 1, cap);
    }
  }

  function Approve(grant: int): Decision { Decision(true, grant) }

  const ASK: Request := Request("u", None, 1)

  function Grant(caller: nat, grant: int): Application { Application(caller, "u", 1, Approve(grant)) }

  function Done(caller: nat, grant: int): Call { Call(ASK, Unlocked, 0, 0, 0, 0, Approve(grant), Some(caller), None) }

  /** The first call was granted all but one of the cap. */
  function AfterFirst(cap: int): State { State(0, map[], map[], map[], [Done(0, cap - 1)], [Grant(0, cap - 1)]) }

  lemma FirstInside(cap: int, L: nat) returns (s: State)
    requires cap >= 2
    ensures Reached(LimitPolicy(cap), s, L)
    ensures s == State(0, map[], map[], map["u" := Claim(LOCK_TTL, 0)],
                       [Call(ASK, Locked, 0, 0, 0, 0, NO_DECISION, None, None)], [])
  {
    var p := LimitPolicy(cap);
    AtStart(p, L);
    s := Advance(p, START, Arrive(ASK), L);
    s := Advance(p, s, ClaimPortfolio(0), L);
  }

  lemma FirstGrant(cap: int, L: nat) returns (s: State)
    requires cap >= 2
    ensures Reached(LimitPolicy(cap), s, L) && s == AfterFirst(cap)
  {
    var p := LimitPolicy(cap);
    s := FirstInside(cap, L);
    s := Advance(p, s, Evaluate(0, Approve(cap - 1)), L);
    s := Advance(p, s, Commit(0), L);
    s := Advance(p, s, Release(0), L);
    assert s.portfolio == map[];
  }

  lemma GrantsRead(first: int, second: int)
    requires first >= 1
    ensures UserApps([Grant(0, first)], "u") == [Grant(0, first)] && MaxGrant([Grant(0, first)]) == first
    ensures Exposure(UserApps([Grant(0, first), Grant(1, second)], "u")) == first + second
  {
    UserAppsAppend([], Grant(0, first), "u");
    assert [] + [Grant(0, first)] == [Grant(0, first)];
    UserAppsAppend([Grant(0, first)], Grant(1, second), "u");
    assert [Grant(0, first)] + [Grant(1, second)] == [Grant(0, first), Grant(1, second)];
    ExposureAppend([], Grant(0, first));
    ExposureAppend([Grant(0, first)], Grant(1, second));
  }

  function SecondInside(cap: int): State {
    State(0, map[], map[], map["u" := Claim(LOCK_TTL, 1)],
          [Done(0, cap - 1), Call(ASK, Locked, 0, 0, 0, 0, NO_DECISION, None, None)], [Grant(0, cap - 1)])
  }

  lemma SecondClaims(cap: int, L: nat) returns (s: State)
    requires cap >= 2
    ensures Reached(LimitPolicy(cap), s, L) && s == SecondInside(cap)
  {
    var p := LimitPolicy(cap);
    s := FirstGrant(cap, L);
    s := Advance(p, s, Arrive(ASK), L);
    s := Advance(p, s, ClaimPortfolio(1), L);
  }

  function SecondApproved(cap: int): State {
    SecondInside(cap).(calls := [Done(0, cap - 1), Call(ASK, Evaluated, 0, 0, 0, 0, Approve(cap), None, None)])
  }

  lemma SecondEvaluates(cap: int)
    requires cap >= 2
    ensures Enabled(LimitPolicy(cap), SecondInside(cap), Evaluate(1, Approve(cap)))
    ensures Next(LimitPolicy(cap), SecondInside(cap), Evaluate(1, Approve(cap))) == SecondApproved(cap)
  {
    GrantsRead(cap - 1, cap);
    assert Admits(LimitPolicy(cap), UserApps([Grant(0, cap - 1)], "u"), 1, cap);
  }

  lemma TwoGrants(cap: int, L: nat) returns (s: State)
    requires cap >= 2
    ensures Reached(LimitPolicy(cap), s, L) && s.apps == [Grant(0, cap - 1), Grant(1, cap)]
  {
    s := SecondClaims(cap, L);
    SecondEvaluates(cap);
    s := Advance(LimitPolicy(cap), s, Evaluate(1, Approve(cap)), L);
    s := Advance(LimitPolicy(cap), s, Commit(1), L);
  }

  /** With the maximum read instead of the sum, two calls that do not even overlap can grant more than the cap. */
  lemma LimitPolicyOverruns(cap: int, L: nat) returns (s: State)
    requires cap >= 2
    ensures Reached(LimitPolicy(cap), s, L)
    ensures Exposure(UserApps(s.apps, "u")) == 2 * cap - 1 > cap
    ensures Proper(s.apps)
  {
    s := TwoGrants(cap, L);
    GrantsRead(cap - 1, cap);
  }

  /** Orders are for a positive amount and grants are not negative. */
  predicate Proper(apps: seq<Application>) { forall a :: a in apps ==> a.amount >= 1 && a.decision.grant >= 0 }

  lemma {:induction false} UserAppsWithin(apps: seq<Application>, user: string)
    ensures forall a :: a in UserApps(apps, user) ==> a in apps
  {
    if apps != [] {
      var front, last := apps[..|apps| - 1], apps[|apps| - 1];
      assert apps == front + [last];
      UserAppsWithin(front, user);
      UserAppsAppend(front, last, user);
    }
  }

  /** Where the cap is a single unit the check admits a first grant only. */
  lemma {:induction false} SmallCapBounds(apps: seq<Application>, cap: nat, user: string)
    requires SerialLog(LimitPolicy(cap), apps) && Proper(apps) && cap <= 1
    ensures Exposure(UserApps(apps, user)) <= cap
    decreases |apps|
  {
    if apps != [] {
      var front, a := apps[..|apps| - 1], apps[|apps| - 1];
      assert apps == front + [a];
      assert forall k :: 0 <= k < |front| ==> front[..k] == apps[..k];
      SmallCapBounds(front, cap, user);
      UserAppsAppend(front, a, user);
      if a.user == user && a.decision.approved {
        var history := UserApps(front, user);
        ExposureAppend(history, a);
        assert apps[..|front|] == front && apps[|front|] == a;
        assert Admits(LimitPolicy(cap), history, a.amount, a.decision.grant);
        UserAppsWithin(front, user);
        MaxIsAGrant(history);
        MaxIsExposureIff(history);
      } else if a.user == user {
        ExposureAppend(UserApps(front, user), a);
      }
    }
  }

  /**
   * The check keeps every user within the cap, in all runs with critical sections of at most 30 seconds, only
   * where the cap is one unit or none.
   */
  lemma LimitPolicyHoldsIff(cap: nat, L: nat)
    requires L <= LOCK_TTL
    ensures (forall run, user :: PromptRun(LimitPolicy(cap), run, L) && Proper(Last(run).apps) ==>
               Exposure(UserApps(Last(run).apps, user)) <= cap)
            <==> cap <= 1
  {
    var p := LimitPolicy(cap);
    if cap <= 1 {
      forall run, user | PromptRun(p, run, L) && Proper(Last(run).apps)
        ensures Exposure(UserApps(Last(run).apps, user)) <= cap
      {
        MutualExclusion(p, run, L);
        SmallCapBounds(Last(run).apps, cap, user);
      }
    } else {
      var s := LimitPolicyOverruns(cap, L);
      var run :| PromptRun(p, run, L) && Last(run) == s;
      assert Exposure(UserApps(Last(run).apps, "u")) > cap;
    }
  }
}
