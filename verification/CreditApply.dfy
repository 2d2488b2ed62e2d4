/**
 * POST /credit/apply as a step system. Each step is one await of the handler: a Redis command, the
 * evaluation, the database commit. Calls interleave freely; time only moves by Tick.
 * A Redis key written with a time to live is there up to and including its expiry instant.
 */
module CreditApply {
  import opened Prelude

  const LOCK_TTL: int := 30

  const CACHE_TTL: int := 86400

  datatype Request = Request(user: string, key: Option<string>, amount: int)

  /** The user and Idempotency-Key that the cache key and its lock are made of. */
  datatype Slot = Slot(user: string, key: string)

  datatype Decision = Decision(approved: bool, grant: int)

  datatype Application = Application(caller: nat, user: string, amount: int, decision: Decision)

  datatype Response = Response(application: nat, decision: Decision)

  /** A SETNX claim. The stored value is always "1": the owner is known to the model only. */
  datatype Claim = Claim(expiry: int, owner: nat)

  datatype Cached = Cached(response: Response, expiry: int)

  datatype Phase =
    | Arrived | Missed | Ready | Locked | Evaluated | Committed | Raising | Unlocked
    | Replied | Conflicted | Failed

  datatype Call = Call(
    req: Request, phase: Phase,
    readAt: int, claimedAt: int, lockedAt: int, wroteAt: int,
    decision: Decision, application: Option<nat>, reply: Option<Response>)

  datatype State = State(
    now: int,
    cache: map<Slot, Cached>,
    keyLocks: map<Slot, Claim>,
    portfolio: map<string, Claim>,
    calls: seq<Call>,
    apps: seq<Application>)

  datatype Action =
    | Tick(until: int)
    | Arrive(req: Request)
    | ReadCache(id: nat)
    | ClaimKey(id: nat)
    | ClaimPortfolio(id: nat)
    | Evaluate(id: nat, decision: Decision)
    | Commit(id: nat)
    | Raise(id: nat)
    | Release(id: nat)
    | Reply(id: nat)

  /** What the evaluation may approve, given the user's earlier applications, the amount asked and the limit granted. */
  type Policy = (seq<Application>, int, int) -> bool

  predicate Admits(p: Policy, history: seq<Application>, amount: int, grant: int) { p(history, amount, grant) }

  /** A missing header and an empty one both mean that the request has no idempotency key. */
  predicate Keyed(r: Request) { r.key.Some? && r.key.value != "" }

  function SlotOf(r: Request): Slot
    requires Keyed(r)
  {
    Slot(r.user, r.key.value)
  }

  function UserApps(apps: seq<Application>, user: string): seq<Application> {
    if apps == [] then []
    else
      var last := apps[|apps| - 1];
      UserApps(apps[..|apps| - 1], user) + if last.user == user then [last] else []
  }

  predicate CacheLive(s: State, slot: Slot) { slot in s.cache && s.now <= s.cache[slot].expiry }

  predicate KeyLockLive(s: State, slot: Slot) { slot in s.keyLocks && s.now <= s.keyLocks[slot].expiry }

  predicate PortfolioLive(s: State, user: string) { user in s.portfolio && s.now <= s.portfolio[user].expiry }

  const NO_DECISION: Decision := Decision(false, 0)

  function NewCall(s: State, r: Request): Call {
    Call(r, if Keyed(r) then Arrived else Ready, s.now, s.now, s.now, s.now, NO_DECISION, None, None)
  }

  // ---------------------------------------------------------------- the steps

  predicate At(s: State, id: nat, phases: set<Phase>) { id < |s.calls| && s.calls[id].phase in phases }

  predicate Enabled(p: Policy, s: State, a: Action) {
    match a
    case Tick(until) => s.now <= until
    case Arrive(_) => true
    case ReadCache(id) => At(s, id, {Arrived})
    case ClaimKey(id) => At(s, id, {Missed})
    case ClaimPortfolio(id) => At(s, id, {Ready})
    case Evaluate(id, d) =>
      At(s, id, {Locked})
      && (d.approved ==> Admits(p, UserApps(s.apps, s.calls[id].req.user), s.calls[id].req.amount, d.grant))
    case Commit(id) => At(s, id, {Evaluated})
    case Raise(id) => At(s, id, {Locked, Evaluated, Committed, Unlocked})
    case Release(id) => At(s, id, {Committed, Raising})
    case Reply(id) => At(s, id, {Unlocked})
  }

  function SetCall(s: State, id: nat, c: Call): State
    requires id < |s.calls|
  {
    s.(calls := s.calls[id := c])
  }

  /** The application a call has committed; only used once it has. */
  function ResponseOf(c: Call): Response {
    Response(if c.application.Some? then c.application.value else 0, c.decision)
  }

  /** GET of the cached response. */
  function AfterRead(s: State, id: nat): State
    requires id < |s.calls|
  {
    var c := s.calls[id];
    if Keyed(c.req) && CacheLive(s, SlotOf(c.req)) then
      SetCall(s, id, c.(phase := Replied, readAt := s.now, reply := Some(s.cache[SlotOf(c.req)].response)))
    else
      SetCall(s, id, c.(phase := Missed, readAt := s.now))
  }

  /** SETNX of the idempotency lock, which nothing ever deletes. */
  function AfterClaimKey(s: State, id: nat): State
    requires id < |s.calls|
  {
    var c := s.calls[id];
    if !Keyed(c.req) || KeyLockLive(s, SlotOf(c.req)) then SetCall(s, id, c.(phase := Conflicted))
    else
      SetCall(s.(keyLocks := s.keyLocks[SlotOf(c.req) := Claim(s.now + LOCK_TTL, id)]), id,
              c.(phase := Ready, claimedAt := s.now))
  }

  /** SETNX of the portfolio lock; a request that loses it keeps its idempotency lock. */
  function AfterClaimPortfolio(s: State, id: nat): State
    requires id < |s.calls|
  {
    var c := s.calls[id];
    if PortfolioLive(s, c.req.user) then SetCall(s, id, c.(phase := Conflicted))
    else
      SetCall(s.(portfolio := s.portfolio[c.req.user := Claim(s.now + LOCK_TTL, id)]), id,
              c.(phase := Locked, lockedAt := s.now))
  }

  function AfterCommit(s: State, id: nat): State
    requires id < |s.calls|
  {
    var c := s.calls[id];
    SetCall(s.(apps := s.apps + [Application(id, c.req.user, c.req.amount, c.decision)]), id,
            c.(phase := Committed, application := Some(|s.apps|)))
  }

  /** The finally block: an unconditional delete. */
  function AfterRelease(s: State, id: nat): State
    requires id < |s.calls|
  {
    var c := s.calls[id];
    SetCall(s.(portfolio := s.portfolio - {c.req.user}), id,
            c.(phase := if c.phase == Committed then Unlocked else Failed))
  }

  /** The cache write, for a keyed request, and the reply. */
  function AfterReply(s: State, id: nat): State
    requires id < |s.calls|
  {
    var c := s.calls[id];
    var cache := if Keyed(c.req) then s.cache[SlotOf(c.req) := Cached(ResponseOf(c), s.now + CACHE_TTL)] else s.cache;
    SetCall(s.(cache := cache), id, c.(phase := Replied, wroteAt := s.now, reply := Some(ResponseOf(c))))
  }

  function Next(p: Policy, s: State, a: Action): State
    requires Enabled(p, s, a)
  {
    match a
    case Tick(until) => s.(now := until)
    case Arrive(r) => s.(calls := s.calls + [NewCall(s, r)])
    case ReadCache(id) => AfterRead(s, id)
    case ClaimKey(id) => AfterClaimKey(s, id)
    case ClaimPortfolio(id) => AfterClaimPortfolio(s, id)
    case Evaluate(id, d) => SetCall(s, id, s.calls[id].(phase := Evaluated, decision := d))
    case Commit(id) => AfterCommit(s, id)
    case Raise(id) => SetCall(s, id, s.calls[id].(phase := if s.calls[id].phase == Unlocked then Failed else Raising))
    case Release(id) => AfterRelease(s, id)
    case Reply(id) => AfterReply(s, id)
  }

  // ---------------------------------------------------------------- runs

  const START: State := State(0, map[], map[], map[], [], [])

  ghost predicate Step(p: Policy, s: State, t: State) {
    exists a :: Enabled(p, s, a) && t == Next(p, s, a)
  }

  ghost predicate IsPath(p: Policy, run: seq<State>) {
    |run| > 0 && forall i :: 0 <= i < |run| - 1 ==> Step(p, run[i], run[i + 1])
  }

  ghost predicate IsRun(p: Policy, run: seq<State>) { IsPath(p, run) && run[0] == START }

  function Last(run: seq<State>): State
    requires |run| > 0
  {
    run[|run| - 1]
  }

  lemma ExtendPath(p: Policy, run: seq<State>, a: Action)
    requires IsPath(p, run) && Enabled(p, Last(run), a)
    ensures IsPath(p, run + [Next(p, Last(run), a)])
  {
    var longer := run + [Next(p, Last(run), a)];
    forall i | 0 <= i < |longer| - 1
      ensures Step(p, longer[i], longer[i + 1])
    {
      assert i < |run| - 1 ==> longer[i] == run[i] && longer[i + 1] == run[i + 1];
    }
  }

  // ---------------------------------------------------------------- one uninterrupted call

  /** Where an exception interrupts a call, if one does. */
  datatype Fault = NoFault | InEvaluate | InCreate | AfterTheCommit | InCacheWrite

  datatype Outcome = Answer(response: Response) | Conflict409 | Raised

  /** The handler with nothing else running; it performs the same steps, in the order the source has them. */
  class CreditApi {
    var st: State

    constructor ()
      ensures st == START
    {
      st := START;
    }

    method Perform(p: Policy, a: Action, ghost before: seq<State>) returns (ghost trace: seq<State>)
      requires Enabled(p, st, a) && IsPath(p, before) && Last(before) == st
      modifies this
      ensures st == Next(p, old(st), a) && IsPath(p, trace) && trace == before + [st]
    {
      ExtendPath(p, before, a);
      st := Next(p, st, a);
      trace := before + [st];
    }

    /** The body of the try block: it ends committed, or raising before or after the commit. */
    method EvaluateAndCommit(p: Policy, id: nat, decision: Decision, fault: Fault, ghost before: seq<State>)
      returns (ghost trace: seq<State>)
      requires At(st, id, {Locked}) && IsPath(p, before) && Last(before) == st
      requires decision.approved ==>
                 Admits(p, UserApps(st.apps, st.calls[id].req.user), st.calls[id].req.amount, decision.grant)
      modifies this
      ensures IsPath(p, trace) && before <= trace && Last(trace) == st
      ensures At(st, id, {if fault == NoFault || fault == InCacheWrite then Committed else Raising})
      ensures st.calls[id].req == old(st.calls[id].req)
      ensures st == old(st).(calls := st.calls, apps := st.apps)
      ensures if fault == InEvaluate || fault == InCreate then st.apps == old(st.apps)
              else st.apps == old(st.apps) + [Application(id, st.calls[id].req.user, st.calls[id].req.amount, decision)]
                   && ResponseOf(st.calls[id]) == Response(|old(st.apps)|, decision)
    {
      if fault == InEvaluate {
        trace := Perform(p, Raise(id), before);
        return;
      }
      trace := Perform(p, Evaluate(id, decision), before);
      if fault == InCreate {
        trace := Perform(p, Raise(id), trace);
        return;
      }
      trace := Perform(p, Commit(id), trace);
      if fault == AfterTheCommit {
        trace := Perform(p, Raise(id), trace);
      }
    }

    /** The try block and the finally that runs however it ends. */
    method EvaluateAndCreate(p: Policy, id: nat, decision: Decision, fault: Fault, ghost before: seq<State>)
      returns (created: bool, ghost trace: seq<State>)
      requires At(st, id, {Locked}) && IsPath(p, before) && Last(before) == st
      requires decision.approved ==>
                 Admits(p, UserApps(st.apps, st.calls[id].req.user), st.calls[id].req.amount, decision.grant)
      modifies this
      ensures IsPath(p, trace) && before <= trace && Last(trace) == st
      ensures created <==> fault == NoFault || fault == InCacheWrite
      ensures st == old(st).(calls := st.calls, apps := st.apps,
                             portfolio := old(st.portfolio) - {old(st.calls[id].req.user)})
      ensures st.apps == (if fault == InEvaluate || fault == InCreate then old(st.apps)
                          else old(st.apps) + [
                                 Application(id, old(st.calls[id].req.user), old(st.calls[id].req.amount), decision)])
      ensures At(st, id, {if created then Unlocked else Failed}) && st.calls[id].req == old(st.calls[id].req)
      ensures created ==> ResponseOf(st.calls[id]) == Response(|old(st.apps)|, decision)
    {
      trace := EvaluateAndCommit(p, id, decision, fault, before);
      created := st.calls[id].phase == Committed;
      trace := Perform(p, Release(id), trace);
    }

    /** The idempotency part: the cached response, or a conflict, or the lock claimed and the call ready to go on. */
    method PassKey(p: Policy, id: nat, ghost before: seq<State>)
      returns (early: Option<Outcome>, ghost trace: seq<State>)
      requires At(st, id, {Arrived}) && Keyed(st.calls[id].req) && IsPath(p, before) && Last(before) == st
      modifies this
      ensures IsPath(p, trace) && before <= trace && Last(trace) == st && st.now == old(st.now)
      ensures st.cache == old(st.cache) && st.portfolio == old(st.portfolio) && st.apps == old(st.apps)
      ensures var slot := Slot(old(st.calls[id].req.user), old(st.calls[id].req.key.value));
              if slot in old(st).cache && st.now <= old(st).cache[slot].expiry then
                early == Some(Answer(old(st).cache[slot].response)) && st.keyLocks == old(st.keyLocks)
              else if slot in old(st).keyLocks && st.now <= old(st).keyLocks[slot].expiry then
                early == Some(Conflict409) && st.keyLocks == old(st.keyLocks)
              else early == None && st.keyLocks == old(st).keyLocks[slot := Claim(st.now + 30, id)]
      ensures early == None ==> At(st, id, {Ready}) && st.calls[id].req == old(st.calls[id].req)
    {
      trace := Perform(p, ReadCache(id), before);
      if st.calls[id].phase == Replied {
        return Some(Answer(st.calls[id].reply.value)), trace;
      }
      trace := Perform(p, ClaimKey(id), trace);
      early := if st.calls[id].phase == Conflicted then Some(Conflict409) else None;
    }

    /** What follows the try block: the cache write, which may raise, and the reply. */
    method WriteResponse(p: Policy, id: nat, fails: bool, ghost before: seq<State>)
      returns (outcome: Outcome, ghost trace: seq<State>)
      requires At(st, id, {Unlocked}) && IsPath(p, before) && Last(before) == st
      modifies this
      ensures IsPath(p, trace) && before <= trace && Last(trace) == st && st.now == old(st.now)
      ensures st.keyLocks == old(st.keyLocks) && st.portfolio == old(st.portfolio) && st.apps == old(st.apps)
      ensures outcome == if fails then Raised else Answer(ResponseOf(old(st.calls[id])))
      ensures var req := old(st.calls[id].req);
              st.cache == if fails || req.key.None? || req.key.value == "" then old(st.cache)
                          else old(st.cache)[Slot(req.user, req.key.value) :=
                                 Cached(ResponseOf(old(st.calls[id])), st.now + 86400)]
    {
      if fails {
        trace := Perform(p, Raise(id), before);
        return Raised, trace;
      }
      trace := Perform(p, Reply(id), before);
      return Answer(st.calls[id].reply.value), trace;
    }

    /** The part under the portfolio lock and after it. */
    method PassPortfolio(p: Policy, id: nat, decision: Decision, fault: Fault, ghost before: seq<State>)
      returns (outcome: Outcome, ghost trace: seq<State>)
      requires At(st, id, {Ready}) && IsPath(p, before) && Last(before) == st
      requires decision.approved ==>
                 Admits(p, UserApps(st.apps, st.calls[id].req.user), st.calls[id].req.amount, decision.grant)
      modifies this
      ensures IsPath(p, trace) && before <= trace && Last(trace) == st && st.now == old(st.now)
      ensures st.keyLocks == old(st.keyLocks)
      ensures var req := old(st.calls[id].req);
              if req.user in old(st).portfolio && st.now <= old(st).portfolio[req.user].expiry then
                outcome == Conflict409 && st.portfolio == old(st.portfolio) && st.apps == old(st.apps)
                  && st.cache == old(st.cache)
              else
                && st.portfolio == old(st.portfolio) - {req.user}
                && (st.apps == if fault == InEvaluate || fault == InCreate then old(st.apps)
                               else old(st.apps) + [Application(id, req.user, req.amount, decision)])
                && outcome == (if fault == NoFault then Answer(Response(|old(st.apps)|, decision)) else Raised)
                && (st.cache == if fault == NoFault && req.key.Some? && req.key.value != ""
                                then old(st).cache[Slot(req.user, req.key.value) :=
                                       Cached(Response(|old(st.apps)|, decision), st.now + 86400)]
                                else old(st.cache))
    {
      trace := Perform(p, ClaimPortfolio(id), before);
      if st.calls[id].phase == Conflicted {
        return Conflict409, trace;
      }
      assert st.portfolio - {st.calls[id].req.user} == old(st.portfolio) - {st.calls[id].req.user};
      var created;
      created, trace := EvaluateAndCreate(p, id, decision, fault, trace);
      if !created {
        return Raised, trace;
      }
      outcome, trace := WriteResponse(p, id, fault == InCacheWrite, trace);
    }

    /**
     * The whole handler: a live cached response is returned and nothing changes; a busy key conflicts
     * and nothing changes; otherwise the key is claimed, and the portfolio lock decides what follows.
     */
    method ApplyCredit(p: Policy, req: Request, decision: Decision, fault: Fault)
      returns (outcome: Outcome, ghost trace: seq<State>)
      requires decision.approved ==> Admits(p, UserApps(st.apps, req.user), req.amount, decision.grant)
      modifies this
      ensures IsPath(p, trace) && trace[0] == old(st) && Last(trace) == st && st.now == old(st.now)
      ensures var keyed := req.key.Some? && req.key.value != "";
              var slot := Slot(req.user, if keyed then req.key.value else "");
              if keyed && slot in old(st).cache && st.now <= old(st).cache[slot].expiry then
                && outcome == Answer(old(st).cache[slot].response)
                && st.cache == old(st).cache && st.keyLocks == old(st).keyLocks
                && st.portfolio == old(st).portfolio && st.apps == old(st).apps
              else if keyed && slot in old(st).keyLocks && st.now <= old(st).keyLocks[slot].expiry then
                && outcome == Conflict409 && st.cache == old(st).cache && st.keyLocks == old(st).keyLocks
                && st.portfolio == old(st).portfolio && st.apps == old(st).apps
              else
                && st.keyLocks == (if keyed then old(st).keyLocks[slot := Claim(st.now + 30, |old(st).calls|)]
                                   else old(st).keyLocks)
                && if req.user in old(st).portfolio && st.now <= old(st).portfolio[req.user].expiry then
                     outcome == Conflict409 && st.portfolio == old(st).portfolio && st.apps == old(st).apps
                       && st.cache == old(st).cache
                   else
                     && st.portfolio == old(st).portfolio - {req.user}
                     && (st.apps == if fault == InEvaluate || fault == InCreate then old(st).apps
                                    else old(st).apps + [Application(|old(st).calls|, req.user, req.amount, decision)])
                     && outcome == (if fault == NoFault then Answer(Response(|old(st).apps|, decision)) else Raised)
                     && (st.cache == if fault == NoFault && keyed
                                     then old(st).cache[slot :=
                                            Cached(Response(|old(st).apps|, decision), st.now + 86400)]
                                     else old(st).cache)
    {
      var id := |st.calls|;
      trace := Perform(p, Arrive(req), [st]);
      assert st == old(st).(calls := st.calls) && st.calls[id].req == req;
      if Keyed(req) {
        var early;
        early, trace := PassKey(p, id, trace);
        if early.Some? {
          return early.value, trace;
        }
      }
      outcome, trace := PassPortfolio(p, id, decision, fault, trace);
    }
  }

  // ---------------------------------------------------------------- the text of the Redis keys

  function CacheText(slot: Slot): string { "sk:credit:idempotency:" + slot.user + ":" + slot.key }

  function LockText(slot: Slot): string { CacheText(slot) + ":lock" }

  function PortfolioText(user: string): string { "sk:credit:lock:portfolio:" + user }

  lemma {:induction false} FirstColon(u: string, a: string, v: string, b: string)
    requires ':' !in u && ':' !in v && u + ":" + a == v + ":" + b
    ensures u == v && a == b
    decreases |u|
  {
    var x, y := u + ":" + a, v + ":" + b;
    assert x[0] == (if u == "" then ':' else u[0]) && y[0] == if v == "" then ':' else v[0];
    if u == "" && v == "" {
      assert x == ":" + a && y == ":" + b;
      assert x[1..] == a && y[1..] == b;
    } else if u != "" && v != "" {
      assert x[1..] == u[1..] + ":" + a && y[1..] == v[1..] + ":" + b;
      FirstColon(u[1..], a, v[1..], b);
      assert u == [u[0]] + u[1..] && v == [v[0]] + v[1..];
    }
  }

  lemma CacheTextInjective(s: Slot, t: Slot)
    requires ':' !in s.user && ':' !in t.user
    ensures CacheText(s) == CacheText(t) <==> s == t
  {
    var prefix := "sk:credit:idempotency:";
    if CacheText(s) == CacheText(t) {
      assert CacheText(s)[|prefix|..] == s.user + ":" + s.key && CacheText(t)[|prefix|..] == t.user + ":" + t.key;
      FirstColon(s.user, s.key, t.user, t.key);
    }
  }

  lemma LockTextInjective(s: Slot, t: Slot)
    requires ':' !in s.user && ':' !in t.user
    ensures LockText(s) == LockText(t) <==> s == t
  {
    if LockText(s) == LockText(t) {
      assert LockText(s)[..|CacheText(s)|] == CacheText(s) && LockText(t)[..|CacheText(t)|] == CacheText(t);
      CacheTextInjective(s, t);
    }
  }

  /** One slot's cache key is another's lock key exactly when its idempotency key is the other's followed by ":lock". */
  lemma KeysCollideIff(s: Slot, t: Slot)
    requires ':' !in s.user && ':' !in t.user
    ensures CacheText(s) == LockText(t) <==> s.user == t.user && s.key == t.key + ":lock"
  {
    var prefix := "sk:credit:idempotency:";
    assert CacheText(s)[|prefix|..] == s.user + ":" + s.key;
    assert LockText(t)[|prefix|..] == t.user + ":" + (t.key + ":lock");
    if CacheText(s) == LockText(t) {
      FirstColon(s.user, s.key, t.user, t.key + ":lock");
    }
    if s.user == t.user && s.key == t.key + ":lock" {
      assert CacheText(s) == prefix + (s.user + ":" + s.key);
      assert LockText(t) == prefix + (t.user + ":" + (t.key + ":lock"));
    }
  }

  /** What one Redis keyspace holds under a text: a cached response, or the "1" of a claim. */
  datatype Value = Document(response: Response) | Marker

  ghost predicate Holds(s: State, text: string, v: Value) {
    || (exists slot :: CacheLive(s, slot) && text == CacheText(slot) && v == Document(s.cache[slot].response))
    || (exists slot :: KeyLockLive(s, slot) && text == LockText(slot) && v == Marker)
    || (exists user :: PortfolioLive(s, user) && text == PortfolioText(user) && v == Marker)
  }

  /**
   * In one keyspace a GET of a slot's cache key finds a claim, which parses as the number 1, exactly while
   * the key that the slot's key extends by ":lock" is claimed. Otherwise it finds what the step system reads.
   */
  lemma CacheReadsClaimIff(s: State, slot: Slot)
    requires ':' !in slot.user
    requires forall t :: (t in s.cache || t in s.keyLocks) ==> ':' !in t.user
    ensures Holds(s, CacheText(slot), Marker) <==>
        exists t :: KeyLockLive(s, t) && slot == Slot(t.user, t.key + ":lock")
    ensures forall r :: Holds(s, CacheText(slot), Document(r)) <==> CacheLive(s, slot) && s.cache[slot].response == r
  {
    forall t | KeyLockLive(s, t)
      ensures CacheText(slot) == LockText(t) <==> slot == Slot(t.user, t.key + ":lock")
    {
      KeysCollideIff(slot, t);
    }
    forall user
      ensures PortfolioText(user) != CacheText(slot)
    {
      PortfolioTextSeparate(user, slot);
    }
    forall t | CacheLive(s, t)
      ensures CacheText(slot) == CacheText(t) <==> slot == t
    {
      CacheTextInjective(slot, t);
    }
  }

  lemma PortfolioTextSeparate(user: string, slot: Slot)
    ensures PortfolioText(user) != CacheText(slot) && PortfolioText(user) != LockText(slot)
  {
    assert PortfolioText(user)[10] == 'l' && CacheText(slot)[10] == 'i' && LockText(slot)[10] == 'i';
  }
}
