/**
 * The sliding-window limiter over a trimmed, expiring Redis sorted set, and the log of every request it
 * ever allowed, which nothing trims. One key's commands run one call at a time here; RateLimiterInterleaved
 * lets them interleave. Instants and windows are real numbers of seconds.
 */
module RateLimiter {
  import opened Prelude

  /** The text "{now}:{monotonic_ns}" that identifies one allowed request; its first part is also its score. */
  datatype Stamp = Stamp(time: real, tick: nat)

  // ---------------------------------------------------------------- the sorted set commands

  /**
   * What Redis holds under one key: the members, and the instant the key expires. A key without members does not
   * exist.
   */
  datatype Entry = Entry(members: set<Stamp>, expiry: Option<real>)

  const GONE: Entry := Entry({}, None)

  /** The key as a command at that instant finds it: a key is there up to and including its expiry. */
  function Live(e: Entry, now: real): Entry {
    if e.expiry.Some? && now > e.expiry.value then GONE else e
  }

  /** ZREMRANGEBYSCORE, both ends inclusive; a sorted set that becomes empty is deleted with its expiry. */
  function RemoveByScore(e: Entry, low: real, high: real): Entry {
    var rest := set m | m in e.members && !(low <= m.time <= high);
    if rest == {} then GONE else e.(members := rest)
  }

  function Card(e: Entry): nat { |e.members| }

  function Add(e: Entry, member: Stamp): Entry { e.(members := e.members + {member}) }

  /** EXPIRE of a key that exists; a time to live that is not positive deletes it. */
  function ExpireIn(e: Entry, now: real, ttl: real): Entry {
    if e.members == {} || ttl <= 0.0 then GONE else e.(expiry := Some(now + ttl))
  }

  // ---------------------------------------------------------------- the calls

  datatype Call = Allow(now: real, limit: int, window: real, tick: nat) | CurrentCount(now: real, window: real)

  /** The calls on one key, newest last. */
  datatype History = Start | Then(past: History, last: Call)

  /** Allowed requests, newest last. */
  datatype Log = Empty | Logged(older: Log, newest: Stamp)

  function StampOf(c: Call): Stamp
    requires c.Allow?
  {
    Stamp(c.now, c.tick)
  }

  function Trim(e: Entry, now: real, window: real): Entry { RemoveByScore(Live(e, now), 0.0, now - window) }

  predicate Admitted(e: Entry, c: Call) { c.Allow? && Card(Trim(e, c.now, c.window)) < c.limit }

  function After(e: Entry, c: Call): Entry {
    var t := Trim(e, c.now, c.window);
    if Admitted(e, c) then ExpireIn(Add(t, StampOf(c)), c.now, c.window) else t
  }

  /** The key after a history of calls. */
  function Play(h: History): Entry {
    match h
    case Start => GONE
    case Then(past, c) => After(Play(past), c)
  }

  /** Every request that was allowed, with nothing ever removed. */
  function Granted(h: History): Log {
    match h
    case Start => Empty
    case Then(past, c) => if Admitted(Play(past), c) then Logged(Granted(past), StampOf(c)) else Granted(past)
  }

  function Stamps(h: History): set<Stamp> {
    match h
    case Start => {}
    case Then(past, c) => Stamps(past) + if c.Allow? then {StampOf(c)} else {}
  }

  predicate DoneBy(h: History, now: real) { h.Then? ==> h.last.now <= now }

  /** The clock never goes back, is never negative, and no two requests make the same member. */
  predicate Timely(h: History) {
    match h
    case Start => true
    case Then(past, c) =>
      Timely(past) && 0.0 <= c.now && DoneBy(past, c.now) && (c.Allow? ==> StampOf(c) !in Stamps(past))
  }

  predicate WindowsAtLeast(h: History, window: real) {
    h.Then? ==> WindowsAtLeast(h.past, window) && h.last.window >= window
  }

  predicate OneWindow(h: History, window: real) { h.Then? ==> OneWindow(h.past, window) && h.last.window == window }

  /** Every call of the history. */
  function CallSet(h: History): set<Call> {
    match h
    case Start => {}
    case Then(past, c) => CallSet(past) + {c}
  }

  // ---------------------------------------------------------------- the reference: a log, read but never trimmed

  function Members(log: Log): set<Stamp> {
    match log
    case Empty => {}
    case Logged(older, s) => Members(older) + {s}
  }

  /** How many logged requests lie in (after, upto]. */
  function CountIn(log: Log, after: real, upto: real): nat {
    match log
    case Empty => 0
    case Logged(older, s) => CountIn(older, after, upto) + if after < s.time <= upto then 1 else 0
  }

  /** A request is within its limit when fewer than limit logged ones lie in its window. */
  predicate WithinLimit(log: Log, c: Call) { c.Allow? && CountIn(log, c.now - c.window, c.now) < c.limit }

  /** The limiter the documentation describes. */
  function IdealLog(h: History): Log {
    match h
    case Start => Empty
    case Then(past, c) => if WithinLimit(IdealLog(past), c) then Logged(IdealLog(past), StampOf(c)) else IdealLog(past)
  }

  // ---------------------------------------------------------------- the class

  /** The calls of one identity so far. */
  function CallsOf(histories: map<string, History>, identity: string): History {
    if identity in histories then histories[identity] else Start
  }

  function FoundIn(keys: map<string, Entry>, key: string): Entry { if key in keys then keys[key] else GONE }

  ghost predicate EachHoldsItsOwn(prefix: string, keys: map<string, Entry>, histories: map<string, History>) {
    forall identity: string :: FoundIn(keys, KeyText(prefix, identity)) == Play(CallsOf(histories, identity))
  }

  /** The limiter, with the calls of each identity kept for the statements only. */
  class SlidingWindowRateLimiter {
    const keyPrefix: string
    var keys: map<string, Entry>
    ghost var histories: map<string, History>

    /** Every identity's key holds what that identity's own calls have left there. */
    ghost predicate Valid()
      reads this
    {
      EachHoldsItsOwn(keyPrefix, keys, histories)
    }

    function Found(key: string): Entry
      reads this
    {
      FoundIn(keys, key)
    }

    function FullKey(identity: string): string { KeyText(keyPrefix, identity) }

    constructor (prefix: string)
      ensures Valid() && keyPrefix == prefix && histories == map[]
    {
      keyPrefix := prefix;
      keys := map[];
      histories := map[];
    }

    method ZRemRangeByScore(key: string, low: real, high: real, now: real)
      modifies this`keys
      ensures keys == old(keys)[key := RemoveByScore(Live(old(Found(key)), now), low, high)]
    {
      keys := keys[key := RemoveByScore(Live(Found(key), now), low, high)];
    }

    method ZAdd(key: string, member: Stamp, now: real)
      modifies this`keys
      ensures keys == old(keys)[key := Add(Live(old(Found(key)), now), member)]
    {
      keys := keys[key := Add(Live(Found(key), now), member)];
    }

    method Expire(key: string, ttl: real, now: real)
      modifies this`keys
      ensures keys == old(keys)[key := ExpireIn(Live(old(Found(key)), now), now, ttl)]
    {
      keys := keys[key := ExpireIn(Live(Found(key), now), now, ttl)];
    }

    /** The commands of one request, in the source's order; only the identity's own key changes. */
    method RunAllow(key: string, limit: int, window: real, now: real, tick: nat) returns (ok: bool)
      modifies this`keys
      ensures keys == old(keys)[key := After(old(Found(key)), Allow(now, limit, window, tick))]
      ensures ok <==> Admitted(old(Found(key)), Allow(now, limit, window, tick))
    {
      ghost var e := Found(key);
      ghost var t := Trim(e, now, window);
      Commands(e, Allow(now, limit, window, tick));
      ZRemRangeByScore(key, 0.0, now - window, now);
      assert Found(key) == t;
      var current := Card(Found(key));
      ok := current < limit;
      if ok {
        ZAdd(key, Stamp(now, tick), now);
        assert Found(key) == Add(Live(t, now), Stamp(now, tick));
        Expire(key, window, now);
      }
    }

    /**
     * True exactly when, of all the requests this identity was ever allowed, fewer than limit lie in the
     * window, provided no earlier call of the identity used a shorter window. What other identities did
     * makes no difference, and their keys stay as they are.
     */
    method AllowRequest(identity: string, limit: int, window: real, now: real, tick: nat) returns (ok: bool)
      requires Valid() && Timely(Then(CallsOf(histories, identity), Allow(now, limit, window, tick)))
      modifies this`keys, this`histories
      ensures Valid()
      ensures var history := old(CallsOf(histories, identity));
              && histories == old(histories)[identity := Then(history, Allow(now, limit, window, tick))]
              && Granted(CallsOf(histories, identity))
                 == (if ok then Logged(Granted(history), Stamp(now, tick)) else Granted(history))
              && (WindowsAtLeast(history, window) ==> (ok <==> CountIn(Granted(history), now - window, now) < limit))
      ensures ok && window > 0.0 ==> Found(FullKey(identity)).expiry == Some(now + window)
      ensures forall other :: other != identity ==> Found(FullKey(other)) == old(Found(FullKey(other)))
    {
      ghost var history := CallsOf(histories, identity);
      AllowAnswers(history, now, limit, window, tick);
      OneMoreCall(keyPrefix, keys, histories, identity, Allow(now, limit, window, tick));
      ok := RunAllow(FullKey(identity), limit, window, now, tick);
      histories := histories[identity := Then(history, Allow(now, limit, window, tick))];
    }

    /** The number of allowed requests in the window, under the same proviso; the log stays as it was. */
    method CountRequests(identity: string, window: real, now: real) returns (count: nat)
      requires Valid() && Timely(Then(CallsOf(histories, identity), CurrentCount(now, window)))
      modifies this`keys, this`histories
      ensures Valid()
      ensures var history := old(CallsOf(histories, identity));
              && histories == old(histories)[identity := Then(history, CurrentCount(now, window))]
              && Granted(CallsOf(histories, identity)) == Granted(history)
              && (WindowsAtLeast(history, window) ==> count == CountIn(Granted(history), now - window, now))
      ensures forall other :: other != identity ==> Found(FullKey(other)) == old(Found(FullKey(other)))
    {
      ghost var history := CallsOf(histories, identity);
      CountAnswers(history, now, window);
      OneMoreCall(keyPrefix, keys, histories, identity, CurrentCount(now, window));
      ZRemRangeByScore(FullKey(identity), 0.0, now - window, now);
      count := Card(Found(FullKey(identity)));
      histories := histories[identity := Then(history, CurrentCount(now, window))];
    }

    /** 429 exactly when the request is not allowed. */
    method Enforce(identity: string, limit: int, window: real, now: real, tick: nat) returns (status: Option<int>)
      requires Valid() && Timely(Then(CallsOf(histories, identity), Allow(now, limit, window, tick)))
      modifies this`keys, this`histories
      ensures Valid() && (status == None || status == Some(429))
      ensures var history := old(CallsOf(histories, identity));
              && histories == old(histories)[identity := Then(history, Allow(now, limit, window, tick))]
              && Granted(CallsOf(histories, identity))
                 == (if status == None then Logged(Granted(history), Stamp(now, tick)) else Granted(history))
              && (WindowsAtLeast(history, window) ==>
                    (status == Some(429) <==> CountIn(Granted(history), now - window, now) >= limit))
      ensures forall other :: other != identity ==> Found(FullKey(other)) == old(Found(FullKey(other)))
    {
      var ok := AllowRequest(identity, limit, window, now, tick);
      status := if ok then None else Some(429);
    }
  }

  /** A call on an identity's key is one more call of that identity, and no other key is the same. */
  lemma OneMoreCall(
      prefix: string, keys: map<string, Entry>, histories: map<string, History>, identity: string, c: Call)
    requires EachHoldsItsOwn(prefix, keys, histories)
    ensures var key, history := KeyText(prefix, identity), CallsOf(histories, identity);
            && FoundIn(keys, key) == Play(history) && After(FoundIn(keys, key), c) == Play(Then(history, c))
            && EachHoldsItsOwn(prefix, keys[key := Play(Then(history, c))], histories[identity := Then(history, c)])
    ensures forall other :: other != identity ==> KeyText(prefix, other) != KeyText(prefix, identity)
  {
    forall other | other != identity
      ensures KeyText(prefix, other) != KeyText(prefix, identity)
    {
      KeyTextInjective(prefix, other, identity);
    }
  }

  // ---------------------------------------------------------------- what the key holds

  /** What an allow call does to the log, and what its answer is. */
  lemma AllowAnswers(h: History, now: real, limit: int, window: real, tick: nat)
    requires Timely(Then(h, Allow(now, limit, window, tick)))
    ensures var c := Allow(now, limit, window, tick);
            && Granted(Then(h, c))
               == (if Admitted(Play(h), c) then Logged(Granted(h), Stamp(now, tick)) else Granted(h))
            && (WindowsAtLeast(h, window) ==>
                  (Admitted(Play(h), c) <==> CountIn(Granted(h), now - window, now) < limit))
            && (Admitted(Play(h), c) && window > 0.0 ==> Play(Then(h, c)).expiry == Some(now + window))
  {
    AnswersAsLog(h, Allow(now, limit, window, tick));
    if Admitted(Play(h), Allow(now, limit, window, tick)) && window > 0.0 {
      AdmittedExpiry(Play(h), now, limit, window, tick);
    }
  }

  lemma AdmittedExpiry(e: Entry, now: real, limit: int, window: real, tick: nat)
    requires Admitted(e, Allow(now, limit, window, tick)) && window > 0.0
    ensures After(e, Allow(now, limit, window, tick)).expiry == Some(now + window)
  {
    assert Stamp(now, tick) in Add(Trim(e, now, window), Stamp(now, tick)).members;
  }

  /** What a count call does to the log, and what it returns. */
  lemma CountAnswers(h: History, now: real, window: real)
    requires Timely(Then(h, CurrentCount(now, window)))
    ensures Granted(Then(h, CurrentCount(now, window))) == Granted(h)
    ensures WindowsAtLeast(h, window) ==> Card(Trim(Play(h), now, window)) == CountIn(Granted(h), now - window, now)
  {
    AnswersAsLog(h, CurrentCount(now, window));
    CountOnlyTrims(h, window, now);
  }

  lemma CountOnlyTrims(h: History, window: real, now: real)
    ensures Play(Then(h, CurrentCount(now, window))) == RemoveByScore(Live(Play(h), now), 0.0, now - window)
    ensures Granted(Then(h, CurrentCount(now, window))) == Granted(h)
  {
    assert !Admitted(Play(h), CurrentCount(now, window));
  }

  /** The commands of one call at one instant: no command finds a key that the one before it left to expire. */
  lemma Commands(e: Entry, c: Call)
    requires c.Allow?
    ensures var t := Trim(e, c.now, c.window);
            After(e, c)
            == if Card(t) < c.limit then ExpireIn(Live(Add(Live(t, c.now), StampOf(c)), c.now), c.now, c.window) else t
  {
    var t := Trim(e, c.now, c.window);
    assert Live(t, c.now) == t;
    assert Live(Add(t, StampOf(c)), c.now) == Add(t, StampOf(c));
  }

  lemma {:induction false} GrantedAreStamps(h: History)
    requires Timely(h)
    ensures Members(Granted(h)) <= Stamps(h) && forall s :: s in Members(Granted(h)) ==> 0.0 <= s.time
  {
    if h.Then? {
      GrantedAreStamps(h.past);
    }
  }

  predicate Distinct(log: Log) { log.Logged? ==> Distinct(log.older) && log.newest !in Members(log.older) }

  lemma {:induction false} GrantedDistinct(h: History)
    requires Timely(h)
    ensures Distinct(Granted(h))
  {
    if h.Then? {
      GrantedDistinct(h.past);
      GrantedAreStamps(h.past);
    }
  }

  /** Every member is logged, and whatever is logged in the window is there now. */
  ghost predicate Kept(e: Entry, log: set<Stamp>, window: real, now: real) {
    && e.members <= log
    && (forall s :: s in log ==> s.time <= now)
    && (forall s :: s in log && s.time > now - window ==> s in Live(e, now).members)
  }

  lemma KeptStep(e: Entry, log: set<Stamp>, c: Call, window: real, now: real)
    requires 0.0 <= c.now <= now && c.window >= window
    requires Kept(e, log, window, c.now)
    requires forall s :: s in log && s.time > now - window ==> s in Live(e, now).members
    ensures Kept(After(e, c), log + if Admitted(e, c) then {StampOf(c)} else {}, window, now)
  {
    var t := Trim(e, c.now, c.window);
    assert forall s :: s in log && s.time > c.now - window ==> s in t.members;
    forall s | s in log && s.time > now - window
      ensures s in Live(After(e, c), now).members
    {
      assert s in t.members && s in Live(e, now).members;
    }
  }

  /** Neither the inclusive trim nor the refreshed expiry drops a request that a window this short still covers. */
  lemma {:induction false} KeptAlways(h: History, window: real, now: real)
    requires Timely(h) && WindowsAtLeast(h, window) && DoneBy(h, now)
    ensures Kept(Play(h), Members(Granted(h)), window, now)
  {
    if h.Then? {
      KeptAlways(h.past, window, h.last.now);
      KeptAlways(h.past, window, now);
      KeptStep(Play(h.past), Members(Granted(h.past)), h.last, window, now);
    }
  }

  function Recent(log: set<Stamp>, after: real): set<Stamp> { set s | s in log && s.time > after }

  lemma RecentAdd(older: set<Stamp>, s: Stamp, after: real)
    requires s !in older
    ensures |Recent(older + {s}, after)| == |Recent(older, after)| + if s.time > after then 1 else 0
  {
    assert Recent(older + {s}, after) == Recent(older, after) + if s.time > after then {s} else {};
  }

  lemma {:induction false} RecentCount(log: Log, after: real, upto: real)
    requires Distinct(log) && forall s :: s in Members(log) ==> s.time <= upto
    ensures |Recent(Members(log), after)| == CountIn(log, after, upto)
  {
    match log
    case Empty => assert Recent(Members(log), after) == {};
    case Logged(older, s) =>
      RecentCount(older, after, upto);
      assert s in Members(log);
      RecentAdd(Members(older), s, after);
  }

  /** What is left after the trim is the logged window, member for member. */
  lemma TrimIsRecent(e: Entry, log: set<Stamp>, window: real, now: real)
    requires Kept(e, log, window, now) && forall s :: s in log ==> 0.0 <= s.time
    ensures Trim(e, now, window).members == Recent(log, now - window)
  {
  }

  ghost predicate Faithful(e: Entry, log: Log, window: real, now: real) {
    Kept(e, Members(log), window, now) && Distinct(log) && forall s :: s in Members(log) ==> 0.0 <= s.time
  }

  lemma FaithfulAlways(h: History, window: real, now: real)
    requires Timely(h) && WindowsAtLeast(h, window) && DoneBy(h, now)
    ensures Faithful(Play(h), Granted(h), window, now)
  {
    KeptAlways(h, window, now);
    GrantedAreStamps(h);
    GrantedDistinct(h);
  }

  lemma FaithfulCount(e: Entry, log: Log, window: real, now: real)
    requires Faithful(e, log, window, now)
    ensures Card(Trim(e, now, window)) == CountIn(log, now - window, now)
  {
    TrimIsRecent(e, Members(log), window, now);
    RecentCount(log, now - window, now);
  }

  lemma CountAlways(h: History, window: real, now: real)
    requires Timely(h) && WindowsAtLeast(h, window) && DoneBy(h, now)
    ensures Card(Trim(Play(h), now, window)) == CountIn(Granted(h), now - window, now)
  {
    var e, log := Play(h), Granted(h);
    assert Faithful(e, log, window, now) by {
      FaithfulAlways(h, window, now);
    }
    FaithfulCount(e, log, window, now);
  }

  /** What the trimmed set counts is what the log counts, unless an earlier call used a shorter window. */
  lemma AnswersAsLog(h: History, c: Call)
    requires Timely(Then(h, c))
    ensures WindowsAtLeast(h, c.window) ==>
        Card(Trim(Play(h), c.now, c.window)) == CountIn(Granted(h), c.now - c.window, c.now)
  {
    assert Timely(h) && DoneBy(h, c.now);
    if WindowsAtLeast(h, c.window) {
      CountAlways(h, c.window, c.now);
    }
  }

  // ---------------------------------------------------------------- the theorems

  /** With one window the trimmed, expiring set allows exactly what the untrimmed log would, over every history. */
  lemma {:induction false} RefinesIdeal(h: History, window: real)
    requires Timely(h) && OneWindow(h, window)
    ensures WindowsAtLeast(h, window) && Granted(h) == IdealLog(h)
  {
    if h.Then? {
      RefinesIdeal(h.past, window);
      AnswersAsLog(h.past, h.last);
    }
  }

  function WithoutCounts(h: History): History {
    match h
    case Start => Start
    case Then(past, c) => if c.Allow? then Then(WithoutCounts(past), c) else WithoutCounts(past)
  }

  lemma {:induction false} DropCounts(h: History, window: real, now: real)
    requires Timely(h) && OneWindow(h, window) && DoneBy(h, now)
    ensures Timely(WithoutCounts(h)) && OneWindow(WithoutCounts(h), window) && DoneBy(WithoutCounts(h), now)
    ensures Stamps(WithoutCounts(h)) == Stamps(h) && IdealLog(WithoutCounts(h)) == IdealLog(h)
  {
    if h.Then? {
      DropCounts(h.past, window, h.last.now);
      if h.last.CurrentCount? {
        DropCounts(h.past, window, now);
      }
    }
  }

  /** Asking for the count changes the answer of no later call: without those calls the same requests are allowed. */
  lemma CountsChangeNothing(h: History, window: real)
    requires Timely(h) && OneWindow(h, window)
    ensures Granted(WithoutCounts(h)) == Granted(h)
  {
    DropCounts(h, window, if h.Then? then h.last.now else 0.0);
    RefinesIdeal(h, window);
    RefinesIdeal(WithoutCounts(h), window);
  }

  lemma {:induction false} CountWithin(log: Log, a: real, b: real, c: real, d: real)
    requires c <= a && forall s :: s in Members(log) ==> s.time <= d
    ensures CountIn(log, a, b) <= CountIn(log, c, d)
  {
    if log.Logged? {
      assert log.newest in Members(log);
      CountWithin(log.older, a, b, c, d);
    }
  }

  lemma {:induction false} IdealDoneBy(h: History, now: real)
    requires Timely(h) && DoneBy(h, now)
    ensures forall s :: s in Members(IdealLog(h)) ==> s.time <= now
  {
    if h.Then? {
      IdealDoneBy(h.past, h.last.now);
    }
  }

  lemma {:induction false} IdealBound(h: History, limit: nat, window: real, t: real)
    requires Timely(h) && OneWindow(h, window)
    requires forall c :: c in CallSet(h) && c.Allow? ==> c.limit <= limit
    ensures CountIn(IdealLog(h), t - window, t) <= limit
  {
    if h.Then? {
      IdealBound(h.past, limit, window, t);
      IdealDoneBy(h.past, h.last.now);
      if t - window < h.last.now <= t {
        CountWithin(IdealLog(h.past), t - window, t, h.last.now - window, h.last.now);
      }
    }
  }

  /** The promise: no interval as long as the window ever holds more allowed requests than the limit. */
  lemma NoWindowOverLimit(h: History, limit: nat, window: real, t: real)
    requires Timely(h) && OneWindow(h, window)
    requires forall c :: c in CallSet(h) && c.Allow? ==> c.limit <= limit
    ensures CountIn(Granted(h), t - window, t) <= limit
  {
    RefinesIdeal(h, window);
    IdealBound(h, limit, window, t);
  }

  // ---------------------------------------------------------------- several windows on one key

  /** After these calls the limiter answers a request as the log would. */
  predicate Exact(h: History, c: Call) { Admitted(Play(h), c) <==> WithinLimit(Granted(h), c) }

  function LateStart(shorter: real): real { if shorter < 0.0 then 0.0 else shorter }

  function First(shorter: real): History { Then(Start, Allow(0.0, 1, shorter, 0)) }

  function Forgetful(shorter: real): History { Then(First(shorter), CurrentCount(LateStart(shorter), shorter)) }

  lemma GoneStaysGone(now: real, window: real)
    ensures Trim(GONE, now, window) == GONE
  {
  }

  lemma FirstIsTrimmed(shorter: real)
    ensures Admitted(GONE, Allow(0.0, 1, shorter, 0))
    ensures Trim(After(GONE, Allow(0.0, 1, shorter, 0)), LateStart(shorter), shorter) == GONE
  {
    var e := After(GONE, Allow(0.0, 1, shorter, 0));
    GoneStaysGone(0.0, shorter);
    assert forall m :: m in e.members ==> m == Stamp(0.0, 0);
  }

  /** A count with a shorter window makes the key forget a request that the longer window still covers. */
  lemma ShorterWindowForgets(shorter: real, window: real)
    requires shorter < window && 0.0 < window
    ensures !Exact(Forgetful(shorter), Allow(LateStart(shorter), 1, window, 1))
  {
    FirstIsTrimmed(shorter);
    GoneStaysGone(LateStart(shorter), window);
    assert Play(First(shorter)) == After(GONE, Allow(0.0, 1, shorter, 0));
    assert Granted(First(shorter)) == Logged(Empty, Stamp(0.0, 0));
    assert CountIn(Logged(Empty, Stamp(0.0, 0)), LateStart(shorter) - window, LateStart(shorter)) == 1;
  }

  lemma ForgetfulTimely(shorter: real, window: real)
    ensures Timely(Then(Forgetful(shorter), Allow(LateStart(shorter), 1, window, 1)))
    ensures OneWindow(Forgetful(shorter), shorter)
  {
    assert Timely(First(shorter)) && OneWindow(First(shorter), shorter) && Stamps(First(shorter)) == {Stamp(0.0, 0)};
  }

  lemma ExactAfter(h: History, c: Call, other: real)
    requires Timely(Then(h, c)) && OneWindow(h, other) && (other >= c.window || c.window <= 0.0)
    ensures Exact(h, c)
  {
    RefinesIdeal(h, other);
    if other >= c.window {
      LongerWindows(h, other, c.window);
      AnswersAsLog(h, c);
    } else {
      FaithfulAlways(h, other, c.now);
      EmptyWindowExact(Play(h), Granted(h), c, other);
    }
  }

  lemma EmptyWindowExact(e: Entry, log: Log, c: Call, other: real)
    requires Faithful(e, log, other, c.now) && c.window <= 0.0
    ensures Admitted(e, c) <==> WithinLimit(log, c)
  {
    EmptyWindowTrims(e, log, other, c.window, c.now);
    CountNone(log, c.now - c.window, c.now);
  }

  lemma {:induction false} LongerWindows(h: History, longer: real, window: real)
    requires WindowsAtLeast(h, longer) && longer >= window
    ensures WindowsAtLeast(h, window)
  {
    if h.Then? {
      LongerWindows(h.past, longer, window);
    }
  }

  lemma EmptyWindowTrims(e: Entry, log: Log, other: real, window: real, now: real)
    requires Faithful(e, log, other, now) && window <= 0.0
    ensures Trim(e, now, window) == GONE
  {
    var l := Live(e, now);
    assert forall m :: m in l.members ==> 0.0 <= m.time <= now - window;
  }

  lemma {:induction false} CountNone(log: Log, after: real, upto: real)
    requires upto <= after
    ensures CountIn(log, after, upto) == 0
  {
    if log.Logged? {
      CountNone(log.older, after, upto);
    }
  }

  /** Sharing a key between two windows is harmless to the calls with the shorter one, and never to the others. */
  lemma SharedKeyExactIff(other: real, window: real)
    ensures (forall h, c :: Timely(Then(h, c)) && OneWindow(h, other) && c.window == window ==> Exact(h, c))
            <==> other >= window || window <= 0.0
  {
    if other >= window || window <= 0.0 {
      forall h, c | Timely(Then(h, c)) && OneWindow(h, other) && c.window == window
        ensures Exact(h, c)
      {
        ExactAfter(h, c, other);
      }
    } else {
      var late := Allow(LateStart(other), 1, window, 1);
      ShorterWindowForgets(other, window);
      ForgetfulTimely(other, window);
      assert late.window == window;
    }
  }

  // ---------------------------------------------------------------- the text of the keys

  function KeyText(prefix: string, identity: string): string { prefix + ":" + identity }

  /** Under one prefix identities never share a key. */
  lemma KeyTextInjective(prefix: string, a: string, b: string)
    ensures KeyText(prefix, a) == KeyText(prefix, b) <==> a == b
  {
    assert KeyText(prefix, a)[|prefix| + 1..] == a && KeyText(prefix, b)[|prefix| + 1..] == b;
  }

  /** Two prefixes can meet on a key exactly when one, with its colon, begins the other with its colon. */
  lemma PrefixesMeetIff(p: string, q: string)
    ensures (exists a, b :: KeyText(p, a) == KeyText(q, b)) <==> p + ":" <= q + ":" || q + ":" <= p + ":"
  {
    if a, b :| KeyText(p, a) == KeyText(q, b) {
      var text := KeyText(p, a);
      assert text[..|p| + 1] == p + ":" && text[..|q| + 1] == q + ":";
    }
    if p + ":" <= q + ":" {
      var rest := (q + ":")[|p| + 1..];
      assert KeyText(p, rest) == KeyText(q, "");
    }
    if q + ":" <= p + ":" {
      var rest := (p + ":")[|q| + 1..];
      assert KeyText(p, "") == KeyText(q, rest);
    }
  }
}
