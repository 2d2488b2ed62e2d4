/**
 * What overlapping calls are granted in a window. ZADD and EXPIRE are two commands, and a key that lapses
 * between them takes a member with it that was just granted: exactly when that lets a window overrun.
 */
module RateLimiterOverlap {
  import opened Prelude
  import R = RateLimiter
  import opened RateLimiterInterleaved

  // ---------------------------------------------------------------- what was granted in a window

  /** The key has lapsed between the ZADD and the EXPIRE of a call that started in the span. */
  predicate Lapsed(s: State, span: Span) {
    && s.key.expiry.Some? && s.clock > s.key.expiry.value
    && exists c :: c in s.callers && c.phase == Expiring && In(span, c.now)
  }

  /** The caller that added a member, until its EXPIRE. */
  predicate Pending(s: State, g: R.Stamp) { exists c :: c in s.callers && c.phase == Expiring && StampOf(c) == g }

  predicate MemberOk(cfg: Config, s: State, g: R.Stamp) {
    && g.time <= s.clock
    && (g.time > s.clock - cfg.window ==> g in s.key.members)
    && (s.key.expiry.Some? ==> g.time + cfg.window <= s.key.expiry.value || Pending(s, g))
  }

  predicate Started(s: State) { forall c :: c in s.callers && Busy(c) ==> c.now <= s.clock }

  /**
   * What is logged of the span and still in the window is stored, and the expiry covers it as soon as its EXPIRE
   * has run.
   */
  predicate Kept(cfg: Config, s: State, span: Span) {
    Started(s) && forall g :: g in s.log && In(span, g.time) ==> MemberOk(cfg, s, g)
  }

  lemma LiveHolds(cfg: Config, s: State, span: Span, g: R.Stamp)
    requires Kept(cfg, s, span) && !Lapsed(s, span) && g in s.log && In(span, g.time) && g.time > s.clock - cfg.window
    ensures g in R.Live(s.key, s.clock).members
  {
    assert MemberOk(cfg, s, g);
  }

  /** A caller's place may change as long as it was not waiting for its EXPIRE. */
  lemma PendingKept(s: State, t: State, i: nat, g: R.Stamp)
    requires i < |s.callers| == |t.callers| && t.callers == s.callers[i := t.callers[i]]
    requires s.callers[i].phase != Expiring && Pending(s, g)
    ensures Pending(t, g)
  {
    var c :| c in s.callers && c.phase == Expiring && StampOf(c) == g;
    var j :| 0 <= j < |s.callers| && s.callers[j] == c;
    assert t.callers[j] == c;
  }

  lemma CallersMoved(s: State, t: State, i: nat)
    requires i < |s.callers| == |t.callers| && t.callers == s.callers[i := t.callers[i]]
    ensures forall c :: c in t.callers ==> c in s.callers || c == t.callers[i]
  {
    forall c | c in t.callers
      ensures c in s.callers || c == t.callers[i]
    {
      var j :| 0 <= j < |t.callers| && t.callers[j] == c;
      assert j != i ==> s.callers[j] == c;
    }
  }

  lemma KeptCommand(cfg: Config, s: State, i: nat, span: Span)
    requires Kept(cfg, s, span) && !Lapsed(s, span) && Enabled(s, Command(i))
    ensures Kept(cfg, AfterCommand(cfg, s, i), span)
  {
    var c, t := s.callers[i], AfterCommand(cfg, s, i);
    CallersMoved(s, t, i);
    assert c in s.callers;
    forall g | g in t.log && In(span, g.time)
      ensures MemberOk(cfg, t, g)
    {
      if g in s.log {
        assert MemberOk(cfg, s, g);
        if g.time > s.clock - cfg.window {
          LiveHolds(cfg, s, span, g);
        }
        if c.phase != Expiring && Pending(s, g) {
          PendingKept(s, t, i, g);
        }
      } else {
        assert t.callers[i] in t.callers && StampOf(t.callers[i]) == g;
      }
    }
  }

  lemma KeptArrive(cfg: Config, s: State, i: nat, span: Span)
    requires Kept(cfg, s, span) && Enabled(s, Arrive(i))
    ensures Kept(cfg, Next(cfg, s, Arrive(i)), span)
  {
    var t := Next(cfg, s, Arrive(i));
    CallersMoved(s, t, i);
    forall g | g in t.log && In(span, g.time)
      ensures MemberOk(cfg, t, g)
    {
      assert MemberOk(cfg, s, g);
      if Pending(s, g) {
        PendingKept(s, t, i, g);
      }
    }
  }

  lemma KeptStep(cfg: Config, s: State, a: Action, span: Span)
    requires Kept(cfg, s, span) && !Lapsed(s, span) && Enabled(s, a)
    ensures Kept(cfg, Next(cfg, s, a), span)
  {
    match a
    case Tick(until) =>
      forall g | g in s.log && In(span, g.time)
        ensures MemberOk(cfg, s.(clock := until), g)
      {
        assert MemberOk(cfg, s, g);
      }
    case Arrive(i) => KeptArrive(cfg, s, i, span);
    case Command(i) => KeptCommand(cfg, s, i, span);
  }

  function Granted(log: set<R.Stamp>, span: Span): set<R.Stamp> { set g | g in log && In(span, g.time) }

  /** Members added for calls started in the span, and callers of the span about to add theirs. */
  predicate WindowBounded(cfg: Config, k: nat, s: State, span: Span) {
    |s.callers| == k && |Granted(s.log, span)| + Passed(s.callers, span) <= Ceiling(cfg, k)
  }

  /** An interval that ends at t and is shorter than the window by the longest delay. */
  function Interval(cfg: Config, D: Delay, t: real): Span { Within(t - (cfg.window - D), t) }

  /** At a check, everything granted in the interval is still stored. */
  lemma GrantedIsStored(cfg: Config, s: State, i: nat, D: Delay, t: real)
    requires Kept(cfg, s, Interval(cfg, D, t)) && !Lapsed(s, Interval(cfg, D, t)) && Prompt(s, D)
    requires i < |s.callers| && Busy(s.callers[i]) && s.callers[i].now <= t
    ensures |Granted(s.log, Interval(cfg, D, t))| <= R.Card(R.Live(s.key, s.clock))
  {
    var g, live := Granted(s.log, Interval(cfg, D, t)), R.Live(s.key, s.clock).members;
    assert s.callers[i] in s.callers;
    forall x | x in g
      ensures x in live
    {
      LiveHolds(cfg, s, Interval(cfg, D, t), x);
    }
    Smaller(g, live);
  }

  lemma GrantedAdd(log: set<R.Stamp>, g: R.Stamp, span: Span)
    ensures |Granted(log + {g}, span)| <= |Granted(log, span)| + if In(span, g.time) then 1 else 0
  {
    if In(span, g.time) {
      assert Granted(log + {g}, span) == Granted(log, span) + {g};
    } else {
      assert Granted(log + {g}, span) == Granted(log, span);
    }
  }

  lemma WindowCommand(cfg: Config, k: nat, s: State, i: nat, D: Delay, t: real)
    requires Kept(cfg, s, Interval(cfg, D, t)) && !Lapsed(s, Interval(cfg, D, t))
    requires Prompt(s, D) && Enabled(s, Command(i))
    requires WindowBounded(cfg, k, s, Interval(cfg, D, t))
    ensures WindowBounded(cfg, k, AfterCommand(cfg, s, i), Interval(cfg, D, t))
  {
    var span := Interval(cfg, D, t);
    var c := s.callers[i];
    NumberUpdate(s.callers, i, AfterCommand(cfg, s, i).callers[i], {Adding}, span);
    if c.phase == Counting && In(span, c.now) {
      OthersPassed(s.callers, i, span);
      GrantedIsStored(cfg, s, i, D, t);
    } else if c.phase == Adding {
      GrantedAdd(s.log, StampOf(c), span);
    }
  }

  lemma WindowStep(cfg: Config, k: nat, s: State, a: Action, D: Delay, t: real)
    requires Kept(cfg, s, Interval(cfg, D, t)) && !Lapsed(s, Interval(cfg, D, t)) && Prompt(s, D) && Enabled(s, a)
    requires WindowBounded(cfg, k, s, Interval(cfg, D, t))
    ensures WindowBounded(cfg, k, Next(cfg, s, a), Interval(cfg, D, t))
  {
    match a
    case Tick(_) =>
    case Arrive(i) => NumberUpdate(s.callers, i, Next(cfg, s, a).callers[i], {Adding}, Interval(cfg, D, t));
    case Command(i) => WindowCommand(cfg, k, s, i, D, t);
  }

  // ---------------------------------------------------------------- after a late lapse

  const EARLY: set<Phase> := {Trimming, Counting, Adding}

  /** The span is over, and each of its requests that was or may be allowed has a caller of its own. */
  predicate Closed(k: nat, s: State, span: Span) {
    && span.Within? && s.clock > span.upto && |s.callers| == k
    && |Granted(s.log, span)| + Number(s.callers, EARLY, span) <= k
  }

  lemma ClosedStep(cfg: Config, k: nat, s: State, a: Action, span: Span)
    requires Closed(k, s, span) && Enabled(s, a)
    ensures Closed(k, Next(cfg, s, a), span)
  {
    if !a.Tick? {
      NumberUpdate(s.callers, a.i, Next(cfg, s, a).callers[a.i], EARLY, span);
      GrantedAdd(s.log, StampOf(s.callers[a.i]), span);
    }
  }

  lemma ClosedBounds(cfg: Config, k: nat, s: State, span: Span)
    requires Closed(k, s, span) && cfg.limit > 0
    ensures WindowBounded(cfg, k, s, span)
  {
    NumberMore(s.callers, {Adding}, EARLY, span);
  }

  function Waiting(callers: seq<Caller>, span: Span): set<R.Stamp> {
    set c | c in callers && c.phase == Expiring && In(span, c.now) :: StampOf(c)
  }

  lemma {:induction false} WaitingCount(callers: seq<Caller>, span: Span)
    ensures |Waiting(callers, span)| <= Number(callers, {Expiring}, span)
  {
    if callers == [] {
      assert Waiting(callers, span) == {};
    } else {
      var front, last := callers[..|callers| - 1], callers[|callers| - 1];
      WaitingCount(front, span);
      assert callers == front + [last];
      var more := if last.phase == Expiring && In(span, last.now) then {StampOf(last)} else {};
      assert Waiting(callers, span) == Waiting(front, span) + more;
    }
  }

  /**
   * When the key lapses under a call of the interval, no call of the interval has refreshed it: all that added a
   * member are in flight.
   */
  lemma LapseCloses(cfg: Config, k: nat, s: State, D: Delay, t: real)
    requires Kept(cfg, s, Interval(cfg, D, t)) && Lapsed(s, Interval(cfg, D, t)) && Prompt(s, D)
    requires s.clock > t && |s.callers| == k
    ensures Closed(k, s, Interval(cfg, D, t))
  {
    var span := Interval(cfg, D, t);
    var c :| c in s.callers && c.phase == Expiring && In(span, c.now);
    forall g | g in Granted(s.log, span)
      ensures g in Waiting(s.callers, span)
    {
      assert MemberOk(cfg, s, g);
    }
    Smaller(Granted(s.log, span), Waiting(s.callers, span));
    WaitingCount(s.callers, span);
    NumberSplit(s.callers, {Expiring}, EARLY, span);
  }

  // ---------------------------------------------------------------- the bound, while lapses come late

  ghost predicate SpanInv(cfg: Config, k: nat, s: State, D: Delay, t: real) {
    || (Kept(cfg, s, Interval(cfg, D, t)) && WindowBounded(cfg, k, s, Interval(cfg, D, t)))
    || Closed(k, s, Interval(cfg, D, t))
  }

  lemma SpanStep(cfg: Config, k: nat, s: State, a: Action, D: Delay, t: real)
    requires SpanInv(cfg, k, s, D, t) && Prompt(s, D) && Enabled(s, a)
    requires Lapsed(s, Interval(cfg, D, t)) ==> s.clock > t
    ensures SpanInv(cfg, k, Next(cfg, s, a), D, t)
  {
    if Closed(k, s, Interval(cfg, D, t)) {
      ClosedStep(cfg, k, s, a, Interval(cfg, D, t));
    } else if Lapsed(s, Interval(cfg, D, t)) {
      LapseCloses(cfg, k, s, D, t);
      ClosedStep(cfg, k, s, a, Interval(cfg, D, t));
    } else {
      KeptStep(cfg, s, a, Interval(cfg, D, t));
      WindowStep(cfg, k, s, a, D, t);
    }
  }

  lemma AtRest(cfg: Config, k: nat, span: Span)
    ensures Kept(cfg, Init(k), span) && WindowBounded(cfg, k, Init(k), span)
  {
    NumberNone(Init(k).callers, {Adding}, span);
    assert Granted({}, span) == {};
  }

  /** Whenever the key lapses under a call of the interval, the interval is over. */
  ghost predicate LapsesLate(cfg: Config, run: seq<State>, D: Delay, t: real) {
    forall i :: 0 <= i < |run| && Lapsed(run[i], Interval(cfg, D, t)) ==> run[i].clock > t
  }

  /**
   * If no call takes longer than D and the key lapses under no call of the interval before its end, the
   * interval never holds more than limit + k - 1 requests that were or will be allowed.
   */
  lemma {:induction false} OverlapBound(cfg: Config, k: nat, run: seq<State>, D: Delay, t: real)
    requires PromptRun(cfg, k, run, D) && LapsesLate(cfg, run, D, t)
    ensures SpanInv(cfg, k, Last(run), D, t)
    ensures cfg.limit > 0 ==> WindowBounded(cfg, k, Last(run), Interval(cfg, D, t))
    decreases |run|
  {
    if |run| == 1 {
      AtRest(cfg, k, Interval(cfg, D, t));
    } else {
      var front, a := LastStep(cfg, k, run);
      assert forall i :: 0 <= i < |front| ==> front[i] == run[i];
      OverlapBound(cfg, k, front, D, t);
      assert Last(front) == run[|run| - 2] && Prompt(run[|run| - 2], D);
      SpanStep(cfg, k, Last(front), a, D, t);
      if Closed(k, Last(run), Interval(cfg, D, t)) && cfg.limit > 0 {
        ClosedBounds(cfg, k, Last(run), Interval(cfg, D, t));
      }
    }
  }

  // ---------------------------------------------------------------- when the key can lapse

  const TRIMMED: set<Phase> := {Counting, Adding, Expiring}

  /**
   * The key outlives the start of a call that has trimmed it, or that of an earlier call that is about to refresh
   * it.
   */
  predicate Outlived(s: State, c: Caller) {
    s.key.expiry.Some? ==>
      || s.key.expiry.value > c.now
      || exists b :: b in s.callers && b.phase == Expiring && b.now < c.now && s.key.expiry.value > b.now
  }

  predicate Covered(cfg: Config, s: State, g: R.Stamp) {
    g.time <= s.clock && (s.key.expiry.Some? ==> g.time + cfg.window <= s.key.expiry.value || Pending(s, g))
  }

  /** What every run keeps, however slow its calls. */
  predicate Orderly(cfg: Config, s: State) {
    && Started(s) && s.clock >= 0.0 && (s.key.members == {} ==> s.key.expiry.None?)
    && (forall m :: m in s.key.members ==> m in s.log && m.time >= 0.0)
    && (forall g :: g in s.log ==> Covered(cfg, s, g))
    && (forall c :: c in s.callers && c.phase in TRIMMED ==> Outlived(s, c))
    && (forall c :: c in s.callers && Busy(c) ==> c.now >= 0.0)
    && (forall c :: c in s.callers && c.phase == Expiring && s.key.expiry.Some? ==> c.now <= s.key.expiry.value)
  }

  /** The members a trim leaves behind keep the key alive past the start of the call that trims. */
  lemma TrimOutlived(cfg: Config, s: State, c: Caller, m: R.Stamp)
    requires Orderly(cfg, s) && m in s.key.members && m.time > c.now - cfg.window
    ensures Outlived(s, c)
  {
    assert Covered(cfg, s, m);
    if s.key.expiry.Some? && m.time + cfg.window > s.key.expiry.value {
      var b :| b in s.callers && b.phase == Expiring && StampOf(b) == m;
      assert Outlived(s, b);
    }
  }

  lemma OutlivedKept(s: State, t: State, i: nat, c: Caller)
    requires i < |s.callers| == |t.callers| && t.callers == s.callers[i := t.callers[i]]
    requires s.callers[i].phase != Expiring
    requires t.key.expiry.Some? ==> t.key.expiry == s.key.expiry
    requires Outlived(s, c)
    ensures Outlived(t, c)
  {
    if t.key.expiry.Some? && t.key.expiry.value <= c.now {
      var b :| b in s.callers && b.phase == Expiring && b.now < c.now && s.key.expiry.value > b.now;
      var j :| 0 <= j < |s.callers| && s.callers[j] == b;
      assert t.callers[j] == b;
    }
  }

  lemma CoveredKept(cfg: Config, s: State, t: State, i: nat, g: R.Stamp)
    requires i < |s.callers| == |t.callers| && t.callers == s.callers[i := t.callers[i]]
    requires s.callers[i].phase != Expiring
    requires t.key.expiry.Some? ==> t.key.expiry == s.key.expiry
    requires Covered(cfg, s, g) && s.clock <= t.clock
    ensures Covered(cfg, t, g)
  {
    if t.key.expiry.Some? && Pending(s, g) {
      PendingKept(s, t, i, g);
    }
  }

  /** Every command but an EXPIRE leaves the expiry alone or the key gone. */
  lemma OrderlyCommand(cfg: Config, s: State, i: nat)
    requires Orderly(cfg, s) && Enabled(s, Command(i)) && s.callers[i].phase != Expiring
    ensures Orderly(cfg, AfterCommand(cfg, s, i))
  {
    var c, t := s.callers[i], AfterCommand(cfg, s, i);
    CallersMoved(s, t, i);
    assert c in s.callers && t.callers[i] in t.callers;
    forall g | g in t.log
      ensures Covered(cfg, t, g)
    {
      if g in s.log {
        CoveredKept(cfg, s, t, i, g);
      }
    }
    if c.phase == Trimming && t.key.expiry.Some? {
      var m :| m in t.key.members;
      TrimOutlived(cfg, s, c, m);
    }
    forall d | d in t.callers && d.phase in TRIMMED
      ensures Outlived(t, d)
    {
      if t.key.expiry.Some? {
        OutlivedKept(s, t, i, if d in s.callers then d else c);
      }
    }
  }

  lemma OrderlyExpire(cfg: Config, s: State, i: nat)
    requires Orderly(cfg, s) && Enabled(s, Command(i)) && s.callers[i].phase == Expiring
    ensures Orderly(cfg, AfterCommand(cfg, s, i))
  {
    CallersMoved(s, AfterCommand(cfg, s, i), i);
    assert forall g :: g in s.log ==> Covered(cfg, s, g);
  }

  lemma OrderlyStep(cfg: Config, s: State, a: Action)
    requires Orderly(cfg, s) && Enabled(s, a)
    ensures Orderly(cfg, Next(cfg, s, a))
  {
    match a
    case Tick(until) =>
      assert forall g :: g in s.log ==> Covered(cfg, s, g);
      assert forall c :: Outlived(s, c) ==> Outlived(s.(clock := until), c);
    case Arrive(i) =>
      var t := Next(cfg, s, a);
      CallersMoved(s, t, i);
      forall g | g in t.log
        ensures Covered(cfg, t, g)
      {
        CoveredKept(cfg, s, t, i, g);
      }
      forall d | d in t.callers && d.phase in TRIMMED
        ensures Outlived(t, d)
      {
        OutlivedKept(s, t, i, d);
      }
    case Command(i) =>
      if s.callers[i].phase == Expiring {
        OrderlyExpire(cfg, s, i);
      } else {
        OrderlyCommand(cfg, s, i);
      }
  }

  lemma {:induction false} AlwaysOrderly(cfg: Config, k: nat, run: seq<State>)
    requires IsRun(cfg, k, run)
    ensures Orderly(cfg, Last(run))
    decreases |run|
  {
    if |run| > 1 {
      var front, a := LastStep(cfg, k, run);
      AlwaysOrderly(cfg, k, front);
      OrderlyStep(cfg, Last(front), a);
    }
  }

  /**
   * When a key has lapsed under a call, a pending call began strictly before the expiry and is in flight strictly
   * after it.
   */
  lemma LapseIsSlow(cfg: Config, s: State, c: Caller) returns (b: Caller)
    requires Orderly(cfg, s) && c in s.callers && c.phase == Expiring
    requires s.key.expiry.Some? && s.clock > s.key.expiry.value
    ensures b in s.callers && b.phase == Expiring && b.now <= c.now && b.now < s.key.expiry.value < s.clock
    ensures c.now <= s.key.expiry.value
  {
    assert Outlived(s, c);
    if s.key.expiry.value > c.now {
      b := c;
    } else {
      b :| b in s.callers && b.phase == Expiring && b.now < c.now && s.key.expiry.value > b.now;
    }
  }

  /** Calls whose commands all fall on one instant never let the key lapse between a ZADD and its EXPIRE. */
  lemma InstantCallsNeverLapse(cfg: Config, k: nat, run: seq<State>)
    requires PromptRun(cfg, k, run, 0.0)
    ensures !Lapsed(Last(run), Always)
  {
    var s := Last(run);
    AlwaysOrderly(cfg, k, run);
    assert Prompt(run[|run| - 1], 0.0);
    assert forall c :: c in s.callers && c.phase == Expiring ==> Outlived(s, c);
  }

  /** At limit 1 a call passes on an empty key only, so every later EXPIRE of that key covers its window. */
  predicate Sole(cfg: Config, s: State) {
    forall c :: c in s.callers && c.phase in {Adding, Expiring} && s.key.expiry.Some? ==>
      c.now + cfg.window <= s.key.expiry.value
  }

  lemma SoleStep(cfg: Config, s: State, a: Action)
    requires cfg.limit == 1 && Orderly(cfg, s) && Sole(cfg, s) && Enabled(s, a)
    ensures Sole(cfg, Next(cfg, s, a))
  {
    if !a.Tick? {
      CallersMoved(s, Next(cfg, s, a), a.i);
      assert s.callers[a.i] in s.callers;
      assert R.Card(R.Live(s.key, s.clock)) < 1 ==> R.Live(s.key, s.clock).members == {};
    }
  }

  lemma {:induction false} AlwaysSole(cfg: Config, k: nat, run: seq<State>)
    requires IsRun(cfg, k, run) && cfg.limit == 1
    ensures Sole(cfg, Last(run))
    decreases |run|
  {
    if |run| > 1 {
      var front, a := LastStep(cfg, k, run);
      AlwaysSole(cfg, k, front);
      AlwaysOrderly(cfg, k, front);
      SoleStep(cfg, Last(front), a);
    }
  }

  predicate Barren(s: State) { s.log == {} && forall c :: c in s.callers ==> c.phase !in {Adding, Expiring} }

  lemma {:induction false} AlwaysBarren(cfg: Config, k: nat, run: seq<State>)
    requires IsRun(cfg, k, run) && (cfg.limit <= 0 || k == 0)
    ensures Barren(Last(run)) && |Last(run).callers| == k
    decreases |run|
  {
    if |run| > 1 {
      var front, a := LastStep(cfg, k, run);
      AlwaysBarren(cfg, k, front);
      if !a.Tick? {
        CallersMoved(Last(front), Last(run), a.i);
        assert Last(front).callers[a.i] in Last(front).callers;
      }
    }
  }

  // ---------------------------------------------------------------- exactly when the bound holds

  /** The limit, the callers and the delay at which a member can be lost and its window then be filled again. */
  predicate CanOverrun(cfg: Config, k: nat, D: Delay) { k >= 1 && cfg.limit >= 2 && 0.0 < D < cfg.window }

  /** At limit 1 no call that started in the interval can lose its member before the interval is over. */
  lemma LapseIsLate(cfg: Config, k: nat, run: seq<State>, D: Delay, t: real)
    requires PromptRun(cfg, k, run, D) && cfg.limit == 1 && cfg.window > D
    requires Lapsed(Last(run), Interval(cfg, D, t))
    ensures Last(run).clock > t
  {
    AlwaysSole(cfg, k, run);
  }

  lemma EveryLapseIsLate(cfg: Config, k: nat, run: seq<State>, D: Delay, t: real)
    requires PromptRun(cfg, k, run, D) && (cfg.limit == 1 || D == 0.0) && cfg.window > D
    ensures LapsesLate(cfg, run, D, t)
  {
    forall i | 0 <= i < |run|
      ensures Lapsed(run[i], Interval(cfg, D, t)) ==> run[i].clock > t
    {
      var part := run[..i + 1];
      assert forall j :: 0 <= j < |part| - 1 ==> Step(cfg, run[j], run[j + 1]);
      assert forall j :: 0 <= j < |part| ==> part[j] == run[j];
      if D == 0.0 {
        InstantCallsNeverLapse(cfg, k, part);
      } else if Lapsed(run[i], Interval(cfg, D, t)) {
        LapseIsLate(cfg, k, part, D, t);
      }
    }
  }

  lemma NoOverrun(cfg: Config, k: nat, run: seq<State>, D: Delay, t: real)
    requires PromptRun(cfg, k, run, D) && !CanOverrun(cfg, k, D)
    ensures WindowBounded(cfg, k, Last(run), Interval(cfg, D, t))
  {
    var s, span := Last(run), Interval(cfg, D, t);
    StoredAndPassedBounded(cfg, k, run);
    if cfg.limit <= 0 || k == 0 {
      AlwaysBarren(cfg, k, run);
      NumberNone(s.callers, {Adding}, span);
      assert Granted(s.log, span) == {};
    } else if cfg.window <= D {
      NumberNone(s.callers, {Adding}, span);
      assert Granted(s.log, span) == {};
    } else {
      EveryLapseIsLate(cfg, k, run, D, t);
      OverlapBound(cfg, k, run, D, t);
    }
  }

  // ---------------------------------------------------------------- a key that lapses under a call

  /** One member, added at instant 0 and due to expire with its window. */
  lemma FirstGranted(cfg: Config, k: nat, D: Delay) returns (s: State)
    requires k > 0 && cfg.limit > 0 && cfg.window > 0.0
    ensures Reached(cfg, k, s, D) && Loaded(s, 1, 0) && s.clock == 0.0 && |s.callers| == k
    ensures s.key.expiry == Some(cfg.window)
  {
    AtInit(cfg, k, D);
    s := FillOne(cfg, k, Init(k), 0, D);
  }

  lemma TrimSpares(e: R.Entry, now: real, window: real)
    requires (e.expiry.Some? ==> e.expiry.value >= now) && e.members != {}
    requires forall m :: m in e.members ==> m.time > now - window
    ensures R.RemoveByScore(R.Live(e, now), 0.0, now - window) == e
  {
    assert R.RemoveByScore(e, 0.0, now - window).members == e.members;
  }

  /** The first caller is at the given step of a call that it started at this instant, and the others are idle. */
  predicate OneAt(s: State, phase: Phase, now: real) {
    && |s.callers| > 0 && s.ticks > 0 && s.callers[0] == Caller(phase, now, s.ticks - 1)
    && (forall i :: 1 <= i < |s.callers| ==> s.callers[i].phase == Idle)
  }

  /** A caller starts so shortly before the expiry that its trim spares the first member. */
  lemma LateTrim(cfg: Config, k: nat, D: Delay, gap: real) returns (s: State)
    requires k > 0 && cfg.limit > 0 && 0.0 < gap < cfg.window
    ensures Reached(cfg, k, s, D) && |s.callers| == k
    ensures OneAt(s, Counting, cfg.window - gap) && s.clock == cfg.window - gap
    ensures s.key.expiry == Some(cfg.window) && R.Card(s.key) == 1
  {
    s := FirstGranted(cfg, k, D);
    TrimSpares(s.key, cfg.window - gap, cfg.window);
    s := Advance(cfg, k, s, Tick(cfg.window - gap), D);
    s := Advance(cfg, k, s, Arrive(0), D);
    s := Advance(cfg, k, s, Command(0), D);
  }

  /** It adds its member, and the expiry is still the first one's. */
  lemma LateAdd(cfg: Config, k: nat, D: Delay, gap: real) returns (s: State)
    requires k > 0 && cfg.limit >= 2 && 0.0 < gap < cfg.window
    ensures Reached(cfg, k, s, D) && |s.callers| == k
    ensures OneAt(s, Expiring, cfg.window - gap) && s.clock == cfg.window - gap
    ensures s.key.expiry == Some(cfg.window) && StampOf(s.callers[0]) in s.log
  {
    s := LateTrim(cfg, k, D, gap);
    s := Advance(cfg, k, s, Command(0), D);
    s := Advance(cfg, k, s, Command(0), D);
  }

  /** Its EXPIRE comes after the expiry: the key is gone, and the member with it. */
  lemma LoseMember(cfg: Config, k: nat, D: Delay, gap: real) returns (s: State, lost: R.Stamp)
    requires k > 0 && cfg.limit >= 2 && 0.0 < gap < cfg.window && 2.0 * gap <= D
    ensures Reached(cfg, k, s, D) && Loaded(s, 0, 0) && |s.callers| == k && s.clock == cfg.window + gap
    ensures lost in s.log && lost.time == cfg.window - gap
  {
    s := LateAdd(cfg, k, D, gap);
    lost := StampOf(s.callers[0]);
    s := Advance(cfg, k, s, Tick(cfg.window + gap), D);
    s := Advance(cfg, k, s, Command(0), D);
  }

  /** The call starts this long before the expiry and sends its EXPIRE this long after it. */
  function Gap(cfg: Config, D: Delay): real { if D < cfg.window - D then D / 4.0 else (cfg.window - D) / 4.0 }

  /** A member is lost, and the whole ceiling is granted again while the interval still covers it. */
  lemma LapseBreaksTheWindow(cfg: Config, k: nat, D: Delay) returns (run: seq<State>)
    requires CanOverrun(cfg, k, D)
    ensures PromptRun(cfg, k, run, D)
    ensures !WindowBounded(cfg, k, Last(run), Interval(cfg, D, cfg.window + Gap(cfg, D)))
  {
    var s, lost := LoseMember(cfg, k, D, Gap(cfg, D));
    s := PassMany(cfg, k, s, k, D);
    Overfull(cfg, k, s, Interval(cfg, D, cfg.window + Gap(cfg, D)), lost);
    run :| PromptRun(cfg, k, run, D) && Last(run) == s;
  }

  lemma Overfull(cfg: Config, k: nat, s: State, span: Span, g: R.Stamp)
    requires cfg.limit > 0 && k > 0 && |s.callers| == k && Loaded(s, (cfg.limit - 1) as nat, k)
    requires g in s.log && g.time != s.clock && In(span, g.time) && In(span, s.clock)
    ensures !WindowBounded(cfg, k, s, span)
  {
    AllPassed(s.callers, span);
    Smaller(s.key.members + {g}, Granted(s.log, span));
  }

  /**
   * With every call taking at most D, an interval shorter than the window by D never holds more than
   * limit + k - 1 requests, in all runs, exactly for the limits, windows, callers and delays that cannot overrun.
   */
  lemma OverlapBoundIff(cfg: Config, k: nat, D: Delay)
    ensures (forall run, t :: PromptRun(cfg, k, run, D) ==> WindowBounded(cfg, k, Last(run), Interval(cfg, D, t)))
            <==> !CanOverrun(cfg, k, D)
  {
    if CanOverrun(cfg, k, D) {
      var run := LapseBreaksTheWindow(cfg, k, D);
      var t := cfg.window + Gap(cfg, D);
      assert PromptRun(cfg, k, run, D) && !WindowBounded(cfg, k, Last(run), Interval(cfg, D, t));
    } else {
      forall run, t | PromptRun(cfg, k, run, D)
        ensures WindowBounded(cfg, k, Last(run), Interval(cfg, D, t))
      {
        NoOverrun(cfg, k, run, D, t);
      }
    }
  }

  /** Calls whose commands all fall on one instant of the clock keep the full window, whatever their order. */
  lemma InstantOverlapBound(cfg: Config, k: nat, run: seq<State>, t: real)
    requires PromptRun(cfg, k, run, 0.0)
    ensures WindowBounded(cfg, k, Last(run), Within(t - cfg.window, t))
  {
    NoOverrun(cfg, k, run, 0.0, t);
  }
}
