/**
 * The limiter when calls on one key overlap: k callers, each with at most one call in flight, and the
 * Redis commands of their calls in any order. All calls use one limit and one window. A call reads the
 * clock when it starts and is then as slow as it likes.
 */
module RateLimiterInterleaved {
  import opened Prelude
  import R = RateLimiter

  /** Idle, or the Redis command the caller sends next. */
  datatype Phase = Idle | Trimming | Counting | Adding | Expiring

  datatype Caller = Caller(phase: Phase, now: real, tick: nat)

  /** The sorted set, its callers, and the log of all members ever added. */
  datatype State = State(clock: real, ticks: nat, key: R.Entry, callers: seq<Caller>, log: set<R.Stamp>)

  datatype Config = Config(limit: int, window: real)

  /** What a call takes at most. */
  type Delay = d: real | d >= 0.0

  datatype Action = Tick(until: real) | Arrive(i: nat) | Command(i: nat)

  predicate Busy(c: Caller) { c.phase != Idle }

  function StampOf(c: Caller): R.Stamp { R.Stamp(c.now, c.tick) }

  predicate Enabled(s: State, a: Action) {
    match a
    case Tick(until) => s.clock <= until
    case Arrive(i) => i < |s.callers| && s.callers[i].phase == Idle
    case Command(i) => i < |s.callers| && Busy(s.callers[i])
  }

  function Move(s: State, i: nat, key: R.Entry, phase: Phase): State
    requires i < |s.callers|
  {
    s.(key := key, callers := s.callers[i := s.callers[i].(phase := phase)])
  }

  function AfterCommand(cfg: Config, s: State, i: nat): State
    requires i < |s.callers| && Busy(s.callers[i])
  {
    var c, key := s.callers[i], R.Live(s.key, s.clock);
    match c.phase
    case Idle => s
    case Trimming => Move(s, i, R.RemoveByScore(key, 0.0, c.now - cfg.window), Counting)
    case Counting => Move(s, i, key, if R.Card(key) >= cfg.limit then Idle else Adding)
    case Adding => Move(s, i, R.Add(key, StampOf(c)), Expiring).(log := s.log + {StampOf(c)})
    case Expiring => Move(s, i, R.ExpireIn(key, s.clock, cfg.window), Idle)
  }

  function Next(cfg: Config, s: State, a: Action): State
    requires Enabled(s, a)
  {
    match a
    case Tick(until) => s.(clock := until)
    case Arrive(i) => s.(ticks := s.ticks + 1, callers := s.callers[i := Caller(Trimming, s.clock, s.ticks)])
    case Command(i) => AfterCommand(cfg, s, i)
  }

  const AT_REST: Caller := Caller(Idle, 0.0, 0)

  function Init(k: nat): State { State(0.0, 0, R.GONE, seq(k, _ => AT_REST), {}) }

  ghost predicate Step(cfg: Config, s: State, t: State) { exists a :: Enabled(s, a) && t == Next(cfg, s, a) }

  ghost predicate IsRun(cfg: Config, k: nat, run: seq<State>) {
    |run| > 0 && run[0] == Init(k) && forall i :: 0 <= i < |run| - 1 ==> Step(cfg, run[i], run[i + 1])
  }

  function Last(run: seq<State>): State
    requires |run| > 0
  {
    run[|run| - 1]
  }

  lemma LastStep(cfg: Config, k: nat, run: seq<State>) returns (front: seq<State>, a: Action)
    requires IsRun(cfg, k, run) && |run| > 1
    ensures front == run[..|run| - 1] && IsRun(cfg, k, front)
    ensures Enabled(Last(front), a) && Last(run) == Next(cfg, Last(front), a)
  {
    front := run[..|run| - 1];
    assert forall i :: 0 <= i < |front| - 1 ==> Step(cfg, run[i], run[i + 1]);
    assert Step(cfg, run[|run| - 2], run[|run| - 2 + 1]);
    assert Step(cfg, Last(front), Last(run));
    a :| Enabled(Last(front), a) && Last(run) == Next(cfg, Last(front), a);
  }

  // ---------------------------------------------------------------- without overlap it is the one call

  /** A caller has started a call and sent its first two commands, with nothing in between. */
  function Counted(cfg: Config, s: State, i: nat): State
    requires Enabled(s, Arrive(i))
  {
    AfterCommand(cfg, AfterCommand(cfg, Next(cfg, s, Arrive(i)), i), i)
  }

  /**
   * Commands that follow one another at one instant leave what the uninterrupted call leaves: the caller is
   * turned away exactly if that call is, and otherwise its two further commands end with the same key.
   */
  lemma AloneIsCall(cfg: Config, s: State, i: nat)
    requires Enabled(s, Arrive(i))
    ensures var c, t := R.Allow(s.clock, cfg.limit, cfg.window, s.ticks), Counted(cfg, s, i);
            && t.callers[i] == Caller(if R.Admitted(s.key, c) then Adding else Idle, s.clock, s.ticks)
            && (forall j :: 0 <= j < |s.callers| && j != i ==> t.callers[j] == s.callers[j])
            && if R.Admitted(s.key, c) then
                 var end := AfterCommand(cfg, AfterCommand(cfg, t, i), i);
                 && end.key == R.After(s.key, c) && end.callers == t.callers[i := Caller(Idle, s.clock, s.ticks)]
                 && end.log == s.log + {R.Stamp(s.clock, s.ticks)} && end.clock == s.clock && end.ticks == s.ticks + 1
               else t.key == R.After(s.key, c) && t.log == s.log && t.clock == s.clock
  {
    var c := R.Allow(s.clock, cfg.limit, cfg.window, s.ticks);
    R.Commands(s.key, c);
    assert R.Live(R.Trim(s.key, s.clock, cfg.window), s.clock) == R.Trim(s.key, s.clock, cfg.window);
  }

  // ---------------------------------------------------------------- callers past the check

  datatype Span = Always | Within(after: real, upto: real)

  predicate In(span: Span, time: real) { span.Within? ==> span.after < time <= span.upto }

  /** How many callers are in one of the phases, in calls started in the span. */
  function Number(callers: seq<Caller>, phases: set<Phase>, span: Span): nat {
    if callers == [] then 0
    else Number(callers[..|callers| - 1], phases, span) + Weight(callers[|callers| - 1], phases, span)
  }

  function Weight(c: Caller, phases: set<Phase>, span: Span): nat {
    if c.phase in phases && In(span, c.now) then 1 else 0
  }

  /** Callers that were told they are under the limit, and have not added their member yet. */
  function Passed(callers: seq<Caller>, span: Span): nat { Number(callers, {Adding}, span) }

  lemma {:induction false} NumberUpdate(callers: seq<Caller>, i: nat, c: Caller, phases: set<Phase>, span: Span)
    requires i < |callers|
    ensures Number(callers[i := c], phases, span)
         == Number(callers, phases, span) - Weight(callers[i], phases, span) + Weight(c, phases, span)
  {
    var n := |callers| - 1;
    if i == n {
      assert callers[i := c][..n] == callers[..n];
    } else {
      NumberUpdate(callers[..n], i, c, phases, span);
      assert callers[i := c][..n] == callers[..n][i := c];
    }
  }

  /** Callers in different phases are different callers. */
  lemma {:induction false} NumberSplit(callers: seq<Caller>, a: set<Phase>, b: set<Phase>, span: Span)
    requires a !! b
    ensures Number(callers, a, span) + Number(callers, b, span) <= |callers|
  {
    if callers != [] {
      NumberSplit(callers[..|callers| - 1], a, b, span);
    }
  }

  lemma {:induction false} NumberMore(callers: seq<Caller>, a: set<Phase>, b: set<Phase>, span: Span)
    requires a <= b
    ensures Number(callers, a, span) <= Number(callers, b, span)
  {
    if callers != [] {
      NumberMore(callers[..|callers| - 1], a, b, span);
    }
  }

  /** A caller that has not passed the check leaves at most k - 1 that have. */
  lemma OthersPassed(callers: seq<Caller>, i: nat, span: Span)
    requires i < |callers| && callers[i].phase != Adding
    ensures Passed(callers, span) <= |callers| - 1
  {
    var c := callers[i].(phase := Adding);
    NumberUpdate(callers, i, c, {Adding}, Always);
    NumberSplit(callers[i := c], {Adding}, {}, Always);
    NumberAlways(callers, {Adding}, span);
  }

  lemma {:induction false} NumberAlways(callers: seq<Caller>, phases: set<Phase>, span: Span)
    ensures Number(callers, phases, span) <= Number(callers, phases, Always)
  {
    if callers != [] {
      NumberAlways(callers[..|callers| - 1], phases, span);
    }
  }

  lemma {:induction false} NumberNone(callers: seq<Caller>, phases: set<Phase>, span: Span)
    requires (span.Within? && span.after >= span.upto) || forall c :: c in callers ==> c.phase !in phases
    ensures Number(callers, phases, span) == 0
  {
    if callers != [] {
      NumberNone(callers[..|callers| - 1], phases, span);
    }
  }

  // ---------------------------------------------------------------- what is stored, plus what will be

  /** Overlapping calls can pass the check together, but never more than k - 1 beyond the limit. */
  function Ceiling(cfg: Config, k: nat): nat {
    if cfg.limit <= 0 || k == 0 then 0 else cfg.limit + k - 1
  }

  ghost predicate Bounded(cfg: Config, k: nat, s: State) {
    |s.callers| == k && R.Card(s.key) + Passed(s.callers, Always) <= Ceiling(cfg, k)
  }

  lemma CardLive(e: R.Entry, now: real, low: real, high: real)
    ensures R.Card(R.Live(e, now)) <= R.Card(e)
    ensures R.Card(R.RemoveByScore(R.Live(e, now), low, high)) <= R.Card(e)
  {
    var l := R.Live(e, now);
    Smaller(R.RemoveByScore(l, low, high).members, l.members);
  }

  lemma {:induction false} Smaller<T>(a: set<T>, b: set<T>)
    requires a <= b
    ensures |a| <= |b|
    decreases a
  {
    if x :| x in a {
      Smaller(a - {x}, b - {x});
    }
  }

  lemma BoundedCommand(cfg: Config, k: nat, s: State, i: nat)
    requires Bounded(cfg, k, s) && Enabled(s, Command(i))
    ensures Bounded(cfg, k, AfterCommand(cfg, s, i))
  {
    var c, t := s.callers[i], AfterCommand(cfg, s, i);
    CardCommand(cfg, s, i);
    NumberUpdate(s.callers, i, t.callers[i], {Adding}, Always);
    if c.phase == Counting {
      OthersPassed(s.callers, i, Always);
    }
  }

  /** Only a ZADD makes the key larger, and by one. */
  lemma CardCommand(cfg: Config, s: State, i: nat)
    requires Enabled(s, Command(i))
    ensures R.Card(AfterCommand(cfg, s, i).key) <= R.Card(s.key) + if s.callers[i].phase == Adding then 1 else 0
    ensures AfterCommand(cfg, s, i).callers[i].phase == Adding ==> R.Card(AfterCommand(cfg, s, i).key) < cfg.limit
  {
    CardLive(s.key, s.clock, 0.0, s.callers[i].now - cfg.window);
  }

  lemma BoundedStep(cfg: Config, k: nat, s: State, a: Action)
    requires Bounded(cfg, k, s) && Enabled(s, a)
    ensures Bounded(cfg, k, Next(cfg, s, a))
  {
    match a
    case Tick(_) =>
    case Arrive(i) => NumberUpdate(s.callers, i, Next(cfg, s, a).callers[i], {Adding}, Always);
    case Command(i) => BoundedCommand(cfg, k, s, i);
  }

  /** In every reachable state the stored members and the callers about to add one are within the ceiling. */
  lemma {:induction false} StoredAndPassedBounded(cfg: Config, k: nat, run: seq<State>)
    requires IsRun(cfg, k, run)
    ensures Bounded(cfg, k, Last(run))
    decreases |run|
  {
    if |run| == 1 {
      NumberNone(Init(k).callers, {Adding}, Always);
    } else {
      var front, a := LastStep(cfg, k, run);
      StoredAndPassedBounded(cfg, k, front);
      BoundedStep(cfg, k, Last(front), a);
    }
  }

  // ---------------------------------------------------------------- every addition is a new member

  predicate Unused(s: State, c: Caller) {
    c.tick < s.ticks && (c.phase != Expiring ==> forall g :: g in s.log ==> g.tick != c.tick)
  }

  predicate DistinctTicks(s: State) {
    && (forall g :: g in s.log ==> g.tick < s.ticks)
    && (forall c :: c in s.callers && Busy(c) ==> Unused(s, c))
    && (forall i, j :: 0 <= i < j < |s.callers| && Busy(s.callers[i]) && Busy(s.callers[j]) ==>
          s.callers[i].tick != s.callers[j].tick)
  }

  lemma DistinctStep(cfg: Config, s: State, a: Action)
    requires DistinctTicks(s) && Enabled(s, a)
    ensures DistinctTicks(Next(cfg, s, a))
  {
    var t := Next(cfg, s, a);
    if !a.Tick? {
      assert s.callers[a.i] in s.callers;
      forall c | c in t.callers && Busy(c)
        ensures Unused(t, c)
      {
        var j :| 0 <= j < |t.callers| && t.callers[j] == c;
        assert s.callers[j] in s.callers;
      }
    }
  }

  lemma {:induction false} DistinctAlways(cfg: Config, k: nat, run: seq<State>)
    requires IsRun(cfg, k, run)
    ensures DistinctTicks(Last(run))
    decreases |run|
  {
    if |run| > 1 {
      var front, a := LastStep(cfg, k, run);
      DistinctAlways(cfg, k, front);
      DistinctStep(cfg, Last(front), a);
    }
  }

  /** So the log has one member for every request that was allowed. */
  lemma EveryGrantIsNew(cfg: Config, k: nat, run: seq<State>, i: nat)
    requires IsRun(cfg, k, run) && i < |Last(run).callers| && Last(run).callers[i].phase == Adding
    ensures |AfterCommand(cfg, Last(run), i).log| == |Last(run).log| + 1
  {
    DistinctAlways(cfg, k, run);
    assert Last(run).callers[i] in Last(run).callers;
    assert StampOf(Last(run).callers[i]) !in Last(run).log;
  }

  // ---------------------------------------------------------------- the ceiling is reached

  /** No call has been in flight for more than D. */
  predicate Prompt(s: State, D: Delay) { forall c :: c in s.callers && Busy(c) ==> s.clock <= c.now + D }

  ghost predicate PromptRun(cfg: Config, k: nat, run: seq<State>, D: Delay) {
    IsRun(cfg, k, run) && forall i :: 0 <= i < |run| ==> Prompt(run[i], D)
  }

  /** A state at the end of such a run. */
  ghost predicate Reached(cfg: Config, k: nat, s: State, D: Delay) {
    exists run :: PromptRun(cfg, k, run, D) && Last(run) == s
  }

  lemma Advance(cfg: Config, k: nat, s: State, a: Action, D: Delay) returns (t: State)
    requires Reached(cfg, k, s, D) && Enabled(s, a) && Prompt(Next(cfg, s, a), D)
    ensures Reached(cfg, k, t, D) && t == Next(cfg, s, a)
  {
    var run :| PromptRun(cfg, k, run, D) && Last(run) == s;
    t := Next(cfg, s, a);
    var longer := run + [t];
    forall i | 0 <= i < |longer| - 1
      ensures Step(cfg, longer[i], longer[i + 1])
    {
      assert i < |run| - 1 ==> longer[i] == run[i] && longer[i + 1] == run[i + 1] && Step(cfg, run[i], run[i + 1]);
    }
    assert forall i :: 0 <= i < |run| ==> longer[i] == run[i];
    assert PromptRun(cfg, k, longer, D) && Last(longer) == t;
  }

  lemma AtInit(cfg: Config, k: nat, D: Delay)
    ensures Reached(cfg, k, Init(k), D)
  {
    var run := [Init(k)];
    assert PromptRun(cfg, k, run, D) && Last(run) == Init(k);
  }

  /** The key holds n members of this instant; the first j callers passed the check at it and the others are idle. */
  predicate Loaded(s: State, n: nat, j: nat) {
    && s.clock >= 0.0 && R.Card(s.key) == n && (s.key.expiry.Some? ==> s.key.expiry.value >= s.clock)
    && (forall m :: m in s.key.members ==> m.time == s.clock && m.tick < s.ticks && m in s.log)
    && j <= |s.callers| && (forall i :: 0 <= i < j ==> s.callers[i].phase == Adding && s.callers[i].now == s.clock)
    && (forall i :: j <= i < |s.callers| ==> s.callers[i].phase == Idle)
  }

  /** What stays as it was while more calls are made at one instant. */
  predicate Follows(s: State, t: State) { t.clock == s.clock && |t.callers| == |s.callers| && s.log <= t.log }

  /** With a positive window a trim removes nothing of its own instant. */
  lemma TrimKeepsAll(e: R.Entry, now: real, window: real)
    requires window > 0.0 && (e.expiry.Some? ==> e.expiry.value >= now) && forall m :: m in e.members ==> m.time == now
    ensures var t := R.RemoveByScore(R.Live(e, now), 0.0, now - window);
            t.members == e.members && (t.expiry.Some? ==> t.expiry.value >= now)
  {
    assert R.RemoveByScore(e, 0.0, now - window).members == e.members;
  }

  /** The next caller starts a call and passes the check. */
  lemma PassOne(cfg: Config, k: nat, s: State, n: nat, j: nat, D: Delay) returns (t: State)
    requires Reached(cfg, k, s, D) && Loaded(s, n, j) && j < |s.callers|
    requires n < cfg.limit && cfg.window > 0.0
    ensures Reached(cfg, k, t, D) && Loaded(t, n, j + 1) && Follows(s, t)
    ensures t.callers[j].tick == t.ticks - 1
    ensures forall m :: m in t.key.members ==> m.tick < t.ticks - 1
  {
    t := Advance(cfg, k, s, Arrive(j), D);
    TrimKeepsAll(t.key, s.clock, cfg.window);
    t := Advance(cfg, k, t, Command(j), D);
    t := Advance(cfg, k, t, Command(j), D);
  }

  /** The first caller, which has passed the check alone, adds its member. */
  lemma AddOne(cfg: Config, k: nat, s: State, n: nat, D: Delay) returns (t: State)
    requires Reached(cfg, k, s, D) && Loaded(s, n, 1)
    requires s.callers[0].tick < s.ticks && forall m :: m in s.key.members ==> m.tick < s.callers[0].tick
    ensures Reached(cfg, k, t, D) && t.clock == s.clock && t.ticks == s.ticks
    ensures t.key == s.key.(members := s.key.members + {StampOf(s.callers[0])}) && R.Card(t.key) == n + 1
    ensures t.callers == s.callers[0 := s.callers[0].(phase := Expiring)] && t.log == s.log + {StampOf(s.callers[0])}
  {
    t := Advance(cfg, k, s, Command(0), D);
    assert StampOf(s.callers[0]) !in s.key.members;
  }

  /** A whole call of the first caller, with nothing else going on. */
  lemma FillOne(cfg: Config, k: nat, s: State, n: nat, D: Delay) returns (t: State)
    requires Reached(cfg, k, s, D) && Loaded(s, n, 0) && |s.callers| > 0
    requires n < cfg.limit && cfg.window > 0.0
    ensures Reached(cfg, k, t, D) && Loaded(t, n + 1, 0) && Follows(s, t)
    ensures t.key.expiry == Some(s.clock + cfg.window)
  {
    t := PassOne(cfg, k, s, n, 0, D);
    t := AddOne(cfg, k, t, n, D);
    t := Advance(cfg, k, t, Command(0), D);
  }

  lemma {:induction false} Fill(cfg: Config, k: nat, s: State, n: nat, D: Delay) returns (t: State)
    requires Reached(cfg, k, s, D) && Loaded(s, 0, 0) && |s.callers| > 0
    requires n < cfg.limit && cfg.window > 0.0
    ensures Reached(cfg, k, t, D) && Loaded(t, n, 0) && Follows(s, t)
  {
    if n == 0 {
      t := s;
    } else {
      t := Fill(cfg, k, s, n - 1, D);
      t := FillOne(cfg, k, t, n - 1, D);
    }
  }

  lemma {:induction false} PassMany(cfg: Config, k: nat, s: State, j: nat, D: Delay) returns (t: State)
    requires Reached(cfg, k, s, D) && Loaded(s, 0, 0) && 0 < j <= |s.callers|
    requires cfg.limit > 0 && cfg.window > 0.0
    ensures Reached(cfg, k, t, D) && Loaded(t, (cfg.limit - 1) as nat, j) && Follows(s, t)
  {
    if j == 1 {
      t := Fill(cfg, k, s, cfg.limit - 1, D);
    } else {
      t := PassMany(cfg, k, s, j - 1, D);
    }
    t := PassOne(cfg, k, t, cfg.limit - 1, j - 1, D);
  }

  lemma {:induction false} AllPassed(callers: seq<Caller>, span: Span)
    requires forall c :: c in callers ==> c.phase == Adding && In(span, c.now)
    ensures Passed(callers, span) == |callers|
  {
    if callers != [] {
      AllPassed(callers[..|callers| - 1], span);
    }
  }

  /** No smaller bound holds: k callers that all pass the check at one member below the limit reach it. */
  lemma CeilingIsExact(cfg: Config, k: nat, b: int)
    requires cfg.window > 0.0
    ensures (forall run :: IsRun(cfg, k, run) ==> R.Card(Last(run).key) + Passed(Last(run).callers, Always) <= b)
            <==> Ceiling(cfg, k) <= b
  {
    if Ceiling(cfg, k) <= b {
      forall run | IsRun(cfg, k, run)
        ensures R.Card(Last(run).key) + Passed(Last(run).callers, Always) <= b
      {
        StoredAndPassedBounded(cfg, k, run);
      }
    } else if k > 0 && cfg.limit > 0 {
      AtInit(cfg, k, 0.0);
      var s := PassMany(cfg, k, Init(k), k, 0.0);
      AllPassed(s.callers, Always);
      var run :| PromptRun(cfg, k, run, 0.0) && Last(run) == s;
      assert IsRun(cfg, k, run);
    } else {
      assert IsRun(cfg, k, [Init(k)]);
      NumberNone(Init(k).callers, {Adding}, Always);
      assert R.Card(Last([Init(k)]).key) + Passed(Last([Init(k)]).callers, Always) == 0;
    }
  }
}
