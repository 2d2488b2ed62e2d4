/**
 * The delivery event listener: every worker process hears every published event, and a SETNX claim on the
 * event_id lets one of them handle it. Each step is one await of the listener loop of one worker.
 * A claim is there up to and including its expiry instant.
 */
module EventDedup {
  import opened Prelude
  import opened Sums

  const CLAIM_TTL: int := 300

  const HANDLED: set<string> := {
    "delivery.status_changed", "delivery.confirmed", "product.extracted", "product.extraction_failed"
  }

  datatype Envelope = Envelope(event: string, id: Option<string>)

  /**
   * What a message's data turns out to be. Unloadable text makes the JSON parser raise something else than
   * JSONDecodeError: an integer of more than 4300 digits, or nesting that is too deep. An unencodable id is
   * text from which no Redis key can be encoded, such as a lone surrogate.
   */
  datatype Data = NotText | NotJson | Undecodable | Unloadable | NotAnObject | UnencodableId | Json(envelope: Envelope)

  /** Each of these raises outside the try blocks, and the listener ends. */
  predicate Fatal(data: Data) { data.Undecodable? || data.Unloadable? || data.NotAnObject? || data.UnencodableId? }

  /** A missing event_id and an empty one are both handled without a claim. */
  predicate Named(e: Envelope) { e.id.Some? && e.id.value != "" }

  predicate Handled(e: Envelope) { e.event in HANDLED }

  /**
   * Waiting for a message; holding one before the claim; past the claim and about to call the handler; ended by an
   * exception.
   */
  datatype Phase = Waiting | Holding(envelope: Envelope) | Claimed(envelope: Envelope) | Dead

  datatype Worker = Worker(inbox: seq<Data>, phase: Phase)

  /** What became of a claim, kept for the statements only. */
  datatype Fate = Running | Started | Ignored | Failed

  datatype Win = Win(time: int, envelope: Envelope, owner: nat, fate: Fate)

  datatype State = State(
    now: int, claims: map<string, int>, workers: seq<Worker>, started: seq<Envelope>, wins: map<string, Win>,
    published: seq<Data>)

  datatype Action =
    | Tick(until: int) | Publish(data: Data)
    | Take(w: nat) | Claim(w: nat) | Dispatch(w: nat) | Fail(w: nat) | Restart(w: nat)

  predicate Live(claims: map<string, int>, id: string, now: int) { id in claims && now <= claims[id] }

  predicate Enabled(s: State, a: Action) {
    match a
    case Tick(until) => s.now <= until
    case Publish(_) => true
    case Take(w) => w < |s.workers| && s.workers[w].phase == Waiting && s.workers[w].inbox != []
    case Claim(w) => w < |s.workers| && s.workers[w].phase.Holding?
    case Dispatch(w) => w < |s.workers| && s.workers[w].phase.Claimed?
    case Fail(w) => w < |s.workers| && s.workers[w].phase.Claimed?
    case Restart(w) => w < |s.workers| && s.workers[w].phase == Dead
  }

  function SetWorker(s: State, w: nat, worker: Worker): State
    requires w < |s.workers|
  {
    s.(workers := s.workers[w := worker])
  }

  /** Only subscribed workers hear a message. */
  function Hearing(w: Worker, data: Data): Worker { if w.phase == Dead then w else w.(inbox := w.inbox + [data]) }

  function Deliver(workers: seq<Worker>, data: Data): seq<Worker> {
    seq(|workers|, i requires 0 <= i < |workers| => Hearing(workers[i], data))
  }

  /** Data that is not text and text that is not JSON are skipped. */
  function AfterTake(s: State, w: nat): State
    requires Enabled(s, Take(w))
  {
    var rest := s.workers[w].inbox[1..];
    match s.workers[w].inbox[0]
    case NotText => SetWorker(s, w, Worker(rest, Waiting))
    case NotJson => SetWorker(s, w, Worker(rest, Waiting))
    case Json(e) => SetWorker(s, w, Worker(rest, Holding(e)))
    case _ => SetWorker(s, w, Worker([], Dead))
  }

  function AfterClaim(s: State, w: nat): State
    requires Enabled(s, Claim(w))
  {
    var e, inbox := s.workers[w].phase.envelope, s.workers[w].inbox;
    if !Named(e) then SetWorker(s, w, Worker(inbox, Claimed(e)))
    else if Live(s.claims, e.id.value, s.now) then SetWorker(s, w, Worker(inbox, Waiting))
    else
      SetWorker(s.(claims := s.claims[e.id.value := s.now + CLAIM_TTL],
                   wins := s.wins[e.id.value := Win(s.now, e, w, Running)]), w, Worker(inbox, Claimed(e)))
  }

  function Settle(s: State, e: Envelope, fate: Fate): State {
    if Named(e) && e.id.value in s.wins then s.(wins := s.wins[e.id.value := s.wins[e.id.value].(fate := fate)]) else s
  }

  /** The handler starts, if there is one for the event. Whether it then fails changes nothing here. */
  function AfterDispatch(s: State, w: nat): State
    requires Enabled(s, Dispatch(w))
  {
    var e := s.workers[w].phase.envelope;
    var t := SetWorker(s, w, Worker(s.workers[w].inbox, Waiting));
    if Handled(e) then Settle(t.(started := t.started + [e]), e, Started) else Settle(t, e, Ignored)
  }

  function Next(s: State, a: Action): State
    requires Enabled(s, a)
  {
    match a
    case Tick(until) => s.(now := until)
    case Publish(data) => s.(workers := Deliver(s.workers, data), published := s.published + [data])
    case Take(w) => AfterTake(s, w)
    case Claim(w) => AfterClaim(s, w)
    case Dispatch(w) => AfterDispatch(s, w)
    case Fail(w) => Settle(SetWorker(s, w, Worker(s.workers[w].inbox, Waiting)), s.workers[w].phase.envelope, Failed)
    case Restart(w) => SetWorker(s, w, Worker([], Waiting))
  }

  // ---------------------------------------------------------------- runs

  function Init(n: nat): State { State(0, map[], seq(n, _ => Worker([], Waiting)), [], map[], []) }

  ghost predicate Step(s: State, t: State) { exists a :: Enabled(s, a) && t == Next(s, a) }

  ghost predicate IsPath(run: seq<State>) { |run| > 0 && forall i :: 0 <= i < |run| - 1 ==> Step(run[i], run[i + 1]) }

  ghost predicate IsRun(n: nat, run: seq<State>) { IsPath(run) && run[0] == Init(n) }

  function Last(run: seq<State>): State
    requires |run| > 0
  {
    run[|run| - 1]
  }

  lemma ExtendPath(run: seq<State>, a: Action)
    requires IsPath(run) && Enabled(Last(run), a)
    ensures IsPath(run + [Next(Last(run), a)])
  {
    var longer := run + [Next(Last(run), a)];
    forall i | 0 <= i < |longer| - 1
      ensures Step(longer[i], longer[i + 1])
    {
      assert i < |run| - 1 ==> longer[i] == run[i] && longer[i + 1] == run[i + 1] && Step(run[i], run[i + 1]);
    }
  }

  lemma LastStep(n: nat, run: seq<State>) returns (front: seq<State>, a: Action)
    requires IsRun(n, run) && |run| > 1
    ensures front == run[..|run| - 1] && IsRun(n, front)
    ensures Enabled(Last(front), a) && Last(run) == Next(Last(front), a)
  {
    front := run[..|run| - 1];
    assert forall i :: 0 <= i < |front| - 1 ==> Step(run[i], run[i + 1]);
    assert Step(run[|run| - 2], run[|run| - 2 + 1]);
    assert Step(Last(front), Last(run));
    a :| Enabled(Last(front), a) && Last(run) == Next(Last(front), a);
  }

  /** No worker is still before its claim W seconds after the event was first claimed. */
  predicate Timely(s: State, W: nat) {
    forall w :: w in s.workers && w.phase.Holding? && Named(w.phase.envelope) && w.phase.envelope.id.value in s.wins ==>
      s.now <= s.wins[w.phase.envelope.id.value].time + W
  }

  ghost predicate TimelyRun(n: nat, run: seq<State>, W: nat) {
    IsRun(n, run) && forall i :: 0 <= i < |run| ==> Timely(run[i], W)
  }

  // ---------------------------------------------------------------- how often a handler started

  function StartsOf(started: seq<Envelope>, id: string): nat {
    if started == [] then 0
    else StartsOf(started[..|started| - 1], id) + if started[|started| - 1].id == Some(id) then 1 else 0
  }

  lemma StartsAppend(started: seq<Envelope>, e: Envelope, id: string)
    ensures StartsOf(started + [e], id) == StartsOf(started, id) + if e.id == Some(id) then 1 else 0
  {
    assert (started + [e])[..|started|] == started;
  }

  // ---------------------------------------------------------------- who hears a message

  /** In every run a listener that has ended has nothing to hear: what it had is lost, and it hears nothing new. */
  lemma {:induction false} EndedHearsNothing(n: nat, run: seq<State>)
    requires IsRun(n, run)
    ensures |Last(run).workers| == n
    ensures forall i :: 0 <= i < n && Last(run).workers[i].phase == Dead ==> Last(run).workers[i].inbox == []
    decreases |run|
  {
    if |run| > 1 {
      var front, a := LastStep(n, run);
      EndedHearsNothing(n, front);
      forall i: nat | i < n
        ensures |Last(run).workers| == n
        ensures Last(run).workers[i].phase == Dead ==> Last(run).workers[i].inbox == []
      {
        EndedStep(Last(front), a, i);
      }
    }
  }

  lemma EndedStep(s: State, a: Action, i: nat)
    requires Enabled(s, a) && i < |s.workers| && (s.workers[i].phase == Dead ==> s.workers[i].inbox == [])
    ensures |Next(s, a).workers| == |s.workers|
    ensures Next(s, a).workers[i].phase == Dead ==> Next(s, a).workers[i].inbox == []
  {
  }

  /** Every listener that has not ended hears what is published, after what it has heard before. */
  lemma PublishIsHeard(s: State, data: Data, w: nat)
    requires w < |s.workers| && s.workers[w].phase != Dead
    ensures var t := Next(s, Publish(data));
            && t.workers[w] == Worker(s.workers[w].inbox + [data], s.workers[w].phase)
            && t.published == s.published + [data]
  {
  }

  /** A listener that has ended and is started again hears exactly what is published from then on. */
  lemma RestartedHears(s: State, w: nat, before: Data, after: Data)
    requires w < |s.workers| && s.workers[w] == Worker([], Dead)
    ensures var restarted := Next(Next(s, Publish(before)), Restart(w));
            Next(restarted, Publish(after)).workers[w] == Worker([after], Waiting)
  {
    assert [] + [after] == [after];
  }

  // ---------------------------------------------------------------- the invariant

  predicate WorkerOk(s: State, i: nat)
    requires i < |s.workers|
  {
    var p := s.workers[i].phase;
    p.Claimed? && Named(p.envelope) ==>
      p.envelope.id.value in s.wins && s.wins[p.envelope.id.value].owner == i
        && s.wins[p.envelope.id.value].fate == Running
  }

  /**
   * A claimed event is about to be handled by its one owner, or was started once, or had no handler, or failed
   * before it.
   */
  predicate IdOk(s: State, id: string) {
    if id in s.wins then
      var w := s.wins[id];
      && id in s.claims && s.claims[id] == w.time + CLAIM_TTL && w.time <= s.now
      && w.envelope.id == Some(id) && id != ""
      && StartsOf(s.started, id) == (if w.fate == Started then 1 else 0)
      && (w.fate == Running ==> w.owner < |s.workers| && s.workers[w.owner].phase == Claimed(w.envelope))
      && (w.fate == Ignored ==> !Handled(w.envelope))
    else
      id != "" ==> StartsOf(s.started, id) == 0
  }

  ghost predicate Inv(s: State) {
    (forall i: nat :: i < |s.workers| ==> WorkerOk(s, i)) && forall id :: IdOk(s, id)
  }

  /** A step of one worker that makes no claim and calls no handler. */
  lemma QuietStep(s: State, t: State, w: nat)
    requires Inv(s) && w < |s.workers| == |t.workers| && t == s.(workers := s.workers[w := t.workers[w]])
    requires !s.workers[w].phase.Claimed? && (t.workers[w].phase.Claimed? ==> !Named(t.workers[w].phase.envelope))
    ensures Inv(t)
  {
    forall i: nat | i < |t.workers|
      ensures WorkerOk(t, i)
    {
      assert WorkerOk(s, i);
    }
    forall id
      ensures IdOk(t, id)
    {
      assert IdOk(s, id);
    }
  }

  lemma ClaimKeeps(s: State, w: nat)
    requires Inv(s) && Timely(s, CLAIM_TTL) && Enabled(s, Claim(w))
    ensures Inv(AfterClaim(s, w))
  {
    var e, t := s.workers[w].phase.envelope, AfterClaim(s, w);
    assert s.workers[w] in s.workers;
    if !Named(e) || Live(s.claims, e.id.value, s.now) {
      QuietStep(s, t, w);
    } else {
      assert IdOk(s, e.id.value);
      forall i: nat | i < |t.workers|
        ensures WorkerOk(t, i)
      {
        assert WorkerOk(s, i);
      }
      forall id
        ensures IdOk(t, id)
      {
        assert IdOk(s, id);
      }
    }
  }

  /** The owner is done with its claim: the handler started, or there was none, or the session failed first. */
  lemma SettleKeeps(s: State, t: State, w: nat, fate: Fate)
    requires Inv(s) && w < |s.workers| && s.workers[w].phase.Claimed? && fate != Running
    requires t == Settle(SetWorker(s, w, Worker(s.workers[w].inbox, Waiting)).(started := t.started),
        s.workers[w].phase.envelope, fate)
    requires fate == Ignored ==> !Handled(s.workers[w].phase.envelope)
    requires t.started == if fate == Started then s.started + [s.workers[w].phase.envelope] else s.started
    ensures Inv(t)
  {
    var e := s.workers[w].phase.envelope;
    assert WorkerOk(s, w);
    forall i: nat | i < |t.workers|
      ensures WorkerOk(t, i)
    {
      assert WorkerOk(s, i);
    }
    forall id
      ensures IdOk(t, id)
    {
      assert IdOk(s, id);
      StartsAppend(s.started, e, id);
    }
  }

  lemma WorldKeeps(s: State, a: Action)
    requires Inv(s) && Enabled(s, a) && (a.Tick? || a.Publish?)
    ensures Inv(Next(s, a))
  {
    var t := Next(s, a);
    forall i: nat | i < |t.workers|
      ensures WorkerOk(t, i)
    {
      assert WorkerOk(s, i);
    }
    forall id
      ensures IdOk(t, id)
    {
      assert IdOk(s, id);
    }
  }

  lemma StepKeeps(s: State, a: Action)
    requires Inv(s) && Timely(s, CLAIM_TTL) && Enabled(s, a)
    ensures Inv(Next(s, a))
  {
    match a
    case Tick(_) => WorldKeeps(s, a);
    case Publish(_) => WorldKeeps(s, a);
    case Take(w) => QuietStep(s, AfterTake(s, w), w);
    case Claim(w) => ClaimKeeps(s, w);
    case Dispatch(w) =>
      SettleKeeps(s, AfterDispatch(s, w), w, if Handled(s.workers[w].phase.envelope) then Started else Ignored);
    case Fail(w) => SettleKeeps(s, Next(s, a), w, Failed);
    case Restart(w) => QuietStep(s, Next(s, a), w);
  }

  lemma {:induction false} RunKeeps(n: nat, run: seq<State>, W: nat)
    requires TimelyRun(n, run, W) && W <= CLAIM_TTL
    ensures Inv(Last(run))
    decreases |run|
  {
    if |run| > 1 {
      var front, a := LastStep(n, run);
      assert forall i :: 0 <= i < |front| ==> front[i] == run[i];
      RunKeeps(n, front, W);
      assert Timely(run[|run| - 2], W) && Last(front) == run[|run| - 2];
      StepKeeps(Last(front), a);
    }
  }

  // ---------------------------------------------------------------- the theorems

  /** For every event with an id the handler starts at most once, in all workers together. */
  ghost predicate AtMostOnce(s: State) { forall id :: id != "" ==> StartsOf(s.started, id) <= 1 }

  predicate InHand(s: State, id: string) {
    exists w :: w in s.workers && w.phase.Claimed? && w.phase.envelope.id == Some(id)
  }

  /** Exactly once, if some worker won the claim, the event has a handler, and no session failed before it. */
  lemma ExactlyOnceIfClaimed(n: nat, run: seq<State>, W: nat, id: string)
    requires TimelyRun(n, run, W) && W <= CLAIM_TTL && id != ""
    ensures var s := Last(run);
            && StartsOf(s.started, id) <= 1
            && (id !in s.wins ==> StartsOf(s.started, id) == 0)
            && (id in s.wins && Handled(s.wins[id].envelope) && s.wins[id].fate != Failed ==>
                  (StartsOf(s.started, id) == 1 <==> !InHand(s, id)))
  {
    var s := Last(run);
    RunKeeps(n, run, W);
    assert IdOk(s, id);
    if id in s.wins {
      if s.wins[id].fate == Running {
        assert s.workers[s.wins[id].owner] in s.workers;
      } else if InHand(s, id) {
        var w :| w in s.workers && w.phase.Claimed? && w.phase.envelope.id == Some(id);
        var i :| 0 <= i < |s.workers| && s.workers[i] == w;
        assert WorkerOk(s, i);
      }
    }
  }

  lemma StartedOnce(n: nat, run: seq<State>, W: nat)
    requires TimelyRun(n, run, W) && W <= CLAIM_TTL
    ensures AtMostOnce(Last(run))
  {
    forall id | id != ""
      ensures StartsOf(Last(run).started, id) <= 1
    {
      ExactlyOnceIfClaimed(n, run, W, id);
    }
  }

  // ---------------------------------------------------------------- one worker's loop

  /** What a worker makes of messages it already has, with nothing else running. */
  datatype Heard = Heard(claims: map<string, int>, started: seq<Envelope>, alive: bool)

  function Claims(claims: map<string, int>, now: int, e: Envelope): map<string, int> {
    if Named(e) && !Live(claims, e.id.value, now) then claims[e.id.value := now + CLAIM_TTL] else claims
  }

  function Starts(claims: map<string, int>, now: int, e: Envelope): seq<Envelope> {
    if Handled(e) && !(Named(e) && Live(claims, e.id.value, now)) then [e] else []
  }

  function HearOne(claims: map<string, int>, now: int, data: Data): Heard {
    if data.Json? then Heard(Claims(claims, now, data.envelope), Starts(claims, now, data.envelope), true)
    else Heard(claims, [], data.NotText? || data.NotJson?)
  }

  function Rest(done: seq<Envelope>, rest: Heard): Heard { rest.(started := done + rest.started) }

  function Hear(claims: map<string, int>, now: int, inbox: seq<Data>): Heard
    decreases |inbox|
  {
    if inbox == [] then Heard(claims, [], true)
    else
      var one := HearOne(claims, now, inbox[0]);
      if one.alive then Rest(one.started, Hear(one.claims, now, inbox[1..])) else one
  }

  /** The first event with an id among the messages that come before one that ends the listener. */
  function FirstWith(inbox: seq<Data>, id: string): Option<Envelope> {
    if inbox == [] || Fatal(inbox[0]) then None
    else if inbox[0].Json? && inbox[0].envelope.id == Some(id) then Some(inbox[0].envelope)
    else FirstWith(inbox[1..], id)
  }

  lemma {:induction false} StartsPrepend(e: Envelope, started: seq<Envelope>, id: string)
    ensures StartsOf([e] + started, id) == StartsOf(started, id) + if e.id == Some(id) then 1 else 0
  {
    var all := [e] + started;
    if started == [] {
      assert all[..|all| - 1] == [];
    } else {
      assert all[..|all| - 1] == [e] + started[..|started| - 1];
      StartsPrepend(e, started[..|started| - 1], id);
    }
  }

  lemma StartsMore(one: seq<Envelope>, rest: seq<Envelope>, id: string)
    requires |one| <= 1
    ensures StartsOf(one + rest, id) == StartsOf(rest, id) + if one != [] && one[0].id == Some(id) then 1 else 0
  {
    if one == [] {
      assert one + rest == rest;
    } else {
      assert one == [one[0]];
      StartsPrepend(one[0], rest, id);
    }
  }

  /** What one message means for an id: it may be the first event with it, and it may claim it. */
  lemma FirstOfOne(claims: map<string, int>, now: int, data: Data, id: string)
    requires id != "" && !Fatal(data)
    ensures var one := HearOne(claims, now, data);
            var mine := data.Json? && data.envelope.id == Some(id);
            && one.alive && (Live(one.claims, id, now) <==> Live(claims, id, now) || mine)
            && (one.started != [] && one.started[0].id == Some(id) <==>
                  mine && !Live(claims, id, now) && Handled(data.envelope))
  {
  }

  /** Of each id the loop starts the first event only, if that one has a handler and nobody has claimed the id. */
  lemma {:induction false} HearsFirstOnly(claims: map<string, int>, now: int, inbox: seq<Data>, id: string)
    requires id != ""
    ensures StartsOf(Hear(claims, now, inbox).started, id) ==
              if Live(claims, id, now) then 0
              else if FirstWith(inbox, id).Some? && Handled(FirstWith(inbox, id).value) then 1 else 0
    decreases |inbox|
  {
    if inbox != [] && !Fatal(inbox[0]) {
      var one := HearOne(claims, now, inbox[0]);
      HearsFirstOnly(one.claims, now, inbox[1..], id);
      StartsMore(one.started, Hear(one.claims, now, inbox[1..]).started, id);
      FirstOfOne(claims, now, inbox[0], id);
    }
  }

  /** Exactly which messages end the listener. */
  lemma {:induction false} HearAliveIff(claims: map<string, int>, now: int, inbox: seq<Data>)
    ensures Hear(claims, now, inbox).alive <==> forall d :: d in inbox ==> !Fatal(d)
    decreases |inbox|
  {
    if inbox != [] {
      HearAliveIff(HearOne(claims, now, inbox[0]).claims, now, inbox[1..]);
      assert inbox[0] in inbox && forall d :: d in inbox <==> d == inbox[0] || d in inbox[1..];
    }
  }

  /** What handling one event claims and starts, in full. */
  lemma HandledInFull(claims: map<string, int>, now: int, e: Envelope)
    ensures var named := e.id.Some? && e.id.value != "";
            var skipped := named && e.id.value in claims && now <= claims[e.id.value];
            && Claims(claims, now, e) == (if named && !skipped then claims[e.id.value := now + 300] else claims)
            && Starts(claims, now, e)
               == if !skipped && e.event in {"delivery.status_changed", "delivery.confirmed",
                                             "product.extracted", "product.extraction_failed"} then [e] else []
  {
  }

  class Gateway {
    var st: State

    constructor (workers: nat)
      ensures st == Init(workers)
    {
      st := Init(workers);
    }

    method Perform(a: Action, ghost before: seq<State>) returns (ghost trace: seq<State>)
      requires Enabled(st, a) && IsPath(before) && Last(before) == st
      modifies this
      ensures st == Next(old(st), a) && IsPath(trace) && before < trace && Last(trace) == st
    {
      ExtendPath(before, a);
      st := Next(st, a);
      trace := before + [st];
    }

    /** An event in hand: claimed if it has an id that is not claimed by now, and then dispatched. */
    method HandleOne(w: nat, ghost before: seq<State>) returns (ghost trace: seq<State>)
      requires Enabled(st, Claim(w)) && IsPath(before) && Last(before) == st
      modifies this
      ensures IsPath(trace) && before < trace && Last(trace) == st && st.now == old(st.now)
      ensures st.workers == old(st.workers)[w := Worker(old(st.workers[w].inbox), Waiting)]
      ensures st.claims == Claims(old(st.claims), st.now, old(st.workers[w].phase.envelope))
      ensures st.started == old(st.started) + Starts(old(st.claims), st.now, old(st.workers[w].phase.envelope))
      ensures var e := old(st.workers[w].phase.envelope);
              var named := e.id.Some? && e.id.value != "";
              var skipped := named && e.id.value in old(st.claims) && st.now <= old(st.claims)[e.id.value];
              && st.claims == (if named && !skipped then old(st.claims)[e.id.value := st.now + 300] else old(st.claims))
              && st.started == old(st.started)
                   + if !skipped && e.event in {"delivery.status_changed", "delivery.confirmed",
                                                "product.extracted", "product.extraction_failed"} then [e] else []
    {
      HandledInFull(st.claims, st.now, st.workers[w].phase.envelope);
      trace := Perform(Claim(w), before);
      if st.workers[w].phase.Claimed? {
        trace := Perform(Dispatch(w), trace);
      }
    }

    method TakeOne(w: nat, ghost before: seq<State>) returns (ghost trace: seq<State>)
      requires Enabled(st, Take(w)) && IsPath(before) && Last(before) == st
      modifies this
      ensures IsPath(trace) && before < trace && Last(trace) == st && st.now == old(st.now)
      ensures var one := HearOne(old(st.claims), st.now, old(st.workers[w].inbox)[0]);
              && st.claims == one.claims && st.started == old(st.started) + one.started
              && st.workers == old(st.workers)[w := AfterOne(one, old(st.workers[w].inbox))]
      ensures st.workers[w].phase == if Fatal(old(st.workers[w].inbox)[0]) then Dead else Waiting
    {
      trace := Perform(Take(w), before);
      if st.workers[w].phase.Holding? {
        trace := HandleOne(w, trace);
      }
    }

    /** The listener loop over everything the worker has received: it stops at a message that ends it. */
    method Listen(w: nat) returns (ghost trace: seq<State>)
      requires w < |st.workers| && st.workers[w].phase == Waiting
      modifies this
      ensures IsPath(trace) && trace[0] == old(st) && Last(trace) == st && st.now == old(st.now)
      ensures |st.workers| == |old(st.workers)| && st.workers == old(st.workers)[w := st.workers[w]]
      ensures var all := Hear(old(st.claims), st.now, old(st.workers[w].inbox));
              && st.claims == all.claims && st.started == old(st.started) + all.started
              && st.workers[w] == Worker([], if all.alive then Waiting else Dead)
    {
      trace := [st];
      ghost var all := Hear(st.claims, st.now, st.workers[w].inbox);
      ghost var done := [];
      assert st.started + done == st.started && Rest(done, all) == all;
      while st.workers[w].phase == Waiting && st.workers[w].inbox != []
        invariant IsPath(trace) && trace[0] == old(st) && Last(trace) == st && st.now == old(st.now)
        invariant |st.workers| == |old(st.workers)| && st.workers == old(st.workers)[w := st.workers[w]]
        invariant st.started == old(st.started) + done && Progress(all, done, st.claims, st.now, st.workers[w])
        decreases |st.workers[w].inbox|
      {
        HearStep(all, done, st.claims, st.now, st.workers[w].inbox);
        ghost var one := HearOne(st.claims, st.now, st.workers[w].inbox[0]);
        trace := TakeOne(w, trace);
        assert old(st.started) + done + one.started == old(st.started) + (done + one.started);
        done := done + one.started;
      }
      assert done + [] == done;
    }
  }

  /** What is done so far and what the rest of the inbox will add are together what the whole inbox gives. */
  predicate Progress(all: Heard, done: seq<Envelope>, claims: map<string, int>, now: int, worker: Worker) {
    if worker.phase == Waiting then all == Rest(done, Hear(claims, now, worker.inbox))
    else worker == Worker([], Dead) && all == Heard(claims, done, false)
  }

  function AfterOne(one: Heard, inbox: seq<Data>): Worker
    requires inbox != []
  {
    if one.alive then Worker(inbox[1..], Waiting) else Worker([], Dead)
  }

  lemma HearStep(all: Heard, done: seq<Envelope>, claims: map<string, int>, now: int, inbox: seq<Data>)
    requires inbox != [] && all == Rest(done, Hear(claims, now, inbox))
    ensures var one := HearOne(claims, now, inbox[0]);
            Progress(all, done + one.started, one.claims, now, AfterOne(one, inbox))
  {
    var one := HearOne(claims, now, inbox[0]);
    if one.alive {
      var rest := Hear(one.claims, now, inbox[1..]);
      assert done + (one.started + rest.started) == (done + one.started) + rest.started;
    }
  }

  // ---------------------------------------------------------------- the bound is exact

  const EVENT: Envelope := Envelope("product.extracted", Some("e"))

  /** A state at the end of such a run. */
  ghost predicate Reached(n: nat, s: State, W: nat) { exists run :: TimelyRun(n, run, W) && Last(run) == s }

  lemma AtInit(n: nat, W: nat)
    ensures Reached(n, Init(n), W)
  {
    var run := [Init(n)];
    assert TimelyRun(n, run, W) && Last(run) == Init(n);
  }

  lemma Advance(n: nat, s: State, a: Action, W: nat) returns (t: State)
    requires Reached(n, s, W) && Enabled(s, a) && Timely(Next(s, a), W)
    ensures Reached(n, t, W) && t == Next(s, a)
  {
    var run :| TimelyRun(n, run, W) && Last(run) == s;
    ExtendPath(run, a);
    t := Next(s, a);
    var longer := run + [t];
    assert forall i :: 0 <= i < |run| ==> longer[i] == run[i];
    assert TimelyRun(n, longer, W) && Last(longer) == t;
  }

  lemma BothHear(e: Envelope, W: nat) returns (s: State)
    ensures Reached(2, s, W)
    ensures s == State(0, map[], [Worker([Json(e)], Waiting), Worker([Json(e)], Waiting)], [], map[], [Json(e)])
  {
    AtInit(2, W);
    s := Advance(2, Init(2), Publish(Json(e)), W);
    var idle := Worker([], Waiting);
    assert Init(2).workers == [idle, idle];
    assert [] + [Json(e)] == [Json(e)];
    assert Deliver([idle, idle], Json(e)) == [Worker([Json(e)], Waiting), Worker([Json(e)], Waiting)];
  }

  /** Both workers hear the event and the first one handles it. */
  lemma FirstHandles(e: Envelope, W: nat) returns (s: State)
    requires Handled(e)
    ensures Reached(2, s, W)
    ensures s == State(0, if Named(e) then map[e.id.value := CLAIM_TTL] else map[],
                               [Worker([], Waiting), Worker([Json(e)], Waiting)], [e],
                               if Named(e) then map[e.id.value := Win(0, e, 0, Started)] else map[], [Json(e)])
  {
    s := BothHear(e, W);
    s := Advance(2, s, Take(0), W);
    assert [Json(e)][1..] == [];
    s := Advance(2, s, Claim(0), W);
    s := Advance(2, s, Dispatch(0), W);
    assert [] + [e] == [e];
    assert Named(e) ==> s.wins == map[e.id.value := Win(0, e, 0, Started)];
  }

  /** The other worker comes to its claim 301 seconds later, when the first claim has lapsed. */
  lemma SecondClaims(W: nat) returns (s: State)
    requires W > CLAIM_TTL
    ensures Reached(2, s, W) && s.started == [EVENT] && |s.workers| == 2 && s.workers[1] == Worker([], Claimed(EVENT))
    ensures s.workers[0] == Worker([], Waiting)
  {
    s := FirstHandles(EVENT, W);
    s := Advance(2, s, Tick(301), W);
    s := Advance(2, s, Take(1), W);
    s := Advance(2, s, Claim(1), W);
  }

  /** So it starts the handler again. */
  lemma HandledTwice(W: nat) returns (s: State)
    requires W > CLAIM_TTL
    ensures Reached(2, s, W) && StartsOf(s.started, "e") == 2
  {
    s := SecondClaims(W);
    s := Advance(2, s, Dispatch(1), W);
    StartsAppend([EVENT], EVENT, "e");
    StartsAppend([], EVENT, "e");
    assert [] + [EVENT] == [EVENT];
  }

  lemma StartedOnceIff(W: nat)
    ensures (forall n, run :: TimelyRun(n, run, W) ==> AtMostOnce(Last(run))) <==> W <= CLAIM_TTL
  {
    if W <= CLAIM_TTL {
      forall n, run | TimelyRun(n, run, W)
        ensures AtMostOnce(Last(run))
      {
        StartedOnce(n, run, W);
      }
    } else {
      var s := HandledTwice(W);
      var run :| TimelyRun(2, run, W) && Last(run) == s;
      assert !AtMostOnce(Last(run));
    }
  }

  // ---------------------------------------------------------------- events without an id

  function Times<T(==)>(xs: seq<T>, x: T): nat {
    if xs == [] then 0 else Times(xs[..|xs| - 1], x) + if xs[|xs| - 1] == x then 1 else 0
  }

  lemma TimesAppend<T>(xs: seq<T>, last: T, x: T)
    ensures Times(xs + [last], x) == Times(xs, x) + if last == x then 1 else 0
  {
    assert (xs + [last])[..|xs|] == xs;
  }

  lemma {:induction false} TimesTail<T>(xs: seq<T>, x: T)
    requires xs != []
    ensures Times(xs[1..], x) == Times(xs, x) - if xs[0] == x then 1 else 0
  {
    var n := |xs| - 1;
    if n > 0 {
      TimesTail(xs[..n], x);
      assert xs[1..][..n - 1] == xs[..n][1..];
    }
  }

  function InHandCopies(e: Envelope, p: Phase): int { if (p.Holding? || p.Claimed?) && p.envelope == e then 1 else 0 }

  /** Copies of an event that a worker has heard and not settled. */
  function Copies(e: Envelope, w: Worker): int { Times(w.inbox, Json(e)) + InHandCopies(e, w.phase) }

  function CopiesOf(e: Envelope): Worker -> int { (w: Worker) => Copies(e, w) }

  /** No worker hears an event more often than it was published. */
  ghost predicate Accounted(n: nat, s: State, e: Envelope) {
    |s.workers| == n && Times(s.started, e) + Total(s.workers, CopiesOf(e)) <= n * Times(s.published, Json(e))
  }

  lemma HearingCopies(w: Worker, data: Data, e: Envelope)
    ensures Copies(e, Hearing(w, data)) <= Copies(e, w) + if data == Json(e) then 1 else 0
  {
    TimesAppend(w.inbox, data, Json(e));
  }

  lemma {:induction false} DeliverCopies(workers: seq<Worker>, data: Data, e: Envelope)
    ensures Total(Deliver(workers, data), CopiesOf(e))
         <= Total(workers, CopiesOf(e)) + if data == Json(e) then |workers| else 0
  {
    if workers != [] {
      var n := |workers| - 1;
      DeliverCopies(workers[..n], data, e);
      HearingCopies(workers[n], data, e);
      assert Deliver(workers, data)[..n] == Deliver(workers[..n], data);
    }
  }

  predicate OfWorker(s: State, a: Action, w: nat) {
    Enabled(s, a) && a in {Take(w), Claim(w), Dispatch(w), Action.Fail(w), Restart(w)}
  }

  lemma TakeMoves(s: State, w: nat, e: Envelope)
    requires Enabled(s, Take(w))
    ensures Copies(e, AfterTake(s, w).workers[w]) <= Copies(e, s.workers[w])
  {
    TimesTail(s.workers[w].inbox, Json(e));
  }

  lemma DispatchMoves(s: State, w: nat, e: Envelope)
    requires Enabled(s, Dispatch(w))
    ensures Times(AfterDispatch(s, w).started, e) + Copies(e, AfterDispatch(s, w).workers[w])
         <= Times(s.started, e) + Copies(e, s.workers[w])
  {
    var d := s.workers[w].phase.envelope;
    DispatchStarts(s, w);
    if Handled(d) {
      TimesAppend(s.started, d, e);
    } else {
      assert s.started + [] == s.started;
    }
  }

  lemma DispatchStarts(s: State, w: nat)
    requires Enabled(s, Dispatch(w))
    ensures var d := s.workers[w].phase.envelope;
            && AfterDispatch(s, w).started == s.started + (if Handled(d) then [d] else [])
            && AfterDispatch(s, w).workers == s.workers[w := Worker(s.workers[w].inbox, Waiting)]
  {
    assert s.started + [] == s.started;
  }

  /** A worker passes a copy on, from its inbox to its hand and from there to the handler, or drops it. */
  lemma CopiesMove(s: State, a: Action, w: nat, e: Envelope)
    requires OfWorker(s, a, w)
    ensures Times(Next(s, a).started, e) + Copies(e, Next(s, a).workers[w])
         <= Times(s.started, e) + Copies(e, s.workers[w])
  {
    if a.Take? {
      TakeMoves(s, w, e);
    } else if a.Dispatch? {
      DispatchMoves(s, w, e);
    }
  }

  lemma OneMoves(s: State, a: Action, w: nat)
    requires OfWorker(s, a, w)
    ensures w < |s.workers| && Next(s, a).workers == s.workers[w := Next(s, a).workers[w]]
    ensures Next(s, a).published == s.published
  {
  }

  lemma PublishAccounted(n: nat, s: State, data: Data, e: Envelope)
    requires Accounted(n, s, e)
    ensures Accounted(n, Next(s, Publish(data)), e)
  {
    DeliverCopies(s.workers, data, e);
    TimesAppend(s.published, data, Json(e));
    OneMore(n, Times(s.published, Json(e)), Times(s.published + [data], Json(e)));
  }

  lemma OneMore(n: nat, m: nat, m': nat)
    requires m' == m || m' == m + 1
    ensures n * m' == n * m + if m' == m then 0 else n
  {
  }

  lemma AccountedStep(n: nat, s: State, a: Action, e: Envelope)
    requires Accounted(n, s, e) && Enabled(s, a)
    ensures Accounted(n, Next(s, a), e)
  {
    if a.Publish? {
      PublishAccounted(n, s, a.data, e);
    } else if !a.Tick? {
      OneMoves(s, a, a.w);
      CopiesMove(s, a, a.w, e);
      TotalUpdate(s.workers, a.w, Next(s, a).workers[a.w], CopiesOf(e));
    }
  }

  lemma {:induction false} AlwaysAccounted(n: nat, run: seq<State>, e: Envelope)
    requires IsRun(n, run)
    ensures Accounted(n, Last(run), e)
    decreases |run|
  {
    if |run| > 1 {
      var front, a := LastStep(n, run);
      AlwaysAccounted(n, front, e);
      AccountedStep(n, Last(front), a, e);
    } else {
      NoCopies(Init(n).workers, e);
    }
  }

  lemma {:induction false} NoCopies(workers: seq<Worker>, e: Envelope)
    requires forall i :: 0 <= i < |workers| ==> workers[i] == Worker([], Waiting)
    ensures Total(workers, CopiesOf(e)) == 0
  {
    if workers != [] {
      NoCopies(workers[..|workers| - 1], e);
    }
  }

  lemma {:induction false} CopiesNonNegative(workers: seq<Worker>, e: Envelope)
    ensures Total(workers, CopiesOf(e)) >= 0
  {
    if workers != [] {
      CopiesNonNegative(workers[..|workers| - 1], e);
    }
  }

  /** All workers heard the event, and the first m have handled it. */
  predicate Served(s: State, e: Envelope, n: nat, m: nat) {
    && |s.workers| == n && |s.started| == m <= n && s.published == [Json(e)]
    && (forall i :: 0 <= i < n ==> s.workers[i] == Worker(if i < m then [] else [Json(e)], Waiting))
    && forall i :: 0 <= i < m ==> s.started[i] == e
  }

  lemma ServeNext(e: Envelope, n: nat, m: nat, s: State, W: nat) returns (t: State)
    requires Handled(e) && !Named(e) && m < n && Reached(n, s, W) && Served(s, e, n, m)
    ensures Reached(n, t, W) && Served(t, e, n, m + 1)
  {
    t := Advance(n, s, Take(m), W);
    t := Advance(n, t, Claim(m), W);
    t := Advance(n, t, Dispatch(m), W);
  }

  /** An event without an id, published once, is handled by every worker, at any delay. */
  lemma {:induction false} UnnamedHandledByAll(e: Envelope, n: nat, m: nat, W: nat) returns (s: State)
    requires Handled(e) && !Named(e) && m <= n
    ensures Reached(n, s, W) && Served(s, e, n, m)
  {
    if m == 0 {
      AtInit(n, W);
      s := Advance(n, Init(n), Publish(Json(e)), W);
    } else {
      s := UnnamedHandledByAll(e, n, m - 1, W);
      s := ServeNext(e, n, m - 1, s, W);
    }
  }

  lemma {:induction false} StartsCount(started: seq<Envelope>, e: Envelope, id: string)
    requires e.id == Some(id)
    ensures Times(started, e) <= StartsOf(started, id)
  {
    if started != [] {
      var front, last := started[..|started| - 1], started[|started| - 1];
      StartsCount(front, e, id);
    }
  }

  lemma {:induction false} AllEqual(started: seq<Envelope>, e: Envelope)
    requires forall i :: 0 <= i < |started| ==> started[i] == e
    ensures Times(started, e) == |started|
  {
    if started != [] {
      AllEqual(started[..|started| - 1], e);
    }
  }

  /**
   * With delays within 300 seconds, an event published once is handled at most once exactly if it has an id or
   * there is one worker.
   */
  lemma PublishedOnceIff(n: nat, e: Envelope, W: nat)
    requires Handled(e) && W <= CLAIM_TTL
    ensures (forall run :: TimelyRun(n, run, W) && Times(Last(run).published, Json(e)) <= 1 ==>
               Times(Last(run).started, e) <= 1)
            <==> Named(e) || n <= 1
  {
    if Named(e) || n <= 1 {
      forall run | TimelyRun(n, run, W) && Times(Last(run).published, Json(e)) <= 1
        ensures Times(Last(run).started, e) <= 1
      {
        if Named(e) {
          ExactlyOnceIfClaimed(n, run, W, e.id.value);
          StartsCount(Last(run).started, e, e.id.value);
        } else {
          AlwaysAccounted(n, run, e);
          CopiesNonNegative(Last(run).workers, e);
          assert n * Times(Last(run).published, Json(e)) <= 1;
        }
      }
    } else {
      var s := UnnamedHandledByAll(e, n, n, W);
      AllEqual(s.started, e);
      var run :| TimelyRun(n, run, W) && Last(run) == s;
      assert Times(Last(run).published, Json(e)) <= 1;
    }
  }
}
