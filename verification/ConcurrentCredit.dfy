/**
 * The credit recalculation when transactions overlap. At READ COMMITTED the trigger's SUM sees what is
 * committed when it runs and its own transaction's row, and the UPDATE that stores the sum waits for the
 * user's row but not for a new sum. Each transaction writes one loan; its SUM, its UPDATE and its COMMIT
 * are steps, and sessions interleave freely.
 */
module ConcurrentCredit {
  import opened Prelude
  import opened Sums
  import opened CreditTriggers

  /** Committed is what was committed for the user when the SUM ran; it is kept for the statements only. */
  datatype Session =
    | Idle
    | Locked(user: int)
    | Wrote(write: Write)
    | Summed(write: Write, total: int, committed: int)
    | Stored(write: Write, total: int, committed: int)

  datatype State = State(db: Db, sessions: seq<Session>)

  datatype Action =
    | Lock(i: nat, user: int) | Put(i: nat, write: Write) | Sum(i: nat) | Store(i: nat) | Commit(i: nat) | Abort(i: nat)

  predicate Writing(s: Session) { s.Wrote? || s.Summed? || s.Stored? }

  function UserIn(s: Session): int
    requires s != Idle
  {
    if s.Locked? then s.user else s.write.loan.user
  }

  /** SELECT ... FOR UPDATE locks the user's row until the end of the transaction; without it only the UPDATE does. */
  predicate HoldsUser(lockFirst: bool, s: Session, user: int) {
    s != Idle && (lockFirst || s.Stored?) && UserIn(s) == user
  }

  predicate HoldsRow(s: Session, row: nat) { Writing(s) && s.write.UpdateLoan? && s.write.row == row }

  predicate UserFree(lockFirst: bool, s: State, i: nat, user: int) {
    forall j :: 0 <= j < |s.sessions| && j != i ==> !HoldsUser(lockFirst, s.sessions[j], user)
  }

  predicate RowFree(s: State, i: nat, w: Write) {
    w.UpdateLoan? ==>
      && w.row < |s.db.loans| && s.db.loans[w.row].user == w.loan.user
      && forall j :: 0 <= j < |s.sessions| && j != i ==> !HoldsRow(s.sessions[j], w.row)
  }

  /** The loans as a transaction sees them: the committed ones with its own row. */
  function With(loans: seq<Loan>, w: Write): seq<Loan>
    requires w.UpdateLoan? ==> w.row < |loans|
  {
    match w case InsertLoan(l) => loans + [l] case UpdateLoan(row, l) => loans[row := l]
  }

  function Refreshed(u: User, total: int): User {
    u.(outstanding := total, availableCredit := Available(u.creditLimit, total))
  }

  predicate Enabled(lockFirst: bool, s: State, a: Action) {
    && a.i < |s.sessions|
    && var me := s.sessions[a.i];
       match a
       case Lock(i, user) => lockFirst && me == Idle && UserFree(lockFirst, s, i, user)
       case Put(i, w) =>
         me == (if lockFirst then Locked(w.loan.user) else Idle) && w.loan.user in s.db.users && RowFree(s, i, w)
       case Sum(_) => me.Wrote? && (me.write.UpdateLoan? ==> me.write.row < |s.db.loans|)
       case Store(i) =>
         me.Summed? && UserFree(lockFirst, s, i, me.write.loan.user) && me.write.loan.user in s.db.users
         && Fits(me.total) && CheckAvailable(Refreshed(s.db.users[me.write.loan.user], me.total))
       case Commit(_) =>
         me.Stored? && me.write.loan.user in s.db.users && (me.write.UpdateLoan? ==> me.write.row < |s.db.loans|)
       case Abort(_) => me != Idle
  }

  function AfterCommit(db: Db, w: Write, total: int): Db
    requires w.loan.user in db.users && (w.UpdateLoan? ==> w.row < |db.loans|)
  {
    Db(db.users[w.loan.user := Refreshed(db.users[w.loan.user], total)], With(db.loans, w))
  }

  function Next(lockFirst: bool, s: State, a: Action): State
    requires Enabled(lockFirst, s, a)
  {
    var me := s.sessions[a.i];
    match a
    case Lock(i, user) => s.(sessions := s.sessions[i := Locked(user)])
    case Put(i, w) => s.(sessions := s.sessions[i := Wrote(w)])
    case Sum(i) =>
      s.(sessions := s.sessions[i := Summed(me.write, Outstanding(With(s.db.loans, me.write), me.write.loan.user),
                                            Outstanding(s.db.loans, me.write.loan.user))])
    case Store(i) => s.(sessions := s.sessions[i := Stored(me.write, me.total, me.committed)])
    case Commit(i) => State(AfterCommit(s.db, me.write, me.total), s.sessions[i := Idle])
    case Abort(i) => s.(sessions := s.sessions[i := Idle])
  }

  // ---------------------------------------------------------------- runs

  predicate Init(n: nat, s: State) { |s.sessions| == n && forall i :: 0 <= i < n ==> s.sessions[i] == Idle }

  ghost predicate Step(lockFirst: bool, s: State, t: State) {
    exists a :: Enabled(lockFirst, s, a) && t == Next(lockFirst, s, a)
  }

  /** A run of n sessions on a database whose cached totals are right. */
  ghost predicate IsRun(lockFirst: bool, n: nat, run: seq<State>) {
    && |run| > 0 && Init(n, run[0]) && Cached(run[0].db)
    && forall k :: 0 <= k < |run| - 1 ==> Step(lockFirst, run[k], run[k + 1])
  }

  function Last(run: seq<State>): State
    requires |run| > 0
  {
    run[|run| - 1]
  }

  lemma LastStep(lockFirst: bool, n: nat, run: seq<State>) returns (front: seq<State>, a: Action)
    requires IsRun(lockFirst, n, run) && |run| > 1
    ensures front == run[..|run| - 1] && IsRun(lockFirst, n, front)
    ensures Enabled(lockFirst, Last(front), a) && Last(run) == Next(lockFirst, Last(front), a)
  {
    front := run[..|run| - 1];
    assert forall k :: 0 <= k < |front| - 1 ==> Step(lockFirst, run[k], run[k + 1]);
    assert Step(lockFirst, run[|run| - 2], run[|run| - 2 + 1]);
    assert Step(lockFirst, Last(front), Last(run));
    a :| Enabled(lockFirst, Last(front), a) && Last(run) == Next(lockFirst, Last(front), a);
  }

  // ---------------------------------------------------------------- what a row adds to its user's sum

  function Share(loans: seq<Loan>, w: Write): int
    requires w.UpdateLoan? ==> w.row < |loans|
  {
    Counted(w.loan) - if w.UpdateLoan? then Counted(loans[w.row]) else 0
  }

  lemma WithAdds(loans: seq<Loan>, w: Write, user: int)
    requires w.UpdateLoan? ==> w.row < |loans| && loans[w.row].user == w.loan.user
    ensures Outstanding(With(loans, w), user)
         == Outstanding(loans, user) + if w.loan.user == user then Share(loans, w) else 0
  {
    match w
    case InsertLoan(l) => GroupAppend(loans, l, UserOf, Counted, user);
    case UpdateLoan(row, l) => GroupUpdate(loans, row, l, UserOf, Counted, user);
  }

  /**
   * A session's row is there, has its owner, and is written by nobody else; its sum counts the committed loans it
   * saw and its row.
   */
  predicate SessionOk(s: State, i: nat)
    requires i < |s.sessions|
  {
    var me := s.sessions[i];
    Writing(me) ==>
      && RowFree(s, i, me.write) && me.write.loan.user in s.db.users
      && (!me.Wrote? ==> me.total == me.committed + Share(s.db.loans, me.write))
  }

  /** The owners of all loans are users. */
  predicate Owned(db: Db) { forall l :: l in db.loans ==> l.user in db.users }

  ghost predicate Orderly(s: State) { Owned(s.db) && forall i: nat :: i < |s.sessions| ==> SessionOk(s, i) }

  lemma OrderlyLocal(lockFirst: bool, s: State, a: Action)
    requires Orderly(s) && Enabled(lockFirst, s, a) && !a.Commit?
    ensures Orderly(Next(lockFirst, s, a))
  {
    var t := Next(lockFirst, s, a);
    assert SessionOk(s, a.i);
    if a.Sum? {
      WithAdds(s.db.loans, s.sessions[a.i].write, s.sessions[a.i].write.loan.user);
    }
    forall i: nat | i < |t.sessions|
      ensures SessionOk(t, i)
    {
      assert SessionOk(s, i);
    }
  }

  lemma OrderlyCommit(lockFirst: bool, s: State, i: nat)
    requires Orderly(s) && Enabled(lockFirst, s, Commit(i))
    ensures Orderly(Next(lockFirst, s, Commit(i)))
  {
    var t := Next(lockFirst, s, Commit(i));
    assert SessionOk(s, i);
    forall l | l in t.db.loans
      ensures l.user in t.db.users
    {
      assert l == s.sessions[i].write.loan || l in s.db.loans;
    }
    forall j: nat | j < |t.sessions|
      ensures SessionOk(t, j)
    {
      assert SessionOk(s, j);
    }
  }

  lemma {:induction false} AlwaysOrderly(lockFirst: bool, n: nat, run: seq<State>)
    requires IsRun(lockFirst, n, run)
    ensures Orderly(Last(run)) && |Last(run).sessions| == n
    decreases |run|
  {
    if |run| > 1 {
      var front, a := LastStep(lockFirst, n, run);
      AlwaysOrderly(lockFirst, n, front);
      if a.Commit? {
        OrderlyCommit(lockFirst, Last(front), a.i);
      } else {
        OrderlyLocal(lockFirst, Last(front), a);
      }
    }
  }

  // ---------------------------------------------------------------- one commit

  /**
   * From right caches, exactly when a commit keeps them right: what is committed for its user adds up to
   * what it did when the SUM ran.
   */
  lemma CommitKeepsCacheIff(lockFirst: bool, n: nat, run: seq<State>, i: nat)
    requires IsRun(lockFirst, n, run) && Cached(Last(run).db) && Enabled(lockFirst, Last(run), Commit(i))
    ensures var s := Last(run);
            Cached(Next(lockFirst, s, Commit(i)).db) <==>
              Outstanding(s.db.loans, s.sessions[i].write.loan.user) == s.sessions[i].committed
  {
    AlwaysOrderly(lockFirst, n, run);
    CommitCached(lockFirst, Last(run), i);
  }

  lemma CommitCached(lockFirst: bool, s: State, i: nat)
    requires Orderly(s) && Cached(s.db) && Enabled(lockFirst, s, Commit(i))
    ensures Cached(Next(lockFirst, s, Commit(i)).db) <==>
              Outstanding(s.db.loans, s.sessions[i].write.loan.user) == s.sessions[i].committed
  {
    var me, t := s.sessions[i], Next(lockFirst, s, Commit(i));
    assert SessionOk(s, i);
    OrderlyCommit(lockFirst, s, i);
    forall u
      ensures Outstanding(t.db.loans, u)
           == Outstanding(s.db.loans, u) + if me.write.loan.user == u then Share(s.db.loans, me.write) else 0
    {
      WithAdds(s.db.loans, me.write, u);
    }
    assert t.db.users[me.write.loan.user].outstanding == me.total;
  }

  /** What a commit leaves: its loan row, and its user's columns, which agree; no other user's columns change. */
  lemma CommitStores(lockFirst: bool, n: nat, run: seq<State>, i: nat)
    requires IsRun(lockFirst, n, run) && Enabled(lockFirst, Last(run), Commit(i))
    ensures var s, w := Last(run), Last(run).sessions[i].write;
            var end := Next(lockFirst, s, Commit(i)).db;
            && end.loans == (if w.InsertLoan? then s.db.loans + [w.loan] else s.db.loans[w.row := w.loan])
            && end.users.Keys == s.db.users.Keys && ColumnsAgree(end.users[w.loan.user])
            && end.users[w.loan.user].creditLimit == s.db.users[w.loan.user].creditLimit
            && end.users[w.loan.user].outstanding
               == s.sessions[i].committed + Owed(w.loan) - (if w.UpdateLoan? then Owed(s.db.loans[w.row]) else 0)
            && forall u :: u in s.db.users && u != w.loan.user ==> end.users[u] == s.db.users[u]
  {
    AlwaysOrderly(lockFirst, n, run);
    assert SessionOk(Last(run), i);
  }

  /** The UPDATE goes through exactly if nobody else holds the user's row, the total fits, and nothing is negative. */
  lemma StoreEnabledIff(lockFirst: bool, n: nat, run: seq<State>, i: nat)
    requires IsRun(lockFirst, n, run) && i < |Last(run).sessions| && Last(run).sessions[i].Summed?
    ensures var s, me := Last(run), Last(run).sessions[i];
            var user := me.write.loan.user;
            && user in s.db.users
            && (Enabled(lockFirst, s, Store(i)) <==>
                  && (forall j :: 0 <= j < |s.sessions| && j != i ==>
                        && !(s.sessions[j].Stored? && s.sessions[j].write.loan.user == user)
                        && (lockFirst && s.sessions[j] != Idle ==> UserIn(s.sessions[j]) != user))
                  && -100_000_000_000_000 < me.total < 100_000_000_000_000
                  && (s.db.users[user].creditLimit.Some? ==> s.db.users[user].creditLimit.value >= 0 && me.total >= 0))
  {
    AlwaysOrderly(lockFirst, n, run);
    assert SessionOk(Last(run), i);
    assert forall j :: 0 <= j < |Last(run).sessions| && j != i ==>
        (HoldsUser(lockFirst, Last(run).sessions[j], Last(run).sessions[i].write.loan.user) <==>
         (Last(run).sessions[j].Stored? || (lockFirst && Last(run).sessions[j] != Idle))
         && UserIn(Last(run).sessions[j]) == Last(run).sessions[i].write.loan.user);
    CheckHoldsIff(Last(run).db.users[Last(run).sessions[i].write.loan.user].creditLimit, Last(run).sessions[i].total);
  }

  /**
   * A session locks a user's row only at the start of its transaction, and while no other session works for that
   * user.
   */
  lemma LockEnabledIff(s: State, i: nat, user: int)
    ensures Enabled(true, s, Lock(i, user)) <==>
              && i < |s.sessions| && s.sessions[i] == Idle
              && forall j :: 0 <= j < |s.sessions| && j != i && s.sessions[j] != Idle ==> UserIn(s.sessions[j]) != user
    ensures !Enabled(false, s, Lock(i, user))
  {
    assert forall j :: 0 <= j < |s.sessions| && j != i ==>
        (HoldsUser(true, s.sessions[j], user) <==> s.sessions[j] != Idle && UserIn(s.sessions[j]) == user);
  }

  // ---------------------------------------------------------------- without overlap it is the serial trigger

  /** The state after an uninterrupted transaction has written its row and summed. */
  function SummedAlone(s: State, i: nat, w: Write): State
    requires i < |s.sessions| && w.loan.user in s.db.users && RowFree(s, i, w) && s.sessions[i] == Idle
  {
    Next(false, Next(false, s, Put(i, w)), Sum(i))
  }

  /** With no other transaction open, write, SUM, UPDATE and COMMIT together do what the serial statement does. */
  lemma AloneIsSerial(s: State, i: nat, w: Write)
    requires i < |s.sessions| && forall j :: 0 <= j < |s.sessions| ==> s.sessions[j] == Idle
    requires w.loan.user in s.db.users && RowFree(s, i, w)
    ensures Enabled(false, SummedAlone(s, i, w), Store(i)) <==> RunStatement(s.db, [w]).Ok?
    ensures RunStatement(s.db, [w]).Ok? ==>
              var t := Next(false, SummedAlone(s, i, w), Store(i));
              Enabled(false, t, Commit(i))
              && Next(false, t, Commit(i)) == State(RunStatement(s.db, [w]).value, s.sessions)
  {
    var t := SummedAlone(s, i, w);
    var total := Outstanding(With(s.db.loans, w), w.loan.user);
    assert t == s.(sessions := s.sessions[i := Summed(w, total, Outstanding(s.db.loans, w.loan.user))]);
    OneWriteOutcome(s.db, w);
  }

  lemma OneWriteOutcome(db: Db, w: Write)
    requires w.loan.user in db.users && (w.UpdateLoan? ==> w.row < |db.loans|)
    ensures RunStatement(db, [w]) == Recalculate(Db(db.users, With(db.loans, w)), w.loan.user)
  {
    var writes := [w];
    assert writes[..0] == [];
    assert WriteLoans(db, writes) == WriteLoan(db, [], w);
    assert [] + [w.loan.user] == [w.loan.user];
    assert WriteLoan(db, [], w) == Ok((Db(db.users, With(db.loans, w)), [w.loan.user]));
    var d := Db(db.users, With(db.loans, w));
    assert [w.loan.user][1..] == [];
    assert RecalculateAll(d, [w.loan.user]) == Recalculate(d, w.loan.user);
  }

  // ---------------------------------------------------------------- every run

  ghost predicate CachedThroughout(run: seq<State>) { forall k :: 0 <= k < |run| ==> Cached(run[k].db) }

  ghost predicate CommitsTo(lockFirst: bool, s: State, i: nat, t: State) {
    Enabled(lockFirst, s, Commit(i)) && t == Next(lockFirst, s, Commit(i))
  }

  /** The session's SUM is not out of date. */
  predicate Current(s: State, i: nat) {
    i < |s.sessions| && s.sessions[i].Stored?
    && Outstanding(s.db.loans, s.sessions[i].write.loan.user) == s.sessions[i].committed
  }

  ghost predicate CommitsCurrent(lockFirst: bool, run: seq<State>) {
    forall k, i: nat :: 0 <= k < |run| - 1 && CommitsTo(lockFirst, run[k], i, run[k + 1]) ==> Current(run[k], i)
  }

  lemma FrontAndLast(lockFirst: bool, run: seq<State>, front: seq<State>)
    requires |run| > 1 && front == run[..|run| - 1]
    ensures CachedThroughout(run) <==> CachedThroughout(front) && Cached(Last(run).db)
    ensures CommitsCurrent(lockFirst, run) <==>
              && CommitsCurrent(lockFirst, front)
              && forall i: nat :: CommitsTo(lockFirst, Last(front), i, Last(run)) ==> Current(Last(front), i)
  {
    assert forall k :: 0 <= k < |front| ==> front[k] == run[k];
    assert Last(front) == run[|run| - 2] && Last(run) == run[|run| - 2 + 1];
  }

  /** Exactly which runs, of any number of sessions and with either locking rule, keep every cached total right. */
  lemma {:induction false} AlwaysCachedIff(lockFirst: bool, n: nat, run: seq<State>)
    requires IsRun(lockFirst, n, run)
    ensures CachedThroughout(run) <==> CommitsCurrent(lockFirst, run)
    decreases |run|
  {
    if |run| > 1 {
      var front, a := LastStep(lockFirst, n, run);
      var s, t := Last(front), Last(run);
      AlwaysCachedIff(lockFirst, n, front);
      AlwaysOrderly(lockFirst, n, front);
      FrontAndLast(lockFirst, run, front);
      if CachedThroughout(front) {
        assert Cached(s.db);
        forall i: nat | CommitsTo(lockFirst, s, i, t)
          ensures Cached(t.db) <==> Current(s, i)
        {
          CommitCached(lockFirst, s, i);
        }
        assert a.Commit? ==> CommitsTo(lockFirst, s, a.i, t);
        assert !a.Commit? ==> t.db == s.db;
      }
    }
  }

  // ---------------------------------------------------------------- which sessions may overlap

  /** No two open transactions are about one user, and no sum is out of date. */
  predicate Apart(s: State) {
    && (forall i, j :: 0 <= i < j < |s.sessions| && s.sessions[i] != Idle && s.sessions[j] != Idle ==>
          UserIn(s.sessions[i]) != UserIn(s.sessions[j]))
    && (forall i :: 0 <= i < |s.sessions| && (s.sessions[i].Summed? || s.sessions[i].Stored?) ==>
          s.sessions[i].committed == Outstanding(s.db.loans, s.sessions[i].write.loan.user))
  }

  lemma CommitApart(lockFirst: bool, s: State, i: nat)
    requires Orderly(s) && Apart(s) && Enabled(lockFirst, s, Commit(i))
    ensures Apart(Next(lockFirst, s, Commit(i)))
  {
    var me := s.sessions[i];
    assert SessionOk(s, i);
    forall u | u != me.write.loan.user
      ensures Outstanding(With(s.db.loans, me.write), u) == Outstanding(s.db.loans, u)
    {
      WithAdds(s.db.loans, me.write, u);
    }
  }

  lemma ApartStep(lockFirst: bool, s: State, a: Action)
    requires Orderly(s) && Apart(s) && Enabled(lockFirst, s, a) && (lockFirst || |s.sessions| <= 1)
    ensures Apart(Next(lockFirst, s, a))
  {
    if a.Commit? {
      CommitApart(lockFirst, s, a.i);
    }
  }

  lemma {:induction false} AlwaysCached(lockFirst: bool, n: nat, run: seq<State>)
    requires IsRun(lockFirst, n, run) && (lockFirst || n <= 1)
    ensures Apart(Last(run)) && Cached(Last(run).db)
    decreases |run|
  {
    if |run| > 1 {
      var front, a := LastStep(lockFirst, n, run);
      AlwaysCached(lockFirst, n, front);
      AlwaysOrderly(lockFirst, n, front);
      ApartStep(lockFirst, Last(front), a);
      if a.Commit? {
        CommitCached(lockFirst, Last(front), a.i);
      }
    }
  }

  // ---------------------------------------------------------------- two loans of one user

  /** A state at the end of a run. */
  ghost predicate Reached(lockFirst: bool, n: nat, s: State) {
    exists run :: IsRun(lockFirst, n, run) && Last(run) == s
  }

  lemma Advance(lockFirst: bool, n: nat, s: State, a: Action) returns (t: State)
    requires Reached(lockFirst, n, s) && Enabled(lockFirst, s, a)
    ensures Reached(lockFirst, n, t) && t == Next(lockFirst, s, a)
  {
    var run :| IsRun(lockFirst, n, run) && Last(run) == s;
    t := Next(lockFirst, s, a);
    var longer := run + [t];
    forall k | 0 <= k < |longer| - 1
      ensures Step(lockFirst, longer[k], longer[k + 1])
    {
      assert k < |run| - 1 ==>
          longer[k] == run[k] && longer[k + 1] == run[k + 1] && Step(lockFirst, run[k], run[k + 1]);
    }
    assert IsRun(lockFirst, n, longer) && Last(longer) == t;
  }

  const NEW_LOAN: Loan := Loan(1, Active, 10)

  const TEN: Write := InsertLoan(NEW_LOAN)

  /** Both sessions have inserted a loan of the user and summed without the other's. */
  predicate BothSummed(s: State, n: nat) {
    && |s.sessions| == n && n >= 2 && s.db == Db(map[1 := User(None, 0, 0)], [])
    && s.sessions[0] == Summed(TEN, 10, 0) && s.sessions[1] == Summed(TEN, 10, 0)
    && forall i :: 2 <= i < n ==> s.sessions[i] == Idle
  }

  lemma {:induction false} SumOfNew(loans: seq<Loan>)
    requires forall k :: 0 <= k < |loans| ==> loans[k] == NEW_LOAN
    ensures Outstanding(loans, 1) == 10 * |loans|
  {
    if loans != [] {
      SumOfNew(loans[..|loans| - 1]);
    }
  }

  lemma BothWrite(n: nat) returns (s: State)
    requires n >= 2
    ensures Reached(false, n, s) && |s.sessions| == n && s.db == Db(map[1 := User(None, 0, 0)], [])
    ensures s.sessions[0] == s.sessions[1] == Wrote(TEN) && forall i :: 2 <= i < n ==> s.sessions[i] == Idle
  {
    var start := State(Db(map[1 := User(None, 0, 0)], []), seq(n, _ => Idle));
    SumOfNew([]);
    forall u | u in start.db.users
      ensures start.db.users[u].outstanding == Outstanding(start.db.loans, u)
    {
      assert u == 1;
    }
    assert IsRun(false, n, [start]) && Last([start]) == start;
    s := Advance(false, n, start, Put(0, TEN));
    s := Advance(false, n, s, Put(1, TEN));
  }

  lemma BothSum(n: nat) returns (s: State)
    requires n >= 2
    ensures Reached(false, n, s) && BothSummed(s, n)
  {
    s := BothWrite(n);
    SumOfNew([]);
    SumOfNew([NEW_LOAN]);
    assert [] + [NEW_LOAN] == [NEW_LOAN];
    s := Advance(false, n, s, Sum(0));
    s := Advance(false, n, s, Sum(1));
  }

  /** The second UPDATE waits for the first commit and then stores a total that lacks the first loan. */
  lemma StaleTotal(n: nat) returns (s: State)
    requires n >= 2
    ensures Reached(false, n, s) && !Cached(s.db)
    ensures Outstanding(s.db.loans, 1) == 20 && 1 in s.db.users && s.db.users[1].outstanding == 10
  {
    s := BothSum(n);
    s := Advance(false, n, s, Store(0));
    s := Advance(false, n, s, Commit(0));
    s := Advance(false, n, s, Store(1));
    s := Advance(false, n, s, Commit(1));
    assert s.db.loans == [NEW_LOAN, NEW_LOAN];
    SumOfNew(s.db.loans);
  }

  /** With the user locked first the same two inserts, one after the other, leave the right total. */
  lemma LockedTotal(n: nat) returns (s: State)
    requires n >= 2
    ensures Reached(true, n, s) && s.db.loans == [NEW_LOAN, NEW_LOAN]
    ensures 1 in s.db.users && s.db.users[1].outstanding == 20
  {
    var start := State(Db(map[1 := User(None, 0, 0)], []), seq(n, _ => Idle));
    SumOfNew([]);
    assert Cached(start.db);
    assert IsRun(true, n, [start]) && Last([start]) == start;
    s := LockedInsert(n, start, 0);
    assert [] + [NEW_LOAN] == [NEW_LOAN];
    s := LockedInsert(n, s, 1);
    assert [NEW_LOAN] + [NEW_LOAN] == [NEW_LOAN, NEW_LOAN];
  }

  lemma LockedWrite(n: nat, s: State, i: nat) returns (t: State)
    requires i < n && Reached(true, n, s) && |s.sessions| == n && s.sessions == seq(n, _ => Idle)
    requires s.db.users.Keys == {1}
    ensures Reached(true, n, t) && t == s.(sessions := s.sessions[i := Wrote(TEN)])
  {
    t := Advance(true, n, s, Lock(i, 1));
    t := Advance(true, n, t, Put(i, TEN));
    assert t.sessions == s.sessions[i := Wrote(TEN)];
  }

  /** What the SUM of such a session sees. */
  lemma SumsTen(db: Db, t: State, i: nat)
    requires i < |t.sessions| && t.sessions[i] == Wrote(TEN) && t.db == db
    requires forall k :: 0 <= k < |db.loans| ==> db.loans[k] == NEW_LOAN
    ensures Enabled(true, t, Sum(i))
    ensures Next(true, t, Sum(i))
         == t.(sessions := t.sessions[i := Summed(TEN, 10 * |db.loans| + 10, 10 * |db.loans|)])
  {
    SumOfNew(db.loans);
    SumOfNew(db.loans + [NEW_LOAN]);
    assert With(db.loans, TEN) == db.loans + [NEW_LOAN];
  }

  lemma LockedSum(n: nat, s: State, i: nat) returns (t: State)
    requires n >= 2 && i < n && Reached(true, n, s) && |s.sessions| == n && s.sessions == seq(n, _ => Idle)
    requires s.db.users.Keys == {1} && |s.db.loans| <= 1
    requires forall k :: 0 <= k < |s.db.loans| ==> s.db.loans[k] == NEW_LOAN
    ensures Reached(true, n, t) && t.db == s.db
    ensures t.sessions == s.sessions[i := Summed(TEN, 10 * |s.db.loans| + 10, 10 * |s.db.loans|)]
  {
    t := LockedWrite(n, s, i);
    SumsTen(s.db, t, i);
    t := Advance(true, n, t, Sum(i));
  }

  lemma LockedInsert(n: nat, s: State, i: nat) returns (t: State)
    requires n >= 2 && i < n && Reached(true, n, s) && |s.sessions| == n && s.sessions == seq(n, _ => Idle)
    requires s.db.users.Keys == {1} && s.db.users[1].creditLimit == None && |s.db.loans| <= 1
    requires forall k :: 0 <= k < |s.db.loans| ==> s.db.loans[k] == NEW_LOAN
    ensures Reached(true, n, t) && t.sessions == s.sessions && t.db.loans == s.db.loans + [NEW_LOAN]
    ensures t.db.users.Keys == {1} && t.db.users[1].creditLimit == None
    ensures t.db.users[1].outstanding == 10 * |s.db.loans| + 10
  {
    t := LockedSum(n, s, i);
    t := Advance(true, n, t, Store(i));
    t := Advance(true, n, t, Commit(i));
  }

  /**
   * The caches are right in every state of every run exactly if each transaction locks its user first or there is
   * one session.
   */
  lemma CachedIff(lockFirst: bool, n: nat)
    ensures (forall run :: IsRun(lockFirst, n, run) ==> Cached(Last(run).db)) <==> lockFirst || n <= 1
  {
    if lockFirst || n <= 1 {
      forall run | IsRun(lockFirst, n, run)
        ensures Cached(Last(run).db)
      {
        AlwaysCached(lockFirst, n, run);
      }
    } else {
      var s := StaleTotal(n);
      var run :| IsRun(lockFirst, n, run) && Last(run) == s;
      assert !Cached(Last(run).db);
    }
  }
}
