/**
 * The row trigger that keeps users.total_outstanding and users.available_credit in step with
 * the loans table. Amounts are paisa; DECIMAL(14, 2) holds integers below 10^14 in absolute value.
 */
module CreditTriggers {
  import opened Prelude
  import opened Sums

  const DECIMAL_LIMIT: int := 100_000_000_000_000

  datatype LoanStatus = Active | PartiallyPaid | FullyPaid | Defaulted | WrittenOff | Disputed

  datatype Loan = Loan(user: int, status: LoanStatus, outstanding: int)

  /** `creditLimit` is None where the column is NULL. */
  datatype User = User(creditLimit: Option<int>, outstanding: int, availableCredit: int)

  /** The row id of a loan is its index: loans are inserted and updated, never deleted. */
  datatype Db = Db(users: map<int, User>, loans: seq<Loan>)

  datatype DbError = CheckViolation | ForeignKeyViolation | DuplicateKey | NumericOverflow

  datatype Write = InsertLoan(loan: Loan) | UpdateLoan(row: nat, loan: Loan)

  datatype Step =
    | AddUser(id: int, limit: Option<int>, available: int)
    | SetLimit(id: int, limit: Option<int>)
    | LoanStatement(writes: seq<Write>)

  function UserOf(l: Loan): int { l.user }

  function Counted(l: Loan): int {
    if l.status.Active? || l.status.PartiallyPaid? then l.outstanding else 0
  }

  /** SUM(total_outstanding) over the user's active and partially paid loans. */
  function Outstanding(loans: seq<Loan>, user: int): int { Group(loans, UserOf, Counted, user) }

  function Greatest(a: int, b: int): int { if a >= b then a else b }

  /** GREATEST(credit_limit - outstanding, 0); GREATEST skips a NULL argument. */
  function Available(limit: Option<int>, outstanding: int): int {
    match limit case Some(l) => Greatest(l - outstanding, 0) case None => 0
  }

  /** available_credit >= 0 AND available_credit <= credit_limit; a comparison with NULL does not fail a CHECK. */
  predicate CheckAvailable(u: User) {
    u.availableCredit >= 0 && (u.creditLimit.Some? ==> u.availableCredit <= u.creditLimit.value)
  }

  predicate Fits(x: int) { -DECIMAL_LIMIT < x < DECIMAL_LIMIT }

  // ---------------------------------------------------------------- what the statements do

  /** What the trigger does for the user of one row. */
  function Recalculate(db: Db, user: int): Result<Db, DbError> {
    var total := Outstanding(db.loans, user);
    if !Fits(total) then Err(NumericOverflow)
    else if user !in db.users then Ok(db)
    else
      var u := db.users[user].(outstanding := total, availableCredit := Available(db.users[user].creditLimit, total));
      if CheckAvailable(u) then Ok(db.(users := db.users[user := u])) else Err(CheckViolation)
  }

  function RecalculateAll(db: Db, users: seq<int>): Result<Db, DbError>
    decreases |users|
  {
    if users == [] then Ok(db)
    else
      match Recalculate(db, users[0])
      case Ok(d) => RecalculateAll(d, users[1..])
      case Err(e) => Err(e)
  }

  /** The rows a statement leaves behind and, in order, the NEW.user_id of each row it touched. */
  function WriteLoans(db: Db, writes: seq<Write>): Result<(Db, seq<int>), DbError>
    decreases |writes|
  {
    if writes == [] then Ok((db, []))
    else
      match WriteLoans(db, writes[..|writes| - 1])
      case Err(e) => Err(e)
      case Ok((d, touched)) => WriteLoan(d, touched, writes[|writes| - 1])
  }

  function WriteLoan(db: Db, touched: seq<int>, w: Write): Result<(Db, seq<int>), DbError> {
    if w.loan.user !in db.users then Err(ForeignKeyViolation)
    else
      match w
      case InsertLoan(l) => Ok((db.(loans := db.loans + [l]), touched + [l.user]))
      case UpdateLoan(row, l) =>
        if row < |db.loans| then Ok((db.(loans := db.loans[row := l]), touched + [l.user])) else Ok((db, touched))
  }

  /** An INSERT or UPDATE on loans: all its rows, then the AFTER row triggers; any error undoes the statement. */
  function RunStatement(db: Db, writes: seq<Write>): Result<Db, DbError> {
    match WriteLoans(db, writes)
    case Err(e) => Err(e)
    case Ok((d, touched)) => RecalculateAll(d, touched)
  }

  function RunStep(db: Db, step: Step): Result<Db, DbError> {
    match step
    case LoanStatement(writes) => RunStatement(db, writes)
    case AddUser(id, limit, available) =>
      if id in db.users then Err(DuplicateKey)
      else if !CheckAvailable(User(limit, 0, available)) then Err(CheckViolation)
      else Ok(db.(users := db.users[id := User(limit, 0, available)]))
    case SetLimit(id, limit) =>
      if id !in db.users then Ok(db)
      else
        var u := db.users[id].(creditLimit := limit);
        if CheckAvailable(u) then Ok(db.(users := db.users[id := u])) else Err(CheckViolation)
  }

  function After(db: Db, step: Step): Db {
    match RunStep(db, step) case Ok(d) => d case Err(_) => db
  }

  function History(steps: seq<Step>): Db {
    if steps == [] then Db(map[], []) else After(History(steps[..|steps| - 1]), steps[|steps| - 1])
  }

  /** The tables, and the two pieces of SQL that write them. */
  class Database {
    var users: map<int, User>
    var loans: seq<Loan>

    function Contents(): Db
      reads this
    {
      Db(users, loans)
    }

    method FnRecalculateAvailableCredit(newUser: Option<int>, oldUser: Option<int>) returns (r: Outcome<DbError>)
      requires newUser.Some? || oldUser.Some?
      modifies this`users
      ensures var user := if newUser.Some? then newUser.value else oldUser.value;
              && (r.Pass? <==> Acceptable(old(Contents()), user)) && users.Keys == old(users).Keys
              && (r.Pass? && user in users ==>
                  Fresh(Contents(), user) && users[user].creditLimit == old(users)[user].creditLimit)
              && (r.Pass? && user in users ==> ColumnsAgree(users[user]))
              && (forall u :: u in users && (u != user || r.Fail?) ==> users[u] == old(users)[u])
              && (r.Fail? ==> r == Fail(if Fits(Outstanding(loans, user)) then CheckViolation else NumericOverflow))
              && match Recalculate(old(Contents()), user)
                 case Ok(d) => r.Pass? && Contents() == d
                 case Err(e) => r == Fail(e) && Contents() == old(Contents())
    {
      var user := if newUser.Some? then newUser.value else oldUser.value;
      var total := Group(loans, UserOf, Counted, user);
      if !Fits(total) {
        return Fail(NumericOverflow);
      }
      if user in users {
        var row := users[user];
        row := row.(outstanding := total, availableCredit := Available(row.creditLimit, total));
        if !CheckAvailable(row) {
          return Fail(CheckViolation);
        }
        users := users[user := row];
      }
      return Pass;
    }

    /** One INSERT or UPDATE statement on loans with its row triggers. */
    method Execute(writes: seq<Write>) returns (r: Outcome<DbError>)
      modifies this
      ensures match RunStatement(old(Contents()), writes)
              case Ok(d) => r.Pass? && Contents() == d
              case Err(e) => r == Fail(e) && Contents() == old(Contents())
    {
      var savedUsers, savedLoans := users, loans;
      var touched := [];
      match WriteLoans(Db(users, loans), writes) {
        case Err(e) => return Fail(e);
        case Ok((d, rows)) => loans, touched := d.loans, rows;
      }
      WritesKeepUsers(old(Contents()), writes);
      var i := 0;
      while i < |touched|
        invariant 0 <= i <= |touched|
        invariant RunStatement(old(Contents()), writes) == RecalculateAll(Contents(), touched[i..])
        invariant savedUsers == old(users) && savedLoans == old(loans)
      {
        var verdict := FnRecalculateAvailableCredit(Some(touched[i]), None);
        if verdict.Fail? {
          users, loans := savedUsers, savedLoans;
          return verdict;
        }
        i := i + 1;
      }
      return Pass;
    }
  }

  lemma {:induction false} WritesKeepUsers(db: Db, writes: seq<Write>)
    ensures WriteLoans(db, writes).Ok? ==> WriteLoans(db, writes).value.0.users == db.users
    decreases |writes|
  {
    if writes != [] {
      WritesKeepUsers(db, writes[..|writes| - 1]);
    }
  }

  // ---------------------------------------------------------------- the cached total

  /** Every user's cached total is the sum it stands for, and every loan belongs to a user. */
  ghost predicate Cached(db: Db) {
    && (forall u :: u in db.users ==> db.users[u].outstanding == Outstanding(db.loans, u))
    && (forall l :: l in db.loans ==> l.user in db.users)
  }

  /** The statement leaves the owner of every row it updates as it was. */
  ghost predicate KeepsOwners(loans: seq<Loan>, writes: seq<Write>) {
    forall i :: 0 <= i < |writes| && writes[i].UpdateLoan? && writes[i].row < |loans| ==>
      writes[i].loan.user == loans[writes[i].row].user
  }

  /** The rows of a statement are distinct existing or new ones: an UPDATE only reaches rows from before it. */
  ghost predicate OldRowsOnly(loans: seq<Loan>, writes: seq<Write>) {
    forall i :: 0 <= i < |writes| && writes[i].UpdateLoan? ==> writes[i].row < |loans|
  }

  lemma {:induction false} WritesTouch(db: Db, writes: seq<Write>)
    requires Cached(db) && OldRowsOnly(db.loans, writes) && KeepsOwners(db.loans, writes) && WriteLoans(db, writes).Ok?
    ensures var (d, touched) := WriteLoans(db, writes).value;
            && d.users == db.users
            && |d.loans| >= |db.loans|
            && (forall i :: 0 <= i < |db.loans| ==> d.loans[i].user == db.loans[i].user)
            && (forall l :: l in d.loans ==> l.user in d.users)
            && (forall u :: u !in touched ==> Outstanding(d.loans, u) == Outstanding(db.loans, u))
    decreases |writes|
  {
    if writes != [] {
      var front, w := writes[..|writes| - 1], writes[|writes| - 1];
      WritesTouch(db, front);
      var (d, touched) := WriteLoans(db, front).value;
      var (e, touched') := WriteLoans(db, writes).value;
      assert w == writes[|writes| - 1];
      forall u | u !in touched'
        ensures Outstanding(e.loans, u) == Outstanding(d.loans, u)
      {
        assert w.loan.user in touched';
        match w
        case InsertLoan(l) => GroupAppend(d.loans, l, UserOf, Counted, u);
        case UpdateLoan(row, l) => GroupUpdate(d.loans, row, l, UserOf, Counted, u);
      }
      forall l | l in e.loans
        ensures l.user in e.users
      {
        assert l == w.loan || l in d.loans;
      }
    }
  }

  lemma {:induction false} RecalculatesTouched(db: Db, touched: seq<int>)
    requires RecalculateAll(db, touched).Ok?
    ensures var d := RecalculateAll(db, touched).value;
            && d.loans == db.loans && d.users.Keys == db.users.Keys
            && (forall u :: u in db.users ==> d.users[u].creditLimit == db.users[u].creditLimit)
            && (forall u :: u in db.users && u !in touched ==> d.users[u] == db.users[u])
            && (forall u :: u in db.users && u in touched ==> Fresh(d, u))
    decreases |touched|
  {
    if touched != [] {
      var first := Recalculate(db, touched[0]).value;
      RecalculatesTouched(first, touched[1..]);
      assert forall u :: u in touched <==> u == touched[0] || u in touched[1..];
    }
  }

  /** Both cached columns of user `u` are what the loans say. */
  ghost predicate Fresh(db: Db, u: int)
    requires u in db.users
  {
    && db.users[u].outstanding == Outstanding(db.loans, u)
    && db.users[u].availableCredit == Available(db.users[u].creditLimit, Outstanding(db.loans, u))
  }

  /**
   * A statement that moves no loan keeps every cached total right and refreshes both columns of each owner it
   * touches.
   */
  lemma StatementKeepsCache(db: Db, writes: seq<Write>)
    requires Cached(db) && OldRowsOnly(db.loans, writes) && KeepsOwners(db.loans, writes)
    requires RunStatement(db, writes).Ok?
    ensures Cached(RunStatement(db, writes).value)
    ensures forall i :: 0 <= i < |writes| ==>
              var u := writes[i].loan.user;
              u in RunStatement(db, writes).value.users && Fresh(RunStatement(db, writes).value, u)
  {
    var (d, touched) := WriteLoans(db, writes).value;
    WritesTouch(db, writes);
    RecalculatesTouched(d, touched);
    TouchedAreOwners(db, writes);
  }

  lemma {:induction false} TouchedAreOwners(db: Db, writes: seq<Write>)
    requires OldRowsOnly(db.loans, writes) && WriteLoans(db, writes).Ok?
    ensures var (d, touched) := WriteLoans(db, writes).value;
            && |d.loans| >= |db.loans| && d.users == db.users
            && forall i :: 0 <= i < |writes| ==> writes[i].loan.user in touched && writes[i].loan.user in db.users
    decreases |writes|
  {
    if writes != [] {
      TouchedAreOwners(db, writes[..|writes| - 1]);
    }
  }

  ghost predicate Regular(loans: seq<Loan>, step: Step) {
    step.LoanStatement? ==> OldRowsOnly(loans, step.writes) && KeepsOwners(loans, step.writes)
  }

  /** No step of the run moves a loan to another user. */
  ghost predicate RegularRun(steps: seq<Step>) {
    forall i :: 0 <= i < |steps| ==> Regular(History(steps[..i]).loans, steps[i])
  }

  /** In every state of a run of user inserts, limit changes and loan statements, each cached total equals its sum. */
  lemma {:induction false} CacheAlwaysRight(steps: seq<Step>)
    requires RegularRun(steps)
    ensures Cached(History(steps))
    decreases |steps|
  {
    if steps != [] {
      var before, last := steps[..|steps| - 1], steps[|steps| - 1];
      forall i | 0 <= i < |before|
        ensures Regular(History(before[..i]).loans, before[i])
      {
        assert before[..i] == steps[..i];
        assert Regular(History(steps[..i]).loans, steps[i]);
      }
      CacheAlwaysRight(before);
      assert Regular(History(steps[..|steps| - 1]).loans, steps[|steps| - 1]);
      var db := History(before);
      match last
      case LoanStatement(writes) =>
        if RunStatement(db, writes).Ok? {
          StatementKeepsCache(db, writes);
        }
      case AddUser(id, limit, available) =>
        if id !in db.users {
          NoLoansNoOutstanding(db.loans, id);
        }
      case SetLimit(_, _) =>
    }
  }

  lemma {:induction false} NoLoansNoOutstanding(loans: seq<Loan>, user: int)
    requires forall l :: l in loans ==> l.user != user
    ensures Outstanding(loans, user) == 0
  {
    if loans != [] {
      NoLoansNoOutstanding(loans[..|loans| - 1], user);
    }
  }

  // ---------------------------------------------------------------- the check on available_credit

  /** The check after a recalculation holds exactly when neither the limit nor the outstanding total is negative. */
  lemma CheckHoldsIff(limit: Option<int>, total: int)
    ensures CheckAvailable(User(limit, total, Available(limit, total)))
       <==> (limit.Some? ==> limit.value >= 0 && total >= 0)
  {
  }

  /** What a recalculation for `u` needs: a total the column can hold and nothing negative. */
  predicate Acceptable(db: Db, u: int) {
    var total := Outstanding(db.loans, u);
    Fits(total) && (u in db.users && db.users[u].creditLimit.Some? ==> db.users[u].creditLimit.value >= 0 && total >= 0)
  }

  lemma {:induction false} RecalculateAllSucceedsIff(db: Db, touched: seq<int>)
    ensures RecalculateAll(db, touched).Ok? <==> forall u :: u in touched ==> Acceptable(db, u)
    decreases |touched|
  {
    if touched != [] {
      assert forall u :: u in touched <==> u == touched[0] || u in touched[1..];
      if Acceptable(db, touched[0]) {
        var first := Recalculate(db, touched[0]).value;
        RecalculateAllSucceedsIff(first, touched[1..]);
        assert forall u :: Acceptable(first, u) <==> Acceptable(db, u);
      }
    }
  }

  /** Exactly when the triggers let a loan statement through, in terms of the loans it leaves behind. */
  lemma StatementAcceptedIff(db: Db, writes: seq<Write>)
    requires WriteLoans(db, writes).Ok?
    ensures RunStatement(db, writes).Ok? <==>
              forall u :: u in WriteLoans(db, writes).value.1 ==>
                Acceptable(Db(db.users, WriteLoans(db, writes).value.0.loans), u)
  {
    WritesKeepUsers(db, writes);
    RecalculateAllSucceedsIff(WriteLoans(db, writes).value.0, WriteLoans(db, writes).value.1);
  }

  /**
   * With non-negative loans and limits, the check on available_credit never rejects a statement whose totals fit
   * the column.
   */
  lemma NonNegativeNeverRejected(db: Db, writes: seq<Write>)
    requires WriteLoans(db, writes).Ok?
    requires forall u :: u in db.users && db.users[u].creditLimit.Some? ==> db.users[u].creditLimit.value >= 0
    requires forall l :: l in WriteLoans(db, writes).value.0.loans ==> l.outstanding >= 0
    ensures RunStatement(db, writes).Ok? <==>
              forall u :: u in WriteLoans(db, writes).value.1 ==>
                Outstanding(WriteLoans(db, writes).value.0.loans, u) < 100_000_000_000_000
  {
    StatementAcceptedIff(db, writes);
    var loans := WriteLoans(db, writes).value.0.loans;
    forall u
      ensures Outstanding(loans, u) >= 0
    {
      GroupNonNegative(loans, UserOf, Counted, u);
    }
  }

  // ---------------------------------------------------------------- what the two columns are

  /**
   * Available credit and the outstanding total make up the limit while the total is within it; beyond the
   * limit, and without one, nothing is available.
   */
  predicate ColumnsAgree(u: User) {
    if u.creditLimit.Some? && u.outstanding <= u.creditLimit.value
    then u.availableCredit + u.outstanding == u.creditLimit.value
    else u.availableCredit == 0
  }

  /** What a loan adds to its owner's total. */
  function Owed(l: Loan): int { if l.status in {Active, PartiallyPaid} then l.outstanding else 0 }

  /**
   * In every state of a run an accepted UPDATE that leaves a loan with its owner moves the stored total by the
   * change of what the loan owes, nobody else's columns change, and the owner's two columns agree. So turning an
   * active loan into a partially paid one changes no total, a payment on either lowers it by the payment, and
   * closing such a loan lowers it by its balance.
   */
  lemma LoanChangeMovesTotal(steps: seq<Step>, row: nat, l: Loan)
    requires RegularRun(steps) && row < |History(steps).loans| && l.user == History(steps).loans[row].user
    requires RunStep(History(steps), LoanStatement([UpdateLoan(row, l)])).Ok?
    ensures var db, end := History(steps), After(History(steps), LoanStatement([UpdateLoan(row, l)]));
            && end.loans == db.loans[row := l] && end.users.Keys == db.users.Keys && l.user in db.users
            && end.users[l.user].outstanding == db.users[l.user].outstanding - Owed(db.loans[row]) + Owed(l)
            && end.users[l.user].creditLimit == db.users[l.user].creditLimit && ColumnsAgree(end.users[l.user])
            && forall u :: u in db.users && u != l.user ==> end.users[u] == db.users[u]
  {
    var db := History(steps);
    CacheAlwaysRight(steps);
    OneWrite(db, UpdateLoan(row, l));
    GroupUpdate(db.loans, row, l, UserOf, Counted, l.user);
    assert db.loans[row] in db.loans;
  }

  /**
   * Such an UPDATE is accepted exactly if the owner's new total fits the column and, for an owner with a limit,
   * neither the limit nor the total is negative.
   */
  lemma LoanChangeAcceptedIff(steps: seq<Step>, row: nat, l: Loan)
    requires RegularRun(steps) && row < |History(steps).loans| && l.user == History(steps).loans[row].user
    ensures var db := History(steps);
            && l.user in db.users
            && var total := db.users[l.user].outstanding - Owed(db.loans[row]) + Owed(l);
               RunStep(db, LoanStatement([UpdateLoan(row, l)])).Ok? <==>
                 && -100_000_000_000_000 < total < 100_000_000_000_000
                 && (db.users[l.user].creditLimit.Some? ==> db.users[l.user].creditLimit.value >= 0 && total >= 0)
  {
    var db := History(steps);
    CacheAlwaysRight(steps);
    assert db.loans[row] in db.loans;
    var writes := [UpdateLoan(row, l)];
    assert writes[..0] == [];
    assert WriteLoans(db, writes) == WriteLoan(db, [], writes[0]);
    GroupUpdate(db.loans, row, l, UserOf, Counted, l.user);
    StatementAcceptedIff(db, writes);
  }

  /** An accepted INSERT adds what the new loan owes to its owner's total. */
  lemma InsertMovesTotal(steps: seq<Step>, l: Loan)
    requires RegularRun(steps) && RunStep(History(steps), LoanStatement([InsertLoan(l)])).Ok?
    ensures var db, end := History(steps), After(History(steps), LoanStatement([InsertLoan(l)]));
            && end.loans == db.loans + [l] && end.users.Keys == db.users.Keys && l.user in db.users
            && end.users[l.user].outstanding == db.users[l.user].outstanding + Owed(l)
            && end.users[l.user].creditLimit == db.users[l.user].creditLimit && ColumnsAgree(end.users[l.user])
            && forall u :: u in db.users && u != l.user ==> end.users[u] == db.users[u]
  {
    var db := History(steps);
    CacheAlwaysRight(steps);
    OneWrite(db, InsertLoan(l));
    GroupAppend(db.loans, l, UserOf, Counted, l.user);
  }

  /** A statement of one row refreshes the owner of that row and nobody else. */
  lemma OneWrite(db: Db, w: Write)
    requires RunStatement(db, [w]).Ok? && (w.UpdateLoan? ==> w.row < |db.loans|)
    ensures var end := RunStatement(db, [w]).value;
            && end.loans == (if w.InsertLoan? then db.loans + [w.loan] else db.loans[w.row := w.loan])
            && w.loan.user in db.users && end.users.Keys == db.users.Keys && Fresh(end, w.loan.user)
            && end.users[w.loan.user].creditLimit == db.users[w.loan.user].creditLimit
            && forall u :: u in db.users && u != w.loan.user ==> end.users[u] == db.users[u]
  {
    var writes := [w];
    assert writes[..0] == [];
    assert WriteLoans(db, writes) == WriteLoan(db, [], w);
    var (d, touched) := WriteLoans(db, writes).value;
    assert touched == [w.loan.user];
    RecalculatesTouched(d, touched);
  }

  /** A user row is accepted exactly if its id is new and what it has available is within its limit. */
  lemma AddUserIff(db: Db, id: int, limit: Option<int>, available: int)
    ensures RunStep(db, AddUser(id, limit, available)).Ok? <==>
              id !in db.users && available >= 0 && (limit.Some? ==> available <= limit.value)
    ensures RunStep(db, AddUser(id, limit, available)).Ok? ==>
              After(db, AddUser(id, limit, available)) == Db(db.users[id := User(limit, 0, available)], db.loans)
  {
  }

  /** Raising a limit leaves both cached columns as they were until the next loan statement. */
  lemma LimitChangeRefreshesNothing(db: Db, id: int, limit: Option<int>)
    requires id in db.users
    ensures var end := After(db, SetLimit(id, limit));
            && end.loans == db.loans && end.users.Keys == db.users.Keys
            && end.users[id].outstanding == db.users[id].outstanding
            && end.users[id].availableCredit == db.users[id].availableCredit
            && (end.users[id].creditLimit == limit <==>
                  limit == db.users[id].creditLimit
                  || (db.users[id].availableCredit >= 0
                      && (limit.Some? ==> db.users[id].availableCredit <= limit.value)))
            && forall u :: u in db.users && u != id ==> end.users[u] == db.users[u]
  {
  }

  // ---------------------------------------------------------------- moving a loan between users

  /**
   * An update that moves a loan refreshes only its new owner: the caches stay right exactly when the loan did not
   * count.
   */
  lemma MoveKeepsCacheIff(db: Db, row: nat, moved: Loan)
    requires Cached(db) && row < |db.loans| && moved.user != db.loans[row].user
    requires RunStatement(db, [UpdateLoan(row, moved)]).Ok?
    ensures Cached(RunStatement(db, [UpdateLoan(row, moved)]).value) <==> Counted(db.loans[row]) == 0
  {
    var writes := [UpdateLoan(row, moved)];
    assert writes[..0] == [];
    assert WriteLoans(db, writes) == WriteLoan(db, [], writes[0]);
    var (d, touched) := WriteLoans(db, writes).value;
    assert touched == [moved.user];
    RecalculatesTouched(d, touched);
    var end := RunStatement(db, writes).value;
    var loser := db.loans[row].user;
    forall u
      ensures Outstanding(d.loans, u) == Outstanding(db.loans, u) - (if loser == u then Counted(db.loans[row]) else 0)
                                         + if moved.user == u then Counted(moved) else 0
    {
      GroupUpdate(db.loans, row, moved, UserOf, Counted, u);
    }
    assert db.loans[row] in db.loans;
    assert end.users[loser].outstanding == Outstanding(db.loans, loser);
    forall l | l in end.loans
      ensures l.user in end.users
    {
      assert l == moved || l in db.loans;
    }
  }
}
