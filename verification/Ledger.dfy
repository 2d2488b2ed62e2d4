/**
 * Journal headers and lines, the checks on their columns, and the deferred constraint trigger
 * that compares the lines of a journal with its header when a transaction commits.
 * Amounts are paisa, so NUMERIC(14, 2) holds the integers below 10^14 in absolute value.
 */
module Ledger {
  import opened Prelude
  import opened Sums

  const NUMERIC_LIMIT: int := 100_000_000_000_000

  datatype Header = Header(debit: int, credit: int)

  datatype Line = Line(journal: int, account: int, debit: int, credit: int)

  /**
   * A line is named by its index. Inserts append; a DELETE closes the gap, so later statements name the rows as
   * they then are.
   */
  datatype Db = Db(headers: map<int, Header>, lines: seq<Line>)

  datatype DbError =
    | CheckViolation
    | DuplicateKey
    | ForeignKeyViolation
    | NumericOverflow
    | Orphaned(journal: int)
    | SumMismatch(journal: int)

  datatype Op =
    | InsertHeader(id: int, header: Header)
    | InsertLine(line: Line)
    | SetAmounts(row: nat, debit: int, credit: int)
    | MoveLine(row: nat, journal: int)
    | DeleteLine(row: nat)

  /** A transaction in progress: the rows it sees and the journal ids its deferred triggers will check. */
  datatype Session = Session(db: Db, queue: seq<int>)

  datatype TgOp = Insert | Update | Delete

  function JournalOf(l: Line): int { l.journal }

  function AccountOf(l: Line): int { l.account }

  function DebitOf(l: Line): int { l.debit }

  function CreditOf(l: Line): int { l.credit }

  function NetOf(l: Line): int { l.debit - l.credit }

  predicate Fits(amount: int) { -NUMERIC_LIMIT < amount < NUMERIC_LIMIT }

  predicate HeaderOk(h: Header) {
    Fits(h.debit) && Fits(h.credit) && h.debit >= 0 && h.credit >= 0 && h.debit == h.credit
  }

  predicate LineOk(l: Line) {
    && Fits(l.debit) && Fits(l.credit)
    && l.debit >= 0 && l.credit >= 0
    && !(l.debit > 0 && l.credit > 0)
    && !(l.debit == 0 && l.credit == 0)
  }

  // ---------------------------------------------------------------- statements

  function InsertHeaderRow(s: Session, id: int, h: Header): Result<Session, DbError> {
    if !HeaderOk(h) then Err(CheckViolation)
    else if id in s.db.headers then Err(DuplicateKey)
    else Ok(s.(db := s.db.(headers := s.db.headers[id := h])))
  }

  function WriteLine(s: Session, l: Line, lines: seq<Line>): Result<Session, DbError> {
    if !LineOk(l) then Err(CheckViolation)
    else if l.journal !in s.db.headers then Err(ForeignKeyViolation)
    else Ok(Session(s.db.(lines := lines), s.queue + [l.journal]))
  }

  function UpdateLine(s: Session, row: nat, l: Line): Result<Session, DbError>
    requires row < |s.db.lines|
  {
    WriteLine(s, l, s.db.lines[row := l])
  }

  /** One statement. An UPDATE or DELETE that matches no row does nothing; DELETE queues no trigger. */
  function Exec(s: Session, op: Op): Result<Session, DbError> {
    var lines := s.db.lines;
    match op
    case InsertHeader(id, h) => InsertHeaderRow(s, id, h)
    case InsertLine(l) => WriteLine(s, l, lines + [l])
    case SetAmounts(row, d, c) =>
      if row < |lines| then UpdateLine(s, row, lines[row].(debit := d, credit := c)) else Ok(s)
    case MoveLine(row, j) =>
      if row < |lines| then UpdateLine(s, row, lines[row].(journal := j)) else Ok(s)
    case DeleteLine(row) =>
      if row < |lines| then Ok(s.(db := s.db.(lines := lines[..row] + lines[row + 1..]))) else Ok(s)
  }

  function ExecAll(s: Session, ops: seq<Op>): Result<Session, DbError>
    decreases |ops|
  {
    if ops == [] then Ok(s)
    else
      match Exec(s, ops[0])
      case Ok(t) => ExecAll(t, ops[1..])
      case Err(e) => Err(e)
  }

  // ---------------------------------------------------------------- the trigger and COMMIT

  function LinesDebit(db: Db, j: int): int { Group(db.lines, JournalOf, DebitOf, j) }

  function LinesCredit(db: Db, j: int): int { Group(db.lines, JournalOf, CreditOf, j) }

  function Verdict(db: Db, j: int): Outcome<DbError> {
    if !Fits(LinesDebit(db, j)) || !Fits(LinesCredit(db, j)) then Fail(NumericOverflow)
    else if j !in db.headers then Fail(Orphaned(j))
    else if LinesDebit(db, j) != db.headers[j].debit || LinesCredit(db, j) != db.headers[j].credit
    then Fail(SumMismatch(j))
    else Pass
  }

  /** The deferred triggers run in queue order; the first failure is the transaction's error. */
  function CommitVerdict(db: Db, queue: seq<int>): Outcome<DbError> {
    if queue == [] then Pass
    else
      match Verdict(db, queue[0])
      case Pass => CommitVerdict(db, queue[1..])
      case Fail(e) => Fail(e)
  }

  /** A whole transaction: every statement, then the deferred triggers; any error aborts it. */
  function Transact(db: Db, ops: seq<Op>): Result<Db, DbError> {
    match ExecAll(Session(db, []), ops)
    case Err(e) => Err(e)
    case Ok(s) =>
      match CommitVerdict(s.db, s.queue)
      case Fail(e) => Err(e)
      case Pass => Ok(s.db)
  }

  function After(db: Db, ops: seq<Op>): Db {
    match Transact(db, ops) case Ok(d) => d case Err(_) => db
  }

  /** The committed state after a history of transactions, aborted ones included. */
  function History(db: Db, txs: seq<seq<Op>>): Db {
    if txs == [] then db else After(History(db, txs[..|txs| - 1]), txs[|txs| - 1])
  }

  const EMPTY: Db := Db(map[], [])

  // ---------------------------------------------------------------- invariants

  ghost predicate WellFormed(db: Db) {
    && (forall j :: j in db.headers ==> HeaderOk(db.headers[j]))
    && (forall l :: l in db.lines ==> LineOk(l) && l.journal in db.headers)
  }

  ghost predicate Balanced(db: Db, j: int) {
    j in db.headers && LinesDebit(db, j) == db.headers[j].debit && LinesCredit(db, j) == db.headers[j].credit
  }

  /** Every journal that has a line agrees with its header. */
  ghost predicate AllBalanced(db: Db) {
    forall l :: l in db.lines ==> Balanced(db, l.journal)
  }

  /** A connection to the database: the working rows of its transaction and the last committed ones. */
  class Connection {
    var db: Db
    var committed: Db
    var pending: seq<int>

    constructor (initial: Db)
      ensures db == committed == initial && pending == []
    {
      db, committed, pending := initial, initial, [];
    }

    /** The trigger function, once for each queued row event. */
    method CheckLinesBalanced(op: TgOp, oldJournal: int, newJournal: int) returns (r: Outcome<DbError>)
      ensures var j := if op == Delete then oldJournal else newJournal;
              && (WellFormed(db) ==> (r.Pass? <==> Balanced(db, j)))
              && (r.Fail? ==> r.error in {NumericOverflow, Orphaned(j), SumMismatch(j)})
              && (r == Fail(Orphaned(j)) <==> r != Fail(NumericOverflow) && j !in db.headers)
              && (r == Fail(SumMismatch(j)) <==> r != Fail(NumericOverflow) && j in db.headers && !Balanced(db, j))
              && (r == Fail(NumericOverflow) <==>
                    !(-100_000_000_000_000 < LinesDebit(db, j) < 100_000_000_000_000)
                    || !(-100_000_000_000_000 < LinesCredit(db, j) < 100_000_000_000_000))
              && r == Verdict(db, j)
    {
      var journalId;
      if op == Delete {
        journalId := oldJournal;
      } else {
        journalId := newJournal;
      }
      var lineDebit := Group(db.lines, JournalOf, DebitOf, journalId);
      var lineCredit := Group(db.lines, JournalOf, CreditOf, journalId);
      if !Fits(lineDebit) || !Fits(lineCredit) {
        return Fail(NumericOverflow);
      }
      if journalId !in db.headers {
        return Fail(Orphaned(journalId));
      }
      var header := db.headers[journalId];
      if lineDebit != header.debit || lineCredit != header.credit {
        return Fail(SumMismatch(journalId));
      }
      return Pass;
    }

    method Rollback()
      modifies this
      ensures db == committed == old(committed) && pending == []
    {
      db, pending := committed, [];
    }

    method Commit() returns (r: Outcome<DbError>)
      modifies this
      ensures r == CommitVerdict(old(db), old(pending))
      ensures db == committed == (if r.Pass? then old(db) else old(committed))
      ensures pending == []
    {
      var i := 0;
      while i < |pending|
        invariant 0 <= i <= |pending|
        invariant db == old(db) && committed == old(committed) && pending == old(pending)
        invariant CommitVerdict(db, pending) == CommitVerdict(db, pending[i..])
      {
        var verdict := CheckLinesBalanced(Insert, 0, pending[i]);
        if verdict.Fail? {
          Rollback();
          return verdict;
        }
        i := i + 1;
      }
      committed, pending := db, [];
      return Pass;
    }

    /** A transaction from its first statement to COMMIT or ROLLBACK. */
    method Run(ops: seq<Op>) returns (r: Outcome<DbError>)
      requires db == committed && pending == []
      modifies this
      ensures r.Pass? <==> Transact(old(db), ops).Ok?
      ensures r.Fail? ==> Transact(old(db), ops) == Err(r.error)
      ensures db == committed == After(old(db), ops) && pending == []
    {
      var i := 0;
      while i < |ops|
        invariant 0 <= i <= |ops|
        invariant committed == old(committed)
        invariant ExecAll(Session(old(db), []), ops) == ExecAll(Session(db, pending), ops[i..])
      {
        match Exec(Session(db, pending), ops[i]) {
          case Ok(next) => db, pending := next.db, next.queue;
          case Err(e) =>
            Rollback();
            return Fail(e);
        }
        i := i + 1;
      }
      r := Commit();
    }
  }
}
