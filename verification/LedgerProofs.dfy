/** What the deferred trigger guarantees over whole transactions and whole histories. */
module LedgerProofs {
  import opened Prelude
  import opened Sums
  import opened Ledger

  // ---------------------------------------------------------------- COMMIT

  lemma {:induction false} CommitPassesIff(db: Db, queue: seq<int>)
    requires WellFormed(db)
    ensures CommitVerdict(db, queue).Pass? <==> forall j :: j in queue ==> Balanced(db, j)
  {
    if queue != [] {
      CommitPassesIff(db, queue[1..]);
      VerdictPassesIff(db, queue[0]);
      assert forall j :: j in queue <==> j == queue[0] || j in queue[1..];
    }
  }

  lemma VerdictPassesIff(db: Db, j: int)
    requires WellFormed(db)
    ensures Verdict(db, j).Pass? <==> Balanced(db, j)
  {
  }

  // ---------------------------------------------------------------- one transaction

  function OneOf(l: Line): int { 1 }

  function LineCount(db: Db, j: int): int { Group(db.lines, JournalOf, OneOf, j) }

  /** A journal that is not checked can only have lost lines, and every lost line took an amount with it. */
  ghost predicate OnlyLost(start: Db, db: Db, j: int) {
    var lost := LineCount(start, j) - LineCount(db, j);
    var debit, credit := LinesDebit(start, j) - LinesDebit(db, j), LinesCredit(start, j) - LinesCredit(db, j);
    0 <= lost <= debit + credit && debit >= 0 && credit >= 0 && (lost == 0 ==> debit == 0 && credit == 0)
  }

  /** The headers of start are as they were, and so are the journals outside the queue but for lost lines. */
  ghost predicate Tracks(start: Db, s: Session) {
    && WellFormed(s.db)
    && (forall j :: j in start.headers ==> j in s.db.headers && s.db.headers[j] == start.headers[j])
    && (forall j :: j !in s.queue ==> OnlyLost(start, s.db, j))
  }

  lemma AppendTracks(start: Db, s: Session, l: Line)
    requires Tracks(start, s) && LineOk(l) && l.journal in s.db.headers
    ensures Tracks(start, Session(s.db.(lines := s.db.lines + [l]), s.queue + [l.journal]))
  {
    var t := Session(s.db.(lines := s.db.lines + [l]), s.queue + [l.journal]);
    forall j | j !in t.queue
      ensures OnlyLost(start, t.db, j)
    {
      assert l.journal in t.queue;
      assert OnlyLost(start, s.db, j);
      GroupAppend(s.db.lines, l, JournalOf, DebitOf, j);
      GroupAppend(s.db.lines, l, JournalOf, CreditOf, j);
      GroupAppend(s.db.lines, l, JournalOf, OneOf, j);
    }
  }

  lemma UpdateTracks(start: Db, s: Session, row: nat, l: Line)
    requires Tracks(start, s) && row < |s.db.lines| && LineOk(l) && l.journal in s.db.headers
    ensures Tracks(start, Session(s.db.(lines := s.db.lines[row := l]), s.queue + [l.journal]))
  {
    var t := Session(s.db.(lines := s.db.lines[row := l]), s.queue + [l.journal]);
    assert LineOk(s.db.lines[row]);
    forall j | j !in t.queue
      ensures OnlyLost(start, t.db, j)
    {
      assert l.journal in t.queue;
      assert OnlyLost(start, s.db, j);
      GroupUpdate(s.db.lines, row, l, JournalOf, DebitOf, j);
      GroupUpdate(s.db.lines, row, l, JournalOf, CreditOf, j);
      GroupUpdate(s.db.lines, row, l, JournalOf, OneOf, j);
    }
  }

  lemma DeleteTracks(start: Db, s: Session, row: nat)
    requires Tracks(start, s) && row < |s.db.lines|
    ensures Tracks(start, s.(db := s.db.(lines := s.db.lines[..row] + s.db.lines[row + 1..])))
  {
    var t := s.(db := s.db.(lines := s.db.lines[..row] + s.db.lines[row + 1..]));
    assert LineOk(s.db.lines[row]);
    assert forall l :: l in t.db.lines ==> l in s.db.lines;
    forall j | j !in t.queue
      ensures OnlyLost(start, t.db, j)
    {
      assert OnlyLost(start, s.db, j);
      GroupRemove(s.db.lines, row, JournalOf, DebitOf, j);
      GroupRemove(s.db.lines, row, JournalOf, CreditOf, j);
      GroupRemove(s.db.lines, row, JournalOf, OneOf, j);
    }
  }

  lemma ExecTracks(start: Db, s: Session, op: Op)
    requires Tracks(start, s) && Exec(s, op).Ok?
    ensures Tracks(start, Exec(s, op).value)
  {
    var lines := s.db.lines;
    match op
    case InsertHeader(id, h) =>
      var t := Exec(s, op).value;
      forall j | j !in t.queue
        ensures OnlyLost(start, t.db, j)
      {
        assert OnlyLost(start, s.db, j);
      }
    case InsertLine(l) => AppendTracks(start, s, l);
    case SetAmounts(row, d, c) =>
      if row < |lines| {
        UpdateTracks(start, s, row, lines[row].(debit := d, credit := c));
      }
    case MoveLine(row, j) =>
      if row < |lines| {
        UpdateTracks(start, s, row, lines[row].(journal := j));
      }
    case DeleteLine(row) =>
      if row < |lines| {
        DeleteTracks(start, s, row);
      }
  }

  lemma {:induction false} ExecAllTracks(start: Db, s: Session, ops: seq<Op>)
    requires Tracks(start, s) && ExecAll(s, ops).Ok?
    ensures Tracks(start, ExecAll(s, ops).value)
    decreases |ops|
  {
    if ops != [] {
      ExecTracks(start, s, ops[0]);
      ExecAllTracks(start, Exec(s, ops[0]).value, ops[1..]);
    }
  }

  lemma CountPositive(db: Db, l: Line)
    requires l in db.lines
    ensures LineCount(db, l.journal) > 0
  {
    var i :| 0 <= i < |db.lines| && db.lines[i] == l;
    GroupAtLeast(db.lines, i, JournalOf, OneOf);
  }

  /** The journals a transaction's row events have queued for the check at COMMIT. */
  function Checked(db: Db, ops: seq<Op>): seq<int> {
    match ExecAll(Session(db, []), ops) case Ok(s) => s.queue case Err(_) => []
  }

  /** The transaction has left the journal all its lines or none. */
  ghost predicate AllOrNone(db: Db, end: Db, j: int) {
    LineCount(end, j) == LineCount(db, j) || LineCount(end, j) == 0
  }

  /** No journal that goes unchecked has lost some of its lines and kept others. */
  ghost predicate LosesNoPart(db: Db, ops: seq<Op>) {
    forall j :: j !in Checked(db, ops) ==> AllOrNone(db, After(db, ops), j)
  }

  lemma UncheckedBalancedIff(start: Db, end: Db, l: Line)
    requires AllBalanced(start) && WellFormed(end) && l in end.lines && OnlyLost(start, end, l.journal)
    requires forall j :: j in start.headers ==> j in end.headers && end.headers[j] == start.headers[j]
    ensures Balanced(end, l.journal) <==> LineCount(end, l.journal) == LineCount(start, l.journal)
  {
    CountPositive(end, l);
    PositiveGroupHasRow(start.lines, JournalOf, OneOf, l.journal);
    var l0 :| l0 in start.lines && l0.journal == l.journal;
    assert Balanced(start, l0.journal);
  }

  /**
   * Exactly when a committed transaction of any statements keeps the ledger balanced: each journal that the
   * trigger does not check has kept all its lines or lost all of them.
   */
  lemma TransactionKeepsBalanceIff(db: Db, ops: seq<Op>)
    requires WellFormed(db) && AllBalanced(db) && Transact(db, ops).Ok?
    ensures WellFormed(After(db, ops))
    ensures AllBalanced(After(db, ops)) <==> LosesNoPart(db, ops)
  {
    var s := ExecAll(Session(db, []), ops).value;
    ExecAllTracks(db, Session(db, []), ops);
    CommitPassesIff(s.db, s.queue);
    forall l | l in s.db.lines && l.journal !in s.queue
      ensures Balanced(s.db, l.journal) <==> LineCount(s.db, l.journal) == LineCount(db, l.journal)
      ensures LineCount(s.db, l.journal) > 0
    {
      UncheckedBalancedIff(db, s.db, l);
      CountPositive(s.db, l);
    }
    forall j | j !in s.queue && !AllOrNone(db, s.db, j)
      ensures exists l :: l in s.db.lines && l.journal == j
    {
      assert OnlyLost(db, s.db, j);
      GroupNonNegative(s.db.lines, JournalOf, OneOf, j);
      PositiveGroupHasRow(s.db.lines, JournalOf, OneOf, j);
    }
  }

  /** Without deletions and moves no line is lost, so what goes unchecked stays whole. */
  lemma {:induction false} CoveredKeepLines(s: Session, ops: seq<Op>, j: int)
    requires forall op :: op in ops ==> !op.DeleteLine? && !op.MoveLine?
    requires ExecAll(s, ops).Ok? && j !in ExecAll(s, ops).value.queue
    ensures j !in s.queue && LineCount(ExecAll(s, ops).value.db, j) == LineCount(s.db, j)
    decreases |ops|
  {
    if ops != [] {
      var t := Exec(s, ops[0]).value;
      CoveredKeepLines(t, ops[1..], j);
      assert !ops[0].DeleteLine? && !ops[0].MoveLine?;
      match ops[0]
      case InsertLine(l) =>
        assert l.journal in t.queue;
        GroupAppend(s.db.lines, l, JournalOf, OneOf, j);
      case SetAmounts(row, d, c) =>
        if row < |s.db.lines| {
          GroupUpdate(s.db.lines, row, s.db.lines[row].(debit := d, credit := c), JournalOf, OneOf, j);
        }
      case _ =>
    }
  }

  /** A committed transaction that deletes and moves no line leaves every journal that has lines balanced. */
  lemma TransactionKeepsBalance(db: Db, ops: seq<Op>)
    requires WellFormed(db) && AllBalanced(db)
    requires forall op :: op in ops ==> !op.DeleteLine? && !op.MoveLine?
    ensures WellFormed(After(db, ops)) && AllBalanced(After(db, ops))
  {
    if Transact(db, ops).Ok? {
      TransactionKeepsBalanceIff(db, ops);
      forall j | j !in Checked(db, ops)
        ensures AllOrNone(db, After(db, ops), j)
      {
        CoveredKeepLines(Session(db, []), ops, j);
      }
    }
  }

  // ---------------------------------------------------------------- every history

  /** In every committed state a journal with a line has line debits = header debit = header credit = line credits. */
  lemma {:induction false} HistoryKeepsBalance(txs: seq<seq<Op>>)
    requires forall ops, op :: ops in txs && op in ops ==> !op.DeleteLine? && !op.MoveLine?
    ensures WellFormed(History(EMPTY, txs)) && AllBalanced(History(EMPTY, txs))
    ensures var db := History(EMPTY, txs);
            forall l :: l in db.lines ==>
              LinesDebit(db, l.journal) == db.headers[l.journal].debit
                == db.headers[l.journal].credit == LinesCredit(db, l.journal)
    decreases |txs|
  {
    if txs != [] {
      var before, last := txs[..|txs| - 1], txs[|txs| - 1];
      assert last in txs;
      HistoryKeepsBalance(before);
      TransactionKeepsBalance(History(EMPTY, before), last);
    }
  }

  /** The ledger is balanced after each transaction of the history. */
  ghost predicate AlwaysBalanced(txs: seq<seq<Op>>) {
    txs != [] ==> AlwaysBalanced(txs[..|txs| - 1]) && AllBalanced(History(EMPTY, txs))
  }

  /** Each transaction of the history aborts, or loses no part of a journal that goes unchecked. */
  ghost predicate NeverLosesPart(txs: seq<seq<Op>>) {
    txs != [] ==>
      var before, last := txs[..|txs| - 1], txs[|txs| - 1];
      NeverLosesPart(before)
        && (Transact(History(EMPTY, before), last).Ok? ==> LosesNoPart(History(EMPTY, before), last))
  }

  /** Over histories of any statements, deletions and moves included, the two are the same. */
  lemma {:induction false} AlwaysBalancedIff(txs: seq<seq<Op>>)
    ensures AlwaysBalanced(txs) <==> NeverLosesPart(txs)
    ensures AlwaysBalanced(txs) ==> WellFormed(History(EMPTY, txs)) && AllBalanced(History(EMPTY, txs))
    decreases |txs|
  {
    if txs != [] {
      var before, last := txs[..|txs| - 1], txs[|txs| - 1];
      AlwaysBalancedIff(before);
      if AlwaysBalanced(before) && Transact(History(EMPTY, before), last).Ok? {
        TransactionKeepsBalanceIff(History(EMPTY, before), last);
      }
    }
  }

  ghost function Journals(rows: seq<Line>): set<int> {
    set l | l in rows :: l.journal
  }

  ghost function Accounts(rows: seq<Line>): set<int> {
    set l | l in rows :: l.account
  }

  /** Group sums are linear, so the net of a journal is its debits minus its credits. */
  lemma {:induction false} NetIsDebitMinusCredit(rows: seq<Line>, j: int)
    ensures Group(rows, JournalOf, NetOf, j)
         == Group(rows, JournalOf, DebitOf, j) - Group(rows, JournalOf, CreditOf, j)
  {
    if rows != [] {
      NetIsDebitMinusCredit(rows[..|rows| - 1], j);
    }
  }

  lemma {:induction false} TotalNet(rows: seq<Line>)
    ensures Total(rows, NetOf) == Total(rows, DebitOf) - Total(rows, CreditOf)
  {
    if rows != [] {
      TotalNet(rows[..|rows| - 1]);
    }
  }

  /** The journal-by-journal checks add up to a trial balance over the whole ledger, and over the accounts. */
  lemma TrialBalance(db: Db)
    requires WellFormed(db) && AllBalanced(db)
    ensures Total(db.lines, DebitOf) == Total(db.lines, CreditOf)
    ensures GroupsTotal(Accounts(db.lines), db.lines, AccountOf, NetOf) == 0
  {
    var rows := db.lines;
    forall j | j in Journals(rows)
      ensures Group(rows, JournalOf, NetOf, j) == 0
    {
      NetIsDebitMinusCredit(rows, j);
      assert Balanced(db, j);
    }
    EmptyGroups(Journals(rows), rows, JournalOf, NetOf);
    Regroup(Journals(rows), rows, JournalOf, NetOf);
    Regroup(Accounts(rows), rows, AccountOf, NetOf);
    TotalNet(rows);
  }

  lemma TrialBalanceAlways(txs: seq<seq<Op>>)
    requires forall ops, op :: ops in txs && op in ops ==> !op.DeleteLine? && !op.MoveLine?
    ensures var db := History(EMPTY, txs);
            && Total(db.lines, DebitOf) == Total(db.lines, CreditOf)
            && GroupsTotal(Accounts(db.lines), db.lines, AccountOf, NetOf) == 0
  {
    HistoryKeepsBalance(txs);
    TrialBalance(History(EMPTY, txs));
  }

  /** A balanced journal with a line has a line on each side. */
  lemma BothSides(db: Db, l: Line)
    requires WellFormed(db) && AllBalanced(db) && l in db.lines
    ensures exists d :: d in db.lines && d.journal == l.journal && d.debit > 0
    ensures exists c :: c in db.lines && c.journal == l.journal && c.credit > 0
  {
    var i :| 0 <= i < |db.lines| && db.lines[i] == l;
    GroupAtLeast(db.lines, i, JournalOf, DebitOf);
    GroupAtLeast(db.lines, i, JournalOf, CreditOf);
    assert LineOk(l) && Balanced(db, l.journal);
    PositiveGroupHasRow(db.lines, JournalOf, DebitOf, l.journal);
    PositiveGroupHasRow(db.lines, JournalOf, CreditOf, l.journal);
  }

  // ---------------------------------------------------------------- what the statements accept

  /** A line adds its two amounts to the sums of its own journal and to no other. */
  lemma LineMovesSums(db: Db, l: Line, j: int)
    ensures var end := db.(lines := db.lines + [l]);
            && LinesDebit(end, j) == LinesDebit(db, j) + (if l.journal == j then l.debit else 0)
            && LinesCredit(end, j) == LinesCredit(db, j) + (if l.journal == j then l.credit else 0)
    ensures LinesDebit(EMPTY, j) == LinesCredit(EMPTY, j) == 0
    ensures forall a :: Group(db.lines + [l], AccountOf, NetOf, a)
                     == Group(db.lines, AccountOf, NetOf, a) + (if l.account == a then l.debit - l.credit else 0)
  {
    forall a
      ensures Group(db.lines + [l], AccountOf, NetOf, a)
           == Group(db.lines, AccountOf, NetOf, a) + (if l.account == a then l.debit - l.credit else 0)
    {
      GroupAppend(db.lines, l, AccountOf, NetOf, a);
    }
    GroupAppend(db.lines, l, JournalOf, DebitOf, j);
    GroupAppend(db.lines, l, JournalOf, CreditOf, j);
  }

  /** Exactly one side of the line is positive, and it fits the column. */
  predicate OneSided(l: Line) {
    (l.debit == 0 && 0 < l.credit < 100_000_000_000_000) || (l.credit == 0 && 0 < l.debit < 100_000_000_000_000)
  }

  /** A header is accepted exactly if it is new and its totals are equal, not negative, and fit the column. */
  lemma HeaderAcceptedIff(s: Session, id: int, h: Header)
    ensures Exec(s, InsertHeader(id, h)).Ok? <==>
              id !in s.db.headers && 0 <= h.debit == h.credit < 100_000_000_000_000
    ensures Exec(s, InsertHeader(id, h)).Ok? ==>
              Exec(s, InsertHeader(id, h)).value == Session(Db(s.db.headers[id := h], s.db.lines), s.queue)
  {
  }

  /** A line is accepted, and its journal queued, exactly if it is one-sided and its header is there. */
  lemma LineAcceptedIff(s: Session, l: Line)
    ensures Exec(s, InsertLine(l)).Ok? <==> OneSided(l) && l.journal in s.db.headers
    ensures Exec(s, InsertLine(l)).Ok? ==>
              Exec(s, InsertLine(l)).value == Session(Db(s.db.headers, s.db.lines + [l]), s.queue + [l.journal])
  {
  }

  /** New amounts and a new journal are accepted on the same terms; only the journal the row ends in is queued. */
  lemma ChangeAcceptedIff(s: Session, row: nat, debit: int, credit: int, j: int)
    requires row < |s.db.lines| && s.db.lines[row].journal in s.db.headers && OneSided(s.db.lines[row])
    ensures var l := s.db.lines[row];
            && (Exec(s, SetAmounts(row, debit, credit)).Ok? <==> OneSided(Line(l.journal, l.account, debit, credit)))
            && (Exec(s, SetAmounts(row, debit, credit)).Ok? ==>
                  Exec(s, SetAmounts(row, debit, credit)).value
                  == Session(Db(s.db.headers, s.db.lines[row := Line(l.journal, l.account, debit, credit)]),
                             s.queue + [l.journal]))
            && (Exec(s, MoveLine(row, j)).Ok? <==> j in s.db.headers)
            && (Exec(s, MoveLine(row, j)).Ok? ==>
                  Exec(s, MoveLine(row, j)).value
                  == Session(Db(s.db.headers, s.db.lines[row := Line(j, l.account, l.debit, l.credit)]), s.queue + [j]))
  {
  }

  // ---------------------------------------------------------------- deferral

  function InsertLines(lines: seq<Line>): (ops: seq<Op>)
    ensures |ops| == |lines| && forall i :: 0 <= i < |ops| ==> ops[i] == InsertLine(lines[i])
  {
    seq(|lines|, i requires 0 <= i < |lines| => InsertLine(lines[i]))
  }

  function JournalsInOrder(lines: seq<Line>): (js: seq<int>)
    ensures |js| == |lines| && forall i :: 0 <= i < |js| ==> js[i] == lines[i].journal
  {
    seq(|lines|, i requires 0 <= i < |lines| => lines[i].journal)
  }

  lemma {:induction false} InsertsSucceedIff(s: Session, lines: seq<Line>)
    ensures ExecAll(s, InsertLines(lines)).Ok? <==> forall l :: l in lines ==> LineOk(l) && l.journal in s.db.headers
    ensures ExecAll(s, InsertLines(lines)).Ok? ==>
              ExecAll(s, InsertLines(lines)).value
              == Session(s.db.(lines := s.db.lines + lines), s.queue + JournalsInOrder(lines))
    decreases |lines|
  {
    if lines == [] {
      assert s.db.lines + lines == s.db.lines && s.queue + JournalsInOrder(lines) == s.queue;
    } else {
      var first, rest := lines[0], lines[1..];
      assert InsertLines(lines)[1..] == InsertLines(rest);
      assert forall l :: l in lines <==> l == first || l in rest;
      if Exec(s, InsertLine(first)).Ok? {
        InsertsSucceedIff(Exec(s, InsertLine(first)).value, rest);
        assert s.db.lines + [first] + rest == s.db.lines + lines;
        assert s.queue + [first.journal] + JournalsInOrder(rest) == s.queue + JournalsInOrder(lines);
      }
    }
  }

  lemma QueueIsLines(end: Db, lines: seq<Line>)
    requires WellFormed(end)
    ensures CommitVerdict(end, JournalsInOrder(lines)).Pass? <==> forall l :: l in lines ==> Balanced(end, l.journal)
  {
    var queue := JournalsInOrder(lines);
    CommitPassesIff(end, queue);
    forall l | l in lines
      ensures l.journal in queue
    {
      var i :| 0 <= i < |lines| && lines[i] == l;
      assert queue[i] == l.journal;
    }
    forall j | j in queue
      ensures exists l :: l in lines && l.journal == j
    {
      var i :| 0 <= i < |queue| && queue[i] == j;
      assert lines[i] in lines && lines[i].journal == j;
    }
  }

  predicate LinesAccepted(headers: map<int, Header>, lines: seq<Line>) {
    forall l :: l in lines ==> LineOk(l) && l.journal in headers
  }

  ghost predicate LinesBalanced(db: Db, lines: seq<Line>) {
    forall l :: l in lines ==> Balanced(db, l.journal)
  }

  /** The transaction that inserts one header and then `lines`, in that order. */
  function Posting(id: int, h: Header, lines: seq<Line>): seq<Op> {
    [InsertHeader(id, h)] + InsertLines(lines)
  }

  lemma PostingRuns(db: Db, id: int, h: Header, lines: seq<Line>)
    requires HeaderOk(h) && id !in db.headers
    ensures ExecAll(Session(db, []), Posting(id, h, lines)).Ok? <==> LinesAccepted(db.headers[id := h], lines)
    ensures ExecAll(Session(db, []), Posting(id, h, lines)).Ok? ==>
              ExecAll(Session(db, []), Posting(id, h, lines)).value
              == Session(Db(db.headers[id := h], db.lines + lines), JournalsInOrder(lines))
  {
    var s := Session(db.(headers := db.headers[id := h]), []);
    assert Posting(id, h, lines)[1..] == InsertLines(lines);
    assert Exec(Session(db, []), Posting(id, h, lines)[0]) == Ok(s);
    InsertsSucceedIff(s, lines);
    assert s.queue + JournalsInOrder(lines) == JournalsInOrder(lines);
  }

  /** Exactly when a header and its lines, inserted in this order, are committed. */
  lemma PostingCommitsIff(db: Db, id: int, h: Header, lines: seq<Line>)
    requires WellFormed(db)
    ensures Transact(db, Posting(id, h, lines)).Ok? <==>
              && HeaderOk(h) && id !in db.headers
              && LinesAccepted(db.headers[id := h], lines)
              && LinesBalanced(Db(db.headers[id := h], db.lines + lines), lines)
    ensures Transact(db, Posting(id, h, lines)).Ok? ==>
              Transact(db, Posting(id, h, lines)).value == Db(db.headers[id := h], db.lines + lines)
  {
    if HeaderOk(h) && id !in db.headers {
      PostingRuns(db, id, h, lines);
      if LinesAccepted(db.headers[id := h], lines) {
        QueueIsLines(Db(db.headers[id := h], db.lines + lines), lines);
      }
    }
  }

  /** Because the check is deferred, the order in which the lines are inserted never decides the outcome. */
  lemma DeferralIsOrderIndependent(db: Db, id: int, h: Header, lines: seq<Line>, shuffled: seq<Line>)
    requires WellFormed(db) && multiset(lines) == multiset(shuffled)
    ensures Transact(db, Posting(id, h, lines)).Ok? <==> Transact(db, Posting(id, h, shuffled)).Ok?
  {
    PostingCommitsIff(db, id, h, lines);
    PostingCommitsIff(db, id, h, shuffled);
    forall l
      ensures l in lines <==> l in shuffled
    {
      assert l in lines <==> l in multiset(lines);
      assert l in shuffled <==> l in multiset(shuffled);
    }
    var headers := db.headers[id := h];
    assert multiset(db.lines + lines) == multiset(db.lines + shuffled);
    forall j
      ensures Balanced(Db(headers, db.lines + lines), j) <==> Balanced(Db(headers, db.lines + shuffled), j)
    {
      GroupPermutation(db.lines + lines, db.lines + shuffled, JournalOf, DebitOf, j);
      GroupPermutation(db.lines + lines, db.lines + shuffled, JournalOf, CreditOf, j);
    }
  }

  // ---------------------------------------------------------------- what the trigger does not cover

  predicate Deletes(ops: seq<Op>) { forall op :: op in ops ==> op.DeleteLine? }

  lemma {:induction false} DeletesQueueNothing(s: Session, ops: seq<Op>)
    requires Deletes(ops)
    ensures ExecAll(s, ops).Ok? && ExecAll(s, ops).value.queue == s.queue
    decreases |ops|
  {
    if ops != [] {
      assert ops[0] in ops;
      DeletesQueueNothing(Exec(s, ops[0]).value, ops[1..]);
    }
  }

  /** DELETE queues no trigger: deletions always commit, and keep the balance exactly if they take whole journals. */
  lemma DeletionsKeepBalanceIff(db: Db, ops: seq<Op>)
    requires WellFormed(db) && AllBalanced(db) && Deletes(ops)
    ensures Transact(db, ops).Ok?
    ensures AllBalanced(After(db, ops)) <==> forall j :: AllOrNone(db, After(db, ops), j)
  {
    DeletesQueueNothing(Session(db, []), ops);
    assert Checked(db, ops) == [];
    TransactionKeepsBalanceIff(db, ops);
    assert forall j: int :: j !in Checked(db, ops);
  }

  /** A balanced journal never consists of one line, so deleting one line unbalances it. */
  lemma DeletionAlwaysUnbalances(db: Db, row: nat)
    requires WellFormed(db) && AllBalanced(db) && row < |db.lines|
    ensures Transact(db, [DeleteLine(row)]).Ok?
    ensures !AllBalanced(Transact(db, [DeleteLine(row)]).value)
  {
    var gone := db.lines[row];
    var end := db.(lines := db.lines[..row] + db.lines[row + 1..]);
    assert ExecAll(Session(end, []), [DeleteLine(row)][1..]) == Ok(Session(end, []));
    DeletionsKeepBalanceIff(db, [DeleteLine(row)]);
    assert After(db, [DeleteLine(row)]) == end;
    OtherLine(db, row);
    GroupRemove(db.lines, row, JournalOf, OneOf, gone.journal);
    assert !AllOrNone(db, end, gone.journal);
  }

  /** Beside any line a balanced journal has another one. */
  lemma OtherLine(db: Db, row: nat)
    requires WellFormed(db) && AllBalanced(db) && row < |db.lines|
    ensures LineCount(db, db.lines[row].journal) > 1
  {
    var l := db.lines[row];
    assert LineOk(l);
    BothSides(db, l);
    var other :| other in db.lines && other.journal == l.journal
                 && (if l.debit > 0 then other.credit > 0 else other.debit > 0);
    var rest := db.(lines := db.lines[..row] + db.lines[row + 1..]);
    var i :| 0 <= i < |db.lines| && db.lines[i] == other;
    assert i != row && LineOk(other);
    assert other == if i < row then rest.lines[i] else rest.lines[i - 1];
    CountPositive(rest, other);
    GroupRemove(db.lines, row, JournalOf, OneOf, l.journal);
  }

  /** A transaction that only moves one line to another journal never commits: the new journal is checked and is off. */
  lemma LoneMoveAlwaysAborts(db: Db, row: nat, j: int)
    requires WellFormed(db) && AllBalanced(db) && row < |db.lines| && j != db.lines[row].journal
    ensures Transact(db, [MoveLine(row, j)]).Err?
  {
    var moved := db.lines[row].(journal := j);
    var end := db.(lines := db.lines[row := moved]);
    assert LineOk(db.lines[row]);
    if j in db.headers {
      var s := Session(end, [] + [j]);
      assert ExecAll(s, [MoveLine(row, j)][1..]) == Ok(s);
      assert ExecAll(Session(db, []), [MoveLine(row, j)]) == Ok(s);
      GroupUpdate(db.lines, row, moved, JournalOf, DebitOf, j);
      GroupUpdate(db.lines, row, moved, JournalOf, CreditOf, j);
      if l :| l in db.lines && l.journal == j {
        assert Balanced(db, j);
      } else {
        NoLineNoSum(db.lines, j);
      }
      assert !Balanced(end, j);
      assert CommitVerdict(end, s.queue) == Verdict(end, j);
    }
  }

  /** Takes a debit line away to a new journal, where one new line makes up for it. */
  function MoveAway(row: nat, j: int, amount: int, account: int): seq<Op> {
    [InsertHeader(j, Header(amount, amount)), MoveLine(row, j), InsertLine(Line(j, account, 0, amount))]
  }

  function Moved(db: Db, row: nat, j: int, account: int): Db
    requires row < |db.lines|
  {
    var l := db.lines[row];
    Db(db.headers[j := Header(l.debit, l.debit)],
       db.lines[row := l.(journal := j)] + [Line(j, account, 0, l.debit)])
  }

  lemma MoveAwayRuns(db: Db, row: nat, j: int, account: int)
    requires WellFormed(db) && row < |db.lines| && db.lines[row].debit > 0 && j !in db.headers
    ensures ExecAll(Session(db, []), MoveAway(row, j, db.lines[row].debit, account))
         == Ok(Session(Moved(db, row, j, account), [j, j]))
    ensures WellFormed(Moved(db, row, j, account))
  {
    var l := db.lines[row];
    assert LineOk(l);
    var ops := MoveAway(row, j, l.debit, account);
    var a := Session(db.(headers := db.headers[j := Header(l.debit, l.debit)]), []);
    var b := Session(a.db.(lines := db.lines[row := l.(journal := j)]), [j]);
    assert [] + [j] == [j];
    assert Exec(a, ops[1]) == Ok(b);
    assert ops[1..][1..] == [ops[2]] && [ops[2]][1..] == [];
    assert [j] + [j] == [j, j];
    assert ExecAll(b, [ops[2]]) == Ok(Session(Moved(db, row, j, account), [j, j]));
    assert ExecAll(a, ops[1..]) == ExecAll(b, [ops[2]]);
  }

  /**
   * An UPDATE checks the line's new journal only: from any balanced ledger a debit line can be moved out, and the
   * trial balance is lost.
   */
  lemma MoveCanUnbalance(db: Db, row: nat, j: int, account: int)
    requires WellFormed(db) && AllBalanced(db) && row < |db.lines| && db.lines[row].debit > 0 && j !in db.headers
    ensures var r := Transact(db, MoveAway(row, j, db.lines[row].debit, account));
            && r.Ok? && !AllBalanced(r.value)
            && Total(r.value.lines, DebitOf) < Total(r.value.lines, CreditOf)
  {
    var l, end := db.lines[row], Moved(db, row, j, account);
    var out, extra := l.(journal := j), Line(j, account, 0, l.debit);
    assert LineOk(l);
    MoveAwayRuns(db, row, j, account);
    NoLineNoSum(db.lines, j);
    GroupUpdate(db.lines, row, out, JournalOf, DebitOf, j);
    GroupUpdate(db.lines, row, out, JournalOf, CreditOf, j);
    GroupAppend(db.lines[row := out], extra, JournalOf, DebitOf, j);
    GroupAppend(db.lines[row := out], extra, JournalOf, CreditOf, j);
    CommitPassesIff(end, [j, j]);
    MovedLosesPart(db, row, j, account);
    TransactionKeepsBalanceIff(db, MoveAway(row, j, l.debit, account));
    TrialBalance(db);
    TotalUpdate(db.lines, row, out, DebitOf);
    TotalUpdate(db.lines, row, out, CreditOf);
    TotalAppend(db.lines[row := out], extra, DebitOf);
    TotalAppend(db.lines[row := out], extra, CreditOf);
  }

  /** The journal the line came from is not checked, and keeps its other lines. */
  lemma MovedLosesPart(db: Db, row: nat, j: int, account: int)
    requires WellFormed(db) && AllBalanced(db) && row < |db.lines| && j !in db.headers
    ensures !AllOrNone(db, Moved(db, row, j, account), db.lines[row].journal) && db.lines[row].journal != j
  {
    var l := db.lines[row];
    OtherLine(db, row);
    GroupUpdate(db.lines, row, l.(journal := j), JournalOf, OneOf, l.journal);
    GroupAppend(db.lines[row := l.(journal := j)], Line(j, account, 0, l.debit), JournalOf, OneOf, l.journal);
  }

  lemma {:induction false} NoLineNoSum(rows: seq<Line>, j: int)
    requires forall l :: l in rows ==> l.journal != j
    ensures Group(rows, JournalOf, DebitOf, j) == 0 && Group(rows, JournalOf, CreditOf, j) == 0
  {
    if rows != [] {
      NoLineNoSum(rows[..|rows| - 1], j);
    }
  }
}
