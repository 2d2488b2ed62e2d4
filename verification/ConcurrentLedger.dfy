/**
 * The deferred balance check when transactions overlap. At READ COMMITTED each session sees what is
 * committed and its own rows; the check and the moment its rows become visible are two steps. A session
 * inserts headers and lines and changes amounts of committed lines; rows it changes are locked.
 */
module ConcurrentLedger {
  import opened Prelude
  import opened Sums
  import opened Ledger
  import opened LedgerProofs

  /**
   * The open transaction of one session. Once checked it holds what was committed then, kept for the statements
   * only.
   */
  datatype Work = Work(headers: map<int, Header>, lines: seq<Line>, changed: map<nat, Line>, checked: Option<Db>)

  datatype State = State(db: Db, sessions: seq<Work>)

  datatype Action =
    | AddHeader(i: nat, id: int, header: Header)
    | AddLine(i: nat, line: Line)
    | ChangeAmounts(i: nat, row: nat, debit: int, credit: int)
    | Check(i: nat) | Publish(i: nat) | Abort(i: nat)

  const IDLE: Work := Work(map[], [], map[], None)

  /** The lines with the changed ones in place. */
  function Overwrite(lines: seq<Line>, changed: map<nat, Line>): seq<Line> {
    seq(|lines|, k requires 0 <= k < |lines| => if k in changed then changed[k] else lines[k])
  }

  /** What a session sees, and what its commit leaves. */
  function View(db: Db, w: Work): Db { Db(db.headers + w.headers, Overwrite(db.lines, w.changed) + w.lines) }

  /** The journals whose rows the session wrote. */
  predicate Touches(w: Work, j: int) {
    (exists l :: l in w.lines && l.journal == j) || exists row :: row in w.changed && w.changed[row].journal == j
  }

  ghost predicate HasLines(db: Db, j: int) { exists l :: l in db.lines && l.journal == j }

  /** Nobody else has an uncommitted header with this id. */
  predicate IdFree(s: State, i: nat, id: int) {
    forall k :: 0 <= k < |s.sessions| && k != i ==> id !in s.sessions[k].headers
  }

  predicate RowFree(s: State, i: nat, row: nat) {
    forall k :: 0 <= k < |s.sessions| && k != i ==> row !in s.sessions[k].changed
  }

  /** With `whole`, a header that is committed without lines never gets any: lines come with their header. */
  ghost predicate Enabled(whole: bool, s: State, a: Action) {
    && a.i < |s.sessions|
    && var w := s.sessions[a.i];
       match a
       case AddHeader(i, id, h) =>
         w.checked.None? && HeaderOk(h) && id !in s.db.headers && id !in w.headers && IdFree(s, i, id)
       case AddLine(_, l) =>
         w.checked.None? && LineOk(l) && (l.journal in s.db.headers || l.journal in w.headers)
         && (whole ==> l.journal in w.headers || HasLines(s.db, l.journal))
       case ChangeAmounts(i, row, d, c) =>
         && w.checked.None? && row < |s.db.lines| && RowFree(s, i, row)
         && LineOk(s.db.lines[row].(debit := d, credit := c))
       case Check(_) => w.checked.None? && forall j :: Touches(w, j) ==> Balanced(View(s.db, w), j)
       case Publish(_) => w.checked.Some?
       case Abort(_) => true
  }

  ghost function Next(whole: bool, s: State, a: Action): State
    requires Enabled(whole, s, a)
  {
    var w := s.sessions[a.i];
    match a
    case AddHeader(i, id, h) => s.(sessions := s.sessions[i := w.(headers := w.headers[id := h])])
    case AddLine(i, l) => s.(sessions := s.sessions[i := w.(lines := w.lines + [l])])
    case ChangeAmounts(i, row, d, c) =>
      s.(sessions := s.sessions[i := w.(changed := w.changed[row := s.db.lines[row].(debit := d, credit := c)])])
    case Check(i) => s.(sessions := s.sessions[i := w.(checked := Some(s.db))])
    case Publish(i) => State(View(s.db, w), s.sessions[i := IDLE])
    case Abort(i) => s.(sessions := s.sessions[i := IDLE])
  }

  // ---------------------------------------------------------------- runs

  predicate Init(n: nat, s: State) {
    s.db == EMPTY && |s.sessions| == n && forall i :: 0 <= i < n ==> s.sessions[i] == IDLE
  }

  ghost predicate Step(whole: bool, s: State, t: State) { exists a :: Enabled(whole, s, a) && t == Next(whole, s, a) }

  ghost predicate IsRun(whole: bool, n: nat, run: seq<State>) {
    |run| > 0 && Init(n, run[0]) && forall k :: 0 <= k < |run| - 1 ==> Step(whole, run[k], run[k + 1])
  }

  function Last(run: seq<State>): State
    requires |run| > 0
  {
    run[|run| - 1]
  }

  lemma LastStep(whole: bool, n: nat, run: seq<State>) returns (front: seq<State>, a: Action)
    requires IsRun(whole, n, run) && |run| > 1
    ensures front == run[..|run| - 1] && IsRun(whole, n, front)
    ensures Enabled(whole, Last(front), a) && Last(run) == Next(whole, Last(front), a)
  {
    front := run[..|run| - 1];
    assert forall k :: 0 <= k < |front| - 1 ==> Step(whole, run[k], run[k + 1]);
    assert Step(whole, run[|run| - 2], run[|run| - 2 + 1]);
    assert Step(whole, Last(front), Last(run));
    a :| Enabled(whole, Last(front), a) && Last(run) == Next(whole, Last(front), a);
  }

  // ---------------------------------------------------------------- each statement is the serial one on the view

  /**
   * While nobody else has the id, a header is accepted exactly if the serial statement accepts it on the session's
   * view.
   */
  lemma HeaderIsSerial(s: State, i: nat, id: int, h: Header, queue: seq<int>)
    requires i < |s.sessions| && s.sessions[i].checked == None
    requires forall k :: 0 <= k < |s.sessions| && k != i ==> id !in s.sessions[k].headers
    ensures var serial := Exec(Session(View(s.db, s.sessions[i]), queue), InsertHeader(id, h));
            && (Enabled(false, s, AddHeader(i, id, h)) <==> serial.Ok?)
            && (serial.Ok? ==>
                  var t := Next(false, s, AddHeader(i, id, h));
                  t.db == s.db && View(t.db, t.sessions[i]) == serial.value.db)
  {
    var w := s.sessions[i];
    if Enabled(false, s, AddHeader(i, id, h)) {
      assert (s.db.headers + w.headers)[id := h] == s.db.headers + w.headers[id := h];
    }
  }

  lemma LineIsSerial(s: State, i: nat, l: Line, queue: seq<int>)
    requires i < |s.sessions| && s.sessions[i].checked == None
    ensures var serial := Exec(Session(View(s.db, s.sessions[i]), queue), InsertLine(l));
            && (Enabled(false, s, AddLine(i, l)) <==> serial.Ok?)
            && (serial.Ok? ==>
                  var t := Next(false, s, AddLine(i, l));
                  t.db == s.db && View(t.db, t.sessions[i]) == serial.value.db)
  {
    var w := s.sessions[i];
    assert Overwrite(s.db.lines, w.changed) + (w.lines + [l]) == Overwrite(s.db.lines, w.changed) + w.lines + [l];
  }

  /** New amounts for a committed line that nobody else has changed. */
  lemma AmountsAreSerial(s: State, i: nat, row: nat, debit: int, credit: int, queue: seq<int>)
    requires i < |s.sessions| && s.sessions[i].checked == None && row < |s.db.lines| && WellFormed(s.db)
    requires forall k :: 0 <= k < |s.sessions| && k != i ==> row !in s.sessions[k].changed
    requires row in s.sessions[i].changed ==>
               s.sessions[i].changed[row].journal == s.db.lines[row].journal
               && s.sessions[i].changed[row].account == s.db.lines[row].account
    ensures var serial := Exec(Session(View(s.db, s.sessions[i]), queue), SetAmounts(row, debit, credit));
            && (Enabled(false, s, ChangeAmounts(i, row, debit, credit)) <==> serial.Ok?)
            && (serial.Ok? ==>
                  var t := Next(false, s, ChangeAmounts(i, row, debit, credit));
                  t.db == s.db && View(t.db, t.sessions[i]) == serial.value.db)
  {
    var w := s.sessions[i];
    var l := s.db.lines[row].(debit := debit, credit := credit);
    assert s.db.lines[row] in s.db.lines;
    assert View(s.db, w).lines[row].(debit := debit, credit := credit) == l;
    assert Overwrite(s.db.lines, w.changed[row := l]) == Overwrite(s.db.lines, w.changed)[row := l];
    assert (Overwrite(s.db.lines, w.changed) + w.lines)[row := l]
        == Overwrite(s.db.lines, w.changed)[row := l] + w.lines;
  }

  /** The check passes exactly if the serial trigger passes for every journal the session wrote, in any order. */
  lemma CheckIsSerial(s: State, i: nat, queue: seq<int>)
    requires i < |s.sessions| && s.sessions[i].checked == None && WellFormed(View(s.db, s.sessions[i]))
    requires forall j :: j in queue <==> Touches(s.sessions[i], j)
    ensures Enabled(false, s, Check(i)) <==> CommitVerdict(View(s.db, s.sessions[i]), queue).Pass?
  {
    CommitPassesIff(View(s.db, s.sessions[i]), queue);
  }

  // ---------------------------------------------------------------- what a session adds to a journal's sums

  function Shift(lines: seq<Line>, changed: map<nat, Line>, value: Line -> int, j: int): int {
    if lines == [] then 0
    else
      var n := |lines| - 1;
      Shift(lines[..n], changed, value, j)
      + if n in changed && lines[n].journal == j then value(changed[n]) - value(lines[n]) else 0
  }

  /** Changed lines stay in their journals. */
  predicate SameJournals(lines: seq<Line>, changed: map<nat, Line>) {
    forall row :: row in changed ==> row < |lines| && changed[row].journal == lines[row].journal
  }

  lemma {:induction false} OverwriteShifts(lines: seq<Line>, changed: map<nat, Line>, value: Line -> int, j: int)
    requires forall row :: row in changed && row < |lines| ==> changed[row].journal == lines[row].journal
    ensures Group(Overwrite(lines, changed), JournalOf, value, j)
         == Group(lines, JournalOf, value, j) + Shift(lines, changed, value, j)
  {
    if lines != [] {
      var n := |lines| - 1;
      OverwriteShifts(lines[..n], changed, value, j);
      assert Overwrite(lines, changed)[..n] == Overwrite(lines[..n], changed);
    }
  }

  lemma {:induction false} GroupConcat(a: seq<Line>, b: seq<Line>, value: Line -> int, j: int)
    ensures Group(a + b, JournalOf, value, j) == Group(a, JournalOf, value, j) + Group(b, JournalOf, value, j)
    decreases |b|
  {
    if b == [] {
      assert a + b == a;
    } else {
      var n := |b| - 1;
      GroupConcat(a, b[..n], value, j);
      assert (a + b)[..|a + b| - 1] == a + b[..n];
    }
  }

  /** What the session's rows add to a sum over the journal. */
  function Adds(lines: seq<Line>, w: Work, value: Line -> int, j: int): int {
    Shift(lines, w.changed, value, j) + Group(w.lines, JournalOf, value, j)
  }

  lemma ViewAdds(db: Db, w: Work, value: Line -> int, j: int)
    requires SameJournals(db.lines, w.changed)
    ensures Group(View(db, w).lines, JournalOf, value, j)
         == Group(db.lines, JournalOf, value, j) + Adds(db.lines, w, value, j)
  {
    OverwriteShifts(db.lines, w.changed, value, j);
    GroupConcat(Overwrite(db.lines, w.changed), w.lines, value, j);
  }

  /** Row locks: what others commit does not change what a session adds. */
  lemma {:induction false} ShiftStable(
      lines: seq<Line>, more: seq<Line>, changed: map<nat, Line>, value: Line -> int, j: int)
    requires |lines| <= |more| && forall row :: row in changed ==> row < |lines| && more[row] == lines[row]
    ensures Shift(more, changed, value, j) == Shift(lines, changed, value, j)
    decreases |more|
  {
    if more != [] {
      var n := |more| - 1;
      if n in changed {
        var rest := map row | row in changed && row != n :: changed[row];
        ShiftBelow(more[..n], changed, rest, value, j);
        ShiftBelow(lines[..n], changed, rest, value, j);
        ShiftStable(lines[..n], more[..n], rest, value, j);
      } else {
        ShiftTop(lines, changed, value, j, n);
        ShiftStable(if n < |lines| then lines[..n] else lines, more[..n], changed, value, j);
      }
    }
  }

  /** Only changes within the lines count. */
  lemma {:induction false} ShiftBelow(
      lines: seq<Line>, a: map<nat, Line>, b: map<nat, Line>, value: Line -> int, j: int)
    requires forall row :: row < |lines| ==> (row in a <==> row in b) && (row in a ==> a[row] == b[row])
    ensures Shift(lines, a, value, j) == Shift(lines, b, value, j)
  {
    if lines != [] {
      ShiftBelow(lines[..|lines| - 1], a, b, value, j);
    }
  }

  lemma ShiftTop(lines: seq<Line>, changed: map<nat, Line>, value: Line -> int, j: int, n: nat)
    requires n !in changed
    ensures n < |lines| && n == |lines| - 1 ==> Shift(lines, changed, value, j) == Shift(lines[..n], changed, value, j)
  {
  }

  /** A session that wrote no row of a journal leaves its sums. */
  lemma {:induction false} UntouchedShift(lines: seq<Line>, changed: map<nat, Line>, value: Line -> int, j: int)
    requires forall row :: row in changed && row < |lines| ==> lines[row].journal != j
    ensures Shift(lines, changed, value, j) == 0
  {
    if lines != [] {
      UntouchedShift(lines[..|lines| - 1], changed, value, j);
    }
  }

  lemma {:induction false} NoLineGroup(lines: seq<Line>, value: Line -> int, j: int)
    requires forall l :: l in lines ==> l.journal != j
    ensures Group(lines, JournalOf, value, j) == 0
  {
    if lines != [] {
      NoLineGroup(lines[..|lines| - 1], value, j);
    }
  }

  lemma UntouchedView(db: Db, w: Work, j: int)
    requires SameJournals(db.lines, w.changed) && !Touches(w, j)
    ensures LinesDebit(View(db, w), j) == LinesDebit(db, j) && LinesCredit(View(db, w), j) == LinesCredit(db, j)
  {
    forall value: Line -> int
      ensures Group(View(db, w).lines, JournalOf, value, j) == Group(db.lines, JournalOf, value, j)
    {
      ViewAdds(db, w, value, j);
      UntouchedShift(db.lines, w.changed, value, j);
      NoLineGroup(w.lines, value, j);
    }
  }

  // ---------------------------------------------------------------- the invariant

  /** A session's rows are sound, locked, and its own. */
  predicate WorkOk(s: State, i: nat)
    requires i < |s.sessions|
  {
    var w := s.sessions[i];
    && (forall id :: id in w.headers ==> HeaderOk(w.headers[id]) && id !in s.db.headers && IdFree(s, i, id))
    && (forall l :: l in w.lines ==> LineOk(l) && (l.journal in s.db.headers || l.journal in w.headers))
    && SameJournals(s.db.lines, w.changed)
    && (forall row :: row in w.changed ==> LineOk(w.changed[row]) && RowFree(s, i, row))
  }

  /** Since its check a session's rows are as they were, and every other line is still in its journal. */
  ghost predicate Grown(past: Db, db: Db, w: Work) {
    && WellFormed(past) && |past.lines| <= |db.lines|
    && (forall k :: 0 <= k < |past.lines| ==> db.lines[k].journal == past.lines[k].journal)
    && (forall row :: row in w.changed ==> row < |past.lines| && db.lines[row] == past.lines[row])
    && (forall id :: id in past.headers ==> id in db.headers && db.headers[id] == past.headers[id])
  }

  /** The check passed on what was committed at the time. */
  ghost predicate CheckedOk(db: Db, w: Work) {
    w.checked.Some? ==>
      Grown(w.checked.value, db, w) && forall j :: Touches(w, j) ==> Balanced(View(w.checked.value, w), j)
  }

  /** What every run keeps, balanced or not. */
  ghost predicate Orderly(s: State) {
    WellFormed(s.db) && forall i: nat :: i < |s.sessions| ==> WorkOk(s, i) && CheckedOk(s.db, s.sessions[i])
  }

  lemma ViewLines(db: Db, w: Work, l: Line)
    requires l in View(db, w).lines && SameJournals(db.lines, w.changed)
    ensures l in w.lines || l in db.lines || exists row :: row in w.changed && w.changed[row] == l
    ensures Touches(w, l.journal) || HasLines(db, l.journal)
  {
    var k :| 0 <= k < |View(db, w).lines| && View(db, w).lines[k] == l;
    if k < |db.lines| && k !in w.changed {
      assert db.lines[k] == l;
    } else if k >= |db.lines| {
      assert l == w.lines[k - |db.lines|];
    }
  }

  lemma ViewWellFormed(s: State, i: nat)
    requires Orderly(s) && i < |s.sessions|
    ensures WellFormed(View(s.db, s.sessions[i]))
  {
    var w := s.sessions[i];
    var end := View(s.db, w);
    assert WorkOk(s, i);
    forall l | l in end.lines
      ensures LineOk(l) && l.journal in end.headers
    {
      ViewLines(s.db, w, l);
      if row :| row in w.changed && w.changed[row] == l {
        assert s.db.lines[row] in s.db.lines;
      }
    }
  }

  lemma PublishWork(whole: bool, s: State, i: nat, k: nat)
    requires Enabled(whole, s, Publish(i)) && k < |s.sessions| && k != i && WorkOk(s, i) && WorkOk(s, k)
    ensures WorkOk(Next(whole, s, Publish(i)), k)
  {
    var t := Next(whole, s, Publish(i));
    var w := s.sessions[k];
    forall id | id in w.headers
      ensures id !in t.db.headers && IdFree(t, k, id)
    {
      assert IdFree(s, k, id);
    }
    forall row | row in w.changed
      ensures RowFree(t, k, row) && t.db.lines[row].journal == s.db.lines[row].journal
    {
      assert RowFree(s, k, row);
    }
  }

  lemma PublishGrows(s: State, i: nat, k: nat, past: Db)
    requires i < |s.sessions| && k < |s.sessions| && k != i && WorkOk(s, i) && WorkOk(s, k)
    requires Grown(past, s.db, s.sessions[k])
    ensures Grown(past, View(s.db, s.sessions[i]), s.sessions[k])
  {
    assert forall row :: row in s.sessions[k].changed ==> RowFree(s, k, row);
  }

  /** A commit makes the view the database, and leaves the other sessions' rows and checks as they are. */
  lemma PublishOrderly(whole: bool, s: State, i: nat)
    requires Orderly(s) && Enabled(whole, s, Publish(i))
    ensures Orderly(Next(whole, s, Publish(i)))
  {
    var t := Next(whole, s, Publish(i));
    ViewWellFormed(s, i);
    forall k: nat | k < |t.sessions|
      ensures WorkOk(t, k) && CheckedOk(t.db, t.sessions[k])
    {
      if k != i {
        PublishWork(whole, s, i, k);
        if s.sessions[k].checked.Some? {
          PublishGrows(s, i, k, s.sessions[k].checked.value);
        }
      }
    }
  }

  lemma LocalWork(whole: bool, s: State, a: Action, k: nat)
    requires Enabled(whole, s, a) && !a.Publish? && k < |s.sessions| && WorkOk(s, k) && WorkOk(s, a.i)
    ensures WorkOk(Next(whole, s, a), k)
  {
    var t := Next(whole, s, a);
    var w := t.sessions[k];
    forall id | id in w.headers
      ensures IdFree(t, k, id)
    {
      assert id in s.sessions[k].headers ==> IdFree(s, k, id);
    }
    forall row | row in w.changed
      ensures RowFree(t, k, row)
    {
      assert row in s.sessions[k].changed ==> RowFree(s, k, row);
    }
  }

  lemma CheckChecks(whole: bool, s: State, i: nat)
    requires Orderly(s) && Enabled(whole, s, Check(i))
    ensures CheckedOk(s.db, Next(whole, s, Check(i)).sessions[i])
  {
    var w := s.sessions[i];
    var w' := w.(checked := Some(s.db));
    assert WorkOk(s, i);
    assert View(s.db, w') == View(s.db, w);
    assert forall j :: Touches(w', j) <==> Touches(w, j);
  }

  lemma LocalOrderly(whole: bool, s: State, a: Action)
    requires Orderly(s) && Enabled(whole, s, a) && !a.Publish?
    ensures Orderly(Next(whole, s, a))
  {
    var t := Next(whole, s, a);
    forall k: nat | k < |t.sessions|
      ensures WorkOk(t, k)
    {
      LocalWork(whole, s, a, k);
    }
    forall k: nat | k < |t.sessions|
      ensures CheckedOk(t.db, t.sessions[k])
    {
      assert CheckedOk(s.db, s.sessions[k]);
      if a.Check? && k == a.i {
        CheckChecks(whole, s, a.i);
      }
    }
  }

  lemma {:induction false} AlwaysOrderly(whole: bool, n: nat, run: seq<State>)
    requires IsRun(whole, n, run)
    ensures Orderly(Last(run)) && |Last(run).sessions| == n
    decreases |run|
  {
    if |run| > 1 {
      var front, a := LastStep(whole, n, run);
      AlwaysOrderly(whole, n, front);
      if a.Publish? {
        PublishOrderly(whole, Last(front), a.i);
      } else {
        LocalOrderly(whole, Last(front), a);
      }
    }
  }

  // ---------------------------------------------------------------- one commit

  /** What others committed since the check does not change what a session adds to a journal. */
  lemma SameShare(past: Db, db: Db, w: Work, value: Line -> int, j: int)
    requires Grown(past, db, w) && SameJournals(db.lines, w.changed)
    ensures Group(View(db, w).lines, JournalOf, value, j) - Group(db.lines, JournalOf, value, j)
         == Group(View(past, w).lines, JournalOf, value, j) - Group(past.lines, JournalOf, value, j)
  {
    ViewAdds(db, w, value, j);
    ViewAdds(past, w, value, j);
    ShiftStable(past.lines, db.lines, w.changed, value, j);
  }

  lemma SumsMove(past: Db, db: Db, w: Work, j: int)
    requires Grown(past, db, w) && SameJournals(db.lines, w.changed)
    ensures LinesDebit(View(db, w), j) - LinesDebit(db, j) == LinesDebit(View(past, w), j) - LinesDebit(past, j)
    ensures LinesCredit(View(db, w), j) - LinesCredit(db, j) == LinesCredit(View(past, w), j) - LinesCredit(past, j)
  {
    SameShare(past, db, w, DebitOf, j);
    SameShare(past, db, w, CreditOf, j);
  }

  lemma HeaderStays(past: Db, db: Db, w: Work, j: int)
    requires Grown(past, db, w) && j in View(past, w).headers
    ensures j in View(db, w).headers && View(db, w).headers[j] == View(past, w).headers[j]
  {
  }

  predicate SameSums(past: Db, db: Db, j: int) {
    LinesDebit(db, j) == LinesDebit(past, j) && LinesCredit(db, j) == LinesCredit(past, j)
  }

  /** A check that passed would pass again exactly for the journals whose committed sums are what they were. */
  lemma CheckedStaysIff(db: Db, w: Work, j: int)
    requires w.checked.Some? && CheckedOk(db, w) && SameJournals(db.lines, w.changed) && Touches(w, j)
    ensures Balanced(View(db, w), j) <==> SameSums(w.checked.value, db, j)
  {
    assert Balanced(View(w.checked.value, w), j);
    SumsMove(w.checked.value, db, w, j);
    HeaderStays(w.checked.value, db, w, j);
  }

  lemma TouchedHasLine(db: Db, w: Work, j: int) returns (l: Line)
    requires SameJournals(db.lines, w.changed) && Touches(w, j)
    ensures l in View(db, w).lines && l.journal == j
  {
    if l' :| l' in w.lines && l'.journal == j {
      l := l';
      var k :| 0 <= k < |w.lines| && w.lines[k] == l;
      assert View(db, w).lines[|db.lines| + k] == l;
    } else {
      var row :| row in w.changed && w.changed[row].journal == j;
      l := w.changed[row];
      assert View(db, w).lines[row] == l;
    }
  }

  /**
   * From a balanced ledger a commit keeps it balanced exactly if every journal it wrote still sums to what it did
   * at the check.
   */
  lemma CommitKeepsBalanceIff(db: Db, w: Work)
    requires w.checked.Some? && CheckedOk(db, w) && SameJournals(db.lines, w.changed)
    requires AllBalanced(db) && forall id :: id in w.headers ==> !HasLines(db, id)
    ensures AllBalanced(View(db, w)) <==> forall j :: Touches(w, j) ==> SameSums(w.checked.value, db, j)
  {
    var end := View(db, w);
    forall j | Touches(w, j)
      ensures Balanced(end, j) <==> SameSums(w.checked.value, db, j)
      ensures AllBalanced(end) ==> Balanced(end, j)
    {
      CheckedStaysIff(db, w, j);
      var l := TouchedHasLine(db, w, j);
      assert AllBalanced(end) ==> Balanced(end, l.journal);
    }
    forall l | l in end.lines && !Touches(w, l.journal)
      ensures Balanced(end, l.journal)
    {
      ViewLines(db, w, l);
      UntouchedView(db, w, l.journal);
      var l0 :| l0 in db.lines && l0.journal == l.journal;
      assert Balanced(db, l0.journal) && l0.journal !in w.headers;
    }
  }

  lemma LinesHaveSum(db: Db, j: int)
    requires WellFormed(db) && AllBalanced(db)
    ensures HasLines(db, j) <==> LinesDebit(db, j) > 0
    ensures !HasLines(db, j) ==> LinesDebit(db, j) == LinesCredit(db, j) == 0
    ensures HasLines(db, j) ==> Balanced(db, j)
  {
    if HasLines(db, j) {
      var l :| l in db.lines && l.journal == j;
      var i :| 0 <= i < |db.lines| && db.lines[i] == l;
      GroupAtLeast(db.lines, i, JournalOf, DebitOf);
      GroupAtLeast(db.lines, i, JournalOf, CreditOf);
      assert LineOk(l) && Balanced(db, l.journal) && HeaderOk(db.headers[j]);
    } else {
      NoLineGroup(db.lines, DebitOf, j);
      NoLineGroup(db.lines, CreditOf, j);
    }
  }

  lemma LinesRemain(past: Db, db: Db, w: Work, j: int)
    requires Grown(past, db, w) && HasLines(past, j)
    ensures HasLines(db, j)
  {
    var l :| l in past.lines && l.journal == j;
    var k :| 0 <= k < |past.lines| && past.lines[k] == l;
    assert db.lines[k] in db.lines && db.lines[k].journal == j;
  }

  /** Between two balanced states a journal's sums change exactly if it gets its first lines. */
  lemma SumsChangeIff(past: Db, db: Db, w: Work, j: int)
    requires Grown(past, db, w) && WellFormed(db) && AllBalanced(past) && AllBalanced(db)
    ensures SameSums(past, db, j) <==> (HasLines(db, j) ==> HasLines(past, j))
  {
    LinesHaveSum(past, j);
    LinesHaveSum(db, j);
    if HasLines(past, j) {
      LinesRemain(past, db, w, j);
    }
  }

  /** No journal that the session wrote, and whose header it did not insert, got its first lines after the check. */
  ghost predicate Stands(db: Db, w: Work) {
    w.checked.Some? ==>
      forall j :: Touches(w, j) && j !in w.headers && HasLines(db, j) ==> HasLines(w.checked.value, j)
  }

  lemma OwnHeadersBare(s: State, i: nat)
    requires Orderly(s) && i < |s.sessions|
    ensures forall id :: id in s.sessions[i].headers ==> !HasLines(s.db, id)
  {
    assert WorkOk(s, i);
  }

  /** The same condition in terms of lines, where the check ran on a balanced ledger too. */
  lemma PublishKeepsBalanceIff(whole: bool, s: State, i: nat)
    requires Orderly(s) && Enabled(whole, s, Publish(i))
    requires AllBalanced(s.db) && AllBalanced(s.sessions[i].checked.value)
    ensures AllBalanced(Next(whole, s, Publish(i)).db) <==> Stands(s.db, s.sessions[i])
  {
    var w := s.sessions[i];
    assert WorkOk(s, i) && CheckedOk(s.db, w);
    OwnHeadersBare(s, i);
    CommitKeepsBalanceIff(s.db, w);
    forall j
      ensures SameSums(w.checked.value, s.db, j) <==> (HasLines(s.db, j) ==> HasLines(w.checked.value, j))
    {
      SumsChangeIff(w.checked.value, s.db, w, j);
    }
  }

  // ---------------------------------------------------------------- every run

  ghost predicate BalancedThroughout(run: seq<State>) { forall k :: 0 <= k < |run| ==> AllBalanced(run[k].db) }

  ghost predicate PublishesTo(whole: bool, s: State, i: nat, t: State) {
    Enabled(whole, s, Publish(i)) && t == Next(whole, s, Publish(i))
  }

  /** Every commit of the run is one after which the check still stands. */
  ghost predicate CommitsStand(whole: bool, run: seq<State>) {
    forall k, i: nat :: 0 <= k < |run| - 1 && PublishesTo(whole, run[k], i, run[k + 1]) ==>
      Stands(run[k].db, run[k].sessions[i])
  }

  ghost predicate ChecksBalanced(s: State) {
    forall i :: 0 <= i < |s.sessions| && s.sessions[i].checked.Some? ==> AllBalanced(s.sessions[i].checked.value)
  }

  lemma FrontAndLast(whole: bool, run: seq<State>, front: seq<State>)
    requires |run| > 1 && front == run[..|run| - 1]
    ensures BalancedThroughout(run) <==> BalancedThroughout(front) && AllBalanced(Last(run).db)
    ensures CommitsStand(whole, run) <==>
              && CommitsStand(whole, front)
              && forall i: nat :: PublishesTo(whole, Last(front), i, Last(run)) ==>
                  Stands(Last(front).db, Last(front).sessions[i])
  {
    assert forall k :: 0 <= k < |front| ==> front[k] == run[k];
    assert Last(front) == run[|run| - 2] && Last(run) == run[|run| - 2 + 1];
  }

  /**
   * Exactly which runs, of any number of sessions and whatever their posting rule, stay balanced: those in
   * which no commit writes a journal of another header that got its first lines after the check.
   */
  lemma {:induction false} AlwaysBalancedIff(whole: bool, n: nat, run: seq<State>)
    requires IsRun(whole, n, run)
    ensures BalancedThroughout(run) <==> CommitsStand(whole, run)
    ensures BalancedThroughout(run) ==> ChecksBalanced(Last(run))
    decreases |run|
  {
    if |run| > 1 {
      var front, a := LastStep(whole, n, run);
      var s, t := Last(front), Last(run);
      AlwaysBalancedIff(whole, n, front);
      AlwaysOrderly(whole, n, front);
      FrontAndLast(whole, run, front);
      if BalancedThroughout(front) {
        assert AllBalanced(s.db);
        forall i: nat | PublishesTo(whole, s, i, t)
          ensures AllBalanced(t.db) <==> Stands(s.db, s.sessions[i])
        {
          PublishKeepsBalanceIff(whole, s, i);
        }
        assert a.Publish? ==> PublishesTo(whole, s, a.i, t);
        assert !a.Publish? ==> t.db == s.db;
      }
    }
  }

  // ---------------------------------------------------------------- lines that come with their header

  /** Every journal the session added lines to came with it, or had committed lines. */
  ghost predicate Whole(db: Db, w: Work) {
    forall l :: l in w.lines ==> l.journal in w.headers || HasLines(db, l.journal)
  }

  /** Under the posting rule that is so at the check too; with one session nothing is committed after the check. */
  ghost predicate Ruled(whole: bool, s: State) {
    && (whole ==> forall i :: 0 <= i < |s.sessions| ==>
          Whole(s.db, s.sessions[i])
          && (s.sessions[i].checked.Some? ==> Whole(s.sessions[i].checked.value, s.sessions[i])))
    && (|s.sessions| <= 1 ==> forall i :: 0 <= i < |s.sessions| && s.sessions[i].checked.Some? ==>
          s.sessions[i].checked.value == s.db)
  }

  lemma StillHasLines(db: Db, w: Work, j: int)
    requires SameJournals(db.lines, w.changed) && HasLines(db, j)
    ensures HasLines(View(db, w), j)
  {
    var l :| l in db.lines && l.journal == j;
    var k :| 0 <= k < |db.lines| && db.lines[k] == l;
    assert View(db, w).lines[k].journal == j && View(db, w).lines[k] in View(db, w).lines;
  }

  lemma RuledStep(whole: bool, s: State, a: Action)
    requires Orderly(s) && Ruled(whole, s) && Enabled(whole, s, a)
    ensures Ruled(whole, Next(whole, s, a))
  {
    var t := Next(whole, s, a);
    forall k | 0 <= k < |t.sessions| && whole
      ensures Whole(t.db, t.sessions[k])
    {
      assert Whole(s.db, s.sessions[k]);
      if a.Publish? {
        assert WorkOk(s, a.i);
        forall l | l in t.sessions[k].lines && l.journal !in t.sessions[k].headers
          ensures HasLines(t.db, l.journal)
        {
          StillHasLines(s.db, s.sessions[a.i], l.journal);
        }
      }
    }
  }

  lemma {:induction false} AlwaysRuled(whole: bool, n: nat, run: seq<State>)
    requires IsRun(whole, n, run)
    ensures Ruled(whole, Last(run))
    decreases |run|
  {
    if |run| > 1 {
      var front, a := LastStep(whole, n, run);
      AlwaysRuled(whole, n, front);
      AlwaysOrderly(whole, n, front);
      RuledStep(whole, Last(front), a);
    }
  }

  /** Under the rule, or with one session, every check stands. */
  lemma RuledStands(whole: bool, s: State, i: nat)
    requires Orderly(s) && Ruled(whole, s) && i < |s.sessions| && (whole || |s.sessions| <= 1)
    ensures Stands(s.db, s.sessions[i])
  {
    var w := s.sessions[i];
    assert CheckedOk(s.db, w) && WorkOk(s, i);
    if w.checked.Some? && whole {
      forall j | Touches(w, j) && j !in w.headers
        ensures HasLines(w.checked.value, j)
      {
        if row :| row in w.changed && w.changed[row].journal == j {
          assert w.checked.value.lines[row] in w.checked.value.lines;
        } else {
          var l :| l in w.lines && l.journal == j;
          assert Whole(w.checked.value, w);
        }
      }
    }
  }

  lemma EveryCheckStands(whole: bool, n: nat, run: seq<State>, k: nat, i: nat)
    requires IsRun(whole, n, run) && (whole || n <= 1) && k < |run| && i < |run[k].sessions|
    ensures Stands(run[k].db, run[k].sessions[i])
  {
    var part := run[..k + 1];
    assert forall j :: 0 <= j < |part| ==> part[j] == run[j];
    assert forall j :: 0 <= j < |part| - 1 ==> Step(whole, run[j], run[j + 1]);
    AlwaysOrderly(whole, n, part);
    AlwaysRuled(whole, n, part);
    RuledStands(whole, run[k], i);
  }

  lemma RuledBalanced(whole: bool, n: nat, run: seq<State>)
    requires IsRun(whole, n, run) && (whole || n <= 1)
    ensures BalancedThroughout(run)
  {
    forall k, i: nat | 0 <= k < |run| - 1 && PublishesTo(whole, run[k], i, run[k + 1])
      ensures Stands(run[k].db, run[k].sessions[i])
    {
      EveryCheckStands(whole, n, run, k, i);
    }
    AlwaysBalancedIff(whole, n, run);
  }

  // ---------------------------------------------------------------- two postings to one header

  /** A state at the end of a run. */
  ghost predicate Reached(whole: bool, n: nat, s: State) { exists run :: IsRun(whole, n, run) && Last(run) == s }

  lemma Advance(whole: bool, n: nat, s: State, a: Action) returns (t: State)
    requires Reached(whole, n, s) && Enabled(whole, s, a)
    ensures Reached(whole, n, t) && t == Next(whole, s, a)
  {
    var run :| IsRun(whole, n, run) && Last(run) == s;
    t := Next(whole, s, a);
    var longer := run + [t];
    forall k | 0 <= k < |longer| - 1
      ensures Step(whole, longer[k], longer[k + 1])
    {
      assert k < |run| - 1 ==> longer[k] == run[k] && longer[k + 1] == run[k + 1] && Step(whole, run[k], run[k + 1]);
    }
    assert IsRun(whole, n, longer) && Last(longer) == t;
  }

  const TEN: Header := Header(10, 10)
  const DEBIT: Line := Line(1, 1, 10, 0)
  const CREDIT: Line := Line(1, 2, 0, 10)
  const POSTED: Work := Work(map[], [DEBIT, CREDIT], map[], Some(BARE))
  const BARE: Db := Db(map[1 := TEN], [])

  lemma HeaderAlone(n: nat) returns (s: State)
    requires n >= 2
    ensures Reached(false, n, s) && s == State(BARE, seq(n, _ => IDLE))
  {
    var start := State(EMPTY, seq(n, _ => IDLE));
    assert IsRun(false, n, [start]) && Last([start]) == start;
    s := start;
    s := Advance(false, n, s, AddHeader(0, 1, TEN));
    s := Advance(false, n, s, Check(0));
    s := Advance(false, n, s, Publish(0));
    assert s.sessions == start.sessions;
    assert s.db == BARE;
  }

  predicate Pair(lines: seq<Line>) { |lines| == 2 && lines[0] == DEBIT && lines[1] == CREDIT }

  lemma PairSum(lines: seq<Line>, value: Line -> int)
    requires Pair(lines)
    ensures Group(lines, JournalOf, value, 1) == value(DEBIT) + value(CREDIT)
  {
    GroupAppend([], DEBIT, JournalOf, value, 1);
    GroupAppend([DEBIT], CREDIT, JournalOf, value, 1);
    assert [] + [DEBIT] == [DEBIT] && [DEBIT] + [CREDIT] == lines;
  }

  lemma PostedOnceSums(db: Db)
    requires Pair(db.lines)
    ensures LinesDebit(db, 1) == LinesCredit(db, 1) == 10
  {
    PairSum(db.lines, DebitOf);
    PairSum(db.lines, CreditOf);
  }

  lemma PostedTwiceSums(db: Db, a: seq<Line>, b: seq<Line>)
    requires Pair(a) && Pair(b) && db.lines == a + b
    ensures LinesDebit(db, 1) == LinesCredit(db, 1) == 20
  {
    PairSum(a, DebitOf);
    PairSum(b, DebitOf);
    PairSum(a, CreditOf);
    PairSum(b, CreditOf);
    GroupConcat(a, b, DebitOf, 1);
    GroupConcat(a, b, CreditOf, 1);
  }

  /** A session posts both lines and its check passes: it sees nothing of the other's. */
  lemma Post(n: nat, s: State, i: nat) returns (t: State)
    requires Reached(false, n, s) && i < |s.sessions| && s.sessions[i] == IDLE && s.db == BARE
    ensures Reached(false, n, t) && t == s.(sessions := s.sessions[i := POSTED])
  {
    t := Advance(false, n, s, AddLine(i, DEBIT));
    t := Advance(false, n, t, AddLine(i, CREDIT));
    var w := t.sessions[i];
    assert [] + [DEBIT] + [CREDIT] == [DEBIT, CREDIT];
    assert View(BARE, w).lines == [DEBIT, CREDIT];
    PostedOnceSums(View(BARE, w));
    assert forall j :: Touches(w, j) ==> j == 1;
    t := Advance(false, n, t, Check(i));
    assert t.sessions == s.sessions[i := POSTED];
  }

  /** Both commit, and the journal holds twice what its header says. */
  lemma PostedTwice(n: nat) returns (s: State)
    requires n >= 2
    ensures Reached(false, n, s) && !AllBalanced(s.db)
    ensures LinesDebit(s.db, 1) == 20 && s.db.headers == map[1 := TEN]
  {
    s := HeaderAlone(n);
    s := Post(n, s, 0);
    s := Post(n, s, 1);
    s := Advance(false, n, s, Publish(0));
    assert s.db == Db(map[1 := TEN], [DEBIT, CREDIT]);
    s := Advance(false, n, s, Publish(1));
    var end := s.db;
    assert Overwrite([DEBIT, CREDIT], map[]) == [DEBIT, CREDIT];
    assert end.lines == [DEBIT, CREDIT] + [DEBIT, CREDIT] && end.headers == map[1 := TEN];
    PostedTwiceSums(end, [DEBIT, CREDIT], [DEBIT, CREDIT]);
    assert end.lines[0] == DEBIT && !Balanced(end, 1);
  }

  /** Under the posting rule a header and its lines are committed together. */
  lemma PostedWithHeader(n: nat) returns (s: State)
    requires n >= 1
    ensures Reached(true, n, s) && s.db == Db(map[1 := TEN], [DEBIT, CREDIT])
  {
    s := HeaderWithLines(n);
    var w := s.sessions[0];
    assert View(EMPTY, w) == Db(map[1 := TEN], [DEBIT, CREDIT]);
    PostedOnceSums(View(EMPTY, w));
    assert forall j :: Touches(w, j) ==> j == 1;
    s := Advance(true, n, s, Check(0));
    s := Advance(true, n, s, Publish(0));
  }

  lemma HeaderWithLines(n: nat) returns (s: State)
    requires n >= 1
    ensures Reached(true, n, s) && s.db == EMPTY && |s.sessions| == n
    ensures s.sessions[0] == Work(map[1 := TEN], [DEBIT, CREDIT], map[], None)
  {
    var start := State(EMPTY, seq(n, _ => IDLE));
    assert IsRun(true, n, [start]) && Last([start]) == start;
    s := Advance(true, n, start, AddHeader(0, 1, TEN));
    s := Advance(true, n, s, AddLine(0, DEBIT));
    s := Advance(true, n, s, AddLine(0, CREDIT));
    assert [] + [DEBIT] + [CREDIT] == [DEBIT, CREDIT];
  }

  /**
   * The ledger is balanced in every committed state of every run exactly if lines are first posted by the
   * transaction that inserts their header, or there is one session.
   */
  lemma BalancedIff(whole: bool, n: nat)
    ensures (forall run :: IsRun(whole, n, run) ==> AllBalanced(Last(run).db)) <==> whole || n <= 1
  {
    if whole || n <= 1 {
      forall run | IsRun(whole, n, run)
        ensures AllBalanced(Last(run).db)
      {
        RuledBalanced(whole, n, run);
      }
    } else {
      var s := PostedTwice(n);
      var run :| IsRun(whole, n, run) && Last(run) == s;
      assert !AllBalanced(Last(run).db);
    }
  }

  /** Under that rule the trial balance holds in every committed state, however transactions overlap. */
  lemma TrialBalanceUnderOverlap(n: nat, run: seq<State>)
    requires IsRun(true, n, run)
    ensures var db := Last(run).db;
            && Total(db.lines, DebitOf) == Total(db.lines, CreditOf)
            && GroupsTotal(Accounts(db.lines), db.lines, AccountOf, NetOf) == 0
  {
    RuledBalanced(true, n, run);
    AlwaysOrderly(true, n, run);
    TrialBalance(Last(run).db);
  }
}
