/**
 * The BEFORE UPDATE trigger on installments that charges the flat late fee and records its
 * allocation to a charity, and the ledger service's own recording of late fees, which writes the same
 * table. The flat fee is 150.00 rupees, held in paisa. An UPDATE may change any column.
 */
module LateFees {
  import opened Prelude
  import opened Sums

  const LATE_FEE: int := 15000

  /** NUMERIC(14, 2) in paisa. */
  const NUMERIC_LIMIT: int := 100_000_000_000_000

  /** An installment is named by its index. */
  datatype Installment = Installment(loan: int, status: string, dueDate: int, daysOverdue: int, lateFee: int)

  datatype Allocation = Allocation(installment: nat, loan: int, amount: int, charity: int)

  datatype Charity = Charity(active: bool, approved: bool)

  /** The posted installments are those that have a late-fee journal entry. */
  datatype Db = Db(
    installments: seq<Installment>, allocations: seq<Allocation>, charities: map<int, Charity>, posted: set<nat>)

  datatype DbError = UniqueViolation | NotFound | NoCharity | BadAmount | NumericOverflow

  /** One row of an UPDATE with its new columns; `charity` is the row LIMIT 1 returns when some charity qualifies. */
  datatype RowWrite = RowWrite(row: nat, updated: Installment, charity: int)

  datatype Step =
    | AddInstallment(installment: Installment)
    | SetCharity(id: int, charity: Charity)
    | UpdateRows(today: int, writes: seq<RowWrite>)
    | RecordLateFee(row: nat, amount: int)

  predicate Eligible(db: Db, charity: int) {
    charity in db.charities && db.charities[charity].active && db.charities[charity].approved
  }

  ghost predicate SomeEligible(db: Db) { exists c :: Eligible(db, c) }

  predicate Allocated(db: Db, row: nat) {
    exists k :: 0 <= k < |db.allocations| && db.allocations[k].installment == row
  }

  predicate EntersOverdue(before: Installment, updated: Installment) {
    before.status != "overdue" && updated.status == "overdue"
  }

  function Charged(updated: Installment, today: int): Installment {
    updated.(daysOverdue := today - updated.dueDate, lateFee := LATE_FEE)
  }

  /** One row of the UPDATE with its trigger: the insert takes no row when no charity qualifies. */
  ghost function WriteRow(db: Db, today: int, w: RowWrite): Result<Db, DbError> {
    if w.row >= |db.installments| then Ok(db)
    else if !EntersOverdue(db.installments[w.row], w.updated) then
      Ok(db.(installments := db.installments[w.row := w.updated]))
    else if !SomeEligible(db) then
      Ok(db.(installments := db.installments[w.row := Charged(w.updated, today)]))
    else if Allocated(db, w.row) then Err(UniqueViolation)
    else
      Ok(db.(installments := db.installments[w.row := Charged(w.updated, today)],
             allocations := db.allocations + [Allocation(w.row, w.updated.loan, LATE_FEE, w.charity)]))
  }

  ghost function WriteRows(db: Db, today: int, writes: seq<RowWrite>): Result<Db, DbError>
    decreases |writes|
  {
    if writes == [] then Ok(db)
    else
      match WriteRow(db, today, writes[0])
      case Ok(d) => WriteRows(d, today, writes[1..])
      case Err(e) => Err(e)
  }

  /** The active charity with the lowest id; the ledger service does not ask whether the board approved it. */
  predicate IsDefault(db: Db, charity: int) {
    && charity in db.charities && db.charities[charity].active
    && forall c :: c in db.charities && db.charities[c].active ==> charity <= c
  }

  ghost predicate SomeActive(db: Db) { exists c :: c in db.charities && db.charities[c].active }

  /**
   * The ledger service records a late fee: a journal entry and an allocation in one transaction. The entry is
   * looked for first, and one that exists makes the call do nothing.
   */
  ghost function Record(db: Db, row: nat, amount: int): Result<Db, DbError> {
    if row >= |db.installments| then Err(NotFound)
    else if !SomeActive(db) then Err(NoCharity)
    else if amount <= 0 then Err(BadAmount)
    else if row in db.posted then Ok(db)
    else if amount >= NUMERIC_LIMIT then Err(NumericOverflow)
    else if Allocated(db, row) then Err(UniqueViolation)
    else
      DefaultExists(db);
      var charity :| IsDefault(db, charity);
      Ok(db.(allocations := db.allocations + [Allocation(row, db.installments[row].loan, amount, charity)],
             posted := db.posted + {row}))
  }

  predicate Lowest(ids: set<int>, id: int) { id in ids && forall d :: d in ids ==> id <= d }

  lemma {:induction false} LowestExists(ids: set<int>, some: int)
    requires some in ids
    ensures exists c :: Lowest(ids, c)
    decreases ids
  {
    var rest := ids - {some};
    assert ids == rest + {some};
    if other :| other in rest {
      LowestExists(rest, other);
      var low :| Lowest(rest, low);
      assert Lowest(ids, if some < low then some else low);
    } else {
      assert Lowest(ids, some);
    }
  }

  lemma DefaultExists(db: Db)
    requires SomeActive(db)
    ensures exists c :: IsDefault(db, c)
  {
    var active := set c | c in db.charities && db.charities[c].active;
    var some :| some in db.charities && db.charities[some].active;
    LowestExists(active, some);
    var c :| Lowest(active, c);
    assert forall d :: d in db.charities && db.charities[d].active ==> d in active;
    assert IsDefault(db, c);
  }

  ghost function RunStep(db: Db, step: Step): Result<Db, DbError> {
    match step
    case AddInstallment(i) => Ok(db.(installments := db.installments + [i]))
    case SetCharity(id, c) => Ok(db.(charities := db.charities[id := c]))
    case UpdateRows(today, writes) => WriteRows(db, today, writes)
    case RecordLateFee(row, amount) => Record(db, row, amount)
  }

  ghost function After(db: Db, step: Step): Db {
    match RunStep(db, step) case Ok(d) => d case Err(_) => db
  }

  ghost function History(start: Db, steps: seq<Step>): Db {
    if steps == [] then start else After(History(start, steps[..|steps| - 1]), steps[|steps| - 1])
  }

  /** The tables, the UPDATE that runs the trigger on each of its rows, and the ledger service's transaction. */
  class Database {
    var installments: seq<Installment>
    var allocations: seq<Allocation>
    var charities: map<int, Charity>
    var posted: set<nat>

    ghost function Contents(): Db
      reads this
    {
      Db(installments, allocations, charities, posted)
    }

    /** The trigger: what it stores for the row `updated` that is about to replace row `id`. */
    method FnApplyLateFee(id: nat, updated: Installment, today: int)
      returns (r: Result<Installment, DbError>, ghost pick: int)
      requires id < |installments|
      modifies this`allocations
      ensures (exists c :: c in charities && charities[c].active && charities[c].approved) ==>
                pick in charities && charities[pick].active && charities[pick].approved
      ensures r.Err? <==>
                && EntersOverdue(installments[id], updated)
                && SomeEligible(old(Contents())) && Allocated(old(Contents()), id)
      ensures r.Ok? ==>
                if installments[id].status != "overdue" && updated.status == "overdue" then
                  && r.value.dueDate + r.value.daysOverdue == today && r.value.lateFee == 15000
                  && r.value == updated.(daysOverdue := r.value.daysOverdue, lateFee := r.value.lateFee)
                else r.value == updated
      ensures allocations == old(allocations)
                + if r.Ok? && installments[id].status != "overdue" && updated.status == "overdue"
                     && (exists c :: c in charities && charities[c].active && charities[c].approved)
                  then [Allocation(id, updated.loan, 15000, pick)] else []
      ensures match WriteRow(old(Contents()), today, RowWrite(id, updated, pick))
              case Ok(d) => r.Ok? && d == Contents().(installments := installments[id := r.value])
              case Err(e) => r == Err(e) && Contents() == old(Contents())
    {
      assert forall c :: Eligible(Contents(), c) <==> c in charities && charities[c].active && charities[c].approved;
      pick := if exists c :: Eligible(Contents(), c) then var c :| Eligible(Contents(), c); c else 0;
      var stored := updated;
      if installments[id].status != "overdue" && stored.status == "overdue" {
        var daysOverdue := today - stored.dueDate;
        var lateFee := LATE_FEE;
        stored := stored.(daysOverdue := daysOverdue, lateFee := lateFee);
        if charity :| charity in charities && charities[charity].active && charities[charity].approved {
          pick := charity;
          assert Eligible(old(Contents()), charity);
          if exists k :: 0 <= k < |allocations| && allocations[k].installment == id {
            return Err(UniqueViolation), pick;
          }
          allocations := allocations + [Allocation(id, stored.loan, lateFee, charity)];
        }
      }
      r := Ok(stored);
    }

    /** An UPDATE that gives each of these rows its new columns; a unique violation undoes the whole statement. */
    method Update(today: int, rows: seq<(nat, Installment)>) returns (r: Outcome<DbError>, ghost writes: seq<RowWrite>)
      modifies this
      ensures r.Pass? ==> |writes| == |rows|
      ensures |writes| <= |rows|
      ensures forall k :: 0 <= k < |writes| ==> writes[k].row == rows[k].0 && writes[k].updated == rows[k].1
      ensures forall k :: 0 <= k < |writes| && SomeEligible(old(Contents())) ==>
                Eligible(old(Contents()), writes[k].charity)
      ensures match WriteRows(old(Contents()), today, writes)
              case Ok(d) => r.Pass? && Contents() == d
              case Err(e) => r == Fail(e) && Contents() == old(Contents())
    {
      var savedInstallments, savedAllocations := installments, allocations;
      writes := [];
      var i := 0;
      while i < |rows|
        invariant 0 <= i <= |rows| && |writes| == i
        invariant WriteRows(old(Contents()), today, writes) == Ok(Contents())
        invariant charities == old(charities) && posted == old(posted)
        invariant savedInstallments == old(installments) && savedAllocations == old(allocations)
        invariant forall k :: 0 <= k < i ==> Writes(old(Contents()), writes[k], rows[k])
      {
        var (id, updated) := rows[i];
        ghost var before := Contents();
        assert forall c :: Eligible(before, c) <==> Eligible(old(Contents()), c);
        ghost var pick := if exists c :: Eligible(before, c) then var c :| Eligible(before, c); c else 0;
        if id < |installments| {
          var stored;
          stored, pick := FnApplyLateFee(id, updated, today);
          WritesAppend(old(Contents()), today, writes, RowWrite(id, updated, pick));
          writes := writes + [RowWrite(id, updated, pick)];
          match stored {
            case Ok(row) => installments := installments[id := row];
            case Err(e) =>
              installments, allocations := savedInstallments, savedAllocations;
              return Fail(e), writes;
          }
        } else {
          WritesAppend(old(Contents()), today, writes, RowWrite(id, updated, pick));
          writes := writes + [RowWrite(id, updated, pick)];
        }
        i := i + 1;
      }
      r := Pass;
    }

    method DefaultCharity() returns (charity: Option<int>)
      ensures charity.None? <==> !SomeActive(Contents())
      ensures charity.Some? ==> IsDefault(Contents(), charity.value)
    {
      charity := None;
      if c :| c in charities && charities[c].active && forall d :: d in charities && charities[d].active ==> c <= d {
        charity := Some(c);
      } else if SomeActive(Contents()) {
        DefaultExists(Contents());
        assert false;
      }
    }

    /** The entry is flushed before its allocation, and a unique violation on the allocation takes the entry back. */
    method RecordLateFee(id: nat, amount: int) returns (r: Outcome<DbError>)
      modifies this`allocations, this`posted
      ensures match Record(old(Contents()), id, amount)
              case Ok(d) => r.Pass? && Contents() == d
              case Err(e) => r == Fail(e) && Contents() == old(Contents())
      ensures r.Pass? <==>
                && id < |installments| && (exists c :: c in charities && charities[c].active) && amount > 0
                && (id in old(posted)
                    || (amount < 100_000_000_000_000
                        && forall k :: 0 <= k < |old(allocations)| ==> old(allocations)[k].installment != id))
      ensures r.Pass? ==>
                if id in old(posted) then allocations == old(allocations) && posted == old(posted)
                else
                  && posted == old(posted) + {id} && |allocations| == |old(allocations)| + 1
                  && var a := allocations[|old(allocations)|];
                     && allocations == old(allocations) + [a]
                     && a == Allocation(id, installments[id].loan, amount, a.charity)
                     && a.charity in charities && charities[a.charity].active
                     && forall c :: c in charities && charities[c].active ==> a.charity <= c
    {
      if id >= |installments| {
        return Fail(NotFound);
      }
      var charity := DefaultCharity();
      if charity.None? {
        return Fail(NoCharity);
      }
      if amount <= 0 {
        return Fail(BadAmount);
      }
      if id in posted {
        return Pass;
      }
      if amount >= NUMERIC_LIMIT {
        return Fail(NumericOverflow);
      }
      var saved := posted;
      posted := posted + {id};
      if exists k :: 0 <= k < |allocations| && allocations[k].installment == id {
        posted := saved;
        return Fail(UniqueViolation);
      }
      allocations := allocations + [Allocation(id, installments[id].loan, amount, charity.value)];
      r := Pass;
    }
  }

  ghost predicate Writes(db: Db, w: RowWrite, row: (nat, Installment)) {
    w.row == row.0 && w.updated == row.1 && (SomeEligible(db) ==> Eligible(db, w.charity))
  }

  lemma {:induction false} WritesAppend(db: Db, today: int, writes: seq<RowWrite>, w: RowWrite)
    requires WriteRows(db, today, writes).Ok?
    ensures WriteRows(db, today, writes + [w]) == WriteRow(WriteRows(db, today, writes).value, today, w)
    decreases |writes|
  {
    if writes == [] {
      assert ([w])[1..] == [];
      assert [] + [w] == [w];
    } else {
      WritesAppend(WriteRow(db, today, writes[0]).value, today, writes[1..], w);
      assert (writes + [w])[1..] == writes[1..] + [w];
    }
  }

  // ---------------------------------------------------------------- the books

  function FeeOf(i: Installment): int { i.lateFee }

  function AmountOf(a: Allocation): int { a.amount }

  /** A fee is either not charged or the flat fee; an allocation is the fee of its installment, at most one each. */
  ghost predicate Consistent(db: Db) {
    && (forall i :: 0 <= i < |db.installments| ==> db.installments[i].lateFee in {0, LATE_FEE})
    && (forall k :: 0 <= k < |db.allocations| ==> AllocationOk(db, db.allocations[k]))
    && (forall j, k :: 0 <= j < k < |db.allocations| ==> db.allocations[j].installment != db.allocations[k].installment)
  }

  ghost predicate AllocationOk(db: Db, a: Allocation) {
    a.installment < |db.installments| && a.amount == LATE_FEE == db.installments[a.installment].lateFee
  }

  /** Installments that carry a fee which no charity has been allocated. */
  ghost function Unfunded(db: Db): set<nat> {
    set i: nat | i < |db.installments| && db.installments[i].lateFee == LATE_FEE && !Allocated(db, i)
  }

  ghost function Fees(db: Db): int { Total(db.installments, FeeOf) }

  ghost function Donated(db: Db): int { Total(db.allocations, AmountOf) }

  /** The books of the late fees: what was charged is what was allocated plus one fee per unfunded installment. */
  ghost predicate Accounted(db: Db) {
    Consistent(db) && Fees(db) == Donated(db) + LATE_FEE * |Unfunded(db)|
  }

  /** The row's new fee is one the books allow: none or the flat one, and the flat one if it is allocated. */
  predicate FeeAllowed(db: Db, row: nat, fee: int) { fee in {0, LATE_FEE} && (Allocated(db, row) ==> fee == LATE_FEE) }

  lemma RowConsistent(db: Db, row: nat, i: Installment)
    requires Consistent(db) && row < |db.installments| && FeeAllowed(db, row, i.lateFee)
    ensures Consistent(db.(installments := db.installments[row := i]))
  {
    var d := db.(installments := db.installments[row := i]);
    forall k | 0 <= k < |d.allocations|
      ensures AllocationOk(d, d.allocations[k])
    {
      assert AllocationOk(db, db.allocations[k]);
      assert d.allocations[k].installment == row ==> Allocated(db, row);
    }
  }

  lemma RowUnfunded(db: Db, row: nat, i: Installment)
    requires row < |db.installments|
    ensures Unfunded(db.(installments := db.installments[row := i]))
         == if i.lateFee == LATE_FEE && !Allocated(db, row) then Unfunded(db) + {row} else Unfunded(db) - {row}
  {
    var d := db.(installments := db.installments[row := i]);
    assert forall r: nat :: Allocated(d, r) <==> Allocated(db, r);
  }

  lemma AllocatedFee(db: Db, row: nat)
    requires Consistent(db) && Allocated(db, row)
    ensures row < |db.installments| && db.installments[row].lateFee == LATE_FEE
  {
    var k :| 0 <= k < |db.allocations| && db.allocations[k].installment == row;
    assert AllocationOk(db, db.allocations[k]);
  }

  /**
   * Whether a row is unfunded says what its fee is, if it is not allocated, and how the count of the others
   * changes.
   */
  lemma UnfundedCount(db: Db, row: nat)
    requires Consistent(db) && row < |db.installments|
    ensures !Allocated(db, row) ==>
              db.installments[row].lateFee == if row in Unfunded(db) then LATE_FEE else 0
    ensures Allocated(db, row) ==> row !in Unfunded(db) && db.installments[row].lateFee == LATE_FEE
    ensures |Unfunded(db) - {row}| == |Unfunded(db)| - if row in Unfunded(db) then 1 else 0
    ensures |Unfunded(db) + {row}| == |Unfunded(db)| + if row in Unfunded(db) then 0 else 1
  {
    assert db.installments[row].lateFee in {0, LATE_FEE};
    assert row in Unfunded(db) ==> Unfunded(db) + {row} == Unfunded(db);
    assert row !in Unfunded(db) ==> Unfunded(db) - {row} == Unfunded(db);
    if Allocated(db, row) {
      AllocatedFee(db, row);
    }
  }

  lemma RowUpdate(db: Db, row: nat, i: Installment)
    requires Accounted(db) && row < |db.installments| && FeeAllowed(db, row, i.lateFee)
    ensures var d := db.(installments := db.installments[row := i]);
            && Accounted(d)
            && Unfunded(d)
               == if i.lateFee == LATE_FEE && !Allocated(db, row) then Unfunded(db) + {row} else Unfunded(db) - {row}
  {
    var d := db.(installments := db.installments[row := i]);
    TotalUpdate(db.installments, row, i, FeeOf);
    RowConsistent(db, row, i);
    RowUnfunded(db, row, i);
    UnfundedCount(db, row);
    assert Fees(d) == Fees(db) - db.installments[row].lateFee + i.lateFee && Donated(d) == Donated(db);
  }

  lemma RowBroken(db: Db, row: nat, i: Installment)
    requires Accounted(db) && row < |db.installments| && !FeeAllowed(db, row, i.lateFee)
    ensures !Accounted(db.(installments := db.installments[row := i]))
  {
    var d := db.(installments := db.installments[row := i]);
    assert d.installments[row] == i;
    if i.lateFee in {0, LATE_FEE} {
      var k :| 0 <= k < |db.allocations| && db.allocations[k].installment == row;
      assert d.allocations[k] == db.allocations[k] && !AllocationOk(d, d.allocations[k]);
    }
  }

  lemma AllocatedConsistent(db: Db, row: nat, i: Installment, a: Allocation)
    requires Consistent(db) && row < |db.installments| && !Allocated(db, row)
    requires a.installment == row && a.amount == LATE_FEE == i.lateFee
    ensures Consistent(db.(installments := db.installments[row := i], allocations := db.allocations + [a]))
  {
    var d := db.(installments := db.installments[row := i], allocations := db.allocations + [a]);
    forall k | 0 <= k < |d.allocations|
      ensures AllocationOk(d, d.allocations[k])
    {
      if k < |db.allocations| {
        assert AllocationOk(db, db.allocations[k]);
      }
    }
  }

  lemma AllocatedUnfunded(db: Db, row: nat, i: Installment, a: Allocation)
    requires row < |db.installments| && a.installment == row
    ensures var d := db.(installments := db.installments[row := i], allocations := db.allocations + [a]);
            && Unfunded(d) == Unfunded(db) - {row}
            && forall r: nat :: Allocated(d, r) <==> Allocated(db, r) || r == row
  {
    var d := db.(installments := db.installments[row := i], allocations := db.allocations + [a]);
    assert d.allocations[|db.allocations|] == a;
    assert forall k :: 0 <= k < |db.allocations| ==> d.allocations[k] == db.allocations[k];
    assert forall r: nat :: Allocated(d, r) <==> Allocated(db, r) || r == row;
  }

  lemma AllocatedTotals(db: Db, row: nat, i: Installment, a: Allocation)
    requires row < |db.installments|
    ensures var d := db.(installments := db.installments[row := i], allocations := db.allocations + [a]);
            Fees(d) == Fees(db) - db.installments[row].lateFee + i.lateFee && Donated(d) == Donated(db) + a.amount
  {
    TotalUpdate(db.installments, row, i, FeeOf);
    TotalAppend(db.allocations, a, AmountOf);
  }

  lemma ChargedWithCharity(db: Db, row: nat, i: Installment, charity: int)
    requires Accounted(db) && row < |db.installments| && !Allocated(db, row) && i.lateFee == LATE_FEE
    ensures var d := db.(installments := db.installments[row := i],
                         allocations := db.allocations + [Allocation(row, i.loan, LATE_FEE, charity)]);
            Accounted(d) && Unfunded(d) == Unfunded(db) - {row}
  {
    var a := Allocation(row, i.loan, LATE_FEE, charity);
    AllocatedTotals(db, row, i, a);
    AllocatedConsistent(db, row, i, a);
    AllocatedUnfunded(db, row, i, a);
    UnfundedCount(db, row);
  }

  /** What the write may do to the fee: the trigger sets it, or the statement leaves one the books allow. */
  predicate FeeOk(db: Db, w: RowWrite) {
    w.row < |db.installments| && !EntersOverdue(db.installments[w.row], w.updated) ==>
      FeeAllowed(db, w.row, w.updated.lateFee)
  }

  /** Exactly when an UPDATE of a row, whatever its columns, keeps the books. */
  lemma WriteRowAccountsIff(db: Db, today: int, w: RowWrite)
    requires Accounted(db) && WriteRow(db, today, w).Ok?
    ensures Accounted(WriteRow(db, today, w).value) <==> FeeOk(db, w)
    ensures WriteRow(db, today, w).value.charities == db.charities
  {
    if w.row < |db.installments| {
      if !EntersOverdue(db.installments[w.row], w.updated) {
        if FeeOk(db, w) {
          RowUpdate(db, w.row, w.updated);
        } else {
          RowBroken(db, w.row, w.updated);
        }
      } else if !SomeEligible(db) {
        RowUpdate(db, w.row, Charged(w.updated, today));
      } else {
        ChargedWithCharity(db, w.row, Charged(w.updated, today), w.charity);
      }
    }
  }

  /** The installments left unfunded: one more only where a fee appears that no charity is allocated. */
  lemma WriteRowUnfunded(db: Db, today: int, w: RowWrite)
    requires Accounted(db) && WriteRow(db, today, w).Ok? && FeeOk(db, w)
    ensures var d := WriteRow(db, today, w).value;
            if w.row >= |db.installments| then Unfunded(d) == Unfunded(db)
            else if EntersOverdue(db.installments[w.row], w.updated) && SomeEligible(db)
            then Unfunded(d) == Unfunded(db) - {w.row}
            else if !Allocated(db, w.row)
                    && (EntersOverdue(db.installments[w.row], w.updated) || w.updated.lateFee == LATE_FEE)
            then Unfunded(d) == Unfunded(db) + {w.row}
            else Unfunded(d) == Unfunded(db) - {w.row}
  {
    if w.row < |db.installments| {
      if !EntersOverdue(db.installments[w.row], w.updated) {
        RowUpdate(db, w.row, w.updated);
      } else if !SomeEligible(db) {
        RowUpdate(db, w.row, Charged(w.updated, today));
      } else {
        ChargedWithCharity(db, w.row, Charged(w.updated, today), w.charity);
      }
    }
  }

  // ---------------------------------------------------------------- every run

  /** Each write of the statement, on the rows it finds, leaves the fee to the trigger or the books allow it. */
  ghost predicate FeesOk(db: Db, today: int, writes: seq<RowWrite>)
    decreases |writes|
  {
    writes != [] ==>
      FeeOk(db, writes[0])
      && (WriteRow(db, today, writes[0]).Ok? ==> FeesOk(WriteRow(db, today, writes[0]).value, today, writes[1..]))
  }

  /** The call records the fee: it finds no entry, no allocation, and an active charity. */
  ghost predicate Records(db: Db, row: nat, amount: int) {
    row < |db.installments| && SomeActive(db) && 0 < amount < NUMERIC_LIMIT && row !in db.posted && !Allocated(db, row)
  }

  ghost predicate StepOk(db: Db, step: Step) {
    match step
    case AddInstallment(i) => i.lateFee in {0, LATE_FEE}
    case SetCharity(_, _) => true
    case UpdateRows(today, writes) => FeesOk(db, today, writes)
    case RecordLateFee(row, amount) => Records(db, row, amount) ==> amount == LATE_FEE == db.installments[row].lateFee
  }

  ghost predicate RunOk(start: Db, steps: seq<Step>) {
    steps != [] ==>
      RunOk(start, steps[..|steps| - 1]) && StepOk(History(start, steps[..|steps| - 1]), steps[|steps| - 1])
  }

  lemma {:induction false} WriteRowsAccount(db: Db, today: int, writes: seq<RowWrite>)
    requires Accounted(db) && FeesOk(db, today, writes) && WriteRows(db, today, writes).Ok?
    ensures Accounted(WriteRows(db, today, writes).value)
    decreases |writes|
  {
    if writes != [] {
      WriteRowAccountsIff(db, today, writes[0]);
      WriteRowsAccount(WriteRow(db, today, writes[0]).value, today, writes[1..]);
    }
  }

  lemma AddUnfunded(db: Db, i: Installment)
    requires Consistent(db) && i.lateFee in {0, LATE_FEE}
    ensures Unfunded(db.(installments := db.installments + [i]))
         == Unfunded(db) + if i.lateFee == 0 then {} else {|db.installments|}
  {
    var d := db.(installments := db.installments + [i]);
    assert forall r: nat :: Allocated(d, r) <==> Allocated(db, r);
    if Allocated(db, |db.installments|) {
      AllocatedFee(db, |db.installments|);
    }
  }

  lemma AddAccounts(db: Db, i: Installment)
    requires Accounted(db) && i.lateFee in {0, LATE_FEE}
    ensures var d := db.(installments := db.installments + [i]);
            Accounted(d) && Unfunded(d) == Unfunded(db) + if i.lateFee == 0 then {} else {|db.installments|}
  {
    var d := db.(installments := db.installments + [i]);
    TotalAppend(db.installments, i, FeeOf);
    AddUnfunded(db, i);
    assert forall k :: 0 <= k < |d.allocations| ==> AllocationOk(db, d.allocations[k]);
    assert |db.installments| !in Unfunded(db);
  }

  lemma CharityAccounts(db: Db, id: int, c: Charity)
    requires Accounted(db)
    ensures var d := db.(charities := db.charities[id := c]); Accounted(d) && Unfunded(d) == Unfunded(db)
  {
    var d := db.(charities := db.charities[id := c]);
    assert forall r: nat :: Allocated(d, r) <==> Allocated(db, r);
    assert Unfunded(d) == Unfunded(db);
    assert forall k :: 0 <= k < |d.allocations| ==> AllocationOk(db, d.allocations[k]);
  }

  /** What a recording adds, for a charity that is the default one. */
  lemma RecordAdds(db: Db, row: nat, amount: int) returns (charity: int)
    ensures if Records(db, row, amount) then
              && IsDefault(db, charity)
              && Record(db, row, amount) ==
                   Ok(db.(allocations := db.allocations + [Allocation(row, db.installments[row].loan, amount, charity)],
                          posted := db.posted + {row}))
            else After(db, RecordLateFee(row, amount)) == db
  {
    charity := 0;
    if Records(db, row, amount) {
      DefaultExists(db);
      charity :| IsDefault(db, charity);
    }
  }

  lemma PostedAccounts(db: Db, posted: set<nat>)
    ensures Accounted(db.(posted := posted)) <==> Accounted(db)
    ensures Unfunded(db.(posted := posted)) == Unfunded(db)
  {
    var d := db.(posted := posted);
    assert forall r: nat :: Allocated(d, r) <==> Allocated(db, r);
    assert forall k :: 0 <= k < |db.allocations| ==>
        (AllocationOk(d, d.allocations[k]) <==> AllocationOk(db, db.allocations[k]));
    assert Unfunded(d) == Unfunded(db);
  }

  /**
   * Exactly when a recording keeps the books: it adds nothing, or the flat fee to an installment that was charged
   * it.
   */
  lemma RecordAccountsIff(db: Db, row: nat, amount: int)
    requires Accounted(db)
    ensures Accounted(After(db, RecordLateFee(row, amount))) <==>
              (Records(db, row, amount) ==> amount == LATE_FEE == db.installments[row].lateFee)
    ensures Records(db, row, amount) ==> Unfunded(After(db, RecordLateFee(row, amount))) == Unfunded(db) - {row}
  {
    var d := After(db, RecordLateFee(row, amount));
    var charity := RecordAdds(db, row, amount);
    if Records(db, row, amount) {
      var i := db.installments[row];
      var a := Allocation(row, i.loan, amount, charity);
      assert db.installments[row := i] == db.installments;
      assert d.(posted := db.posted)
          == db.(installments := db.installments[row := i], allocations := db.allocations + [a]);
      PostedAccounts(d, db.posted);
      AllocatedUnfunded(db, row, i, a);
      if amount == LATE_FEE == i.lateFee {
        ChargedWithCharity(db, row, i, charity);
      } else {
        AllocationUnsound(d, |db.allocations|);
      }
    }
  }

  lemma AllocationUnsound(db: Db, k: nat)
    requires k < |db.allocations| && !AllocationOk(db, db.allocations[k])
    ensures !Accounted(db)
  {
  }

  ghost function Start(charities: map<int, Charity>): Db { Db([], [], charities, {}) }

  /** In every state of every such run the books hold, whatever happens to the charities. */
  lemma {:induction false} AlwaysAccounted(charities: map<int, Charity>, steps: seq<Step>)
    requires RunOk(Start(charities), steps)
    ensures Accounted(History(Start(charities), steps))
    decreases |steps|
  {
    if steps == [] {
      assert Unfunded(Start(charities)) == {};
    } else {
      var db := History(Start(charities), steps[..|steps| - 1]);
      AlwaysAccounted(charities, steps[..|steps| - 1]);
      match steps[|steps| - 1]
      case AddInstallment(i) => AddAccounts(db, i);
      case SetCharity(id, c) => CharityAccounts(db, id, c);
      case UpdateRows(today, writes) =>
        if WriteRows(db, today, writes).Ok? {
          WriteRowsAccount(db, today, writes);
        }
      case RecordLateFee(row, amount) => RecordAccountsIff(db, row, amount);
    }
  }

  /** The same in the columns of the tables: what the books of such a run say, installment by installment. */
  lemma BooksInFull(charities: map<int, Charity>, steps: seq<Step>)
    requires RunOk(Start(charities), steps)
    ensures var d := History(Start(charities), steps);
            && (forall i: Installment :: i in d.installments ==> i.lateFee == 0 || i.lateFee == 15000)
            && (forall a: Allocation :: a in d.allocations ==>
                  a.installment < |d.installments| && a.amount == 15000 == d.installments[a.installment].lateFee)
            && (forall j, k :: 0 <= j < k < |d.allocations| ==>
                  d.allocations[j].installment != d.allocations[k].installment)
            && Total(d.installments, (i: Installment) => i.lateFee)
               == Total(d.allocations, (a: Allocation) => a.amount)
                  + 15000 * |(set i: nat | i < |d.installments| && d.installments[i].lateFee == 15000
                                           && forall a: Allocation :: a in d.allocations ==> a.installment != i)|
  {
    AlwaysAccounted(charities, steps);
    var d := History(Start(charities), steps);
    UnallocatedRows(d);
    assert Unfunded(d) == (set i: nat | i < |d.installments| && d.installments[i].lateFee == 15000
                                        && forall a: Allocation :: a in d.allocations ==> a.installment != i);
    TotalSame(d.installments, FeeOf, (i: Installment) => i.lateFee);
    TotalSame(d.allocations, AmountOf, (a: Allocation) => a.amount);
  }

  lemma UnallocatedRows(db: Db)
    ensures forall i: nat :: !Allocated(db, i) <==> forall a: Allocation :: a in db.allocations ==> a.installment != i
  {
    forall i: nat
      ensures !Allocated(db, i) <==> forall a: Allocation :: a in db.allocations ==> a.installment != i
    {
      if Allocated(db, i) {
        var k :| 0 <= k < |db.allocations| && db.allocations[k].installment == i;
        assert db.allocations[k] in db.allocations;
      }
    }
  }

  lemma {:induction false} TotalSame<R>(rows: seq<R>, value: R -> int, other: R -> int)
    requires forall r :: value(r) == other(r)
    ensures Total(rows, value) == Total(rows, other)
  {
    if rows != [] {
      TotalSame(rows[..|rows| - 1], value, other);
    }
  }

  // ---------------------------------------------------------------- what a step leaves alone

  /** A new installment comes last, and a charity changes no other charity and no installment. */
  lemma NewRows(db: Db, i: Installment, id: int, c: Charity)
    ensures var d := After(db, AddInstallment(i));
            |d.installments| == |db.installments| + 1 && d.installments[|db.installments|] == i
            && d.installments[..|db.installments|] == db.installments
            && d.allocations == db.allocations && d.charities == db.charities && d.posted == db.posted
    ensures var d := After(db, SetCharity(id, c));
            id in d.charities && d.charities[id] == c
            && (forall k :: k != id ==> (k in d.charities <==> k in db.charities)
                                        && (k in db.charities ==> d.charities[k] == db.charities[k]))
            && d.installments == db.installments && d.allocations == db.allocations && d.posted == db.posted
  {
  }

  /** An UPDATE of rows leaves every row it does not name, and the order of the allocations before it. */
  lemma {:induction false} UnnamedRowsStay(db: Db, today: int, writes: seq<RowWrite>)
    requires WriteRows(db, today, writes).Ok?
    ensures var d := WriteRows(db, today, writes).value;
            && |d.installments| == |db.installments| && db.allocations <= d.allocations
            && d.charities == db.charities && d.posted == db.posted
            && forall row: nat ::
                 row < |db.installments| && (forall k :: 0 <= k < |writes| ==> writes[k].row != row) ==>
                   d.installments[row] == db.installments[row]
    decreases |writes|
  {
    if writes != [] {
      var d := WriteRow(db, today, writes[0]).value;
      UnnamedRowsStay(d, today, writes[1..]);
      forall row: nat | row < |db.installments| && (forall k :: 0 <= k < |writes| ==> writes[k].row != row)
        ensures WriteRows(db, today, writes).value.installments[row] == db.installments[row]
      {
        assert writes[0].row != row;
        assert forall k :: 0 <= k < |writes[1..]| ==> writes[1..][k] == writes[k + 1];
      }
    }
  }

  predicate DistinctRows(writes: seq<RowWrite>) {
    forall j, k :: 0 <= j < k < |writes| ==> writes[j].row != writes[k].row
  }

  /** An UPDATE stores every row it names, charged and dated if it enters overdue, and otherwise as given. */
  lemma {:induction false} NamedRowsStored(db: Db, today: int, writes: seq<RowWrite>, k: nat)
    requires WriteRows(db, today, writes).Ok? && DistinctRows(writes)
    requires k < |writes| && writes[k].row < |db.installments|
    ensures var d := WriteRows(db, today, writes).value;
            && |d.installments| == |db.installments|
            && var updated, stored := writes[k].updated, d.installments[writes[k].row];
               if db.installments[writes[k].row].status != "overdue" && updated.status == "overdue" then
                 && stored.dueDate + stored.daysOverdue == today && stored.lateFee == 15000
                 && stored.loan == updated.loan && stored.status == "overdue" && stored.dueDate == updated.dueDate
               else stored == updated
    decreases |writes|
  {
    var d := WriteRow(db, today, writes[0]).value;
    var rest := writes[1..];
    assert forall j :: 0 <= j < |rest| ==> rest[j] == writes[j + 1];
    UnnamedRowsStay(d, today, rest);
    if k > 0 {
      NamedRowsStored(d, today, rest, k - 1);
      assert d.installments[writes[k].row] == db.installments[writes[k].row];
    }
  }

  // ---------------------------------------------------------------- conservation

  /** Only the trigger changes a fee. */
  predicate FeeKept(db: Db, w: RowWrite) {
    w.row < |db.installments| && !EntersOverdue(db.installments[w.row], w.updated) ==>
      w.updated.lateFee == db.installments[w.row].lateFee
  }

  /**
   * From conserved books, exactly which UPDATE of a row keeps total allocations equal to total fees: one
   * that leaves the fee alone, or one that charges it while a charity qualifies or has it already.
   */
  lemma StaysConservedIff(db: Db, today: int, w: RowWrite)
    requires Accounted(db) && Fees(db) == Donated(db) && WriteRow(db, today, w).Ok?
    ensures var d := WriteRow(db, today, w).value;
            Fees(d) == Donated(d) <==>
              && FeeKept(db, w)
              && (w.row < |db.installments| && EntersOverdue(db.installments[w.row], w.updated) ==>
                    Allocated(db, w.row) || SomeEligible(db))
  {
    if w.row < |db.installments| {
      var d := WriteRow(db, today, w).value;
      TotalUpdate(db.installments, w.row, d.installments[w.row], FeeOf);
      if EntersOverdue(db.installments[w.row], w.updated) {
        WriteRowUnfunded(db, today, w);
        WriteRowAccountsIff(db, today, w);
        assert |Unfunded(db)| == 0;
        assert w.row !in Unfunded(db);
        if SomeEligible(db) {
          TotalAppend(db.allocations, Allocation(w.row, w.updated.loan, LATE_FEE, w.charity), AmountOf);
        }
      }
    }
  }

  /**
   * The admin waiver sets the fee to 0 and leaves the allocation: it keeps conserved books only where there was no
   * fee.
   */
  lemma WaiverConservesIff(db: Db, today: int, row: nat, charity: int)
    requires Accounted(db) && Fees(db) == Donated(db) && row < |db.installments|
    ensures var d := After(db, UpdateRows(today, [RowWrite(row, db.installments[row].(lateFee := 0), charity)]));
            Fees(d) == Donated(d) <==> db.installments[row].lateFee == 0
  {
    var w := RowWrite(row, db.installments[row].(lateFee := 0), charity);
    assert [w][1..] == [];
    assert WriteRows(db, today, [w]) == WriteRow(db, today, w);
    StaysConservedIff(db, today, w);
  }

  ghost predicate FeesKept(db: Db, today: int, writes: seq<RowWrite>)
    decreases |writes|
  {
    writes != [] ==>
      FeeKept(db, writes[0])
      && (WriteRow(db, today, writes[0]).Ok? ==> FeesKept(WriteRow(db, today, writes[0]).value, today, writes[1..]))
  }

  /** Installments start without a fee, and afterwards only the trigger changes fees. */
  ghost predicate StepKeepsFees(db: Db, step: Step) {
    match step
    case AddInstallment(i) => i.lateFee == 0
    case SetCharity(_, _) => true
    case UpdateRows(today, writes) => FeesKept(db, today, writes)
    case RecordLateFee(row, amount) => !Records(db, row, amount)
  }

  /** Every state of the run offers an active, approved charity, and every step leaves the fees to the trigger. */
  ghost predicate CharityAlways(start: Db, steps: seq<Step>) {
    && SomeEligible(History(start, steps))
    && (steps != [] ==>
          CharityAlways(start, steps[..|steps| - 1])
          && StepKeepsFees(History(start, steps[..|steps| - 1]), steps[|steps| - 1]))
  }

  ghost predicate Conserved(db: Db) { Accounted(db) && Unfunded(db) == {} && Fees(db) == Donated(db) }

  lemma KeptIsAllowed(db: Db, w: RowWrite)
    requires Conserved(db) && FeeKept(db, w)
    ensures FeeOk(db, w)
    ensures w.row < |db.installments| && w.updated.lateFee == LATE_FEE
            && !EntersOverdue(db.installments[w.row], w.updated) ==>
              Allocated(db, w.row)
  {
    if Allocated(db, w.row) {
      AllocatedFee(db, w.row);
    }
    assert w.row < |db.installments| && w.row !in Unfunded(db) && db.installments[w.row].lateFee == LATE_FEE ==>
        Allocated(db, w.row);
  }

  lemma {:induction false} WriteRowsConserve(db: Db, today: int, writes: seq<RowWrite>)
    requires Conserved(db) && SomeEligible(db) && FeesKept(db, today, writes) && WriteRows(db, today, writes).Ok?
    ensures Conserved(WriteRows(db, today, writes).value)
    decreases |writes|
  {
    if writes != [] {
      var d := WriteRow(db, today, writes[0]).value;
      KeptIsAllowed(db, writes[0]);
      WriteRowAccountsIff(db, today, writes[0]);
      WriteRowUnfunded(db, today, writes[0]);
      assert Unfunded(d) == {};
      assert forall c :: Eligible(d, c) <==> Eligible(db, c);
      WriteRowsConserve(d, today, writes[1..]);
    }
  }

  /** With an eligible charity always present, all late fees are allocated: no installment is left unfunded. */
  lemma {:induction false} FeesConserved(charities: map<int, Charity>, steps: seq<Step>)
    requires CharityAlways(Start(charities), steps)
    ensures Conserved(History(Start(charities), steps))
    decreases |steps|
  {
    if steps == [] {
      assert Unfunded(Start(charities)) == {};
    } else {
      var before := steps[..|steps| - 1];
      var db := History(Start(charities), before);
      FeesConserved(charities, before);
      match steps[|steps| - 1]
      case AddInstallment(i) => AddAccounts(db, i);
      case SetCharity(id, c) => CharityAccounts(db, id, c);
      case UpdateRows(today, writes) =>
        if WriteRows(db, today, writes).Ok? {
          WriteRowsConserve(db, today, writes);
        }
      case RecordLateFee(row, amount) => var _ := RecordAdds(db, row, amount);
    }
  }

  /**
   * An installment that is already allocated cannot be charged again while a charity qualifies: the statement
   * aborts.
   */
  lemma ReentryAborts(db: Db, today: int, w: RowWrite)
    requires w.row < |db.installments| && EntersOverdue(db.installments[w.row], w.updated)
    requires SomeEligible(db) && Allocated(db, w.row)
    ensures RunStep(db, UpdateRows(today, [w])) == Err(UniqueViolation)
    ensures After(db, UpdateRows(today, [w])) == db
  {
    assert WriteRows(db, today, [w]) == Err(UniqueViolation);
  }

  // ---------------------------------------------------------------- the trigger and the ledger service

  /** From conserved books a recording keeps them conserved exactly if it adds nothing: it charges no installment. */
  lemma RecordConservesIff(db: Db, row: nat, amount: int)
    requires Fees(db) == Donated(db)
    ensures var d := After(db, RecordLateFee(row, amount)); Fees(d) == Donated(d) <==> !Records(db, row, amount)
  {
    var charity := RecordAdds(db, row, amount);
    if Records(db, row, amount) {
      TotalAppend(db.allocations, Allocation(row, db.installments[row].loan, amount, charity), AmountOf);
    }
  }

  lemma {:induction false} WriteRowsKeep(db: Db, today: int, writes: seq<RowWrite>, row: nat)
    requires WriteRows(db, today, writes).Ok?
    ensures var d := WriteRows(db, today, writes).value;
            d.posted == db.posted && |d.installments| == |db.installments| && (Allocated(db, row) ==> Allocated(d, row))
    decreases |writes|
  {
    if writes != [] {
      var d := WriteRow(db, today, writes[0]).value;
      if Allocated(db, row) {
        var k :| 0 <= k < |db.allocations| && db.allocations[k].installment == row;
        assert d.allocations[k].installment == row;
      }
      WriteRowsKeep(d, today, writes[1..], row);
    }
  }

  lemma AllocationStays(db: Db, step: Step, row: nat)
    requires Allocated(db, row)
    ensures Allocated(After(db, step), row)
    ensures row in After(db, step).posted <==> row in db.posted
  {
    var k :| 0 <= k < |db.allocations| && db.allocations[k].installment == row;
    match step
    case AddInstallment(i) => assert After(db, step).allocations[k].installment == row;
    case SetCharity(id, c) => assert After(db, step).allocations[k].installment == row;
    case UpdateRows(today, writes) =>
      if WriteRows(db, today, writes).Ok? {
        WriteRowsKeep(db, today, writes, row);
      }
    case RecordLateFee(r, amount) =>
      var _ := RecordAdds(db, r, amount);
      assert After(db, step).allocations[k].installment == row;
  }

  /**
   * An installment that the trigger has allocated never gets a journal entry: after any further steps, every
   * attempt to record its fee fails and changes nothing. One whose fee was recorded first is allocated for
   * good, and so cannot become overdue while a charity qualifies.
   */
  lemma {:induction false} FirstPathWins(db: Db, steps: seq<Step>, row: nat, amount: int)
    requires Allocated(db, row)
    ensures var d := History(db, steps);
            && Allocated(d, row) && (row in d.posted <==> row in db.posted)
            && (row !in db.posted ==> Record(d, row, amount).Err?)
            && (row !in db.posted && row < |d.installments| && SomeActive(d) && 0 < amount < NUMERIC_LIMIT ==>
                  Record(d, row, amount) == Err(UniqueViolation))
    decreases |steps|
  {
    if steps != [] {
      var before := History(db, steps[..|steps| - 1]);
      FirstPathWins(db, steps[..|steps| - 1], row, amount);
      AllocationStays(before, steps[|steps| - 1], row);
    }
  }

  /**
   * The other way round: once a fee is recorded, every UPDATE that makes the installment overdue aborts while a
   * charity qualifies.
   */
  lemma RecordedCannotEnter(db: Db, row: nat, amount: int, steps: seq<Step>, today: int, w: RowWrite)
    requires Records(db, row, amount) && w.row == row
    ensures var d := History(After(db, RecordLateFee(row, amount)), steps);
            row < |d.installments| && EntersOverdue(d.installments[row], w.updated) && SomeEligible(d) ==>
              RunStep(d, UpdateRows(today, [w])) == Err(UniqueViolation)
  {
    var d := After(db, RecordLateFee(row, amount));
    var charity := RecordAdds(db, row, amount);
    assert d.allocations[|db.allocations|].installment == row;
    FirstPathWins(d, steps, row, amount);
    var last := History(d, steps);
    if row < |last.installments| && EntersOverdue(last.installments[row], w.updated) && SomeEligible(last) {
      ReentryAborts(last, today, w);
    }
  }
}
