/**
 * The offline job that re-encrypts the card number and CVV of every live virtual card onto the
 * current key version, page by page, committing once per page.
 */
module KeyRotation {
  import opened Prelude

  type Cipher = seq<int>

  const LEGACY_VERSION := "v1"

  /** Key material by version tag. The cipher is randomised: `enc` takes the nonce it draws. */
  datatype Vault = Vault(
    configured: set<string>,
    enc: (string, string, nat) -> Cipher,
    dec: (string, Cipher) -> Option<string>)

  /** Each version decrypts what it encrypted; the empty tag is never a version. */
  ghost predicate Sound(v: Vault) {
    && "" !in v.configured
    && forall version, plain, nonce: nat :: v.dec(version, v.enc(version, plain, nonce)) == Some(plain)
  }

  datatype Card = Card(pan: Option<Cipher>, cvv: Option<Cipher>, version: Option<string>, deleted: bool)

  datatype KeyError = CannotDecrypt | NoKey | NegativeLimit

  /** The version a tag stands for: NULL and the empty string both mean the legacy key. */
  function Resolve(version: Option<string>): string {
    if version.None? || version.value == "" then LEGACY_VERSION else version.value
  }

  function Stamped(c: Card): string { Resolve(c.version) }

  predicate Stale(c: Card, current: string) { !c.deleted && Stamped(c) != current }

  function Decrypt(v: Vault, field: Option<Cipher>, version: Option<string>): Option<string> {
    if field.None? || Resolve(version) !in v.configured then None else v.dec(Resolve(version), field.value)
  }

  function Pan(v: Vault, c: Card): Option<string> { Decrypt(v, c.pan, c.version) }

  function Cvv(v: Vault, c: Card): Option<string> { Decrypt(v, c.cvv, c.version) }

  /** Whether the job can process the row at all. */
  predicate Rotatable(v: Vault, current: string, c: Card) {
    Pan(v, c).Some? && Cvv(v, c).Some? && current in v.configured
  }

  function LiveRows(rows: seq<Card>): seq<nat> {
    if rows == [] then []
    else LiveRows(rows[..|rows| - 1]) + if rows[|rows| - 1].deleted then [] else [|rows| - 1]
  }

  function Clip(n: nat, bound: nat): nat { if n <= bound then n else bound }

  /** ORDER BY id OFFSET offset LIMIT limit over the live rows. */
  function Page(live: seq<nat>, offset: nat, limit: nat): seq<nat> {
    live[Clip(offset, |live|)..Clip(offset + limit, |live|)]
  }

  /** The offset of the page with this number. */
  function PageStart(pages: nat, size: nat): nat { if pages == 0 then 0 else PageStart(pages - 1, size) + size }

  // ---------------------------------------------------------------- specification

  /** What rotation does to one row: a live stale card changes key and keeps its secrets, any other row is untouched. */
  ghost predicate RowRotated(v: Vault, current: string, before: Card, after: Card) {
    if Stale(before, current) then
      && after.version == Some(current) && after.deleted == before.deleted
      && Pan(v, after) == Pan(v, before) && Pan(v, before).Some?
      && Cvv(v, after) == Cvv(v, before) && Cvv(v, before).Some?
    else after == before
  }

  /** The table after the rows in `done` have been processed. */
  ghost predicate RotatedRows(v: Vault, current: string, before: seq<Card>, after: seq<Card>, done: seq<nat>) {
    |after| == |before| && forall i: nat :: i < |before| ==> RowStep(v, current, before[i], after[i], i in done)
  }

  ghost predicate RowStep(v: Vault, current: string, before: Card, after: Card, done: bool) {
    if done then RowRotated(v, current, before, after) else after == before
  }

  /** The table after the first `n` live rows have been processed. */
  ghost predicate RotatedUpTo(v: Vault, current: string, before: seq<Card>, after: seq<Card>, n: nat)
    requires n <= |LiveRows(before)|
  {
    RotatedRows(v, current, before, after, LiveRows(before)[..n])
  }

  /** How many of the rows in `ids` are stale. */
  ghost function StaleCount(rows: seq<Card>, current: string, ids: seq<nat>): nat {
    if ids == [] then 0
    else
      var id := ids[|ids| - 1];
      StaleCount(rows, current, ids[..|ids| - 1]) + if id < |rows| && Stale(rows[id], current) then 1 else 0
  }

  ghost function StaleRows(rows: seq<Card>, current: string): set<nat> {
    set i: nat | i < |rows| && Stale(rows[i], current)
  }

  ghost predicate AllRotatable(v: Vault, current: string, rows: seq<Card>) {
    forall i: nat :: i < |rows| && Stale(rows[i], current) ==> Rotatable(v, current, rows[i])
  }

  ghost predicate RotatableIn(v: Vault, current: string, rows: seq<Card>, ids: seq<nat>) {
    forall i: nat :: i < |rows| && i in ids && Stale(rows[i], current) ==> Rotatable(v, current, rows[i])
  }

  /** Some stale card of the page cannot be rotated. */
  ghost predicate PageFails(v: Vault, current: string, rows: seq<Card>, offset: nat, limit: nat) {
    !RotatableIn(v, current, rows, Page(LiveRows(rows), offset, limit))
  }

  /** How far a run has come: the table, the live rows looked at so far, and how many of them were stale. */
  datatype Run = Run(table: seq<Card>, seen: seq<nat>, count: nat)

  ghost predicate Consistent(v: Vault, current: string, before: seq<Card>, dryRun: bool, run: Run) {
    && run.seen <= LiveRows(before)
    && RotatedRows(v, current, before, run.table, if dryRun then [] else run.seen)
    && (dryRun || RotatableIn(v, current, before, run.seen))
    && run.count == StaleCount(before, current, run.seen)
  }

  /** The table is where the run left it. */
  ghost predicate StandsAt(v: Vault, current: string, before: seq<Card>, dryRun: bool, table: seq<Card>, run: Run) {
    table == run.table && Consistent(v, current, before, dryRun, run)
  }

  /** Distinct live rows, none of them among the rows processed before. */
  ghost predicate FreshPage(rows: seq<Card>, front: seq<nat>, page: seq<nat>) {
    forall k: nat :: k < |page| ==> FreshRow(rows, front, page, k)
  }

  ghost predicate FreshRow(rows: seq<Card>, front: seq<nat>, page: seq<nat>, k: nat)
    requires k < |page|
  {
    page[k] < |rows| && !rows[page[k]].deleted && page[k] !in front && page[k] !in page[..k]
  }

  lemma {:induction false} LiveRowsAre(rows: seq<Card>)
    ensures forall i: nat :: i in LiveRows(rows) <==> i < |rows| && !rows[i].deleted
    ensures forall a, b :: 0 <= a < b < |LiveRows(rows)| ==> LiveRows(rows)[a] < LiveRows(rows)[b]
  {
    if rows != [] {
      var front := rows[..|rows| - 1];
      LiveRowsAre(front);
      assert forall a :: 0 <= a < |LiveRows(front)| ==> LiveRows(front)[a] in LiveRows(front);
    }
  }

  /** The order and the set of live rows depend on the deleted flags only. */
  lemma {:induction false} LiveRowsStable(rows: seq<Card>, other: seq<Card>)
    requires |rows| == |other| && forall i: nat :: i < |rows| ==> rows[i].deleted == other[i].deleted
    ensures LiveRows(rows) == LiveRows(other)
  {
    if rows != [] {
      LiveRowsStable(rows[..|rows| - 1], other[..|rows| - 1]);
    }
  }

  // ---------------------------------------------------------------- the job

  /** The table of virtual cards, in id order. */
  class VirtualCards {
    const rows: array<Card>

    constructor (initial: array<Card>)
      ensures rows == initial
    {
      rows := initial;
    }

    method Encrypt(v: Vault, current: string, value: string) returns (r: Result<(Cipher, string), KeyError>)
      requires Sound(v)
      ensures r.Ok? <==> current in v.configured
      ensures r.Ok? ==> r.value.1 == current && v.dec(current, r.value.0) == Some(value)
    {
      if current !in v.configured {
        return Err(NoKey);
      }
      var nonce: nat :| nonce >= 0;
      return Ok((v.enc(current, value, nonce), current));
    }

    /** The decrypt-then-encrypt of one stale card, in memory. */
    method Reencrypt(v: Vault, current: string, card: Card) returns (r: Result<Card, KeyError>)
      requires Sound(v) && Stale(card, current)
      ensures r.Ok? <==> Rotatable(v, current, card)
      ensures r.Ok? ==> RowRotated(v, current, card, r.value)
    {
      var pan := Decrypt(v, card.pan, card.version);
      if pan.None? {
        return Err(CannotDecrypt);
      }
      var cvv := Decrypt(v, card.cvv, card.version);
      if cvv.None? {
        return Err(CannotDecrypt);
      }
      var newPan := Encrypt(v, current, pan.value);
      if newPan.Err? {
        return Err(newPan.error);
      }
      var newCvv := Encrypt(v, current, cvv.value);
      return Ok(card.(pan := Some(newPan.value.0), cvv := Some(newCvv.value.0), version := Some(newPan.value.1)));
    }

    /** The rows of one page, rotated in the session: nothing reaches the table before the commit. */
    method ProcessPage(v: Vault, current: string, session: seq<Card>, page: seq<nat>, dryRun: bool,
                       ghost before: seq<Card>, ghost front: seq<nat>)
      returns (r: Result<(seq<Card>, nat), KeyError>)
      requires Sound(v) && FreshPage(before, front, page)
      requires RotatedRows(v, current, before, session, if dryRun then [] else front)
      ensures r.Ok? <==> dryRun || RotatableIn(v, current, before, page)
      ensures r.Ok? ==> RotatedRows(v, current, before, r.value.0, if dryRun then [] else front + page)
      ensures r.Ok? ==> r.value.1 == StaleCount(before, current, page)
    {
      var staged, count, k := session, 0, 0;
      assert front + page[..0] == front;
      while k < |page|
        invariant 0 <= k <= |page|
        invariant count == StaleCount(before, current, page[..k])
        invariant RotatedRows(v, current, before, staged, if dryRun then [] else front + page[..k])
        invariant dryRun || RotatableIn(v, current, before, page[..k])
      {
        var id := page[k];
        assert FreshRow(before, front, page, k);
        NextRow(v, current, before, page, k);
        var card := staged[id];
        assert RowStep(v, current, before[id], staged[id], false);
        k := k + 1;
        if Stamped(card) == current {
          if !dryRun {
            ExtendRotated(v, current, before, staged, front, page, k - 1, card);
          }
          continue;
        }
        if dryRun {
          count := count + 1;
          continue;
        }
        var rotated := Reencrypt(v, current, card);
        if rotated.Err? {
          return Err(rotated.error);
        }
        ExtendRotated(v, current, before, staged, front, page, k - 1, rotated.value);
        staged := staged[id := rotated.value];
        count := count + 1;
      }
      assert page[..k] == page;
      return Ok((staged, count));
    }

    /** The SELECT of one page; rotation leaves the deleted flags alone, so pages line up across commits. */
    method SelectPage(v: Vault, current: string, offset: nat, limit: nat,
                      ghost before: seq<Card>, ghost seen: seq<nat>)
      returns (page: seq<nat>)
      requires |seen| == Clip(offset, |LiveRows(before)|) && seen == LiveRows(before)[..|seen|]
      requires RotatedRows(v, current, before, rows[..], seen) || rows[..] == before
      ensures page == Page(LiveRows(before), offset, limit)
      ensures seen + page == LiveRows(before)[..|seen + page|]
      ensures |seen + page| == Clip(offset + limit, |LiveRows(before)|)
      ensures FreshPage(before, seen, page)
      ensures page == [] <==> limit == 0 || |LiveRows(before)| <= offset
    {
      SameFlags(v, current, before, rows[..], seen);
      LiveRowsStable(rows[..], before);
      page := Page(LiveRows(rows[..]), offset, limit);
      NextPage(before, seen, offset, limit, page);
    }

    method Commit(session: seq<Card>)
      requires |session| == rows.Length
      modifies rows
      ensures rows[..] == session
    {
      forall i | 0 <= i < rows.Length {
        rows[i] := session[i];
      }
    }

    /** One turn of the loop: None when the page is empty, otherwise how many of its rows were stale. */
    method RotatePage(v: Vault, current: string, offset: nat, limit: nat, dryRun: bool,
                      ghost before: seq<Card>, ghost run: Run)
      returns (r: Result<Option<nat>, KeyError>, ghost next: Run)
      requires Sound(v) && StandsAt(v, current, before, dryRun, rows[..], run)
      requires |run.seen| == Clip(offset, |LiveRows(before)|)
      modifies rows
      ensures StandsAt(v, current, before, dryRun, rows[..], next)
      ensures r.Ok? && r.value.None? ==> next == run && (limit == 0 || |LiveRows(before)| <= offset)
      ensures r.Ok? && r.value.Some? ==>
          next.count == run.count + r.value.value && limit > 0 && offset < |LiveRows(before)|
      ensures r.Ok? && r.value.Some? ==> |next.seen| == Clip(offset + limit, |LiveRows(before)|)
      ensures r.Err? ==> next == run && !dryRun && limit > 0 && PageFails(v, current, before, offset, limit)
    {
      next := run;
      NothingProcessed(v, current, before);
      var page := SelectPage(v, current, offset, limit, before, run.seen);
      if |page| == 0 {
        return Ok(None), next;
      }
      PageAdds(v, current, before, run.seen, page);
      var session := ProcessPage(v, current, rows[..], page, dryRun, before, run.seen);
      if session.Err? {
        return Err(session.error), next;
      }
      if !dryRun {
        Commit(session.value.0);
      }
      PageDone(v, current, before, dryRun, run, page, rows[..], session.value.1);
      next := Run(rows[..], run.seen + page, run.count + session.value.1);
      return Ok(Some(session.value.1)), next;
    }

    /** The loop over the pages, with a record of what it has processed so far. */
    method RotatePages(v: Vault, current: string, batchSize: nat, dryRun: bool, ghost before: seq<Card>)
      returns (r: Result<nat, KeyError>, ghost run: Run, ghost pages: nat)
      requires Sound(v) && before == rows[..]
      modifies rows
      ensures StandsAt(v, current, before, dryRun, rows[..], run)
      ensures |run.seen| == Clip(PageStart(pages, batchSize), |LiveRows(before)|)
      ensures r.Ok? ==> r.value == run.count && |run.seen| == if batchSize == 0 then 0 else |LiveRows(before)|
      ensures r.Err? ==>
          !dryRun && batchSize > 0 && PageFails(v, current, before, PageStart(pages, batchSize), batchSize)
    {
      NothingProcessed(v, current, before);
      run, pages := Run(before, [], 0), 0;
      ghost var live := |LiveRows(before)|;
      var count: nat, offset: nat := 0, 0;
      while true
        invariant StandsAt(v, current, before, dryRun, rows[..], run)
        invariant count == run.count && |run.seen| == Clip(offset, live)
        invariant offset == PageStart(pages, batchSize) && (batchSize == 0 ==> offset == 0)
        decreases live - offset
      {
        var step;
        step, run := RotatePage(v, current, offset, batchSize, dryRun, before, run);
        if step.Err? {
          return Err(step.error), run, pages;
        }
        if step.value.None? {
          break;
        }
        assert PageStart(pages + 1, batchSize) == offset + batchSize;
        count, offset, pages := count + step.value.value, offset + batchSize, pages + 1;
      }
      return Ok(count), run, pages;
    }

    /**
     * The whole run. On success every live stale card has been rotated, unless this was a dry run or the
     * page size is 0. On a key failure the first page with a card that cannot be rotated is undone as a
     * whole: the pages before it are rotated and nothing else is.
     */
    method Rotate(v: Vault, current: string, batchSize: int, dryRun: bool)
      returns (r: Result<nat, KeyError>, ghost done: nat, ghost pages: nat)
      requires Sound(v)
      modifies rows
      ensures done <= |LiveRows(old(rows[..]))|
      ensures RotatedUpTo(v, current, old(rows[..]), rows[..], done)
      ensures r.Ok? <==> batchSize == 0 || (batchSize > 0 && (dryRun || AllRotatable(v, current, old(rows[..]))))
      ensures r.Ok? && batchSize > 0 ==> r.value == |StaleRows(old(rows[..]), current)|
      ensures r.Ok? && batchSize > 0 && !dryRun ==> done == |LiveRows(old(rows[..]))|
      ensures r.Ok? && batchSize == 0 ==> r.value == 0
      ensures batchSize >= 0 && !dryRun ==> done == Clip(PageStart(pages, batchSize), |LiveRows(old(rows[..]))|)
      ensures r.Err? && batchSize > 0 ==>
                RotatableIn(v, current, old(rows[..]), LiveRows(old(rows[..]))[..done])
      ensures r.Err? && batchSize > 0 ==>
                PageFails(v, current, old(rows[..]), PageStart(pages, batchSize), batchSize)
      ensures dryRun || batchSize <= 0 ==> rows[..] == old(rows[..])
      ensures r.Ok? && batchSize > 0 && !dryRun ==>
                RenewedRows(v, current, old(rows[..]), rows[..])
      ensures r.Ok? && batchSize > 0 ==>
                r.value == |OnOtherVersions(old(rows[..]), current)|
    {
      ghost var before := rows[..];
      NothingProcessed(v, current, before);
      Finished(v, current, before);
      if batchSize < 0 {
        return Err(NegativeLimit), 0, 0;
      }
      ghost var run;
      r, run, pages := RotatePages(v, current, batchSize, dryRun, before);
      done := if dryRun then 0 else |run.seen|;
      if r.Ok? && batchSize > 0 {
        assert run.seen == LiveRows(before);
        StaleIsOther(before, current);
        if !dryRun {
          AllRenewed(v, current, before, rows[..]);
        }
      }
    }
  }

  lemma NextRow(v: Vault, current: string, rows: seq<Card>, page: seq<nat>, k: nat)
    requires k < |page| && page[k] < |rows| && page[k] !in page[..k] && !rows[page[k]].deleted
    ensures RotatableIn(v, current, rows, page[..k + 1]) <==>
              RotatableIn(v, current, rows, page[..k])
              && (Stale(rows[page[k]], current) ==> Rotatable(v, current, rows[page[k]]))
    ensures RotatableIn(v, current, rows, page) && Stale(rows[page[k]], current) ==>
        Rotatable(v, current, rows[page[k]])
    ensures StaleCount(rows, current, page[..k + 1])
         == StaleCount(rows, current, page[..k]) + if Stamped(rows[page[k]]) == current then 0 else 1
  {
    assert page[..k + 1] == page[..k] + [page[k]];
  }

  lemma ExtendRotated(v: Vault, current: string, before: seq<Card>, session: seq<Card>, front: seq<nat>,
                      page: seq<nat>, k: nat, row: Card)
    requires k < |page| && page[k] < |before| == |session|
    requires RotatedRows(v, current, before, session, front + page[..k])
    requires RowRotated(v, current, before[page[k]], row)
    ensures RotatedRows(v, current, before, session[page[k] := row], front + page[..k + 1])
    ensures row == session[page[k]] ==> RotatedRows(v, current, before, session, front + page[..k + 1])
  {
    var after := session[page[k] := row];
    assert page[..k + 1] == page[..k] + [page[k]];
    forall i: nat | i < |before|
      ensures RowStep(v, current, before[i], after[i], i in front + page[..k + 1])
    {
      assert RowStep(v, current, before[i], session[i], i in front + page[..k]);
    }
    assert row == session[page[k]] ==> after == session;
  }

  lemma SameFlags(v: Vault, current: string, before: seq<Card>, after: seq<Card>, done: seq<nat>)
    requires RotatedRows(v, current, before, after, done) || after == before
    ensures |after| == |before| && forall i: nat :: i < |before| ==> after[i].deleted == before[i].deleted
  {
    if RotatedRows(v, current, before, after, done) {
      forall i: nat | i < |before|
        ensures after[i].deleted == before[i].deleted
      {
        assert RowStep(v, current, before[i], after[i], i in done);
      }
    }
  }

  /** In a list in increasing order, what comes after a prefix is new. */
  lemma FreshInOrder(live: seq<nat>, start: nat, end: nat, k: nat)
    requires forall a, b :: 0 <= a < b < |live| ==> live[a] < live[b]
    requires start + k < end <= |live|
    ensures live[start..end][k] !in live[..start] && live[start..end][k] !in live[start..end][..k]
  {
    var page := live[start..end];
    assert forall a :: 0 <= a < k ==> page[..k][a] == live[start + a];
  }

  /** The next page holds live rows that were not processed before, and extends the processed prefix. */
  lemma NextPage(rows: seq<Card>, seen: seq<nat>, offset: nat, batch: nat, page: seq<nat>)
    requires |seen| == Clip(offset, |LiveRows(rows)|) && seen == LiveRows(rows)[..|seen|]
    requires page == Page(LiveRows(rows), offset, batch)
    ensures seen + page == LiveRows(rows)[..|seen + page|] && |seen + page| == Clip(offset + batch, |LiveRows(rows)|)
    ensures FreshPage(rows, seen, page)
    ensures page == [] <==> batch == 0 || |LiveRows(rows)| <= offset
  {
    LiveRowsAre(rows);
    var live := LiveRows(rows);
    forall k: nat | k < |page|
      ensures FreshRow(rows, seen, page, k)
    {
      FreshInOrder(live, |seen|, Clip(offset + batch, |live|), k);
      assert page[k] == live[|seen| + k] && live[|seen| + k] in live;
    }
  }

  lemma PageAdds(v: Vault, current: string, rows: seq<Card>, seen: seq<nat>, page: seq<nat>)
    requires FreshPage(rows, seen, page)
    ensures RotatableIn(v, current, rows, seen + page) <==>
              RotatableIn(v, current, rows, seen) && RotatableIn(v, current, rows, page)
    ensures AllRotatable(v, current, rows) ==> RotatableIn(v, current, rows, page)
    ensures StaleCount(rows, current, seen + page) == StaleCount(rows, current, seen) + StaleCount(rows, current, page)
  {
    StaleCountAppend(rows, current, seen, page);
  }

  lemma PageDone(v: Vault, current: string, before: seq<Card>, dryRun: bool, run: Run,
                 page: seq<nat>, table: seq<Card>, count: nat)
    requires Consistent(v, current, before, dryRun, run) && FreshPage(before, run.seen, page)
    requires run.seen + page <= LiveRows(before) && count == StaleCount(before, current, page)
    requires RotatedRows(v, current, before, table, if dryRun then [] else run.seen + page)
    requires dryRun || RotatableIn(v, current, before, page)
    ensures Consistent(v, current, before, dryRun, Run(table, run.seen + page, run.count + count))
  {
    PageAdds(v, current, before, run.seen, page);
  }

  lemma {:induction false} StaleCountAppend(rows: seq<Card>, current: string, a: seq<nat>, b: seq<nat>)
    ensures StaleCount(rows, current, a + b) == StaleCount(rows, current, a) + StaleCount(rows, current, b)
    decreases |b|
  {
    if b == [] {
      assert a + b == a;
    } else {
      StaleCountAppend(rows, current, a, b[..|b| - 1]);
      assert a + b == a + b[..|b| - 1] + [b[|b| - 1]];
      assert (a + b)[..|a + b| - 1] == a + b[..|b| - 1];
    }
  }

  lemma {:induction false} StaleCountPrefix(rows: seq<Card>, more: seq<Card>, current: string, ids: seq<nat>)
    requires forall k :: 0 <= k < |ids| ==> ids[k] < |rows|
    ensures StaleCount(rows + more, current, ids) == StaleCount(rows, current, ids)
  {
    if ids != [] {
      StaleCountPrefix(rows, more, current, ids[..|ids| - 1]);
    }
  }

  lemma StaleRowsAppend(rows: seq<Card>, card: Card, current: string)
    ensures |StaleRows(rows + [card], current)| == |StaleRows(rows, current)| + if Stale(card, current) then 1 else 0
  {
    assert StaleRows(rows + [card], current)
        == StaleRows(rows, current) + if Stale(card, current) then {|rows|} else {};
  }

  lemma StaleCountNext(rows: seq<Card>, current: string, ids: seq<nat>, id: nat)
    requires id < |rows|
    ensures StaleCount(rows, current, ids + [id])
         == StaleCount(rows, current, ids) + if Stale(rows[id], current) then 1 else 0
  {
    assert (ids + [id])[..|ids|] == ids;
  }

  lemma LiveRowsInRange(rows: seq<Card>)
    ensures forall k :: 0 <= k < |LiveRows(rows)| ==> LiveRows(rows)[k] < |rows|
  {
    LiveRowsAre(rows);
    assert forall k :: 0 <= k < |LiveRows(rows)| ==> LiveRows(rows)[k] in LiveRows(rows);
  }

  lemma StaleCountStep(front: seq<Card>, last: Card, current: string, live: seq<nat>)
    requires forall k :: 0 <= k < |live| ==> live[k] < |front|
    ensures StaleCount(front + [last], current, if last.deleted then live else live + [|front|])
         == StaleCount(front, current, live) + if Stale(last, current) then 1 else 0
  {
    StaleCountPrefix(front, [last], current, live);
    StaleCountNext(front + [last], current, live, |front|);
  }

  /** Counting along the pages counts every live stale card once. */
  lemma {:induction false} StaleCountIsAll(rows: seq<Card>, current: string)
    ensures StaleCount(rows, current, LiveRows(rows)) == |StaleRows(rows, current)|
  {
    if rows != [] {
      var front, last := rows[..|rows| - 1], rows[|rows| - 1];
      assert rows == front + [last];
      StaleCountIsAll(front, current);
      LiveRowsInRange(front);
      StaleCountStep(front, last, current, LiveRows(front));
      StaleRowsAppend(front, last, current);
      assert LiveRows(rows) == if last.deleted then LiveRows(front) else LiveRows(front) + [|front|];
    }
  }

  lemma NothingProcessed(v: Vault, current: string, rows: seq<Card>)
    ensures LiveRows(rows)[..0] == [] && StaleCount(rows, current, []) == 0
    ensures RotatedRows(v, current, rows, rows, []) && RotatableIn(v, current, rows, [])
    ensures forall after :: RotatedRows(v, current, rows, after, []) ==> after == rows
  {
    forall after | RotatedRows(v, current, rows, after, [])
      ensures after == rows
    {
      assert forall i: nat :: i < |rows| ==> RowStep(v, current, rows[i], after[i], false);
    }
  }

  lemma Finished(v: Vault, current: string, rows: seq<Card>)
    ensures LiveRows(rows)[..|LiveRows(rows)|] == LiveRows(rows)
    ensures StaleCount(rows, current, LiveRows(rows)) == |StaleRows(rows, current)|
    ensures RotatableIn(v, current, rows, LiveRows(rows)) <==> AllRotatable(v, current, rows)
  {
    LiveRowsAre(rows);
    StaleCountIsAll(rows, current);
  }

  // ---------------------------------------------------------------- what a run achieves

  /** Every row decrypts to the same secrets at every commit, finished or interrupted. */
  lemma SecretsPreserved(v: Vault, current: string, before: seq<Card>, after: seq<Card>, n: nat)
    requires n <= |LiveRows(before)| && RotatedUpTo(v, current, before, after, n)
    ensures forall i: nat :: i < |before| ==>
        Pan(v, after[i]) == Pan(v, before[i]) && Cvv(v, after[i]) == Cvv(v, before[i])
  {
  }

  /** After a full run no live card is stale and deleted cards are as they were. */
  lemma NothingStaleLeft(v: Vault, current: string, before: seq<Card>, after: seq<Card>)
    requires current != "" && RotatedUpTo(v, current, before, after, |LiveRows(before)|)
    ensures StaleRows(after, current) == {}
    ensures forall i: nat :: i < |before| && before[i].deleted ==> after[i] == before[i]
    ensures forall i: nat :: i < |before| && !before[i].deleted ==> Stamped(after[i]) == current
  {
    LiveRowsAre(before);
    assert LiveRows(before)[..|LiveRows(before)|] == LiveRows(before);
  }

  /** A live card that is encrypted under another version than this one; no tag and an empty tag stand for "v1". */
  predicate OnOtherVersion(c: Card, current: string) {
    !c.deleted && (if c.version == None || c.version == Some("") then current != "v1" else c.version != Some(current))
  }

  /**
   * What a full run has done to one card: a live one on another version carries the current tag, and its fields
   * decipher under the current key to what the old ones did under the old key; any other card is as it was.
   */
  ghost predicate Renewed(v: Vault, current: string, before: Card, after: Card) {
    if OnOtherVersion(before, current) then
      var version := if before.version == None || before.version == Some("") then "v1" else before.version.value;
      && after.version == Some(current) && !after.deleted && version in v.configured && current in v.configured
      && before.pan.Some? && after.pan.Some? && before.cvv.Some? && after.cvv.Some?
      && v.dec(current, after.pan.value) == v.dec(version, before.pan.value) != None
      && v.dec(current, after.cvv.value) == v.dec(version, before.cvv.value) != None
    else after == before
  }

  ghost predicate RenewedRows(v: Vault, current: string, before: seq<Card>, after: seq<Card>) {
    |after| == |before| && forall i: nat :: i < |before| ==> Renewed(v, current, before[i], after[i])
  }

  ghost function OnOtherVersions(rows: seq<Card>, current: string): set<nat> {
    set i: nat | i < |rows| && OnOtherVersion(rows[i], current)
  }

  lemma StaleIsOther(rows: seq<Card>, current: string)
    ensures StaleRows(rows, current) == OnOtherVersions(rows, current)
  {
  }

  /** A full run renews every card. */
  lemma AllRenewed(v: Vault, current: string, before: seq<Card>, after: seq<Card>)
    requires RotatedUpTo(v, current, before, after, |LiveRows(before)|) && AllRotatable(v, current, before)
    requires "" !in v.configured
    ensures RenewedRows(v, current, before, after)
  {
    LiveRowsAre(before);
    assert LiveRows(before)[..|LiveRows(before)|] == LiveRows(before);
    forall i: nat | i < |before|
      ensures Renewed(v, current, before[i], after[i])
    {
      assert RowStep(v, current, before[i], after[i], !before[i].deleted);
    }
  }

  /** A run that starts where an interrupted one stopped ends where an uninterrupted run would. */
  lemma RestartCompletes(v: Vault, current: string, before: seq<Card>, stopped: seq<Card>, n: nat, after: seq<Card>)
    requires current != "" && n <= |LiveRows(before)|
    requires RotatedUpTo(v, current, before, stopped, n)
    requires RotatedUpTo(v, current, stopped, after, |LiveRows(stopped)|)
    ensures RotatedUpTo(v, current, before, after, |LiveRows(before)|)
  {
    LiveRowsStable(before, stopped);
    LiveRowsAre(before);
    var live := LiveRows(before);
    assert live[..|live|] == live;
    forall i: nat | i < |before|
      ensures if i in live[..|live|] then RowRotated(v, current, before[i], after[i]) else after[i] == before[i]
    {
      assert if i in live[..n] then RowRotated(v, current, before[i], stopped[i]) else stopped[i] == before[i];
      assert if i in LiveRows(stopped)[..|live|] then RowRotated(v, current, stopped[i], after[i])
             else after[i] == stopped[i];
    }
  }

  /**
   * What an interrupted run leaves can still be rotated: the rows already done no longer count, the others are
   * unchanged.
   */
  lemma RestartCanRun(v: Vault, current: string, before: seq<Card>, stopped: seq<Card>, n: nat)
    requires current != "" && n <= |LiveRows(before)| && RotatedUpTo(v, current, before, stopped, n)
    ensures AllRotatable(v, current, before) ==> AllRotatable(v, current, stopped)
    ensures StaleRows(stopped, current) <= StaleRows(before, current)
  {
    forall i: nat | i < |before| && i in LiveRows(before)[..n]
      ensures !Stale(stopped[i], current)
    {
      assert RowRotated(v, current, before[i], stopped[i]);
    }
  }

  /** Once nothing is stale, any further run changes no row. */
  lemma SecondRunIsIdle(v: Vault, current: string, rows: seq<Card>, after: seq<Card>, n: nat)
    requires StaleRows(rows, current) == {} && n <= |LiveRows(rows)| && RotatedUpTo(v, current, rows, after, n)
    ensures after == rows
  {
    forall i: nat | i < |rows|
      ensures after[i] == rows[i]
    {
      assert i !in StaleRows(rows, current);
    }
  }
}
