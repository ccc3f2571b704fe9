/** Which outbox rows are published in the end. A poll reads the fifty oldest unpublished rows and
    leaves those it cannot deliver, so that these stand in the way of younger ones. */
module Starvation {
  import opened Common
  import opened AuditEvents
  import opened Relay

  // What no run delivers.

  /** A state the relay can be in: only acceptable events were recorded. */
  ghost predicate Reached(s: State, fits: Event -> bool) {
    Inv(s) && forall e :: e in s.audit ==> Acceptable(e, fits)
  }

  lemma StepKeepsReached(s: State, a: Action, fits: Event -> bool)
    requires Reached(s, fits) && Enabled(s, a, fits)
    ensures Reached(Apply(s, a, fits), fits)
  {
    StepKeepsInv(s, a, fits);
  }

  lemma {:induction false} RunKeepsReached(s: State, run: seq<Action>, fits: Event -> bool)
    requires Reached(s, fits) && Legal(s, run, fits)
    ensures Reached(Run(s, run, fits), fits)
    decreases |run|
  {
    if run != [] {
      StepKeepsReached(s, run[0], fits);
      RunKeepsReached(Apply(s, run[0], fits), run[1..], fits);
    }
  }

  /** Undeliverable rows have no event and are never published. */
  lemma UndeliverableStays(s: State, row: OutboxRow, fits: Event -> bool)
    requires Reached(s, fits) && row in s.outbox && !Deliverable(row, fits)
    ensures !HasEvent(s.audit, row.id) && row.id !in s.publishedAt
  {
    InvGivesExactlyOnce(s);
  }

  /** Ids of the undeliverable rows older than the instant. */
  ghost function Older(outbox: seq<OutboxRow>, since: int, fits: Event -> bool): (ids: set<string>) {
    set row | row in outbox && row.createdAt < since && !Deliverable(row, fits) :: row.id
  }

  /** Fifty unpublished undeliverable rows that are older keep a row out of every poll. */
  lemma PollSkips(outbox: seq<OutboxRow>, published: set<string>, batch: seq<OutboxRow>, x: OutboxRow, fits: Event -> bool)
    requires IsPoll(outbox, published, batch)
    requires |Older(outbox, x.createdAt, fits)| >= BATCH && Older(outbox, x.createdAt, fits) !! published
    requires Deliverable(x, fits)
    ensures x !in batch
  {
    if x in batch {
      var older := Older(outbox, x.createdAt, fits);
      var ids := set row | row in batch :: row.id;
      BatchIds(batch);
      forall id | id in older ensures id in ids - {x.id} {
        var row :| row in outbox && row.createdAt < x.createdAt && !Deliverable(row, fits) && row.id == id;
        assert row in batch && row != x;
      }
      SubsetSize(older, ids - {x.id});
    }
  }

  /** No replica is about to publish the row. */
  ghost predicate Unheld(s: State, x: OutboxRow) {
    forall w :: w in s.workers ==> x !in s.workers[w].todo && (s.workers[w].Looping? || s.workers[w].row != x)
  }

  /** A deliverable row that is unpublished, held by no replica, and has fifty undeliverable rows before
      it. */
  ghost predicate Starved(s: State, x: OutboxRow, fits: Event -> bool) {
    && x in s.outbox && x.id !in s.publishedAt && Deliverable(x, fits) && Unheld(s, x)
    && |Older(s.outbox, x.createdAt, fits)| >= BATCH
  }

  lemma OlderGrows(outbox: seq<OutboxRow>, outbox': seq<OutboxRow>, since: int, fits: Event -> bool)
    requires outbox <= outbox'
    ensures Older(outbox, since, fits) <= Older(outbox', since, fits)
  {
    forall id | id in Older(outbox, since, fits) ensures id in Older(outbox', since, fits) {
      var row :| row in outbox && row.createdAt < since && !Deliverable(row, fits) && row.id == id;
      assert row in outbox';
    }
  }

  lemma OlderIsUnpublished(s: State, since: int, fits: Event -> bool)
    requires Reached(s, fits)
    ensures Older(s.outbox, since, fits) !! s.publishedAt.Keys
  {
    forall id | id in Older(s.outbox, since, fits) ensures id !in s.publishedAt {
      var row :| row in s.outbox && row.createdAt < since && !Deliverable(row, fits) && row.id == id;
      UndeliverableStays(s, row, fits);
    }
  }

  lemma StepStaysStarved(s: State, a: Action, x: OutboxRow, fits: Event -> bool)
    requires Reached(s, fits) && Starved(s, x, fits) && Enabled(s, a, fits)
    ensures Starved(Apply(s, a, fits), x, fits)
  {
    var s' := Apply(s, a, fits);
    StepGrows(s, a, fits);
    OlderGrows(s.outbox, s'.outbox, x.createdAt, fits);
    SubsetSize(Older(s.outbox, x.createdAt, fits), Older(s'.outbox, x.createdAt, fits));
    if a.Poll? {
      OlderIsUnpublished(s, x.createdAt, fits);
      PollSkips(s.outbox, s.publishedAt.Keys, a.batch, x, fits);
    }
    if a.Mark? {
      assert WorkerInv(s, WorkerOf(s, a.worker));
    }
  }

  /** Starvation, row by row: a row with fifty older undeliverable ones that no replica holds is never
      published, in any run, whatever else is in the table and whatever is committed later. */
  lemma {:induction false} StarvedForever(s: State, run: seq<Action>, x: OutboxRow, fits: Event -> bool)
    requires Reached(s, fits) && Starved(s, x, fits) && Legal(s, run, fits)
    ensures Starved(Run(s, run, fits), x, fits)
    decreases |run|
  {
    if run != [] {
      StepStaysStarved(s, run[0], x, fits);
      StepKeepsReached(s, run[0], fits);
      StarvedForever(Apply(s, run[0], fits), run[1..], x, fits);
    }
  }

  // All rows at once.

  /** Fifty undeliverable rows are older than the instant; every deliverable row that is unpublished is at
      least as young as that, and held by no replica. */
  ghost predicate Blocked(s: State, since: int, fits: Event -> bool) {
    && |Older(s.outbox, since, fits)| >= BATCH
    && (forall x :: x in s.outbox && x.id !in s.publishedAt && Deliverable(x, fits) ==>
          since <= x.createdAt && Unheld(s, x))
  }

  lemma BlockedRowStarves(s: State, since: int, x: OutboxRow, fits: Event -> bool)
    requires Blocked(s, since, fits) && x in s.outbox && x.id !in s.publishedAt && Deliverable(x, fits)
    ensures Starved(s, x, fits)
  {
    assert Older(s.outbox, since, fits) <= Older(s.outbox, x.createdAt, fits);
    SubsetSize(Older(s.outbox, since, fits), Older(s.outbox, x.createdAt, fits));
  }

  lemma NothingToMark(s: State, since: int, w: nat, fits: Event -> bool)
    requires Reached(s, fits) && Blocked(s, since, fits) && WorkerOf(s, w).Confirmed?
    ensures WorkerOf(s, w).row.id in s.publishedAt
  {
    var row := WorkerOf(s, w).row;
    assert WorkerInv(s, s.workers[w]);
    if !Deliverable(row, fits) { UndeliverableStays(s, row, fits); }
    assert row.id !in s.publishedAt ==> Unheld(s, row);
  }

  lemma StepStaysBlocked(s: State, a: Action, since: int, fits: Event -> bool)
    requires Reached(s, fits) && Blocked(s, since, fits) && Enabled(s, a, fits)
    requires a.Commit? ==> since <= a.row.createdAt
    ensures Blocked(Apply(s, a, fits), since, fits) && Apply(s, a, fits).publishedAt == s.publishedAt
  {
    var s' := Apply(s, a, fits);
    StepGrows(s, a, fits);
    OlderGrows(s.outbox, s'.outbox, since, fits);
    SubsetSize(Older(s.outbox, since, fits), Older(s'.outbox, since, fits));
    if a.Mark? { NothingToMark(s, since, a.worker, fits); }
    forall x | x in s'.outbox && x.id !in s'.publishedAt && Deliverable(x, fits)
      ensures since <= x.createdAt && Unheld(s', x)
    {
      if x in s.outbox {
        BlockedRowStarves(s, since, x, fits);
        StepStaysStarved(s, a, x, fits);
      } else {
        NewRowIsUnheld(s, x);
      }
    }
  }

  lemma NewRowIsUnheld(s: State, x: OutboxRow)
    requires Inv(s) && x !in s.outbox
    ensures Unheld(s, x)
  {
    forall w | w in s.workers ensures x !in s.workers[w].todo && (s.workers[w].Looping? || s.workers[w].row != x) {
      assert WorkerInv(s, s.workers[w]);
    }
  }

  /** The corollary for the whole table: from a blocked state nothing is published any more, as long as
      no row is dated before the instant. */
  lemma {:induction false} BlockedForever(s: State, run: seq<Action>, since: int, fits: Event -> bool)
    requires Reached(s, fits) && Blocked(s, since, fits) && Legal(s, run, fits)
    requires forall a :: a in run && a.Commit? ==> since <= a.row.createdAt
    ensures Run(s, run, fits).publishedAt == s.publishedAt
    decreases |run|
  {
    if run != [] {
      assert run[0] in run;
      StepKeepsReached(s, run[0], fits);
      StepStaysBlocked(s, run[0], since, fits);
      BlockedForever(Apply(s, run[0], fits), run[1..], since, fits);
    }
  }

  // A run into such a state.

  function Digit(n: nat): (c: char)
    requires n < 10
  {
    (n + 48) as char
  }

  function UuidOf(n: nat): (id: string)
    requires n < 100
  {
    "00000000-0000-0000-0000-0000000000" + [Digit(n / 10), Digit(n % 10)]
  }

  predicate IsDash(i: int) { i == 8 || i == 13 || i == 18 || i == 23 }

  lemma DigitsAreUuid(s: string)
    requires |s| == 36 && forall i :: 0 <= i < 36 ==> if IsDash(i) then s[i] == '-' else '0' <= s[i] <= '9'
    ensures IsUuidText(s)
  {
    assert IsDash(8) && IsDash(13) && IsDash(18) && IsDash(23);
    DigitsAreHex(s[..8]);
    DigitsAreHex(s[9..13]);
    DigitsAreHex(s[14..18]);
    DigitsAreHex(s[19..23]);
    DigitsAreHex(s[24..]);
  }

  lemma DigitsAreHex(s: string)
    requires forall i :: 0 <= i < |s| ==> '0' <= s[i] <= '9'
    ensures IsHex(s)
  {}

  lemma UuidOfIsUuid(n: nat)
    requires n < 100
    ensures IsUuidText(UuidOf(n))
  {
    var zeros, id := "00000000-0000-0000-0000-0000000000", UuidOf(n);
    assert forall i :: 0 <= i < |zeros| ==> if IsDash(i) then zeros[i] == '-' else zeros[i] == '0';
    assert forall i :: 0 <= i < |zeros| ==> id[i] == zeros[i];
    DigitsAreUuid(id);
  }

  lemma UuidsDiffer(m: nat, n: nat)
    requires m < 100 && n < 100 && m != n
    ensures UuidOf(m) != UuidOf(n)
  {
    assert UuidOf(m)[34] == Digit(m / 10) && UuidOf(m)[35] == Digit(m % 10);
    assert UuidOf(n)[34] == Digit(n / 10) && UuidOf(n)[35] == Digit(n % 10);
  }

  predicate AllUuids(rows: seq<OutboxRow>) { forall i :: 0 <= i < |rows| ==> IsUuidText(rows[i].id) }

  /** Rows with ids of their own can be committed one after the other. */
  lemma {:induction false} CommitAll(rows: seq<OutboxRow>, fits: Event -> bool) returns (run: seq<Action>)
    requires DistinctRows(rows) && AllUuids(rows)
    ensures Legal(EMPTY, run, fits) && Run(EMPTY, run, fits) == EMPTY.(outbox := rows)
  {
    if rows == [] {
      run := [];
    } else {
      var init, last := rows[..|rows| - 1], rows[|rows| - 1];
      run := CommitAll(init, fits);
      CommitOne(init, last, fits);
      LastIsNew(rows);
      RunOneMore(EMPTY, run, Commit(last), fits);
      run := run + [Commit(last)];
      assert rows == init + [last];
    }
  }

  lemma CommitOne(rows: seq<OutboxRow>, row: OutboxRow, fits: Event -> bool)
    ensures IsUuidText(row.id) && !HasRow(rows, row.id) ==> Enabled(EMPTY.(outbox := rows), Commit(row), fits)
    ensures Enabled(EMPTY.(outbox := rows), Commit(row), fits) ==>
              Apply(EMPTY.(outbox := rows), Commit(row), fits) == EMPTY.(outbox := rows + [row])
  {}

  lemma LastIsNew(rows: seq<OutboxRow>)
    requires rows != [] && DistinctRows(rows)
    ensures !HasRow(rows[..|rows| - 1], rows[|rows| - 1].id)
  {}

  /** A row whose payload is no JSON object. */
  function BadRow(n: nat): (row: OutboxRow)
    requires n < 100
  {
    OutboxRow(UuidOf(n), UPDATED, NotAnObject, n)
  }

  function BadRows(n: nat): (rows: seq<OutboxRow>)
    requires n <= 99
    ensures |rows| == n && forall i :: 0 <= i < n ==> rows[i] == BadRow(i)
  {
    seq(n, i requires 0 <= i < n => BadRow(i))
  }

  lemma {:induction false} BadRowsAreOlder(outbox: seq<OutboxRow>, n: nat, since: int, fits: Event -> bool)
    requires n <= 99 && n <= since && forall i :: 0 <= i < n ==> BadRow(i) in outbox
    ensures |Older(outbox, since, fits)| >= n
    ensures forall i :: 0 <= i < n ==> UuidOf(i) in Older(outbox, since, fits)
  {
    var ids := set i | 0 <= i < n :: UuidOf(i);
    CountUuids(n);
    forall i | 0 <= i < n ensures UuidOf(i) in Older(outbox, since, fits) {
      assert BadRow(i).id == UuidOf(i);
    }
    assert ids <= Older(outbox, since, fits);
    SubsetSize(ids, Older(outbox, since, fits));
  }

  lemma {:induction false} CountUuids(n: nat)
    requires n <= 99
    ensures |set i | 0 <= i < n :: UuidOf(i)| == n
  {
    if n > 0 {
      CountUuids(n - 1);
      var before := set i | 0 <= i < n - 1 :: UuidOf(i);
      forall i | 0 <= i < n - 1 ensures UuidOf(i) != UuidOf(n - 1) { UuidsDiffer(i, n - 1); }
      assert (set i | 0 <= i < n :: UuidOf(i)) == before + {UuidOf(n - 1)};
    }
  }

  function GoodRow(payload: map<string, Json>): (row: OutboxRow) { OutboxRow(UuidOf(50), CREATED, Fields(payload), 50) }

  lemma NumberedIdsDiffer(rows: seq<OutboxRow>)
    requires |rows| <= 100 && forall i :: 0 <= i < |rows| ==> rows[i].id == UuidOf(i)
    ensures DistinctRows(rows)
  {
    forall i, j | 0 <= i < j < |rows| ensures rows[i].id != rows[j].id { UuidsDiffer(i, j); }
  }

  lemma NumberedIdsAreUuids(rows: seq<OutboxRow>)
    requires |rows| <= 100 && forall i :: 0 <= i < |rows| ==> rows[i].id == UuidOf(i)
    ensures AllUuids(rows)
  {
    forall i | 0 <= i < |rows| ensures IsUuidText(rows[i].id) { UuidOfIsUuid(i); }
  }

  lemma FiftyAndOne(payload: map<string, Json>) returns (rows: seq<OutboxRow>)
    ensures |rows| == 51 && (forall i :: 0 <= i < 50 ==> rows[i] == BadRow(i)) && rows[50] == GoodRow(payload)
    ensures DistinctRows(rows) && AllUuids(rows)
  {
    rows := BadRows(50) + [GoodRow(payload)];
    forall i | 0 <= i < |rows| ensures rows[i].id == UuidOf(i) {
      if i < 50 { assert rows[i] == BadRow(i); }
    }
    NumberedIdsDiffer(rows);
    NumberedIdsAreUuids(rows);
  }

  lemma GoodRowIsOldest(rows: seq<OutboxRow>, payload: map<string, Json>, fits: Event -> bool)
    requires |rows| == 51 && (forall i :: 0 <= i < 50 ==> rows[i] == BadRow(i)) && rows[50] == GoodRow(payload)
    requires fits(RowToEvent(GoodRow(payload)).value)
    ensures GoodRow(payload) in rows && Deliverable(GoodRow(payload), fits)
    ensures forall row :: row in rows && Deliverable(row, fits) ==> row == GoodRow(payload)
    ensures |Older(rows, 50, fits)| >= BATCH
  {
    assert rows[50] in rows;
    assert |UuidOf(50)| > 0 && |BUSINESS_SOURCE| > 0 && |CREATED| > 0;
    forall i | 0 <= i < 50 ensures BadRow(i) in rows { assert rows[i] == BadRow(i); }
    BadRowsAreOlder(rows, 50, 50, fits);
  }

  /** Fifty bad rows and a good one: a run from the empty tables into a state in which the good row is
      starved and the relay is blocked. */
  lemma StarvationHappens(payload: map<string, Json>, fits: Event -> bool) returns (run: seq<Action>)
    requires fits(RowToEvent(GoodRow(payload)).value)
    ensures Legal(EMPTY, run, fits) && Reached(Run(EMPTY, run, fits), fits)
    ensures Starved(Run(EMPTY, run, fits), GoodRow(payload), fits) && Blocked(Run(EMPTY, run, fits), 50, fits)
  {
    var rows := FiftyAndOne(payload);
    run := CommitAll(rows, fits);
    RunKeepsReached(EMPTY, run, fits);
    GoodRowIsOldest(rows, payload, fits);
  }
}
