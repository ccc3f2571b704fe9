/** The outbox read by created_at instead of in commit order. A row's created_at is the start of its
    transaction, so the two orders differ. */
module Readings {
  import opened Common
  import opened AuditEvents
  import opened ItemLog
  import opened Items

  /** Distinct rows, none younger than a later one. */
  predicate ByCreatedAt(log: seq<OutboxRow>) {
    forall i, j :: 0 <= i < j < |log| ==> log[i] != log[j] && log[i].createdAt <= log[j].createdAt
  }

  /** The table read by ORDER BY created_at: its rows, each once, ties in any order. */
  ghost predicate IsReading(log: seq<OutboxRow>, outbox: seq<OutboxRow>) {
    (forall row :: row in log <==> row in outbox) && ByCreatedAt(log)
  }

  // Two overlapping updates of one item; the one that began first commits last.

  function Early(key: string): (op: Op) { Update(WHO, key, Some("early"), None) }

  function Late(key: string): (op: Op) { Update(WHO, key, Some("last one"), None) }

  function LateRow(key: string): (row: OutboxRow) { RowFor(Late(key), "rr", 11, key, Some(Titled("last one"))) }

  function EarlyRow(key: string): (row: OutboxRow) { RowFor(Early(key), "rrr", 10, key, Some(Titled("early"))) }

  /** The item was created, and both updates have begun. */
  function BothBegun(key: string): (s: State) {
    Made(key).(calls := map[0 := Committed(MadeRow(key)), 1 := Begun(Early(key), 10), 2 := Begun(Late(key), 11)])
  }

  lemma BeginBoth(run0: seq<Action>, key: string) returns (run: seq<Action>)
    requires Spelled(key) && Legal(EMPTY, run0) && Run(EMPTY, run0) == Made(key)
    ensures Legal(EMPTY, run) && Run(EMPTY, run) == BothBegun(key)
  {
    var s := Made(key);
    run := run0;
    run, s := Extend(EMPTY, run, s, Submit(1, Early(key)));
    run, s := Extend(EMPTY, run, s, FindOwned(1));
    run, s := Extend(EMPTY, run, s, Submit(2, Late(key)));
    run, s := Extend(EMPTY, run, s, FindOwned(2));
    run, s := Extend(EMPTY, run, s, Begin(1, 10));
    run, s := Extend(EMPTY, run, s, Begin(2, 11));
  }

  lemma CommitUpdate(run0: seq<Action>, c: nat, rowId: string, at: int, key: string, title: string) returns (run: seq<Action>)
    requires Spelled(key) && Legal(EMPTY, run0)
    requires var s, op := Run(EMPTY, run0), Update(WHO, key, Some(title), None);
             && c in s.calls && s.calls[c] == Begun(op, at) && FreshRow(s, rowId) && Unlocked(s, key)
             && s.items.Keys == {key} && s.items[key].(title := "") == Titled("")
    ensures Legal(EMPTY, run)
    ensures var s, op := Run(EMPTY, run0), Update(WHO, key, Some(title), None);
            var row := RowFor(op, rowId, at, key, Some(Titled(title)));
            Run(EMPTY, run) == State(map[key := Titled(title)], s.outbox + [row], s.calls[c := Committed(row)], s.jobs,
                                     s.asked + [op])
  {
    var s := Run(EMPTY, run0);
    run := run0;
    run, s := Extend(EMPTY, run, s, Write(c, ""));
    run, s := Extend(EMPTY, run, s, Log(c, rowId));
    run, s := Extend(EMPTY, run, s, Commit(c));
    assert s.items == map[key := Titled(title)];
  }

  lemma LateCommits(key: string) returns (run: seq<Action>)
    requires Spelled(key) && key != ""
    ensures Legal(EMPTY, run)
    ensures Run(EMPTY, run) == State(map[key := Titled("last one")], [MadeRow(key), LateRow(key)],
                                     map[0 := Committed(MadeRow(key)), 1 := Begun(Early(key), 10), 2 := Committed(LateRow(key))],
                                     [], [MAKE, Late(key)])
  {
    run := MakeItem(key);
    run := BeginBoth(run, key);
    run := CommitUpdate(run, 2, "rr", 11, key, "last one");
  }

  lemma OverlappingUpdates(key: string) returns (run: seq<Action>)
    requires Spelled(key) && key != ""
    ensures Legal(EMPTY, run)
    ensures Run(EMPTY, run).outbox == [MadeRow(key), LateRow(key), EarlyRow(key)]
    ensures Run(EMPTY, run).items == map[key := Titled("early")]
  {
    run := LateCommits(key);
    run := CommitUpdate(run, 1, "rrr", 10, key, "early");
  }

  lemma StaleReading(key: string)
    ensures IsReading([MadeRow(key), EarlyRow(key), LateRow(key)], [MadeRow(key), LateRow(key), EarlyRow(key)])
    ensures Replay([MadeRow(key), EarlyRow(key), LateRow(key)], key) == Live("t", "last one")
  {}

  /** Read by created_at, the table then tells the title that the item no longer has, whatever its id. */
  lemma CreatedAtOrderMisleads(key: string) returns (run: seq<Action>, reading: seq<OutboxRow>)
    requires Spelled(key) && key != ""
    ensures Legal(EMPTY, run) && IsReading(reading, Run(EMPTY, run).outbox)
    ensures key in Run(EMPTY, run).items
    ensures Replay(reading, key) != ViewOf(Run(EMPTY, run).items, key)
  {
    run := OverlappingUpdates(key);
    reading := [MadeRow(key), EarlyRow(key), LateRow(key)];
    StaleReading(key);
    assert |Titled("early").title| != |"last one"|;
  }

  // When a reading tells what the table tells.

  function LastAbout(log: seq<OutboxRow>, id: string): (row: Option<OutboxRow>) {
    if log == [] then None
    else if ItemOf(log[|log| - 1]) == id then Some(log[|log| - 1])
    else LastAbout(log[..|log| - 1], id)
  }

  function ViewIn(row: Option<OutboxRow>): (view: View) {
    if row.None? then Absent else Told(Absent, row.value, ItemOf(row.value))
  }

  /** The last row about an item is all that counts. */
  lemma {:induction false} ReplayIsLast(log: seq<OutboxRow>, id: string)
    ensures Replay(log, id) == ViewIn(LastAbout(log, id))
  {
    if log != [] { ReplayIsLast(log[..|log| - 1], id); }
  }

  lemma {:induction false} LastAboutPlace(log: seq<OutboxRow>, id: string) returns (k: nat)
    ensures LastAbout(log, id).None? ==> forall row :: row in log ==> ItemOf(row) != id
    ensures LastAbout(log, id).Some? ==> k < |log| && LastAbout(log, id) == Some(log[k]) && ItemOf(log[k]) == id
    ensures LastAbout(log, id).Some? ==> forall i :: k < i < |log| ==> ItemOf(log[i]) != id
  {
    k := 0;
    if log != [] {
      if ItemOf(log[|log| - 1]) == id {
        k := |log| - 1;
      } else {
        k := LastAboutPlace(log[..|log| - 1], id);
        assert log == log[..|log| - 1] + [log[|log| - 1]];
      }
    }
  }

  lemma {:induction false} LastAboutIs(log: seq<OutboxRow>, id: string, k: nat)
    requires k < |log| && ItemOf(log[k]) == id && forall i :: k < i < |log| ==> ItemOf(log[i]) != id
    ensures LastAbout(log, id) == Some(log[k])
    decreases |log|
  {
    if k < |log| - 1 { LastAboutIs(log[..|log| - 1], id, k); }
  }

  /** One reading: it tells of an item what the table tells if and only if the last row about it in
      the reading says the same as the last one committed. */
  lemma ReadingTellsExactly(reading: seq<OutboxRow>, outbox: seq<OutboxRow>, id: string)
    ensures Replay(reading, id) == Replay(outbox, id) <==>
            ViewIn(LastAbout(reading, id)) == ViewIn(LastAbout(outbox, id))
  {
    ReplayIsLast(reading, id);
    ReplayIsLast(outbox, id);
  }

  predicate Youngest(outbox: seq<OutboxRow>, id: string, row: OutboxRow) {
    && row in outbox && ItemOf(row) == id
    && forall other :: other in outbox && ItemOf(other) == id ==> other.createdAt <= row.createdAt
  }

  /** A condition on the rows: whichever of an item's youngest rows comes last, it says the same. */
  ghost predicate YoungestTell(outbox: seq<OutboxRow>, id: string) {
    forall row :: Youngest(outbox, id, row) ==> ViewIn(Some(row)) == Replay(outbox, id)
  }

  ghost predicate EveryReadingTells(outbox: seq<OutboxRow>, id: string) {
    forall reading :: IsReading(reading, outbox) ==> Replay(reading, id) == Replay(outbox, id)
  }

  lemma YoungestTellSuffices(outbox: seq<OutboxRow>, reading: seq<OutboxRow>, id: string)
    requires IsReading(reading, outbox) && YoungestTell(outbox, id)
    ensures Replay(reading, id) == Replay(outbox, id)
  {
    ReplayIsLast(reading, id);
    var k := LastAboutPlace(reading, id);
    if LastAbout(reading, id).Some? {
      assert reading[k] in reading;
      forall other | other in outbox && ItemOf(other) == id ensures other.createdAt <= reading[k].createdAt {
        assert other in reading;
        var i :| 0 <= i < |reading| && reading[i] == other;
      }
      assert Youngest(outbox, id, reading[k]);
    } else {
      ReplayIsLast(outbox, id);
      var j := LastAboutPlace(outbox, id);
    }
  }

  // A reading in which a given row comes after all of its age.

  function InsertRow(row: OutboxRow, log: seq<OutboxRow>): (r: seq<OutboxRow>) {
    if log == [] || log[|log| - 1].createdAt <= row.createdAt then log + [row]
    else InsertRow(row, log[..|log| - 1]) + [log[|log| - 1]]
  }

  lemma {:induction false} InsertRowFacts(row: OutboxRow, log: seq<OutboxRow>) returns (k: nat)
    requires ByCreatedAt(log) && row !in log
    ensures ByCreatedAt(InsertRow(row, log))
    ensures forall x :: x in InsertRow(row, log) <==> x in log || x == row
    ensures var r := InsertRow(row, log);
            k < |r| && r[k] == row && forall i :: k < i < |r| ==> row.createdAt < r[i].createdAt
  {
    if log == [] || log[|log| - 1].createdAt <= row.createdAt {
      k := |log|;
    } else {
      var init, last := log[..|log| - 1], log[|log| - 1];
      assert log == init + [last];
      k := InsertRowFacts(row, init);
      var r := InsertRow(row, init);
      forall i | 0 <= i < |r| ensures r[i] != last && r[i].createdAt <= last.createdAt {
        assert r[i] in r;
        if r[i] != row { var j :| 0 <= j < |init| && init[j] == r[i]; }
      }
    }
  }

  function Sorted(log: seq<OutboxRow>): (r: seq<OutboxRow>) {
    if log == [] then [] else InsertRow(log[|log| - 1], Sorted(log[..|log| - 1]))
  }

  predicate DistinctIds(log: seq<OutboxRow>) { forall i, j :: 0 <= i < j < |log| ==> log[i].id != log[j].id }

  lemma {:induction false} SortedIsReading(log: seq<OutboxRow>)
    requires DistinctIds(log)
    ensures IsReading(Sorted(log), log)
  {
    if log != [] {
      var init, last := log[..|log| - 1], log[|log| - 1];
      SortedIsReading(init);
      assert log == init + [last];
      var k := InsertRowFacts(last, Sorted(init));
    }
  }

  lemma ReadingThatEndsWith(outbox: seq<OutboxRow>, y: OutboxRow) returns (reading: seq<OutboxRow>, k: nat)
    requires DistinctIds(outbox) && y in outbox
    ensures IsReading(reading, outbox)
    ensures k < |reading| && reading[k] == y && forall i :: k < i < |reading| ==> y.createdAt < reading[i].createdAt
  {
    var i :| 0 <= i < |outbox| && outbox[i] == y;
    var others := outbox[..i] + outbox[i + 1..];
    SortedIsReading(others);
    assert y !in others;
    k := InsertRowFacts(y, Sorted(others));
    reading := InsertRow(y, Sorted(others));
    forall row ensures row in reading <==> row in outbox {
      assert row in outbox <==> row in others || row == outbox[i];
    }
  }

  lemma EveryReadingMeansYoungest(outbox: seq<OutboxRow>, id: string, y: OutboxRow)
    requires DistinctIds(outbox) && EveryReadingTells(outbox, id) && Youngest(outbox, id, y)
    ensures ViewIn(Some(y)) == Replay(outbox, id)
  {
    var reading, k := ReadingThatEndsWith(outbox, y);
    forall i | k < i < |reading| ensures ItemOf(reading[i]) != id {
      assert reading[i] in reading;
    }
    LastAboutIs(reading, id, k);
    ReplayIsLast(reading, id);
  }

  /** The exact condition: however ties fall, reading a run's outbox by created_at tells of an item
      what reading it in commit order tells, if and only if each of the item's youngest rows does. */
  lemma CreatedAtOrderExactly(run: seq<Action>, id: string)
    requires Legal(EMPTY, run)
    ensures var outbox := Run(EMPTY, run).outbox;
            EveryReadingTells(outbox, id) <==> YoungestTell(outbox, id)
  {
    RunKeepsInv(EMPTY, run);
    var outbox := Run(EMPTY, run).outbox;
    if YoungestTell(outbox, id) {
      forall reading | IsReading(reading, outbox) ensures Replay(reading, id) == Replay(outbox, id) {
        YoungestTellSuffices(outbox, reading, id);
      }
    }
    if EveryReadingTells(outbox, id) {
      forall row | Youngest(outbox, id, row) ensures ViewIn(Some(row)) == Replay(outbox, id) {
        EveryReadingMeansYoungest(outbox, id, row);
      }
    }
  }

  /** In particular it is enough that the transaction that wrote last about the item began last. */
  lemma CreatedAtOrderSuffices(outbox: seq<OutboxRow>, reading: seq<OutboxRow>, id: string)
    requires IsReading(reading, outbox)
    requires forall last, row :: LastAbout(outbox, id) == Some(last) && row in outbox && ItemOf(row) == id && row != last ==>
               row.createdAt < last.createdAt
    ensures Replay(reading, id) == Replay(outbox, id)
  {
    var k := LastAboutPlace(outbox, id);
    ReplayIsLast(outbox, id);
    forall row | Youngest(outbox, id, row) ensures ViewIn(Some(row)) == Replay(outbox, id) {
      assert LastAbout(outbox, id).Some? ==> outbox[k] in outbox;
    }
    YoungestTellSuffices(outbox, reading, id);
  }
}
