/** How soon a row that is not starved is published, when the audit service is reachable. */
module RowDrain {
  import opened Common
  import opened AuditEvents
  import opened Relay
  import opened Starvation
  import D = Dispatcher

  /** The table at a poll: its rows, and the ids published so far. */
  datatype Moment = Moment(outbox: seq<OutboxRow>, published: set<string>)

  ghost predicate Sound(m: Moment, fits: Event -> bool) {
    DistinctRows(m.outbox) && forall row :: row in m.outbox && !Deliverable(row, fits) ==> row.id !in m.published
  }

  lemma ReachedIsSound(s: State, fits: Event -> bool)
    requires Reached(s, fits)
    ensures Sound(Moment(s.outbox, s.publishedAt.Keys), fits)
  {
    forall row | row in s.outbox && !Deliverable(row, fits) ensures row.id !in s.publishedAt {
      UndeliverableStays(s, row, fits);
    }
  }

  /** A poll without faults, and then arrivals younger than the instant. */
  ghost predicate Follows(a: Moment, b: Moment, since: int, fits: Event -> bool) {
    && D.HealthyPoll(a.outbox, fits, a.published, b.published)
    && a.outbox <= b.outbox
    && (forall row :: row in b.outbox && row !in a.outbox ==> since < row.createdAt)
  }

  ghost predicate History(h: seq<Moment>, since: int, fits: Event -> bool) {
    && |h| >= 1 && (forall i :: 0 <= i < |h| ==> Sound(h[i], fits))
    && (forall i :: 0 <= i < |h| - 1 ==> Follows(h[i], h[i + 1], since, fits))
  }

  /** Ids of the deliverable rows at most as young that are still to be published. */
  ghost function Ahead(m: Moment, since: int, fits: Event -> bool): (ids: set<string>) {
    set row | row in m.outbox && row.createdAt <= since && row.id !in m.published && Deliverable(row, fits) :: row.id
  }

  /** Ids of the undeliverable rows at most as young. */
  ghost function InTheWay(outbox: seq<OutboxRow>, since: int, fits: Event -> bool): (ids: set<string>) {
    set row | row in outbox && row.createdAt <= since && !Deliverable(row, fits) :: row.id
  }

  lemma InTheWayStays(a: Moment, b: Moment, since: int, fits: Event -> bool)
    requires Follows(a, b, since, fits)
    ensures InTheWay(b.outbox, since, fits) == InTheWay(a.outbox, since, fits)
  {
    assert forall row :: row in a.outbox ==> row in b.outbox;
  }

  /** A row left behind means a full batch of rows at most as young. */
  lemma LeftBehind(a: Moment, batch: seq<OutboxRow>, x: OutboxRow, since: int, fits: Event -> bool)
    requires IsPoll(a.outbox, a.published, batch) && x in a.outbox && x.id !in a.published && x !in batch
    requires x.createdAt <= since
    ensures D.DeliverableIds(batch, fits) <= Ahead(a, since, fits)
    ensures BATCH <= |D.DeliverableIds(batch, fits)| + |InTheWay(a.outbox, since, fits)|
  {
    var failed := set row: OutboxRow | row in batch && !Deliverable(row, fits) :: row.id;
    BatchIds(batch);
    assert (set row: OutboxRow | row in batch :: row.id) == D.DeliverableIds(batch, fits) + failed;
    SubsetSize(failed, InTheWay(a.outbox, since, fits));
  }

  lemma AheadShrinks(a: Moment, b: Moment, batch: seq<OutboxRow>, since: int, fits: Event -> bool)
    requires Follows(a, b, since, fits) && b.published == a.published + D.DeliverableIds(batch, fits)
    requires D.DeliverableIds(batch, fits) <= Ahead(a, since, fits)
    ensures |Ahead(b, since, fits)| <= |Ahead(a, since, fits)| - |D.DeliverableIds(batch, fits)|
  {
    var sent, before := D.DeliverableIds(batch, fits), Ahead(a, since, fits);
    forall id | id in Ahead(b, since, fits) ensures id in before - sent {
      var row :| row in b.outbox && row.createdAt <= since && row.id !in b.published && Deliverable(row, fits) && row.id == id;
      assert row in a.outbox;
    }
    SubsetSize(Ahead(b, since, fits), before - sent);
    assert before == (before - sent) + sent;
    assert |before| == |before - sent| + |sent|;
  }

  lemma StillAhead(a: Moment, b: Moment, batch: seq<OutboxRow>, since: int, fits: Event -> bool) returns (x: OutboxRow)
    requires Follows(a, b, since, fits) && b.published == a.published + D.DeliverableIds(batch, fits)
    requires Ahead(b, since, fits) != {}
    ensures x in a.outbox && x.createdAt <= since && x.id !in a.published && x !in batch
  {
    var id :| id in Ahead(b, since, fits);
    x :| x in b.outbox && x.createdAt <= since && x.id !in b.published && Deliverable(x, fits) && x.id == id;
    assert x in batch ==> x.id in D.DeliverableIds(batch, fits);
  }

  /** Up to any instant: a faultless poll publishes at least min(50 - k, m) of the m deliverable rows at
      most as young, k undeliverable ones being at most as young. */
  lemma PollProgress(a: Moment, b: Moment, since: int, fits: Event -> bool)
    requires Sound(a, fits) && Follows(a, b, since, fits)
    ensures |Ahead(b, since, fits)| <= Max(0, |Ahead(a, since, fits)| - (BATCH - |InTheWay(a.outbox, since, fits)|))
  {
    var batch :| IsPoll(a.outbox, a.published, batch) && b.published == a.published + D.DeliverableIds(batch, fits);
    if Ahead(b, since, fits) != {} {
      var x := StillAhead(a, b, batch, since, fits);
      LeftBehind(a, batch, x, since, fits);
      AheadShrinks(a, b, batch, since, fits);
    }
  }

  /** With k < 50 undeliverable rows at most as young as the instant, n faultless polls, between which only
      younger rows arrive, leave at most m - n * (50 - k) of the m deliverable rows at most as young. */
  lemma {:induction false} BacklogDrains(h: seq<Moment>, since: int, fits: Event -> bool)
    requires History(h, since, fits) && |InTheWay(h[0].outbox, since, fits)| < BATCH
    ensures var m, k, n := |Ahead(h[0], since, fits)|, |InTheWay(h[0].outbox, since, fits)|, |h| - 1;
            |Ahead(h[n], since, fits)| <= Max(0, m - n * (BATCH - k))
    decreases |h|
  {
    var n := |h| - 1;
    if n > 0 {
      var init := h[..n];
      BacklogDrains(init, since, fits);
      Keeps(init, since, fits);
      assert Follows(h[n - 1], h[n - 1 + 1], since, fits);
      PollProgress(h[n - 1], h[n], since, fits);
      OneMore(n, BATCH - |InTheWay(h[0].outbox, since, fits)|);
    }
  }

  lemma OneMore(n: int, step: int)
    ensures n * step == (n - 1) * step + step
  {}

  /** Rows stay in the table, and what is in the way stays the same. */
  lemma {:induction false} Keeps(h: seq<Moment>, since: int, fits: Event -> bool)
    requires History(h, since, fits)
    ensures h[0].outbox <= h[|h| - 1].outbox
    ensures InTheWay(h[|h| - 1].outbox, since, fits) == InTheWay(h[0].outbox, since, fits)
    decreases |h|
  {
    var n := |h| - 1;
    if n > 0 {
      Keeps(h[..n], since, fits);
      assert Follows(h[n - 1], h[n - 1 + 1], since, fits);
      InTheWayStays(h[n - 1], h[n], since, fits);
    }
  }

  /** A row with fewer than fifty undeliverable ones in its way is published within as many faultless
      polls as there are deliverable rows up to it, and fewer if few are in its way. */
  lemma RowIsPublished(h: seq<Moment>, x: OutboxRow, fits: Event -> bool)
    requires History(h, x.createdAt, fits) && x in h[0].outbox && Deliverable(x, fits)
    requires |InTheWay(h[0].outbox, x.createdAt, fits)| < BATCH
    requires (|h| - 1) * (BATCH - |InTheWay(h[0].outbox, x.createdAt, fits)|) >= |Ahead(h[0], x.createdAt, fits)|
    ensures x.id in h[|h| - 1].published
  {
    BacklogDrains(h, x.createdAt, fits);
    Keeps(h, x.createdAt, fits);
    assert x in h[|h| - 1].outbox;
    var last := h[|h| - 1];
    assert x.id in last.published || x.id in Ahead(last, x.createdAt, fits);
  }

  /** A row with fifty older ones that are undeliverable is published by none. */
  lemma {:induction false} RowStarves(h: seq<Moment>, x: OutboxRow, fits: Event -> bool)
    requires History(h, x.createdAt, fits) && x in h[0].outbox && Deliverable(x, fits) && x.id !in h[0].published
    requires |Older(h[0].outbox, x.createdAt, fits)| >= BATCH
    ensures x.id !in h[|h| - 1].published
    decreases |h|
  {
    var n := |h| - 1;
    if n > 0 {
      RowStarves(h[..n], x, fits);
      Keeps(h[..n], x.createdAt, fits);
      var a, b := h[n - 1], h[n];
      assert Follows(a, h[n - 1 + 1], x.createdAt, fits);
      OlderGrows(h[0].outbox, a.outbox, x.createdAt, fits);
      SubsetSize(Older(h[0].outbox, x.createdAt, fits), Older(a.outbox, x.createdAt, fits));
      NotSent(a, b, x, fits);
    }
  }

  lemma NotSent(a: Moment, b: Moment, x: OutboxRow, fits: Event -> bool)
    requires Sound(a, fits) && Follows(a, b, x.createdAt, fits)
    requires x in a.outbox && Deliverable(x, fits) && x.id !in a.published
    requires |Older(a.outbox, x.createdAt, fits)| >= BATCH
    ensures x.id !in b.published
  {
    var batch :| IsPoll(a.outbox, a.published, batch) && b.published == a.published + D.DeliverableIds(batch, fits);
    PollSkips(a.outbox, a.published, batch, x, fits);
    D.SameIdSameRow(a.outbox);
  }

  /** The exact condition for a row with no undeliverable one of its own age: after as many faultless
      polls as there are deliverable rows up to it, it is published if and only if fewer than fifty
      undeliverable rows are older. */
  lemma PublishedExactlyWhen(h: seq<Moment>, x: OutboxRow, fits: Event -> bool)
    requires History(h, x.createdAt, fits) && x in h[0].outbox && Deliverable(x, fits) && x.id !in h[0].published
    requires forall row :: row in h[0].outbox && !Deliverable(row, fits) ==> row.createdAt != x.createdAt
    requires |h| - 1 >= |Ahead(h[0], x.createdAt, fits)|
    ensures x.id in h[|h| - 1].published <==> |Older(h[0].outbox, x.createdAt, fits)| < 50
  {
    var k := |Older(h[0].outbox, x.createdAt, fits)|;
    assert InTheWay(h[0].outbox, x.createdAt, fits) == Older(h[0].outbox, x.createdAt, fits);
    if k < BATCH {
      AtLeast(|h| - 1, BATCH - k);
      RowIsPublished(h, x, fits);
    } else {
      RowStarves(h, x, fits);
    }
  }

  lemma AtLeast(n: nat, step: nat)
    requires step >= 1
    ensures n * step >= n
  {}
}
