/** The outbox relay as a protocol: any number of worker replicas poll business_outbox, post
    to audit-service over a network that loses and repeats, and mark rows as published.
    One action is one SQL statement, one request put on the wire, one request handled, or
    one reply seen; a crash can fall between any two of them. */
module Relay {
  import opened Common
  import opened AuditEvents

  const BATCH := 50

  /** One replica: between polls, working through a batch, waiting for the reply to a post,
      or about to mark a row whose post succeeded. */
  datatype Worker =
    | Looping(todo: seq<OutboxRow>)
    | Posted(row: OutboxRow, event: Event, todo: seq<OutboxRow>)
    | Confirmed(row: OutboxRow, todo: seq<OutboxRow>)

  /** outbox: the table in commit order; publishedAt: its published_at column where not null;
      audit: the audit_events table in insertion order; network: every request ever sent;
      replies: every event a request for which was answered 202. */
  datatype State = State(outbox: seq<OutboxRow>, publishedAt: map<string, int>, audit: seq<Event>,
                         network: set<Event>, replies: set<Event>, workers: map<nat, Worker>)

  datatype Action =
    | Commit(row: OutboxRow)
    | ForeignPost(event: Event)
    | Poll(worker: nat, batch: seq<OutboxRow>)
    | Post(worker: nat)
    | Skip(worker: nat)
    | Ingest(event: Event)
    | SeeAccepted(worker: nat)
    | SeeFailure(worker: nat)
    | Mark(worker: nat, now: int)
    | MarkFails(worker: nat)
    | Crash(worker: nat)

  function WorkerOf(s: State, w: nat): (state: Worker) {
    if w in s.workers then s.workers[w] else Looping([])
  }

  predicate HasRow(outbox: seq<OutboxRow>, id: string) { exists row :: row in outbox && row.id == id }

  predicate HasEvent(audit: seq<Event>, id: string) { exists e :: e in audit && e.id == id }

  /** WHERE published_at IS NULL ORDER BY created_at LIMIT 50, whatever the order of ties. */
  ghost predicate IsPoll(outbox: seq<OutboxRow>, published: set<string>, batch: seq<OutboxRow>) {
    && |batch| <= BATCH
    && (forall row :: row in batch ==> row in outbox && row.id !in published)
    && (forall i, j :: 0 <= i < j < |batch| ==> batch[i].id != batch[j].id && batch[i].createdAt <= batch[j].createdAt)
    && (forall row :: row in outbox && row.id !in published && row !in batch ==>
          |batch| == BATCH && forall b :: b in batch ==> b.createdAt <= row.createdAt)
  }

  /** INSERT ... ON CONFLICT (id) DO NOTHING. */
  function Insert(audit: seq<Event>, e: Event): (r: seq<Event>) {
    if HasEvent(audit, e.id) then audit else audit + [e]
  }

  predicate CanPost(row: OutboxRow) { RowToEvent(row).Some? && Emittable(RowToEvent(row).value) }

  ghost predicate Enabled(s: State, a: Action, fits: Event -> bool) {
    match a
    case Commit(row) => IsUuidText(row.id) && !HasRow(s.outbox, row.id)
    case ForeignPost(event) => IsForeignId(event.id)
    case Poll(w, batch) => WorkerOf(s, w) == Looping([]) && IsPoll(s.outbox, s.publishedAt.Keys, batch)
    case Post(w) =>
      WorkerOf(s, w).Looping? && WorkerOf(s, w).todo != [] && CanPost(WorkerOf(s, w).todo[0])
    case Skip(w) =>
      WorkerOf(s, w).Looping? && WorkerOf(s, w).todo != [] && !CanPost(WorkerOf(s, w).todo[0])
    case Ingest(event) => event in s.network && Acceptable(event, fits)
    case SeeAccepted(w) => WorkerOf(s, w).Posted? && WorkerOf(s, w).event in s.replies
    case SeeFailure(w) => WorkerOf(s, w).Posted?
    case Mark(w, _) => WorkerOf(s, w).Confirmed?
    case MarkFails(w) => WorkerOf(s, w).Confirmed?
    case Crash(w) => true
  }

  /** UPDATE ... SET published_at = now() WHERE id = $1 AND published_at IS NULL. */
  function MarkRow(publishedAt: map<string, int>, id: string, now: int): (r: map<string, int>) {
    if id in publishedAt then publishedAt else publishedAt[id := now]
  }

  ghost function Apply(s: State, a: Action, fits: Event -> bool): (s': State)
    requires Enabled(s, a, fits)
  {
    match a
    case Commit(row) => s.(outbox := s.outbox + [row])
    case ForeignPost(event) => s.(network := s.network + {event})
    case Poll(w, batch) => s.(workers := s.workers[w := Looping(batch)])
    case Post(w) =>
      var todo := WorkerOf(s, w).todo;
      var event := RowToEvent(todo[0]).value;
      s.(network := s.network + {event}, workers := s.workers[w := Posted(todo[0], event, todo[1..])])
    case Skip(w) => s.(workers := s.workers[w := Looping(WorkerOf(s, w).todo[1..])])
    case Ingest(event) => s.(audit := Insert(s.audit, event), replies := s.replies + {event})
    case SeeAccepted(w) => s.(workers := s.workers[w := Confirmed(WorkerOf(s, w).row, WorkerOf(s, w).todo)])
    case SeeFailure(w) => s.(workers := s.workers[w := Looping(WorkerOf(s, w).todo)])
    case Mark(w, now) =>
      s.(publishedAt := MarkRow(s.publishedAt, WorkerOf(s, w).row.id, now),
         workers := s.workers[w := Looping(WorkerOf(s, w).todo)])
    case MarkFails(w) => s.(workers := s.workers[w := Looping(WorkerOf(s, w).todo)])
    case Crash(w) => s.(workers := s.workers[w := Looping([])])
  }

  ghost predicate Legal(s: State, run: seq<Action>, fits: Event -> bool)
    decreases |run|
  {
    run == [] || (Enabled(s, run[0], fits) && Legal(Apply(s, run[0], fits), run[1..], fits))
  }

  ghost function Run(s: State, run: seq<Action>, fits: Event -> bool): (s': State)
    requires Legal(s, run, fits)
    decreases |run|
  {
    if run == [] then s else Run(Apply(s, run[0], fits), run[1..], fits)
  }

  lemma {:induction false} RunOneMore(s: State, run: seq<Action>, a: Action, fits: Event -> bool)
    requires Legal(s, run, fits) && Enabled(Run(s, run, fits), a, fits)
    ensures Legal(s, run + [a], fits)
    ensures Run(s, run + [a], fits) == Apply(Run(s, run, fits), a, fits)
    decreases |run|
  {
    if run == [] {
      assert [a][1..] == [];
    } else {
      RunOneMore(Apply(s, run[0], fits), run[1..], a, fits);
      assert (run + [a])[1..] == run[1..] + [a];
    }
  }

  const EMPTY := State([], map[], [], {}, {}, map[])

  // What every run keeps.

  /** The event is what the dispatcher makes of a committed row. */
  predicate FromOutbox(outbox: seq<OutboxRow>, e: Event) {
    exists row :: row in outbox && row.id == e.id && RowToEvent(row) == Some(e)
  }

  predicate Genuine(outbox: seq<OutboxRow>, e: Event) { IsForeignId(e.id) || FromOutbox(outbox, e) }

  predicate DistinctRows(outbox: seq<OutboxRow>) {
    forall i, j :: 0 <= i < j < |outbox| ==> outbox[i].id != outbox[j].id
  }

  predicate DistinctEvents(audit: seq<Event>) {
    forall i, j :: 0 <= i < j < |audit| ==> audit[i].id != audit[j].id
  }

  predicate WorkerInv(s: State, state: Worker) {
    && (forall row :: row in state.todo ==> row in s.outbox)
    && (state.Posted? ==> state.row in s.outbox && RowToEvent(state.row) == Some(state.event))
    && (state.Confirmed? ==> state.row in s.outbox && HasEvent(s.audit, state.row.id))
  }

  ghost predicate Inv(s: State) {
    && DistinctRows(s.outbox)
    && (forall row :: row in s.outbox ==> IsUuidText(row.id))
    && DistinctEvents(s.audit)
    && (forall e :: e in s.network ==> Genuine(s.outbox, e))
    && (forall e :: e in s.audit ==> Genuine(s.outbox, e))
    && (forall e :: e in s.replies ==> HasEvent(s.audit, e.id))
    && (forall id :: id in s.publishedAt ==> HasRow(s.outbox, id) && HasEvent(s.audit, id))
    && (forall w :: w in s.workers ==> WorkerInv(s, s.workers[w]))
  }

  /** Tables only grow: rows and events are never changed or removed, and a published_at,
      once set, keeps its value. */
  ghost predicate Grows(s: State, s': State) {
    && s.outbox <= s'.outbox
    && s.audit <= s'.audit
    && (forall id :: id in s.publishedAt ==> id in s'.publishedAt && s'.publishedAt[id] == s.publishedAt[id])
  }

  lemma StepGrows(s: State, a: Action, fits: Event -> bool)
    requires Enabled(s, a, fits)
    ensures Grows(s, Apply(s, a, fits))
  {}

  lemma EventStays(audit: seq<Event>, audit': seq<Event>, id: string)
    requires audit <= audit' && HasEvent(audit, id)
    ensures HasEvent(audit', id)
  {}

  lemma InsertFacts(audit: seq<Event>, e: Event)
    requires DistinctEvents(audit)
    ensures DistinctEvents(Insert(audit, e)) && HasEvent(Insert(audit, e), e.id)
    ensures forall x :: x in Insert(audit, e) ==> x in audit || x == e
  {}

  lemma PostKeepsInv(s: State, w: nat, fits: Event -> bool)
    requires Inv(s) && Enabled(s, Post(w), fits)
    ensures Inv(Apply(s, Post(w), fits))
  {
    var todo := WorkerOf(s, w).todo;
    assert todo[0] in s.outbox;
    assert FromOutbox(s.outbox, RowToEvent(todo[0]).value);
  }

  lemma MarkKeepsInv(s: State, w: nat, now: int, fits: Event -> bool)
    requires Inv(s) && Enabled(s, Mark(w, now), fits)
    ensures Inv(Apply(s, Mark(w, now), fits))
  {
    assert HasRow(s.outbox, WorkerOf(s, w).row.id);
  }

  /** Steps that change nothing but what a replica is at. */
  predicate IsLocal(a: Action) {
    a.Poll? || a.Skip? || a.SeeAccepted? || a.SeeFailure? || a.MarkFails? || a.Crash?
  }

  lemma LocalStepKeepsInv(s: State, a: Action, fits: Event -> bool)
    requires Inv(s) && Enabled(s, a, fits) && IsLocal(a)
    ensures Inv(Apply(s, a, fits))
  {}

  lemma StepKeepsInv(s: State, a: Action, fits: Event -> bool)
    requires Inv(s) && Enabled(s, a, fits)
    ensures Inv(Apply(s, a, fits))
  {
    match a
    case Commit(row) => CommitKeepsInv(s, row, fits);
    case Ingest(event) => IngestKeepsInv(s, event, fits);
    case ForeignPost(event) =>
    case Post(w) => PostKeepsInv(s, w, fits);
    case Mark(w, now) => MarkKeepsInv(s, w, now, fits);
    case _ => LocalStepKeepsInv(s, a, fits);
  }

  lemma CommitKeepsInv(s: State, row: OutboxRow, fits: Event -> bool)
    requires Inv(s) && Enabled(s, Commit(row), fits)
    ensures Inv(Apply(s, Commit(row), fits))
  {}

  lemma IngestKeepsInv(s: State, event: Event, fits: Event -> bool)
    requires Inv(s) && Enabled(s, Ingest(event), fits)
    ensures Inv(Apply(s, Ingest(event), fits))
  {
    var s' := Apply(s, Ingest(event), fits);
    InsertFacts(s.audit, event);
    forall id | HasEvent(s.audit, id) ensures HasEvent(s'.audit, id) { EventStays(s.audit, s'.audit, id); }
  }

  /** Over whole runs, from any state that satisfies the invariant. */
  lemma {:induction false} RunKeepsInv(s: State, run: seq<Action>, fits: Event -> bool)
    requires Inv(s) && Legal(s, run, fits)
    ensures Inv(Run(s, run, fits))
    ensures Grows(s, Run(s, run, fits))
    decreases |run|
  {
    if run != [] {
      StepKeepsInv(s, run[0], fits);
      StepGrows(s, run[0], fits);
      RunKeepsInv(Apply(s, run[0], fits), run[1..], fits);
    }
  }

  /** Exactly-once recording: an outbox row has at most one audit row, which is the event made
      of that very row and tells what the row tells; once published_at is set the audit row is there; and no audit row bears
      an outbox-style id without such a row behind it. */
  ghost predicate ExactlyOnce(s: State) {
    && (forall row, i, j | row in s.outbox && 0 <= i < |s.audit| && 0 <= j < |s.audit| ::
          s.audit[i].id == row.id && s.audit[j].id == row.id ==> i == j)
    && (forall row, e :: row in s.outbox && e in s.audit && e.id == row.id ==>
          RowToEvent(row) == Some(e) && Describes(e, row))
    && (forall row :: row in s.outbox && row.id in s.publishedAt ==>
          RowToEvent(row).Some? && RowToEvent(row).value in s.audit)
    && (forall e :: e in s.audit && IsUuidText(e.id) ==> FromOutbox(s.outbox, e))
  }

  lemma InvGivesExactlyOnce(s: State)
    requires Inv(s)
    ensures ExactlyOnce(s)
  {
    forall e | e in s.audit && IsUuidText(e.id) ensures FromOutbox(s.outbox, e) { IdsAreDisjoint(e.id); }
    forall row, e | row in s.outbox && e in s.audit && e.id == row.id
      ensures RowToEvent(row) == Some(e) && Describes(e, row)
    {
      assert FromOutbox(s.outbox, e);
      EventDescribesRow(row);
    }
    forall row | row in s.outbox && row.id in s.publishedAt
      ensures RowToEvent(row).Some? && RowToEvent(row).value in s.audit
    {
      var e :| e in s.audit && e.id == row.id;
    }
  }

  lemma ExactlyOnceInEveryRun(run: seq<Action>, fits: Event -> bool)
    requires Legal(EMPTY, run, fits)
    ensures ExactlyOnce(Run(EMPTY, run, fits))
  {
    RunKeepsInv(EMPTY, run, fits);
    InvGivesExactlyOnce(Run(EMPTY, run, fits));
  }

  /** A batch is as long as its ids are many. */
  lemma {:induction false} BatchIds(batch: seq<OutboxRow>)
    requires forall i, j :: 0 <= i < j < |batch| ==> batch[i].id != batch[j].id
    ensures |set row | row in batch :: row.id| == |batch|
  {
    if batch != [] {
      var init, last := batch[..|batch| - 1], batch[|batch| - 1];
      BatchIds(init);
      assert batch == init + [last];
      assert (set row | row in batch :: row.id) == (set row | row in init :: row.id) + {last.id};
    }
  }

  lemma NetworkIsFaithful(s: State, event: Event)
    requires Inv(s) && event in s.network
    ensures forall row :: row in s.outbox && row.id == event.id ==> RowToEvent(row) == Some(event)
  {}
}
