/** The event pipeline as a whole: business service, outbox relay, audit service, work queue
    and job effects, all steps interleaved in any order. */
module Pipeline {
  import opened AuditEvents
  import I = Items
  import L = ItemLog
  import R = Relay
  import Q = JobQueue
  import T = Text

  datatype State = State(biz: I.State, relay: R.State, queue: Q.State)

  /** Nest: a step of an items call, msg being the broker's tag when it publishes; Relaying and
      Queueing: a step that only the relay or the queue takes; EnqueueJob: the command-line tool,
      whose jobs have no payload; Garbage: a body that is no job. */
  datatype Action =
    | Nest(step: I.Action, msg: nat)
    | Relaying(move: R.Action)
    | Queueing(pass: Q.Action)
    | EnqueueJob(msg: nat, id: string, kind: string)
    | Garbage(msg: nat)

  function Announced(s: State, a: Action): (body: Q.Body)
    requires a.Nest? && a.step.Publish? && I.Enabled(s.biz, a.step)
  {
    Q.Carries(L.JobFor(a.step.jobId, s.biz.calls[a.step.call].row))
  }

  ghost predicate Enabled(s: State, a: Action, fits: Event -> bool) {
    match a
    case Nest(step, msg) =>
      && I.Enabled(s.biz, step)
      && (step.Log? ==> IsUuidText(step.rowId))
      && (step.Commit? ==> R.Enabled(s.relay, R.Commit(s.biz.calls[step.call].row), fits))
      && (step.Publish? ==> Q.Enabled(s.queue, Q.Publish(msg, Announced(s, a))))
    case Relaying(move) => !move.Commit? && R.Enabled(s.relay, move, fits)
    case Queueing(pass) => !pass.Publish? && Q.Enabled(s.queue, pass)
    case EnqueueJob(msg, _, _) => msg !in s.queue.sent
    case Garbage(msg) => msg !in s.queue.sent
  }

  ghost function Apply(s: State, a: Action, fits: Event -> bool, maxRetries: int): (s': State)
    requires Enabled(s, a, fits)
  {
    match a
    case Nest(step, msg) =>
      State(I.Apply(s.biz, step),
            if step.Commit? then R.Apply(s.relay, R.Commit(s.biz.calls[step.call].row), fits) else s.relay,
            if step.Publish? then Q.Apply(s.queue, Q.Publish(msg, Announced(s, a)), maxRetries) else s.queue)
    case Relaying(move) => s.(relay := R.Apply(s.relay, move, fits))
    case Queueing(pass) => s.(queue := Q.Apply(s.queue, pass, maxRetries))
    case EnqueueJob(msg, id, kind) =>
      s.(queue := Q.Apply(s.queue, Q.Publish(msg, Q.Carries(Job(id, kind, "", "", map[]))), maxRetries))
    case Garbage(msg) => s.(queue := Q.Apply(s.queue, Q.Publish(msg, Q.Malformed), maxRetries))
  }

  ghost predicate Legal(s: State, run: seq<Action>, fits: Event -> bool, maxRetries: int)
    decreases |run|
  {
    run == [] ||
    (Enabled(s, run[0], fits) && Legal(Apply(s, run[0], fits, maxRetries), run[1..], fits, maxRetries))
  }

  ghost function Run(s: State, run: seq<Action>, fits: Event -> bool, maxRetries: int): (s': State)
    requires Legal(s, run, fits, maxRetries)
    decreases |run|
  {
    if run == [] then s else Run(Apply(s, run[0], fits, maxRetries), run[1..], fits, maxRetries)
  }

  const EMPTY := State(I.EMPTY, R.EMPTY, Q.EMPTY)

  /** A message on the queue is no job, has no payload, or announces a committed write. */
  predicate Expected(outbox: seq<OutboxRow>, body: Q.Body) {
    body.Malformed? || body.job.payload == map[] || I.Announces(outbox, body.job)
  }

  ghost predicate Inv(s: State) {
    && I.Inv(s.biz) && R.Inv(s.relay) && Q.Inv(s.queue)
    && s.relay.outbox == s.biz.outbox
    && (forall c :: c in s.biz.calls && s.biz.calls[c].Logged? ==> IsUuidText(s.biz.calls[c].row.id))
    && (forall m :: m in s.queue.sent ==> Expected(s.biz.outbox, s.queue.sent[m]))
  }

  /** The transaction of a call that has written both its rows can always commit. */
  lemma CommitIsNeverRefused(s: State, c: nat, msg: nat, fits: Event -> bool)
    requires Inv(s) && I.Enabled(s.biz, I.Commit(c))
    ensures Enabled(s, Nest(I.Commit(c), msg), fits)
  {}

  lemma AllStayExpected(s: State, outbox': seq<OutboxRow>)
    requires s.biz.outbox <= outbox'
    requires forall m :: m in s.queue.sent ==> Expected(s.biz.outbox, s.queue.sent[m])
    ensures forall m :: m in s.queue.sent ==> Expected(outbox', s.queue.sent[m])
  {}

  /** What an items step does to the ids of rows not yet committed, and to the outbox. */
  lemma PendingIdsStayUuids(biz: I.State, step: I.Action)
    requires I.Enabled(biz, step) && (step.Log? ==> IsUuidText(step.rowId))
    requires forall c :: c in biz.calls && biz.calls[c].Logged? ==> IsUuidText(biz.calls[c].row.id)
    ensures var biz' := I.Apply(biz, step);
            && (forall c :: c in biz'.calls && biz'.calls[c].Logged? ==> IsUuidText(biz'.calls[c].row.id))
            && biz'.outbox == if step.Commit? then biz.outbox + [biz.calls[step.call].row] else biz.outbox
  {}

  lemma CommitKeepsInv(s: State, c: nat, msg: nat, fits: Event -> bool, maxRetries: int)
    requires Inv(s) && Enabled(s, Nest(I.Commit(c), msg), fits)
    ensures Inv(Apply(s, Nest(I.Commit(c), msg), fits, maxRetries))
  {
    PendingIdsStayUuids(s.biz, I.Commit(c));
    I.StepKeepsInv(s.biz, I.Commit(c));
    R.StepKeepsInv(s.relay, R.Commit(s.biz.calls[c].row), fits);
    AllStayExpected(s, s.biz.outbox + [s.biz.calls[c].row]);
  }

  lemma AnnouncedIsCommitted(biz: I.State, c: nat, jobId: string)
    requires I.Inv(biz) && I.Enabled(biz, I.Publish(c, jobId))
    ensures I.Announces(biz.outbox, L.JobFor(jobId, biz.calls[c].row))
  {
    assert I.CallInv(biz, biz.calls[c]);
  }

  lemma QueueStaysExpected(outbox: seq<OutboxRow>, queue: Q.State, msg: nat, job: Job, maxRetries: int)
    requires Q.Inv(queue) && Q.Enabled(queue, Q.Publish(msg, Q.Carries(job))) && I.Announces(outbox, job)
    requires forall m :: m in queue.sent ==> Expected(outbox, queue.sent[m])
    ensures var queue' := Q.Apply(queue, Q.Publish(msg, Q.Carries(job)), maxRetries);
            Q.Inv(queue') && forall m :: m in queue'.sent ==> Expected(outbox, queue'.sent[m])
  {
    Q.StepKeepsInv(queue, Q.Publish(msg, Q.Carries(job)), maxRetries);
  }

  lemma PublishKeepsInv(s: State, c: nat, jobId: string, msg: nat, fits: Event -> bool, maxRetries: int)
    requires Inv(s) && Enabled(s, Nest(I.Publish(c, jobId), msg), fits)
    ensures Inv(Apply(s, Nest(I.Publish(c, jobId), msg), fits, maxRetries))
  {
    PendingIdsStayUuids(s.biz, I.Publish(c, jobId));
    AnnouncedIsCommitted(s.biz, c, jobId);
    I.StepKeepsInv(s.biz, I.Publish(c, jobId));
    QueueStaysExpected(s.biz.outbox, s.queue, msg, L.JobFor(jobId, s.biz.calls[c].row), maxRetries);
  }

  lemma NestKeepsInv(s: State, step: I.Action, msg: nat, fits: Event -> bool, maxRetries: int)
    requires Inv(s) && Enabled(s, Nest(step, msg), fits)
    ensures Inv(Apply(s, Nest(step, msg), fits, maxRetries))
  {
    match step
    case Commit(c) => CommitKeepsInv(s, c, msg, fits, maxRetries);
    case Publish(c, jobId) => PublishKeepsInv(s, c, jobId, msg, fits, maxRetries);
    case _ =>
      PendingIdsStayUuids(s.biz, step);
      I.StepKeepsInv(s.biz, step);
  }

  lemma StepKeepsInv(s: State, a: Action, fits: Event -> bool, maxRetries: int)
    requires Inv(s) && Enabled(s, a, fits)
    ensures Inv(Apply(s, a, fits, maxRetries))
  {
    match a
    case Nest(step, msg) => NestKeepsInv(s, step, msg, fits, maxRetries);
    case Relaying(move) => R.StepKeepsInv(s.relay, move, fits);
    case Queueing(pass) => Q.StepKeepsInv(s.queue, pass, maxRetries);
    case EnqueueJob(msg, id, kind) =>
      Q.StepKeepsInv(s.queue, Q.Publish(msg, Q.Carries(Job(id, kind, "", "", map[]))), maxRetries);
    case Garbage(msg) => Q.StepKeepsInv(s.queue, Q.Publish(msg, Q.Malformed), maxRetries);
  }

  lemma {:induction false} RunKeepsInv(s: State, run: seq<Action>, fits: Event -> bool, maxRetries: int)
    requires Inv(s) && Legal(s, run, fits, maxRetries)
    ensures Inv(Run(s, run, fits, maxRetries))
    decreases |run|
  {
    if run != [] {
      StepKeepsInv(s, run[0], fits, maxRetries);
      RunKeepsInv(Apply(s, run[0], fits, maxRetries), run[1..], fits, maxRetries);
    }
  }

  // Who asked for what, told by the audit table and the effects.

  function KindText(op: L.Op): (kind: string) {
    match op
    case Create(_, _, _) => "business.item.created"
    case Update(_, _, _, _) => "business.item.updated"
    case Remove(_, _) => "business.item.deleted"
  }

  /** The text names the item of the request: a removal's as the request spells it, an update's as the
      table does. */
  predicate NamesItemOf(text: string, op: L.Op) {
    && text != "" && (op.Remove? ==> text == op.id) && (op.Update? ==> text == T.Lower(op.id))
  }

  /** Where the request says what the title is to be, the data say so. */
  predicate TellsTitle(data: map<string, Json>, op: L.Op) {
    && (op.Create? ==> Holds(data, "title", op.title))
    && (op.Update? && op.newTitle.Some? ==> Holds(data, "title", op.newTitle.value))
    && (op.Remove? ==> "title" !in data)
  }

  /** The audit event of a committed request. */
  predicate Audits(e: Event, row: OutboxRow, op: L.Op) {
    && e.source == "business-service" && e.eventType == KindText(op) && e.time == row.createdAt
    && e.actor == op.actor.userId && e.tenant == op.actor.tenant
    && "item:" <= e.subject && NamesItemOf(e.subject[5..], op) && TellsTitle(e.data, op)
  }

  lemma DescribedIsAudited(e: Event, row: OutboxRow, op: L.Op)
    requires Describes(e, row) && I.Answers(row, op) && row.payload.Fields?
    ensures Audits(e, row, op)
  {}

  /** In every run: the audit event of every committed request, deletions included, names its actor and
      tenant, says what was done, to which item and when, and tells the title asked for. */
  lemma EventsTellRequests(run: seq<Action>, fits: Event -> bool, maxRetries: int, i: nat, e: Event)
    requires Legal(EMPTY, run, fits, maxRetries)
    requires var s := Run(EMPTY, run, fits, maxRetries);
             i < |s.relay.outbox| && e in s.relay.audit && e.id == s.relay.outbox[i].id
    ensures var s := Run(EMPTY, run, fits, maxRetries);
            |s.biz.asked| == |s.relay.outbox| && Audits(e, s.relay.outbox[i], s.biz.asked[i])
  {
    RunKeepsInv(EMPTY, run, fits, maxRetries);
    var s := Run(EMPTY, run, fits, maxRetries);
    R.InvGivesExactlyOnce(s.relay);
    assert I.Answers(s.biz.outbox[i], s.biz.asked[i]);
    assert s.relay.outbox[i] in s.relay.outbox;
    DescribedIsAudited(e, s.relay.outbox[i], s.biz.asked[i]);
  }

  /** The effect repeats a committed outbox row: same kind, item, tenant and actor. */
  predicate Repeats(outbox: seq<OutboxRow>, e: Q.Effect) {
    exists row :: row in outbox && e.kind == row.eventType && e.resource == ItemOf(row)
      && e.tenant == TextField(PayloadFields(row.payload), "tenant_id")
      && e.actor == TextField(PayloadFields(row.payload), "actor_user_id")
  }

  /** The audit table holds an event that tells the item as it is now. */
  predicate AuditTells(audit: seq<Event>, id: string, item: L.Item) {
    exists e :: e in audit && e.source == BUSINESS_SOURCE && e.subject == "item:" + id && e.eventType != DELETED
      && e.tenant == item.tenant && TextField(e.data, "title") == item.title
  }

  lemma JobRepeatsRow(row: OutboxRow, job: Job)
    requires job == L.JobFor(job.id, row)
    ensures Q.EffectOf(job).kind == row.eventType && Q.EffectOf(job).resource == ItemOf(row)
    ensures Q.EffectOf(job).tenant == TextField(PayloadFields(row.payload), "tenant_id")
    ensures Q.EffectOf(job).actor == TextField(PayloadFields(row.payload), "actor_user_id")
    ensures "title" in job.payload <==> "title" in PayloadFields(row.payload)
    ensures "title" in job.payload ==> job.payload["title"] == PayloadFields(row.payload)["title"]
  {
    assert |"item_id"| != |"title"|;
  }

  /** The effect of a committed request. */
  predicate IsEffectOf(e: Q.Effect, op: L.Op) {
    && e.kind == KindText(op) && e.actor == op.actor.userId && e.tenant == op.actor.tenant
    && NamesItemOf(e.resource, op) && TellsTitle(e.payload, op)
  }

  lemma JobTellsRequest(row: OutboxRow, job: Job, op: L.Op)
    requires job == L.JobFor(job.id, row) && I.Answers(row, op)
    ensures IsEffectOf(Q.EffectOf(job), op)
  {
    JobRepeatsRow(row, job);
  }

  lemma EffectsRepeatRows(s: State, e: Q.Effect)
    requires Inv(s) && e in s.queue.effects
    ensures Repeats(s.biz.outbox, e)
    ensures exists op :: op in s.biz.asked && IsEffectOf(e, op)
  {
    assert Q.Traced(s.queue, e);
    var m :| m in s.queue.sent && Q.ParseJob(s.queue.sent[m]).Some? && Q.NamesItem(s.queue.sent[m].job)
      && e == Q.EffectOf(s.queue.sent[m].job);
    var job := s.queue.sent[m].job;
    assert Expected(s.biz.outbox, s.queue.sent[m]);
    var row :| row in s.biz.outbox && job == L.JobFor(job.id, row);
    JobRepeatsRow(row, job);
    var i :| 0 <= i < |s.biz.outbox| && s.biz.outbox[i] == row;
    assert I.Answers(s.biz.outbox[i], s.biz.asked[i]);
    JobTellsRequest(row, job, s.biz.asked[i]);
  }

  /** The last row of a living item says what the item is. */
  lemma {:induction false} LastRow(log: seq<OutboxRow>, id: string) returns (row: OutboxRow)
    requires L.Replay(log, id).Live?
    ensures row in log && ItemOf(row) == id && row.eventType != DELETED
    ensures L.Replay(log, id) == L.Live(TextField(PayloadFields(row.payload), "tenant_id"),
                                        TextField(PayloadFields(row.payload), "title"))
  {
    if ItemOf(log[|log| - 1]) == id {
      row := log[|log| - 1];
    } else {
      row := LastRow(log[..|log| - 1], id);
    }
  }

  lemma PublishedItemIsAudited(s: State, id: string)
    requires Inv(s) && id in s.biz.items
    requires forall row :: row in s.biz.outbox && ItemOf(row) == id ==> row.id in s.relay.publishedAt
    ensures AuditTells(s.relay.audit, id, s.biz.items[id])
  {
    LivingItem(s.biz, id);
    var row := LastRow(s.biz.outbox, id);
    R.InvGivesExactlyOnce(s.relay);
    assert row in s.relay.outbox && row.id in s.relay.publishedAt;
    EventDescribesRow(row);
    var e := RowToEvent(row).value;
    assert e in s.relay.audit;
  }

  /** A living item's rows tell it as they are spelled. */
  lemma LivingItem(biz: I.State, id: string)
    requires I.Inv(biz) && id in biz.items
    ensures id != "" && L.Replay(biz.outbox, id) == L.ViewOf(biz.items, id)
  {
    var log := L.RespelledLog(biz.outbox);
    assert L.Replay(log, id) == L.ViewOf(biz.items, id) || (L.Replay(log, id).Absent? && id !in biz.items);
    var row := LastRow(log, id);
    var i :| 0 <= i < |log| && log[i] == row;
    L.RespelledFacts(biz.outbox[i]);
    T.LowerTwice(ItemOf(biz.outbox[i]));
    I.SpelledAsAsked(biz.outbox, biz.asked);
    L.LivingIsLiteral(biz.items, biz.outbox, id);
  }

  /** In every run of the whole pipeline: recording is exactly once; the outbox, whatever spelling
      removals were asked for in, tells the items, and does so as it is spelled if and only if that
      was the table's; every job effect repeats a committed row, and so a committed request; and an item whose outbox rows are
      all published is in the audit table with its current tenant and title. */
  lemma EndToEnd(run: seq<Action>, fits: Event -> bool, maxRetries: int)
    requires Legal(EMPTY, run, fits, maxRetries)
    ensures var s := Run(EMPTY, run, fits, maxRetries);
            && R.ExactlyOnce(s.relay)
            && L.Tells(s.biz.items, L.RespelledLog(s.relay.outbox)) && L.Orderly(L.RespelledLog(s.relay.outbox))
            && (L.Tells(s.biz.items, s.relay.outbox) <==> I.RemovalsSpelled(s.biz.asked))
            && (L.Orderly(s.relay.outbox) <==> I.RemovalsSpelled(s.biz.asked))
            && (forall e :: e in s.queue.effects ==> Repeats(s.relay.outbox, e))
            && (forall e :: e in s.queue.effects ==> exists op :: op in s.biz.asked && IsEffectOf(e, op))
            && (forall id :: id in s.biz.items
                  && (forall row :: row in s.relay.outbox && ItemOf(row) == id ==> row.id in s.relay.publishedAt)
                  ==> AuditTells(s.relay.audit, id, s.biz.items[id]))
  {
    RunKeepsInv(EMPTY, run, fits, maxRetries);
    var s := Run(EMPTY, run, fits, maxRetries);
    R.InvGivesExactlyOnce(s.relay);
    I.SpelledAsAsked(s.biz.outbox, s.biz.asked);
    L.TellsExactlyWhenSpelled(s.biz.items, s.biz.outbox);
    forall e | e in s.queue.effects { EffectsRepeatRows(s, e); }
    forall id | id in s.biz.items
      && (forall row :: row in s.relay.outbox && ItemOf(row) == id ==> row.id in s.relay.publishedAt)
      ensures AuditTells(s.relay.audit, id, s.biz.items[id])
    {
      PublishedItemIsAudited(s, id);
    }
  }
}
