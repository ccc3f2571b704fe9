/** The outbox dispatcher and the audit service it posts to, as they run: tables in place,
    one poll at a time. Every poll is shown to be a run of the relay protocol, so what the
    protocol keeps in all interleavings holds of these methods too. */
module Dispatcher {
  import opened Common
  import opened AuditEvents
  import R = Relay

  /** What the network and the databases do to one row's post, insert and mark. */
  datatype RowFate = RowFate(post: Fate, insert: Fate, mark: Fate, now: int)

  predicate Healthy(f: RowFate) { f.post.Succeeds? && f.insert.Succeeds? && f.mark.Succeeds? }

  /** The audit-service: its audit_events table and its ingest handler. */
  class AuditService {
    var events: seq<Event>
    const fits: Event -> bool

    constructor (fits: Event -> bool)
      ensures this.fits == fits && events == []
    {
      this.fits := fits;
      events := [];
    }

    method Insert(e: Event, fate: Fate) returns (ok: bool)
      modifies this
      ensures ok <==> fate.Succeeds?
      ensures events == if fate.FailsBefore? then old(events) else R.Insert(old(events), e)
      ensures !fate.FailsBefore? ==> R.HasEvent(events, e.id)
    {
      if fate.FailsBefore? { return false; }
      if !R.HasEvent(events, e.id) {
        events := events + [e];
        assert e in events;
      }
      ok := fate.Succeeds?;
    }

    /** POST /internal/audit/events. 202 is answered only after the insert succeeded. */
    method Handle(e: Event, fate: Fate) returns (status: int)
      modifies this
      ensures status == 202 <==> Acceptable(e, fits) && fate.Succeeds?
      ensures status == 400 <==> !Acceptable(e, fits)
      ensures status == 400 <==> e.id == "" || e.source == "" || e.eventType == "" || e.time == 0 || !fits(e)
      ensures status in {202, 400, 500}
      ensures status == 202 ==> R.HasEvent(events, e.id)
      ensures events == if Acceptable(e, fits) && !fate.FailsBefore? then R.Insert(old(events), e) else old(events)
    {
      if e.id == "" || e.source == "" || e.eventType == "" || e.time == 0 { return 400; }
      if !fits(e) { return 400; }
      var ok := Insert(e, fate);
      if !ok { return 500; }
      return 202;
    }
  }

  /** The HTTP emitter. With an empty base URL it is disabled. */
  class HttpEmitter {
    const baseUrl: string
    const service: AuditService

    constructor (baseUrl: string, service: AuditService)
      ensures this.baseUrl == baseUrl && this.service == service
    {
      this.baseUrl := baseUrl;
      this.service := service;
    }

    predicate Enabled() { baseUrl != "" }

    /** Success of an enabled emitter means the event is in the audit table. A disabled one
        reports success and records nothing: the reason for the guard in NewDispatcher. */
    method Emit(e: Event, post: Fate, insert: Fate) returns (ok: bool)
      modifies service
      ensures !Enabled() ==> ok && service.events == old(service.events)
      ensures Enabled() && ok ==> R.HasEvent(service.events, e.id) && Acceptable(e, service.fits)
      ensures Enabled() ==> (ok <==> Acceptable(e, service.fits) && post.Succeeds? && insert.Succeeds?)
      ensures service.events ==
              if Enabled() && Acceptable(e, service.fits) && !post.FailsBefore? && !insert.FailsBefore?
              then R.Insert(old(service.events), e) else old(service.events)
    {
      if baseUrl == "" { return true; }
      if e.id == "" || e.source == "" || e.eventType == "" { return false; }
      if post.FailsBefore? { return false; }
      var status := service.Handle(e, insert);
      if post.ReplyLost? { return false; }
      ok := status < 300;
    }
  }

  /** The business_outbox table: rows in commit order and the published_at column. */
  class OutboxTable {
    var rows: seq<OutboxRow>
    var publishedAt: map<string, int>

    constructor ()
      ensures rows == [] && publishedAt == map[]
    {
      rows, publishedAt := [], map[];
    }

    method MarkPublished(id: string, now: int, fate: Fate) returns (ok: bool)
      modifies this
      ensures ok <==> fate.Succeeds?
      ensures rows == old(rows)
      ensures publishedAt == if fate.FailsBefore? then old(publishedAt) else R.MarkRow(old(publishedAt), id, now)
    {
      if fate.FailsBefore? { return false; }
      if id !in publishedAt { publishedAt := publishedAt[id := now]; }
      ok := fate.Succeeds?;
    }
  }

  /** Ids of a batch's deliverable rows. */
  ghost function DeliverableIds(batch: seq<OutboxRow>, fits: Event -> bool): (ids: set<string>) {
    set row | row in batch && Deliverable(row, fits) :: row.id
  }

  lemma OneMoreDeliverable(batch: seq<OutboxRow>, i: nat, fits: Event -> bool)
    requires i < |batch|
    ensures DeliverableIds(batch[..i + 1], fits) ==
            DeliverableIds(batch[..i], fits) + (if Deliverable(batch[i], fits) then {batch[i].id} else {})
  {}

  class Dispatcher {
    const table: OutboxTable
    const emitter: HttpEmitter

    constructor (table: OutboxTable, emitter: HttpEmitter)
      ensures this.table == table && this.emitter == emitter
    {
      this.table := table;
      this.emitter := emitter;
    }

    ghost function Fits(): Event -> bool { emitter.service.fits }

    /** The protocol state s describes the tables as they are now. */
    ghost predicate Shows(s: R.State)
      reads table, emitter.service
    {
      s.outbox == table.rows && s.publishedAt == table.publishedAt && s.audit == emitter.service.events
    }

    /** The post and what comes of it: events is the audit table afterwards. */
    ghost method TracePost(s: R.State, w: nat, row: OutboxRow, event: Event, f: RowFate, ok: bool)
      returns (t: R.State, trace: seq<R.Action>)
      requires R.WorkerOf(s, w).Looping? && R.WorkerOf(s, w).todo != [] && R.WorkerOf(s, w).todo[0] == row
      requires RowToEvent(row) == Some(event) && Emittable(event)
      requires ok <==> Acceptable(event, Fits()) && f.post.Succeeds? && f.insert.Succeeds?
      ensures R.Legal(s, trace, Fits()) && t == R.Run(s, trace, Fits())
      ensures t.outbox == s.outbox && t.publishedAt == s.publishedAt
      ensures t.audit == if Acceptable(event, Fits()) && !f.post.FailsBefore? && !f.insert.FailsBefore?
                         then R.Insert(s.audit, event) else s.audit
      ensures var todo := R.WorkerOf(s, w).todo[1..];
              R.WorkerOf(t, w) == if ok then R.Confirmed(row, todo) else R.Looping(todo)
    {
      trace := [R.Post(w)];
      R.RunOneMore(s, [], R.Post(w), Fits());
      t := R.Apply(s, R.Post(w), Fits());
      if Acceptable(event, Fits()) && !f.post.FailsBefore? && !f.insert.FailsBefore? {
        R.RunOneMore(s, trace, R.Ingest(event), Fits());
        t, trace := R.Apply(t, R.Ingest(event), Fits()), trace + [R.Ingest(event)];
      }
      var last := if ok then R.SeeAccepted(w) else R.SeeFailure(w);
      R.RunOneMore(s, trace, last, Fits());
      t, trace := R.Apply(t, last, Fits()), trace + [last];
    }

    /** One row: make the event, post it, mark the row. */
    method PublishRow(row: OutboxRow, f: RowFate, ghost w: nat, ghost s: R.State)
      returns (ok: bool, ghost t: R.State, ghost trace: seq<R.Action>)
      requires emitter.Enabled()
      requires Shows(s) && R.WorkerOf(s, w).Looping? && R.WorkerOf(s, w).todo != [] && R.WorkerOf(s, w).todo[0] == row
      modifies table, emitter.service
      ensures Shows(t) && R.Legal(s, trace, Fits()) && t == R.Run(s, trace, Fits())
      ensures R.WorkerOf(t, w) == R.Looping(R.WorkerOf(s, w).todo[1..])
      ensures table.rows == old(table.rows)
      ensures ok ==> row.id in table.publishedAt && R.HasEvent(emitter.service.events, row.id)
      ensures Healthy(f) ==> (ok <==> Deliverable(row, Fits()))
      ensures table.publishedAt.Keys == old(table.publishedAt.Keys) ||
              (Deliverable(row, Fits()) && table.publishedAt.Keys == old(table.publishedAt.Keys) + {row.id})
      ensures ok ==> Deliverable(row, Fits())
      ensures forall e :: e in emitter.service.events && e !in old(emitter.service.events) ==> Describes(e, row)
    {
      var event := RowToEvent(row);
      if event.None? {
        trace, t := [R.Skip(w)], R.Apply(s, R.Skip(w), Fits());
        R.RunOneMore(s, [], R.Skip(w), Fits());
        return false, t, trace;
      }
      EventDescribesRow(row);
      ok := emitter.Emit(event.value, f.post, f.insert);
      if Emittable(event.value) {
        t, trace := TracePost(s, w, row, event.value, f, ok);
      } else {
        trace, t := [R.Skip(w)], R.Apply(s, R.Skip(w), Fits());
        R.RunOneMore(s, [], R.Skip(w), Fits());
      }
      if !ok { return; }
      ok := table.MarkPublished(row.id, f.now, f.mark);
      ghost var last := if f.mark.FailsBefore? then R.MarkFails(w) else R.Mark(w, f.now);
      R.RunOneMore(s, trace, last, Fits());
      t, trace := R.Apply(t, last, Fits()), trace + [last];
    }

    /** What a poll has achieved after its first i rows; all of it, when no call failed. */
    ghost predicate Progress(batch: seq<OutboxRow>, i: nat, fates: nat -> RowFate, before: set<string>,
                             now: set<string>, ok: bool)
      requires i <= |batch|
    {
      && (ok ==> forall j :: 0 <= j < i ==> batch[j].id in now)
      && before <= now
      && ((forall j :: 0 <= j < i ==> Healthy(fates(j))) ==>
            now == before + DeliverableIds(batch[..i], Fits())
            && (ok <==> forall j :: 0 <= j < i ==> Deliverable(batch[j], Fits())))
    }

    lemma ProgressStep(batch: seq<OutboxRow>, i: nat, fates: nat -> RowFate, before: set<string>,
                       now: set<string>, now': set<string>, ok: bool, published: bool)
      requires i < |batch| && Progress(batch, i, fates, before, now, ok)
      requires published ==> batch[i].id in now' && Deliverable(batch[i], Fits())
      requires Healthy(fates(i)) && Deliverable(batch[i], Fits()) ==> published
      requires now <= now' <= now + {batch[i].id}
      requires !Deliverable(batch[i], Fits()) ==> now' == now
      ensures Progress(batch, i + 1, fates, before, now', ok && published)
    {
      OneMoreDeliverable(batch, i, Fits());
    }

    /** A poll none of whose calls failed is the poll the drain bound counts. */
    lemma FaultlessPoll(rows: seq<OutboxRow>, batch: seq<OutboxRow>, fates: nat -> RowFate, before: set<string>,
                        now: set<string>, ok: bool)
      requires R.IsPoll(rows, before, batch) && Progress(batch, |batch|, fates, before, now, ok)
      requires forall i :: 0 <= i < |batch| ==> Healthy(fates(i))
      ensures HealthyPoll(rows, Fits(), before, now)
    {}

    /** The run so far ends in a state that shows the tables, with todo left to publish. */
    ghost predicate Midway(s: R.State, trace: seq<R.Action>, w: nat, todo: seq<OutboxRow>)
      reads table, emitter.service
    {
      R.Legal(s, trace, Fits()) && Shows(R.Run(s, trace, Fits()))
      && R.WorkerOf(R.Run(s, trace, Fits()), w) == R.Looping(todo)
    }

    lemma StartPoll(s: R.State, w: nat, batch: seq<OutboxRow>, fates: nat -> RowFate, before: set<string>)
      requires Shows(s) && R.WorkerOf(s, w) == R.Looping([])
      requires R.IsPoll(table.rows, table.publishedAt.Keys, batch)
      ensures Midway(s, [R.Poll(w, batch)], w, batch[0..])
      ensures Progress(batch, 0, fates, before, before, true)
    {}

    lemma AbandonPoll(s: R.State, trace: seq<R.Action>, w: nat, todo: seq<OutboxRow>)
      requires Midway(s, trace, w, todo)
      ensures Midway(s, trace + [R.Crash(w)], w, [])
    {
      R.RunOneMore(s, trace, R.Crash(w), Fits());
    }

    /** The i-th row of a poll that started in s: one step of the loop below. */
    method PublishNext(batch: seq<OutboxRow>, i: nat, fates: nat -> RowFate, ok: bool, ghost before: set<string>,
                       ghost w: nat, ghost s: R.State, ghost done: seq<R.Action>)
      returns (ok': bool, ghost trace: seq<R.Action>)
      requires emitter.Enabled() && i < |batch|
      requires Midway(s, done, w, batch[i..])
      requires Progress(batch, i, fates, before, table.publishedAt.Keys, ok)
      modifies table, emitter.service
      ensures Midway(s, trace, w, batch[i + 1..])
      ensures table.rows == old(table.rows)
      ensures Progress(batch, i + 1, fates, before, table.publishedAt.Keys, ok')
    {
      ghost var now := table.publishedAt.Keys;
      var published;
      ghost var t, step;
      published, t, step := PublishRow(batch[i], fates(i), w, R.Run(s, done, Fits()));
      RunsCompose(s, done, step, Fits());
      trace := done + step;
      ProgressStep(batch, i, fates, before, now, table.publishedAt.Keys, ok, published);
      ok' := ok && published;
    }

    /** One poll: batch is what the query returned, and readable how many of its rows could be
        read before the result stream broke (all of them when readable >= |batch|). */
    method DispatchOnce(batch: seq<OutboxRow>, readable: nat, fates: nat -> RowFate, ghost w: nat, ghost s: R.State)
      returns (ok: bool, ghost trace: seq<R.Action>)
      requires emitter.Enabled()
      requires Shows(s) && R.WorkerOf(s, w) == R.Looping([])
      requires R.IsPoll(table.rows, table.publishedAt.Keys, batch)
      modifies table, emitter.service
      ensures Midway(s, trace, w, [])
      ensures table.rows == old(table.rows)
      ensures ok ==> readable >= |batch|
      ensures readable >= |batch| ==>
                Progress(batch, |batch|, fates, old(table.publishedAt.Keys), table.publishedAt.Keys, ok)
    {
      ghost var before := table.publishedAt.Keys;
      trace := [R.Poll(w, batch)];
      StartPoll(s, w, batch, fates, before);
      assert batch[|batch|..] == [];
      ok := true;
      var i := 0;
      while i < |batch| && i < readable
        invariant 0 <= i <= |batch| && i <= readable
        invariant Midway(s, trace, w, batch[i..])
        invariant table.rows == old(table.rows)
        invariant Progress(batch, i, fates, before, table.publishedAt.Keys, ok)
      {
        ok, trace := PublishNext(batch, i, fates, ok, before, w, s, trace);
        i := i + 1;
      }
      if i < |batch| {
        AbandonPoll(s, trace, w, batch[i..]);
        trace := trace + [R.Crash(w)];
        return false, trace;
      }
    }
  }

  lemma {:induction false} RunsCompose(s: R.State, one: seq<R.Action>, two: seq<R.Action>, fits: Event -> bool)
    requires R.Legal(s, one, fits) && R.Legal(R.Run(s, one, fits), two, fits)
    ensures R.Legal(s, one + two, fits)
    ensures R.Run(s, one + two, fits) == R.Run(R.Run(s, one, fits), two, fits)
    decreases |one|
  {
    if one == [] {
      assert one + two == two;
    } else {
      RunsCompose(R.Apply(s, one[0], fits), one[1..], two, fits);
      assert (one + two)[1..] == one[1..] + two;
    }
  }

  /** NewDispatcher: none without a pool, without an emitter, or with a disabled one. */
  method NewDispatcher(table: OutboxTable?, emitter: HttpEmitter?) returns (d: Dispatcher?)
    ensures d != null <==> table != null && emitter != null && emitter.Enabled()
    ensures d != null ==> fresh(d) && d.table == table && d.emitter == emitter && d.emitter.Enabled()
  {
    if table == null || emitter == null { return null; }
    if !emitter.Enabled() { return null; }
    d := new Dispatcher(table, emitter);
  }

  /** What a poll without faults does to the set of published ids. */
  ghost predicate HealthyPoll(outbox: seq<OutboxRow>, fits: Event -> bool, published: set<string>, published': set<string>) {
    exists batch :: R.IsPoll(outbox, published, batch) && published' == published + DeliverableIds(batch, fits)
  }

  lemma SameIdSameRow(outbox: seq<OutboxRow>)
    requires R.DistinctRows(outbox)
    ensures forall a, b :: a in outbox && b in outbox && a.id == b.id ==> a == b
  {}
}
