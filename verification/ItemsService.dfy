/** The items service as it runs: its two tables and the jobs it hands to the broker. Each
    method is one call without overlap; overlapping calls are the protocol in Items. */
module ItemsService {
  import opened Common
  import opened AuditEvents
  import opened ItemLog
  import I = Items
  import T = Text

  /** A text field of a request: absent, or given and then trimmed. */
  function Given(field: Option<string>, blank: char -> bool): (r: Option<string>) {
    if field.Some? then Some(T.Trim(field.value, blank)) else None
  }

  /** A field that is there holds the given text trimmed. */
  predicate Reads(field: Option<string>, text: string, blank: char -> bool) {
    field.Some? && T.TrimsTo(field.value, text, blank)
  }

  predicate IsBlank(field: Option<string>, blank: char -> bool) { field.Some? && T.AllBlank(field.value, blank) }

  lemma GivenReads(field: Option<string>, blank: char -> bool)
    ensures field.Some? ==> Reads(field, Given(field, blank).GetOr(""), blank)
    ensures Given(field, blank) == Some("") <==> IsBlank(field, blank)
  {
    if field.Some? {
      T.TrimIsThere(field.value, blank);
      T.TrimFacts(field.value, blank);
    }
  }

  /** No transaction is under way. */
  predicate Rests(s: I.State) { forall c :: c in s.calls ==> !s.calls[c].Written? && !s.calls[c].Logged? }

  /** The run leads to a state with the call at the given place, in the middle of no transaction. */
  ghost predicate At(s0: I.State, trace: seq<I.Action>, c: nat, call: I.Call) {
    I.Legal(s0, trace) && c in I.Run(s0, trace).calls && I.Run(s0, trace).calls[c] == call && Rests(I.Run(s0, trace))
  }

  /** A call before its first statement: a create is ready, the others look their item up. */
  lemma Submitted(s0: I.State, c: nat, op: Op) returns (trace: seq<I.Action>)
    requires Rests(s0) && c !in s0.calls
    ensures At(s0, trace, c, if op.Create? then I.Ready(op) else I.Checking(op))
    ensures var s := I.Run(s0, trace);
            s.items == s0.items && s.outbox == s0.outbox && s.jobs == s0.jobs && s.asked == s0.asked
  {
    var s;
    trace, s := I.Extend(s0, [], s0, I.Submit(c, op));
  }

  /** The lookup before the transaction. */
  lemma LookedUp(s0: I.State, done: seq<I.Action>, c: nat, op: Op) returns (trace: seq<I.Action>)
    requires !op.Create? && At(s0, done, c, I.Checking(op))
    ensures At(s0, trace, c, if Owns(I.Run(s0, done).items, op) then I.Ready(op) else I.Over)
    ensures var s, before := I.Run(s0, trace), I.Run(s0, done);
            s.items == before.items && s.outbox == before.outbox && s.jobs == before.jobs && s.asked == before.asked
  {
    var s;
    trace, s := I.Extend(s0, done, I.Run(s0, done), I.FindOwned(c));
  }

  /** The transaction up to its commit: both rows are written and nothing shows yet. */
  lemma Prepared(s0: I.State, done: seq<I.Action>, c: nat, op: Op, id: string, rowId: string, at: int)
    returns (trace: seq<I.Action>, s: I.State)
    requires At(s0, done, c, I.Ready(op)) && I.FreshRow(I.Run(s0, done), rowId)
    requires var s := I.Run(s0, done);
             if op.Create? then I.FreshItem(s, id) else KeyOf(op) == id && Owns(s.items, op)
    ensures I.Legal(s0, trace) && s == I.Run(s0, trace)
    ensures var before := I.Run(s0, done);
            var after := After(before.items, op);
            s == before.(calls := before.calls[c := I.Logged(op, id, after, RowFor(op, rowId, at, id, after))])
  {
    var before := I.Run(s0, done);
    trace, s := I.Extend(s0, done, before, I.Begin(c, at));
    trace, s := I.Extend(s0, trace, s, I.Write(c, id));
    assert s == before.(calls := before.calls[c := I.Written(op, at, id, After(before.items, op))]);
    trace, s := I.Extend(s0, trace, s, I.Log(c, rowId));
  }

  lemma TellsAsAsked(s: I.State)
    requires I.Inv(s)
    ensures Tells(s.items, s.outbox) <==> I.RemovalsSpelled(s.asked)
  {
    I.SpelledAsAsked(s.outbox, s.asked);
    TellsExactlyWhenSpelled(s.items, s.outbox);
  }

  lemma AskedOneMore(asked: seq<Op>, op: Op)
    requires op.Remove?
    ensures I.RemovalsSpelled(asked + [op]) <==> I.RemovalsSpelled(asked) && Spelled(op.id)
  {
    assert forall x :: x in asked + [op] <==> x in asked || x == op;
  }

  class Service {
    var items: map<string, Item>
    var outbox: seq<OutboxRow>
    var jobs: seq<Job>
    const blank: char -> bool

    constructor (blank: char -> bool)
      ensures Shows(I.EMPTY) && I.Inv(I.EMPTY) && Rests(I.EMPTY)
      ensures this.blank == blank
    {
      this.blank := blank;
      items, outbox, jobs := map[], [], [];
    }

    /** The protocol state s describes the tables and the broker as they are now. */
    ghost predicate Shows(s: I.State)
      reads this
    {
      s.items == items && s.outbox == outbox && s.jobs == jobs
    }

    /** The run describes them, keeps the protocol's invariant, and leaves no transaction open. */
    ghost predicate Ends(s0: I.State, trace: seq<I.Action>)
      reads this
    {
      I.Legal(s0, trace) && Shows(I.Run(s0, trace)) && I.Inv(I.Run(s0, trace)) && Rests(I.Run(s0, trace))
    }

    twostate predicate Unchanged()
      reads this
    {
      items == old(items) && outbox == old(outbox) && jobs == old(jobs)
    }

    /** The two writes of a transaction on item id, and the job published after it. */
    twostate predicate Wrote(op: Op, id: string, rowId: string, at: int, jobId: Option<string>)
      requires op.Create? || Owns(old(items), op)
      reads this
    {
      var after := After(old(items), op);
      var row := RowFor(op, rowId, at, id, after);
      && items == Put(old(items), id, after)
      && outbox == old(outbox) + [row]
      && jobs == old(jobs) + (if jobId.Some? then [JobFor(jobId.value, row)] else [])
    }

    /** One transaction and, if its commit was seen to succeed, the job publish: a run of the
        protocol. The request joins those that committed exactly when the commit took effect. */
    method Transact(op: Op, id: string, rowId: string, at: int, commit: Fate, jobId: Option<string>,
                    ghost c: nat, ghost s0: I.State, ghost done: seq<I.Action>)
      returns (ok: bool, ghost trace: seq<I.Action>)
      requires At(s0, done, c, I.Ready(op)) && Shows(I.Run(s0, done)) && I.FreshRow(I.Run(s0, done), rowId)
      requires var s := I.Run(s0, done);
               if op.Create? then I.FreshItem(s, id) else KeyOf(op) == id && Owns(s.items, op)
      modifies this
      ensures I.Legal(s0, trace) && Shows(I.Run(s0, trace)) && Rests(I.Run(s0, trace))
      ensures ok <==> commit.Succeeds?
      ensures commit.FailsBefore? ==> Unchanged()
      ensures !commit.FailsBefore? ==> Wrote(op, id, rowId, at, if ok then jobId else None)
      ensures I.Run(s0, trace).asked == I.Run(s0, done).asked + (if commit.FailsBefore? then [] else [op])
    {
      ghost var s;
      trace, s := Prepared(s0, done, c, op, id, rowId, at);
      var after := After(items, op);
      var row := RowFor(op, rowId, at, id, after);
      if commit.FailsBefore? {
        trace, s := I.Extend(s0, trace, s, I.Drop(c));
        return false, trace;
      }
      items, outbox := Put(items, id, after), outbox + [row];
      trace, s := I.Extend(s0, trace, s, I.Commit(c));
      ok := commit.Succeeds?;
      if ok && jobId.Some? {
        jobs := jobs + [JobFor(jobId.value, row)];
        trace, s := I.Extend(s0, trace, s, I.Publish(c, jobId.value));
      }
    }

    method Create(actor: Actor, title: Option<string>, body: Option<string>, newId: string, rowId: string, at: int,
                  commit: Fate, jobId: Option<string>, ghost c: nat, ghost s: I.State)
      returns (r: Result<Item>, ghost trace: seq<I.Action>)
      requires Shows(s) && I.Inv(s) && Rests(s) && c !in s.calls
      requires I.FreshItem(s, newId) && I.FreshRow(s, rowId)
      modifies this
      ensures Ends(s, trace)
      ensures r.Ok? <==> commit.Succeeds? && Given(title, blank).GetOr("") != ""
      ensures Given(title, blank).GetOr("") == "" ==> r == Err("validation.title_required") && Unchanged() && trace == []
      ensures Given(title, blank).GetOr("") != "" && commit.FailsBefore? ==> Unchanged()
      ensures Given(title, blank).GetOr("") != "" && !commit.FailsBefore? ==>
                Wrote(ItemLog.Create(actor, Given(title, blank).value, Given(body, blank).GetOr("")), newId, rowId, at,
                      if r.Ok? then jobId else None)
      ensures r.Ok? ==> newId in items && items[newId] == r.value
      ensures title.None? || IsBlank(title, blank) ==> r == Err("validation.title_required")
      ensures r.Ok? ==> r.value.tenant == actor.tenant && r.value.createdBy == actor.userId
                        && Reads(title, r.value.title, blank)
                        && (if body.None? then r.value.body == "" else Reads(body, r.value.body, blank))
    {
      trace := [];
      GivenReads(title, blank);
      GivenReads(body, blank);
      var trimmed := Given(title, blank).GetOr("");
      if trimmed == "" { return Err("validation.title_required"), trace; }
      var op := ItemLog.Create(actor, trimmed, Given(body, blank).GetOr(""));
      trace := Submitted(s, c, op);
      assert I.FreshItem(I.Run(s, trace), newId) && I.FreshRow(I.Run(s, trace), rowId);
      var ok;
      ok, trace := Transact(op, newId, rowId, at, commit, jobId, c, s, trace);
      I.RunKeepsInv(s, trace);
      if !ok { return Err("db.failed"), trace; }
      return Ok(items[newId]), trace;
    }

    /** id is as the caller spells it. */
    method Update(actor: Actor, id: string, title: Option<string>, body: Option<string>, rowId: string, at: int,
                  commit: Fate, jobId: Option<string>, ghost c: nat, ghost s: I.State)
      returns (r: Result<Item>, ghost trace: seq<I.Action>)
      requires Shows(s) && I.Inv(s) && Rests(s) && c !in s.calls && I.FreshRow(s, rowId)
      modifies this
      ensures Ends(s, trace)
      ensures title.None? && body.None? ==> r == Err("validation.nothing_to_update")
      ensures Given(title, blank) == Some("") ==> r == Err("validation.title_required")
      ensures var op := ItemLog.Update(actor, id, Given(title, blank), Given(body, blank));
              var valid := (title.Some? || body.Some?) && Given(title, blank) != Some("");
              && (valid && !Owns(old(items), op) ==> r == Err("business.item_not_found"))
              && (r.Ok? <==> valid && Owns(old(items), op) && commit.Succeeds?)
              && (valid && Owns(old(items), op) && !commit.FailsBefore? ==>
                    Wrote(op, KeyOf(op), rowId, at, if r.Ok? then jobId else None))
              && (!valid || !Owns(old(items), op) || commit.FailsBefore? ==> Unchanged())
              && (r.Ok? ==> r.value == Patch(old(items[KeyOf(op)]), op) && items == old(items)[KeyOf(op) := r.value])
      ensures IsBlank(title, blank) ==> r == Err("validation.title_required")
      ensures r.Ok? ==>
                var was := old(items)[Canonical(id)];
                && was.tenant == actor.tenant && r.value.tenant == was.tenant && r.value.createdBy == was.createdBy
                && (if title.None? then r.value.title == was.title else Reads(title, r.value.title, blank))
                && (if body.None? then r.value.body == was.body else Reads(body, r.value.body, blank))
    {
      trace := [];
      GivenReads(title, blank);
      GivenReads(body, blank);
      var op := ItemLog.Update(actor, id, Given(title, blank), Given(body, blank));
      if op.newTitle.None? && op.newBody.None? { return Err("validation.nothing_to_update"), trace; }
      if op.newTitle.Some? && op.newTitle.value == "" { return Err("validation.title_required"), trace; }
      var ok, owned;
      owned, ok, trace := FindThenTransact(op, rowId, at, commit, jobId, c, s);
      if !owned { return Err("business.item_not_found"), trace; }
      if !ok { return Err("db.failed"), trace; }
      return Ok(items[KeyOf(op)]), trace;
    }

    /** findOwned, and then the transaction on the item found. */
    method FindThenTransact(op: Op, rowId: string, at: int, commit: Fate, jobId: Option<string>,
                            ghost c: nat, ghost s: I.State)
      returns (owned: bool, ok: bool, ghost trace: seq<I.Action>)
      requires !op.Create? && Shows(s) && I.Inv(s) && Rests(s) && c !in s.calls && I.FreshRow(s, rowId)
      modifies this
      ensures Ends(s, trace)
      ensures owned <==> Owns(old(items), op)
      ensures ok <==> owned && commit.Succeeds?
      ensures !owned || commit.FailsBefore? ==> Unchanged() && I.Run(s, trace).asked == s.asked
      ensures owned && !commit.FailsBefore? ==>
                Wrote(op, KeyOf(op), rowId, at, if ok then jobId else None) && I.Run(s, trace).asked == s.asked + [op]
    {
      trace := Submitted(s, c, op);
      trace := LookedUp(s, trace, c, op);
      I.RunKeepsInv(s, trace);
      if !Owns(items, op) { return false, false, trace; }
      owned := true;
      assert I.FreshRow(I.Run(s, trace), rowId);
      ok, trace := Transact(op, KeyOf(op), rowId, at, commit, jobId, c, s, trace);
      I.RunKeepsInv(s, trace);
    }

    /** id is as the caller spells it, and is logged in that spelling: afterwards the log, as it is
        spelled, still tells the items if and only if it did before and nothing was removed under
        another spelling. */
    method Remove(actor: Actor, id: string, rowId: string, at: int, commit: Fate, jobId: Option<string>,
                  ghost c: nat, ghost s: I.State)
      returns (ok: bool, ghost trace: seq<I.Action>)
      requires Shows(s) && I.Inv(s) && Rests(s) && c !in s.calls && I.FreshRow(s, rowId)
      modifies this
      ensures Ends(s, trace)
      ensures var op := ItemLog.Remove(actor, id);
              && (ok <==> Owns(old(items), op) && commit.Succeeds?)
              && (Owns(old(items), op) && !commit.FailsBefore? ==>
                    Wrote(op, KeyOf(op), rowId, at, if ok then jobId else None) && ItemOf(outbox[|outbox| - 1]) == id)
              && (!Owns(old(items), op) || commit.FailsBefore? ==> Unchanged())
              && (Tells(items, outbox) <==>
                    Tells(old(items), old(outbox)) && (Owns(old(items), op) && !commit.FailsBefore? ==> Spelled(id)))
      ensures ok ==> items == old(items) - {Canonical(id)}
    {
      var op := ItemLog.Remove(actor, id);
      var owned;
      owned, ok, trace := FindThenTransact(op, rowId, at, commit, jobId, c, s);
      TellsAsAsked(s);
      TellsAsAsked(I.Run(s, trace));
      AskedOneMore(s.asked, op);
      RowFacts(op, rowId, at, id, None);
    }
  }
}
