/** Items of the business service and their outbox: concurrent create, update and remove
    calls, each writing its item and its outbox row in one transaction and publishing a job
    afterwards. */
module Items {
  import opened Common
  import opened AuditEvents
  import opened ItemLog
  import T = Text

  // The protocol: one action per SQL statement, commit, rollback or publish.

  /** A call: looking the item up, ready to open its transaction, inside it, committed, or over.
      In a transaction, after is what it wrote under the item's row lock, still invisible. */
  datatype Call =
    | Checking(op: Op)
    | Ready(op: Op)
    | Begun(op: Op, at: int)
    | Written(op: Op, at: int, id: string, after: Option<Item>)
    | Logged(op: Op, id: string, after: Option<Item>, row: OutboxRow)
    | Committed(row: OutboxRow)
    | Over

  /** asked: the requests whose transactions committed, in commit order. */
  datatype State = State(items: map<string, Item>, outbox: seq<OutboxRow>, calls: map<nat, Call>, jobs: seq<Job>,
                         asked: seq<Op>)

  datatype Action =
    | Submit(call: nat, op: Op)
    | FindOwned(call: nat)
    | Begin(call: nat, now: int)
    | Write(call: nat, newId: string)
    | Log(call: nat, rowId: string)
    | Commit(call: nat)
    | Publish(call: nat, jobId: string)
    | Drop(call: nat)

  predicate Locks(call: Call, id: string) { (call.Written? || call.Logged?) && call.id == id }

  predicate Unlocked(s: State, id: string) { forall c :: c in s.calls ==> !Locks(s.calls[c], id) }

  /** An id gen_random_uuid() may return for a new item. */
  predicate FreshItem(s: State, id: string) {
    && id != "" && Spelled(id) && id !in s.items && Unlocked(s, id)
    && Replay(RespelledLog(s.outbox), id) == Absent
  }

  /** An id gen_random_uuid() may return for a new outbox row. */
  predicate FreshRow(s: State, rowId: string) {
    && (forall row :: row in s.outbox ==> row.id != rowId)
    && (forall c :: c in s.calls && s.calls[c].Logged? ==> s.calls[c].row.id != rowId)
  }

  predicate Enabled(s: State, a: Action) {
    match a
    case Submit(c, op) => c !in s.calls
    case FindOwned(c) => c in s.calls && s.calls[c].Checking?
    case Begin(c, now) => c in s.calls && s.calls[c].Ready?
    case Write(c, newId) =>
      && c in s.calls && s.calls[c].Begun?
      && (if s.calls[c].op.Create? then FreshItem(s, newId) else Unlocked(s, KeyOf(s.calls[c].op)))
    case Log(c, rowId) => c in s.calls && s.calls[c].Written? && FreshRow(s, rowId)
    case Commit(c) => c in s.calls && s.calls[c].Logged?
    case Publish(c, jobId) => c in s.calls && s.calls[c].Committed?
    case Drop(c) => c in s.calls
  }

  function Next(s: State, call: Call, a: Action): (call': Call)
    requires !a.Submit? && a.call in s.calls && s.calls[a.call] == call && Enabled(s, a)
  {
    match a
    case FindOwned(_) => if call.op.Create? || Owns(s.items, call.op) then Ready(call.op) else Over
    case Begin(_, now) => Begun(call.op, now)
    case Write(_, newId) =>
      if call.op.Create? then Written(call.op, call.at, newId, After(s.items, call.op))
      else if Owns(s.items, call.op) then Written(call.op, call.at, KeyOf(call.op), After(s.items, call.op))
      else Over
    case Log(_, rowId) => Logged(call.op, call.id, call.after, RowFor(call.op, rowId, call.at, call.id, call.after))
    case Commit(_) => Committed(call.row)
    case Publish(_, _) => Over
    case Drop(_) => Over
  }

  function Apply(s: State, a: Action): (s': State)
    requires Enabled(s, a)
  {
    if a.Submit? then s.(calls := s.calls[a.call := if a.op.Create? then Ready(a.op) else Checking(a.op)])
    else
      var call := s.calls[a.call];
      var moved := s.(calls := s.calls[a.call := Next(s, call, a)]);
      match a
      case Commit(_) =>
        moved.(items := Put(s.items, call.id, call.after), outbox := s.outbox + [call.row], asked := s.asked + [call.op])
      case Publish(_, jobId) => moved.(jobs := s.jobs + [JobFor(jobId, call.row)])
      case _ => moved
  }

  predicate Legal(s: State, run: seq<Action>)
    decreases |run|
  {
    run == [] || (Enabled(s, run[0]) && Legal(Apply(s, run[0]), run[1..]))
  }

  function Run(s: State, run: seq<Action>): (s': State)
    requires Legal(s, run)
    decreases |run|
  {
    if run == [] then s else Run(Apply(s, run[0]), run[1..])
  }

  const EMPTY := State(map[], [], map[], [], [])

  /** What a transaction has written is what it would write now: its row lock keeps others out. */
  predicate CallInv(s: State, call: Call) {
    && (call.Written? || call.Logged? ==>
          && call.id != ""
          && (if call.op.Create? then Spelled(call.id) && call.id !in s.items
                                      && Replay(RespelledLog(s.outbox), call.id) == Absent
              else KeyOf(call.op) == call.id && Owns(s.items, call.op))
          && call.after == After(s.items, call.op))
    && (call.Logged? ==> call.row == RowFor(call.op, call.row.id, call.row.createdAt, call.id, call.after))
    && (call.Committed? ==> call.row in s.outbox)
  }

  /** The job announces a committed outbox row. */
  predicate Announces(outbox: seq<OutboxRow>, job: Job) {
    exists row :: row in outbox && job == JobFor(job.id, row)
  }

  ghost predicate Inv(s: State) {
    && Tells(s.items, RespelledLog(s.outbox))
    && Orderly(RespelledLog(s.outbox))
    && "" !in s.items
    && AskedFor(s.outbox, s.asked)
    && (forall c :: c in s.calls ==> CallInv(s, s.calls[c]))
    && LocksApart(s)
    && (forall job :: job in s.jobs ==> Announces(s.outbox, job))
    && FreshPending(s)
  }

  /** Row by row, the log answers the requests: it says who asked for what, a deletion in the request's
      spelling, other rows in the table's. */
  predicate AskedFor(outbox: seq<OutboxRow>, asked: seq<Op>) {
    && |asked| == |outbox|
    && forall i :: 0 <= i < |asked| ==> Answers(outbox[i], asked[i])
  }

  predicate Answers(row: OutboxRow, op: Op) {
    && row.eventType == Kind(op)
    && (if op.Remove? then ItemOf(row) == op.id else Spelled(ItemOf(row)))
    && ItemOf(row) != "" && (op.Update? ==> ItemOf(row) == Canonical(op.id))
    && TextField(PayloadFields(row.payload), "tenant_id") == op.actor.tenant
    && TextField(PayloadFields(row.payload), "actor_user_id") == op.actor.userId
    && ("title" in PayloadFields(row.payload) <==> !op.Remove?)
    && (op.Create? ==> TextField(PayloadFields(row.payload), "title") == op.title)
    && (op.Update? && op.newTitle.Some? ==> TextField(PayloadFields(row.payload), "title") == op.newTitle.value)
  }

  /** Every removal was asked for in the table's own spelling. */
  predicate RemovalsSpelled(asked: seq<Op>) { forall op :: op in asked && op.Remove? ==> Spelled(op.id) }

  lemma SpelledAsAsked(outbox: seq<OutboxRow>, asked: seq<Op>)
    requires AskedFor(outbox, asked)
    ensures OthersSpelled(outbox)
    ensures AllSpelled(outbox) <==> RemovalsSpelled(asked)
  {
    KindsDiffer();
    forall row | row in outbox && row.eventType != DELETED ensures Spelled(ItemOf(row)) {
      var i :| 0 <= i < |outbox| && outbox[i] == row;
      assert Answers(outbox[i], asked[i]);
    }
    forall i | 0 <= i < |asked| && RemovalsSpelled(asked) ensures Spelled(ItemOf(outbox[i])) {
      assert Answers(outbox[i], asked[i]) && asked[i] in asked;
    }
    forall op | op in asked && op.Remove? && AllSpelled(outbox) ensures Spelled(op.id) {
      var i :| 0 <= i < |asked| && asked[i] == op;
      assert Answers(outbox[i], asked[i]) && outbox[i] in outbox;
    }
  }

  /** No two transactions hold the lock on one item. */
  predicate LocksApart(s: State) {
    forall c, d :: c in s.calls && d in s.calls && c != d && (s.calls[c].Written? || s.calls[c].Logged?) ==>
      !Locks(s.calls[d], s.calls[c].id)
  }

  /** Rows have ids of their own, and the row a transaction is about to commit has an id no other row
      has or will have. */
  predicate FreshPending(s: State) {
    && (forall i, j :: 0 <= i < j < |s.outbox| ==> s.outbox[i].id != s.outbox[j].id)
    && (forall c, row :: c in s.calls && s.calls[c].Logged? && row in s.outbox ==> row.id != s.calls[c].row.id)
    && (forall c, d :: c in s.calls && d in s.calls && c != d && s.calls[c].Logged? && s.calls[d].Logged? ==>
          s.calls[c].row.id != s.calls[d].row.id)
  }

  /** What a commit appends is, respelled, a row about the item the transaction holds. */
  lemma RespelledCommit(s: State, c: nat)
    requires c in s.calls && s.calls[c].Logged? && CallInv(s, s.calls[c])
    ensures var row := s.calls[c].row;
            && RespelledLog(s.outbox + [row]) == RespelledLog(s.outbox) + [Respelled(row)]
            && ItemOf(Respelled(row)) == s.calls[c].id == Canonical(ItemOf(row))
            && Answers(row, s.calls[c].op)
  {
    var call := s.calls[c];
    var row := call.row;
    RespelledRow(call.op, row.id, row.createdAt, call.id, call.after);
    RowFacts(call.op, row.id, row.createdAt, call.id, call.after);
    RespelledFacts(row);
    assert RespelledLog(s.outbox + [row]) == RespelledLog(s.outbox) + [Respelled(row)];
  }

  /** A write elsewhere does not change what an update or removal would do. */
  lemma ElsewhereUnchanged(items: map<string, Item>, id: string, after: Option<Item>, op: Op)
    requires !op.Create? && Owns(items, op) && KeyOf(op) != id
    ensures Owns(Put(items, id, after), op) && After(Put(items, id, after), op) == After(items, op)
  {}

  lemma ElsewhereAbsent(s: State, c: nat, id: string)
    requires c in s.calls && s.calls[c].Logged? && CallInv(s, s.calls[c]) && id != s.calls[c].id
    requires Replay(RespelledLog(s.outbox), id) == Absent
    ensures Replay(RespelledLog(s.outbox + [s.calls[c].row]), id) == Absent
  {
    RespelledCommit(s, c);
    ReplaySnoc(RespelledLog(s.outbox), Respelled(s.calls[c].row), id);
  }

  lemma CommitKeepsCall(s: State, c: nat, other: Call)
    requires c in s.calls && s.calls[c].Logged? && CallInv(s, s.calls[c]) && CallInv(s, other)
    requires other.Written? || other.Logged? ==> other.id != s.calls[c].id
    ensures CallInv(Apply(s, Commit(c)), other)
  {
    if other.Written? || other.Logged? {
      if other.op.Create? {
        ElsewhereAbsent(s, c, other.id);
      } else {
        ElsewhereUnchanged(s.items, s.calls[c].id, s.calls[c].after, other.op);
      }
    }
  }

  lemma CommitKeepsCalls(s: State, c: nat)
    requires Inv(s) && Enabled(s, Commit(c))
    ensures var s' := Apply(s, Commit(c)); forall d :: d in s'.calls ==> CallInv(s', s'.calls[d])
  {
    var call, s' := s.calls[c], Apply(s, Commit(c));
    forall d | d in s'.calls ensures CallInv(s', s'.calls[d]) {
      if d == c {
        assert call.row in s'.outbox;
      } else {
        assert CallInv(s, s.calls[d]) && CallInv(s, call);
        CommitKeepsCall(s, c, s.calls[d]);
      }
    }
  }

  lemma CommitKeepsJobs(s: State, c: nat)
    requires Inv(s) && Enabled(s, Commit(c))
    ensures var s' := Apply(s, Commit(c)); forall job :: job in s'.jobs ==> Announces(s'.outbox, job)
  {
    var s' := Apply(s, Commit(c));
    forall job | job in s'.jobs ensures Announces(s'.outbox, job) {
      var row :| row in s.outbox && job == JobFor(job.id, row);
      assert row in s'.outbox;
    }
  }

  lemma CommitKeepsLog(s: State, c: nat)
    requires Enabled(s, Commit(c)) && CallInv(s, s.calls[c])
    requires Tells(s.items, RespelledLog(s.outbox)) && Orderly(RespelledLog(s.outbox))
    requires "" !in s.items && AskedFor(s.outbox, s.asked)
    ensures var s' := Apply(s, Commit(c));
            && Tells(s'.items, RespelledLog(s'.outbox)) && Orderly(RespelledLog(s'.outbox))
            && "" !in s'.items && AskedFor(s'.outbox, s'.asked)
  {
    var call := s.calls[c];
    RespelledCommit(s, c);
    TransactionKeepsLog(s.items, s.outbox, call.op, call.id, call.row.id, call.row.createdAt);
  }

  lemma CommitKeepsInv(s: State, c: nat)
    requires Inv(s) && Enabled(s, Commit(c))
    ensures Inv(Apply(s, Commit(c)))
  {
    assert CallInv(s, s.calls[c]);
    StepKeepsFreshPending(s, Commit(c));
    StepKeepsLocksApart(s, Commit(c));
    CommitKeepsLog(s, c);
    CommitKeepsCalls(s, c);
    CommitKeepsJobs(s, c);
  }

  lemma StepKeepsLocksApart(s: State, a: Action)
    requires LocksApart(s) && Enabled(s, a)
    ensures LocksApart(Apply(s, a))
  {}

  lemma StepKeepsFreshPending(s: State, a: Action)
    requires FreshPending(s) && Enabled(s, a)
    ensures FreshPending(Apply(s, a))
  {}

  lemma StepKeepsInv(s: State, a: Action)
    requires Inv(s) && Enabled(s, a)
    ensures Inv(Apply(s, a))
  {
    StepKeepsFreshPending(s, a);
    StepKeepsLocksApart(s, a);
    if a.Commit? {
      CommitKeepsInv(s, a.call);
    } else {
      var s' := Apply(s, a);
      forall c | c in s'.calls ensures CallInv(s', s'.calls[c]) {
        if c != a.call {
          assert CallInv(s, s.calls[c]);
        } else if !a.Submit? {
          assert CallInv(s, s.calls[c]);
        }
      }
      if a.Publish? {
        assert CallInv(s, s.calls[a.call]);
        assert Announces(s.outbox, JobFor(a.jobId, s.calls[a.call].row));
      }
    }
  }

  /** Items and outbox change together or not at all: a step that leaves the log alone leaves
      the items alone, and a step that writes a row writes one, about the one item it changes. */
  lemma StepIsAtomic(s: State, a: Action)
    requires Inv(s) && Enabled(s, a)
    ensures var s' := Apply(s, a);
            || (s'.outbox == s.outbox && s'.items == s.items)
            || (|s'.outbox| == |s.outbox| + 1 && s.outbox <= s'.outbox
                && OnlyChanges(s.items, s'.items, s'.outbox[|s.outbox|]))
  {
    if a.Commit? {
      assert CallInv(s, s.calls[a.call]);
      CommitChanges(s, a.call);
    }
  }

  /** The tables differ in the one item the row is about, as the row's kind says. */
  predicate OnlyChanges(items: map<string, Item>, items': map<string, Item>, row: OutboxRow) {
    var key := Canonical(ItemOf(row));
    && items' - {key} == items - {key}
    && (key in items <==> row.eventType != CREATED)
    && (key in items' <==> row.eventType != DELETED)
  }

  lemma CommitChanges(s: State, c: nat)
    requires Enabled(s, Commit(c)) && CallInv(s, s.calls[c])
    ensures OnlyChanges(s.items, Apply(s, Commit(c)).items, s.calls[c].row)
  {
    RespelledCommit(s, c);
    KindsDiffer();
  }

  lemma {:induction false} RunKeepsInv(s: State, run: seq<Action>)
    requires Inv(s) && Legal(s, run)
    ensures Inv(Run(s, run))
    ensures s.outbox <= Run(s, run).outbox
    decreases |run|
  {
    if run != [] {
      StepKeepsInv(s, run[0]);
      RunKeepsInv(Apply(s, run[0]), run[1..]);
    }
  }

  /** In every run, whatever spelling the requests used: replaying an item's rows in commit order
      gives exactly whether it exists, its tenant and its current title; the log is orderly; and
      every job announces a row. */
  lemma LogTellsItems(run: seq<Action>, id: string)
    requires Legal(EMPTY, run)
    ensures var s := Run(EMPTY, run);
            var log := RespelledLog(s.outbox);
            && (id in s.items <==> Replay(log, id).Live?)
            && (id in s.items ==> Replay(log, id) == Live(s.items[id].tenant, s.items[id].title))
            && Orderly(log)
            && (forall job :: job in s.jobs ==> Announces(s.outbox, job))
  {
    RunKeepsInv(EMPTY, run);
    var s := Run(EMPTY, run);
    var log := RespelledLog(s.outbox);
    assert Replay(log, id) == ViewOf(s.items, id) || (Replay(log, id) == Absent && id !in s.items);
  }

  /** The exact condition for reading the rows as they are spelled: in every run the log tells the
      items, and is orderly, if and only if every removal that committed was asked for in the
      spelling that the table uses. */
  lemma TellsExactlyWhenRemovalsSpelled(run: seq<Action>)
    requires Legal(EMPTY, run)
    ensures var s := Run(EMPTY, run);
            && (Tells(s.items, s.outbox) <==> RemovalsSpelled(s.asked))
            && (Orderly(s.outbox) <==> RemovalsSpelled(s.asked))
  {
    RunKeepsInv(EMPTY, run);
    var s := Run(EMPTY, run);
    SpelledAsAsked(s.outbox, s.asked);
    TellsExactlyWhenSpelled(s.items, s.outbox);
  }

  /** In every run no row follows the deletion of its item, in whatever spelling. */
  lemma NothingFollowsDeletion(run: seq<Action>, i: nat, j: nat)
    requires Legal(EMPTY, run)
    requires var log := Run(EMPTY, run).outbox; i < j < |log| && log[i].eventType == DELETED
    ensures var log := Run(EMPTY, run).outbox; Canonical(ItemOf(log[j])) != Canonical(ItemOf(log[i]))
  {
    RunKeepsInv(EMPTY, run);
    var log := Run(EMPTY, run).outbox;
    RespelledFacts(log[i]);
    RespelledFacts(log[j]);
    SilentAfterDeletion(RespelledLog(log), i, j);
  }

  lemma Extend(s0: State, run: seq<Action>, s: State, a: Action) returns (run': seq<Action>, s': State)
    requires Legal(s0, run) && s == Run(s0, run) && Enabled(s, a)
    ensures run' == run + [a] && Legal(s0, run') && s' == Run(s0, run') == Apply(s, a)
  {
    run', s' := run + [a], Apply(s, a);
    RunOneMore(s0, run, a);
  }

  lemma {:induction false} RunOneMore(s: State, run: seq<Action>, a: Action)
    requires Legal(s, run) && Enabled(Run(s, run), a)
    ensures Legal(s, run + [a]) && Run(s, run + [a]) == Apply(Run(s, run), a)
    decreases |run|
  {
    if run == [] {
      assert [a][1..] == [];
    } else {
      RunOneMore(Apply(s, run[0]), run[1..], a);
      assert (run + [a])[1..] == run[1..] + [a];
    }
  }

  // A removal asked for in another spelling.

  const WHO := Actor("u", "t")
  const MAKE := Create(WHO, "new", "")

  function Titled(title: string): (item: Item) { Item("t", title, "", "u") }

  function MadeRow(key: string): (row: OutboxRow) { RowFor(MAKE, "r", 1, key, Some(Titled("new"))) }

  /** One item was created, and nothing else happened. */
  function Made(key: string): (s: State) {
    State(map[key := Titled("new")], [MadeRow(key)], map[0 := Committed(MadeRow(key))], [], [MAKE])
  }

  lemma MakeItem(key: string) returns (run: seq<Action>)
    requires Spelled(key) && key != ""
    ensures Legal(EMPTY, run) && Run(EMPTY, run) == Made(key)
  {
    var s := EMPTY;
    run := [];
    run, s := Extend(EMPTY, run, s, Submit(0, MAKE));
    run, s := Extend(EMPTY, run, s, Begin(0, 1));
    run, s := Extend(EMPTY, run, s, Write(0, key));
    run, s := Extend(EMPTY, run, s, Log(0, "r"));
    run, s := Extend(EMPTY, run, s, Commit(0));
    assert s.items == map[key := Titled("new")];
  }

  /** The item was created, and a removal is at the given place. */
  function Removing(key: string, call: Call): (s: State) {
    Made(key).(calls := map[0 := Committed(MadeRow(key)), 1 := call])
  }

  lemma RemovalBegins(run0: seq<Action>, asked: string, key: string) returns (run: seq<Action>)
    requires Canonical(asked) == key
    requires Legal(EMPTY, run0) && Run(EMPTY, run0) == Made(key)
    ensures Legal(EMPTY, run) && Run(EMPTY, run) == Removing(key, Begun(Remove(WHO, asked), 2))
  {
    var s := Made(key);
    run, s := Extend(EMPTY, run0, s, Submit(1, Remove(WHO, asked)));
    run, s := Extend(EMPTY, run, s, FindOwned(1));
    assert s == Removing(key, Ready(Remove(WHO, asked)));
    run, s := Extend(EMPTY, run, s, Begin(1, 2));
  }

  lemma RemovalWrites(run0: seq<Action>, asked: string, key: string) returns (run: seq<Action>)
    requires Canonical(asked) == key
    requires Legal(EMPTY, run0) && Run(EMPTY, run0) == Removing(key, Begun(Remove(WHO, asked), 2))
    ensures Legal(EMPTY, run) && Run(EMPTY, run) == Removing(key, Written(Remove(WHO, asked), 2, key, None))
  {
    var s := Removing(key, Begun(Remove(WHO, asked), 2));
    run, s := Extend(EMPTY, run0, s, Write(1, ""));
  }

  lemma RemovalCommits(run0: seq<Action>, asked: string, key: string) returns (run: seq<Action>)
    requires Legal(EMPTY, run0) && Run(EMPTY, run0) == Removing(key, Written(Remove(WHO, asked), 2, key, None))
    ensures Legal(EMPTY, run)
    ensures Run(EMPTY, run).items == map[] && Run(EMPTY, run).asked == [MAKE, Remove(WHO, asked)]
  {
    var s := Removing(key, Written(Remove(WHO, asked), 2, key, None));
    run, s := Extend(EMPTY, run0, s, Log(1, "rr"));
    run, s := Extend(EMPTY, run, s, Commit(1));
    assert s.items == map[];
  }

  /** Any spelling other than the stored one misleads: the item is removed under it, the table is empty,
      and the log, read as it is spelled, does not tell so. */
  lemma OtherSpellingMisleads(asked: string) returns (run: seq<Action>)
    requires !Spelled(asked)
    ensures Legal(EMPTY, run) && Run(EMPTY, run).items == map[]
    ensures !Tells(Run(EMPTY, run).items, Run(EMPTY, run).outbox) && !Orderly(Run(EMPTY, run).outbox)
  {
    var key := Canonical(asked);
    T.LowerTwice(asked);
    T.LowerAt(asked);
    run := MakeItem(key);
    run := RemovalBegins(run, asked, key);
    run := RemovalWrites(run, asked, key);
    run := RemovalCommits(run, asked, key);
    TellsExactlyWhenRemovalsSpelled(run);
    assert Remove(WHO, asked) in Run(EMPTY, run).asked;
  }

  /** An id with a capital letter in it is such a spelling. */
  lemma CapitalsAreNotSpelled(id: string, i: nat)
    requires i < |id| && 'A' <= id[i] <= 'Z'
    ensures !Spelled(id)
  {
    T.LowerAt(id);
  }
}
