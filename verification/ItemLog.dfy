/** What the transactions of the items service write, and what the outbox rows of an item say about
    it, read one after the other. */
module ItemLog {
  import opened Common
  import opened AuditEvents
  import T = Text

  datatype Actor = Actor(userId: string, tenant: string)

  datatype Item = Item(tenant: string, title: string, body: string, createdBy: string)

  // Ids. A request names an item by a UUID in any spelling; the column holds and returns the
  // lower-case one, and compares values, not spellings.

  function Canonical(id: string): (key: string) { T.Lower(id) }

  predicate Spelled(id: string) { Canonical(id) == id }

  /** A validated request: texts are trimmed, a given title is not empty; the id is as requested. */
  datatype Op =
    | Create(actor: Actor, title: string, body: string)
    | Update(actor: Actor, id: string, newTitle: Option<string>, newBody: Option<string>)
    | Remove(actor: Actor, id: string)

  // The rules one transaction applies, shared by the protocol and the service below.

  function Patch(item: Item, op: Op): (r: Item)
    requires op.Update?
  {
    var titled := if op.newTitle.Some? then item.(title := op.newTitle.value) else item;
    if op.newBody.Some? then titled.(body := op.newBody.value) else titled
  }

  /** The stored key that a request means. */
  function KeyOf(op: Op): (key: string)
    requires !op.Create?
  {
    Canonical(op.id)
  }

  /** UPDATE and DELETE ... WHERE id = $1 AND tenant_id = $2 find this row. */
  predicate Owns(items: map<string, Item>, op: Op)
    requires !op.Create?
  {
    KeyOf(op) in items && items[KeyOf(op)].tenant == op.actor.tenant
  }

  /** The item as the transaction leaves it, None when it deletes it. */
  function After(items: map<string, Item>, op: Op): (item: Option<Item>)
    requires op.Create? || Owns(items, op)
  {
    match op
    case Create(actor, title, body) => Some(Item(actor.tenant, title, body, actor.userId))
    case Update(_, _, _, _) => Some(Patch(items[KeyOf(op)], op))
    case Remove(_, _) => None
  }

  function Put(items: map<string, Item>, id: string, after: Option<Item>): (r: map<string, Item>) {
    if after.Some? then items[id := after.value] else items - {id}
  }

  function Kind(op: Op): (kind: string) {
    match op
    case Create(_, _, _) => CREATED
    case Update(_, _, _, _) => UPDATED
    case Remove(_, _) => DELETED
  }

  /** An outbox row that names the item by the given text. */
  function RowAbout(op: Op, rowId: string, at: int, name: string, after: Option<Item>): (row: OutboxRow) {
    var common := map["item_id" := JString(name), "tenant_id" := JString(op.actor.tenant),
                      "actor_user_id" := JString(op.actor.userId)];
    OutboxRow(rowId, Kind(op), Fields(if after.Some? then common["title" := JString(after.value.title)] else common), at)
  }

  /** The row a transaction on the item stored under id writes: an insert and an update name the item
      as the table returns it, a deletion as the request spelled it. */
  function RowFor(op: Op, rowId: string, at: int, id: string, after: Option<Item>): (row: OutboxRow) {
    RowAbout(op, rowId, at, if op.Remove? then op.id else id, after)
  }

  /** The job published after the commit. */
  function JobFor(jobId: string, row: OutboxRow): (job: Job) {
    var f := PayloadFields(row.payload);
    var base := map["item_id" := JString(TextField(f, "item_id"))];
    Job(jobId, row.eventType, TextField(f, "actor_user_id"), TextField(f, "tenant_id"),
        if "title" in f then base["title" := f["title"]] else base)
  }

  // Reading the log: what the rows of one item say about it, in commit order.

  datatype View = Absent | Live(tenant: string, title: string) | Gone

  function Told(view: View, row: OutboxRow, id: string): (view': View) {
    if ItemOf(row) != id then view
    else if row.eventType == DELETED then Gone
    else Live(TextField(PayloadFields(row.payload), "tenant_id"), TextField(PayloadFields(row.payload), "title"))
  }

  function Replay(log: seq<OutboxRow>, id: string): (view: View) {
    if log == [] then Absent else Told(Replay(log[..|log| - 1], id), log[|log| - 1], id)
  }

  function ViewOf(items: map<string, Item>, id: string): (view: View) {
    if id in items then Live(items[id].tenant, items[id].title) else Gone
  }

  /** The log tells exactly which items exist, with which tenant and title. */
  ghost predicate Tells(items: map<string, Item>, log: seq<OutboxRow>) {
    forall id: string :: Replay(log, id) == ViewOf(items, id) || (Replay(log, id) == Absent && id !in items)
  }

  /** A row that may come next: the creation of an item of which nothing was said, or an
      update or deletion, by its own tenant, of one that lives. */
  predicate Fits(log: seq<OutboxRow>, row: OutboxRow) {
    var before := Replay(log, ItemOf(row));
    && ItemOf(row) != ""
    && match before
       case Absent => row.eventType == CREATED
       case Live(tenant, _) =>
         (row.eventType == UPDATED || row.eventType == DELETED)
         && tenant == TextField(PayloadFields(row.payload), "tenant_id")
       case Gone => false
  }

  ghost predicate Orderly(log: seq<OutboxRow>) {
    forall j {:trigger Fits(log[..j], log[j])} :: 0 <= j < |log| ==> Fits(log[..j], log[j])
  }

  lemma ReplaySnoc(log: seq<OutboxRow>, row: OutboxRow, id: string)
    ensures Replay(log + [row], id) == Told(Replay(log, id), row, id)
  {}

  lemma RowFacts(op: Op, rowId: string, at: int, name: string, after: Option<Item>)
    ensures var row := RowAbout(op, rowId, at, name, after);
            && ItemOf(row) == name
            && TextField(PayloadFields(row.payload), "tenant_id") == op.actor.tenant
            && TextField(PayloadFields(row.payload), "actor_user_id") == op.actor.userId
            && TextField(PayloadFields(row.payload), "title") == (if after.Some? then after.value.title else "")
            && ("title" in PayloadFields(row.payload) <==> after.Some?)
            && (row.eventType == CREATED <==> op.Create?)
            && (row.eventType == UPDATED <==> op.Update?)
            && (row.eventType == DELETED <==> op.Remove?)
  {}

  lemma AppendKeepsLog(items: map<string, Item>, log: seq<OutboxRow>, id: string, after: Option<Item>, row: OutboxRow)
    requires Tells(items, log) && Orderly(log) && Fits(log, row) && ItemOf(row) == id
    requires Told(Replay(log, id), row, id) == if after.Some? then Live(after.value.tenant, after.value.title) else Gone
    ensures Tells(Put(items, id, after), log + [row])
    ensures Orderly(log + [row])
  {
    var items', log' := Put(items, id, after), log + [row];
    forall x: string
      ensures Replay(log', x) == ViewOf(items', x) || (Replay(log', x) == Absent && x !in items')
    {
      ReplaySnoc(log, row, x);
      assert Replay(log, x) == ViewOf(items, x) || (Replay(log, x) == Absent && x !in items);
    }
    forall j | 0 <= j < |log'| ensures Fits(log'[..j], log'[j]) {
      assert log'[..j] == if j < |log| then log[..j] else log;
    }
  }

  lemma RowFitsNext(items: map<string, Item>, log: seq<OutboxRow>, op: Op, id: string, rowId: string, at: int)
    requires Replay(log, id) == ViewOf(items, id) || (Replay(log, id) == Absent && id !in items)
    requires id != "" && (if op.Create? then Replay(log, id) == Absent else KeyOf(op) == id && Owns(items, op))
    ensures var after := After(items, op);
            var row := RowAbout(op, rowId, at, id, after);
            && ItemOf(row) == id && Fits(log, row)
            && Told(Replay(log, id), row, id) == if after.Some? then Live(after.value.tenant, after.value.title) else Gone
  {
    RowFacts(op, rowId, at, id, After(items, op));
    KindsDiffer();
  }

  // Reading the log whatever the spelling: every row with its item's id as the table spells it.

  function Respelled(row: OutboxRow): (r: OutboxRow) {
    if ItemOf(row) == "" then row
    else row.(payload := Fields(row.payload.fields["item_id" := JString(Canonical(ItemOf(row)))]))
  }

  function RespelledLog(log: seq<OutboxRow>): (r: seq<OutboxRow>)
    ensures |r| == |log| && forall i :: 0 <= i < |log| ==> r[i] == Respelled(log[i])
  {
    seq(|log|, i requires 0 <= i < |log| => Respelled(log[i]))
  }

  lemma RespelledFacts(row: OutboxRow)
    ensures var r := Respelled(row);
            && ItemOf(r) == Canonical(ItemOf(row)) && r.eventType == row.eventType && r.createdAt == row.createdAt
            && TextField(PayloadFields(r.payload), "tenant_id") == TextField(PayloadFields(row.payload), "tenant_id")
            && TextField(PayloadFields(r.payload), "title") == TextField(PayloadFields(row.payload), "title")
    ensures Spelled(ItemOf(row)) ==> Respelled(row) == row
  {
    assert |"item_id"| != |"tenant_id"| && |"item_id"| != |"title"|;
    if ItemOf(row) != "" && Spelled(ItemOf(row)) {
      var f := row.payload.fields;
      assert f["item_id" := f["item_id"]] == f;
    }
  }

  /** What is logged for a transaction on id is, respelled, a row about id. */
  lemma RespelledRow(op: Op, rowId: string, at: int, id: string, after: Option<Item>)
    requires id != "" && (if op.Create? then Spelled(id) else KeyOf(op) == id)
    ensures Respelled(RowFor(op, rowId, at, id, after)) == RowAbout(op, rowId, at, id, after)
    ensures !op.Remove? ==> Spelled(ItemOf(RowFor(op, rowId, at, id, after)))
    ensures op.Remove? ==> ItemOf(RowFor(op, rowId, at, id, after)) == op.id
  {
    var row := RowFor(op, rowId, at, id, after);
    if op.Remove? {
      RowFacts(op, rowId, at, op.id, after);
      assert row.payload.fields["item_id" := JString(id)] == RowAbout(op, rowId, at, id, after).payload.fields;
    } else {
      RowFacts(op, rowId, at, id, after);
      if op.Update? { T.LowerTwice(op.id); }
      RespelledFacts(row);
    }
  }

  /** The two writes of one transaction keep the log, whatever its spelling, in step with the table. */
  lemma TransactionKeepsLog(items: map<string, Item>, log: seq<OutboxRow>, op: Op, id: string, rowId: string, at: int)
    requires Tells(items, RespelledLog(log)) && Orderly(RespelledLog(log))
    requires id != "" && (if op.Create? then Spelled(id) && Replay(RespelledLog(log), id) == Absent
                          else KeyOf(op) == id && Owns(items, op))
    ensures var after := After(items, op);
            var log' := RespelledLog(log + [RowFor(op, rowId, at, id, after)]);
            && Tells(Put(items, id, after), log')
            && Orderly(log')
  {
    var r, after := RespelledLog(log), After(items, op);
    var row := RowFor(op, rowId, at, id, after);
    RespelledRow(op, rowId, at, id, after);
    assert RespelledLog(log + [row]) == r + [Respelled(row)];
    assert Replay(r, id) == ViewOf(items, id) || (Replay(r, id) == Absent && id !in items);
    RowFitsNext(items, r, op, id, rowId, at);
    AppendKeepsLog(items, r, id, after, Respelled(row));
  }

  /** Nothing is said of an item after its deletion. */
  lemma {:induction false} SilentAfterDeletion(log: seq<OutboxRow>, i: nat, j: nat)
    requires Orderly(log) && i < j < |log| && log[i].eventType == DELETED
    ensures ItemOf(log[j]) != ItemOf(log[i])
  {
    GoneStays(log, i, j);
    assert Fits(log[..j], log[j]);
  }

  lemma {:induction false} GoneStays(log: seq<OutboxRow>, i: nat, j: nat)
    requires Orderly(log) && i < j <= |log| && log[i].eventType == DELETED
    ensures Replay(log[..j], ItemOf(log[i])) == Gone
    decreases j
  {
    var before, row := log[..j - 1], log[j - 1];
    assert log[..j] == before + [row];
    if i < j - 1 {
      GoneStays(log, i, j - 1);
      GoneForOneMore(before, row, ItemOf(log[i]));
    } else {
      ReplaySnoc(before, row, ItemOf(log[i]));
    }
  }

  lemma GoneForOneMore(log: seq<OutboxRow>, row: OutboxRow, id: string)
    requires Fits(log, row) && Replay(log, id) == Gone
    ensures Replay(log + [row], id) == Gone
  {
    ReplaySnoc(log, row, id);
  }

  // When the log may be read as it is spelled.

  predicate AllSpelled(log: seq<OutboxRow>) { forall row :: row in log ==> Spelled(ItemOf(row)) }

  /** Only deletions carry a caller's spelling. */
  predicate OthersSpelled(log: seq<OutboxRow>) {
    forall row :: row in log && row.eventType != DELETED ==> Spelled(ItemOf(row))
  }

  lemma {:induction false} Untouched(log: seq<OutboxRow>, j: nat, id: string)
    requires j <= |log| && forall i :: j <= i < |log| ==> ItemOf(log[i]) != id
    ensures Replay(log, id) == Replay(log[..j], id)
    decreases |log|
  {
    if j == |log| {
      assert log[..j] == log;
    } else {
      Untouched(log[..|log| - 1], j, id);
      assert log[..|log| - 1][..j] == log[..j];
    }
  }

  /** Nothing of an item was deleted: it is logged under its own spelling throughout. */
  lemma {:induction false} LiteralUntilDeleted(log: seq<OutboxRow>, id: string)
    requires Spelled(id) && OthersSpelled(log)
    requires forall row :: row in log && Canonical(ItemOf(row)) == id ==> row.eventType != DELETED
    ensures Replay(log, id) == Replay(RespelledLog(log), id)
  {
    if log != [] {
      var init, last := log[..|log| - 1], log[|log| - 1];
      assert log == init + [last];
      LiteralUntilDeleted(init, id);
      RespelledFacts(last);
      assert RespelledLog(log) == RespelledLog(init) + [Respelled(last)];
      assert ItemOf(last) == id <==> Canonical(ItemOf(last)) == id;
    }
  }

  lemma LiveMeansUndeleted(log: seq<OutboxRow>, id: string)
    requires Orderly(RespelledLog(log)) && Replay(RespelledLog(log), id).Live?
    ensures forall row :: row in log && Canonical(ItemOf(row)) == id ==> row.eventType != DELETED
  {
    var r := RespelledLog(log);
    assert r[..|r|] == r;
    forall row | row in log && Canonical(ItemOf(row)) == id ensures row.eventType != DELETED {
      var i :| 0 <= i < |log| && log[i] == row;
      RespelledFacts(row);
      if r[i].eventType == DELETED {
        GoneStays(r, i, |r|);
      }
    }
  }

  /** A living item's rows can be read as they are spelled, whatever became of other items. */
  lemma LivingIsLiteral(items: map<string, Item>, log: seq<OutboxRow>, id: string)
    requires Tells(items, RespelledLog(log)) && Orderly(RespelledLog(log)) && OthersSpelled(log)
    requires id in items && Spelled(id)
    ensures Replay(log, id) == ViewOf(items, id)
  {
    var r := RespelledLog(log);
    assert Replay(r, id) == ViewOf(items, id) || (Replay(r, id) == Absent && id !in items);
    LiveMeansUndeleted(log, id);
    LiteralUntilDeleted(log, id);
  }

  /** A row in a caller's spelling is the deletion of an item that lived until then. */
  lemma MisspeltBefore(log: seq<OutboxRow>, j: nat, name: string, key: string)
    requires Orderly(RespelledLog(log)) && OthersSpelled(log) && j < |log|
    requires name == ItemOf(log[j]) && key == Canonical(name) && name != key
    ensures log[j].eventType == DELETED && Spelled(key)
    ensures Replay(log[..j], key).Live? && Replay(log[..j], name) == Absent
  {
    var r, before := RespelledLog(log), log[..j];
    assert log[j] in log;
    T.LowerTwice(name);
    RespelledFacts(log[j]);
    KindsDiffer();
    assert Fits(r[..j], r[j]);
    assert r[..j] == RespelledLog(before);
    OrderlyPrefix(r, j);
    LiveMeansUndeleted(before, key);
    assert forall row :: row in before ==> row in log;
    LiteralUntilDeleted(before, key);
    NoNameBefore(log, j);
  }

  lemma DeletedIsNoItem(items: map<string, Item>, log: seq<OutboxRow>, j: nat, key: string)
    requires Tells(items, RespelledLog(log)) && Orderly(RespelledLog(log))
    requires j < |log| && log[j].eventType == DELETED && key == Canonical(ItemOf(log[j]))
    ensures key !in items
  {
    var r := RespelledLog(log);
    RespelledFacts(log[j]);
    GoneStays(r, j, |r|);
    assert r[..|r|] == r;
    assert Replay(r, key) == ViewOf(items, key) || (Replay(r, key) == Absent && key !in items);
  }

  lemma AliveButNoItem(items: map<string, Item>, log: seq<OutboxRow>, key: string)
    requires key !in items && Replay(log, key).Live?
    ensures !Tells(items, log)
  {
    assert ViewOf(items, key) == Gone;
  }

  /** Read as it is spelled, the log has the deleted item alive for ever, and deletes one of which
      nothing was said. */
  lemma MisspeltMisleads(items: map<string, Item>, log: seq<OutboxRow>, j: nat, name: string, key: string)
    requires Tells(items, RespelledLog(log)) && Orderly(RespelledLog(log)) && OthersSpelled(log) && j < |log|
    requires name == ItemOf(log[j]) && key == Canonical(name) && name != key
    ensures key !in items && Replay(log, key).Live?
    ensures !Tells(items, log) && !Orderly(log)
  {
    MisspeltBefore(log, j, name, key);
    StaysAlive(log, j, key);
    DeletedIsNoItem(items, log, j, key);
    AliveButNoItem(items, log, key);
    KindsDiffer();
    assert !Fits(log[..j], log[j]);
  }

  lemma OrderlyPrefix(log: seq<OutboxRow>, j: nat)
    requires Orderly(log) && j <= |log|
    ensures Orderly(log[..j])
  {
    forall i | 0 <= i < j ensures Fits(log[..j][..i], log[..j][i]) {
      assert log[..j][..i] == log[..i];
    }
  }

  /** After a misspelt deletion the item's own spelling is never logged again. */
  lemma StaysAlive(log: seq<OutboxRow>, j: nat, key: string)
    requires Orderly(RespelledLog(log)) && j < |log| && log[j].eventType == DELETED
    requires Canonical(ItemOf(log[j])) == key && Spelled(key) && ItemOf(log[j]) != key
    ensures Replay(log, key) == Replay(log[..j], key)
  {
    var r := RespelledLog(log);
    RespelledFacts(log[j]);
    forall i | j <= i < |log| ensures ItemOf(log[i]) != key {
      RespelledFacts(log[i]);
      if i > j { SilentAfterDeletion(r, j, i); }
    }
    Untouched(log, j, key);
  }

  /** A misspelt name does not occur before. */
  lemma NoNameBefore(log: seq<OutboxRow>, j: nat)
    requires OthersSpelled(log) && j < |log| && !Spelled(ItemOf(log[j]))
    requires forall row :: row in log[..j] && Canonical(ItemOf(row)) == Canonical(ItemOf(log[j])) ==> row.eventType != DELETED
    ensures Replay(log[..j], ItemOf(log[j])) == Absent
  {
    var before := log[..j];
    forall i | 0 <= i < j ensures ItemOf(before[i]) != ItemOf(log[j]) {
      assert before[i] in before && before[i] in log;
    }
    Untouched(before, 0, ItemOf(log[j]));
    assert before[..0] == [];
  }

  /** The exact condition: read as it is spelled, the log is orderly, and tells the items, if and only
      if every row spells its item as the table does. */
  lemma TellsExactlyWhenSpelled(items: map<string, Item>, log: seq<OutboxRow>)
    requires Tells(items, RespelledLog(log)) && Orderly(RespelledLog(log)) && OthersSpelled(log)
    ensures Tells(items, log) <==> AllSpelled(log)
    ensures Orderly(log) <==> AllSpelled(log)
  {
    if AllSpelled(log) {
      forall i | 0 <= i < |log| ensures Respelled(log[i]) == log[i] {
        assert log[i] in log;
        RespelledFacts(log[i]);
      }
      assert RespelledLog(log) == log;
    } else {
      var row :| row in log && !Spelled(ItemOf(row));
      var j :| 0 <= j < |log| && log[j] == row;
      MisspeltMisleads(items, log, j, ItemOf(row), Canonical(ItemOf(row)));
    }
  }
}
