/** What an item's fields hold in every run of overlapping calls: what the last request that named the
    field said, whoever read the item when. */
module LastSaid {
  import opened Common
  import opened AuditEvents
  import opened ItemLog
  import opened Items

  datatype Field = Title | Body

  /** What a request says of the field, if it names it. */
  function Said(op: Op, f: Field): (text: Option<string>) {
    match op
    case Create(_, title, body) => Some(if f.Title? then title else body)
    case Update(_, _, newTitle, newBody) => if f.Title? then newTitle else newBody
    case Remove(_, _) => None
  }

  predicate IsAbout(row: OutboxRow, id: string) { Canonical(ItemOf(row)) == id }

  /** The i-th committed request is the last one about the item that named the field. */
  predicate IsLast(outbox: seq<OutboxRow>, asked: seq<Op>, id: string, f: Field, i: nat)
    requires |outbox| == |asked|
  {
    && i < |asked| && IsAbout(outbox[i], id) && Said(asked[i], f).Some?
    && forall j :: i < j < |asked| && IsAbout(outbox[j], id) ==> Said(asked[j], f).None?
  }

  predicate SaysLast(outbox: seq<OutboxRow>, asked: seq<Op>, id: string, f: Field, text: string)
    requires |outbox| == |asked|
  {
    exists i :: 0 <= i < |asked| && IsLast(outbox, asked, id, f, i) && Said(asked[i], f) == Some(text)
  }

  /** Tenant and creator are those of a request that created the item. */
  predicate CreatedBy(outbox: seq<OutboxRow>, asked: seq<Op>, id: string, tenant: string, user: string)
    requires |outbox| == |asked|
  {
    exists i :: 0 <= i < |asked| && IsAbout(outbox[i], id) && asked[i].Create? && asked[i].actor == Actor(user, tenant)
  }

  predicate ItemSaid(outbox: seq<OutboxRow>, asked: seq<Op>, id: string, item: Item)
    requires |outbox| == |asked|
  {
    && SaysLast(outbox, asked, id, Title, item.title) && SaysLast(outbox, asked, id, Body, item.body)
    && CreatedBy(outbox, asked, id, item.tenant, item.createdBy)
  }

  ghost predicate AllSaid(s: State) {
    |s.outbox| == |s.asked| && forall id :: id in s.items ==> ItemSaid(s.outbox, s.asked, id, s.items[id])
  }

  /** One more row and request: the field keeps its value if they do not name it, else it has theirs. */
  lemma OneMoreSaid(outbox: seq<OutboxRow>, asked: seq<Op>, row: OutboxRow, op: Op, id: string, f: Field, text: string)
    requires |outbox| == |asked|
    requires if IsAbout(row, id) && Said(op, f).Some? then Said(op, f) == Some(text) else SaysLast(outbox, asked, id, f, text)
    ensures SaysLast(outbox + [row], asked + [op], id, f, text)
  {
    var outbox', asked' := outbox + [row], asked + [op];
    if IsAbout(row, id) && Said(op, f).Some? {
      assert IsLast(outbox', asked', id, f, |asked|);
    } else {
      var i :| 0 <= i < |asked| && IsLast(outbox, asked, id, f, i) && Said(asked[i], f) == Some(text);
      assert IsLast(outbox', asked', id, f, i) && asked'[i] == asked[i];
    }
  }

  lemma CreatorStays(outbox: seq<OutboxRow>, asked: seq<Op>, row: OutboxRow, op: Op, id: string, tenant: string, user: string)
    requires |outbox| == |asked|
    requires CreatedBy(outbox, asked, id, tenant, user) || (IsAbout(row, id) && op.Create? && op.actor == Actor(user, tenant))
    ensures CreatedBy(outbox + [row], asked + [op], id, tenant, user)
  {
    var outbox', asked' := outbox + [row], asked + [op];
    if CreatedBy(outbox, asked, id, tenant, user) {
      var i :| 0 <= i < |asked| && IsAbout(outbox[i], id) && asked[i].Create? && asked[i].actor == Actor(user, tenant);
      assert IsAbout(outbox'[i], id) && asked'[i].Create?;
    } else {
      assert IsAbout(outbox'[|asked|], id) && asked'[|asked|].Create?;
    }
  }

  /** The commit of an update, field by field: what it does not name stays as it is in the table then,
      whatever the caller had read before. */
  lemma UpdateChangesOnlyNamed(s: State, c: nat)
    requires Inv(s) && Enabled(s, Commit(c)) && s.calls[c].op.Update?
    ensures var s', op := Apply(s, Commit(c)), s.calls[c].op;
            var key := Canonical(op.id);
            && key in s.items && key in s'.items && s'.items - {key} == s.items - {key}
            && s'.items[key].tenant == s.items[key].tenant == op.actor.tenant
            && s'.items[key].createdBy == s.items[key].createdBy
            && s'.items[key].title == (if op.newTitle.Some? then op.newTitle.value else s.items[key].title)
            && s'.items[key].body == (if op.newBody.Some? then op.newBody.value else s.items[key].body)
  {
    assert CallInv(s, s.calls[c]);
  }

  /** What a commit leaves: the field as the request says or, if it does not say, as it was. */
  lemma CommitSays(s: State, c: nat, id: string)
    requires Inv(s) && Enabled(s, Commit(c)) && id in Apply(s, Commit(c)).items
    ensures var item', op := Apply(s, Commit(c)).items[id], s.calls[c].op;
            if id == s.calls[c].id && op.Create?
            then item'.title == op.title && item'.body == op.body && Actor(item'.createdBy, item'.tenant) == op.actor
            else id in s.items
                 && item'.tenant == s.items[id].tenant && item'.createdBy == s.items[id].createdBy
                 && (id == s.calls[c].id ==>
                       && op.Update? && item'.title == op.newTitle.GetOr(s.items[id].title)
                       && item'.body == op.newBody.GetOr(s.items[id].body))
                 && (id != s.calls[c].id ==> item' == s.items[id])
  {
    assert CallInv(s, s.calls[c]);
  }

  lemma CommitAppends(s: State, c: nat)
    requires Inv(s) && Enabled(s, Commit(c))
    ensures Apply(s, Commit(c)).outbox == s.outbox + [s.calls[c].row]
    ensures Apply(s, Commit(c)).asked == s.asked + [s.calls[c].op]
    ensures forall id :: IsAbout(s.calls[c].row, id) <==> id == s.calls[c].id
  {
    assert CallInv(s, s.calls[c]);
    RespelledCommit(s, c);
  }

  lemma CommitKeepsSaid(s: State, c: nat, id: string)
    requires Inv(s) && AllSaid(s) && Enabled(s, Commit(c)) && id in Apply(s, Commit(c)).items
    ensures var s' := Apply(s, Commit(c)); |s'.outbox| == |s'.asked| && ItemSaid(s'.outbox, s'.asked, id, s'.items[id])
  {
    var item', row, op := Apply(s, Commit(c)).items[id], s.calls[c].row, s.calls[c].op;
    CommitSays(s, c, id);
    CommitAppends(s, c);
    assert id in s.items ==> ItemSaid(s.outbox, s.asked, id, s.items[id]);
    OneMoreSaid(s.outbox, s.asked, row, op, id, Title, item'.title);
    OneMoreSaid(s.outbox, s.asked, row, op, id, Body, item'.body);
    CreatorStays(s.outbox, s.asked, row, op, id, item'.tenant, item'.createdBy);
  }

  lemma StepKeepsSaid(s: State, a: Action)
    requires Inv(s) && AllSaid(s) && Enabled(s, a)
    ensures AllSaid(Apply(s, a))
  {
    var s' := Apply(s, a);
    if a.Commit? {
      CommitAppends(s, a.call);
      forall id | id in s'.items ensures ItemSaid(s'.outbox, s'.asked, id, s'.items[id]) { CommitKeepsSaid(s, a.call, id); }
    }
  }

  lemma {:induction false} RunKeepsSaid(s: State, run: seq<Action>)
    requires Inv(s) && AllSaid(s) && Legal(s, run)
    ensures AllSaid(Run(s, run))
    decreases |run|
  {
    if run != [] {
      StepKeepsInv(s, run[0]);
      StepKeepsSaid(s, run[0]);
      RunKeepsSaid(Apply(s, run[0]), run[1..]);
    }
  }

  /** In every run: title and body of each item are what the last committed request about it that named
      them said, so that no update undoes a field it does not name; tenant and creator are those of the
      request that created it. */
  lemma FieldsHoldLastSaid(run: seq<Action>, id: string)
    requires Legal(EMPTY, run) && id in Run(EMPTY, run).items
    ensures var s := Run(EMPTY, run); |s.outbox| == |s.asked| && ItemSaid(s.outbox, s.asked, id, s.items[id])
  {
    RunKeepsSaid(EMPTY, run);
  }
}
