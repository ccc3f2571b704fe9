/** Resolution of external identities to platform users: lookups, inserts and transactions of
    any number of overlapping calls on the tables users and user_identities. */
module Identity {
  import opened Common

  const WECHAT_MP := "wechat_mp"
  const WECHAT_UNION := "wechat_union"

  /** The primary key of user_identities. */
  datatype Key = Key(provider: string, uid: string)

  datatype Op = Provider(provider: string, uid: string) | WeChat(openid: string, unionid: string)

  /** What the calls demand of their arguments. */
  predicate Valid(op: Op) {
    match op
    case Provider(provider, uid) => provider != "" && uid != ""
    case WeChat(openid, _) => openid != ""
  }

  /** The key under which a call looks its user up first, and would create one. */
  function MainKey(op: Op): (k: Key) {
    match op
    case Provider(provider, uid) => Key(provider, uid)
    case WeChat(openid, _) => Key(WECHAT_MP, openid)
  }

  function UnionKey(op: Op): (k: Key)
    requires op.WeChat?
  {
    Key(WECHAT_UNION, op.unionid)
  }

  predicate HasUnion(op: Op) { op.WeChat? && op.unionid != "" }

  /** Where a call is: before its first lookup; before the union lookup; about to link the union
      or the openid to a known user; in the create transaction with the users row written, or
      with both rows written; looking up again after a unique violation; done or failed. */
  datatype Pc =
    | Lookup
    | LookupUnion
    | LinkUnion(user: string)
    | LinkOpenid(user: string)
    | UserWritten(user: string)
    | BothWritten(user: string)
    | LookupAgain
    | LookupUnionAgain
    | LinkQuietly(user: string)
    | Done(user: string)
    | Failed

  datatype Call = Call(op: Op, pc: Pc)

  /** users and ids hold what is committed; given is every user id ever generated. */
  datatype State = State(users: set<string>, ids: map<Key, string>, calls: map<nat, Call>, given: set<string>)

  /** Step: the call's next statement succeeds (newUser is the user id it generates, if it does);
      Error: it fails without effect; LostReply: it takes effect but is reported as failed. */
  datatype Action =
    | Start(call: nat, op: Op)
    | Step(call: nat, newUser: string)
    | Error(call: nat)
    | LostReply(call: nat)

  /** An uncommitted identity row blocks other inserts of its key until its transaction ends. */
  predicate Holds(c: Call, k: Key) { c.pc.BothWritten? && MainKey(c.op) == k }

  predicate Unblocked(s: State, call: nat, k: Key) {
    forall c :: c in s.calls && c != call ==> !Holds(s.calls[c], k)
  }

  predicate Running(s: State, c: nat) { c in s.calls && !s.calls[c].pc.Done? && !s.calls[c].pc.Failed? }

  predicate Creates(s: State, call: Call) {
    || (call.pc.Lookup? && MainKey(call.op) !in s.ids && !HasUnion(call.op))
    || (call.pc.LookupUnion? && call.op.WeChat? && UnionKey(call.op) !in s.ids)
  }

  /** The insert a call is about to make waits for no one. */
  predicate CanInsert(s: State, c: nat)
    requires c in s.calls
  {
    var call := s.calls[c];
    match call.pc
    case LinkUnion(_) => call.op.WeChat? && Unblocked(s, c, UnionKey(call.op))
    case LinkOpenid(_) => Unblocked(s, c, MainKey(call.op))
    case LinkQuietly(_) => Unblocked(s, c, MainKey(call.op))
    case UserWritten(_) => Unblocked(s, c, MainKey(call.op))
    case LookupUnion => call.op.WeChat?
    case LookupUnionAgain => call.op.WeChat?
    case _ => true
  }

  predicate Enabled(s: State, a: Action) {
    match a
    case Start(c, op) => c !in s.calls && Valid(op)
    case Step(c, newUser) => Running(s, c) && CanInsert(s, c) && (Creates(s, s.calls[c]) ==> newUser !in s.given)
    case Error(c) => Running(s, c)
    case LostReply(c) => Running(s, c) && CanInsert(s, c)
  }

  /** INSERT ... ON CONFLICT DO NOTHING. */
  function Link(ids: map<Key, string>, k: Key, user: string): (r: map<Key, string>) {
    if k in ids then ids else ids[k := user]
  }

  /** Where a call goes when its statement succeeds. */
  function NextPc(s: State, call: Call, newUser: string): (pc: Pc)
    requires call.pc.LookupUnion? || call.pc.LookupUnionAgain? ==> call.op.WeChat?
  {
    var main := MainKey(call.op);
    match call.pc
    case Lookup =>
      if main in s.ids then (if HasUnion(call.op) then LinkUnion(s.ids[main]) else Done(s.ids[main]))
      else if HasUnion(call.op) then LookupUnion
      else UserWritten(newUser)
    case LookupUnion =>
      if UnionKey(call.op) in s.ids then LinkOpenid(s.ids[UnionKey(call.op)]) else UserWritten(newUser)
    case LinkUnion(user) => Done(user)
    case LinkOpenid(user) => Done(user)
    case UserWritten(user) => if main in s.ids then LookupAgain else BothWritten(user)
    case BothWritten(user) => if HasUnion(call.op) then LinkUnion(user) else Done(user)
    case LookupAgain =>
      if main in s.ids then Done(s.ids[main])
      else if HasUnion(call.op) then LookupUnionAgain
      else Failed
    case LookupUnionAgain =>
      if UnionKey(call.op) in s.ids then LinkQuietly(s.ids[UnionKey(call.op)]) else Failed
    case LinkQuietly(user) => Done(user)
    case pc => pc
  }

  /** The tables after the statement took effect; a transaction shows only when it commits. */
  function Effect(s: State, call: Call): (tables: (set<string>, map<Key, string>))
    requires call.pc.LinkUnion? ==> call.op.WeChat?
  {
    match call.pc
    case LinkUnion(user) => (s.users, Link(s.ids, UnionKey(call.op), user))
    case LinkOpenid(user) => (s.users, Link(s.ids, MainKey(call.op), user))
    case LinkQuietly(user) => (s.users, Link(s.ids, MainKey(call.op), user))
    case BothWritten(user) => (s.users + {user}, s.ids[MainKey(call.op) := user])
    case _ => (s.users, s.ids)
  }

  /** Where a call goes when its statement fails: a transaction rolls back; errors while looking
      up again fall through to the next attempt; the last link's error is ignored. */
  function ErrorPc(call: Call): (pc: Pc) {
    match call.pc
    case LookupAgain => if HasUnion(call.op) then LookupUnionAgain else Failed
    case LinkQuietly(user) => Done(user)
    case _ => Failed
  }

  function Apply(s: State, a: Action): (s': State)
    requires Enabled(s, a)
  {
    match a
    case Start(c, op) => s.(calls := s.calls[c := Call(op, Lookup)])
    case Step(c, newUser) =>
      var call := s.calls[c];
      var tables := Effect(s, call);
      State(tables.0, tables.1, s.calls[c := call.(pc := NextPc(s, call, newUser))],
            if Creates(s, call) then s.given + {newUser} else s.given)
    case Error(c) => s.(calls := s.calls[c := s.calls[c].(pc := ErrorPc(s.calls[c]))])
    case LostReply(c) =>
      var call := s.calls[c];
      var tables := Effect(s, call);
      s.(users := tables.0, ids := tables.1, calls := s.calls[c := call.(pc := ErrorPc(call))])
  }

  predicate Legal(s: State, run: seq<Action>)
    decreases |run|
  {
    run == [] || (Enabled(s, run[0]) && Legal(Apply(s, run[0]), run[1..]))
  }

  function Run(s: State, run: seq<Action>): (s': State)
    requires Legal(s, run)
    decreases |run|
  {
    if run == [] then s else Run(Apply(s, run[0]), run[1..])
  }

  const EMPTY := State({}, map[], map[], {})

  lemma {:induction false} RunOneMore(s: State, run: seq<Action>, a: Action)
    requires Legal(s, run) && Enabled(Run(s, run), a)
    ensures Legal(s, run + [a]) && Run(s, run + [a]) == Apply(Run(s, run), a)
    decreases |run|
  {
    if run == [] {
      assert [a][1..] == [];
    } else {
      RunOneMore(Apply(s, run[0]), run[1..], a);
      assert (run + [a])[1..] == run[1..] + [a];
    }
  }

  // What every run keeps.

  /** Some identity maps to the user. */
  predicate Mapped(ids: map<Key, string>, user: string) { exists k :: k in ids && ids[k] == user }

  predicate CallInv(s: State, call: Call) {
    && Valid(call.op)
    && (call.pc.LookupUnion? || call.pc.LookupUnionAgain? || call.pc.LinkUnion? || call.pc.LinkOpenid? || call.pc.LinkQuietly? ==>
          HasUnion(call.op))
    && (call.pc.LinkUnion? ==> MainKey(call.op) in s.ids && s.ids[MainKey(call.op)] == call.pc.user)
    && (call.pc.LinkOpenid? || call.pc.LinkQuietly? ==> UnionKey(call.op) in s.ids && s.ids[UnionKey(call.op)] == call.pc.user)
    && (call.pc.UserWritten? || call.pc.BothWritten? ==> call.pc.user in s.given && call.pc.user !in s.users)
    && (call.pc.BothWritten? ==> MainKey(call.op) !in s.ids)
    && (call.pc.Done? && call.op.Provider? ==> MainKey(call.op) in s.ids && s.ids[MainKey(call.op)] == call.pc.user)
    && (call.pc.Done? && call.op.WeChat? ==>
          || (MainKey(call.op) in s.ids && s.ids[MainKey(call.op)] == call.pc.user)
          || (HasUnion(call.op) && UnionKey(call.op) in s.ids && s.ids[UnionKey(call.op)] == call.pc.user))
  }

  predicate InTx(call: Call) { call.pc.UserWritten? || call.pc.BothWritten? }

  ghost predicate Inv(s: State) {
    && s.users <= s.given
    && (forall k :: k in s.ids ==> s.ids[k] in s.users)
    && (forall u :: u in s.users ==> Mapped(s.ids, u))
    && (forall c :: c in s.calls ==> CallInv(s, s.calls[c]))
    && (forall c, d :: c in s.calls && d in s.calls && c != d && InTx(s.calls[c]) && InTx(s.calls[d]) ==>
          s.calls[c].pc.user != s.calls[d].pc.user)
    && (forall c, d :: c in s.calls && d in s.calls && c != d && s.calls[c].pc.BothWritten? && s.calls[d].pc.BothWritten? ==>
          MainKey(s.calls[c].op) != MainKey(s.calls[d].op))
  }

  /** Mappings are never changed or removed, and neither are users. */
  predicate Grows(s: State, s': State) {
    && s.users <= s'.users
    && (forall k :: k in s.ids ==> k in s'.ids && s'.ids[k] == s.ids[k])
  }

  lemma StepGrows(s: State, a: Action)
    requires Inv(s) && Enabled(s, a)
    ensures Grows(s, Apply(s, a))
  {}

  lemma TablesStayLinked(s: State, a: Action)
    requires Inv(s) && Enabled(s, a)
    ensures var s' := Apply(s, a);
            && s'.users <= s'.given
            && (forall k :: k in s'.ids ==> s'.ids[k] in s'.users)
            && (forall u :: u in s'.users ==> Mapped(s'.ids, u))
  {
    var s' := Apply(s, a);
    StepGrows(s, a);
    if !a.Start? {
      var call := s.calls[a.call];
      assert CallInv(s, call);
      forall u | u in s'.users ensures Mapped(s'.ids, u) {
        if u in s.users {
          var k :| k in s.ids && s.ids[k] == u;
          assert k in s'.ids && s'.ids[k] == u;
        } else {
          assert s'.ids[MainKey(call.op)] == u;
        }
      }
    }
  }

  lemma OwnCallStays(s: State, a: Action)
    requires Inv(s) && Enabled(s, a)
    ensures CallInv(Apply(s, a), Apply(s, a).calls[a.call])
  {
    if !a.Start? { assert CallInv(s, s.calls[a.call]); }
  }

  lemma OtherCallStays(s: State, a: Action, d: nat)
    requires Inv(s) && Enabled(s, a) && d in s.calls && d != a.call
    ensures CallInv(Apply(s, a), s.calls[d])
  {
    StepGrows(s, a);
    assert CallInv(s, s.calls[d]);
    if !a.Start? { assert CallInv(s, s.calls[a.call]); }
  }

  lemma TransactionsStayApart(s: State, a: Action, d: nat)
    requires Inv(s) && Enabled(s, a) && d in s.calls && d != a.call
    ensures var mine, other := Apply(s, a).calls[a.call], s.calls[d];
            && (InTx(mine) && InTx(other) ==> mine.pc.user != other.pc.user)
            && (mine.pc.BothWritten? && other.pc.BothWritten? ==> MainKey(mine.op) != MainKey(other.op))
  {
    assert CallInv(s, s.calls[d]);
    if !a.Start? { assert CallInv(s, s.calls[a.call]); }
  }

  /** What another call keeps of its own part of the invariant, and of its part with the caller. */
  lemma OthersStay(s: State, a: Action, d: nat)
    requires Inv(s) && Enabled(s, a) && d in s.calls && d != a.call
    ensures var s' := Apply(s, a);
            && CallInv(s', s'.calls[d])
            && (InTx(s'.calls[a.call]) && InTx(s'.calls[d]) ==> s'.calls[a.call].pc.user != s'.calls[d].pc.user)
            && (s'.calls[a.call].pc.BothWritten? && s'.calls[d].pc.BothWritten? ==>
                  MainKey(s'.calls[a.call].op) != MainKey(s'.calls[d].op))
  {
    OtherCallStays(s, a, d);
    TransactionsStayApart(s, a, d);
  }

  lemma StepKeepsInv(s: State, a: Action)
    requires Inv(s) && Enabled(s, a)
    ensures Inv(Apply(s, a))
  {
    TablesStayLinked(s, a);
    OwnCallStays(s, a);
    forall d | d in s.calls && d != a.call { OthersStay(s, a, d); }
  }

  lemma {:induction false} RunKeepsInv(s: State, run: seq<Action>)
    requires Inv(s) && Legal(s, run)
    ensures Inv(Run(s, run)) && Grows(s, Run(s, run))
    decreases |run|
  {
    if run != [] {
      StepKeepsInv(s, run[0]);
      StepGrows(s, run[0]);
      RunKeepsInv(Apply(s, run[0]), run[1..]);
    }
  }

  /** A call is over with this user. */
  predicate Returned(s: State, c: nat, op: Op, user: string) { c in s.calls && s.calls[c] == Call(op, Done(user)) }

  /** In every run: every mapping points to a user; every user has a mapping, so no loser of a
      race leaves an orphan; and all successful calls for one provider identity return one user. */
  lemma ResolutionIsConsistent(run: seq<Action>)
    requires Legal(EMPTY, run)
    ensures var s := Run(EMPTY, run);
            && (forall k :: k in s.ids ==> s.ids[k] in s.users)
            && (forall u :: u in s.users ==> Mapped(s.ids, u))
            && (forall c: nat, d: nat, op: Op, u: string, v: string ::
                  op.Provider? && Returned(s, c, op, u) && Returned(s, d, op, v) ==> u == v)
  {
    RunKeepsInv(EMPTY, run);
    var s := Run(EMPTY, run);
    forall c: nat, op: Op, u: string | op.Provider? && Returned(s, c, op, u)
      ensures MainKey(op) in s.ids && s.ids[MainKey(op)] == u
    {
      assert CallInv(s, s.calls[c]);
    }
  }

  /** What a provider identity was once resolved to, it stays mapped to in every continuation,
      and every later successful call returns it. */
  lemma ResolutionIsForever(run: seq<Action>, more: seq<Action>, c: nat, d: nat, op: Op, user: string, later: string)
    requires Legal(EMPTY, run) && op.Provider? && Returned(Run(EMPTY, run), c, op, user)
    requires Legal(Run(EMPTY, run), more) && Returned(Run(Run(EMPTY, run), more), d, op, later)
    ensures later == user
  {
    RunKeepsInv(EMPTY, run);
    var s := Run(EMPTY, run);
    RunKeepsInv(s, more);
    assert CallInv(s, s.calls[c]);
    assert CallInv(Run(s, more), Run(s, more).calls[d]);
  }
}
