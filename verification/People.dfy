/** Whose users are whose: no two people get one user, in every run of overlapping calls. */
module People {
  import opened Common
  import opened Identity

  /** The person behind an identity: of an openid with a unionid, own giving it, whoever has the unionid. */
  function Person(k: Key, own: string -> string): (p: Key) {
    if k.provider == "wechat_mp" && own(k.uid) != "" then Key("wechat_union", own(k.uid)) else k
  }

  /** The person a call is about. */
  function PersonOf(op: Op, own: string -> string): (p: Key) {
    match op
    case Provider(provider, uid) => Person(Key(provider, uid), own)
    case WeChat(openid, _) => Person(Key("wechat_mp", openid), own)
  }

  /** The call comes with its openid's own unionid, or with none if it has none. */
  predicate ComesWithOwn(op: Op, own: string -> string) { op.WeChat? ==> op.unionid == own(op.openid) }

  predicate AllOwn(run: seq<Action>, own: string -> string) {
    forall a :: a in run && a.Start? ==> ComesWithOwn(a.op, own)
  }

  predicate CallsOwn(s: State, own: string -> string) { forall c :: c in s.calls ==> ComesWithOwn(s.calls[c].op, own) }

  predicate Apart(ids: map<Key, string>, own: string -> string) {
    forall k, l :: k in ids && l in ids && ids[k] == ids[l] ==> Person(k, own) == Person(l, own)
  }

  /** One more mapping: to a user of the same person, or to one of nobody's. */
  lemma LinkStaysApart(ids: map<Key, string>, k: Key, user: string, own: string -> string)
    requires Apart(ids, own) && forall l :: l in ids && ids[l] == user ==> Person(l, own) == Person(k, own)
    ensures Apart(Link(ids, k, user), own)
  {}

  lemma KnownIsOnePerson(ids: map<Key, string>, known: Key, k: Key, user: string, own: string -> string)
    requires Apart(ids, own) && known in ids && ids[known] == user && Person(known, own) == Person(k, own)
    ensures Apart(Link(ids, k, user), own)
  {
    LinkStaysApart(ids, k, user, own);
  }

  lemma UnionIsOnePerson(op: Op, own: string -> string)
    requires HasUnion(op) && ComesWithOwn(op, own)
    ensures Person(UnionKey(op), own) == Person(MainKey(op), own) == PersonOf(op, own)
  {}

  lemma EffectStaysApart(s: State, call: Call, own: string -> string)
    requires Inv(s) && CallInv(s, call) && Apart(s.ids, own) && ComesWithOwn(call.op, own)
    ensures Apart(Effect(s, call).1, own)
  {
    match call.pc
    case LinkUnion(user) =>
      UnionIsOnePerson(call.op, own);
      KnownIsOnePerson(s.ids, MainKey(call.op), UnionKey(call.op), user, own);
    case LinkOpenid(user) =>
      UnionIsOnePerson(call.op, own);
      KnownIsOnePerson(s.ids, UnionKey(call.op), MainKey(call.op), user, own);
    case LinkQuietly(user) =>
      UnionIsOnePerson(call.op, own);
      KnownIsOnePerson(s.ids, UnionKey(call.op), MainKey(call.op), user, own);
    case BothWritten(user) => LinkStaysApart(s.ids, MainKey(call.op), user, own);
    case _ =>
  }

  lemma StepStaysApart(s: State, a: Action, own: string -> string)
    requires Inv(s) && Enabled(s, a) && Apart(s.ids, own) && CallsOwn(s, own) && (a.Start? ==> ComesWithOwn(a.op, own))
    ensures Apart(Apply(s, a).ids, own) && CallsOwn(Apply(s, a), own)
  {
    if !a.Start? {
      assert CallInv(s, s.calls[a.call]);
      EffectStaysApart(s, s.calls[a.call], own);
    }
  }

  lemma {:induction false} RunStaysApart(s: State, run: seq<Action>, own: string -> string)
    requires Inv(s) && Legal(s, run) && Apart(s.ids, own) && CallsOwn(s, own) && AllOwn(run, own)
    ensures Apart(Run(s, run).ids, own) && CallsOwn(Run(s, run), own)
    decreases |run|
  {
    if run != [] {
      assert run[0] in run;
      StepKeepsInv(s, run[0]);
      StepStaysApart(s, run[0], own);
      RunStaysApart(Apply(s, run[0]), run[1..], own);
    }
  }

  /** In every run: a successful call returns the user of the very identity it was asked for; a WeChat
      call, that of its openid or of its unionid. */
  lemma ReturnsItsOwn(run: seq<Action>, c: nat, op: Op, user: string)
    requires Legal(EMPTY, run) && Returned(Run(EMPTY, run), c, op, user)
    ensures var ids := Run(EMPTY, run).ids;
            match op
            case Provider(provider, uid) => Key(provider, uid) in ids && ids[Key(provider, uid)] == user
            case WeChat(openid, unionid) =>
              || (Key("wechat_mp", openid) in ids && ids[Key("wechat_mp", openid)] == user)
              || (unionid != "" && Key("wechat_union", unionid) in ids && ids[Key("wechat_union", unionid)] == user)
  {
    RunKeepsInv(EMPTY, run);
    assert CallInv(Run(EMPTY, run), Run(EMPTY, run).calls[c]);
  }

  /** In every run in which each openid comes with its own unionid: two successful calls that return one
      user are about one person. */
  lemma NoTwoPeopleShareAUser(run: seq<Action>, own: string -> string, c: nat, op1: Op, d: nat, op2: Op, user: string)
    requires Legal(EMPTY, run) && AllOwn(run, own)
    requires Returned(Run(EMPTY, run), c, op1, user) && Returned(Run(EMPTY, run), d, op2, user)
    ensures PersonOf(op1, own) == PersonOf(op2, own)
  {
    var s := Run(EMPTY, run);
    RunStaysApart(EMPTY, run, own);
    ReturnsItsOwn(run, c, op1, user);
    ReturnsItsOwn(run, d, op2, user);
    assert ComesWithOwn(op1, own) && ComesWithOwn(op2, own);
    var k := KeyBehind(s.ids, op1, user, own);
    var l := KeyBehind(s.ids, op2, user, own);
  }

  /** A key under which a call's user is mapped. */
  lemma KeyBehind(ids: map<Key, string>, op: Op, user: string, own: string -> string) returns (k: Key)
    requires ComesWithOwn(op, own)
    requires match op
             case Provider(provider, uid) => Key(provider, uid) in ids && ids[Key(provider, uid)] == user
             case WeChat(openid, unionid) =>
               || (Key("wechat_mp", openid) in ids && ids[Key("wechat_mp", openid)] == user)
               || (unionid != "" && Key("wechat_union", unionid) in ids && ids[Key("wechat_union", unionid)] == user)
    ensures k in ids && ids[k] == user && Person(k, own) == PersonOf(op, own)
  {
    match op
    case Provider(provider, uid) => k := Key(provider, uid);
    case WeChat(openid, unionid) =>
      k := Key("wechat_mp", openid);
      if !(k in ids && ids[k] == user) { k := Key("wechat_union", unionid); }
  }
}
