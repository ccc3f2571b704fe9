/** The identity store as it runs, one call at a time, with faults; a rival call may commit its
    user between a call's lookup and its insert. Full overlap is the protocol in Identity. */
module IdentityStore {
  import opened Common
  import I = Identity
  import W = WeChat

  datatype Found = User(id: string) | NoRows | DbError

  datatype Created = Committed | UniqueViolation | OtherError

  /** The fate of each statement a call may issue. */
  datatype Faults = Faults(lookup: Fate, lookupUnion: Fate, link: Fate, create: Fate, linkNew: Fate,
                           again: Fate, againUnion: Fate, quiet: Fate)

  predicate NoFaults(f: Faults) {
    f.lookup.Succeeds? && f.lookupUnion.Succeeds? && f.link.Succeeds? && f.create.Succeeds?
    && f.linkNew.Succeeds? && f.again.Succeeds? && f.againUnion.Succeeds? && f.quiet.Succeeds?
  }

  // One call as a run of the protocol, beside calls that hold no uncommitted identity.

  /** No call but c has an uncommitted identity row. */
  predicate OthersRest(s: I.State, c: nat) { forall d :: d in s.calls && d != c ==> !s.calls[d].pc.BothWritten? }

  predicate Rests(s: I.State) { forall d :: d in s.calls ==> !s.calls[d].pc.BothWritten? }

  /** The run leads to a state with the call at the given place. */
  ghost predicate At(s0: I.State, trace: seq<I.Action>, c: nat, op: I.Op, pc: I.Pc) {
    && I.Legal(s0, trace) && c in I.Run(s0, trace).calls && I.Run(s0, trace).calls[c] == I.Call(op, pc)
    && OthersRest(I.Run(s0, trace), c)
  }

  /** What a call may meet at a place: the union is looked up and linked only where there is one. */
  predicate Sound(op: I.Op, pc: I.Pc) {
    pc.LookupUnion? || pc.LookupUnionAgain? || pc.LinkUnion? || pc.LinkOpenid? || pc.LinkQuietly? ==> I.HasUnion(op)
  }

  lemma Starts(s0: I.State, c: nat, op: I.Op) returns (trace: seq<I.Action>)
    requires Rests(s0) && c !in s0.calls && I.Valid(op)
    ensures At(s0, trace, c, op, I.Lookup)
    ensures I.Run(s0, trace) == s0.(calls := s0.calls[c := I.Call(op, I.Lookup)])
  {
    var s;
    trace, s := W.Extend(s0, [], s0, I.Start(c, op));
  }

  /** The call's next statement, with its fate. */
  lemma Moves(s0: I.State, done: seq<I.Action>, c: nat, op: I.Op, pc: I.Pc, fate: Fate, newUser: string)
    returns (trace: seq<I.Action>)
    requires At(s0, done, c, op, pc) && Sound(op, pc) && !pc.Done? && !pc.Failed?
    requires I.Creates(I.Run(s0, done), I.Call(op, pc)) ==> newUser !in I.Run(s0, done).given
    ensures var s, call := I.Run(s0, done), I.Call(op, pc);
            && At(s0, trace, c, op, if fate.Succeeds? then I.NextPc(s, call, newUser) else I.ErrorPc(call))
            && var s' := I.Run(s0, trace);
               && s'.users == (if fate.FailsBefore? then s.users else I.Effect(s, call).0)
               && s'.ids == (if fate.FailsBefore? then s.ids else I.Effect(s, call).1)
               && s'.given == (if fate.Succeeds? && I.Creates(s, call) then s.given + {newUser} else s.given)
               && s'.calls - {c} == s.calls - {c}
  {
    var s;
    var a := match fate case Succeeds => I.Step(c, newUser) case FailsBefore => I.Error(c) case ReplyLost => I.LostReply(c);
    trace, s := W.Extend(s0, done, I.Run(s0, done), a);
  }

  /** A rival call that commits a user for the same key while this one stands still. */
  lemma RivalCommits(s0: I.State, done: seq<I.Action>, c: nat, op: I.Op, pc: I.Pc, d: nat, rivalOp: I.Op, rival: string)
    returns (trace: seq<I.Action>)
    requires At(s0, done, c, op, pc) && !pc.BothWritten? && d !in I.Run(s0, done).calls
    requires I.Valid(rivalOp) && !I.HasUnion(rivalOp) && I.MainKey(rivalOp) !in I.Run(s0, done).ids
    requires rival !in I.Run(s0, done).given
    ensures At(s0, trace, c, op, pc)
    ensures var s, s' := I.Run(s0, done), I.Run(s0, trace);
            s'.users == s.users + {rival} && s'.ids == s.ids[I.MainKey(rivalOp) := rival] && s'.given == s.given + {rival}
  {
    var s;
    trace, s := W.Extend(s0, done, I.Run(s0, done), I.Start(d, rivalOp));
    assert At(s0, trace, d, rivalOp, I.Lookup);
    trace := Moves(s0, trace, d, rivalOp, I.Lookup, Succeeds, rival);
    trace := Moves(s0, trace, d, rivalOp, I.UserWritten(rival), Succeeds, rival);
    trace := Moves(s0, trace, d, rivalOp, I.BothWritten(rival), Succeeds, rival);
    assert c in I.Run(s0, trace).calls - {d};
  }

  class Store {
    var users: set<string>
    var ids: map<I.Key, string>

    constructor ()
      ensures Valid() && users == {} && ids == map[]
    {
      users, ids := {}, map[];
    }

    /** Mappings point to users, and no user is without a mapping. */
    predicate Valid()
      reads this
    {
      (forall k :: k in ids ==> ids[k] in users) && (forall u :: u in users ==> I.Mapped(ids, u))
    }

    twostate predicate Grew()
      reads this
    {
      old(users) <= users && forall k :: k in old(ids) ==> k in ids && ids[k] == old(ids[k])
    }

    method LookupUserId(k: I.Key, fate: Fate) returns (r: Found)
      ensures r == if !fate.Succeeds? then DbError else if k in ids then User(ids[k]) else NoRows
    {
      if !fate.Succeeds? { return DbError; }
      if k in ids { return User(ids[k]); }
      return NoRows;
    }

    method LinkIdentity(k: I.Key, user: string, fate: Fate) returns (ok: bool)
      requires Valid() && user in users
      modifies this
      ensures Valid() && Grew() && users == old(users)
      ensures ok <==> fate.Succeeds?
      ensures ids == if fate.FailsBefore? then old(ids) else I.Link(old(ids), k, user)
    {
      if fate.FailsBefore? { return false; }
      if k !in ids { Add(k, user); }
      ok := fate.Succeeds?;
    }

    /** Both rows appear, as at a commit. */
    method Add(k: I.Key, user: string)
      requires Valid() && k !in ids
      modifies this
      ensures Valid() && Grew() && users == old(users) + {user} && ids == old(ids)[k := user]
    {
      ghost var before := ids;
      users, ids := users + {user}, ids[k := user];
      assert ids[k] == user;
      forall u | u in users ensures I.Mapped(ids, u) {
        if u != user || I.Mapped(before, u) {
          var other :| other in before && before[other] == u;
          assert other in ids && ids[other] == u;
        }
      }
    }

    /** The protocol state s describes the tables as they are now. */
    ghost predicate Shows(s: I.State)
      reads this
    {
      s.users == users && s.ids == ids
    }

    /** The run leads to the tables as they are now, with the call at the given place. */
    ghost predicate Reaches(s0: I.State, trace: seq<I.Action>, c: nat, op: I.Op, pc: I.Pc)
      reads this
    {
      At(s0, trace, c, op, pc) && Shows(I.Run(s0, trace))
    }

    /** A rival that may commit: a call not begun, and an id not generated before. */
    ghost predicate MayRival(s: I.State, rival: Option<string>, d: nat, newUser: string) {
      rival.Some? ==> d !in s.calls && rival.value !in s.given && rival.value != newUser
    }

    /** The rival of a call asks for the same provider identity, or for the same openid alone. */
    ghost function RivalOf(op: I.Op): (r: I.Op) {
      if op.WeChat? then I.WeChat(op.openid, "") else op
    }

    /** One transaction. When a rival got its user in first, the insert violates the key and
        everything is rolled back. */
    method CreateUserWithProvider(k: I.Key, newUser: string, rival: Option<string>, fate: Fate,
                                  ghost op: I.Op, ghost c: nat, ghost d: nat, ghost s0: I.State, ghost done: seq<I.Action>)
      returns (r: Created, ghost trace: seq<I.Action>)
      requires Valid() && k !in ids && I.Valid(op) && k == I.MainKey(op)
      requires Reaches(s0, done, c, op, I.UserWritten(newUser)) && MayRival(I.Run(s0, done), rival, d, newUser)
      modifies this
      ensures Valid() && Grew()
      ensures r == if fate.FailsBefore? then OtherError else if rival.Some? then UniqueViolation
                   else if fate.Succeeds? then Committed else OtherError
      ensures rival.Some? ==> ids == old(ids)[k := rival.value] && users == old(users) + {rival.value}
      ensures rival.None? && fate.FailsBefore? ==> ids == old(ids) && users == old(users)
      ensures rival.None? && !fate.FailsBefore? ==> ids == old(ids)[k := newUser] && users == old(users) + {newUser}
      ensures Reaches(s0, trace, c, op,
                match r case Committed => (if I.HasUnion(op) then I.LinkUnion(newUser) else I.Done(newUser))
                        case UniqueViolation => I.LookupAgain
                        case OtherError => I.Failed)
    {
      trace := done;
      if rival.Some? {
        Add(k, rival.value);
        trace := RivalCommits(s0, trace, c, op, I.UserWritten(newUser), d, RivalOf(op), rival.value);
      }
      if fate.FailsBefore? {
        trace := Moves(s0, trace, c, op, I.UserWritten(newUser), FailsBefore, "");
        return OtherError, trace;
      }
      if k in ids {
        trace := Moves(s0, trace, c, op, I.UserWritten(newUser), Succeeds, "");
        return UniqueViolation, trace;
      }
      Add(k, newUser);
      trace := Moves(s0, trace, c, op, I.UserWritten(newUser), Succeeds, "");
      trace := Moves(s0, trace, c, op, I.BothWritten(newUser), fate, "");
      return if fate.Succeeds? then Committed else OtherError, trace;
    }

    /** A successful call returns the user its identity is mapped to, whoever created it. Every call is
        a run of the protocol, together with the rival that overlaps it. */
    method ResolveProviderUser(provider: string, uid: string, newUser: string, rival: Option<string>, f: Faults,
                               ghost c: nat, ghost d: nat, ghost s: I.State)
      returns (r: Result<string>, ghost trace: seq<I.Action>)
      requires Valid() && Shows(s) && Rests(s) && c !in s.calls && c != d
      requires newUser !in s.given && MayRival(s, rival, d, newUser)
      modifies this
      ensures Valid() && Grew()
      ensures provider == "" || uid == "" ==> r.Err? && ids == old(ids) && users == old(users) && trace == []
      ensures var k := I.Key(provider, uid);
              && (r.Ok? ==> k in ids && ids[k] == r.value)
              && (provider != "" && uid != "" && NoFaults(f) ==> r.Ok?)
              && (k in old(ids) ==> ids == old(ids) && users == old(users))
              && (ids == old(ids) || (k !in old(ids) && k in ids && ids == old(ids)[k := ids[k]]))
      ensures provider != "" && uid != "" ==>
                Reaches(s, trace, c, I.Provider(provider, uid), if r.Ok? then I.Done(r.value) else I.Failed)
    {
      trace := [];
      if provider == "" || uid == "" { return Err("provider and provider_uid required"), trace; }
      var k := I.Key(provider, uid);
      ghost var op := I.Provider(provider, uid);
      trace := Starts(s, c, op);
      var found := LookupUserId(k, f.lookup);
      trace := Moves(s, trace, c, op, I.Lookup, f.lookup, newUser);
      match found {
        case User(id) => return Ok(id), trace;
        case DbError => return Err("lookup"), trace;
        case NoRows =>
      }
      assert d in I.Run(s, trace).calls ==> d in I.Run(s, trace).calls - {c};
      var created;
      created, trace := CreateUserWithProvider(k, newUser, rival, f.create, op, c, d, s, trace);
      match created {
        case Committed => return Ok(newUser), trace;
        case OtherError => return Err("create"), trace;
        case UniqueViolation =>
          var again := LookupUserId(k, f.again);
          trace := Moves(s, trace, c, op, I.LookupAgain, f.again, "");
          return if again.User? then Ok(again.id) else Err("create"), trace;
      }
    }

    method CreateWeChatUser(openid: string, unionid: string, newUser: string, rival: Option<string>, f: Faults,
                            ghost c: nat, ghost d: nat, ghost s0: I.State, ghost done: seq<I.Action>)
      returns (r: Created, ghost trace: seq<I.Action>)
      requires Valid() && openid != "" && W.Mp(openid) !in ids
      requires Reaches(s0, done, c, I.WeChat(openid, unionid), I.UserWritten(newUser))
      requires MayRival(I.Run(s0, done), rival, d, newUser)
      modifies this
      ensures Valid() && Grew()
      ensures r.Committed? ==> W.Mp(openid) in ids && ids[W.Mp(openid)] == newUser
      ensures r.UniqueViolation? ==> rival.Some? && W.Mp(openid) in ids && ids[W.Mp(openid)] == rival.value
      ensures NoFaults(f) && rival.Some? ==> r.UniqueViolation?
      ensures NoFaults(f) && rival.None? ==>
                r.Committed? && ids == if unionid != "" then I.Link(old(ids)[W.Mp(openid) := newUser], W.Union(unionid), newUser)
                                       else old(ids)[W.Mp(openid) := newUser]
      ensures Reaches(s0, trace, c, I.WeChat(openid, unionid),
                match r case Committed => I.Done(newUser) case UniqueViolation => I.LookupAgain case OtherError => I.Failed)
    {
      ghost var op := I.WeChat(openid, unionid);
      r, trace := CreateUserWithProvider(W.Mp(openid), newUser, rival, f.create, op, c, d, s0, done);
      if !r.Committed? { return; }
      if unionid != "" {
        var ok := LinkIdentity(W.Union(unionid), newUser, f.linkNew);
        trace := Moves(s0, trace, c, op, I.LinkUnion(newUser), f.linkNew, "");
        if !ok { return OtherError, trace; }
      }
    }

    /** The first lookups: by openid, and then by unionid, linking the one that is missing; None when
        neither is known. */
    method FindWeChatUser(openid: string, unionid: string, newUser: string, f: Faults,
                          ghost c: nat, ghost s0: I.State, ghost done: seq<I.Action>)
      returns (r: Option<Result<string>>, ghost trace: seq<I.Action>)
      requires Valid() && openid != "" && Reaches(s0, done, c, I.WeChat(openid, unionid), I.Lookup)
      requires newUser !in I.Run(s0, done).given
      modifies this
      ensures Valid() && Grew()
      ensures r.None? ==> ids == old(ids) && users == old(users) && W.Mp(openid) !in ids
                          && (unionid != "" ==> W.Union(unionid) !in ids)
      ensures r.Some? && r.value.Ok? ==>
                (W.Mp(openid) in ids && ids[W.Mp(openid)] == r.value.value)
                || (unionid != "" && W.Union(unionid) in ids && ids[W.Union(unionid)] == r.value.value)
      ensures NoFaults(f) ==>
                var expected := W.Resolve(old(ids), openid, unionid, newUser);
                if r.None? then expected.user == newUser && ids == old(ids)
                else r.value == Ok(expected.user) && ids == expected.ids
      ensures Reaches(s0, trace, c, I.WeChat(openid, unionid),
                if r.None? then I.UserWritten(newUser) else if r.value.Ok? then I.Done(r.value.value) else I.Failed)
      ensures r.None? ==> I.Run(s0, trace).given == I.Run(s0, done).given + {newUser}
      ensures r.None? ==> I.Run(s0, trace).calls - {c} == I.Run(s0, done).calls - {c}
    {
      ghost var op := I.WeChat(openid, unionid);
      W.KeysDiffer(openid, unionid);
      var found := LookupUserId(W.Mp(openid), f.lookup);
      trace := Moves(s0, done, c, op, I.Lookup, f.lookup, newUser);
      if found.DbError? { return Some(Err("lookup")), trace; }
      if found.User? {
        if unionid != "" {
          var ok := LinkIdentity(W.Union(unionid), found.id, f.link);
          trace := Moves(s0, trace, c, op, I.LinkUnion(found.id), f.link, "");
          if !ok { return Some(Err("link")), trace; }
        }
        return Some(Ok(found.id)), trace;
      }
      if unionid != "" {
        var shared := LookupUserId(W.Union(unionid), f.lookupUnion);
        trace := Moves(s0, trace, c, op, I.LookupUnion, f.lookupUnion, newUser);
        if shared.DbError? { return Some(Err("lookup")), trace; }
        if shared.User? {
          var ok := LinkIdentity(W.Mp(openid), shared.id, f.link);
          trace := Moves(s0, trace, c, op, I.LinkOpenid(shared.id), f.link, "");
          if !ok { return Some(Err("link")), trace; }
          return Some(Ok(shared.id)), trace;
        }
      }
      return None, trace;
    }

    /** After a unique violation: by openid, and then by unionid, linking quietly. */
    method FindAgain(openid: string, unionid: string, f: Faults, ghost c: nat, ghost s0: I.State, ghost done: seq<I.Action>)
      returns (r: Result<string>, ghost trace: seq<I.Action>)
      requires Valid() && openid != "" && Reaches(s0, done, c, I.WeChat(openid, unionid), I.LookupAgain)
      modifies this
      ensures Valid() && Grew()
      ensures r.Ok? ==> (W.Mp(openid) in ids && ids[W.Mp(openid)] == r.value)
                        || (unionid != "" && W.Union(unionid) in ids && ids[W.Union(unionid)] == r.value)
      ensures NoFaults(f) && W.Mp(openid) in old(ids) ==> r.Ok?
      ensures var mp, union := I.Key("wechat_mp", openid), I.Key("wechat_union", unionid);
              var known, shared := f.again.Succeeds? && mp in old(ids), f.againUnion.Succeeds? && union in old(ids);
              && (r.Ok? <==> known || (unionid != "" && shared))
              && (known ==> r.value == old(ids)[mp] && ids == old(ids))
              && (!known && r.Ok? ==> r.value == old(ids)[union])
              && (!known && r.Ok? ==>
                    ids == if f.quiet.FailsBefore? || mp in old(ids) then old(ids) else old(ids)[mp := r.value])
              && (r.Err? ==> ids == old(ids))
      ensures Reaches(s0, trace, c, I.WeChat(openid, unionid), if r.Ok? then I.Done(r.value) else I.Failed)
    {
      ghost var op := I.WeChat(openid, unionid);
      W.KeysDiffer(openid, unionid);
      var again := LookupUserId(W.Mp(openid), f.again);
      trace := Moves(s0, done, c, op, I.LookupAgain, f.again, "");
      if again.User? { return Ok(again.id), trace; }
      if unionid != "" {
        var shared := LookupUserId(W.Union(unionid), f.againUnion);
        trace := Moves(s0, trace, c, op, I.LookupUnionAgain, f.againUnion, "");
        if shared.User? {
          var _ := LinkIdentity(W.Mp(openid), shared.id, f.quiet);
          trace := Moves(s0, trace, c, op, I.LinkQuietly(shared.id), f.quiet, "");
          return Ok(shared.id), trace;
        }
      }
      return Err("create"), trace;
    }

    /** Without faults and rivals a call is Resolve; in any case it only adds mappings, a user it
        returns is mapped to by its openid or its unionid, and it is a run of the protocol together
        with the rival that overlaps it. */
    method ResolveWeChatUser(openid: string, unionid: string, newUser: string, rival: Option<string>, f: Faults,
                             ghost c: nat, ghost d: nat, ghost s: I.State)
      returns (r: Result<string>, ghost trace: seq<I.Action>)
      requires Valid() && Shows(s) && Rests(s) && c !in s.calls && c != d
      requires newUser !in s.given && MayRival(s, rival, d, newUser)
      modifies this
      ensures Valid() && Grew()
      ensures openid == "" ==> r.Err? && ids == old(ids) && users == old(users) && trace == []
      ensures r.Ok? ==> (W.Mp(openid) in ids && ids[W.Mp(openid)] == r.value)
                        || (unionid != "" && W.Union(unionid) in ids && ids[W.Union(unionid)] == r.value)
      ensures openid != "" && NoFaults(f) && rival.None? ==>
                var expected := W.Resolve(old(ids), openid, unionid, newUser);
                r == Ok(expected.user) && ids == expected.ids
      ensures openid != "" && NoFaults(f) ==> r.Ok?
      ensures openid != "" ==>
                Reaches(s, trace, c, I.WeChat(openid, unionid), if r.Ok? then I.Done(r.value) else I.Failed)
    {
      trace := [];
      if openid == "" { return Err("openid required"), trace; }
      W.KeysDiffer(openid, unionid);
      trace := Starts(s, c, I.WeChat(openid, unionid));
      var first;
      first, trace := FindWeChatUser(openid, unionid, newUser, f, c, s, trace);
      if first.Some? { return first.value, trace; }
      assert d in I.Run(s, trace).calls ==> d in I.Run(s, trace).calls - {c};
      var created;
      created, trace := CreateWeChatUser(openid, unionid, newUser, rival, f, c, d, s, trace);
      if created.Committed? { return Ok(newUser), trace; }
      if created.OtherError? { return Err("create"), trace; }
      r, trace := FindAgain(openid, unionid, f, c, s, trace);
    }
  }
}
