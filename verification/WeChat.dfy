/** When mini-programs share one user: WeChat resolution one call at a time, and what overlap
    or a failed link does to it. */
module WeChat {
  import opened Identity

  function Mp(openid: string): (k: Key) { Key(WECHAT_MP, openid) }

  function Union(unionid: string): (k: Key) { Key(WECHAT_UNION, unionid) }

  datatype Resolved = Resolved(ids: map<Key, string>, user: string)

  /** One call, alone and without faults. newUser is the id it generates if it has to. */
  function Resolve(ids: map<Key, string>, openid: string, unionid: string, newUser: string): (r: Resolved) {
    var known := Mp(openid) in ids;
    var shared := unionid != "" && Union(unionid) in ids;
    var user := if known then ids[Mp(openid)] else if shared then ids[Union(unionid)] else newUser;
    var mapped := Link(ids, Mp(openid), user);
    Resolved(if unionid != "" then Link(mapped, Union(unionid), user) else mapped, user)
  }

  lemma KeysDiffer(openid: string, unionid: string)
    ensures Mp(openid) != Union(unionid)
  {}

  /** A call in a history: its openid, and the user id it would generate. */
  datatype Visit = Visit(openid: string, newUser: string)

  /** Visits one after the other, each openid with its unionid; generated ids are new. */
  predicate LegalVisits(ids: map<Key, string>, visits: seq<Visit>, unionOf: string -> string)
    decreases |visits|
  {
    visits == [] ||
    (visits[0].openid != "" && visits[0].newUser !in ids.Values
     && LegalVisits(After(ids, visits[0], unionOf), visits[1..], unionOf))
  }

  function After(ids: map<Key, string>, v: Visit, unionOf: string -> string): (r: map<Key, string>) {
    Resolve(ids, v.openid, unionOf(v.openid), v.newUser).ids
  }

  /** The users the visits return. */
  function Answers(ids: map<Key, string>, visits: seq<Visit>, unionOf: string -> string): (users: seq<string>)
    ensures |users| == |visits|
    decreases |visits|
  {
    if visits == [] then []
    else [Resolve(ids, visits[0].openid, unionOf(visits[0].openid), visits[0].newUser).user]
         + Answers(After(ids, visits[0], unionOf), visits[1..], unionOf)
  }

  /** Openids with one unionid have one user, forever: whatever visits follow. */
  ghost predicate SharesForever(ids: map<Key, string>, unionOf: string -> string) {
    forall visits: seq<Visit>, i: nat, j: nat ::
      LegalVisits(ids, visits, unionOf) && i < |visits| && j < |visits|
      && unionOf(visits[i].openid) == unionOf(visits[j].openid)
      ==> Answers(ids, visits, unionOf)[i] == Answers(ids, visits, unionOf)[j]
  }

  /** For one mapped openid a and one other openid b of the same union: b has the same user, or
      will find it under the union. */
  predicate AlignedPair(ids: map<Key, string>, a: string, b: string, unionid: string) {
    Mp(a) in ids ==>
      if Mp(b) in ids then ids[Mp(b)] == ids[Mp(a)]
      else Union(unionid) in ids && ids[Union(unionid)] == ids[Mp(a)]
  }

  /** A condition on the table alone. */
  ghost predicate Aligned(ids: map<Key, string>, unionOf: string -> string) {
    forall a, b | a != "" && b != "" && unionOf(a) == unionOf(b) :: AlignedPair(ids, a, b, unionOf(a))
  }

  lemma VisitKeepsAligned(ids: map<Key, string>, v: Visit, unionOf: string -> string)
    requires Aligned(ids, unionOf) && v.openid != "" && unionOf(v.openid) != ""
    ensures Aligned(After(ids, v, unionOf), unionOf)
  {}

  /** A visit maps its openid to its answer; mappings stay. */
  lemma VisitMaps(ids: map<Key, string>, v: Visit, unionOf: string -> string)
    ensures var r := Resolve(ids, v.openid, unionOf(v.openid), v.newUser);
            && Mp(v.openid) in r.ids && r.ids[Mp(v.openid)] == r.user
            && (forall k :: k in ids ==> k in r.ids && r.ids[k] == ids[k])
  {}

  /** From an aligned table, every answer is the user of any mapped openid of the same union. */
  lemma {:induction false} AnswersAgree(ids: map<Key, string>, visits: seq<Visit>, unionOf: string -> string, a: string, j: nat)
    requires Aligned(ids, unionOf) && LegalVisits(ids, visits, unionOf) && j < |visits|
    requires forall o :: o != "" ==> unionOf(o) != ""
    requires a != "" && Mp(a) in ids && unionOf(a) == unionOf(visits[j].openid)
    ensures Answers(ids, visits, unionOf)[j] == ids[Mp(a)]
    decreases |visits|
  {
    var v := visits[0];
    VisitKeepsAligned(ids, v, unionOf);
    VisitMaps(ids, v, unionOf);
    if j == 0 {
      assert AlignedPair(ids, a, v.openid, unionOf(a));
    } else {
      AnswersAgree(After(ids, v, unionOf), visits[1..], unionOf, a, j - 1);
    }
  }

  lemma AnswersStep(ids: map<Key, string>, visits: seq<Visit>, unionOf: string -> string, j: nat)
    requires j < |visits|
    ensures Answers(ids, visits, unionOf)[j] ==
            if j == 0 then Resolve(ids, visits[0].openid, unionOf(visits[0].openid), visits[0].newUser).user
            else Answers(After(ids, visits[0], unionOf), visits[1..], unionOf)[j - 1]
  {}

  lemma {:induction false} TwoAnswersAgree(ids: map<Key, string>, visits: seq<Visit>, unionOf: string -> string, i: nat, j: nat)
    requires Aligned(ids, unionOf) && LegalVisits(ids, visits, unionOf) && i <= j < |visits|
    requires forall o :: o != "" ==> unionOf(o) != ""
    requires unionOf(visits[i].openid) == unionOf(visits[j].openid)
    ensures Answers(ids, visits, unionOf)[i] == Answers(ids, visits, unionOf)[j]
    decreases |visits|
  {
    if i < j {
      var v := visits[0];
      VisitKeepsAligned(ids, v, unionOf);
      AnswersStep(ids, visits, unionOf, i);
      AnswersStep(ids, visits, unionOf, j);
      if i == 0 {
        VisitMaps(ids, v, unionOf);
        AnswersAgree(After(ids, v, unionOf), visits[1..], unionOf, v.openid, j - 1);
      } else {
        TwoAnswersAgree(After(ids, v, unionOf), visits[1..], unionOf, i - 1, j - 1);
      }
    }
  }

  /** In a table that is not aligned, b's visit and then a's get different users. */
  lemma MisalignedDiffers(ids: map<Key, string>, unionOf: string -> string, a: string, b: string, x: string, y: string)
    requires a != "" && b != "" && unionOf(a) == unionOf(b) && !AlignedPair(ids, a, b, unionOf(a))
    requires x !in ids.Values && y !in ids.Values && x != y
    ensures var visits := [Visit(b, x), Visit(a, y)];
            LegalVisits(ids, visits, unionOf) && Answers(ids, visits, unionOf)[0] != Answers(ids, visits, unionOf)[1]
  {}

  /** A string longer than all of a set is new to it. */
  lemma FreshUser(used: set<string>) returns (x: string)
    ensures x !in used && x != ""
    decreases |used|
  {
    x := LongerThanAll(used);
  }

  lemma LongerThanAll(used: set<string>) returns (x: string)
    ensures forall u :: u in used ==> |u| < |x|
    ensures x != ""
    decreases |used|
  {
    if used == {} {
      x := "x";
    } else {
      var u :| u in used;
      var y := LongerThanAll(used - {u});
      x := y + u + "x";
      forall w | w in used ensures |w| < |x| {
        if w != u { assert w in used - {u}; }
      }
    }
  }

  /** The exact condition: with every openid always coming with its own non-empty unionid and
      calls one at a time, users are shared by union forever if and only if the table is
      aligned. The empty table is. */
  lemma SharedExactlyWhenAligned(ids: map<Key, string>, unionOf: string -> string)
    requires forall o :: o != "" ==> unionOf(o) != ""
    ensures SharesForever(ids, unionOf) <==> Aligned(ids, unionOf)
    ensures Aligned(map[], unionOf)
  {
    if Aligned(ids, unionOf) {
      forall visits: seq<Visit>, i: nat, j: nat |
        LegalVisits(ids, visits, unionOf) && i < |visits| && j < |visits|
        && unionOf(visits[i].openid) == unionOf(visits[j].openid)
        ensures Answers(ids, visits, unionOf)[i] == Answers(ids, visits, unionOf)[j]
      {
        if i <= j {
          TwoAnswersAgree(ids, visits, unionOf, i, j);
        } else {
          TwoAnswersAgree(ids, visits, unionOf, j, i);
        }
      }
    } else {
      var a, b :| a != "" && b != "" && unionOf(a) == unionOf(b) && !AlignedPair(ids, a, b, unionOf(a));
      var x := FreshUser(ids.Values);
      var y := FreshUser(ids.Values + {x});
      MisalignedDiffers(ids, unionOf, a, b, x, y);
    }
  }

  // The same calls as runs of the protocol.

  lemma Extend(s0: State, run: seq<Action>, s: State, a: Action) returns (run': seq<Action>, s': State)
    requires Legal(s0, run) && s == Run(s0, run) && Enabled(s, a)
    ensures run' == run + [a] && Legal(s0, run') && s' == Run(s0, run') == Apply(s, a)
  {
    run', s' := run + [a], Apply(s, a);
    RunOneMore(s0, run, a);
  }

  /** No call is in the middle of anything. */
  predicate Quiet(s: State) { forall c :: c in s.calls ==> !Running(s, c) }

  /** No call but c is. */
  predicate Alone(s: State, c: nat) { c in s.calls && forall d :: d in s.calls && d != c ==> !Running(s, d) }

  /** The next statement of a call that is alone. */
  lemma StepAlone(s0: State, run: seq<Action>, s: State, c: nat, newUser: string) returns (run': seq<Action>, s': State)
    requires Legal(s0, run) && s == Run(s0, run) && Alone(s, c) && Running(s, c) && newUser !in s0.given
    requires Creates(s, s.calls[c]) ==> newUser !in s.given
    requires s.calls[c].pc.LinkUnion? || s.calls[c].pc.LookupUnion? || s.calls[c].pc.LookupUnionAgain? ==> s.calls[c].op.WeChat?
    ensures Legal(s0, run') && s' == Run(s0, run') && Alone(s', c)
    ensures s'.calls[c] == s.calls[c].(pc := NextPc(s, s.calls[c], newUser))
    ensures s'.ids == Effect(s, s.calls[c]).1
    ensures !Creates(s, s.calls[c]) ==> s'.given == s.given
  {
    run', s' := Extend(s0, run, s, Step(c, newUser));
  }

  lemma StartAlone(s: State, c: nat, op: Op) returns (run: seq<Action>, t: State)
    requires Quiet(s) && c !in s.calls && Valid(op)
    ensures Legal(s, run) && t == Run(s, run) && Alone(t, c)
    ensures t.calls[c] == Call(op, Lookup) && t.ids == s.ids && t.given == s.given
  {
    run, t := Extend(s, [], s, Start(c, op));
  }

  /** The paths of one call alone and without faults: its openid is known; only its union is;
      neither is. */
  lemma KnownOpenid(s: State, c: nat, op: Op, newUser: string) returns (run: seq<Action>)
    requires Quiet(s) && c !in s.calls && op.WeChat? && Valid(op) && newUser !in s.given
    requires MainKey(op) in s.ids
    ensures Legal(s, run)
    ensures var user, s' := s.ids[MainKey(op)], Run(s, run);
            && s'.ids == (if HasUnion(op) then Link(s.ids, UnionKey(op), user) else s.ids)
            && Returned(s', c, op, user) && Alone(s', c)
  {
    var t;
    run, t := StartAlone(s, c, op);
    run, t := StepAlone(s, run, t, c, newUser);
    if HasUnion(op) {
      run, t := StepAlone(s, run, t, c, newUser);
    }
  }

  lemma KnownUnion(s: State, c: nat, op: Op, newUser: string) returns (run: seq<Action>)
    requires Quiet(s) && c !in s.calls && Valid(op) && newUser !in s.given
    requires HasUnion(op) && MainKey(op) !in s.ids && UnionKey(op) in s.ids
    ensures Legal(s, run)
    ensures var user, s' := s.ids[UnionKey(op)], Run(s, run);
            s'.ids == s.ids[MainKey(op) := user] && Returned(s', c, op, user) && Alone(s', c)
  {
    var t;
    run, t := StartAlone(s, c, op);
    run, t := StepAlone(s, run, t, c, newUser);
    run, t := StepAlone(s, run, t, c, newUser);
    run, t := StepAlone(s, run, t, c, newUser);
  }

  lemma NewIdentity(s: State, c: nat, op: Op, newUser: string) returns (run: seq<Action>)
    requires Quiet(s) && c !in s.calls && op.WeChat? && Valid(op) && newUser !in s.given
    requires MainKey(op) !in s.ids && (HasUnion(op) ==> UnionKey(op) !in s.ids)
    ensures Legal(s, run)
    ensures var s' := Run(s, run);
            && s'.ids == (if HasUnion(op) then s.ids[MainKey(op) := newUser][UnionKey(op) := newUser]
                          else s.ids[MainKey(op) := newUser])
            && Returned(s', c, op, newUser) && Alone(s', c)
  {
    var t;
    KeysDiffer(op.openid, op.unionid);
    run, t := StartAlone(s, c, op);
    run, t := StepAlone(s, run, t, c, newUser);
    if HasUnion(op) {
      assert t.calls[c].pc == LookupUnion && t.given == s.given;
      run, t := StepAlone(s, run, t, c, newUser);
    }
    assert t.calls[c].pc == UserWritten(newUser) && t.ids == s.ids;
    run, t := StepAlone(s, run, t, c, newUser);
    run, t := StepAlone(s, run, t, c, newUser);
    if HasUnion(op) {
      run, t := StepAlone(s, run, t, c, newUser);
    }
  }

  /** One call alone and without faults is Resolve. */
  lemma ResolveIsARun(s: State, c: nat, openid: string, unionid: string, newUser: string) returns (run: seq<Action>)
    requires Quiet(s) && c !in s.calls && openid != "" && newUser !in s.given
    ensures Legal(s, run)
    ensures var r, s' := Resolve(s.ids, openid, unionid, newUser), Run(s, run);
            s'.ids == r.ids && Returned(s', c, WeChat(openid, unionid), r.user) && Quiet(s')
  {
    var op := WeChat(openid, unionid);
    KeysDiffer(openid, unionid);
    if Mp(openid) in s.ids {
      run := KnownOpenid(s, c, op, newUser);
    } else if unionid != "" && Union(unionid) in s.ids {
      run := KnownUnion(s, c, op, newUser);
    } else {
      run := NewIdentity(s, c, op, newUser);
    }
  }

  const A := WeChat("a", "u")
  const B := WeChat("b", "u")
  const BOTH_OPEN := State({}, map[], map[0 := Call(A, UserWritten("x")), 1 := Call(B, UserWritten("y"))], {"x", "y"})

  lemma BothBegin() returns (run: seq<Action>)
    ensures Legal(EMPTY, run) && Run(EMPTY, run) == BOTH_OPEN
  {
    var t := EMPTY;
    run := [];
    run, t := Extend(EMPTY, run, t, Start(0, A));
    run, t := Extend(EMPTY, run, t, Step(0, "x"));
    run, t := Extend(EMPTY, run, t, Step(0, "x"));
    assert t == State({}, map[], map[0 := Call(A, UserWritten("x"))], {"x"});
    run, t := Extend(EMPTY, run, t, Start(1, B));
    run, t := Extend(EMPTY, run, t, Step(1, "y"));
    assert t == State({}, map[], map[0 := Call(A, UserWritten("x")), 1 := Call(B, LookupUnion)], {"x"});
    run, t := Extend(EMPTY, run, t, Step(1, "y"));
  }

  lemma FirstEnds(run0: seq<Action>) returns (run: seq<Action>)
    requires Legal(EMPTY, run0) && Run(EMPTY, run0) == BOTH_OPEN
    ensures Legal(EMPTY, run)
    ensures Run(EMPTY, run) == State({"x"}, map[Mp("a") := "x", Union("u") := "x"],
                                     map[0 := Call(A, Done("x")), 1 := Call(B, UserWritten("y"))], {"x", "y"})
  {
    var t := BOTH_OPEN;
    run := run0;
    KeysDiffer("a", "u");
    run, t := Extend(EMPTY, run, t, Step(0, "x"));
    run, t := Extend(EMPTY, run, t, Step(0, "x"));
    assert t == State({"x"}, map[Mp("a") := "x"],
                      map[0 := Call(A, LinkUnion("x")), 1 := Call(B, UserWritten("y"))], {"x", "y"});
    run, t := Extend(EMPTY, run, t, Step(0, "x"));
  }

  /** Two overlapping first calls of one union both create a user: their answers differ. */
  lemma OverlapBreaksSharing() returns (run: seq<Action>)
    ensures Legal(EMPTY, run)
    ensures var s := Run(EMPTY, run);
            && Returned(s, 0, WeChat("a", "u"), "x") && Returned(s, 1, WeChat("b", "u"), "y")
            && Mp("a") in s.ids && s.ids[Mp("a")] == "x" && Mp("b") in s.ids && s.ids[Mp("b")] == "y"
  {
    run := BothBegin();
    run := FirstEnds(run);
    var t := Run(EMPTY, run);
    KeysDiffer("b", "u");
    assert Mp("a") != Mp("b");
    run, t := Extend(EMPTY, run, t, Step(1, "y"));
    run, t := Extend(EMPTY, run, t, Step(1, "y"));
    assert t.calls == map[0 := Call(A, Done("x")), 1 := Call(B, LinkUnion("y"))];
    run, t := Extend(EMPTY, run, t, Step(1, "y"));
  }

  /** One call at a time, but the first one fails between creating its user and linking the
      union: the table is left misaligned. */
  lemma FailedLinkBreaksSharing(unionOf: string -> string) returns (run: seq<Action>)
    requires unionOf("a") == unionOf("b") == "u"
    ensures Legal(EMPTY, run)
    ensures var s := Run(EMPTY, run);
            && Quiet(s) && s.ids == map[Mp("a") := "x"]
            && !Aligned(s.ids, unionOf)
  {
    var t := EMPTY;
    run := [];
    KeysDiffer("a", "u");
    run, t := Extend(EMPTY, run, t, Start(0, WeChat("a", "u")));
    run, t := Extend(EMPTY, run, t, Step(0, "x"));
    run, t := Extend(EMPTY, run, t, Step(0, "x"));
    run, t := Extend(EMPTY, run, t, Step(0, "x"));
    run, t := Extend(EMPTY, run, t, Step(0, "x"));
    run, t := Extend(EMPTY, run, t, Error(0));
    assert t.ids == map[Mp("a") := "x"];
    assert Mp("b") != Mp("a");
    assert !AlignedPair(t.ids, "a", "b", unionOf("a"));
  }
}
