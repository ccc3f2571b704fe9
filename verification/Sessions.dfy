/** Browser sessions, sign-out and the revocation list: Redis keys with lifetimes, and requests
    that load a session, verify its token and look up its revocation in separate steps. */
module Sessions {
  import opened Common

  /** A session's payload; 0 is the zero time, which means no expiry of its own. */
  datatype Data = Data(token: string, expiresAt: int)

  /** A Redis value and the instant at which its key disappears. */
  datatype Entry = Entry(data: Data, keyExpiry: int)

  /** Lifetimes of session keys and of revocations; both positive. */
  datatype Config = Config(sessionTtl: int, revocationTtl: int)

  predicate Sound(c: Config) { c.sessionTtl > 0 && c.revocationTtl > 0 }

  /** save: the configured lifetime, or what is left until ExpiresAt when that is shorter. */
  function Lifetime(c: Config, data: Data, now: int): (ttl: int)
    requires Sound(c)
    ensures 0 < ttl <= c.sessionTtl
    ensures data.expiresAt != 0 && data.expiresAt > now ==> ttl <= data.expiresAt - now
  {
    if data.expiresAt != 0 && 0 < data.expiresAt - now < c.sessionTtl then data.expiresAt - now else c.sessionTtl
  }

  /** Whether Get would return the session. */
  predicate Alive(sessions: map<string, Entry>, id: string, now: int) {
    id in sessions && now < sessions[id].keyExpiry
    && (sessions[id].data.expiresAt == 0 || now <= sessions[id].data.expiresAt)
  }

  predicate Revoked(revoked: map<string, int>, id: string, now: int) { id in revoked && now < revoked[id] }

  /** A request for a sensitive path with a session cookie. */
  datatype Request =
    | Opened(id: string)
    | Loaded(id: string, data: Data)
    | Verified(id: string)
    | Passed(id: string, at: int)
    | Denied

  /** created and deleted: ids ever stored, and ids a delete took effect on. */
  datatype State = State(now: int, sessions: map<string, Entry>, revoked: map<string, int>, requests: map<nat, Request>,
                         created: set<string>, deleted: set<string>)

  /** Get loads the session or denies; Verify checks its token, deleting the session of a bad
      one; Check looks the revocation up; CheckFails is a lookup that errs, which lets pass. */
  datatype Action =
    | Tick(elapsed: nat)
    | Create(id: string, data: Data)
    | Delete(id: string, fate: Fate)
    | Revoke(id: string, fate: Fate)
    | Open(request: nat, id: string)
    | Get(request: nat)
    | Verify(request: nat, genuine: bool, delete: Fate)
    | Check(request: nat, subjectRevoked: bool)
    | CheckFails(request: nat)

  predicate Enabled(s: State, a: Action) {
    match a
    case Create(id, _) => id != "" && id !in s.created + s.deleted && id !in s.revoked
    case Open(r, id) => r !in s.requests && id != ""
    case Get(r) => r in s.requests && s.requests[r].Opened?
    case Verify(r, _, _) => r in s.requests && s.requests[r].Loaded?
    case Check(r, _) => r in s.requests && s.requests[r].Verified?
    case CheckFails(r) => r in s.requests && s.requests[r].Verified?
    case _ => true
  }

  function Removed(s: State, id: string, fate: Fate): (s': State) {
    if fate.FailsBefore? then s else s.(sessions := s.sessions - {id}, deleted := s.deleted + {id})
  }

  function Apply(s: State, a: Action, c: Config): (s': State)
    requires Sound(c) && Enabled(s, a)
  {
    match a
    case Tick(elapsed) => s.(now := s.now + elapsed)
    case Create(id, data) =>
      s.(sessions := s.sessions[id := Entry(data, s.now + Lifetime(c, data, s.now))], created := s.created + {id})
    case Delete(id, fate) => Removed(s, id, fate)
    case Revoke(id, fate) => if fate.FailsBefore? then s else s.(revoked := s.revoked[id := s.now + c.revocationTtl])
    case Open(r, id) => s.(requests := s.requests[r := Opened(id)])
    case Get(r) =>
      var id := s.requests[r].id;
      s.(requests := s.requests[r := if Alive(s.sessions, id, s.now) then Loaded(id, s.sessions[id].data) else Denied])
    case Verify(r, genuine, delete) =>
      var id := s.requests[r].id;
      if genuine then s.(requests := s.requests[r := Verified(id)])
      else Removed(s, id, delete).(requests := s.requests[r := Denied])
    case Check(r, subjectRevoked) =>
      var id := s.requests[r].id;
      s.(requests := s.requests[r := if Revoked(s.revoked, id, s.now) || subjectRevoked then Denied else Passed(id, s.now)])
    case CheckFails(r) => s.(requests := s.requests[r := Passed(s.requests[r].id, s.now)])
  }

  predicate Legal(s: State, run: seq<Action>, c: Config)
    requires Sound(c)
    decreases |run|
  {
    run == [] || (Enabled(s, run[0]) && Legal(Apply(s, run[0], c), run[1..], c))
  }

  function Run(s: State, run: seq<Action>, c: Config): (s': State)
    requires Sound(c) && Legal(s, run, c)
    decreases |run|
  {
    if run == [] then s else Run(Apply(s, run[0], c), run[1..], c)
  }

  function Start(now: int): (s: State) { State(now, map[], map[], map[], {}, {}) }

  /** A deleted id is gone for good: ids are stored once, when they are new. No key outlives
      the lifetime it could be given now. */
  predicate Inv(s: State, c: Config) {
    && s.sessions.Keys <= s.created - s.deleted
    && (forall id :: id in s.sessions ==> s.sessions[id].keyExpiry <= s.now + c.sessionTtl)
    && (forall id :: id in s.revoked ==> s.revoked[id] <= s.now + c.revocationTtl)
  }

  lemma {:induction false} RunKeepsInv(s: State, run: seq<Action>, c: Config)
    requires Sound(c) && Inv(s, c) && Legal(s, run, c)
    ensures Inv(Run(s, run, c), c)
    decreases |run|
  {
    if run != [] {
      RunKeepsInv(Apply(s, run[0], c), run[1..], c);
    }
  }

  /** In every run, whenever Get would return a session: its id was created, no delete of it has
      taken effect, and it has not passed its ExpiresAt. */
  lemma GetIsSound(start: int, run: seq<Action>, c: Config, id: string)
    requires Sound(c) && Legal(Start(start), run, c)
    requires var s := Run(Start(start), run, c); Alive(s.sessions, id, s.now)
    ensures var s := Run(Start(start), run, c);
            && id in s.created && id !in s.deleted
            && (s.sessions[id].data.expiresAt != 0 ==> s.now <= s.sessions[id].data.expiresAt)
  {
    RunKeepsInv(Start(start), run, c);
  }

  /** The seconds that pass during the run. */
  function Elapsed(run: seq<Action>): (seconds: nat) {
    if run == [] then 0 else (if run[0].Tick? then run[0].elapsed else 0) + Elapsed(run[1..])
  }

  lemma {:induction false} EntryStays(s: State, run: seq<Action>, c: Config, id: string)
    requires Sound(c) && Inv(s, c) && Legal(s, run, c) && id in s.created
    ensures var s' := Run(s, run, c);
            && s'.now == s.now + Elapsed(run) && s.deleted <= s'.deleted
            && (id in s'.sessions <==> id in s.sessions && id !in s'.deleted)
            && (id in s'.sessions ==> s'.sessions[id] == s.sessions[id])
    decreases |run|
  {
    if run != [] {
      EntryStays(Apply(s, run[0], c), run[1..], c, id);
    }
  }

  /** The exact condition: from its creation on, whatever else happens, a session is returned if and only if
      no delete of it took effect, the configured time is not over, and its ExpiresAt, if it has one, is
      ahead, or is the very instant of a creation that was too late. */
  lemma AliveExactly(start: int, before: seq<Action>, id: string, data: Data, after: seq<Action>, c: Config)
    requires Sound(c) && Legal(Start(start), before, c) && Enabled(Run(Start(start), before, c), Create(id, data))
    requires Legal(Apply(Run(Start(start), before, c), Create(id, data), c), after, c)
    ensures var s := Run(Start(start), before, c);
            var s' := Run(Apply(s, Create(id, data), c), after, c);
            var now := s.now + Elapsed(after);
            Alive(s'.sessions, id, s'.now) <==>
              && id !in s'.deleted && now < s.now + c.sessionTtl
              && (data.expiresAt == 0 || now < data.expiresAt || now == s.now == data.expiresAt)
  {
    RunKeepsInv(Start(start), before, c);
    var s := Run(Start(start), before, c);
    var created := Apply(s, Create(id, data), c);
    EntryStays(created, after, c, id);
  }

  // After sign-out.

  /** The first instant at which Get no longer returns the session. */
  function End(e: Entry): (time: int) {
    if e.data.expiresAt != 0 && e.data.expiresAt + 1 < e.keyExpiry then e.data.expiresAt + 1 else e.keyExpiry
  }

  lemma AliveUntilEnd(sessions: map<string, Entry>, id: string, now: int)
    ensures Alive(sessions, id, now) <==> id in sessions && now < End(sessions[id])
  {}

  /** The cookie's session is deleted, or is revoked at least until the given instant. */
  predicate Closed(s: State, id: string, until: int) {
    && id in s.created
    && (id !in s.sessions || End(s.sessions[id]) <= until)
    && (id !in s.sessions || (id in s.revoked && until <= s.revoked[id]))
  }

  predicate ChecksSucceed(run: seq<Action>) { forall a :: a in run ==> !a.CheckFails? }

  /** What requests with the cookie, other than those open when it was closed, have achieved. */
  predicate Shut(s: State, id: string, until: int, before: set<nat>) {
    forall r :: r in s.requests && r !in before && !s.requests[r].Denied? && s.requests[r].id == id ==>
      && (s.requests[r].Loaded? || s.requests[r].Verified? ==> id in s.revoked && until <= s.revoked[id])
      && (s.requests[r].Passed? ==> until <= s.requests[r].at)
  }

  lemma {:induction false} ClosedStaysShut(s: State, run: seq<Action>, c: Config, id: string, until: int, before: set<nat>)
    requires Sound(c) && Legal(s, run, c) && ChecksSucceed(run)
    requires Closed(s, id, until) && Shut(s, id, until, before)
    requires Inv(s, c)
    ensures Shut(Run(s, run, c), id, until, before)
    decreases |run|
  {
    if run != [] {
      var a := run[0];
      assert a in run;
      var s' := Apply(s, a, c);
      assert Closed(s', id, until);
      assert Shut(s', id, until, before);
      ClosedStaysShut(s', run[1..], c, id, until, before);
    }
  }

  predicate PassesBefore(s: State, id: string, until: int, before: set<nat>) {
    exists r :: r in s.requests && r !in before && s.requests[r].Passed? && s.requests[r].id == id
      && s.requests[r].at < until
  }

  /** From the state s on, no request opened later with the cookie passes before the instant. */
  ghost predicate KeptOut(s: State, c: Config, id: string, until: int)
    requires Sound(c)
  {
    forall run :: Legal(s, run, c) && ChecksSucceed(run) ==>
      !PassesBefore(Run(s, run, c), id, until, s.requests.Keys)
  }

  /** Sign-out whose delete took effect: the cookie is kept out for good. */
  lemma DeletedIsKeptOut(s: State, c: Config, id: string, until: int)
    requires Sound(c) && Inv(s, c) && id in s.created && id !in s.sessions
    ensures KeptOut(s, c, id, until)
  {
    forall run | Legal(s, run, c) && ChecksSucceed(run)
      ensures !PassesBefore(Run(s, run, c), id, until, s.requests.Keys)
    {
      ClosedStaysShut(s, run, c, id, until, s.requests.Keys);
    }
  }

  /** A sign-out whose delete failed but whose revocation took effect keeps the cookie out as long
      as the session lives, if and only if the revocation lasts as long as the session. */
  lemma RevokedIsKeptOut(s: State, c: Config, id: string, fate: Fate)
    requires Sound(c) && Inv(s, c) && id in s.sessions && id != "" && !fate.FailsBefore?
    requires s.now < End(s.sessions[id])
    ensures KeptOut(Apply(s, Revoke(id, fate), c), c, id, End(s.sessions[id])) <==>
            End(s.sessions[id]) <= s.now + c.revocationTtl
  {
    var s' := Apply(s, Revoke(id, fate), c);
    var end := End(s.sessions[id]);
    if end <= s.now + c.revocationTtl {
      forall run | Legal(s', run, c) && ChecksSucceed(run)
        ensures !PassesBefore(Run(s', run, c), id, end, s'.requests.Keys)
      {
        ClosedStaysShut(s', run, c, id, end, s'.requests.Keys);
      }
    } else {
      var r := NewRequest(s'.requests.Keys);
      var run := SlipsThrough(s', c, id, r);
    }
  }

  /** Sign-out, delete then revoke: if either takes effect, no request opened afterwards with the
      cookie passes while the session would have lived, given that revocations last as long as
      sessions. */
  lemma SignOutKeepsOut(s: State, c: Config, id: string, delete: Fate, revoke: Fate)
    requires Sound(c) && c.sessionTtl <= c.revocationTtl && Inv(s, c) && id != ""
    requires id in s.sessions && s.now < End(s.sessions[id])
    requires !delete.FailsBefore? || !revoke.FailsBefore?
    ensures KeptOut(Apply(Apply(s, Delete(id, delete), c), Revoke(id, revoke), c), c, id, End(s.sessions[id]))
  {
    var out := Apply(Apply(s, Delete(id, delete), c), Revoke(id, revoke), c);
    if delete.FailsBefore? {
      RevokedIsKeptOut(s, c, id, revoke);
    } else {
      DeletedIsKeptOut(out, c, id, End(s.sessions[id]));
    }
  }

  /** The same after every run. */
  lemma SignOutKeepsOutInEveryRun(start: int, run: seq<Action>, c: Config, id: string, delete: Fate, revoke: Fate)
    requires Sound(c) && c.sessionTtl <= c.revocationTtl && Legal(Start(start), run, c) && id != ""
    requires var s := Run(Start(start), run, c); id in s.sessions && s.now < End(s.sessions[id])
    requires !delete.FailsBefore? || !revoke.FailsBefore?
    ensures var s := Run(Start(start), run, c);
            var out := Apply(Apply(s, Delete(id, delete), c), Revoke(id, revoke), c);
            KeptOut(out, c, id, End(s.sessions[id]))
  {
    RunKeepsInv(Start(start), run, c);
    SignOutKeepsOut(Run(Start(start), run, c), c, id, delete, revoke);
  }

  lemma {:induction false} RunOneMore(s: State, run: seq<Action>, a: Action, c: Config)
    requires Sound(c) && Legal(s, run, c) && Enabled(Run(s, run, c), a)
    ensures Legal(s, run + [a], c) && Run(s, run + [a], c) == Apply(Run(s, run, c), a, c)
    decreases |run|
  {
    if run == [] {
      assert [a][1..] == [];
      assert [] + [a] == [a];
      assert Legal(Apply(s, a, c), [a][1..], c);
    } else {
      RunOneMore(Apply(s, run[0], c), run[1..], a, c);
      assert (run + [a])[1..] == run[1..] + [a];
    }
  }

  /** Extends a run by one action, for building runs step by step. */
  lemma Extend(s0: State, run: seq<Action>, s: State, a: Action, c: Config) returns (run': seq<Action>, s': State)
    requires Sound(c) && Legal(s0, run, c) && Run(s0, run, c) == s && Enabled(s, a)
    ensures run' == run + [a] && s' == Apply(s, a, c)
    ensures Legal(s0, run', c) && Run(s0, run', c) == s'
  {
    RunOneMore(s0, run, a, c);
    run', s' := run + [a], Apply(s, a, c);
  }

  lemma NewRequest(used: set<nat>) returns (r: nat)
    ensures r !in used
  {
    r := Above(used);
  }

  lemma Above(used: set<nat>) returns (r: nat)
    ensures forall x :: x in used ==> x < r
    decreases |used|
  {
    if used == {} {
      r := 0;
    } else {
      var x :| x in used;
      var y := Above(used - {x});
      r := if x < y then y else x + 1;
      forall z | z in used ensures z < r {
        if z != x { assert z in used - {x}; }
      }
    }
  }

  /** Once the revocation has lapsed and the session has not, a request passes. */
  lemma SlipsThrough(s: State, c: Config, id: string, r: nat) returns (run: seq<Action>)
    requires Sound(c) && id in s.sessions && id != "" && r !in s.requests
    requires id in s.revoked && s.now <= s.revoked[id] < End(s.sessions[id])
    ensures Legal(s, run, c) && ChecksSucceed(run)
    ensures PassesBefore(Run(s, run, c), id, End(s.sessions[id]), s.requests.Keys)
  {
    var at := s;
    run, at := Extend(s, [], s, Tick(s.revoked[id] - s.now), c);
    run, at := Extend(s, run, at, Open(r, id), c);
    run, at := Extend(s, run, at, Get(r), c);
    run, at := Extend(s, run, at, Verify(r, true, Succeeds), c);
    run, at := Extend(s, run, at, Check(r, false), c);
    assert at.requests[r] == Passed(id, s.revoked[id]);
  }
}
