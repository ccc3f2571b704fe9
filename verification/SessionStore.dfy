/** The gateway's session handlers as they run against Redis, one at a time; overlapping requests
    are the protocol in Sessions. */
module SessionStore {
  import opened Common
  import S = Sessions

  /** The fates of the Redis calls of one authentication. */
  datatype Faults = Faults(get: Fate, delete: Fate, lookup: Fate)

  class Gateway {
    var now: int
    var sessions: map<string, S.Entry>
    var revoked: map<string, int>
    const config: S.Config

    constructor (config: S.Config, now: int)
      ensures this.config == config && Shows(S.Start(now))
    {
      this.config, this.now := config, now;
      sessions, revoked := map[], map[];
    }

    ghost predicate Shows(s: S.State)
      reads this
    {
      s.now == now && s.sessions == sessions && s.revoked == revoked
    }

    method Save(id: string, data: S.Data, fate: Fate) returns (ok: bool)
      requires S.Sound(config)
      modifies this`sessions
      ensures ok <==> fate.Succeeds?
      ensures sessions == if fate.FailsBefore? then old(sessions)
                          else old(sessions)[id := S.Entry(data, now + S.Lifetime(config, data, now))]
    {
      if fate.FailsBefore? { return false; }
      var ttl := config.sessionTtl;
      if data.expiresAt != 0 {
        var d := data.expiresAt - now;
        if d > 0 && d < ttl { ttl := d; }
      }
      sessions := sessions[id := S.Entry(data, now + ttl)];
      ok := fate.Succeeds?;
    }

    /** newId is the random id drawn; the session may exist although the caller sees an error. */
    method Create(newId: string, data: S.Data, fate: Fate, ghost s: S.State)
      returns (id: Option<string>, ghost trace: seq<S.Action>)
      requires S.Sound(config) && Shows(s) && S.Enabled(s, S.Create(newId, data))
      modifies this`sessions
      ensures S.Legal(s, trace, config) && Shows(S.Run(s, trace, config))
      ensures id == if fate.Succeeds? then Some(newId) else None
      ensures id.Some? ==> newId in S.Run(s, trace, config).created
      ensures id.Some? ==> (S.Alive(sessions, newId, now) <==> data.expiresAt == 0 || now <= data.expiresAt)
    {
      trace := [];
      ghost var s1 := s;
      var ok := Save(newId, data, fate);
      if !fate.FailsBefore? {
        trace, s1 := S.Extend(s, trace, s, S.Create(newId, data), config);
      }
      id := if ok then Some(newId) else None;
    }

    method Delete(id: string, fate: Fate) returns (ok: bool)
      modifies this`sessions
      ensures ok <==> id == "" || fate.Succeeds?
      ensures sessions == if id == "" || fate.FailsBefore? then old(sessions) else old(sessions) - {id}
    {
      if id == "" { return true; }
      if fate.FailsBefore? { return false; }
      sessions := sessions - {id};
      ok := fate.Succeeds?;
    }

    /** Get; a session past its ExpiresAt is deleted on the way. */
    method Get(id: string, get: Fate, delete: Fate) returns (data: Option<S.Data>)
      modifies this`sessions
      ensures get.Succeeds? ==> (data.Some? <==> id != "" && S.Alive(old(sessions), id, now))
      ensures !get.Succeeds? ==> data.None?
      ensures data.Some? ==> sessions == old(sessions) && data.value == sessions[id].data
      ensures sessions == old(sessions) || (sessions == old(sessions) - {id} && !delete.FailsBefore?)
      ensures sessions != old(sessions) ==> id != "" && !S.Alive(old(sessions), id, now)
    {
      if id == "" { return None; }
      if !get.Succeeds? || id !in sessions || now >= sessions[id].keyExpiry { return None; }
      var found := sessions[id].data;
      if found.expiresAt != 0 && now > found.expiresAt {
        var _ := Delete(id, delete);
        return None;
      }
      data := Some(found);
    }

    /** RevokeSession, for a cookie that is not empty. */
    method Revoke(id: string, fate: Fate) returns (ok: bool)
      modifies this`revoked
      ensures ok <==> fate.Succeeds?
      ensures revoked == if fate.FailsBefore? then old(revoked) else old(revoked)[id := now + config.revocationTtl]
    {
      if fate.FailsBefore? { return false; }
      revoked := revoked[id := now + config.revocationTtl];
      ok := fate.Succeeds?;
    }

    /** IsSessionRevoked; None is a lookup error. */
    method IsRevoked(id: string, fate: Fate) returns (r: Option<bool>)
      ensures r == if fate.Succeeds? then Some(S.Revoked(revoked, id, now)) else None
    {
      if !fate.Succeeds? { return None; }
      r := Some(id in revoked && now < revoked[id]);
    }

    /** Sign-out with the cookie's value, if there is one. It reports nothing; whenever either call
        took effect and revocations last as long as sessions, the cookie is kept out. */
    method SignOut(cookie: Option<string>, delete: Fate, revoke: Fate, ghost s: S.State)
      returns (ghost trace: seq<S.Action>)
      requires S.Sound(config) && Shows(s) && S.Inv(s, config)
      modifies this`sessions, this`revoked
      ensures S.Legal(s, trace, config) && Shows(S.Run(s, trace, config))
      ensures cookie.GetOr("") == "" ==> trace == []
      ensures cookie.GetOr("") != "" && cookie.value in s.sessions && now < S.End(s.sessions[cookie.value])
              && config.sessionTtl <= config.revocationTtl && (!delete.FailsBefore? || !revoke.FailsBefore?) ==>
                S.KeptOut(S.Run(s, trace, config), config, cookie.value, S.End(s.sessions[cookie.value]))
    {
      trace := [];
      if cookie.None? || cookie.value == "" { return; }
      var id := cookie.value;
      ghost var s1 := s;
      var _ := Delete(id, delete);
      trace, s1 := S.Extend(s, trace, s1, S.Delete(id, delete), config);
      var _ := Revoke(id, revoke);
      trace, s1 := S.Extend(s, trace, s1, S.Revoke(id, revoke), config);
      if id in s.sessions && now < S.End(s.sessions[id]) && config.sessionTtl <= config.revocationTtl
         && (!delete.FailsBefore? || !revoke.FailsBefore?) {
        S.SignOutKeepsOut(s, config, id, delete, revoke);
      }
    }

    /** IdentityFromRequest: load the session and verify its token, deleting the session of a bad
        one. genuine says that the token verifies. */
    method Identify(cookie: string, genuine: bool, f: Faults, ghost r: nat, ghost s: S.State)
      returns (known: bool, ghost trace: seq<S.Action>)
      requires S.Sound(config) && Shows(s) && r !in s.requests
      modifies this`sessions
      ensures S.Legal(s, trace, config) && Shows(S.Run(s, trace, config))
      ensures known <==> cookie != "" && f.get.Succeeds? && S.Alive(old(sessions), cookie, now) && genuine
      ensures known ==> sessions == old(sessions) && S.Run(s, trace, config).requests == s.requests[r := S.Verified(cookie)]
      ensures cookie != "" && f.get.Succeeds? && S.Alive(old(sessions), cookie, now) && !genuine ==>
                sessions == if f.delete.FailsBefore? then old(sessions) else old(sessions) - {cookie}
      ensures !known ==> r !in S.Run(s, trace, config).requests || S.Run(s, trace, config).requests[r].Denied?
    {
      trace := [];
      if cookie == "" { return false, trace; }
      ghost var s1 := s;
      var data := Get(cookie, f.get, f.delete);
      if data.None? {
        if sessions != old(sessions) {
          trace, s1 := S.Extend(s, trace, s1, S.Delete(cookie, f.delete), config);
        }
        return false, trace;
      }
      trace, s1 := S.Extend(s, trace, s1, S.Open(r, cookie), config);
      trace, s1 := S.Extend(s, trace, s1, S.Get(r), config);
      if !genuine {
        var _ := Delete(cookie, f.delete);
        trace, s1 := S.Extend(s, trace, s1, S.Verify(r, false, f.delete), config);
        return false, trace;
      }
      trace, s1 := S.Extend(s, trace, s1, S.Verify(r, true, Succeeds), config);
      known := true;
    }

    /** checkRevocation for a request whose cookie names a session; subjectRevoked is what the
        subject lookup reports. A lookup error lets the request pass. */
    method CheckRevocation(cookie: string, subjectRevoked: bool, lookup: Fate, ghost r: nat, ghost s: S.State)
      returns (denied: bool, ghost check: S.Action)
      requires S.Sound(config) && Shows(s) && r in s.requests && s.requests[r] == S.Verified(cookie)
      ensures denied <==> (lookup.Succeeds? && S.Revoked(revoked, cookie, now)) || subjectRevoked
      ensures S.Enabled(s, check) && Shows(S.Apply(s, check, config))
      ensures S.Apply(s, check, config).requests == s.requests[r := if denied then S.Denied else S.Passed(cookie, now)]
    {
      var revocation := IsRevoked(cookie, lookup);
      denied := revocation == Some(true) || subjectRevoked;
      check := if denied || revocation.Some? then S.Check(r, subjectRevoked) else S.CheckFails(r);
    }

    /** A request for a sensitive path with a session cookie. */
    method Authenticate(cookie: string, genuine: bool, subjectRevoked: bool, f: Faults, ghost r: nat, ghost s: S.State)
      returns (passed: bool, ghost trace: seq<S.Action>)
      requires S.Sound(config) && Shows(s) && r !in s.requests
      modifies this`sessions
      ensures S.Legal(s, trace, config) && Shows(S.Run(s, trace, config))
      ensures passed <==> cookie != "" && f.get.Succeeds? && S.Alive(old(sessions), cookie, now) && genuine
                          && !(f.lookup.Succeeds? && S.Revoked(revoked, cookie, now)) && !subjectRevoked
      ensures passed ==> S.Run(s, trace, config).requests == s.requests[r := S.Passed(cookie, now)]
      ensures !passed ==> r !in S.Run(s, trace, config).requests || S.Run(s, trace, config).requests[r].Denied?
    {
      var known;
      known, trace := Identify(cookie, genuine, f, r, s);
      if !known { return false, trace; }
      ghost var s1 := S.Run(s, trace, config);
      var denied;
      ghost var check;
      denied, check := CheckRevocation(cookie, subjectRevoked, f.lookup, r, s1);
      trace, s1 := S.Extend(s, trace, s1, check, config);
      passed := !denied;
    }
  }
}
