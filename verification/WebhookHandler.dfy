/** The webhook handler as it runs, one delivery at a time; overlap is the protocol in Webhook. */
module WebhookHandler {
  import opened Common
  import W = Webhook

  /** The fates of the statements of one delivery. */
  datatype Faults = Faults(record: Fate, resolve: Fate, emit: Fate, subject: Fate, platform: Fate)

  datatype Reply = AcceptedReply | DuplicateReply | BadRequest | Unauthorized | Failure

  class Handler {
    var recorded: set<string>
    var emitted: seq<W.Emission>
    var revoked: seq<W.Revocation>
    const signingKey: string
    const skipVerify: bool

    constructor (signingKey: string, skipVerify: bool)
      ensures recorded == {} && emitted == [] && revoked == []
      ensures this.signingKey == signingKey && this.skipVerify == skipVerify
    {
      this.signingKey, this.skipVerify := signingKey, skipVerify;
      recorded, emitted, revoked := {}, [], [];
    }

    ghost predicate Shows(s: W.State)
      reads this
    {
      s.recorded == recorded && s.emitted == emitted && s.revoked == revoked
    }

    /** INSERT ... ON CONFLICT DO NOTHING; first tells whether a row was written. */
    method TryRecord(key: string, fate: Fate) returns (first: bool, ok: bool)
      modifies this
      ensures ok <==> fate.Succeeds?
      ensures ok ==> (first <==> key !in old(recorded))
      ensures recorded == if fate.FailsBefore? then old(recorded) else old(recorded) + {key}
      ensures emitted == old(emitted) && revoked == old(revoked)
    {
      if fate.FailsBefore? { return false, false; }
      first := key !in recorded;
      recorded := recorded + {key};
      ok := fate.Succeeds?;
    }

    method Emit(e: W.Emission, fate: Fate) returns (ok: bool)
      modifies this
      ensures ok <==> fate.Succeeds?
      ensures emitted == if fate.FailsBefore? then old(emitted) else old(emitted) + [e]
      ensures recorded == old(recorded) && revoked == old(revoked)
    {
      if fate.FailsBefore? { return false; }
      emitted := emitted + [e];
      ok := fate.Succeeds?;
    }

    method RevokeSubject(r: W.Revocation, fate: Fate) returns (ok: bool)
      modifies this
      ensures ok <==> fate.Succeeds?
      ensures revoked == if fate.FailsBefore? then old(revoked) else old(revoked) + [r]
      ensures recorded == old(recorded) && emitted == old(emitted)
    {
      if fate.FailsBefore? { return false; }
      revoked := revoked + [r];
      ok := fate.Succeeds?;
    }

    /** The protocol action for a statement with the given fate. */
    ghost function Act(c: nat, fate: Fate, resolved: string): (a: W.Action) {
      match fate
      case Succeeds => W.Succeed(c, resolved)
      case FailsBefore => W.Fail(c)
      case ReplyLost => W.LoseReply(c)
    }

    /** The run so far shows the tables, with the call at the given place. */
    ghost predicate At(s0: W.State, trace: seq<W.Action>, c: nat, p: W.Payload, pc: W.Pc)
      reads this
    {
      W.Legal(s0, trace) && Shows(W.Run(s0, trace))
      && c in W.Run(s0, trace).calls && W.Run(s0, trace).calls[c] == W.Call(p, pc)
    }

    /** The audit event, where the payload has one. */
    method Audit(p: W.Payload, user: string, fate: Fate, ghost c: nat, ghost s0: W.State, ghost done: seq<W.Action>)
      returns (ok: bool, ghost trace: seq<W.Action>)
      requires At(s0, done, c, p, W.Emitting(user))
      modifies this
      ensures At(s0, trace, c, p, if ok then W.RevokingSubject(user) else W.Answered(W.ServerError, user))
      ensures ok <==> fate.Succeeds? || forall kind: string :: !W.IsAuditedAs(p.event, kind)
      ensures recorded == old(recorded) && revoked == old(revoked)
      ensures emitted == old(emitted) ||
              (!fate.FailsBefore? && exists kind: string ::
                W.IsAuditedAs(p.event, kind) && emitted == old(emitted) + [W.Emission(W.DeliveryKey(p), kind, p, user)])
      ensures !fate.FailsBefore? && (exists kind: string :: W.IsAuditedAs(p.event, kind)) ==> emitted != old(emitted)
    {
      forall kind: string { W.AuditedExactly(p.event, kind); }
      ghost var s := W.Run(s0, done);
      ok := true;
      ghost var a := W.Succeed(c, "");
      if W.AuditType(p.event).Some? {
        ok := Emit(W.Emission(W.DeliveryKey(p), W.AuditType(p.event).value, p, user), fate);
        a := Act(c, fate, "");
      }
      trace, s := W.Extend(s0, done, s, a);
    }

    /** The Logto subject of a deleted user. */
    method RevokeLogto(p: W.Payload, user: string, fate: Fate, ghost c: nat, ghost s0: W.State, ghost done: seq<W.Action>)
      returns (ok: bool, ghost trace: seq<W.Action>)
      requires At(s0, done, c, p, W.RevokingSubject(user))
      modifies this
      ensures At(s0, trace, c, p, if ok then W.RevokingPlatform(user) else W.Answered(W.ServerError, user))
      ensures ok <==> fate.Succeeds? || p.event != "User.Deleted" || p.userId == ""
      ensures recorded == old(recorded) && emitted == old(emitted)
      ensures revoked == if p.event == "User.Deleted" && p.userId != "" && !fate.FailsBefore?
                         then old(revoked) + [W.Revocation(W.DeliveryKey(p), false, p.userId)] else old(revoked)
    {
      ghost var s := W.Run(s0, done);
      ok := true;
      ghost var a := W.Succeed(c, "");
      if W.RevokesSubject(p) {
        ok := RevokeSubject(W.Revocation(W.DeliveryKey(p), false, p.userId), fate);
        a := Act(c, fate, "");
      }
      trace, s := W.Extend(s0, done, s, a);
    }

    /** The platform user of a deleted user. */
    method RevokePlatform(p: W.Payload, user: string, fate: Fate, ghost c: nat, ghost s0: W.State, ghost done: seq<W.Action>)
      returns (ok: bool, ghost trace: seq<W.Action>)
      requires At(s0, done, c, p, W.RevokingPlatform(user))
      modifies this
      ensures At(s0, trace, c, p, if ok then W.Answered(W.Accepted, user) else W.Answered(W.ServerError, user))
      ensures ok <==> fate.Succeeds? || p.event != "User.Deleted" || user == ""
      ensures recorded == old(recorded) && emitted == old(emitted)
      ensures revoked == if p.event == "User.Deleted" && user != "" && !fate.FailsBefore?
                         then old(revoked) + [W.Revocation(W.DeliveryKey(p), true, user)] else old(revoked)
    {
      ghost var s := W.Run(s0, done);
      ok := true;
      ghost var a := W.Succeed(c, "");
      if W.RevokesPlatform(p, user) {
        ok := RevokeSubject(W.Revocation(W.DeliveryKey(p), true, user), fate);
        a := Act(c, fate, "");
      }
      trace, s := W.Extend(s0, done, s, a);
    }

    /** Whether every effect that applies to the payload succeeds. */
    ghost predicate EffectsSucceed(p: W.Payload, user: string, f: Faults) {
      && ((exists kind: string :: W.IsAuditedAs(p.event, kind)) ==> f.emit.Succeeds?)
      && (p.event == "User.Deleted" && p.userId != "" ==> f.subject.Succeeds?)
      && (p.event == "User.Deleted" && user != "" ==> f.platform.Succeeds?)
    }

    /** What an accepted delivery has done, and what no delivery of other events does. */
    twostate predicate Did(p: W.Payload, user: string, reply: Reply)
      reads this
    {
      && (p.event != "User.Deleted" ==> revoked == old(revoked))
      && (reply == AcceptedReply && p.event == "User.Deleted" ==>
            revoked == old(revoked)
                       + (if p.userId != "" then [W.Revocation(W.DeliveryKey(p), false, p.userId)] else [])
                       + (if user != "" then [W.Revocation(W.DeliveryKey(p), true, user)] else []))
      && (reply == AcceptedReply ==> forall kind: string :: W.IsAuditedAs(p.event, kind) ==>
            emitted == old(emitted) + [W.Emission(W.DeliveryKey(p), kind, p, user)])
      && ((forall kind: string :: !W.IsAuditedAs(p.event, kind)) ==> emitted == old(emitted))
    }

    /** From the audit event on: emit, then revoke. */
    method ActOn(p: W.Payload, user: string, f: Faults, ghost c: nat, ghost s0: W.State, ghost done: seq<W.Action>)
      returns (reply: Reply, ghost trace: seq<W.Action>)
      requires At(s0, done, c, p, W.Emitting(user))
      modifies this
      ensures reply == if EffectsSucceed(p, user, f) then AcceptedReply else Failure
      ensures At(s0, trace, c, p,
                 if reply.AcceptedReply? then W.Answered(W.Accepted, user) else W.Answered(W.ServerError, user))
      ensures Did(p, user, reply)
    {
      var ok;
      ok, trace := Audit(p, user, f.emit, c, s0, done);
      if !ok { return Failure, trace; }
      ok, trace := RevokeLogto(p, user, f.subject, c, s0, trace);
      if !ok { return Failure, trace; }
      ok, trace := RevokePlatform(p, user, f.platform, c, s0, trace);
      return if ok then AcceptedReply else Failure, trace;
    }

    /** One delivery: body is the payload if it parses, genuine says that its signature matches,
        and resolved is what the identity store would return. */
    method ServeHTTP(body: Option<W.Payload>, genuine: bool, resolved: string, f: Faults, ghost c: nat, ghost s: W.State)
      returns (reply: Reply, ghost trace: seq<W.Action>)
      requires Shows(s) && c !in s.calls
      modifies this
      ensures W.Legal(s, trace) && Shows(W.Run(s, trace))
      ensures signingKey != "" && !genuine ==> reply == Unauthorized && trace == []
      ensures signingKey == "" && !skipVerify ==> reply == Failure && trace == []
      ensures (signingKey != "" && genuine) || (signingKey == "" && skipVerify) ==>
                if body.None? then reply == BadRequest && trace == []
                else var user := if body.value.userId != "" && f.resolve.Succeeds? then resolved else "";
                     c in W.Run(s, trace).calls
                     && var call := W.Run(s, trace).calls[c];
                        call.payload == body.value && call.pc.Answered?
                        && (reply == AcceptedReply <==> call.pc.status.Accepted?)
                        && (reply == DuplicateReply <==> call.pc.status.Duplicate?)
                        && (reply == DuplicateReply <==>
                              f.record.Succeeds? && W.DeliveryKey(body.value) in old(recorded))
                        && (reply == AcceptedReply <==>
                              && f.record.Succeeds? && W.DeliveryKey(body.value) !in old(recorded)
                              && EffectsSucceed(body.value, user, f))
                        && Did(body.value, user, reply)
    {
      trace := [];
      if signingKey != "" {
        if !genuine { return Unauthorized, trace; }
      } else if !skipVerify {
        return Failure, trace;
      }
      if body.None? { return BadRequest, trace; }
      var p := body.value;
      ghost var t := s;
      trace, t := W.Extend(s, trace, t, W.Receive(c, p));
      var first, ok := TryRecord(W.DeliveryKey(p), f.record);
      trace, t := W.Extend(s, trace, t, Act(c, f.record, ""));
      if !ok { return Failure, trace; }
      if !first { return DuplicateReply, trace; }
      var user := if p.userId != "" && f.resolve.Succeeds? then resolved else "";
      trace, t := W.Extend(s, trace, t, if p.userId != "" then Act(c, f.resolve, resolved) else W.Succeed(c, ""));
      reply, trace := ActOn(p, user, f, c, s, trace);
    }
  }
}
