/** Logto webhook deliveries: record the delivery key, then act. Any number of deliveries are
    handled at once, and any of them may stop at any point. */
module Webhook {
  import opened Common
  import T = Text

  const USER_DELETED := "User.Deleted"

  /** A verified payload; userId is what logtoUserID finds, empty when there is none, and details the
      rest of what an audit event is made of: the user record and the client's address. */
  datatype Payload = Payload(hookId: string, event: string, createdAt: string, userId: string, details: string)

  function DeliveryKey(p: Payload): (key: string) { p.hookId + ":" + p.createdAt + ":" + p.event }

  function AuditType(event: string): (t: Option<string>) {
    match event
    case "PostSignIn" => Some("user.login.success")
    case "PostRegister" => Some("user.register.success")
    case "PostResetPassword" => Some("user.password.reset")
    case "Identifier.Lockout" => Some("user.login.failed")
    case "User.Created" => Some("user.created")
    case "User.Deleted" => Some("user.deleted")
    case _ => None
  }

  // When two deliveries have one key.

  lemma KeyParts(p: Payload)
    requires ':' !in p.hookId && ':' !in p.event
    ensures T.Split(DeliveryKey(p), ':') == [p.hookId] + T.Split(p.createdAt, ':') + [p.event]
  {
    T.SplitWithout(p.hookId, ':');
    T.SplitWithout(p.event, ':');
    T.SplitAcross(p.hookId, p.createdAt, ':');
    T.SplitAcross(p.hookId + ":" + p.createdAt, p.event, ':');
  }

  /** With no colon in hook ids and event names the key identifies the delivery, colons in the
      timestamp notwithstanding; with colons there, two deliveries can share a key. */
  lemma DeliveryKeyIdentifies(p: Payload, q: Payload)
    requires ':' !in p.hookId && ':' !in q.hookId && ':' !in p.event && ':' !in q.event
    ensures DeliveryKey(p) == DeliveryKey(q) <==>
            p.hookId == q.hookId && p.createdAt == q.createdAt && p.event == q.event
  {
    KeyParts(p);
    KeyParts(q);
    var sp, sq := T.Split(p.createdAt, ':'), T.Split(q.createdAt, ':');
    if DeliveryKey(p) == DeliveryKey(q) {
      var whole := T.Split(DeliveryKey(p), ':');
      assert whole[0] == p.hookId == q.hookId;
      assert whole[|whole| - 1] == p.event == q.event;
      assert whole[1..|whole| - 1] == sp == sq;
      T.JoinSplit(p.createdAt, ':');
      T.JoinSplit(q.createdAt, ':');
    }
  }

  lemma ColonsConfuse()
    ensures DeliveryKey(Payload("a", "e", "b:c", "", "")) == DeliveryKey(Payload("a:b", "e", "c", "", ""))
  {}

  // The protocol.

  datatype Status = Accepted | Duplicate | ServerError

  /** Where a delivery is. platform is the resolved user, empty when there is none. */
  datatype Pc =
    | Recording
    | Resolving
    | Emitting(platform: string)
    | RevokingSubject(platform: string)
    | RevokingPlatform(platform: string)
    | Answered(status: Status, platform: string)

  datatype Call = Call(payload: Payload, pc: Pc)

  /** A subject put on the blocklist for a delivery: the Logto subject, or the platform user. */
  datatype Revocation = Revocation(key: string, platform: bool, subject: string)

  /** An audit event that got out: its type, and what it was made of; its id is made of the key alone. */
  datatype Emission = Emission(key: string, kind: string, payload: Payload, platform: string)

  /** recorded: webhook_deliveries; passed: which call was first with which key; emitted: each audit
      event that got out; revoked: each revocation that took effect. */
  datatype State = State(recorded: set<string>, passed: seq<(nat, string)>, emitted: seq<Emission>,
                         revoked: seq<Revocation>, calls: map<nat, Call>)

  /** Succeed: the call's next statement works; resolved is the user the identity store would
      return. Fail: it fails without effect; LoseReply: it takes effect but is reported failed.
      Stop: the handler dies. */
  datatype Action =
    | Receive(call: nat, payload: Payload)
    | Succeed(call: nat, resolved: string)
    | Fail(call: nat)
    | LoseReply(call: nat)
    | Stop(call: nat)

  predicate Busy(s: State, c: nat) { c in s.calls && !s.calls[c].pc.Answered? }

  /** Whether there is a statement to issue: resolving, emitting and revoking are skipped where they do
      not apply, and then cannot fail. */
  predicate Issues(call: Call) {
    match call.pc
    case Recording => true
    case Resolving => call.payload.userId != ""
    case Emitting(_) => AuditType(call.payload.event).Some?
    case RevokingSubject(_) => RevokesSubject(call.payload)
    case RevokingPlatform(user) => RevokesPlatform(call.payload, user)
    case Answered(_, _) => false
  }

  predicate Enabled(s: State, a: Action) {
    match a
    case Receive(c, _) => c !in s.calls
    case Fail(c) => Busy(s, c) && Issues(s.calls[c])
    case LoseReply(c) => Busy(s, c) && Issues(s.calls[c])
    case _ => Busy(s, a.call)
  }

  /** The platform user a call has resolved, empty when there is none. */
  function PlatformOf(pc: Pc): (user: string) {
    match pc
    case Recording => ""
    case Resolving => ""
    case Emitting(platform) => platform
    case RevokingSubject(platform) => platform
    case RevokingPlatform(platform) => platform
    case Answered(_, platform) => platform
  }

  function Key(call: Call): (key: string) { DeliveryKey(call.payload) }

  /** Deleting a user revokes the Logto subject and the platform user, where there is one. */
  predicate RevokesSubject(p: Payload) { p.event == USER_DELETED && p.userId != "" }

  predicate RevokesPlatform(p: Payload, user: string) { p.event == USER_DELETED && user != "" }

  /** What the call's statement does to the tables; emitting and revoking are skipped where
      they do not apply. */
  function Effect(s: State, call: Call): (s': State) {
    var key := Key(call);
    match call.pc
    case Recording => s.(recorded := s.recorded + {key})
    case Emitting(user) =>
      var kind := AuditType(call.payload.event);
      if kind.Some? then s.(emitted := s.emitted + [Emission(key, kind.value, call.payload, user)]) else s
    case RevokingSubject(_) =>
      if RevokesSubject(call.payload) then s.(revoked := s.revoked + [Revocation(key, false, call.payload.userId)]) else s
    case RevokingPlatform(user) =>
      if RevokesPlatform(call.payload, user) then s.(revoked := s.revoked + [Revocation(key, true, user)]) else s
    case _ => s
  }

  /** TryRecord reports the first insert of a key. */
  function Passed(s: State, c: nat, call: Call): (passed: seq<(nat, string)>) {
    if call.pc.Recording? && Key(call) !in s.recorded then s.passed + [(c, Key(call))] else s.passed
  }

  function NextPc(s: State, call: Call, resolved: string): (pc: Pc) {
    match call.pc
    case Recording => if Key(call) in s.recorded then Answered(Duplicate, "") else Resolving
    case Resolving => Emitting(if call.payload.userId != "" then resolved else "")
    case Emitting(platform) => RevokingSubject(platform)
    case RevokingSubject(platform) => RevokingPlatform(platform)
    case RevokingPlatform(platform) => Answered(Accepted, platform)
    case pc => pc
  }

  /** A failed resolution leaves the platform user empty and goes on; any other failure answers
      with an error. */
  function FailPc(call: Call): (pc: Pc) {
    if call.pc.Resolving? then Emitting("") else Answered(ServerError, PlatformOf(call.pc))
  }

  function Apply(s: State, a: Action): (s': State)
    requires Enabled(s, a)
  {
    if a.Receive? then s.(calls := s.calls[a.call := Call(a.payload, Recording)])
    else
      var call := s.calls[a.call];
      match a
      case Succeed(c, resolved) =>
        Effect(s, call).(passed := Passed(s, c, call), calls := s.calls[c := call.(pc := NextPc(s, call, resolved))])
      case Fail(c) => s.(calls := s.calls[c := call.(pc := FailPc(call))])
      case LoseReply(c) => Effect(s, call).(calls := s.calls[c := call.(pc := FailPc(call))])
      case Stop(c) => s.(calls := s.calls[c := call.(pc := Answered(ServerError, PlatformOf(call.pc)))])
  }

  predicate Legal(s: State, run: seq<Action>)
    decreases |run|
  {
    run == [] || (Enabled(s, run[0]) && Legal(Apply(s, run[0]), run[1..]))
  }

  function Run(s: State, run: seq<Action>): (s': State)
    requires Legal(s, run)
    decreases |run|
  {
    if run == [] then s else Run(Apply(s, run[0]), run[1..])
  }

  const EMPTY := State({}, [], [], [], map[])

  // What every run keeps.

  /** How far a call has got. */
  function Rank(pc: Pc): (n: nat) {
    match pc
    case Recording => 0
    case Resolving => 1
    case Emitting(_) => 2
    case RevokingSubject(_) => 3
    case RevokingPlatform(_) => 4
    case Answered(_, _) => 5
  }

  /** Past TryRecord and not over. */
  predicate Acting(call: Call) { 0 < Rank(call.pc) < 5 }

  /** The call that was first with the key has got beyond the given rank. */
  predicate PasserBeyond(s: State, key: string, rank: nat) {
    exists c :: c in s.calls && (c, key) in s.passed && Rank(s.calls[c].pc) > rank
  }

  /** The call that was first with the key emitted the event, from its own payload. */
  predicate EmittedByPasser(s: State, e: Emission) {
    exists c :: c in s.calls && (c, e.key) in s.passed && Rank(s.calls[c].pc) > 2
      && s.calls[c].payload == e.payload && PlatformOf(s.calls[c].pc) == e.platform
      && AuditType(e.payload.event) == Some(e.kind) && e.key == DeliveryKey(e.payload)
  }

  /** The call that was first with the key revoked the subject, which its own payload or resolved user
      names. */
  predicate RevokedByPasser(s: State, r: Revocation) {
    exists c :: c in s.calls && (c, r.key) in s.passed && Rank(s.calls[c].pc) > (if r.platform then 4 else 3)
      && s.calls[c].payload.event == USER_DELETED && r.subject != ""
      && r.subject == (if r.platform then PlatformOf(s.calls[c].pc) else s.calls[c].payload.userId)
  }

  predicate DistinctPassers(passed: seq<(nat, string)>) {
    forall i, j :: 0 <= i < j < |passed| ==> passed[i].1 != passed[j].1
  }

  predicate DistinctEmits(emitted: seq<Emission>) {
    forall i, j :: 0 <= i < j < |emitted| ==> emitted[i].key != emitted[j].key
  }

  predicate DistinctRevocations(revoked: seq<Revocation>) {
    forall i, j :: 0 <= i < j < |revoked| ==> revoked[i].key != revoked[j].key || revoked[i].platform != revoked[j].platform
  }

  predicate Emitted(s: State, p: Payload, user: string) {
    AuditType(p.event).Some? ==> Emission(DeliveryKey(p), AuditType(p.event).value, p, user) in s.emitted
  }

  predicate SubjectRevoked(s: State, p: Payload) {
    RevokesSubject(p) ==> Revocation(DeliveryKey(p), false, p.userId) in s.revoked
  }

  predicate PlatformRevoked(s: State, p: Payload, user: string) {
    RevokesPlatform(p, user) ==> Revocation(DeliveryKey(p), true, user) in s.revoked
  }

  predicate CallInv(s: State, c: nat, call: Call) {
    && (Acting(call) || (call.pc.Answered? && call.pc.status.Accepted?) ==> (c, Key(call)) in s.passed)
    && (call.pc.RevokingSubject? || call.pc.RevokingPlatform? ==> Emitted(s, call.payload, call.pc.platform))
    && (call.pc.RevokingPlatform? ==> SubjectRevoked(s, call.payload))
    && (call.pc.Answered? && call.pc.status.Accepted? ==>
          Emitted(s, call.payload, call.pc.platform) && SubjectRevoked(s, call.payload)
          && PlatformRevoked(s, call.payload, call.pc.platform))
    && (call.pc.Answered? && call.pc.status.Duplicate? ==> Key(call) in s.recorded)
  }

  /** Who passed is past the record, and was not answered as a duplicate. */
  predicate PasserOk(s: State, p: (nat, string)) {
    && p.1 in s.recorded && p.0 in s.calls && Key(s.calls[p.0]) == p.1
    && Rank(s.calls[p.0].pc) > 0 && (s.calls[p.0].pc.Answered? ==> !s.calls[p.0].pc.status.Duplicate?)
  }

  ghost predicate Inv(s: State) {
    && DistinctPassers(s.passed) && DistinctEmits(s.emitted) && DistinctRevocations(s.revoked)
    && (forall p :: p in s.passed ==> PasserOk(s, p))
    && (forall e :: e in s.emitted ==> EmittedByPasser(s, e))
    && (forall r :: r in s.revoked ==> RevokedByPasser(s, r))
    && (forall c :: c in s.calls ==> CallInv(s, c, s.calls[c]))
  }

  /** A call at its effect is its key's only passer, so no one has had that effect before. */
  lemma NotYet(s: State, c: nat, rank: nat)
    requires Inv(s) && c in s.calls && Acting(s.calls[c]) && Rank(s.calls[c].pc) <= rank
    ensures !PasserBeyond(s, Key(s.calls[c]), rank)
  {}

  lemma PassersStay(s: State, a: Action, key: string, rank: nat)
    requires Inv(s) && Enabled(s, a) && PasserBeyond(s, key, rank)
    ensures PasserBeyond(Apply(s, a), key, rank)
  {}

  lemma PassersStayDistinct(s: State, a: Action)
    requires Inv(s) && Enabled(s, a)
    ensures DistinctPassers(Apply(s, a).passed)
  {
    assert forall i :: 0 <= i < |s.passed| ==> s.passed[i] in s.passed;
  }

  /** Its key's only passer has not emitted yet. */
  lemma NotEmitted(s: State, c: nat)
    requires Inv(s) && c in s.calls && s.calls[c].pc.Emitting?
    ensures forall e :: e in s.emitted ==> e.key != Key(s.calls[c])
  {
    assert CallInv(s, c, s.calls[c]);
    forall e | e in s.emitted ensures e.key != Key(s.calls[c]) {
      assert EmittedByPasser(s, e);
    }
  }

  lemma EmitsStayDistinct(s: State, a: Action)
    requires Inv(s) && Enabled(s, a)
    ensures DistinctEmits(Apply(s, a).emitted)
  {
    if !a.Receive? && s.calls[a.call].pc.Emitting? {
      NotEmitted(s, a.call);
      assert forall i :: 0 <= i < |s.emitted| ==> s.emitted[i] in s.emitted;
    }
  }

  /** Its key's only passer has not revoked yet. */
  lemma NotRevoked(s: State, c: nat)
    requires Inv(s) && c in s.calls
    ensures s.calls[c].pc.RevokingSubject? ==> forall r :: r in s.revoked && r.key == Key(s.calls[c]) ==> r.platform
    ensures s.calls[c].pc.RevokingPlatform? ==> forall r :: r in s.revoked && r.key == Key(s.calls[c]) ==> !r.platform
  {
    if Acting(s.calls[c]) && Rank(s.calls[c].pc) >= 3 { NotYet(s, c, Rank(s.calls[c].pc)); }
  }

  lemma AppendedRevocation(revoked: seq<Revocation>, r: Revocation)
    requires DistinctRevocations(revoked)
    requires forall x :: x in revoked && x.key == r.key ==> x.platform != r.platform
    ensures DistinctRevocations(revoked + [r])
  {
    assert forall i :: 0 <= i < |revoked| ==> revoked[i] in revoked;
  }

  lemma RevocationsStayDistinct(s: State, a: Action)
    requires Inv(s) && Enabled(s, a)
    ensures DistinctRevocations(Apply(s, a).revoked)
  {
    if !a.Receive? {
      var call := s.calls[a.call];
      NotRevoked(s, a.call);
      if call.pc.RevokingSubject? {
        AppendedRevocation(s.revoked, Revocation(Key(call), false, call.payload.userId));
      } else if call.pc.RevokingPlatform? {
        AppendedRevocation(s.revoked, Revocation(Key(call), true, call.pc.platform));
      }
    }
  }

  lemma PassersAreKnown(s: State, a: Action)
    requires Inv(s) && Enabled(s, a)
    ensures var s' := Apply(s, a);
            forall p :: p in s'.passed ==> PasserOk(s', p)
  {}

  /** A passer at its effects keeps payload and platform user, and does not go back. */
  lemma PasserKeeps(s: State, a: Action, c: nat, key: string)
    requires Inv(s) && Enabled(s, a) && (c, key) in s.passed && c in s.calls && Rank(s.calls[c].pc) > 2
    ensures var s' := Apply(s, a);
            && (c, key) in s'.passed && c in s'.calls && s'.calls[c].payload == s.calls[c].payload
            && Rank(s'.calls[c].pc) >= Rank(s.calls[c].pc) && PlatformOf(s'.calls[c].pc) == PlatformOf(s.calls[c].pc)
  {}

  lemma EmitterStays(s: State, a: Action, e: Emission)
    requires Inv(s) && Enabled(s, a) && EmittedByPasser(s, e)
    ensures EmittedByPasser(Apply(s, a), e)
  {
    var c :| c in s.calls && (c, e.key) in s.passed && Rank(s.calls[c].pc) > 2
      && s.calls[c].payload == e.payload && PlatformOf(s.calls[c].pc) == e.platform;
    PasserKeeps(s, a, c, e.key);
  }

  lemma EmitsHavePassers(s: State, a: Action)
    requires Inv(s) && Enabled(s, a)
    ensures forall e :: e in Apply(s, a).emitted ==> EmittedByPasser(Apply(s, a), e)
  {
    var s' := Apply(s, a);
    if !a.Receive? { assert CallInv(s, a.call, s.calls[a.call]); }
    forall e | e in s'.emitted ensures EmittedByPasser(s', e) {
      if e in s.emitted {
        EmitterStays(s, a, e);
      } else {
        assert (a.call, e.key) in s'.passed && s'.calls[a.call].payload == e.payload;
      }
    }
  }

  lemma RevokerStays(s: State, a: Action, r: Revocation)
    requires Inv(s) && Enabled(s, a) && RevokedByPasser(s, r)
    ensures RevokedByPasser(Apply(s, a), r)
  {
    var c :| c in s.calls && (c, r.key) in s.passed && Rank(s.calls[c].pc) > (if r.platform then 4 else 3)
      && s.calls[c].payload.event == USER_DELETED && r.subject != ""
      && r.subject == (if r.platform then PlatformOf(s.calls[c].pc) else s.calls[c].payload.userId);
    PasserKeeps(s, a, c, r.key);
  }

  lemma RevocationsHavePassers(s: State, a: Action)
    requires Inv(s) && Enabled(s, a)
    ensures forall r :: r in Apply(s, a).revoked ==> RevokedByPasser(Apply(s, a), r)
  {
    var s' := Apply(s, a);
    if !a.Receive? { assert CallInv(s, a.call, s.calls[a.call]); }
    forall r | r in s'.revoked ensures RevokedByPasser(s', r) {
      if r in s.revoked {
        RevokerStays(s, a, r);
      } else {
        assert (a.call, r.key) in s'.passed;
      }
    }
  }

  lemma OwnCallStays(s: State, a: Action)
    requires Enabled(s, a) && (a.call in s.calls ==> CallInv(s, a.call, s.calls[a.call]))
    ensures CallInv(Apply(s, a), a.call, Apply(s, a).calls[a.call])
  {}

  lemma OtherCallStays(s: State, a: Action, c: nat)
    requires Enabled(s, a) && c in s.calls && c != a.call && CallInv(s, c, s.calls[c])
    ensures CallInv(Apply(s, a), c, Apply(s, a).calls[c])
  {}

  lemma CallsStay(s: State, a: Action, c: nat)
    requires Inv(s) && Enabled(s, a) && c in Apply(s, a).calls
    ensures CallInv(Apply(s, a), c, Apply(s, a).calls[c])
  {
    if c == a.call { OwnCallStays(s, a); } else { OtherCallStays(s, a, c); }
  }

  lemma StepKeepsInv(s: State, a: Action)
    requires Inv(s) && Enabled(s, a)
    ensures Inv(Apply(s, a))
  {
    PassersStayDistinct(s, a);
    EmitsStayDistinct(s, a);
    RevocationsStayDistinct(s, a);
    PassersAreKnown(s, a);
    EmitsHavePassers(s, a);
    RevocationsHavePassers(s, a);
    forall c | c in Apply(s, a).calls ensures CallInv(Apply(s, a), c, Apply(s, a).calls[c]) { CallsStay(s, a, c); }
  }

  lemma {:induction false} RunKeepsInv(s: State, run: seq<Action>)
    requires Inv(s) && Legal(s, run)
    ensures Inv(Run(s, run))
    decreases |run|
  {
    if run != [] {
      StepKeepsInv(s, run[0]);
      RunKeepsInv(Apply(s, run[0]), run[1..]);
    }
  }

  /** In every run: at most one call per key passes TryRecord; per key at most one audit event
      gets out and each kind of revocation takes effect at most once; "accepted" means every
      applicable effect is there; "duplicate" means the key is recorded. An audit event repeats the
      payload of the call that passed. */
  lemma AtMostOnce(run: seq<Action>)
    requires Legal(EMPTY, run)
    ensures var s := Run(EMPTY, run);
            && DistinctPassers(s.passed) && DistinctEmits(s.emitted) && DistinctRevocations(s.revoked)
            && (forall e :: e in s.emitted ==> EmittedByPasser(s, e))
            && (forall c :: c in s.calls && s.calls[c].pc.Answered? && s.calls[c].pc.status.Accepted? ==>
                  Emitted(s, s.calls[c].payload, s.calls[c].pc.platform) && SubjectRevoked(s, s.calls[c].payload)
                  && PlatformRevoked(s, s.calls[c].payload, s.calls[c].pc.platform))
            && (forall c :: c in s.calls && s.calls[c].pc.Answered? && s.calls[c].pc.status.Duplicate? ==>
                  Key(s.calls[c]) in s.recorded)
  {
    RunKeepsInv(EMPTY, run);
    var s := Run(EMPTY, run);
    forall c | c in s.calls ensures CallInv(s, c, s.calls[c]) {}
  }

  // The effects, written out.

  /** The audit event type of each webhook event that has one. */
  predicate IsAuditedAs(event: string, kind: string) {
    || (event == "PostSignIn" && kind == "user.login.success")
    || (event == "PostRegister" && kind == "user.register.success")
    || (event == "PostResetPassword" && kind == "user.password.reset")
    || (event == "Identifier.Lockout" && kind == "user.login.failed")
    || (event == "User.Created" && kind == "user.created")
    || (event == "User.Deleted" && kind == "user.deleted")
  }

  lemma AuditedExactly(event: string, kind: string)
    ensures IsAuditedAs(event, kind) <==> AuditType(event) == Some(kind)
  {}

  predicate Accepts(call: Call) { call.pc.Answered? && call.pc.status.Accepted? }

  /** Whom a call has resolved, if anyone, is known from its own resolution alone. */
  lemma {:induction false} PlatformIsResolved(s: State, run: seq<Action>, c: nat)
    requires Legal(s, run) && c in Run(s, run).calls && PlatformOf(Run(s, run).calls[c].pc) != ""
    requires c in s.calls && s.calls[c].payload.userId == "" ==> PlatformOf(s.calls[c].pc) == ""
    ensures var call := Run(s, run).calls[c];
            && call.payload.userId != ""
            && ((c in s.calls && PlatformOf(s.calls[c].pc) == PlatformOf(call.pc)) || Succeed(c, PlatformOf(call.pc)) in run)
    decreases |run|
  {
    if run != [] {
      PlatformIsResolved(Apply(s, run[0]), run[1..], c);
    }
  }

  /** In every run: the platform user of a call is one that the identity store returned to that very call,
      whose payload names a user. */
  lemma PlatformsAreResolved(run: seq<Action>, c: nat)
    requires Legal(EMPTY, run) && c in Run(EMPTY, run).calls && PlatformOf(Run(EMPTY, run).calls[c].pc) != ""
    ensures var call := Run(EMPTY, run).calls[c];
            call.payload.userId != "" && Succeed(c, PlatformOf(call.pc)) in run
  {
    PlatformIsResolved(EMPTY, run, c);
  }

  /** The first of two ids is of a platform user, the second of a Logto subject. */
  predicate Blocks(s: State, p: Payload, user: string) {
    && (user != "" ==> exists r :: r in s.revoked && r.platform && r.subject == user && r.key == DeliveryKey(p))
    && (p.userId != "" ==> exists r :: r in s.revoked && !r.platform && r.subject == p.userId && r.key == DeliveryKey(p))
  }

  /** In every run: an accepted deletion of a user has that user on the blocklist, as platform user if one
      was resolved and as Logto subject if the payload names one; an accepted delivery of an event that
      is audited has its audit event, of the type for it. */
  lemma AcceptedMeans(run: seq<Action>, c: nat)
    requires Legal(EMPTY, run) && c in Run(EMPTY, run).calls && Accepts(Run(EMPTY, run).calls[c])
    ensures var s, p, user := Run(EMPTY, run), Run(EMPTY, run).calls[c].payload, Run(EMPTY, run).calls[c].pc.platform;
            && (p.event == "User.Deleted" ==> Blocks(s, p, user))
            && forall kind: string :: IsAuditedAs(p.event, kind) ==> Emission(DeliveryKey(p), kind, p, user) in s.emitted
  {
    RunKeepsInv(EMPTY, run);
    var s := Run(EMPTY, run);
    var p, user := s.calls[c].payload, s.calls[c].pc.platform;
    assert CallInv(s, c, s.calls[c]);
    forall kind: string | IsAuditedAs(p.event, kind) ensures Emission(DeliveryKey(p), kind, p, user) in s.emitted {
      AuditedExactly(p.event, kind);
    }
  }

  /** The call is about the deletion of the user that was revoked. */
  predicate DeletionNames(call: Call, r: Revocation) {
    && call.payload.event == "User.Deleted" && r.key == DeliveryKey(call.payload) && r.subject != ""
    && r.subject == (if r.platform then PlatformOf(call.pc) else call.payload.userId)
  }

  /** In every run, conversely: every revocation is of the user that a deletion names, or that was
      resolved for it, and every audit event is of the type for the event it comes from. */
  lemma EffectsAreAskedFor(run: seq<Action>)
    requires Legal(EMPTY, run)
    ensures var s := Run(EMPTY, run);
            && (forall r :: r in s.revoked ==> exists c :: c in s.calls && DeletionNames(s.calls[c], r))
            && (forall e :: e in s.emitted ==> IsAuditedAs(e.payload.event, e.kind) && e.key == DeliveryKey(e.payload))
  {
    RunKeepsInv(EMPTY, run);
    var s := Run(EMPTY, run);
    forall r | r in s.revoked ensures exists c :: c in s.calls && DeletionNames(s.calls[c], r) {
      assert RevokedByPasser(s, r);
      var c :| c in s.calls && (c, r.key) in s.passed && s.calls[c].payload.event == USER_DELETED && r.subject != ""
        && r.subject == (if r.platform then PlatformOf(s.calls[c].pc) else s.calls[c].payload.userId);
      assert PasserOk(s, (c, r.key));
      assert DeletionNames(s.calls[c], r);
    }
    forall e | e in s.emitted ensures IsAuditedAs(e.payload.event, e.kind) && e.key == DeliveryKey(e.payload) {
      assert EmittedByPasser(s, e);
      AuditedExactly(e.payload.event, e.kind);
    }
  }

  // A delivery whose first handler stopped is lost: redelivery does not repair it.

  /** The key is recorded and no call is acting on it. */
  predicate Settled(s: State, key: string) {
    key in s.recorded && forall c :: c in s.calls && Acting(s.calls[c]) ==> Key(s.calls[c]) != key
  }

  predicate RevokedFor(s: State, key: string) { exists r :: r in s.revoked && r.key == key }

  lemma {:induction false} SettledForever(s: State, run: seq<Action>, key: string)
    requires Settled(s, key) && Legal(s, run)
    ensures var s' := Run(s, run);
            && Settled(s', key)
            && (forall e: Emission :: e.key == key ==> (e in s'.emitted <==> e in s.emitted))
            && (RevokedFor(s', key) <==> RevokedFor(s, key))
    decreases |run|
  {
    if run != [] {
      var s1 := Apply(s, run[0]);
      assert Settled(s1, key);
      assert forall e: Emission :: e.key == key ==> (e in s1.emitted <==> e in s.emitted);
      assert forall r: Revocation :: r.key == key ==> (r in s1.revoked <==> r in s.revoked);
      SettledForever(s1, run[1..], key);
    }
  }

  // When a "duplicate" tells the truth.

  /** Every effect that applies to the call is there. */
  predicate AllEffects(s: State, call: Call) {
    var p, user := call.payload, PlatformOf(call.pc);
    Emitted(s, p, user) && SubjectRevoked(s, p) && PlatformRevoked(s, p, user)
  }

  /** Some effect that applies to the call is still to come. */
  predicate Owes(call: Call) {
    var p, user := call.payload, PlatformOf(call.pc);
    match call.pc
    case Recording => true
    case RevokingSubject(_) => RevokesSubject(p) || RevokesPlatform(p, user)
    case RevokingPlatform(_) => RevokesPlatform(p, user)
    case Answered(_, _) => false
    case _ => AuditType(p.event).Some? || RevokesSubject(p) || RevokesPlatform(p, user)
  }

  /** No effect is reported failed that took place, and no handler dies between its last effect and
      its answer. */
  predicate Clean(s: State, a: Action) {
    && (a.LoseReply? && Busy(s, a.call) ==> s.calls[a.call].pc.Recording? || s.calls[a.call].pc.Resolving?)
    && (a.Stop? && Busy(s, a.call) ==> Owes(s.calls[a.call]))
  }

  predicate CleanRun(s: State, run: seq<Action>)
    requires Legal(s, run)
    decreases |run|
  {
    run == [] || (Clean(s, run[0]) && CleanRun(Apply(s, run[0]), run[1..]))
  }

  predicate FailedPasser(s: State, c: nat)
    requires c in s.calls
  {
    s.calls[c].pc.Answered? && s.calls[c].pc.status.ServerError? && (c, Key(s.calls[c])) in s.passed
  }

  /** Calls that passed the record and failed lack an effect. */
  predicate FailuresLack(s: State) {
    forall c :: c in s.calls && FailedPasser(s, c) ==> !AllEffects(s, s.calls[c])
  }

  /** What an acting call has not come to is not there. */
  lemma NoneYet(s: State, c: nat)
    requires Inv(s) && c in s.calls && Acting(s.calls[c])
    ensures Rank(s.calls[c].pc) <= 2 ==> forall e :: e in s.emitted ==> e.key != Key(s.calls[c])
    ensures Rank(s.calls[c].pc) <= 3 ==> forall r :: r in s.revoked && r.key == Key(s.calls[c]) ==> r.platform
    ensures forall r :: r in s.revoked && r.key == Key(s.calls[c]) ==> !r.platform
  {
    assert CallInv(s, c, s.calls[c]);
    forall e | e in s.emitted && Rank(s.calls[c].pc) <= 2 ensures e.key != Key(s.calls[c]) {
      assert EmittedByPasser(s, e);
    }
    if Rank(s.calls[c].pc) <= 3 { NotYet(s, c, 3); }
    NotYet(s, c, 4);
  }

  /** A call that fails or dies where it owes an effect lacks it: no one else can have had it. */
  lemma FailureLacks(s: State, a: Action)
    requires Inv(s) && Enabled(s, a) && Clean(s, a) && !a.Receive? && Acting(s.calls[a.call])
    requires var call := Apply(s, a).calls[a.call]; call.pc.Answered? && call.pc.status.ServerError?
    ensures !AllEffects(Apply(s, a), Apply(s, a).calls[a.call])
  {
    var call := s.calls[a.call];
    NoneYet(s, a.call);
  }

  /** What others do leaves a key alone that another call has passed the record with. */
  lemma OthersLeaveKey(s: State, a: Action, d: nat)
    requires Enabled(s, a) && !a.Receive? && d != a.call && d in s.calls
    requires DistinctPassers(s.passed) && CallInv(s, a.call, s.calls[a.call])
    requires (d, Key(s.calls[d])) in s.passed
    ensures AllEffects(Apply(s, a), s.calls[d]) <==> AllEffects(s, s.calls[d])
  {
    var key := Key(s.calls[d]);
    if Acting(s.calls[a.call]) {
      assert (a.call, Key(s.calls[a.call])) in s.passed;
      assert Key(s.calls[a.call]) != key;
    }
  }

  lemma StepKeepsFailuresLack(s: State, a: Action)
    requires Inv(s) && Enabled(s, a) && Clean(s, a) && FailuresLack(s)
    ensures FailuresLack(Apply(s, a))
  {
    var s' := Apply(s, a);
    forall c | c in s'.calls && FailedPasser(s', c) ensures !AllEffects(s', s'.calls[c]) {
      if c != a.call {
        assert (c, Key(s.calls[c])) in s.passed;
        if !a.Receive? {
          assert CallInv(s, a.call, s.calls[a.call]);
          OthersLeaveKey(s, a, c);
        }
      } else {
        PasserActs(s, a);
        FailureLacks(s, a);
      }
    }
  }

  /** A call that fails and is among those that passed was past the record before. */
  lemma PasserActs(s: State, a: Action)
    requires Inv(s) && Enabled(s, a) && !a.Receive?
    requires var call := Apply(s, a).calls[a.call]; call.pc.Answered? && call.pc.status.ServerError?
    requires (a.call, Key(s.calls[a.call])) in Apply(s, a).passed
    ensures Acting(s.calls[a.call])
  {
    var p := (a.call, Key(s.calls[a.call]));
    assert p in s.passed ==> PasserOk(s, p);
  }

  lemma {:induction false} CleanRunKeepsFailuresLack(s: State, run: seq<Action>)
    requires Inv(s) && FailuresLack(s) && Legal(s, run) && CleanRun(s, run)
    ensures Inv(Run(s, run)) && FailuresLack(Run(s, run))
    decreases |run|
  {
    if run != [] {
      StepKeepsInv(s, run[0]);
      StepKeepsFailuresLack(s, run[0]);
      CleanRunKeepsFailuresLack(Apply(s, run[0]), run[1..]);
    }
  }

  /** The call that passed the record with the key has had all its effects. */
  predicate HandledFor(s: State, key: string) {
    exists c :: c in s.calls && (c, key) in s.passed && AllEffects(s, s.calls[c])
  }

  predicate AcceptedFor(s: State, key: string) {
    exists c :: c in s.calls && Key(s.calls[c]) == key && s.calls[c].pc.Answered? && s.calls[c].pc.status.Accepted?
  }

  /** In every run in which no effect's reply is lost and no handler dies between its last effect and
      its answer: the call that passed the record with a settled key has had all its effects if and only
      if some call with the key was answered "accepted". */
  lemma HandledExactlyWhenAccepted(run: seq<Action>, key: string)
    requires Legal(EMPTY, run) && CleanRun(EMPTY, run) && Settled(Run(EMPTY, run), key)
    ensures HandledFor(Run(EMPTY, run), key) <==> AcceptedFor(Run(EMPTY, run), key)
  {
    CleanRunKeepsFailuresLack(EMPTY, run);
    var s := Run(EMPTY, run);
    if AcceptedFor(s, key) {
      var c :| c in s.calls && Key(s.calls[c]) == key && s.calls[c].pc.Answered? && s.calls[c].pc.status.Accepted?;
      assert CallInv(s, c, s.calls[c]);
      assert (c, key) in s.passed && AllEffects(s, s.calls[c]);
    }
    if HandledFor(s, key) {
      var c :| c in s.calls && (c, key) in s.passed && AllEffects(s, s.calls[c]);
      PasserIsOver(s, c, key);
    }
  }

  /** The effects that a payload itself asks for are there, for some resolved user. */
  predicate EffectsFor(s: State, p: Payload, user: string) {
    Emitted(s, p, user) && SubjectRevoked(s, p) && PlatformRevoked(s, p, user)
  }

  ghost predicate Served(s: State, p: Payload) { exists user :: EffectsFor(s, p, user) }

  /** Some call with this very payload was accepted. */
  predicate AcceptedPayload(s: State, p: Payload) {
    exists c :: c in s.calls && s.calls[c].payload == p && s.calls[c].pc.Answered? && s.calls[c].pc.status.Accepted?
  }

  /** The exact condition for a call answered "duplicate": the key leaves out the user and the details,
      so in such a run what its own payload asks for is there if and only if it asks for nothing, or a
      call with the very same payload was accepted. */
  lemma DuplicateIsTrueExactly(run: seq<Action>, d: nat)
    requires Legal(EMPTY, run) && CleanRun(EMPTY, run) && d in Run(EMPTY, run).calls
    requires var call := Run(EMPTY, run).calls[d];
             call.pc.Answered? && call.pc.status.Duplicate? && Settled(Run(EMPTY, run), Key(call))
    ensures var s := Run(EMPTY, run);
            var p := s.calls[d].payload;
            Served(s, p) <==> AuditType(p.event).None? || AcceptedPayload(s, p)
  {
    CleanRunKeepsFailuresLack(EMPTY, run);
    var s := Run(EMPTY, run);
    var p := s.calls[d].payload;
    if AuditType(p.event).None? {
      assert EffectsFor(s, p, "");
    } else if AcceptedPayload(s, p) {
      var c :| c in s.calls && s.calls[c].payload == p && s.calls[c].pc.Answered? && s.calls[c].pc.status.Accepted?;
      assert CallInv(s, c, s.calls[c]);
      assert EffectsFor(s, p, s.calls[c].pc.platform);
    }
    if Served(s, p) && AuditType(p.event).Some? {
      var user :| EffectsFor(s, p, user);
      var c := PasserOf(s, Emission(DeliveryKey(p), AuditType(p.event).value, p, user));
      PasserIsOver(s, c, DeliveryKey(p));
      assert AllEffects(s, s.calls[c]);
    }
  }

  lemma PasserOf(s: State, e: Emission) returns (c: nat)
    requires Inv(s) && e in s.emitted
    ensures c in s.calls && (c, e.key) in s.passed && s.calls[c].payload == e.payload
    ensures PlatformOf(s.calls[c].pc) == e.platform
  {
    assert EmittedByPasser(s, e);
    c :| c in s.calls && (c, e.key) in s.passed && Rank(s.calls[c].pc) > 2
      && s.calls[c].payload == e.payload && PlatformOf(s.calls[c].pc) == e.platform;
  }

  /** Once a key is settled the call that passed with it is over, and was not a duplicate. */
  lemma PasserIsOver(s: State, c: nat, key: string)
    requires Inv(s) && Settled(s, key) && c in s.calls && (c, key) in s.passed
    ensures Key(s.calls[c]) == key && s.calls[c].pc.Answered? && !s.calls[c].pc.status.Duplicate?
  {
    assert PasserOk(s, (c, key));
  }

  /** Extends a run by one action that loses nothing. */
  lemma ExtendClean(run: seq<Action>, s: State, a: Action) returns (run': seq<Action>, s': State)
    requires Legal(EMPTY, run) && CleanRun(EMPTY, run) && s == Run(EMPTY, run) && Enabled(s, a) && Clean(s, a)
    ensures run' == run + [a] && Legal(EMPTY, run') && s' == Run(EMPTY, run') == Apply(s, a) && CleanRun(EMPTY, run')
  {
    run', s' := Extend(EMPTY, run, s, a);
    CleanOneMore(EMPTY, run, a);
  }

  lemma {:induction false} CleanOneMore(s: State, run: seq<Action>, a: Action)
    requires Legal(s, run) && CleanRun(s, run) && Enabled(Run(s, run), a) && Clean(Run(s, run), a)
    ensures Legal(s, run + [a]) && CleanRun(s, run + [a])
    decreases |run|
  {
    RunOneMore(s, run, a);
    if run == [] {
      assert [a][1..] == [];
    } else {
      CleanOneMore(Apply(s, run[0]), run[1..], a);
      assert (run + [a])[1..] == run[1..] + [a];
    }
  }

  lemma DeletionBegins(p: Payload) returns (run: seq<Action>)
    requires p.event == USER_DELETED && p.userId != ""
    ensures Legal(EMPTY, run) && CleanRun(EMPTY, run)
    ensures Run(EMPTY, run) == State({DeliveryKey(p)}, [(0, DeliveryKey(p))], [], [], map[0 := Call(p, Emitting(""))])
  {
    var t := EMPTY;
    run := [];
    run, t := ExtendClean(run, t, Receive(0, p));
    run, t := ExtendClean(run, t, Succeed(0, ""));
    run, t := ExtendClean(run, t, Succeed(0, ""));
    assert t.calls == map[0 := Call(p, Emitting(""))];
  }

  /** A deletion handled without fault, up to its answer. */
  lemma DeletionAccepted(p: Payload) returns (run: seq<Action>)
    requires p.event == USER_DELETED && p.userId != ""
    ensures Legal(EMPTY, run) && CleanRun(EMPTY, run)
    ensures var s := Run(EMPTY, run);
            && s.calls == map[0 := Call(p, Answered(Accepted, ""))] && s.recorded == {DeliveryKey(p)}
            && s.emitted == [Emission(DeliveryKey(p), "user.deleted", p, "")]
            && s.revoked == [Revocation(DeliveryKey(p), false, p.userId)]
  {
    run := DeletionBegins(p);
    var t := Run(EMPTY, run);
    run, t := ExtendClean(run, t, Succeed(0, ""));
    assert t.calls == map[0 := Call(p, RevokingSubject(""))];
    run, t := ExtendClean(run, t, Succeed(0, ""));
    run, t := ExtendClean(run, t, Succeed(0, ""));
    assert t.calls == map[0 := Call(p, Answered(Accepted, ""))];
  }

  /** Two users deleted at one time by one hook share a key: without any fault the second deletion is
      answered "duplicate", and what it asks for never happens. */
  lemma SharedKeyLosesUser(p: Payload, q: Payload) returns (run: seq<Action>)
    requires p.event == USER_DELETED && p.userId != "" && q == p.(userId := q.userId) && q.userId != p.userId
    ensures Legal(EMPTY, run) && CleanRun(EMPTY, run)
    ensures var s := Run(EMPTY, run);
            && s.calls == map[0 := Call(p, Answered(Accepted, "")), 1 := Call(q, Answered(Duplicate, ""))]
            && Settled(s, DeliveryKey(q)) && AcceptedFor(s, DeliveryKey(q)) && !Served(s, q)
  {
    run := DeletionAccepted(p);
    var t := Run(EMPTY, run);
    run, t := ExtendClean(run, t, Receive(1, q));
    run, t := ExtendClean(run, t, Succeed(1, ""));
    assert t.calls == map[0 := Call(p, Answered(Accepted, "")), 1 := Call(q, Answered(Duplicate, ""))];
    assert t.calls[0].pc.status.Accepted? && Key(t.calls[0]) == DeliveryKey(q);
  }

  /** In general only one direction holds: an audit event that got out although its reply was lost. */
  lemma LostReplyHandles(p: Payload) returns (run: seq<Action>)
    requires AuditType(p.event).Some? && p.event != USER_DELETED
    ensures Legal(EMPTY, run) && Settled(Run(EMPTY, run), DeliveryKey(p))
    ensures HandledFor(Run(EMPTY, run), DeliveryKey(p)) && !AcceptedFor(Run(EMPTY, run), DeliveryKey(p))
  {
    run := [];
    var t;
    run, t := Extend(EMPTY, run, EMPTY, Receive(0, p));
    run, t := Extend(EMPTY, run, t, Succeed(0, ""));
    run, t := Extend(EMPTY, run, t, Succeed(0, ""));
    run, t := Extend(EMPTY, run, t, LoseReply(0));
    assert t.calls[0].pc.Answered? && t.calls.Keys == {0} && (0, DeliveryKey(p)) in t.passed;
    assert AllEffects(t, t.calls[0]);
  }

  /** A first handler that fails to emit, and a redelivery answered "duplicate" although nothing
      was emitted or revoked. */
  lemma DuplicateHidesLoss(p: Payload) returns (run: seq<Action>)
    requires AuditType(p.event).Some?
    ensures Legal(EMPTY, run)
    ensures var s := Run(EMPTY, run);
            && 1 in s.calls && s.calls[1] == Call(p, Answered(Duplicate, ""))
            && s.emitted == [] && s.revoked == [] && Settled(s, DeliveryKey(p))
  {
    run := [];
    var t;
    run, t := Extend(EMPTY, run, EMPTY, Receive(0, p));
    run, t := Extend(EMPTY, run, t, Succeed(0, ""));
    run, t := Extend(EMPTY, run, t, Succeed(0, ""));
    run, t := Extend(EMPTY, run, t, Fail(0));
    run, t := Extend(EMPTY, run, t, Receive(1, p));
    run, t := Extend(EMPTY, run, t, Succeed(1, ""));
    assert t.calls == map[0 := Call(p, Answered(ServerError, "")), 1 := Call(p, Answered(Duplicate, ""))];
  }

  lemma Extend(s0: State, run: seq<Action>, s: State, a: Action) returns (run': seq<Action>, s': State)
    requires Legal(s0, run) && s == Run(s0, run) && Enabled(s, a)
    ensures run' == run + [a] && Legal(s0, run') && s' == Run(s0, run') == Apply(s, a)
  {
    run', s' := run + [a], Apply(s, a);
    RunOneMore(s0, run, a);
  }

  lemma {:induction false} RunOneMore(s: State, run: seq<Action>, a: Action)
    requires Legal(s, run) && Enabled(Run(s, run), a)
    ensures Legal(s, run + [a]) && Run(s, run + [a]) == Apply(Run(s, run), a)
    decreases |run|
  {
    if run == [] {
      assert [a][1..] == [];
    } else {
      RunOneMore(Apply(s, run[0]), run[1..], a);
      assert (run + [a])[1..] == run[1..] + [a];
    }
  }
}
