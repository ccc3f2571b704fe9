/** The RabbitMQ path: a work queue with a dead-letter queue, its consumers, and the table of
    job effects. One action is one broker move, one handler call, or one channel loss. */
module JobQueue {
  import opened Common
  import opened AuditEvents

  /** A message body as mq.ParseJob finds it. */
  datatype Body = Malformed | Carries(job: Job)

  function ParseJob(body: Body): (job: Option<Job>) {
    if body.Carries? && body.job.kind != "" && body.job.id != "" then Some(body.job) else None
  }

  /** A row of worker_job_effects, whose primary key is the job id. */
  datatype Effect = Effect(jobId: string, kind: string, tenant: string, actor: string, resource: string,
                           payload: map<string, Json>)

  predicate IsItemJob(job: Job) { job.kind == CREATED || job.kind == UPDATED || job.kind == DELETED }

  /** requireString: an empty text is as bad as none. */
  function RequireString(payload: map<string, Json>, key: string): (r: Option<string>) {
    if TextField(payload, key) == "" then None else Some(TextField(payload, key))
  }

  /** The jobs that leave an effect: item jobs that name their item. */
  predicate NamesItem(job: Job) { IsItemJob(job) && RequireString(job.payload, "item_id").Some? }

  function EffectOf(job: Job): (e: Effect) {
    Effect(job.id, job.kind, job.tenant, job.actor, TextField(job.payload, "item_id"), job.payload)
  }

  predicate HasEffect(effects: seq<Effect>, jobId: string) { exists e :: e in effects && e.jobId == jobId }

  /** INSERT ... ON CONFLICT (job_id) DO NOTHING. */
  function Record(effects: seq<Effect>, e: Effect): (r: seq<Effect>) {
    if HasEffect(effects, e.jobId) then effects else effects + [e]
  }

  /** The effect table after the router handled a job, fate being that of the insert. */
  function EffectsAfter(effects: seq<Effect>, job: Job, fate: Fate): (r: seq<Effect>) {
    if NamesItem(job) && !fate.FailsBefore? then Record(effects, EffectOf(job)) else effects
  }

  /** Whether the router reports success: pings and unknown kinds always succeed. */
  predicate HandlerSucceeds(job: Job, fate: Fate) {
    IsItemJob(job) ==> NamesItem(job) && fate.Succeeds?
  }

  /** requeue := deathCount + 1 < MaxRetries. */
  predicate Requeues(deaths: int, maxRetries: int) { deaths + 1 < maxRetries }

  /** A message in a consumer's hands: not handled yet, or handled but not yet answered. */
  datatype Flight = Delivered | Succeeded | Failed

  /** sent: every message ever published; deaths: the sum of its x-death counts; failures: how
      often the handler failed on it. */
  datatype State = State(sent: map<nat, Body>, ready: set<nat>, unacked: map<nat, Flight>, acked: set<nat>,
                         dead: set<nat>, deaths: map<nat, int>, failures: map<nat, nat>, effects: seq<Effect>)

  datatype Action =
    | Publish(msg: nat, body: Body)
    | Deliver(msg: nat)
    | Reject(msg: nat)
    | Handle(msg: nat, fate: Fate)
    | Ack(msg: nat)
    | Nack(msg: nat, newDeaths: int)
    | Lose(msg: nat, newDeaths: int)

  predicate InFlight(s: State, m: nat, flight: Flight) { m in s.unacked && s.unacked[m] == flight }

  predicate Known(s: State, m: nat) { m in s.sent && m in s.deaths && m in s.failures }

  predicate Enabled(s: State, a: Action) {
    match a
    case Publish(m, body) => m !in s.sent
    case Deliver(m) => m in s.ready
    case Reject(m) => Known(s, m) && InFlight(s, m, Delivered) && ParseJob(s.sent[m]).None?
    case Handle(m, fate) => Known(s, m) && InFlight(s, m, Delivered) && ParseJob(s.sent[m]).Some?
    case Ack(m) => InFlight(s, m, Succeeded)
    case Nack(m, _) => Known(s, m) && InFlight(s, m, Failed)
    case Lose(m, _) => m in s.unacked
  }

  function Apply(s: State, a: Action, maxRetries: int): (s': State)
    requires Enabled(s, a)
  {
    match a
    case Publish(m, body) =>
      s.(sent := s.sent[m := body], ready := s.ready + {m}, deaths := s.deaths[m := 0], failures := s.failures[m := 0])
    case Deliver(m) => s.(ready := s.ready - {m}, unacked := s.unacked[m := Delivered])
    case Reject(m) => s.(unacked := s.unacked - {m}, dead := s.dead + {m})
    case Handle(m, fate) =>
      var job := ParseJob(s.sent[m]).value;
      var ok := HandlerSucceeds(job, fate);
      s.(effects := EffectsAfter(s.effects, job, fate),
         unacked := s.unacked[m := if ok then Succeeded else Failed],
         failures := if ok then s.failures else s.failures[m := s.failures[m] + 1])
    case Ack(m) => s.(unacked := s.unacked - {m}, acked := s.acked + {m})
    case Nack(m, newDeaths) =>
      if Requeues(s.deaths[m], maxRetries) then
        s.(unacked := s.unacked - {m}, ready := s.ready + {m}, deaths := s.deaths[m := newDeaths])
      else s.(unacked := s.unacked - {m}, dead := s.dead + {m})
    case Lose(m, newDeaths) =>
      s.(unacked := s.unacked - {m}, ready := s.ready + {m}, deaths := s.deaths[m := newDeaths])
  }

  predicate Legal(s: State, run: seq<Action>, maxRetries: int)
    decreases |run|
  {
    run == [] || (Enabled(s, run[0]) && Legal(Apply(s, run[0], maxRetries), run[1..], maxRetries))
  }

  function Run(s: State, run: seq<Action>, maxRetries: int): (s': State)
    requires Legal(s, run, maxRetries)
    decreases |run|
  {
    if run == [] then s else Run(Apply(s, run[0], maxRetries), run[1..], maxRetries)
  }

  const EMPTY := State(map[], {}, map[], {}, {}, map[], map[], [])

  // Conservation and effects.

  /** In how many places a message is. */
  function Places(s: State, m: nat): (n: nat) {
    (if m in s.ready then 1 else 0) + (if m in s.unacked then 1 else 0)
    + (if m in s.acked then 1 else 0) + (if m in s.dead then 1 else 0)
  }

  /** Every message ever published is in exactly one place, and no other is anywhere. */
  ghost predicate Conserved(s: State) {
    forall m: nat :: Places(s, m) == if m in s.sent then 1 else 0
  }

  predicate DistinctEffects(effects: seq<Effect>) {
    forall i, j :: 0 <= i < j < |effects| ==> effects[i].jobId != effects[j].jobId
  }

  /** A message that was handled with success has its effect, if it is an item job. */
  predicate Honoured(s: State, m: nat) {
    m in s.sent && ParseJob(s.sent[m]).Some?
    && (IsItemJob(s.sent[m].job) ==> NamesItem(s.sent[m].job) && HasEffect(s.effects, s.sent[m].job.id))
  }

  /** The effect is that of a published job. */
  predicate Traced(s: State, e: Effect) {
    exists m :: m in s.sent && ParseJob(s.sent[m]).Some? && NamesItem(s.sent[m].job) && e == EffectOf(s.sent[m].job)
  }

  ghost predicate Inv(s: State) {
    && Conserved(s)
    && s.deaths.Keys == s.sent.Keys && s.failures.Keys == s.sent.Keys
    && DistinctEffects(s.effects)
    && (forall m :: m in s.acked || InFlight(s, m, Succeeded) ==> Honoured(s, m))
    && (forall e :: e in s.effects ==> Traced(s, e))
    && (forall m :: InFlight(s, m, Failed) ==> m in s.sent && ParseJob(s.sent[m]).Some?)
  }

  lemma RecordFacts(effects: seq<Effect>, e: Effect)
    requires DistinctEffects(effects)
    ensures DistinctEffects(Record(effects, e)) && HasEffect(Record(effects, e), e.jobId)
    ensures forall x :: x in Record(effects, e) ==> x in effects || x == e
    ensures effects <= Record(effects, e)
  {}

  lemma StaysTraced(s: State, s': State)
    requires forall m :: m in s.sent ==> m in s'.sent && s'.sent[m] == s.sent[m]
    requires s.effects <= s'.effects
    ensures forall m :: Honoured(s, m) ==> Honoured(s', m)
    ensures forall e :: Traced(s, e) ==> Traced(s', e)
  {}

  lemma StepConserves(s: State, a: Action, maxRetries: int)
    requires Inv(s) && Enabled(s, a)
    ensures Conserved(Apply(s, a, maxRetries))
  {}

  lemma HandleKeepsInv(s: State, m: nat, fate: Fate, maxRetries: int)
    requires Inv(s) && Enabled(s, Handle(m, fate))
    ensures Inv(Apply(s, Handle(m, fate), maxRetries))
    ensures s.effects <= Apply(s, Handle(m, fate), maxRetries).effects
  {
    var s' := Apply(s, Handle(m, fate), maxRetries);
    var job := ParseJob(s.sent[m]).value;
    StepConserves(s, Handle(m, fate), maxRetries);
    RecordFacts(s.effects, EffectOf(job));
    StaysTraced(s, s');
    assert NamesItem(job) ==> Traced(s', EffectOf(job));
  }

  lemma StepKeepsInv(s: State, a: Action, maxRetries: int)
    requires Inv(s) && Enabled(s, a)
    ensures Inv(Apply(s, a, maxRetries))
    ensures s.effects <= Apply(s, a, maxRetries).effects
  {
    if a.Handle? {
      HandleKeepsInv(s, a.msg, a.fate, maxRetries);
    } else {
      StepConserves(s, a, maxRetries);
      StaysTraced(s, Apply(s, a, maxRetries));
    }
  }

  lemma {:induction false} RunKeepsInv(s: State, run: seq<Action>, maxRetries: int)
    requires Inv(s) && Legal(s, run, maxRetries)
    ensures Inv(Run(s, run, maxRetries))
    ensures s.effects <= Run(s, run, maxRetries).effects
    decreases |run|
  {
    if run != [] {
      StepKeepsInv(s, run[0], maxRetries);
      RunKeepsInv(Apply(s, run[0], maxRetries), run[1..], maxRetries);
    }
  }

  // What that means, written out.

  predicate SpeaksOfItems(kind: string) {
    kind == "business.item.created" || kind == "business.item.updated" || kind == "business.item.deleted"
  }

  /** A job with an id and a kind, and the item id in its payload if it is an item job. */
  predicate Complete(body: Body) {
    && body.Carries? && body.job.id != "" && body.job.kind != ""
    && (SpeaksOfItems(body.job.kind) ==> ItemNamed(body.job) != "")
  }

  function ItemNamed(job: Job): (id: string) {
    if "item_id" in job.payload && job.payload["item_id"].JString? then job.payload["item_id"].text else ""
  }

  predicate IsEffectOf(e: Effect, body: Body) {
    && Complete(body) && SpeaksOfItems(body.job.kind)
    && e == Effect(body.job.id, body.job.kind, body.job.tenant, body.job.actor, ItemNamed(body.job), body.job.payload)
  }

  lemma HonouredMeans(s: State, m: nat)
    requires Honoured(s, m)
    ensures m in s.sent && Complete(s.sent[m])
    ensures SpeaksOfItems(s.sent[m].job.kind) ==> exists e :: e in s.effects && e.jobId == s.sent[m].job.id
  {
    if SpeaksOfItems(s.sent[m].job.kind) { assert HasEffect(s.effects, s.sent[m].job.id); }
  }

  lemma TracedMeans(s: State, e: Effect)
    requires Traced(s, e)
    ensures exists m :: m in s.sent && IsEffectOf(e, s.sent[m])
  {
    var m :| m in s.sent && ParseJob(s.sent[m]).Some? && NamesItem(s.sent[m].job) && e == EffectOf(s.sent[m].job);
    assert IsEffectOf(e, s.sent[m]);
  }

  /** In every run: messages are conserved; a job id has at most one effect, whatever is
      redelivered or published twice; an acked message is a complete job and has its effect if it is
      an item job; and every effect is, field by field, that of a published item job. */
  lemma QueueSafety(run: seq<Action>, maxRetries: int)
    requires Legal(EMPTY, run, maxRetries)
    ensures var s := Run(EMPTY, run, maxRetries);
            && Conserved(s) && DistinctEffects(s.effects)
            && (forall m :: m in s.acked ==>
                  && m in s.sent && Complete(s.sent[m])
                  && (SpeaksOfItems(s.sent[m].job.kind) ==> exists e :: e in s.effects && e.jobId == s.sent[m].job.id))
            && (forall e :: e in s.effects ==> exists m :: m in s.sent && IsEffectOf(e, s.sent[m]))
  {
    RunKeepsInv(EMPTY, run, maxRetries);
    var s := Run(EMPTY, run, maxRetries);
    forall m | m in s.acked { HonouredMeans(s, m); }
    forall e | e in s.effects { TracedMeans(s, e); }
  }

  // Retries. The bound depends on what the broker does to x-death.

  /** Every redelivery raises the death count. */
  predicate Counting(s: State, a: Action) {
    match a
    case Nack(m, d) => m in s.deaths && d > s.deaths[m]
    case Lose(m, d) => m in s.deaths && d > s.deaths[m]
    case _ => true
  }

  predicate CountingRun(s: State, run: seq<Action>, maxRetries: int)
    requires Legal(s, run, maxRetries)
    decreases |run|
  {
    run == [] || (Counting(s, run[0]) && CountingRun(Apply(s, run[0], maxRetries), run[1..], maxRetries))
  }

  /** The channel of message m is lost between its failed handler and the nack, so that the broker
      requeues it without MaxRetries being asked. */
  predicate SlipsBack(s: State, a: Action, m: nat) { a.Lose? && a.msg == m && InFlight(s, m, Failed) }

  /** How often that happens in a run. */
  function Slips(s: State, run: seq<Action>, maxRetries: int, m: nat): (n: nat)
    requires Legal(s, run, maxRetries)
    decreases |run|
  {
    if run == [] then 0
    else (if SlipsBack(s, run[0], m) then 1 else 0) + Slips(Apply(s, run[0], maxRetries), run[1..], maxRetries, m)
  }

  /** Failures so far, but for the slips, are covered by deaths, and leave room for one more until the
      last. */
  predicate WithinBound(s: State, m: nat, maxRetries: int, slips: nat) {
    m in s.failures && m in s.deaths ==>
      && 0 <= s.deaths[m]
      && s.failures[m] <= Max(1, maxRetries) + slips
      && (m in s.ready || InFlight(s, m, Delivered) || InFlight(s, m, Succeeded) ==>
            s.failures[m] <= s.deaths[m] + slips && s.failures[m] <= Max(0, maxRetries - 1) + slips)
      && (InFlight(s, m, Failed) ==> s.failures[m] <= s.deaths[m] + 1 + slips)
  }

  lemma StepStaysWithinBound(s: State, a: Action, maxRetries: int, m: nat, slips: nat)
    requires Enabled(s, a) && Counting(s, a) && WithinBound(s, m, maxRetries, slips)
    requires Places(s, m) == if m in s.sent then 1 else 0
    requires s.deaths.Keys == s.sent.Keys == s.failures.Keys
    ensures WithinBound(Apply(s, a, maxRetries), m, maxRetries, slips + if SlipsBack(s, a, m) then 1 else 0)
  {}

  lemma {:induction false} RetriesEnd(s: State, run: seq<Action>, maxRetries: int, m: nat, slips: nat)
    requires Inv(s) && Legal(s, run, maxRetries) && CountingRun(s, run, maxRetries)
    requires WithinBound(s, m, maxRetries, slips)
    ensures WithinBound(Run(s, run, maxRetries), m, maxRetries, slips + Slips(s, run, maxRetries, m))
    decreases |run|
  {
    if run != [] {
      var a := run[0];
      assert Places(s, m) == if m in s.sent then 1 else 0;
      StepKeepsInv(s, a, maxRetries);
      StepStaysWithinBound(s, a, maxRetries, m, slips);
      RetriesEnd(Apply(s, a, maxRetries), run[1..], maxRetries, m, slips + if SlipsBack(s, a, m) then 1 else 0);
    }
  }

  /** If every redelivery raises the death count, the handler fails on a message at most
      max(1, MaxRetries) times, plus once for every time the channel was lost between a failure and
      its nack. */
  lemma FailuresAreBounded(run: seq<Action>, maxRetries: int, m: nat)
    requires Legal(EMPTY, run, maxRetries) && CountingRun(EMPTY, run, maxRetries)
    requires m in Run(EMPTY, run, maxRetries).sent
    ensures var s := Run(EMPTY, run, maxRetries);
            m in s.failures && s.failures[m] <= Max(1, maxRetries) + Slips(EMPTY, run, maxRetries, m)
  {
    RunKeepsInv(EMPTY, run, maxRetries);
    RetriesEnd(EMPTY, run, maxRetries, m, 0);
  }

  /** Every requeue raises the death count by one, and no channel is lost. */
  predicate ExactlyCounting(s: State, a: Action) {
    !a.Lose? && (a.Nack? ==> a.msg in s.deaths && a.newDeaths == s.deaths[a.msg] + 1)
  }

  predicate ExactRun(s: State, run: seq<Action>, maxRetries: int)
    requires Legal(s, run, maxRetries)
    decreases |run|
  {
    run == [] || (ExactlyCounting(s, run[0]) && ExactRun(Apply(s, run[0], maxRetries), run[1..], maxRetries))
  }

  /** How many failures kill a job. */
  function Limit(maxRetries: int): (n: int) { if maxRetries > 1 then maxRetries else 1 }

  /** A job's failures are counted one by one, and none below the limit kills it. */
  predicate CountsFailures(s: State, m: nat, maxRetries: int) {
    m in s.sent && m in s.failures && m in s.deaths && ParseJob(s.sent[m]).Some? ==>
      && s.deaths[m] >= 0 && s.failures[m] == s.deaths[m] + (if InFlight(s, m, Failed) || m in s.dead then 1 else 0)
      && s.failures[m] <= Limit(maxRetries)
      && (m in s.dead ==> s.failures[m] == Limit(maxRetries))
      && (s.failures[m] == Limit(maxRetries) ==> m in s.dead || InFlight(s, m, Failed))
  }

  lemma StepCountsFailures(s: State, a: Action, maxRetries: int, m: nat)
    requires Enabled(s, a) && ExactlyCounting(s, a) && CountsFailures(s, m, maxRetries)
    requires Places(s, m) == if m in s.sent then 1 else 0
    requires s.deaths.Keys == s.sent.Keys == s.failures.Keys
    ensures CountsFailures(Apply(s, a, maxRetries), m, maxRetries)
  {}

  lemma {:induction false} RunCountsFailures(s: State, run: seq<Action>, maxRetries: int, m: nat)
    requires Inv(s) && Legal(s, run, maxRetries) && ExactRun(s, run, maxRetries) && CountsFailures(s, m, maxRetries)
    ensures CountsFailures(Run(s, run, maxRetries), m, maxRetries)
    decreases |run|
  {
    if run != [] {
      assert Places(s, m) == if m in s.sent then 1 else 0;
      StepKeepsInv(s, run[0], maxRetries);
      StepCountsFailures(s, run[0], maxRetries, m);
      RunCountsFailures(Apply(s, run[0], maxRetries), run[1..], maxRetries, m);
    }
  }

  /** If every requeue raises the death count by one, and no channel is lost, a job is dead, or about to
      be nacked for the last time, if and only if its handler has failed MaxRetries times, or once
      if that is less. */
  lemma DiesExactlyAtTheLimit(run: seq<Action>, maxRetries: int, m: nat)
    requires Legal(EMPTY, run, maxRetries) && ExactRun(EMPTY, run, maxRetries)
    requires var s := Run(EMPTY, run, maxRetries); m in s.sent && ParseJob(s.sent[m]).Some?
    ensures var s := Run(EMPTY, run, maxRetries);
            var limit := if maxRetries > 1 then maxRetries else 1;
            && m in s.failures && s.failures[m] <= limit
            && (m in s.dead ==> s.failures[m] == limit)
            && (s.failures[m] == limit ==> m in s.dead || InFlight(s, m, Failed))
  {
    RunKeepsInv(EMPTY, run, maxRetries);
    RunCountsFailures(EMPTY, run, maxRetries, m);
  }

  /** Puts one action before a run, for building runs from their end. */
  lemma Before(s: State, a: Action, rest: seq<Action>, m: nat, maxRetries: int) returns (run: seq<Action>)
    requires Enabled(s, a) && Legal(Apply(s, a, maxRetries), rest, maxRetries)
    ensures run == [a] + rest && Legal(s, run, maxRetries)
    ensures Run(s, run, maxRetries) == Run(Apply(s, a, maxRetries), rest, maxRetries)
    ensures CountingRun(s, run, maxRetries) <==> Counting(s, a) && CountingRun(Apply(s, a, maxRetries), rest, maxRetries)
    ensures Slips(s, run, maxRetries, m) ==
            (if SlipsBack(s, a, m) then 1 else 0) + Slips(Apply(s, a, maxRetries), rest, maxRetries, m)
  {
    run := [a] + rest;
    assert run[1..] == rest;
  }

  /** Such losses do add failures: with MaxRetries of 1 and one of them, two. */
  lemma SlipsCount(body: Body) returns (run: seq<Action>)
    requires ParseJob(body).Some? && IsItemJob(body.job)
    ensures Legal(EMPTY, run, 1) && CountingRun(EMPTY, run, 1) && Slips(EMPTY, run, 1, 0) == 1
    ensures Run(EMPTY, run, 1).failures == map[0 := 2]
  {
    var fail := Handle(0, FailsBefore);
    var s1 := Apply(EMPTY, Publish(0, body), 1);
    var s2 := Apply(s1, Deliver(0), 1);
    var s3 := Apply(s2, fail, 1);
    var s4 := Apply(s3, Lose(0, 1), 1);
    var s5 := Apply(s4, Deliver(0), 1);
    run := Before(s5, fail, [], 0, 1);
    run := Before(s4, Deliver(0), run, 0, 1);
    run := Before(s3, Lose(0, 1), run, 0, 1);
    run := Before(s2, fail, run, 0, 1);
    run := Before(s1, Deliver(0), run, 0, 1);
    run := Before(EMPTY, Publish(0, body), run, 0, 1);
    assert Apply(s5, fail, 1).failures == map[0 := 2];
  }

  /** Redelivery leaves x-death as it is, as basic.nack with requeue does. */
  predicate Uncounted(run: seq<Action>) {
    forall a :: a in run ==> (a.Nack? ==> a.newDeaths == 0) && (a.Lose? ==> a.newDeaths == 0)
  }

  predicate NoJobIsDead(s: State) {
    && (forall m :: m in s.deaths ==> s.deaths[m] == 0)
    && (forall m :: m in s.dead ==> m in s.sent && ParseJob(s.sent[m]).None?)
  }

  lemma {:induction false} UncountedRunsKillNoJob(s: State, run: seq<Action>, maxRetries: int)
    requires Inv(s) && NoJobIsDead(s) && Legal(s, run, maxRetries) && Uncounted(run) && maxRetries >= 2
    ensures NoJobIsDead(Run(s, run, maxRetries))
    decreases |run|
  {
    if run != [] {
      assert run[0] in run;
      StepKeepsInv(s, run[0], maxRetries);
      UncountedRunsKillNoJob(Apply(s, run[0], maxRetries), run[1..], maxRetries);
    }
  }

  /** With uncounted redelivery and MaxRetries of at least 2 the dead-letter queue never receives
      a job that parses, however often its handler fails. */
  lemma DeadLetterQueueStaysEmpty(run: seq<Action>, maxRetries: int, m: nat)
    requires Legal(EMPTY, run, maxRetries) && Uncounted(run) && maxRetries >= 2
    requires m in Run(EMPTY, run, maxRetries).dead
    ensures m in Run(EMPTY, run, maxRetries).sent && ParseJob(Run(EMPTY, run, maxRetries).sent[m]).None?
  {
    UncountedRunsKillNoJob(EMPTY, run, maxRetries);
  }

  /** One failed round: delivered, handled in vain, requeued uncounted. */
  function Round(m: nat): (run: seq<Action>) { [Deliver(m), Handle(m, FailsBefore), Nack(m, 0)] }

  lemma OneRound(s: State, m: nat, maxRetries: int)
    requires Inv(s) && m in s.ready && s.deaths[m] == 0 && maxRetries >= 2
    requires ParseJob(s.sent[m]).Some? && IsItemJob(s.sent[m].job)
    ensures Legal(s, Round(m), maxRetries)
    ensures var s' := Run(s, Round(m), maxRetries);
            && Inv(s') && m in s'.ready && s'.deaths[m] == 0 && s'.sent == s.sent
            && s'.failures[m] == s.failures[m] + 1
  {
    var run := Round(m);
    var s1 := Apply(s, Deliver(m), maxRetries);
    var s2 := Apply(s1, Handle(m, FailsBefore), maxRetries);
    assert Places(s, m) == 1;
    assert run[1..][1..][1..] == [] && run[1..][1..][0] == Nack(m, 0);
    assert Legal(s2, run[1..][1..], maxRetries) && Legal(s1, run[1..], maxRetries);
    RunKeepsInv(s, run, maxRetries);
    assert Run(s, run, maxRetries) == Run(s1, run[1..], maxRetries) == Run(s2, run[1..][1..], maxRetries)
        == Apply(s2, Nack(m, 0), maxRetries);
  }

  lemma {:induction false} RunsCompose(s: State, one: seq<Action>, two: seq<Action>, maxRetries: int)
    requires Legal(s, one, maxRetries) && Legal(Run(s, one, maxRetries), two, maxRetries)
    ensures Legal(s, one + two, maxRetries)
    ensures Run(s, one + two, maxRetries) == Run(Run(s, one, maxRetries), two, maxRetries)
    decreases |one|
  {
    if one == [] {
      assert one + two == two;
    } else {
      RunsCompose(Apply(s, one[0], maxRetries), one[1..], two, maxRetries);
      assert (one + two)[1..] == one[1..] + two;
    }
  }

  /** And the handler can fail on one message any number of times. */
  lemma {:induction false} FailsAnyNumberOfTimes(s: State, m: nat, maxRetries: int, n: nat) returns (run: seq<Action>)
    requires Inv(s) && m in s.ready && s.deaths[m] == 0 && maxRetries >= 2
    requires ParseJob(s.sent[m]).Some? && IsItemJob(s.sent[m].job)
    ensures Legal(s, run, maxRetries) && Uncounted(run) && forall a :: a in run ==> !a.Lose?
    ensures var s' := Run(s, run, maxRetries);
            m in s'.ready && m in s'.failures && s'.failures[m] == s.failures[m] + n
    decreases n
  {
    if n == 0 { return []; }
    OneRound(s, m, maxRetries);
    var rest := FailsAnyNumberOfTimes(Run(s, Round(m), maxRetries), m, maxRetries, n - 1);
    RunsCompose(s, Round(m), rest, maxRetries);
    run := Round(m) + rest;
  }

  // With MaxRetries of at most 1 counting does not matter.

  predicate NonNegative(run: seq<Action>) {
    forall a :: a in run ==> (a.Nack? ==> a.newDeaths >= 0) && (a.Lose? ==> a.newDeaths >= 0)
  }

  /** The first failure that is not slipped back is the last. */
  predicate FailsOnce(s: State, m: nat, slips: nat) {
    m in s.failures && m in s.deaths ==>
      && 0 <= s.deaths[m]
      && s.failures[m] <= 1 + slips
      && (m in s.ready || InFlight(s, m, Delivered) || InFlight(s, m, Succeeded) ==> s.failures[m] <= slips)
  }

  lemma {:induction false} FailsOnceStays(s: State, run: seq<Action>, maxRetries: int, m: nat, slips: nat)
    requires Inv(s) && Legal(s, run, maxRetries) && NonNegative(run) && maxRetries <= 1 && FailsOnce(s, m, slips)
    ensures FailsOnce(Run(s, run, maxRetries), m, slips + Slips(s, run, maxRetries, m))
    decreases |run|
  {
    if run != [] {
      var a := run[0];
      assert a in run;
      assert Places(s, m) == if m in s.sent then 1 else 0;
      StepKeepsInv(s, a, maxRetries);
      FailsOnceStays(Apply(s, a, maxRetries), run[1..], maxRetries, m, slips + if SlipsBack(s, a, m) then 1 else 0);
    }
  }

  /** Whatever the broker makes of x-death: with MaxRetries of at most 1 the handler fails on a message
      once, plus once for every slip. */
  lemma OneFailure(run: seq<Action>, maxRetries: int, m: nat)
    requires Legal(EMPTY, run, maxRetries) && NonNegative(run) && maxRetries <= 1
    requires m in Run(EMPTY, run, maxRetries).sent
    ensures var s := Run(EMPTY, run, maxRetries);
            m in s.failures && s.failures[m] <= 1 + Slips(EMPTY, run, maxRetries, m)
  {
    RunKeepsInv(EMPTY, run, maxRetries);
    FailsOnceStays(EMPTY, run, maxRetries, m, 0);
  }

  /** If redelivery leaves x-death alone, so many failures are the most there are, slips aside. */
  ghost predicate UncountedBound(maxRetries: int, bound: nat) {
    forall run: seq<Action>, m: nat ::
      Legal(EMPTY, run, maxRetries) && Uncounted(run) && m in Run(EMPTY, run, maxRetries).failures ==>
        Run(EMPTY, run, maxRetries).failures[m] <= bound + Slips(EMPTY, run, maxRetries, m)
  }

  lemma {:induction false} NoLossNoSlips(s: State, run: seq<Action>, maxRetries: int, m: nat)
    requires Legal(s, run, maxRetries) && forall a :: a in run ==> !a.Lose?
    ensures Slips(s, run, maxRetries, m) == 0
    decreases |run|
  {
    if run != [] {
      assert run[0] in run;
      NoLossNoSlips(Apply(s, run[0], maxRetries), run[1..], maxRetries, m);
    }
  }

  lemma RunOfOne(s: State, a: Action, maxRetries: int)
    requires Enabled(s, a)
    ensures Legal(s, [a], maxRetries) && Run(s, [a], maxRetries) == Apply(s, a, maxRetries)
  {
    assert [a][1..] == [];
    assert Legal(Apply(s, a, maxRetries), [a][1..], maxRetries);
  }

  lemma ExceedsAnyBound(maxRetries: int, bound: nat)
    requires maxRetries >= 2
    ensures !UncountedBound(maxRetries, bound)
  {
    var publish := [Publish(0, Carries(Job("j", CREATED, "", "", map[])))];
    var s := Apply(EMPTY, publish[0], maxRetries);
    RunOfOne(EMPTY, publish[0], maxRetries);
    RunKeepsInv(EMPTY, publish, maxRetries);
    assert |CREATED| > 0;
    var rest := FailsAnyNumberOfTimes(s, 0, maxRetries, bound + 1);
    var run := publish + rest;
    RunsCompose(EMPTY, publish, rest, maxRetries);
    NoLossNoSlips(EMPTY, run, maxRetries, 0);
    assert Run(EMPTY, run, maxRetries).failures[0] == bound + 1;
  }

  /** The exact condition: with uncounted redelivery failures are bounded at all if and only if
      MaxRetries is at most 1. */
  lemma UncountedBoundedExactly(maxRetries: int)
    ensures (exists bound: nat :: UncountedBound(maxRetries, bound)) <==> maxRetries <= 1
  {
    if maxRetries <= 1 {
      forall run: seq<Action>, m: nat |
        Legal(EMPTY, run, maxRetries) && Uncounted(run) && m in Run(EMPTY, run, maxRetries).failures
        ensures Run(EMPTY, run, maxRetries).failures[m] <= 1 + Slips(EMPTY, run, maxRetries, m)
      {
        RunKeepsInv(EMPTY, run, maxRetries);
        OneFailure(run, maxRetries, m);
      }
      assert UncountedBound(maxRetries, 1);
    } else {
      forall bound: nat ensures !UncountedBound(maxRetries, bound) { ExceedsAnyBound(maxRetries, bound); }
    }
  }
}
