/** The queue consumer and the job router as they run. */
module Consumer {
  import opened Common
  import opened AuditEvents
  import Q = JobQueue

  // The x-death header.

  /** One entry of the x-death list, by the type its count has. */
  datatype Death = NotATable | NoCount | Whole(count: int) | Floating(value: real)

  datatype Headers = NoDeaths | NotAList | Deaths(list: seq<Death>)

  /** int(v) of a float64 in range: truncation towards zero. */
  function Truncate(x: real): (n: int)
    ensures x >= 0.0 ==> n as real <= x < (n + 1) as real
    ensures x <= 0.0 ==> (n - 1) as real < x <= n as real
  {
    if x >= 0.0 then x.Floor else -((-x).Floor)
  }

  function CountOf(d: Death): (n: int) {
    match d
    case Whole(count) => count
    case Floating(value) => Truncate(value)
    case _ => 0
  }

  function Sum(list: seq<Death>): (n: int) {
    if list == [] then 0 else Sum(list[..|list| - 1]) + CountOf(list[|list| - 1])
  }

  /** The sum adds up over the list: whole counts as they are, floating ones truncated towards zero,
      other entries nothing. */
  lemma {:induction false} SumAddsUp(a: seq<Death>, b: seq<Death>, d: Death)
    ensures Sum(a + b) == Sum(a) + Sum(b)
    ensures d.Whole? ==> Sum([d]) == d.count
    ensures d.Floating? && d.value >= 0.0 ==> Sum([d]) as real <= d.value < (Sum([d]) + 1) as real
    ensures d.Floating? && d.value <= 0.0 ==> (Sum([d]) - 1) as real < d.value <= Sum([d]) as real
    ensures d.NotATable? || d.NoCount? ==> Sum([d]) == 0
    decreases |b|
  {
    assert [d][..0] == [];
    if b == [] {
      assert a + b == a;
    } else {
      assert (a + b)[..|a + b| - 1] == a + b[..|b| - 1];
      SumAddsUp(a, b[..|b| - 1], d);
    }
  }

  lemma WrapAdds(a: int, b: int)
    ensures Wrap64(Wrap64(a) + b) == Wrap64(a + b)
  {}

  /** deathCount: whatever has the wrong shape counts nothing. */
  method DeathCount(headers: Headers) returns (total: int)
    ensures total == if headers.Deaths? then Wrap64(Sum(headers.list)) else 0
  {
    if !headers.Deaths? { return 0; }
    total := 0;
    var list := headers.list;
    for i := 0 to |list|
      invariant total == Wrap64(Sum(list[..i]))
    {
      assert list[..i + 1][..i] == list[..i];
      WrapAdds(Sum(list[..i]), CountOf(list[i]));
      match list[i] {
        case Whole(count) => total := Wrap64(total + count);
        case Floating(value) => total := Wrap64(total + Truncate(value));
        case _ =>
      }
    }
    assert list[..|list|] == list;
  }

  /** One more death of one kind is one more in the total. */
  lemma {:induction false} OneMoreDeath(list: seq<Death>, i: nat)
    requires i < |list| && list[i].Whole?
    ensures Sum(list[i := Whole(list[i].count + 1)]) == Sum(list) + 1
  {
    var raised := list[i := Whole(list[i].count + 1)];
    if i == |list| - 1 {
      assert raised[..i] == list[..i];
    } else {
      assert raised[..|list| - 1] == list[..|list| - 1][i := Whole(list[i].count + 1)];
      OneMoreDeath(list[..|list| - 1], i);
    }
  }

  /** NewConsumer: the configured number, or else RABBITMQ_MAX_RETRIES if it is a number not
      below zero, or else 3. */
  function MaxRetries(configured: int, env: Option<int>): (n: int)
    ensures configured > 0 ==> n == configured
    ensures configured <= 0 && env.Some? && env.value >= 0 ==> n == env.value
    ensures configured <= 0 && (env.None? || env.value < 0) ==> n == 3
  {
    if configured > 0 then configured else if env.Some? && env.value >= 0 then env.value else 3
  }

  /** What a consumer tells the broker. */
  datatype Verdict = AckMessage | Requeue | DeadLetter

  class EffectStore {
    var rows: seq<Q.Effect>

    constructor ()
      ensures rows == []
    {
      rows := [];
    }

    /** inserted tells whether a new row was written; a known job id is no error. */
    method Record(job: Job, resource: string, fate: Fate) returns (ok: bool, inserted: bool)
      modifies this
      ensures job.id == "" || job.kind == "" ==> !ok && !inserted && rows == old(rows)
      ensures job.id != "" && job.kind != "" ==>
                var e := Q.Effect(job.id, job.kind, job.tenant, job.actor, resource, job.payload);
                && (ok <==> fate.Succeeds?)
                && (inserted <==> ok && !Q.HasEffect(old(rows), job.id))
                && rows == if fate.FailsBefore? then old(rows) else Q.Record(old(rows), e)
    {
      if job.id == "" || job.kind == "" { return false, false; }
      if fate.FailsBefore? { return false, false; }
      var conflict := Q.HasEffect(rows, job.id);
      if !conflict {
        rows := rows + [Q.Effect(job.id, job.kind, job.tenant, job.actor, resource, job.payload)];
      }
      ok := fate.Succeeds?;
      inserted := ok && !conflict;
    }
  }

  class Router {
    const effects: EffectStore

    constructor (effects: EffectStore)
      ensures this.effects == effects
    {
      this.effects := effects;
    }

    /** Pings and unknown kinds succeed without an effect. */
    method Handle(job: Job, fate: Fate) returns (ok: bool)
      requires job.id != "" && job.kind != ""
      modifies effects
      ensures ok <==> Q.HandlerSucceeds(job, fate)
      ensures effects.rows == Q.EffectsAfter(old(effects.rows), job, fate)
    {
      if job.kind == "ping" {
        assert |job.kind| == 4;
        return true;
      }
      if job.kind == CREATED || job.kind == UPDATED || job.kind == DELETED {
        ok := HandleBusinessItem(job, fate);
        return;
      }
      return true;
    }

    method HandleBusinessItem(job: Job, fate: Fate) returns (ok: bool)
      requires job.id != "" && job.kind != "" && Q.IsItemJob(job)
      modifies effects
      ensures ok <==> Q.HandlerSucceeds(job, fate)
      ensures effects.rows == Q.EffectsAfter(old(effects.rows), job, fate)
    {
      var item := Q.RequireString(job.payload, "item_id");
      if item.None? { return false; }
      var inserted;
      ok, inserted := effects.Record(job, item.value, fate);
    }
  }

  /** What deathCount makes of the headers. */
  function DeathsIn(headers: Headers): (n: int) { if headers.Deaths? then Wrap64(Sum(headers.list)) else 0 }

  /** The answer that a delivery gets. */
  function VerdictOn(body: Q.Body, deaths: int, fate: Fate, maxRetries: int): (verdict: Verdict) {
    if Q.ParseJob(body).None? then DeadLetter
    else if Q.HandlerSucceeds(Q.ParseJob(body).value, fate) then AckMessage
    else if Q.Requeues(deaths, maxRetries) then Requeue
    else DeadLetter
  }

  /** The broker moves that a delivery of message m is. */
  ghost function Moves(m: nat, body: Q.Body, verdict: Verdict, fate: Fate, newDeaths: int): (run: seq<Q.Action>) {
    if Q.ParseJob(body).None? then [Q.Reject(m)]
    else [Q.Handle(m, fate), if verdict.AckMessage? then Q.Ack(m) else Q.Nack(m, newDeaths)]
  }

  /** A delivery and its answer are a run of the queue protocol, for every body: the effects end up as
      the handler leaves them, and the message where the verdict says. */
  lemma DeliveryIsARun(s: Q.State, m: nat, fate: Fate, newDeaths: int, maxRetries: int)
    requires Q.Inv(s) && Q.InFlight(s, m, Q.Delivered) && m in s.sent
    ensures var verdict := VerdictOn(s.sent[m], s.deaths[m], fate, maxRetries);
            var run := Moves(m, s.sent[m], verdict, fate, newDeaths);
            && Q.Legal(s, run, maxRetries)
            && var s' := Q.Run(s, run, maxRetries);
               && s'.effects == (if Q.ParseJob(s.sent[m]).None? then s.effects
                                 else Q.EffectsAfter(s.effects, Q.ParseJob(s.sent[m]).value, fate))
               && (verdict == AckMessage <==> m in s'.acked)
               && (verdict == Requeue <==> m in s'.ready)
               && (verdict == DeadLetter <==> m in s'.dead)
  {
    assert Q.Places(s, m) == 1;
    var verdict := VerdictOn(s.sent[m], s.deaths[m], fate, maxRetries);
    var run := Moves(m, s.sent[m], verdict, fate, newDeaths);
    var s1 := Q.Apply(s, run[0], maxRetries);
    if Q.ParseJob(s.sent[m]).None? {
      assert run[1..] == [];
    } else {
      assert run[1..][1..] == [];
      assert Q.Enabled(s1, run[1]);
      assert Q.Run(s, run, maxRetries) == Q.Run(s1, run[1..], maxRetries) == Q.Apply(s1, run[1], maxRetries);
    }
  }

  class Worker {
    const router: Router
    const maxRetries: int

    constructor (router: Router, maxRetries: int)
      ensures this.router == router && this.maxRetries == maxRetries
    {
      this.router := router;
      this.maxRetries := maxRetries;
    }

    /** One delivery of message m: the effects, and the answer to the broker. newDeaths is what the
        broker makes of x-death if the message is requeued. */
    method HandleDelivery(body: Q.Body, headers: Headers, fate: Fate, ghost m: nat, ghost newDeaths: int, ghost s: Q.State)
      returns (verdict: Verdict, ghost trace: seq<Q.Action>)
      requires Q.Inv(s) && Q.InFlight(s, m, Q.Delivered) && m in s.sent && s.sent[m] == body
      requires s.deaths[m] == DeathsIn(headers) && s.effects == router.effects.rows
      modifies router.effects
      ensures verdict == VerdictOn(body, DeathsIn(headers), fate, maxRetries)
      ensures Q.ParseJob(body).None? ==> verdict == DeadLetter && router.effects.rows == old(router.effects.rows)
      ensures Q.ParseJob(body).Some? ==>
                var job := Q.ParseJob(body).value;
                && router.effects.rows == Q.EffectsAfter(old(router.effects.rows), job, fate)
                && (verdict == AckMessage <==> Q.HandlerSucceeds(job, fate))
                && (verdict == Requeue <==>
                      !Q.HandlerSucceeds(job, fate) && Q.Requeues(DeathsIn(headers), maxRetries))
      ensures verdict == AckMessage <==> Q.Complete(body) && (Q.SpeaksOfItems(body.job.kind) ==> fate.Succeeds?)
      ensures verdict == Requeue <==>
              && body.Carries? && body.job.id != "" && Q.SpeaksOfItems(body.job.kind)
              && (Q.ItemNamed(body.job) == "" || !fate.Succeeds?)
              && (if headers.Deaths? then Wrap64(Sum(headers.list)) else 0) + 1 < maxRetries
      ensures Q.Legal(s, trace, maxRetries)
      ensures var s' := Q.Run(s, trace, maxRetries);
              && s'.effects == router.effects.rows
              && (verdict == AckMessage <==> m in s'.acked)
              && (verdict == Requeue <==> m in s'.ready)
              && (verdict == DeadLetter <==> m in s'.dead)
    {
      DeliveryIsARun(s, m, fate, newDeaths, maxRetries);
      trace := Moves(m, body, VerdictOn(body, DeathsIn(headers), fate, maxRetries), fate, newDeaths);
      var parsed := Q.ParseJob(body);
      if parsed.None? { return DeadLetter, trace; }
      var ok := router.Handle(parsed.value, fate);
      if !ok {
        var deaths := DeathCount(headers);
        if deaths + 1 < maxRetries { return Requeue, trace; }
        return DeadLetter, trace;
      }
      return AckMessage, trace;
    }
  }
}
