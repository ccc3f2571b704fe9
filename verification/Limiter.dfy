/** The limiter as the gateway runs it: Redis counters changed in place, and the memory limiter
    when Redis fails. */
module Limiter {
  import opened Common
  import L = RateLimit

  /** The counters of one zone and address as Redis holds them. */
  class Redis {
    var now: int
    var counters: map<L.Window, L.Counter>

    constructor (now: int)
      ensures this.now == now && counters == map[]
    {
      this.now, counters := now, map[];
    }

    /** The protocol state s describes the server as it is now. */
    ghost predicate Shows(s: L.State)
      reads this
    {
      s.now == now && s.counters == counters
    }

    method Incr(w: L.Window, fate: Fate, ghost s: L.State) returns (n: int, ok: bool)
      requires Shows(s)
      modifies this
      ensures now == old(now)
      ensures ok <==> fate.Succeeds?
      ensures ok ==> n == L.Live(s, w) + 1
      ensures counters == if fate.FailsBefore? then old(counters) else L.Incremented(s, w)
    {
      if fate.FailsBefore? { return 0, false; }
      var live := w in counters && (counters[w].expiry.At? ==> now < counters[w].expiry.time) && counters[w].count > 0;
      if live {
        counters := counters[w := counters[w].(count := counters[w].count + 1)];
      } else {
        counters := counters[w := L.Counter(1, L.Never)];
      }
      n, ok := counters[w].count, fate.Succeeds?;
    }

    method Expire(w: L.Window, fate: Fate, ghost s: L.State)
      requires Shows(s)
      modifies this
      ensures now == old(now)
      ensures counters == if fate.FailsBefore? then old(counters) else L.Expiring(s, w)
    {
      if fate.FailsBefore? { return; }
      if w in counters && (counters[w].expiry.At? ==> now < counters[w].expiry.time) && counters[w].count > 0 {
        counters := counters[w := counters[w].(expiry := L.At(now + 2 * L.SECOND))];
      }
    }
  }

  class Facade {
    const redis: Redis
    const max: int

    constructor (redis: Redis, max: int)
      ensures this.redis == redis && this.max == max
    {
      this.redis, this.max := redis, max;
    }

    /** Allow, for request r with the given clock; memory is what the memory limiter would say.
        When Redis is asked, the call is a run of the protocol, which admits exactly when it does. */
    method Allow(clock: int, memory: bool, incr: Fate, expire: Fate, ghost r: nat, ghost s: L.State, ghost t: L.Timing)
      returns (ok: bool, ghost trace: seq<L.Action>)
      requires redis.Shows(s) && L.Enabled(s, L.ReadClock(r, clock), t)
      modifies redis
      ensures max <= 0 ==> ok && trace == []
      ensures max > 0 && !incr.Succeeds? ==> ok == memory
      ensures L.Legal(s, trace, t, max) && redis.Shows(L.Run(s, trace, t, max))
      ensures max > 0 && incr.Succeeds? ==>
                var w := L.WindowOf(clock);
                L.Admitted(L.Run(s, trace, t, max), w) == L.Admitted(s, w) + (if ok then 1 else 0)
      ensures max > 0 && !incr.Succeeds? ==> L.Run(s, trace, t, max).admitted == s.admitted
    {
      trace := [];
      if max <= 0 { return true, trace; }
      var w := clock / L.SECOND;
      ghost var s1 := s;
      trace, s1 := L.Extend(s, trace, s, L.ReadClock(r, clock), t, max);
      var n, done := redis.Incr(w, incr, s1);
      if !done {
        ghost var lost := if incr.FailsBefore? then L.Abandon(r) else L.IncrLost(r);
        trace, s1 := L.Extend(s, trace, s1, lost, t, max);
        return memory, trace;
      }
      trace, s1 := L.Extend(s, trace, s1, L.Incr(r), t, max);
      if n == 1 {
        redis.Expire(w, expire, s1);
        trace, s1 := L.Extend(s, trace, s1, if expire.FailsBefore? then L.Abandon(r) else L.Expire(r), t, max);
      }
      ok := n <= max;
    }
  }
}
