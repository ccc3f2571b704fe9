/** The Redis fixed-window limiter shared by gateway replicas: clocks that disagree, delays
    between reading the clock and INCR, and an EXPIRE that comes late or never. Time is in
    nanoseconds. */
module RateLimit {
  const SECOND: int := 1_000_000_000

  /** The part of the Redis key that varies here: the second the caller read off its clock.
      Zone and ip are fixed; keys of other zones and addresses do not touch these. */
  type Window = int

  /** A counter, and when it expires if it does. */
  datatype Counter = Counter(count: nat, expiry: Expiry)
  datatype Expiry = Never | At(time: int)

  /** A request that has read its clock at a given instant and not sent its INCR yet. */
  datatype Reading = Reading(window: Window, at: int)

  /** now: real time; readings: requests between clock and INCR; firsts: requests whose INCR
      answered 1 and whose EXPIRE is still to come; admitted: how many requests were let
      through, by window. */
  datatype State = State(now: int, counters: map<Window, Counter>, readings: map<nat, Reading>,
                         firsts: map<nat, Window>, admitted: map<Window, nat>)

  /** Bounds on how far a clock is off and how long a request takes from clock to INCR. */
  datatype Timing = Timing(skew: nat, delay: nat)

  /** Tick: time passes. ReadClock: a request reads its replica's clock. Incr: its INCR runs.
      IncrLost: its INCR runs but the reply is lost, so Redis does not admit it. Expire: the
      EXPIRE of a request that saw 1. Abandon: a request or its EXPIRE is lost. */
  datatype Action =
    | Tick(elapsed: nat)
    | ReadClock(request: nat, clock: int)
    | Incr(request: nat)
    | IncrLost(request: nat)
    | Expire(request: nat)
    | Abandon(request: nat)

  function WindowOf(clock: int): (w: Window) { clock / SECOND }

  /** What INCR finds: an expired key is as good as none. */
  function Live(s: State, w: Window): (count: nat) {
    if w in s.counters && (s.counters[w].expiry.At? ==> s.now < s.counters[w].expiry.time) then s.counters[w].count else 0
  }

  function Admitted(s: State, w: Window): (n: nat) { if w in s.admitted then s.admitted[w] else 0 }

  /** INCR: a new counter has no expiry. */
  function Incremented(s: State, w: Window): (counters: map<Window, Counter>) {
    var n := Live(s, w) + 1;
    s.counters[w := Counter(n, if n == 1 then Never else s.counters[w].expiry)]
  }

  /** EXPIRE with period + 1 s = 2 s, which does nothing to a missing key. */
  function Expiring(s: State, w: Window): (counters: map<Window, Counter>) {
    if Live(s, w) > 0 then s.counters[w := s.counters[w].(expiry := At(s.now + 2 * SECOND))] else s.counters
  }

  predicate Enabled(s: State, a: Action, t: Timing) {
    match a
    case Tick(_) => true
    case ReadClock(r, clock) =>
      r !in s.readings && r !in s.firsts && clock >= 0 && s.now - t.skew <= clock <= s.now + t.skew
    case Incr(r) => r in s.readings && s.now <= s.readings[r].at + t.delay
    case IncrLost(r) => r in s.readings && s.now <= s.readings[r].at + t.delay
    case Expire(r) => r in s.firsts
    case Abandon(r) => true
  }

  function Apply(s: State, a: Action, t: Timing, max: int): (s': State)
    requires Enabled(s, a, t)
  {
    match a
    case Tick(elapsed) => s.(now := s.now + elapsed)
    case ReadClock(r, clock) => s.(readings := s.readings[r := Reading(WindowOf(clock), s.now)])
    case Incr(r) =>
      var w := s.readings[r].window;
      var n := Live(s, w) + 1;
      State(s.now, Incremented(s, w), s.readings - {r},
            if n == 1 then s.firsts[r := w] else s.firsts,
            if n <= max then s.admitted[w := Admitted(s, w) + 1] else s.admitted)
    case IncrLost(r) => s.(counters := Incremented(s, s.readings[r].window), readings := s.readings - {r})
    case Expire(r) => s.(firsts := s.firsts - {r}, counters := Expiring(s, s.firsts[r]))
    case Abandon(r) => s.(readings := s.readings - {r}, firsts := s.firsts - {r})
  }

  predicate Legal(s: State, run: seq<Action>, t: Timing, max: int)
    decreases |run|
  {
    run == [] || (Enabled(s, run[0], t) && Legal(Apply(s, run[0], t, max), run[1..], t, max))
  }

  function Run(s: State, run: seq<Action>, t: Timing, max: int): (s': State)
    requires Legal(s, run, t, max)
    decreases |run|
  {
    if run == [] then s else Run(Apply(s, run[0], t, max), run[1..], t, max)
  }

  function Start(now: int): (s: State) { State(now, map[], map[], map[], map[]) }

  /** The instant from which no INCR of a window can happen any more. */
  function LastUse(w: Window, t: Timing): (time: int) { (w + 1) * SECOND + t.skew + t.delay }

  /** The 2 s that EXPIRE gives outlive the use of a key. */
  predicate Safe(t: Timing) { 2 * t.skew + t.delay <= SECOND }

  predicate ReadingInv(s: State, r: Reading, t: Timing) {
    && r.at <= s.now
    && r.window * SECOND - t.skew <= r.at < (r.window + 1) * SECOND + t.skew
  }

  /** A counter counts at least what was admitted, up to the cap, and lives as long as it can
      be used; a window whose counter may still be missing has admitted no one. */
  predicate WindowInv(s: State, w: Window, t: Timing, max: int) {
    && Admitted(s, w) <= max
    && (w in s.counters ==>
          && Admitted(s, w) <= s.counters[w].count
          && s.counters[w].count >= 1
          && w * SECOND - t.skew <= s.now
          && (s.counters[w].expiry.At? ==> LastUse(w, t) <= s.counters[w].expiry.time))
    && (w !in s.counters ==> Admitted(s, w) == 0)
  }

  ghost predicate Inv(s: State, t: Timing, max: int) {
    && (forall r :: r in s.readings ==> ReadingInv(s, s.readings[r], t))
    && (forall w: Window :: WindowInv(s, w, t, max))
    && (forall r :: r in s.firsts ==> s.firsts[r] in s.counters)
  }

  lemma StepKeepsInv(s: State, a: Action, t: Timing, max: int)
    requires Safe(t) && max >= 1 && Inv(s, t, max) && Enabled(s, a, t)
    ensures Inv(Apply(s, a, t, max), t, max)
  {
    var s' := Apply(s, a, t, max);
    forall w: Window ensures WindowInv(s', w, t, max) {
      assert WindowInv(s, w, t, max);
      if a.Incr? {
        assert ReadingInv(s, s.readings[a.request], t);
      }
    }
  }

  lemma {:induction false} RunKeepsInv(s: State, run: seq<Action>, t: Timing, max: int)
    requires Safe(t) && max >= 1 && Inv(s, t, max) && Legal(s, run, t, max)
    ensures Inv(Run(s, run, t, max), t, max)
    decreases |run|
  {
    if run != [] {
      StepKeepsInv(s, run[0], t, max);
      RunKeepsInv(Apply(s, run[0], t, max), run[1..], t, max);
    }
  }

  /** No run admits more than max requests in any window. */
  ghost predicate CapHolds(t: Timing, max: int) {
    forall start: int, run: seq<Action>, w: Window ::
      Legal(Start(start), run, t, max) ==> Admitted(Run(Start(start), run, t, max), w) <= max
  }

  lemma SafeTimingCaps(t: Timing, max: int)
    requires Safe(t) && max >= 1
    ensures CapHolds(t, max)
  {
    forall start: int, run: seq<Action>, w: Window | Legal(Start(start), run, t, max)
      ensures Admitted(Run(Start(start), run, t, max), w) <= max
    {
      RunKeepsInv(Start(start), run, t, max);
      assert WindowInv(Run(Start(start), run, t, max), w, t, max);
    }
  }

  // Beyond the bound the cap fails: a request with a fast clock opens the window early, and one
  // with a slow clock comes so late that the key has expired.

  lemma {:induction false} RunOneMore(s: State, run: seq<Action>, a: Action, t: Timing, max: int)
    requires Legal(s, run, t, max) && Enabled(Run(s, run, t, max), a, t)
    ensures Legal(s, run + [a], t, max)
    ensures Run(s, run + [a], t, max) == Apply(Run(s, run, t, max), a, t, max)
    decreases |run|
  {
    if run == [] {
      assert [a][1..] == [];
    } else {
      RunOneMore(Apply(s, run[0], t, max), run[1..], a, t, max);
      assert (run + [a])[1..] == run[1..] + [a];
    }
  }

  lemma Extend(s0: State, run: seq<Action>, s: State, a: Action, t: Timing, max: int) returns (run': seq<Action>, s': State)
    requires Legal(s0, run, t, max) && s == Run(s0, run, t, max) && Enabled(s, a, t)
    ensures run' == run + [a] && Legal(s0, run', t, max) && s' == Run(s0, run', t, max) == Apply(s, a, t, max)
  {
    run', s' := run + [a], Apply(s, a, t, max);
    RunOneMore(s0, run, a, t, max);
  }

  /** n requests of window 0 have been admitted, at the instant when the fastest clock reaches it. */
  predicate Filled(s: State, n: nat, t: Timing) {
    && s.now == 0 - t.skew && s.readings == map[] && s.firsts == map[]
    && s.counters == map[0 := Counter(n, At(2 * SECOND - t.skew))] && s.admitted == map[0 := n]
  }

  lemma FirstRequest(t: Timing, max: int) returns (run: seq<Action>)
    requires max >= 1
    ensures Legal(Start(0 - t.skew), run, t, max) && Filled(Run(Start(0 - t.skew), run, t, max), 1, t)
  {
    var s0 := Start(0 - t.skew);
    var s := s0;
    run := [];
    run, s := Extend(s0, run, s, ReadClock(0, 0), t, max);
    run, s := Extend(s0, run, s, Incr(0), t, max);
    assert s.counters == map[0 := Counter(1, Never)] && s.readings == map[] && s.firsts == map[0 := 0];
    run, s := Extend(s0, run, s, Expire(0), t, max);
  }

  lemma OneMoreRequest(s0: State, run: seq<Action>, n: nat, t: Timing, max: int) returns (run': seq<Action>)
    requires 1 <= n < max && Legal(s0, run, t, max) && Filled(Run(s0, run, t, max), n, t)
    ensures Legal(s0, run', t, max) && Filled(Run(s0, run', t, max), n + 1, t)
  {
    var s := Run(s0, run, t, max);
    run', s := Extend(s0, run, s, ReadClock(0, 0), t, max);
    run', s := Extend(s0, run', s, Incr(0), t, max);
  }

  lemma {:induction false} FillWindow(n: nat, t: Timing, max: int) returns (run: seq<Action>)
    requires 1 <= n <= max
    ensures Legal(Start(0 - t.skew), run, t, max) && Filled(Run(Start(0 - t.skew), run, t, max), n, t)
    decreases n
  {
    if n == 1 {
      run := FirstRequest(t, max);
    } else {
      run := FillWindow(n - 1, t, max);
      run := OneMoreRequest(Start(0 - t.skew), run, n - 1, t, max);
    }
  }

  lemma LateRequest(t: Timing, max: int) returns (run: seq<Action>)
    requires !Safe(t) && max >= 1
    ensures Legal(Start(0 - t.skew), run, t, max)
    ensures Admitted(Run(Start(0 - t.skew), run, t, max), 0) == max + 1
  {
    var s0 := Start(0 - t.skew);
    run := FillWindow(max, t, max);
    var s := Run(s0, run, t, max);
    run, s := Extend(s0, run, s, Tick(SECOND - 1 + 2 * t.skew), t, max);
    assert WindowOf(SECOND - 1) == 0;
    run, s := Extend(s0, run, s, ReadClock(0, SECOND - 1), t, max);
    run, s := Extend(s0, run, s, Tick(t.delay), t, max);
    assert Live(s, 0) == 0;
    run, s := Extend(s0, run, s, Incr(0), t, max);
  }

  /** The exact condition: twice the skew plus the delay is at most one second. */
  lemma CapHoldsExactlyWhenSafe(t: Timing, max: int)
    requires max >= 1
    ensures CapHolds(t, max) <==> 2 * t.skew + t.delay <= 1_000_000_000
  {
    if Safe(t) {
      SafeTimingCaps(t, max);
    } else {
      var run := LateRequest(t, max);
    }
  }

  // On one clock: any span of L whole seconds touches at most L + 1 windows.

  function AdmittedIn(s: State, first: Window, windows: nat): (n: nat) {
    if windows == 0 then 0 else AdmittedIn(s, first, windows - 1) + Admitted(s, first + windows - 1)
  }

  lemma {:induction false} CapsAdd(s: State, first: Window, windows: nat, max: int)
    requires max >= 0 && forall w: Window :: Admitted(s, w) <= max
    ensures AdmittedIn(s, first, windows) <= windows * max
  {
    if windows > 0 {
      CapsAdd(s, first, windows - 1, max);
      assert windows * max == (windows - 1) * max + max;
    }
  }

  /** Clock readings within L seconds of each other lie in at most L + 1 windows, which together
      admit at most (L + 1) * max. */
  lemma SpanCap(run: seq<Action>, start: int, t: Timing, max: int, from: int, seconds: nat)
    requires Safe(t) && max >= 1 && Legal(Start(start), run, t, max)
    ensures AdmittedIn(Run(Start(start), run, t, max), WindowOf(from), seconds + 1) <= (seconds + 1) * max
    ensures forall clock :: from <= clock < from + seconds * SECOND ==>
              WindowOf(from) <= WindowOf(clock) < WindowOf(from) + seconds + 1
  {
    SafeTimingCaps(t, max);
    var s := Run(Start(start), run, t, max);
    forall w: Window ensures Admitted(s, w) <= max {
      RunKeepsInv(Start(start), run, t, max);
      assert WindowInv(s, w, t, max);
    }
    CapsAdd(s, WindowOf(from), seconds + 1, max);
  }

  /** limitPerWindow: the burst, or else the whole requests per second but at least one. A cap of
      zero or less means no limit, which is the case exactly when neither number is positive. */
  function LimitPerWindow(rps: real, burst: int): (max: int)
    ensures max <= 0 <==> burst <= 0 && rps <= 0.0
    ensures burst > 0 ==> max == burst
    ensures burst <= 0 && 0.0 < rps < 1.0 ==> max == 1
    ensures burst <= 0 && rps >= 1.0 ==> max as real <= rps < max as real + 1.0
  {
    if burst > 0 then burst
    else if rps <= 0.0 then 0
    else if rps.Floor < 1 then 1 else rps.Floor
  }
}
