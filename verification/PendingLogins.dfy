/** Sign-ins under way: the OIDC state saved at /sign-in and consumed at /callback, as the store
    serves them one call at a time. */
module PendingLogins {
  import opened Common

  datatype Login = Login(returnTo: string, nonce: string)

  datatype Entry = Entry(login: Login, keyExpiry: int)

  /** Ten minutes, in seconds. */
  const LIFETIME := 600

  datatype State = State(now: int, pending: map<string, Entry>)

  datatype Op =
    | Tick(elapsed: nat)
    | Save(state: string, login: Login, fate: Fate)
    | Consume(state: string, get: Fate, delete: Fate)

  /** What a call hands to its caller. */
  function HandsOut(s: State, op: Op): (login: Option<Login>) {
    if op.Consume? && op.get.Succeeds? && op.state in s.pending && s.now < s.pending[op.state].keyExpiry
    then Some(s.pending[op.state].login) else None
  }

  function After(s: State, op: Op): (s': State) {
    match op
    case Tick(elapsed) => s.(now := s.now + elapsed)
    case Save(state, login, fate) =>
      if fate.FailsBefore? then s else s.(pending := s.pending[state := Entry(login, s.now + LIFETIME)])
    case Consume(state, _, delete) =>
      if HandsOut(s, op).Some? && !delete.FailsBefore? then s.(pending := s.pending - {state}) else s
  }

  function Finish(s: State, run: seq<Op>): (s': State)
    decreases |run|
  {
    if run == [] then s else Finish(After(s, run[0]), run[1..])
  }

  /** How often the run hands out the given state. */
  function Handouts(s: State, run: seq<Op>, state: string): (n: nat)
    decreases |run|
  {
    if run == [] then 0
    else (if HandsOut(s, run[0]).Some? && run[0].state == state then 1 else 0)
         + Handouts(After(s, run[0]), run[1..], state)
  }

  /** How many saves of the state took effect, and how many deletes after a hand-out did not. */
  function Saves(run: seq<Op>, state: string): (n: nat) {
    if run == [] then 0
    else (if run[0].Save? && run[0].state == state && !run[0].fate.FailsBefore? then 1 else 0) + Saves(run[1..], state)
  }

  function KeptBack(run: seq<Op>, state: string): (n: nat) {
    if run == [] then 0
    else (if run[0].Consume? && run[0].state == state && run[0].delete.FailsBefore? then 1 else 0)
         + KeptBack(run[1..], state)
  }

  function Held(s: State, state: string): (n: nat) { if state in s.pending then 1 else 0 }

  lemma {:induction false} HandoutsArePaidFor(s: State, run: seq<Op>, state: string)
    ensures Handouts(s, run, state) + Held(Finish(s, run), state)
            <= Held(s, state) + Saves(run, state) + KeptBack(run, state)
    decreases |run|
  {
    if run != [] {
      HandoutsArePaidFor(After(s, run[0]), run[1..], state);
    }
  }

  /** Serial single use: a state saved once is handed out once, plus at most once for every delete
      that failed to take effect. */
  lemma SingleUse(now: int, run: seq<Op>, state: string)
    requires Saves(run, state) <= 1
    ensures Handouts(State(now, map[]), run, state) <= 1 + KeptBack(run, state)
  {
    HandoutsArePaidFor(State(now, map[]), run, state);
  }

  lemma {:induction false} FinishAppend(s: State, run: seq<Op>, op: Op)
    ensures Finish(s, run + [op]) == After(Finish(s, run), op)
    decreases |run|
  {
    if run == [] {
      assert [op][1..] == [];
      assert run + [op] == [op];
    } else {
      assert (run + [op])[1..] == run[1..] + [op];
      FinishAppend(After(s, run[0]), run[1..], op);
    }
  }

  /** The i-th call of the run saved this entry under the state. */
  predicate Stored(s0: State, run: seq<Op>, i: nat, state: string, e: Entry) {
    && i < |run| && run[i].Save? && run[i].state == state && !run[i].fate.FailsBefore?
    && e == Entry(run[i].login, Finish(s0, run[..i]).now + LIFETIME)
  }

  lemma {:induction false} EntryWasStored(now: int, run: seq<Op>, state: string) returns (i: nat)
    requires state in Finish(State(now, map[]), run).pending
    ensures Stored(State(now, map[]), run, i, state, Finish(State(now, map[]), run).pending[state])
  {
    var s0 := State(now, map[]);
    var head, op := run[..|run| - 1], run[|run| - 1];
    assert run == head + [op];
    FinishAppend(s0, head, op);
    if op.Save? && op.state == state && !op.fate.FailsBefore? {
      i := |run| - 1;
    } else {
      i := EntryWasStored(now, head, state);
      assert run[..i] == head[..i];
    }
  }

  // Which logins are handed out, told by the calls alone.

  /** The seconds that pass during the run. */
  function Elapsed(run: seq<Op>): (seconds: nat) {
    if run == [] then 0
    else Elapsed(run[..|run| - 1]) + (if run[|run| - 1].Tick? then run[|run| - 1].elapsed else 0)
  }

  /** The call replaces or removes what is saved under the state. */
  predicate Ends(op: Op, state: string) {
    || (op.Save? && op.state == state && !op.fate.FailsBefore?)
    || (op.Consume? && op.state == state && op.get.Succeeds? && !op.delete.FailsBefore?)
  }

  /** The i-th call saved a login under the state, less than ten minutes ago, that no later call
      replaced or removed. */
  predicate Live(run: seq<Op>, i: nat, state: string) {
    && i < |run| && run[i].Save? && run[i].state == state && !run[i].fate.FailsBefore?
    && (forall j :: i < j < |run| ==> !Ends(run[j], state))
    && Elapsed(run[i..]) < 600
  }

  ghost predicate Holds(s: State, state: string, login: Login, left: int) {
    state in s.pending && s.pending[state] == Entry(login, s.now + left)
  }

  lemma ElapsedOneMore(head: seq<Op>, op: Op, i: nat)
    requires i <= |head|
    ensures Elapsed((head + [op])[i..]) == Elapsed(head[i..]) + (if op.Tick? then op.elapsed else 0)
  {
    var run := (head + [op])[i..];
    assert run == head[i..] + [op] && run[..|run| - 1] == head[i..];
  }

  lemma {:induction false} LiveIsHeld(now: int, run: seq<Op>, i: nat, state: string)
    requires Live(run, i, state)
    ensures Holds(Finish(State(now, map[]), run), state, run[i].login, 600 - Elapsed(run[i..]))
    decreases |run|
  {
    var head, op := run[..|run| - 1], run[|run| - 1];
    assert run == head + [op];
    FinishAppend(State(now, map[]), head, op);
    ElapsedOneMore(head, op, i);
    if i == |head| {
      assert head[i..] == [];
    } else {
      LiveIsHeld(now, head, i, state);
    }
  }

  lemma {:induction false} AliveIsLive(now: int, run: seq<Op>, state: string) returns (i: nat)
    requires var s := Finish(State(now, map[]), run); state in s.pending && s.now < s.pending[state].keyExpiry
    ensures Live(run, i, state)
    ensures Holds(Finish(State(now, map[]), run), state, run[i].login, 600 - Elapsed(run[i..]))
    decreases |run|
  {
    var head, op := run[..|run| - 1], run[|run| - 1];
    assert run == head + [op];
    FinishAppend(State(now, map[]), head, op);
    if op.Save? && op.state == state && !op.fate.FailsBefore? {
      i := |head|;
      ElapsedOneMore(head, op, i);
      assert head[i..] == [];
    } else {
      i := AliveIsLive(now, head, state);
      LiveOneMore(head, op, i, state);
    }
  }

  lemma LiveOneMore(head: seq<Op>, op: Op, i: nat, state: string)
    requires Live(head, i, state) && !Ends(op, state)
    ensures Elapsed((head + [op])[i..]) < 600 ==> Live(head + [op], i, state)
    ensures Elapsed((head + [op])[i..]) == Elapsed(head[i..]) + (if op.Tick? then op.elapsed else 0)
  {
    ElapsedOneMore(head, op, i);
  }

  /** The exact condition: in every serial run a callback whose GET succeeds is handed the login if and
      only if it was saved for its state less than ten minutes ago and neither replaced nor removed
      since; it is then that very login. */
  lemma HandedOutExactly(now: int, run: seq<Op>, op: Op)
    requires op.Consume?
    ensures var got := HandsOut(Finish(State(now, map[]), run), op);
            && (got.Some? <==> op.get.Succeeds? && exists i: nat :: Live(run, i, op.state))
            && (forall i: nat :: Live(run, i, op.state) && got.Some? ==> got.value == run[i].login)
  {
    var s := Finish(State(now, map[]), run);
    if HandsOut(s, op).Some? { var i := AliveIsLive(now, run, op.state); }
    forall i: nat | Live(run, i, op.state)
      ensures op.get.Succeeds? ==> HandsOut(s, op) == Some(run[i].login)
    {
      LiveIsHeld(now, run, i, op.state);
    }
  }

  /** In every serial run, a login handed out at a callback is one saved for that state less than
      ten minutes before. */
  lemma HandoutsAreRecentSaves(now: int, run: seq<Op>, op: Op) returns (i: nat)
    requires HandsOut(Finish(State(now, map[]), run), op).Some?
    ensures i < |run| && run[i].Save? && run[i].state == op.state && !run[i].fate.FailsBefore?
    ensures HandsOut(Finish(State(now, map[]), run), op) == Some(run[i].login)
    ensures Finish(State(now, map[]), run).now < Finish(State(now, map[]), run[..i]).now + LIFETIME
  {
    i := EntryWasStored(now, run, op.state);
  }

  class Store {
    var now: int
    var pending: map<string, Entry>

    constructor (now: int)
      ensures this.now == now && pending == map[]
    {
      this.now, pending := now, map[];
    }

    method SavePending(state: string, login: Login, fate: Fate) returns (ok: bool)
      modifies this`pending
      ensures ok <==> fate.Succeeds?
      ensures State(now, pending) == After(State(now, old(pending)), Save(state, login, fate))
    {
      if fate.FailsBefore? { return false; }
      pending := pending[state := Entry(login, now + LIFETIME)];
      ok := fate.Succeeds?;
    }

    /** GET, then DEL whose outcome is ignored. */
    method ConsumePending(state: string, get: Fate, delete: Fate) returns (login: Option<Login>)
      modifies this`pending
      ensures login == HandsOut(State(now, old(pending)), Consume(state, get, delete))
      ensures State(now, pending) == After(State(now, old(pending)), Consume(state, get, delete))
    {
      if !get.Succeeds? || state !in pending || now >= pending[state].keyExpiry { return None; }
      login := Some(pending[state].login);
      if !delete.FailsBefore? { pending := pending - {state}; }
    }
  }
}
