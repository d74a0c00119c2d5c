/** The connection pool: a deque under a mutex and a condition variable, as the steps that threads can take. */
module ConnectionPool {

  const CAPACITY: nat := 10

  /** The shared deque, and where each call is: it has a connection, sleeps on the condition, was woken and has to take
      the mutex again, or has put its connection back and not yet notified.  A call that is none of these has not started
      or has ended. */
  datatype State = State(pool: seq<nat>, holding: map<nat, nat>, waiting: set<nat>, woken: set<nat>, notifying: set<nat>)

  function Initial(): State {
    State(seq(CAPACITY, i => i), map[], {}, {}, {})
  }

  predicate Started(s: State, call: nat) {
    call in s.holding || call in s.waiting || call in s.woken || call in s.notifying
  }

  // ----- what happens while the mutex is held is one step -----

  /** `Open` up to the first wait, or to the end. */
  ghost predicate Opens(s: State, t: State, call: nat) {
    !Started(s, call) && t == TakeOrWait(s, call)
  }

  /** The loop around the wait: take the front connection if there is one, else sleep. */
  function TakeOrWait(s: State, call: nat): State {
    if s.pool == [] then s.(waiting := s.waiting + {call})
    else s.(pool := s.pool[1..], holding := s.holding[call := s.pool[0]])
  }

  /** A sleeper wakes although nobody notified. */
  ghost predicate WakesSpuriously(s: State, t: State, call: nat) {
    call in s.waiting && t == s.(waiting := s.waiting - {call}, woken := s.woken + {call})
  }

  /** A woken call has the mutex again and looks once more. */
  ghost predicate LooksAgain(s: State, t: State, call: nat) {
    call in s.woken && t == TakeOrWait(s.(woken := s.woken - {call}), call)
  }

  /** `Return` up to unlocking. */
  ghost predicate PutsBack(s: State, t: State, call: nat) {
    && call in s.holding
    && t == s.(pool := s.pool + [s.holding[call]], holding := s.holding - {call}, notifying := s.notifying + {call})
  }

  /** `notify_one`, outside the mutex: one sleeper is woken if there is any. */
  ghost predicate Notifies(s: State, t: State, call: nat, sleeper: nat) {
    && call in s.notifying
    && if s.waiting == {} then t == s.(notifying := s.notifying - {call})
       else sleeper in s.waiting &&
            t == s.(notifying := s.notifying - {call}, waiting := s.waiting - {sleeper}, woken := s.woken + {sleeper})
  }

  ghost predicate Step(s: State, t: State) {
    exists call: nat, sleeper: nat :: StepOf(s, t, call, sleeper)
  }

  ghost predicate StepOf(s: State, t: State, call: nat, sleeper: nat) {
    || Opens(s, t, call) || WakesSpuriously(s, t, call) || LooksAgain(s, t, call)
    || PutsBack(s, t, call) || Notifies(s, t, call, sleeper)
  }

  ghost predicate IsRun(run: seq<State>) {
    run != [] && run[0] == Initial() && forall i | 0 <= i < |run| - 1 :: Step(run[i], run[i + 1])
  }

  // ----- safety -----

  predicate NoDuplicates(pool: seq<nat>) {
    forall i, j | 0 <= i < j < |pool| :: pool[i] != pool[j]
  }

  /** Each of the ten connections is in the deque once, or held by exactly one call, and nothing else is. */
  ghost predicate Conserved(s: State) {
    && NoDuplicates(s.pool)
    && (forall c: nat | c < CAPACITY :: c in s.pool <==> c !in s.holding.Values)
    && (forall c | c in s.pool :: c < CAPACITY) && (forall c | c in s.holding.Values :: c < CAPACITY)
    && (forall a, b | a in s.holding && b in s.holding && a != b :: s.holding[a] != s.holding[b])
  }

  /** A call is in one place. */
  ghost predicate Apart(s: State) {
    s.waiting !! s.woken && s.waiting !! s.notifying && s.woken !! s.notifying && s.holding.Keys !! (s.waiting + s.woken + s.notifying)
  }

  /** While somebody sleeps, every free connection has a notification or a woken call that is going to look for it. */
  ghost predicate NoLostWakeup(s: State) {
    s.waiting != {} ==> |s.pool| <= |s.notifying| + |s.woken|
  }

  ghost predicate Invariant(s: State) {
    Conserved(s) && Apart(s) && NoLostWakeup(s)
  }

  lemma TakeConserves(s: State, call: nat)
    requires Conserved(s) && s.pool != [] && call !in s.holding
    ensures Conserved(TakeOrWait(s, call))
  {
    var t, taken := TakeOrWait(s, call), s.pool[0];
    assert forall c :: c in s.pool <==> c == taken || c in t.pool;
    assert taken !in t.pool;
    assert forall c :: c in t.holding.Values <==> c == taken || c in s.holding.Values by {
      assert t.holding[call] == taken;
      forall c | c in s.holding.Values ensures c in t.holding.Values {
        var k :| k in s.holding && s.holding[k] == c;
        assert t.holding[k] == c;
      }
    }
    assert taken in s.pool && taken < CAPACITY;
    assert taken !in s.holding.Values;
    forall a | a in s.holding ensures s.holding[a] != taken { assert s.holding[a] in s.holding.Values; }
  }

  lemma PutBackConserves(s: State, t: State, call: nat)
    requires Conserved(s) && PutsBack(s, t, call)
    ensures Conserved(t)
  {
    var back := s.holding[call];
    assert back in s.holding.Values && back !in s.pool;
    assert forall c :: c in t.pool <==> c == back || c in s.pool;
    forall c ensures c in t.holding.Values <==> c != back && c in s.holding.Values {
      if c in s.holding.Values && c != back {
        var k :| k in s.holding && s.holding[k] == c;
        assert t.holding[k] == c;
      }
    }
  }

  lemma TakeOrWaitKeeps(s: State, call: nat)
    requires Conserved(s) && Apart(s) && !Started(s, call)
    requires s.waiting != {} && s.pool != [] ==> |s.pool| <= |s.notifying| + |s.woken| + 1
    ensures Invariant(TakeOrWait(s, call))
  {
    if s.pool != [] { TakeConserves(s, call); }
  }

  lemma PutBackKeeps(s: State, t: State, call: nat)
    requires Invariant(s) && PutsBack(s, t, call)
    ensures Invariant(t)
  {
    PutBackConserves(s, t, call);
    assert call !in s.notifying && |t.notifying| == |s.notifying| + 1;
  }

  lemma NotifyKeeps(s: State, t: State, call: nat, sleeper: nat)
    requires Invariant(s) && Notifies(s, t, call, sleeper)
    ensures Invariant(t)
  {
    assert |t.notifying| == |s.notifying| - 1;
    if s.waiting != {} { assert |t.woken| == |s.woken| + 1; }
  }

  lemma WakeKeeps(s: State, t: State, call: nat)
    requires Invariant(s) && WakesSpuriously(s, t, call)
    ensures Invariant(t)
  {
    assert |t.woken| == |s.woken| + 1;
  }

  lemma StepKeeps(s: State, t: State, call: nat, sleeper: nat)
    requires Invariant(s) && StepOf(s, t, call, sleeper)
    ensures Invariant(t)
  {
    if Opens(s, t, call) {
      TakeOrWaitKeeps(s, call);
    } else if LooksAgain(s, t, call) {
      TakeOrWaitKeeps(s.(woken := s.woken - {call}), call);
    } else if PutsBack(s, t, call) {
      PutBackKeeps(s, t, call);
    } else if WakesSpuriously(s, t, call) {
      WakeKeeps(s, t, call);
    } else {
      NotifyKeeps(s, t, call, sleeper);
    }
  }

  lemma InitialHolds()
    ensures Invariant(Initial())
  {
    var s := Initial();
    forall c: nat | c < CAPACITY ensures c in s.pool { assert s.pool[c] == c; }
    assert s.holding.Values == {};
  }

  /** In every run, whatever the interleaving, the invariant holds all along. */
  lemma {:induction false} RunsKeep(run: seq<State>, i: nat)
    requires IsRun(run) && i < |run|
    ensures Invariant(run[i])
  {
    if i == 0 {
      InitialHolds();
    } else {
      RunsKeep(run, i - 1);
      var call: nat, sleeper: nat :| StepOf(run[i - 1], run[i - 1 + 1], call, sleeper);
      StepKeeps(run[i - 1], run[i], call, sleeper);
    }
  }

  /** No more than ten connections are ever out, and none is out twice. */
  lemma {:induction false} HoldersAndFree(s: State)
    requires Conserved(s)
    ensures |s.pool| + |s.holding.Keys| == 10
  {
    var out := s.holding.Values;
    var free := set c | c in s.pool;
    DistinctSize(s.pool, free);
    InjectiveSize(s.holding);
    PartsOf(CAPACITY, free, out);
  }

  lemma {:induction false} DistinctSize(pool: seq<nat>, elements: set<nat>)
    requires NoDuplicates(pool) && elements == set c | c in pool
    ensures |elements| == |pool|
  {
    if pool != [] {
      var rest := set c | c in pool[1..];
      DistinctSize(pool[1..], rest);
      assert elements == rest + {pool[0]} && pool[0] !in rest;
    }
  }

  lemma {:induction false} InjectiveSize(m: map<nat, nat>)
    requires forall a, b | a in m && b in m && a != b :: m[a] != m[b]
    ensures |m.Values| == |m.Keys|
    decreases |m.Keys|
  {
    if m.Keys != {} {
      var k :| k in m;
      var rest := m - {k};
      InjectiveSize(rest);
      assert m.Keys == rest.Keys + {k};
      forall v ensures v in m.Values <==> v in rest.Values || v == m[k] {
        if v in m.Values && v != m[k] {
          var a :| a in m && m[a] == v;
          assert rest[a] == v;
        }
      }
      assert m.Values == rest.Values + {m[k]} && m[k] !in rest.Values;
    }
  }

  ghost function Below(n: nat): (b: set<nat>)
    ensures |b| == n && forall c: nat :: c in b <==> c < n
  {
    if n == 0 then {}
    else
      var less := Below(n - 1);
      assert n - 1 !in less;
      less + {n - 1}
  }

  lemma PartsOf(n: nat, free: set<nat>, out: set<nat>)
    requires free !! out && forall c: nat :: c in free || c in out <==> c < n
    ensures |free| + |out| == n
  {
    assert free + out == Below(n);
  }

  // ----- progress -----

  /** The steps that finish what has begun, without a new call and without waking for no reason. */
  ghost predicate Finishes(s: State, t: State, call: nat, sleeper: nat) {
    LooksAgain(s, t, call) || Notifies(s, t, call, sleeper)
  }

  function Unfinished(s: State): nat {
    2 * |s.notifying| + |s.woken|
  }

  predicate Quiet(s: State) {
    s.notifying == {} && s.woken == {}
  }

  /** When nothing is left to finish, nobody sleeps while a connection is free. */
  lemma QuietMeansServed(s: State)
    requires Invariant(s) && Quiet(s)
    ensures s.waiting == {} || s.pool == []
  {
  }

  /** Finishing ends: every such step brings it nearer. */
  lemma FinishingEnds(s: State, t: State, call: nat, sleeper: nat)
    requires Apart(s) && Finishes(s, t, call, sleeper)
    ensures Unfinished(t) < Unfinished(s)
  {
    if call in s.notifying && Notifies(s, t, call, sleeper) {
      assert |t.notifying| == |s.notifying| - 1;
    }
  }

  /** And it never gets stuck before that. */
  lemma FinishingGoesOn(s: State) returns (t: State, call: nat, sleeper: nat)
    requires !Quiet(s)
    ensures Finishes(s, t, call, sleeper)
  {
    sleeper := 0;
    if s.woken != {} {
      call :| call in s.woken;
      t := TakeOrWait(s.(woken := s.woken - {call}), call);
    } else {
      call :| call in s.notifying;
      t := s.(notifying := s.notifying - {call});
      if s.waiting != {} {
        sleeper :| sleeper in s.waiting;
        t := t.(waiting := s.waiting - {sleeper}, woken := s.woken + {sleeper});
      }
    }
  }

  /** A state that finishing steps lead to. */
  ghost predicate LeadsTo(s: State, t: State, steps: nat)
    decreases steps
  {
    if steps == 0 then s == t
    else exists next: State, call: nat, sleeper: nat :: Finishes(s, next, call, sleeper) && LeadsTo(next, t, steps - 1)
  }

  /** From every reachable state, finitely many finishing steps lead to one in which no sleeper misses a free connection. */
  lemma {:induction false} SleepersAreServed(s: State) returns (t: State, steps: nat)
    requires Invariant(s)
    ensures LeadsTo(s, t, steps) && steps <= Unfinished(s)
    ensures Invariant(t) && Quiet(t) && (t.waiting == {} || t.pool == [])
    decreases Unfinished(s)
  {
    if Quiet(s) {
      t, steps := s, 0;
      QuietMeansServed(s);
    } else {
      var next, call, sleeper := FinishingGoesOn(s);
      FinishingEnds(s, next, call, sleeper);
      StepKeeps(s, next, call, sleeper);
      t, steps := SleepersAreServed(next);
      steps := steps + 1;
    }
  }

  // ----- the object -----

  /** The pool with its deque and what the threads inside it are doing; each method is what one thread does at a stretch. */
  class Pool {
    var connections: seq<nat>
    ghost var state: State

    ghost predicate Valid()
      reads this
    {
      connections == state.pool && Invariant(state)
    }

    constructor ()
      ensures Valid() && state == Initial()
    {
      connections := seq(CAPACITY, i => i);
      state := Initial();
      new;
      InitialHolds();
    }

    /** The body of the loop in `Open`, entered with the mutex; nothing when it went to sleep. */
    method TryTake(ghost call: nat, ghost again: bool) returns (taken: bool, connection: nat)
      requires Valid() && if again then call in state.woken else !Started(state, call)
      modifies this
      ensures Valid() && if again then LooksAgain(old(state), state, call) else Opens(old(state), state, call)
      ensures taken == (old(connections) != []) && (taken ==> connection == old(connections)[0] && state.holding[call] == connection)
      ensures !taken ==> call in state.waiting
    {
      ghost var before := if again then state.(woken := state.woken - {call}) else state;
      ghost var after := TakeOrWait(before, call);
      StepKeeps(state, after, call, 0);
      state := after;
      taken, connection := |connections| > 0, 0;
      if taken {
        connection := connections[0];
        connections := connections[1..];
      }
    }

    method Return(ghost call: nat, connection: nat)
      requires Valid() && call in state.holding && state.holding[call] == connection
      modifies this
      ensures Valid() && PutsBack(old(state), state, call)
      ensures connections == old(connections) + [connection]
    {
      ghost var after := state.(pool := state.pool + [connection], holding := state.holding - {call},
                                notifying := state.notifying + {call});
      StepKeeps(state, after, call, 0);
      state := after;
      connections := connections + [connection];
    }

    ghost method NotifyOne(call: nat, sleeper: nat)
      requires Valid() && call in state.notifying && (state.waiting != {} ==> sleeper in state.waiting)
      modifies this`state
      ensures Valid() && Notifies(old(state), state, call, sleeper)
    {
      var after := state.(notifying := state.notifying - {call});
      if state.waiting != {} {
        after := after.(waiting := state.waiting - {sleeper}, woken := state.woken + {sleeper});
      }
      StepKeeps(state, after, call, sleeper);
      state := after;
    }
  }

  /** `Prepare` goes over ten connections of the deque: they are there exactly while none is out. */
  lemma PrepareNeedsAll(s: State)
    requires Conserved(s)
    ensures |s.pool| >= 10 <==> s.holding == map[]
  {
    HoldersAndFree(s);
    if |s.pool| >= CAPACITY { assert s.holding.Keys == {}; }
  }
}
