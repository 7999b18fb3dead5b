/**
 The per-call lock registry of one worker process. Each critical section is one
 atomic step; any number of threads interleave them freely. Lock objects are values
 of an arbitrary type, so the imperative registry below can use its own objects.
 */
module LockRegistry {
  import opened Results

  type Thread = nat
  type CallId = nat

  /** Where a live thread is: queued on a mutex, holding it, or past it but still counted. */
  datatype Place<L> =
    | Waiting(call: CallId, lock: L)
    | Holding(call: CallId, lock: L)
    | Released(call: CallId, lock: L)

  datatype State<L> = State(
    locks: map<CallId, L>,
    refs: map<L, int>,
    holder: map<L, Thread>,
    threads: map<Thread, Place<L>>)

  datatype Step<L> =
    | Enter(thread: Thread, call: CallId, unused: L)
    | Acquire(thread: Thread)
    | Unlock(thread: Thread)
    | Drop(thread: Thread)

  function Init<L(==)>(): State<L> {
    State(map[], map[], map[], map[])
  }

  predicate Enabled<L(==)>(s: State<L>, step: Step<L>) {
    match step
    case Enter(t, call, unused) => t !in s.threads && (call !in s.locks ==> unused !in s.refs)
    case Acquire(t) => t in s.threads && s.threads[t].Waiting? && s.threads[t].lock !in s.holder
    case Unlock(t) => t in s.threads && s.threads[t].Holding?
    case Drop(t) => t in s.threads && s.threads[t].Released?
  }

  function Refs<L(==)>(s: State<L>, lock: L): int {
    if lock in s.refs then s.refs[lock] else 0
  }

  /** The four critical sections of `Lock` and the release it returns. */
  function Apply<L(==)>(s: State<L>, step: Step<L>): State<L>
    requires Enabled(s, step)
  {
    match step
    case Enter(t, call, unused) =>
      var lock := if call in s.locks then s.locks[call] else unused;
      s.(locks := s.locks[call := lock],
         refs := s.refs[lock := Refs(s, lock) + 1],
         threads := s.threads[t := Waiting(call, lock)])
    case Acquire(t) =>
      var p := s.threads[t];
      s.(holder := s.holder[p.lock := t], threads := s.threads[t := Holding(p.call, p.lock)])
    case Unlock(t) =>
      var p := s.threads[t];
      s.(holder := s.holder - {p.lock}, threads := s.threads[t := Released(p.call, p.lock)])
    case Drop(t) =>
      var p := s.threads[t];
      var refs := Refs(s, p.lock) - 1;
      s.(locks := if refs == 0 then s.locks - {p.call} else s.locks,
         refs := s.refs[p.lock := refs],
         threads := s.threads - {t})
  }

  ghost function Users<L>(s: State<L>, lock: L): set<Thread> {
    set t | t in s.threads && s.threads[t].lock == lock
  }

  /** Every live thread shares the object that the map holds for its call. */
  ghost predicate Shared<L>(s: State<L>) {
    forall t | t in s.threads ::
      s.threads[t].call in s.locks && s.locks[s.threads[t].call] == s.threads[t].lock
  }

  /** Different calls have different lock objects. */
  ghost predicate Separate<L>(s: State<L>) {
    forall c, d | c in s.locks && d in s.locks :: s.locks[c] == s.locks[d] ==> c == d
  }

  /** The count is the number of threads waiting, holding, or released but not yet gone. */
  ghost predicate Counted<L>(s: State<L>) {
    forall l | l in s.refs :: s.refs[l] == |Users(s, l)|
  }

  /** The map keeps a call exactly as long as some thread is counted on it. */
  ghost predicate Needed<L>(s: State<L>) {
    forall c | c in s.locks :: s.locks[c] in s.refs && s.refs[s.locks[c]] > 0
  }

  /** A mutex is held by the one thread that believes it holds it. */
  ghost predicate Exclusive<L>(s: State<L>) {
    && (forall l | l in s.holder ::
          s.holder[l] in s.threads && s.threads[s.holder[l]].Holding? && s.threads[s.holder[l]].lock == l)
    && (forall t | t in s.threads :: s.threads[t].Holding? ==>
          s.threads[t].lock in s.holder && s.holder[s.threads[t].lock] == t)
  }

  ghost predicate Inv<L>(s: State<L>) {
    Shared(s) && Separate(s) && Counted(s) && Needed(s) && Exclusive(s)
  }

  lemma InitInv<L>()
    ensures Inv<L>(Init())
  {
  }

  lemma UnusedHasNoUsers<L>(s: State<L>, lock: L)
    requires Shared(s) && Needed(s) && lock !in s.refs
    ensures Users(s, lock) == {}
    ensures forall c | c in s.locks :: s.locks[c] != lock
  {
    forall t | t in s.threads ensures s.threads[t].lock != lock {
      assert s.locks[s.threads[t].call] in s.refs;
    }
  }

  lemma NewUser<L>(s: State<L>, s': State<L>, t: Thread, lock: L, l: L)
    requires t !in s.threads && t in s'.threads && s'.threads[t].lock == lock
    requires s'.threads == s.threads[t := s'.threads[t]]
    ensures Users(s', l) == if l == lock then Users(s, l) + {t} else Users(s, l)
  {
  }

  lemma EnterCounts<L>(s: State<L>, t: Thread, call: CallId, unused: L)
    requires Shared(s) && Counted(s) && Needed(s) && Enabled(s, Enter(t, call, unused))
    ensures Counted(Apply(s, Enter(t, call, unused)))
  {
    var s' := Apply(s, Enter(t, call, unused));
    var lock := s'.threads[t].lock;
    if call !in s.locks { UnusedHasNoUsers(s, unused); } else { assert lock in s.refs; }
    forall l | l in s'.refs ensures s'.refs[l] == |Users(s', l)| {
      NewUser(s, s', t, lock, l);
      assert l != lock ==> l in s.refs;
    }
  }

  lemma EnterKeepsInv<L>(s: State<L>, t: Thread, call: CallId, unused: L)
    requires Inv(s) && Enabled(s, Enter(t, call, unused))
    ensures Inv(Apply(s, Enter(t, call, unused)))
  {
    var s' := Apply(s, Enter(t, call, unused));
    EnterCounts(s, t, call, unused);
    if call !in s.locks { UnusedHasNoUsers(s, unused); }
    assert Shared(s');
    assert Separate(s');
    assert Needed(s') by {
      forall c | c in s'.locks ensures s'.locks[c] in s'.refs && s'.refs[s'.locks[c]] > 0 {
        if c != call { assert s.locks[c] in s.refs; }
      }
    }
    EnterIsExclusive(s, t, call, unused);
  }

  lemma EnterIsExclusive<L>(s: State<L>, t: Thread, call: CallId, unused: L)
    requires Exclusive(s) && Enabled(s, Enter(t, call, unused))
    ensures Exclusive(Apply(s, Enter(t, call, unused)))
  {
  }

  /** Moving one thread along without changing its call or lock keeps all but exclusivity. */
  lemma MovingKeepsCounts<L>(s: State<L>, s': State<L>, t: Thread)
    requires Shared(s) && Separate(s) && Counted(s) && Needed(s) && s'.locks == s.locks && s'.refs == s.refs
    requires t in s.threads && s'.threads.Keys == s.threads.Keys
    requires s'.threads[t].call == s.threads[t].call && s'.threads[t].lock == s.threads[t].lock
    requires forall u | u in s.threads && u != t :: s'.threads[u] == s.threads[u]
    ensures Shared(s') && Separate(s') && Counted(s') && Needed(s')
  {
    assert forall u | u in s.threads :: s'.threads[u].lock == s.threads[u].lock;
    forall l | l in s'.refs ensures s'.refs[l] == |Users(s', l)| {
      SameUsers(s, s', l);
    }
  }

  lemma SameUsers<L>(s: State<L>, s': State<L>, l: L)
    requires s'.threads.Keys == s.threads.Keys
    requires forall u | u in s.threads :: s'.threads[u].lock == s.threads[u].lock
    ensures Users(s', l) == Users(s, l)
  {
    assert forall u :: u in s'.threads <==> u in s'.threads.Keys;
  }

  lemma AcquireIsExclusive<L>(s: State<L>, t: Thread)
    requires Exclusive(s) && Enabled(s, Acquire(t))
    ensures Exclusive(Apply(s, Acquire(t)))
  {
  }

  lemma UnlockIsExclusive<L>(s: State<L>, t: Thread)
    requires Exclusive(s) && Enabled(s, Unlock(t))
    ensures Exclusive(Apply(s, Unlock(t)))
  {
  }

  lemma AcquireKeepsInv<L>(s: State<L>, t: Thread)
    requires Inv(s) && Enabled(s, Acquire(t))
    ensures Inv(Apply(s, Acquire(t)))
  {
    var s' := Apply(s, Acquire(t));
    MovingKeepsCounts(s, s', t);
    AcquireIsExclusive(s, t);
  }

  lemma UnlockKeepsInv<L>(s: State<L>, t: Thread)
    requires Inv(s) && Enabled(s, Unlock(t))
    ensures Inv(Apply(s, Unlock(t)))
  {
    var s' := Apply(s, Unlock(t));
    MovingKeepsCounts(s, s', t);
    UnlockIsExclusive(s, t);
  }

  lemma DropCounts<L>(s: State<L>, t: Thread)
    requires Inv(s) && Enabled(s, Drop(t))
    ensures s.threads[t].lock in s.refs
    ensures Counted(Apply(s, Drop(t)))
  {
    var s' := Apply(s, Drop(t));
    var p := s.threads[t];
    assert s.locks[p.call] in s.refs;
    forall l | l in s'.refs ensures s'.refs[l] == |Users(s', l)| {
      assert Users(s', l) == Users(s, l) - {t};
      if l == p.lock { assert t in Users(s, l); } else { assert t !in Users(s, l); }
    }
  }

  lemma DropKeepsInv<L>(s: State<L>, t: Thread)
    requires Inv(s) && Enabled(s, Drop(t))
    ensures Inv(Apply(s, Drop(t)))
  {
    var s' := Apply(s, Drop(t));
    var p := s.threads[t];
    DropCounts(s, t);
    assert Shared(s') by {
      forall u | u in s'.threads
        ensures s'.threads[u].call in s'.locks && s'.locks[s'.threads[u].call] == s'.threads[u].lock
      {
        if s'.threads[u].call == p.call {
          assert u in Users(s', p.lock);
        }
      }
    }
    DropIsNeeded(s, t);
    DropIsExclusive(s, t);
  }

  lemma DropIsNeeded<L>(s: State<L>, t: Thread)
    requires Shared(s) && Separate(s) && Needed(s) && Enabled(s, Drop(t))
    ensures Separate(Apply(s, Drop(t))) && Needed(Apply(s, Drop(t)))
  {
    var s' := Apply(s, Drop(t));
    var p := s.threads[t];
    forall c | c in s'.locks ensures s'.locks[c] in s'.refs && s'.refs[s'.locks[c]] > 0 {
      assert s.locks[c] in s.refs && s.refs[s.locks[c]] > 0;
      if s'.locks[c] == p.lock { assert c == p.call; }
    }
  }

  lemma DropIsExclusive<L>(s: State<L>, t: Thread)
    requires Exclusive(s) && Enabled(s, Drop(t))
    ensures Exclusive(Apply(s, Drop(t)))
  {
  }

  /** Every critical section keeps the invariant. */
  lemma StepKeepsInv<L>(s: State<L>, step: Step<L>)
    requires Inv(s) && Enabled(s, step)
    ensures Inv(Apply(s, step))
  {
    match step
    case Enter(t, call, unused) => EnterKeepsInv(s, t, call, unused);
    case Acquire(t) => AcquireKeepsInv(s, t);
    case Unlock(t) => UnlockKeepsInv(s, t);
    case Drop(t) => DropKeepsInv(s, t);
  }

  ghost predicate Run<L>(s: State<L>, steps: seq<Step<L>>, end: State<L>)
    decreases |steps|
  {
    if steps == [] then s == end
    else Enabled(s, steps[0]) && Run(Apply(s, steps[0]), steps[1..], end)
  }

  /** Over every interleaving from the empty registry the invariant holds. */
  lemma {:induction false} RunKeepsInv<L>(s: State<L>, steps: seq<Step<L>>, end: State<L>)
    requires Inv(s) && Run(s, steps, end)
    ensures Inv(end)
    decreases |steps|
  {
    if steps != [] {
      StepKeepsInv(s, steps[0]);
      RunKeepsInv(Apply(s, steps[0]), steps[1..], end);
    }
  }

  /** At most one thread at a time is past `Lock` for one call. */
  lemma MutualExclusion<L>(s: State<L>, t: Thread, u: Thread)
    requires Inv(s)
    requires t in s.threads && s.threads[t].Holding? && u in s.threads && s.threads[u].Holding?
    requires s.threads[t].call == s.threads[u].call
    ensures t == u
  {
  }

  /** The map holds exactly the calls some live thread is counted on; idle means empty. */
  lemma NoLeak<L>(s: State<L>)
    requires Inv(s)
    ensures s.locks.Keys == set t | t in s.threads :: s.threads[t].call
    ensures s.threads == map[] ==> s.locks == map[]
  {
    forall c | c in s.locks ensures exists t :: t in s.threads && s.threads[t].call == c {
      var l := s.locks[c];
      assert |Users(s, l)| > 0;
      var t :| t in Users(s, l);
      assert s.locks[s.threads[t].call] == s.locks[c];
    }
  }

  /** `delete` removes that call's lock and only when nobody else is counted on it. */
  lemma DropDeletesOnlyTheIdleLock<L>(s: State<L>, t: Thread)
    requires Inv(s) && Enabled(s, Drop(t))
    ensures var p := s.threads[t];
            var s' := Apply(s, Drop(t));
            && (s'.locks == s.locks || s'.locks == s.locks - {p.call})
            && (p.call !in s'.locks <==> forall u | u in s.threads && s.threads[u].call == p.call :: u == t)
            && s.locks[p.call] == p.lock
  {
    var p := s.threads[t];
    var s' := Apply(s, Drop(t));
    DropKeepsInv(s, t);
    NoLeak(s');
    if u: Thread :| u in s.threads && s.threads[u].call == p.call && u != t {
      assert u in s'.threads && s'.threads[u].call == p.call;
    }
  }

  /** A later caller joins the lock a waiting thread is queued on; it cannot bypass it. */
  lemma LaterCallerJoins<L>(s: State<L>, t: Thread, u: Thread, unused: L)
    requires Inv(s) && u in s.threads && Enabled(s, Enter(t, s.threads[u].call, unused))
    ensures Apply(s, Enter(t, s.threads[u].call, unused)).threads[t].lock == s.threads[u].lock
    ensures Apply(s, Enter(t, s.threads[u].call, unused)).threads[u] == s.threads[u]
  {
  }

  // ----- progress -----

  /** The steps all live threads together still have to take. */
  ghost function Load<L>(s: State<L>): nat {
    |s.threads.Keys| + |Busy(s)| + |Queued(s)|
  }

  ghost function Busy<L>(s: State<L>): set<Thread> {
    set t | t in s.threads && !s.threads[t].Released?
  }

  ghost function Queued<L>(s: State<L>): set<Thread> {
    set t | t in s.threads && s.threads[t].Waiting?
  }

  lemma StepShrinksOneSet<L>(s: State<L>, step: Step<L>)
    requires Enabled(s, step) && !step.Enter?
    ensures Apply(s, step).threads.Keys == if step.Drop? then s.threads.Keys - {step.thread} else s.threads.Keys
    ensures Busy(Apply(s, step)) == if step.Unlock? then Busy(s) - {step.thread} else Busy(s)
    ensures Queued(Apply(s, step)) == if step.Acquire? then Queued(s) - {step.thread} else Queued(s)
  {
  }

  /** Every step of a live thread brings the registry one step nearer to idle. */
  lemma EveryStepIsWork<L>(s: State<L>, step: Step<L>)
    requires Enabled(s, step) && !step.Enter?
    ensures Load(Apply(s, step)) == Load(s) - 1
  {
    StepShrinksOneSet(s, step);
    assert step.Drop? ==> step.thread in s.threads.Keys;
    assert step.Unlock? ==> step.thread in Busy(s);
    assert step.Acquire? ==> step.thread in Queued(s);
  }

  /** No deadlock: while a thread is live, some live thread can take its next step. */
  lemma SomeThreadCanStep<L>(s: State<L>) returns (step: Step<L>)
    requires Inv(s) && s.threads != map[]
    ensures !step.Enter? && Enabled(s, step)
  {
    var t :| t in s.threads;
    match s.threads[t]
    case Waiting(_, lock) =>
      if lock in s.holder { step := Unlock(s.holder[lock]); } else { step := Acquire(t); }
    case Holding(_, _) => step := Unlock(t);
    case Released(_, _) => step := Drop(t);
  }

  /** From every state the live threads can all finish, leaving the map empty. */
  lemma {:induction false} Drains<L>(s: State<L>) returns (steps: seq<Step<L>>, end: State<L>)
    requires Inv(s)
    ensures Run(s, steps, end) && |steps| == Load(s)
    ensures end.threads == map[] && end.locks == map[]
    decreases Load(s)
  {
    if s.threads == map[] {
      NoLeak(s);
      assert Load(s) == 0;
      steps, end := [], s;
    } else {
      var step := SomeThreadCanStep(s);
      StepKeepsInv(s, step);
      EveryStepIsWork(s, step);
      var rest;
      rest, end := Drains(Apply(s, step));
      steps := [step] + rest;
    }
  }

  // ----- the registry itself -----

  /** A lock object: its reference count and the state of its mutex. */
  class CallLock {
    var refs: int
    var heldBy: Option<Thread>

    constructor ()
      ensures refs == 0 && heldBy.None?
    {
      refs, heldBy := 0, None;
    }
  }

  /** `callLockRegistry`; the ghost fields remember the objects made and the live threads. */
  class CallLockRegistry {
    var locks: map<CallId, CallLock>
    ghost var made: set<CallLock>
    ghost var threads: map<Thread, Place<CallLock>>

    ghost function View(): State<CallLock>
      reads this, made
    {
      State(locks,
            map l | l in made :: l.refs,
            map l | l in made && l.heldBy.Some? :: l.heldBy.value,
            threads)
    }

    /** Every lock the map or a live thread refers to is one this registry made. */
    ghost predicate Valid()
      reads this, made
    {
      && (forall c | c in locks :: locks[c] in made)
      && (forall t | t in threads :: threads[t].lock in made)
    }

    constructor ()
      ensures Valid() && View() == Init()
    {
      locks, made, threads := map[], {}, map[];
    }

    /** The entry of a call, made with nobody counted on it if there is none. */
    method FindOrMake(callID: CallId) returns (lock: CallLock)
      requires Valid()
      modifies this`locks, this`made
      ensures Valid() && lock in made && locks == old(locks)[callID := lock]
      ensures callID in old(locks) ==> lock == old(locks)[callID] && made == old(made)
      ensures callID !in old(locks) ==>
                made == old(made) + {lock} && fresh(lock) && lock.refs == 0 && lock.heldBy.None?
    {
      if callID in locks {
        return locks[callID];
      }
      lock := new CallLock();
      locks := locks[callID := lock];
      made := made + {lock};
    }

    /** The first section of `Lock`: find or create the entry and count the caller. */
    method Enter(t: Thread, callID: CallId) returns (lock: CallLock)
      requires Valid() && t !in threads
      modifies this, made
      ensures Valid() && made == old(made) + {lock} && fresh(made - old(made))
      ensures Enabled(old(View()), Step.Enter(t, callID, lock))
      ensures View() == Apply(old(View()), Step.Enter(t, callID, lock))
    {
      lock := FindOrMake(callID);
      lock.refs := lock.refs + 1;
      threads := threads[t := Waiting(callID, lock)];
    }

    /** `lock.mu.Lock()`, taken once the mutex is free. */
    method Acquire(t: Thread, lock: CallLock)
      requires Valid() && t in threads && threads[t].Waiting? && threads[t].lock == lock
      requires lock.heldBy.None?
      modifies this, made
      ensures Valid() && made == old(made)
      ensures Enabled(old(View()), Step.Acquire(t)) && View() == Apply(old(View()), Step.Acquire(t))
    {
      lock.heldBy := Some(t);
      threads := threads[t := Holding(threads[t].call, lock)];
    }

    /** `lock.mu.Unlock()`, first half of the release closure. */
    method Unlock(t: Thread, lock: CallLock)
      requires Valid() && t in threads && threads[t].Holding? && threads[t].lock == lock
      modifies this, made
      ensures Valid() && made == old(made)
      ensures Enabled(old(View()), Step.Unlock(t)) && View() == Apply(old(View()), Step.Unlock(t))
    {
      lock.heldBy := None;
      threads := threads[t := Released(threads[t].call, lock)];
    }

    /** The second half: stop counting the caller and forget the entry nobody needs. */
    method Drop(t: Thread, callID: CallId, lock: CallLock)
      requires Valid() && t in threads && threads[t] == Released(callID, lock)
      modifies this, made
      ensures Valid() && made == old(made)
      ensures Enabled(old(View()), Step.Drop(t)) && View() == Apply(old(View()), Step.Drop(t))
    {
      lock.refs := lock.refs - 1;
      if lock.refs == 0 {
        locks := locks - {callID};
      }
      threads := threads - {t};
    }
  }
}
