/**
  Whatever threads and interrupts do on the kernel is, for one semaphore and for one mutex, a run of their atomic
  sections: what is proved of those runs holds on the kernel.
 */
module KernelRuns {
  import opened Basics
  import opened KernelLists
  import opened Scheduler
  import opened KernelBlocking
  import opened RoundRobin
  import S = SemaphoreRuns
  import M = MutexRuns

  // ----- what other calls do to a wait list -----

  lemma MoveAvoids(lists: Lists, t: Tid, to: ListId, id: ListId)
    requires id in lists && to in lists && to != id
    ensures Moved(lists, t, to)[id] == Drop(lists[id], t)
  {
  }

  lemma {:induction false} AwakeAvoids(lists: Lists, prio: map<Tid, nat>, sleep: map<Tid, int>, ts: seq<Tid>, w: int)
    requires Apart(lists) && SleepersKnown(lists, prio, sleep, ts) && Distinct(ts) && Waiting(w) in lists
    requires forall k :: 0 <= k < |ts| ==> On(lists, Sleeping, ts[k])
    ensures Waiting(w) in Awake(lists, prio, sleep, ts) && Awake(lists, prio, sleep, ts)[Waiting(w)] == lists[Waiting(w)]
    decreases |ts|
  {
    if ts != [] {
      var t := ts[0];
      var q := Ready(prio[t]);
      var l := if Dec16(sleep[t]) == 0 then Moved(lists, t, q) else lists;
      assert On(lists, Sleeping, t);
      NotOn(lists, Sleeping, Waiting(w), t);
      DropOther(lists[Waiting(w)], t, t);
      MovedApart(lists, t, q);
      assert forall k :: 0 <= k < |ts[1..]| ==> ts[1..][k] == ts[k + 1] != t;
      AwakeAvoids(l, prio, sleep, ts[1..], w);
    }
  }

  lemma TickAvoids(s: Snap, s': Snap, w: int)
    requires Good(s) && Ticked(s, s') && On(s.lists, Ready(s.prio[s.current]), s.current) && Waiting(w) in s.lists
    ensures Waiting(w) in s'.lists && s'.lists[Waiting(w)] == s.lists[Waiting(w)]
  {
    var sliced := Sliced(s.lists, s.prio, s.ticks, s.current);
    MovedApart(s.lists, s.current, Ready(s.prio[s.current]));
    NotOn(s.lists, Ready(s.prio[s.current]), Waiting(w), s.current);
    DropOther(s.lists[Waiting(w)], s.current, s.current);
    var ts := sliced[Sleeping];
    assert forall k :: 0 <= k < |ts| ==> On(sliced, Sleeping, ts[k]);
    AwakeAvoids(sliced, s.prio, s.sleep, ts, w);
  }

  lemma TickStep(s: Snap, s': Snap, states: seq<Snap>)
    requires Made(s, Timer, s', states, [Tick])
    ensures Good(s) && Ticked(s, s')
  {
    hide Good, Ticked;
    assert Steps(states[0], [Tick][0], states[0 + 1]);
  }

  lemma NoStep(s: Snap, c: Call, s': Snap, states: seq<Snap>)
    requires Made(s, c, s', states, [])
    ensures s' == s
  {
  }

  lemma MoveStep(s: Snap, c: Call, s': Snap, states: seq<Snap>, t: Tid, to: ListId)
    requires Made(s, c, s', states, [Move(t, to), Switch])
    ensures to in s.lists && s'.lists == Moved(s.lists, t, to)
  {
    hide Good, Moved;
    var ops := [Move(t, to), Switch];
    assert Steps(states[0], ops[0], states[0 + 1]);
    assert Steps(states[1], ops[1], states[1 + 1]);
  }

  lemma CreateStep(s: Snap, c: Call, s': Snap, states: seq<Snap>, t: Tid, p: nat, slice: int)
    requires Made(s, c, s', states, [Create(t, p, slice)])
    ensures Ready(p) in s.lists && s'.lists == s.lists[Ready(p) := s.lists[Ready(p)] + [t]]
  {
    hide Good;
    var ops := [Create(t, p, slice)];
    assert Steps(states[0], ops[0], states[0 + 1]);
  }

  /** A thread that a signal makes ready: one that is not handling a signal already. */
  predicate Interrupts(k: Kernel, c: Call)
    reads k
  {
    c.Signals? && !(c.t in k.status && k.status[c.t] == Interrupted)
  }

  /** What a call does to the wait list of an object it does not name: a signal takes its thread off, others do nothing. */
  method PerformBeside(k: Kernel, objects: set<int>, w: int, c: Call)
    requires Usable(k, objects) && Allowed(k, c, objects) && w !in objects && Waiting(w) in k.lists
    requires c.Deletes? ==> c.t !in k.lists[Waiting(w)]
    modifies k
    ensures Usable(k, objects) && k.started == old(k.started) && Waiting(w) in k.lists
    ensures k.lists[Waiting(w)] ==
            if old(Interrupts(k, c)) then Drop(old(k.lists)[Waiting(w)], c.t) else old(k.lists)[Waiting(w)]
  {
    hide Kernel.Hanging, Good, Moved, Made, Running, Kernel.Elected, IsRun;
    AllowedPossible(k, c, objects);
    ghost var s, ops := Now(k), Sections(k, c);
    CurrentAway(k, w);
    ghost var states := Perform(k, c);
    ghost var list := s.lists[Waiting(w)];
    if c.Timer? {
      TickStep(s, Now(k), states);
      TickAvoids(s, Now(k), w);
    } else if c.Creates? {
      CreateStep(s, c, Now(k), states, c.t, c.p, c.slice);
    } else if ops == [] {
      NoStep(s, c, Now(k), states);
    } else {
      MoveStep(s, c, Now(k), states, ops[0].t, ops[0].to);
      MoveAvoids(s.lists, ops[0].t, ops[0].to, Waiting(w));
      DropOther(list, ops[0].t, ops[0].t);
    }
  }

  /** A current thread that is ready waits for nothing, and nor does a thread that waits for something else. */
  lemma CurrentAway(k: Kernel, w: int)
    requires k.Valid() && Running(k) && Waiting(w) in k.lists
    ensures k.current in k.prio && On(k.lists, Ready(k.prio[k.current]), k.current) && k.current !in k.lists[Waiting(w)]
    ensures forall v :: v != w && Waiting(v) in k.lists && k.lists[Waiting(v)] != [] ==>
              k.lists[Waiting(v)][0] !in k.lists[Waiting(w)]
  {
    NotOn(k.lists, Ready(k.prio[k.current]), Waiting(w), k.current);
    forall v | v != w && Waiting(v) in k.lists && k.lists[Waiting(v)] != []
      ensures k.lists[Waiting(v)][0] !in k.lists[Waiting(w)]
    {
      assert On(k.lists, Waiting(v), k.lists[Waiting(v)][0]);
      NotOn(k.lists, Waiting(v), Waiting(w), k.lists[Waiting(v)][0]);
    }
  }

  // ----- a semaphore -----

  /** What is done about a semaphore: sem_wait is entered, makes a round; sem_post is refused or makes its section; the rest. */
  datatype Act = Enter | Round | Refused | Posts | Other(c: Call)

  /** The kernel and the state of a run of the sections agree about a semaphore. */
  ghost predicate Agrees(k: Kernel, sem: Semaphore, objects: set<int>, s: S.State)
    reads k, sem
  {
    Usable(k, objects) && sem.id !in objects && Waiting(sem.id) in k.lists && s.core == sem.Core(k) && S.Good(s)
  }

  /** No event, or one that is enabled. */
  predicate Follows(s: S.State, events: seq<S.Event>, s': S.State) {
    if events == [] then s' == s else |events| == 1 && S.Enabled(s, events[0]) && s' == S.Step(s, events[0])
  }

  /** A thread that is not in sem_wait. */
  predicate NotIn(s: S.State, t: Tid) {
    t in s.phase ==> s.phase[t] == S.Outside
  }

  /** Each act on the kernel is a section of the semaphore, or does not concern it. Threads in sem_wait do not exit. */
  method PerformAct(k: Kernel, sem: Semaphore, objects: set<int>, a: Act, s: S.State)
    returns (s': S.State, ghost events: seq<S.Event>)
    requires Agrees(k, sem, objects, s)
    modifies sem`value, k
    ensures Agrees(k, sem, objects, s') && Follows(s, events, s')
  {
    hide Kernel.Hanging, Kernel.Valid, S.Good, Running, S.Step, Usable;
    s', events := s, [];
    if a.Enter? && k.current != k.idle && NotIn(s, k.current) {
      events := [S.Call(k.current)];
      S.StepGood(s, S.Call(k.current));
      StepCore(s, k.current);
      s' := S.Step(s, S.Call(k.current));
    } else if a.Round? && k.current != k.idle && k.current in s.phase && s.phase[k.current] == S.Trying {
      events := [S.Attempt(k.current)];
      s' := SemaphoreRound(k, sem, objects, s);
    } else if a.Refused? {
      events := [S.Refusal];
      S.StepGood(s, S.Refusal);
      StepCore(s, k.current);
      s' := S.Step(s, S.Refusal);
    } else if a.Posts? {
      events := [S.Posting];
      s' := SemaphorePost(k, sem, objects, s);
    } else if a.Other? && Allowed(k, a.c, objects) && (a.c.Deletes? ==> NotIn(s, a.c.t)) {
      s', events := SemaphoreOther(k, sem, objects, a.c, s);
    }
  }

  /** The core of the semaphore after an event. */
  lemma StepCore(s: S.State, t: Tid)
    ensures NotIn(s, t) ==> S.Step(s, S.Call(t)).core == s.core
    ensures t in s.phase && s.phase[t] == S.Trying ==> S.Step(s, S.Attempt(t)).core == S.Try(s.core, t)
    ensures S.Step(s, S.Posting).core == S.Post(s.core) && S.Step(s, S.Refusal).core == s.core
    ensures t in s.phase && s.phase[t] == S.Blocked ==>
              S.Step(s, S.Signal(t)).core == s.core.(waiting := Drop(s.core.waiting, t))
  {
  }

  method SemaphoreRound(k: Kernel, sem: Semaphore, objects: set<int>, s: S.State) returns (s': S.State)
    requires Agrees(k, sem, objects, s) && k.current != k.idle && k.current in s.phase && s.phase[k.current] == S.Trying
    modifies sem`value, k
    ensures Agrees(k, sem, objects, s') && s' == S.Step(s, S.Attempt(old(k.current)))
  {
    hide Kernel.Hanging, Kernel.Valid, S.Good, Running, S.Step, Kernel.Elected, Moved;
    S.StepGood(s, S.Attempt(k.current));
    StepCore(s, k.current);
    s' := S.Step(s, S.Attempt(k.current));
    var again := sem.TryWait(k);
    if again {
      ElectedRunning(k);
    }
  }

  method SemaphorePost(k: Kernel, sem: Semaphore, objects: set<int>, s: S.State) returns (s': S.State)
    requires Agrees(k, sem, objects, s)
    modifies sem`value, k
    ensures Agrees(k, sem, objects, s') && s' == S.Step(s, S.Posting)
  {
    hide Kernel.Hanging, Kernel.Valid, S.Good, Running, S.Step, Kernel.Elected, Moved;
    S.StepGood(s, S.Posting);
    StepCore(s, k.current);
    s' := S.Step(s, S.Posting);
    ghost var woken := k.lists[Waiting(sem.id)] != [];
    sem.PostSection(k);
    if woken {
      ElectedRunning(k);
    }
  }

  method SemaphoreOther(k: Kernel, sem: Semaphore, objects: set<int>, c: Call, s: S.State)
    returns (s': S.State, ghost events: seq<S.Event>)
    requires Agrees(k, sem, objects, s) && Allowed(k, c, objects) && (c.Deletes? ==> NotIn(s, c.t))
    modifies sem`value, k
    ensures Agrees(k, sem, objects, s') && Follows(s, events, s')
  {
    hide Kernel.Hanging, Kernel.Valid, Running, S.Step, Usable, Allowed, S.NoneLost, S.Accounted;
    s', events := s, [];
    if Interrupts(k, c) && c.t in s.phase && s.phase[c.t] == S.Blocked {
      events := [S.Signal(c.t)];
      S.StepGood(s, S.Signal(c.t));
      StepCore(s, c.t);
      s' := S.Step(s, S.Signal(c.t));
    } else if c.Signals? {
      DropOther(s.core.waiting, c.t, c.t);
    }
    PerformBeside(k, objects, sem.id, c);
  }

  /**
    Any sequence of acts on the kernel is a run of the semaphore, so no wake-up is lost on the kernel, the value stays
    within its bound and completed waits never exceed posts.
   */
  method RunActs(k: Kernel, sem: Semaphore, objects: set<int>, acts: seq<Act>, s: S.State)
    returns (s': S.State, ghost states: seq<S.State>, ghost events: seq<S.Event>)
    requires Agrees(k, sem, objects, s)
    modifies sem`value, k
    ensures S.IsRun(states, events) && states[0] == s && states[|events|] == s'
    ensures Agrees(k, sem, objects, s') && S.Good(s') && s'.core == sem.Core(k)
  {
    hide Kernel.Hanging, Kernel.Valid, S.Good, Running, S.Step, Usable, S.Enabled;
    s', states, events := s, [s], [];
    for i := 0 to |acts|
      invariant Agrees(k, sem, objects, s') && S.IsRun(states, events) && states[0] == s && states[|events|] == s'
    {
      ghost var more;
      s', more := PerformAct(k, sem, objects, acts[i], s');
      if more != [] {
        assert more == [more[0]];
        states, events := states + [s'], events + more;
      }
    }
  }

  /** A semaphore that was just made starts such a run. */
  method NewSemaphore(k: Kernel, sem: Semaphore, objects: set<int>, bound: nat) returns (s: S.State)
    requires Usable(k, objects) && sem.id !in objects && bound <= S.SEM_VALUE_MAX
    requires Waiting(sem.id) in k.lists ==> k.lists[Waiting(sem.id)] == []
    modifies sem`value, sem`bound, k
    ensures Agrees(k, sem, objects, s) && s == S.Start(bound, {})
  {
    hide Kernel.Hanging, Kernel.Valid;
    S.StartGood(bound, {});
    s := S.Start(bound, {});
    var ok := sem.Init(k, bound);
  }

  // ----- a mutex -----

  /** What is done about a mutex: pthread_mutex_lock is entered, makes a round, gives up; pthread_mutex_unlock; the rest. */
  datatype MutexAct = Lock | Try | Leave | Unlock | Else(c: Call)

  ghost predicate AgreesMutex(k: Kernel, m: Mutex, objects: set<int>, s: M.State)
    reads k, m
  {
    Usable(k, objects) && k.started && m.id !in objects && Waiting(m.id) in k.lists && s.core == m.Core(k) && M.Good(s)
  }

  predicate FollowsMutex(s: M.State, events: seq<M.Event>, s': M.State) {
    if events == [] then s' == s else |events| == 1 && M.Enabled(s, events[0]) && s' == M.Step(s, events[0])
  }

  /** A thread that is not in pthread_mutex_lock. */
  predicate NotLocking(s: M.State, t: Tid) {
    t in s.phase ==> s.phase[t].Outside?
  }

  predicate LockingWith(s: M.State, t: Tid, last: bool) {
    t in s.phase && s.phase[t].Trying? && (s.phase[t].rounds == 0 <==> last)
  }

  /** Each act on the kernel is a section of the mutex, or does not concern it. Threads in pthread_mutex_lock do not exit. */
  method PerformMutexAct(k: Kernel, m: Mutex, objects: set<int>, a: MutexAct, s: M.State)
    returns (s': M.State, ghost events: seq<M.Event>)
    requires AgreesMutex(k, m, objects, s)
    modifies m`owner, k
    ensures AgreesMutex(k, m, objects, s') && FollowsMutex(s, events, s')
  {
    hide Kernel.Hanging, Kernel.Valid, M.Good, Running, M.Step, Usable;
    s', events := s, [];
    if a.Lock? && k.current != k.idle && NotLocking(s, k.current) {
      events := [M.Call(k.current)];
      M.StepGood(s, M.Call(k.current));
      MutexStepCore(s, k.current);
      s' := M.Step(s, M.Call(k.current));
    } else if a.Try? && k.current != k.idle && LockingWith(s, k.current, false) {
      events := [M.Attempt(k.current)];
      s' := MutexRound(k, m, objects, s);
    } else if a.Leave? && LockingWith(s, k.current, true) {
      events := [M.GiveUp(k.current)];
      M.StepGood(s, M.GiveUp(k.current));
      MutexStepCore(s, k.current);
      s' := M.Step(s, M.GiveUp(k.current));
    } else if a.Unlock? && NotLocking(s, k.current) {
      events := [M.Unlock(k.current)];
      s' := MutexUnlock(k, m, objects, s);
    } else if a.Else? && Allowed(k, a.c, objects) && (a.c.Deletes? ==> NotLocking(s, a.c.t)) {
      s', events := MutexElse(k, m, objects, a.c, s);
    }
  }

  /** The core of the mutex after an event. */
  lemma MutexStepCore(s: M.State, t: Tid)
    ensures NotLocking(s, t) ==> M.Step(s, M.Call(t)).core == s.core
    ensures LockingWith(s, t, false) ==> M.Step(s, M.Attempt(t)).core == M.Try(s.core, t).0
    ensures LockingWith(s, t, true) ==> M.Step(s, M.GiveUp(t)).core == s.core
    ensures NotLocking(s, t) ==> M.Step(s, M.Unlock(t)).core == if s.core.owner == Some(t) then M.Release(s.core) else s.core
    ensures t in s.phase && s.phase[t].Blocked? ==>
              M.Step(s, M.Signal(t)).core == s.core.(waiting := Drop(s.core.waiting, t))
  {
  }

  method MutexRound(k: Kernel, m: Mutex, objects: set<int>, s: M.State) returns (s': M.State)
    requires AgreesMutex(k, m, objects, s) && k.current != k.idle && LockingWith(s, k.current, false)
    modifies m`owner, k
    ensures AgreesMutex(k, m, objects, s') && s' == M.Step(s, M.Attempt(old(k.current)))
  {
    hide Kernel.Hanging, Kernel.Valid, M.Good, Running, M.Step, Kernel.Elected, Moved;
    M.StepGood(s, M.Attempt(k.current));
    MutexStepCore(s, k.current);
    s' := M.Step(s, M.Attempt(k.current));
    var r := m.TryLock(k);
    if r.Again? {
      ElectedRunning(k);
    }
  }

  method MutexUnlock(k: Kernel, m: Mutex, objects: set<int>, s: M.State) returns (s': M.State)
    requires AgreesMutex(k, m, objects, s) && NotLocking(s, k.current)
    modifies m`owner, k
    ensures AgreesMutex(k, m, objects, s') && s' == M.Step(s, M.Unlock(old(k.current)))
  {
    hide Kernel.Hanging, Kernel.Valid, M.Good, Running, M.Step, Kernel.Elected, Moved;
    M.StepGood(s, M.Unlock(k.current));
    MutexStepCore(s, k.current);
    s' := M.Step(s, M.Unlock(k.current));
    ghost var woken := k.lists[Waiting(m.id)] != [];
    var ok := m.Unlock(k);
    if ok && woken {
      ElectedRunning(k);
    }
  }

  method MutexElse(k: Kernel, m: Mutex, objects: set<int>, c: Call, s: M.State)
    returns (s': M.State, ghost events: seq<M.Event>)
    requires AgreesMutex(k, m, objects, s) && Allowed(k, c, objects) && (c.Deletes? ==> NotLocking(s, c.t))
    modifies m`owner, k
    ensures AgreesMutex(k, m, objects, s') && FollowsMutex(s, events, s')
  {
    hide Kernel.Hanging, Kernel.Valid, Running, M.Step, Usable, Allowed, M.Exclusive;
    s', events := s, [];
    if Interrupts(k, c) && c.t in s.phase && s.phase[c.t].Blocked? {
      events := [M.Signal(c.t)];
      M.StepGood(s, M.Signal(c.t));
      MutexStepCore(s, c.t);
      s' := M.Step(s, M.Signal(c.t));
    } else if c.Signals? {
      DropOther(s.core.waiting, c.t, c.t);
    }
    PerformBeside(k, objects, m.id, c);
  }

  /** Any sequence of acts on the kernel is a run of the mutex, so on the kernel at most the owner holds it. */
  method RunMutexActs(k: Kernel, m: Mutex, objects: set<int>, acts: seq<MutexAct>, s: M.State)
    returns (s': M.State, ghost states: seq<M.State>, ghost events: seq<M.Event>)
    requires AgreesMutex(k, m, objects, s)
    modifies m`owner, k
    ensures M.IsRun(states, events) && states[0] == s && states[|events|] == s'
    ensures AgreesMutex(k, m, objects, s') && M.Good(s') && s'.core == m.Core(k)
  {
    hide Kernel.Hanging, Kernel.Valid, M.Good, Running, M.Step, Usable, M.Enabled;
    s', states, events := s, [s], [];
    for i := 0 to |acts|
      invariant AgreesMutex(k, m, objects, s') && M.IsRun(states, events) && states[0] == s && states[|events|] == s'
    {
      ghost var more;
      s', more := PerformMutexAct(k, m, objects, acts[i], s');
      if more != [] {
        assert more == [more[0]];
        states, events := states + [s'], events + more;
      }
    }
  }

  /** A mutex that was just made starts such a run. */
  method NewMutex(k: Kernel, m: Mutex, objects: set<int>) returns (s: M.State)
    requires Usable(k, objects) && k.started && m.id !in objects
    requires Waiting(m.id) in k.lists ==> k.lists[Waiting(m.id)] == []
    modifies m`owner, k
    ensures AgreesMutex(k, m, objects, s) && s == M.State(M.Core(None, []), map[], {})
  {
    hide Kernel.Hanging, Kernel.Valid;
    s := M.State(M.Core(None, []), map[], {});
    m.Init(k);
  }
}
