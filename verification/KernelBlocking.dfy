/**
  The atomic sections of semaphores and mutexes on the scheduler: what the calls do to the object and to
  the lists is one step of the runs that semaphores and mutexes are studied in.
 */
module KernelBlocking {
  import opened Basics
  import opened KernelLists
  import opened Scheduler
  import S = SemaphoreRuns
  import M = MutexRuns

  /** The current thread is ready. */
  ghost predicate Running(k: Kernel)
    reads k
  {
    k.current in k.prio && On(k.lists, Ready(k.prio[k.current]), k.current)
  }

  /** A ready thread that goes to a wait list stands behind those that wait already. */
  lemma WaitTail(k: Kernel, w: int)
    requires k.Valid() && Running(k) && Waiting(w) in k.lists
    ensures Moved(k.lists, k.current, Waiting(w))[Waiting(w)] == k.lists[Waiting(w)] + [k.current]
  {
    NotOn(k.lists, Ready(k.prio[k.current]), Waiting(w), k.current);
    DropOther(k.lists[Waiting(w)], k.current, k.current);
  }

  /** The first waiter that is made ready leaves the others in order. */
  lemma WakeHead(k: Kernel, w: int)
    requires k.Valid() && Waiting(w) in k.lists && k.lists[Waiting(w)] != []
    ensures var t := k.lists[Waiting(w)][0];
            && t in k.prio && Ready(k.prio[t]) in k.lists
            && Moved(k.lists, t, Ready(k.prio[t]))[Waiting(w)] == k.lists[Waiting(w)][1..]
  {
    var ts := k.lists[Waiting(w)];
    assert On(k.lists, Waiting(w), ts[0]);
  }

  /** The first node of a wait list. */
  lemma FirstNode(k: Kernel, w: int)
    requires k.Valid() && Waiting(w) in k.lists
    ensures Head(Waiting(w)) in k.next
    ensures k.next[Head(Waiting(w))] == if k.lists[Waiting(w)] == [] then Head(Waiting(w)) else Of(k.lists[Waiting(w)][0])
  {
    EmptyList(k.prev, k.next, k.lists, Waiting(w));
  }

  /** The current thread leaves its ready list for a wait list, and another thread runs. */
  method Block(k: Kernel, w: int)
    requires k.Valid() && Running(k) && k.current != k.idle && Waiting(w) in k.lists
    modifies k`prev, k`next, k`lists, k`group, k`status, k`current
    ensures k.Valid() && k.Elected() && k.lists == Moved(old(k.lists), old(k.current), Waiting(w))
    ensures k.lists[Waiting(w)] == old(k.lists)[Waiting(w)] + [old(k.current)]
  {
    hide Kernel.Hanging, Moved, Kernel.Elected;
    WaitTail(k, w);
    k.HangingFacts({});
    MovedIs(k.lists, k.current, Waiting(w));
    var t := k.current;
    k.SetSuspend(t, Suspended);
    k.HangingFacts({t});
    k.Park(t, Waiting(w));
    k.SwitchThread();
  }

  /** The first waiter, if there is one, is made ready, and the highest thread runs. */
  method WakeFirst(k: Kernel, w: int)
    requires k.Valid() && Waiting(w) in k.lists
    modifies k`prev, k`next, k`lists, k`group, k`status, k`current
    ensures k.Valid() && Waiting(w) in k.lists
    ensures old(k.lists)[Waiting(w)] == [] ==> unchanged(k)
    ensures old(k.lists)[Waiting(w)] != [] ==>
              var t := old(k.lists)[Waiting(w)][0];
              && t in k.prio && Ready(k.prio[t]) in old(k.lists)
              && k.Elected() && k.lists == Moved(old(k.lists), t, Ready(k.prio[t]))
              && k.lists[Waiting(w)] == old(k.lists)[Waiting(w)][1..]
  {
    hide Kernel.Hanging, Moved, Kernel.Elected;
    FirstNode(k, w);
    var first := k.next[Head(Waiting(w))];
    if first != Head(Waiting(w)) {
      WakeHead(k, w);
      k.SetReady(first.thread, IsReady);
      k.SwitchThread();
    }
  }

  class Semaphore {
    const id: int
    var value: nat
    var bound: nat

    constructor (id: int)
      ensures this.id == id
    {
      this.id := id;
      value, bound := 0, 0;
    }

    ghost function Core(k: Kernel): S.Core
      reads this, k
      requires Waiting(id) in k.lists
    {
      S.Core(value, bound, k.lists[Waiting(id)])
    }

    /** sem_init of an object that is new to the kernel or has no waiters: the value starts at zero. */
    method Init(k: Kernel, value: nat) returns (ok: bool)
      requires k.Valid() && (Waiting(id) in k.lists ==> k.lists[Waiting(id)] == [])
      modifies this`value, this`bound, k`prev, k`next, k`lists
      ensures k.Valid() && (ok <==> value <= S.SEM_VALUE_MAX)
      ensures ok ==> k.lists == old(k.lists)[Waiting(id) := []] && Core(k) == S.Start(value, {}).core
      ensures !ok ==> unchanged(this) && unchanged(k)
    {
      hide Kernel.Hanging;
      if value > S.SEM_VALUE_MAX {
        return false;
      }
      this.value, bound := 0, value;
      k.NewObject(id);
      ok := true;
    }

    /** __sem_wait: one round, which the thread repeats when it is true. */
    method TryWait(k: Kernel) returns (again: bool)
      requires k.Valid() && Running(k) && k.current != k.idle && Waiting(id) in k.lists
      modifies this`value, k`prev, k`next, k`lists, k`group, k`status, k`current
      ensures k.Valid() && Waiting(id) in k.lists && (again <==> old(value) == 0)
      ensures !again ==> value == old(value) - 1
      ensures Core(k) == S.Try(old(Core(k)), old(k.current))
      ensures again ==> k.Elected() && k.lists == Moved(old(k.lists), old(k.current), Waiting(id))
      ensures !again ==> unchanged(k)
    {
      hide Kernel.Hanging, Moved, Kernel.Elected, Running;
      if value == 0 {
        Block(k, id);
        again := true;
      } else {
        value := value - 1;
        again := false;
      }
    }

    /** The section of sem_post. */
    method PostSection(k: Kernel)
      requires k.Valid() && Waiting(id) in k.lists
      modifies this`value, k`prev, k`next, k`lists, k`group, k`status, k`current
      ensures k.Valid() && Waiting(id) in k.lists && Core(k) == S.Post(old(Core(k)))
      ensures value == if old(value) < bound then old(value) + 1 else old(value)
      ensures old(k.lists)[Waiting(id)] == [] ==> unchanged(k)
      ensures old(k.lists)[Waiting(id)] != [] ==>
                var t := old(k.lists)[Waiting(id)][0];
                && t in k.prio && Ready(k.prio[t]) in old(k.lists)
                && k.Elected() && k.lists == Moved(old(k.lists), t, Ready(k.prio[t]))
    {
      hide Kernel.Hanging, Moved, Kernel.Elected;
      if value < bound {
        value := value + 1;
      }
      WakeFirst(k, id);
    }

    /** sem_post, when nothing comes between its test and its section. */
    method Post(k: Kernel) returns (ok: bool)
      requires k.Valid() && Waiting(id) in k.lists
      modifies this`value, k`prev, k`next, k`lists, k`group, k`status, k`current
      ensures k.Valid() && Waiting(id) in k.lists && (ok <==> !S.PostRefused(old(Core(k))))
      ensures Core(k) == if ok then S.Post(old(Core(k))) else old(Core(k))
      ensures !ok || old(k.lists)[Waiting(id)] == [] ==> unchanged(k)
      ensures ok && old(k.lists)[Waiting(id)] != [] ==>
                var t := old(k.lists)[Waiting(id)][0];
                && t in k.prio && Ready(k.prio[t]) in old(k.lists)
                && k.Elected() && k.lists == Moved(old(k.lists), t, Ready(k.prio[t]))
    {
      hide Kernel.Hanging, Moved, Kernel.Elected;
      if value >= S.SEM_VALUE_MAX {
        return false;
      }
      PostSection(k);
      ok := true;
    }
  }

  class Mutex {
    const id: int
    var owner: Option<Tid>

    constructor (id: int)
      ensures this.id == id
    {
      this.id := id;
      owner := None;
    }

    ghost function Core(k: Kernel): M.Core
      reads this, k
      requires Waiting(id) in k.lists
    {
      M.Core(owner, k.lists[Waiting(id)])
    }

    /** pthread_mutex_init of an object that is new to the kernel or has no waiters. */
    method Init(k: Kernel)
      requires k.Valid() && (Waiting(id) in k.lists ==> k.lists[Waiting(id)] == [])
      modifies this`owner, k`prev, k`next, k`lists
      ensures k.Valid() && k.lists == old(k.lists)[Waiting(id) := []] && Core(k) == M.Core(None, [])
    {
      hide Kernel.Hanging;
      owner := None;
      k.NewObject(id);
    }

    /** __pthread_mutex_lock: one round. Before the kernel runs it succeeds and takes nothing. */
    method TryLock(k: Kernel) returns (r: M.Result)
      requires k.Valid() && (k.started ==> Running(k) && k.current != k.idle) && Waiting(id) in k.lists
      modifies this`owner, k`prev, k`next, k`lists, k`group, k`status, k`current
      ensures k.Valid() && Waiting(id) in k.lists
      ensures k.started ==> (Core(k), r) == M.Try(old(Core(k)), old(k.current))
      ensures !k.started ==> r == M.Taken && unchanged(this)
      ensures r.Again? ==> k.Elected() && k.lists == Moved(old(k.lists), old(k.current), Waiting(id))
      ensures !r.Again? ==> unchanged(k)
    {
      hide Kernel.Hanging, Moved, Kernel.Elected, Running;
      if !k.started {
        r := M.Taken;
      } else if owner.None? {
        owner := Some(k.current);
        r := M.Taken;
      } else if owner.value == k.current {
        r := M.Deadlock;
      } else {
        Block(k, id);
        r := M.Again;
      }
    }

    /** pthread_mutex_unlock. Before the kernel runs it succeeds and does nothing. */
    method Unlock(k: Kernel) returns (ok: bool)
      requires k.Valid() && Waiting(id) in k.lists
      modifies this`owner, k`prev, k`next, k`lists, k`group, k`status, k`current
      ensures k.Valid() && Waiting(id) in k.lists && (ok <==> !k.started || old(owner) == Some(old(k.current)))
      ensures !k.started || !ok ==> unchanged(this) && unchanged(k)
      ensures k.started && ok ==> Core(k) == M.Release(old(Core(k)))
      ensures old(k.lists)[Waiting(id)] == [] ==> unchanged(k)
      ensures k.started && ok && old(k.lists)[Waiting(id)] != [] ==>
                var t := old(k.lists)[Waiting(id)][0];
                && t in k.prio && Ready(k.prio[t]) in old(k.lists)
                && k.Elected() && k.lists == Moved(old(k.lists), t, Ready(k.prio[t]))
    {
      hide Kernel.Hanging, Moved, Kernel.Elected;
      if !k.started {
        return true;
      }
      if owner != Some(k.current) {
        return false;
      }
      owner := None;
      WakeFirst(k, id);
      ok := true;
    }
  }
}
