/**
  The scheduler: every thread on exactly one list, the bitmap of priorities that are ready, the switch to
  the thread of the highest priority, time slices and sleeping.
 */
module Scheduler {
  import opened KernelLists
  import opened Bits
  import opened ReadyGroup

  datatype Status = Initial | IsReady | Suspended | Asleep | Closed | Interrupted

  /** The lists the scheduler itself owns. */
  ghost predicate HasLists(lists: Lists)
    ensures HasLists(lists) ==> Sleeping in lists && Deleted in lists
  {
    && Sleeping in lists && Deleted in lists
    && forall p :: 0 <= p < PRIORITIES ==> Ready(p) in lists
  }

  /** Every thread but the loose ones is on a list, and on a ready list only at its own priority. */
  ghost predicate Placed(lists: Lists, prio: map<Tid, nat>, loose: set<Tid>) {
    && (forall t :: t in prio && t !in loose ==> exists id :: On(lists, id, t))
    && (forall id, t :: On(lists, id, t) ==> t in prio && t !in loose)
    && (forall p, t :: On(lists, Ready(p), t) ==> t in prio && prio[t] == p)
    && (forall t :: t in prio ==> prio[t] < PRIORITIES)
  }

  /** Bit p of the group is set exactly when the ready list of priority p is not empty. */
  ghost predicate Grouped(lists: Lists, group: nat)
    requires HasLists(lists)
  {
    && group < 0x1_0000_0000
    && forall p: nat :: p < PRIORITIES ==> (Bit(group, p) <==> lists[Ready(p)] != [])
  }

  // ----- what moving a thread keeps -----

  lemma RemovedPlaced(lists: Lists, prio: map<Tid, nat>, loose: set<Tid>, t: Tid)
    requires Apart(lists) && Placed(lists, prio, loose) && t in prio
    ensures Placed(Removed(lists, t), prio, loose + {t})
  {
    RemovedApart(lists, t);
    var r := Removed(lists, t);
    forall u | u in prio && u !in loose + {t}
      ensures exists id :: On(r, id, u)
    {
      var id :| On(lists, id, u);
      assert On(r, id, u);
    }
    forall id, u | On(r, id, u)
      ensures u in prio && u !in loose + {t}
    {
      assert u != t;
      assert On(lists, id, u);
    }
  }

  lemma TailPlaced(lists: Lists, prio: map<Tid, nat>, loose: set<Tid>, t: Tid, id: ListId)
    requires Apart(lists) && Placed(lists, prio, loose) && t in prio && t in loose && id in lists
    requires id.Ready? ==> id.prio == prio[t]
    ensures Placed(lists[id := lists[id] + [t]], prio, loose - {t})
    ensures forall other :: !On(lists, other, t)
  {
    var more := lists[id := lists[id] + [t]];
    forall other
      ensures !On(lists, other, t)
    {
    }
    TailApart(lists, id, t);
    forall u | u in prio && u !in loose - {t}
      ensures exists other :: On(more, other, u)
    {
      if u == t {
        assert On(more, id, t);
      } else {
        var other :| On(lists, other, u);
        assert On(more, other, u);
      }
    }
    forall other, u | On(more, other, u)
      ensures u in prio && u !in loose - {t} && (other.Ready? ==> prio[u] == other.prio)
    {
      if !(other == id && u == t) {
        assert On(lists, other, u);
      }
    }
  }

  /** Taking a thread off can only empty the ready list of its own priority. */
  lemma RemovedReady(lists: Lists, prio: map<Tid, nat>, loose: set<Tid>, t: Tid, p: nat)
    requires Placed(lists, prio, loose) && t in prio && Ready(p) in lists && p != prio[t]
    ensures Removed(lists, t)[Ready(p)] == lists[Ready(p)]
  {
    assert !On(lists, Ready(p), t);
    DropOther(lists[Ready(p)], t, t);
  }

  /** The group after a thread was put on its ready list. */
  lemma ReadyGrouped(lists: Lists, prio: map<Tid, nat>, group: nat, t: Tid)
    requires HasLists(lists) && Grouped(lists, group) && Placed(lists, prio, {}) && t in prio
    ensures Grouped(Moved(lists, t, Ready(prio[t])), Set(group, prio[t]))
  {
    SetBound(group, prio[t]);
    var moved := Moved(lists, t, Ready(prio[t]));
    forall p: nat | p < PRIORITIES
      ensures Bit(Set(group, prio[t]), p) <==> moved[Ready(p)] != []
    {
      SetBits(group, prio[t], p);
      if p != prio[t] {
        RemovedReady(lists, prio, {}, t, p);
      }
    }
  }

  /** The group after a thread was taken off, with its bit cleared if that emptied the list. */
  lemma RemovedGrouped(lists: Lists, prio: map<Tid, nat>, group: nat, t: Tid)
    requires HasLists(lists) && Grouped(lists, group) && Placed(lists, prio, {}) && t in prio
    ensures Grouped(Removed(lists, t), if Removed(lists, t)[Ready(prio[t])] == [] then Clear(group, prio[t]) else group)
  {
    var r := Removed(lists, t);
    var g := if r[Ready(prio[t])] == [] then Clear(group, prio[t]) else group;
    forall p: nat | p < PRIORITIES
      ensures Bit(g, p) <==> r[Ready(p)] != []
    {
      ClearBits(group, prio[t], p);
      if p != prio[t] {
        RemovedReady(lists, prio, {}, t, p);
      } else {
        assert Drop([], t) == [];
      }
    }
  }

  /** Putting a thread on a list that is not a ready list changes no bit. */
  lemma OtherGrouped(lists: Lists, group: nat, t: Tid, id: ListId)
    requires HasLists(lists) && Grouped(lists, group) && id in lists && !id.Ready?
    ensures HasLists(lists[id := lists[id] + [t]]) && Grouped(lists[id := lists[id] + [t]], group)
  {
  }

  /** The lists are linked, no thread is on two of them, and the loose threads are on none. */
  ghost predicate Sound(prev: Links, next: Links, lists: Lists, prio: map<Tid, nat>, loose: set<Tid>)
    ensures Sound(prev, next, lists, prio, loose) ==> HasLists(lists)
  {
    HasLists(lists) && Linked(prev, next, lists) && Apart(lists) && Placed(lists, prio, loose)
  }

  lemma SoundRemoved(prev: Links, next: Links, lists: Lists, prio: map<Tid, nat>, t: Tid)
    requires Sound(prev, next, lists, prio, {}) && t in prio
    ensures Of(t) in prev && Of(t) in next
    ensures var (p, n) := Unlink(prev, next, Of(t)); Sound(p, n, Removed(lists, t), prio, {t})
  {
    hide Linked, Placed, Apart;
    var id := PlaceOf(lists, prio, {}, t);
    UnlinkLinked(prev, next, lists, id, t);
    RemovedApart(lists, t);
    RemovedPlaced(lists, prio, {}, t);
    assert {} + {t} == {t};
  }

  lemma PlaceOf(lists: Lists, prio: map<Tid, nat>, loose: set<Tid>, t: Tid) returns (id: ListId)
    requires Placed(lists, prio, loose) && t in prio && t !in loose
    ensures On(lists, id, t)
  {
    id :| On(lists, id, t);
  }

  lemma SoundTail(prev: Links, next: Links, lists: Lists, prio: map<Tid, nat>, t: Tid, id: ListId)
    requires Sound(prev, next, lists, prio, {t}) && t in prio && id in lists && (id.Ready? ==> id.prio == prio[t])
    ensures Head(id) in prev
    ensures var (p, n) := LinkTail(prev, next, id, Of(t)); Sound(p, n, lists[id := lists[id] + [t]], prio, {})
  {
    hide Linked, Placed, Apart;
    TailPlaced(lists, prio, {t}, t, id);
    LinkTailLinked(prev, next, lists, id, t);
    assert {t} - {t} == {};
  }

  /** A thread that is ready and not moved itself stays on its list. */
  lemma StaysOn(lists: Lists, t: Tid, id: ListId, u: Tid, to: ListId)
    requires Apart(lists) && On(lists, id, u) && u != t && to in lists
    ensures On(Removed(lists, t), id, u) && On(Moved(lists, t, to), id, u)
  {
    RemovedApart(lists, t);
  }

  /** Every thread has all its fields, and a slice is an 8-bit number. */
  predicate SameKeys(prio: map<Tid, nat>, status: map<Tid, Status>, ticks: map<Tid, int>, sleepTicks: map<Tid, int>) {
    prio.Keys == status.Keys == ticks.Keys == sleepTicks.Keys && forall t :: t in ticks ==> 0 <= ticks[t] < 0x100
  }

  class Kernel {
    const idle: Tid
    var prev: Links
    var next: Links
    var group: nat
    var current: Tid
    var prio: map<Tid, nat>
    var status: map<Tid, Status>
    var ticks: map<Tid, int>
    var sleepTicks: map<Tid, int>
    var locked: bool
    /** A thread runs: before sched_start the current thread is NULL. */
    var started: bool

    /** The threads of every list, in order. */
    ghost var lists: Lists

    /** Everything holds but that one thread may be on no list. */
    ghost predicate Hanging(loose: set<Tid>)
      reads this
      ensures Hanging(loose) ==> HasLists(lists)
    {
      && Sound(prev, next, lists, prio, loose) && Grouped(lists, group)
      && On(lists, Ready(0), idle) && idle in prio
      && SameKeys(prio, status, ticks, sleepTicks) && current in prio
    }

    ghost predicate Valid()
      reads this
      ensures Valid() ==> HasLists(lists)
    {
      Hanging({})
    }

    /** The current thread heads the highest ready list that is not empty. */
    ghost predicate Elected()
      reads this
    {
      && current in prio && HasLists(lists) && prio[current] < PRIORITIES
      && |lists[Ready(prio[current])]| > 0 && lists[Ready(prio[current])][0] == current
      && forall p :: prio[current] < p < PRIORITIES ==> lists[Ready(p)] == []
    }

    /** sched_init, and the idle thread as the only one. */
    constructor (idle: Tid)
      ensures Valid() && Elected() && this.idle == idle && current == idle && prio == map[idle := 0] && !locked && !started
      ensures forall id :: id in lists ==> lists[id] == if id == Ready(0) then [idle] else []
    {
      this.idle := idle;
      current, locked, started, group := idle, false, false, 0;
      prio, status, ticks, sleepTicks := map[], map[], map[], map[];
      prev := map[Head(Sleeping) := Head(Sleeping), Head(Deleted) := Head(Deleted)];
      next := map[Head(Sleeping) := Head(Sleeping), Head(Deleted) := Head(Deleted)];
      lists := map[Sleeping := [], Deleted := []];
      new;
      Boot();
    }

    /** The ready lists are emptied and the idle thread is created. */
    method Boot()
      requires NoThreads(prev, next, lists) && Sleeping in lists && Deleted in lists && group == 0 && current == idle
      requires prio == map[] && status == map[] && ticks == map[] && sleepTicks == map[]
      modifies `prev, `next, `lists, `group, `prio, `status, `ticks, `sleepTicks
      ensures Valid() && Elected() && prio == map[idle := 0]
      ensures forall id :: id in lists ==> lists[id] == if id == Ready(0) then [idle] else []
    {
      hide Sound, Grouped, HasLists;
      InitTable();
      EmptySound(prev, next, lists, group);
      Create(idle, 0, 255);
      Enlist(idle);
      OnlyIdle(prev, next, lists, prio, group, idle);
    }

    /** The ready lists are emptied one by one. */
    method InitTable()
      requires NoThreads(prev, next, lists) && Sleeping in lists && Deleted in lists
      modifies `prev, `next, `lists
      ensures NoThreads(prev, next, lists) && HasLists(lists)
    {
      for p := 0 to PRIORITIES
        invariant NoThreads(prev, next, lists) && Sleeping in lists && Deleted in lists
        invariant forall q :: 0 <= q < p ==> Ready(q) in lists
      {
        prev, next := prev[Head(Ready(p)) := Head(Ready(p))], next[Head(Ready(p)) := Head(Ready(p))];
        lists := lists[Ready(p) := []];
      }
    }

    /** The fields of a new thread; its node is linked to itself. */
    method Create(t: Tid, p: nat, slice: int)
      requires Sound(prev, next, lists, prio, {}) && t !in prio && p < PRIORITIES && 0 < slice < 0x100
      requires SameKeys(prio, status, ticks, sleepTicks)
      modifies `prev, `next, `prio, `status, `ticks, `sleepTicks
      ensures Sound(prev, next, lists, prio, {t}) && SameKeys(prio, status, ticks, sleepTicks)
      ensures prio == old(prio)[t := p] && ticks == old(ticks)[t := slice] && sleepTicks == old(sleepTicks)[t := 0]
      ensures Of(t) in prev && Of(t) in next && prev[Of(t)] == Of(t) && next[Of(t)] == Of(t)
    {
      hide Sound;
      NewThread(prev, next, lists, prio, t, p);
      prev, next := prev[Of(t) := Of(t)], next[Of(t) := Of(t)];
      prio, ticks := prio[t := p], ticks[t := slice];
      status, sleepTicks := status[t := Initial], sleepTicks[t := 0];
    }

    /** The first place of a thread, at the tail of a ready list. */
    method Enlist(t: Tid)
      requires Sound(prev, next, lists, prio, {t}) && Grouped(lists, group) && t in prio && t in status
      requires Of(t) in prev && Of(t) in next && prev[Of(t)] == Of(t) && next[Of(t)] == Of(t)
      modifies `prev, `next, `lists, `group, `status
      ensures Sound(prev, next, lists, prio, {}) && Grouped(lists, group) && status.Keys == old(status).Keys
      ensures Ready(prio[t]) in old(lists) && lists == old(lists)[Ready(prio[t]) := old(lists)[Ready(prio[t])] + [t]]
    {
      hide Sound, Grouped, HasLists, Unlink;
      NewGrouped(prev, next, lists, prio, t, group);
      UnlinkSelf(prev, next, Of(t));
      var (q, n) := Unlink(prev, next, Of(t));
      prev, next := q, n;
      Attach(t, Ready(prio[t]));
      group := Set(group, prio[t]);
      status := status[t := IsReady];
    }

    /** pthread_create, after its attributes were checked, without a switch. */
    method InsertThread(t: Tid, p: nat, slice: int)
      requires Valid() && t !in prio && p < PRIORITIES && 0 < slice < 0x100
      modifies `prev, `next, `lists, `group, `prio, `status, `ticks, `sleepTicks
      ensures Valid() && prio == old(prio)[t := p] && ticks == old(ticks)[t := slice] && sleepTicks == old(sleepTicks)[t := 0]
      ensures Ready(p) in old(lists) && lists == old(lists)[Ready(p) := old(lists)[Ready(p)] + [t]]
    {
      hide Sound, Grouped, HasLists;
      Create(t, p, slice);
      Enlist(t);
    }

    /** list_init of the wait list of a semaphore or mutex, which is new or has no waiters. */
    method NewObject(w: int)
      requires Valid() && (Waiting(w) in lists ==> lists[Waiting(w)] == [])
      modifies `prev, `next, `lists
      ensures Valid() && lists == old(lists)[Waiting(w) := []]
    {
      hide Sound, Grouped, HasLists, Linked;
      NewHead(prev, next, lists, prio, Waiting(w), group);
      prev, next := prev[Head(Waiting(w)) := Head(Waiting(w))], next[Head(Waiting(w)) := Head(Waiting(w))];
      lists := lists[Waiting(w) := []];
    }

    /** list_remove_node on the node of a thread. */
    method Detach(t: Tid)
      requires Sound(prev, next, lists, prio, {}) && t in prio
      modifies `prev, `next, `lists
      ensures lists == Removed(old(lists), t) && Sound(prev, next, lists, prio, {t})
    {
      hide Sound;
      SoundRemoved(prev, next, lists, prio, t);
      var (p, n) := Unlink(prev, next, Of(t));
      prev, next, lists := p, n, Removed(lists, t);
    }

    /** list_insert_tail of the node of a thread. */
    method Attach(t: Tid, id: ListId)
      requires Sound(prev, next, lists, prio, {t}) && t in prio && id in lists && (id.Ready? ==> id.prio == prio[t])
      modifies `prev, `next, `lists
      ensures lists == old(lists)[id := old(lists)[id] + [t]] && Sound(prev, next, lists, prio, {})
    {
      hide Sound;
      SoundTail(prev, next, lists, prio, t, id);
      var (p, n) := LinkTail(prev, next, id, Of(t));
      prev, next, lists := p, n, lists[id := lists[id] + [t]];
    }

    /** sched_set_thread_ready, and sched_set_thread_int with the other status. */
    method SetReady(t: Tid, s: Status)
      requires Valid() && t in prio
      modifies `prev, `next, `lists, `group, `status
      ensures Valid() && lists == Moved(old(lists), t, Ready(prio[t])) && status == old(status)[t := s]
    {
      hide Sound, Grouped, Moved, Removed, HasLists;
      ReadyKeeps(lists, prev, next, prio, group, t, idle);
      MovedIs(lists, t, Ready(prio[t]));
      Detach(t);
      Attach(t, Ready(prio[t]));
      group := Set(group, prio[t]);
      status := status[t := s];
    }

    /** sched_set_thread_suspend and sched_set_thread_close: the thread is on no list. */
    method SetSuspend(t: Tid, s: Status)
      requires Valid() && t in prio && t != idle
      modifies `prev, `next, `lists, `group, `status
      ensures Hanging({t}) && lists == Removed(old(lists), t) && status == old(status)[t := s]
    {
      hide Sound, Grouped, Removed, HasLists;
      SuspendKeeps(lists, prev, next, prio, group, t, idle);
      Detach(t);
      EmptyReady(prev, next, lists, prio, {t}, prio[t]);
      if next[Head(Ready(prio[t]))] == Head(Ready(prio[t])) {
        group := Clear(group, prio[t]);
      }
      status := status[t := s];
    }

    /** A thread on no list is put on one that is not a ready list. */
    method Park(t: Tid, id: ListId)
      requires Hanging({t}) && t in prio && t != idle && id in lists && !id.Ready?
      modifies `prev, `next, `lists
      ensures Valid() && lists == old(lists)[id := old(lists)[id] + [t]]
    {
      hide Sound, Grouped, HasLists;
      OtherGrouped(lists, group, t, id);
      Attach(t, id);
    }

    /** sched_set_thread_sleep */
    method SetSleep(t: Tid)
      requires Valid() && t in prio && t != idle
      modifies `prev, `next, `lists, `group, `status
      ensures Valid() && lists == Moved(old(lists), t, Sleeping) && status == old(status)[t := Asleep]
    {
      hide Hanging, Moved;
      HangingFacts({});
      MovedIs(lists, t, Sleeping);
      SetSuspend(t, Asleep);
      HangingFacts({t});
      Park(t, Sleeping);
    }

    /** sched_reclaim_thread */
    method Reclaim(t: Tid)
      requires Valid() && t in prio && t != idle
      modifies `prev, `next, `lists, `group, `status
      ensures Valid() && lists == Moved(old(lists), t, Deleted) && status == old(status)[t := Closed]
    {
      hide Hanging, Moved;
      HangingFacts({});
      MovedIs(lists, t, Deleted);
      SetSuspend(t, Closed);
      HangingFacts({t});
      Park(t, Deleted);
    }

    lemma HangingFacts(loose: set<Tid>)
      requires Hanging(loose)
      ensures Sleeping in lists && Deleted in lists && idle in prio && current in prio
    {
    }

    /** sched_switch_thread: the head of the highest ready list runs. */
    method SwitchThread()
      requires Valid()
      modifies `current
      ensures Valid() && Elected()
    {
      hide Sound, Placed;
      GroupPositive(lists, group, idle);
      HighestBit(group);
      var top := Highest(group);
      TopHead(prev, next, lists, prio, top);
      var to := next[Head(Ready(top))];
      if to.thread != current {
        current := to.thread;
      }
    }

    /** sched_start */
    method Start()
      requires Valid()
      modifies `current, `started
      ensures Valid() && Elected() && started
    {
      hide Sound, Grouped;
      SwitchThread();
      started := true;
    }

    /** The current thread uses up a tick of its 8-bit slice, and goes to the tail of its list when none is left. */
    method ProcCurrent()
      requires Valid()
      modifies `prev, `next, `lists, `group, `status, `ticks
      ensures Valid() && ticks == old(ticks)[current := Dec8(old(ticks)[current])]
      ensures lists == Sliced(old(lists), prio, old(ticks), current)
    {
      hide Sound, Grouped, Moved, HasLists;
      ticks := ticks[current := Dec8(ticks[current])];
      if ticks[current] == 0 {
        SetReady(current, IsReady);
      }
    }

    /** One sleeper is counted down. */
    method WakeOne(t: Tid, ghost kept: seq<Tid>, ghost rest: seq<Tid>) returns (ghost kept': seq<Tid>)
      requires Valid() && t in prio && Ready(prio[t]) in lists && lists[Sleeping] == kept + ([t] + rest)
      modifies `prev, `next, `lists, `group, `status, `sleepTicks
      ensures Valid() && lists[Sleeping] == kept' + rest && sleepTicks == old(sleepTicks)[t := Dec16(old(sleepTicks)[t])]
      ensures lists == if Dec16(old(sleepTicks)[t]) == 0 then Moved(old(lists), t, Ready(prio[t])) else old(lists)
    {
      hide Sound, Grouped, Moved, HasLists;
      sleepTicks := sleepTicks[t := Dec16(sleepTicks[t])];
      if sleepTicks[t] == 0 {
        DropMiddle(lists, prev, next, prio, t, kept, rest);
        SetReady(t, IsReady);
        kept' := kept;
      } else {
        assert kept + ([t] + rest) == kept + [t] + rest;
        kept' := kept + [t];
      }
    }

    /** sched_wakeup_sleep_thread: every sleeper loses a tick of its 16-bit count, and is ready when none is left. */
    method WakeSleepers()
      requires Valid()
      modifies `prev, `next, `lists, `group, `status, `sleepTicks
      ensures Valid()
      ensures SleepersKnown(old(lists), prio, old(sleepTicks), old(lists)[Sleeping])
      ensures lists == Awake(old(lists), prio, old(sleepTicks), old(lists)[Sleeping])
      ensures sleepTicks == Counted(old(sleepTicks), old(lists)[Sleeping])
    {
      hide Sound, Grouped, Moved, HasLists, Awake, Counted, SleepersKnown, Distinct;
      ghost var ts, sleep := lists[Sleeping], sleepTicks;
      ghost var kept: seq<Tid>, rest := [], ts;
      SleepersAre(prev, next, lists, prio, sleep);
      SleepNodes(prev, next, lists, prio, [], ts);
      assert [] + ts == ts;
      var pos := next[Head(Sleeping)];
      var n := next[pos];
      while pos != Head(Sleeping)
        invariant Valid() && lists[Sleeping] == kept + rest && Distinct(rest)
        invariant pos == (if rest != [] then Of(rest[0]) else Head(Sleeping))
        invariant rest != [] ==> n == if |rest| > 1 then Of(rest[1]) else Head(Sleeping)
        invariant SleepersKnown(lists, prio, sleep, rest) && Awake(lists, prio, sleep, rest) == Awake(old(lists), prio, sleep, ts)
        invariant Counted(sleepTicks, rest) == Counted(sleep, ts)
        invariant forall k :: 0 <= k < |rest| ==> rest[k] in sleepTicks && rest[k] in sleep && sleepTicks[rest[k]] == sleep[rest[k]]
        decreases |rest|
      {
        var t := pos.thread;
        AwakeStep(lists, prio, sleep, rest);
        CountedStep(sleepTicks, rest);
        FirstDiffers(rest);
        assert rest == [t] + rest[1..];
        kept := WakeOne(t, kept, rest[1..]);
        rest := rest[1..];
        SleepNodes(prev, next, lists, prio, kept, rest);
        pos := n;
        n := next[pos];
      }
      AwakeStep(lists, prio, sleep, rest);
      CountedStep(sleepTicks, rest);
    }

    /** sched_proc: the timer tick, which a locked scheduler ignores. */
    method Proc()
      requires Valid()
      modifies this
      ensures Valid() && prio == old(prio) && locked == old(locked) && started == old(started)
      ensures locked ==> unchanged(this)
      ensures !locked ==>
                && Elected() && Ready(prio[old(current)]) in old(lists)
                && ticks == old(ticks)[old(current) := Dec8(old(ticks)[old(current)])]
                && var sliced := Sliced(old(lists), prio, old(ticks), old(current));
                   && Sleeping in sliced && SleepersKnown(sliced, prio, old(sleepTicks), sliced[Sleeping])
                   && lists == Awake(sliced, prio, old(sleepTicks), sliced[Sleeping])
                   && sleepTicks == Counted(old(sleepTicks), sliced[Sleeping])
    {
      hide Hanging, Sliced, Awake, Counted, SleepersKnown, Elected;
      HangingFacts({});
      if locked {
        return;
      }
      ReadyKnown(current);
      ProcCurrent();
      WakeSleepers();
      SwitchThread();
    }

    lemma ReadyKnown(t: Tid)
      requires Valid() && t in prio
      ensures Ready(prio[t]) in lists && t in ticks && t in sleepTicks
    {
    }

    /** sched_yield: the current thread goes to the tail of its list. */
    method Yield()
      requires Valid()
      modifies `prev, `next, `lists, `group, `status, `current
      ensures Valid() && Elected() && Ready(prio[old(current)]) in old(lists)
      ensures lists == Moved(old(lists), old(current), Ready(prio[old(current)]))
    {
      hide Hanging, Moved;
      HangingFacts({});
      ReadyKnown(current);
      SetReady(current, IsReady);
      SwitchThread();
    }

    /** msleep: the current thread sleeps for a 16-bit number of ticks, and for 1 where the quotient is 0. */
    method MSleep(quotient: nat)
      requires Valid() && current != idle
      modifies `prev, `next, `lists, `group, `status, `current, `sleepTicks
      ensures Valid() && Elected() && lists == Moved(old(lists), old(current), Sleeping)
      ensures sleepTicks == old(sleepTicks)[old(current) := (if quotient == 0 then 1 else quotient) % 0x1_0000]
    {
      hide Sound, Grouped, Moved;
      sleepTicks := sleepTicks[current := (if quotient == 0 then 1 else quotient) % 0x1_0000];
      SetSleep(current);
      SwitchThread();
    }

    /** __sched_report_signal: a thread that is not handling a signal is made ready, wherever it was. */
    method ReportSignal(t: Tid) returns (ok: bool)
      requires Valid() && t in prio
      modifies `prev, `next, `lists, `group, `status, `current
      ensures Valid() && t in old(status) && (ok <==> old(status)[t] != Interrupted) && (!ok ==> unchanged(this))
      ensures ok ==> Elected() && Ready(prio[t]) in old(lists) && lists == Moved(old(lists), t, Ready(prio[t]))
    {
      hide Sound, Grouped, Moved;
      ReadyKnown(t);
      if status[t] == Interrupted {
        return false;
      }
      SetReady(t, Interrupted);
      SwitchThread();
      ok := true;
    }

    /** sched_delete_thread, of the running thread or another. */
    method DeleteThread(t: Tid)
      requires Valid() && t in prio && t != idle
      modifies `prev, `next, `lists, `group, `status, `current
      ensures Valid() && Elected() && lists == Moved(old(lists), t, Deleted)
    {
      hide Sound, Grouped, Moved;
      Reclaim(t);
      SwitchThread();
    }
  }

  ghost predicate NoThreads(prev: Links, next: Links, lists: Lists) {
    forall id :: id in lists ==>
      lists[id] == [] && Head(id) in prev && Head(id) in next && prev[Head(id)] == Head(id) && next[Head(id)] == Head(id)
  }

  lemma EmptySound(prev: Links, next: Links, lists: Lists, group: nat)
    requires NoThreads(prev, next, lists) && HasLists(lists) && group == 0
    ensures Sound(prev, next, lists, map[], {}) && Grouped(lists, group)
  {
    forall id | id in lists
      ensures Circle(prev, next, id, lists[id])
    {
      assert lists[id] == [];
      assert LinkedAt(prev, next, id, [], 0);
    }
    forall p: nat | p < PRIORITIES
      ensures !Bit(group, p)
    {
      ZeroBit(p);
    }
  }

  /** A node that is on no list does not disturb any. */
  lemma LinkedWith(prev: Links, next: Links, lists: Lists, n: Node)
    requires Linked(prev, next, lists)
    requires forall id, i :: id in lists && 0 <= i <= |lists[id]| ==> NodeAt(id, lists[id], i) != n
    ensures Linked(prev[n := n], next[n := n], lists)
  {
    forall id | id in lists
      ensures Circle(prev[n := n], next[n := n], id, lists[id])
    {
      CircleElsewhere(prev, next, prev[n := n], next[n := n], id, lists[id]);
    }
  }

  lemma NewThread(prev: Links, next: Links, lists: Lists, prio: map<Tid, nat>, t: Tid, p: nat)
    requires Sound(prev, next, lists, prio, {}) && t !in prio && p < PRIORITIES
    ensures Sound(prev[Of(t) := Of(t)], next[Of(t) := Of(t)], lists, prio[t := p], {t})
  {
    forall id, i | id in lists && 0 <= i <= |lists[id]|
      ensures NodeAt(id, lists[id], i) != Of(t)
    {
      if i > 0 {
        assert On(lists, id, lists[id][i - 1]);
      }
    }
    LinkedWith(prev, next, lists, Of(t));
    NewPlaced(lists, prio, t, p);
  }

  lemma NewGrouped(prev: Links, next: Links, lists: Lists, prio: map<Tid, nat>, t: Tid, group: nat)
    requires Sound(prev, next, lists, prio, {t}) && Grouped(lists, group) && t in prio
    ensures Ready(prio[t]) in lists && HasLists(lists[Ready(prio[t]) := lists[Ready(prio[t])] + [t]])
    ensures Grouped(lists[Ready(prio[t]) := lists[Ready(prio[t])] + [t]], Set(group, prio[t]))
  {
    var p := prio[t];
    var more := lists[Ready(p) := lists[Ready(p)] + [t]];
    SetBound(group, p);
    forall q: nat | q < PRIORITIES
      ensures Bit(Set(group, p), q) <==> more[Ready(q)] != []
    {
      SetBits(group, p, q);
    }
  }

  /** Removing a node that is linked to itself changes nothing. */
  lemma UnlinkSelf(prev: Links, next: Links, n: Node)
    requires n in prev && n in next && prev[n] == n && next[n] == n
    ensures Unlink(prev, next, n) == (prev, next)
  {
    assert prev[n := n] == prev && next[n := n] == next;
  }

  lemma OnlyIdle(prev: Links, next: Links, lists: Lists, prio: map<Tid, nat>, group: nat, idle: Tid)
    requires Sound(prev, next, lists, prio, {}) && (forall id :: id in lists ==> lists[id] == if id == Ready(0) then [idle] else [])
    ensures On(lists, Ready(0), idle) && forall p :: 0 <= p < PRIORITIES ==> Ready(p) in lists
  {
  }

  lemma NewPlaced(lists: Lists, prio: map<Tid, nat>, t: Tid, p: nat)
    requires Placed(lists, prio, {}) && t !in prio && p < PRIORITIES
    ensures Placed(lists, prio[t := p], {t})
  {
    var more := prio[t := p];
    assert forall u :: u in more && u !in {t} ==> u in prio;
  }

  lemma NewHead(prev: Links, next: Links, lists: Lists, prio: map<Tid, nat>, id: ListId, group: nat)
    requires Sound(prev, next, lists, prio, {}) && Grouped(lists, group) && (id in lists ==> lists[id] == []) && !id.Ready?
    ensures Sound(prev[Head(id) := Head(id)], next[Head(id) := Head(id)], lists[id := []], prio, {})
    ensures Grouped(lists[id := []], group)
    ensures forall other, t :: On(lists[id := []], other, t) <==> On(lists, other, t)
  {
    var more := lists[id := []];
    var p, n := prev[Head(id) := Head(id)], next[Head(id) := Head(id)];
    forall other | other in more
      ensures Circle(p, n, other, more[other])
    {
      if other == id {
        assert LinkedAt(p, n, id, [], 0);
      } else {
        CircleElsewhere(prev, next, p, n, other, lists[other]);
      }
    }
    assert forall other, t :: On(more, other, t) <==> On(lists, other, t);
    forall t | t in prio
      ensures exists other :: On(more, other, t)
    {
      var other :| On(lists, other, t);
      assert On(more, other, t);
    }
  }

  lemma FirstDiffers(ts: seq<Tid>)
    requires Distinct(ts)
    ensures ts != [] ==> Distinct(ts[1..]) && forall k :: 0 <= k < |ts[1..]| ==> ts[1..][k] != ts[0]
  {
  }

  /** os_u8 and os_u16 counters run past zero. */
  function Dec8(x: int): (r: int) {
    (x - 1) % 0x100
  }

  function Dec16(x: int): (r: int) {
    (x - 1) % 0x1_0000
  }

  /** The lists after the slice of the current thread was counted down. */
  ghost function Sliced(lists: Lists, prio: map<Tid, nat>, ticks: map<Tid, int>, current: Tid): (r: Lists)
    requires current in prio && current in ticks && Ready(prio[current]) in lists
  {
    if Dec8(ticks[current]) == 0 then Moved(lists, current, Ready(prio[current])) else lists
  }

  ghost predicate SleepersKnown(lists: Lists, prio: map<Tid, nat>, sleep: map<Tid, int>, ts: seq<Tid>) {
    forall k :: 0 <= k < |ts| ==> ts[k] in prio && ts[k] in sleep && Ready(prio[ts[k]]) in lists
  }

  /** The lists after the sleepers were counted down one by one. */
  ghost function Awake(lists: Lists, prio: map<Tid, nat>, sleep: map<Tid, int>, ts: seq<Tid>): (r: Lists)
    requires SleepersKnown(lists, prio, sleep, ts)
    decreases |ts|
  {
    if ts == [] then lists
    else Awake(if Dec16(sleep[ts[0]]) == 0 then Moved(lists, ts[0], Ready(prio[ts[0]])) else lists, prio, sleep, ts[1..])
  }

  lemma AwakeStep(lists: Lists, prio: map<Tid, nat>, sleep: map<Tid, int>, ts: seq<Tid>)
    requires SleepersKnown(lists, prio, sleep, ts)
    ensures ts == [] ==> Awake(lists, prio, sleep, ts) == lists
    ensures ts != [] ==>
              && ts[0] in prio && ts[0] in sleep && Ready(prio[ts[0]]) in lists
              && var l := if Dec16(sleep[ts[0]]) == 0 then Moved(lists, ts[0], Ready(prio[ts[0]])) else lists;
                 SleepersKnown(l, prio, sleep, ts[1..]) && Awake(lists, prio, sleep, ts) == Awake(l, prio, sleep, ts[1..])
  {
  }

  function Counted(sleep: map<Tid, int>, ts: seq<Tid>): (r: map<Tid, int>)
    decreases |ts|
  {
    if ts == [] then sleep
    else Counted(if ts[0] in sleep then sleep[ts[0] := Dec16(sleep[ts[0]])] else sleep, ts[1..])
  }

  lemma CountedStep(sleep: map<Tid, int>, ts: seq<Tid>)
    ensures ts == [] ==> Counted(sleep, ts) == sleep
    ensures ts != [] && ts[0] in sleep ==> Counted(sleep, ts) == Counted(sleep[ts[0] := Dec16(sleep[ts[0]])], ts[1..])
  {
  }

  lemma SleepersAre(prev: Links, next: Links, lists: Lists, prio: map<Tid, nat>, sleep: map<Tid, int>)
    requires Sound(prev, next, lists, prio, {}) && prio.Keys == sleep.Keys
    ensures SleepersKnown(lists, prio, sleep, lists[Sleeping]) && Distinct(lists[Sleeping])
    ensures forall k :: 0 <= k < |lists[Sleeping]| ==> lists[Sleeping][k] in prio
  {
    forall k | 0 <= k < |lists[Sleeping]|
      ensures lists[Sleeping][k] in prio && Ready(prio[lists[Sleeping][k]]) in lists
    {
      assert On(lists, Sleeping, lists[Sleeping][k]);
    }
  }

  /** The nodes of the sleep list from a place on. */
  lemma SleepNodes(prev: Links, next: Links, lists: Lists, prio: map<Tid, nat>, kept: seq<Tid>, rest: seq<Tid>)
    requires Sound(prev, next, lists, prio, {}) && lists[Sleeping] == kept + rest
    ensures Head(Sleeping) in next
    ensures kept == [] ==> next[Head(Sleeping)] == if rest == [] then Head(Sleeping) else Of(rest[0])
    ensures rest != [] ==> Of(rest[0]) in next && next[Of(rest[0])] == if |rest| > 1 then Of(rest[1]) else Head(Sleeping)
  {
    var ts := lists[Sleeping];
    assert LinkedAt(prev, next, Sleeping, ts, 0);
    if rest != [] {
      assert LinkedAt(prev, next, Sleeping, ts, |kept| + 1);
    }
  }

  /** Taking off the first thread that is not yet passed. */
  lemma DropMiddle(lists: Lists, prev: Links, next: Links, prio: map<Tid, nat>, t: Tid, kept: seq<Tid>, rest: seq<Tid>)
    requires Sound(prev, next, lists, prio, {}) && lists[Sleeping] == kept + ([t] + rest) && t in prio && Ready(prio[t]) in lists
    ensures Moved(lists, t, Ready(prio[t]))[Sleeping] == kept + rest
  {
    var ts := lists[Sleeping];
    assert ts[|kept|] == t;
    DropIs(ts, |kept|);
  }

  lemma ReadyKeeps(lists: Lists, prev: Links, next: Links, prio: map<Tid, nat>, group: nat, t: Tid, idle: Tid)
    requires Sound(prev, next, lists, prio, {}) && Grouped(lists, group) && t in prio
    requires On(lists, Ready(0), idle) && idle in prio
    ensures prio[t] < PRIORITIES && Ready(prio[t]) in lists && HasLists(Moved(lists, t, Ready(prio[t])))
    ensures Grouped(Moved(lists, t, Ready(prio[t])), Set(group, prio[t]))
    ensures On(Moved(lists, t, Ready(prio[t])), Ready(0), idle)
  {
    ReadyGrouped(lists, prio, group, t);
    if t != idle {
      StaysOn(lists, t, Ready(0), idle, Ready(prio[t]));
    } else {
      assert prio[idle] == 0;
    }
  }

  lemma SuspendKeeps(lists: Lists, prev: Links, next: Links, prio: map<Tid, nat>, group: nat, t: Tid, idle: Tid)
    requires Sound(prev, next, lists, prio, {}) && Grouped(lists, group) && t in prio && t != idle
    requires On(lists, Ready(0), idle)
    ensures prio[t] < PRIORITIES && Ready(prio[t]) in lists && HasLists(Removed(lists, t))
    ensures Grouped(Removed(lists, t), if Removed(lists, t)[Ready(prio[t])] == [] then Clear(group, prio[t]) else group)
    ensures On(Removed(lists, t), Ready(0), idle)
  {
    RemovedGrouped(lists, prio, group, t);
    StaysOn(lists, t, Ready(0), idle, Sleeping);
  }

  lemma EmptyReady(prev: Links, next: Links, lists: Lists, prio: map<Tid, nat>, loose: set<Tid>, p: nat)
    requires Sound(prev, next, lists, prio, loose) && Ready(p) in lists
    ensures Head(Ready(p)) in next && (next[Head(Ready(p))] == Head(Ready(p)) <==> lists[Ready(p)] == [])
  {
    EmptyList(prev, next, lists, Ready(p));
  }

  lemma MovedIs(lists: Lists, t: Tid, to: ListId)
    requires to in lists
    ensures to in Removed(lists, t) && Moved(lists, t, to) == Removed(lists, t)[to := Removed(lists, t)[to] + [t]]
  {
  }

  /** The idle thread keeps bit 0 set. */
  lemma GroupPositive(lists: Lists, group: nat, idle: Tid)
    requires HasLists(lists) && Grouped(lists, group) && On(lists, Ready(0), idle)
    ensures 0 < group < 0x1_0000_0000
  {
    assert Bit(group, 0);
  }

  /** The first thread of a ready list that is not empty. */
  lemma TopHead(prev: Links, next: Links, lists: Lists, prio: map<Tid, nat>, top: nat)
    requires Sound(prev, next, lists, prio, {}) && top < PRIORITIES && lists[Ready(top)] != []
    ensures Head(Ready(top)) in next && next[Head(Ready(top))] == Of(lists[Ready(top)][0])
    ensures lists[Ready(top)][0] in prio && prio[lists[Ready(top)][0]] == top
  {
    EmptyList(prev, next, lists, Ready(top));
    assert On(lists, Ready(top), lists[Ready(top)][0]);
  }
}
