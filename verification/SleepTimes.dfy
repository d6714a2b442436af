/**
  How long threads sleep and run: a thread that was put to sleep wakes up at its tick, not before and not after, and
  a thread that runs keeps running for its slice.
 */
module SleepTimes {
  import opened Basics
  import opened KernelLists
  import opened Scheduler
  import opened KernelBlocking
  import opened RoundRobin

  // ----- the sleepers at one tick -----

  /** Every sleeper is counted down once, and nobody else. */
  lemma {:induction false} CountedAt(sleep: map<Tid, int>, ts: seq<Tid>, t: Tid)
    requires Distinct(ts) && t in sleep
    ensures t in Counted(sleep, ts) && Counted(sleep, ts)[t] == if t in ts then Dec16(sleep[t]) else sleep[t]
    decreases |ts|
  {
    if ts != [] {
      FirstDiffers(ts);
      CountedAt(if ts[0] in sleep then sleep[ts[0] := Dec16(sleep[ts[0]])] else sleep, ts[1..], t);
    }
  }

  /** A thread that is not among the sleepers stays where it is when they wake up. */
  lemma {:induction false} AwakeOthers(lists: Lists, prio: map<Tid, nat>, sleep: map<Tid, int>, ts: seq<Tid>, id: ListId, t: Tid)
    requires Apart(lists) && SleepersKnown(lists, prio, sleep, ts) && t !in ts && On(lists, id, t)
    ensures On(Awake(lists, prio, sleep, ts), id, t)
    decreases |ts|
  {
    if ts != [] {
      var l := if Dec16(sleep[ts[0]]) == 0 then Moved(lists, ts[0], Ready(prio[ts[0]])) else lists;
      MovedApart(lists, ts[0], Ready(prio[ts[0]]));
      AwakeOthers(l, prio, sleep, ts[1..], id, t);
    }
  }

  /** A sleeper goes to its ready list when its count comes to zero, and stays otherwise. */
  lemma {:induction false} AwakeSleeper(lists: Lists, prio: map<Tid, nat>, sleep: map<Tid, int>, ts: seq<Tid>, t: Tid)
    requires Apart(lists) && SleepersKnown(lists, prio, sleep, ts) && Distinct(ts) && t in ts && On(lists, Sleeping, t)
    ensures t in prio && t in sleep
    ensures On(Awake(lists, prio, sleep, ts), if Dec16(sleep[t]) == 0 then Ready(prio[t]) else Sleeping, t)
    decreases |ts|
  {
    FirstDiffers(ts);
    var u := ts[0];
    var l := if Dec16(sleep[u]) == 0 then Moved(lists, u, Ready(prio[u])) else lists;
    MovedApart(lists, u, Ready(prio[u]));
    if u == t {
      if Dec16(sleep[t]) == 0 {
        MovedOn(lists, t, Ready(prio[t]));
      }
      AwakeOthers(l, prio, sleep, ts[1..], if Dec16(sleep[t]) == 0 then Ready(prio[t]) else Sleeping, t);
    } else {
      AwakeSleeper(l, prio, sleep, ts[1..], t);
    }
  }

  lemma MovedOn(lists: Lists, t: Tid, to: ListId)
    requires to in lists
    ensures On(Moved(lists, t, to), to, t)
  {
    var more := Moved(lists, t, to)[to];
    assert more[|more| - 1] == t;
  }

  /** The ticks until a sleeper with this count is ready: a 16-bit count of 0 takes a whole turn. */
  function Due(count: int): (n: int) {
    if count == 0 then 0x1_0000 else count
  }

  ghost predicate Sleeps(s: Snap, t: Tid, due: int) {
    On(s.lists, Sleeping, t) && t in s.prio && t in s.sleep && 0 <= s.sleep[t] < 0x1_0000 && Due(s.sleep[t]) == due && s.current != t
  }

  ghost predicate IsReadyIn(s: Snap, t: Tid) {
    t in s.prio && On(s.lists, Ready(s.prio[t]), t)
  }

  /** A current thread that heads a ready list does not sleep. */
  lemma HeadAwake(s: Snap, t: Tid)
    requires Good(s) && Heads(s) && On(s.lists, Sleeping, t)
    ensures s.current != t
  {
    assert On(s.lists, Ready(s.prio[s.current]), s.current);
  }

  /** The lists between the slice and the sleepers. */
  lemma SlicedKeeps(s: Snap, s': Snap, id: ListId, t: Tid)
    requires Good(s) && Ticked(s, s') && On(s.lists, id, t) && s.current != t
    ensures var sliced := Sliced(s.lists, s.prio, s.ticks, s.current);
            && Apart(sliced) && On(sliced, id, t) && Sleeping in sliced && Distinct(sliced[Sleeping])
            && SleepersKnown(sliced, s.prio, s.sleep, sliced[Sleeping])
            && s'.lists == Awake(sliced, s.prio, s.sleep, sliced[Sleeping]) && s'.sleep == Counted(s.sleep, sliced[Sleeping])
  {
    hide Awake, Counted, SleepersKnown, Moved;
    MovedApart(s.lists, s.current, Ready(s.prio[s.current]));
  }

  lemma TickSleeps(s: Snap, s': Snap, t: Tid, due: int)
    requires Good(s) && Good(s') && Ticked(s, s') && Heads(s') && Sleeps(s, t, due)
    ensures due == 1 ==> IsReadyIn(s', t)
    ensures due > 1 ==> Sleeps(s', t, due - 1)
  {
    hide Good, Sliced, Awake, Counted, SleepersKnown, Apart, Distinct, Heads;
    SlicedKeeps(s, s', Sleeping, t);
    var sliced := Sliced(s.lists, s.prio, s.ticks, s.current);
    CountedAt(s.sleep, sliced[Sleeping], t);
    AwakeSleeper(sliced, s.prio, s.sleep, sliced[Sleeping], t);
    if due > 1 {
      HeadAwake(s', t);
    }
  }

  lemma TickReady(s: Snap, s': Snap, t: Tid)
    requires Good(s) && Ticked(s, s') && IsReadyIn(s, t)
    ensures IsReadyIn(s', t)
  {
    var sliced := Sliced(s.lists, s.prio, s.ticks, s.current);
    var ts := sliced[Sleeping];
    MovedApart(s.lists, s.current, Ready(s.prio[s.current]));
    if s.current == t {
      MovedOn(s.lists, t, Ready(s.prio[t]));
    }
    assert On(sliced, Ready(s.prio[t]), t);
    NotOn(sliced, Ready(s.prio[t]), Sleeping, t);
    AwakeOthers(sliced, s.prio, s.sleep, ts, Ready(s.prio[t]), t);
  }

  /** What a section that does not move a thread does to it. */
  lemma StepSleeps(s: Snap, op: Op, s': Snap, t: Tid, due: int)
    requires Good(s) && Good(s') && Steps(s, op, s') && Sleeps(s, t, due) && (op.Move? ==> op.t != t)
    ensures op.Tick? && due == 1 ==> IsReadyIn(s', t)
    ensures op.Tick? && due > 1 ==> Sleeps(s', t, due - 1)
    ensures !op.Tick? ==> Sleeps(s', t, due)
  {
    hide Ticked, Good;
    match op {
      case Tick => { TickSleeps(s, s', t, due); }
      case Switch => { HeadAwake(s', t); }
      case Move(u, to) => { GoodApart(s); MovedApart(s.lists, u, to); }
      case Create(u, p, slice) => { assert On(s'.lists, Sleeping, t); }
      case Object(w) => { assert On(s'.lists, Sleeping, t); }
    }
  }

  lemma GoodApart(s: Snap)
    requires Good(s)
    ensures Apart(s.lists)
  {
  }

  lemma StepReady(s: Snap, op: Op, s': Snap, t: Tid)
    requires Good(s) && Good(s') && Steps(s, op, s') && IsReadyIn(s, t) && (op.Move? ==> op.t != t)
    ensures IsReadyIn(s', t)
  {
    hide Ticked, Good;
    match op {
      case Tick => { TickReady(s, s', t); }
      case Switch => {}
      case Move(u, to) => { GoodApart(s); MovedApart(s.lists, u, to); }
      case Create(u, p, slice) => { assert On(s'.lists, Ready(s'.prio[t]), t); }
      case Object(w) => { assert On(s'.lists, Ready(s'.prio[t]), t); }
    }
  }

  // ----- runs -----

  /** No section moves the thread. */
  predicate Unmoved(ops: seq<Op>, t: Tid) {
    forall i :: 0 <= i < |ops| && ops[i].Move? ==> ops[i].t != t
  }

  /**
    A sleeping thread that nothing else moves is on the sleep list after every tick before its last one, and ready from
    that one on.
   */
  lemma {:induction false} WakesOnTime(states: seq<Snap>, ops: seq<Op>, t: Tid, due: int, n: nat)
    requires IsRun(states, ops) && Unmoved(ops, t) && n <= |ops| && Sleeps(states[0], t, due)
    ensures Ticks(ops[..n]) < due ==> Sleeps(states[n], t, due - Ticks(ops[..n]))
    ensures Ticks(ops[..n]) >= due ==> IsReadyIn(states[n], t)
    decreases n
  {
    hide Good, Steps, Sleeps, IsReadyIn;
    if n == 0 {
      assert ops[..0] == [];
      DuePositive(states[0], t, due);
    } else {
      WakesOnTime(states, ops, t, due, n - 1);
      assert Steps(states[n - 1], ops[n - 1], states[n - 1 + 1]);
      assert ops[..n][..n - 1] == ops[..n - 1];
      if Ticks(ops[..n - 1]) < due {
        StepSleeps(states[n - 1], ops[n - 1], states[n], t, due - Ticks(ops[..n - 1]));
      } else {
        StepReady(states[n - 1], ops[n - 1], states[n], t);
      }
    }
  }

  lemma DuePositive(s: Snap, t: Tid, due: int)
    requires Sleeps(s, t, due)
    ensures due > 0
  {
  }

  /**
    msleep of the current thread, then any calls that do not move it: after every moment of the run it is asleep if the
    timer ticked less often than it asked for, and ready otherwise. A time that is 0 in 16 bits takes 65536 ticks.
   */
  method Nap(k: Kernel, objects: set<int>, quotient: nat, calls: seq<Call>) returns (ghost states: seq<Snap>, ghost ops: seq<Op>)
    requires Usable(k, objects) && k.current != k.idle
    modifies k
    ensures Usable(k, objects) && IsRun(states, ops) && states[|ops|] == Now(k) && Ticks(ops) == Timers(calls)
    ensures var t, due := old(k.current), Due((if quotient == 0 then 1 else quotient) % 0x1_0000);
            Unmoved(ops, t) ==>
              forall n :: 0 <= n <= |ops| ==>
                if Ticks(ops[..n]) < due then On(states[n].lists, Sleeping, t) else IsReadyIn(states[n], t)
  {
    hide Kernel.Hanging, Good, Steps, Usable, Kernel.Elected, IsReadyIn;
    ghost var t := k.current;
    ghost var due := Due((if quotient == 0 then 1 else quotient) % 0x1_0000);
    FallsAsleep(k, objects, quotient);
    states, ops := RunCalls(k, objects, calls);
    if Unmoved(ops, t) {
      forall n | 0 <= n <= |ops|
        ensures if Ticks(ops[..n]) < due then On(states[n].lists, Sleeping, t) else IsReadyIn(states[n], t)
      {
        WakesOnTime(states, ops, t, due, n);
      }
    }
  }

  method FallsAsleep(k: Kernel, objects: set<int>, quotient: nat)
    requires Usable(k, objects) && k.current != k.idle
    modifies k
    ensures Usable(k, objects) && Sleeps(Now(k), old(k.current), Due((if quotient == 0 then 1 else quotient) % 0x1_0000))
  {
    hide Kernel.Hanging, Good, Moved, Kernel.Elected;
    ghost var t := k.current;
    k.HangingFacts({});
    k.ReadyKnown(t);
    MovedOn(k.lists, t, Sleeping);
    k.MSleep(quotient);
    ElectedRunning(k);
    NowGood(k);
    ElectedHeads(k);
    HeadAwake(Now(k), t);
  }

  lemma ElectedHeads(k: Kernel)
    requires k.Elected()
    ensures Heads(Now(k))
  {
  }

  // ----- slices -----

  /** The thread runs, heads its list and has some ticks of its slice left. */
  ghost predicate RunsWith(s: Snap, t: Tid, left: int) {
    StandsAt(s, t, 0) && s.current == t && t in s.ticks && Left(s.ticks[t]) == left
  }

  lemma TickRuns(s: Snap, s': Snap, t: Tid, left: int)
    requires Good(s) && Good(s') && Ticked(s, s') && Heads(s') && RunsWith(s, t, left) && NoneAbove(s', s.prio[t])
    ensures left > 1 ==> RunsWith(s', t, left - 1)
    ensures left == 1 && |s.lists[Ready(s.prio[t])]| > 1 ==> s'.current == s.lists[Ready(s.prio[t])][1] != t
  {
    hide Good, Awake, Counted, SleepersKnown, Moved, Heads, NoneAbove;
    var id := Ready(s.prio[t]);
    FirstKnown(s, t, 0);
    TickExtends(s, s', s.prio[t]);
    if left == 1 && |s.lists[id]| > 1 {
      SecondFirst(s, t);
      var u := s.lists[id][1];
      OnReady(s', id, u);
      HeadsList(s', u, 0);
    } else if left > 1 {
      HeadsList(s', t, 0);
    }
  }

  /** When the first thread of a list goes to its tail, the second is first. */
  lemma SecondFirst(s: Snap, t: Tid)
    requires Good(s) && StandsAt(s, t, 0) && |s.lists[Ready(s.prio[t])]| > 1
    ensures var id := Ready(s.prio[t]);
            && Moved(s.lists, t, id)[id] != [] && Moved(s.lists, t, id)[id][0] == s.lists[id][1] != t
  {
    var q := s.lists[Ready(s.prio[t])];
    DropIs(q, 0);
    assert Without(q, 0)[0] == q[1];
  }

  lemma OnReady(s: Snap, id: ListId, u: Tid)
    requires Good(s) && id.Ready? && On(s.lists, id, u)
    ensures u in s.prio && s.prio[u] == id.prio
  {
  }

  lemma StepRuns(s: Snap, op: Op, s': Snap, t: Tid, left: int)
    requires Good(s) && Good(s') && Steps(s, op, s') && RunsWith(s, t, left) && NoneAbove(s', s.prio[t])
    requires op.Move? ==> op.t != t
    ensures !op.Tick? ==> RunsWith(s', t, left)
    ensures op.Tick? && left > 1 ==> RunsWith(s', t, left - 1)
    ensures s'.prio[t] == s.prio[t]
  {
    hide Good, Ticked, Heads, NoneAbove;
    match op {
      case Tick => { TickPrio(s, s'); TickRuns(s, s', t, left); }
      case Switch => { HeadsList(s', t, 0); }
      case Move(u, to) => { GoodApart(s); var k := MovedPlace(s.lists, u, to, Ready(s.prio[t]), 0); }
      case Create(u, p, slice) => { assert StandsAt(s', t, 0); }
      case Object(w) => { assert StandsAt(s', t, 0); }
    }
  }

  /** No thread above a priority is ready in any state of a run. */
  ghost predicate NeverAbove(states: seq<Snap>, p: nat) {
    forall i :: 0 <= i < |states| ==> NoneAbove(states[i], p)
  }

  /** A thread that runs is not switched from before the last tick of its slice. */
  lemma {:induction false} KeepsSlice(states: seq<Snap>, ops: seq<Op>, t: Tid, left: int, n: nat)
    requires IsRun(states, ops) && Unmoved(ops, t) && n <= |ops| && RunsWith(states[0], t, left)
    requires NeverAbove(states, states[0].prio[t]) && Ticks(ops[..n]) < left
    ensures RunsWith(states[n], t, left - Ticks(ops[..n])) && states[n].prio[t] == states[0].prio[t]
    decreases n
  {
    hide Good, Steps, NoneAbove;
    if n == 0 {
      assert ops[..0] == [];
    } else {
      assert ops[..n][..n - 1] == ops[..n - 1];
      KeepsSlice(states, ops, t, left, n - 1);
      assert Steps(states[n - 1], ops[n - 1], states[n - 1 + 1]);
      assert NoneAbove(states[n], states[0].prio[t]);
      StepRuns(states[n - 1], ops[n - 1], states[n], t, left - Ticks(ops[..n - 1]));
    }
  }

  /** The last tick of its slice hands over to the thread behind it, if there is one. */
  lemma SliceEnds(states: seq<Snap>, ops: seq<Op>, t: Tid, left: int, n: nat)
    requires IsRun(states, ops) && Unmoved(ops, t) && n < |ops| && RunsWith(states[0], t, left)
    requires NeverAbove(states, states[0].prio[t]) && Ticks(ops[..n]) == left - 1 && ops[n] == Tick
    ensures StandsAt(states[n], t, 0)
    ensures var q := states[n].lists[Ready(states[n].prio[t])]; |q| > 1 ==> states[n + 1].current == q[1] != t
  {
    hide Good, Ticked, Heads, NoneAbove;
    KeepsSlice(states, ops, t, left, n);
    assert Steps(states[n], ops[n], states[n + 1]);
    assert NoneAbove(states[n + 1], states[0].prio[t]);
    TickRuns(states[n], states[n + 1], t, 1);
  }
}
