/**
  Round robin among the ready threads of the highest priority: a thread at position k of its list runs within
  256 k ticks, whatever else joins or leaves the list. Runs are sequences of the atomic sections of the kernel,
  and the calls of the kernel are such runs.
 */
module RoundRobin {
  import opened KernelLists
  import opened ReadyGroup
  import opened Scheduler
  import opened KernelBlocking

  /** What the kernel looks like between two atomic sections. */
  datatype Snap = Snap(lists: Lists, prio: map<Tid, nat>, ticks: map<Tid, int>, sleep: map<Tid, int>, current: Tid)

  ghost function Now(k: Kernel): (r: Snap)
    reads k
  {
    Snap(k.lists, k.prio, k.ticks, k.sleepTicks, k.current)
  }

  ghost predicate Good(s: Snap) {
    && HasLists(s.lists) && Apart(s.lists) && Placed(s.lists, s.prio, {})
    && s.prio.Keys == s.ticks.Keys == s.sleep.Keys && s.current in s.prio
    && forall t :: t in s.ticks ==> 0 <= s.ticks[t] < 0x100
  }

  lemma NowGood(k: Kernel)
    requires k.Valid()
    ensures Good(Now(k))
  {
  }

  /** The current thread heads the highest ready list that is not empty. */
  ghost predicate Heads(s: Snap) {
    && s.current in s.prio && HasLists(s.lists) && s.prio[s.current] < PRIORITIES
    && |s.lists[Ready(s.prio[s.current])]| > 0 && s.lists[Ready(s.prio[s.current])][0] == s.current
    && forall p :: s.prio[s.current] < p < PRIORITIES ==> s.lists[Ready(p)] == []
  }

  /** No thread above a priority is ready. */
  ghost predicate NoneAbove(s: Snap, p: nat) {
    HasLists(s.lists) && forall q :: p < q < PRIORITIES ==> s.lists[Ready(q)] == []
  }

  // ----- sections -----

  /**
    The timer tick, the switch to the highest thread, a thread that goes to the tail of a list - which is what yielding,
    sleeping, blocking, waking, signalling and deleting do -, a new thread and a new object to wait for.
   */
  datatype Op = Tick | Switch | Move(t: Tid, to: ListId) | Create(t: Tid, p: nat, slice: int) | Object(w: int)

  ghost predicate Enabled(s: Snap, op: Op) {
    match op
    case Tick => true
    case Switch => true
    case Move(t, to) => t in s.prio && to in s.lists && (to.Ready? ==> to.prio == s.prio[t])
    case Create(t, p, slice) => t !in s.prio && p < PRIORITIES && 0 < slice < 0x100
    case Object(w) => Waiting(w) in s.lists ==> s.lists[Waiting(w)] == []
  }

  /** The current thread can be charged for a tick, and every sleeper is known. */
  ghost predicate Ticked(s: Snap, s': Snap) {
    && s.current in s.prio && s.current in s.ticks && Ready(s.prio[s.current]) in s.lists
    && s'.prio == s.prio && s'.ticks == s.ticks[s.current := Dec8(s.ticks[s.current])]
    && var sliced := Sliced(s.lists, s.prio, s.ticks, s.current);
       && Sleeping in sliced && SleepersKnown(sliced, s.prio, s.sleep, sliced[Sleeping])
       && s'.lists == Awake(sliced, s.prio, s.sleep, sliced[Sleeping]) && s'.sleep == Counted(s.sleep, sliced[Sleeping])
  }

  /** Nobody else's sleeping time changes. */
  ghost predicate SleepKept(s: Snap, s': Snap, t: Tid) {
    forall u :: u in s.sleep && u != t ==> u in s'.sleep && s'.sleep[u] == s.sleep[u]
  }

  ghost predicate Steps(s: Snap, op: Op, s': Snap) {
    && Enabled(s, op)
    && match op
       case Tick => Ticked(s, s') && Heads(s')
       case Switch => s' == s.(current := s'.current) && Heads(s')
       case Move(t, to) => s' == s.(lists := Moved(s.lists, t, to), sleep := s'.sleep) && SleepKept(s, s', t)
       case Create(t, p, slice) =>
         && Ready(p) in s.lists && s'.lists == s.lists[Ready(p) := s.lists[Ready(p)] + [t]]
         && s'.prio == s.prio[t := p] && s'.ticks == s.ticks[t := slice] && s'.current == s.current
         && SleepKept(s, s', t)
       case Object(w) => s' == s.(lists := s.lists[Waiting(w) := []])
  }

  // ----- positions -----

  ghost predicate StandsAt(s: Snap, t: Tid, k: nat) {
    && t in s.prio && Ready(s.prio[t]) in s.lists
    && k < |s.lists[Ready(s.prio[t])]| && s.lists[Ready(s.prio[t])][k] == t
  }

  /** The ticks until a slice is used up. */
  function Left(ticks: int): (r: int) {
    if ticks == 0 then 0x100 else ticks
  }

  /** The most ticks until the thread at position k is the first. */
  function Ahead(first: int, k: nat): (r: int) {
    if k == 0 then 0 else 0x100 * (k - 1) + Left(first)
  }

  /** The most ticks until the thread at position k runs; one more while the first is not yet switched to. */
  ghost function Bound(s: Snap, t: Tid, k: nat): (r: int)
    requires Good(s) && StandsAt(s, t, k)
  {
    var first := s.lists[Ready(s.prio[t])][0];
    FirstKnown(s, t, k);
    Ahead(s.ticks[first], k) + if s.current == first then 0 else 1
  }

  lemma FirstKnown(s: Snap, t: Tid, k: nat)
    requires Good(s) && StandsAt(s, t, k)
    ensures var first := s.lists[Ready(s.prio[t])][0]; first in s.prio && first in s.ticks && s.prio[first] == s.prio[t]
    ensures var first := s.lists[Ready(s.prio[t])][0]; 0 <= s.ticks[first] < 0x100
  {
    assert On(s.lists, Ready(s.prio[t]), s.lists[Ready(s.prio[t])][0]);
  }

  lemma BoundMost(s: Snap, t: Tid, k: nat)
    requires Good(s) && StandsAt(s, t, k)
    ensures 0 <= Bound(s, t, k) <= 0x100 * k + if s.current == s.lists[Ready(s.prio[t])][0] then 0 else 1
    ensures Bound(s, t, k) == 0 ==> s.current == t
  {
    FirstKnown(s, t, k);
  }

  /** Where a thread of a list stands when another was moved, and who is first. */
  lemma MovedPlace(lists: Lists, u: Tid, to: ListId, id: ListId, k: nat) returns (k': nat)
    requires Apart(lists) && to in lists && id in lists && k < |lists[id]| && lists[id][k] != u
    ensures k' <= k && k' < |Moved(lists, u, to)[id]| && Moved(lists, u, to)[id][k'] == lists[id][k]
    ensures lists[id][0] == u ==> k' == k - 1
    ensures lists[id][0] != u ==> Moved(lists, u, to)[id][0] == lists[id][0]
  {
    hide Drop;
    var q := lists[id];
    k' := k;
    DropOther(q, u, u);
    if u in q {
      var j :| 0 <= j < |q| && q[j] == u;
      DropIs(q, j);
      assert j == 0 || q[0] != u;
      k' := if j < k then k - 1 else k;
    }
  }

  /** The lists of ready threads only grow at their tails. */
  ghost predicate Extends(lists: Lists, lists': Lists, id: ListId) {
    id in lists && id in lists' && lists[id] <= lists'[id]
  }

  /** Sleepers that wake up join ready lists at the tail. */
  lemma {:induction false} AwakeArrives(lists: Lists, prio: map<Tid, nat>, sleep: map<Tid, int>, ts: seq<Tid>, p: int)
    requires Apart(lists) && SleepersKnown(lists, prio, sleep, ts) && Distinct(ts) && Ready(p) in lists
    requires forall k :: 0 <= k < |ts| ==> On(lists, Sleeping, ts[k])
    ensures Extends(lists, Awake(lists, prio, sleep, ts), Ready(p))
    decreases |ts|
  {
    if ts != [] {
      var t := ts[0];
      var q := Ready(prio[t]);
      var l := if Dec16(sleep[t]) == 0 then Moved(lists, t, q) else lists;
      assert On(lists, Sleeping, t);
      NotOn(lists, Sleeping, Ready(p), t);
      DropOther(lists[Ready(p)], t, t);
      MovedApart(lists, t, q);
      assert forall k :: 0 <= k < |ts[1..]| ==> ts[1..][k] == ts[k + 1] != t;
      AwakeArrives(l, prio, sleep, ts[1..], p);
    }
  }

  lemma MovedApart(lists: Lists, t: Tid, to: ListId)
    requires Apart(lists) && to in lists
    ensures Apart(Moved(lists, t, to)) && forall id, u :: u != t ==> (On(Moved(lists, t, to), id, u) <==> On(lists, id, u))
  {
    RemovedApart(lists, t);
    TailApart(Removed(lists, t), to, t);
  }

  /** All of a tick: the slice of the current thread, then the sleepers. */
  lemma TickExtends(s: Snap, s': Snap, p: int)
    requires Good(s) && Ticked(s, s') && Ready(p) in s.lists
    ensures Extends(Sliced(s.lists, s.prio, s.ticks, s.current), s'.lists, Ready(p))
  {
    var sliced := Sliced(s.lists, s.prio, s.ticks, s.current);
    MovedApart(s.lists, s.current, Ready(s.prio[s.current]));
    var ts := sliced[Sleeping];
    assert forall k :: 0 <= k < |ts| ==> On(sliced, Sleeping, ts[k]);
    AwakeArrives(sliced, s.prio, s.sleep, ts, p);
  }

  /** The place of a thread after the slice of the current one was counted down. */
  lemma SlicedPlace(s: Snap, t: Tid, k: nat) returns (k': nat)
    requires Good(s) && StandsAt(s, t, k) && s.current != t
    requires s.current in s.ticks && Ready(s.prio[s.current]) in s.lists
    ensures var q, r := s.lists[Ready(s.prio[t])], Sliced(s.lists, s.prio, s.ticks, s.current);
            && Ready(s.prio[t]) in r && k' <= k && k' < |r[Ready(s.prio[t])]| && r[Ready(s.prio[t])][k'] == t
            && (q[0] == s.current && Dec8(s.ticks[s.current]) == 0 ==> k' == k - 1)
            && (q[0] != s.current || Dec8(s.ticks[s.current]) != 0 ==> r[Ready(s.prio[t])][0] == q[0])
  {
    k' := k;
    if Dec8(s.ticks[s.current]) == 0 {
      k' := MovedPlace(s.lists, s.current, Ready(s.prio[s.current]), Ready(s.prio[t]), k);
    }
  }

  /** In a state where the current thread heads its list, and no thread is ready above t, it heads the list of t. */
  lemma HeadsList(s: Snap, t: Tid, k: nat)
    requires Good(s) && StandsAt(s, t, k) && NoneAbove(s, s.prio[t]) && Heads(s)
    ensures s.current == s.lists[Ready(s.prio[t])][0]
  {
  }

  lemma TickCloser(s: Snap, s': Snap, t: Tid, k: nat) returns (k': nat)
    requires Good(s) && Good(s') && StandsAt(s, t, k) && s.current != t && NoneAbove(s', s.prio[t]) && Ticked(s, s') && Heads(s')
    ensures k' <= k && StandsAt(s', t, k') && Bound(s', t, k') <= Bound(s, t, k) - 1
  {
    hide Good, Sliced, Awake, Heads, NoneAbove, SleepersKnown;
    FirstKnown(s, t, k);
    k' := SlicedPlace(s, t, k);
    TickExtends(s, s', s.prio[t]);
    HeadsList(s', t, k');
    FirstKnown(s', t, k');
  }

  lemma MoveCloser(s: Snap, u: Tid, to: ListId, s': Snap, t: Tid, k: nat) returns (k': nat)
    requires Good(s) && Good(s') && StandsAt(s, t, k) && t != u && Steps(s, Move(u, to), s')
    ensures k' <= k && StandsAt(s', t, k') && Bound(s', t, k') <= Bound(s, t, k)
  {
    hide Heads, NoneAbove, Ticked;
    k' := MovedPlace(s.lists, u, to, Ready(s.prio[t]), k);
    FirstKnown(s, t, k);
    FirstKnown(s', t, k');
  }

  /** The position never grows, nor does the bound, and every tick makes the bound smaller. */
  lemma Closer(s: Snap, op: Op, s': Snap, t: Tid, k: nat) returns (k': nat)
    requires Good(s) && Good(s') && Steps(s, op, s') && StandsAt(s, t, k) && s.current != t && NoneAbove(s', s.prio[t])
    requires op.Move? ==> op.t != t
    ensures k' <= k && StandsAt(s', t, k') && Bound(s', t, k') <= Bound(s, t, k) - (if op.Tick? then 1 else 0)
    ensures s'.prio[t] == s.prio[t]
  {
    hide Good, Ticked, Heads, NoneAbove;
    FirstKnown(s, t, k);
    k' := k;
    match op {
      case Tick => { TickPrio(s, s'); k' := TickCloser(s, s', t, k); }
      case Switch => { HeadsList(s', t, k); }
      case Move(u, to) => { k' := MoveCloser(s, u, to, s', t, k); }
      case Create(u, p, slice) => { assert StandsAt(s', t, k); FirstKnown(s', t, k); }
      case Object(w) => { assert StandsAt(s', t, k); }
    }
  }

  lemma TickPrio(s: Snap, s': Snap)
    requires Ticked(s, s')
    ensures s'.prio == s.prio
  {
  }

  // ----- runs -----

  ghost predicate IsRun(states: seq<Snap>, ops: seq<Op>) {
    && |states| == |ops| + 1
    && (forall i :: 0 <= i < |states| ==> Good(states[i]))
    && (forall i :: 0 <= i < |ops| ==> Steps(states[i], ops[i], states[i + 1]))
  }

  /** Until a thread runs, it is not moved itself and no thread above it is ready. */
  ghost predicate Undisturbed(states: seq<Snap>, ops: seq<Op>, t: Tid, p: nat)
    requires |states| == |ops| + 1
  {
    forall i :: 0 <= i < |ops| && (forall j :: 0 <= j <= i ==> states[j].current != t) ==>
      NoneAbove(states[i + 1], p) && (ops[i].Move? ==> ops[i].t != t)
  }

  ghost predicate RunsIn(states: seq<Snap>, t: Tid) {
    exists i :: 0 <= i < |states| && states[i].current == t
  }

  function Ticks(ops: seq<Op>): (n: nat) {
    if ops == [] then 0 else Ticks(ops[..|ops| - 1]) + if ops[|ops| - 1].Tick? then 1 else 0
  }

  /** As long as a thread has not run, the ticks so far came off its bound. */
  lemma {:induction false} TicksCount(states: seq<Snap>, ops: seq<Op>, t: Tid, k: nat, n: nat) returns (k': nat)
    requires IsRun(states, ops) && StandsAt(states[0], t, k) && Undisturbed(states, ops, t, states[0].prio[t]) && n <= |ops|
    requires !RunsIn(states, t)
    ensures Good(states[n]) && k' <= k && StandsAt(states[n], t, k') && states[n].prio[t] == states[0].prio[t]
    ensures Ticks(ops[..n]) + Bound(states[n], t, k') <= Bound(states[0], t, k)
    decreases n
  {
    hide Good, Steps, NoneAbove, Bound;
    if n == 0 {
      k' := k;
      assert ops[..0] == [];
    } else {
      var j := TicksCount(states, ops, t, k, n - 1);
      assert states[n - 1].current != t;
      assert Steps(states[n - 1], ops[n - 1], states[n - 1 + 1]);
      assert ops[..n][..n - 1] == ops[..n - 1];
      k' := Closer(states[n - 1], ops[n - 1], states[n], t, j);
    }
  }

  /**
    A thread at position k of its list runs before 256 k more ticks, counted from a state in which the first thread
    of the list runs, and before one more from any other state.
   */
  lemma BoundedWait(states: seq<Snap>, ops: seq<Op>, t: Tid, k: nat)
    requires IsRun(states, ops) && StandsAt(states[0], t, k) && Undisturbed(states, ops, t, states[0].prio[t])
    requires Ticks(ops) >= 0x100 * k + if states[0].current == states[0].lists[Ready(states[0].prio[t])][0] then 0 else 1
    ensures RunsIn(states, t)
  {
    if !RunsIn(states, t) {
      var n := |ops|;
      var k' := TicksCount(states, ops, t, k, n);
      assert ops[..n] == ops;
      assert states[n].current != t;
      BoundMost(states[0], t, k);
      BoundMost(states[n], t, k');
    }
  }

  // ----- the kernel makes such runs -----

  /** What threads and interrupts ask of the kernel. */
  datatype Call =
    | Timer
    | Yielding
    | Sleeps(quotient: nat)
    | Blocks(w: int)
    | Wakes(w: int)
    | Signals(t: Tid)
    | Deletes(t: Tid)
    | Creates(t: Tid, p: nat, slice: int)
    | NewWaitList(w: int)

  /** Two sections: a thread goes to the tail of a list, and the highest thread runs. */
  ghost predicate MovesSwitches(s: Snap, t: Tid, to: ListId, s': Snap) {
    && Steps(s, Move(t, to), s'.(current := s.current)) && Steps(s'.(current := s.current), Switch, s')
    && Good(s) && Good(s'.(current := s.current)) && Good(s')
  }

  lemma MoveSwitch(k: Kernel, s: Snap, t: Tid, to: ListId)
    requires k.Valid() && k.Elected() && Good(s) && Enabled(s, Move(t, to))
    requires k.lists == Moved(s.lists, t, to) && k.prio == s.prio && k.ticks == s.ticks && SleepKept(s, Now(k), t)
    ensures MovesSwitches(s, t, to, Now(k))
  {
    NowGood(k);
    assert Now(k) == Now(k).(current := s.current).(current := k.current);
  }

  /** The run of one section, and of two. */
  lemma OneSection(s: Snap, op: Op, s': Snap)
    requires Good(s) && Good(s') && Steps(s, op, s')
    ensures IsRun([s, s'], [op])
  {
  }

  lemma TwoSections(s: Snap, t: Tid, to: ListId, s': Snap)
    requires MovesSwitches(s, t, to, s')
    ensures IsRun([s, s'.(current := s.current), s'], [Move(t, to), Switch])
  {
    hide Good, Steps;
    var states, ops := [s, s'.(current := s.current), s'], [Move(t, to), Switch];
    assert states[0 + 1] == s'.(current := s.current) && states[1 + 1] == s';
  }

  /** A call that the caller may make now. */
  ghost predicate Possible(k: Kernel, c: Call)
    reads k
  {
    match c
    case Timer => true
    case Yielding => true
    case Sleeps(quotient) => k.current != k.idle
    case Blocks(w) => Running(k) && k.current != k.idle && Waiting(w) in k.lists
    case Wakes(w) => Waiting(w) in k.lists
    case Signals(t) => t in k.prio
    case Deletes(t) => t in k.prio && t != k.idle
    case Creates(t, p, slice) => t !in k.prio && p < PRIORITIES && 0 < slice < 0x100
    case NewWaitList(w) => Waiting(w) in k.lists ==> k.lists[Waiting(w)] == []
  }

  /** The sections of a call, with the states between them. */
  ghost predicate Made(s: Snap, c: Call, s': Snap, states: seq<Snap>, ops: seq<Op>) {
    && IsRun(states, ops) && states[0] == s && states[|ops|] == s' && Ticks(ops) == if c.Timer? then 1 else 0
  }

  lemma MadeNone(s: Snap, c: Call)
    requires Good(s) && !c.Timer?
    ensures Made(s, c, s, [s], [])
  {
  }

  lemma MadeOne(s: Snap, c: Call, op: Op, s': Snap)
    requires Good(s) && Good(s') && Steps(s, op, s') && (c.Timer? <==> op.Tick?)
    ensures Made(s, c, s', [s, s'], [op])
  {
    OneSection(s, op, s');
    assert [op][..0] == [];
  }

  lemma MadeTwo(s: Snap, c: Call, t: Tid, to: ListId, s': Snap)
    requires MovesSwitches(s, t, to, s') && !c.Timer?
    ensures Made(s, c, s', [s, s'.(current := s.current), s'], [Move(t, to), Switch])
  {
    hide Good, Steps;
    TwoSections(s, t, to, s');
    var ops := [Move(t, to), Switch];
    assert ops[..1] == [Move(t, to)] && [Move(t, to)][..0] == [];
    assert Ticks(ops[..1]) == 0;
  }

  /** Which sections a call is made of. */
  ghost function Sections(k: Kernel, c: Call): (r: seq<Op>)
    requires k.Valid() && Possible(k, c)
    reads k
  {
    k.HangingFacts({});
    match c
    case Timer => [Tick]
    case Yielding => [Move(k.current, Ready(k.prio[k.current])), Switch]
    case Sleeps(_) => [Move(k.current, Sleeping), Switch]
    case Blocks(w) => [Move(k.current, Waiting(w)), Switch]
    case Wakes(w) =>
      if k.lists[Waiting(w)] == [] then []
      else
        WakeHead(k, w);
        [Move(k.lists[Waiting(w)][0], Ready(k.prio[k.lists[Waiting(w)][0]])), Switch]
    case Signals(t) =>
      if t in k.status && k.status[t] == Interrupted then [] else [Move(t, Ready(k.prio[t])), Switch]
    case Deletes(t) => [Move(t, Deleted), Switch]
    case Creates(t, p, slice) => [Create(t, p, slice)]
    case NewWaitList(w) => [Object(w)]
  }

  /** What every call keeps: no list is forgotten, and a current thread is ready if it was. */
  ghost predicate Kept(k: Kernel, before: Lists, running: bool)
    reads k
  {
    k.Valid() && !k.locked && before.Keys <= k.lists.Keys && (running ==> Running(k))
  }

  lemma ElectedRunning(k: Kernel)
    requires k.Elected()
    ensures Running(k)
  {
  }

  /** Every call on the kernel is a run of its sections. */
  method Perform(k: Kernel, c: Call) returns (ghost states: seq<Snap>)
    requires k.Valid() && !k.locked && Possible(k, c)
    modifies k
    ensures Kept(k, old(k.lists), old(Running(k))) && k.started == old(k.started)
    ensures Made(old(Now(k)), c, Now(k), states, old(Sections(k, c)))
  {
    hide Kernel.Hanging, Good, Moved, Made, Steps, Kernel.Elected, Sliced, Awake, Ticked, Heads;
    ghost var s := Now(k);
    NowGood(k);
    k.HangingFacts({});
    match c {
      case Timer => { states := PerformTick(k); }
      case Yielding => { states := PerformMove(k, c); }
      case Sleeps(_) => { states := PerformMove(k, c); }
      case Blocks(w) => { states := PerformMove(k, c); }
      case Wakes(w) => { states := PerformMove(k, c); }
      case Signals(t) => { states := PerformMove(k, c); }
      case Deletes(t) => { states := PerformMove(k, c); }
      case Creates(t, p, slice) => { states := PerformNew(k, c); }
      case NewWaitList(w) => { states := PerformNew(k, c); }
    }
  }

  method PerformTick(k: Kernel) returns (ghost states: seq<Snap>)
    requires k.Valid() && !k.locked
    modifies k
    ensures Kept(k, old(k.lists), old(Running(k))) && k.started == old(k.started)
    ensures Made(old(Now(k)), Timer, Now(k), states, [Tick])
  {
    hide Kernel.Hanging, Good, Moved, Made, Sliced, Awake, SleepersKnown;
    ghost var s := Now(k);
    NowGood(k);
    k.HangingFacts({});
    k.ReadyKnown(k.current);
    k.Proc();
    NowGood(k);
    ElectedRunning(k);
    ghost var sliced := Sliced(s.lists, s.prio, s.ticks, s.current);
    SlicedKeys(s.lists, s.prio, s.ticks, s.current);
    AwakeKeys(sliced, s.prio, s.sleep, sliced[Sleeping]);
    MadeOne(s, Timer, Tick, Now(k));
    states := [s, Now(k)];
  }

  method PerformNew(k: Kernel, c: Call) returns (ghost states: seq<Snap>)
    requires k.Valid() && !k.locked && Possible(k, c) && (c.Creates? || c.NewWaitList?)
    modifies k
    ensures Kept(k, old(k.lists), old(Running(k))) && k.started == old(k.started)
    ensures Made(old(Now(k)), c, Now(k), states, old(Sections(k, c)))
  {
    hide Kernel.Hanging, Good, Made;
    ghost var s, op := Now(k), if c.Creates? then Create(c.t, c.p, c.slice) else Object(c.w);
    NowGood(k);
    if c.Creates? {
      k.InsertThread(c.t, c.p, c.slice);
    } else {
      k.NewObject(c.w);
    }
    NowGood(k);
    MadeOne(s, c, op, Now(k));
    states := [s, Now(k)];
  }

  method PerformMove(k: Kernel, c: Call) returns (ghost states: seq<Snap>)
    requires k.Valid() && !k.locked && Possible(k, c) && !c.Timer? && !c.Creates? && !c.NewWaitList?
    modifies k
    ensures Kept(k, old(k.lists), old(Running(k))) && k.started == old(k.started)
    ensures Made(old(Now(k)), c, Now(k), states, old(Sections(k, c)))
  {
    hide Kernel.Hanging, Good, Made, Moved, Kernel.Elected, MovesSwitches, Running;
    ghost var s, ops := Now(k), Sections(k, c);
    NowGood(k);
    k.HangingFacts({});
    MoveEnabled(k, c);
    match c {
      case Yielding => { k.Yield(); }
      case Sleeps(quotient) => { k.MSleep(quotient); }
      case Blocks(w) => { Block(k, w); }
      case Wakes(w) => { WakeFirst(k, w); }
      case Signals(t) => { var ok := k.ReportSignal(t); }
      case Deletes(t) => { k.DeleteThread(t); }
    }
    if ops == [] {
      MadeNone(s, c);
      states := [s];
    } else {
      ElectedRunning(k);
      MoveSwitch(k, s, ops[0].t, ops[0].to);
      MadeTwo(s, c, ops[0].t, ops[0].to, Now(k));
      states := [s, Now(k).(current := s.current), Now(k)];
    }
  }

  lemma MoveEnabled(k: Kernel, c: Call)
    requires k.Valid() && Possible(k, c) && !c.Timer? && !c.Creates? && !c.NewWaitList?
    ensures Sections(k, c) != [] ==> Enabled(Now(k), Sections(k, c)[0]) && Sections(k, c)[0].Move?
    ensures Sections(k, c) != [] ==> Sections(k, c) == [Sections(k, c)[0], Switch]
  {
    k.ReadyKnown(k.current);
    if c.Signals? {
      k.ReadyKnown(c.t);
    }
    if c.Wakes? && k.lists[Waiting(c.w)] != [] {
      WakeHead(k, c.w);
    }
  }

  // ----- bounded waiting on the kernel -----

  function Timers(calls: seq<Call>): (n: nat) {
    if calls == [] then 0 else Timers(calls[..|calls| - 1]) + if calls[|calls| - 1].Timer? then 1 else 0
  }

  /** A call that can be made on a kernel whose current thread is ready, with these objects to wait for. */
  predicate Allowed(k: Kernel, c: Call, objects: set<int>)
    reads k
  {
    match c
    case Timer => true
    case Yielding => true
    case Sleeps(quotient) => k.current != k.idle
    case Blocks(w) => k.current != k.idle && w in objects
    case Wakes(w) => w in objects
    case Signals(t) => t in k.prio
    case Deletes(t) => t in k.prio && t != k.idle
    case Creates(t, p, slice) => t !in k.prio && p < PRIORITIES && 0 < slice < 0x100
    case NewWaitList(w) => false
  }

  /** The current thread is ready, and the objects are known. */
  ghost predicate Usable(k: Kernel, objects: set<int>)
    reads k
  {
    k.Valid() && !k.locked && Running(k) && forall w :: w in objects ==> Waiting(w) in k.lists
  }

  lemma AllowedPossible(k: Kernel, c: Call, objects: set<int>)
    requires Usable(k, objects) && Allowed(k, c, objects)
    ensures Possible(k, c)
  {
  }

  lemma SlicedKeys(lists: Lists, prio: map<Tid, nat>, ticks: map<Tid, int>, current: Tid)
    requires current in prio && current in ticks && Ready(prio[current]) in lists
    ensures Sliced(lists, prio, ticks, current).Keys == lists.Keys
  {
  }

  lemma {:induction false} AwakeKeys(lists: Lists, prio: map<Tid, nat>, sleep: map<Tid, int>, ts: seq<Tid>)
    requires SleepersKnown(lists, prio, sleep, ts)
    ensures Awake(lists, prio, sleep, ts).Keys == lists.Keys
    decreases |ts|
  {
    if ts != [] {
      AwakeKeys(if Dec16(sleep[ts[0]]) == 0 then Moved(lists, ts[0], Ready(prio[ts[0]])) else lists, prio, sleep, ts[1..]);
    }
  }

  lemma {:induction false} TicksAppend(a: seq<Op>, b: seq<Op>)
    ensures Ticks(a + b) == Ticks(a) + Ticks(b)
  {
    if b == [] {
      assert a + b == a;
    } else {
      assert (a + b)[..|a + b| - 1] == a + b[..|b| - 1];
      TicksAppend(a, b[..|b| - 1]);
    }
  }

  /** One run after another. */
  lemma Joined(states: seq<Snap>, ops: seq<Op>, more: seq<Snap>, after: seq<Op>)
    requires IsRun(states, ops) && IsRun(more, after) && more[0] == states[|ops|]
    ensures IsRun(states + more[1..], ops + after)
  {
    hide Good, Steps;
    var all, every := states + more[1..], ops + after;
    forall i | 0 <= i < |all|
      ensures Good(all[i])
    {
      assert i >= |states| ==> all[i] == more[i - |states| + 1];
    }
    forall i | 0 <= i < |every|
      ensures Steps(all[i], every[i], all[i + 1])
    {
      if i < |ops| {
        assert Steps(states[i], ops[i], states[i + 1]);
      } else {
        var j := i - |ops|;
        assert Steps(more[j], after[j], more[j + 1]);
        assert all[i] == more[j] && all[i + 1] == more[j + 1];
      }
    }
  }

  lemma TimersNext(calls: seq<Call>, i: nat)
    requires i < |calls|
    ensures Timers(calls[..i + 1]) == Timers(calls[..i]) + if calls[i].Timer? then 1 else 0
  {
    assert calls[..i + 1][..i] == calls[..i];
  }

  /** Calls on a kernel that is not locked, each when it is possible, are a run, with as many ticks as there were timer calls. */
  method RunCalls(k: Kernel, objects: set<int>, calls: seq<Call>) returns (ghost states: seq<Snap>, ghost ops: seq<Op>)
    requires Usable(k, objects)
    modifies k
    ensures Usable(k, objects) && IsRun(states, ops) && states[0] == old(Now(k)) && states[|ops|] == Now(k)
    ensures Ticks(ops) == Timers(calls)
  {
    hide Kernel.Hanging, Good, Steps, Sections, Possible, Usable;
    UsableGood(k, objects);
    states, ops := [Now(k)], [];
    for i := 0 to |calls|
      invariant Usable(k, objects) && IsRun(states, ops)
      invariant states[0] == old(Now(k)) && states[|ops|] == Now(k) && Ticks(ops) == Timers(calls[..i])
    {
      TimersNext(calls, i);
      if Allowed(k, calls[i], objects) {
        ghost var more, sections := WatchOne(k, objects, calls[i]);
        Joined(states, ops, more, sections);
        TicksAppend(ops, sections);
        states, ops := states + more[1..], ops + sections;
      }
    }
    assert calls[..|calls|] == calls;
  }

  /**
    A thread at position pos of its ready list is the current thread at some moment before 256 pos calls of the timer,
    unless it is moved itself or a thread above it becomes ready.
   */
  method Watch(k: Kernel, objects: set<int>, calls: seq<Call>, t: Tid, pos: nat) returns (ghost states: seq<Snap>, ghost ops: seq<Op>)
    requires Usable(k, objects) && k.Elected() && StandsAt(Now(k), t, pos) && NoneAbove(Now(k), k.prio[t])
    modifies k
    ensures Usable(k, objects) && IsRun(states, ops) && states[0] == old(Now(k)) && states[|ops|] == Now(k)
    ensures Ticks(ops) == Timers(calls)
    ensures Undisturbed(states, ops, t, old(k.prio)[t]) && Timers(calls) >= 0x100 * pos ==> RunsIn(states, t)
  {
    hide Kernel.Hanging, Good, Steps, Undisturbed, RunsIn, Usable, NoneAbove, Kernel.Elected;
    ghost var p := k.prio[t];
    StartsHead(k, objects, t, pos);
    states, ops := RunCalls(k, objects, calls);
    if Undisturbed(states, ops, t, p) && Timers(calls) >= 0x100 * pos {
      BoundedWait(states, ops, t, pos);
    }
  }

  method WatchOne(k: Kernel, objects: set<int>, c: Call) returns (ghost states: seq<Snap>, ghost ops: seq<Op>)
    requires Usable(k, objects) && Allowed(k, c, objects)
    modifies k
    ensures Usable(k, objects) && Made(old(Now(k)), c, Now(k), states, ops)
  {
    hide Kernel.Hanging, Good, Steps, Sections, Possible, Made, Allowed;
    AllowedPossible(k, c, objects);
    ops := Sections(k, c);
    states := Perform(k, c);
  }

  lemma UsableGood(k: Kernel, objects: set<int>)
    requires Usable(k, objects)
    ensures Good(Now(k))
  {
    NowGood(k);
  }

  /** With no thread above it, the list of an elected thread is that of t. */
  lemma StartsHead(k: Kernel, objects: set<int>, t: Tid, pos: nat)
    requires Usable(k, objects) && k.Elected() && StandsAt(Now(k), t, pos) && NoneAbove(Now(k), k.prio[t])
    ensures k.current == k.lists[Ready(k.prio[t])][0]
  {
    NowGood(k);
    HeadsList(Now(k), t, pos);
  }
}
