/**
  Runs of mutex calls by any number of threads: exclusion, and what becomes of the waiters when the mutex
  is free, given that a thread gives up after 128 rounds.
 */
module MutexRuns {
  import opened Basics
  import opened KernelLists

  const MUTEX_RECURSIVE_MAX := 128

  /** The owner and the threads on the wait list. */
  datatype Core = Core(owner: Option<Tid>, waiting: seq<Tid>)

  datatype Result = Taken | Deadlock | Again

  /** One round of pthread_mutex_lock by a thread. */
  function Try(c: Core, t: Tid): (r: (Core, Result)) {
    if c.owner.None? then (c.(owner := Some(t)), Taken)
    else if c.owner.value == t then (c, Deadlock)
    else (c.(waiting := c.waiting + [t]), Again)
  }

  /** pthread_mutex_unlock by the owner: the mutex is free and the first waiter leaves the wait list. */
  function Release(c: Core): (r: Core) {
    Core(None, if c.waiting == [] then [] else c.waiting[1..])
  }

  /** A thread is outside the call, about to try with some rounds left, or on the wait list with some rounds left. */
  datatype Phase = Outside | Trying(rounds: nat) | Blocked(rounds: nat)

  /** The mutex, the phases, and the threads whose lock returned 0 and that have not unlocked. */
  datatype State = State(core: Core, phase: map<Tid, Phase>, holding: set<Tid>)

  datatype Event = Call(t: Tid) | Attempt(t: Tid) | GiveUp(t: Tid) | Unlock(t: Tid) | Signal(t: Tid)

  predicate Enabled(s: State, e: Event) {
    match e
    case Call(t) => t in s.phase ==> s.phase[t].Outside?
    case Attempt(t) => t in s.phase && s.phase[t].Trying? && s.phase[t].rounds > 0
    case GiveUp(t) => t in s.phase && s.phase[t].Trying? && s.phase[t].rounds == 0
    case Unlock(t) => t in s.phase ==> s.phase[t].Outside?
    case Signal(t) => t in s.phase && s.phase[t].Blocked?
  }

  /** The rounds a blocked thread has left. */
  function RoundsOf(s: State, t: Tid): (r: nat) {
    if t in s.phase && s.phase[t].Blocked? then s.phase[t].rounds else 0
  }

  function Step(s: State, e: Event): (r: State)
    requires Enabled(s, e)
  {
    match e
    case Call(t) => s.(phase := s.phase[t := Trying(MUTEX_RECURSIVE_MAX)])
    case Attempt(t) =>
      var (core, result) := Try(s.core, t);
      match result {
        case Taken => State(core, s.phase[t := Outside], s.holding + {t})
        case Deadlock => s.(phase := s.phase[t := Outside])
        case Again => State(core, s.phase[t := Blocked(s.phase[t].rounds - 1)], s.holding)
      }
    case GiveUp(t) => s.(phase := s.phase[t := Outside])
    case Unlock(t) =>
      if s.core.owner != Some(t) then s
      else if s.core.waiting == [] then s.(core := Release(s.core), holding := s.holding - {t})
      else
        var w := s.core.waiting[0];
        State(Release(s.core), s.phase[w := Trying(RoundsOf(s, w))], s.holding - {t})
    case Signal(t) =>
      s.(core := s.core.(waiting := Drop(s.core.waiting, t)), phase := s.phase[t := Trying(s.phase[t].rounds)])
  }

  /** The threads on the wait list are those that are blocked, each once. */
  ghost predicate Matches(s: State) {
    && Distinct(s.core.waiting)
    && (forall t :: t in s.core.waiting ==> t in s.phase && s.phase[t].Blocked?)
    && (forall t :: t in s.phase && s.phase[t].Blocked? ==> t in s.core.waiting)
  }

  /** A thread holds the mutex exactly when it is the owner: no two threads hold it at once. */
  predicate Exclusive(s: State) {
    s.holding == if s.core.owner.Some? then {s.core.owner.value} else {}
  }

  /** The owner does not wait for its own mutex. */
  predicate OwnerAwake(s: State) {
    s.core.owner.Some? ==> s.core.owner.value !in s.core.waiting
  }

  ghost predicate Good(s: State) {
    Matches(s) && Exclusive(s) && OwnerAwake(s)
  }

  /** A thread that will try for the mutex once more. */
  predicate Coming(s: State, t: Tid) {
    t in s.phase && s.phase[t].Trying? && s.phase[t].rounds > 0
  }

  /** A free mutex with waiters has a thread that is about to try for it. */
  ghost predicate Served(s: State) {
    s.core.owner.None? && s.core.waiting != [] ==> exists t :: Coming(s, t)
  }

  lemma StepGood(s: State, e: Event)
    requires Good(s) && Enabled(s, e)
    ensures Good(Step(s, e))
  {
    var s' := Step(s, e);
    match e {
      case Call(t) =>
      case Attempt(t) => assert t !in s.core.waiting;
      case GiveUp(t) =>
      case Unlock(t) =>
        if s.core.owner == Some(t) && s.core.waiting != [] {
          assert s.core.waiting[0] in s.core.waiting;
          assert forall u :: u in s.core.waiting ==> u == s.core.waiting[0] || u in s.core.waiting[1..];
        }
      case Signal(t) =>
        DropGone(s.core.waiting, t);
        forall u | u != t
          ensures u in s'.core.waiting <==> u in s.core.waiting
        {
          DropOther(s.core.waiting, t, u);
        }
    }
  }

  ghost predicate IsRun(states: seq<State>, events: seq<Event>) {
    && |states| == |events| + 1
    && forall i :: 0 <= i < |events| ==> Enabled(states[i], events[i]) && states[i + 1] == Step(states[i], events[i])
  }

  /** In every run at most one thread holds the mutex, and it is the owner until it unlocks. */
  lemma {:induction false} RunExclusive(states: seq<State>, events: seq<Event>, n: nat)
    requires IsRun(states, events) && n <= |events| && Good(states[0])
    ensures Good(states[n])
    decreases n
  {
    if n > 0 {
      RunExclusive(states, events, n - 1);
      StepGood(states[n - 1], events[n - 1]);
      assert states[n - 1 + 1] == Step(states[n - 1], events[n - 1]);
    }
  }

  /** A thread stays the owner over every step but its own unlock. */
  lemma OwnerStays(s: State, e: Event, t: Tid)
    requires Good(s) && Enabled(s, e) && t in s.holding && e != Unlock(t)
    ensures t in Step(s, e).holding && Step(s, e).core.owner == Some(t)
  {
  }

  /** An owner that locks again is refused at once, and nothing changes for the others. */
  lemma OwnerRefused(s: State, t: Tid)
    requires Good(s) && s.core.owner == Some(t) && Enabled(s, Attempt(t))
    ensures Try(s.core, t).1 == Deadlock && Step(s, Attempt(t)) == s.(phase := s.phase[t := Outside])
  {
  }

  /** The rounds a thread makes in a run. */
  function Rounds(events: seq<Event>, t: Tid): (n: nat) {
    if events == [] then 0 else Rounds(events[..|events| - 1], t) + if events[|events| - 1] == Attempt(t) then 1 else 0
  }

  /** In its call, as long as it has not got the mutex, a thread has 128 rounds, those it made and those it has left. */
  lemma {:induction false} RoundsCount(states: seq<State>, events: seq<Event>, t: Tid, n: nat)
    requires IsRun(states, events) && 0 < n <= |events| && events[0] == Call(t) && Good(states[0])
    requires forall i :: 0 < i <= n ==> t in states[i].phase && !states[i].phase[t].Outside?
    ensures states[n].phase[t].rounds + Rounds(events[..n], t) == 128
    decreases n
  {
    var s, e := states[n - 1], events[n - 1];
    assert states[n - 1 + 1] == Step(s, e);
    assert events[..n][..n - 1] == events[..n - 1];
    if n > 1 {
      RoundsCount(states, events, t, n - 1);
      RunExclusive(states, events, n - 1);
      assert s.core.waiting != [] ==> s.core.waiting[0] in s.core.waiting;
    } else {
      assert events[..0] == [];
    }
  }

  // ----- who gets a mutex -----

  predicate About(s: State, w: Tid) {
    w in s.phase && s.phase[w].Trying? && s.phase[w].rounds > 0
  }

  /** As long as nobody tries, a free mutex stays free and a thread that is about to try stays so. */
  lemma {:induction false} NoneTaken(states: seq<State>, events: seq<Event>, w: Tid, n: nat)
    requires IsRun(states, events) && n <= |events| && About(states[0], w) && Good(states[0]) && states[0].core.owner.None?
    requires forall i :: 0 <= i < n ==> !events[i].Attempt?
    ensures Good(states[n]) && About(states[n], w) && states[n].core.owner.None?
    decreases n
  {
    if n > 0 {
      NoneTaken(states, events, w, n - 1);
      var s, e := states[n - 1], events[n - 1];
      StepGood(s, e);
      assert states[n - 1 + 1] == Step(s, e);
      assert w !in s.core.waiting;
      assert s.core.waiting != [] ==> s.core.waiting[0] in s.core.waiting;
    }
  }

  /**
    An unlock by the owner frees the mutex and wakes the first waiter; the next attempt, if it is that of this thread with
    a round left and not of one that barges in, makes it the owner.
   */
  lemma UnlockServes(states: seq<State>, events: seq<Event>, n: nat, t: Tid)
    requires IsRun(states, events) && 0 < n < |events| && Good(states[0]) && events[0] == Unlock(t)
    requires states[0].core.owner == Some(t) && states[0].core.waiting != [] && RoundsOf(states[0], states[0].core.waiting[0]) > 0
    requires forall i :: 0 < i < n ==> !events[i].Attempt?
    requires events[n] == Attempt(states[0].core.waiting[0])
    ensures states[1].core.owner == None && states[1].core.waiting == states[0].core.waiting[1..]
    ensures states[n + 1].core.owner == Some(states[0].core.waiting[0])
    ensures states[n + 1].holding == {states[0].core.waiting[0]}
  {
    var w := states[0].core.waiting[0];
    assert w in states[0].core.waiting;
    StepGood(states[0], Unlock(t));
    assert states[0 + 1] == Step(states[0], Unlock(t));
    var later, rest := states[1..], events[1..];
    forall i | 0 <= i < |rest|
      ensures Enabled(later[i], rest[i]) && later[i + 1] == Step(later[i], rest[i])
    {
      assert later[i] == states[i + 1] && later[i + 1] == states[i + 1 + 1];
    }
    NoneTaken(later, rest, w, n - 1);
    assert later[n - 1] == states[n];
    assert states[n + 1] == Step(states[n], events[n]);
  }

  // ----- waiters of a free mutex -----

  /** The unlock that leaves waiters behind: the one it wakes has no round left and nobody else is coming. */
  ghost predicate Strands(s: State, e: Event) {
    && e.Unlock? && s.core.owner == Some(e.t) && |s.core.waiting| > 1
    && RoundsOf(s, s.core.waiting[0]) == 0 && !exists t :: Coming(s, t)
  }

  /** A step leaves a free mutex without a thread coming for its waiters exactly when it is such an unlock. */
  lemma ServedUnless(s: State, e: Event)
    requires Good(s) && Served(s) && Enabled(s, e)
    ensures Served(Step(s, e)) <==> !Strands(s, e)
  {
    var s' := Step(s, e);
    match e {
      case Call(t) => assert Coming(s', t);
      case Attempt(t) =>
        assert Coming(s, t) && s'.core.owner.Some?;
      case GiveUp(t) => OthersCome(s, s', t);
      case Unlock(t) =>
        if s.core.owner == Some(t) && s.core.waiting != [] {
          var w := s.core.waiting[0];
          assert w in s.core.waiting;
          if RoundsOf(s, w) > 0 {
            assert Coming(s', w);
          } else {
            assert !Coming(s', w);
          }
          OthersCome(s, s', w);
        }
      case Signal(t) =>
        OthersCome(s, s', t);
        if s'.core.owner.None? && s'.core.waiting != [] {
          assert s.core.waiting != [];
        }
    }
  }

  /** A step that changes the phase of one thread, which was not coming, lets the others come as before. */
  lemma OthersCome(s: State, s': State, t: Tid)
    requires t in s.phase && t in s'.phase && s'.phase == s.phase[t := s'.phase[t]] && !Coming(s, t)
    ensures (exists u :: Coming(s', u)) <==> Coming(s', t) || exists u :: Coming(s, u)
  {
    if exists u :: Coming(s, u) {
      var u :| Coming(s, u);
      assert Coming(s', u);
    }
    if exists u :: Coming(s', u) {
      var u :| Coming(s', u);
      assert u != t ==> Coming(s, u);
    }
  }

  /** No thread waits on its last round. */
  predicate RoundsLeft(s: State) {
    forall t :: t in s.phase && s.phase[t].Blocked? ==> s.phase[t].rounds > 0
  }

  /** While no thread uses up its rounds, a free mutex with waiters always has a thread coming for it. */
  lemma {:induction false} RunServed(states: seq<State>, events: seq<Event>, n: nat)
    requires IsRun(states, events) && n <= |events| && Good(states[0]) && Served(states[0])
    requires forall i :: 0 <= i < n ==> RoundsLeft(states[i])
    ensures Served(states[n])
    decreases n
  {
    if n > 0 {
      var s, e := states[n - 1], events[n - 1];
      RunServed(states, events, n - 1);
      RunExclusive(states, events, n - 1);
      assert RoundsLeft(states[n - 1]);
      assert s.core.waiting != [] ==> s.core.waiting[0] in s.core.waiting;
      ServedUnless(s, e);
      assert states[n - 1 + 1] == Step(s, e);
    }
  }

  // ----- a run that strands a waiter -----

  function Play(s: State, es: seq<Event>): (r: Option<State>)
    decreases |es|
  {
    if es == [] then Some(s)
    else if Enabled(s, es[0]) then Play(Step(s, es[0]), es[1..])
    else None
  }

  lemma {:induction false} PlayOn(s: State, es: seq<Event>, fs: seq<Event>)
    requires Play(s, es).Some?
    ensures Play(s, es + fs) == Play(Play(s, es).value, fs)
    decreases |es|
  {
    if es == [] {
      assert es + fs == fs;
    } else {
      assert (es + fs)[1..] == es[1..] + fs;
      PlayOn(Step(s, es[0]), es[1..], fs);
    }
  }

  const A: Tid := 1
  const B: Tid := 2
  const C: Tid := 3

  /** A owns the mutex, B and C wait, each with some rounds left. */
  function Contended(rounds: nat): (s: State) {
    State(Core(Some(A), [B, C]), map[A := Outside, B := Blocked(rounds), C := Blocked(rounds)], {A})
  }

  /** A unlocks and locks again before the thread it woke gets to try. */
  function Barge(t: Tid): (es: seq<Event>) {
    [Unlock(A), Call(A), Attempt(A), Attempt(t)]
  }

  lemma BargeOnce(s: State, t: Tid, u: Tid, n: nat, m: nat)
    requires s == State(Core(Some(A), [t, u]), map[A := Outside, t := Blocked(n), u := Blocked(m)], {A})
    requires n > 0 && A != t && t != u && u != A
    ensures Play(s, Barge(t)) == Some(State(Core(Some(A), [u, t]), map[A := Outside, t := Blocked(n - 1), u := Blocked(m)], {A}))
  {
    hide Step, Enabled;
    BargeSteps(s, t, u, n, m);
    var s1 := Step(s, Unlock(A));
    var s2 := Step(s1, Call(A));
    var s3 := Step(s2, Attempt(A));
    var s4 := Step(s3, Attempt(t));
    var es := Barge(t);
    assert es[1..] == [Call(A), Attempt(A), Attempt(t)] && es[1..][1..] == [Attempt(A), Attempt(t)];
    assert Play(s3, [Attempt(t)]) == Some(s4);
    assert Play(s2, [Attempt(A), Attempt(t)]) == Play(s3, [Attempt(t)]);
    assert Play(s1, es[1..]) == Play(s2, es[1..][1..]);
  }

  lemma BargeSteps(s: State, t: Tid, u: Tid, n: nat, m: nat)
    requires s == State(Core(Some(A), [t, u]), map[A := Outside, t := Blocked(n), u := Blocked(m)], {A})
    requires n > 0 && A != t && t != u && u != A
    ensures Enabled(s, Unlock(A))
    ensures var s1 := Step(s, Unlock(A));
            && Enabled(s1, Call(A)) && Enabled(Step(s1, Call(A)), Attempt(A))
            && var s3 := Step(Step(s1, Call(A)), Attempt(A));
               && Enabled(s3, Attempt(t))
               && Step(s3, Attempt(t)) == State(Core(Some(A), [u, t]), map[A := Outside, t := Blocked(n - 1), u := Blocked(m)], {A})
  {
    var s1 := Step(s, Unlock(A));
    assert s1 == State(Core(None, [u]), map[A := Outside, t := Trying(n), u := Blocked(m)], {});
    var s3 := Step(Step(s1, Call(A)), Attempt(A));
    assert s3 == State(Core(Some(A), [u]), map[A := Outside, t := Trying(n), u := Blocked(m)], {A});
  }

  function Wear(rounds: nat): (es: seq<Event>) {
    if rounds == 0 then [] else Barge(B) + Barge(C) + Wear(rounds - 1)
  }

  lemma {:induction false} WearDown(rounds: nat)
    ensures Play(Contended(rounds), Wear(rounds)) == Some(Contended(0))
    decreases rounds
  {
    if rounds > 0 {
      var s := Contended(rounds);
      BargeOnce(s, B, C, rounds, rounds);
      PlayOn(s, Barge(B), Barge(C));
      var s1 := Play(s, Barge(B)).value;
      BargeOnce(s1, C, B, rounds, rounds - 1);
      assert Play(s1, Barge(C)).value == Contended(rounds - 1);
      PlayOn(s, Barge(B) + Barge(C), Wear(rounds - 1));
      WearDown(rounds - 1);
    }
  }

  /** Three threads that start outside can reach a free mutex with a waiter that nobody will ever wake. */
  lemma Stranded() returns (es: seq<Event>, last: State)
    ensures Play(State(Core(None, []), map[A := Outside, B := Outside, C := Outside], {}), es) == Some(last)
    ensures last.core == Core(None, [C]) && last.phase == map[A := Outside, B := Outside, C := Blocked(0)] && !Served(last)
  {
    var start := State(Core(None, []), map[A := Outside, B := Outside, C := Outside], {});
    var rounds := MUTEX_RECURSIVE_MAX - 1;
    var open := [Call(A), Attempt(A), Call(B), Attempt(B), Call(C), Attempt(C)];
    Opening(start, open);
    WearDown(rounds);
    PlayOn(start, open, Wear(rounds));
    var close := [Unlock(A), GiveUp(B)];
    last := State(Core(None, [C]), map[A := Outside, B := Outside, C := Blocked(0)], {});
    Closing(close, last);
    es := open + Wear(rounds) + close;
    PlayOn(start, open + Wear(rounds), close);
  }

  lemma Opening(start: State, open: seq<Event>)
    requires start == State(Core(None, []), map[A := Outside, B := Outside, C := Outside], {})
    requires open == [Call(A), Attempt(A), Call(B), Attempt(B), Call(C), Attempt(C)]
    ensures Play(start, open) == Some(Contended(MUTEX_RECURSIVE_MAX - 1))
  {
    var s1 := Step(start, Call(A));
    var s2 := Step(s1, Attempt(A));
    var s3 := Step(s2, Call(B));
    var s4 := Step(s3, Attempt(B));
    var s5 := Step(s4, Call(C));
    var s6 := Step(s5, Attempt(C));
    assert s6.core.waiting == [B, C];
    assert s6 == Contended(MUTEX_RECURSIVE_MAX - 1);
    assert open[1..] == [Attempt(A), Call(B), Attempt(B), Call(C), Attempt(C)];
    assert open[1..][1..] == [Call(B), Attempt(B), Call(C), Attempt(C)];
    assert Play(s5, [Attempt(C)]) == Some(s6);
    assert Play(s4, [Call(C), Attempt(C)]) == Play(s5, [Attempt(C)]);
    assert Play(s3, [Attempt(B), Call(C), Attempt(C)]) == Play(s4, [Call(C), Attempt(C)]);
    assert Play(s2, [Call(B), Attempt(B), Call(C), Attempt(C)]) == Play(s3, [Attempt(B), Call(C), Attempt(C)]);
    assert Play(s1, open[1..]) == Play(s2, open[1..][1..]);
  }

  lemma Closing(close: seq<Event>, last: State)
    requires close == [Unlock(A), GiveUp(B)]
    requires last == State(Core(None, [C]), map[A := Outside, B := Outside, C := Blocked(0)], {})
    ensures Play(Contended(0), close) == Some(last)
  {
    var s1 := Step(Contended(0), Unlock(A));
    assert s1 == State(Core(None, [C]), map[A := Outside, B := Trying(0), C := Blocked(0)], {});
    assert Step(s1, GiveUp(B)) == last;
    assert close[1..] == [GiveUp(B)];
    assert Play(s1, [GiveUp(B)]) == Some(last);
  }
}
