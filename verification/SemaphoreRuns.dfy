/**
  Runs of semaphore calls by any number of threads: the atomic sections of sem_wait and sem_post in any
  order, with other threads taking the value first and signals waking waiters for no reason.
 */
module SemaphoreRuns {
  import opened KernelLists

  const SEM_VALUE_MAX := 32

  /** The value, its bound, and the threads on the wait list. */
  datatype Core = Core(value: nat, bound: nat, waiting: seq<Tid>)

  /** One round of sem_wait by a thread: it takes one off the value, or goes to the wait list when there is none. */
  function Try(c: Core, t: Tid): (r: Core) {
    if c.value == 0 then c.(waiting := c.waiting + [t]) else c.(value := c.value - 1)
  }

  /** The test of sem_post, which is made before its section and may be out of date in it. */
  predicate PostRefused(c: Core) {
    c.value >= SEM_VALUE_MAX
  }

  /** The section of sem_post: the value grows up to its bound, and the first waiter leaves the wait list. */
  function Post(c: Core): (r: Core) {
    Core(if c.value < c.bound then c.value + 1 else c.value, c.bound, if c.waiting == [] then [] else c.waiting[1..])
  }

  /** A thread is outside the call, about to try, or on the wait list. */
  datatype Phase = Outside | Trying | Blocked

  /**
    What the run so far was: the phases, the threads that left the wait list and have not tried again,
    how many posts and waits are complete, and how many posts found the value at its bound.
   */
  datatype State = State(core: Core, phase: map<Tid, Phase>, woken: set<Tid>, posts: nat, waits: nat, idle: nat)

  datatype Event = Call(t: Tid) | Attempt(t: Tid) | Posting | Refusal | Signal(t: Tid)

  predicate Enabled(s: State, e: Event) {
    match e
    case Call(t) => t in s.phase ==> s.phase[t] == Outside
    case Attempt(t) => t in s.phase && s.phase[t] == Trying
    case Posting => true
    case Refusal => true
    case Signal(t) => t in s.phase && s.phase[t] == Blocked
  }

  function Step(s: State, e: Event): (r: State)
    requires Enabled(s, e)
  {
    match e
    case Call(t) => s.(phase := s.phase[t := Trying])
    case Attempt(t) =>
      var taken := s.core.value > 0;
      State(Try(s.core, t), s.phase[t := if taken then Outside else Blocked], s.woken - {t}, s.posts,
            if taken then s.waits + 1 else s.waits, s.idle)
    case Posting =>
      var idle := if s.core.value < s.core.bound then s.idle else s.idle + 1;
      if s.core.waiting == [] then s.(core := Post(s.core), posts := s.posts + 1, idle := idle)
      else
        var w := s.core.waiting[0];
        State(Post(s.core), s.phase[w := Trying], s.woken + {w}, s.posts + 1, s.waits, idle)
    case Refusal => s
    case Signal(t) =>
      s.(core := s.core.(waiting := Drop(s.core.waiting, t)), phase := s.phase[t := Trying], woken := s.woken + {t})
  }

  /** The threads on the wait list are those that are blocked, each once; those that were woken are about to try. */
  ghost predicate Matches(s: State) {
    && Distinct(s.core.waiting)
    && (forall t :: t in s.core.waiting ==> t in s.phase && s.phase[t] == Blocked)
    && (forall t :: t in s.phase && s.phase[t] == Blocked ==> t in s.core.waiting)
    && (forall t :: t in s.woken ==> t in s.phase && s.phase[t] == Trying)
  }

  /** While threads wait, every unit of the value has a woken thread that is about to try for it. */
  predicate NoneLost(s: State) {
    s.core.waiting != [] ==> s.core.value <= |s.woken|
  }

  /** The value is within its bound; every post was taken, is still there, or found the value at its bound. */
  predicate Accounted(s: State) {
    s.core.value <= s.core.bound <= SEM_VALUE_MAX && s.posts == s.waits + s.core.value + s.idle
  }

  ghost predicate Good(s: State) {
    Matches(s) && NoneLost(s) && Accounted(s)
  }

  /** sem_init: the value starts at zero, whatever the argument; the argument is the bound. */
  function Start(bound: nat, threads: set<Tid>): (s: State)
    requires bound <= SEM_VALUE_MAX
  {
    State(Core(0, bound, []), map t | t in threads :: Outside, {}, 0, 0, 0)
  }

  lemma StartGood(bound: nat, threads: set<Tid>)
    requires bound <= SEM_VALUE_MAX
    ensures Good(Start(bound, threads))
  {
  }

  lemma AttemptGood(s: State, t: Tid)
    requires Good(s) && Enabled(s, Attempt(t))
    ensures Good(Step(s, Attempt(t)))
  {
    var s' := Step(s, Attempt(t));
    assert t !in s.core.waiting;
    if t in s.woken {
      assert |s.woken - {t}| == |s.woken| - 1;
    } else {
      assert s.woken - {t} == s.woken;
    }
  }

  lemma PostGood(s: State)
    requires Good(s)
    ensures Good(Step(s, Posting))
  {
    if s.core.waiting != [] {
      var s', w := Step(s, Posting), s.core.waiting[0];
      assert w in s.core.waiting && w !in s.woken;
      assert s'.core.waiting == s.core.waiting[1..];
      assert forall u :: u in s.core.waiting ==> u == w || u in s.core.waiting[1..];
    }
  }

  lemma SignalGood(s: State, t: Tid)
    requires Good(s) && Enabled(s, Signal(t))
    ensures Good(Step(s, Signal(t)))
  {
    var s' := Step(s, Signal(t));
    DropGone(s.core.waiting, t);
    forall u | u != t
      ensures u in s'.core.waiting <==> u in s.core.waiting
    {
      DropOther(s.core.waiting, t, u);
    }
    assert t !in s.woken;
  }

  lemma StepGood(s: State, e: Event)
    requires Good(s) && Enabled(s, e)
    ensures Good(Step(s, e))
  {
    match e {
      case Call(t) =>
      case Attempt(t) => AttemptGood(s, t);
      case Posting => PostGood(s);
      case Refusal =>
      case Signal(t) => SignalGood(s, t);
    }
  }

  ghost predicate IsRun(states: seq<State>, events: seq<Event>) {
    && |states| == |events| + 1
    && forall i :: 0 <= i < |events| ==> Enabled(states[i], events[i]) && states[i + 1] == Step(states[i], events[i])
  }

  /**
    No wake-up is lost in any run, the value stays within its bound, and no post is: those that did not find the value
    at its bound were taken by a wait or are still there.
   */
  lemma {:induction false} RunGood(states: seq<State>, events: seq<Event>, n: nat)
    requires IsRun(states, events) && n <= |events| && Good(states[0])
    ensures Good(states[n]) && states[n].posts == states[n].waits + states[n].core.value + states[n].idle
    decreases n
  {
    if n > 0 {
      RunGood(states, events, n - 1);
      StepGood(states[n - 1], events[n - 1]);
      assert states[n - 1 + 1] == Step(states[n - 1], events[n - 1]);
    }
  }

  /** A waiter with a value left to take is not alone: some woken thread is about to try, and will get it. */
  lemma SomeoneTakes(s: State) returns (t: Tid)
    requires Good(s) && s.core.waiting != [] && s.core.value > 0
    ensures t in s.woken && Enabled(s, Attempt(t)) && Step(s, Attempt(t)).waits == s.waits + 1
  {
    NotEmpty(s.woken);
    t :| t in s.woken;
  }

  lemma NotEmpty(ts: set<Tid>)
    ensures |ts| > 0 ==> exists t :: t in ts
  {
    if !exists t :: t in ts {
      assert ts == {};
    }
  }

  // ----- who gets a post -----

  predicate About(s: State, w: Tid) {
    w in s.phase && s.phase[w] == Trying
  }

  /** As long as nobody tries, no value is taken and a thread that is about to try stays so. */
  lemma {:induction false} NoneTaken(states: seq<State>, events: seq<Event>, w: Tid, n: nat)
    requires IsRun(states, events) && n <= |events| && About(states[0], w) && Good(states[0])
    requires forall i :: 0 <= i < n ==> !events[i].Attempt?
    ensures Good(states[n]) && About(states[n], w) && states[n].waits == states[0].waits
    ensures states[n].core.value >= states[0].core.value
    decreases n
  {
    if n > 0 {
      NoneTaken(states, events, w, n - 1);
      var s, e := states[n - 1], events[n - 1];
      StepGood(s, e);
      assert states[n - 1 + 1] == Step(s, e);
      assert w !in s.core.waiting;
      assert s.core.waiting != [] ==> s.core.waiting[0] in s.core.waiting;
    }
  }

  /**
    A post below the bound with a waiter wakes the first one, and the next attempt, if it is that of this thread and not
    of one that barges in, completes its wait, whatever posts, calls and signals come between.
   */
  lemma PostServes(states: seq<State>, events: seq<Event>, n: nat)
    requires IsRun(states, events) && 0 < n < |events| && Good(states[0]) && events[0] == Posting
    requires states[0].core.value < states[0].core.bound && states[0].core.waiting != []
    requires forall i :: 0 < i < n ==> !events[i].Attempt?
    requires events[n] == Attempt(states[0].core.waiting[0])
    ensures states[1].core.value == states[0].core.value + 1
    ensures states[n + 1].waits == states[0].waits + 1 && states[n + 1].phase[states[0].core.waiting[0]] == Outside
  {
    var w := states[0].core.waiting[0];
    assert w in states[0].core.waiting;
    StepGood(states[0], Posting);
    assert states[0 + 1] == Step(states[0], Posting);
    var later, rest := states[1..], events[1..];
    forall i | 0 <= i < |rest|
      ensures Enabled(later[i], rest[i]) && later[i + 1] == Step(later[i], rest[i])
    {
      assert later[i] == states[i + 1] && later[i + 1] == states[i + 1 + 1];
    }
    NoneTaken(later, rest, w, n - 1);
    assert later[n - 1] == states[n];
    assert states[n + 1] == Step(states[n], events[n]);
  }
}
