/**
  The counter of running connection handlers and the wait for it to reach zero before the
  process ends, interleaved with the listeners whose runners spawn those handlers.
 */
module ShutdownWait {
  import L = Listener
  import Supervisor

  /** A handler task, by its runner and its place among that runner's handlers. */
  type TaskId = (nat, nat)

  datatype Wait =
    | Serving      // no signal yet
    | Waiting
    | Drained      // left at a load of zero
    | Interrupted  // left at a further signal

  /** A task that is neither `running` nor `done` is spawned and has not started. */
  datatype Sys = Sys(sup: Supervisor.Sys, running: set<TaskId>, done: set<TaskId>, counter: int, wait: Wait) {
    /** Nothing runs any more once the wait is over. */
    predicate Gone() { wait == Drained || wait == Interrupted }
  }

  const INITIAL := Sys(Supervisor.INITIAL, {}, {}, 0, Serving)

  datatype Event =
    | Work(event: Supervisor.Event)
    | Begin(id: TaskId)
    | End(id: TaskId)
    | Signal
    | Load
    | Interrupt

  predicate IsTask(s: Supervisor.Sys, id: TaskId) {
    id.0 < |s.runs| && id.1 < |s.runs[id.0].handlers|
  }

  /** A task counts itself only once it runs, and stops counting itself however it ends. */
  function TaskStep(s: Sys, e: Event): Sys
  {
    match e
    case Work(_) => s
    case Begin(id) =>
      if IsTask(s.sup, id) && id !in s.running && id !in s.done
      then s.(running := s.running + {id}, counter := s.counter + 1) else s
    case End(id) =>
      if id in s.running
      then s.(running := s.running - {id}, done := s.done + {id}, counter := s.counter - 1) else s
    case Signal => if s.wait == Serving then s.(wait := Waiting) else s
    case Load => if s.wait == Waiting && s.counter == 0 then s.(wait := Drained) else s
    case Interrupt => if s.wait == Waiting then s.(wait := Interrupted) else s
  }

  function Apply(s: Sys, e: Event): Sys
    requires Supervisor.Wired(s.sup)
  {
    if s.Gone() then s
    else if e.Work? then s.(sup := Supervisor.Apply(s.sup, e.event))
    else TaskStep(s, e)
  }

  /** The counter is the number of running tasks, and every started task is a handler of some runner. */
  ghost predicate Counted(s: Sys) {
    && s.counter == |s.running| && s.running !! s.done && (s.wait == Drained ==> s.running == {})
    && (forall id :: id in s.running || id in s.done ==> IsTask(s.sup, id))
  }

  ghost predicate Inv(s: Sys) {
    Supervisor.Inv(s.sup) && Counted(s)
  }

  lemma InitialIsSound()
    ensures Inv(INITIAL)
  {
    assert Supervisor.Inv(Supervisor.INITIAL);
  }

  lemma TasksStay(s: Supervisor.Sys, e: Supervisor.Event, id: TaskId)
    requires Supervisor.Wired(s) && IsTask(s, id)
    ensures IsTask(Supervisor.Apply(s, e), id)
  {
    Supervisor.StepOfRunner(s, e, id.0);
  }

  lemma TaskStepIsCounted(s: Sys, e: Event)
    requires Counted(s) && !s.Gone()
    ensures Counted(TaskStep(s, e)) && TaskStep(s, e).sup == s.sup
  {
  }

  lemma WorkIsCounted(s: Sys, e: Supervisor.Event)
    requires Counted(s) && Supervisor.Wired(s.sup)
    ensures Counted(s.(sup := Supervisor.Apply(s.sup, e)))
  {
    forall id | id in s.running || id in s.done ensures IsTask(Supervisor.Apply(s.sup, e), id) {
      TasksStay(s.sup, e, id);
    }
  }

  lemma EventKeepsInv(s: Sys, e: Event)
    requires Inv(s)
    ensures Inv(Apply(s, e))
  {
    if e.Work? {
      Supervisor.EventKeepsInv(s.sup, e.event);
      WorkIsCounted(s, e.event);
    } else if !s.Gone() {
      TaskStepIsCounted(s, e);
    }
  }

  function ApplyAll(s: Sys, events: seq<Event>): (s': Sys)
    requires Inv(s)
    ensures Inv(s')
    decreases |events|
  {
    if events == [] then s
    else
      EventKeepsInv(s, events[0]);
      ApplyAll(Apply(s, events[0]), events[1..])
  }

  /** In every run the counter is the number of tasks that have begun and not ended, so it never goes below zero. */
  lemma CounterIsExact(events: seq<Event>)
    ensures var s := ApplyAll(INITIAL, events);
            s.counter == |s.running| && s.counter >= 0 && s.running !! s.done
  {
    InitialIsSound();
    assert Counted(ApplyAll(INITIAL, events));
  }

  /** Tasks that begin and tasks that end in a run, by what they find when they do. */
  function Begun(s: Sys, events: seq<Event>): nat
    requires Inv(s)
    decreases |events|
  {
    if events == [] then 0
    else
      EventKeepsInv(s, events[0]);
      (if events[0].Begin? && MayBegin(s, events[0].id) then 1 else 0) + Begun(Apply(s, events[0]), events[1..])
  }

  function Ended(s: Sys, events: seq<Event>): nat
    requires Inv(s)
    decreases |events|
  {
    if events == [] then 0
    else
      EventKeepsInv(s, events[0]);
      (if events[0].End? && MayEnd(s, events[0].id) then 1 else 0) + Ended(Apply(s, events[0]), events[1..])
  }

  predicate MayBegin(s: Sys, id: TaskId) {
    !s.Gone() && IsTask(s.sup, id) && id !in s.running && id !in s.done
  }

  predicate MayEnd(s: Sys, id: TaskId) {
    !s.Gone() && id in s.running
  }

  lemma EventCounts(s: Sys, e: Event)
    requires Inv(s)
    ensures Apply(s, e).counter == s.counter + (if e.Begin? && MayBegin(s, e.id) then 1 else 0)
                                             - (if e.End? && MayEnd(s, e.id) then 1 else 0)
  {
  }

  /** In every run the counter is what began less what ended. */
  lemma {:induction false} CounterIsBegunLessEnded(s: Sys, events: seq<Event>)
    requires Inv(s)
    ensures ApplyAll(s, events).counter == s.counter + Begun(s, events) - Ended(s, events)
    decreases |events|
  {
    if events != [] {
      EventKeepsInv(s, events[0]);
      EventCounts(s, events[0]);
      CounterIsBegunLessEnded(Apply(s, events[0]), events[1..]);
    }
  }

  lemma EventLeavesTask(s: Sys, e: Event, id: TaskId)
    requires Supervisor.Wired(s.sup) && (id in s.running || id in s.done)
    ensures var s' := Apply(s, e);
            && (id in s.done ==> id in s'.done) && (id in s'.running || id in s'.done)
            && (e != End(id) && id in s.running ==> id in s'.running)
  {
  }

  /** A task that has begun runs, in every run, until it ends, and is done from then on. */
  lemma {:induction false} RunsUntilItEnds(s: Sys, events: seq<Event>, id: TaskId)
    requires Inv(s) && (id in s.running || id in s.done)
    ensures var s' := ApplyAll(s, events);
            && (id in s.done ==> id in s'.done) && (id in s'.running || id in s'.done)
            && (End(id) !in events && id in s.running ==> id in s'.running)
    decreases |events|
  {
    if events != [] {
      EventKeepsInv(s, events[0]);
      EventLeavesTask(s, events[0], id);
      assert End(id) !in events ==> events[0] != End(id) && End(id) !in events[1..];
      RunsUntilItEnds(Apply(s, events[0]), events[1..], id);
    }
  }

  lemma BeginsAndEnds(s: Sys, id: TaskId)
    requires Inv(s)
    ensures MayBegin(s, id) ==> id in Apply(s, Begin(id)).running
    ensures MayEnd(s, id) ==> id in Apply(s, End(id)).done
  {
    if !s.Gone() {
      assert Apply(s, Begin(id)) == TaskStep(s, Begin(id)) && Apply(s, End(id)) == TaskStep(s, End(id));
    }
  }

  /** The wait begins with a signal, and ends with a load of zero or a further signal. */
  lemma WaitByEvents(s: Sys, e: Event)
    requires Inv(s)
    ensures Apply(s, e).wait ==
            if s.wait == Serving && e == Signal then Waiting
            else if s.wait == Waiting && e == Load && s.running == {} then Drained
            else if s.wait == Waiting && e == Interrupt then Interrupted
            else s.wait
  {
    if !s.Gone() && !e.Work? {
      TaskStepWaits(s, e);
      assert Apply(s, e) == TaskStep(s, e);
    }
  }

  lemma TaskStepWaits(s: Sys, e: Event)
    requires Counted(s) && !s.Gone() && !e.Work?
    ensures TaskStep(s, e).wait ==
            if s.wait == Serving && e == Signal then Waiting
            else if s.wait == Waiting && e == Load && s.running == {} then Drained
            else if s.wait == Waiting && e == Interrupt then Interrupted
            else s.wait
  {
  }

  lemma LoadLeavesIff(s: Sys)
    requires Counted(s) && s.wait == Waiting
    ensures TaskStep(s, Load).wait == Drained <==> s.running == {}
  {
  }

  /** After any run, the wait ends at a load of the counter exactly when no task is running. */
  lemma LeavesIffNoneRunning(events: seq<Event>)
    ensures Inv(INITIAL)
    ensures var s := ApplyAll(INITIAL, events);
            s.wait == Waiting ==> (Apply(s, Load).wait == Drained <==> s.running == {})
  {
    InitialIsSound();
    var s := ApplyAll(INITIAL, events);
    if s.wait == Waiting {
      LoadLeavesIff(s);
      assert Apply(s, Load) == TaskStep(s, Load);
    }
  }

  // ---------------------------------------------------------------- what the wait leaves behind

  /** No task is spawned and not started. */
  ghost predicate AllStarted(s: Sys) {
    forall id :: IsTask(s.sup, id) ==> id in s.running || id in s.done
  }

  ghost predicate QueuesEmpty(s: Supervisor.Sys) {
    forall i :: 0 <= i < |s.runs| ==> s.runs[i].queue == []
  }

  /** Every connection that ever arrived at a listener was handed to a task, and that task is done. */
  ghost predicate AllServed(s: Sys) {
    && (forall i :: 0 <= i < |s.sup.runs| ==> L.Conns(s.sup.runs[i].handlers) == s.sup.runs[i].arrived)
    && (forall id :: IsTask(s.sup, id) ==> id in s.done)
  }

  lemma HandedOverIff(s: Supervisor.Sys, i: nat)
    requires Supervisor.Inv(s) && i < |s.runs|
    ensures L.Conns(s.runs[i].handlers) == s.runs[i].arrived <==> s.runs[i].queue == []
  {
    var r := s.runs[i];
    assert L.RunnerInv(s.book.chans[i], r);
    assert |r.arrived| == |L.Conns(r.handlers)| + |r.queue|;
    if r.queue == [] {
      assert L.Conns(r.handlers) + [] == L.Conns(r.handlers);
    }
  }

  /**
    For every run that leaves at a load: no task is cut off in the middle, and every
    connection that arrived has been served to the end exactly when no task is still to
    start and no accept queue holds a connection.
   */
  lemma LeavesNothingBehindIff(events: seq<Event>)
    ensures Inv(INITIAL)
    ensures var s := ApplyAll(INITIAL, events);
            s.wait == Drained ==>
              && s.running == {}
              && (AllServed(s) <==> AllStarted(s) && QueuesEmpty(s.sup))
  {
    InitialIsSound();
    var s := ApplyAll(INITIAL, events);
    forall i | 0 <= i < |s.sup.runs|
      ensures L.Conns(s.sup.runs[i].handlers) == s.sup.runs[i].arrived <==> s.sup.runs[i].queue == []
    {
      HandedOverIff(s.sup, i);
    }
  }

  /** Every runner has stopped, and none because an accept failed. */
  ghost predicate AllWoundUp(s: Supervisor.Sys) {
    forall i :: 0 <= i < |s.runs| ==> s.runs[i].phase.Stopped? && s.runs[i].phase.exit != L.AcceptFailed
  }

  /** If the runners had wound up by the time of that load, only tasks still to start matter. */
  lemma WoundUpLeavesNothingBehindIff(events: seq<Event>)
    ensures Inv(INITIAL)
    ensures var s := ApplyAll(INITIAL, events);
            s.wait == Drained && AllWoundUp(s.sup) ==> (AllServed(s) <==> AllStarted(s))
  {
    LeavesNothingBehindIff(events);
    var s := ApplyAll(INITIAL, events);
    if AllWoundUp(s.sup) {
      forall i | 0 <= i < |s.sup.runs| ensures s.sup.runs[i].queue == [] {
        assert L.RunnerInv(s.sup.book.chans[i], s.sup.runs[i]);
      }
    }
  }

  // ---------------------------------------------------------------- two runs that lose a connection

  /** A listener on address `a` comes up. */
  function ListenerUp(a: L.Addr, rule: L.Rule, rest: seq<Event>): seq<Event>
  {
    [Work(Supervisor.Receive(map[a := rule]))] + ([Work(Supervisor.StartInstalling)] +
    ([Work(Supervisor.Install(a))] + ([Work(Supervisor.Finish)] + rest)))
  }

  function OnFirst(e: L.Event, rest: seq<Event>): seq<Event>
  {
    [Work(Supervisor.OnRunner(0, e))] + rest
  }

  /** It binds and connection `c` reaches it. */
  function ArrivalAt(a: L.Addr, rule: L.Rule, c: L.Conn, rest: seq<Event>): seq<Event>
  {
    ListenerUp(a, rule, OnFirst(L.Step(L.Bind(true)), OnFirst(L.Arrival(c), rest)))
  }

  /** The runner accepts it. */
  function AcceptedAt(a: L.Addr, rule: L.Rule, c: L.Conn, rest: seq<Event>): seq<Event>
  {
    ArrivalAt(a, rule, c, OnFirst(L.Step(L.PollChanged), OnFirst(L.Step(L.Accept(false)), rest)))
  }

  /** The process is told to stop and looks at the counter. */
  function Leave(rest: seq<Event>): seq<Event>
  {
    [Signal] + ([Load] + rest)
  }

  /** One listener, with its runner in a given state. */
  function OneListener(a: L.Addr, rule: L.Rule, r: L.Runner): Sys
  {
    INITIAL.(sup := Supervisor.Sys(Supervisor.Book(map[a := 0], [L.Channel(a, [rule], true)], 0), [r],
                                   Supervisor.Idle, map[a := rule]))
  }

  function Queued(c: L.Conn): L.Runner
  {
    L.Runner(L.Selecting, 0, 0, [c], [c], [])
  }

  function Accepted(c: L.Conn): L.Runner
  {
    L.Runner(L.Selecting, 0, 0, [], [c], [L.Handler(c, 0, false)])
  }

  lemma FirstStep(s: Sys, e: Event, s': Sys, rest: seq<Event>)
    requires Inv(s) && Apply(s, e) == s'
    ensures Inv(s') && ApplyAll(s, [e] + rest) == ApplyAll(s', rest)
  {
    EventKeepsInv(s, e);
    assert ([e] + rest)[0] == e && ([e] + rest)[1..] == rest;
  }

  /** The first three steps of a supervisor that gets an update with one address. */
  lemma OneListenerComesUp(a: L.Addr, rule: L.Rule)
    ensures var update := map[a := rule];
            var s0 := Supervisor.INITIAL;
            var s1 := s0.(phase := Supervisor.Retaining(update, map[], 0));
            var s2 := s0.(phase := Supervisor.Installing(update, map[], 0, {a}, {}));
            && Supervisor.Wired(s0) && Supervisor.Apply(s0, Supervisor.Receive(update)) == s1
            && Supervisor.Wired(s1) && Supervisor.Apply(s1, Supervisor.StartInstalling) == s2
  {
    assert map[a := rule].Keys == {a};
  }

  lemma OneListenerIsInstalled(a: L.Addr, rule: L.Rule)
    ensures var update := map[a := rule];
            var s2 := Supervisor.INITIAL.(phase := Supervisor.Installing(update, map[], 0, {a}, {}));
            var s4 := OneListener(a, rule, L.NEW_RUNNER).sup;
            var s3 := s4.(phase := Supervisor.Installing(update, map[], 0, {}, {a}), applied := map[]);
            && Supervisor.Wired(s2) && Supervisor.Apply(s2, Supervisor.Install(a)) == s3
            && Supervisor.Wired(s3) && Supervisor.Apply(s3, Supervisor.Finish) == s4
  {
    assert {a} - {a} == {};
  }

  /** A step of the supervisor seen from the whole. */
  lemma WorkStep(s: Sys, e: Supervisor.Event, next: Supervisor.Sys, rest: seq<Event>)
    requires Inv(s) && !s.Gone() && Supervisor.Apply(s.sup, e) == next
    ensures Inv(s.(sup := next)) && ApplyAll(s, [Work(e)] + rest) == ApplyAll(s.(sup := next), rest)
  {
    FirstStep(s, Work(e), s.(sup := next), rest);
  }

  lemma RunnerStep(s: Sys, e: L.Event, r: L.Runner, rest: seq<Event>)
    requires Inv(s) && !s.Gone() && |s.sup.runs| == 1
    requires L.Happen(s.sup.book.chans[0], s.sup.runs[0], e) == r
    ensures var s' := s.(sup := s.sup.(runs := [r]));
            Inv(s') && ApplyAll(s, [Work(Supervisor.OnRunner(0, e))] + rest) == ApplyAll(s', rest)
  {
    assert s.sup.runs[0 := r] == [r];
    WorkStep(s, Supervisor.OnRunner(0, e), s.sup.(runs := [r]), rest);
  }

  lemma ListenerRun(a: L.Addr, rule: L.Rule, rest: seq<Event>)
    ensures Inv(INITIAL) && Inv(OneListener(a, rule, L.NEW_RUNNER))
    ensures ApplyAll(INITIAL, ListenerUp(a, rule, rest)) == ApplyAll(OneListener(a, rule, L.NEW_RUNNER), rest)
  {
    InitialIsSound();
    var update := map[a := rule];
    var s1 := Supervisor.INITIAL.(phase := Supervisor.Retaining(update, map[], 0));
    var s2 := Supervisor.INITIAL.(phase := Supervisor.Installing(update, map[], 0, {a}, {}));
    var s4 := OneListener(a, rule, L.NEW_RUNNER).sup;
    var s3 := s4.(phase := Supervisor.Installing(update, map[], 0, {}, {a}), applied := map[]);
    var finish := [Work(Supervisor.Finish)] + rest;
    var install := [Work(Supervisor.Install(a))] + finish;
    var start := [Work(Supervisor.StartInstalling)] + install;
    OneListenerComesUp(a, rule);
    OneListenerIsInstalled(a, rule);
    WorkStep(INITIAL, Supervisor.Receive(update), s1, start);
    WorkStep(INITIAL.(sup := s1), Supervisor.StartInstalling, s2, install);
    WorkStep(INITIAL.(sup := s2), Supervisor.Install(a), s3, finish);
    WorkStep(INITIAL.(sup := s3), Supervisor.Finish, s4, rest);
  }

  lemma ArrivalRun(a: L.Addr, rule: L.Rule, c: L.Conn, rest: seq<Event>)
    ensures Inv(INITIAL) && Inv(OneListener(a, rule, Queued(c)))
    ensures ApplyAll(INITIAL, ArrivalAt(a, rule, c, rest)) == ApplyAll(OneListener(a, rule, Queued(c)), rest)
  {
    var arrival := OnFirst(L.Arrival(c), rest);
    var bound := L.Runner(L.Selecting, 0, 0, [], [], []);
    ListenerRun(a, rule, OnFirst(L.Step(L.Bind(true)), arrival));
    RunnerStep(OneListener(a, rule, L.NEW_RUNNER), L.Step(L.Bind(true)), bound, arrival);
    RunnerStep(OneListener(a, rule, bound), L.Arrival(c), Queued(c), rest);
  }

  lemma TaskFirstStep(s: Sys, e: Event, s': Sys, rest: seq<Event>)
    requires Inv(s) && !s.Gone() && !e.Work? && TaskStep(s, e) == s'
    ensures Inv(s') && ApplyAll(s, [e] + rest) == ApplyAll(s', rest)
  {
    FirstStep(s, e, s', rest);
  }

  lemma {:induction false} GoneForever(s: Sys, events: seq<Event>)
    requires Inv(s) && s.Gone()
    ensures ApplyAll(s, events) == s
    decreases |events|
  {
    if events != [] {
      GoneForever(s, events[1..]);
    }
  }

  lemma LoadAndStop(s: Sys, rest: seq<Event>)
    requires Inv(s) && s.wait == Waiting && s.counter == 0
    ensures ApplyAll(s, [Load] + rest) == s.(wait := Drained)
  {
    TaskFirstStep(s, Load, s.(wait := Drained), rest);
    GoneForever(s.(wait := Drained), rest);
  }

  lemma SignalAndLoad(s: Sys, rest: seq<Event>)
    requires Inv(s) && s.wait == Serving && s.counter == 0
    ensures ApplyAll(s, Leave(rest)) == s.(wait := Drained)
  {
    TaskFirstStep(s, Signal, s.(wait := Waiting), [Load] + rest);
    LoadAndStop(s.(wait := Waiting), rest);
  }

  lemma AcceptSteps(c: L.Channel, conn: L.Conn)
    requires |c.sent| == 1 && c.open
    ensures var accepting := L.Runner(L.Accepting, 0, 0, [conn], [conn], []);
            && L.Happen(c, Queued(conn), L.Step(L.PollChanged)) == accepting
            && L.Happen(c, accepting, L.Step(L.Accept(false))) == Accepted(conn)
  {
  }

  lemma AcceptRun(a: L.Addr, rule: L.Rule, c: L.Conn, rest: seq<Event>)
    ensures Inv(INITIAL) && Inv(OneListener(a, rule, Accepted(c)))
    ensures ApplyAll(INITIAL, AcceptedAt(a, rule, c, rest)) == ApplyAll(OneListener(a, rule, Accepted(c)), rest)
  {
    var accept := OnFirst(L.Step(L.Accept(false)), rest);
    var accepting := L.Runner(L.Accepting, 0, 0, [c], [c], []);
    ArrivalRun(a, rule, c, OnFirst(L.Step(L.PollChanged), accept));
    AcceptSteps(L.Channel(a, [rule], true), c);
    RunnerStep(OneListener(a, rule, Queued(c)), L.Step(L.PollChanged), accepting, accept);
    RunnerStep(OneListener(a, rule, accepting), L.Step(L.Accept(false)), Accepted(c), rest);
  }

  /** The process leaves while a connection waits in an accept queue that was meant to be drained. */
  lemma QueuedConnectionIsNotWaitedFor(a: L.Addr, rule: L.Rule, c: L.Conn, rest: seq<Event>)
    ensures Inv(INITIAL)
    ensures var s := ApplyAll(INITIAL, ArrivalAt(a, rule, c, Leave(rest)));
            && s == OneListener(a, rule, Queued(c)).(wait := Drained)
            && AllStarted(s) && !QueuesEmpty(s.sup) && !AllServed(s)
  {
    ArrivalRun(a, rule, c, Leave(rest));
    SignalAndLoad(OneListener(a, rule, Queued(c)), rest);
    var s := OneListener(a, rule, Queued(c)).(wait := Drained);
    assert s.sup.runs[0].queue != [];
    LeavesNothingBehindIff(ArrivalAt(a, rule, c, Leave(rest)));
  }

  lemma UnstartedMeansUnserved(s: Sys, id: TaskId)
    requires IsTask(s.sup, id) && id !in s.running && id !in s.done
    ensures !AllStarted(s) && !AllServed(s)
  {
  }

  /** Nor does it wait for a task that is spawned and has not started. */
  lemma UnstartedTaskIsNotWaitedFor(a: L.Addr, rule: L.Rule, c: L.Conn, rest: seq<Event>)
    ensures Inv(INITIAL)
    ensures var s := ApplyAll(INITIAL, AcceptedAt(a, rule, c, Leave(rest)));
            && s == OneListener(a, rule, Accepted(c)).(wait := Drained)
            && QueuesEmpty(s.sup) && !AllStarted(s) && !AllServed(s)
  {
    AcceptRun(a, rule, c, Leave(rest));
    SignalAndLoad(OneListener(a, rule, Accepted(c)), rest);
    UnstartedMeansUnserved(OneListener(a, rule, Accepted(c)).(wait := Drained), (0, 0));
  }
}
