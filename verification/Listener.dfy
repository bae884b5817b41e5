/**
  One listener: a watch channel carrying successive rules, and the runner that accepts
  connections under the rule it has adopted. The channel reports an unseen rule before
  it reports that its sender is gone, and an accept that is not ready means that the
  accept queue is empty.
 */
module Listener {
  type Addr = nat
  type Rule = nat
  type Conn = nat

  datatype Exit = BindFailed | QueueEmpty | AcceptFailed

  datatype Phase =
    | Starting
    | Selecting                // about to poll for a rule change
    | Adopting                 // a change was reported, the rule is not read yet
    | Accepting                // no change was pending
    | Draining                 // the sender is gone
    | Stopped(exit: Exit)

  /** A handler task: its connection, the rule version it serves, and whether it was accepted after the sender went. */
  datatype Handler = Handler(conn: Conn, version: nat, draining: bool)

  /** `sent` is every rule ever sent, so version `v` is `sent[v]`; `open` says whether the sender still exists. */
  datatype Channel = Channel(addr: Addr, sent: seq<Rule>, open: bool) {
    function Latest(): int { |sent| - 1 }
  }

  /** `arrived` records every connection that reached the socket. */
  datatype Runner = Runner(phase: Phase, seen: nat, version: nat, queue: seq<Conn>, arrived: seq<Conn>,
                           handlers: seq<Handler>)
  {
    predicate Listening() { phase != Starting && !phase.Stopped? }
  }

  function NewChannel(addr: Addr, rule: Rule): Channel
  {
    Channel(addr, [rule], true)
  }

  const NEW_RUNNER := Runner(Starting, 0, 0, [], [], [])

  datatype RunnerStep = Bind(ok: bool) | PollChanged | Adopt | Accept(fails: bool)

  function SpawnHandler(r: Runner, draining: bool): Runner
    requires r.queue != []
  {
    r.(queue := r.queue[1..], phase := Selecting,
       handlers := r.handlers + [Handler(r.queue[0], r.version, draining)])
  }

  /** One step of the runner; a step that does not fit its phase leaves it alone. */
  function Run(c: Channel, r: Runner, step: RunnerStep): Runner
    requires c.sent != []
  {
    match (r.phase, step)
    case (Starting, Bind(ok)) =>
      if ok then r.(phase := Selecting, seen := c.Latest(), version := c.Latest()) else r.(phase := Stopped(BindFailed))
    case (Selecting, PollChanged) =>
      if r.seen != c.Latest() then r.(phase := Adopting, seen := c.Latest())
      else if !c.open then r.(phase := Draining)
      else r.(phase := Accepting)
    case (Adopting, Adopt) => r.(phase := Selecting, seen := c.Latest(), version := c.Latest())
    case (Accepting, Accept(fails)) =>
      if fails || r.queue == [] then r.(phase := Selecting) else SpawnHandler(r, false)
    case (Draining, Accept(fails)) =>
      if fails then r.(phase := Stopped(AcceptFailed))
      else if r.queue == [] then r.(phase := Stopped(QueueEmpty))
      else SpawnHandler(r, true)
    case _ => r
  }

  function Send(c: Channel, rule: Rule): Channel
  {
    c.(sent := c.sent + [rule])
  }

  function DropSender(c: Channel): Channel
  {
    c.(open := false)
  }

  function Arrive(r: Runner, conn: Conn): Runner
  {
    if r.Listening() then r.(queue := r.queue + [conn], arrived := r.arrived + [conn]) else r
  }

  // ---------------------------------------------------------------- invariant

  function Conns(handlers: seq<Handler>): seq<Conn>
  {
    seq(|handlers|, i requires 0 <= i < |handlers| => handlers[i].conn)
  }

  /** Versions never decrease from one connection to the next. */
  predicate Ordered(handlers: seq<Handler>) {
    forall i, j :: 0 <= i < j < |handlers| ==> handlers[i].version <= handlers[j].version
  }

  /** A handler serves a rule its runner had adopted, and while draining the last rule ever sent. */
  predicate Fresh(c: Channel, r: Runner, h: Handler) {
    && h.version <= r.version
    && (h.draining ==> !c.open && h.version == c.Latest())
  }

  predicate PhaseInv(c: Channel, r: Runner) {
    match r.phase
    case Starting => r.handlers == [] && r.arrived == []
    case Selecting => r.version == r.seen
    case Adopting => true
    case Accepting => r.version == r.seen
    case Draining => !c.open && r.version == r.seen == c.Latest()
    case Stopped(exit) =>
      && (exit == QueueEmpty ==> r.queue == [])
      && (exit == BindFailed ==> r.arrived == [])
      && (exit != BindFailed ==> !c.open)
  }

  /** Every connection that arrived was handed to a handler, in order, or is still queued. */
  predicate Conserved(r: Runner) {
    r.arrived == Conns(r.handlers) + r.queue
  }

  predicate RunnerInv(c: Channel, r: Runner) {
    && c.sent != [] && r.version <= r.seen <= c.Latest()
    && PhaseInv(c, r) && Conserved(r) && Ordered(r.handlers)
    && (forall h :: h in r.handlers ==> Fresh(c, r, h))
  }

  lemma NewIsSound(addr: Addr, rule: Rule)
    ensures RunnerInv(NewChannel(addr, rule), NEW_RUNNER)
  {
    assert Conns([]) + [] == [];
  }

  lemma SpawnKeepsInv(c: Channel, r: Runner, draining: bool)
    requires RunnerInv(c, r) && r.queue != [] && r.version == r.seen
    requires draining ==> !c.open && r.version == c.Latest()
    ensures RunnerInv(c, SpawnHandler(r, draining))
  {
    var r' := SpawnHandler(r, draining);
    var h := Handler(r.queue[0], r.version, draining);
    assert Conns(r'.handlers) == Conns(r.handlers) + [r.queue[0]];
    assert Conns(r'.handlers) + r'.queue == Conns(r.handlers) + r.queue;
    forall i, j | 0 <= i < j < |r'.handlers|
      ensures r'.handlers[i].version <= r'.handlers[j].version
    {
      assert r'.handlers[i] in r.handlers;
    }
    forall x | x in r'.handlers ensures Fresh(c, r', x) {
      assert x in r.handlers || x == h;
    }
  }

  /** Every step of a runner keeps conservation, ordering and the rules in force. */
  lemma RunKeepsInv(c: Channel, r: Runner, step: RunnerStep)
    requires RunnerInv(c, r)
    ensures RunnerInv(c, Run(c, r, step))
  {
    match (r.phase, step)
    case (Accepting, Accept(fails)) =>
      if !fails && r.queue != [] {
        SpawnKeepsInv(c, r, false);
      }
    case (Draining, Accept(fails)) =>
      if !fails && r.queue != [] {
        SpawnKeepsInv(c, r, true);
      }
    case _ =>
  }

  /** Rules are only sent while the sender exists; then no drained connection exists yet. */
  lemma SendKeepsInv(c: Channel, r: Runner, rule: Rule)
    requires RunnerInv(c, r) && c.open
    ensures RunnerInv(Send(c, rule), r)
  {
    forall h | h in r.handlers ensures Fresh(Send(c, rule), r, h) {
      assert Fresh(c, r, h);
    }
  }

  lemma DropKeepsInv(c: Channel, r: Runner)
    requires RunnerInv(c, r)
    ensures RunnerInv(DropSender(c), r)
  {
    forall h | h in r.handlers ensures Fresh(DropSender(c), r, h) {
      assert Fresh(c, r, h);
    }
  }

  lemma ArriveKeepsInv(c: Channel, r: Runner, conn: Conn)
    requires RunnerInv(c, r)
    ensures RunnerInv(c, Arrive(r, conn))
  {
    if r.Listening() {
      assert Conns(r.handlers) + (r.queue + [conn]) == (Conns(r.handlers) + r.queue) + [conn];
      forall h | h in r.handlers ensures Fresh(c, Arrive(r, conn), h) {
        assert Fresh(c, r, h);
      }
    }
  }

  // ---------------------------------------------------------------- rules in force

  /** Binding and adopting take up the latest rule; a failed bind is the end. */
  lemma TakesUpLatest(c: Channel, r: Runner, ok: bool)
    requires RunnerInv(c, r)
    ensures r.phase == Starting ==>
              var r' := Run(c, r, Bind(ok));
              if ok then r'.phase == Selecting && r'.version == c.Latest() else r'.phase == Stopped(BindFailed)
    ensures r.phase == Adopting ==>
              Run(c, r, Adopt).phase == Selecting && Run(c, r, Adopt).version == c.Latest()
  {
  }

  /** With nothing unseen, polling and accepting hands the next connection to a handler under the latest rule. */
  lemma AcceptsNext(c: Channel, r: Runner)
    requires RunnerInv(c, r) && r.phase == Selecting && r.seen == c.Latest() && r.queue != []
    ensures var r' := Run(c, Run(c, r, PollChanged), Accept(false));
            && r'.phase == Selecting && r'.queue == r.queue[1..]
            && r'.handlers == r.handlers + [Handler(r.queue[0], c.Latest(), !c.open)]
  {
  }

  /** A runner about to accept serves version `least` or a later one. */
  predicate ServesSince(r: Runner, least: nat) {
    r.phase == Accepting || r.phase == Draining ==> r.version >= least
  }

  /** Right after a poll for changes that is so of the latest version. */
  lemma ServesSincePoll(c: Channel, r: Runner)
    requires RunnerInv(c, r) && r.phase == Selecting
    ensures ServesSince(Run(c, r, PollChanged), c.Latest())
  {
  }

  /** And until the next poll it stays so. */
  lemma StillServes(c: Channel, r: Runner, e: Event, least: nat)
    requires c.sent != [] && ServesSince(r, least) && !(e == Step(PollChanged) && r.phase == Selecting)
    ensures ServesSince(Happen(c, r, e), least)
  {
  }

  lemma AcceptedVersion(c: Channel, r: Runner, fails: bool, least: nat)
    requires c.sent != [] && ServesSince(r, least)
    ensures var handlers := Run(c, r, Accept(fails)).handlers;
            && |r.handlers| <= |handlers| <= |r.handlers| + 1
            && (|handlers| > |r.handlers| ==> handlers[|r.handlers|].version >= least)
  {
  }

  /** Once stopped, for good. */
  lemma StoppedStays(c: Channel, r: Runner, e: Event)
    requires c.sent != [] && r.phase.Stopped?
    ensures Happen(c, r, e) == r
  {
  }

  // ---------------------------------------------------------------- shutting down

  datatype Event = Step(step: RunnerStep) | Arrival(conn: Conn)

  function Happen(c: Channel, r: Runner, e: Event): Runner
    requires c.sent != []
  {
    match e
    case Step(step) => Run(c, r, step)
    case Arrival(conn) => Arrive(r, conn)
  }

  lemma HappenKeepsInv(c: Channel, r: Runner, e: Event)
    requires RunnerInv(c, r)
    ensures RunnerInv(c, Happen(c, r, e))
  {
    match e
    case Step(step) => RunKeepsInv(c, r, step);
    case Arrival(conn) => ArriveKeepsInv(c, r, conn);
  }

  function HappenAll(c: Channel, r: Runner, events: seq<Event>): Runner
    requires c.sent != []
    decreases |events|
  {
    if events == [] then r else HappenAll(c, Happen(c, r, events[0]), events[1..])
  }

  /** Runner steps left after the sender is gone, if nothing more arrives. */
  function StepsLeft(c: Channel, r: Runner): nat
  {
    match r.phase
    case Stopped(_) => 0
    case Draining => 2 * |r.queue| + 1
    case Selecting => 2 * |r.queue| + (if r.seen == c.Latest() then 2 else 4)
    case Adopting => 2 * |r.queue| + 3
    case Starting => 2 * |r.queue| + 5
    case Accepting => 2 * |r.queue| + 5
  }

  /** The runner steps among `events` that do something. */
  function Effective(c: Channel, r: Runner, events: seq<Event>): nat
    requires c.sent != []
    decreases |events|
  {
    if events == [] then 0
    else
      (if events[0].Step? && Happen(c, r, events[0]) != r then 1 else 0)
      + Effective(c, Happen(c, r, events[0]), events[1..])
  }

  function Arrivals(events: seq<Event>): nat
  {
    if events == [] then 0 else (if events[0].Arrival? then 1 else 0) + Arrivals(events[1..])
  }

  lemma EveryStepCounts(c: Channel, r: Runner, step: RunnerStep)
    requires RunnerInv(c, r) && !c.open
    ensures Run(c, r, step) == r || StepsLeft(c, Run(c, r, step)) < StepsLeft(c, r)
  {
  }

  /**
    Once its sender is gone a runner takes at most `StepsLeft` more steps, and two more
    for each connection that still arrives, whatever the interleaving.
   */
  lemma {:induction false} ShutdownTerminates(c: Channel, r: Runner, events: seq<Event>)
    requires RunnerInv(c, r) && !c.open
    ensures RunnerInv(c, HappenAll(c, r, events))
    ensures Effective(c, r, events) + StepsLeft(c, HappenAll(c, r, events)) <= StepsLeft(c, r) + 2 * Arrivals(events)
    decreases |events|
  {
    if events != [] {
      HappenKeepsInv(c, r, events[0]);
      if events[0].Step? {
        EveryStepCounts(c, r, events[0].step);
      }
      ShutdownTerminates(c, Happen(c, r, events[0]), events[1..]);
    }
  }

  /**
    `added` are the handlers a runner spawned since its sender was dropped. All of them were
    spawned in draining, except that one accept may have been under way at that moment.
   */
  predicate OnlyDrains(wasAccepting: bool, added: seq<Handler>) {
    forall k :: 0 <= k < |added| && !added[k].draining ==> k == 0 && wasAccepting
  }

  /** Once its sender is gone, a runner only drains. */
  lemma {:induction false} ClosedOnlyDrains(c: Channel, r: Runner, events: seq<Event>)
    requires c.sent != [] && !c.open
    ensures var r' := HappenAll(c, r, events);
            && r.handlers <= r'.handlers
            && OnlyDrains(r.phase.Accepting?, r'.handlers[|r.handlers|..])
    decreases |events|
  {
    if events != [] {
      var r1 := Happen(c, r, events[0]);
      var r' := HappenAll(c, r, events);
      ClosedOnlyDrains(c, r1, events[1..]);
      assert r.handlers <= r1.handlers && |r1.handlers| <= |r.handlers| + 1;
      var added, later := r'.handlers[|r.handlers|..], r'.handlers[|r1.handlers|..];
      forall k | 0 <= k < |added| && !added[k].draining ensures k == 0 && r.phase.Accepting? {
        var n := |r1.handlers| - |r.handlers|;
        assert k >= n ==> added[k] == later[k - n];
        assert k < n ==> added[k] == r1.handlers[|r.handlers|];
      }
    }
  }

  /**
    A runner whose sender is gone and that can take no step has stopped; unless an accept
    failed, every connection that ever arrived has its handler.
   */
  lemma OnlyStoppedIsStuck(c: Channel, r: Runner)
    requires RunnerInv(c, r) && !c.open
    requires forall step :: Run(c, r, step) == r
    ensures r.phase.Stopped?
    ensures r.phase.exit != AcceptFailed ==> r.arrived == Conns(r.handlers)
  {
    assert Run(c, r, Bind(true)) == r && Run(c, r, PollChanged) == r;
    assert Run(c, r, Adopt) == r && Run(c, r, Accept(false)) == r;
  }
}
