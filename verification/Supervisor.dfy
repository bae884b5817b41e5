/**
  The event loop that reconciles a table of listeners with each new configuration,
  interleaved in any order with the runners it has spawned.
 */
module Supervisor {
  import opened Listener

  type Update = map<Addr, Rule>
  type Table = map<Addr, nat>

  // ---------------------------------------------------------------- table and channels

  /**
    `chans` holds the channel of every listener ever spawned, in order, and `table` maps an
    address to the one whose sender is held for it.
   */
  datatype Book = Book(table: Table, chans: seq<Channel>, dropped: nat)

  /** The entry of an address is an open sender for that address. */
  ghost predicate EntryOpen(b: Book, a: Addr) {
    a in b.table && b.table[a] < |b.chans| && b.chans[b.table[a]].addr == a && b.chans[b.table[a]].open
  }

  /** A channel that is open is held in the table. */
  ghost predicate OpenHeld(b: Book, i: nat)
    requires i < |b.chans|
  {
    b.chans[i].open ==> b.chans[i].addr in b.table && b.table[b.chans[i].addr] == i
  }

  /** The table holds exactly the open senders. */
  ghost predicate Matched(b: Book) {
    && (forall a {:trigger EntryOpen(b, a)} :: a in b.table ==> EntryOpen(b, a))
    && (forall i {:trigger OpenHeld(b, i)} :: 0 <= i < |b.chans| ==> OpenHeld(b, i))
  }

  /** Of two listeners on the same address, the older has lost its sender. */
  ghost predicate Succession(chans: seq<Channel>) {
    forall i, j :: 0 <= i < j < |chans| && chans[i].addr == chans[j].addr ==> !chans[i].open
  }

  /** Senders dropped and senders held make up all those created. */
  ghost predicate Sound(b: Book) {
    && Matched(b) && Succession(b.chans)
    && b.dropped + |b.table.Keys| == |b.chans|
    && (forall i :: 0 <= i < |b.chans| ==> b.chans[i].sent != [])
  }

  /** Removing a table entry drops its sender. */
  function DropEntry(b: Book, a: Addr): Book
    requires a in b.table && b.table[a] < |b.chans|
  {
    var id := b.table[a];
    Book(b.table - {a}, b.chans[id := DropSender(b.chans[id])], b.dropped + 1)
  }

  function Resend(b: Book, a: Addr, rule: Rule): Book
    requires a in b.table && b.table[a] < |b.chans|
  {
    var id := b.table[a];
    b.(chans := b.chans[id := Send(b.chans[id], rule)])
  }

  function Spawn(b: Book, a: Addr, rule: Rule): Book
  {
    b.(table := b.table[a := |b.chans|], chans := b.chans + [NewChannel(a, rule)])
  }

  /** The rule an address is served by. */
  predicate Serves(b: Book, a: Addr, rule: Rule) {
    && a in b.table && b.table[a] < |b.chans| && b.chans[b.table[a]].sent != []
    && b.chans[b.table[a]].sent[b.chans[b.table[a]].Latest()] == rule
  }

  lemma DropIsSound(b: Book, a: Addr)
    requires Sound(b) && a in b.table
    ensures b.table[a] < |b.chans| && Sound(DropEntry(b, a))
  {
    assert EntryOpen(b, a);
    var b' := DropEntry(b, a);
    assert b'.table.Keys == b.table.Keys - {a};
    forall x | x in b'.table ensures EntryOpen(b', x) {
      assert EntryOpen(b, x);
    }
    forall i | 0 <= i < |b'.chans| ensures OpenHeld(b', i) {
      assert OpenHeld(b, i);
    }
  }

  lemma ResendIsSound(b: Book, a: Addr, rule: Rule)
    requires Sound(b) && a in b.table
    ensures b.table[a] < |b.chans| && Sound(Resend(b, a, rule)) && Serves(Resend(b, a, rule), a, rule)
  {
    assert EntryOpen(b, a);
    var b' := Resend(b, a, rule);
    forall x | x in b'.table ensures EntryOpen(b', x) {
      assert EntryOpen(b, x);
    }
    forall i | 0 <= i < |b'.chans| ensures OpenHeld(b', i) {
      assert OpenHeld(b, i);
    }
  }

  lemma SpawnIsSound(b: Book, a: Addr, rule: Rule)
    requires Sound(b) && a !in b.table
    ensures Sound(Spawn(b, a, rule)) && Serves(Spawn(b, a, rule), a, rule)
  {
    var b' := Spawn(b, a, rule);
    assert b'.table.Keys == b.table.Keys + {a};
    SpawnMatches(b, a, rule);
    SpawnSucceeds(b, a, rule);
  }

  lemma SpawnMatches(b: Book, a: Addr, rule: Rule)
    requires Matched(b) && a !in b.table
    ensures Matched(Spawn(b, a, rule))
  {
    var b' := Spawn(b, a, rule);
    forall x | x in b'.table ensures EntryOpen(b', x) {
      assert x == a || EntryOpen(b, x);
    }
    forall i | 0 <= i < |b'.chans| ensures OpenHeld(b', i) {
      assert i == |b.chans| || OpenHeld(b, i);
    }
  }

  lemma SpawnSucceeds(b: Book, a: Addr, rule: Rule)
    requires Matched(b) && Succession(b.chans) && a !in b.table
    ensures Succession(Spawn(b, a, rule).chans)
  {
    var chans := Spawn(b, a, rule).chans;
    forall i, j | 0 <= i < j < |chans| && chans[i].addr == chans[j].addr ensures !chans[i].open {
      assert chans[i] == b.chans[i] && OpenHeld(b, i);
    }
  }

  // ---------------------------------------------------------------- the loop and its runners

  /**
    `before` and `base` remember the table and the number of listeners when the update
    arrived; `spawned` collects the addresses for which a listener was spawned since.
   */
  datatype Loop =
    | Idle
    | Retaining(update: Update, before: Table, base: nat)
    | Installing(update: Update, before: Table, base: nat, todo: set<Addr>, spawned: set<Addr>)
    | Exiting
    | Exited

  /** `runs[i]` is the runner of channel `i`; `applied` is the last update fully applied. */
  datatype Sys = Sys(book: Book, runs: seq<Runner>, phase: Loop, applied: Update)

  const INITIAL := Sys(Book(map[], [], 0), [], Idle, map[])

  datatype Event =
    | Receive(update: Update)
    | DropStale(addr: Addr)
    | StartInstalling
    | Install(addr: Addr)
    | Finish
    | Shutdown
    | DropAtExit(addr: Addr)
    | Leave
    | OnRunner(id: nat, event: Listener.Event)

  ghost predicate Wired(s: Sys) {
    Sound(s.book) && |s.runs| == |s.book.chans|
  }

  /** A new address gets a channel and a runner, a known one the new rule. */
  function InstallRule(s: Sys, a: Addr): Sys
    requires Wired(s) && s.phase.Installing? && a in s.phase.update
  {
    var rule := s.phase.update[a];
    if a in s.book.table then
      assert EntryOpen(s.book, a);
      s.(book := Resend(s.book, a, rule), phase := s.phase.(todo := s.phase.todo - {a}))
    else
      s.(book := Spawn(s.book, a, rule), runs := s.runs + [NEW_RUNNER],
         phase := s.phase.(todo := s.phase.todo - {a}, spawned := s.phase.spawned + {a}))
  }

  function InstallIfDue(s: Sys, a: Addr): Sys
    requires Wired(s)
  {
    if s.phase.Installing? && a in s.phase.todo && a in s.phase.update then InstallRule(s, a) else s
  }

  function DropIf(s: Sys, a: Addr, fits: bool): Sys
    requires Wired(s)
  {
    if fits && a in s.book.table then
      assert EntryOpen(s.book, a);
      s.(book := DropEntry(s.book, a))
    else s
  }

  /** One step of the loop or of a runner; a step that does not fit leaves the system alone. */
  function Apply(s: Sys, e: Event): Sys
    requires Wired(s)
  {
    match e
    case Receive(update) =>
      if s.phase == Idle then s.(phase := Retaining(update, s.book.table, |s.book.chans|)) else s
    case DropStale(a) => DropIf(s, a, s.phase.Retaining? && a !in s.phase.update)
    case StartInstalling =>
      if s.phase.Retaining? && s.book.table.Keys <= s.phase.update.Keys
      then s.(phase := Installing(s.phase.update, s.phase.before, s.phase.base, s.phase.update.Keys, {})) else s
    case Install(a) => InstallIfDue(s, a)
    case Finish =>
      if s.phase.Installing? && s.phase.todo == {} then s.(phase := Idle, applied := s.phase.update) else s
    case Shutdown => if s.phase == Idle then s.(phase := Exiting) else s
    case DropAtExit(a) => DropIf(s, a, s.phase == Exiting)
    case Leave => if s.phase == Exiting && s.book.table == map[] then s.(phase := Exited) else s
    case OnRunner(id, event) =>
      if id < |s.runs| then s.(runs := s.runs[id := Happen(s.book.chans[id], s.runs[id], event)]) else s
  }

  // ---------------------------------------------------------------- invariant

  /** Known addresses keep their listener, new ones get one spawned since the update arrived. */
  ghost predicate Kept(b: Book, before: Table, base: nat) {
    forall a :: a in b.table ==> if a in before then b.table[a] == before[a] else base <= b.table[a]
  }

  /** Addresses that have left the table have lost their sender. */
  ghost predicate Lost(b: Book, before: Table) {
    forall a :: a in before ==> before[a] < |b.chans| && (a in b.table || !b.chans[before[a]].open)
  }

  ghost predicate ServesAll(b: Book, update: Update, todo: set<Addr>) {
    forall a :: a in update && a !in todo ==> Serves(b, a, update[a])
  }

  ghost predicate RetainInv(b: Book, p: Loop)
    requires p.Retaining?
  {
    && p.base == |b.chans| && Kept(b, p.before, p.base) && Lost(b, p.before)
    && (forall a :: a in b.table ==> a in p.before)
    && (forall a :: a in p.before && a in p.update ==> a in b.table)
  }

  ghost predicate InstallInv(b: Book, p: Loop)
    requires p.Installing?
  {
    && Kept(b, p.before, p.base) && Lost(b, p.before) && ServesAll(b, p.update, p.todo)
    && (forall a :: a in b.table <==> a in p.update && (a !in p.todo || a in p.before))
    && (forall a :: a in p.spawned <==> a in p.update && a !in p.todo && a !in p.before)
    && |b.chans| == p.base + |p.spawned| && p.todo <= p.update.Keys
  }

  ghost predicate LoopInv(b: Book, phase: Loop, applied: Update) {
    match phase
    case Idle => b.table.Keys == applied.Keys && ServesAll(b, applied, {})
    case Retaining(_, _, _) => RetainInv(b, phase)
    case Installing(_, _, _, _, _) => InstallInv(b, phase)
    case Exiting => true
    case Exited => b.table == map[]
  }

  ghost predicate RunnersInv(chans: seq<Channel>, runs: seq<Runner>) {
    |runs| == |chans| && forall i :: 0 <= i < |runs| ==> RunnerInv(chans[i], runs[i])
  }

  ghost predicate Inv(s: Sys) {
    Sound(s.book) && RunnersInv(s.book.chans, s.runs) && LoopInv(s.book, s.phase, s.applied)
  }

  lemma RetainStep(b: Book, p: Loop, a: Addr)
    requires Sound(b) && p.Retaining? && RetainInv(b, p) && a in b.table && a !in p.update
    ensures b.table[a] < |b.chans| && RetainInv(DropEntry(b, a), p)
  {
    assert EntryOpen(b, a);
    var b' := DropEntry(b, a);
    assert b'.table.Keys == b.table.Keys - {a};
  }

  lemma ResendStep(b: Book, p: Loop, a: Addr)
    requires Sound(b) && p.Installing? && InstallInv(b, p) && a in p.todo && a in p.update && a in b.table
    ensures b.table[a] < |b.chans| && InstallInv(Resend(b, a, p.update[a]), p.(todo := p.todo - {a}))
  {
    assert EntryOpen(b, a);
    var b' := Resend(b, a, p.update[a]);
    forall x | x in p.update && x !in p.todo - {a} ensures Serves(b', x, p.update[x]) {
      assert EntryOpen(b, x) && (x == a || Serves(b, x, p.update[x]));
    }
  }

  lemma SpawnStep(b: Book, p: Loop, a: Addr)
    requires Sound(b) && p.Installing? && InstallInv(b, p) && a in p.todo && a in p.update && a !in b.table
    ensures InstallInv(Spawn(b, a, p.update[a]), p.(todo := p.todo - {a}, spawned := p.spawned + {a}))
  {
    var b' := Spawn(b, a, p.update[a]);
    forall x | x in p.update && x !in p.todo - {a} ensures Serves(b', x, p.update[x]) {
      assert x == a || Serves(b, x, p.update[x]);
    }
  }

  lemma DropKeepsRunners(b: Book, runs: seq<Runner>, a: Addr)
    requires Sound(b) && RunnersInv(b.chans, runs) && a in b.table
    ensures b.table[a] < |b.chans| && RunnersInv(DropEntry(b, a).chans, runs)
  {
    assert EntryOpen(b, a);
    DropKeepsInv(b.chans[b.table[a]], runs[b.table[a]]);
  }

  lemma ResendKeepsInv(s: Sys, a: Addr)
    requires Inv(s) && s.phase.Installing? && a in s.phase.todo && a in s.phase.update && a in s.book.table
    ensures Inv(InstallRule(s, a))
  {
    var b, rule := s.book, s.phase.update[a];
    assert EntryOpen(b, a);
    ResendIsSound(b, a, rule);
    ResendStep(b, s.phase, a);
    SendKeepsInv(b.chans[b.table[a]], s.runs[b.table[a]], rule);
  }

  lemma SpawnKeepsInvariant(s: Sys, a: Addr)
    requires Inv(s) && s.phase.Installing? && a in s.phase.todo && a in s.phase.update && a !in s.book.table
    ensures Inv(InstallRule(s, a))
  {
    SpawnIsSound(s.book, a, s.phase.update[a]);
    SpawnStep(s.book, s.phase, a);
    SpawnKeepsRunners(s.book.chans, s.runs, a, s.phase.update[a]);
  }

  lemma SpawnKeepsRunners(chans: seq<Channel>, runs: seq<Runner>, a: Addr, rule: Rule)
    requires RunnersInv(chans, runs)
    ensures RunnersInv(chans + [NewChannel(a, rule)], runs + [NEW_RUNNER])
  {
    NewIsSound(a, rule);
  }

  lemma InstallKeepsInv(s: Sys, a: Addr)
    requires Inv(s) && s.phase.Installing? && a in s.phase.todo && a in s.phase.update
    ensures Inv(InstallRule(s, a))
    ensures var p := InstallRule(s, a).phase;
            && p.Installing? && p.todo == s.phase.todo - {a}
            && p.update == s.phase.update && p.before == s.phase.before && p.base == s.phase.base
  {
    if a in s.book.table {
      ResendKeepsInv(s, a);
    } else {
      SpawnKeepsInvariant(s, a);
    }
  }

  lemma RunnersUpdate(chans: seq<Channel>, runs: seq<Runner>, id: nat, r: Runner)
    requires RunnersInv(chans, runs) && id < |runs| && RunnerInv(chans[id], r)
    ensures RunnersInv(chans, runs[id := r])
  {
  }

  lemma RunnerEventKeepsInv(s: Sys, id: nat, event: Listener.Event)
    requires Inv(s) && id < |s.runs|
    ensures Inv(s.(runs := s.runs[id := Happen(s.book.chans[id], s.runs[id], event)]))
  {
    HappenKeepsInv(s.book.chans[id], s.runs[id], event);
    RunnersUpdate(s.book.chans, s.runs, id, Happen(s.book.chans[id], s.runs[id], event));
  }

  lemma DropKeepsInvariant(s: Sys, a: Addr)
    requires Inv(s) && a in s.book.table
    requires s.phase == Exiting || (s.phase.Retaining? && a !in s.phase.update)
    ensures s.book.table[a] < |s.book.chans| && Inv(s.(book := DropEntry(s.book, a)))
  {
    DropIsSound(s.book, a);
    DropKeepsRunners(s.book, s.runs, a);
    if s.phase.Retaining? {
      RetainStep(s.book, s.phase, a);
    }
  }

  lemma ReceiveKeepsInv(s: Sys, update: Update)
    requires Inv(s) && s.phase == Idle
    ensures Inv(Apply(s, Receive(update)))
  {
    forall a | a in s.book.table ensures s.book.table[a] < |s.book.chans| {
      assert EntryOpen(s.book, a);
    }
  }

  lemma StartInstallingKeepsInv(s: Sys)
    requires Inv(s) && s.phase.Retaining? && s.book.table.Keys <= s.phase.update.Keys
    ensures Inv(Apply(s, StartInstalling))
  {
  }

  lemma FinishKeepsInv(s: Sys)
    requires Inv(s) && s.phase.Installing? && s.phase.todo == {}
    ensures Inv(Apply(s, Finish))
  {
  }

  lemma PhaseEventKeepsInv(s: Sys, e: Event)
    requires Inv(s) && (e.Receive? || e.StartInstalling? || e.Finish? || e.Shutdown? || e.Leave?)
    ensures Inv(Apply(s, e))
  {
    match e
    case Receive(update) =>
      if s.phase == Idle {
        ReceiveKeepsInv(s, update);
      }
    case StartInstalling =>
      if s.phase.Retaining? && s.book.table.Keys <= s.phase.update.Keys {
        StartInstallingKeepsInv(s);
      }
    case Finish =>
      if s.phase.Installing? && s.phase.todo == {} {
        FinishKeepsInv(s);
      }
    case _ =>
  }

  lemma DropIfKeepsInv(s: Sys, a: Addr, fits: bool)
    requires Inv(s) && (fits ==> s.phase == Exiting || (s.phase.Retaining? && a !in s.phase.update))
    ensures Inv(DropIf(s, a, fits))
  {
    if fits && a in s.book.table {
      DropKeepsInvariant(s, a);
    }
  }

  lemma InstallIfDueKeepsInv(s: Sys, a: Addr)
    requires Inv(s)
    ensures Inv(InstallIfDue(s, a))
  {
    if s.phase.Installing? && a in s.phase.todo && a in s.phase.update {
      InstallKeepsInv(s, a);
    }
  }

  lemma InstallKeepsInvariant(s: Sys, a: Addr)
    requires Inv(s)
    ensures Inv(Apply(s, Install(a)))
  {
    InstallIfDueKeepsInv(s, a);
  }

  lemma DropStaleKeepsInv(s: Sys, a: Addr)
    requires Inv(s)
    ensures Inv(Apply(s, DropStale(a)))
  {
    DropIfKeepsInv(s, a, s.phase.Retaining? && a !in s.phase.update);
  }

  lemma DropAtExitKeepsInv(s: Sys, a: Addr)
    requires Inv(s)
    ensures Inv(Apply(s, DropAtExit(a)))
  {
    DropIfKeepsInv(s, a, s.phase == Exiting);
  }

  /** Every step of the loop and of every runner keeps the invariant. */
  lemma EventKeepsInv(s: Sys, e: Event)
    requires Inv(s)
    ensures Inv(Apply(s, e))
  {
    if e.OnRunner? {
      if e.id < |s.runs| {
        RunnerEventKeepsInv(s, e.id, e.event);
      }
    } else if e.DropStale? {
      DropStaleKeepsInv(s, e.addr);
    } else if e.DropAtExit? {
      DropAtExitKeepsInv(s, e.addr);
    } else if e.Install? {
      InstallKeepsInvariant(s, e.addr);
    } else {
      PhaseEventKeepsInv(s, e);
    }
  }

  // ---------------------------------------------------------------- whole runs

  function ApplyAll(s: Sys, events: seq<Event>): (s': Sys)
    requires Inv(s)
    ensures Inv(s')
    decreases |events|
  {
    if events == [] then s
    else
      EventKeepsInv(s, events[0]);
      ApplyAll(Apply(s, events[0]), events[1..])
  }

  /**
    In every interleaving of the loop and its runners: no two listeners on one address
    have a sender, the older of them has lost it, senders created less senders dropped is
    the size of the table, and none is left once the loop has exited. Between updates the
    table serves exactly the addresses of the last update, each by its rule in it.
   */
  lemma SupervisorSafety(events: seq<Event>)
    ensures var b := ApplyAll(INITIAL, events).book;
            var applied := ApplyAll(INITIAL, events).applied;
            && (forall i, j :: 0 <= i < j < |b.chans| && b.chans[i].addr == b.chans[j].addr ==> !b.chans[i].open)
            && |b.chans| - b.dropped == |b.table.Keys|
            && (ApplyAll(INITIAL, events).phase == Exited ==> forall i :: 0 <= i < |b.chans| ==> !b.chans[i].open)
            && (ApplyAll(INITIAL, events).phase == Idle ==>
                  b.table.Keys == applied.Keys && forall a :: a in applied ==> Serves(b, a, applied[a]))
  {
    assert Inv(INITIAL);
    var s := ApplyAll(INITIAL, events);
    assert Sound(s.book) && Succession(s.book.chans);
    forall i | s.phase == Exited && 0 <= i < |s.book.chans| ensures !s.book.chans[i].open {
      assert OpenHeld(s.book, i);
    }
  }

  lemma ClosedStaysClosed(s: Sys, e: Event, i: nat)
    requires Wired(s) && i < |s.book.chans| && !s.book.chans[i].open
    ensures i < |Apply(s, e).book.chans| && Apply(s, e).book.chans[i] == s.book.chans[i]
  {
    match e
    case DropStale(a) => assert a in s.book.table ==> EntryOpen(s.book, a);
    case DropAtExit(a) => assert a in s.book.table ==> EntryOpen(s.book, a);
    case Install(a) => assert a in s.book.table ==> EntryOpen(s.book, a);
    case _ =>
  }

  /** A listener that has lost its sender never gets another rule, nor the sender back. */
  lemma {:induction false} ClosedForever(s: Sys, events: seq<Event>, i: nat)
    requires Inv(s) && i < |s.book.chans| && !s.book.chans[i].open
    ensures var chans := ApplyAll(s, events).book.chans; i < |chans| && chans[i] == s.book.chans[i]
    decreases |events|
  {
    if events != [] {
      EventKeepsInv(s, events[0]);
      ClosedStaysClosed(s, events[0], i);
      ClosedForever(Apply(s, events[0]), events[1..], i);
    }
  }

  /** What happens to runner `i` in a run. */
  function OnlyOn(events: seq<Event>, i: nat): seq<Listener.Event>
  {
    if events == [] then []
    else (if events[0].OnRunner? && events[0].id == i then [events[0].event] else []) + OnlyOn(events[1..], i)
  }

  /** A step moves at most one runner, and that one by itself. */
  lemma StepOfRunner(s: Sys, e: Event, i: nat)
    requires Wired(s) && i < |s.runs|
    ensures i < |Apply(s, e).runs|
    ensures Apply(s, e).runs[i] ==
            if e.OnRunner? && e.id == i then Happen(s.book.chans[i], s.runs[i], e.event) else s.runs[i]
  {
    match e
    case OnRunner(id, event) =>
    case _ => assert s.runs <= Apply(s, e).runs;
  }

  /** In the whole system a listener without sender runs as it would on its own. */
  lemma {:induction false} ClosedRunsAlone(s: Sys, events: seq<Event>, i: nat)
    requires Inv(s) && i < |s.runs| && !s.book.chans[i].open
    ensures i < |ApplyAll(s, events).runs| == |ApplyAll(s, events).book.chans|
    ensures ApplyAll(s, events).book.chans[i] == s.book.chans[i]
    ensures ApplyAll(s, events).runs[i] == HappenAll(s.book.chans[i], s.runs[i], OnlyOn(events, i))
    decreases |events|
  {
    if events != [] {
      var e, s1 := events[0], Apply(s, events[0]);
      EventKeepsInv(s, e);
      ClosedStaysClosed(s, e, i);
      StepOfRunner(s, e, i);
      ClosedRunsAlone(s1, events[1..], i);
      if e.OnRunner? && e.id == i {
        assert OnlyOn(events, i)[0] == e.event && OnlyOn(events, i)[1..] == OnlyOn(events[1..], i);
      } else {
        assert OnlyOn(events, i) == OnlyOn(events[1..], i);
      }
    }
  }

  /**
    From any state in which listener `i` has lost its sender, in every interleaving of the
    whole system from there on: it spawns handlers in draining only, but for one accept that
    may have been under way, and takes a bounded number of steps, two more per late arrival.
   */
  lemma ClosedListenerWindsUp(s: Sys, events: seq<Event>, i: nat)
    requires Inv(s) && i < |s.runs| && !s.book.chans[i].open
    ensures i < |ApplyAll(s, events).runs|
    ensures var c, r, r' := s.book.chans[i], s.runs[i], ApplyAll(s, events).runs[i];
            && r.handlers <= r'.handlers
            && OnlyDrains(r.phase.Accepting?, r'.handlers[|r.handlers|..])
            && Effective(c, r, OnlyOn(events, i)) + StepsLeft(c, r')
               <= StepsLeft(c, r) + 2 * Arrivals(OnlyOn(events, i))
  {
    ClosedRunsAlone(s, events, i);
    ClosedOnlyDrains(s.book.chans[i], s.runs[i], OnlyOn(events, i));
    ShutdownTerminates(s.book.chans[i], s.runs[i], OnlyOn(events, i));
  }

  /**
    In every run, an older listener of an address is finished or can only drain: whatever
    happens next, it winds up as above and gets no further rule.
   */
  lemma OlderListenersOnlyDrain(events: seq<Event>, more: seq<Event>, i: nat, j: nat)
    requires i < j < |ApplyAll(INITIAL, events).book.chans|
    requires ApplyAll(INITIAL, events).book.chans[i].addr == ApplyAll(INITIAL, events).book.chans[j].addr
    ensures var s := ApplyAll(INITIAL, events);
            var s' := ApplyAll(s, more);
            && i < |s.runs| && i < |s'.runs| && i < |s'.book.chans| && s'.book.chans[i] == s.book.chans[i]
            && !s.book.chans[i].open
            && s.runs[i].handlers <= s'.runs[i].handlers
            && OnlyDrains(s.runs[i].phase.Accepting?, s'.runs[i].handlers[|s.runs[i].handlers|..])
            && Effective(s.book.chans[i], s.runs[i], OnlyOn(more, i))
               <= StepsLeft(s.book.chans[i], s.runs[i]) + 2 * Arrivals(OnlyOn(more, i))
  {
    var s := ApplyAll(INITIAL, events);
    assert Succession(s.book.chans);
    ClosedForever(s, more, i);
    ClosedListenerWindsUp(s, more, i);
  }

  /**
    In every interleaving, for every runner: connections that arrived are those handed to
    handlers, in order, and those still queued; a runner that stopped on an empty queue has
    handed over all of them; rule versions never decrease from one handler to the next, and
    in draining are the last one ever sent.
   */
  lemma EveryRunnerIsFair(events: seq<Event>, i: nat)
    requires i < |ApplyAll(INITIAL, events).runs|
    ensures var s := ApplyAll(INITIAL, events);
            i < |s.book.chans| &&
            var c, r := s.book.chans[i], s.runs[i];
            && r.arrived == Conns(r.handlers) + r.queue
            && (r.phase == Stopped(QueueEmpty) ==> r.arrived == Conns(r.handlers))
            && (forall j, k :: 0 <= j < k < |r.handlers| ==> r.handlers[j].version <= r.handlers[k].version)
            && (forall h :: h in r.handlers ==> h.version <= c.Latest())
            && (forall h :: h in r.handlers && h.draining ==> !c.open && h.version == c.Latest())
  {
    var s := ApplyAll(INITIAL, events);
    var c, r := s.book.chans[i], s.runs[i];
    assert RunnerInv(c, r);
    assert Conns(r.handlers) + [] == Conns(r.handlers);
    forall h | h in r.handlers
      ensures h.version <= c.Latest() && (h.draining ==> !c.open && h.version == c.Latest())
    {
      assert Fresh(c, r, h);
    }
  }

  // ---------------------------------------------------------------- rules in force

  /** Events that are a poll for changes by runner `i` and find it ready for one. */
  predicate PollsForChange(s: Sys, e: Event, i: nat) {
    e == OnRunner(i, Step(PollChanged)) && i < |s.runs| && s.runs[i].phase == Selecting
  }

  predicate NoPollIn(s: Sys, events: seq<Event>, i: nat)
    requires Inv(s)
    decreases |events|
  {
    events == [] ||
    (EventKeepsInv(s, events[0]);
     !PollsForChange(s, events[0], i) && NoPollIn(Apply(s, events[0]), events[1..], i))
  }

  lemma StepStillServes(s: Sys, e: Event, i: nat, least: nat)
    requires Wired(s) && i < |s.runs| && ServesSince(s.runs[i], least) && !PollsForChange(s, e, i)
    ensures i < |Apply(s, e).runs| && ServesSince(Apply(s, e).runs[i], least)
  {
    StepOfRunner(s, e, i);
    if e.OnRunner? && e.id == i {
      StillServes(s.book.chans[i], s.runs[i], e.event, least);
    }
  }

  lemma {:induction false} ServesUntilNextPoll(s: Sys, events: seq<Event>, i: nat, least: nat)
    requires Inv(s) && i < |s.runs| && ServesSince(s.runs[i], least) && NoPollIn(s, events, i)
    ensures i < |ApplyAll(s, events).runs| && ServesSince(ApplyAll(s, events).runs[i], least)
    decreases |events|
  {
    if events != [] {
      EventKeepsInv(s, events[0]);
      StepStillServes(s, events[0], i, least);
      ServesUntilNextPoll(Apply(s, events[0]), events[1..], i, least);
    }
  }

  /**
    In every interleaving: the connection a runner accepts gets the rule that was the last one
    sent on its channel when the runner last polled for changes, or a later one.
   */
  lemma AcceptedUnderFreshRule(s: Sys, between: seq<Event>, i: nat, fails: bool)
    requires Inv(s) && PollsForChange(s, OnRunner(i, Step(PollChanged)), i)
    requires Inv(Apply(s, OnRunner(i, Step(PollChanged))))
    requires NoPollIn(Apply(s, OnRunner(i, Step(PollChanged))), between, i)
    ensures var s1 := ApplyAll(Apply(s, OnRunner(i, Step(PollChanged))), between);
            var s2 := Apply(s1, OnRunner(i, Step(Accept(fails))));
            && i < |s1.runs| && i < |s2.runs| && i < |s.book.chans|
            && |s1.runs[i].handlers| <= |s2.runs[i].handlers| <= |s1.runs[i].handlers| + 1
            && (|s2.runs[i].handlers| > |s1.runs[i].handlers| ==>
                  s2.runs[i].handlers[|s1.runs[i].handlers|].version >= s.book.chans[i].Latest())
  {
    var poll, accept := OnRunner(i, Step(PollChanged)), OnRunner(i, Step(Accept(fails)));
    PollServes(s, i);
    ServesUntilNextPoll(Apply(s, poll), between, i, s.book.chans[i].Latest());
    AcceptServes(ApplyAll(Apply(s, poll), between), i, fails, s.book.chans[i].Latest());
  }

  lemma PollServes(s: Sys, i: nat)
    requires Inv(s) && PollsForChange(s, OnRunner(i, Step(PollChanged)), i)
    ensures i < |Apply(s, OnRunner(i, Step(PollChanged))).runs| && i < |s.book.chans| && s.book.chans[i].Latest() >= 0
    ensures ServesSince(Apply(s, OnRunner(i, Step(PollChanged))).runs[i], s.book.chans[i].Latest())
  {
    assert RunnerInv(s.book.chans[i], s.runs[i]);
    StepOfRunner(s, OnRunner(i, Step(PollChanged)), i);
    ServesSincePoll(s.book.chans[i], s.runs[i]);
  }

  lemma AcceptServes(s: Sys, i: nat, fails: bool, least: nat)
    requires Wired(s) && i < |s.runs| && ServesSince(s.runs[i], least)
    ensures var s' := Apply(s, OnRunner(i, Step(Accept(fails))));
            && i < |s'.runs|
            && |s.runs[i].handlers| <= |s'.runs[i].handlers| <= |s.runs[i].handlers| + 1
            && (|s'.runs[i].handlers| > |s.runs[i].handlers| ==>
                  s'.runs[i].handlers[|s.runs[i].handlers|].version >= least)
  {
    StepOfRunner(s, OnRunner(i, Step(Accept(fails))), i);
    AcceptedVersion(s.book.chans[i], s.runs[i], fails, least);
  }

  /** The steps of runner `i` in a run that do something. */
  function StepsTaken(s: Sys, events: seq<Event>, i: nat): nat
    requires Inv(s) && i < |s.runs|
    decreases |events|
  {
    if events == [] then 0
    else
      EventKeepsInv(s, events[0]);
      StepOfRunner(s, events[0], i);
      (if events[0].OnRunner? && events[0].event.Step? && Apply(s, events[0]).runs[i] != s.runs[i] then 1 else 0)
      + StepsTaken(Apply(s, events[0]), events[1..], i)
  }

  /** On the way to a rule it has not seen, of version `least` or later, with `left` steps to go. */
  predicate TakingUp(r: Runner, least: nat, left: nat) {
    match left
    case 2 => r.phase == Selecting && r.seen < least
    case 1 => r.phase == Adopting
    case _ => left == 0 && r.phase == Selecting && r.version >= least
  }

  lemma ChannelGrows(s: Sys, e: Event, i: nat)
    requires Wired(s) && i < |s.book.chans|
    ensures i < |Apply(s, e).book.chans| && |s.book.chans[i].sent| <= |Apply(s, e).book.chans[i].sent|
  {
    match e
    case DropStale(a) => assert a in s.book.table ==> EntryOpen(s.book, a);
    case DropAtExit(a) => assert a in s.book.table ==> EntryOpen(s.book, a);
    case Install(a) => assert a in s.book.table ==> EntryOpen(s.book, a);
    case _ =>
  }

  /**
    In every interleaving: a runner back at its select with an unseen rule takes that rule or
    a later one up with its next two steps, and accepts nothing before.
   */
  lemma {:induction false} UnseenRuleComesFirst(s: Sys, events: seq<Event>, i: nat, least: nat, left: nat)
    requires Inv(s) && i < |s.runs| && least <= s.book.chans[i].Latest()
    requires left <= 2 && TakingUp(s.runs[i], least, left)
    requires StepsTaken(s, events, i) <= left
    ensures i < |ApplyAll(s, events).runs|
    ensures var r' := ApplyAll(s, events).runs[i];
            r'.handlers == s.runs[i].handlers && TakingUp(r', least, left - StepsTaken(s, events, i))
    decreases |events|
  {
    if events != [] {
      var e := events[0];
      EventKeepsInv(s, e);
      StepOfRunner(s, e, i);
      ChannelGrows(s, e, i);
      var stepped := e.OnRunner? && e.event.Step? && Apply(s, e).runs[i] != s.runs[i];
      UnseenRuleComesFirst(Apply(s, e), events[1..], i, least, if stepped then left - 1 else left);
    }
  }

  // ---------------------------------------------------------------- reconciliation

  /**
    `b` is the outcome of applying `update` to a table `before` that had `base` listeners:
    exactly the update's addresses are served, each by its rule; known addresses keep their
    listener, each new one has its own, and every missing one has lost its sender.
   */
  ghost predicate Reconciled(b: Book, update: Update, before: Table, base: nat) {
    && b.table.Keys == update.Keys && ServesAll(b, update, {})
    && (forall a :: a in update && a in before ==> b.table[a] == before[a])
    && (forall a :: a in update && a !in before ==> base <= b.table[a])
    && |b.chans| == base + |update.Keys - before.Keys|
    && (forall a :: a in before && a !in update ==> before[a] < |b.chans| && !b.chans[before[a]].open)
  }

  /** Whatever the order of the iteration and whatever the runners did meanwhile, an update is applied exactly. */
  lemma ReconciliationIsExact(s: Sys)
    requires Inv(s) && s.phase.Installing? && s.phase.todo == {}
    ensures Reconciled(s.book, s.phase.update, s.phase.before, s.phase.base)
  {
    AllInstalled(s.book, s.phase);
  }

  lemma AllInstalled(b: Book, p: Loop)
    requires p.Installing? && InstallInv(b, p) && p.todo == {}
    ensures Reconciled(b, p.update, p.before, p.base)
  {
    assert b.table.Keys == p.update.Keys;
    assert p.spawned == p.update.Keys - p.before.Keys;
  }

  /** Two iteration orders of one update can differ only in how the new listeners are numbered. */
  lemma OrderDoesNotMatter(b1: Book, b2: Book, update: Update, before: Table, base: nat)
    requires Reconciled(b1, update, before, base) && Reconciled(b2, update, before, base)
    ensures b1.table.Keys == b2.table.Keys && |b1.chans| == |b2.chans|
    ensures forall a :: a in before && a in b1.table ==> b1.table[a] == b2.table[a]
    ensures forall a, rule :: Serves(b1, a, rule) <==> Serves(b2, a, rule)
  {
    forall a, rule ensures Serves(b1, a, rule) <==> Serves(b2, a, rule) {
      if a in update {
        assert Serves(b1, a, update[a]) && Serves(b2, a, update[a]);
      }
    }
  }

  lemma NoneOpen(b: Book)
    requires Sound(b) && b.table == map[]
    ensures b.dropped == |b.chans| && forall i :: 0 <= i < |b.chans| ==> !b.chans[i].open
  {
    forall i | 0 <= i < |b.chans| ensures !b.chans[i].open {
      assert OpenHeld(b, i);
    }
  }

  /** The loop as it runs between two updates and at its end, with the map visited in any order. */
  class LBAppContext {
    var s: Sys

    constructor ()
      ensures s == INITIAL && Inv(s)
    {
      s := INITIAL;
    }

    /** Drops one sender. */
    method Drop(a: Addr)
      requires Inv(s) && s.phase.Retaining? && a in s.book.table && a !in s.phase.update
      modifies this
      ensures Inv(s) && s.phase == old(s.phase) && s.book.table.Keys == old(s.book.table.Keys) - {a}
    {
      EventKeepsInv(s, DropStale(a));
      s := Apply(s, DropStale(a));
    }

    /** Drops the sender of every address that is not in the update. */
    method Retain()
      requires Inv(s) && s.phase.Retaining?
      modifies this
      ensures Inv(s) && s.phase == old(s.phase) && s.book.table.Keys <= s.phase.update.Keys
    {
      var keys := s.book.table.Keys;
      var update := s.phase.update.Keys;
      while !(keys <= update)
        invariant Inv(s) && s.phase == old(s.phase) && keys == s.book.table.Keys
        decreases |keys|
      {
        var a :| a in keys && a !in update;
        Drop(a);
        keys := keys - {a};
      }
    }

    /** Spawns or updates one listener. */
    method InstallOne(a: Addr)
      requires Inv(s) && s.phase.Installing? && a in s.phase.todo && a in s.phase.update
      modifies this
      ensures Inv(s) && s.phase.Installing? && s.phase.todo == old(s.phase.todo) - {a}
      ensures s.phase.update == old(s.phase.update)
      ensures s.phase.before == old(s.phase.before) && s.phase.base == old(s.phase.base)
    {
      InstallKeepsInv(s, a);
      s := InstallRule(s, a);
    }

    /** Spawns or updates the listener of every address in the update. */
    method InstallAll()
      requires Inv(s) && s.phase.Installing?
      modifies this
      ensures Inv(s) && s.phase.Installing? && s.phase.todo == {}
      ensures s.phase.update == old(s.phase.update)
      ensures s.phase.before == old(s.phase.before) && s.phase.base == old(s.phase.base)
    {
      var todo := s.phase.todo;
      while todo != {}
        invariant Inv(s) && s.phase.Installing? && todo == s.phase.todo
        invariant s.phase.update == old(s.phase.update)
        invariant s.phase.before == old(s.phase.before) && s.phase.base == old(s.phase.base)
        decreases |todo|
      {
        var a :| a in todo;
        InstallOne(a);
        todo := todo - {a};
      }
    }

    /** Leaves the loop, which drops every sender. */
    method Exit()
      requires Inv(s) && s.phase == Idle
      modifies this
      ensures Inv(s) && s.phase == Exited && s.book.table == map[]
      ensures |s.book.chans| == |old(s.book.chans)| && s.book.dropped == |s.book.chans|
      ensures forall i :: 0 <= i < |s.book.chans| ==> !s.book.chans[i].open
    {
      TurnTo(Shutdown);
      DropAll();
      TurnTo(Leave);
      NoneOpen(s.book);
    }

    /** Begins or completes the exit. */
    method TurnTo(e: Event)
      requires Inv(s)
      requires (e == Shutdown && s.phase == Idle) || (e == Leave && s.phase == Exiting && s.book.table == map[])
      modifies this
      ensures Inv(s) && s.book == old(s.book) && s.phase == if e == Shutdown then Exiting else Exited
    {
      EventKeepsInv(s, e);
      s := Apply(s, e);
    }

    method DropAll()
      requires Inv(s) && s.phase == Exiting
      modifies this
      ensures Inv(s) && s.phase == Exiting && s.book.table == map[] && |s.book.chans| == |old(s.book.chans)|
    {
      var keys := s.book.table.Keys;
      while keys != {}
        invariant Inv(s) && s.phase == Exiting && keys == s.book.table.Keys
        invariant |s.book.chans| == |old(s.book.chans)|
        decreases |keys|
      {
        var a :| a in keys;
        DropLast(a);
        keys := keys - {a};
      }
    }

    method DropLast(a: Addr)
      requires Inv(s) && s.phase == Exiting && a in s.book.table
      modifies this
      ensures Inv(s) && s.phase == Exiting && s.book.table.Keys == old(s.book.table.Keys) - {a}
      ensures |s.book.chans| == |old(s.book.chans)|
    {
      EventKeepsInv(s, DropAtExit(a));
      s := Apply(s, DropAtExit(a));
    }

    method Reconcile(update: Update)
      requires Inv(s) && s.phase == Idle
      modifies this
      ensures Inv(s) && s.phase == Idle && s.applied == update
      ensures Reconciled(s.book, update, old(s.book.table), |old(s.book.chans)|)
    {
      EventKeepsInv(s, Receive(update));
      s := Apply(s, Receive(update));
      Retain();
      EventKeepsInv(s, StartInstalling);
      s := Apply(s, StartInstalling);
      InstallAll();
      ReconciliationIsExact(s);
      EventKeepsInv(s, Finish);
      s := Apply(s, Finish);
    }
  }
}
