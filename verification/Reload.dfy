/**
  Reloading the configuration: the first watcher is set up while file-change handlers may
  already run, and handlers run concurrently with each other.
 */
module Reload {
  import opened Options

  type HandlerId = nat

  /** Configurations are numbered in the order in which handlers parsed them. */
  type Version = nat

  /** Between taking the lock and releasing it a handler first sends the configuration, then installs its watcher. */
  datatype Phase =
    | Parsed(version: Version)
    | Watching(version: Version)
    | Locked(version: Version)
    | Sent(version: Version)

  /** The watcher in place: a stand-in that watches nothing, the first real one, or one a handler built. */
  datatype Watcher = StandIn | First | BuiltFrom(version: Version)

  /**
    `parsed` counts the configurations parsed, `failed` holds those given up because a file
    could not be watched, `sends` lists those passed to the channel, and `started` says whether
    the first watcher has been put in place.
   */
  datatype Sys = Sys(handlers: map<HandlerId, Phase>, lock: Option<HandlerId>, parsed: nat, failed: set<Version>,
                     sends: seq<Version>, watcher: Watcher, started: bool)

  /** The first watcher watches, and is not in place yet. */
  const INITIAL := Sys(map[], None, 0, {}, [], StandIn, false)

  datatype Event =
    | InstallFirst                   // takes the lock for the time of the assignment
    | Start(id: HandlerId)           // a create or modify event whose configuration parses
    | Watch(id: HandlerId, ok: bool) // registering the files to watch may fail
    | Acquire(id: HandlerId)
    | Send(id: HandlerId)
    | Install(id: HandlerId)

  predicate MayInstallFirst(s: Sys) { !s.started && s.lock.None? }

  predicate MayAcquire(s: Sys, id: HandlerId) { id in s.handlers && s.handlers[id].Watching? && s.lock.None? }

  /** A step that does not fit leaves the system alone; so do ignored events and files that do not parse. */
  function Apply(s: Sys, e: Event): Sys
  {
    match e
    case InstallFirst => if MayInstallFirst(s) then s.(watcher := First, started := true) else s
    case Start(id) =>
      if id in s.handlers then s else s.(handlers := s.handlers[id := Parsed(s.parsed)], parsed := s.parsed + 1)
    case Watch(id, ok) =>
      if id !in s.handlers || !s.handlers[id].Parsed? then s
      else if ok then s.(handlers := s.handlers[id := Watching(s.handlers[id].version)])
      else s.(handlers := s.handlers - {id}, failed := s.failed + {s.handlers[id].version})
    case Acquire(id) =>
      if !MayAcquire(s, id) then s
      else s.(handlers := s.handlers[id := Locked(s.handlers[id].version)], lock := Some(id))
    case Send(id) =>
      if id !in s.handlers || !s.handlers[id].Locked? then s
      else
        var v := s.handlers[id].version;
        s.(handlers := s.handlers[id := Phase.Sent(v)], sends := s.sends + [v])
    case Install(id) =>
      if id !in s.handlers || !s.handlers[id].Sent? then s
      else s.(handlers := s.handlers - {id}, lock := None, watcher := BuiltFrom(s.handlers[id].version))
  }

  function ApplyAll(s: Sys, events: seq<Event>): Sys
    decreases |events|
  {
    if events == [] then s else ApplyAll(Apply(s, events[0]), events[1..])
  }

  // ---------------------------------------------------------------- invariant

  /** The handler that holds the lock, and only it, is past it. */
  predicate LockInv(s: Sys) {
    && (forall id :: id in s.handlers && (s.handlers[id].Locked? || s.handlers[id].Sent?) ==> s.lock == Some(id))
    && (s.lock.Some? ==>
          && s.lock.value in s.handlers
          && (s.handlers[s.lock.value].Locked? || s.handlers[s.lock.value].Sent?))
  }

  /** The lock holder has sent its configuration and not yet put its watcher in place. */
  predicate Between(s: Sys) {
    s.lock.Some? && s.lock.value in s.handlers && s.handlers[s.lock.value].Sent?
  }

  function LastSent(s: Sys): Version
    requires s.sends != []
  {
    s.sends[|s.sends| - 1]
  }

  predicate OnItsWay(handlers: map<HandlerId, Phase>, v: Version) {
    exists id :: id in handlers && handlers[id].version == v
  }

  /** A configuration on its way is neither given up nor, before its handler's send, sent. */
  predicate InFlight(s: Sys) {
    forall id :: id in s.handlers ==>
      && s.handlers[id].version < s.parsed && s.handlers[id].version !in s.failed
      && (!s.handlers[id].Sent? ==> s.handlers[id].version !in s.sends)
  }

  predicate OneEach(handlers: map<HandlerId, Phase>) {
    forall id1, id2 :: id1 in handlers && id2 in handlers && id1 != id2 ==>
      handlers[id1].version != handlers[id2].version
  }

  /** A configuration is not both sent and given up. */
  predicate Settled(s: Sys) {
    && (forall v :: v in s.sends ==> v < s.parsed && v !in s.failed)
    && (forall v :: v in s.failed ==> v < s.parsed)
  }

  predicate BetweenSent(s: Sys) {
    Between(s) ==> s.sends != [] && LastSent(s) == s.handlers[s.lock.value].version
  }

  /** Every configuration parsed is in one of them. */
  predicate Covered(s: Sys) {
    forall v :: 0 <= v < s.parsed ==> v in s.sends || v in s.failed || OnItsWay(s.handlers, v)
  }

  /** A watcher that a handler built is in place only once its configuration was sent. */
  predicate WatcherSent(s: Sys) {
    s.watcher.BuiltFrom? ==> s.watcher.version in s.sends
  }

  predicate Inv(s: Sys) {
    && LockInv(s) && BetweenSent(s) && OneEach(s.handlers)
    && InFlight(s) && Settled(s) && Covered(s) && WatcherSent(s)
  }

  /** A step of one handler leaves the others on their way. */
  lemma OthersOnTheirWay(handlers: map<HandlerId, Phase>, handlers': map<HandlerId, Phase>, v: Version, id: HandlerId)
    requires OnItsWay(handlers, v) && (id in handlers ==> handlers[id].version != v)
    requires forall x :: x in handlers && x != id ==> x in handlers' && handlers'[x] == handlers[x]
    ensures OnItsWay(handlers', v)
  {
    var x :| x in handlers && handlers[x].version == v;
    assert x in handlers' && handlers'[x].version == v;
  }

  lemma EventKeepsLockInv(s: Sys, e: Event)
    requires LockInv(s)
    ensures LockInv(Apply(s, e))
  {
  }

  lemma EventKeepsBetween(s: Sys, e: Event)
    requires LockInv(s) && BetweenSent(s)
    ensures BetweenSent(Apply(s, e))
  {
  }

  lemma EventKeepsOneEach(s: Sys, e: Event)
    requires InFlight(s) && OneEach(s.handlers)
    ensures OneEach(Apply(s, e).handlers)
  {
  }

  lemma EventKeepsInFlight(s: Sys, e: Event)
    requires InFlight(s) && OneEach(s.handlers) && Settled(s)
    ensures InFlight(Apply(s, e)) && Settled(Apply(s, e))
  {
  }

  lemma EventKeepsCovered(s: Sys, e: Event)
    requires LockInv(s) && BetweenSent(s) && Covered(s)
    ensures Covered(Apply(s, e))
  {
    if e != InstallFirst {
      var s' := Apply(s, e);
      forall v | 0 <= v < s'.parsed ensures v in s'.sends || v in s'.failed || OnItsWay(s'.handlers, v) {
        if e.id in s'.handlers && s'.handlers[e.id].version == v {
          assert OnItsWay(s'.handlers, v);
        } else if v !in s'.sends && v !in s'.failed {
          if e.Install? && e.id in s.handlers && s.handlers[e.id].Sent? {
            assert Between(s);
          }
          assert OnItsWay(s.handlers, v);
          OthersOnTheirWay(s.handlers, s'.handlers, v, e.id);
        }
      }
    }
  }

  lemma EventKeepsWatcherSent(s: Sys, e: Event)
    requires LockInv(s) && BetweenSent(s) && WatcherSent(s)
    ensures WatcherSent(Apply(s, e))
  {
    if e.Install? && e.id in s.handlers && s.handlers[e.id].Sent? {
      assert Between(s);
    }
  }

  lemma EventKeepsInv(s: Sys, e: Event)
    requires Inv(s)
    ensures Inv(Apply(s, e))
  {
    EventKeepsLockInv(s, e);
    EventKeepsBetween(s, e);
    EventKeepsOneEach(s, e);
    EventKeepsInFlight(s, e);
    EventKeepsCovered(s, e);
    EventKeepsWatcherSent(s, e);
  }

  // ---------------------------------------------------------------- the watcher and the last configuration sent

  /** Unless a handler is between the two, the watcher in place was built from the configuration sent last. */
  predicate Matches(s: Sys) {
    s.sends != [] && !Between(s) ==> s.watcher == BuiltFrom(LastSent(s))
  }

  predicate AlwaysMatches(s: Sys, events: seq<Event>)
    decreases |events|
  {
    Matches(s) && (events == [] || AlwaysMatches(Apply(s, events[0]), events[1..]))
  }

  /** The first watcher is put in place before any handler has sent a configuration. */
  predicate FirstInTime(s: Sys, events: seq<Event>)
    decreases |events|
  {
    events == [] ||
    (&& (events[0] == InstallFirst && MayInstallFirst(s) ==> s.sends == [])
     && FirstInTime(Apply(s, events[0]), events[1..]))
  }

  /** Of all steps only putting the first watcher in place too late breaks the match. */
  lemma StepKeepsMatch(s: Sys, e: Event)
    requires Inv(s) && Matches(s)
    ensures Matches(Apply(s, e)) <==> !(e == InstallFirst && MayInstallFirst(s) && s.sends != [])
  {
  }

  /**
    In every interleaving, the watcher matches the configuration sent last all the way
    exactly when the first watcher came before the first handler's send.
   */
  lemma {:induction false} WatcherMatchesLastSentIff(s: Sys, events: seq<Event>)
    requires Inv(s) && Matches(s)
    ensures AlwaysMatches(s, events) <==> FirstInTime(s, events)
    decreases |events|
  {
    if events != [] {
      EventKeepsInv(s, events[0]);
      StepKeepsMatch(s, events[0]);
      if Matches(Apply(s, events[0])) {
        WatcherMatchesLastSentIff(Apply(s, events[0]), events[1..]);
      }
    }
  }

  /** Once the first watcher has replaced a handler's, it stays until a handler installs the next. */
  lemma {:induction false} StaysUntilInstall(s: Sys, events: seq<Event>)
    requires s.started && forall e :: e in events ==> !e.Install?
    ensures ApplyAll(s, events).watcher == s.watcher
    decreases |events|
  {
    if events != [] {
      StaysUntilInstall(Apply(s, events[0]), events[1..]);
    }
  }

  /** The next install mends it for good. */
  lemma InstallMends(s: Sys, id: HandlerId, events: seq<Event>)
    requires Inv(s) && s.started && id in s.handlers && s.handlers[id].Sent?
    ensures AlwaysMatches(Apply(s, Install(id)), events)
  {
    EventKeepsInv(s, Install(id));
    StartedIsInTime(Apply(s, Install(id)), events);
    WatcherMatchesLastSentIff(Apply(s, Install(id)), events);
  }

  lemma {:induction false} StartedIsInTime(s: Sys, events: seq<Event>)
    requires s.started
    ensures FirstInTime(s, events)
    decreases |events|
  {
    if events != [] {
      StartedIsInTime(Apply(s, events[0]), events[1..]);
    }
  }

  lemma {:induction false} RunKeepsInv(s: Sys, events: seq<Event>)
    requires Inv(s)
    ensures Inv(ApplyAll(s, events)) && s.failed <= ApplyAll(s, events).failed
    decreases |events|
  {
    if events != [] {
      EventKeepsInv(s, events[0]);
      RunKeepsInv(Apply(s, events[0]), events[1..]);
    }
  }

  /** A handler that gave up has sent nothing and left no watcher, in any run, then or later. */
  lemma FailedHandlersPublishNothing(s: Sys, events: seq<Event>, v: Version)
    requires Inv(s) && v in s.failed
    ensures v !in ApplyAll(s, events).sends && ApplyAll(s, events).watcher != BuiltFrom(v)
  {
    RunKeepsInv(s, events);
    assert v in ApplyAll(s, events).failed;
  }

  /** So a handler whose files cannot be watched publishes nothing, whatever happens afterwards. */
  lemma FailedWatchPublishesNothing(s: Sys, id: HandlerId, events: seq<Event>)
    requires Inv(s) && id in s.handlers && s.handlers[id].Parsed?
    ensures var v, s' := s.handlers[id].version, ApplyAll(Apply(s, Watch(id, false)), events);
            v !in s'.sends && s'.watcher != BuiltFrom(v)
  {
    EventKeepsInv(s, Watch(id, false));
    FailedHandlersPublishNothing(Apply(s, Watch(id, false)), events, s.handlers[id].version);
  }

  // ---------------------------------------------------------------- which configuration wins

  /** The configuration sent last is the one parsed last of all that were sent. */
  predicate NewestLast(sends: seq<Version>) {
    sends != [] ==> forall v :: v in sends ==> v <= sends[|sends| - 1]
  }

  predicate AlwaysNewest(s: Sys, events: seq<Event>)
    decreases |events|
  {
    NewestLast(s.sends) && (events == [] || AlwaysNewest(Apply(s, events[0]), events[1..]))
  }

  /** No configuration parsed later has been sent when this handler asks for the lock. */
  predicate NoneNewer(s: Sys, id: HandlerId)
    requires id in s.handlers
  {
    forall v :: v in s.sends ==> v < s.handlers[id].version
  }

  /** Whenever a handler gets the lock, none of those sent was parsed later than its own. */
  predicate LockInOrder(s: Sys, events: seq<Event>)
    decreases |events|
  {
    events == [] ||
    (&& (events[0].Acquire? && MayAcquire(s, events[0].id) ==> NoneNewer(s, events[0].id))
     && LockInOrder(Apply(s, events[0]), events[1..]))
  }

  /** The lock holder, if it is about to send, got the lock in order. */
  predicate HolderInOrder(s: Sys) {
    s.lock.Some? && s.lock.value in s.handlers && s.handlers[s.lock.value].Locked? ==> NoneNewer(s, s.lock.value)
  }

  lemma StepKeepsNewest(s: Sys, e: Event)
    requires Inv(s) && NewestLast(s.sends)
    ensures var s' := Apply(s, e);
            if e.Acquire? && MayAcquire(s, e.id) then
              s'.sends == s.sends && HolderInOrder(s) && (HolderInOrder(s') <==> NoneNewer(s, e.id))
            else if e.Send? && e.id in s.handlers && s.handlers[e.id].Locked? then
              (NewestLast(s'.sends) <==> HolderInOrder(s)) && HolderInOrder(s')
            else
              s'.sends == s.sends && (HolderInOrder(s') <==> HolderInOrder(s))
  {
    if e.Send? && e.id in s.handlers && s.handlers[e.id].Locked? {
      assert forall v :: v in s.sends ==> v in Apply(s, e).sends;
    }
  }

  lemma {:induction false} NewestFollowsOrder(s: Sys, events: seq<Event>)
    requires Inv(s) && NewestLast(s.sends)
    ensures AlwaysNewest(s, events) && HolderInOrder(ApplyAll(s, events)) <==>
            HolderInOrder(s) && LockInOrder(s, events)
    decreases |events|
  {
    if events != [] {
      EventKeepsInv(s, events[0]);
      StepKeepsNewest(s, events[0]);
      if NewestLast(Apply(s, events[0]).sends) {
        NewestFollowsOrder(Apply(s, events[0]), events[1..]);
      }
    }
  }

  /**
    In every run: the configuration sent last is at all times the newest of those sent, and
    the one a lock holder is about to send will be, exactly when no handler takes the lock
    after one that parsed later. With the lock free at the end, nothing is about to be sent.
   */
  lemma NewestConfigurationWinsIff(events: seq<Event>)
    ensures var s := ApplyAll(INITIAL, events);
            && (AlwaysNewest(INITIAL, events) && HolderInOrder(s) <==> LockInOrder(INITIAL, events))
            && (s.lock.None? ==> HolderInOrder(s))
  {
    NewestFollowsOrder(INITIAL, events);
  }

  lemma {:induction false} SendsGrow(s: Sys, events: seq<Event>)
    ensures s.sends <= ApplyAll(s, events).sends
    decreases |events|
  {
    if events != [] {
      SendsGrow(Apply(s, events[0]), events[1..]);
    }
  }

  lemma HolderStep(s: Sys, id: HandlerId, e: Event)
    requires LockInv(s) && id in s.handlers && s.handlers[id].Locked?
    ensures var s' := Apply(s, e);
            if e == Send(id) then s'.sends == s.sends + [s.handlers[id].version]
            else s'.sends == s.sends && id in s'.handlers && s'.handlers[id] == s.handlers[id]
  {
  }

  /** While a handler holds the lock, the next configuration sent is its own. */
  lemma {:induction false} HolderSendsNext(s: Sys, id: HandlerId, events: seq<Event>)
    requires LockInv(s) && id in s.handlers && s.handlers[id].Locked?
    ensures var sends := ApplyAll(s, events).sends;
            |sends| == |s.sends| + 1 ==> sends == s.sends + [s.handlers[id].version]
    decreases |events|
  {
    if events != [] {
      EventKeepsLockInv(s, events[0]);
      HolderStep(s, id, events[0]);
      if events[0] == Send(id) {
        SendsGrow(Apply(s, events[0]), events[1..]);
      } else {
        HolderSendsNext(Apply(s, events[0]), id, events[1..]);
      }
    }
  }

  /**
    Whichever handler sends next after taking the lock, and whatever happens meanwhile: what
    it sends is then the newest of all sent exactly when none newer had been sent when it
    took the lock.
   */
  lemma SendsNewestIff(s: Sys, id: HandlerId, events: seq<Event>)
    requires Inv(s) && MayAcquire(s, id)
    requires |ApplyAll(Apply(s, Acquire(id)), events).sends| == |s.sends| + 1
    ensures NewestLast(ApplyAll(Apply(s, Acquire(id)), events).sends) <==> NoneNewer(s, id)
  {
    EventKeepsLockInv(s, Acquire(id));
    HolderSendsNext(Apply(s, Acquire(id)), id, events);
    NewestLastIff(s.sends, s.handlers[id].version);
  }

  lemma NewestLastIff(sends: seq<Version>, v: Version)
    requires v !in sends
    ensures NewestLast(sends + [v]) <==> forall w :: w in sends ==> w < v
  {
    assert forall w :: w in sends ==> w in sends + [v];
  }

  /** With no handler on its way, the newest of those sent is the newest of all that were not given up. */
  lemma QuietMeansNewestOfAll(s: Sys)
    requires Inv(s) && s.handlers == map[] && s.sends != []
    ensures NewestLast(s.sends) <==> forall v :: LastSent(s) < v < s.parsed ==> v in s.failed
  {
    if forall v :: LastSent(s) < v < s.parsed ==> v in s.failed {
      forall v | v in s.sends ensures v <= LastSent(s) {
      }
    }
    if NewestLast(s.sends) {
      forall v | LastSent(s) < v < s.parsed ensures v in s.failed {
        assert !OnItsWay(s.handlers, v);
      }
    }
  }

  // ---------------------------------------------------------------- two runs that go wrong

  /** What a handler does between taking the lock and leaving, ahead of `rest`. */
  function Publish(id: HandlerId, rest: seq<Event>): seq<Event>
  {
    [Acquire(id)] + ([Send(id)] + ([Install(id)] + rest))
  }

  lemma FirstStep(s: Sys, e: Event, s': Sys, rest: seq<Event>)
    requires Apply(s, e) == s'
    ensures ApplyAll(s, [e] + rest) == ApplyAll(s', rest)
  {
    assert ([e] + rest)[0] == e && ([e] + rest)[1..] == rest;
  }

  lemma Published(s: Sys, id: HandlerId, rest: seq<Event>)
    requires MayAcquire(s, id)
    ensures var v := s.handlers[id].version;
            ApplyAll(s, Publish(id, rest)) ==
            ApplyAll(s.(handlers := s.handlers - {id}, sends := s.sends + [v], watcher := BuiltFrom(v)), rest)
  {
    var v := s.handlers[id].version;
    var s1 := s.(handlers := s.handlers[id := Locked(v)], lock := Some(id));
    var s2 := s1.(handlers := s.handlers[id := Phase.Sent(v)], sends := s.sends + [v]);
    var s3 := s.(handlers := s.handlers - {id}, sends := s.sends + [v], watcher := BuiltFrom(v));
    FirstStep(s, Acquire(id), s1, [Send(id)] + ([Install(id)] + rest));
    FirstStep(s1, Send(id), s2, [Install(id)] + rest);
    FirstStep(s2, Install(id), s3, rest);
  }

  /** A handler reloads before the first watcher is in place, which then replaces the handler's. */
  lemma FirstWatcherCanOverwrite()
    ensures var s := ApplyAll(INITIAL, [Start(0)] + ([Watch(0, true)] + Publish(0, [InstallFirst])));
            s.lock.None? && s.sends == [0] && s.watcher == First && !Matches(s)
  {
    var s1 := INITIAL.(handlers := map[0 := Parsed(0)], parsed := 1);
    var s2 := s1.(handlers := map[0 := Watching(0)]);
    var s3 := s2.(handlers := map[], sends := [0], watcher := BuiltFrom(0));
    FirstStep(INITIAL, Start(0), s1, [Watch(0, true)] + Publish(0, [InstallFirst]));
    FirstStep(s1, Watch(0, true), s2, Publish(0, [InstallFirst]));
    Published(s2, 0, [InstallFirst]);
    FirstStep(s3, InstallFirst, s3.(watcher := First, started := true), []);
    assert [InstallFirst] + [] == [InstallFirst];
  }

  /** Of two handlers that are ready to publish, the one that parsed first can publish last. */
  lemma OlderCanPublishLast(s: Sys, older: HandlerId, newer: HandlerId)
    requires MayAcquire(s, older) && MayAcquire(s, newer)
    requires s.handlers[older].version < s.handlers[newer].version
    ensures var s' := ApplyAll(s, Publish(newer, Publish(older, [])));
            && s'.sends == s.sends + [s.handlers[newer].version, s.handlers[older].version]
            && s'.watcher == BuiltFrom(s.handlers[older].version) && s'.lock.None? && !NewestLast(s'.sends)
  {
    var v, w := s.handlers[older].version, s.handlers[newer].version;
    var s1 := s.(handlers := s.handlers - {newer}, sends := s.sends + [w], watcher := BuiltFrom(w));
    Published(s, newer, Publish(older, []));
    Published(s1, older, []);
    OlderLast(s.sends, w, v);
  }

  lemma OlderLast(sends: seq<Version>, w: Version, v: Version)
    requires v < w
    ensures sends + [w] + [v] == sends + [w, v] && !NewestLast(sends + [w, v])
  {
    var all := sends + [w, v];
    assert all[|sends|] == w && w in all && all[|all| - 1] == v;
  }

  /** Which happens from the start when two files change in a row. */
  lemma StaleConfigurationCanWin()
    ensures var publish := Publish(1, Publish(0, []));
            var watch := [Watch(0, true)] + ([Watch(1, true)] + publish);
            var s := ApplyAll(INITIAL, [Start(0)] + ([Start(1)] + watch));
            s.lock.None? && s.sends == [1, 0] && s.watcher == BuiltFrom(0) && !NewestLast(s.sends)
  {
    var publish := Publish(1, Publish(0, []));
    var watch := [Watch(0, true)] + ([Watch(1, true)] + publish);
    var s1 := INITIAL.(handlers := map[0 := Parsed(0)], parsed := 1);
    var s2 := s1.(handlers := map[0 := Parsed(0), 1 := Parsed(1)], parsed := 2);
    var s3 := s2.(handlers := map[0 := Watching(0), 1 := Parsed(1)]);
    var s4 := s2.(handlers := map[0 := Watching(0), 1 := Watching(1)]);
    FirstStep(INITIAL, Start(0), s1, [Start(1)] + watch);
    FirstStep(s1, Start(1), s2, watch);
    FirstStep(s2, Watch(0, true), s3, [Watch(1, true)] + publish);
    FirstStep(s3, Watch(1, true), s4, publish);
    OlderCanPublishLast(s4, 0, 1);
  }
}
