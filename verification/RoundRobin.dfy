/** Round-robin choice of a backend through a shared counter that wraps. */
module RoundRobin {
  /** The counter's value after `k` more picks; `wrap` is two to the width of the counter. */
  function Ticket(start: nat, k: nat, wrap: nat): nat
    requires wrap > 0
  {
    (start + k) % wrap
  }

  /** A counter shared by every connection that uses a rule. */
  class Strategy {
    const wrap: nat
    var ix: nat

    ghost predicate Valid()
      reads this
    {
      0 < wrap && ix < wrap
    }

    constructor (wrap: nat)
      requires wrap > 0
      ensures Valid() && this.wrap == wrap && ix == 0
    {
      this.wrap := wrap;
      ix := 0;
    }

    /** Takes the counter's value and advances it in one atomic step, then indexes the backends. */
    method PickBackend(backends: seq<nat>) returns (backend: nat)
      requires Valid() && backends != []
      modifies this
      ensures Valid() && ix == Ticket(old(ix), 1, wrap)
      ensures backend == backends[old(ix) % |backends|]
    {
      var ticket := ix;
      ix := (ix + 1) % wrap;
      backend := backends[ticket % |backends|];
    }
  }

  // ---------------------------------------------------------------- interleaved callers

  /** A caller takes a ticket, and at some later step indexes the backends with it. */
  datatype Event = Take(caller: nat) | Index(caller: nat)

  /**
    `tickets` are those taken so far, in order; `held` gives the position of a ticket taken
    and not yet used, `served` the backend chosen for a position.
   */
  datatype Sys = Sys(ix: nat, tickets: seq<nat>, held: map<nat, nat>, served: map<nat, nat>)

  function Apply(s: Sys, e: Event, wrap: nat, n: nat): Sys
    requires wrap > 0 && n > 0
  {
    match e
    case Take(caller) =>
      if caller in s.held then s
      else Sys((s.ix + 1) % wrap, s.tickets + [s.ix], s.held[caller := |s.tickets|], s.served)
    case Index(caller) =>
      if caller !in s.held || s.held[caller] >= |s.tickets| then s
      else
        var k := s.held[caller];
        s.(held := s.held - {caller}, served := s.served[k := s.tickets[k] % n])
  }

  function ApplyAll(s: Sys, events: seq<Event>, wrap: nat, n: nat): Sys
    requires wrap > 0 && n > 0
    decreases |events|
  {
    if events == [] then s else ApplyAll(Apply(s, events[0], wrap, n), events[1..], wrap, n)
  }

  predicate InOrder(s: Sys, start: nat, wrap: nat, n: nat)
    requires wrap > 0 && n > 0
  {
    && s.ix == Ticket(start, |s.tickets|, wrap)
    && (forall k :: 0 <= k < |s.tickets| ==> s.tickets[k] == Ticket(start, k, wrap))
    && (forall k :: k in s.served ==> k < |s.tickets| && s.served[k] == s.tickets[k] % n)
    && (forall caller :: caller in s.held ==> s.held[caller] < |s.tickets|)
    && (forall k :: 0 <= k < |s.tickets| ==> k in s.served || HeldBySome(s.held, k))
  }

  predicate HeldBySome(held: map<nat, nat>, k: nat) {
    exists caller :: caller in held && held[caller] == k
  }

  /** A ticket that its holder has not just used is still held. */
  lemma StillHeld(held: map<nat, nat>, held': map<nat, nat>, k: nat, used: nat)
    requires HeldBySome(held, k) && k != used
    requires forall caller :: caller in held && held[caller] != used ==>
               caller in held' && held'[caller] == held[caller]
    ensures HeldBySome(held', k)
  {
    var caller :| caller in held && held[caller] == k;
    assert caller in held' && held'[caller] == k;
  }

  lemma TakeIsInOrder(s: Sys, caller: nat, start: nat, wrap: nat, n: nat)
    requires wrap > 0 && n > 0 && InOrder(s, start, wrap, n)
    ensures InOrder(Apply(s, Take(caller), wrap, n), start, wrap, n)
  {
    NextTicket(start, |s.tickets|, wrap);
    if caller !in s.held {
      var s' := Apply(s, Take(caller), wrap, n);
      forall k | 0 <= k < |s'.tickets| ensures k in s'.served || HeldBySome(s'.held, k) {
        if k == |s.tickets| {
          assert s'.held[caller] == k;
        } else if k !in s.served {
          StillHeld(s.held, s'.held, k, |s.tickets|);
        }
      }
    }
  }

  lemma IndexIsInOrder(s: Sys, caller: nat, start: nat, wrap: nat, n: nat)
    requires wrap > 0 && n > 0 && InOrder(s, start, wrap, n)
    ensures InOrder(Apply(s, Index(caller), wrap, n), start, wrap, n)
  {
    if caller in s.held {
      var s' := Apply(s, Index(caller), wrap, n);
      forall k | 0 <= k < |s'.tickets| ensures k in s'.served || HeldBySome(s'.held, k) {
        if k != s.held[caller] && k !in s.served {
          StillHeld(s.held, s'.held, k, s.held[caller]);
        }
      }
    }
  }

  lemma NextTicket(start: nat, k: nat, wrap: nat)
    requires wrap > 0
    ensures (Ticket(start, k, wrap) + 1) % wrap == Ticket(start, k + 1, wrap)
  {
    var t, q := (start + k) % wrap, (start + k) / wrap;
    assert start + k == q * wrap + t;
    if t + 1 < wrap {
      Remainder(start + k + 1, q, t + 1, wrap);
      Remainder(t + 1, 0, t + 1, wrap);
    } else {
      Remainder(start + k + 1, q + 1, 0, wrap);
      Remainder(t + 1, 1, 0, wrap);
    }
  }

  lemma LargerQuotient(q1: int, q2: int, m: nat)
    requires q1 < q2
    ensures q1 * m + m <= q2 * m
  {
    var k := q2 - q1 - 1;
    assert k * m >= 0;
    assert q2 * m == q1 * m + m + k * m by {
      assert q2 == q1 + 1 + k;
    }
  }

  lemma QuotientIsUnique(q1: int, r1: nat, q2: int, r2: nat, m: nat)
    requires r1 < m && r2 < m && q1 * m + r1 == q2 * m + r2
    ensures q1 == q2 && r1 == r2
  {
    if q1 < q2 {
      LargerQuotient(q1, q2, m);
    } else if q2 < q1 {
      LargerQuotient(q2, q1, m);
    }
  }

  lemma Remainder(x: nat, q: nat, r: nat, m: nat)
    requires r < m && x == q * m + r
    ensures x % m == r
  {
    var q', r' := x / m, x % m;
    assert x == q' * m + r';
    QuotientIsUnique(q', r', q, r, m);
  }

  /** However the callers interleave, the `k`-th ticket is the counter's `k`-th value and decides the backend. */
  lemma {:induction false} TicketsAreInOrder(s: Sys, events: seq<Event>, start: nat, wrap: nat, n: nat)
    requires wrap > 0 && n > 0 && InOrder(s, start, wrap, n)
    ensures InOrder(ApplyAll(s, events, wrap, n), start, wrap, n)
    decreases |events|
  {
    if events != [] {
      match events[0] {
        case Take(caller) => TakeIsInOrder(s, caller, start, wrap, n);
        case Index(caller) => IndexIsInOrder(s, caller, start, wrap, n);
      }
      TicketsAreInOrder(Apply(s, events[0], wrap, n), events[1..], start, wrap, n);
    }
  }

  predicate NotBy(events: seq<Event>, caller: nat) {
    forall e :: e in events ==> e.caller != caller
  }

  /** What a caller holds and what was served before stay as they are while others take and index. */
  lemma {:induction false} OthersLeaveAlone(s: Sys, events: seq<Event>, caller: nat, wrap: nat, n: nat)
    requires wrap > 0 && n > 0 && NotBy(events, caller)
    ensures var s' := ApplyAll(s, events, wrap, n);
            && (caller in s'.held <==> caller in s.held) && (caller in s.held ==> s'.held[caller] == s.held[caller])
            && s.tickets <= s'.tickets
    decreases |events|
  {
    if events != [] {
      OthersLeaveAlone(Apply(s, events[0], wrap, n), events[1..], caller, wrap, n);
    }
  }

  /**
    Whatever other callers do between its two steps, a caller gets the backend that the
    counter stood for when it took its ticket, and the counter has moved on by one.
   */
  lemma CallerIsServed(s: Sys, caller: nat, others: seq<Event>, wrap: nat, n: nat)
    requires wrap > 0 && n > 0 && caller !in s.held && NotBy(others, caller)
    ensures var taken := Apply(s, Take(caller), wrap, n);
            var s' := Apply(ApplyAll(taken, others, wrap, n), Index(caller), wrap, n);
            && taken.ix == (s.ix + 1) % wrap && taken.tickets == s.tickets + [s.ix]
            && caller !in s'.held && |s.tickets| in s'.served && s'.served[|s.tickets|] == s.ix % n
  {
    var taken := Apply(s, Take(caller), wrap, n);
    OthersLeaveAlone(taken, others, caller, wrap, n);
    var s' := ApplyAll(taken, others, wrap, n);
    assert s'.tickets[|s.tickets|] == taken.tickets[|s.tickets|] == s.ix;
  }

  // ---------------------------------------------------------------- fairness

  /** How many of the `len` consecutive numbers from `from` leave remainder `b` modulo `n`. */
  function Hits(from: nat, len: nat, n: nat, b: nat): nat
    requires n > 0
    decreases len
  {
    if len == 0 then 0 else (if from % n == b then 1 else 0) + Hits(from + 1, len - 1, n, b)
  }

  /** How many of `len` picks choose backend `b` of `n`, the counter standing at `start` before them. */
  function Picks(start: nat, len: nat, wrap: nat, n: nat, b: nat): nat
    requires wrap > 0 && n > 0
    decreases len
  {
    if len == 0 then 0 else (if start % wrap % n == b then 1 else 0) + Picks(start + 1, len - 1, wrap, n, b)
  }

  lemma {:induction false} HitsSplit(from: nat, len1: nat, len2: nat, n: nat, b: nat)
    requires n > 0
    ensures Hits(from, len1 + len2, n, b) == Hits(from, len1, n, b) + Hits(from + len1, len2, n, b)
    decreases len1
  {
    if len1 > 0 {
      HitsSplit(from + 1, len1 - 1, len2, n, b);
    }
  }

  /** Where in a window of at most `n` numbers starting at remainder `r` the remainder `b` comes up. */
  lemma {:induction false} HitsInOneRound(from: nat, len: nat, n: nat, b: nat)
    requires n > 0 && b < n && len <= n
    ensures var r := from % n;
            var distance := if r <= b then b - r else b + n - r;
            Hits(from, len, n, b) == if distance < len then 1 else 0
    decreases len
  {
    if len > 0 {
      NextRemainder(from, n);
      HitsInOneRound(from + 1, len - 1, n, b);
    }
  }

  lemma NextRemainder(x: nat, n: nat)
    requires n > 0
    ensures (x + 1) % n == if x % n + 1 == n then 0 else x % n + 1
  {
    var r, q := x % n, x / n;
    assert x == q * n + r;
    if r + 1 == n {
      assert (q + 1) * n == q * n + n;
      Remainder(x + 1, q + 1, 0, n);
    } else {
      Remainder(x + 1, q, r + 1, n);
    }
  }

  /** Whole rounds of `n` in a window of `len`. */
  function Rounds(len: nat, n: nat): nat
    requires n > 0
  {
    if len < n then 0 else 1 + Rounds(len - n, n)
  }

  /** A window of consecutive numbers holds each remainder once per whole round, or once more. */
  lemma {:induction false} HitsAreEven(from: nat, len: nat, n: nat, b: nat)
    requires n > 0 && b < n
    ensures Rounds(len, n) <= Hits(from, len, n, b) <= Rounds(len, n) + 1
    decreases len
  {
    if len < n {
      HitsInOneRound(from, len, n, b);
    } else {
      HitsSplit(from, n, len - n, n, b);
      HitsInOneRound(from, n, n, b);
      HitsAreEven(from + n, len - n, n, b);
    }
  }

  lemma {:induction false} PicksWithoutWrap(start: nat, len: nat, wrap: nat, n: nat, b: nat)
    requires wrap > 0 && n > 0 && start + len <= wrap
    ensures Picks(start, len, wrap, n, b) == Hits(start, len, n, b)
    decreases len
  {
    if len > 0 {
      Remainder(start, 0, start, wrap);
      PicksWithoutWrap(start + 1, len - 1, wrap, n, b);
    }
  }

  lemma {:induction false} PicksAfterWrap(start: nat, len: nat, wrap: nat, n: nat, b: nat)
    requires wrap > 0 && n > 0 && start + len <= wrap
    ensures Picks(wrap + start, len, wrap, n, b) == Hits(start, len, n, b)
    decreases len
  {
    if len > 0 {
      Remainder(wrap + start, 1, start, wrap);
      PicksAfterWrap(start + 1, len - 1, wrap, n, b);
    }
  }

  lemma {:induction false} PicksSplit(start: nat, len1: nat, len2: nat, wrap: nat, n: nat, b: nat)
    requires wrap > 0 && n > 0
    ensures Picks(start, len1 + len2, wrap, n, b)
         == Picks(start, len1, wrap, n, b) + Picks(start + len1, len2, wrap, n, b)
    decreases len1
  {
    if len1 > 0 {
      PicksSplit(start + 1, len1 - 1, len2, wrap, n, b);
    }
  }

  /** Over any window in which the counter does not wrap, backend counts differ by at most one. */
  lemma FairWithoutWrap(start: nat, len: nat, wrap: nat, n: nat, b: nat, c: nat)
    requires wrap > 0 && b < n && c < n && start + len <= wrap
    ensures -1 <= Picks(start, len, wrap, n, b) - Picks(start, len, wrap, n, c) <= 1
  {
    PicksWithoutWrap(start, len, wrap, n, b);
    PicksWithoutWrap(start, len, wrap, n, c);
    HitsAreEven(start, len, n, b);
    HitsAreEven(start, len, n, c);
  }

  /** Over any window in which it wraps once, they differ by at most two. */
  lemma FairAcrossOneWrap(start: nat, len: nat, wrap: nat, n: nat, b: nat, c: nat)
    requires b < n && c < n && start < wrap && wrap < start + len <= 2 * wrap
    ensures -2 <= Picks(start, len, wrap, n, b) - Picks(start, len, wrap, n, c) <= 2
  {
    var len1 := wrap - start;
    var len2 := len - len1;
    SplitAtWrap(start, len1, len2, wrap, n, b);
    SplitAtWrap(start, len1, len2, wrap, n, c);
    HitsAreEven(start, len1, n, b);
    HitsAreEven(start, len1, n, c);
    HitsAreEven(0, len2, n, b);
    HitsAreEven(0, len2, n, c);
  }

  lemma SplitAtWrap(start: nat, len1: nat, len2: nat, wrap: nat, n: nat, b: nat)
    requires wrap > 0 && n > 0 && start + len1 == wrap && len2 <= wrap
    ensures Picks(start, len1 + len2, wrap, n, b) == Hits(start, len1, n, b) + Hits(0, len2, n, b)
  {
    PicksSplit(start, len1, len2, wrap, n, b);
    PicksWithoutWrap(start, len1, wrap, n, b);
    PicksAfterWrap(0, len2, wrap, n, b);
  }

  lemma Regroup(q: nat, rounds: nat, q': nat, n: nat)
    ensures q * (rounds * n) + q' * n == (q * rounds + q') * n
  {
    assert q * (rounds * n) == (q * rounds) * n;
  }

  lemma WrapKeepsRemainder(x: nat, rounds: nat, n: nat)
    requires n > 0 && rounds > 0
    ensures rounds * n > 0 && x % (rounds * n) % n == x % n
  {
    var wrap := rounds * n;
    assert wrap >= 1 * n;
    WrapRemainder(x, x / wrap, x % wrap, rounds, n);
  }

  lemma WrapRemainder(x: nat, q: nat, r: nat, rounds: nat, n: nat)
    requires n > 0 && x == q * (rounds * n) + r
    ensures r % n == x % n
  {
    var q', r' := r / n, r % n;
    assert r == q' * n + r';
    Regroup(q, rounds, q', n);
    Remainder(x, q * rounds + q', r', n);
  }

  lemma {:induction false} PicksWhenDividing(start: nat, len: nat, rounds: nat, n: nat, b: nat)
    requires n > 0 && rounds > 0
    ensures rounds * n > 0 && Picks(start, len, rounds * n, n, b) == Hits(start, len, n, b)
    decreases len
  {
    WrapKeepsRemainder(start, rounds, n);
    if len > 0 {
      PicksWhenDividing(start + 1, len - 1, rounds, n, b);
    }
  }

  /** When the number of backends divides the counter's range, wraps do not show at all. */
  lemma FairWhenDividing(start: nat, len: nat, rounds: nat, n: nat, b: nat, c: nat)
    requires b < n && c < n && rounds > 0
    ensures rounds * n > 0
    ensures -1 <= Picks(start, len, rounds * n, n, b) - Picks(start, len, rounds * n, n, c) <= 1
  {
    PicksWhenDividing(start, len, rounds, n, b);
    PicksWhenDividing(start, len, rounds, n, c);
    HitsAreEven(start, len, n, b);
    HitsAreEven(start, len, n, c);
  }

  /** The bound of two is reached: three backends on a counter of eight values. */
  lemma TwoIsReached()
    ensures Picks(6, 4, 8, 3, 0) == 2 && Picks(6, 4, 8, 3, 2) == 0
  {
    assert Picks(10, 0, 8, 3, 0) == 0 && Picks(9, 1, 8, 3, 0) == 0 && Picks(8, 2, 8, 3, 0) == 1;
    assert Picks(7, 3, 8, 3, 0) == 1;
    assert Picks(10, 0, 8, 3, 2) == 0 && Picks(9, 1, 8, 3, 2) == 0 && Picks(8, 2, 8, 3, 2) == 0;
    assert Picks(7, 3, 8, 3, 2) == 0;
  }

  // ---------------------------------------------------------------- every interleaving

  /** How many of the tickets choose backend `b`. */
  function Count(tickets: seq<nat>, n: nat, b: nat): nat
    requires n > 0
  {
    if tickets == [] then 0 else (if tickets[0] % n == b then 1 else 0) + Count(tickets[1..], n, b)
  }

  lemma {:induction false} WindowIsPicks(tickets: seq<nat>, start: nat, wrap: nat, n: nat, b: nat)
    requires wrap > 0 && n > 0
    requires forall k :: 0 <= k < |tickets| ==> tickets[k] == Ticket(start, k, wrap)
    ensures Count(tickets, n, b) == Picks(start, |tickets|, wrap, n, b)
    decreases |tickets|
  {
    if tickets != [] {
      assert tickets[0] == Ticket(start, 0, wrap);
      forall k | 0 <= k < |tickets[1..]| ensures tickets[1..][k] == Ticket(start + 1, k, wrap) {
        assert tickets[k + 1] == Ticket(start, k + 1, wrap);
      }
      WindowIsPicks(tickets[1..], start + 1, wrap, n, b);
    }
  }

  lemma {:induction false} PicksFromRemainder(start: nat, len: nat, wrap: nat, n: nat, b: nat)
    requires wrap > 0 && n > 0
    ensures Picks(start, len, wrap, n, b) == Picks(start % wrap, len, wrap, n, b)
    decreases len
  {
    if len > 0 {
      var r := start % wrap;
      Remainder(r, 0, r, wrap);
      NextRemainder(start, wrap);
      PicksFromRemainder(start + 1, len - 1, wrap, n, b);
      PicksFromRemainder(r + 1, len - 1, wrap, n, b);
      NextRemainder(r, wrap);
    }
  }

  /**
    The bounds for a window of `len` picks with the counter at `first` before it: one if the
    counter does not wrap inside or the number of backends divides its range, two if it wraps once.
   */
  predicate WithinBounds(gap: int, first: nat, len: nat, wrap: nat, n: nat, slack: nat)
    requires n > 0
  {
    && (first + len <= wrap || wrap % n == 0 ==> -1 - slack <= gap <= 1 + slack)
    && (first + len <= 2 * wrap ==> -2 - slack <= gap <= 2 + slack)
  }

  lemma PicksAreWithinBounds(start: nat, len: nat, wrap: nat, n: nat, b: nat, c: nat)
    requires wrap > 0 && b < n && c < n
    ensures WithinBounds(Picks(start, len, wrap, n, b) - Picks(start, len, wrap, n, c), start % wrap, len, wrap, n, 0)
  {
    var first := start % wrap;
    PicksFromRemainder(start, len, wrap, n, b);
    PicksFromRemainder(start, len, wrap, n, c);
    FirstIsWithinBounds(first, len, wrap, n, b, c);
  }

  lemma FirstIsWithinBounds(first: nat, len: nat, wrap: nat, n: nat, b: nat, c: nat)
    requires first < wrap && b < n && c < n
    ensures WithinBounds(Picks(first, len, wrap, n, b) - Picks(first, len, wrap, n, c), first, len, wrap, n, 0)
  {
    if first + len <= wrap {
      FairWithoutWrap(first, len, wrap, n, b, c);
    } else if first + len <= 2 * wrap {
      FairAcrossOneWrap(first, len, wrap, n, b, c);
    }
    if wrap % n == 0 {
      FairOnMultiples(first, len, wrap, n, b, c);
    }
  }

  lemma FairOnMultiples(first: nat, len: nat, wrap: nat, n: nat, b: nat, c: nat)
    requires wrap > 0 && b < n && c < n && wrap % n == 0
    ensures -1 <= Picks(first, len, wrap, n, b) - Picks(first, len, wrap, n, c) <= 1
  {
    var rounds := wrap / n;
    assert wrap == rounds * n;
    FairWhenDividing(first, len, rounds, n, b, c);
  }

  /** How many picks of the positions from `lo` to `hi` have been made, and chose backend `b`. */
  function ServedCount(served: map<nat, nat>, lo: nat, hi: nat, b: nat): nat
    requires lo <= hi
    decreases hi - lo
  {
    if lo == hi then 0
    else (if lo in served && served[lo] == b then 1 else 0) + ServedCount(served, lo + 1, hi, b)
  }

  /** How many tickets of those positions have been taken and not used yet. */
  function Outstanding(served: map<nat, nat>, lo: nat, hi: nat): nat
    requires lo <= hi
    decreases hi - lo
  {
    if lo == hi then 0 else (if lo in served then 0 else 1) + Outstanding(served, lo + 1, hi)
  }

  /** A backend has served its tickets, but for those outstanding. */
  lemma {:induction false} ServedFollowsTickets(s: Sys, lo: nat, hi: nat, n: nat, b: nat)
    requires n > 0 && lo <= hi <= |s.tickets|
    requires forall k :: k in s.served ==> k < |s.tickets| && s.served[k] == s.tickets[k] % n
    ensures ServedCount(s.served, lo, hi, b) <= Count(s.tickets[lo..hi], n, b)
                                             <= ServedCount(s.served, lo, hi, b) + Outstanding(s.served, lo, hi)
    decreases hi - lo
  {
    if lo < hi {
      assert s.tickets[lo..hi][1..] == s.tickets[lo + 1..hi];
      ServedFollowsTickets(s, lo + 1, hi, n, b);
    }
  }

  lemma {:induction false} NoneOutstanding(s: Sys, lo: nat, hi: nat, start: nat, wrap: nat, n: nat)
    requires wrap > 0 && n > 0 && InOrder(s, start, wrap, n) && s.held == map[] && lo <= hi <= |s.tickets|
    ensures Outstanding(s.served, lo, hi) == 0
    decreases hi - lo
  {
    if lo < hi {
      assert lo in s.served;
      NoneOutstanding(s, lo + 1, hi, start, wrap, n);
    }
  }

  /**
    For every interleaving of callers and every window of consecutive tickets in it: the
    backends that were chosen with them, and already served, are within the bounds of each
    other up to one for each ticket outstanding; none is outstanding once no caller holds one.
   */
  lemma FairUnderInterleaving(events: seq<Event>, start: nat, wrap: nat, n: nat, lo: nat, hi: nat, b: nat, c: nat)
    requires start < wrap && b < n && c < n
    requires lo <= hi <= |ApplyAll(Sys(start, [], map[], map[]), events, wrap, n).tickets|
    ensures var s := ApplyAll(Sys(start, [], map[], map[]), events, wrap, n);
            var first, len := Ticket(start, lo, wrap), hi - lo;
            var out := Outstanding(s.served, lo, hi);
            && WithinBounds(Count(s.tickets[lo..hi], n, b) - Count(s.tickets[lo..hi], n, c), first, len, wrap, n, 0)
            && WithinBounds(ServedCount(s.served, lo, hi, b) - ServedCount(s.served, lo, hi, c),
                            first, len, wrap, n, out)
            && (s.held == map[] ==> out == 0)
  {
    var s := ApplyAll(Sys(start, [], map[], map[]), events, wrap, n);
    Remainder(start, 0, start, wrap);
    TicketsAreInOrder(Sys(start, [], map[], map[]), events, start, wrap, n);
    WindowIsWithinBounds(s.tickets, start, lo, hi, wrap, n, b, c);
    ServedFollowsTickets(s, lo, hi, n, b);
    ServedFollowsTickets(s, lo, hi, n, c);
    if s.held == map[] {
      NoneOutstanding(s, lo, hi, start, wrap, n);
    }
  }

  lemma WindowIsWithinBounds(tickets: seq<nat>, start: nat, lo: nat, hi: nat, wrap: nat, n: nat, b: nat, c: nat)
    requires wrap > 0 && b < n && c < n && lo <= hi <= |tickets|
    requires forall k :: 0 <= k < |tickets| ==> tickets[k] == Ticket(start, k, wrap)
    ensures WithinBounds(Count(tickets[lo..hi], n, b) - Count(tickets[lo..hi], n, c),
                         Ticket(start, lo, wrap), hi - lo, wrap, n, 0)
  {
    var window := tickets[lo..hi];
    forall k | 0 <= k < |window| ensures window[k] == Ticket(start + lo, k, wrap) {
      assert tickets[lo + k] == Ticket(start, lo + k, wrap);
    }
    WindowIsPicks(window, start + lo, wrap, n, b);
    WindowIsPicks(window, start + lo, wrap, n, c);
    PicksAreWithinBounds(start + lo, hi - lo, wrap, n, b, c);
  }

  // ---------------------------------------------------------------- one caller after another

  predicate Distinct(backends: seq<nat>) {
    forall i, j :: 0 <= i < j < |backends| ==> backends[i] != backends[j]
  }

  /** The picks that come of given tickets. */
  function Chosen(backends: seq<nat>, tickets: seq<nat>): seq<nat>
    requires backends != []
  {
    seq(|tickets|, k requires 0 <= k < |tickets| => backends[tickets[k] % |backends|])
  }

  function Occurrences(picks: seq<nat>, backend: nat): nat
  {
    if picks == [] then 0 else (if picks[0] == backend then 1 else 0) + Occurrences(picks[1..], backend)
  }

  lemma {:induction false} ChosenCounts(backends: seq<nat>, tickets: seq<nat>, b: nat)
    requires Distinct(backends) && b < |backends|
    ensures Occurrences(Chosen(backends, tickets), backends[b]) == Count(tickets, |backends|, b)
    decreases |tickets|
  {
    if tickets != [] {
      assert Chosen(backends, tickets)[1..] == Chosen(backends, tickets[1..]);
      ChosenCounts(backends, tickets[1..], b);
    }
  }

  /** Every two of the backends were picked equally often, within the bounds. */
  predicate EvenlyPicked(picks: seq<nat>, backends: seq<nat>, first: nat, wrap: nat)
    requires backends != []
  {
    forall b, c :: 0 <= b < |backends| && 0 <= c < |backends| ==>
      WithinBounds(Occurrences(picks, backends[b]) - Occurrences(picks, backends[c]),
                   first, |picks|, wrap, |backends|, 0)
  }

  lemma ChosenEvenly(backends: seq<nat>, tickets: seq<nat>, start: nat, wrap: nat)
    requires wrap > 0 && start < wrap && backends != [] && Distinct(backends)
    requires forall k :: 0 <= k < |tickets| ==> tickets[k] == Ticket(start, k, wrap)
    ensures EvenlyPicked(Chosen(backends, tickets), backends, start, wrap)
  {
    Remainder(start, 0, start, wrap);
    forall b, c | 0 <= b < |backends| && 0 <= c < |backends|
      ensures WithinBounds(Occurrences(Chosen(backends, tickets), backends[b])
                           - Occurrences(Chosen(backends, tickets), backends[c]),
                           start, |tickets|, wrap, |backends|, 0)
    {
      ChosenCounts(backends, tickets, b);
      ChosenCounts(backends, tickets, c);
      assert tickets[0..|tickets|] == tickets;
      WindowIsWithinBounds(tickets, start, 0, |tickets|, wrap, |backends|, b, c);
    }
  }

  /** One pick for each of `count` connections that come one after another. */
  method PickForEach(strategy: Strategy, backends: seq<nat>, count: nat) returns (picks: seq<nat>)
    requires strategy.Valid() && backends != []
    modifies strategy
    ensures strategy.Valid() && strategy.ix == Ticket(old(strategy.ix), count, strategy.wrap)
    ensures |picks| == count
    ensures forall k :: 0 <= k < count ==>
              picks[k] == backends[Ticket(old(strategy.ix), k, strategy.wrap) % |backends|]
    ensures Distinct(backends) ==> EvenlyPicked(picks, backends, old(strategy.ix), strategy.wrap)
  {
    picks := [];
    ghost var start, wrap, tickets := strategy.ix, strategy.wrap, [];
    Remainder(start, 0, start, wrap);
    for i := 0 to count
      invariant strategy.Valid() && strategy.ix == Ticket(start, i, wrap)
      invariant |tickets| == i && picks == Chosen(backends, tickets)
      invariant forall k :: 0 <= k < i ==> tickets[k] == Ticket(start, k, wrap)
    {
      tickets := tickets + [strategy.ix];
      NextTicket(start, i, wrap);
      Remainder(strategy.ix, 0, strategy.ix, wrap);
      var backend := strategy.PickBackend(backends);
      picks := picks + [backend];
    }
    if Distinct(backends) {
      ChosenEvenly(backends, tickets, start, wrap);
    }
  }
}
