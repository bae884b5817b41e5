/**
  The moment at which the kernel takes a connection over from the user-space session,
  for every wire stream, chunking and cork moment.
 */
module Handover {
  import opened Octets
  import opened Framing
  import opened ByteSource
  import opened CorkStreams
  import opened TlsSessions

  // ---------------------------------------------------------------- the boundary ahead

  /** The first record boundary at or behind `p`, or the end of the stream if there is none. */
  function NextBoundary(ok: Decoder, wire: seq<Byte>, p: nat): (b: nat)
    requires p <= |wire|
    ensures p <= b <= |wire| && NoBoundaryIn(ok, wire, p, b)
    ensures b == |wire| || AtBoundary(ok, wire, b)
    decreases |wire| - p
  {
    if p == |wire| || AtBoundary(ok, wire, p) then p else NextBoundary(ok, wire, p + 1)
  }

  /** A position from which the bytes that follow can be read on their own. */
  predicate Aligned(ok: Decoder, io: Io)
    requires io.Valid()
  {
    io.pos == |io.wire| || AtBoundary(ok, io.wire, io.pos)
  }

  lemma {:induction false} OneByteCompletesNothing(ok: Decoder, s: seq<Byte>, b: Byte)
    requires Parse(ok, s + [b]) != BOUNDARY
    ensures SplitRecords(ok, s + [b]).records == SplitRecords(ok, s).records
  {
    var rest := SplitRecords(ok, s).rest;
    SplitConcat(ok, s, [b]);
    SplitLosesNothing(ok, s);
    ParserAgreesWithSplitter(ok, s + [b]);
    if HasWholeRecord(ok, rest + [b]) {
      OneByteCompletes(ok, rest, b);
    } else {
      assert SplitRecords(ok, s).records + [] == SplitRecords(ok, s).records;
    }
  }

  lemma OneByteCompletes(ok: Decoder, rest: seq<Byte>, b: Byte)
    requires !HasWholeRecord(ok, rest) && HasWholeRecord(ok, rest + [b])
    ensures SplitRecords(ok, rest + [b]).rest == []
  {
    var s := rest + [b];
    if |rest| >= HEADER_LEN {
      assert s[3..HEADER_LEN] == rest[3..HEADER_LEN];
    }
    assert |s| == HEADER_LEN + PayloadLength(s) && s[|s|..] == [];
  }

  /** Bytes that end no record open no record. */
  lemma {:induction false} NoBoundaryNoRecord(ok: Decoder, wire: seq<Byte>, p: nat, q: nat)
    requires p <= q < |wire| && NoBoundaryIn(ok, wire, p, q + 1)
    ensures SplitRecords(ok, wire[..q]).records == SplitRecords(ok, wire[..p]).records
    decreases q
  {
    if p < q {
      NoBoundaryNoRecord(ok, wire, p, q - 1);
      assert wire[..q] == wire[..q - 1] + [wire[q - 1]];
      assert !AtBoundary(ok, wire, q);
      OneByteCompletesNothing(ok, wire[..q - 1], wire[q - 1]);
    }
  }

  /** What is read up to a point is a prefix of what is read up to a later one. */
  lemma PlainGrows(ok: Decoder, keys: Keys, wire: seq<Byte>, p: nat, q: nat)
    requires p <= q <= |wire|
    ensures PlainOf(ok, keys, wire[..p]) <= PlainOf(ok, keys, wire[..q])
    ensures |SplitRecords(ok, wire[..p]).records| <= |SplitRecords(ok, wire[..q]).records|
  {
    var left := SplitRecords(ok, wire[..p]);
    assert wire[..q] == wire[..p] + wire[p..q];
    SplitConcat(ok, wire[..p], wire[p..q]);
    PlainConcat(keys, 0, left.records, SplitRecords(ok, left.rest + wire[p..q]).records);
  }

  /** Header bytes still held complete no record, so the session has opened all that was pulled. */
  lemma PulledIsOpened(ok: Decoder, t: Tap)
    requires CorkStreams.Inv(ok, t)
    ensures SplitRecords(ok, t.cork.io.Pulled()).records == SplitRecords(ok, t.out).records
  {
    var held := Held(t.cork.state);
    if held == [] {
      assert t.out + held == t.out;
    } else {
      ParserAgreesWithSplitter(ok, t.out);
      SplitConcat(ok, t.out, held);
      assert SplitRecords(ok, t.out).rest == [] && [] + held == held;
      assert SplitRecords(ok, t.out).records + [] == SplitRecords(ok, t.out).records;
    }
  }

  // ---------------------------------------------------------------- handing over to the kernel

  /** What the kernel decrypts from `unread` when its keys are installed with record number `recSeq`. */
  function KernelPlain(ok: Decoder, keys: Keys, recSeq: seq<Byte>, unread: seq<Byte>): seq<Byte>
  {
    Plain(Keys(0, keys.open), FromBigEndian(recSeq), SplitRecords(ok, unread).records)
  }

  /** `taken`, then what the kernel decrypts of the unread bytes, is the plaintext of the whole stream. */
  predicate Seamless(ok: Decoder, keys: Keys, taken: seq<Byte>, recSeq: seq<Byte>, io: Io)
    requires io.Valid()
  {
    taken + KernelPlain(ok, keys, recSeq, io.Unread()) == PlainOf(ok, keys, io.wire)
  }

  /** The kernel starts between two records and nothing is lost, doubled or reordered. */
  predicate Intact(ok: Decoder, keys: Keys, taken: seq<Byte>, recSeq: seq<Byte>, io: Io)
    requires io.Valid()
  {
    Aligned(ok, io) && Seamless(ok, keys, taken, recSeq, io)
  }

  lemma AlignedSplitsTheWire(ok: Decoder, t: Tap)
    requires CorkStreams.Inv(ok, t) && Aligned(ok, t.cork.io)
    ensures SplitRecords(ok, t.cork.io.wire).records ==
            SplitRecords(ok, t.out).records + SplitRecords(ok, t.cork.io.Unread()).records
  {
    var io := t.cork.io;
    PulledIsOpened(ok, t);
    assert io.wire == io.Pulled() + io.Unread();
    if io.pos == |io.wire| {
      assert io.Unread() == [] && io.Pulled() == io.wire;
      assert SplitRecords(ok, t.out).records + [] == SplitRecords(ok, t.out).records;
    } else {
      ParserAgreesWithSplitter(ok, io.Pulled());
      SplitConcat(ok, io.Pulled(), io.Unread());
      assert [] + io.Unread() == io.Unread();
    }
  }

  lemma KernelContinues(ok: Decoder, keys: Keys, t: Tap, recSeq: seq<Byte>)
    requires CorkStreams.Inv(ok, t) && Aligned(ok, t.cork.io)
    requires |SplitRecords(ok, t.out).records| == keys.epoch + FromBigEndian(recSeq)
    ensures PlainOf(ok, keys, t.cork.io.wire) ==
            PlainOf(ok, keys, t.out) + KernelPlain(ok, keys, recSeq, t.cork.io.Unread())
  {
    AlignedSplitsTheWire(ok, t);
    PlainContinues(keys, SplitRecords(ok, t.out).records, SplitRecords(ok, t.cork.io.Unread()).records);
  }

  /** Record numbers under the traffic keys go on where the session left off. */
  lemma PlainContinues(keys: Keys, done: seq<seq<Byte>>, unread: seq<seq<Byte>>)
    requires |done| >= keys.epoch
    ensures Plain(keys, 0, done + unread) ==
            Plain(keys, 0, done) + Plain(Keys(0, keys.open), |done| - keys.epoch, unread)
  {
    PlainConcat(keys, 0, done, unread);
    PlainShift(keys, |done|, unread);
  }

  lemma LeavingOut(a: seq<Byte>, b: seq<Byte>, c: seq<Byte>)
    ensures a + c == a + b + c <==> b == []
  {
    if b == [] {
      assert a + b == a;
    } else {
      assert |a + c| < |a + b + c|;
    }
  }

  /**
    Between two records, what was read, what is left in user space and what the kernel will
    decrypt from the session's next record number on are the plaintext of the whole stream.
   */
  lemma HandoverConserves(ok: Decoder, keys: Keys, s: Session, recSeq: seq<Byte>)
    requires TlsSessions.Inv(ok, keys, s) && Aligned(ok, s.tap.cork.io)
    requires s.recordsOpened == keys.epoch + FromBigEndian(recSeq)
    ensures s.taken + s.plain + KernelPlain(ok, keys, recSeq, s.tap.cork.io.Unread())
         == PlainOf(ok, keys, s.tap.cork.io.wire)
    ensures Seamless(ok, keys, s.taken, recSeq, s.tap.cork.io) <==> s.plain == []
  {
    KernelContinues(ok, keys, s.tap, recSeq);
    LeavingOut(s.taken, s.plain, KernelPlain(ok, keys, recSeq, s.tap.cork.io.Unread()));
  }

  // ---------------------------------------------------------------- from the cork to the handover

  /** `s` is reached from a session that was corked when it had pulled `p` bytes. */
  predicate CorkedAt(ok: Decoder, keys: Keys, s: Session, p: nat) {
    && TlsSessions.Inv(ok, keys, s) && s.tap.cork.corked
    && p <= s.tap.cork.io.pos && NoBoundaryIn(ok, s.tap.cork.io.wire, p, s.tap.cork.io.pos)
  }

  /** The plaintext a session corked after `p` bytes can still hand out, with all it handed out before. */
  function PlainAhead(ok: Decoder, keys: Keys, wire: seq<Byte>, p: nat): seq<Byte>
    requires p <= |wire|
  {
    PlainOf(ok, keys, wire[..NextBoundary(ok, wire, p)])
  }

  lemma EventKeepsCorkedAt(ok: Decoder, keys: Keys, s: Session, e: SessionEvent, p: nat)
    requires CorkedAt(ok, keys, s, p)
    ensures CorkedAt(ok, keys, TlsSessions.Apply(ok, keys, s, e), p)
    ensures TlsSessions.Apply(ok, keys, s, e).tap.cork.io.wire == s.tap.cork.io.wire
  {
    EventKeepsInv(ok, keys, s, e);
    if e.PollIo? && RoomFor(ok, s.tap.cork, e.room) {
      PollIsGood(ok, s.tap.cork, s.tap.out, e.room);
    }
  }

  lemma {:induction false} RunKeepsCorkedAt(ok: Decoder, keys: Keys, s: Session, events: seq<SessionEvent>, p: nat)
    requires CorkedAt(ok, keys, s, p)
    ensures CorkedAt(ok, keys, TlsSessions.ApplyAll(ok, keys, s, events), p)
    ensures TlsSessions.ApplyAll(ok, keys, s, events).tap.cork.io.wire == s.tap.cork.io.wire
    decreases |events|
  {
    if events != [] {
      EventKeepsCorkedAt(ok, keys, s, events[0], p);
      RunKeepsCorkedAt(ok, keys, TlsSessions.Apply(ok, keys, s, events[0]), events[1..], p);
    }
  }

  /**
    A corked session never gets past the boundary ahead, so all it hands out or holds is a
    prefix of the plaintext before it; it is aligned exactly when it has reached it, and
    short of it, it has opened nothing since it was corked.
   */
  lemma CorkedStaysBefore(ok: Decoder, keys: Keys, s: Session, p: nat)
    requires CorkedAt(ok, keys, s, p)
    ensures var io := s.tap.cork.io;
            var b := NextBoundary(ok, io.wire, p);
            && io.pos <= b && (Aligned(ok, io) <==> io.pos == b)
            && s.taken + s.plain <= PlainAhead(ok, keys, io.wire, p)
            && (s.taken + s.plain == if io.pos == b then PlainAhead(ok, keys, io.wire, p)
                                     else PlainOf(ok, keys, io.wire[..p]))
            && (AtRest(s.tap.cork) ==> io.pos == b)
  {
    var io := s.tap.cork.io;
    var b := NextBoundary(ok, io.wire, p);
    assert io.pos <= b;
    PulledIsOpened(ok, s.tap);
    PlainGrows(ok, keys, io.wire, io.pos, b);
    if io.pos < b {
      NoBoundaryNoRecord(ok, io.wire, p, io.pos);
    }
  }

  /** A corked session hands over intact exactly when it got to the boundary and its plaintext is all taken. */
  lemma IntactIff(ok: Decoder, keys: Keys, s: Session, p: nat, recSeq: seq<Byte>)
    requires CorkedAt(ok, keys, s, p) && s.recordsOpened == keys.epoch + FromBigEndian(recSeq)
    ensures var io := s.tap.cork.io;
            Intact(ok, keys, s.taken, recSeq, io) <==>
            io.pos == NextBoundary(ok, io.wire, p) && s.taken == PlainAhead(ok, keys, io.wire, p)
  {
    CorkedStaysBefore(ok, keys, s, p);
    if Aligned(ok, s.tap.cork.io) {
      HandoverConserves(ok, keys, s, recSeq);
      LeavingOut(s.taken, s.plain, []);
      assert s.taken + [] == s.taken && s.taken + s.plain + [] == s.taken + s.plain;
    }
  }

  /**
    For every wire stream and schedule, every run before the cork is set and every run after
    it: what the session hands out is a prefix of the plaintext before the boundary that was
    ahead at that moment, and handing over then is intact exactly when that boundary is
    reached and all that plaintext was taken.
   */
  lemma EveryRunHandsOverIntactIff(ok: Decoder, keys: Keys, wire: seq<Byte>, turns: seq<Turn>,
                                   before: seq<SessionEvent>, after: seq<SessionEvent>, recSeq: seq<Byte>)
    ensures var s0 := TlsSessions.ApplyAll(ok, keys, NewSession(Io(wire, 0, turns)), before);
            var s := TlsSessions.ApplyAll(ok, keys, TlsSessions.Apply(ok, keys, s0, PutCork), after);
            && s0.tap.cork.io.wire == s.tap.cork.io.wire == wire
            && s.taken <= PlainAhead(ok, keys, wire, s0.tap.cork.io.pos)
            && (s.recordsOpened == keys.epoch + FromBigEndian(recSeq) ==>
                  (Intact(ok, keys, s.taken, recSeq, s.tap.cork.io) <==>
                   && s.tap.cork.io.pos == NextBoundary(ok, wire, s0.tap.cork.io.pos)
                   && s.taken == PlainAhead(ok, keys, wire, s0.tap.cork.io.pos)))
  {
    var s0 := NewSession(Io(wire, 0, turns));
    NewSatisfiesInv(ok, keys, wire, turns);
    TlsSessions.RunKeepsInv(ok, keys, s0, before);
    s0 := TlsSessions.ApplyAll(ok, keys, s0, before);
    var p := s0.tap.cork.io.pos;
    EventKeepsInv(ok, keys, s0, PutCork);
    var s := TlsSessions.Apply(ok, keys, s0, PutCork);
    RunKeepsCorkedAt(ok, keys, s, after, p);
    s := TlsSessions.ApplyAll(ok, keys, s, after);
    CorkedStaysBefore(ok, keys, s, p);
    assert s.taken <= s.taken + s.plain;
    if s.recordsOpened == keys.epoch + FromBigEndian(recSeq) {
      IntactIff(ok, keys, s, p, recSeq);
    }
  }
}
