/**
  The user-space TLS session that reads through a corked stream. The session is
  abstract: it cuts what it is fed into whole records and opens record number `n` with
  a given function, which stands for decryption under sequence number `n`.
 */
module TlsSessions {
  import opened Octets
  import opened Framing
  import opened ByteSource
  import opened CorkStreams

  /** The application bytes of a record opened under a given sequence number. */
  type Opener = (nat, seq<Byte>) -> seq<Byte>

  /**
    The first `epoch` records are the handshake's and carry no application bytes. Record
    sequence numbers start again from zero when the traffic keys come into use.
   */
  datatype Keys = Keys(epoch: nat, open: Opener) {
    function Open(n: nat, record: seq<Byte>): seq<Byte> {
      if n < epoch then [] else open(n - epoch, record)
    }
  }

  /** The application bytes of consecutive records, the first of them number `n`. */
  function Plain(keys: Keys, n: nat, records: seq<seq<Byte>>): seq<Byte>
    decreases |records|
  {
    if records == [] then [] else keys.Open(n, records[0]) + Plain(keys, n + 1, records[1..])
  }

  /** The application bytes of a whole byte stream. */
  function PlainOf(ok: Decoder, keys: Keys, wire: seq<Byte>): seq<Byte>
  {
    Plain(keys, 0, SplitRecords(ok, wire).records)
  }

  lemma {:induction false} PlainConcat(keys: Keys, n: nat, a: seq<seq<Byte>>, b: seq<seq<Byte>>)
    ensures Plain(keys, n, a + b) == Plain(keys, n, a) + Plain(keys, n + |a|, b)
    decreases |a|
  {
    if a == [] {
      assert a + b == b;
    } else {
      assert (a + b)[1..] == a[1..] + b;
      PlainConcat(keys, n + 1, a[1..], b);
    }
  }

  lemma {:induction false} PlainShift(keys: Keys, n: nat, records: seq<seq<Byte>>)
    requires n >= keys.epoch
    ensures Plain(keys, n, records) == Plain(Keys(0, keys.open), n - keys.epoch, records)
    decreases |records|
  {
    if records != [] {
      PlainShift(keys, n + 1, records[1..]);
    }
  }

  /**
    `inbox` holds the bytes of an incomplete record, `recordsOpened` counts the records opened,
    `plain` is plaintext not yet read by the application and `taken` what it has read.
   */
  datatype Session = Session(tap: Tap, inbox: seq<Byte>, recordsOpened: nat, plain: seq<Byte>, taken: seq<Byte>)

  function NewSession(io: Io): Session
  {
    Session(Tap(NewCork(io), []), [], 0, [], [])
  }

  function Feed(ok: Decoder, keys: Keys, s: Session, tap: Tap, bytes: seq<Byte>): Session
  {
    var split := SplitRecords(ok, s.inbox + bytes);
    Session(tap, split.rest, s.recordsOpened + |split.records|,
            s.plain + Plain(keys, s.recordsOpened, split.records), s.taken)
  }

  datatype SessionEvent = PutCork | PollIo(room: nat) | Take(count: nat)

  function Apply(ok: Decoder, keys: Keys, s: Session, e: SessionEvent): (s': Session)
    requires s.tap.cork.Valid()
    ensures s'.tap.cork.Valid()
  {
    match e
    case PutCork => s.(tap := CorkStreams.Apply(ok, s.tap, SetCork))
    case PollIo(room) =>
      if !RoomFor(ok, s.tap.cork, room) then s
      else
        var step := PollRead(ok, s.tap.cork, room);
        Feed(ok, keys, s, Tap(step.cork, s.tap.out + step.bytes), step.bytes)
    case Take(count) =>
      var n := Min(count, |s.plain|);
      s.(plain := s.plain[n..], taken := s.taken + s.plain[..n])
  }

  function ApplyAll(ok: Decoder, keys: Keys, s: Session, events: seq<SessionEvent>): (s': Session)
    requires s.tap.cork.Valid()
    ensures s'.tap.cork.Valid()
    decreases |events|
  {
    if events == [] then s else ApplyAll(ok, keys, Apply(ok, keys, s, events[0]), events[1..])
  }

  /** The session has opened exactly the whole records it was fed, in order, and lost no plaintext. */
  predicate Inv(ok: Decoder, keys: Keys, s: Session) {
    var split := SplitRecords(ok, s.tap.out);
    && CorkStreams.Inv(ok, s.tap)
    && s.inbox == split.rest && s.recordsOpened == |split.records|
    && s.taken + s.plain == Plain(keys, 0, split.records)
  }

  lemma NewSatisfiesInv(ok: Decoder, keys: Keys, wire: seq<Byte>, turns: seq<Turn>)
    ensures Inv(ok, keys, NewSession(Io(wire, 0, turns)))
  {
    NewIsFramed(ok, wire, turns);
  }

  lemma FeedKeepsInv(ok: Decoder, keys: Keys, s: Session, tap: Tap, bytes: seq<Byte>)
    requires Inv(ok, keys, s) && CorkStreams.Inv(ok, tap) && tap.out == s.tap.out + bytes
    ensures Inv(ok, keys, Feed(ok, keys, s, tap, bytes))
  {
    var before := SplitRecords(ok, s.tap.out).records;
    var more := SplitRecords(ok, s.inbox + bytes).records;
    SplitConcat(ok, s.tap.out, bytes);
    PlainConcat(keys, 0, before, more);
    Regroup(s.taken, s.plain, Plain(keys, s.recordsOpened, more));
  }

  lemma Regroup(a: seq<Byte>, b: seq<Byte>, c: seq<Byte>)
    ensures a + (b + c) == (a + b) + c
  {
  }

  /** An empty read opens nothing. */
  lemma FeedNothing(ok: Decoder, keys: Keys, s: Session, tap: Tap)
    requires Inv(ok, keys, s)
    ensures Feed(ok, keys, s, tap, []) == s.(tap := tap)
  {
    SplitLosesNothing(ok, s.tap.out);
    assert s.inbox + [] == s.inbox && s.plain + [] == s.plain;
  }

  lemma EventKeepsInv(ok: Decoder, keys: Keys, s: Session, e: SessionEvent)
    requires Inv(ok, keys, s)
    ensures var s' := Apply(ok, keys, s, e);
            && Inv(ok, keys, s') && s'.tap.cork.io.wire == s.tap.cork.io.wire && s.recordsOpened <= s'.recordsOpened
            && s'.tap.cork.corked == (s.tap.cork.corked || e == PutCork)
  {
    match e
    case PutCork =>
    case PollIo(room) =>
      if RoomFor(ok, s.tap.cork, room) {
        PollIsGood(ok, s.tap.cork, s.tap.out, room);
        var step := PollRead(ok, s.tap.cork, room);
        FeedKeepsInv(ok, keys, s, Tap(step.cork, s.tap.out + step.bytes), step.bytes);
      }
    case Take(count) =>
      var n := Min(count, |s.plain|);
      assert (s.taken + s.plain[..n]) + s.plain[n..] == s.taken + s.plain;
  }

  lemma {:induction false} RunKeepsInv(ok: Decoder, keys: Keys, s: Session, events: seq<SessionEvent>)
    requires Inv(ok, keys, s)
    ensures var s' := ApplyAll(ok, keys, s, events);
            Inv(ok, keys, s') && s'.tap.cork.io.wire == s.tap.cork.io.wire && s.recordsOpened <= s'.recordsOpened
    decreases |events|
  {
    if events != [] {
      EventKeepsInv(ok, keys, s, events[0]);
      RunKeepsInv(ok, keys, Apply(ok, keys, s, events[0]), events[1..]);
    }
  }
}
