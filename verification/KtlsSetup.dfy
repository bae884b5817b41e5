/** Accepting a TLS connection, draining its session and installing its keys in the kernel. */
module KtlsSetup {
  import opened Octets
  import opened Framing
  import opened ByteSource
  import opened CorkStreams
  import opened TlsSessions
  import opened Handover
  import opened Polling
  import opened Options

  const DRAIN_BUFFER := 128 * 1024

  const SEQ_WIDTH := 8

  /** `Blocked`: the byte source never becomes ready again, so the read never completes. */
  datatype ReadReply = Got(bytes: seq<Byte>) | UnexpectedEof | Failed | Blocked

  /** A header that does not decode has been pulled. */
  predicate Undecodable(ok: Decoder, io: Io)
    requires io.Valid()
  {
    Parse(ok, io.Pulled()) == Opaque
  }

  /** The session sees it at the front of what it has not opened. */
  lemma UndecodableIff(ok: Decoder, keys: Keys, s: Session)
    requires TlsSessions.Inv(ok, keys, s)
    ensures Undecodable(ok, s.tap.cork.io) <==> |s.inbox| >= HEADER_LEN && !Decodes(ok, s.inbox)
  {
    ParserAgreesWithSplitter(ok, s.tap.out);
    assert s.tap.out + [] == s.tap.out;
  }

  // ---------------------------------------------------------------- reading through the session

  /** What every reading keeps: nothing is rewound, and once corked no boundary is passed. */
  predicate Kept(ok: Decoder, keys: Keys, s: Session, s': Session)
    requires s.tap.cork.Valid()
  {
    var c, c' := s.tap.cork, s'.tap.cork;
    && TlsSessions.Inv(ok, keys, s') && s'.recordsOpened >= s.recordsOpened
    && c'.io.wire == c.io.wire && c'.corked == c.corked && c'.io.pos >= c.io.pos
    && (c.corked ==> NoBoundaryIn(ok, c.io.wire, c.io.pos, c'.io.pos))
    && Fails(c'.io.turns) <= Fails(c.io.turns)
  }

  /** Nothing went wrong on the way, and each giving turn but `empties` brought a byte. */
  predicate Clean(ok: Decoder, s: Session, s': Session, empties: nat)
    requires s.tap.cork.Valid() && s'.tap.cork.Valid()
  {
    && Unbroken(s.tap.cork.io.turns, s'.tap.cork.io.turns) && UsedUp(s.tap.cork, s'.tap.cork, empties)
    && (Undecodable(ok, s'.tap.cork.io) ==> Undecodable(ok, s.tap.cork.io))
  }

  lemma KeptOn(ok: Decoder, keys: Keys, s0: Session, s1: Session, s2: Session)
    requires s0.tap.cork.Valid() && Kept(ok, keys, s0, s1) && Kept(ok, keys, s1, s2)
    ensures Kept(ok, keys, s0, s2)
  {
  }

  lemma CleanOn(ok: Decoder, s0: Session, s1: Session, s2: Session, empties: nat)
    requires s0.tap.cork.Valid() && s1.tap.cork.Valid() && s2.tap.cork.Valid()
    requires Clean(ok, s0, s1, 0)
    ensures Clean(ok, s1, s2, empties) ==> Clean(ok, s0, s2, empties)
    ensures !Unbroken(s1.tap.cork.io.turns, s2.tap.cork.io.turns) ==>
              !Unbroken(s0.tap.cork.io.turns, s2.tap.cork.io.turns)
  {
  }

  /** `Garbled`: what follows in the session's input is not a record. */
  datatype PollReply = Waits | Breaks | Ends | Garbled | Goes

  function ReplyOf(ok: Decoder, step: Step, s': Session): PollReply
  {
    match step.polled
    case Pending => Waits
    case Error => Breaks
    case Ready =>
      if step.bytes == [] then Ends
      else if |s'.inbox| >= HEADER_LEN && !Decodes(ok, s'.inbox) then Garbled
      else Goes
  }

  /** What a reply tells of the poll that gave it. */
  predicate Tells(ok: Decoder, s: Session, s': Session, reply: PollReply)
    requires s.tap.cork.Valid() && s'.tap.cork.Valid()
  {
    match reply
    case Waits => Clean(ok, s, s', 0)
    case Goes => Clean(ok, s, s', 0)
    case Ends => Clean(ok, s, s', 1)
    case Breaks => !Unbroken(s.tap.cork.io.turns, s'.tap.cork.io.turns)
    case Garbled => Undecodable(ok, s'.tap.cork.io)
  }

  lemma PollIsUnbroken(ok: Decoder, c: Cork, room: nat)
    requires c.Valid() && RoomFor(ok, c, room)
    ensures var s := PollRead(ok, c, room);
            && Fails(s.cork.io.turns) <= Fails(c.io.turns)
            && (s.polled == Error <==> !Unbroken(c.io.turns, s.cork.io.turns))
            && (!c.Stopped() && c.io.turns != [] ==> |s.cork.io.turns| < |c.io.turns|)
  {
    if !c.Stopped() {
      PollFollowsTheScript(ok, c, room);
      ScriptUsedUp(c, PollRead(ok, c, room));
    }
  }

  lemma ScriptUsedUp(c: Cork, s: Step)
    requires ByTheScript(c, s)
    ensures Fails(s.cork.io.turns) <= Fails(c.io.turns)
    ensures s.polled == Error <==> !Unbroken(c.io.turns, s.cork.io.turns)
    ensures c.io.turns != [] ==> |s.cork.io.turns| < |c.io.turns|
  {
    var used := Used(c.io.turns, s.cork.io.turns);
    FailsConcat(used, s.cork.io.turns);
    if used != [] {
      assert used == used[..|used| - 1] + [used[|used| - 1]];
      assert Fail !in used[..|used| - 1];
      FailsConcat(used[..|used| - 1], [used[|used| - 1]]);
    }
  }

  lemma PollIsKept(ok: Decoder, keys: Keys, s: Session, room: nat)
    requires TlsSessions.Inv(ok, keys, s) && RoomFor(ok, s.tap.cork, room)
    ensures Kept(ok, keys, s, TlsSessions.Apply(ok, keys, s, PollIo(room)))
  {
    PollIsGood(ok, s.tap.cork, s.tap.out, room);
    PollIsUnbroken(ok, s.tap.cork, room);
    EventKeepsInv(ok, keys, s, PollIo(room));
  }

  /** An empty reply opens nothing. */
  lemma EmptyPollOpensNothing(ok: Decoder, keys: Keys, s: Session, room: nat)
    requires TlsSessions.Inv(ok, keys, s) && RoomFor(ok, s.tap.cork, room) && PollRead(ok, s.tap.cork, room).bytes == []
    ensures var s' := TlsSessions.Apply(ok, keys, s, PollIo(room));
            s'.inbox == s.inbox && s'.plain == s.plain
  {
    var step := PollRead(ok, s.tap.cork, room);
    FeedNothing(ok, keys, s, Tap(step.cork, s.tap.out + step.bytes));
  }

  lemma PollTells(ok: Decoder, keys: Keys, s: Session, room: nat)
    requires TlsSessions.Inv(ok, keys, s) && room > 0 && RoomFor(ok, s.tap.cork, room)
    ensures var s' := TlsSessions.Apply(ok, keys, s, PollIo(room));
            Tells(ok, s, s', ReplyOf(ok, PollRead(ok, s.tap.cork, room), s'))
  {
    PollIsKept(ok, keys, s, room);
    PollIsUnbroken(ok, s.tap.cork, room);
    PollUsesTurns(ok, s.tap.cork, room);
    UndecodableIff(ok, keys, s);
    UndecodableIff(ok, keys, TlsSessions.Apply(ok, keys, s, PollIo(room)));
    PollIsGood(ok, s.tap.cork, s.tap.out, room);
    if PollRead(ok, s.tap.cork, room).bytes == [] {
      EmptyPollOpensNothing(ok, keys, s, room);
    }
  }

  /** An empty ready poll leaves the plaintext and means rest, unless it closed an empty record. */
  lemma PollThatEnds(ok: Decoder, keys: Keys, s: Session, room: nat)
    requires TlsSessions.Inv(ok, keys, s) && room > 0 && RoomFor(ok, s.tap.cork, room)
    requires PollRead(ok, s.tap.cork, room).polled == Ready && PollRead(ok, s.tap.cork, room).bytes == []
    ensures var s', c := TlsSessions.Apply(ok, keys, s, PollIo(room)), s.tap.cork;
            s'.plain == s.plain && (AtRest(s'.tap.cork) || (!c.corked && c.state == ReadPayload(0, 0)))
  {
    EmptyReadMeansAtRestIff(ok, s.tap.cork, room);
    EmptyPollOpensNothing(ok, keys, s, room);
  }

  /** A poll uses up a turn unless the stream is stopped; when it ends the stream, it leaves the plaintext as it was. */
  predicate Moves(s: Session, s': Session, reply: PollReply) {
    var c, c' := s.tap.cork, s'.tap.cork;
    && (if c.Stopped() then reply == Ends else c.io.turns != [] ==> |c'.io.turns| < |c.io.turns|)
    && (reply == Ends ==> s'.plain == s.plain && (AtRest(c') || (!c.corked && c.state == ReadPayload(0, 0))))
  }

  lemma PollMoves(ok: Decoder, keys: Keys, s: Session, room: nat)
    requires TlsSessions.Inv(ok, keys, s) && room > 0 && RoomFor(ok, s.tap.cork, room)
    ensures var s' := TlsSessions.Apply(ok, keys, s, PollIo(room));
            Moves(s, s', ReplyOf(ok, PollRead(ok, s.tap.cork, room), s'))
  {
    PollIsUnbroken(ok, s.tap.cork, room);
    var step := PollRead(ok, s.tap.cork, room);
    if step.polled == Ready && step.bytes == [] {
      PollThatEnds(ok, keys, s, room);
    }
  }

  lemma PollMeetsAtMostOne(ok: Decoder, keys: Keys, s: Session, room: nat)
    requires TlsSessions.Inv(ok, keys, s) && RoomFor(ok, s.tap.cork, room)
    ensures Shrinks(keys) && s.plain == [] ==> Lean(TlsSessions.Apply(ok, keys, s, PollIo(room)))
    ensures TlsSessions.Apply(ok, keys, s, PollIo(room)).tap.cork.state == ReadPayload(0, 0) ==>
              s.tap.cork.state == ReadPayload(0, 0) || HasEmptyRecord(ok, s.tap.cork.io.wire)
  {
    if Shrinks(keys) && s.plain == [] {
      LazyPollIsLean(ok, keys, s, room);
    }
    if s.tap.cork.state.ReadHeader? && PollRead(ok, s.tap.cork, room).cork.state == ReadPayload(0, 0) {
      EmptyPayloadIsEmptyRecord(ok, s.tap, room);
    }
  }

  class TlsStream {
    const ok: Decoder
    const keys: Keys
    var s: Session

    ghost predicate Valid()
      reads this
    {
      TlsSessions.Inv(ok, keys, s)
    }

    constructor (ok: Decoder, keys: Keys, io: Io)
      requires io.pos == 0
      ensures Valid() && this.ok == ok && this.keys == keys && s == NewSession(io)
    {
      this.ok := ok;
      this.keys := keys;
      this.s := NewSession(io);
      new;
      NewSatisfiesInv(ok, keys, io.wire, io.turns);
    }

    /**
      Buffered plaintext if there is any, and otherwise whatever polling brings first. Without
      room it polls all the same as long as no plaintext is there, but does not wait. It fails
      exactly when a turn fails or a header does not decode.
     */
    method Read(room: nat) returns (r: ReadReply)
      requires Valid()
      modifies this
      ensures Valid() && Kept(ok, keys, old(s), s)
      ensures r.Got? ==> s.taken == old(s.taken) + r.bytes && |r.bytes| <= room && (r.bytes == [] ==> room == 0)
      ensures !r.Got? ==> s.taken == old(s.taken)
      ensures r == UnexpectedEof ==> s.plain == [] && (s.tap.cork.corked ==> AtRest(s.tap.cork))
      ensures r == Blocked ==> s.tap.cork.io.turns == []
      ensures if r == Failed
              then !Unbroken(old(s.tap.cork.io.turns), s.tap.cork.io.turns) || Undecodable(ok, s.tap.cork.io)
              else Clean(ok, old(s), s, if r == UnexpectedEof then 1 else 0)
    {
      assert s.taken + [] == s.taken;
      while s.plain == []
        invariant Valid() && s.taken == old(s.taken) && Kept(ok, keys, old(s), s) && Clean(ok, old(s), s, 0)
        decreases |s.tap.cork.io.turns|
      {
        if s.tap.cork.io.turns == [] && !s.tap.cork.Stopped() {
          return if room == 0 then Got([]) else Blocked;
        }
        ghost var s1 := s;
        var reply := Poll();
        KeptOn(ok, keys, old(s), s1, s);
        CleanOn(ok, old(s), s1, s, if reply == Ends then 1 else 0);
        match reply {
          case Breaks => return Failed;
          case Garbled => return Failed;
          case Ends => return UnexpectedEof;
          case Waits =>
            if room == 0 {
              return Got([]);
            }
          case Goes => {}
        }
      }
      r := TakeSome(room);
    }

    /** Hands out at least one byte of the plaintext there is, if there is room. */
    method TakeSome(room: nat) returns (r: ReadReply)
      requires Valid() && s.plain != []
      modifies this
      ensures Valid() && s.tap == old(s.tap) && s.recordsOpened == old(s.recordsOpened)
      ensures r.Got? && s.taken == old(s.taken) + r.bytes && |r.bytes| <= room && (r.bytes == [] ==> room == 0)
    {
      assert Min(1, room) <= room;
      var n: nat :| Min(1, room) <= n <= room && n <= |s.plain|;
      r := Got(s.plain[..n]);
      EventKeepsInv(ok, keys, s, Take(n));
      s := TlsSessions.Apply(ok, keys, s, Take(n));
    }

    /** Polls the byte source once, with room enough for a header, and opens the records this completes. */
    method Poll() returns (reply: PollReply)
      requires Valid()
      modifies this
      ensures Valid() && s.taken == old(s.taken) && Kept(ok, keys, old(s), s) && Tells(ok, old(s), s, reply)
      ensures Moves(old(s), s, reply)
      ensures Shrinks(keys) && old(s.plain) == [] ==> Lean(s)
      ensures s.tap.cork.state == ReadPayload(0, 0) ==>
                old(s.tap.cork.state) == ReadPayload(0, 0) || HasEmptyRecord(ok, s.tap.cork.io.wire)
    {
      assert RoomFor(ok, s.tap.cork, HEADER_LEN);
      var room: nat :| room > 0 && RoomFor(ok, s.tap.cork, room);
      var step := PollRead(ok, s.tap.cork, room);
      PollIsKept(ok, keys, s, room);
      PollTells(ok, keys, s, room);
      PollMoves(ok, keys, s, room);
      PollMeetsAtMostOne(ok, keys, s, room);
      s := TlsSessions.Apply(ok, keys, s, PollIo(room));
      reply := ReplyOf(ok, step, s);
    }
  }

  // ---------------------------------------------------------------- accepting

  lemma {:induction false} HandshakeIsSilent(keys: Keys, n: nat, records: seq<seq<Byte>>)
    requires n + |records| <= keys.epoch
    ensures Plain(keys, n, records) == []
    decreases |records|
  {
    if records != [] {
      HandshakeIsSilent(keys, n + 1, records[1..]);
    }
  }

  lemma PlaintextMeansDone(ok: Decoder, keys: Keys, s: Session)
    requires TlsSessions.Inv(ok, keys, s) && s.plain != []
    ensures s.recordsOpened >= keys.epoch
  {
    if s.recordsOpened < keys.epoch {
      HandshakeIsSilent(keys, 0, SplitRecords(ok, s.tap.out).records);
    }
  }

  datatype AcceptReply = Accepted | Refused | HandshakePending

  /** The socket fails, a header does not decode, a record is empty, or the handshake is never completed. */
  ghost predicate PeerFails(ok: Decoder, keys: Keys, io: Io) {
    || Fail in io.turns
    || Parse(ok, io.wire) == Opaque
    || HasEmptyRecord(ok, io.wire)
    || |SplitRecords(ok, io.wire).records| < keys.epoch
  }

  lemma EndedEarly(ok: Decoder, keys: Keys, s: Session)
    requires TlsSessions.Inv(ok, keys, s) && s.recordsOpened < keys.epoch && s.tap.cork.io.pos == |s.tap.cork.io.wire|
    ensures |SplitRecords(ok, s.tap.cork.io.wire).records| < keys.epoch
  {
    var io := s.tap.cork.io;
    PulledIsOpened(ok, s.tap);
    assert io.Pulled() == io.wire;
  }

  lemma UndecodableForever(ok: Decoder, io: Io, b: nat)
    requires io.Valid() && Undecodable(ok, io) && io.pos <= b <= |io.wire|
    ensures Parse(ok, io.wire[..b]) == Opaque
  {
    OpaqueBytes(ok, io.wire, io.pos, b);
  }

  /** What holds while a new session is polled without having been read from. */
  predicate Accepting(ok: Decoder, keys: Keys, io: Io, s: Session)
    requires io.pos == 0 && TlsSessions.Inv(ok, keys, s)
  {
    s.taken == [] && !s.tap.cork.corked && Kept(ok, keys, NewSession(io), s)
  }

  lemma RefusalIsJustified(ok: Decoder, keys: Keys, io: Io, s: Session, reply: PollReply)
    requires io.pos == 0 && TlsSessions.Inv(ok, keys, s) && Accepting(ok, keys, io, s)
    requires reply == Breaks ==> !Unbroken(io.turns, s.tap.cork.io.turns)
    requires reply == Garbled ==> Undecodable(ok, s.tap.cork.io)
    requires reply == Ends ==>
               s.recordsOpened < keys.epoch && (s.tap.cork.io.pos == |io.wire| || HasEmptyRecord(ok, io.wire))
    ensures reply == Breaks || reply == Garbled || reply == Ends ==> PeerFails(ok, keys, io)
  {
    if reply == Ends && s.tap.cork.io.pos == |io.wire| {
      EndedEarly(ok, keys, s);
    }
    if reply == Garbled {
      UndecodableForever(ok, s.tap.cork.io, |io.wire|);
      assert io.wire[..|io.wire|] == io.wire;
    }
  }

  /**
    Polls until the handshake is done, and may go on as long as no plaintext is there. The
    session then holds at most one record's plaintext.
   */
  method Accept(ok: Decoder, keys: Keys, io: Io) returns (stream: TlsStream, r: AcceptReply)
    requires io.pos == 0
    ensures fresh(stream) && stream.Valid() && stream.ok == ok && stream.keys == keys
    ensures Accepting(ok, keys, io, stream.s)
    ensures r == Accepted ==>
              && stream.s.recordsOpened >= keys.epoch && (Shrinks(keys) ==> Lean(stream.s))
              && Clean(ok, NewSession(io), stream.s, 1)
    ensures r == Refused ==> PeerFails(ok, keys, io)
    ensures r == HandshakePending ==> Gives(io.turns) <= |io.wire| + 1
  {
    stream := new TlsStream(ok, keys, io);
    while stream.s.plain == []
      invariant fresh(stream) && stream.Valid() && stream.ok == ok && stream.keys == keys
      invariant Accepting(ok, keys, io, stream.s) && Clean(ok, NewSession(io), stream.s, 0)
      invariant Shrinks(keys) ==> Lean(stream.s)
      invariant stream.s.tap.cork.state == ReadPayload(0, 0) ==> HasEmptyRecord(ok, io.wire)
      decreases |stream.s.tap.cork.io.turns|
    {
      var done, goOn := stream.s.recordsOpened >= keys.epoch, *;
      if done && !goOn {
        return stream, Accepted;
      }
      if stream.s.tap.cork.io.turns == [] {
        return stream, if done then Accepted else HandshakePending;
      }
      ghost var s1 := stream.s;
      var reply := stream.Poll();
      KeptOn(ok, keys, NewSession(io), s1, stream.s);
      CleanOn(ok, NewSession(io), s1, stream.s, if reply == Ends then 1 else 0);
      done := stream.s.recordsOpened >= keys.epoch;
      if (reply == Waits || reply == Ends) && done {
        return stream, Accepted;
      }
      if reply == Breaks || reply == Garbled || reply == Ends {
        RefusalIsJustified(ok, keys, io, stream.s, reply);
        return stream, Refused;
      }
    }
    PlaintextMeansDone(ok, keys, stream.s);
    return stream, Accepted;
  }

  // ---------------------------------------------------------------- draining

  /**
    The buffer takes all the plaintext that a session corked after `p` bytes has yet to hand
    out. If it takes it to the last byte, the record in progress must not be one without
    plaintext: the drain may then end before that record does.
   */
  predicate DrainFits(ok: Decoder, keys: Keys, wire: seq<Byte>, p: nat, taken: nat)
    requires p <= |wire|
  {
    var ahead := PlainAhead(ok, keys, wire, p);
    || |ahead| < taken + DRAIN_BUFFER
    || (|ahead| == taken + DRAIN_BUFFER
        && (p == NextBoundary(ok, wire, p) || PlainOf(ok, keys, wire[..p]) != ahead))
  }

  /** Everything before the boundary ahead is out, and the stream stands there. */
  predicate FullyDrained(ok: Decoder, keys: Keys, s: Session, p: nat)
    requires s.tap.cork.io.Valid() && p <= s.tap.cork.io.pos
  {
    var io := s.tap.cork.io;
    io.pos == NextBoundary(ok, io.wire, p) && s.taken == PlainAhead(ok, keys, io.wire, p)
  }

  /** A drain ends with the buffer full, or when the session has run dry. */
  predicate DrainEnded(s: Session, limit: nat) {
    |s.taken| <= limit && (|s.taken| < limit ==> s.plain == [] && AtRest(s.tap.cork))
  }

  /**
    The plaintext before the boundary ahead decides: if it fits it is all drained, and if it
    is more than the buffer holds it is not. In between, a buffer filled to the last byte
    with a record without plaintext in progress, it depends on whether the end of that
    record was still reached.
   */
  lemma DrainOutcome(ok: Decoder, keys: Keys, s: Session, p: nat, taken: nat)
    requires CorkedAt(ok, keys, s, p) && DrainEnded(s, taken + DRAIN_BUFFER)
    ensures var io := s.tap.cork.io;
            var ahead := PlainAhead(ok, keys, io.wire, p);
            && s.taken == ahead[..Min(|ahead|, taken + DRAIN_BUFFER)]
            && (DrainFits(ok, keys, io.wire, p, taken) ==> io.pos == NextBoundary(ok, io.wire, p))
            && (FullyDrained(ok, keys, s, p) <==>
                |ahead| <= taken + DRAIN_BUFFER && io.pos == NextBoundary(ok, io.wire, p))
  {
    CorkedStaysBefore(ok, keys, s, p);
    assert s.taken <= s.taken + s.plain;
    if s.plain == [] {
      assert s.taken + s.plain == s.taken;
    }
  }

  /** A session that polls only while it holds no plaintext never needs more than the buffer. */
  lemma LeanSessionFits(ok: Decoder, keys: Keys, s: Session)
    requires TlsSessions.Inv(ok, keys, s) && Shrinks(keys) && Lean(s)
    ensures DrainFits(ok, keys, s.tap.cork.io.wire, s.tap.cork.io.pos, |s.taken|)
  {
    LeanIsShortAhead(ok, keys, s);
  }

  /** For every wire stream, schedule and run in which each poll finds no plaintext held, corked at any moment. */
  lemma LazySessionFits(ok: Decoder, keys: Keys, wire: seq<Byte>, turns: seq<Turn>, events: seq<SessionEvent>)
    requires Shrinks(keys) && LazyRun(ok, keys, NewSession(Io(wire, 0, turns)), events)
    ensures var s := TlsSessions.ApplyAll(ok, keys, NewSession(Io(wire, 0, turns)), events);
            && s.tap.cork.io.wire == wire
            && |PlainAhead(ok, keys, wire, s.tap.cork.io.pos)| < |s.taken| + DRAIN_BUFFER
  {
    var s := NewSession(Io(wire, 0, turns));
    NewSatisfiesInv(ok, keys, wire, turns);
    TlsSessions.RunKeepsInv(ok, keys, s, events);
    LazyRunIsLean(ok, keys, s, events);
    LeanIsShortAhead(ok, keys, TlsSessions.ApplyAll(ok, keys, s, events));
  }

  datatype DrainResult = Drained(bytes: Option<seq<Byte>>) | DrainError | NeverReady

  lemma KeptIsCorkedAt(ok: Decoder, keys: Keys, s: Session, s': Session)
    requires TlsSessions.Inv(ok, keys, s) && s.tap.cork.corked && Kept(ok, keys, s, s')
    ensures CorkedAt(ok, keys, s', s.tap.cork.io.pos)
  {
  }

  /** Whether reading went wrong, and if not, what it has kept. */
  predicate EndsCleanly(ok: Decoder, s: Session, s': Session, failed: bool)
    requires s.tap.cork.Valid() && s'.tap.cork.Valid()
  {
    if failed then !Unbroken(s.tap.cork.io.turns, s'.tap.cork.io.turns) || Undecodable(ok, s'.tap.cork.io)
    else Clean(ok, s, s', 1)
  }

  /**
    Reads until the session has nothing more to give, the buffer is full, or a read fails or
    never completes. `last` is the reply to the last read.
   */
  method FillBuffer(stream: TlsStream) returns (bytes: seq<Byte>, last: ReadReply)
    requires stream.Valid()
    modifies stream
    ensures stream.Valid() && Kept(stream.ok, stream.keys, old(stream.s), stream.s)
    ensures stream.s.taken == old(stream.s.taken) + bytes && |bytes| <= DRAIN_BUFFER
    ensures last.Got? ==> |bytes| == DRAIN_BUFFER
    ensures last == UnexpectedEof ==> stream.s.plain == [] && (stream.s.tap.cork.corked ==> AtRest(stream.s.tap.cork))
    ensures last == Blocked ==> stream.s.tap.cork.io.turns == [] && Clean(stream.ok, old(stream.s), stream.s, 0)
    ensures EndsCleanly(stream.ok, old(stream.s), stream.s, last == Failed)
  {
    var drained := new Byte[DRAIN_BUFFER](_ => 0);
    var filled := 0;
    ghost var s0 := stream.s;
    assert s0.taken + drained[..filled] == s0.taken;
    while true
      invariant stream.Valid() && Kept(stream.ok, stream.keys, s0, stream.s) && Clean(stream.ok, s0, stream.s, 0)
      invariant filled <= DRAIN_BUFFER
      invariant stream.s.taken == s0.taken + drained[..filled]
      decreases DRAIN_BUFFER - filled
    {
      ghost var s1 := stream.s;
      last := stream.Read(DRAIN_BUFFER - filled);
      KeptOn(stream.ok, stream.keys, s0, s1, stream.s);
      CleanOn(stream.ok, s0, s1, stream.s, if last == UnexpectedEof then 1 else 0);
      if !last.Got? || last.bytes == [] {
        return drained[..filled], last;
      }
      Regroup(s0.taken, drained[..filled], last.bytes);
      CopyInto(drained, filled, last.bytes);
      filled := filled + |last.bytes|;
    }
  }

  /**
    A corked session hands out the plaintext before the boundary ahead, as far as the buffer
    holds it. It fails exactly when a turn fails or a header does not decode, and never ends
    only if the byte source falls silent.
   */
  method Drain(stream: TlsStream) returns (r: DrainResult)
    requires stream.Valid()
    modifies stream
    ensures stream.Valid() && Kept(stream.ok, stream.keys, old(stream.s), stream.s)
    ensures r.Drained? ==>
              && stream.s.taken == old(stream.s.taken) + OrEmpty(r.bytes)
              && (r.bytes.Some? ==> r.bytes.value != [])
              && |OrEmpty(r.bytes)| <= 131072
    ensures r.Drained? && old(stream.s.tap.cork.corked) ==>
              var p, io := old(stream.s.tap.cork.io.pos), stream.s.tap.cork.io;
              var ahead, taken := PlainAhead(stream.ok, stream.keys, io.wire, p), |old(stream.s.taken)|;
              && stream.s.taken == ahead[..Min(|ahead|, taken + DRAIN_BUFFER)]
              && (DrainFits(stream.ok, stream.keys, io.wire, p, taken) ==>
                    io.pos == NextBoundary(stream.ok, io.wire, p))
    ensures EndsCleanly(stream.ok, old(stream.s), stream.s, r == DrainError)
    ensures r == NeverReady ==> stream.s.tap.cork.io.turns == [] && UsedUp(old(stream.s.tap.cork), stream.s.tap.cork, 0)
  {
    ghost var s0 := stream.s;
    var bytes, last := FillBuffer(stream);
    match last {
      case Failed => return DrainError;
      case Blocked => return NeverReady;
      case _ =>
    }
    r := Drained(if bytes == [] then None else Some(bytes));
    if s0.tap.cork.corked {
      KeptIsCorkedAt(stream.ok, stream.keys, s0, stream.s);
      DrainOutcome(stream.ok, stream.keys, stream.s, s0.tap.cork.io.pos, |s0.taken|);
    }
  }

  method CopyInto(a: array<Byte>, at: nat, bytes: seq<Byte>)
    requires at + |bytes| <= a.Length
    modifies a
    ensures a[..at + |bytes|] == old(a[..at]) + bytes
  {
    for i := 0 to |bytes|
      invariant a[..at] == old(a[..at]) && a[at..at + i] == bytes[..i]
    {
      a[at + i] := bytes[i];
    }
    assert a[..at + |bytes|] == a[..at] + a[at..at + |bytes|];
  }

  // ---------------------------------------------------------------- setting up the kernel

  /** A connection the kernel now decrypts, from record number `recSeq` on. */
  datatype KernelStream = KernelStream(io: Io, recSeq: seq<Byte>)

  datatype SetupResult = Configured(drained: Option<seq<Byte>>, kernel: KernelStream) | SetupError | SetupPending

  /** A record number as the eight bytes the kernel expects, most significant first. */
  method ExportSeq(n: nat) returns (recSeq: seq<Byte>)
    ensures |recSeq| == 8 && (FromBigEndian(recSeq) == n <==> n < Pow256(SEQ_WIDTH))
  {
    recSeq := ToBigEndian(n, SEQ_WIDTH);
    BigEndianRoundTrip(n, SEQ_WIDTH);
  }

  /** Record numbers of the traffic keys fit in 64 bits. */
  predicate NumbersFit(ok: Decoder, keys: Keys, wire: seq<Byte>) {
    |SplitRecords(ok, wire).records| < keys.epoch + Pow256(SEQ_WIDTH)
  }

  lemma OpenedFits(ok: Decoder, keys: Keys, s: Session)
    requires TlsSessions.Inv(ok, keys, s) && NumbersFit(ok, keys, s.tap.cork.io.wire)
    ensures s.recordsOpened < keys.epoch + Pow256(SEQ_WIDTH)
  {
    var io := s.tap.cork.io;
    PulledIsOpened(ok, s.tap);
    PlainGrows(ok, keys, io.wire, io.pos, |io.wire|);
    assert io.wire[..|io.wire|] == io.wire;
  }

  /**
    How a connection corked with its byte source at `io` is handed over: nothing failed and no
    header was undecodable; the drained bytes are the plaintext before the boundary ahead, as
    far as the buffer holds it; the kernel goes on with the next record number; and the
    handover is intact exactly when the buffer holds it all and that boundary was reached,
    which it is whenever the plaintext fits.
   */
  predicate HandedOver(ok: Decoder, keys: Keys, io: Io, drained: Option<seq<Byte>>, kernel: KernelStream)
    requires io.Valid()
  {
    var ahead, b := PlainAhead(ok, keys, io.wire, io.pos), NextBoundary(ok, io.wire, io.pos);
    && kernel.io.Valid() && kernel.io.wire == io.wire && io.pos <= kernel.io.pos <= b
    && Unbroken(io.turns, kernel.io.turns) && (Undecodable(ok, kernel.io) ==> Undecodable(ok, io))
    && OrEmpty(drained) == ahead[..Min(|ahead|, DRAIN_BUFFER)] && (drained.Some? ==> drained.value != [])
    && keys.epoch <= |SplitRecords(ok, kernel.io.Pulled()).records|
    && (DrainFits(ok, keys, io.wire, io.pos, 0) ==> kernel.io.pos == b)
    && (NumbersFit(ok, keys, io.wire) ==>
          && keys.epoch + FromBigEndian(kernel.recSeq) == |SplitRecords(ok, kernel.io.Pulled()).records|
          && (Intact(ok, keys, OrEmpty(drained), kernel.recSeq, kernel.io) <==>
              |ahead| <= DRAIN_BUFFER && kernel.io.pos == b))
  }

  /**
    Corks the stream, drains it, installs the keys and hands the connection over. It gives up
    exactly if the keys are refused, the byte source fails or a header does not decode, and
    never ends only if the byte source gives something too few times to reach the boundary.
   */
  method ConfigKtlsServer(stream: TlsStream, keysInstall: bool) returns (r: SetupResult)
    requires stream.Valid() && stream.s.taken == [] && stream.s.recordsOpened >= stream.keys.epoch
    modifies stream
    ensures r.Configured? ==> keysInstall
    ensures r.Configured? ==> HandedOver(stream.ok, stream.keys, old(stream.s.tap.cork.io), r.drained, r.kernel)
    ensures var io := old(stream.s.tap.cork.io);
            var b := NextBoundary(stream.ok, io.wire, io.pos);
            && (r == SetupError ==>
                  !keysInstall || Fail in io.turns || Parse(stream.ok, io.wire[..b]) == Opaque)
            && (r == SetupPending ==> Gives(io.turns) <= b - io.pos + 1)
  {
    ghost var io := stream.s.tap.cork.io;
    var drain := CorkAndDrain(stream);
    if drain == NeverReady {
      return SetupPending;
    }
    if drain == DrainError || !keysInstall {
      return SetupError;
    }
    var recSeq := ExportSeq(stream.s.recordsOpened - stream.keys.epoch);
    r := Configured(drain.bytes, KernelStream(stream.s.tap.cork.io, recSeq));
    PulledIsOpened(stream.ok, stream.s.tap);
    KernelTakesOver(stream.ok, stream.keys, stream.s, io.pos, recSeq);
  }

  /** Sets the cork and drains what is ahead of the next boundary. */
  method CorkAndDrain(stream: TlsStream) returns (r: DrainResult)
    requires stream.Valid() && stream.s.taken == []
    modifies stream
    ensures var io := old(stream.s.tap.cork.io);
            var ahead := PlainAhead(stream.ok, stream.keys, io.wire, io.pos);
            var b := NextBoundary(stream.ok, io.wire, io.pos);
            && CorkedAt(stream.ok, stream.keys, stream.s, io.pos) && stream.s.tap.cork.io.wire == io.wire
            && stream.s.tap.cork.io.pos <= b && stream.s.recordsOpened >= old(stream.s.recordsOpened)
            && (r.Drained? ==>
                  && stream.s.taken == OrEmpty(r.bytes) == ahead[..Min(|ahead|, DRAIN_BUFFER)]
                  && (r.bytes.Some? ==> r.bytes.value != [])
                  && (DrainFits(stream.ok, stream.keys, io.wire, io.pos, 0) ==> stream.s.tap.cork.io.pos == b)
                  && Unbroken(io.turns, stream.s.tap.cork.io.turns)
                  && (Undecodable(stream.ok, stream.s.tap.cork.io) ==> Undecodable(stream.ok, io)))
            && (r == DrainError ==> Fail in io.turns || Parse(stream.ok, io.wire[..b]) == Opaque)
            && (r == NeverReady ==> Gives(io.turns) <= b - io.pos + 1)
  {
    ghost var io := stream.s.tap.cork.io;
    EventKeepsInv(stream.ok, stream.keys, stream.s, PutCork);
    stream.s := TlsSessions.Apply(stream.ok, stream.keys, stream.s, PutCork);
    ghost var s0 := stream.s;
    r := Drain(stream);
    KeptIsCorkedAt(stream.ok, stream.keys, s0, stream.s);
    CorkedStaysBefore(stream.ok, stream.keys, stream.s, io.pos);
    if r.Drained? {
      assert [] + OrEmpty(r.bytes) == OrEmpty(r.bytes);
    }
    if Undecodable(stream.ok, stream.s.tap.cork.io) {
      UndecodableForever(stream.ok, stream.s.tap.cork.io, NextBoundary(stream.ok, io.wire, io.pos));
    }
  }

  /** The kernel's record number, and when the handover is intact. */
  lemma KernelTakesOver(ok: Decoder, keys: Keys, s: Session, p: nat, recSeq: seq<Byte>)
    requires CorkedAt(ok, keys, s, p) && s.recordsOpened >= keys.epoch
    requires FromBigEndian(recSeq) == s.recordsOpened - keys.epoch <==> s.recordsOpened - keys.epoch < Pow256(SEQ_WIDTH)
    ensures NumbersFit(ok, keys, s.tap.cork.io.wire) ==>
              && keys.epoch + FromBigEndian(recSeq) == |SplitRecords(ok, s.tap.cork.io.Pulled()).records|
              && (Intact(ok, keys, s.taken, recSeq, s.tap.cork.io) <==> FullyDrained(ok, keys, s, p))
  {
    if NumbersFit(ok, keys, s.tap.cork.io.wire) {
      OpenedFits(ok, keys, s);
      PulledIsOpened(ok, s.tap);
      IntactIff(ok, keys, s, p, recSeq);
    }
  }
}
