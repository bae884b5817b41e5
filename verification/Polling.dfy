/**
  Sessions that poll only while they hold no plaintext. One poll completes at most one
  record, so such a session never holds more than one record's plaintext, and the record in
  progress when it is corked adds at most another.
 */
module Polling {
  import opened Octets
  import opened Framing
  import opened ByteSource
  import opened CorkStreams
  import opened TlsSessions
  import opened Handover

  /** The largest payload a header can announce. */
  const MAX_PAYLOAD := 65535

  /** Opening a record never yields more bytes than its payload has. */
  ghost predicate Shrinks(keys: Keys) {
    forall n: nat, record: seq<Byte> ::
      |record| >= HEADER_LEN ==> |keys.open(n, record)| <= |record| - HEADER_LEN
  }

  lemma PayloadIsShort(header: seq<Byte>)
    requires |header| >= HEADER_LEN
    ensures PayloadLength(header) <= MAX_PAYLOAD
  {
    var length := header[3..HEADER_LEN];
    assert length[..1] == [length[0]] && length[..1][..0] == [];
    assert FromBigEndian(length[..1]) == length[0];
  }

  // ---------------------------------------------------------------- one poll, one record

  /** Bytes that reach no further than the end of their first record. */
  predicate OneRecordAtMost(ok: Decoder, s: seq<Byte>) {
    |s| <= HEADER_LEN || !Decodes(ok, s) || |s| <= HEADER_LEN + PayloadLength(s)
  }

  lemma SplitsIntoOne(ok: Decoder, s: seq<Byte>)
    requires OneRecordAtMost(ok, s)
    ensures |SplitRecords(ok, s).records| <= 1
  {
    if HasWholeRecord(ok, s) {
      assert s[HEADER_LEN + PayloadLength(s)..] == [];
    }
  }

  /** What one poll hands out, behind the incomplete record handed out before, completes at most that record. */
  lemma PollCompletesOne(ok: Decoder, t: Tap, room: nat)
    requires CorkStreams.Inv(ok, t) && RoomFor(ok, t.cork, room)
    ensures OneRecordAtMost(ok, SplitRecords(ok, t.out).rest + PollRead(ok, t.cork, room).bytes)
  {
    var rest, bytes := SplitRecords(ok, t.out).rest, PollRead(ok, t.cork, room).bytes;
    ParserAgreesWithSplitter(ok, t.out);
    if t.cork.state.ReadHeader? {
      assert rest == [];
    } else {
      assert t.out + [] == t.out;
      if |rest| >= HEADER_LEN {
        assert (rest + bytes)[3..HEADER_LEN] == rest[3..HEADER_LEN];
      }
    }
  }

  lemma OneRecordIsShort(ok: Decoder, keys: Keys, n: nat, s: seq<Byte>)
    requires Shrinks(keys) && |SplitRecords(ok, s).records| <= 1
    ensures |Plain(keys, n, SplitRecords(ok, s).records)| <= MAX_PAYLOAD
  {
    var records := SplitRecords(ok, s).records;
    if records != [] {
      PayloadIsShort(s);
      assert records == [s[..HEADER_LEN + PayloadLength(s)]] && records[1..] == [];
      assert Plain(keys, n, records) == keys.Open(n, records[0]) + [];
    }
  }

  // ---------------------------------------------------------------- lazy runs

  /** The plaintext a session holds is no more than one record's. */
  predicate Lean(s: Session) { |s.plain| <= MAX_PAYLOAD }

  lemma LazyPollIsLean(ok: Decoder, keys: Keys, s: Session, room: nat)
    requires TlsSessions.Inv(ok, keys, s) && Shrinks(keys) && s.plain == [] && RoomFor(ok, s.tap.cork, room)
    ensures Lean(TlsSessions.Apply(ok, keys, s, PollIo(room)))
  {
    var bytes := PollRead(ok, s.tap.cork, room).bytes;
    PollCompletesOne(ok, s.tap, room);
    SplitsIntoOne(ok, s.inbox + bytes);
    OneRecordIsShort(ok, keys, s.recordsOpened, s.inbox + bytes);
  }

  /** Every poll of the run finds no plaintext held. */
  predicate LazyRun(ok: Decoder, keys: Keys, s: Session, events: seq<SessionEvent>)
    requires s.tap.cork.Valid()
    decreases |events|
  {
    events == [] ||
    (&& (events[0].PollIo? ==> s.plain == [])
     && LazyRun(ok, keys, TlsSessions.Apply(ok, keys, s, events[0]), events[1..]))
  }

  lemma {:induction false} LazyRunIsLean(ok: Decoder, keys: Keys, s: Session, events: seq<SessionEvent>)
    requires TlsSessions.Inv(ok, keys, s) && Shrinks(keys) && Lean(s) && LazyRun(ok, keys, s, events)
    ensures Lean(TlsSessions.ApplyAll(ok, keys, s, events))
    decreases |events|
  {
    if events != [] {
      EventKeepsInv(ok, keys, s, events[0]);
      if events[0].PollIo? && RoomFor(ok, s.tap.cork, events[0].room) {
        LazyPollIsLean(ok, keys, s, events[0].room);
      }
      LazyRunIsLean(ok, keys, TlsSessions.Apply(ok, keys, s, events[0]), events[1..]);
    }
  }

  // ---------------------------------------------------------------- what is still ahead

  lemma OneByteOneRecord(ok: Decoder, s: seq<Byte>, b: Byte)
    ensures |SplitRecords(ok, SplitRecords(ok, s).rest + [b]).records| <= 1
  {
    var rest := SplitRecords(ok, s).rest;
    SplitLosesNothing(ok, s);
    if HasWholeRecord(ok, rest + [b]) {
      if |rest| >= HEADER_LEN {
        assert (rest + [b])[3..HEADER_LEN] == rest[3..HEADER_LEN];
      }
      SplitsIntoOne(ok, rest + [b]);
    }
  }

  lemma OneMoreByte(ok: Decoder, keys: Keys, s: seq<Byte>, b: Byte)
    requires Shrinks(keys)
    ensures |PlainOf(ok, keys, s + [b])| <= |PlainOf(ok, keys, s)| + MAX_PAYLOAD
  {
    var left := SplitRecords(ok, s);
    SplitConcat(ok, s, [b]);
    OneByteOneRecord(ok, s, b);
    OneRecordIsShort(ok, keys, |left.records|, left.rest + [b]);
    PlainConcat(keys, 0, left.records, SplitRecords(ok, left.rest + [b]).records);
  }

  /** Up to the next boundary at most one record is completed. */
  lemma OneRecordAhead(ok: Decoder, keys: Keys, wire: seq<Byte>, p: nat)
    requires p <= |wire| && Shrinks(keys)
    ensures |PlainAhead(ok, keys, wire, p)| <= |PlainOf(ok, keys, wire[..p])| + MAX_PAYLOAD
  {
    var b := NextBoundary(ok, wire, p);
    if p < b {
      NoBoundaryNoRecord(ok, wire, p, b - 1);
      assert wire[..b] == wire[..b - 1] + [wire[b - 1]];
      OneMoreByte(ok, keys, wire[..b - 1], wire[b - 1]);
    }
  }

  /** A session that holds no more than one record's plaintext has at most two records' to hand out. */
  lemma LeanIsShortAhead(ok: Decoder, keys: Keys, s: Session)
    requires TlsSessions.Inv(ok, keys, s) && Shrinks(keys) && Lean(s)
    ensures |PlainAhead(ok, keys, s.tap.cork.io.wire, s.tap.cork.io.pos)| <= |s.taken| + 2 * MAX_PAYLOAD
  {
    var io := s.tap.cork.io;
    OneRecordAhead(ok, keys, io.wire, io.pos);
    PulledIsOpened(ok, s.tap);
    assert |s.taken + s.plain| == |PlainOf(ok, keys, io.Pulled())|;
  }

  // ---------------------------------------------------------------- empty records

  /** Some record of the stream has no payload. */
  ghost predicate HasEmptyRecord(ok: Decoder, wire: seq<Byte>) {
    exists record :: record in SplitRecords(ok, wire).records && |record| == HEADER_LEN
  }

  lemma RestAtBoundary(ok: Decoder, s: seq<Byte>)
    requires Parse(ok, s) == BOUNDARY
    ensures SplitRecords(ok, s).rest == []
  {
    ParserAgreesWithSplitter(ok, s);
  }

  lemma EmptyRecordIn(ok: Decoder, before: seq<Byte>, header: seq<Byte>, behind: seq<Byte>)
    requires Parse(ok, before) == BOUNDARY
    requires |header| == HEADER_LEN && Decodes(ok, header) && PayloadLength(header) == 0
    ensures HasEmptyRecord(ok, before + (header + behind))
  {
    RestAtBoundary(ok, before);
    SplitConcat(ok, before, header + behind);
    assert [] + (header + behind) == header + behind;
    WholeRecordIsPrefix(ok, header, behind);
    var records := SplitRecords(ok, header + behind).records;
    assert records[0] == header[..HEADER_LEN] == header;
    assert header in records;
  }

  /** A poll that comes to an empty payload has met an empty record. */
  lemma EmptyPayloadIsEmptyRecord(ok: Decoder, t: Tap, room: nat)
    requires CorkStreams.Inv(ok, t) && t.cork.state.ReadHeader? && RoomFor(ok, t.cork, room)
    requires PollRead(ok, t.cork, room).cork.state == ReadPayload(0, 0)
    ensures HasEmptyRecord(ok, t.cork.io.wire)
  {
    var s := PollRead(ok, t.cork, room);
    HeaderPollDecodes(ok, t.cork);
    PollIsGood(ok, t.cork, t.out, room);
    EmptyRecordIn(ok, t.out, s.bytes, s.cork.io.Unread());
    Rejoin(t.out, s.bytes, s.cork.io);
  }

  lemma Rejoin(out: seq<Byte>, bytes: seq<Byte>, io: Io)
    requires io.Valid() && (out + bytes) + [] == io.Pulled()
    ensures out + (bytes + io.Unread()) == io.wire
  {
    assert out + (bytes + io.Unread()) == (out + bytes) + io.Unread() == io.Pulled() + io.Unread();
  }
}
