/**
  What the drain buffer would lose of a session that polls whether it holds plaintext or
  not. Sessions read as in `KtlsSetup` never get there.
 */
module EagerPolling {
  import opened Octets
  import opened Framing
  import opened ByteSource
  import opened CorkStreams
  import opened TlsSessions
  import opened Handover
  import opened KtlsSetup

  /** Keys under which a record opens to its payload. */
  const PAYLOAD_KEYS := Keys(0, (n: nat, r: seq<Byte>) => if |r| < HEADER_LEN then [] else r[HEADER_LEN..])

  function Times(record: seq<Byte>, n: nat): (records: seq<seq<Byte>>)
    ensures |records| == n && forall r :: r in records ==> r == record
  {
    if n == 0 then [] else [record] + Times(record, n - 1)
  }

  function Copies(record: seq<Byte>, n: nat): seq<Byte>
  {
    Flatten(Times(record, n))
  }

  lemma CopiesCons(record: seq<Byte>, n: nat)
    requires n > 0
    ensures Copies(record, n) == record + Copies(record, n - 1)
  {
    assert Times(record, n)[1..] == Times(record, n - 1);
  }

  lemma {:induction false} CopiesPlain(record: seq<Byte>, n: nat, k: nat)
    requires |record| >= HEADER_LEN
    ensures |Plain(PAYLOAD_KEYS, k, Times(record, n))| == n * (|record| - HEADER_LEN)
    decreases n
  {
    if n > 0 {
      assert Times(record, n)[1..] == Times(record, n - 1);
      CopiesPlain(record, n - 1, k + 1);
      var m := |record| - HEADER_LEN;
      assert n * m == (n - 1) * m + m;
    }
  }

  /** Two polls for each of `n` records, whether plaintext is held or not. */
  function EagerPolls(n: nat, room: nat): seq<SessionEvent>
  {
    if n == 0 then [] else [PollIo(room), PollIo(room)] + EagerPolls(n - 1, room)
  }

  function EagerTurns(n: nat, limit: nat): seq<Turn>
  {
    if n == 0 then [] else [Give(limit), Give(limit)] + EagerTurns(n - 1, limit)
  }

  lemma OneRecordPolled(ok: Decoder, keys: Keys, s: Session, record: seq<Byte>, tail: seq<Byte>)
    requires IsRecord(ok, record) && |record| > HEADER_LEN
    requires s.tap.cork.Valid() && !s.tap.cork.corked && s.tap.cork.state == ReadHeader([])
    requires s.tap.cork.io.Unread() == record + tail && |s.tap.cork.io.turns| >= 2
    requires s.tap.cork.io.turns[0] == s.tap.cork.io.turns[1] == Give(|record|)
    ensures var s1 := TlsSessions.Apply(ok, keys, s, PollIo(|record|));
            var s2 := TlsSessions.Apply(ok, keys, s1, PollIo(|record|));
            var io := s.tap.cork.io;
            && s2.tap.cork == Cork(io.(pos := io.pos + |record|, turns := io.turns[2..]), false, ReadHeader([]))
            && s2.taken == s.taken
  {
    var io := s.tap.cork.io;
    var header := record[..HEADER_LEN];
    assert io.wire[io.pos..io.pos + HEADER_LEN] == io.Unread()[..HEADER_LEN] == header;
    assert header[3..HEADER_LEN] == record[3..HEADER_LEN];
    WholeHeaderPoll(ok, s.tap.cork);
    var s1 := TlsSessions.Apply(ok, keys, s, PollIo(|record|));
    assert s1.tap.cork.state == ReadPayload(PayloadLength(record), 0);
    assert |io.Unread()| >= |record|;
    assert io.turns[1..][1..] == io.turns[2..];
  }

  /** `n` copies of the record are still to come, each of them in two pieces. */
  predicate Poised(c: Cork, record: seq<Byte>, n: nat) {
    && c.Valid() && !c.corked && c.state == ReadHeader([])
    && c.io.Unread() == Copies(record, n) && c.io.turns == EagerTurns(n, |record|)
  }

  lemma PoisedForNext(ok: Decoder, keys: Keys, s: Session, record: seq<Byte>, n: nat)
    requires IsRecord(ok, record) && |record| > HEADER_LEN
    requires n > 0 && Poised(s.tap.cork, record, n)
    ensures var s1 := TlsSessions.Apply(ok, keys, s, PollIo(|record|));
            var s2 := TlsSessions.Apply(ok, keys, s1, PollIo(|record|));
            Poised(s2.tap.cork, record, n - 1) && s2.taken == s.taken
  {
    CopiesCons(record, n);
    OneRecordPolled(ok, keys, s, record, Copies(record, n - 1));
    NextUnread(s.tap.cork.io, record, Copies(record, n - 1));
    assert EagerTurns(n, |record|)[2..] == EagerTurns(n - 1, |record|);
  }

  lemma NextUnread(io: Io, record: seq<Byte>, tail: seq<Byte>)
    requires io.Valid() && io.Unread() == record + tail
    ensures io.pos + |record| <= |io.wire| && io.wire[io.pos + |record|..] == tail
  {
    assert |io.Unread()| == |io.wire| - io.pos;
    assert io.wire[io.pos + |record|..] == io.Unread()[|record|..] == tail;
  }

  lemma TwoEvents(ok: Decoder, keys: Keys, s: Session, e1: SessionEvent, e2: SessionEvent, rest: seq<SessionEvent>)
    requires s.tap.cork.Valid()
    ensures var s2 := TlsSessions.Apply(ok, keys, TlsSessions.Apply(ok, keys, s, e1), e2);
            TlsSessions.ApplyAll(ok, keys, s, [e1, e2] + rest) == TlsSessions.ApplyAll(ok, keys, s2, rest)
  {
    var events := [e1, e2] + rest;
    assert events[1..] == [e2] + rest && events[1..][1..] == rest;
  }

  lemma EagerStep(ok: Decoder, keys: Keys, s: Session, record: seq<Byte>, n: nat) returns (s': Session)
    requires IsRecord(ok, record) && |record| > HEADER_LEN && n > 0 && Poised(s.tap.cork, record, n)
    ensures Poised(s'.tap.cork, record, n - 1) && s'.taken == s.taken
    ensures TlsSessions.ApplyAll(ok, keys, s, EagerPolls(n, |record|))
         == TlsSessions.ApplyAll(ok, keys, s', EagerPolls(n - 1, |record|))
  {
    PoisedForNext(ok, keys, s, record, n);
    TwoEvents(ok, keys, s, PollIo(|record|), PollIo(|record|), EagerPolls(n - 1, |record|));
    s' := TlsSessions.Apply(ok, keys, TlsSessions.Apply(ok, keys, s, PollIo(|record|)), PollIo(|record|));
  }

  lemma {:induction false} EagerRun(ok: Decoder, keys: Keys, s: Session, record: seq<Byte>, n: nat)
    requires IsRecord(ok, record) && |record| > HEADER_LEN && Poised(s.tap.cork, record, n)
    ensures var s' := TlsSessions.ApplyAll(ok, keys, s, EagerPolls(n, |record|));
            Poised(s'.tap.cork, record, 0) && s'.taken == s.taken
    decreases n
  {
    if n == 0 {
      assert TlsSessions.ApplyAll(ok, keys, s, []) == s;
    } else {
      var s1 := EagerStep(ok, keys, s, record, n);
      EagerRun(ok, keys, s1, record, n - 1);
    }
  }

  /** A session that has polled `n` records eagerly, is corked and drained into a full buffer. */
  function EagerSession(ok: Decoder, record: seq<Byte>, n: nat): Session
  {
    var s := NewSession(Io(Copies(record, n), 0, EagerTurns(n, |record|)));
    var polled := TlsSessions.ApplyAll(ok, PAYLOAD_KEYS, s, EagerPolls(n, |record|));
    TlsSessions.Apply(ok, PAYLOAD_KEYS, TlsSessions.Apply(ok, PAYLOAD_KEYS, polled, PutCork), Take(DRAIN_BUFFER))
  }

  /** Whenever the records hold more than the buffer, handing such a session over loses bytes. */
  lemma EagerPollingLosesBytes(ok: Decoder, record: seq<Byte>, n: nat, recSeq: seq<Byte>)
    requires IsRecord(ok, record) && |record| > HEADER_LEN
    requires n * PayloadLength(record) > DRAIN_BUFFER && FromBigEndian(recSeq) == n
    ensures var s := EagerSession(ok, record, n);
            && DrainEnded(s, DRAIN_BUFFER) && |s.taken| == DRAIN_BUFFER
            && !Seamless(ok, PAYLOAD_KEYS, s.taken, recSeq, s.tap.cork.io)
  {
    var wire := Copies(record, n);
    var s := NewSession(Io(wire, 0, EagerTurns(n, |record|)));
    NewSatisfiesInv(ok, PAYLOAD_KEYS, wire, EagerTurns(n, |record|));
    assert wire[0..] == wire;
    EagerRun(ok, PAYLOAD_KEYS, s, record, n);
    TlsSessions.RunKeepsInv(ok, PAYLOAD_KEYS, s, EagerPolls(n, |record|));
    s := TlsSessions.ApplyAll(ok, PAYLOAD_KEYS, s, EagerPolls(n, |record|));
    EventKeepsInv(ok, PAYLOAD_KEYS, s, PutCork);
    s := TlsSessions.Apply(ok, PAYLOAD_KEYS, s, PutCork);
    EverythingPulled(ok, s, record, n);
    EventKeepsInv(ok, PAYLOAD_KEYS, s, Take(DRAIN_BUFFER));
    s := TlsSessions.Apply(ok, PAYLOAD_KEYS, s, Take(DRAIN_BUFFER));
    HandoverConserves(ok, PAYLOAD_KEYS, s, recSeq);
  }

  lemma EverythingPulled(ok: Decoder, s: Session, record: seq<Byte>, n: nat)
    requires IsRecord(ok, record)
    requires TlsSessions.Inv(ok, PAYLOAD_KEYS, s) && s.taken == []
    requires s.tap.cork.io.wire == Copies(record, n) && s.tap.cork.io.pos == |s.tap.cork.io.wire|
    ensures |s.plain| == n * PayloadLength(record) && s.recordsOpened == n
  {
    PulledIsOpened(ok, s.tap);
    assert s.tap.cork.io.Pulled() == Copies(record, n) && [] + s.plain == s.plain;
    SplitUndoesFlatten(ok, Times(record, n));
    CopiesPlain(record, n, 0);
  }

  const SIXTEEN_KIB_RECORD: seq<Byte> := [23, 3, 3, 64, 0] + seq(16384, _ => 0)

  /** Nine records of sixteen kibibytes each are such a case. */
  lemma NineRecordsLoseBytes(ok: Decoder)
    requires ok(23, 3, 3)
    ensures var s := EagerSession(ok, SIXTEEN_KIB_RECORD, 9);
            DrainEnded(s, DRAIN_BUFFER) && !Seamless(ok, PAYLOAD_KEYS, s.taken, [9], s.tap.cork.io)
  {
    var length := SIXTEEN_KIB_RECORD[3..HEADER_LEN];
    assert length == [64, 0] && length[..1] == [64] && FromBigEndian([64]) == 64;
    assert [9][..0] == [] && FromBigEndian([9]) == 9;
    EagerPollingLosesBytes(ok, SIXTEEN_KIB_RECORD, 9, [9]);
  }
}
