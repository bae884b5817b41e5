/**
  TLS record framing: a five-byte header (content type, two version bytes, a
  16-bit big-endian length), then a payload of that length. Two definitions are
  given, a byte-at-a-time parser and a splitter into whole records, and they are
  proved to agree on every byte string.
 */
module Framing {
  import opened Octets

  /** Whether the content type and the two version bytes of a header decode. */
  type Decoder = (Byte, Byte, Byte) -> bool

  const HEADER_LEN := 5

  predicate Decodes(ok: Decoder, header: seq<Byte>)
    requires |header| >= HEADER_LEN
  {
    ok(header[0], header[1], header[2])
  }

  function PayloadLength(header: seq<Byte>): nat
    requires |header| >= HEADER_LEN
  {
    FromBigEndian(header[3..HEADER_LEN])
  }

  /** A header as section 6.2.1 of RFC 5246 has it: content type, version, length. */
  lemma HeaderFields(ok: Decoder, header: seq<Byte>, n: nat)
    requires |header| == 5 && n < 65536 && header[3..5] == ToBigEndian(n, 2)
    ensures (Decodes(ok, header) <==> ok(header[0], header[1], header[2])) && PayloadLength(header) == n
  {
    BigEndianRoundTrip(n, 2);
    assert Pow256(2) == 256 * Pow256(1) == 65536;
  }

  // ---------------------------------------------------------------- byte-at-a-time parser

  /** Where a parser stands inside a stream of records. */
  datatype Frame =
    | InHeader(prefix: seq<Byte>)
    | InPayload(size: nat, offset: nat)
    | Opaque  // an undecodable header was met: nothing after it is framed

  const BOUNDARY := InHeader([])

  function AfterHeader(ok: Decoder, header: seq<Byte>): Frame
    requires |header| >= HEADER_LEN
  {
    if !Decodes(ok, header) then Opaque
    else if PayloadLength(header) == 0 then BOUNDARY
    else InPayload(PayloadLength(header), 0)
  }

  function Advance(ok: Decoder, f: Frame, b: Byte): Frame
  {
    match f
    case InHeader(p) => if |p| + 1 == HEADER_LEN then AfterHeader(ok, p + [b]) else InHeader(p + [b])
    case InPayload(size, offset) => if offset + 1 < size then InPayload(size, offset + 1) else BOUNDARY
    case Opaque => Opaque
  }

  function Run(ok: Decoder, f: Frame, s: seq<Byte>): Frame
    decreases |s|
  {
    if s == [] then f else Run(ok, Advance(ok, f, s[0]), s[1..])
  }

  /** The parser's position after reading `s` from the start of a stream. */
  function Parse(ok: Decoder, s: seq<Byte>): Frame
  {
    Run(ok, BOUNDARY, s)
  }

  lemma {:induction false} RunConcat(ok: Decoder, f: Frame, a: seq<Byte>, b: seq<Byte>)
    ensures Run(ok, f, a + b) == Run(ok, Run(ok, f, a), b)
    decreases |a|
  {
    if a == [] {
      assert a + b == b;
    } else {
      assert (a + b)[1..] == a[1..] + b;
      RunConcat(ok, Advance(ok, f, a[0]), a[1..], b);
    }
  }

  lemma {:induction false} RunHeader(ok: Decoder, p: seq<Byte>, s: seq<Byte>)
    requires |p| < HEADER_LEN && |p| + |s| <= HEADER_LEN
    ensures Run(ok, InHeader(p), s) ==
            if |p| + |s| == HEADER_LEN then AfterHeader(ok, p + s) else InHeader(p + s)
    decreases |s|
  {
    if s == [] {
      assert p + s == p;
    } else if |p| + 1 < HEADER_LEN {
      assert p + s == (p + [s[0]]) + s[1..];
      RunHeader(ok, p + [s[0]], s[1..]);
    } else {
      assert s == [s[0]];
    }
  }

  lemma {:induction false} RunPayload(ok: Decoder, size: nat, offset: nat, s: seq<Byte>)
    requires offset < size && offset + |s| <= size
    ensures Run(ok, InPayload(size, offset), s) ==
            if offset + |s| == size then BOUNDARY else InPayload(size, offset + |s|)
    decreases |s|
  {
    if s != [] {
      if offset + 1 < size {
        RunPayload(ok, size, offset + 1, s[1..]);
      } else {
        assert s[1..] == [];
      }
    }
  }

  lemma {:induction false} RunOpaque(ok: Decoder, s: seq<Byte>)
    ensures Run(ok, Opaque, s) == Opaque
    decreases |s|
  {
    if s != [] {
      RunOpaque(ok, s[1..]);
    }
  }

  // ---------------------------------------------------------------- splitter into records

  datatype Split = Split(records: seq<seq<Byte>>, rest: seq<Byte>)

  predicate HasWholeRecord(ok: Decoder, s: seq<Byte>)
  {
    |s| >= HEADER_LEN && Decodes(ok, s) && |s| >= HEADER_LEN + PayloadLength(s)
  }

  /** All whole records at the front of `s`, and the bytes left behind them. */
  function SplitRecords(ok: Decoder, s: seq<Byte>): Split
    decreases |s|
  {
    if !HasWholeRecord(ok, s) then Split([], s)
    else
      var n := HEADER_LEN + PayloadLength(s);
      var tail := SplitRecords(ok, s[n..]);
      Split([s[..n]] + tail.records, tail.rest)
  }

  function Flatten(records: seq<seq<Byte>>): seq<Byte>
  {
    if records == [] then [] else records[0] + Flatten(records[1..])
  }

  /** Splitting loses nothing, and what is left holds no whole record. */
  lemma {:induction false} SplitLosesNothing(ok: Decoder, s: seq<Byte>)
    ensures Flatten(SplitRecords(ok, s).records) + SplitRecords(ok, s).rest == s
    ensures !HasWholeRecord(ok, SplitRecords(ok, s).rest)
    decreases |s|
  {
    if HasWholeRecord(ok, s) {
      var n := HEADER_LEN + PayloadLength(s);
      var tail := SplitRecords(ok, s[n..]);
      SplitLosesNothing(ok, s[n..]);
      var records := [s[..n]] + tail.records;
      assert records[1..] == tail.records;
      assert Flatten(records) + tail.rest == s[..n] + (Flatten(tail.records) + tail.rest);
      assert s == s[..n] + s[n..];
    }
  }

  lemma WholeRecordIsPrefix(ok: Decoder, a: seq<Byte>, b: seq<Byte>)
    requires HasWholeRecord(ok, a)
    ensures HasWholeRecord(ok, a + b) && PayloadLength(a + b) == PayloadLength(a)
    ensures var n := HEADER_LEN + PayloadLength(a);
            (a + b)[..n] == a[..n] && (a + b)[n..] == a[n..] + b
  {
    assert (a + b)[3..HEADER_LEN] == a[3..HEADER_LEN];
  }

  /** One whole record and nothing else. */
  predicate IsRecord(ok: Decoder, r: seq<Byte>) {
    HasWholeRecord(ok, r) && |r| == HEADER_LEN + PayloadLength(r)
  }

  lemma SplitFirst(ok: Decoder, record: seq<Byte>, tail: seq<Byte>)
    requires IsRecord(ok, record)
    ensures var split := SplitRecords(ok, tail);
            SplitRecords(ok, record + tail) == Split([record] + split.records, split.rest)
  {
    WholeRecordIsPrefix(ok, record, tail);
    assert record[|record|..] + tail == tail && record[..|record|] == record;
  }

  /** Records put one behind the other are split apart again. */
  lemma {:induction false} SplitUndoesFlatten(ok: Decoder, records: seq<seq<Byte>>)
    requires forall r :: r in records ==> IsRecord(ok, r)
    ensures SplitRecords(ok, Flatten(records)) == Split(records, [])
    decreases |records|
  {
    if records != [] {
      assert records[0] in records;
      SplitUndoesFlatten(ok, records[1..]);
      SplitFirst(ok, records[0], Flatten(records[1..]));
      assert [records[0]] + records[1..] == records;
    }
  }

  /** Feeding more bytes behind `a` only affects what `a` left over. */
  lemma {:induction false} SplitConcat(ok: Decoder, a: seq<Byte>, b: seq<Byte>)
    ensures var left := SplitRecords(ok, a);
            var right := SplitRecords(ok, left.rest + b);
            SplitRecords(ok, a + b) == Split(left.records + right.records, right.rest)
    decreases |a|
  {
    if HasWholeRecord(ok, a) {
      var n := HEADER_LEN + PayloadLength(a);
      var first, left := a[..n], SplitRecords(ok, a[n..]);
      var right := SplitRecords(ok, left.rest + b);
      WholeRecordIsPrefix(ok, a, b);
      SplitConcat(ok, a[n..], b);
      assert SplitRecords(ok, a + b) == Split([first] + (left.records + right.records), right.rest);
      assert [first] + (left.records + right.records) == ([first] + left.records) + right.records;
    } else {
      assert [] + SplitRecords(ok, a + b).records == SplitRecords(ok, a + b).records;
    }
  }

  /** The position inside the first, incomplete, record of `rest`. */
  function FrameOf(ok: Decoder, rest: seq<Byte>): Frame
    requires !HasWholeRecord(ok, rest)
  {
    if |rest| < HEADER_LEN then InHeader(rest)
    else if !Decodes(ok, rest) then Opaque
    else InPayload(PayloadLength(rest), |rest| - HEADER_LEN)
  }

  lemma RunIncomplete(ok: Decoder, rest: seq<Byte>)
    requires !HasWholeRecord(ok, rest)
    ensures Parse(ok, rest) == FrameOf(ok, rest)
  {
    if |rest| < HEADER_LEN {
      RunHeader(ok, [], rest);
      assert [] + rest == rest;
    } else {
      RunThroughHeader(ok, rest);
      if Decodes(ok, rest) {
        RunPayload(ok, PayloadLength(rest), 0, rest[HEADER_LEN..]);
      } else {
        RunOpaque(ok, rest[HEADER_LEN..]);
      }
    }
  }

  lemma RunThroughHeader(ok: Decoder, s: seq<Byte>)
    requires |s| >= HEADER_LEN
    ensures Parse(ok, s) == Run(ok, AfterHeader(ok, s), s[HEADER_LEN..])
  {
    var h := s[..HEADER_LEN];
    assert s == h + s[HEADER_LEN..];
    RunConcat(ok, BOUNDARY, h, s[HEADER_LEN..]);
    RunHeader(ok, [], h);
    assert [] + h == h && h[3..HEADER_LEN] == s[3..HEADER_LEN];
  }

  lemma RunWholeRecord(ok: Decoder, r: seq<Byte>)
    requires HasWholeRecord(ok, r) && |r| == HEADER_LEN + PayloadLength(r)
    ensures Parse(ok, r) == BOUNDARY
  {
    RunThroughHeader(ok, r);
    if PayloadLength(r) > 0 {
      RunPayload(ok, PayloadLength(r), 0, r[HEADER_LEN..]);
    }
  }

  /** The two definitions of framing agree on every byte string. */
  lemma {:induction false} ParserAgreesWithSplitter(ok: Decoder, s: seq<Byte>)
    ensures !HasWholeRecord(ok, SplitRecords(ok, s).rest)
    ensures Parse(ok, s) == FrameOf(ok, SplitRecords(ok, s).rest)
    decreases |s|
  {
    if HasWholeRecord(ok, s) {
      var n := HEADER_LEN + PayloadLength(s);
      var r := s[..n];
      assert r[3..HEADER_LEN] == s[3..HEADER_LEN];
      assert s == r + s[n..];
      RunConcat(ok, BOUNDARY, r, s[n..]);
      RunWholeRecord(ok, r);
      ParserAgreesWithSplitter(ok, s[n..]);
    } else {
      RunIncomplete(ok, s);
    }
  }
}
