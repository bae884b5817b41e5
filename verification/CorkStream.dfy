/**
  The inner, non-blocking byte source. `wire` is everything the peer ever sends;
  `turns` scripts how each successive poll goes, so a statement about every script
  is a statement about every schedule of short reads, stalls and failures.
 */
module ByteSource {
  import opened Octets

  datatype Turn = Stall | Fail | Give(limit: nat)

  datatype Reply = NotReady | Broken | Filled(bytes: seq<Byte>)

  datatype Io = Io(wire: seq<Byte>, pos: nat, turns: seq<Turn>) {
    predicate Valid() { pos <= |wire| }

    function Pulled(): seq<Byte>
      requires Valid()
    {
      wire[..pos]
    }

    function Unread(): seq<Byte>
      requires Valid()
    {
      wire[pos..]
    }
  }

  datatype IoStep = IoStep(io: Io, reply: Reply)

  /** What a giving turn offers at most, which is never nothing. */
  function Portion(limit: nat): (n: nat)
    ensures n > 0
  {
    if limit == 0 then 1 else limit
  }

  /** `left` is what remains of a script. */
  predicate Follows(turns: seq<Turn>, left: seq<Turn>) {
    |left| <= |turns| && left == turns[|turns| - |left|..]
  }

  /** The turns used up on the way there. */
  function Used(turns: seq<Turn>, left: seq<Turn>): (used: seq<Turn>)
    requires Follows(turns, left)
    ensures used + left == turns
  {
    turns[..|turns| - |left|]
  }

  /** How many turns of a script fail. */
  function Fails(turns: seq<Turn>): (n: nat)
    ensures n > 0 <==> Fail in turns
  {
    if turns == [] then 0 else (if turns[0] == Fail then 1 else 0) + Fails(turns[1..])
  }

  /** With `left` remaining of a script, none of the turns used up failed. */
  predicate Unbroken(turns: seq<Turn>, left: seq<Turn>) {
    Fails(turns) == Fails(left)
  }

  lemma {:induction false} FailsConcat(a: seq<Turn>, b: seq<Turn>)
    ensures Fails(a + b) == Fails(a) + Fails(b)
    decreases |a|
  {
    if a == [] {
      assert a + b == b;
    } else {
      assert (a + b)[1..] == a[1..] + b;
      FailsConcat(a[1..], b);
    }
  }

  lemma FollowsOn(turns: seq<Turn>, mid: seq<Turn>, left: seq<Turn>)
    requires Follows(turns, mid) && Follows(mid, left)
    ensures Follows(turns, left) && Used(turns, left) == Used(turns, mid) + Used(mid, left)
  {
    assert turns == Used(turns, mid) + mid == Used(turns, mid) + Used(mid, left) + left;
  }

  /**
    One inner poll with room for `cap` bytes. A ready poll returns at least one
    byte unless there is no room or the peer has nothing left to send; an empty
    reply to a non-empty request is therefore the end of the stream.
   */
  function Read(io: Io, cap: nat): (r: IoStep)
    requires io.Valid()
    ensures r.io.Valid() && r.io.wire == io.wire && io.pos <= r.io.pos
    ensures r.reply.Filled? ==> r.reply.bytes == io.wire[io.pos..r.io.pos] && |r.reply.bytes| <= cap
    ensures r.reply == Filled([]) ==> cap == 0 || io.pos == |io.wire|
    ensures !r.reply.Filled? ==> r.io.pos == io.pos
    ensures if io.turns == [] then r == IoStep(io, NotReady) else r.io.turns == io.turns[1..]
    ensures io.turns != [] ==>
              match io.turns[0]
              case Stall => r.reply == NotReady
              case Fail => r.reply == Broken
              case Give(limit) =>
                r.reply.Filled? && |r.reply.bytes| == Min(Portion(limit), Min(cap, |io.wire| - io.pos))
  {
    if io.turns == [] then IoStep(io, NotReady)
    else
      var rest := io.(turns := io.turns[1..]);
      match io.turns[0]
      case Stall => IoStep(rest, NotReady)
      case Fail => IoStep(rest, Broken)
      case Give(limit) =>
        var n := Min(Portion(limit), Min(cap, |io.wire| - io.pos));
        IoStep(rest.(pos := io.pos + n), Filled(io.wire[io.pos..io.pos + n]))
  }
}

/**
  The corking reader: it follows record framing while passing bytes through, so
  that once corked it stops exactly at the end of the record in progress.
 */
module CorkStreams {
  import opened Octets
  import opened Framing
  import opened ByteSource
  import opened ReadBuffers

  /** `header` is the part of the five-byte header buffer that has been filled so far. */
  datatype State =
    | ReadHeader(header: seq<Byte>)
    | ReadPayload(msgSize: nat, offset: nat)
    | Passthrough

  datatype Cork = Cork(io: Io, corked: bool, state: State) {
    predicate Valid() {
      && io.Valid()
      && match state
         case ReadHeader(header) => |header| < HEADER_LEN
         case ReadPayload(size, offset) => offset < size || size == 0 == offset
         case Passthrough => true
    }

    /** The next poll answers at once with an empty read. */
    predicate Stopped() {
      corked && state == ReadHeader([])
    }
  }

  function NewCork(io: Io): Cork
  {
    Cork(io, false, ReadHeader([]))
  }

  datatype Polled = Pending | Ready | Error

  /** The outcome of one poll: the new stream, and the bytes appended to the caller's buffer. */
  datatype Step = Step(cork: Cork, polled: Polled, bytes: seq<Byte>)

  function NoBytes(c: Cork, r: IoStep): Step
  {
    Step(c.(io := r.io), if r.reply == Broken then Error else Pending, [])
  }

  function DecodeHeader(ok: Decoder, header: seq<Byte>): State
    requires |header| == HEADER_LEN
  {
    if Decodes(ok, header) then ReadPayload(PayloadLength(header), 0) else Passthrough
  }

  /** One turn of the header loop; `again` when the header is still incomplete. */
  datatype HeaderTurn = HeaderTurn(again: bool, step: Step)

  function TurnHeader(ok: Decoder, c: Cork): (t: HeaderTurn)
    requires c.Valid() && c.state.ReadHeader?
    ensures t.step.cork.Valid() && |t.step.bytes| <= HEADER_LEN
    ensures t.again ==> t.step.cork.state.ReadHeader? && t.step.bytes == [] && |t.step.cork.io.turns| < |c.io.turns|
  {
    if c.Stopped() then HeaderTurn(false, Step(c, Ready, []))
    else
      var r := Read(c.io, HEADER_LEN - |c.state.header|);
      if !r.reply.Filled? then HeaderTurn(false, NoBytes(c, r))
      else
        var header := c.state.header + r.reply.bytes;
        if r.reply.bytes == [] then
          HeaderTurn(false, Step(c.(io := r.io, state := Passthrough), Ready, header))
        else if |header| == HEADER_LEN then
          HeaderTurn(false, Step(c.(io := r.io, state := DecodeHeader(ok, header)), Ready, header))
        else
          HeaderTurn(true, Step(c.(io := r.io, state := ReadHeader(header)), Pending, []))
  }

  function PollHeader(ok: Decoder, c: Cork): (s: Step)
    requires c.Valid() && c.state.ReadHeader?
    ensures s.cork.Valid() && |s.bytes| <= HEADER_LEN
    ensures c.Stopped() ==> s.bytes == []
    decreases |c.io.turns|
  {
    var t := TurnHeader(ok, c);
    if t.again then PollHeader(ok, t.step.cork) else t.step
  }

  /**
    A poll that hands header bytes on needs room for all of them, and the program
    aborts without it; five free bytes are always enough.
   */
  predicate RoomFor(ok: Decoder, c: Cork, room: nat)
    requires c.Valid()
  {
    c.state.ReadHeader? ==> |PollHeader(ok, c).bytes| <= room
  }

  function PollPayload(c: Cork, room: nat): (s: Step)
    requires c.Valid() && c.state.ReadPayload?
    ensures s.cork.Valid() && |s.bytes| <= room
  {
    var ReadPayload(size, offset) := c.state;
    var r := Read(c.io, Min(room, size - offset));
    if !r.reply.Filled? then NoBytes(c, r)
    else
      var offset' := offset + |r.reply.bytes|;
      Step(c.(io := r.io, state := if offset' == size then ReadHeader([]) else ReadPayload(size, offset')),
           Ready, r.reply.bytes)
  }

  function PollPassthrough(c: Cork, room: nat): (s: Step)
    requires c.Valid() && c.state.Passthrough?
    ensures s.cork.Valid() && |s.bytes| <= room
  {
    var r := Read(c.io, room);
    if !r.reply.Filled? then NoBytes(c, r) else Step(c.(io := r.io), Ready, r.reply.bytes)
  }

  function PollRead(ok: Decoder, c: Cork, room: nat): (s: Step)
    requires c.Valid() && RoomFor(ok, c, room)
    ensures s.cork.Valid() && |s.bytes| <= room
  {
    match c.state
    case ReadHeader(_) => PollHeader(ok, c)
    case ReadPayload(_, _) => PollPayload(c, room)
    case Passthrough => PollPassthrough(c, room)
  }

  // ---------------------------------------------------------------- framing invariant

  /** The header bytes pulled from the byte source and not yet handed to the caller. */
  function Held(st: State): seq<Byte>
  {
    if st.ReadHeader? then st.header else []
  }

  /** The framing position a state stands for. */
  function FrameOfState(st: State): Frame
  {
    match st
    case ReadHeader(header) => InHeader(header)
    case ReadPayload(size, offset) => if offset < size then InPayload(size, offset) else BOUNDARY
    case Passthrough => Opaque
  }

  /** The stream ended inside a header, and the cut header was passed on as it was. */
  predicate CutShort(ok: Decoder, c: Cork)
    requires c.io.Valid()
  {
    c.state.Passthrough? && c.io.pos == |c.io.wire| && Parse(ok, c.io.Pulled()).InHeader?
  }

  /** The state is the parser's state on the pulled bytes. */
  predicate Synced(ok: Decoder, c: Cork)
    requires c.io.Valid()
  {
    FrameOfState(c.state) == Parse(ok, c.io.Pulled()) || CutShort(ok, c)
  }

  /** `out` followed by the held header bytes is what was pulled. */
  predicate Accounted(c: Cork, out: seq<Byte>)
    requires c.io.Valid()
  {
    out + Held(c.state) == c.io.Pulled()
  }

  /** `out`, everything handed to the caller so far, and the state both follow the pulled bytes. */
  predicate Framed(ok: Decoder, c: Cork, out: seq<Byte>) {
    && c.Valid() && Accounted(c, out) && Synced(ok, c)
    && (c.state.ReadHeader? ==> Parse(ok, out) == BOUNDARY)
  }

  predicate AtBoundary(ok: Decoder, wire: seq<Byte>, p: nat)
    requires p <= |wire|
  {
    Parse(ok, wire[..p]) == BOUNDARY
  }

  predicate NoBoundaryIn(ok: Decoder, wire: seq<Byte>, lo: nat, hi: nat)
    requires hi <= |wire|
  {
    forall q :: lo <= q < hi ==> !AtBoundary(ok, wire, q)
  }

  lemma NewIsFramed(ok: Decoder, wire: seq<Byte>, turns: seq<Turn>)
    ensures Framed(ok, NewCork(Io(wire, 0, turns)), [])
  {
  }

  lemma ParseExtend(ok: Decoder, wire: seq<Byte>, p: nat, q: nat)
    requires p <= q <= |wire|
    ensures Parse(ok, wire[..q]) == Run(ok, Parse(ok, wire[..p]), wire[p..q])
  {
    assert wire[..q] == wire[..p] + wire[p..q];
    RunConcat(ok, BOUNDARY, wire[..p], wire[p..q]);
  }

  lemma HeaderBytes(ok: Decoder, wire: seq<Byte>, p: nat, p': nat, prefix: seq<Byte>)
    requires p <= p' <= |wire| && |prefix| + (p' - p) <= HEADER_LEN && |prefix| < HEADER_LEN
    requires Parse(ok, wire[..p]) == InHeader(prefix)
    ensures var full := prefix + wire[p..p'];
            Parse(ok, wire[..p']) == if |full| == HEADER_LEN then AfterHeader(ok, full) else InHeader(full)
    ensures prefix != [] ==> NoBoundaryIn(ok, wire, p, p')
  {
    forall q | p <= q <= p'
      ensures var full := prefix + wire[p..q];
              Parse(ok, wire[..q]) == if |full| == HEADER_LEN then AfterHeader(ok, full) else InHeader(full)
    {
      ParseExtend(ok, wire, p, q);
      RunHeader(ok, prefix, wire[p..q]);
    }
  }

  lemma PayloadBytes(ok: Decoder, wire: seq<Byte>, p: nat, p': nat, size: nat, offset: nat)
    requires p <= p' <= |wire| && offset < size && offset + (p' - p) <= size
    requires Parse(ok, wire[..p]) == InPayload(size, offset)
    ensures Parse(ok, wire[..p']) ==
            if offset + (p' - p) == size then BOUNDARY else InPayload(size, offset + (p' - p))
    ensures NoBoundaryIn(ok, wire, p, p')
  {
    forall q | p <= q <= p'
      ensures Parse(ok, wire[..q]) ==
              if offset + (q - p) == size then BOUNDARY else InPayload(size, offset + (q - p))
    {
      ParseExtend(ok, wire, p, q);
      RunPayload(ok, size, offset, wire[p..q]);
    }
  }

  lemma OpaqueBytes(ok: Decoder, wire: seq<Byte>, p: nat, p': nat)
    requires p <= p' <= |wire|
    requires Parse(ok, wire[..p]) == Opaque
    ensures Parse(ok, wire[..p']) == Opaque
    ensures NoBoundaryIn(ok, wire, p, p')
  {
    forall q | p <= q <= p'
      ensures Parse(ok, wire[..q]) == Opaque
    {
      ParseExtend(ok, wire, p, q);
      RunOpaque(ok, wire[p..q]);
    }
  }

  /**
    A good step from `c`: framing is kept, nothing is rewound, and a corked stream
    passes no record boundary.
   */
  predicate GoodStep(ok: Decoder, c: Cork, out: seq<Byte>, s: Step)
    requires c.Valid()
  {
    && Framed(ok, s.cork, out + s.bytes)
    && s.cork.io.wire == c.io.wire && s.cork.corked == c.corked
    && c.io.pos <= s.cork.io.pos
    && (c.corked ==> NoBoundaryIn(ok, c.io.wire, c.io.pos, s.cork.io.pos))
    && (c.corked && !c.state.Passthrough? && s.cork.state.Passthrough? ==>
          !AtBoundary(ok, c.io.wire, s.cork.io.pos))
    && (s.polled != Ready ==> s.bytes == [])
  }

  lemma GlueOutput(wire: seq<Byte>, p: nat, q: nat, out: seq<Byte>, held: seq<Byte>, bytes: seq<Byte>, held': seq<Byte>)
    requires p <= q <= |wire|
    requires out + held == wire[..p] && bytes + held' == held + wire[p..q]
    ensures (out + bytes) + held' == wire[..q]
  {
    assert (out + bytes) + held' == out + (bytes + held') == (out + held) + wire[p..q];
  }

  lemma PayloadPollIsGood(ok: Decoder, c: Cork, out: seq<Byte>, room: nat)
    requires Framed(ok, c, out) && c.state.ReadPayload?
    ensures GoodStep(ok, c, out, PollPayload(c, room))
  {
    var s := PollPayload(c, room);
    assert c.io.wire[c.io.pos..s.cork.io.pos] == s.bytes;
    GlueOutput(c.io.wire, c.io.pos, s.cork.io.pos, out, [], s.bytes, []);
    assert (out + s.bytes) + [] == out + s.bytes;
    if c.state.msgSize > 0 {
      PayloadBytes(ok, c.io.wire, c.io.pos, s.cork.io.pos, c.state.msgSize, c.state.offset);
    }
  }

  lemma PassthroughPollIsGood(ok: Decoder, c: Cork, out: seq<Byte>, room: nat)
    requires Framed(ok, c, out) && c.state.Passthrough?
    ensures GoodStep(ok, c, out, PollPassthrough(c, room))
  {
    var s := PollPassthrough(c, room);
    assert c.io.wire[c.io.pos..s.cork.io.pos] == s.bytes;
    GlueOutput(c.io.wire, c.io.pos, s.cork.io.pos, out, [], s.bytes, []);
    assert (out + s.bytes) + [] == out + s.bytes;
    if !CutShort(ok, c) {
      OpaqueBytes(ok, c.io.wire, c.io.pos, s.cork.io.pos);
    }
  }

  /** An inner read that left the header cut short, complete or still growing. */
  lemma HeaderReadIsGood(ok: Decoder, c: Cork, out: seq<Byte>, io: Io, s: Step)
    requires Framed(ok, c, out) && c.state.ReadHeader? && !c.Stopped()
    requires io.Valid() && io.wire == c.io.wire && c.io.pos <= io.pos
    requires var more := io.wire[c.io.pos..io.pos];
             var header := c.state.header + more;
             || (more == [] && io.pos == |io.wire| && s == Step(c.(io := io, state := Passthrough), Ready, header))
             || (|header| == HEADER_LEN && s == Step(c.(io := io, state := DecodeHeader(ok, header)), Ready, header))
             || (|header| < HEADER_LEN && s == Step(c.(io := io, state := ReadHeader(header)), Pending, []))
    ensures GoodStep(ok, c, out, s)
  {
    assert Accounted(s.cork, out + s.bytes) by {
      GlueOutput(io.wire, c.io.pos, io.pos, out, c.state.header, s.bytes, Held(s.cork.state));
    }
    HeaderBytes(ok, io.wire, c.io.pos, io.pos, c.state.header);
    assert Synced(ok, s.cork);
    assert s.cork.state.ReadHeader? ==> out + s.bytes == out;
  }

  lemma HeaderTurnIsGood(ok: Decoder, c: Cork, out: seq<Byte>)
    requires Framed(ok, c, out) && c.state.ReadHeader?
    ensures GoodStep(ok, c, out, TurnHeader(ok, c).step)
  {
    var s := TurnHeader(ok, c).step;
    if s.cork.state == c.state {
      assert out + [] == out;
    } else {
      HeaderReadIsGood(ok, c, out, s.cork.io, s);
    }
  }

  lemma {:induction false} HeaderPollIsGood(ok: Decoder, c: Cork, out: seq<Byte>)
    requires Framed(ok, c, out) && c.state.ReadHeader?
    ensures GoodStep(ok, c, out, PollHeader(ok, c))
    decreases |c.io.turns|
  {
    var t := TurnHeader(ok, c);
    HeaderTurnIsGood(ok, c, out);
    if t.again {
      assert out + [] == out;
      HeaderPollIsGood(ok, t.step.cork, out);
    }
  }

  /** Every poll, whatever the byte source does, is a good step. */
  lemma PollIsGood(ok: Decoder, c: Cork, out: seq<Byte>, room: nat)
    requires Framed(ok, c, out) && RoomFor(ok, c, room)
    ensures GoodStep(ok, c, out, PollRead(ok, c, room))
  {
    match c.state
    case ReadHeader(_) => HeaderPollIsGood(ok, c, out);
    case ReadPayload(_, _) => PayloadPollIsGood(ok, c, out, room);
    case Passthrough => PassthroughPollIsGood(ok, c, out, room);
  }

  // ---------------------------------------------------------------- whole runs

  datatype Event = SetCork | Poll(room: nat)

  /** A stream together with everything it has handed out. */
  datatype Tap = Tap(cork: Cork, out: seq<Byte>)

  /** A poll without the room it demands is not a step: the program aborts on it. */
  function Apply(ok: Decoder, t: Tap, e: Event): Tap
    requires t.cork.Valid()
  {
    match e
    case SetCork => t.(cork := t.cork.(corked := true))
    case Poll(room) =>
      if !RoomFor(ok, t.cork, room) then t
      else var s := PollRead(ok, t.cork, room); Tap(s.cork, t.out + s.bytes)
  }

  function ApplyAll(ok: Decoder, t: Tap, events: seq<Event>): (t': Tap)
    requires t.cork.Valid()
    ensures t'.cork.Valid()
    decreases |events|
  {
    if events == [] then t else ApplyAll(ok, Apply(ok, t, events[0]), events[1..])
  }

  predicate Inv(ok: Decoder, t: Tap) {
    Framed(ok, t.cork, t.out)
  }

  /**
    Over every run, corked or not: bytes handed out are the pulled bytes less the held
    header prefix, and the state is the parser's state on them. Once corked, no record
    boundary is passed.
   */
  lemma {:induction false} RunKeepsFraming(ok: Decoder, t: Tap, events: seq<Event>)
    requires Inv(ok, t)
    ensures var t' := ApplyAll(ok, t, events);
            && Inv(ok, t')
            && t'.cork.io.wire == t.cork.io.wire && t.cork.io.pos <= t'.cork.io.pos
            && (t.cork.corked ==> t'.cork.corked)
            && (t.cork.corked ==> NoBoundaryIn(ok, t.cork.io.wire, t.cork.io.pos, t'.cork.io.pos))
    decreases |events|
  {
    if events != [] {
      if events[0].Poll? && RoomFor(ok, t.cork, events[0].room) {
        PollIsGood(ok, t.cork, t.out, events[0].room);
      }
      RunKeepsFraming(ok, Apply(ok, t, events[0]), events[1..]);
    }
  }

  /** A corked stream at a boundary answers every later poll with an empty read and no I/O. */
  lemma {:induction false} StoppedForever(ok: Decoder, t: Tap, events: seq<Event>)
    requires t.cork.Valid() && t.cork.Stopped()
    ensures ApplyAll(ok, t, events) == t
    ensures forall room :: RoomFor(ok, t.cork, room) && PollRead(ok, t.cork, room) == Step(t.cork, Ready, [])
    decreases |events|
  {
    if events != [] {
      assert t.out + [] == t.out;
      StoppedForever(ok, t, events[1..]);
    }
  }

  /**
    Any two runs that have pulled the same bytes, however the byte source split them, differ at
    most in header bytes still held; if both or neither met the end of the stream inside a
    header, they have handed out the same bytes and stand at the same framing position.
   */
  lemma ChunkingIndependence(ok: Decoder, wire1: seq<Byte>, turns1: seq<Turn>, events1: seq<Event>,
                             wire2: seq<Byte>, turns2: seq<Turn>, events2: seq<Event>)
    ensures var t1 := ApplyAll(ok, Tap(NewCork(Io(wire1, 0, turns1)), []), events1);
            var t2 := ApplyAll(ok, Tap(NewCork(Io(wire2, 0, turns2)), []), events2);
            t1.cork.io.Pulled() == t2.cork.io.Pulled() ==>
              && t1.out + Held(t1.cork.state) == t2.out + Held(t2.cork.state)
              && (CutShort(ok, t1.cork) == CutShort(ok, t2.cork) ==>
                    t1.out == t2.out && FrameOfState(t1.cork.state) == FrameOfState(t2.cork.state))
  {
    var t1 := Tap(NewCork(Io(wire1, 0, turns1)), []);
    var t2 := Tap(NewCork(Io(wire2, 0, turns2)), []);
    NewIsFramed(ok, wire1, turns1);
    NewIsFramed(ok, wire2, turns2);
    RunKeepsFraming(ok, t1, events1);
    RunKeepsFraming(ok, t2, events2);
    t1, t2 := ApplyAll(ok, t1, events1), ApplyAll(ok, t2, events2);
    if t1.cork.io.Pulled() == t2.cork.io.Pulled() && CutShort(ok, t1.cork) == CutShort(ok, t2.cork) {
      SameFrameSameOutput(ok, t1, t2);
    }
  }

  lemma SameFrameSameOutput(ok: Decoder, t1: Tap, t2: Tap)
    requires Inv(ok, t1) && Inv(ok, t2)
    requires CutShort(ok, t1.cork) == CutShort(ok, t2.cork)
    requires t1.cork.io.Pulled() == t2.cork.io.Pulled()
    ensures t1.out == t2.out && FrameOfState(t1.cork.state) == FrameOfState(t2.cork.state)
  {
    var held1, held2 := Held(t1.cork.state), Held(t2.cork.state);
    assert held1 == held2;
    var pulled := t1.cork.io.Pulled();
    assert t1.out == pulled[..|pulled| - |held1|] == t2.out;
  }

  /** A ready poll of a stream that is not stopped moves forward, reports the end, or closes an empty record. */
  lemma {:induction false} PollProgress(ok: Decoder, c: Cork, room: nat)
    requires c.Valid() && RoomFor(ok, c, room) && room > 0 && !c.Stopped()
    requires PollRead(ok, c, room).polled == Ready
    ensures var c' := PollRead(ok, c, room).cork;
            || c.io.pos < c'.io.pos
            || c.io.pos == |c.io.wire|
            || (c.state == ReadPayload(0, 0) && c' == c.(io := c'.io, state := ReadHeader([])))
  {
    if c.state.ReadHeader? {
      HeaderPollAdvances(ok, c);
    }
  }

  lemma {:induction false} HeaderPollAdvances(ok: Decoder, c: Cork)
    requires c.Valid() && c.state.ReadHeader? && !c.Stopped()
    ensures var s := PollHeader(ok, c);
            c.io.pos <= s.cork.io.pos && (s.polled == Ready ==> c.io.pos < s.cork.io.pos || c.io.pos == |c.io.wire|)
    decreases |c.io.turns|
  {
    if TurnHeader(ok, c).again {
      HeaderPollAdvances(ok, TurnHeader(ok, c).step.cork);
    }
  }

  /** Nothing more will be pulled: the cork has stopped, or the peer has nothing left. */
  predicate AtRest(c: Cork) {
    c.Stopped() || c.io.pos == |c.io.wire|
  }

  /** A ready read is empty exactly at a stop, at the end of the stream and behind the header of an empty record. */
  lemma ReadIsEmptyIff(ok: Decoder, c: Cork, room: nat)
    requires c.Valid() && RoomFor(ok, c, room) && room > 0
    requires PollRead(ok, c, room).polled == Ready
    ensures PollRead(ok, c, room).bytes == [] <==>
            || c.Stopped()
            || c.state == ReadPayload(0, 0)
            || (c.io.pos == |c.io.wire| && Held(c.state) == [])
  {
    if c.state.ReadHeader? && !c.Stopped() {
      HeaderPollTakesTurns(ok, c);
    }
  }

  /**
    A reader takes an empty ready read for the end of the stream. It means that nothing more
    will be pulled exactly when the stream is corked, or is not behind the header of an empty
    record with more to come.
   */
  lemma EmptyReadMeansAtRestIff(ok: Decoder, c: Cork, room: nat)
    requires c.Valid() && RoomFor(ok, c, room) && room > 0
    requires PollRead(ok, c, room).polled == Ready && PollRead(ok, c, room).bytes == []
    ensures AtRest(PollRead(ok, c, room).cork) <==>
            c.corked || c.state != ReadPayload(0, 0) || c.io.pos == |c.io.wire|
  {
    ReadIsEmptyIff(ok, c, room);
    if c.state.ReadHeader? && !c.Stopped() {
      HeaderPollTakesTurns(ok, c);
    }
  }

  /** A header that comes in one piece. */
  lemma WholeHeaderPoll(ok: Decoder, c: Cork)
    requires c.Valid() && !c.corked && c.state == ReadHeader([])
    requires c.io.turns != [] && c.io.turns[0].Give? && c.io.turns[0].limit >= HEADER_LEN
    requires c.io.pos + HEADER_LEN <= |c.io.wire|
    ensures var header := c.io.wire[c.io.pos..c.io.pos + HEADER_LEN];
            var io := c.io.(pos := c.io.pos + HEADER_LEN, turns := c.io.turns[1..]);
            PollHeader(ok, c) == Step(c.(io := io, state := DecodeHeader(ok, header)), Ready, header)
  {
    var header := c.io.wire[c.io.pos..c.io.pos + HEADER_LEN];
    assert [] + header == header;
  }

  /** An empty record ahead of more bytes: the second ready poll is empty, with all of them still to come. */
  lemma EmptyRecordLooksLikeTheEnd(ok: Decoder, record: seq<Byte>, more: seq<Byte>)
    requires |record| == HEADER_LEN && Decodes(ok, record) && PayloadLength(record) == 0 && more != []
    ensures var c := NewCork(Io(record + more, 0, [Give(HEADER_LEN), Give(HEADER_LEN)]));
            var s := PollHeader(ok, c);
            && s.polled == Ready && s.bytes == record && s.cork.state == ReadPayload(0, 0)
            && var s' := PollPayload(s.cork, HEADER_LEN);
               s'.polled == Ready && s'.bytes == [] && !AtRest(s'.cork) && s'.cork.io.Unread() == more
  {
    var c := NewCork(Io(record + more, 0, [Give(HEADER_LEN), Give(HEADER_LEN)]));
    WholeHeaderPoll(ok, c);
    assert (record + more)[0..HEADER_LEN] == record && (record + more)[HEADER_LEN..] == more;
  }

  lemma {:induction false} HeaderPollTakesTurns(ok: Decoder, c: Cork)
    requires c.Valid() && c.state.ReadHeader? && !c.Stopped()
    ensures var s := PollHeader(ok, c);
            && s.cork.io.wire == c.io.wire && s.cork.corked == c.corked
            && (s.polled == Ready && s.bytes == [] ==> s.cork.io.pos == |s.cork.io.wire|)
            && (s.polled == Ready ==> (s.bytes == [] <==> c.state.header == [] && c.io.pos == |c.io.wire|))
            && (c.io.turns != [] ==> |s.cork.io.turns| < |c.io.turns|)
            && |s.cork.io.turns| <= |c.io.turns|
    decreases |c.io.turns|
  {
    if TurnHeader(ok, c).again {
      HeaderPollTakesTurns(ok, TurnHeader(ok, c).step.cork);
    }
  }

  /**
    How a poll of a stream that is not stopped comes out, by the turns it used: it gives up
    at the first stall or failure and passes that on, and otherwise only when the script is
    over and the header, or anything at all, is still missing.
   */
  predicate ByTheScript(c: Cork, s: Step) {
    && Follows(c.io.turns, s.cork.io.turns)
    && var used := Used(c.io.turns, s.cork.io.turns);
       if used == [] then
         c.io.turns == [] && s == Step(c, Pending, [])
       else
         && (forall i :: 0 <= i < |used| - 1 ==> used[i].Give?)
         && match used[|used| - 1]
            case Stall => s.polled == Pending
            case Fail => s.polled == Error
            case Give(_) =>
              if c.state.ReadHeader? && s.cork.state.ReadHeader?
              then s.polled == Pending && s.cork.io.turns == []
              else s.polled == Ready
  }

  /** On every script: an error is passed on, and a short read is not taken for the end of a poll. */
  lemma PollFollowsTheScript(ok: Decoder, c: Cork, room: nat)
    requires c.Valid() && RoomFor(ok, c, room) && !c.Stopped()
    ensures ByTheScript(c, PollRead(ok, c, room))
  {
    if c.state.ReadHeader? {
      HeaderPollFollowsTheScript(ok, c);
    }
  }

  lemma {:induction false} HeaderPollFollowsTheScript(ok: Decoder, c: Cork)
    requires c.Valid() && c.state.ReadHeader? && !c.Stopped()
    ensures ByTheScript(c, PollHeader(ok, c))
    decreases |c.io.turns|
  {
    var t := TurnHeader(ok, c);
    HeaderTurnFollowsTheScript(ok, c);
    if t.again {
      HeaderPollFollowsTheScript(ok, t.step.cork);
      OneMoreGive(c, t.step.cork, PollHeader(ok, t.step.cork));
    }
  }

  lemma HeaderTurnFollowsTheScript(ok: Decoder, c: Cork)
    requires c.Valid() && c.state.ReadHeader? && !c.Stopped()
    ensures var t := TurnHeader(ok, c);
            if t.again then
              && !t.step.cork.Stopped()
              && c.io.turns != [] && c.io.turns[0].Give? && t.step.cork.io.turns == c.io.turns[1..]
            else ByTheScript(c, t.step)
  {
  }

  lemma OneMoreGive(c: Cork, c': Cork, s: Step)
    requires c.state.ReadHeader? && c'.state.ReadHeader? && ByTheScript(c', s)
    requires c.io.turns != [] && c.io.turns[0].Give? && c'.io.turns == c.io.turns[1..]
    ensures ByTheScript(c, s)
  {
    assert Used(c.io.turns, c'.io.turns) == [c.io.turns[0]];
    FollowsOn(c.io.turns, c'.io.turns, s.cork.io.turns);
    var used := Used(c'.io.turns, s.cork.io.turns);
    assert Used(c.io.turns, s.cork.io.turns) == [c.io.turns[0]] + used;
  }

  /** Behind a header, a ready read takes all that the turn, the room and the record in progress allow. */
  lemma PollTakesAll(ok: Decoder, c: Cork, room: nat)
    requires c.Valid() && !c.state.ReadHeader? && c.io.turns != [] && c.io.turns[0].Give?
    ensures var allowed := if c.state.Passthrough? then room else Min(room, c.state.msgSize - c.state.offset);
            |PollRead(ok, c, room).bytes| == Min(Portion(c.io.turns[0].limit), Min(allowed, |c.io.Unread()|))
  {
  }

  /** A header poll that comes to a payload has handed out the header that announces it. */
  lemma {:induction false} HeaderPollDecodes(ok: Decoder, c: Cork)
    requires c.Valid() && c.state.ReadHeader? && PollHeader(ok, c).cork.state.ReadPayload?
    ensures var s := PollHeader(ok, c);
            |s.bytes| == HEADER_LEN && Decodes(ok, s.bytes) && s.cork.state == ReadPayload(PayloadLength(s.bytes), 0)
    decreases |c.io.turns|
  {
    if TurnHeader(ok, c).again {
      HeaderPollDecodes(ok, TurnHeader(ok, c).step.cork);
    }
  }

  /** How many turns of a script give something. */
  function Gives(turns: seq<Turn>): nat
  {
    if turns == [] then 0 else (if turns[0].Give? then 1 else 0) + Gives(turns[1..])
  }

  /** What giving turns have been used for: a byte each, or to learn that a header is cut short. */
  function Spent(c: Cork): nat
  {
    c.io.pos + if c.state.Passthrough? then 1 else 0
  }

  /** From `c` to `c'` at most one giving turn was used for each byte, and `empties` for empty reads. */
  predicate UsedUp(c: Cork, c': Cork, empties: nat) {
    && Spent(c) <= Spent(c')
    && Gives(c.io.turns) <= Gives(c'.io.turns) + (Spent(c') - Spent(c)) + empties
  }

  /** A poll gets ahead with each giving turn but for an empty read. */
  predicate TurnsUsed(c: Cork, s: Step) {
    UsedUp(c, s.cork, if s.polled == Ready && s.bytes == [] then 1 else 0)
  }

  lemma PollUsesTurns(ok: Decoder, c: Cork, room: nat)
    requires c.Valid() && RoomFor(ok, c, room) && room > 0
    ensures TurnsUsed(c, PollRead(ok, c, room))
  {
    if c.state.ReadHeader? {
      HeaderPollUsesTurns(ok, c);
    }
  }

  lemma {:induction false} HeaderPollUsesTurns(ok: Decoder, c: Cork)
    requires c.Valid() && c.state.ReadHeader?
    ensures TurnsUsed(c, PollHeader(ok, c))
    decreases |c.io.turns|
  {
    if TurnHeader(ok, c).again {
      HeaderPollUsesTurns(ok, TurnHeader(ok, c).step.cork);
    }
  }

  /** Every event is a poll with enough room that comes back ready. */
  predicate AllReady(ok: Decoder, t: Tap, events: seq<Event>)
    requires t.cork.Valid()
    decreases |events|
  {
    events == [] ||
    (&& events[0].Poll? && events[0].room > 0 && RoomFor(ok, t.cork, events[0].room)
     && PollRead(ok, t.cork, events[0].room).polled == Ready
     && AllReady(ok, Apply(ok, t, events[0]), events[1..]))
  }

  /**
    With a record boundary `b` still ahead, a corked stream is stopped, at `b` or at an
    earlier boundary, after at most one ready poll per byte of distance, plus one.
   */
  lemma {:induction false} CorkReachesBoundary(ok: Decoder, t: Tap, events: seq<Event>, b: nat)
    requires Inv(ok, t) && t.cork.corked && !t.cork.state.Passthrough?
    requires t.cork.io.pos <= b <= |t.cork.io.wire| && AtBoundary(ok, t.cork.io.wire, b)
    requires AllReady(ok, t, events) && |events| > b - t.cork.io.pos
    ensures ApplyAll(ok, t, events).cork.Stopped()
    decreases |events|
  {
    if t.cork.Stopped() {
      StoppedForever(ok, t, events);
      return;
    }
    var t' := Apply(ok, t, events[0]);
    ReadyPollNearsBoundary(ok, t, events[0].room, b);
    if t'.cork.Stopped() {
      StoppedForever(ok, t', events[1..]);
    } else {
      CorkReachesBoundary(ok, t', events[1..], b);
    }
  }

  /** Each ready poll of a corked stream on its way to a boundary gets nearer to it, or stops. */
  lemma ReadyPollNearsBoundary(ok: Decoder, t: Tap, room: nat, b: nat)
    requires Inv(ok, t) && t.cork.corked && !t.cork.state.Passthrough? && !t.cork.Stopped()
    requires t.cork.io.pos <= b <= |t.cork.io.wire| && AtBoundary(ok, t.cork.io.wire, b)
    requires room > 0 && RoomFor(ok, t.cork, room) && PollRead(ok, t.cork, room).polled == Ready
    ensures var t' := Apply(ok, t, Poll(room));
            && Inv(ok, t') && t'.cork.corked && t'.cork.io.wire == t.cork.io.wire && t'.cork.io.pos <= b
            && (t'.cork.Stopped() || (t.cork.io.pos < t'.cork.io.pos && !t'.cork.state.Passthrough?))
  {
    var t' := Apply(ok, t, Poll(room));
    PollIsGood(ok, t.cork, t.out, room);
    PollProgress(ok, t.cork, room);
    if t'.cork.state.Passthrough? && t'.cork.io.pos < b {
      PassthroughIsFinal(ok, t', b);
    }
  }

  lemma PassthroughIsFinal(ok: Decoder, t: Tap, b: nat)
    requires Inv(ok, t) && t.cork.state.Passthrough? && !CutShort(ok, t.cork)
    requires t.cork.io.pos <= b <= |t.cork.io.wire|
    ensures !AtBoundary(ok, t.cork.io.wire, b)
  {
    OpaqueBytes(ok, t.cork.io.wire, t.cork.io.pos, b);
  }

  // ---------------------------------------------------------------- the stream itself

  class CorkStream {
    const ok: Decoder
    var io: Io
    var corked: bool
    var state: State

    function View(): Cork
      reads this
    {
      Cork(io, corked, state)
    }

    constructor (ok: Decoder, io: Io)
      requires io.Valid()
      ensures this.ok == ok && View() == NewCork(io) && View().Valid()
    {
      this.ok := ok;
      this.io := io;
      corked := false;
      state := ReadHeader([]);
    }

    /** One poll does to the stream and to the caller's buffer exactly what `PollRead` says. */
    method Poll(buf: ReadBuf) returns (polled: Polled)
      requires View().Valid() && buf.Valid() && RoomFor(ok, View(), buf.Remaining())
      modifies this, buf, buf.data
      ensures var s := PollRead(ok, old(View()), old(buf.Remaining()));
              && View() == s.cork && polled == s.polled
              && buf.Valid() && buf.Filled() == old(buf.Filled()) + s.bytes
    {
      ghost var spec := PollRead(ok, View(), buf.Remaining());
      var bytes;
      match state {
        case ReadHeader(_) => polled, bytes := HeaderArm();
        case ReadPayload(_, _) => polled, bytes := PayloadArm(buf.Remaining());
        case Passthrough =>
          var r := Read(io, buf.Remaining());
          io := r.io;
          polled, bytes := Ready, [];
          match r.reply {
            case NotReady => polled := Pending;
            case Broken => polled := Error;
            case Filled(got) => bytes := got;
          }
      }
      assert View() == spec.cork && polled == spec.polled && bytes == spec.bytes;
      buf.PutSlice(bytes);
    }

    /** Keeps reading until the header is complete, the stream ends or the byte source stalls. */
    method HeaderArm() returns (polled: Polled, bytes: seq<Byte>)
      requires View().Valid() && state.ReadHeader?
      modifies this
      ensures Step(View(), polled, bytes) == PollHeader(ok, old(View()))
    {
      var done := false;
      polled, bytes := Pending, [];
      while !done
        invariant if done then Step(View(), polled, bytes) == PollHeader(ok, old(View()))
                  else View().Valid() && state.ReadHeader? && PollHeader(ok, View()) == PollHeader(ok, old(View()))
        decreases !done, |io.turns|
      {
        done, polled, bytes := OneHeaderTurn();
      }
    }

    method OneHeaderTurn() returns (done: bool, polled: Polled, bytes: seq<Byte>)
      requires View().Valid() && state.ReadHeader?
      modifies this
      ensures HeaderTurn(!done, Step(View(), polled, bytes)) == TurnHeader(ok, old(View()))
    {
      var header := state.header;
      if |header| == 0 && corked {
        return true, Ready, [];
      }
      var r := Read(io, HEADER_LEN - |header|);
      io := r.io;
      match r.reply {
        case NotReady => return true, Pending, [];
        case Broken => return true, Error, [];
        case Filled(got) =>
          header := header + got;
          if got == [] {
            state := Passthrough;
            return true, Ready, header;
          }
          if |header| == HEADER_LEN {
            state := DecodeHeader(ok, header);
            return true, Ready, header;
          }
          state := ReadHeader(header);
          return false, Pending, [];
      }
    }

    /** Reads at most the rest of the record. */
    method PayloadArm(room: nat) returns (polled: Polled, bytes: seq<Byte>)
      requires View().Valid() && state.ReadPayload?
      modifies this
      ensures Step(View(), polled, bytes) == PollPayload(old(View()), room)
    {
      var ReadPayload(msgSize, offset) := state;
      var r := Read(io, Min(room, msgSize - offset));
      io := r.io;
      match r.reply {
        case NotReady => return Pending, [];
        case Broken => return Error, [];
        case Filled(got) =>
          state := ReadPayload(msgSize, offset + |got|);
          if offset + |got| == msgSize {
            state := ReadHeader([]);
          }
          return Ready, got;
      }
    }
  }
}
