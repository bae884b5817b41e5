/**
  A socket whose records the kernel decrypts: application bytes come out of plain
  reads, a control record makes the read fail with EIO and is then fetched on its own.
 */
module KernelSocket {
  import opened Octets

  const ALERT: Byte := 21
  const CHANGE_CIPHER_SPEC: Byte := 20
  const APPLICATION_DATA: Byte := 23
  const EIO := 5

  datatype Record = Record(typ: Byte, body: seq<Byte>)

  datatype Turn = Stall | Fail(errno: nat) | Give(limit: nat)

  /** `all` is every record the peer ever sends; the first `skip` bytes of record `next` are already read. */
  datatype Kernel = Kernel(all: seq<Record>, next: nat, skip: nat, turns: seq<Turn>) {
    predicate Valid() {
      next <= |all| && (if next < |all| then skip <= |all[next].body| else skip == 0)
    }

    predicate AtControl() {
      next < |all| && all[next].typ != APPLICATION_DATA
    }

    /** Moves past `n` more bytes of the record at the front. */
    function Consume(n: nat): (k: Kernel)
      requires Valid() && next < |all| && skip + n <= |all[next].body|
      ensures k.Valid() && k.all == all && k.turns == turns
    {
      if skip + n == |all[next].body| then this.(next := next + 1, skip := 0) else this.(skip := skip + n)
    }
  }

  datatype Reply = NotReady | Broken(errno: nat) | Filled(bytes: seq<Byte>)

  datatype ReadStep = ReadStep(kernel: Kernel, reply: Reply)

  function Read(k: Kernel, cap: nat): (s: ReadStep)
    requires k.Valid()
    ensures s.kernel.Valid() && s.kernel.all == k.all
    ensures s.reply.Filled? ==> |s.reply.bytes| <= cap
    ensures s.reply.Filled? && k.next < |k.all| ==>
              var next := k.all[k.next].body[k.skip..];
              && !k.AtControl() && s.reply.bytes <= next
              && s.kernel == k.(turns := s.kernel.turns).Consume(|s.reply.bytes|)
              && (s.reply.bytes == [] ==> cap == 0 || next == [])
    ensures s.reply.Filled? && k.next == |k.all| ==> s.reply.bytes == []
    ensures !s.reply.Filled? || k.next == |k.all| ==> s.kernel == k.(turns := s.kernel.turns)
  {
    if k.turns == [] then ReadStep(k, NotReady)
    else
      var k' := k.(turns := k.turns[1..]);
      match k.turns[0]
      case Stall => ReadStep(k', NotReady)
      case Fail(e) => ReadStep(k', Broken(e))
      case Give(limit) =>
        if k.next == |k.all| then ReadStep(k', Filled([]))
        else if k.AtControl() then ReadStep(k', Broken(EIO))
        else
          var body := k.all[k.next].body;
          var n := Min(if limit == 0 then 1 else limit, Min(cap, |body| - k.skip));
          ReadStep(k'.Consume(n), Filled(body[k.skip..k.skip + n]))
  }

  /** Fetching the control record at the front, or as much of it as fits. */
  datatype Fetched = Control(typ: Byte, bytes: seq<Byte>) | FetchError(errno: nat) | NoControl

  datatype FetchStep = FetchStep(kernel: Kernel, fetched: Fetched)

  function Fetch(k: Kernel, cap: nat): (s: FetchStep)
    requires k.Valid()
    ensures s.kernel.Valid() && s.kernel.all == k.all
    ensures s.fetched.Control? ==> |s.fetched.bytes| <= cap
  {
    if k.turns == [] then FetchStep(k, NoControl)
    else
      var k' := k.(turns := k.turns[1..]);
      match k.turns[0]
      case Stall => FetchStep(k', NoControl)
      case Fail(e) => FetchStep(k', FetchError(e))
      case Give(_) =>
        if !k.AtControl() then FetchStep(k', NoControl)
        else
          var body := k.all[k.next].body;
          var n := Min(cap, |body| - k.skip);
          FetchStep(k'.Consume(n), Control(k.all[k.next].typ, body[k.skip..k.skip + n]))
  }
}

/**
  The stream handed to the application after the handover: it replays drained bytes,
  filters control records out of what the kernel delivers, and closes in order.
 */
module KtlsStreams {
  import opened Octets
  import opened KernelSocket
  import opened ReadBuffers
  import opened Options

  datatype Replay = Replay(index: nat, bytes: seq<Byte>)

  datatype Closer = ByShutdown | ByAlert

  /** What was handed to the socket for sending, in order. */
  datatype Sent = Data(bytes: seq<Byte>) | CloseNotify(closer: Closer)

  datatype Ktls = Ktls(kernel: Kernel, writeClosed: bool, readClosed: bool, drained: Option<Replay>, sent: seq<Sent>) {
    predicate Valid() {
      kernel.Valid() && (drained.Some? ==> drained.value.index <= |drained.value.bytes|)
    }
  }

  function NewKtls(kernel: Kernel, drained: Option<seq<Byte>>): Ktls
  {
    Ktls(kernel, false, false, if drained.Some? then Some(Replay(0, drained.value)) else None, [])
  }

  /** `Panicked`: the program treats the situation as impossible and aborts. */
  datatype Polled = Pending | Ready | Failed(errno: nat) | Panicked

  datatype Step = Step(k: Ktls, polled: Polled, bytes: seq<Byte>)

  /** Hands out the next drained bytes; the end test compares the new index with what remained before. */
  function PollReplay(k: Ktls, room: nat): (s: Step)
    requires k.Valid() && k.drained.Some?
    ensures s.k.Valid()
  {
    var Replay(index, bytes) := k.drained.value;
    var remaining := bytes[index..];
    var len := Min(room, |remaining|);
    var index' := index + len;
    var drained := if index' >= |remaining| then None else Some(Replay(index', bytes));
    Step(k.(drained := drained), Ready, remaining[..len])
  }

  /** Alerts that end the session: any close_notify and any alert of fatal level. */
  predicate Closes(alert: seq<Byte>)
    requires 1 <= |alert| <= 2
  {
    |alert| == 1 || alert[1] == 0 || alert[0] == 2
  }

  function OnControl(k: Ktls, typ: Byte, bytes: seq<Byte>, sendFails: Option<nat>): Step
  {
    if typ == CHANGE_CIPHER_SPEC || typ == APPLICATION_DATA then Step(k, Panicked, [])
    else if typ != ALERT then Step(k, Pending, [])
    else if |bytes| == 0 || |bytes| > 2 then Step(k, Panicked, [])
    else if Closes(bytes) then
      Step(k.(readClosed := true, writeClosed := true, sent := k.sent + [CloseNotify(ByAlert)]),
           if sendFails.Some? then Failed(sendFails.value) else Ready, [])
    else Step(k, Ready, [])
  }

  function OnFetched(k: Ktls, f: FetchStep, sendFails: Option<nat>): Step
  {
    var k' := k.(kernel := f.kernel);
    match f.fetched
    case NoControl => Step(k', Panicked, [])
    case FetchError(errno) => Step(k', Failed(errno), [])
    case Control(typ, bytes) => OnControl(k', typ, bytes, sendFails)
  }

  /** Reads from the kernel, and on EIO looks for a control record. */
  function PollKernel(k: Ktls, room: nat, sendFails: Option<nat>): (s: Step)
    requires k.Valid()
    ensures s.k.Valid()
  {
    var r := Read(k.kernel, room);
    var k' := k.(kernel := r.kernel);
    match r.reply
    case NotReady => Step(k', Pending, [])
    case Filled(bytes) => Step(k', Ready, bytes)
    case Broken(e) =>
      if e != EIO then Step(k', Failed(e), [])
      else OnFetched(k, Fetch(r.kernel, room), sendFails)
  }

  function PollRead(k: Ktls, room: nat, sendFails: Option<nat>): (s: Step)
    requires k.Valid()
    ensures s.k.Valid()
  {
    if k.readClosed || room == 0 then Step(k, Ready, [])
    else if k.drained.Some? then PollReplay(k, room)
    else PollKernel(k, room, sendFails)
  }

  function PollWrite(k: Ktls, data: seq<Byte>): Ktls
  {
    if k.writeClosed then k else k.(sent := k.sent + [Data(data)])
  }

  function PollShutdown(k: Ktls): Ktls
  {
    if k.writeClosed then k else k.(writeClosed := true, sent := k.sent + [CloseNotify(ByShutdown)])
  }

  // ---------------------------------------------------------------- whole runs

  datatype Event = Reading(room: nat, sendFails: Option<nat>) | Writing(data: seq<Byte>) | ShuttingDown

  /** `out` is what the application has read, of which the first `replayed` bytes were drained ones. */
  datatype Trace = Trace(k: Ktls, out: seq<Byte>, replayed: nat)

  function Start(kernel: Kernel, drained: Option<seq<Byte>>): Trace
  {
    Trace(NewKtls(kernel, drained), [], 0)
  }

  function Apply(t: Trace, e: Event): (t': Trace)
    requires t.k.Valid()
    ensures t'.k.Valid()
  {
    match e
    case Reading(room, sendFails) =>
      var s := PollRead(t.k, room, sendFails);
      Trace(s.k, t.out + s.bytes, t.replayed + if t.k.drained.Some? then |s.bytes| else 0)
    case Writing(data) => t.(k := PollWrite(t.k, data))
    case ShuttingDown => t.(k := PollShutdown(t.k))
  }

  function ApplyAll(t: Trace, events: seq<Event>): (t': Trace)
    requires t.k.Valid()
    ensures t'.k.Valid()
    decreases |events|
  {
    if events == [] then t else ApplyAll(Apply(t, events[0]), events[1..])
  }

  // ---------------------------------------------------------------- what the application reads

  /** The application bytes of a sequence of records, in order. */
  function AppBytes(records: seq<Record>): seq<Byte>
  {
    if records == [] then []
    else
      var last := records[|records| - 1];
      AppBytes(records[..|records| - 1]) + if last.typ == APPLICATION_DATA then last.body else []
  }

  /** The application bytes among those the kernel has handed over. */
  function AppSoFar(k: Kernel): seq<Byte>
    requires k.Valid()
  {
    AppBytes(k.all[..k.next]) +
    if k.next < |k.all| && !k.AtControl() then k.all[k.next].body[..k.skip] else []
  }

  /** A close_notify of any level, or an alert of fatal level. */
  predicate IsClosingAlert(r: Record) {
    r.typ == 21 && |r.body| == 2 && (r.body[1] == 0 || r.body[0] == 2)
  }

  /** Alerts are two bytes long, as section 7.2 of RFC 5246 has them. */
  predicate WellFormed(records: seq<Record>) {
    forall r :: r in records && r.typ == 21 ==> |r.body| == 2
  }

  predicate NoClosingBefore(records: seq<Record>, n: nat)
    requires n <= |records|
  {
    forall i :: 0 <= i < n ==> !IsClosingAlert(records[i])
  }

  /** The alert being read or last read; a one-byte buffer leaves it half read. */
  function AlertIndex(k: Kernel): int
    requires k.Valid()
  {
    if k.skip == 1 then k.next else k.next - 1
  }

  /** The session ended on an alert, the first closing one unless only half of an alert was read. */
  predicate EndedByAlert(k: Kernel)
    requires k.Valid()
  {
    var a := AlertIndex(k);
    && 0 <= a < |k.all| && k.all[a].typ == ALERT && NoClosingBefore(k.all, a)
    && (a < k.next ==> k.skip == 0 && IsClosingAlert(k.all[a]))
  }

  /** No closing alert lies behind the reading position. */
  predicate NoClosingBehind(k: Kernel)
    requires k.Valid()
  {
    NoClosingBefore(k.all, k.next) && (k.next < |k.all| && k.all[k.next].typ == ALERT ==> k.skip == 0)
  }

  predicate Filtered(t: Trace, drained: seq<Byte>) {
    && t.k.Valid() && t.replayed <= |drained|
    && t.out == drained[..t.replayed] + AppSoFar(t.k.kernel)
    && (t.k.drained.Some? ==>
          && t.k.drained.value == Replay(t.replayed, drained)
          && AppSoFar(t.k.kernel) == [] && !t.k.readClosed)
    && (if t.k.readClosed then EndedByAlert(t.k.kernel) else NoClosingBehind(t.k.kernel))
  }

  lemma ConsumeApp(k: Kernel, n: nat)
    requires k.Valid() && k.next < |k.all| && k.skip + n <= |k.all[k.next].body|
    ensures AppSoFar(k.Consume(n)) ==
            AppSoFar(k) + if k.AtControl() then [] else k.all[k.next].body[k.skip..k.skip + n]
  {
    var record := k.all[k.next];
    var before := AppBytes(k.all[..k.next]);
    if k.skip + n == |record.body| {
      assert k.all[..k.next + 1][..k.next] == k.all[..k.next];
      assert k.next + 1 < |k.all| ==> k.all[k.next + 1].body[..0] == [];
    }
    if !k.AtControl() {
      assert record.body[..k.skip + n] == record.body[..k.skip] + record.body[k.skip..k.skip + n];
      assert record.body[..|record.body|] == record.body;
      assert before + (record.body[..k.skip] + record.body[k.skip..k.skip + n])
          == (before + record.body[..k.skip]) + record.body[k.skip..k.skip + n];
    }
  }

  lemma KernelReadKeeps(k: Kernel, room: nat)
    requires k.Valid() && NoClosingBehind(k)
    ensures var s := Read(k, room);
            && AppSoFar(s.kernel) == AppSoFar(k) + (if s.reply.Filled? then s.reply.bytes else [])
            && NoClosingBehind(s.kernel)
  {
    var s := Read(k, room);
    assert AppSoFar(k) + [] == AppSoFar(k);
    assert AppSoFar(k.(turns := s.kernel.turns)) == AppSoFar(k);
    if k.turns != [] && k.turns[0].Give? && k.next < |k.all| && !k.AtControl() {
      ConsumeApp(k.(turns := k.turns[1..]), |s.reply.bytes|);
    }
  }

  lemma ConsumeAlert(k: Kernel, n: nat)
    requires k.Valid() && NoClosingBehind(k) && k.next < |k.all| && k.all[k.next].typ == ALERT
    requires |k.all[k.next].body| == 2 && 1 <= n <= 2
    ensures if Closes(k.all[k.next].body[..n]) then EndedByAlert(k.Consume(n)) else NoClosingBehind(k.Consume(n))
  {
    var body := k.all[k.next].body;
    if n == 2 {
      assert body[..n] == body;
    }
  }

  lemma ConsumeOther(k: Kernel, n: nat)
    requires k.Valid() && NoClosingBehind(k) && k.next < |k.all| && k.all[k.next].typ != ALERT
    requires k.skip + n <= |k.all[k.next].body|
    ensures NoClosingBehind(k.Consume(n))
  {
  }

  /** What fetching a control record may leave behind. */
  predicate FetchedWell(s: FetchStep)
    requires s.kernel.Valid()
  {
    if s.fetched.Control? && s.fetched.typ == ALERT then
      && 1 <= |s.fetched.bytes| <= 2
      && if Closes(s.fetched.bytes) then EndedByAlert(s.kernel) else NoClosingBehind(s.kernel)
    else NoClosingBehind(s.kernel)
  }

  /** Fetching a control record hands no application byte over. */
  lemma FetchKeeps(k: Kernel, room: nat)
    requires k.Valid() && NoClosingBehind(k) && WellFormed(k.all) && room > 0
    ensures AppSoFar(Fetch(k, room).kernel) == AppSoFar(k) && FetchedWell(Fetch(k, room))
  {
    var s := Fetch(k, room);
    if s.fetched.Control? {
      var n, k' := |s.fetched.bytes|, k.(turns := k.turns[1..]);
      ConsumeApp(k', n);
      assert AppSoFar(k) + [] == AppSoFar(k);
      if s.fetched.typ == ALERT {
        assert k.all[k.next] in k.all;
        ConsumeAlert(k', n);
      } else {
        ConsumeOther(k', n);
      }
    }
  }

  lemma KernelPollKeepsFiltered(t: Trace, drained: seq<Byte>, room: nat, sendFails: Option<nat>)
    requires Filtered(t, drained) && WellFormed(t.k.kernel.all)
    requires !t.k.readClosed && t.k.drained.None? && room > 0
    ensures Filtered(Apply(t, Reading(room, sendFails)), drained)
  {
    var k := t.k.kernel;
    var r := Read(k, room);
    KernelReadKeeps(k, room);
    if r.reply == Broken(EIO) {
      FetchKeeps(r.kernel, room);
      ControlKeepsFiltered(t, drained, Fetch(r.kernel, room), sendFails);
    } else {
      DataKeepsFiltered(t, drained, r.kernel, if r.reply.Filled? then r.reply.bytes else []);
    }
  }

  lemma DataKeepsFiltered(t: Trace, drained: seq<Byte>, k: Kernel, bytes: seq<Byte>)
    requires Filtered(t, drained) && !t.k.readClosed && t.k.drained.None?
    requires k.Valid() && AppSoFar(k) == AppSoFar(t.k.kernel) + bytes && NoClosingBehind(k)
    ensures Filtered(Trace(t.k.(kernel := k), t.out + bytes, t.replayed), drained)
  {
    var head, app := drained[..t.replayed], AppSoFar(t.k.kernel);
    assert head + (app + bytes) == (head + app) + bytes;
  }

  lemma ControlKeepsFiltered(t: Trace, drained: seq<Byte>, f: FetchStep, sendFails: Option<nat>)
    requires Filtered(t, drained) && !t.k.readClosed && t.k.drained.None?
    requires f.kernel.Valid() && AppSoFar(f.kernel) == AppSoFar(t.k.kernel) && FetchedWell(f)
    ensures var s := OnFetched(t.k, f, sendFails);
            s.bytes == [] && Filtered(Trace(s.k, t.out + s.bytes, t.replayed), drained)
  {
    assert t.out + [] == t.out;
  }

  lemma ReplayPollKeepsFiltered(t: Trace, drained: seq<Byte>, room: nat)
    requires Filtered(t, drained) && t.k.drained.Some? && room > 0
    ensures Filtered(Apply(t, Reading(room, None)), drained)
  {
    var n := Min(room, |drained| - t.replayed);
    assert drained[t.replayed..][..n] == drained[t.replayed..t.replayed + n];
    assert drained[..t.replayed + n] == drained[..t.replayed] + drained[t.replayed..t.replayed + n];
    assert forall s: seq<Byte> :: s + [] == s;
  }

  lemma EventKeepsFiltered(t: Trace, drained: seq<Byte>, e: Event)
    requires Filtered(t, drained) && WellFormed(t.k.kernel.all)
    ensures Filtered(Apply(t, e), drained) && Apply(t, e).k.kernel.all == t.k.kernel.all
  {
    if e.Reading? {
      if t.k.readClosed || e.room == 0 {
        assert t.out + [] == t.out;
      } else if t.k.drained.Some? {
        ReplayPollKeepsFiltered(t, drained, e.room);
      } else {
        KernelPollKeepsFiltered(t, drained, e.room, e.sendFails);
      }
    }
  }

  lemma {:induction false} RunKeepsFiltered(t: Trace, drained: seq<Byte>, events: seq<Event>)
    requires Filtered(t, drained) && WellFormed(t.k.kernel.all)
    ensures Filtered(ApplyAll(t, events), drained) && ApplyAll(t, events).k.kernel.all == t.k.kernel.all
    decreases |events|
  {
    if events != [] {
      EventKeepsFiltered(t, drained, events[0]);
      RunKeepsFiltered(Apply(t, events[0]), drained, events[1..]);
    }
  }

  /** What has been handed over lies before every record not yet reached. */
  lemma {:induction false} AppSoFarIsPrefix(k: Kernel, a: nat)
    requires k.Valid() && k.next <= a <= |k.all| && (k.next == a ==> k.skip == 0 || k.AtControl())
    ensures AppSoFar(k) <= AppBytes(k.all[..a])
    decreases a
  {
    if k.next < a {
      assert k.all[..a][..a - 1] == k.all[..a - 1];
      if k.next < a - 1 {
        AppSoFarIsPrefix(k, a - 1);
      }
    }
  }

  /**
    For every run of the poll methods over every record stream and schedule: the
    application reads a prefix of the drained bytes followed by application bytes in
    order, never a byte of a control record and never one from behind a closing alert. The
    stream has ended if and only if it got past such an alert, or half way into any alert,
    and has then read every application byte before it.
   */
  lemma ReadsOnlyApplicationBytes(all: seq<Record>, turns: seq<Turn>, drained: Option<seq<Byte>>, events: seq<Event>)
    requires WellFormed(all)
    ensures var t := ApplyAll(Start(Kernel(all, 0, 0, turns), drained), events);
            var app := AppSoFar(t.k.kernel);
            && t.k.kernel.all == all
            && t.replayed <= |OrEmpty(drained)| && t.out == OrEmpty(drained)[..t.replayed] + app
            && (forall a :: 0 <= a < |all| && IsClosingAlert(all[a]) ==> app <= AppBytes(all[..a]))
            && (t.k.readClosed ==>
                  var a := AlertIndex(t.k.kernel);
                  && 0 <= a < |all| && all[a].typ == 21 && app == AppBytes(all[..a])
                  && (t.k.kernel.skip == 1 || IsClosingAlert(all[a])))
            && (!t.k.readClosed ==> forall a :: 0 <= a < t.k.kernel.next ==> !IsClosingAlert(all[a]))
  {
    var t := Start(Kernel(all, 0, 0, turns), drained);
    RunKeepsFiltered(t, OrEmpty(drained), events);
    t := ApplyAll(t, events);
    var k := t.k.kernel;
    forall a | 0 <= a < |all| && IsClosingAlert(all[a])
      ensures AppSoFar(k) <= AppBytes(all[..a])
    {
      StaysBeforeAlert(t, OrEmpty(drained), a);
    }
    if t.k.readClosed {
      EndedMeansComplete(k);
    }
  }

  /** Without drained bytes, exactly the application bytes handed over are read. */
  lemma ReadsWhatIsHandedOver(all: seq<Record>, turns: seq<Turn>, events: seq<Event>)
    requires WellFormed(all)
    ensures var t := ApplyAll(Start(Kernel(all, 0, 0, turns), None), events);
            t.k.kernel.all == all && t.out == AppSoFar(t.k.kernel)
  {
    RunKeepsFiltered(Start(Kernel(all, 0, 0, turns), None), [], events);
    var t := ApplyAll(Start(Kernel(all, 0, 0, turns), None), events);
    assert [] + AppSoFar(t.k.kernel) == AppSoFar(t.k.kernel);
  }

  lemma EndedMeansComplete(k: Kernel)
    requires k.Valid() && EndedByAlert(k)
    ensures AppSoFar(k) == AppBytes(k.all[..AlertIndex(k)])
  {
    if AlertIndex(k) < k.next {
      assert k.all[..k.next][..k.next - 1] == k.all[..k.next - 1];
    }
  }

  lemma StaysBeforeAlert(t: Trace, drained: seq<Byte>, a: nat)
    requires Filtered(t, drained) && a < |t.k.kernel.all| && IsClosingAlert(t.k.kernel.all[a])
    ensures AppSoFar(t.k.kernel) <= AppBytes(t.k.kernel.all[..a])
  {
    var k := t.k.kernel;
    if k.next <= a {
      AppSoFarIsPrefix(k, a);
    } else {
      assert t.k.readClosed && a == k.next - 1 && k.skip == 0;
      assert k.all[..k.next][..a] == k.all[..a];
    }
  }

  // ---------------------------------------------------------------- by script and record

  /** A read of the kernel comes to look for a control record, and there is one whole record to be had. */
  predicate MeetsControl(k: Ktls, room: nat) {
    && k.Valid() && !k.readClosed && k.drained.None? && room > 0
    && k.kernel.next < |k.kernel.all| && k.kernel.all[k.kernel.next].typ != 23 && k.kernel.skip == 0
    && |k.kernel.turns| >= 2 && (k.kernel.turns[0].Give? || k.kernel.turns[0] == Fail(5)) && k.kernel.turns[1].Give?
  }

  /** What became of a control record, in the bytes of the record and the flags of the stream. */
  predicate Treated(k: Ktls, k': Ktls, closes: bool) {
    && k'.readClosed == closes && k'.writeClosed == (k.writeClosed || closes) && k'.drained == k.drained
    && k'.sent == k.sent + (if closes then [CloseNotify(ByAlert)] else [])
  }

  lemma FetchesFront(k: Ktls, room: nat)
    requires MeetsControl(k, room)
    ensures Read(k.kernel, room).reply == Broken(5)
    ensures var front := k.kernel.all[k.kernel.next];
            var f := Fetch(Read(k.kernel, room).kernel, room);
            f.fetched == Control(front.typ, front.body[..Min(room, |front.body|)])
  {
    var front := k.kernel.all[k.kernel.next];
    assert front.body[0..Min(room, |front.body|)] == front.body[..Min(room, |front.body|)];
  }

  /**
    A two-byte alert read with room for it closes both directions and is answered exactly if
    it is a close_notify or fatal; with room for one byte it always does; a failure to answer
    is reported. A handshake record or one of unknown type leaves the flags as they are and the
    read pending, and a change_cipher_spec makes the program abort. None of them brings a byte.
   */
  lemma ControlRecordIsTreated(k: Ktls, room: nat, sendFails: Option<nat>)
    requires MeetsControl(k, room)
    requires k.kernel.all[k.kernel.next].typ == 21 ==> |k.kernel.all[k.kernel.next].body| == 2
    ensures var front, s := k.kernel.all[k.kernel.next], PollRead(k, room, sendFails);
            && s.bytes == []
            && (if front.typ == 21 then
                  var closes := room == 1 || front.body[1] == 0 || front.body[0] == 2;
                  && Treated(k, s.k, closes)
                  && s.polled == (if closes && sendFails.Some? then Failed(sendFails.value) else Ready)
                else
                  Treated(k, s.k, false) && s.polled == (if front.typ == 20 then Panicked else Pending))
  {
    FetchesFront(k, room);
    var front := k.kernel.all[k.kernel.next];
    assert k.sent + [] == k.sent;
    assert front.typ == 21 && room >= 2 ==> front.body[..2] == front.body;
  }

  /** A read of the kernel that does not meet a control record, by its first turn. */
  lemma KernelReadByScript(k: Ktls, room: nat, sendFails: Option<nat>)
    requires k.Valid() && !k.readClosed && k.drained.None? && room > 0
    ensures var s, turns := PollRead(k, room, sendFails), k.kernel.turns;
            && (turns == [] || turns[0] == Stall ==>
                  s == Step(k.(kernel := k.kernel.(turns := s.k.kernel.turns)), Pending, []))
            && (turns != [] && turns[0].Fail? && turns[0].errno != 5 ==> s.polled == Failed(turns[0].errno))
            && (turns != [] && turns[0].Give? && !k.kernel.AtControl() ==>
                  && s.polled == Ready && s.k == k.(kernel := s.k.kernel)
                  && (k.kernel.next < |k.kernel.all| ==>
                        var next := k.kernel.all[k.kernel.next].body[k.kernel.skip..];
                        var limit := turns[0].limit;
                        s.bytes == next[..Min(if limit == 0 then 1 else limit, Min(room, |next|))]))
  {
  }

  /** A stream that has ended, in every run: each later read is empty, and nothing is taken from the kernel. */
  lemma {:induction false} EndedForever(t: Trace, events: seq<Event>, room: nat, sendFails: Option<nat>)
    requires t.k.Valid() && t.k.readClosed
    ensures var t' := ApplyAll(t, events);
            && t'.out == t.out && t'.k.kernel == t.k.kernel && t'.k.readClosed
            && PollRead(t'.k, room, sendFails) == Step(t'.k, Ready, [])
    decreases |events|
  {
    if events != [] {
      assert t.out + [] == t.out;
      EndedForever(Apply(t, events[0]), events[1..], room, sendFails);
    }
  }

  /** Drained bytes come at once, as many as fit; without room nothing comes and nothing changes. */
  lemma ReplayIsReady(k: Ktls, room: nat, sendFails: Option<nat>)
    requires k.Valid() && !k.readClosed
    ensures room == 0 ==> PollRead(k, room, sendFails) == Step(k, Ready, [])
    ensures room > 0 && k.drained.Some? ==>
              var Replay(index, bytes) := k.drained.value;
              var s := PollRead(k, room, sendFails);
              && s.polled == Ready && s.bytes == bytes[index..Min(|bytes|, index + room)]
              && s.k.kernel == k.kernel && s.k.sent == k.sent
  {
  }

  /** When fetching the control record fails, the failure is reported, and when there is none the program aborts. */
  lemma FetchByScript(k: Ktls, room: nat, sendFails: Option<nat>)
    requires k.Valid() && !k.readClosed && k.drained.None? && room > 0
    requires k.kernel.turns != [] && (k.kernel.turns[0] == Fail(5) || (k.kernel.turns[0].Give? && k.kernel.AtControl()))
    ensures var s, turns := PollRead(k, room, sendFails), k.kernel.turns[1..];
            && (turns != [] && turns[0].Fail? ==> s.polled == Failed(turns[0].errno))
            && (turns == [] || turns[0] == Stall || (turns[0].Give? && !k.kernel.AtControl()) ==> s.polled == Panicked)
            && (turns == [] || !turns[0].Give? ==> s.k == k.(kernel := s.k.kernel))
  {
  }

  // ---------------------------------------------------------------- empty reads

  /**
    The record at the front, read with this much room, brings no bytes and does not end the
    stream: an empty application record, or an alert that does not close.
   */
  predicate BringsNothing(k: Kernel, room: nat)
    requires k.Valid() && k.next < |k.all|
  {
    var body := k.all[k.next].body[k.skip..];
    if k.AtControl() then
      var got := body[..Min(room, |body|)];
      k.all[k.next].typ == 21 && |got| == 2 && got[0] != 2 && got[1] != 0
    else body == []
  }

  /** An empty ready read with records still unread and no closing alert met. */
  predicate FalseEnd(k: Ktls, s: Step) {
    s.polled == Ready && s.bytes == [] && !s.k.readClosed && k.kernel.next < |k.kernel.all|
  }

  /**
    A reader takes an empty ready read for the end of the stream. With records left, a ready
    read is a false end exactly when there are drained bytes none of which is left, or none
    and the record at the front brings nothing.
   */
  lemma FalseEndIff(k: Ktls, room: nat, sendFails: Option<nat>)
    requires k.Valid() && room > 0 && PollRead(k, room, sendFails).polled == Ready
    ensures FalseEnd(k, PollRead(k, room, sendFails)) <==>
            && !k.readClosed && k.kernel.next < |k.kernel.all|
            && if k.drained.Some? then k.drained.value.index == |k.drained.value.bytes|
               else BringsNothing(k.kernel, room)
  {
    if !k.readClosed && k.drained.None? {
      var r := Read(k.kernel, room);
      if r.reply == Broken(EIO) {
        FetchTakesFront(r.kernel, room);
      }
    }
  }

  /** What fetching finds is the front of the record at the front. */
  lemma FetchTakesFront(k: Kernel, room: nat)
    requires k.Valid()
    ensures var s := Fetch(k, room);
            s.fetched.Control? ==>
              && k.AtControl() && s.fetched.typ == k.all[k.next].typ
              && var body := k.all[k.next].body[k.skip..]; s.fetched.bytes == body[..Min(room, |body|)]
  {
  }

  /** A warning ahead of application data: the read is ready and empty, and the data is still to come. */
  lemma WarningLooksLikeTheEnd(data: seq<Byte>)
    ensures var all := [Record(ALERT, [1, 90]), Record(APPLICATION_DATA, data)];
            var k := NewKtls(Kernel(all, 0, 0, [Give(2), Give(2)]), None);
            var s := PollRead(k, 2, None);
            FalseEnd(k, s) && s.k.kernel.next == 1
  {
    var all := [Record(ALERT, [1, 90]), Record(APPLICATION_DATA, data)];
    var k := Kernel(all, 0, 0, [Give(2), Give(2)]);
    assert Read(k, 2) == ReadStep(k.(turns := [Give(2)]), Broken(EIO));
    assert [1, 90][0..2] == [1, 90];
    assert Fetch(k.(turns := [Give(2)]), 2) == FetchStep(k.(next := 1, turns := []), Control(ALERT, [1, 90]));
  }

  // ---------------------------------------------------------------- how much of the drained bytes is replayed

  function Sum(sizes: seq<nat>): nat
  {
    if sizes == [] then 0 else sizes[0] + Sum(sizes[1..])
  }

  /** How far `total` drained bytes are replayed by reads of the given sizes, starting at `index`. */
  function ReplayedBy(total: nat, index: nat, sizes: seq<nat>): nat
    requires index <= total
    decreases |sizes|
  {
    if sizes == [] then index
    else
      var index' := Min(index + sizes[0], total);
      if index' >= total - index then index' else ReplayedBy(total, index', sizes[1..])
  }

  function Readings(sizes: seq<nat>): seq<Event>
  {
    seq(|sizes|, i requires 0 <= i < |sizes| => Reading(sizes[i], None))
  }

  lemma OneReadReplays(t: Trace, drained: seq<Byte>, size: nat)
    requires Filtered(t, drained) && size > 0
    ensures var t' := Apply(t, Reading(size, None));
            if t.k.drained.Some? then
              && t'.replayed == Min(t.replayed + size, |drained|)
              && (t'.k.drained.None? <==> t'.replayed >= |drained| - t.replayed)
            else
              t'.replayed == t.replayed && t'.k.drained.None?
  {
  }

  /** Runs of reads replay exactly what `ReplayedBy` says. */
  lemma {:induction false} ReadsReplay(t: Trace, drained: seq<Byte>, sizes: seq<nat>)
    requires Filtered(t, drained) && WellFormed(t.k.kernel.all)
    requires forall i :: 0 <= i < |sizes| ==> sizes[i] > 0
    ensures ApplyAll(t, Readings(sizes)).replayed ==
            if t.k.drained.Some? then ReplayedBy(|drained|, t.replayed, sizes) else t.replayed
    decreases |sizes|
  {
    if sizes != [] {
      var events := Readings(sizes);
      assert events[1..] == Readings(sizes[1..]);
      EventKeepsFiltered(t, drained, events[0]);
      OneReadReplays(t, drained, sizes[0]);
      ReadsReplay(Apply(t, events[0]), drained, sizes[1..]);
    }
  }

  /** A read from `index` drops the rest of the drained bytes unread. */
  predicate DropsRest(total: nat, index: nat, size: nat) {
    index + size < total <= index + (index + size)
  }

  /** One read: the drained bytes are forgotten before they are all out exactly when `DropsRest` says so. */
  lemma ReplayDropsIff(k: Ktls, room: nat)
    requires k.Valid() && k.drained.Some?
    ensures var Replay(index, bytes) := k.drained.value;
            var s := PollReplay(k, room);
            s.k.drained.None? && index + |s.bytes| < |bytes| <==> DropsRest(|bytes|, index, room)
  {
  }

  /** Each read before the one that reaches the end keeps the rest. */
  predicate KeepsToTheEnd(total: nat, index: nat, sizes: seq<nat>)
    decreases |sizes|
  {
    && sizes != []
    && (|| index + sizes[0] >= total
        || (!DropsRest(total, index, sizes[0]) && KeepsToTheEnd(total, index + sizes[0], sizes[1..])))
  }

  /** Everything is replayed exactly when the read sizes reach the end without a dropping read. */
  lemma {:induction false} ReplayIsCompleteIff(total: nat, index: nat, sizes: seq<nat>)
    requires index < total
    ensures ReplayedBy(total, index, sizes) == total <==> KeepsToTheEnd(total, index, sizes)
    decreases |sizes|
  {
    if sizes != [] && index + sizes[0] < total && !DropsRest(total, index, sizes[0]) {
      ReplayIsCompleteIff(total, index + sizes[0], sizes[1..]);
    }
  }

  function Repeat(size: nat, n: nat): (s: seq<nat>)
    ensures |s| == n && forall x :: x in s ==> x == size
  {
    seq(n, _ => size)
  }

  lemma {:induction false} SmallReadsDropTheRest(total: nat, index: nat, size: nat, n: nat)
    requires 0 < size <= index && index + size < total
    ensures ReplayedBy(total, index, Repeat(size, n)) < total
    decreases n
  {
    if n > 0 {
      assert Repeat(size, n)[1..] == Repeat(size, n - 1);
      if index + (index + size) < total {
        SmallReadsDropTheRest(total, index + size, size, n - 1);
      }
    }
  }

  /** Reading with one buffer size replays everything exactly when two buffers hold it all. */
  lemma ConstantSizeReplaysAllIff(total: nat, size: nat, n: nat)
    requires 0 < size && 2 <= n
    ensures ReplayedBy(total, 0, Repeat(size, n)) == total <==> total <= 2 * size
  {
    var sizes := Repeat(size, n);
    assert sizes[1..] == Repeat(size, n - 1);
    assert sizes[1..][1..] == Repeat(size, n - 2);
    if 2 * size < total {
      SmallReadsDropTheRest(total, size, size, n - 1);
    }
  }

  /**
    On the stream itself: reads of the given sizes hand out all drained bytes, before
    anything else, exactly when they reach the end without a dropping read.
   */
  lemma StreamReplaysAllIff(kernel: Kernel, drained: seq<Byte>, sizes: seq<nat>)
    requires kernel.Valid() && NoClosingBehind(kernel) && AppSoFar(kernel) == [] && WellFormed(kernel.all)
    requires drained != [] && forall i :: 0 <= i < |sizes| ==> sizes[i] > 0
    ensures var t := ApplyAll(Start(kernel, Some(drained)), Readings(sizes));
            && t.replayed <= |drained| && drained[..t.replayed] <= t.out
            && (t.replayed == |drained| <==> KeepsToTheEnd(|drained|, 0, sizes))
  {
    var t := Start(kernel, Some(drained));
    assert drained[..0] + [] == [];
    RunKeepsFiltered(t, drained, Readings(sizes));
    ReadsReplay(t, drained, sizes);
    ReplayIsCompleteIff(|drained|, 0, sizes);
  }

  const TEN: seq<Byte> := seq(10, i => i)

  /** Ten drained bytes read four at a time: the last two never come out, and the read after them goes to the kernel. */
  lemma ReplayCanLoseBytes(all: seq<Record>, turns: seq<Turn>)
    requires WellFormed(all)
    ensures var t := ApplyAll(Start(Kernel(all, 0, 0, turns), Some(TEN)), Readings([4, 4, 4]));
            t.replayed == 8 && t.k.drained.None? && t.out == TEN[..8] + AppSoFar(t.k.kernel)
  {
    var t := Start(Kernel(all, 0, 0, turns), Some(TEN));
    assert TEN[..0] + [] == [];
    assert [4, 4, 4][1..] == [4, 4] && [4, 4][1..] == [4];
    assert ReplayedBy(10, 0, [4, 4, 4]) == ReplayedBy(10, 4, [4, 4]) == 8;
    RunKeepsFiltered(t, TEN, Readings([4, 4, 4]));
    ReadsReplay(t, TEN, [4, 4, 4]);
    EndedReplayStaysEnded(t, TEN, [4, 4, 4]);
  }

  /** Drained bytes are forgotten no later than when the last of them is out, or one is dropped. */
  lemma {:induction false} EndedReplayStaysEnded(t: Trace, drained: seq<Byte>, sizes: seq<nat>)
    requires Filtered(t, drained) && WellFormed(t.k.kernel.all)
    requires forall i :: 0 <= i < |sizes| ==> sizes[i] > 0
    ensures var t' := ApplyAll(t, Readings(sizes));
            t'.k.drained.Some? ==> t.k.drained.Some? && t'.replayed == t.replayed + Sum(sizes)
    decreases |sizes|
  {
    if sizes != [] {
      var events := Readings(sizes);
      assert events[1..] == Readings(sizes[1..]);
      EventKeepsFiltered(t, drained, events[0]);
      OneReadReplays(t, drained, sizes[0]);
      EndedReplayStaysEnded(Apply(t, events[0]), drained, sizes[1..]);
    }
  }

  /** A replay step whose end test compares the new index with the total length. */
  function PollReplayFixed(k: Ktls, room: nat): (s: Step)
    requires k.Valid() && k.drained.Some?
    ensures s.k.Valid()
  {
    var Replay(index, bytes) := k.drained.value;
    var len := Min(room, |bytes| - index);
    var drained := if index + len >= |bytes| then None else Some(Replay(index + len, bytes));
    Step(k.(drained := drained), Ready, bytes[index..index + len])
  }

  /** What reads of the given sizes replay with that step. */
  function FixedReplay(k: Ktls, sizes: seq<nat>): seq<Byte>
    requires k.Valid()
    decreases |sizes|
  {
    if sizes == [] || k.drained.None? then []
    else var s := PollReplayFixed(k, sizes[0]); s.bytes + FixedReplay(s.k, sizes[1..])
  }

  lemma Adjacent(bytes: seq<Byte>, from: nat, mid: nat, to: nat)
    requires from <= mid <= to <= |bytes|
    ensures bytes[from..mid] + bytes[mid..to] == bytes[from..to]
  {
  }

  /** With that step, reads of any sizes replay everything they have room for. */
  lemma {:induction false} FixedReplayIsComplete(k: Ktls, sizes: seq<nat>)
    requires k.Valid() && k.drained.Some?
    ensures var Replay(index, bytes) := k.drained.value;
            FixedReplay(k, sizes) == bytes[index..Min(|bytes|, index + Sum(sizes))]
    decreases |sizes|
  {
    if sizes != [] {
      var Replay(index, bytes) := k.drained.value;
      var s := PollReplayFixed(k, sizes[0]);
      if s.k.drained.Some? {
        FixedReplayIsComplete(s.k, sizes[1..]);
        Adjacent(bytes, index, index + sizes[0], Min(|bytes|, index + Sum(sizes)));
      }
    }
  }

  /** Drained bytes and socket given back to the caller. */
  function RawParts(k: Ktls): (Option<seq<Byte>>, Kernel)
  {
    (if k.drained.Some? then Some(k.drained.value.bytes) else None, k.kernel)
  }

  /** Taking the stream apart gives the drained bytes back whole, so bytes already read come twice. */
  lemma IntoRawRepeatsIff(t: Trace, drained: seq<Byte>)
    requires Filtered(t, drained) && t.k.drained.Some?
    ensures RawParts(t.k).0 == Some(drained)
    ensures t.out + drained == drained <==> t.replayed == 0
  {
    if t.replayed == 0 {
      assert t.out == [] && [] + drained == drained;
    } else {
      assert |t.out + drained| > |drained|;
    }
  }

  // ---------------------------------------------------------------- closing

  /** The position of the first close_notify, or the number of things sent if there is none. */
  function FirstClose(sent: seq<Sent>): (n: nat)
    ensures n <= |sent| && (n < |sent| ==> sent[n].CloseNotify?)
    ensures forall i :: 0 <= i < n ==> sent[i].Data?
  {
    if sent == [] || sent[0].CloseNotify? then 0 else 1 + FirstClose(sent[1..])
  }

  /** What was sent from there on. */
  function ClosingPart(sent: seq<Sent>): seq<Sent>
  {
    sent[FirstClose(sent)..]
  }

  /**
    At most one close_notify for a shutdown and then at most one in answer to an alert,
    with no data behind the first.
   */
  predicate Orderly(k: Ktls) {
    var closing := ClosingPart(k.sent);
    && (k.readClosed ==> k.writeClosed)
    && (k.writeClosed <==> closing != [])
    && (k.readClosed ==>
          closing == [CloseNotify(ByAlert)] || closing == [CloseNotify(ByShutdown), CloseNotify(ByAlert)])
    && (k.writeClosed && !k.readClosed ==> closing == [CloseNotify(ByShutdown)])
  }

  lemma {:induction false} FirstCloseIsUnique(sent: seq<Sent>, n: nat)
    requires n <= |sent| && (n < |sent| ==> sent[n].CloseNotify?)
    requires forall i :: 0 <= i < n ==> sent[i].Data?
    ensures FirstClose(sent) == n
  {
  }

  lemma ClosingPartAppend(sent: seq<Sent>, x: Sent)
    ensures ClosingPart(sent + [x]) ==
            if ClosingPart(sent) == [] && x.Data? then [] else ClosingPart(sent) + [x]
  {
    var n := FirstClose(sent);
    FirstCloseIsUnique(sent + [x], if n == |sent| && x.Data? then n + 1 else n);
  }

  lemma EventKeepsOrder(t: Trace, e: Event)
    requires t.k.Valid() && Orderly(t.k)
    ensures Orderly(Apply(t, e).k)
    ensures t.k.readClosed ==> Apply(t, e).k.readClosed
    ensures t.k.writeClosed ==> Apply(t, e).k.writeClosed
  {
    match e
    case Reading(room, sendFails) =>
      ReadAnswersAtMostOnce(t.k, room, sendFails);
      if !t.k.readClosed {
        AnswerKeepsOrder(t.k);
      }
    case Writing(data) => ClosingPartAppend(t.k.sent, Data(data));
    case ShuttingDown => ClosingPartAppend(t.k.sent, CloseNotify(ByShutdown));
  }

  /** The stream after a closing alert was met. */
  function Answered(k: Ktls): Ktls
  {
    k.(readClosed := true, writeClosed := true, sent := k.sent + [CloseNotify(ByAlert)])
  }

  lemma AnswerKeepsOrder(k: Ktls)
    requires Orderly(k) && !k.readClosed
    ensures Orderly(Answered(k))
  {
    ClosingPartAppend(k.sent, CloseNotify(ByAlert));
  }

  lemma ReadAnswersAtMostOnce(k: Ktls, room: nat, sendFails: Option<nat>)
    requires k.Valid()
    ensures var k' := PollRead(k, room, sendFails).k;
            var same := k.(kernel := k'.kernel, drained := k'.drained);
            k' == same || (!k.readClosed && k' == Answered(same))
  {
  }

  /** In every run: the flags only rise, and sending is orderly throughout. */
  lemma {:induction false} EveryRunClosesInOrder(t: Trace, events: seq<Event>)
    requires t.k.Valid() && Orderly(t.k)
    ensures var k := ApplyAll(t, events).k;
            Orderly(k) && (t.k.readClosed ==> k.readClosed) && (t.k.writeClosed ==> k.writeClosed)
    decreases |events|
  {
    if events != [] {
      EventKeepsOrder(t, events[0]);
      EveryRunClosesInOrder(Apply(t, events[0]), events[1..]);
    }
  }

  /** The ways of closing, as what is sent from the first close_notify on. */
  predicate ClosesInOrder(closing: seq<Sent>) {
    || closing == []
    || closing == [CloseNotify(ByShutdown)]
    || closing == [CloseNotify(ByAlert)]
    || closing == [CloseNotify(ByShutdown), CloseNotify(ByAlert)]
  }

  /**
    In every run of a new stream: data only, and then, exactly if it is closed for writing,
    one close_notify for a shutdown, or one in answer to an alert, or the one and then the
    other; an alert is answered exactly if it is closed for reading.
   */
  lemma EveryStreamClosesInOrder(kernel: Kernel, drained: Option<seq<Byte>>, events: seq<Event>)
    requires kernel.Valid()
    ensures var k := ApplyAll(Start(kernel, drained), events).k;
            var n := FirstClose(k.sent);
            && (forall i :: 0 <= i < n ==> k.sent[i].Data?)
            && ClosesInOrder(ClosingPart(k.sent)) && (k.readClosed ==> k.writeClosed)
            && (k.writeClosed <==> ClosingPart(k.sent) != [])
            && (k.readClosed <==> ClosingPart(k.sent) != [] && k.sent[|k.sent| - 1] == CloseNotify(ByAlert))
  {
    EveryRunClosesInOrder(Start(kernel, drained), events);
    OrderlyCloses(ApplyAll(Start(kernel, drained), events).k);
  }

  lemma OrderlyCloses(k: Ktls)
    requires Orderly(k)
    ensures var closing := ClosingPart(k.sent);
            && ClosesInOrder(closing) && (k.writeClosed <==> closing != [])
            && (k.readClosed <==> closing != [] && k.sent[|k.sent| - 1] == CloseNotify(ByAlert))
  {
    var closing := ClosingPart(k.sent);
    if closing != [] {
      assert closing[|closing| - 1] == k.sent[|k.sent| - 1];
    }
  }

  /** The data among the things sent, in order. */
  function DataOf(sent: seq<Sent>): seq<seq<Byte>>
  {
    if sent == [] then []
    else DataOf(sent[..|sent| - 1]) + (var last := sent[|sent| - 1]; if last.Data? then [last.bytes] else [])
  }

  /** What was written in a run while nothing had closed the stream for writing. */
  function WrittenInTime(t: Trace, events: seq<Event>): seq<seq<Byte>>
    requires t.k.Valid()
    decreases |events|
  {
    if events == [] then []
    else InTime(t, events[0]) + WrittenInTime(Apply(t, events[0]), events[1..])
  }

  function InTime(t: Trace, e: Event): seq<seq<Byte>>
  {
    if e.Writing? && !t.k.writeClosed then [e.data] else []
  }

  lemma DataOfAppend(sent: seq<Sent>, x: Sent)
    ensures DataOf(sent + [x]) == DataOf(sent) + if x.Data? then [x.bytes] else []
  {
    assert (sent + [x])[..|sent|] == sent;
  }

  lemma EventSends(t: Trace, e: Event)
    requires t.k.Valid()
    ensures DataOf(Apply(t, e).k.sent) == DataOf(t.k.sent) + InTime(t, e)
    ensures e == ShuttingDown ==> Apply(t, e).k.writeClosed && (t.k.writeClosed || Apply(t, e).k.sent != t.k.sent)
  {
    match e
    case Reading(room, sendFails) =>
      ReadAnswersAtMostOnce(t.k, room, sendFails);
      DataOfAppend(t.k.sent, CloseNotify(ByAlert));
    case Writing(data) => DataOfAppend(t.k.sent, Data(data));
    case ShuttingDown => DataOfAppend(t.k.sent, CloseNotify(ByShutdown));
  }

  /** In every run exactly what is written before the stream is closed for writing reaches the socket, in order. */
  lemma {:induction false} EveryWriteInTimeIsSent(t: Trace, events: seq<Event>)
    requires t.k.Valid()
    ensures DataOf(ApplyAll(t, events).k.sent) == DataOf(t.k.sent) + WrittenInTime(t, events)
    decreases |events|
  {
    if events != [] {
      var t1 := Apply(t, events[0]);
      EventSends(t, events[0]);
      EveryWriteInTimeIsSent(t1, events[1..]);
      RegroupData(DataOf(t.k.sent), InTime(t, events[0]), WrittenInTime(t1, events[1..]));
    }
  }

  lemma RegroupData(a: seq<seq<Byte>>, b: seq<seq<Byte>>, c: seq<seq<Byte>>)
    ensures a + (b + c) == (a + b) + c
  {
  }

  /** A run that shuts a new stream down has attempted a close_notify. */
  lemma ShutdownAttemptsClose(kernel: Kernel, drained: Option<seq<Byte>>, events: seq<Event>)
    requires kernel.Valid() && ShuttingDown in events
    ensures var k := ApplyAll(Start(kernel, drained), events).k;
            k.writeClosed && (CloseNotify(ByShutdown) in k.sent || CloseNotify(ByAlert) in k.sent)
  {
    ShutdownCloses(Start(kernel, drained), events);
    EveryStreamClosesInOrder(kernel, drained, events);
    var k := ApplyAll(Start(kernel, drained), events).k;
    var n := FirstClose(k.sent);
    assert k.sent[n] == ClosingPart(k.sent)[0];
  }

  lemma {:induction false} ShutdownCloses(t: Trace, events: seq<Event>)
    requires t.k.Valid() && Orderly(t.k) && (t.k.writeClosed || ShuttingDown in events)
    ensures ApplyAll(t, events).k.writeClosed
    decreases |events|
  {
    if events != [] {
      EventKeepsOrder(t, events[0]);
      EventSends(t, events[0]);
      assert ShuttingDown in events ==> events[0] == ShuttingDown || ShuttingDown in events[1..];
      ShutdownCloses(Apply(t, events[0]), events[1..]);
    }
  }

  // ---------------------------------------------------------------- the stream itself

  datatype Written = Accepted(count: nat) | WritePending | WriteFailed(errno: nat)

  class KtlsStream {
    var kernel: Kernel
    var writeClosed: bool
    var readClosed: bool
    var drained: Option<Replay>
    var sent: seq<Sent>

    function View(): Ktls
      reads this
    {
      Ktls(kernel, writeClosed, readClosed, drained, sent)
    }

    constructor (kernel: Kernel, drained: Option<seq<Byte>>)
      requires kernel.Valid()
      ensures View() == NewKtls(kernel, drained) && View().Valid()
    {
      this.kernel := kernel;
      writeClosed, readClosed := false, false;
      this.drained := if drained.Some? then Some(Replay(0, drained.value)) else None;
      sent := [];
    }

    method IntoRaw() returns (bytes: Option<seq<Byte>>, socket: Kernel)
      ensures (bytes, socket) == RawParts(View())
    {
      bytes, socket := None, kernel;
      if drained.Some? {
        bytes := Some(drained.value.bytes);
      }
    }

    /** One poll does to the stream and to the caller's buffer exactly what `PollRead` says. */
    method Poll(buf: ReadBuf, sendFails: Option<nat>) returns (polled: Polled)
      requires View().Valid() && buf.Valid()
      modifies this, buf, buf.data
      ensures var s := PollRead(old(View()), old(buf.Remaining()), sendFails);
              && View() == s.k && polled == s.polled
              && buf.Valid() && buf.Filled() == old(buf.Filled()) + s.bytes
    {
      var room := buf.Remaining();
      var bytes: seq<Byte> := [];
      polled := Ready;
      if !readClosed && room > 0 {
        if drained.Some? {
          bytes := PollDrained(room);
        } else {
          var r := Read(kernel, room);
          kernel := r.kernel;
          match r.reply {
            case NotReady => polled := Pending;
            case Filled(got) => bytes := got;
            case Broken(errno) =>
              if errno == EIO {
                polled := PollControl(buf, sendFails);
              } else {
                polled := Failed(errno);
              }
          }
        }
      }
      assert Step(View(), polled, bytes) == PollRead(old(View()), room, sendFails);
      buf.PutSlice(bytes);
    }

    method PollDrained(room: nat) returns (bytes: seq<Byte>)
      requires View().Valid() && drained.Some?
      modifies this
      ensures Step(View(), Ready, bytes) == PollReplay(old(View()), room)
    {
      var Replay(index, all) := drained.value;
      var remaining := all[index..];
      var len := Min(room, |remaining|);
      bytes := remaining[..len];
      index := index + len;
      drained := Some(Replay(index, all));
      if index >= |remaining| {
        drained := None;
      }
    }

    /** Fetches the control record behind an EIO into the free part of the buffer and acts on it. */
    method PollControl(buf: ReadBuf, sendFails: Option<nat>) returns (polled: Polled)
      requires View().Valid() && buf.Valid()
      modifies this, buf.data
      ensures var s := OnFetched(old(View()), Fetch(old(kernel), old(buf.Remaining())), sendFails);
              View() == s.k && polled == s.polled && s.bytes == []
      ensures buf.Valid() && buf.Filled() == old(buf.Filled())
    {
      var f := Fetch(kernel, buf.Remaining());
      kernel := f.kernel;
      match f.fetched {
        case NoControl => return Panicked;
        case FetchError(errno) => return Failed(errno);
        case Control(typ, bytes) =>
          buf.Scribble(bytes);
          if typ == CHANGE_CIPHER_SPEC || typ == APPLICATION_DATA {
            return Panicked;
          }
          if typ != ALERT {
            return Pending;
          }
          if |bytes| == 0 || |bytes| > 2 {
            return Panicked;
          }
          if Closes(bytes) {
            readClosed := true;
            writeClosed := true;
            sent := sent + [CloseNotify(ByAlert)];
            if sendFails.Some? {
              return Failed(sendFails.value);
            }
          }
          return Ready;
      }
    }

    /** Nothing is passed to the socket once a close_notify has been attempted. */
    method Write(data: seq<Byte>, inner: Written) returns (w: Written)
      modifies this`sent
      ensures View() == PollWrite(old(View()), data)
      ensures w == if old(writeClosed) then Accepted(0) else inner
    {
      if writeClosed {
        return Accepted(0);
      }
      sent := sent + [Data(data)];
      return inner;
    }

    /** A failed close_notify is reported without shutting the socket down; it still counts as sent. */
    method Shutdown(sendFails: Option<nat>) returns (error: Option<nat>, innerShutdown: bool)
      modifies this`writeClosed, this`sent
      ensures View() == PollShutdown(old(View()))
      ensures error == (if old(writeClosed) then None else sendFails) && innerShutdown == error.None?
    {
      if !writeClosed {
        writeClosed := true;
        sent := sent + [CloseNotify(ByShutdown)];
        if sendFails.Some? {
          return sendFails, false;
        }
      }
      return None, true;
    }
  }
}
