/**
  The whole path of a terminated connection: what was drained in user space goes
  upstream first, then what the application reads from the socket the kernel decrypts.
 */
module EndToEnd {
  import opened Octets
  import opened Framing
  import opened Options
  import ByteSource
  import CorkStreams
  import TlsSessions
  import Handover
  import Polling
  import KtlsSetup
  import opened KernelSocket
  import KtlsStreams

  /** The record behind an encrypted one, opened under a given sequence number. */
  type Decryptor = (nat, seq<Byte>) -> Record

  function AppPart(r: Record): seq<Byte>
  {
    if r.typ == APPLICATION_DATA then r.body else []
  }

  /** The opener yields the application bytes of what the decryptor yields. */
  ghost predicate Opens(open: TlsSessions.Opener, decrypt: Decryptor) {
    forall n: nat, record :: open(n, record) == AppPart(decrypt(n, record))
  }

  function DecryptAll(decrypt: Decryptor, n: nat, records: seq<seq<Byte>>): seq<Record>
    decreases |records|
  {
    if records == [] then [] else [decrypt(n, records[0])] + DecryptAll(decrypt, n + 1, records[1..])
  }

  /** The records the kernel hands out of a connection it has taken over. */
  function KernelRecords(ok: Decoder, decrypt: Decryptor, kernel: KtlsSetup.KernelStream): seq<Record>
    requires kernel.io.Valid()
  {
    DecryptAll(decrypt, FromBigEndian(kernel.recSeq), SplitRecords(ok, kernel.io.Unread()).records)
  }

  lemma {:induction false} AppBytesCons(r: Record, records: seq<Record>)
    ensures KtlsStreams.AppBytes([r] + records) == AppPart(r) + KtlsStreams.AppBytes(records)
    decreases |records|
  {
    if records == [] {
      assert [r] + records == [r];
    } else {
      var n := |records| - 1;
      assert ([r] + records)[..n + 1] == [r] + records[..n];
      AppBytesCons(r, records[..n]);
    }
  }

  lemma {:induction false} DecryptedAppBytes(open: TlsSessions.Opener, decrypt: Decryptor, n: nat,
                                             records: seq<seq<Byte>>)
    requires Opens(open, decrypt)
    ensures KtlsStreams.AppBytes(DecryptAll(decrypt, n, records))
         == TlsSessions.Plain(TlsSessions.Keys(0, open), n, records)
    decreases |records|
  {
    if records != [] {
      DecryptedAppBytes(open, decrypt, n + 1, records[1..]);
      AppBytesCons(decrypt(n, records[0]), DecryptAll(decrypt, n + 1, records[1..]));
    }
  }

  lemma PrefixBehind(a: seq<Byte>, b: seq<Byte>, c: seq<Byte>)
    requires b <= c
    ensures a + b <= a + c
  {
    assert c == b + c[|b|..];
    assert a + c == (a + b) + c[|b|..];
  }

  /** Every run reads a prefix of the application bytes of the records, and all of them once none is left. */
  lemma ReadsPrefix(all: seq<Record>, turns: seq<Turn>, events: seq<KtlsStreams.Event>)
    requires KtlsStreams.WellFormed(all)
    ensures var t := KtlsStreams.ApplyAll(KtlsStreams.Start(Kernel(all, 0, 0, turns), None), events);
            && t.out <= KtlsStreams.AppBytes(all)
            && (t.k.kernel.next == |all| ==> t.out == KtlsStreams.AppBytes(all))
  {
    var t := KtlsStreams.ApplyAll(KtlsStreams.Start(Kernel(all, 0, 0, turns), None), events);
    KtlsStreams.ReadsWhatIsHandedOver(all, turns, events);
    HandedOverIsPrefix(t.k.kernel);
  }

  lemma HandedOverIsPrefix(k: Kernel)
    requires k.Valid()
    ensures KtlsStreams.AppSoFar(k) <= KtlsStreams.AppBytes(k.all)
    ensures k.next == |k.all| ==> KtlsStreams.AppSoFar(k) == KtlsStreams.AppBytes(k.all)
  {
    KtlsStreams.AppSoFarIsPrefix(k, |k.all|);
    assert k.all[..|k.all|] == k.all;
  }

  /** What was written upstream, then all that a run reads, is in order what the peer sent, and in the end all of it. */
  ghost predicate Delivers(upstream: seq<Byte>, k: KtlsStreams.Ktls, events: seq<KtlsStreams.Event>, plain: seq<Byte>)
    requires k.Valid()
  {
    var t := KtlsStreams.ApplyAll(KtlsStreams.Trace(k, [], 0), events);
    && upstream + t.out <= plain
    && (t.k.kernel.next == |t.k.kernel.all| ==> upstream + t.out == plain)
  }

  /** After a seamless handover, every run of the stream built on the socket delivers the peer's plaintext. */
  lemma UpstreamReceivesThePlaintext(ok: Decoder, keys: TlsSessions.Keys, decrypt: Decryptor, drained: seq<Byte>,
                                     kernel: KtlsSetup.KernelStream, turns: seq<Turn>, events: seq<KtlsStreams.Event>)
    requires Opens(keys.open, decrypt)
    requires kernel.io.Valid() && Handover.Seamless(ok, keys, drained, kernel.recSeq, kernel.io)
    requires KtlsStreams.WellFormed(KernelRecords(ok, decrypt, kernel))
    ensures var socket := Kernel(KernelRecords(ok, decrypt, kernel), 0, 0, turns);
            Delivers(drained, KtlsStreams.NewKtls(socket, None), events, TlsSessions.PlainOf(ok, keys, kernel.io.wire))
  {
    var all := KernelRecords(ok, decrypt, kernel);
    var t := KtlsStreams.ApplyAll(KtlsStreams.Start(Kernel(all, 0, 0, turns), None), events);
    DecryptedAppBytes(keys.open, decrypt, FromBigEndian(kernel.recSeq), SplitRecords(ok, kernel.io.Unread()).records);
    ReadsPrefix(all, turns, events);
    PrefixBehind(drained, t.out, KtlsStreams.AppBytes(all));
    KtlsStreams.ReadsWhatIsHandedOver(all, turns, events);
  }

  /** `at` is where in the peer's bytes the kernel took over. */
  datatype Client = Copying(upstream: seq<Byte>, k: KtlsStreams.Ktls, at: nat) | Closed | NeverReady

  /** The records behind position `at`, opened with the record numbers that follow those before it. */
  function RecordsFrom(ok: Decoder, keys: TlsSessions.Keys, decrypt: Decryptor, wire: seq<Byte>, at: nat): seq<Record>
    requires at <= |wire| && keys.epoch <= |SplitRecords(ok, wire[..at]).records|
  {
    DecryptAll(decrypt, |SplitRecords(ok, wire[..at]).records| - keys.epoch, SplitRecords(ok, wire[at..]).records)
  }

  /**
    The kernel took over at a record boundary behind the handshake, the plaintext before it
    went upstream, and what is read from then on are the records behind it.
   */
  ghost predicate TookOver(ok: Decoder, keys: TlsSessions.Keys, decrypt: Decryptor, wire: seq<Byte>, r: Client,
                           turns: seq<Turn>)
    requires r.Copying?
  {
    && r.at <= |wire| && (r.at == |wire| || CorkStreams.AtBoundary(ok, wire, r.at))
    && keys.epoch <= |SplitRecords(ok, wire[..r.at]).records|
    && r.upstream == TlsSessions.PlainOf(ok, keys, wire[..r.at])
    && (KtlsSetup.NumbersFit(ok, keys, wire) ==>
          r.k == KtlsStreams.NewKtls(Kernel(RecordsFrom(ok, keys, decrypt, wire, r.at), 0, 0, turns), None))
  }

  /**
    Accepts a connection and takes it over into the kernel: drained bytes go upstream at
    once, and a new stream without them is what gets copied from then on. Every run of that
    stream delivers the plaintext of the whole connection. The connection is given up
    exactly if the kernel refuses the keys, upstream the bytes, or the peer fails, and hangs
    only if the byte source gives something too few times.
   */
  method TerminateTls(ok: Decoder, keys: TlsSessions.Keys, decrypt: Decryptor, io: ByteSource.Io,
                      keysInstall: bool, written: bool, turns: seq<Turn>) returns (r: Client)
    requires io.pos == 0 && Opens(keys.open, decrypt) && Polling.Shrinks(keys)
    ensures r.Copying? ==>
              && keysInstall && (r.upstream != [] ==> written)
              && TookOver(ok, keys, decrypt, io.wire, r, turns) && r.k.Valid()
              && (KtlsSetup.NumbersFit(ok, keys, io.wire) && KtlsStreams.WellFormed(r.k.kernel.all) ==>
                    forall events :: Delivers(r.upstream, r.k, events, TlsSessions.PlainOf(ok, keys, io.wire)))
    ensures r == Closed ==> !keysInstall || !written || KtlsSetup.PeerFails(ok, keys, io)
    ensures r == NeverReady ==> CorkStreams.Gives(io.turns) <= |io.wire| + 3
  {
    var setup := AcceptAndConfigure(ok, keys, io, keysInstall);
    match setup {
      case SetupError => return Closed;
      case SetupPending => return NeverReady;
      case Configured(drained, kernel) =>
        var socket := Kernel(KernelRecords(ok, decrypt, kernel), 0, 0, turns);
        r := TakeOver(drained, kernel.io.pos, socket, written);
        CopyingDelivers(ok, keys, decrypt, io.wire, drained, kernel, turns);
    }
  }

  lemma CopyingDelivers(ok: Decoder, keys: TlsSessions.Keys, decrypt: Decryptor, wire: seq<Byte>,
                        drained: Option<seq<Byte>>, kernel: KtlsSetup.KernelStream, turns: seq<Turn>)
    requires Opens(keys.open, decrypt) && StandsAtBoundary(ok, keys, wire, drained, kernel)
    ensures var k := KtlsStreams.NewKtls(Kernel(KernelRecords(ok, decrypt, kernel), 0, 0, turns), None);
            && k.Valid() && TookOver(ok, keys, decrypt, wire, Copying(OrEmpty(drained), k, kernel.io.pos), turns)
            && (KtlsSetup.NumbersFit(ok, keys, wire) && KtlsStreams.WellFormed(k.kernel.all) ==>
                  forall events :: Delivers(OrEmpty(drained), k, events, TlsSessions.PlainOf(ok, keys, wire)))
  {
    var socket := Kernel(KernelRecords(ok, decrypt, kernel), 0, 0, turns);
    if KtlsSetup.NumbersFit(ok, keys, wire) && KtlsStreams.WellFormed(socket.all) {
      var plain := TlsSessions.PlainOf(ok, keys, wire);
      forall events ensures Delivers(OrEmpty(drained), KtlsStreams.NewKtls(socket, None), events, plain) {
        UpstreamReceivesThePlaintext(ok, keys, decrypt, OrEmpty(drained), kernel, turns, events);
      }
    }
  }

  /** The kernel stands at a record boundary behind the handshake, and all plaintext before it was drained. */
  predicate StandsAtBoundary(ok: Decoder, keys: TlsSessions.Keys, wire: seq<Byte>, drained: Option<seq<Byte>>,
                             kernel: KtlsSetup.KernelStream)
  {
    && kernel.io.Valid() && kernel.io.wire == wire && Handover.Aligned(ok, kernel.io)
    && OrEmpty(drained) == TlsSessions.PlainOf(ok, keys, kernel.io.Pulled())
    && (drained.Some? ==> drained.value != [])
    && keys.epoch <= |SplitRecords(ok, kernel.io.Pulled()).records|
    && (KtlsSetup.NumbersFit(ok, keys, wire) ==>
          && keys.epoch + FromBigEndian(kernel.recSeq) == |SplitRecords(ok, kernel.io.Pulled()).records|
          && Handover.Seamless(ok, keys, OrEmpty(drained), kernel.recSeq, kernel.io))
  }

  /** From a new connection to one the kernel has taken over. */
  method AcceptAndConfigure(ok: Decoder, keys: TlsSessions.Keys, io: ByteSource.Io, keysInstall: bool)
    returns (r: KtlsSetup.SetupResult)
    requires io.pos == 0 && Polling.Shrinks(keys)
    ensures r.Configured? ==> keysInstall && StandsAtBoundary(ok, keys, io.wire, r.drained, r.kernel)
    ensures r == KtlsSetup.SetupError ==> !keysInstall || KtlsSetup.PeerFails(ok, keys, io)
    ensures r == KtlsSetup.SetupPending ==> CorkStreams.Gives(io.turns) <= |io.wire| + 3
  {
    var stream, accepted := KtlsSetup.Accept(ok, keys, io);
    if accepted != KtlsSetup.Accepted {
      return if accepted == KtlsSetup.Refused then KtlsSetup.SetupError else KtlsSetup.SetupPending;
    }
    ghost var io1 := stream.s.tap.cork.io;
    KtlsSetup.LeanSessionFits(ok, keys, stream.s);
    r := KtlsSetup.ConfigKtlsServer(stream, keysInstall);
    OpaqueToTheEnd(ok, io.wire, Handover.NextBoundary(ok, io.wire, io1.pos));
    if r.Configured? {
      FitMeansBoundary(ok, keys, io1, r.drained, r.kernel);
    }
  }

  lemma FitMeansBoundary(ok: Decoder, keys: TlsSessions.Keys, io: ByteSource.Io, drained: Option<seq<Byte>>,
                         kernel: KtlsSetup.KernelStream)
    requires io.Valid() && KtlsSetup.HandedOver(ok, keys, io, drained, kernel)
    requires KtlsSetup.DrainFits(ok, keys, io.wire, io.pos, 0)
    ensures StandsAtBoundary(ok, keys, io.wire, drained, kernel)
  {
    var ahead := Handover.PlainAhead(ok, keys, io.wire, io.pos);
    assert ahead[..|ahead|] == ahead;
  }

  /** Takes the configured stream apart, writes what was drained and starts a stream without it. */
  method TakeOver(drained: Option<seq<Byte>>, at: nat, socket: Kernel, written: bool) returns (r: Client)
    requires socket.Valid() && (drained.Some? ==> drained.value != [])
    ensures r == if drained.Some? && !written then Closed
                 else Copying(OrEmpty(drained), KtlsStreams.NewKtls(socket, None), at)
  {
    var ktls := new KtlsStreams.KtlsStream(socket, drained);
    var data, tcp := ktls.IntoRaw();
    assert data == drained && tcp == socket;
    if data.Some? && !written {
      return Closed;
    }
    var inner := new KtlsStreams.KtlsStream(tcp, None);
    r := Copying(OrEmpty(data), inner.View(), at);
  }

  lemma OpaqueToTheEnd(ok: Decoder, wire: seq<Byte>, b: nat)
    requires b <= |wire|
    ensures Parse(ok, wire[..b]) == Opaque ==> Parse(ok, wire) == Opaque
  {
    if Parse(ok, wire[..b]) == Opaque {
      CorkStreams.OpaqueBytes(ok, wire, b, |wire|);
      assert wire[..|wire|] == wire;
    }
  }
}
