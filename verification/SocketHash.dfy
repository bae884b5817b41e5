/**
  The key of a connection in the socket map, computed once in user space from socket
  addresses and once in the kernel from the fields of a packet, in 32-bit wrapping
  arithmetic on either byte order.
 */
module SocketHash {
  import opened Octets

  const MODULUS := 0x1_0000_0000
  const MULTIPLIER := 31
  const INVERSE := 3186588639  // of the multiplier: their product is 23 * MODULUS + 1

  type Word = w: int | 0 <= w < 0x1_0000_0000

  type Port = p: int | 0 <= p < 0x1_0000

  datatype ByteOrder = LittleEndian | BigEndian

  datatype Ip = V4(octets: seq<Byte>) | V6(octets: seq<Byte>) {
    predicate Valid() { |octets| == if V4? then 4 else 16 }

    /** Sixteen octets; an IPv4 address in its mapped form (section 2.5.5.2 of RFC 4291). */
    function Octets16(): (s: seq<Byte>)
      requires Valid()
      ensures |s| == 16
    {
      if V4? then [0, 0, 0, 0, 0, 0, 0, 0, 0, 0, 255, 255] + octets else octets
    }
  }

  datatype SocketAddr = SocketAddr(ip: Ip, port: Port)

  // ---------------------------------------------------------------- byte order

  function FromBeBytes(a: Byte, b: Byte, c: Byte, d: Byte): Word
  {
    0x100_0000 * a + 0x1_0000 * b + 0x100 * c + d
  }

  /** The four bytes as the host reads them from memory. */
  function NativeLoad(e: ByteOrder, a: Byte, b: Byte, c: Byte, d: Byte): Word
  {
    if e == BigEndian then FromBeBytes(a, b, c, d) else FromBeBytes(d, c, b, a)
  }

  function SwapBytes(w: Word): Word
  {
    var top3 := w / 0x100;
    var top2 := top3 / 0x100;
    FromBeBytes(w % 0x100, top3 % 0x100, top2 % 0x100, top2 / 0x100)
  }

  function ToBe(e: ByteOrder, w: Word): Word
  {
    if e == BigEndian then w else SwapBytes(w)
  }

  lemma SwapFromBeBytes(a: Byte, b: Byte, c: Byte, d: Byte)
    ensures SwapBytes(FromBeBytes(a, b, c, d)) == FromBeBytes(d, c, b, a)
  {
    var w := FromBeBytes(a, b, c, d);
    assert w / 0x100 == 0x1_0000 * a + 0x100 * b + c;
    assert w / 0x100 / 0x100 == 0x100 * a + b;
  }

  lemma SwapIsInvolution(w: Word)
    ensures SwapBytes(SwapBytes(w)) == w
  {
    var top3 := w / 0x100;
    var top2 := top3 / 0x100;
    SwapFromBeBytes(w % 0x100, top3 % 0x100, top2 % 0x100, top2 / 0x100);
  }

  // ---------------------------------------------------------------- the ten words of a connection

  /** What the kernel shows of a packet: addresses loaded as they lie in network order, the
      local port in host order, the remote port in network order as a 32-bit field. */
  datatype Packet = Packet(localIp6: seq<Word>, localPort: Word, remoteIp6: seq<Word>, remotePort: Word)

  function LoadWord(e: ByteOrder, s: seq<Byte>, i: nat): Word
    requires |s| == 16 && i < 4
  {
    NativeLoad(e, s[4 * i], s[4 * i + 1], s[4 * i + 2], s[4 * i + 3])
  }

  function IpWords(e: ByteOrder, ip: Ip): (s: seq<Word>)
    requires ip.Valid()
    ensures |s| == 4
  {
    var s := ip.Octets16();
    [LoadWord(e, s, 0), LoadWord(e, s, 1), LoadWord(e, s, 2), LoadWord(e, s, 3)]
  }

  function PacketOf(e: ByteOrder, local: SocketAddr, peer: SocketAddr): Packet
    requires local.ip.Valid() && peer.ip.Valid()
  {
    Packet(IpWords(e, local.ip), local.port, IpWords(e, peer.ip), ToBe(e, peer.port))
  }

  function Words(p: Packet): seq<Word>
  {
    p.localIp6 + [p.localPort] + p.remoteIp6 + [p.remotePort]
  }

  // ---------------------------------------------------------------- the key

  function WrappingMul(a: Word, b: Word): Word { a * b % MODULUS }

  function WrappingAdd(a: Word, b: Word): Word { (a + b) % MODULUS }

  function Mix(key: Word, w: Word): Word
  {
    WrappingAdd(WrappingMul(MULTIPLIER, key), w)
  }

  function Pow31(n: nat): nat
  {
    if n == 0 then 1 else MULTIPLIER * Pow31(n - 1)
  }

  /** The words as coefficients of a polynomial at 31, highest power first, without wrapping. */
  function Polynomial(words: seq<Word>): nat
  {
    if words == [] then 0 else words[0] * Pow31(|words| - 1) + Polynomial(words[1..])
  }

  /** The words mixed in from first to last. */
  function Key(words: seq<Word>): Word
    requires words != []
  {
    if |words| == 1 then words[0] else Mix(Key(words[..|words| - 1]), words[|words| - 1])
  }

  lemma MixIsAffine(key: Word, w: Word)
    ensures Mix(key, w) == (MULTIPLIER * key + w) % MODULUS
  {
    var product := MULTIPLIER * key;
    var low, carry := product % MODULUS, product / MODULUS;
    var sum := low + w;
    RemainderIs(product + w, carry + sum / MODULUS, sum % MODULUS);
  }

  lemma {:induction false} PolynomialAppend(words: seq<Word>, w: Word)
    ensures Polynomial(words + [w]) == MULTIPLIER * Polynomial(words) + w
    decreases |words|
  {
    if words == [] {
      assert words + [w] == [w];
    } else {
      var rest := words[1..];
      assert (words + [w])[1..] == rest + [w];
      PolynomialAppend(rest, w);
      var n := |rest|;
      assert Pow31(n + 1) == MULTIPLIER * Pow31(n);
      assert words[0] * (MULTIPLIER * Pow31(n)) == MULTIPLIER * (words[0] * Pow31(n));
    }
  }

  lemma RemainderIs(x: int, q: int, r: Word)
    requires x == MODULUS * q + r
    ensures x % MODULUS == r
  {
  }

  lemma WrapInside(p: nat, r: Word, q: nat, w: Word)
    requires p == MODULUS * q + r
    ensures (MULTIPLIER * r + w) % MODULUS == (MULTIPLIER * p + w) % MODULUS
  {
    var low := MULTIPLIER * r + w;
    var wrapped, carry := low % MODULUS, low / MODULUS;
    assert low == MODULUS * carry + wrapped;
    RemainderIs(MULTIPLIER * p + w, carry + MULTIPLIER * q, wrapped);
  }

  /** Wrapping at every step gives the polynomial modulo 2^32. */
  lemma {:induction false} KeyIsPolynomial(words: seq<Word>)
    requires words != []
    ensures Key(words) == Polynomial(words) % MODULUS
    decreases |words|
  {
    var init, last := words[..|words| - 1], words[|words| - 1];
    assert words == init + [last];
    PolynomialAppend(init, last);
    if |words| > 1 {
      KeyIsPolynomial(init);
      MixIsAffine(Key(init), last);
      var p := Polynomial(init);
      WrapInside(p, p % MODULUS, p / MODULUS, last);
    } else {
      assert init == [];
    }
  }

  lemma KeyNext(words: seq<Word>, n: nat)
    requires 1 <= n < |words|
    ensures Key(words[..n + 1]) == Mix(Key(words[..n]), words[n])
  {
    assert words[..n + 1][..n] == words[..n];
  }

  /** Both sides mix the same ten words, whatever the byte order of the host. */
  method StreamVerdictKey(p: Packet) returns (key: Word)
    requires |p.localIp6| == 4 && |p.remoteIp6| == 4
    ensures key == Key(Words(p))
  {
    ghost var words := Words(p);
    key := p.localIp6[0];
    key := MixIn(words, 1, key, p.localIp6[1]);
    key := MixIn(words, 2, key, p.localIp6[2]);
    key := MixIn(words, 3, key, p.localIp6[3]);
    key := MixIn(words, 4, key, p.localPort);
    key := MixIn(words, 5, key, p.remoteIp6[0]);
    key := MixIn(words, 6, key, p.remoteIp6[1]);
    key := MixIn(words, 7, key, p.remoteIp6[2]);
    key := MixIn(words, 8, key, p.remoteIp6[3]);
    key := MixIn(words, 9, key, p.remotePort);
    assert words[..10] == words;
  }

  /** Mixes word `n` into the key of the words before it. */
  method MixIn(ghost words: seq<Word>, ghost n: nat, key: Word, w: Word) returns (key': Word)
    requires 1 <= n < |words| && key == Key(words[..n]) && w == words[n]
    ensures key' == Key(words[..n + 1])
  {
    key' := WrappingAdd(WrappingMul(MULTIPLIER, key), w);
    KeyNext(words, n);
  }

  function HostWord(e: ByteOrder, s: seq<Byte>, i: nat): Word
    requires |s| == 16 && i < 4
  {
    ToBe(e, FromBeBytes(s[4 * i], s[4 * i + 1], s[4 * i + 2], s[4 * i + 3]))
  }

  /** Turning a big-endian value back to network order is a plain load of its bytes. */
  lemma HostWordIsLoad(e: ByteOrder, s: seq<Byte>, i: nat)
    requires |s| == 16 && i < 4
    ensures HostWord(e, s, i) == LoadWord(e, s, i)
  {
    SwapFromBeBytes(s[4 * i], s[4 * i + 1], s[4 * i + 2], s[4 * i + 3]);
  }

  lemma IpWordsAreHostWords(e: ByteOrder, ip: Ip)
    requires ip.Valid()
    ensures var s := ip.Octets16();
            IpWords(e, ip) == [HostWord(e, s, 0), HostWord(e, s, 1), HostWord(e, s, 2), HostWord(e, s, 3)]
  {
    var s := ip.Octets16();
    HostWordIsLoad(e, s, 0);
    HostWordIsLoad(e, s, 1);
    HostWordIsLoad(e, s, 2);
    HostWordIsLoad(e, s, 3);
  }

  lemma PacketWords(e: ByteOrder, local: SocketAddr, peer: SocketAddr)
    requires local.ip.Valid() && peer.ip.Valid()
    ensures var l, r := local.ip.Octets16(), peer.ip.Octets16();
            Words(PacketOf(e, local, peer)) ==
            [HostWord(e, l, 0), HostWord(e, l, 1), HostWord(e, l, 2), HostWord(e, l, 3), local.port,
             HostWord(e, r, 0), HostWord(e, r, 1), HostWord(e, r, 2), HostWord(e, r, 3), ToBe(e, peer.port)]
  {
    IpWordsAreHostWords(e, local.ip);
    IpWordsAreHostWords(e, peer.ip);
  }

  /** The user-space key is the one the kernel computes for the same connection. */
  method SocketKey(e: ByteOrder, local: SocketAddr, peer: SocketAddr) returns (key: Word)
    requires local.ip.Valid() && peer.ip.Valid()
    ensures key == Key(Words(PacketOf(e, local, peer)))
  {
    var lip, rip := local.ip.Octets16(), peer.ip.Octets16();
    PacketWords(e, local, peer);
    key := MixTen([HostWord(e, lip, 0), HostWord(e, lip, 1), HostWord(e, lip, 2), HostWord(e, lip, 3), local.port,
                   HostWord(e, rip, 0), HostWord(e, rip, 1), HostWord(e, rip, 2), HostWord(e, rip, 3),
                   ToBe(e, peer.port)]);
  }

  /** Starts from the first word and mixes the others in, one after the other. */
  method MixTen(words: seq<Word>) returns (key: Word)
    requires |words| == 10
    ensures key == Key(words)
  {
    key := words[0];
    assert words[..1] == [key];
    key := MixFour(words, 1, key, words[1], words[2], words[3], words[4]);
    key := MixIn(words, 5, key, words[5]);
    key := MixFour(words, 6, key, words[6], words[7], words[8], words[9]);
    assert words[..10] == words;
  }

  /** Mixes four words in, one after the other. */
  method MixFour(ghost words: seq<Word>, ghost n: nat, key: Word, w0: Word, w1: Word, w2: Word, w3: Word)
    returns (key': Word)
    requires 1 <= n && n + 4 <= |words| && key == Key(words[..n])
    requires words[n] == w0 && words[n + 1] == w1 && words[n + 2] == w2 && words[n + 3] == w3
    ensures key' == Key(words[..n + 4])
  {
    key' := MixIn(words, n, key, w0);
    key' := MixIn(words, n + 1, key', w1);
    key' := MixIn(words, n + 2, key', w2);
    key' := MixIn(words, n + 3, key', w3);
  }

  /** For every connection and either byte order, both sides compute one polynomial modulo 2^32. */
  method KeysAgree(e: ByteOrder, local: SocketAddr, peer: SocketAddr) returns (user: Word, kernel: Word)
    requires local.ip.Valid() && peer.ip.Valid()
    ensures user == kernel == Polynomial(Words(PacketOf(e, local, peer))) % MODULUS
  {
    user := SocketKey(e, local, peer);
    kernel := StreamVerdictKey(PacketOf(e, local, peer));
    KeyIsPolynomial(Words(PacketOf(e, local, peer)));
  }

  // ---------------------------------------------------------------- distinct keys

  /** A multiple of the modulus smaller than it is zero. */
  lemma SmallMultiple(x: int, q: int)
    requires x == MODULUS * q && -MODULUS < x < MODULUS
    ensures x == 0
  {
  }

  lemma MixIsInjective(k1: Word, k2: Word, w: Word)
    requires Mix(k1, w) == Mix(k2, w)
    ensures k1 == k2
  {
    MixIsAffine(k1, w);
    MixIsAffine(k2, w);
    var x, y := MULTIPLIER * k1 + w, MULTIPLIER * k2 + w;
    var q := x / MODULUS - y / MODULUS;
    assert MULTIPLIER * (k1 - k2) == MODULUS * q;
    Invert(k1 - k2, q);
    SmallMultiple(k1 - k2, INVERSE * q - 23 * (k1 - k2));
  }

  lemma Invert(d: int, q: int)
    requires MULTIPLIER * d == MODULUS * q
    ensures d == MODULUS * (INVERSE * q - 23 * d)
  {
    assert INVERSE * (MULTIPLIER * d) == INVERSE * (MODULUS * q);
  }

  lemma MixIsOnto(target: Word, w: Word) returns (key: Word)
    ensures Mix(key, w) == target
  {
    var d := target - w;
    var x := INVERSE * d;
    var q := x / MODULUS;
    key := x % MODULUS;
    Revert(d, q, key);
    MixIsAffine(key, w);
    RemainderIs(MULTIPLIER * key + w, 23 * d - MULTIPLIER * q, target);
  }

  lemma Revert(d: int, q: int, key: int)
    requires INVERSE * d == MODULUS * q + key
    ensures MULTIPLIER * key == d + MODULUS * (23 * d - MULTIPLIER * q)
  {
  }

  lemma LastMixIsOnto(target: Word, key: Word) returns (w: Word)
    ensures Mix(key, w) == target
  {
    var x := target - MULTIPLIER * key;
    w := x % MODULUS;
    MixIsAffine(key, w);
    RemainderIs(MULTIPLIER * key + w, -(x / MODULUS), target);
  }

  lemma LastMixIsInjective(key: Word, v: Word, w: Word)
    requires Mix(key, v) == Mix(key, w)
    ensures v == w
  {
    MixIsAffine(key, v);
    MixIsAffine(key, w);
    var x, y := MULTIPLIER * key + v, MULTIPLIER * key + w;
    SmallMultiple(v - w, x / MODULUS - y / MODULUS);
  }

  /** With the other words fixed, the key is an injective function of each word... */
  lemma {:induction false} KeyIsInjectiveInEachWord(words: seq<Word>, i: nat, v: Word, w: Word)
    requires i < |words| && Key(words[i := v]) == Key(words[i := w])
    ensures v == w
    decreases |words|
  {
    var n := |words| - 1;
    if n > 0 {
      var init := words[..n];
      if i == n {
        assert words[i := v][..n] == init && words[i := w][..n] == init;
        LastMixIsInjective(Key(init), v, w);
      } else {
        assert words[i := v][..n] == init[i := v] && words[i := w][..n] == init[i := w];
        MixIsInjective(Key(init[i := v]), Key(init[i := w]), words[n]);
        KeyIsInjectiveInEachWord(init, i, v, w);
      }
    }
  }

  /** ... and takes every value, so it is a bijection. */
  lemma {:induction false} KeyIsOntoInEachWord(words: seq<Word>, i: nat, target: Word) returns (w: Word)
    requires i < |words|
    ensures Key(words[i := w]) == target
    decreases |words|
  {
    var n := |words| - 1;
    if n == 0 {
      w := target;
    } else {
      var init := words[..n];
      if i == n {
        w := LastMixIsOnto(target, Key(init));
        assert words[i := w][..n] == init;
      } else {
        var key := MixIsOnto(target, words[n]);
        w := KeyIsOntoInEachWord(init, i, key);
        assert words[i := w][..n] == init[i := w];
      }
    }
  }

  ghost function ConnectionKey(e: ByteOrder, local: SocketAddr, peer: SocketAddr): Word
    requires local.ip.Valid() && peer.ip.Valid()
  {
    Key(Words(PacketOf(e, local, peer)))
  }

  /** Connections that differ only in one port never share a key. */
  lemma PortsSeparateKeys(e: ByteOrder, local: SocketAddr, peer: SocketAddr, port: Port)
    requires local.ip.Valid() && peer.ip.Valid()
    ensures ConnectionKey(e, local, peer) == ConnectionKey(e, local.(port := port), peer) <==> port == local.port
    ensures ConnectionKey(e, local, peer) == ConnectionKey(e, local, peer.(port := port)) <==> port == peer.port
  {
    var words := Words(PacketOf(e, local, peer));
    var words1 := Words(PacketOf(e, local.(port := port), peer));
    var words2 := Words(PacketOf(e, local, peer.(port := port)));
    assert words == words[4 := local.port] && words1 == words[4 := port];
    assert words == words[9 := ToBe(e, peer.port)] && words2 == words[9 := ToBe(e, port)];
    if Key(words) == Key(words1) {
      KeyIsInjectiveInEachWord(words, 4, local.port, port);
    }
    if Key(words) == Key(words2) {
      KeyIsInjectiveInEachWord(words, 9, ToBe(e, peer.port), ToBe(e, port));
      SwapIsInvolution(port);
      SwapIsInvolution(peer.port);
    }
  }

  /** An IPv4 address and its IPv6-mapped form give the same key. */
  lemma MappedAddressSameKey(e: ByteOrder, octets: seq<Byte>, port: Port, peer: SocketAddr)
    requires |octets| == 4 && peer.ip.Valid()
    ensures var v4 := SocketAddr(V4(octets), port);
            var v6 := SocketAddr(V6([0, 0, 0, 0, 0, 0, 0, 0, 0, 0, 255, 255] + octets), port);
            && ConnectionKey(e, v4, peer) == ConnectionKey(e, v6, peer)
            && ConnectionKey(e, peer, v4) == ConnectionKey(e, peer, v6)
  {
  }
}
