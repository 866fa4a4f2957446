/**
 The network stack: packet buffers, the Internet checksum (section 1 of RFC 1071),
 and UDP over IP over Ethernet, sent and received.

 A packet is the bytes between a buffer's head and its length. Sending is specified
 by the frame it produces, receiving by what a frame delivers; the round trip joins
 the two.
 */
module Net {
  import opened Common

  const MBUF_SIZE := 2048
  const ETH_LEN := 14
  const IP_LEN := 20
  const UDP_LEN := 8
  const LOCAL_IP: nat := 0x0A00020F

  type Short = n: int | 0 <= n < 0x1_0000
  type Long = n: int | 0 <= n < 0x1_0000_0000

  // ---- Byte order ----

  function Bswaps(v: Short): Short {
    v % 256 * 256 + v / 256
  }

  function Word32(a: Byte, b: Byte, c: Byte, d: Byte): Long {
    (a as int) + 256 * (b as int) + 0x1_0000 * (c as int) + 0x100_0000 * (d as int)
  }

  function Bswapl(v: Long): Long {
    Word32(v / 0x100_0000, v / 0x1_0000 % 256, v / 256 % 256, v % 256)
  }

  /** The processor is little-endian. */
  function Load16(s: seq<Byte>, at: nat): Short
    requires at + 2 <= |s|
  {
    (s[at] as int) + 256 * (s[at + 1] as int)
  }

  function Load32(s: seq<Byte>, at: nat): Long
    requires at + 4 <= |s|
  {
    Word32(s[at], s[at + 1], s[at + 2], s[at + 3])
  }

  function Store16(v: Short): (s: seq<Byte>)
    ensures |s| == 2
  {
    [v % 256, v / 256]
  }

  function Store32(v: Long): (s: seq<Byte>)
    ensures |s| == 4
  {
    [v % 256, v / 256 % 256, v / 0x1_0000 % 256, v / 0x100_0000]
  }

  lemma StoreLoad16(v: Short)
    ensures Load16(Store16(v), 0) == v
  {}

  lemma StoreLoad32(v: Long)
    ensures Load32(Store32(v), 0) == v
  {
    var q1 := v / 256;
    var q2 := q1 / 256;
    assert v / 0x1_0000 == q2 && v / 0x100_0000 == q2 / 256;
    assert v == v % 256 + 256 * q1 && q1 == q1 % 256 + 256 * q2 && q2 == q2 % 256 + 256 * (q2 / 256);
  }

  lemma SwapTwice16(v: Short)
    ensures Bswaps(Bswaps(v)) == v
  {
    var hi, lo := v / 256, v % 256;
    var w := lo * 256 + hi;
    assert w / 256 == lo && w % 256 == hi;
  }

  lemma BytesOf(a: Byte, b: Byte, c: Byte, d: Byte)
    ensures var v := Word32(a, b, c, d);
            v % 256 == a && v / 256 % 256 == b && v / 0x1_0000 % 256 == c && v / 0x100_0000 == d
  {
    var v := Word32(a, b, c, d);
    assert v / 256 == b + 256 * (c as int) + 0x1_0000 * (d as int);
    assert v / 0x1_0000 == c + 256 * (d as int);
  }

  lemma SwapTwice32(v: Long)
    ensures Bswapl(Bswapl(v)) == v
  {
    hide Word32;
    var a, b, c, d := v % 256, v / 256 % 256, v / 0x1_0000 % 256, v / 0x100_0000;
    BytesOf(d, c, b, a);
    StoreLoad32(v);
  }

  /** A field as it is on the wire: the high byte first. */
  function Big16(s: seq<Byte>, at: nat): Short
    requires at + 2 <= |s|
  {
    256 * (s[at] as int) + (s[at + 1] as int)
  }

  function Big32(s: seq<Byte>, at: nat): Long
    requires at + 4 <= |s|
  {
    0x100_0000 * (s[at] as int) + 0x1_0000 * (s[at + 1] as int) + 256 * (s[at + 2] as int) + (s[at + 3] as int)
  }

  /** Swapping what the processor loads gives what the wire says. */
  lemma NetworkOrder16(s: seq<Byte>, at: nat)
    requires at + 2 <= |s|
    ensures Bswaps(Load16(s, at)) == Big16(s, at)
  {}

  lemma NetworkOrder32(s: seq<Byte>, at: nat)
    requires at + 4 <= |s|
    ensures Bswapl(Load32(s, at)) == Big32(s, at)
  {
    BytesOf(s[at], s[at + 1], s[at + 2], s[at + 3]);
  }

  // ---- The checksum ----

  /** The sum of the 16-bit words, an odd last byte counting as a word of its own. */
  function WordSum(s: seq<Byte>): nat {
    if |s| >= 2 then Load16(s, 0) + WordSum(s[2..]) else if |s| == 1 then s[0] else 0
  }

  /** The carries of a 32-bit sum added back in, twice. */
  function Folded(sum: Long): Short {
    var once := sum % 0x1_0000 + sum / 0x1_0000;
    (once + once / 0x1_0000) % 0x1_0000
  }

  function Checksum(s: seq<Byte>): Short {
    0xFFFF - Folded(WordSum(s) % 0x1_0000_0000)
  }

  /** 32-bit addition. */
  function Add32(a: Long, b: Short): Long {
    (a + b) % 0x1_0000_0000
  }

  /** What remains from byte `i` on brings `sum` to the whole. */
  ghost predicate SummedTo(s: seq<Byte>, i: nat, sum: Long)
    requires i <= |s|
  {
    (sum + WordSum(s[i..])) % 0x1_0000_0000 == WordSum(s) % 0x1_0000_0000
  }

  method InCksum(s: seq<Byte>) returns (answer: Short)
    ensures answer == Checksum(s)
  {
    hide WordSum, Load16, Add32, SummedTo;
    var sum: Long := 0;
    var i := 0;
    SumFrom(s);
    while |s| - i > 1
      invariant 0 <= i <= |s| && SummedTo(s, i, sum)
    {
      SumStep(s, i, sum);
      sum := Add32(sum, Load16(s, i));
      i := i + 2;
    }
    SumEnd(s, i, sum);
    if |s| - i == 1 {
      sum := Add32(sum, s[i]);
    }
    var once := sum % 0x1_0000 + sum / 0x1_0000;
    var twice := once + once / 0x1_0000;
    answer := 0xFFFF - twice % 0x1_0000;
  }

  lemma SumFrom(s: seq<Byte>)
    ensures SummedTo(s, 0, 0)
  {
    assert s[0..] == s;
  }

  lemma SumStep(s: seq<Byte>, i: nat, sum: Long)
    requires i + 2 <= |s| && SummedTo(s, i, sum)
    ensures SummedTo(s, i + 2, Add32(sum, Load16(s, i)))
  {
    hide Load16;
    assert s[i..][2..] == s[i + 2..];
    assert Load16(s[i..], 0) == Load16(s, i) by { SameWord(s, i); }
    ModAdd(sum + Load16(s, i), WordSum(s[i + 2..]));
  }

  lemma SameWord(s: seq<Byte>, i: nat)
    requires i + 2 <= |s|
    ensures Load16(s[i..], 0) == Load16(s, i)
  {}

  lemma SumEnd(s: seq<Byte>, i: nat, sum: Long)
    requires i <= |s| <= i + 1 && SummedTo(s, i, sum)
    ensures (if i < |s| then Add32(sum, s[i]) else sum) == WordSum(s) % 0x1_0000_0000
  {}

  lemma ModAdd(a: nat, b: nat)
    ensures (a % 0x1_0000_0000 + b) % 0x1_0000_0000 == (a + b) % 0x1_0000_0000
  {}

  /** Ones'-complement addition: a carry out of the top comes in at the bottom. */
  function OnesAdd(a: Short, b: Short): Short {
    if a + b > 0xFFFF then a + b - 0xFFFF else a + b
  }

  function OnesSum(s: seq<Byte>): Short {
    if |s| >= 2 then OnesAdd(Load16(s, 0), OnesSum(s[2..])) else if |s| == 1 then s[0] else 0
  }

  lemma {:induction false} SumBound(s: seq<Byte>)
    ensures WordSum(s) <= (|s| + 1) / 2 * 0xFFFF
  {
    if |s| >= 2 {
      SumBound(s[2..]);
    }
  }

  lemma Residue(n: nat, f: nat, k: nat)
    requires n == f + 0xFFFF * k && 1 <= f <= 0xFFFF
    ensures (n - 1) % 0xFFFF + 1 == f
  {}

  /** Folding is the remainder modulo 0xFFFF, with 0xFFFF for the multiples other than zero. */
  lemma FoldIs(sum: Long)
    ensures Folded(sum) == if sum == 0 then 0 else (sum - 1) % 0xFFFF + 1
  {
    var h, l := sum / 0x1_0000, sum % 0x1_0000;
    if sum > 0 {
      if h + l <= 0xFFFF {
        Residue(sum, h + l, h);
      } else {
        Residue(sum, h + l - 0xFFFF, h + 1);
      }
    }
  }

  lemma FoldAdd(sum: Long, w: Short)
    requires sum + w < 0x1_0000_0000
    ensures Folded(sum + w) == OnesAdd(w, Folded(sum))
  {
    hide Folded;
    FoldIs(sum);
    FoldIs(sum + w);
    if sum > 0 {
      var f, k := (sum - 1) % 0xFFFF + 1, (sum - 1) / 0xFFFF;
      if f + w <= 0xFFFF {
        Residue(sum + w, f + w, k);
      } else {
        Residue(sum + w, f + w - 0xFFFF, k + 1);
      }
    } else if w > 0 {
      Residue(w, w, 0);
    }
  }

  lemma FoldSmall()
    ensures forall w: Short :: Folded(w) == w
  {}

  lemma SumIsLong(s: seq<Byte>)
    requires |s| <= 0x2_0000
    ensures WordSum(s) < 0x1_0000_0000
  {
    SumBound(s);
  }

  lemma {:induction false} FoldedIsOnesSum(s: seq<Byte>)
    requires |s| <= 0x2_0000
    ensures WordSum(s) < 0x1_0000_0000 && Folded(WordSum(s)) == OnesSum(s)
  {
    hide Folded, Load16, OnesAdd;
    SumIsLong(s);
    FoldSmall();
    if |s| >= 2 {
      FoldedIsOnesSum(s[2..]);
      FoldAdd(WordSum(s[2..]), Load16(s, 0));
    }
  }

  /**
   Below 128 kilobytes the 32-bit accumulator cannot overflow, and folding at the end is
   ones'-complement addition.
   */
  lemma ChecksumIsOnesComplement(s: seq<Byte>)
    requires |s| <= 0x2_0000
    ensures Checksum(s) == 0xFFFF - OnesSum(s)
  {
    hide Folded, WordSum, OnesSum;
    FoldedIsOnesSum(s);
  }

  /** The same sum of the words as they are on the wire; an odd last byte is the high one of its word. */
  function WireSum(s: seq<Byte>): Short {
    if |s| >= 2 then OnesAdd(Big16(s, 0), WireSum(s[2..])) else if |s| == 1 then 256 * (s[0] as int) else 0
  }

  lemma SwapIsTimes256(v: Short)
    ensures Bswaps(v) == 256 * v - 0xFFFF * (v / 256)
    ensures v > 0 ==> Bswaps(v) > 0
  {}

  lemma SameResidue(z: int, w: int, q: int)
    requires z - w == 0xFFFF * q && 1 <= z <= 0xFFFF && 1 <= w <= 0xFFFF
    ensures z == w
  {}

  lemma SwapAdd(a: Short, b: Short)
    ensures Bswaps(OnesAdd(a, b)) == OnesAdd(Bswaps(a), Bswaps(b))
  {
    var c := OnesAdd(a, b);
    SwapIsTimes256(a);
    SwapIsTimes256(b);
    SwapIsTimes256(c);
    if a > 0 && b > 0 {
      hide Bswaps;
      var e: int, f: int := if a + b > 0xFFFF then 1 else 0, if Bswaps(a) + Bswaps(b) > 0xFFFF then 1 else 0;
      var x: int, y: int, z: int := a / 256, b / 256, c / 256;
      SameResidue(Bswaps(c), OnesAdd(Bswaps(a), Bswaps(b)), x + y + f - z - 256 * e);
    }
  }

  /**
   The byte order does not matter to the sum: loading words the processor's way and swapping
   the sum is summing the words of the wire (section 2 of RFC 1071).
   */
  lemma {:induction false} ByteOrderIndependent(s: seq<Byte>)
    ensures Bswaps(OnesSum(s)) == WireSum(s)
  {
    hide Load16, Big16, OnesAdd;
    if |s| >= 2 {
      ByteOrderIndependent(s[2..]);
      SwapAdd(Load16(s, 0), OnesSum(s[2..]));
      NetworkOrder16(s, 0);
    }
  }

  /** A header is taken for intact exactly if the words of the wire sum to all ones. */
  lemma IntactMeans(s: seq<Byte>)
    requires |s| <= 0x2_0000
    ensures Checksum(s) == 0 <==> WireSum(s) == 0xFFFF
  {
    hide Checksum, WireSum, OnesSum;
    ChecksumIsOnesComplement(s);
    ByteOrderIndependent(s);
    SwapTwice16(OnesSum(s));
  }

  /** A checksum put where zeros were makes the checksum of the whole zero. */
  lemma ChecksumOfChecksummed(s: seq<Byte>, k: nat)
    requires |s| <= 0x2_0000 && k % 2 == 0 && k + 2 <= |s| && s[k] == 0 && s[k + 1] == 0
    ensures Checksum(s[..k] + Store16(Checksum(s)) + s[k + 2..]) == 0
  {
    hide WordSum, Folded, Store16;
    var c := Checksum(s);
    var s' := s[..k] + Store16(c) + s[k + 2..];
    InsertWord(s, k, c);
    SumIsLong(s);
    SumIsLong(s');
    FoldAdd(WordSum(s), c);
  }

  lemma {:induction false} InsertWord(s: seq<Byte>, k: nat, c: Short)
    requires k % 2 == 0 && k + 2 <= |s| && s[k] == 0 && s[k + 1] == 0
    ensures WordSum(s[..k] + Store16(c) + s[k + 2..]) == WordSum(s) + c
  {
    var s' := s[..k] + Store16(c) + s[k + 2..];
    if k == 0 {
      StoreLoad16(c);
      assert s'[2..] == s[2..] && Load16(s', 0) == c;
    } else {
      InsertWord(s[2..], k - 2, c);
      assert s'[2..] == s[2..][..k - 2] + Store16(c) + s[2..][k..];
      assert s[2..][k..] == s[k + 2..];
      assert Load16(s', 0) == Load16(s, 0);
    }
  }

  // ---- Frames ----

  const BROADCAST: seq<Byte> := [255, 255, 255, 255, 255, 255]
  const LOCAL_MAC: seq<Byte> := [0x52, 0x54, 0, 0x12, 0x34, 0x56]
  const ETHTYPE_IP: nat := 0x0800
  const ETHTYPE_ARP: nat := 0x0806
  const IPPROTO_UDP: nat := 17

  function EthHeader(kind: Short): (h: seq<Byte>)
    ensures |h| == ETH_LEN
  {
    BROADCAST + LOCAL_MAC + Store16(Bswaps(kind))
  }

  /** The header before its checksum is known. */
  function RawIpHeader(total: Short, proto: Byte, dst: Long): (h: seq<Byte>)
    ensures |h| == IP_LEN && h[10] == 0 && h[11] == 0
  {
    [0x45, 0] + Store16(Bswaps(total)) + [0, 0, 0, 0, 100, proto, 0, 0] + Store32(Bswapl(LOCAL_IP))
      + Store32(Bswapl(dst))
  }

  function IpHeader(total: Short, proto: Byte, dst: Long): (h: seq<Byte>)
    ensures |h| == IP_LEN
  {
    var raw := RawIpHeader(total, proto, dst);
    raw[..10] + Store16(Checksum(raw)) + raw[12..]
  }

  function UdpHeader(sport: Short, dport: Short, ulen: Short): (h: seq<Byte>)
    ensures |h| == UDP_LEN
  {
    Store16(Bswaps(sport)) + Store16(Bswaps(dport)) + Store16(Bswaps(ulen)) + [0, 0]
  }

  function UdpPacket(payload: seq<Byte>, sport: Short, dport: Short): seq<Byte>
    requires |payload| + UDP_LEN < 0x1_0000
  {
    UdpHeader(sport, dport, |payload| + UDP_LEN) + payload
  }

  function IpPacket(body: seq<Byte>, proto: Byte, dst: Long): seq<Byte>
    requires |body| + IP_LEN < 0x1_0000
  {
    IpHeader(|body| + IP_LEN, proto, dst) + body
  }

  function UdpFrame(payload: seq<Byte>, dst: Long, sport: Short, dport: Short): seq<Byte>
    requires |payload| + UDP_LEN + IP_LEN < 0x1_0000
  {
    EthHeader(ETHTYPE_IP) + IpPacket(UdpPacket(payload, sport, dport), IPPROTO_UDP, dst)
  }

  // ---- What a frame delivers ----

  datatype Received =
    | Dropped
    | Arp(packet: seq<Byte>)
    | Datagram(payload: seq<Byte>, sip: Long, dport: Short, sport: Short)

  function ReceiveUdp(m: seq<Byte>, len: Short, src: Long): Received {
    if |m| < UDP_LEN || Bswaps(Load16(m, 4)) != len then Dropped
    else
      var rest := m[UDP_LEN..];
      var n := (len - UDP_LEN) % 0x1_0000;
      if n > |rest| then Dropped else Datagram(rest[..n], Bswapl(src), Bswaps(Load16(m, 2)), Bswaps(Load16(m, 0)))
  }

  /** Version and header length, checksum, no fragment, our address, UDP. */
  predicate IpAccepted(h: seq<Byte>)
    requires |h| == IP_LEN
  {
    h[0] == 0x45 && Checksum(h) == 0 && Bswaps(Load16(h, 6)) == 0 && Bswapl(Load32(h, 16)) == LOCAL_IP
      && h[9] == IPPROTO_UDP
  }

  function ReceiveIp(m: seq<Byte>): Received {
    if |m| < IP_LEN || !IpAccepted(m[..IP_LEN]) then Dropped
    else ReceiveUdp(m[IP_LEN..], (Bswaps(Load16(m, 2)) - IP_LEN) % 0x1_0000, Load32(m, 12))
  }

  function Receive(m: seq<Byte>): Received {
    if |m| < ETH_LEN then Dropped
    else
      var kind := Bswaps(Load16(m, 12));
      if kind == ETHTYPE_IP then ReceiveIp(m[ETH_LEN..]) else if kind == ETHTYPE_ARP then Arp(m[ETH_LEN..]) else Dropped
  }

  // ---- The round trip ----

  lemma Field16(v: Short, s: seq<Byte>, at: nat)
    requires at + 2 <= |s| && s[at..at + 2] == Store16(Bswaps(v))
    ensures Bswaps(Load16(s, at)) == v
  {
    hide Store16, Bswaps;
    var f := s[at..at + 2];
    assert s[at] == f[0] && s[at + 1] == f[1];
    assert Load16(s, at) == Load16(f, 0);
    StoreLoad16(Bswaps(v));
    SwapTwice16(v);
  }

  lemma Field32(v: Long, s: seq<Byte>, at: nat)
    requires at + 4 <= |s| && s[at..at + 4] == Store32(Bswapl(v))
    ensures Bswapl(Load32(s, at)) == v
  {
    hide Store32, Bswapl, Word32;
    var f := s[at..at + 4];
    assert s[at] == f[0] && s[at + 1] == f[1] && s[at + 2] == f[2] && s[at + 3] == f[3];
    assert Load32(s, at) == Load32(f, 0);
    StoreLoad32(Bswapl(v));
    SwapTwice32(v);
  }

  /** What the header says when it is read back. */
  lemma IpHeaderReads(total: Short, proto: Byte, dst: Long)
    ensures var h := IpHeader(total, proto, dst);
      && h[0] == 0x45 && h[9] == proto && Load16(h, 6) == 0 && Checksum(h) == 0
      && Bswaps(Load16(h, 2)) == total && Bswapl(Load32(h, 12)) == LOCAL_IP && Bswapl(Load32(h, 16)) == dst
  {
    hide Store16, Store32, Bswaps, Bswapl, Checksum, Word32;
    var raw := RawIpHeader(total, proto, dst);
    var h := IpHeader(total, proto, dst);
    ChecksumOfChecksummed(raw, 10);
    assert raw[2..4] == Store16(Bswaps(total)) && raw[12..16] == Store32(Bswapl(LOCAL_IP))
      && raw[16..20] == Store32(Bswapl(dst));
    assert h[2..4] == raw[2..4];
    assert h[12..16] == raw[12..16];
    assert h[16..20] == raw[16..20];
    Field16(total, h, 2);
    Field32(LOCAL_IP, h, 12);
    Field32(dst, h, 16);
  }

  lemma UdpRoundTrip(payload: seq<Byte>, sport: Short, dport: Short, pad: seq<Byte>, src: Long)
    requires |payload| + UDP_LEN < 0x1_0000
    ensures ReceiveUdp(UdpPacket(payload, sport, dport) + pad, |payload| + UDP_LEN, src) ==
      Datagram(payload, Bswapl(src), dport, sport)
  {
    hide Store16, Bswaps, Bswapl, Load16;
    var m := UdpPacket(payload, sport, dport) + pad;
    assert m[0..2] == Store16(Bswaps(sport));
    assert m[2..4] == Store16(Bswaps(dport));
    assert m[4..6] == Store16(Bswaps(|payload| + UDP_LEN));
    Field16(sport, m, 0);
    Field16(dport, m, 2);
    Field16(|payload| + UDP_LEN, m, 4);
    assert m[UDP_LEN..] == payload + pad;
    assert (payload + pad)[..|payload|] == payload;
  }

  lemma IpRoundTrip(payload: seq<Byte>, sport: Short, dport: Short, pad: seq<Byte>)
    requires |payload| + UDP_LEN + IP_LEN < 0x1_0000
    ensures ReceiveIp(IpPacket(UdpPacket(payload, sport, dport), IPPROTO_UDP, LOCAL_IP) + pad) ==
      Datagram(payload, LOCAL_IP, dport, sport)
  {
    hide Bswaps, Bswapl, Load16, Load32, Checksum, IpHeader, UdpHeader, ReceiveUdp;
    var body := UdpPacket(payload, sport, dport);
    var h := IpHeader(|body| + IP_LEN, IPPROTO_UDP, LOCAL_IP);
    var m := IpPacket(body, IPPROTO_UDP, LOCAL_IP) + pad;
    IpHeaderReads(|body| + IP_LEN, IPPROTO_UDP, LOCAL_IP);
    ZeroSwapped();
    assert m[..IP_LEN] == h && m[IP_LEN..] == body + pad;
    HeaderFields(m, h);
    UdpRoundTrip(payload, sport, dport, pad, Load32(m, 12));
  }

  lemma ZeroSwapped()
    ensures Bswaps(0) == 0
  {}

  lemma HeaderFields(m: seq<Byte>, h: seq<Byte>)
    requires |m| >= IP_LEN && m[..IP_LEN] == h
    ensures Load16(m, 2) == Load16(h, 2) && Load32(m, 12) == Load32(h, 12)
  {
    hide Word32;
    assert forall i :: 0 <= i < IP_LEN ==> m[i] == h[i];
  }

  /**
   A datagram sent to this host, with whatever padding the link adds, is delivered
   with its payload, ports and source address.
   */
  lemma RoundTrip(payload: seq<Byte>, sport: Short, dport: Short, pad: seq<Byte>)
    requires |payload| + UDP_LEN + IP_LEN < 0x1_0000
    ensures Receive(UdpFrame(payload, LOCAL_IP, sport, dport) + pad) == Datagram(payload, LOCAL_IP, dport, sport)
  {
    hide Store16, Bswaps, Load16, ReceiveIp, IpPacket;
    var packet := IpPacket(UdpPacket(payload, sport, dport), IPPROTO_UDP, LOCAL_IP);
    var m := UdpFrame(payload, LOCAL_IP, sport, dport) + pad;
    assert m[12..14] == Store16(Bswaps(ETHTYPE_IP));
    Field16(ETHTYPE_IP, m, 12);
    assert m[ETH_LEN..] == packet + pad;
    IpRoundTrip(payload, sport, dport, pad);
  }

  // ---- The bytes on the wire ----

  const UDP_AT := ETH_LEN + IP_LEN
  const DATA_AT := ETH_LEN + IP_LEN + UDP_LEN

  /**
   The datagram on the wire, byte by byte: an Ethernet broadcast of type 08 00, an IP header of 20 bytes
   whose words sum to all ones, a UDP header without checksum, and the payload.
   */
  ghost predicate OnWire(m: seq<Byte>, payload: seq<Byte>, dst: Long, sport: Short, dport: Short) {
    && |m| == DATA_AT + |payload| && m[DATA_AT..] == payload
    && m[..6] == [255, 255, 255, 255, 255, 255] && m[6..12] == LOCAL_MAC && m[12] == 8 && m[13] == 0
    && m[14] == 0x45 && m[15] == 0 && Big16(m, 16) == IP_LEN + UDP_LEN + |payload|
    && m[18..22] == [0, 0, 0, 0] && m[22] == 100 && m[23] == 17 && WireSum(m[ETH_LEN..UDP_AT]) == 0xFFFF
    && m[26..30] == [10, 0, 2, 15] && Big32(m, 30) == dst
    && Big16(m, 34) == sport && Big16(m, 36) == dport && Big16(m, 38) == UDP_LEN + |payload| && m[40..42] == [0, 0]
  }

  /** A field stored swapped is on the wire with its high byte first. */
  lemma Wire16(v: Short, s: seq<Byte>, at: nat)
    requires at + 2 <= |s| && s[at..at + 2] == Store16(Bswaps(v))
    ensures Big16(s, at) == v
  {
    hide Store16, Bswaps, Load16, Big16;
    Field16(v, s, at);
    NetworkOrder16(s, at);
  }

  lemma BigMoved(m: seq<Byte>, h: seq<Byte>, at: nat, i: nat)
    requires at + |h| <= |m| && m[at..at + |h|] == h
    ensures i + 2 <= |h| ==> Big16(m, at + i) == Big16(h, i)
    ensures i + 4 <= |h| ==> Big32(m, at + i) == Big32(h, i)
  {
    assert forall j :: 0 <= j < |h| ==> m[at + j] == h[j];
  }

  lemma LocalAddress(s: seq<Byte>, at: nat)
    requires at + 4 <= |s|
    ensures Big32(s, at) == LOCAL_IP <==> s[at..at + 4] == [10, 0, 2, 15]
  {
    var f := s[at..at + 4];
    assert f == [s[at], s[at + 1], s[at + 2], s[at + 3]];
  }

  lemma EthOnWire()
    ensures EthHeader(ETHTYPE_IP)[..6] == [255, 255, 255, 255, 255, 255] && EthHeader(ETHTYPE_IP)[6..12] == LOCAL_MAC
    ensures EthHeader(ETHTYPE_IP)[12] == 8 && EthHeader(ETHTYPE_IP)[13] == 0
  {
    var h := EthHeader(ETHTYPE_IP);
    assert h[..6] == BROADCAST && h[6..12] == LOCAL_MAC && h[12..14] == Store16(Bswaps(ETHTYPE_IP));
    assert Bswaps(ETHTYPE_IP) == 8;
    assert h[12] == h[12..14][0] && h[13] == h[12..14][1];
  }

  lemma IpOnWire(total: Short, proto: Byte, dst: Long)
    ensures var h := IpHeader(total, proto, dst);
      && h[0] == 0x45 && h[1] == 0 && Big16(h, 2) == total && h[4..8] == [0, 0, 0, 0] && h[8] == 100 && h[9] == proto
      && WireSum(h) == 0xFFFF && h[12..16] == [10, 0, 2, 15] && Big32(h, 16) == dst
  {
    hide Store16, Store32, Bswaps, Bswapl, Checksum, Load16, Load32, Big16, Big32, WireSum;
    var h := IpHeader(total, proto, dst);
    IpHeaderReads(total, proto, dst);
    IntactMeans(h);
    NetworkOrder16(h, 2);
    NetworkOrder32(h, 12);
    NetworkOrder32(h, 16);
    LocalAddress(h, 12);
  }

  lemma UdpOnWire(sport: Short, dport: Short, ulen: Short)
    ensures var h := UdpHeader(sport, dport, ulen);
      Big16(h, 0) == sport && Big16(h, 2) == dport && Big16(h, 4) == ulen && h[6..8] == [0, 0]
  {
    hide Store16, Bswaps, Big16;
    var h := UdpHeader(sport, dport, ulen);
    assert h[0..2] == Store16(Bswaps(sport));
    assert h[2..4] == Store16(Bswaps(dport));
    assert h[4..6] == Store16(Bswaps(ulen));
    Wire16(sport, h, 0);
    Wire16(dport, h, 2);
    Wire16(ulen, h, 4);
  }

  /** What is sent is the datagram, byte by byte. */
  lemma SentOnWire(payload: seq<Byte>, dst: Long, sport: Short, dport: Short)
    requires |payload| + UDP_LEN + IP_LEN < 0x1_0000
    ensures OnWire(UdpFrame(payload, dst, sport, dport), payload, dst, sport, dport)
  {
    hide EthHeader, IpHeader, UdpHeader, Big16, Big32, WireSum;
    var m := UdpFrame(payload, dst, sport, dport);
    var e, h := EthHeader(ETHTYPE_IP), IpHeader(|payload| + UDP_LEN + IP_LEN, IPPROTO_UDP, dst);
    var u := UdpHeader(sport, dport, |payload| + UDP_LEN);
    EthOnWire();
    IpOnWire(|payload| + UDP_LEN + IP_LEN, IPPROTO_UDP, dst);
    UdpOnWire(sport, dport, |payload| + UDP_LEN);
    assert m == e + h + u + payload;
    assert m[ETH_LEN..UDP_AT] == h && m[UDP_AT..DATA_AT] == u && m[..ETH_LEN] == e;
    BigMoved(m, h, ETH_LEN, 2);
    BigMoved(m, h, ETH_LEN, 16);
    BigMoved(m, u, UDP_AT, 0);
    BigMoved(m, u, UDP_AT, 2);
    BigMoved(m, u, UDP_AT, 4);
    SlicesMoved(m, e, h, u);
  }

  lemma SlicesMoved(m: seq<Byte>, e: seq<Byte>, h: seq<Byte>, u: seq<Byte>)
    requires |m| >= DATA_AT && m[..ETH_LEN] == e && m[ETH_LEN..UDP_AT] == h && m[UDP_AT..DATA_AT] == u
    ensures m[..6] == e[..6] && m[6..12] == e[6..12] && m[12] == e[12] && m[13] == e[13]
    ensures m[14] == h[0] && m[15] == h[1] && m[18..22] == h[4..8] && m[22] == h[8] && m[23] == h[9]
    ensures m[26..30] == h[12..16] && m[40..42] == u[6..8]
  {
    forall i | 0 <= i < IP_LEN
      ensures m[ETH_LEN + i] == h[i]
    {
      assert m[ETH_LEN..UDP_AT][i] == h[i];
    }
    forall i | 0 <= i < UDP_LEN
      ensures m[UDP_AT + i] == u[i]
    {
      assert m[UDP_AT..DATA_AT][i] == u[i];
    }
    assert m[18..22] == [m[18], m[19], m[20], m[21]] && h[4..8] == [h[4], h[5], h[6], h[7]];
    assert m[26..30] == [m[26], m[27], m[28], m[29]] && h[12..16] == [h[12], h[13], h[14], h[15]];
    assert m[40..42] == [m[40], m[41]] && u[6..8] == [u[6], u[7]];
  }

  /**
   The frames from which a datagram is delivered, byte by byte: type 08 00, an IP header of 20 bytes that is
   intact, of no fragment, to this host and with UDP in it, and a UDP length that both headers
   agree on and the frame really has.
   */
  ghost predicate ForUs(m: seq<Byte>) {
    && |m| >= DATA_AT && m[12] == 8 && m[13] == 0
    && m[14] == 0x45 && WireSum(m[ETH_LEN..UDP_AT]) == 0xFFFF && m[20] == 0 && m[21] == 0
    && m[23] == 17 && m[30..34] == [10, 0, 2, 15]
    && UDP_LEN <= Big16(m, 38) <= |m| - UDP_AT && Big16(m, 16) == IP_LEN + Big16(m, 38)
  }

  lemma AcceptedMeans(h: seq<Byte>)
    requires |h| == IP_LEN
    ensures IpAccepted(h) <==>
      h[0] == 0x45 && WireSum(h) == 0xFFFF && h[6] == 0 && h[7] == 0 && h[9] == 17 && h[16..20] == [10, 0, 2, 15]
  {
    hide Checksum, WireSum, Bswaps, Bswapl, Load16, Load32, Big32;
    IntactMeans(h);
    NetworkOrder16(h, 6);
    NetworkOrder32(h, 16);
    LocalAddress(h, 16);
  }

  lemma TypeMeans(m: seq<Byte>)
    requires |m| >= ETH_LEN
    ensures Bswaps(Load16(m, 12)) == ETHTYPE_IP <==> m[12] == 8 && m[13] == 0
    ensures Bswaps(Load16(m, 12)) == ETHTYPE_ARP <==> m[12] == 8 && m[13] == 6
  {
    NetworkOrder16(m, 12);
  }

  lemma UdpMeans(m: seq<Byte>, len: Short, src: Long)
    requires |m| <= MBUF_SIZE
    ensures ReceiveUdp(m, len, src).Datagram? <==> UDP_LEN <= len <= |m| && Big16(m, 4) == len
    ensures ReceiveUdp(m, len, src).Datagram? ==>
      ReceiveUdp(m, len, src) == Datagram(m[UDP_LEN..len], Bswapl(src), Big16(m, 2), Big16(m, 0))
    ensures !ReceiveUdp(m, len, src).Arp?
  {
    hide Bswaps, Bswapl, Load16, Big16;
    if |m| >= UDP_LEN {
      NetworkOrder16(m, 0);
      NetworkOrder16(m, 2);
      NetworkOrder16(m, 4);
      if UDP_LEN <= len <= |m| {
        assert m[UDP_LEN..][..len - UDP_LEN] == m[UDP_LEN..len];
      }
    }
  }

  lemma IpMeans(m: seq<Byte>)
    requires |m| <= MBUF_SIZE
    ensures !ReceiveIp(m).Arp?
    ensures ReceiveIp(m).Datagram? <==>
      && |m| >= IP_LEN + UDP_LEN && IpAccepted(m[..IP_LEN])
      && UDP_LEN <= Big16(m, IP_LEN + 4) <= |m| - IP_LEN && Big16(m, 2) == IP_LEN + Big16(m, IP_LEN + 4)
    ensures ReceiveIp(m).Datagram? ==>
      ReceiveIp(m) == Datagram(m[IP_LEN + UDP_LEN..Big16(m, 2)], Big32(m, 12), Big16(m, IP_LEN + 2), Big16(m, IP_LEN))
  {
    hide IpAccepted, Bswaps, Bswapl, Load16, Load32, Big16, Big32, ReceiveUdp;
    if |m| >= IP_LEN {
      var udp := m[IP_LEN..];
      var len := (Bswaps(Load16(m, 2)) - IP_LEN) % 0x1_0000;
      NetworkOrder16(m, 2);
      NetworkOrder32(m, 12);
      UdpMeans(udp, len, Load32(m, 12));
      if |m| >= IP_LEN + UDP_LEN {
        BigMoved(m, udp, IP_LEN, 0);
        BigMoved(m, udp, IP_LEN, 2);
        BigMoved(m, udp, IP_LEN, 4);
        if UDP_LEN <= len <= |udp| {
          assert udp[UDP_LEN..len] == m[IP_LEN + UDP_LEN..IP_LEN + len];
        }
      }
    }
  }

  /**
   What a frame that fits a buffer is taken for, in terms of its bytes: a datagram is delivered from exactly the
   frames for us, with the payload, ports and source address that are in it.
   */
  lemma ReceivedExactly(m: seq<Byte>)
    requires |m| <= MBUF_SIZE
    ensures Receive(m).Datagram? <==> ForUs(m)
    ensures ForUs(m) ==>
      Receive(m) == Datagram(m[DATA_AT..UDP_AT + Big16(m, 38)], Big32(m, 26), Big16(m, 36), Big16(m, 34))
    ensures Receive(m).Arp? <==> |m| >= ETH_LEN && m[12] == 8 && m[13] == 6
    ensures Receive(m).Arp? ==> Receive(m).packet == m[ETH_LEN..]
  {
    hide IpAccepted, Bswaps, Load16, Big16, Big32, ReceiveIp, WireSum;
    if |m| >= ETH_LEN {
      var ip := m[ETH_LEN..];
      TypeMeans(m);
      IpMeans(ip);
      if |m| >= DATA_AT {
        var h := ip[..IP_LEN];
        AcceptedMeans(h);
        assert h == m[ETH_LEN..UDP_AT] && h[16..20] == m[30..34];
        BigMoved(m, ip, ETH_LEN, 2);
        BigMoved(m, ip, ETH_LEN, 12);
        BigMoved(m, ip, ETH_LEN, IP_LEN);
        BigMoved(m, ip, ETH_LEN, IP_LEN + 2);
        BigMoved(m, ip, ETH_LEN, IP_LEN + 4);
        if ForUs(m) {
          assert ip[IP_LEN + UDP_LEN..Big16(ip, 2)] == m[DATA_AT..UDP_AT + Big16(m, 38)];
        }
      }
    }
  }

  /**
   Whatever arrives in a buffer, a datagram is delivered only if the headers are
   intact and agree on a length that the frame really has; the payload is that part
   of the frame and nothing else, and the ports and the source are those it names.
   */
  lemma DeliveredIsInFrame(m: seq<Byte>)
    requires |m| <= MBUF_SIZE && Receive(m).Datagram?
    ensures var n := |Receive(m).payload|;
      && DATA_AT + n <= |m| && Receive(m).payload == m[DATA_AT..][..n]
      && WireSum(m[ETH_LEN..UDP_AT]) == 0xFFFF
      && Big16(m, 16) == IP_LEN + UDP_LEN + n && Big16(m, 38) == UDP_LEN + n
      && Receive(m).sport == Big16(m, 34) && Receive(m).dport == Big16(m, 36) && Receive(m).sip == Big32(m, 26)
  {
    hide Big16, Big32, Receive, WireSum;
    ReceivedExactly(m);
    var n := Big16(m, 38) - UDP_LEN;
    assert m[DATA_AT..][..n] == m[DATA_AT..DATA_AT + n];
  }

  // ---- Packet buffers ----

  class Mbuf {
    const buf: array<Byte>
    var head: nat
    var len: nat

    ghost predicate Valid()
      reads this
    {
      buf.Length == MBUF_SIZE && head + len <= MBUF_SIZE
    }

    ghost function Contents(): (s: seq<Byte>)
      requires Valid()
      reads this, buf
      ensures |s| == len
    {
      buf[head..head + len]
    }

    /** mbufalloc, with a page that kalloc gave. */
    constructor (headroom: nat)
      requires headroom <= MBUF_SIZE
      ensures Valid() && fresh(buf) && head == headroom && Contents() == []
    {
      buf := new Byte[MBUF_SIZE](_ => 0);
      head := headroom;
      len := 0;
    }

    /** Takes `n` bytes off the front, if there are that many. */
    method Pull(n: nat) returns (r: Option<seq<Byte>>)
      requires Valid()
      modifies this
      ensures Valid()
      ensures r == None <==> old(len) < n
      ensures r == None ==> Contents() == old(Contents())
      ensures r.Some? ==> r.value == old(Contents())[..n] && Contents() == old(Contents())[n..]
    {
      if len < n {
        return None;
      }
      r := Some(buf[head..head + n]);
      len := len - n;
      head := head + n;
    }

    /** Makes room for `n` bytes before the packet; panics if there is no room. */
    method Push(n: nat) returns (ok: bool)
      requires Valid()
      modifies this
      ensures ok <==> old(head) >= n
      ensures Valid() && (ok ==> len == old(len) + n && head == old(head) - n && Contents()[n..] == old(Contents()))
      ensures !ok ==> head == old(head) && len == old(len)
    {
      if head < n {
        return false;
      }
      head := head - n;
      len := len + n;
      return true;
    }

    /**
     Makes room for `n` bytes behind the packet, at position `at` of the buffer. The test is on
     the length alone, after an addition that wraps around; the room is in the buffer, and part
     of the packet, exactly if the tailroom suffices.
     */
    method Put(n: Long) returns (ok: bool, at: nat)
      requires Valid()
      modifies this
      ensures ok <==> (old(len) + n) % UINT_LIMIT <= MBUF_SIZE
      ensures at == old(head + len) && head == old(head) && len == (old(len) + n) % UINT_LIMIT
      ensures ok ==> (Valid() && head + len == at + n <==> n <= MBUF_SIZE - old(head) - old(len))
      ensures Valid() && head + len == at + n ==> Contents()[..old(len)] == old(Contents())
    {
      at := head + len;
      len := (len + n) % UINT_LIMIT;
      return len <= MBUF_SIZE, at;
    }

    /** Takes `n` bytes off the end, if there are that many. */
    method Trim(n: nat) returns (ok: bool)
      requires Valid()
      modifies this
      ensures Valid() && head == old(head)
      ensures ok <==> n <= old(len)
      ensures Contents() == if ok then old(Contents())[..old(len) - n] else old(Contents())
    {
      if n > len {
        return false;
      }
      len := len - n;
      return true;
    }

    /** Writes a header into the first bytes of the packet. */
    method WriteHeader(h: seq<Byte>)
      requires Valid() && |h| <= len
      modifies buf
      ensures Contents() == h + old(Contents())[|h|..]
    {
      var i := 0;
      while i < |h|
        invariant 0 <= i <= |h|
        invariant forall j :: head <= j < head + i ==> buf[j] == h[j - head]
        invariant forall j :: head + i <= j < head + len ==> buf[j] == old(buf[j])
      {
        buf[head + i] := h[i];
        i := i + 1;
      }
    }

    method SendEth(kind: Short) returns (ok: bool)
      requires Valid()
      modifies this, buf
      ensures Valid() && (ok <==> old(head) >= ETH_LEN)
      ensures ok ==> Contents() == EthHeader(kind) + old(Contents())
    {
      hide Store16, Bswaps, EthHeader;
      ok := Push(ETH_LEN);
      if ok {
        ghost var body := Contents()[ETH_LEN..];
        WriteHeader(EthHeader(kind));
        assert Contents() == EthHeader(kind) + body;
      }
    }

    /** Fills in the IP header, its checksum last. */
    method WriteIpHeader(proto: Byte, dst: Long)
      requires Valid() && len >= IP_LEN
      modifies buf
      ensures Contents() == IpHeader(len, proto, dst) + old(Contents())[IP_LEN..]
    {
      hide Store16, Store32, Bswaps, Bswapl, RawIpHeader, Checksum;
      ghost var body := Contents()[IP_LEN..];
      var raw := RawIpHeader(len, proto, dst);
      WriteHeader(raw);
      var written := buf[head..head + IP_LEN];
      assert written == (raw + body)[..IP_LEN] == raw;
      var sum := InCksum(written);
      var h := raw[..10] + Store16(sum) + raw[12..];
      assert h == IpHeader(len, proto, dst);
      WriteHeader(h);
      assert (raw + body)[IP_LEN..] == body;
    }

    method SendIp(proto: Byte, dst: Long) returns (ok: bool)
      requires Valid()
      modifies this, buf
      ensures Valid() && (ok <==> old(head) >= ETH_LEN + IP_LEN)
      ensures ok ==> Contents() == EthHeader(ETHTYPE_IP) + IpPacket(old(Contents()), proto, dst)
    {
      hide EthHeader, IpHeader;
      ok := Push(IP_LEN);
      if ok {
        WriteIpHeader(proto, dst);
        ok := SendEth(ETHTYPE_IP);
      }
    }

    /** Sends the contents as a datagram; panics exactly if the headers do not fit in front. */
    method SendUdp(dst: Long, sport: Short, dport: Short) returns (ok: bool)
      requires Valid()
      modifies this, buf
      ensures Valid() && (ok <==> old(head) >= ETH_LEN + IP_LEN + UDP_LEN)
      ensures ok ==> Contents() == UdpFrame(old(Contents()), dst, sport, dport)
      ensures ok ==> OnWire(Contents(), old(Contents()), dst, sport, dport)
    {
      hide Store16, Bswaps, EthHeader, IpPacket, UdpHeader, OnWire;
      SentOnWire(Contents(), dst, sport, dport);
      ok := Push(UDP_LEN);
      if ok {
        ghost var body := Contents()[UDP_LEN..];
        WriteHeader(UdpHeader(sport, dport, len));
        assert Contents() == UdpHeader(sport, dport, |body| + UDP_LEN) + body;
        ok := SendIp(IPPROTO_UDP, dst);
      }
    }

    method NetRxUdp(len: Short, src: Long) returns (r: Received)
      requires Valid()
      modifies this
      ensures Valid() && r == ReceiveUdp(old(Contents()), len, src)
    {
      hide Bswaps, Bswapl;
      var h := Pull(UDP_LEN);
      if h == None || Bswaps(Load16(h.value, 4)) != len {
        return Dropped;
      }
      var n := (len - UDP_LEN) % 0x1_0000;
      if n > this.len {
        return Dropped;
      }
      var trimmed := Trim(this.len - n);
      return Datagram(buf[head..head + this.len], Bswapl(src), Bswaps(Load16(h.value, 2)), Bswaps(Load16(h.value, 0)));
    }

    method NetRxIp() returns (r: Received)
      requires Valid()
      modifies this
      ensures Valid() && r == ReceiveIp(old(Contents()))
    {
      hide Bswaps, Bswapl, Checksum, ReceiveUdp;
      var h := Pull(IP_LEN);
      if h == None || h.value[0] != 0x45 {
        return Dropped;
      }
      HeaderFields(old(Contents()), h.value);
      var sum := InCksum(h.value);
      if sum != 0 || Bswaps(Load16(h.value, 6)) != 0 || Bswapl(Load32(h.value, 16)) != LOCAL_IP
        || h.value[9] != IPPROTO_UDP {
        return Dropped;
      }
      r := NetRxUdp((Bswaps(Load16(h.value, 2)) - IP_LEN) % 0x1_0000, Load32(h.value, 12));
    }

    method NetRx() returns (r: Received)
      requires Valid()
      modifies this
      ensures Valid() && r == Receive(old(Contents()))
      ensures r.Datagram? <==> ForUs(old(Contents()))
    {
      hide Bswaps, ReceiveIp, ForUs;
      ReceivedExactly(Contents());
      var h := Pull(ETH_LEN);
      if h == None {
        return Dropped;
      }
      var kind := Bswaps(Load16(h.value, 12));
      if kind == ETHTYPE_IP {
        r := NetRxIp();
      } else if kind == ETHTYPE_ARP {
        r := Arp(buf[head..head + len]);
      } else {
        r := Dropped;
      }
    }
  }

  /** With the headroom of a packet to be sent, 2000 bytes are granted that are not there. */
  method PutsTooMuch() returns (ok: bool, m: Mbuf)
    ensures ok && m.len == 2000 && !m.Valid()
  {
    m := new Mbuf(128);
    var at;
    ok, at := m.Put(2000);
  }

  /** Four gigabytes but one are granted by making the packet a byte shorter. */
  method PutsAllButOne() returns (ok: bool, m: Mbuf)
    ensures ok && m.Valid() && m.len == 9
  {
    m := new Mbuf(128);
    var at;
    ok, at := m.Put(10);
    ok, at := m.Put(0xFFFF_FFFF);
  }
}
