/** The Internet checksum as the network code computes it: 16-bit words summed in 32 bits,
    the carries folded in once. A packet is the 1500 bytes from the IP header on. */
module Checksum {
  type Byte = b: int | 0 <= b < 256
  type Packet = s: seq<Byte> | |s| == 1500 witness seq(1500, _ => 0)

  const WORD := 0x1_0000
  const WRAP := 0x1_0000_0000
  const IP_HDR_LEN := 20
  const IP_ICMP := 1
  const IP_UDP := 17

  // ---- Sums ------------------------------------------------------------------------------

  /** A word in network byte order. */
  function Net(hi: Byte, lo: Byte): (r: nat)
    ensures r <= 65535
  {
    256 * (hi as int) + lo
  }

  /** The sum of the words of a byte string, high byte first, an odd last byte counting as
      the high byte of a word. */
  function Sum(s: seq<Byte>): nat {
    if s == [] then 0
    else if |s| == 1 then Net(s[0], 0)
    else Net(s[0], s[1]) + Sum(s[2..])
  }

  /** Addition of two words with end-around carry. */
  function EndAround(a: nat, b: nat): nat {
    if a + b > 65535 then a + b - 65535 else a + b
  }

  /** The one's complement sum of RFC 1071, section 1: every carry is added back at once. */
  function OnesSum(s: seq<Byte>): nat {
    if s == [] then 0
    else if |s| == 1 then Net(s[0], 0)
    else EndAround(Net(s[0], s[1]), OnesSum(s[2..]))
  }

  function Rfc1071(s: seq<Byte>): int { 65535 - OnesSum(s) }

  /** What a receiver that follows RFC 1071 checks. */
  predicate RfcValid(s: seq<Byte>) { OnesSum(s) == 65535 }

  /** A sum after all its carries were folded in. */
  function Reduced(t: nat): nat { if t == 0 then 0 else 1 + (t - 1) % 65535 }

  lemma ReducedIs(t: nat, m: nat, r: nat)
    requires t == 65535 * m + r + 1 && r < 65535
    ensures Reduced(t) == r + 1
  {
  }

  lemma EndAroundReduces(a: nat, t: nat)
    requires a <= 65535
    ensures EndAround(a, Reduced(t)) == Reduced(a + t)
  {
    if a > 0 && t > 0 {
      var m, r := (t - 1) / 65535, (t - 1) % 65535;
      ReducedIs(t, m, r);
      if a + r + 1 > 65535 { ReducedIs(a + t, m + 1, a + r - 65535); } else { ReducedIs(a + t, m, a + r); }
    }
  }

  /** Folding every carry at once or all of them at the end comes to the same. */
  lemma {:induction false} OnesSumIsReduced(s: seq<Byte>)
    ensures OnesSum(s) == Reduced(Sum(s))
  {
    if |s| > 1 {
      OnesSumIsReduced(s[2..]);
      EndAroundReduces(Net(s[0], s[1]), Sum(s[2..]));
    } else if |s| == 1 {
      EndAroundReduces(Net(s[0], 0), 0);
    }
  }

  lemma {:induction false} SumBound(s: seq<Byte>)
    ensures 2 * Sum(s) <= 65535 * (|s| + 1)
    ensures |s| % 2 == 0 ==> 2 * Sum(s) <= 65535 * |s|
  {
    if |s| > 1 { SumBound(s[2..]); }
  }

  /** The 32-bit sum and its carries added in once. */
  function Folded(sum: nat): nat { sum + sum / WORD }

  /** Folding produces a carry of its own, which is dropped. */
  predicate SecondCarry(sum: nat) { sum % WORD + sum / WORD >= WORD }

  function IcmpOf(sum: nat): nat { 65535 - Folded(sum) % WORD }

  /** ipcksum stores zero for all ones. */
  function IpOf(sum: nat): nat { if IcmpOf(sum) == 65535 then 0 else IcmpOf(sum) }

  /** The words `hi`, `lo` stored in place of zeros add their value to the sum. */
  lemma {:induction false} SumPut(s: seq<Byte>, i: nat, hi: Byte, lo: Byte)
    requires i % 2 == 0 && i + 1 < |s| && s[i] == 0 && s[i + 1] == 0
    ensures Sum(s[i := hi][i + 1 := lo]) == Sum(s) + Net(hi, lo)
  {
    var t := s[i := hi][i + 1 := lo];
    if i == 0 {
      assert t[2..] == s[2..];
    } else {
      assert t[2..] == s[2..][i - 2 := hi][i - 1 := lo];
      SumPut(s[2..], i - 2, hi, lo);
    }
  }

  /** `v` in network byte order at `i`. */
  function PutNet(s: seq<Byte>, i: nat, v: nat): (r: seq<Byte>)
    requires i + 1 < |s| && v < WORD
    ensures |r| == |s| && r[i] == v / 256 && r[i + 1] == v % 256
    ensures forall k :: 0 <= k < |s| && k != i && k != i + 1 ==> r[k] == s[k]
  {
    s[i := v / 256][i + 1 := v % 256]
  }

  /** Where `i`, `i + 1` are zero. */
  predicate Cleared(s: seq<Byte>, i: nat) { i % 2 == 0 && i + 1 < |s| && s[i] == 0 && s[i + 1] == 0 }

  // ---- What the single fold keeps ----------------------------------------------------------

  lemma WordIs(t: nat, q: nat, r: nat)
    requires t == WORD * q + r && r < WORD
    ensures t / WORD == q && t % WORD == r
  {
  }

  /** What the fold leaves of a sum, in terms of its high and low word. */
  lemma FoldCases(sum: nat, q: nat, r: nat)
    requires sum == WORD * q + r && q < WORD && r < WORD
    ensures SecondCarry(sum) <==> q + r >= WORD
    ensures Folded(sum) % WORD == if q + r < WORD then q + r else q + r - WORD
  {
    WordIs(sum, q, r);
    if q + r < WORD { WordIs(Folded(sum), q, q + r); } else { WordIs(Folded(sum), q + 1, q + r - WORD); }
  }

  /** A header completed by its own checksum is accepted, second carry or not. */
  lemma IpAcceptsOwn(sum: nat)
    requires sum + 65535 < WRAP
    ensures IpOf(sum + IpOf(sum)) == 0
  {
    var q, r := sum / WORD, sum % WORD;
    FoldCases(sum, q, r);
    if 0 < q + r < WORD {
      FoldCases(sum + IpOf(sum), q, 65535 - q);
    } else if q + r > WORD {
      FoldCases(sum + IpOf(sum), q + 1, 65535 - q);
    }
  }

  /** A message completed by its own checksum is accepted exactly when there was no second
      carry: icmp_cksum lacks ipcksum's last step. */
  lemma IcmpAcceptsOwn(sum: nat)
    requires sum + 65535 < WRAP
    ensures IcmpOf(sum + IcmpOf(sum)) == 0 <==> !SecondCarry(sum)
  {
    var q, r := sum / WORD, sum % WORD;
    FoldCases(sum, q, r);
    if q + r < WORD {
      FoldCases(sum + IcmpOf(sum), q, 65535 - q);
    } else {
      FoldCases(sum + IcmpOf(sum), q + 1, 65535 - q);
    }
  }

  /** One fold reduces a sum completely exactly when it has no second carry. */
  lemma FoldIsReduced(sum: nat)
    requires sum < WRAP - 1
    ensures !SecondCarry(sum) ==> Folded(sum) % WORD == Reduced(sum)
    ensures SecondCarry(sum) ==> Reduced(sum) == Folded(sum) % WORD + 1 && Reduced(sum) < 65535
  {
    var q, r := sum / WORD, sum % WORD;
    FoldCases(sum, q, r);
    hide Folded, SecondCarry, Reduced;
    if q + r >= WORD {
      ReducedIs(sum, q + 1, q + r - WORD);
    } else if sum > 0 {
      ReducedIs(sum, q, q + r - 1);
    } else {
      NothingSummed();
    }
  }

  lemma NothingSummed()
    ensures Reduced(0) == 0
  {
  }

  // ---- Against RFC 1071 --------------------------------------------------------------------

  /** The header checksum is that of RFC 1071, with all ones mapped to zero, exactly when
      there is no second carry. */
  lemma IpIsRfc1071(s: seq<Byte>)
    requires |s| == IP_HDR_LEN
    ensures IpOf(Sum(s)) == (if Rfc1071(s) == 65535 then 0 else Rfc1071(s)) <==> !SecondCarry(Sum(s))
  {
    SumBound(s);
    OnesSumIsReduced(s);
    FoldIsReduced(Sum(s));
  }

  /** The message checksum is that of RFC 1071 exactly when there is no second carry. */
  lemma IcmpIsRfc1071(s: seq<Byte>)
    requires |s| <= 65535
    ensures IcmpOf(Sum(s)) == Rfc1071(s) <==> !SecondCarry(Sum(s))
  {
    SumBound(s);
    OnesSumIsReduced(s);
    FoldIsReduced(Sum(s));
  }

  /** ip_in's check accepts the headers valid by RFC 1071, the header of zeros, and those
      whose one's complement sum is 1 after a carry that was dropped. */
  lemma IpAcceptsWhich(s: seq<Byte>)
    requires |s| == IP_HDR_LEN
    ensures IpOf(Sum(s)) == 0 <==>
            RfcValid(s) || Sum(s) == 0 || (OnesSum(s) == 1 && SecondCarry(Sum(s)))
  {
    SumBound(s);
    OnesSumIsReduced(s);
    FoldIsReduced(Sum(s));
    NotReducedToZero(Sum(s));
  }

  lemma NotReducedToZero(t: nat)
    ensures Reduced(t) == 0 <==> t == 0
  {
  }

  /** The check for messages accepts exactly the valid ones. */
  lemma IcmpAcceptsWhich(s: seq<Byte>)
    requires |s| <= 65535
    ensures IcmpOf(Sum(s)) == 0 <==> RfcValid(s)
  {
    SumBound(s);
    OnesSumIsReduced(s);
    FoldIsReduced(Sum(s));
  }

  // ---- The two sums ------------------------------------------------------------------------

  /** A halfword as the little-endian processor loads it. */
  function Load(s: seq<Byte>, i: nat): (r: nat)
    requires i + 1 < |s|
    ensures r < WORD
  {
    s[i] + 256 * (s[i + 1] as int)
  }

  /** htons and ntohs. */
  function Htons(v: nat): (r: nat)
    requires v < WORD
    ensures r < WORD
  {
    v / 256 + 256 * (v % 256)
  }

  lemma HtonsIsNet(s: seq<Byte>, i: nat)
    requires i + 1 < |s|
    ensures Htons(Load(s, i)) == Net(s[i], s[i + 1])
  {
  }

  /** Addition of unsigned 32-bit integers. */
  function Plus(a: nat, b: nat): (r: nat)
    ensures r < WRAP
    ensures a + b < WRAP ==> r == a + b
  {
    (a + b) % WRAP
  }

  lemma PlusPlus(a: nat, b: nat, c: nat)
    ensures Plus(Plus(a, b), c) == Plus(a, b + c)
  {
    var m := (a + b) / WRAP;
    assert a + b == WRAP * m + Plus(a, b);
    WrapIs(a + b + c, m + (Plus(a, b) + c) / WRAP, (Plus(a, b) + c) % WRAP);
  }

  lemma WrapIs(t: nat, m: nat, r: nat)
    requires t == WRAP * m + r && r < WRAP
    ensures t % WRAP == r
  {
  }

  /** The last steps of both functions: the fold in 32 bits and the complement of 16. */
  function Complement(cksum: nat): (r: nat)
    ensures r < WORD
  {
    65535 - Plus(cksum, cksum / WORD) % WORD
  }

  lemma ComplementIs(cksum: nat)
    requires cksum < WRAP
    ensures Complement(cksum) == IcmpOf(cksum)
  {
  }

  /** ipcksum over the ten halfwords of a header. */
  method Ipcksum(hdr: seq<Byte>) returns (r: nat)
    requires |hdr| >= IP_HDR_LEN
    ensures r == IpOf(Sum(hdr[..IP_HDR_LEN])) && r < WORD
  {
    hide Sum, Net, Load, Htons, Plus;
    ghost var all := hdr[..IP_HDR_LEN];
    SumBound(all);
    var cksum: nat := 0;
    for i := 0 to 10
      invariant cksum + Sum(all[2 * i..]) == Sum(all)
    {
      HtonsIsNet(hdr, 2 * i);
      SumStep(all, 2 * i);
      cksum := Plus(cksum, Htons(Load(hdr, 2 * i)));
    }
    NoSum(all[20..]);
    ComplementIs(cksum);
    hide Complement, IcmpOf;
    cksum := Complement(cksum);
    if cksum == 65535 { cksum := 0; }
    return cksum;
  }

  lemma SumStep(s: seq<Byte>, i: nat)
    requires i + 1 < |s|
    ensures Sum(s[i..]) == Net(s[i], s[i + 1]) + Sum(s[i + 2..])
  {
    assert s[i..][2..] == s[i + 2..];
  }

  lemma NoSum(s: seq<Byte>)
    requires |s| <= 1
    ensures Sum(s) == if s == [] then 0 else Net(s[0], 0)
  {
  }

  /** The bytes icmp_cksum sums for a length of `buflen`. A negative length skips the loop,
      but an odd one still adds the first byte. */
  function Summed(buf: seq<Byte>, buflen: int): (r: seq<Byte>)
    requires buflen <= |buf| && |buf| > 0
  {
    if buflen >= 0 then buf[..buflen] else if buflen % 2 != 0 then buf[..1] else []
  }

  /** The sum in 32 bits. */
  function IcmpSum(buf: seq<Byte>, buflen: int): nat
    requires buflen <= |buf| && |buf| > 0
  {
    Plus(0, Sum(Summed(buf, buflen)))
  }

  /** icmp_cksum. */
  method IcmpCksum(buf: seq<Byte>, buflen: int) returns (r: nat)
    requires buflen <= |buf| && |buf| > 0
    ensures r == IcmpOf(IcmpSum(buf, buflen)) && r < WORD
  {
    hide Sum, Net, Load, Htons, Plus, Complement, IcmpOf;
    ghost var all := Summed(buf, buflen);
    var scount, sptr := buflen / 2, 0;
    var cksum: nat := 0;
    while scount > 0
      invariant 0 <= sptr <= |all| && sptr % 2 == 0
      invariant buflen >= 0 ==> sptr + 2 * scount == buflen - buflen % 2
      invariant buflen < 0 ==> sptr == 0 && scount < 0
      invariant cksum < WRAP && Plus(cksum, Sum(all[sptr..])) == Plus(0, Sum(all))
    {
      HtonsIsNet(buf, sptr);
      SumStep(all, sptr);
      PlusPlus(cksum, Htons(Load(buf, sptr)), Sum(all[sptr + 2..]));
      cksum := Plus(cksum, Htons(Load(buf, sptr)));
      sptr := sptr + 2;
      scount := scount - 1;
    }
    NoSum(all[sptr..]);
    if buflen % 2 != 0 {
      cksum := Plus(cksum, Net(buf[sptr], 0));
    }
    ComplementIs(cksum);
    return Complement(cksum);
  }

  // ---- Byte order --------------------------------------------------------------------------

  function Load32(s: seq<Byte>, i: nat): (r: nat)
    requires i + 3 < |s|
    ensures r < WRAP
  {
    Load(s, i) + WORD * Load(s, i + 2)
  }

  /** htonl and ntohl. */
  function Htonl(v: nat): (r: nat)
    requires v < WRAP
    ensures r < WRAP
  {
    Htons(v / WORD) + WORD * Htons(v % WORD)
  }

  /** Where a byte goes when the fields of the IP header change byte order. */
  function IpMirror(k: nat): nat {
    if 2 <= k < 8 then Partner(k)
    else if 12 <= k < 16 then 27 - k
    else if 16 <= k < 20 then 35 - k
    else k
  }

  /** The other byte of the halfword. */
  function Partner(k: nat): nat { if k % 2 == 0 then k + 1 else k - 1 }

  /** Checksum, identifier and sequence number of an ICMP message. */
  function IcmpMirror(k: nat): nat { if 22 <= k < 28 then Partner(k) else k }

  /** Ports and length of a UDP datagram. */
  function UdpMirror(k: nat): nat { if 20 <= k < 26 then Partner(k) else k }

  function IpSwapped(s: Packet): Packet { seq(1500, k requires 0 <= k < 1500 => s[IpMirror(k)]) }

  function IcmpSwapped(s: Packet): Packet { seq(1500, k requires 0 <= k < 1500 => s[IcmpMirror(k)]) }

  function UdpSwapped(s: Packet): Packet { seq(1500, k requires 0 <= k < 1500 => s[UdpMirror(k)]) }

  lemma HtonsBytes(v: nat, a: Byte, b: Byte)
    requires v == a + 256 * b
    ensures v < WORD && Htons(v) == b + 256 * a
    ensures Htons(v) % 256 == b && Htons(v) / 256 == a
  {
  }

  lemma HtonlBytes(v: nat, low: nat, high: nat)
    requires low < WORD && high < WORD && v == low + WORD * high
    ensures v < WRAP && Htonl(v) % WORD == Htons(high) && Htonl(v) / WORD == Htons(low)
  {
    WordIs(v, high, low);
    hide Htons;
    WordIs(Htonl(v), Htons(low), Htons(high));
  }

  method Swap16(pkt: array<Byte>, i: nat)
    requires i + 1 < pkt.Length
    modifies pkt
    ensures pkt[..] == old(pkt[..])[i := old(pkt[i + 1])][i + 1 := old(pkt[i])]
  {
    HtonsBytes(Load(pkt[..], i), pkt[i], pkt[i + 1]);
    var v := Htons(Load(pkt[..], i));
    hide Htons, Load;
    pkt[i], pkt[i + 1] := v % 256, v / 256;
  }

  method Swap32(pkt: array<Byte>, i: nat)
    requires i + 3 < pkt.Length
    modifies pkt
    ensures pkt[..] == old(pkt[..])[i := old(pkt[i + 3])][i + 1 := old(pkt[i + 2])]
                                   [i + 2 := old(pkt[i + 1])][i + 3 := old(pkt[i])]
  {
    HtonsBytes(Load(pkt[..], i), pkt[i], pkt[i + 1]);
    HtonsBytes(Load(pkt[..], i + 2), pkt[i + 2], pkt[i + 3]);
    HtonlBytes(Load32(pkt[..], i), Load(pkt[..], i), Load(pkt[..], i + 2));
    var v := Htonl(Load32(pkt[..], i));
    hide Htons, Load, Htonl, Load32;
    var low, high := v % WORD, v / WORD;
    pkt[i], pkt[i + 1] := low % 256, low / 256;
    pkt[i + 2], pkt[i + 3] := high % 256, high / 256;
  }

  /** ip_hton and ip_ntoh. */
  method IpHton(pkt: array<Byte>)
    requires pkt.Length == 1500
    modifies pkt
    ensures pkt[..] == IpSwapped(old(pkt[..]))
  {
    Swap16(pkt, 2);
    Swap16(pkt, 4);
    Swap16(pkt, 6);
    Swap32(pkt, 12);
    Swap32(pkt, 16);
  }

  /** icmp_hton and icmp_ntoh. */
  method IcmpHton(pkt: array<Byte>)
    requires pkt.Length == 1500
    modifies pkt
    ensures pkt[..] == IcmpSwapped(old(pkt[..]))
  {
    Swap16(pkt, 22);
    Swap16(pkt, 24);
    Swap16(pkt, 26);
  }

  /** udp_hton and udp_ntoh. */
  method UdpHton(pkt: array<Byte>)
    requires pkt.Length == 1500
    modifies pkt
    ensures pkt[..] == UdpSwapped(old(pkt[..]))
  {
    Swap16(pkt, 20);
    Swap16(pkt, 22);
    Swap16(pkt, 24);
  }

  method Put(pkt: array<Byte>, i: nat, v: nat)
    requires i + 1 < pkt.Length && v < WORD
    modifies pkt
    ensures pkt[..] == PutNet(old(pkt[..]), i, v)
  {
    var w := Htons(v);
    pkt[i], pkt[i + 1] := w % 256, w / 256;
  }

  // ---- ip_out and ip_in --------------------------------------------------------------------

  /** The message in network order with its checksum cleared. */
  function IcmpReady(s: Packet): Packet { PutNet(IcmpSwapped(s), 22, 0) }

  function IcmpSent(s: Packet, len: int): Packet
    requires len <= 1480
  {
    PutNet(IcmpReady(s), 22, IcmpOf(IcmpSum(IcmpReady(s)[20..], len)))
  }

  function UdpSent(s: Packet): Packet { UdpSwapped(PutNet(s, 26, 0)) }

  function HeaderReady(s: Packet): Packet { PutNet(IpSwapped(s), 10, 0) }

  function HeaderSent(s: Packet): Packet {
    PutNet(HeaderReady(s), 10, IpOf(Sum(HeaderReady(s)[..20])))
  }

  /** The packet as ip_out puts it on the wire. */
  function Sent(s: Packet): Packet
    requires s[9] == IP_ICMP ==> Load(s, 2) <= 1500
  {
    HeaderSent(if s[9] == IP_UDP then UdpSent(s)
               else if s[9] == IP_ICMP then IcmpSent(s, Load(s, 2) - IP_HDR_LEN)
               else s)
  }

  /** ip_out up to the Ethernet header. */
  method IpOut(pkt: array<Byte>)
    requires pkt.Length == 1500 && (pkt[9] == IP_ICMP ==> Load(pkt[..], 2) <= 1500)
    modifies pkt
    ensures pkt[..] == Sent(old(pkt[..]))
  {
    hide Load, Sum, IpOf, IcmpOf, PutNet;
    if pkt[9] == IP_UDP {
      Put(pkt, 26, 0);
      UdpHton(pkt);
    } else if pkt[9] == IP_ICMP {
      var len := Load(pkt[..], 2) - IP_HDR_LEN;
      IcmpHton(pkt);
      Put(pkt, 22, 0);
      var c := IcmpCksum(pkt[20..], len);
      Put(pkt, 22, c);
    }
    IpHton(pkt);
    Put(pkt, 10, 0);
    var cksum := Ipcksum(pkt[..]);
    Put(pkt, 10, cksum);
  }

  /** What ip_in makes of a packet before it looks at the destination. */
  datatype Fate = BadHeader | BadVersion | BadMessage | Checked

  /** The length of the message as the header, in network order, gives it. */
  function MessageLen(s: Packet): int { Net(s[2], s[3]) - IP_HDR_LEN }

  function FateOf(s: Packet): Fate
    requires s[9] == IP_ICMP ==> MessageLen(s) <= 1480
  {
    if IpOf(Sum(s[..20])) != 0 then BadHeader
    else if s[0] != 0x45 then BadVersion
    else if s[9] == IP_ICMP && IcmpOf(IcmpSum(s[20..], MessageLen(s))) != 0 then BadMessage
    else Checked
  }

  /** The packet as the modules above IP see it. */
  function Delivered(s: Packet): Packet {
    if s[9] == IP_UDP then UdpSwapped(IpSwapped(s))
    else if s[9] == IP_ICMP then IcmpSwapped(IpSwapped(s))
    else IpSwapped(s)
  }

  /** ip_in up to the destination address. */
  method IpIn(pkt: array<Byte>) returns (fate: Fate)
    requires pkt.Length == 1500 && (pkt[9] == IP_ICMP ==> MessageLen(pkt[..]) <= 1480)
    modifies pkt
    ensures fate == FateOf(old(pkt[..]))
    ensures fate == Checked ==> pkt[..] == Delivered(old(pkt[..]))
  {
    ghost var s := pkt[..];
    var cksum := Ipcksum(pkt[..]);
    if cksum != 0 { return BadHeader; }
    IpHton(pkt);
    HeaderIn(s);
    hide Sum, IcmpSum, IpOf, IcmpOf, Load, Net;
    if pkt[0] != 0x45 { return BadVersion; }
    if pkt[9] == IP_UDP {
      UdpHton(pkt);
    } else if pkt[9] == IP_ICMP {
      var icmplen := Load(pkt[..], 2) - IP_HDR_LEN;
      cksum := IcmpCksum(pkt[20..], icmplen);
      if cksum != 0 { return BadMessage; }
      IcmpHton(pkt);
    }
    return Checked;
  }

  lemma HeaderIn(s: Packet)
    ensures Load(IpSwapped(s), 2) - IP_HDR_LEN == MessageLen(s)
    ensures IpSwapped(s)[20..] == s[20..] && IpSwapped(s)[0] == s[0] && IpSwapped(s)[9] == s[9]
  {
  }

  /** The fields the sender fills in itself. */
  predicate ChecksumField(proto: Byte, k: nat) {
    10 <= k < 12 || (proto == IP_ICMP && 22 <= k < 24) || (proto == IP_UDP && 26 <= k < 28)
  }

  /** The message whose checksum ip_out computes carries twice. */
  predicate MessageCarries(s: Packet)
    requires s[9] == IP_ICMP ==> Load(s, 2) <= 1500
  {
    s[9] == IP_ICMP && SecondCarry(IcmpSum(IcmpReady(s)[20..], Load(s, 2) - IP_HDR_LEN))
  }

  // ---- From one machine to the other -------------------------------------------------------

  lemma PutNetIs(v: nat)
    requires v < WORD
    ensures Net(v / 256, v % 256) == v
  {
  }

  /** Storing the checksum `v` of the bytes `i..j` in their cleared field. */
  lemma SumStored(t: seq<Byte>, i: nat, j: nat, f: nat, v: nat)
    requires i <= f && f + 2 <= j <= |t| && (f - i) % 2 == 0 && t[f] == 0 && t[f + 1] == 0 && v < WORD
    ensures Sum(PutNet(t, f, v)[i..j]) == Sum(t[i..j]) + v
  {
    PutNetIs(v);
    SumPut(t[i..j], f - i, v / 256, v % 256);
    assert PutNet(t, f, v)[i..j] == t[i..j][f - i := v / 256][f - i + 1 := v % 256];
  }

  /** Every header ip_out makes passes the check of ip_in. */
  lemma HeaderPasses(s: Packet)
    ensures IpOf(Sum(HeaderSent(s)[..20])) == 0
  {
    var t := HeaderReady(s);
    SumBound(t[..20]);
    SumStored(t, 0, 20, 10, IpOf(Sum(t[..20])));
    IpAcceptsOwn(Sum(t[..20]));
  }

  /** A message of ip_out passes the check of ip_in exactly when its sum had no second carry. */
  lemma MessagePasses(s: Packet, len: nat)
    requires 4 <= len <= 1480
    ensures IcmpOf(IcmpSum(IcmpSent(s, len)[20..], len)) == 0 <==> !SecondCarry(IcmpSum(IcmpReady(s)[20..], len))
  {
    var t := IcmpReady(s);
    var v := IcmpOf(IcmpSum(t[20..], len));
    var w := PutNet(t, 22, v);
    assert t[20..][..len] == t[20..20 + len] && w[20..][..len] == w[20..20 + len];
    SumBound(t[20..20 + len]);
    SumStored(t, 20, 20 + len, 22, v);
    IcmpAcceptsOwn(Sum(t[20..20 + len]));
  }

  /** Completing the header changes neither the message nor what ip_in reads in the header. */
  lemma HeaderKeeps(s: Packet)
    ensures HeaderSent(s)[20..] == s[20..] && HeaderSent(s)[0] == s[0] && HeaderSent(s)[9] == s[9]
    ensures MessageLen(HeaderSent(s)) == Load(s, 2) - IP_HDR_LEN
  {
  }

  lemma MessageKeeps(s: Packet, len: int)
    requires len <= 1480
    ensures forall k :: 0 <= k < 20 ==> IcmpSent(s, len)[k] == s[k] && UdpSent(s)[k] == s[k]
    ensures Load(IcmpSent(s, len), 2) == Load(s, 2)
  {
  }

  /** The message of ip_out passes: with at least 4 bytes exactly when there was no second
      carry, and with less, where the checksum is not or only half covered by itself, only
      for these bytes. */
  predicate MessageSurvives(s: Packet)
    requires Load(s, 2) <= 1500
  {
    var len := Load(s, 2) - IP_HDR_LEN;
    if len >= 4 then !MessageCarries(s)
    else if len == 3 then s[21] == 0xff
    else len == 2 && s[20] == 0xff && s[21] == 0xff
  }

  /** A message too short to hold its checksum. */
  lemma ShortMessage(s: Packet, len: int)
    requires len < 4
    ensures IcmpOf(IcmpSum(IcmpSent(s, len)[20..], len)) == 0 <==>
              (len == 3 && s[21] == 0xff) || (len == 2 && s[20] == 0xff && s[21] == 0xff)
  {
    var t, w := IcmpReady(s), IcmpSent(s, len);
    var m, n := t[20..], w[20..];
    if len <= 0 {
      NoSum(Summed(n, len));
    } else {
      assert m[0] == n[0] == s[20] && m[1] == n[1] == s[21] && m[2] == 0 by { ShortBytes(s, len); }
      var v := Net(s[20], if len == 1 then 0 else s[21]);
      ShortSum(m, len);
      ShortSum(n, len);
      assert IcmpSum(m, len) == v;
      if len == 3 {
        assert n[2] == (65535 - v) / 256;
        ShortArrives(s[20], s[21], v);
      }
    }
  }

  lemma ShortBytes(s: Packet, len: int)
    requires len < 4
    ensures var t, w := IcmpReady(s), IcmpSent(s, len);
            && t[20] == w[20] == s[20] && t[21] == w[21] == s[21] && t[22] == 0
            && w[22] == IcmpOf(IcmpSum(t[20..], len)) / 256
  {
    hide IcmpOf, IcmpSum;
  }

  lemma ShortSum(m: seq<Byte>, len: int)
    requires 1 <= len <= 3 <= |m|
    ensures IcmpSum(m, len) == Net(m[0], if len == 1 then 0 else m[1]) + (if len == 3 then Net(m[2], 0) else 0)
  {
    if len == 1 { NoSum(m[..1]); } else { NoSum(m[..len][2..]); }
  }

  /** Half of the checksum completes the sum exactly when the other half is zero. */
  lemma ShortArrives(a: Byte, b: Byte, v: nat)
    requires v == Net(a, b)
    ensures IcmpOf(v + Net((65535 - v) / 256, 0)) == 0 <==> b == 0xff
  {
    assert 65535 - v == 256 * (255 - a) + (255 - b);
    assert (65535 - v) / 256 == 255 - a;
    assert v + Net((65535 - v) / 256, 0) == 65280 + b;
  }

  /** What ip_in makes of a packet from ip_out: it is refused exactly when it is a message
      that does not survive. */
  lemma SentArrives(s: Packet)
    requires s[0] == 0x45 && (s[9] == IP_ICMP ==> Load(s, 2) <= 1500)
    ensures Sent(s)[9] == s[9] && (s[9] == IP_ICMP ==> MessageLen(Sent(s)) <= 1480)
    ensures FateOf(Sent(s)) == if s[9] == IP_ICMP && !MessageSurvives(s) then BadMessage else Checked
  {
    var len := if s[9] == IP_ICMP then Load(s, 2) - IP_HDR_LEN else 0;
    var t := if s[9] == IP_UDP then UdpSent(s) else if s[9] == IP_ICMP then IcmpSent(s, len) else s;
    MessageKeeps(s, len);
    HeaderPasses(t);
    HeaderKeeps(t);
    if s[9] == IP_ICMP {
      if len >= 4 { MessagePasses(s, len); } else { ShortMessage(s, len); }
    }
    hide HeaderSent, IcmpSent, UdpSent, IpOf, IcmpOf, IcmpSum, SecondCarry, Load, Net, Sum, IcmpReady;
  }

  lemma HeaderSentAt(s: Packet, k: nat)
    requires k < 1500 && !(10 <= k < 12)
    ensures HeaderSent(s)[k] == s[IpMirror(k)]
  {
    hide Sum, IpOf;
  }

  lemma MessageSentAt(s: Packet, len: int, k: nat)
    requires len <= 1480 && k < 1500
    ensures !(22 <= k < 24) ==> IcmpSent(s, len)[k] == s[IcmpMirror(k)]
    ensures !(26 <= k < 28) ==> UdpSent(s)[k] == s[UdpMirror(k)]
  {
    hide IcmpOf, IcmpSum;
  }

  lemma Mirrors(k: nat)
    ensures IpMirror(IpMirror(k)) == k && IcmpMirror(IcmpMirror(k)) == k && UdpMirror(UdpMirror(k)) == k
    ensures k >= 20 ==> IpMirror(k) == k && IcmpMirror(k) >= 20 && UdpMirror(k) >= 20
    ensures k < 20 ==> IpMirror(k) < 20 && IcmpMirror(k) == k && UdpMirror(k) == k
    ensures IpMirror(k) in {10, 11} <==> k in {10, 11}
    ensures IcmpMirror(k) in {22, 23} <==> k in {22, 23}
    ensures UdpMirror(k) in {26, 27} <==> k in {26, 27}
    ensures k < 1500 ==> IpMirror(k) < 1500 && IcmpMirror(k) < 1500 && UdpMirror(k) < 1500
  {
  }

  /** A packet that arrives is the one sent, but for the checksums. */
  lemma SentIsDelivered(s: Packet, k: nat)
    requires s[9] == IP_ICMP ==> Load(s, 2) <= 1500
    requires k < 1500 && !ChecksumField(s[9], k)
    ensures Delivered(Sent(s))[k] == s[k]
  {
    var len := if s[9] == IP_ICMP then Load(s, 2) - IP_HDR_LEN else 0;
    var t := if s[9] == IP_UDP then UdpSent(s) else if s[9] == IP_ICMP then IcmpSent(s, len) else s;
    MessageKeeps(s, len);
    HeaderKeeps(t);
    var m := if s[9] == IP_UDP then UdpMirror(k) else if s[9] == IP_ICMP then IcmpMirror(k) else k;
    Mirrors(k);
    Mirrors(m);
    hide HeaderSent, IcmpSent, UdpSent, Load, Net, IpMirror, IcmpMirror, UdpMirror;
    assert Delivered(HeaderSent(t))[k] == HeaderSent(t)[IpMirror(m)];
    HeaderSentAt(t, IpMirror(m));
    MessageSentAt(s, len, m);
  }

  /** A double word in network byte order. */
  function Net32(s: Packet, i: nat): nat
    requires i + 3 < |s|
  {
    WORD * Net(s[i], s[i + 1]) + Net(s[i + 2], s[i + 3])
  }

  /** The fields of the IP header on the wire are in network order what they were in memory:
      length, identifier, fragment and the two addresses; nothing else moves. */
  lemma HeaderOnWire(s: Packet)
    requires s[9] == IP_ICMP ==> Load(s, 2) <= 1500
    ensures var w := Sent(s);
            && Net(w[2], w[3]) == Load(s, 2) && Net(w[4], w[5]) == Load(s, 4) && Net(w[6], w[7]) == Load(s, 6)
            && Net32(w, 12) == Load32(s, 12) && Net32(w, 16) == Load32(s, 16)
            && w[0] == s[0] && w[1] == s[1] && w[8] == s[8] && w[9] == s[9]
  {
    var len := if s[9] == IP_ICMP then Load(s, 2) - IP_HDR_LEN else 0;
    var t := if s[9] == IP_UDP then UdpSent(s) else if s[9] == IP_ICMP then IcmpSent(s, len) else s;
    MessageKeeps(s, len);
    FieldsSwapped(t);
    hide HeaderSent, IcmpSent, UdpSent;
  }

  lemma FieldsSwapped(t: Packet)
    ensures var w := HeaderSent(t);
            && Net(w[2], w[3]) == Load(t, 2) && Net(w[4], w[5]) == Load(t, 4) && Net(w[6], w[7]) == Load(t, 6)
            && Net32(w, 12) == Load32(t, 12) && Net32(w, 16) == Load32(t, 16)
            && w[0] == t[0] && w[1] == t[1] && w[8] == t[8] && w[9] == t[9]
  {
    hide Sum, IpOf;
  }

  /** The same of the message: identifier and sequence number of an ICMP message, ports and
      length of a UDP datagram, whose checksum is 0; the rest of the message does not move. */
  lemma MessageOnWire(s: Packet)
    requires s[9] == IP_ICMP ==> Load(s, 2) <= 1500
    ensures var w := Sent(s);
            && (s[9] == IP_ICMP ==> Net(w[24], w[25]) == Load(s, 24) && Net(w[26], w[27]) == Load(s, 26)
                                    && w[20] == s[20] && w[21] == s[21])
            && (s[9] == IP_UDP ==> Net(w[20], w[21]) == Load(s, 20) && Net(w[22], w[23]) == Load(s, 22)
                                   && Net(w[24], w[25]) == Load(s, 24) && w[26] == 0 && w[27] == 0)
    ensures forall k :: 28 <= k < 1500 ==> Sent(s)[k] == s[k]
    ensures s[9] != IP_ICMP && s[9] != IP_UDP ==> forall k :: 20 <= k < 1500 ==> Sent(s)[k] == s[k]
  {
    var len := if s[9] == IP_ICMP then Load(s, 2) - IP_HDR_LEN else 0;
    var t := if s[9] == IP_UDP then UdpSent(s) else if s[9] == IP_ICMP then IcmpSent(s, len) else s;
    forall k | 20 <= k < 1500
      ensures Sent(s)[k] == t[k]
    {
      HeaderSentAt(t, k);
    }
    hide HeaderSent, IpOf, Sum, IcmpOf, IcmpSum;
  }

  /** What the header checksum completes a sum to, every carry folded in. */
  lemma CompletedReduces(sum: nat)
    requires 0 < sum < WRAP - WORD
    ensures Reduced(sum + IpOf(sum)) == if SecondCarry(sum) then 1 else 65535
  {
    var q, r := sum / WORD, sum % WORD;
    FoldCases(sum, q, r);
    if q + r < WORD {
      ReducedIs(sum + IpOf(sum), q, 65534);
    } else if q + r == WORD {
      ReducedIs(sum + IpOf(sum), q + 1, 0);
    } else {
      ReducedIs(sum + IpOf(sum), q + 2, 0);
    }
  }

  /** A machine that checks headers by RFC 1071 accepts one from ip_out exactly when its sum
      had no second carry. */
  lemma HeaderForOthers(s: Packet)
    requires s[0] == 0x45
    ensures RfcValid(HeaderSent(s)[..20]) <==> !SecondCarry(Sum(HeaderReady(s)[..20]))
  {
    var t := HeaderReady(s);
    SumBound(t[..20]);
    assert Net(t[0], t[1]) > 0;
    SumStored(t, 0, 20, 10, IpOf(Sum(t[..20])));
    OnesSumIsReduced(HeaderSent(s)[..20]);
    CompletedReduces(Sum(t[..20]));
  }

  /** A message without content is never accepted. */
  lemma EmptyIsRefused(s: Packet)
    requires s[9] == IP_ICMP && MessageLen(s) <= 0
    ensures FateOf(s) != Checked
  {
    NoSum(Summed(s[20..], MessageLen(s)));
  }

  /** An echo request that its own checksum makes ip_in refuse: identifier 0xffff, sequence
      number 0xf800, no data. */
  lemma SecondCarryHappens() returns (m: seq<Byte>)
    ensures |m| == 8 && m[0] == 8 && m[1] == m[2] == m[3] == 0
    ensures SecondCarry(Sum(m)) && IcmpOf(Sum(PutNet(m, 2, IcmpOf(Sum(m))))) != 0
  {
    m := [8, 0, 0, 0, 0xff, 0xff, 0xf8, 0];
    NoSum([]);
    assert Sum([0xf8, 0]) == 0xf800;
    assert Sum([0xff, 0xff, 0xf8, 0]) == 0x1f7ff;
    assert Sum([0, 0, 0xff, 0xff, 0xf8, 0]) == 0x1f7ff;
    assert Sum(m) == 0x1ffff;
    SumStored(m, 0, 8, 2, IcmpOf(Sum(m)));
    IcmpAcceptsOwn(Sum(m));
  }

  /** A header that other machines refuse: 20 bytes of UDP from 192.168.1.2 to 192.168.1.3
      with identifier 0xf784. */
  lemma HeaderCarryHappens() returns (s: Packet)
    ensures s[0] == 0x45 && s[9] == IP_UDP
    ensures SecondCarry(Sum(HeaderReady(s)[..20])) && !RfcValid(HeaderSent(s)[..20])
  {
    hide Sum, HeaderReady, HeaderSent, RfcValid;
    var h: seq<Byte> := [0x45, 0, 0, 20, 0xf7, 0x84, 0, 0, 64, 17, 0, 0, 192, 168, 1, 2, 192, 168, 1, 3];
    var zeros := seq(1480, _ => 0);
    var n: Packet := h + zeros;
    s := IpSwapped(n);
    assert HeaderReady(s)[..20] == h by { SwappedBack(n); }
    HeaderSum(h);
    HeaderForOthers(s);
  }

  lemma SwappedBack(n: Packet)
    requires n[10] == 0 && n[11] == 0
    ensures HeaderReady(IpSwapped(n)) == n
  {
    forall k | 0 <= k < 1500
      ensures HeaderReady(IpSwapped(n))[k] == n[k]
    {
      Mirrors(k);
    }
  }

  /** The ten words of a header. */
  lemma HeaderSum(h: seq<Byte>)
    requires |h| == 20
    ensures Sum(h) == Net(h[0], h[1]) + Net(h[2], h[3]) + Net(h[4], h[5]) + Net(h[6], h[7]) + Net(h[8], h[9])
                      + Net(h[10], h[11]) + Net(h[12], h[13]) + Net(h[14], h[15]) + Net(h[16], h[17])
                      + Net(h[18], h[19])
  {
    hide Sum, Net;
    SumTail(h, 0);
    SumTail(h, 2);
    SumTail(h, 4);
    SumTail(h, 6);
    SumTail(h, 8);
    SumTail(h, 10);
    SumTail(h, 12);
    SumTail(h, 14);
    SumTail(h, 16);
    SumTail(h, 18);
    NoSum(h[20..]);
    assert h[0..] == h;
  }

  lemma SumTail(h: seq<Byte>, i: nat)
    requires i + 1 < |h|
    ensures Sum(h[i..]) == Net(h[i], h[i + 1]) + Sum(h[i + 2..])
  {
    assert h[i..][2..] == h[i + 2..];
  }
}
