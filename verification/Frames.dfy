/** Ethernet frames laid out field by field, against what the XDP program reads off them. Header layouts are those of
  section 3.1 of RFC 791 and section 3.1 of RFC 9293. */
module Frames {
  import opened Common
  import opened DataPlane

  type Word = n: int | 0 <= n < 0x1_0000

  function High(w: Word): Byte {
    w / 256
  }

  function Low(w: Word): Byte {
    w % 256
  }

  function WordBytes(w: Word): seq<Byte> {
    [High(w), Low(w)]
  }

  function AddressBytes(ip: IPv4): seq<Byte> {
    [ip.b0, ip.b1, ip.b2, ip.b3]
  }

  datatype IpHeader = IpHeader(versionIhl: Byte, tos: Byte, totalLength: Word, id: Word, fragment: Word, ttl: Byte,
                               protocol: Byte, checksum: Word, src: IPv4, dst: IPv4)

  function IpBytes(h: IpHeader): (r: seq<Byte>)
    ensures |r| == IP_LEN
  {
    [h.versionIhl, h.tos] + WordBytes(h.totalLength) + WordBytes(h.id) + WordBytes(h.fragment)
    + [h.ttl, h.protocol] + WordBytes(h.checksum) + AddressBytes(h.src) + AddressBytes(h.dst)
  }

  datatype TcpFlags = TcpFlags(cwr: bool, ece: bool, urg: bool, ack: bool, psh: bool, rst: bool, syn: bool, fin: bool)

  function Weight(b: bool, w: nat): nat {
    if b then w else 0
  }

  function FlagsByte(f: TcpFlags): Byte {
    Weight(f.cwr, 128) + Weight(f.ece, 64) + Weight(f.urg, 32) + Weight(f.ack, 16)
    + Weight(f.psh, 8) + Weight(f.rst, 4) + Weight(f.syn, 2) + Weight(f.fin, 1)
  }

  datatype TcpHeader = TcpHeader(srcPort: Word, dstPort: Word, seqHigh: Word, seqLow: Word, ackHigh: Word, ackLow: Word,
                                 dataOffset: Byte, flags: TcpFlags, window: Word, checksum: Word, urgent: Word)

  function TcpBytes(h: TcpHeader): (r: seq<Byte>)
    ensures |r| == TCP_LEN
  {
    WordBytes(h.srcPort) + WordBytes(h.dstPort) + WordBytes(h.seqHigh) + WordBytes(h.seqLow)
    + WordBytes(h.ackHigh) + WordBytes(h.ackLow) + [h.dataOffset, FlagsByte(h.flags)]
    + WordBytes(h.window) + WordBytes(h.checksum) + WordBytes(h.urgent)
  }

  /** A frame: two MAC addresses, the EtherType, and what follows. */
  function Ethernet(macs: seq<Byte>, etherType: Word, rest: seq<Byte>): seq<Byte>
    requires |macs| == 12
  {
    macs + WordBytes(etherType) + rest
  }

  lemma FlagsReadBack(f: TcpFlags)
    ensures Flag(FlagsByte(f), 2) == f.syn && Flag(FlagsByte(f), 16) == f.ack
  {
  }

  /** The addresses and the protocol of an IPv4 frame are read back; the transport header is taken from the 20 bytes
    behind the fixed part of the IP header, whatever the IHL says. */
  lemma FrameReadsBack(macs: seq<Byte>, ip: IpHeader, rest: seq<Byte>)
    requires |macs| == 12
    ensures Parse(Ethernet(macs, 0x0800, IpBytes(ip) + rest)) ==
      Ipv4(ip.src, ip.dst,
           if ip.protocol != 6 then NotTcp
           else if |rest| < TCP_LEN then CutShort
           else Tcp(Be16(rest, 2), Flag(rest[13], 2), Flag(rest[13], 16)))
  {
    var d := Ethernet(macs, 0x0800, IpBytes(ip) + rest);
    var h := IpBytes(ip);
    assert |d| == 34 + |rest|;
    assert d[12] == High(0x0800) && d[13] == Low(0x0800);
    assert forall k :: 0 <= k < IP_LEN ==> d[14 + k] == h[k];
    assert forall k :: 0 <= k < |rest| ==> d[34 + k] == rest[k];
    assert h[9] == ip.protocol;
    assert Address(d, 26) == ip.src && Address(d, 30) == ip.dst;
    hide IpBytes, Ethernet;
    if |rest| >= TCP_LEN {
      assert Be16(d, 36) == Be16(rest, 2);
    }
  }

  /** Without IP options the detector sees the destination port and the SYN and ACK flags of the segment. */
  lemma SegmentReadsBack(macs: seq<Byte>, ip: IpHeader, tcp: TcpHeader, payload: seq<Byte>)
    requires |macs| == 12 && ip.protocol == 6
    ensures Parse(Ethernet(macs, 0x0800, IpBytes(ip) + (TcpBytes(tcp) + payload))) ==
      Ipv4(ip.src, ip.dst, Tcp(tcp.dstPort, tcp.flags.syn, tcp.flags.ack))
  {
    var t := TcpBytes(tcp);
    var rest := t + payload;
    assert rest[2] == t[2] == High(tcp.dstPort) && rest[3] == t[3] == Low(tcp.dstPort);
    assert rest[13] == t[13] == FlagsByte(tcp.flags);
    hide Parse, TcpBytes, FlagsByte, Ethernet, IpBytes;
    FlagsReadBack(tcp.flags);
    FrameReadsBack(macs, ip, rest);
  }

  // ---- options and fragments ----

  /** An IPv4 frame: the fixed header, options, what the datagram carries, and the padding of the link layer. */
  function Datagram(macs: seq<Byte>, ip: IpHeader, options: seq<Byte>, carried: seq<Byte>, padding: seq<Byte>)
    : seq<Byte>
    requires |macs| == 12
  {
    Ethernet(macs, 0x0800, IpBytes(ip) + (options + carried + padding))
  }

  function Segment(tcp: TcpHeader, payload: seq<Byte>): seq<Byte> {
    TcpBytes(tcp) + payload
  }

  /** What the segment says. */
  function Truth(ip: IpHeader, tcp: TcpHeader): Frame {
    Ipv4(ip.src, ip.dst, Tcp(tcp.dstPort, tcp.flags.syn, tcp.flags.ack))
  }

  /** Where in its segment a fragment starts: the low 13 bits count units of eight bytes. */
  function FragmentStart(ip: IpHeader): nat {
    8 * (ip.fragment % 0x2000)
  }

  /** Options are whole 32-bit words, the IHL counts them behind the five words of the fixed header, and the total
    length covers both. */
  predicate LengthsCount(ip: IpHeader, options: seq<Byte>) {
    && |options| % 4 == 0 && ip.versionIhl % 16 == 5 + |options| / 4
    && ip.totalLength >= IP_LEN + |options|
  }

  function CarriedLength(ip: IpHeader, options: seq<Byte>): nat
    requires LengthsCount(ip, options)
  {
    ip.totalLength - IP_LEN - |options|
  }

  /** The part of a segment this datagram carries, if the segment is long enough to have it. */
  predicate Reaches(ip: IpHeader, options: seq<Byte>, segment: seq<Byte>)
    requires LengthsCount(ip, options)
  {
    FragmentStart(ip) + CarriedLength(ip, options) <= |segment|
  }

  function Carried(ip: IpHeader, options: seq<Byte>, segment: seq<Byte>): (r: seq<Byte>)
    requires LengthsCount(ip, options) && Reaches(ip, options, segment)
    ensures |r| == CarriedLength(ip, options)
  {
    segment[FragmentStart(ip)..FragmentStart(ip) + CarriedLength(ip, options)]
  }

  /** With IP options in front, the port reported is the second pair of option bytes, and the two flags are read
    somewhere before the flags of the segment: they do not depend on those. */
  lemma OptionsAreReadAsTcp(macs: seq<Byte>, ip: IpHeader, options: seq<Byte>, tcp: TcpHeader, payload: seq<Byte>,
                            flags: TcpFlags)
    requires |macs| == 12 && ip.protocol == 6 && |options| >= 4
    ensures var f := Parse(Datagram(macs, ip, options, Segment(tcp, payload), []));
      && f.Ipv4? && f.src == ip.src && f.dst == ip.dst && f.layer4.Tcp?
      && f.layer4.port == Be16(options, 2)
      && f == Parse(Datagram(macs, ip, options, Segment(tcp.(flags := flags), payload), []))
  {
    var t, t' := TcpBytes(tcp), TcpBytes(tcp.(flags := flags));
    var rest, rest' := options + (t + payload) + [], options + (t' + payload) + [];
    assert rest[2] == rest'[2] == options[2] && rest[3] == rest'[3] == options[3];
    assert t[..13] == t'[..13];
    assert rest[13] == (if 13 < |options| then options[13] else t[13 - |options|]);
    assert rest'[13] == (if 13 < |options| then options[13] else t'[13 - |options|]);
    assert 13 >= |options| ==> t[..13][13 - |options|] == t'[..13][13 - |options|];
    hide Parse, TcpBytes, FlagsByte, Ethernet, IpBytes;
    FrameReadsBack(macs, ip, rest);
    FrameReadsBack(macs, ip, rest');
  }

  /** Behind options no segment's SYN can be trusted: of two segments that differ in the flag only, the detector gets
    one wrong. */
  lemma OptionsHideSyn(macs: seq<Byte>, ip: IpHeader, options: seq<Byte>, tcp: TcpHeader, payload: seq<Byte>)
    requires |macs| == 12 && ip.protocol == 6 && |options| >= 4
    ensures var other := tcp.(flags := tcp.flags.(syn := !tcp.flags.syn));
      || Parse(Datagram(macs, ip, options, Segment(tcp, payload), [])) != Truth(ip, tcp)
      || Parse(Datagram(macs, ip, options, Segment(other, payload), [])) != Truth(ip, other)
  {
    hide Parse, Datagram;
    OptionsAreReadAsTcp(macs, ip, options, tcp, payload, tcp.flags.(syn := !tcp.flags.syn));
  }

  // ---- which datagrams are read right ----

  /** Whatever segment and padding: the datagram with this header is read as what the segment says. */
  ghost predicate ReadsSegments(macs: seq<Byte>, ip: IpHeader, options: seq<Byte>)
    requires |macs| == 12 && LengthsCount(ip, options)
  {
    forall tcp: TcpHeader, payload: seq<Byte>, padding: seq<Byte> | Reaches(ip, options, Segment(tcp, payload)) ::
      Parse(Datagram(macs, ip, options, Carried(ip, options, Segment(tcp, payload)), padding)) == Truth(ip, tcp)
  }

  /** What a caller can check on the frame: no options, not a later fragment, and a whole TCP header in the datagram. */
  predicate HeaderInPlace(ip: IpHeader) {
    ip.versionIhl % 16 == 5 && ip.fragment % 0x2000 == 0 && ip.totalLength >= IP_LEN + TCP_LEN
  }

  lemma InPlaceReadsRight(macs: seq<Byte>, ip: IpHeader, tcp: TcpHeader, payload: seq<Byte>, padding: seq<Byte>)
    requires |macs| == 12 && ip.protocol == 6 && LengthsCount(ip, []) && HeaderInPlace(ip)
    requires Reaches(ip, [], Segment(tcp, payload))
    ensures Parse(Datagram(macs, ip, [], Carried(ip, [], Segment(tcp, payload)), padding)) == Truth(ip, tcp)
  {
    var carried := Carried(ip, [], Segment(tcp, payload));
    var rest := carried[TCP_LEN..] + padding;
    assert carried[..TCP_LEN] == TcpBytes(tcp);
    assert [] + carried + padding == TcpBytes(tcp) + rest;
    hide Parse, TcpBytes, FlagsByte, Ethernet, IpBytes;
    SegmentReadsBack(macs, ip, tcp, rest);
  }

  function Zeros(n: nat): (r: seq<Byte>)
    ensures |r| == n && forall i :: 0 <= i < n ==> r[i] == 0
  {
    seq(n, _ => 0)
  }

  /** A segment to a port, zero everywhere else. */
  function Blank(port: Word): TcpHeader {
    TcpHeader(0, port, 0, 0, 0, 0, 0, TcpFlags(false, false, false, false, false, false, false, false), 0, 0, 0)
  }

  lemma BlankIsZero(port: Word, n: nat)
    ensures var s := Segment(Blank(port), Zeros(n));
      |s| == TCP_LEN + n && forall i :: 4 <= i < |s| ==> s[i] == 0
  {
  }

  /** The port read when everything the detector looks at is option bytes or zero. */
  lemma PortIsOptionOrZero(macs: seq<Byte>, ip: IpHeader, options: seq<Byte>, port: Word, n: nat)
    requires |macs| == 12 && ip.protocol == 6 && LengthsCount(ip, options)
    requires Reaches(ip, options, Segment(Blank(port), Zeros(n)))
    requires options != [] || FragmentStart(ip) > 0
    ensures var carried := Carried(ip, options, Segment(Blank(port), Zeros(n)));
      var f := Parse(Datagram(macs, ip, options, carried, Zeros(20)));
      f.Ipv4? && f.layer4.Tcp? && f.layer4.port == if options != [] then Be16(options, 2) else 0
  {
    BlankIsZero(port, n);
    var segment := Segment(Blank(port), Zeros(n));
    hide TcpBytes, Segment, Parse, IpBytes, Ethernet;
    var carried := Carried(ip, options, segment);
    var rest := options + carried + Zeros(20);
    if options == [] {
      assert forall i :: 0 <= i < |carried| ==> carried[i] == segment[FragmentStart(ip) + i] == 0;
      assert rest[2] == 0 && rest[3] == 0;
    } else {
      assert rest[2] == options[2] && rest[3] == options[3];
    }
    FrameReadsBack(macs, ip, rest);
  }

  lemma CutShortIsNotRead(macs: seq<Byte>, ip: IpHeader, carried: seq<Byte>)
    requires |macs| == 12 && ip.protocol == 6 && |carried| < TCP_LEN
    ensures Parse(Datagram(macs, ip, [], carried, [])) == Ipv4(ip.src, ip.dst, CutShort)
  {
    hide Parse, IpBytes, Ethernet;
    FrameReadsBack(macs, ip, [] + carried + []);
  }

  lemma MisreadsSome(macs: seq<Byte>, ip: IpHeader, options: seq<Byte>)
    requires |macs| == 12 && ip.protocol == 6 && LengthsCount(ip, options) && !HeaderInPlace(ip)
    ensures !ReadsSegments(macs, ip, options)
  {
    hide Parse, TcpBytes, Ethernet, IpBytes, FlagsByte;
    var n := FragmentStart(ip) + CarriedLength(ip, options);
    if options != [] || FragmentStart(ip) > 0 {
      var port := if options != [] && Be16(options, 2) == 1 then 2 else 1;
      var segment := Segment(Blank(port), Zeros(n));
      PortIsOptionOrZero(macs, ip, options, port, n);
      assert Parse(Datagram(macs, ip, options, Carried(ip, options, segment), Zeros(20))) != Truth(ip, Blank(port));
    } else {
      var segment := Segment(Blank(1), Zeros(n));
      CutShortIsNotRead(macs, ip, Carried(ip, options, segment));
      assert Parse(Datagram(macs, ip, options, Carried(ip, options, segment), [])) != Truth(ip, Blank(1));
    }
  }

  /** The detector reads the TCP segments behind an IP header right, whatever they and the padding are, for exactly the
    headers without options, at fragment offset 0, whose total length has room for a TCP header. */
  lemma ReadsRightExactly(macs: seq<Byte>, ip: IpHeader, options: seq<Byte>)
    requires |macs| == 12 && ip.protocol == 6 && LengthsCount(ip, options)
    ensures ReadsSegments(macs, ip, options) <==> HeaderInPlace(ip)
  {
    hide Parse, Datagram, Segment;
    if HeaderInPlace(ip) {
      assert options == [];
      forall tcp: TcpHeader, payload: seq<Byte>, padding: seq<Byte> | Reaches(ip, options, Segment(tcp, payload))
        ensures Parse(Datagram(macs, ip, options, Carried(ip, options, Segment(tcp, payload)), padding))
          == Truth(ip, tcp)
      {
        InPlaceReadsRight(macs, ip, tcp, payload, padding);
      }
    } else {
      MisreadsSome(macs, ip, options);
    }
  }
}
