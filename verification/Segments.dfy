/** The detector on what is actually on the wire: segments with their flags and ports, other IPv4 packets, and frames
  that are no IPv4 at all. */
module Segments {
  import opened Common
  import BpfMap
  import opened DataPlane
  import opened Frames
  import opened Traces

  datatype Cargo =
    | TcpSegment(tcp: TcpHeader, payload: seq<Byte>)
    | OtherProtocol(bytes: seq<Byte>)
    | CutTcp(bytes: seq<Byte>)

  /** A frame with the CPU and the clock it meets: an IPv4 datagram without options, or anything else. */
  datatype Wire =
    | Datagram4(macs: seq<Byte>, ip: IpHeader, cargo: Cargo, cpu: nat, now: nat)
    | OtherFrame(macs: seq<Byte>, etherType: Word, rest: seq<Byte>, cpu: nat, now: nat)
    | Runt(data: seq<Byte>, cpu: nat, now: nat)

  /** The parts fit together: TCP is protocol 6, IPv4 is EtherType 0x0800, and a runt is too short for both headers. */
  predicate Formed(w: Wire) {
    match w
    case Datagram4(macs, ip, cargo, _, _) =>
      && |macs| == 12
      && (match cargo
          case TcpSegment(_, _) => ip.protocol == 6
          case OtherProtocol(_) => ip.protocol != 6
          case CutTcp(bytes) => ip.protocol == 6 && |bytes| < 20)
    case OtherFrame(macs, etherType, _, _, _) => |macs| == 12 && etherType != 0x0800
    case Runt(data, _, _) => |data| < 34
  }

  function CargoBytes(c: Cargo): seq<Byte> {
    match c
    case TcpSegment(tcp, payload) => TcpBytes(tcp) + payload
    case OtherProtocol(bytes) => bytes
    case CutTcp(bytes) => bytes
  }

  function Bytes(w: Wire): seq<Byte>
    requires Formed(w)
  {
    match w
    case Datagram4(macs, ip, cargo, _, _) => Ethernet(macs, 0x0800, IpBytes(ip) + CargoBytes(cargo))
    case OtherFrame(macs, etherType, rest, _, _) => Ethernet(macs, etherType, rest)
    case Runt(data, _, _) => data
  }

  function OnWire(w: Wire): Packet
    requires Formed(w)
  {
    Packet(Bytes(w), w.cpu, w.now)
  }

  // ---- what the program makes of one frame ----

  /** The blacklist holds the address with the value 1. */
  predicate Listed(bl: map<IPv4, Byte>, ip: IPv4) {
    ip in bl && bl[ip] == 1
  }

  /** The frame is an IPv4 packet the detector takes into account: not from a listed source, not a cut TCP header. */
  predicate Accepted(bl: map<IPv4, Byte>, w: Wire) {
    w.Datagram4? && !Listed(bl, w.ip.src) && !w.cargo.CutTcp?
  }

  /** A segment with SYN from this source. */
  predicate SynFrom(bl: map<IPv4, Byte>, w: Wire, src: IPv4) {
    Accepted(bl, w) && w.ip.src == src && w.cargo.TcpSegment? && w.cargo.tcp.flags.syn
  }

  /** One of those to a port below 1024. */
  predicate LowSynFrom(bl: map<IPv4, Byte>, w: Wire, src: IPv4) {
    SynFrom(bl, w, src) && w.cargo.tcp.dstPort < 1024
  }

  lemma NoIpv4(bl: map<IPv4, Byte>, w: Wire)
    requires Formed(w) && !w.Datagram4?
    ensures VerdictOf(bl, OnWire(w)) == Pass && Decode(bl, OnWire(w)).request == Nothing
  {
    if w.OtherFrame? {
      var d := Bytes(w);
      assert |d| >= 14 && d[12] == High(w.etherType) && d[13] == Low(w.etherType);
      assert 256 * High(w.etherType) + Low(w.etherType) == w.etherType;
    } else if |w.data| >= 14 {
      assert Parse(w.data) == Ignored;
    }
  }

  /** Verdict and request for every frame, in terms of its own addresses, flags and ports. */
  lemma FirewallOnFrame(bl: map<IPv4, Byte>, w: Wire)
    requires Formed(w)
    ensures VerdictOf(bl, OnWire(w)) == Drop <==> w.Datagram4? && Listed(bl, w.ip.src)
    ensures Decode(bl, OnWire(w)) ==
      Arrival(if !Accepted(bl, w) then Nothing
              else if w.cargo.TcpSegment? then
                Request(w.ip.src, w.ip.dst, w.cargo.tcp.flags.syn && !w.cargo.tcp.flags.ack,
                        if w.cargo.tcp.flags.syn then Some(w.cargo.tcp.dstPort as nat) else None)
              else Request(w.ip.src, w.ip.dst, false, None),
              w.cpu, w.now, |Bytes(w)|)
  {
    if !w.Datagram4? {
      NoIpv4(bl, w);
    } else {
      hide Parse, IpBytes, TcpBytes, Ethernet;
      FrameReadsBack(w.macs, w.ip, CargoBytes(w.cargo));
      if w.cargo.TcpSegment? {
        SegmentReadsBack(w.macs, w.ip, w.cargo.tcp, w.cargo.payload);
      }
    }
  }

  // ---- runs ----

  predicate AllFormed(ws: seq<Wire>) {
    forall i :: 0 <= i < |ws| ==> Formed(ws[i])
  }

  function OnWires(ws: seq<Wire>): (r: seq<Packet>)
    requires AllFormed(ws)
    ensures |r| == |ws|
  {
    seq(|ws|, i requires 0 <= i < |ws| => OnWire(ws[i]))
  }

  /** Frames from src that are counted. */
  function FramesFrom(bl: map<IPv4, Byte>, ws: seq<Wire>, src: IPv4): nat {
    if ws == [] then 0
    else FramesFrom(bl, Init(ws), src) + (if Accepted(bl, Last(ws)) && Last(ws).ip.src == src then 1 else 0)
  }

  /** The bytes of these frames, all headers included. */
  function BytesFrom(bl: map<IPv4, Byte>, ws: seq<Wire>, src: IPv4): nat
    requires AllFormed(ws)
  {
    if ws == [] then 0
    else
      BytesFrom(bl, Init(ws), src)
      + (if Accepted(bl, Last(ws)) && Last(ws).ip.src == src then |Bytes(Last(ws))| else 0)
  }

  /** Segments from src with SYN set and ACK clear. */
  function PureSynsFrom(bl: map<IPv4, Byte>, ws: seq<Wire>, src: IPv4): nat {
    if ws == [] then 0
    else
      PureSynsFrom(bl, Init(ws), src)
      + (if SynFrom(bl, Last(ws), src) && !Last(ws).cargo.tcp.flags.ack then 1 else 0)
  }

  /** Segments from src with SYN set, to a port below 1024. */
  function LowSynsFrom(bl: map<IPv4, Byte>, ws: seq<Wire>, src: IPv4): nat {
    if ws == [] then 0
    else
      LowSynsFrom(bl, Init(ws), src) + (if LowSynFrom(bl, Last(ws), src) then 1 else 0)
  }

  /** The ports below 1024 these went to. */
  function LowPortsFrom(bl: map<IPv4, Byte>, ws: seq<Wire>, src: IPv4): set<nat> {
    if ws == [] then {}
    else
      LowPortsFrom(bl, Init(ws), src)
      + (if LowSynFrom(bl, Last(ws), src) then {Last(ws).cargo.tcp.dstPort as nat} else {})
  }

  /** Alerts of one kind about src. */
  function AlertsAbout(log: seq<Alert>, src: IPv4, kind: AlertKind): nat {
    if log == [] then 0
    else AlertsAbout(Init(log), src, kind) + (if Last(log).src == src && Last(log).kind == kind then 1 else 0)
  }

  lemma WiresInit(bl: map<IPv4, Byte>, ws: seq<Wire>)
    requires AllFormed(ws) && ws != []
    ensures AllFormed(Init(ws)) && DecodeAll(bl, OnWires(ws)) != []
    ensures Init(DecodeAll(bl, OnWires(ws))) == DecodeAll(bl, OnWires(Init(ws)))
    ensures Last(DecodeAll(bl, OnWires(ws))) == Decode(bl, OnWire(Last(ws)))
  {
    hide Decode, Bytes, Formed;
    assert Init(OnWires(ws)) == OnWires(Init(ws));
    assert Init(DecodeAll(bl, OnWires(ws))) == DecodeAll(bl, Init(OnWires(ws)));
  }

  /** What one frame counts as. */
  lemma FrameCounts(bl: map<IPv4, Byte>, w: Wire, src: IPv4)
    requires Formed(w)
    ensures var a := Decode(bl, OnWire(w));
      && a.cpu == w.cpu && a.size == |Bytes(w)|
      && (Counted(a, src) <==> Accepted(bl, w) && w.ip.src == src)
      && (PureSyn(a, src) <==> SynFrom(bl, w, src) && !w.cargo.tcp.flags.ack)
      && (LowSyn(a, src) <==> LowSynFrom(bl, w, src))
      && (LowSyn(a, src) ==> a.request.synPort.value == w.cargo.tcp.dstPort)
  {
    FirewallOnFrame(bl, w);
    hide OnWire, Decode, Formed, Bytes, Listed;
  }

  /** The counts the closed forms are stated in are counts of frames. */
  lemma {:induction false} CountsAreFrames(bl: map<IPv4, Byte>, ws: seq<Wire>, src: IPv4)
    requires AllFormed(ws)
    ensures var tr := DecodeAll(bl, OnWires(ws));
      && PacketCount(tr, src) == FramesFrom(bl, ws, src) && ByteCount(tr, src) == BytesFrom(bl, ws, src)
      && LowSynCount(tr, src) == LowSynsFrom(bl, ws, src) && LowPorts(tr, src) == LowPortsFrom(bl, ws, src)
  {
    hide DecodeAll, OnWires, Decode, OnWire, Formed, Bytes, Counted, LowSyn, LowSynFrom, Accepted;
    if ws == [] {
      NoWires();
      assert DecodeAll(bl, OnWires(ws)) == [];
    } else {
      WiresInit(bl, ws);
      CountsAreFrames(bl, Init(ws), src);
      FrameCounts(bl, Last(ws), src);
    }
  }

  lemma {:induction false} SynBelowStep(tr: seq<Arrival>, src: IPv4, cpus: nat)
    requires tr != []
    ensures SynBelow(tr, src, cpus) ==
      SynBelow(Init(tr), src, cpus) + (if PureSyn(Last(tr), src) && Last(tr).cpu < cpus then 1 else 0)
  {
    if cpus > 0 {
      SynBelowStep(tr, src, cpus - 1);
    }
  }

  lemma {:induction false} NoSynsYet(src: IPv4, cpus: nat)
    ensures SynBelow([], src, cpus) == 0
  {
    if cpus > 0 {
      NoSynsYet(src, cpus - 1);
    }
  }

  lemma {:induction false} PureSynsAreFrames(bl: map<IPv4, Byte>, ws: seq<Wire>, src: IPv4, cpus: nat)
    requires AllFormed(ws) && forall i :: 0 <= i < |ws| ==> ws[i].cpu < cpus
    ensures SynBelow(DecodeAll(bl, OnWires(ws)), src, cpus) == PureSynsFrom(bl, ws, src)
  {
    hide DecodeAll, OnWires, Decode, OnWire, SynBelow, Formed, PureSyn, SynFrom;
    if ws == [] {
      NoWires();
      assert DecodeAll(bl, OnWires(ws)) == [];
      NoSynsYet(src, cpus);
    } else {
      WiresInit(bl, ws);
      PureSynsAreFrames(bl, Init(ws), src, cpus);
      SynBelowStep(DecodeAll(bl, OnWires(ws)), src, cpus);
      FrameCounts(bl, Last(ws), src);
    }
  }

  lemma {:induction false} FloodBelowStep(log: seq<Alert>, src: IPv4, cpus: nat)
    requires log != []
    ensures FloodBelow(log, src, cpus) ==
      FloodBelow(Init(log), src, cpus)
      + (if Last(log).kind == SynFlood && Last(log).src == src && Last(log).cpu < cpus then 1 else 0)
  {
    if cpus > 0 {
      FloodBelowStep(log, src, cpus - 1);
    }
  }

  lemma {:induction false} NoFloodsYet(src: IPv4, cpus: nat)
    ensures FloodBelow([], src, cpus) == 0
  {
    if cpus > 0 {
      NoFloodsYet(src, cpus - 1);
    }
  }

  lemma {:induction false} FloodsAreAlerts(log: seq<Alert>, src: IPv4, cpus: nat)
    requires forall a :: a in log ==> a.cpu < cpus
    ensures FloodBelow(log, src, cpus) == AlertsAbout(log, src, SynFlood)
  {
    if log == [] {
      NoFloodsYet(src, cpus);
    } else {
      assert log == Init(log) + [Last(log)];
      FloodsAreAlerts(Init(log), src, cpus);
      FloodBelowStep(log, src, cpus);
    }
  }

  lemma {:induction false} ScansAreAlerts(log: seq<Alert>, src: IPv4)
    ensures ScanAlerts(log, src) == AlertsAbout(log, src, PortScan)
  {
    if log != [] {
      ScansAreAlerts(Init(log), src);
    }
  }

  // ---- which sources are tracked ----

  /** The frame calls for an entry of its source: in flow_stats when it is counted, in the SYN counters when it has SYN
    and not ACK, in the port map when it has SYN. */
  predicate Calls(bl: map<IPv4, Byte>, t: Table, w: Wire) {
    && Accepted(bl, w)
    && match t
       case FlowTable => true
       case SynTable => w.cargo.TcpSegment? && w.cargo.tcp.flags.syn && !w.cargo.tcp.flags.ack
       case ScanTable => w.cargo.TcpSegment? && w.cargo.tcp.flags.syn
  }

  /** The sources that call for an entry, in order of their frames. */
  function Callers(bl: map<IPv4, Byte>, t: Table, ws: seq<Wire>): seq<IPv4> {
    if ws == [] then []
    else Callers(bl, t, Init(ws)) + (if Calls(bl, t, Last(ws)) then [Last(ws).ip.src] else [])
  }

  lemma FrameCalls(bl: map<IPv4, Byte>, t: Table, w: Wire)
    requires Formed(w)
    ensures var a := Decode(bl, OnWire(w));
      && (Calls(bl, t, w) <==> a.request.Request? && Touches(t, a, a.request.src))
      && (Calls(bl, t, w) ==> a.request.src == w.ip.src)
  {
    FirewallOnFrame(bl, w);
    hide OnWire, Decode, Formed, Bytes, Listed;
  }

  lemma {:induction false} CallersTouch(bl: map<IPv4, Byte>, t: Table, ws: seq<Wire>)
    requires AllFormed(ws)
    ensures Touched(t, DecodeAll(bl, OnWires(ws))) == Callers(bl, t, ws)
  {
    hide DecodeAll, OnWires, Decode, OnWire, Formed, Calls, Touches;
    if ws == [] {
      NoWires();
      assert DecodeAll(bl, OnWires(ws)) == [];
    } else {
      WiresInit(bl, ws);
      CallersTouch(bl, t, Init(ws));
      FrameCalls(bl, t, Last(ws));
      assert Callers(bl, t, Init(ws)) + [] == Callers(bl, t, Init(ws));
    }
  }

  /** From start-up, a source is in a map if and only if one of its frames called for that and fewer than 100000 other
    sources had called before its first such frame. */
  lemma TrackedExactly(cpus: nat, bl: map<IPv4, Byte>, ws: seq<Wire>, t: Table, src: IPv4)
    requires AllFormed(ws)
    ensures src in Keys(t, RunPackets(SourceLimits(cpus), Boot(bl), OnWires(ws))) <==>
      src in Callers(bl, t, ws) && |Ahead(Callers(bl, t, ws), src)| < 100000
  {
    hide OnWires, AllFormed, Run, RunPackets, Callers, Touched, Ahead, BpfMap.Admit;
    var lim, tr := SourceLimits(cpus), DecodeAll(bl, OnWires(ws));
    PacketsDecode(lim, Boot(bl), OnWires(ws));
    RunKeys(lim, Boot(bl), tr, t);
    CallersTouch(bl, t, ws);
    BpfMap.AdmittedExactly(Keys(t, Boot(bl)), lim.size, Callers(bl, t, ws), src);
    assert Keys(t, Boot(bl)) == {};
    assert {} + Ahead(Callers(bl, t, ws), src) == Ahead(Callers(bl, t, ws), src);
  }

  // ---- every alert names the frame that raised it ----

  /** The alert carries the addresses, CPU and clock of this frame, which is one that can raise it. */
  predicate RaisedBy(bl: map<IPv4, Byte>, a: Alert, w: Wire) {
    && SynFrom(bl, w, a.src) && a.dst == w.ip.dst && a.cpu == w.cpu && a.timestamp == w.now
    && (match a.kind
        case SynFlood => !w.cargo.tcp.flags.ack
        case PortScan => w.cargo.tcp.dstPort < 1024)
  }

  /** What an arrival adds to the log, and why. */
  lemma AlertsOfArrival(lim: Limits, s: State, a: Arrival)
    ensures var floods, scans :=
      Raised(a, SynFlood, SynPart(lim, s.syns, a).1), Raised(a, PortScan, ScanPart(lim, s.scans, a).1);
      && Apply(lim, s, a).log == s.log + (if a.request.Nothing? then [] else floods + scans)
      && (SynPart(lim, s.syns, a).1 ==> a.request.Request? && a.request.pureSyn)
      && (ScanPart(lim, s.scans, a).1 ==>
            a.request.Request? && a.request.synPort.Some? && a.request.synPort.value < 1024)
  {
    hide CountSyn, AddPort, TrackScan, CountFlow, Raised;
  }

  /** One frame adds at most a flood alert and then a scan alert to the log. */
  lemma AlertsOfFrame(lim: Limits, s: State, w: Wire)
    requires Formed(w)
    ensures var before, after := s.log, Step(lim, s, OnWire(w)).log;
      && before <= after && |after| <= |before| + 2
      && (forall i :: |before| <= i < |after| ==> RaisedBy(s.blacklist, after[i], w))
      && (|after| == |before| + 2 ==> after[|before|].kind == SynFlood && after[|before| + 1].kind == PortScan)
  {
    hide OnWire, Decode, SynPart, ScanPart, Apply, Formed, Bytes, Listed, SynFrom, RaisedBy;
    var a := Decode(s.blacklist, OnWire(w));
    AlertsOfArrival(lim, s, a);
    AlertCarries(s.blacklist, w);
  }

  /** What an alert raised by a frame would carry. */
  lemma AlertCarries(bl: map<IPv4, Byte>, w: Wire)
    requires Formed(w)
    ensures var a := Decode(bl, OnWire(w));
      && (a.request.Request? && a.request.pureSyn ==>
            RaisedBy(bl, Alert(a.cpu, a.request.src, a.request.dst, SynFlood, a.now), w))
      && (a.request.Request? && a.request.synPort.Some? && a.request.synPort.value < 1024 ==>
            RaisedBy(bl, Alert(a.cpu, a.request.src, a.request.dst, PortScan, a.now), w))
  {
    FirewallOnFrame(bl, w);
    hide OnWire, Decode, Formed, Bytes;
  }

  /** Some frame raised the alert. */
  ghost predicate Named(bl: map<IPv4, Byte>, a: Alert, ws: seq<Wire>) {
    exists i :: 0 <= i < |ws| && RaisedBy(bl, a, ws[i])
  }

  lemma NamedGrows(bl: map<IPv4, Byte>, a: Alert, ws: seq<Wire>)
    requires ws != [] && (Named(bl, a, Init(ws)) || RaisedBy(bl, a, Last(ws)))
    ensures Named(bl, a, ws)
  {
    hide RaisedBy;
    if i :| 0 <= i < |Init(ws)| && RaisedBy(bl, a, Init(ws)[i]) {
      assert RaisedBy(bl, a, ws[i]);
    } else {
      assert RaisedBy(bl, a, ws[|ws| - 1]);
    }
  }

  lemma OnWiresInit(ws: seq<Wire>)
    requires AllFormed(ws) && ws != []
    ensures AllFormed(Init(ws)) && Formed(Last(ws)) && OnWires(ws) != []
    ensures Init(OnWires(ws)) == OnWires(Init(ws)) && Last(OnWires(ws)) == OnWire(Last(ws))
  {
    hide Formed, OnWire;
  }

  lemma {:induction false} AlertsNameFrames(lim: Limits, bl: map<IPv4, Byte>, ws: seq<Wire>)
    requires AllFormed(ws)
    ensures forall a :: a in RunPackets(lim, Boot(bl), OnWires(ws)).log ==> Named(bl, a, ws)
  {
    hide Step, RaisedBy, Named, OnWires, AllFormed, Formed, OnWire;
    if ws == [] {
      NoWires();
    } else {
      OnWiresInit(ws);
      var before := RunPackets(lim, Boot(bl), OnWires(Init(ws)));
      PacketsDecode(lim, Boot(bl), OnWires(Init(ws)));
      AlertsNameFrames(lim, bl, Init(ws));
      AlertsOfFrame(lim, before, Last(ws));
      var after := RunPackets(lim, Boot(bl), OnWires(ws)).log;
      forall a | a in after ensures Named(bl, a, ws) {
        var k :| 0 <= k < |after| && after[k] == a;
        assert k < |before.log| ==> before.log[k] == a;
        NamedGrows(bl, a, ws);
      }
    }
  }

  lemma NoWires()
    ensures OnWires([]) == []
  {
  }

  /** The detector's promise, on the frames themselves: from start-up, for any frames and any source. A tracked source
    gets a flood alert for every 101 segments with SYN and not ACK but at most 100 on each CPU, and a scan alert for
    every 21 different ports below 1024 its SYNs went to but at most 20; one that is not tracked gets none. No map
    outgrows 100000 sources, and a source that is counted is counted for every frame. */
  lemma DetectorOnFrames(cpus: nat, bl: map<IPv4, Byte>, ws: seq<Wire>, src: IPv4)
    requires AllFormed(ws) && forall i :: 0 <= i < |ws| ==> ws[i].cpu < cpus
    ensures var end := RunPackets(SourceLimits(cpus), Boot(bl), OnWires(ws));
      var floods, scans := AlertsAbout(end.log, src, SynFlood), AlertsAbout(end.log, src, PortScan);
      && 101 * floods <= PureSynsFrom(bl, ws, src)
      && (src in end.syns ==> PureSynsFrom(bl, ws, src) <= 101 * floods + 100 * cpus)
      && (src !in end.syns ==> floods == 0)
      && 21 * scans <= LowSynsFrom(bl, ws, src)
      && (src in end.scans ==> |LowPortsFrom(bl, ws, src)| <= 21 * scans + 20)
      && (src !in end.scans ==> scans == 0)
      && |end.flows.Keys| <= 100000 && |end.syns.Keys| <= 100000 && |end.scans.Keys| <= 100000
      && (src in end.flows ==>
            && end.flows[src].pkts == FramesFrom(bl, ws, src) % 0x1_0000_0000_0000_0000
            && end.flows[src].bytes == BytesFrom(bl, ws, src) % 0x1_0000_0000_0000_0000)
  {
    hide RunPackets, OnWires, AlertsAbout, PureSynsFrom, LowSynsFrom, LowPortsFrom, FramesFrom, BytesFrom, RaisedBy, Formed,
      Run, SynBelow, FloodBelow, ScanAlerts, LowSynCount, LowPorts, PacketCount, ByteCount;
    var lim, tr := SourceLimits(cpus), DecodeAll(bl, OnWires(ws));
    var end := RunPackets(lim, Boot(bl), OnWires(ws));
    forall i | 0 <= i < |ws| ensures OnWires(ws)[i].cpu < cpus {
      CpuKept(ws, i);
    }
    DetectorGuarantees(cpus, bl, OnWires(ws), src);
    CountsAreFrames(bl, ws, src);
    PureSynsAreFrames(bl, ws, src, cpus);
    AlertCpus(lim, bl, ws, cpus);
    FloodsAreAlerts(end.log, src, cpus);
    ScansAreAlerts(end.log, src);
    PacketsDecode(lim, Boot(bl), OnWires(ws));
    if src in end.flows {
      FlowExact(lim, Boot(bl), tr, src);
    }
  }

  lemma CpuKept(ws: seq<Wire>, i: nat)
    requires AllFormed(ws) && i < |ws|
    ensures OnWires(ws)[i].cpu == ws[i].cpu
  {
    hide Bytes, Formed;
  }

  lemma AlertCpus(lim: Limits, bl: map<IPv4, Byte>, ws: seq<Wire>, cpus: nat)
    requires AllFormed(ws) && forall i :: 0 <= i < |ws| ==> ws[i].cpu < cpus
    ensures forall a :: a in RunPackets(lim, Boot(bl), OnWires(ws)).log ==> a.cpu < cpus
  {
    hide RunPackets, OnWires, Formed;
    AlertsNameFrames(lim, bl, ws);
    forall a | a in RunPackets(lim, Boot(bl), OnWires(ws)).log ensures a.cpu < cpus {
      assert Named(bl, a, ws);
    }
  }
}
