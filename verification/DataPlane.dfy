/** The XDP program `xdp_firewall`, one packet per step.

  `State` is the abstract state: a port bitmap appears as the set of ports it stands for. `XdpProgram` keeps the
  sixteen words of each bitmap in place and is proved against the abstract step. */
module DataPlane {
  import opened Common
  import opened BpfMap
  import opened PortBitmap

  // ---- packets ----

  /** One frame together with the CPU that handles it and the clock it reads. */
  datatype Packet = Packet(data: seq<Byte>, cpu: nat, now: nat)

  datatype Layer4 = NotTcp | CutShort | Tcp(port: nat, syn: bool, ack: bool)

  datatype Frame = Ignored | Ipv4(src: IPv4, dst: IPv4, layer4: Layer4)

  const ETH_LEN := 14
  const IP_LEN := 20
  const TCP_LEN := 20
  const ETH_P_IP := 0x0800
  const IPPROTO_TCP := 6

  function Be16(d: seq<Byte>, at: nat): (r: nat)
    requires at + 1 < |d|
    ensures r < 0x1_0000
  {
    256 * (d[at] as nat) + d[at + 1] as nat
  }

  function Address(d: seq<Byte>, at: nat): IPv4
    requires at + 3 < |d|
  {
    IPv4(d[at], d[at + 1], d[at + 2], d[at + 3])
  }

  predicate Flag(b: Byte, weight: nat)
    requires weight > 0
  {
    b / weight % 2 == 1
  }

  /** The headers at their fixed offsets: the IP header is taken to be 20 bytes long whatever its IHL says. */
  function Parse(d: seq<Byte>): Frame {
    if |d| < ETH_LEN then Ignored
    else if Be16(d, 12) != ETH_P_IP then Ignored
    else if |d| < ETH_LEN + IP_LEN then Ignored
    else Ipv4(Address(d, 26), Address(d, 30),
              if d[23] != IPPROTO_TCP then NotTcp
              else if |d| < ETH_LEN + IP_LEN + TCP_LEN then CutShort
              else Tcp(Be16(d, 36), Flag(d[47], 2), Flag(d[47], 16)))
  }

  // ---- state ----

  datatype Flow = Flow(pkts: nat, bytes: nat)

  datatype AlertKind = SynFlood | PortScan

  /** One call to bpf_ringbuf_output. The CPU is the one making the call; its result is ignored by the program. */
  datatype Alert = Alert(cpu: nat, src: IPv4, dst: IPv4, kind: AlertKind, timestamp: nat)

  /** `size` is STATS_SIZE, the capacity of each of the three per-source maps. */
  datatype Limits = Limits(size: nat, synThreshold: nat, scanThreshold: nat, cpus: nat)

  function SourceLimits(cpus: nat): Limits {
    Limits(100000, 100, 20, cpus)
  }

  datatype State = State(
    blacklist: map<IPv4, Byte>,
    flows: map<IPv4, Flow>,
    syns: map<IPv4, seq<nat>>,
    scans: map<IPv4, set<nat>>,
    log: seq<Alert>)

  datatype Verdict = Pass | Drop

  predicate Blocked(blacklist: map<IPv4, Byte>, src: IPv4) {
    src in blacklist && blacklist[src] == 1
  }

  /** What a packet asks of the maps: nothing, or a flow update for `src`, with a SYN count if `pureSyn` and a port
    check if it carries SYN. */
  datatype Request = Nothing | Request(src: IPv4, dst: IPv4, pureSyn: bool, synPort: Option<nat>)

  datatype Arrival = Arrival(request: Request, cpu: nat, now: nat, size: nat)

  function RequestOf(blacklist: map<IPv4, Byte>, f: Frame): Request {
    if f.Ignored? || Blocked(blacklist, f.src) || f.layer4.CutShort? then Nothing
    else if f.layer4.Tcp? then
      Request(f.src, f.dst, f.layer4.syn && !f.layer4.ack, if f.layer4.syn then Some(f.layer4.port) else None)
    else Request(f.src, f.dst, false, None)
  }

  function Decode(blacklist: map<IPv4, Byte>, p: Packet): Arrival {
    Arrival(RequestOf(blacklist, Parse(p.data)), p.cpu, p.now, |p.data|)
  }

  function VerdictOf(blacklist: map<IPv4, Byte>, p: Packet): Verdict {
    var f := Parse(p.data);
    if f.Ipv4? && Blocked(blacklist, f.src) then Drop else Pass
  }

  // ---- the abstract step ----

  function CountFlow(lim: Limits, flows: map<IPv4, Flow>, src: IPv4, size: nat): map<IPv4, Flow> {
    if src in flows then flows[src := Flow((flows[src].pkts + 1) % U64, (flows[src].bytes + size) % U64)]
    else Update(flows, lim.size, src, Flow(1, size % U64))
  }

  /** A new per-CPU value: the inserting CPU's slot holds 1, the others start at zero. */
  function NewRow(cpus: nat, cpu: nat): (r: seq<nat>)
    ensures |r| == cpus
  {
    seq(cpus, c => if c == cpu then 1 else 0)
  }

  function SetSlot(row: seq<nat>, slot: nat, count: nat): seq<nat> {
    if slot < |row| then row[slot := count] else row
  }

  function Slot(row: seq<nat>, slot: nat): nat {
    if slot < |row| then row[slot] else 0
  }

  /** The new SYN counters, and whether the flood alert is raised. */
  function CountSyn(lim: Limits, syns: map<IPv4, seq<nat>>, cpu: nat, src: IPv4): (map<IPv4, seq<nat>>, bool) {
    if src in syns then
      var count := (Slot(syns[src], cpu) + 1) % U64;
      var flood := count > lim.synThreshold;
      (syns[src := SetSlot(syns[src], cpu, if flood then 0 else count)], flood)
    else
      (Update(syns, lim.size, src, NewRow(lim.cpus, cpu)), false)
  }

  /** A missing bitmap is inserted empty, room permitting. */
  function TrackScan(lim: Limits, scans: map<IPv4, set<nat>>, src: IPv4): map<IPv4, set<nat>> {
    if src in scans then scans else Update(scans, lim.size, src, {})
  }

  /** The new port sets, and whether the scan alert is raised. */
  function NotePort(lim: Limits, scans: map<IPv4, set<nat>>, src: IPv4, port: nat): (map<IPv4, set<nat>>, bool) {
    var tracked := TrackScan(lim, scans, src);
    if src !in tracked || port >= PORT_LIMIT then (tracked, false)
    else AddPort(lim, tracked, src, port)
  }

  function AddPort(lim: Limits, scans: map<IPv4, set<nat>>, src: IPv4, port: nat): (map<IPv4, set<nat>>, bool)
    requires src in scans
  {
    var seen := scans[src] + {port};
    var scan := |seen| > lim.scanThreshold;
    (scans[src := if scan then {} else seen], scan)
  }

  function SynPart(lim: Limits, syns: map<IPv4, seq<nat>>, a: Arrival): (map<IPv4, seq<nat>>, bool) {
    if a.request.Request? && a.request.pureSyn then CountSyn(lim, syns, a.cpu, a.request.src) else (syns, false)
  }

  function ScanPart(lim: Limits, scans: map<IPv4, set<nat>>, a: Arrival): (map<IPv4, set<nat>>, bool) {
    if a.request.Request? && a.request.synPort.Some?
    then NotePort(lim, scans, a.request.src, a.request.synPort.value) else (scans, false)
  }

  /** The alert of one kind an arrival raises, if any. */
  function Raised(a: Arrival, kind: AlertKind, raised: bool): seq<Alert> {
    if raised && a.request.Request? then [Alert(a.cpu, a.request.src, a.request.dst, kind, a.now)] else []
  }

  function Apply(lim: Limits, s: State, a: Arrival): State {
    if a.request.Nothing? then s
    else
      var (syns, flood) := SynPart(lim, s.syns, a);
      var (scans, scan) := ScanPart(lim, s.scans, a);
      State(s.blacklist, CountFlow(lim, s.flows, a.request.src, a.size), syns, scans,
            s.log + Raised(a, SynFlood, flood) + Raised(a, PortScan, scan))
  }

  function Step(lim: Limits, s: State, p: Packet): State {
    Apply(lim, s, Decode(s.blacklist, p))
  }

  // ---- the program itself ----

  class XdpProgram {
    const lim: Limits
    var blacklist: map<IPv4, Byte>
    var flows: map<IPv4, Flow>
    var syns: map<IPv4, seq<nat>>
    var scans: map<IPv4, array<bv64>>
    var log: seq<Alert>

    ghost predicate ScansOk()
      reads `scans
    {
      && (forall ip :: ip in scans ==> scans[ip].Length == WORDS)
      && (forall a, b :: a in scans && b in scans && scans[a] == scans[b] ==> a == b)
    }

    ghost predicate Valid()
      reads `scans, `syns
    {
      ScansOk() && forall ip :: ip in syns ==> |syns[ip]| == lim.cpus
    }

    ghost function PortSets(): map<IPv4, set<nat>>
      requires ScansOk()
      reads `scans, scans.Values
    {
      map ip | ip in scans :: Ports(scans[ip][..])
    }

    ghost function View(): State
      requires Valid()
      reads this, scans.Values
    {
      State(blacklist, flows, syns, PortSets(), log)
    }

    constructor (lim: Limits, blacklist: map<IPv4, Byte>)
      ensures Valid() && this.lim == lim
      ensures View() == State(blacklist, map[], map[], map[], [])
    {
      this.lim := lim;
      this.blacklist := blacklist;
      flows, syns, scans, log := map[], map[], map[], [];
    }

    method UpdateFlowStats(src: IPv4, size: nat)
      modifies `flows
      ensures flows == CountFlow(lim, old(flows), src, size)
    {
      if src in flows {
        var stats := flows[src];
        flows := flows[src := Flow((stats.pkts + 1) % U64, (stats.bytes + size) % U64)];
      } else {
        flows := Update(flows, lim.size, src, Flow(1, size % U64));
      }
    }

    method CheckSynFlood(p: Packet, src: IPv4, dst: IPv4)
      requires Valid() && p.cpu < lim.cpus
      modifies `syns, `log
      ensures Valid()
      ensures var (after, flood) := CountSyn(lim, old(syns), p.cpu, src);
        && syns == after
        && log == old(log) + if flood then [Alert(p.cpu, src, dst, SynFlood, p.now)] else []
    {
      if src in syns {
        ghost var before := syns[src];
        var count := (syns[src][p.cpu] + 1) % U64;
        syns := syns[src := SetSlot(syns[src], p.cpu, count)];
        if count > lim.synThreshold {
          log := log + [Alert(p.cpu, src, dst, SynFlood, p.now)];
          syns := syns[src := SetSlot(syns[src], p.cpu, 0)];
          assert syns[src] == SetSlot(before, p.cpu, 0);
        }
      } else {
        syns := Update(syns, lim.size, src, NewRow(lim.cpus, p.cpu));
      }
    }

    lemma PortSetsSize()
      requires ScansOk()
      ensures PortSets().Keys == scans.Keys && |PortSets()| == |scans|
    {
      assert PortSets().Keys == scans.Keys;
      assert |PortSets()| == |PortSets().Keys| && |scans| == |scans.Keys|;
    }

    /** Looks the bitmap up, inserting a zeroed one when it is missing; null when the map is full. */
    method LookupBitmap(src: IPv4) returns (bitmap: array?<bv64>)
      requires Valid()
      modifies `scans
      ensures Valid() && fresh(scans.Values - old(scans.Values))
      ensures PortSets() == TrackScan(lim, old(PortSets()), src)
      ensures bitmap != null <==> src in scans
      ensures bitmap != null ==> scans[src] == bitmap
    {
      if src in scans {
        return scans[src];
      }
      ghost var before := PortSets();
      PortSetsSize();
      if |scans| < lim.size {
        bitmap := ZeroedBitmap();
        scans := scans[src := bitmap];
        assert PortSets() == before[src := {}];
      } else {
        bitmap := null;
      }
    }

    /** Changing the words of one source's bitmap changes that source's set only. */
    twostate lemma OneBitmapChanged(src: IPv4)
      requires old(ScansOk()) && ScansOk() && scans == old(scans) && src in scans
      requires forall ip :: ip in scans && ip != src ==> scans[ip][..] == old(scans[ip][..])
      ensures PortSets() == old(PortSets())[src := Ports(scans[src][..])]
    {
    }

    /** Marks a low port in the bitmap of a source, raising an alert and clearing it past the threshold. */
    method MarkAndTest(bitmap: array<bv64>, p: Packet, src: IPv4, dst: IPv4, port: nat)
      requires Valid() && src in scans && scans[src] == bitmap && port < PORT_LIMIT
      modifies `log, bitmap
      ensures Valid()
      ensures var (after, scan) := AddPort(lim, old(PortSets()), src, port);
        && PortSets() == after
        && log == old(log) + if scan then [Alert(p.cpu, src, dst, PortScan, p.now)] else []
    {
      Mark(bitmap, port);
      var total := CountPorts(bitmap);
      if total > lim.scanThreshold {
        log := log + [Alert(p.cpu, src, dst, PortScan, p.now)];
        Clear(bitmap);
      }
      OneBitmapChanged(src);
    }

    method CheckPortScan(p: Packet, src: IPv4, dst: IPv4, port: nat)
      requires Valid()
      modifies `scans, `log, scans.Values
      ensures Valid() && fresh(scans.Values - old(scans.Values))
      ensures var (after, scan) := NotePort(lim, old(PortSets()), src, port);
        && PortSets() == after
        && log == old(log) + if scan then [Alert(p.cpu, src, dst, PortScan, p.now)] else []
    {
      var bitmap := LookupBitmap(src);
      if bitmap == null || port >= PORT_LIMIT {
        return;
      }
      MarkAndTest(bitmap, p, src, dst, port);
    }

    /** `if (tcp->syn && !tcp->ack) check_syn_flood(...)` */
    method DetectFlood(p: Packet, a: Arrival)
      requires Valid() && p.cpu < lim.cpus && a.request.Request? && a.cpu == p.cpu && a.now == p.now
      modifies `syns, `log
      ensures Valid()
      ensures var (after, flood) := SynPart(lim, old(syns), a);
        syns == after && log == old(log) + Raised(a, SynFlood, flood)
    {
      if a.request.pureSyn {
        CheckSynFlood(p, a.request.src, a.request.dst);
      }
    }

    /** `if (tcp->syn) check_port_scan(...)` */
    method DetectScan(p: Packet, a: Arrival)
      requires Valid() && a.request.Request? && a.cpu == p.cpu && a.now == p.now
      modifies `scans, `log, scans.Values
      ensures Valid() && fresh(scans.Values - old(scans.Values))
      ensures var (after, scan) := ScanPart(lim, old(PortSets()), a);
        PortSets() == after && log == old(log) + Raised(a, PortScan, scan)
    {
      if a.request.synPort.Some? {
        CheckPortScan(p, a.request.src, a.request.dst, a.request.synPort.value);
      }
    }

    /** The part of the program behind the header checks. */
    method Account(p: Packet, a: Arrival)
      requires Valid() && p.cpu < lim.cpus
      requires a.request.Request? && a.cpu == p.cpu && a.now == p.now && a.size == |p.data|
      modifies `flows, `syns, `scans, `log, scans.Values
      ensures Valid() && fresh(scans.Values - old(scans.Values))
      ensures View() == Apply(lim, old(View()), a)
    {
      hide PortSets, SynPart, ScanPart, CountFlow, Raised, ScansOk;
      DetectFlood(p, a);
      DetectScan(p, a);
      UpdateFlowStats(a.request.src, |p.data|);
    }

    /** One packet, against the abstract step. */
    method Firewall(p: Packet) returns (verdict: Verdict)
      requires Valid() && p.cpu < lim.cpus
      modifies this, scans.Values
      ensures Valid() && fresh(scans.Values - old(scans.Values))
      ensures View() == Step(lim, old(View()), p) && verdict == VerdictOf(old(blacklist), p)
    {
      var d := p.data;
      if |d| < ETH_LEN {
        return Pass;
      }
      if Be16(d, 12) != ETH_P_IP {
        return Pass;
      }
      if |d| < ETH_LEN + IP_LEN {
        return Pass;
      }
      var src, dst := Address(d, 26), Address(d, 30);
      if src in blacklist && blacklist[src] == 1 {
        return Drop;
      }
      if d[23] == IPPROTO_TCP {
        if |d| < ETH_LEN + IP_LEN + TCP_LEN {
          return Pass;
        }
        var port, syn, ack := Be16(d, 36), Flag(d[47], 2), Flag(d[47], 16);
        Account(p, Arrival(Request(src, dst, syn && !ack, if syn then Some(port) else None), p.cpu, p.now, |d|));
      } else {
        Account(p, Arrival(Request(src, dst, false, None), p.cpu, p.now, |d|));
      }
      return Pass;
    }
  }
}
