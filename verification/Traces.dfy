/** What whole traces do to the detector: which sources its maps admit, closed forms for its counters, when its two
  alerts fire, and independence of the sources.

  A trace is a sequence of decoded arrivals; `PacketsDecode` carries every result over to raw packets, since no
  packet changes the blacklist that decoding looks at. */
module Traces {
  import opened Common
  import opened BpfMap
  import opened PortBitmap
  import opened DataPlane
  import opened Arith

  function Run(lim: Limits, s: State, tr: seq<Arrival>): State {
    if tr == [] then s else Apply(lim, Run(lim, s, Init(tr)), Last(tr))
  }

  function RunPackets(lim: Limits, s: State, packets: seq<Packet>): State {
    if packets == [] then s else Step(lim, RunPackets(lim, s, Init(packets)), Last(packets))
  }

  function DecodeAll(blacklist: map<IPv4, Byte>, packets: seq<Packet>): (tr: seq<Arrival>)
    ensures |tr| == |packets|
  {
    seq(|packets|, i requires 0 <= i < |packets| => Decode(blacklist, packets[i]))
  }

  lemma {:induction false} PacketsDecode(lim: Limits, s: State, packets: seq<Packet>)
    ensures RunPackets(lim, s, packets) == Run(lim, s, DecodeAll(s.blacklist, packets))
    ensures RunPackets(lim, s, packets).blacklist == s.blacklist
  {
    if packets != [] {
      PacketsDecode(lim, s, Init(packets));
      assert Init(DecodeAll(s.blacklist, packets)) == DecodeAll(s.blacklist, Init(packets));
    }
  }

  /** A packet dropped by the blacklist changes nothing at all. */
  lemma DroppedChangesNothing(lim: Limits, s: State, p: Packet)
    ensures VerdictOf(s.blacklist, p) == Drop ==> Step(lim, s, p) == s
  {
  }

  // ---- what an arrival contributes to ----

  predicate Counted(a: Arrival, src: IPv4) {
    a.request.Request? && a.request.src == src
  }

  predicate PureSyn(a: Arrival, src: IPv4) {
    Counted(a, src) && a.request.pureSyn
  }

  predicate AnySyn(a: Arrival, src: IPv4) {
    Counted(a, src) && a.request.synPort.Some?
  }

  predicate LowSyn(a: Arrival, src: IPv4) {
    AnySyn(a, src) && a.request.synPort.value < PORT_LIMIT
  }

  // ---- which sources the three maps hold ----

  datatype Table = FlowTable | SynTable | ScanTable

  /** The arrival calls for an entry of src in table t. */
  predicate Touches(t: Table, a: Arrival, src: IPv4) {
    match t
    case FlowTable => Counted(a, src)
    case SynTable => PureSyn(a, src)
    case ScanTable => AnySyn(a, src)
  }

  function Keys(t: Table, s: State): set<IPv4> {
    match t
    case FlowTable => s.flows.Keys
    case SynTable => s.syns.Keys
    case ScanTable => s.scans.Keys
  }

  /** The sources for which the trace calls for an entry in t, in order. */
  function Touched(t: Table, tr: seq<Arrival>): seq<IPv4> {
    if tr == [] then []
    else if Last(tr).request.Request? && Touches(t, Last(tr), Last(tr).request.src)
    then Touched(t, Init(tr)) + [Last(tr).request.src]
    else Touched(t, Init(tr))
  }

  lemma FlowKeysStep(lim: Limits, flows: map<IPv4, Flow>, src: IPv4, size: nat)
    ensures CountFlow(lim, flows, src, size).Keys == Touch(flows.Keys, lim.size, src)
  {
    UpdateKeys(flows, lim.size, src, Flow(1, size % U64));
  }

  lemma SynKeysStep(lim: Limits, syns: map<IPv4, seq<nat>>, cpu: nat, src: IPv4)
    ensures CountSyn(lim, syns, cpu, src).0.Keys == Touch(syns.Keys, lim.size, src)
  {
    UpdateKeys(syns, lim.size, src, NewRow(lim.cpus, cpu));
  }

  lemma ScanKeysStep(lim: Limits, scans: map<IPv4, set<nat>>, src: IPv4, port: nat)
    ensures NotePort(lim, scans, src, port).0.Keys == Touch(scans.Keys, lim.size, src)
  {
    UpdateKeys(scans, lim.size, src, {});
    assert TrackScan(lim, scans, src).Keys == Touch(scans.Keys, lim.size, src);
  }

  lemma StepKeys(lim: Limits, s: State, a: Arrival, t: Table)
    ensures Keys(t, Apply(lim, s, a)) ==
      if a.request.Request? && Touches(t, a, a.request.src) then Touch(Keys(t, s), lim.size, a.request.src) else Keys(t, s)
  {
    if a.request.Request? {
      match t
      case FlowTable => FlowKeysStep(lim, s.flows, a.request.src, a.size);
      case SynTable => SynKeysStep(lim, s.syns, a.cpu, a.request.src);
      case ScanTable =>
        if a.request.synPort.Some? {
          ScanKeysStep(lim, s.scans, a.request.src, a.request.synPort.value);
        }
    }
  }

  lemma {:induction false} RunKeys(lim: Limits, s: State, tr: seq<Arrival>, t: Table)
    ensures Keys(t, Run(lim, s, tr)) == Admit(Keys(t, s), lim.size, Touched(t, tr))
  {
    if tr != [] {
      RunKeys(lim, s, Init(tr), t);
      StepKeys(lim, Run(lim, s, Init(tr)), Last(tr), t);
    }
  }

  /** A source enters a map on the first packet that calls for its entry, or never. */
  lemma AdmittedAtFirst(lim: Limits, s: State, tr: seq<Arrival>, t: Table, src: IPv4)
    requires tr != []
    requires src in Keys(t, Run(lim, s, tr)) && src !in Keys(t, Run(lim, s, Init(tr)))
    ensures src !in Touched(t, Init(tr)) && Touches(t, Last(tr), src)
  {
    RunKeys(lim, s, Init(tr), t);
    StepKeys(lim, Run(lim, s, Init(tr)), Last(tr), t);
    if src in Touched(t, Init(tr)) {
      AdmittedOnFirstTouch(Keys(t, s), lim.size, Touched(t, Init(tr)), src);
    }
  }

  /** The key set only grows, never exceeds the capacity, and freezes when full. */
  lemma {:induction false} KeysBounded(lim: Limits, s: State, tr: seq<Arrival>, t: Table)
    ensures Keys(t, s) <= Keys(t, Run(lim, s, tr))
    ensures |Keys(t, s)| <= lim.size ==> |Keys(t, Run(lim, s, tr))| <= lim.size
    ensures |Keys(t, s)| >= lim.size ==> Keys(t, Run(lim, s, tr)) == Keys(t, s)
  {
    RunKeys(lim, s, tr, t);
    AdmitGrows(Keys(t, s), lim.size, Touched(t, tr));
  }

  lemma {:induction false} RunAppend(lim: Limits, s: State, tr: seq<Arrival>, more: seq<Arrival>)
    ensures Run(lim, s, tr + more) == Run(lim, Run(lim, s, tr), more)
  {
    if more == [] {
      assert tr + more == tr;
    } else {
      RunAppend(lim, s, tr, Init(more));
      assert Init(tr + more) == tr + Init(more);
    }
  }

  /** A source turned away once by a full map has no entry after any continuation of the trace. */
  lemma TurnedAwayForGood(lim: Limits, s: State, tr: seq<Arrival>, more: seq<Arrival>, t: Table, src: IPv4)
    requires src in Touched(t, tr) && src !in Keys(t, Run(lim, s, tr))
    ensures src !in Keys(t, Run(lim, s, tr + more))
  {
    RunKeys(lim, s, tr, t);
    AdmittedOnFirstTouch(Keys(t, s), lim.size, Touched(t, tr), src);
    KeysBounded(lim, Run(lim, s, tr), more, t);
    RunAppend(lim, s, tr, more);
  }

  // ---- flow totals: exact from the first countable packet, or never ----

  function PacketCount(tr: seq<Arrival>, src: IPv4): nat {
    if tr == [] then 0 else PacketCount(Init(tr), src) + (if Counted(Last(tr), src) then 1 else 0)
  }

  function ByteCount(tr: seq<Arrival>, src: IPv4): nat {
    if tr == [] then 0 else ByteCount(Init(tr), src) + (if Counted(Last(tr), src) then Last(tr).size else 0)
  }

  lemma {:induction false} UntouchedCounts(tr: seq<Arrival>, src: IPv4)
    requires src !in Touched(FlowTable, tr)
    ensures PacketCount(tr, src) == 0 && ByteCount(tr, src) == 0
  {
    if tr != [] {
      UntouchedCounts(Init(tr), src);
    }
  }

  function FlowOf(s: State, src: IPv4): Flow {
    if src in s.flows then s.flows[src] else Flow(0, 0)
  }

  lemma FlowStep(lim: Limits, s: State, a: Arrival, src: IPv4)
    requires src in Apply(lim, s, a).flows
    ensures var before, after := FlowOf(s, src), Apply(lim, s, a).flows[src];
      if Counted(a, src) then after == Flow((before.pkts + 1) % U64, (before.bytes + a.size) % U64)
      else after == before && src in s.flows
  {
  }

  /** A source that made it into flow_stats is counted exactly (modulo 2^64) from its first countable packet; one
    that did not has no entry at all. */
  lemma {:induction false} FlowExact(lim: Limits, s: State, tr: seq<Arrival>, src: IPv4)
    requires FlowOf(s, src).pkts < U64 && FlowOf(s, src).bytes < U64
    requires src in Run(lim, s, tr).flows
    ensures Run(lim, s, tr).flows[src] ==
      Flow((FlowOf(s, src).pkts + PacketCount(tr, src)) % U64, (FlowOf(s, src).bytes + ByteCount(tr, src)) % U64)
  {
    hide Apply, Touched;
    if tr != [] {
      var before := Run(lim, s, Init(tr));
      FlowStep(lim, before, Last(tr), src);
      if src in before.flows {
        FlowExact(lim, s, Init(tr), src);
        AddWraps(FlowOf(s, src).pkts + PacketCount(Init(tr), src), 1);
        AddWraps(FlowOf(s, src).bytes + ByteCount(Init(tr), src), Last(tr).size);
      } else {
        AdmittedAtFirst(lim, s, tr, FlowTable, src);
        UntouchedCounts(Init(tr), src);
        KeysBounded(lim, s, Init(tr), FlowTable);
      }
    }
  }

  // ---- SYN flood: closed form per CPU, bounds over all CPUs ----

  function SynCount(tr: seq<Arrival>, src: IPv4, cpu: nat): nat {
    if tr == [] then 0
    else SynCount(Init(tr), src, cpu) + (if PureSyn(Last(tr), src) && Last(tr).cpu == cpu then 1 else 0)
  }

  predicate IsFlood(x: Alert, src: IPv4, cpu: nat) {
    x.kind == SynFlood && x.src == src && x.cpu == cpu
  }

  function FloodAlerts(log: seq<Alert>, src: IPv4, cpu: nat): nat {
    if log == [] then 0 else FloodAlerts(Init(log), src, cpu) + (if IsFlood(Last(log), src, cpu) then 1 else 0)
  }

  lemma {:induction false} FloodAlertsAppend(log: seq<Alert>, more: seq<Alert>, src: IPv4, cpu: nat)
    ensures FloodAlerts(log + more, src, cpu) == FloodAlerts(log, src, cpu) + FloodAlerts(more, src, cpu)
  {
    if more == [] {
      assert log + more == log;
    } else {
      FloodAlertsAppend(log, Init(more), src, cpu);
      assert Init(log + more) == log + Init(more);
    }
  }

  lemma {:induction false} UntouchedSyns(tr: seq<Arrival>, src: IPv4, cpu: nat)
    requires src !in Touched(SynTable, tr)
    ensures SynCount(tr, src, cpu) == 0
  {
    if tr != [] {
      UntouchedSyns(Init(tr), src, cpu);
    }
  }

  /** Every per-CPU row has one slot per CPU, none above the threshold. */
  ghost predicate SynRowsOk(lim: Limits, syns: map<IPv4, seq<nat>>) {
    forall src :: src in syns ==>
      |syns[src]| == lim.cpus && forall c :: 0 <= c < lim.cpus ==> syns[src][c] <= lim.synThreshold
  }

  /** Thresholds as the program has them: at least one, and far from the width of the counter. */
  ghost predicate Sensible(lim: Limits) {
    1 <= lim.synThreshold < U64 - 1
  }

  function SynSlot(syns: map<IPv4, seq<nat>>, src: IPv4, cpu: nat): nat {
    if src in syns then Slot(syns[src], cpu) else 0
  }

  lemma {:induction false} RunSynRowsOk(lim: Limits, s: State, tr: seq<Arrival>)
    requires Sensible(lim) && SynRowsOk(lim, s.syns)
    ensures SynRowsOk(lim, Run(lim, s, tr).syns)
  {
    if tr != [] {
      RunSynRowsOk(lim, s, Init(tr));
    }
  }

  /** One arrival's effect on one slot. */
  lemma SynPartStep(lim: Limits, syns: map<IPv4, seq<nat>>, a: Arrival, src: IPv4, cpu: nat)
    requires Sensible(lim) && SynRowsOk(lim, syns) && a.cpu < lim.cpus && cpu < lim.cpus
    requires src in SynPart(lim, syns, a).0
    ensures var (after, flood) := SynPart(lim, syns, a);
      var count := SynSlot(syns, src, cpu) + 1;
      if PureSyn(a, src) && a.cpu == cpu
      then flood == (count > lim.synThreshold) && SynSlot(after, src, cpu) == (if flood then 0 else count)
      else SynSlot(after, src, cpu) == SynSlot(syns, src, cpu)
    ensures !PureSyn(a, src) ==> src in syns
  {
  }

  lemma FloodLogStep(lim: Limits, s: State, a: Arrival, src: IPv4, cpu: nat)
    ensures FloodAlerts(Apply(lim, s, a).log, src, cpu) == FloodAlerts(s.log, src, cpu) +
      (if PureSyn(a, src) && a.cpu == cpu && SynPart(lim, s.syns, a).1 then 1 else 0)
  {
    if a.request.Request? {
      var flood := Raised(a, SynFlood, SynPart(lim, s.syns, a).1);
      var scan := Raised(a, PortScan, ScanPart(lim, s.scans, a).1);
      FloodAlertsAppend(s.log + flood, scan, src, cpu);
      FloodAlertsAppend(s.log, flood, src, cpu);
    }
  }

  /** `alerts` times m, by repeated addition. */
  function Spent(m: nat, alerts: nat): nat {
    if alerts == 0 then 0 else Spent(m, alerts - 1) + m
  }

  lemma {:induction false} SpentIsProduct(m: nat, alerts: nat)
    ensures Spent(m, alerts) == alerts * m
  {
    if alerts > 0 {
      SpentIsProduct(m, alerts - 1);
    }
  }

  /** A slot that started at `start` with `base` alerts raised has seen n events: each alert since then used up m of
    them and the slot holds the rest. */
  ghost predicate Balanced(m: nat, start: nat, base: nat, n: nat, alerts: nat, slot: nat) {
    start + n + Spent(m, base) == Spent(m, alerts) + slot
  }

  /** A slot counting up to m - 1 and falling back to 0 with an alert, or left alone. */
  ghost predicate SlotMoves(m: nat, hit: bool, slot: nat, slot': nat, alerts: nat, alerts': nat) {
    if !hit then slot' == slot && alerts' == alerts
    else if slot + 1 < m then slot' == slot + 1 && alerts' == alerts
    else slot + 1 == m && slot' == 0 && alerts' == alerts + 1
  }

  lemma SynSlotMoves(lim: Limits, s: State, a: Arrival, src: IPv4, cpu: nat)
    requires Sensible(lim) && SynRowsOk(lim, s.syns) && a.cpu < lim.cpus && cpu < lim.cpus
    requires src in Apply(lim, s, a).syns
    ensures SlotMoves(lim.synThreshold + 1, PureSyn(a, src) && a.cpu == cpu,
                      SynSlot(s.syns, src, cpu), SynSlot(Apply(lim, s, a).syns, src, cpu),
                      FloodAlerts(s.log, src, cpu), FloodAlerts(Apply(lim, s, a).log, src, cpu))
  {
    if a.request.Request? {
      SynPartStep(lim, s.syns, a, src, cpu);
      FloodLogStep(lim, s, a, src, cpu);
    }
  }

  ghost predicate SynBalanced(lim: Limits, s: State, tr: seq<Arrival>, src: IPv4, cpu: nat) {
    var end := Run(lim, s, tr);
    Balanced(lim.synThreshold + 1, SynSlot(s.syns, src, cpu), FloodAlerts(s.log, src, cpu), SynCount(tr, src, cpu),
             FloodAlerts(end.log, src, cpu), SynSlot(end.syns, src, cpu))
  }

  lemma SynBalancedBeforeEntry(lim: Limits, s: State, tr: seq<Arrival>, src: IPv4, cpu: nat)
    requires src !in Run(lim, s, tr).syns && src !in Touched(SynTable, tr)
    ensures SynBalanced(lim, s, tr, src, cpu)
  {
    UntouchedSyns(tr, src, cpu);
    KeysBounded(lim, s, tr, SynTable);
    UntrackedNoFlood(lim, s, tr, src, cpu);
  }

  lemma {:induction false} SynBalance(lim: Limits, s: State, tr: seq<Arrival>, src: IPv4, cpu: nat)
    requires Sensible(lim) && SynRowsOk(lim, s.syns) && cpu < lim.cpus
    requires forall i :: 0 <= i < |tr| ==> tr[i].cpu < lim.cpus
    requires src in Run(lim, s, tr).syns
    ensures SynBalanced(lim, s, tr, src, cpu)
  {
    hide Apply, Touched;
    if tr != [] {
      var before := Run(lim, s, Init(tr));
      if src in before.syns {
        SynBalance(lim, s, Init(tr), src, cpu);
      } else {
        AdmittedAtFirst(lim, s, tr, SynTable, src);
        SynBalancedBeforeEntry(lim, s, Init(tr), src, cpu);
      }
      RunSynRowsOk(lim, s, Init(tr));
      SynSlotMoves(lim, before, Last(tr), src, cpu);
    }
  }

  /** After n events in all, alerts went up by n / m and the slot holds n % m. */
  ghost predicate QuotientAndRest(n: nat, m: nat, base: nat, alerts: nat, slot: nat)
    requires m > 0
  {
    slot == n % m && alerts == base + n / m
  }

  /** The closed form: with n pure SYNs from src on CPU c (the slot's start value included), the stored count is
    n modulo threshold + 1 and the alerts raised from c are the quotient. */
  lemma SynClosedForm(lim: Limits, s: State, tr: seq<Arrival>, src: IPv4, cpu: nat)
    requires Sensible(lim) && SynRowsOk(lim, s.syns) && cpu < lim.cpus
    requires forall i :: 0 <= i < |tr| ==> tr[i].cpu < lim.cpus
    requires src in Run(lim, s, tr).syns
    ensures var end := Run(lim, s, tr);
      QuotientAndRest(SynSlot(s.syns, src, cpu) + SynCount(tr, src, cpu), lim.synThreshold + 1,
                      FloodAlerts(s.log, src, cpu), FloodAlerts(end.log, src, cpu), SynSlot(end.syns, src, cpu))
  {
    hide QuotientAndRest, Run, SynCount, FloodAlerts, Balanced;
    var end, m := Run(lim, s, tr), lim.synThreshold + 1;
    SynBalance(lim, s, tr, src, cpu);
    RunSynRowsOk(lim, s, tr);
    FloodLogGrows(lim, s, tr, src, cpu);
    BalancedDivides(m, SynSlot(s.syns, src, cpu), FloodAlerts(s.log, src, cpu), SynCount(tr, src, cpu),
                    FloodAlerts(end.log, src, cpu), SynSlot(end.syns, src, cpu));
  }

  lemma BalancedDivides(m: nat, start: nat, base: nat, n: nat, alerts: nat, slot: nat)
    requires Balanced(m, start, base, n, alerts, slot) && slot < m && base <= alerts
    ensures QuotientAndRest(start + n, m, base, alerts, slot)
  {
    SpentIsProduct(m, base);
    SpentIsProduct(m, alerts);
    assert (alerts - base) * m + slot == start + n;
    DivModUnique(start + n, m, alerts - base, slot);
  }

  lemma {:induction false} FloodLogGrows(lim: Limits, s: State, tr: seq<Arrival>, src: IPv4, cpu: nat)
    ensures FloodAlerts(Run(lim, s, tr).log, src, cpu) >= FloodAlerts(s.log, src, cpu)
  {
    if tr != [] {
      FloodLogGrows(lim, s, Init(tr), src, cpu);
      FloodLogStep(lim, Run(lim, s, Init(tr)), Last(tr), src, cpu);
    }
  }

  /** A source the map has no entry for raises no flood alert. */
  lemma {:induction false} UntrackedNoFlood(lim: Limits, s: State, tr: seq<Arrival>, src: IPv4, cpu: nat)
    requires src !in Run(lim, s, tr).syns
    ensures FloodAlerts(Run(lim, s, tr).log, src, cpu) == FloodAlerts(s.log, src, cpu)
  {
    if tr != [] {
      var before := Run(lim, s, Init(tr));
      StepKeys(lim, before, Last(tr), SynTable);
      UntrackedNoFlood(lim, s, Init(tr), src, cpu);
      FloodLogStep(lim, before, Last(tr), src, cpu);
    }
  }

  // ---- the flood bounds over all CPUs ----

  function SynBelow(tr: seq<Arrival>, src: IPv4, cpus: nat): nat {
    if cpus == 0 then 0 else SynBelow(tr, src, cpus - 1) + SynCount(tr, src, cpus - 1)
  }

  function FloodBelow(log: seq<Alert>, src: IPv4, cpus: nat): nat {
    if cpus == 0 then 0 else FloodBelow(log, src, cpus - 1) + FloodAlerts(log, src, cpus - 1)
  }

  /** A detector as loaded: the blacklist filled in, everything else empty. */
  function Boot(blacklist: map<IPv4, Byte>): State {
    State(blacklist, map[], map[], map[], [])
  }

  lemma {:induction false} BalancedSum(lim: Limits, bl: map<IPv4, Byte>, tr: seq<Arrival>, src: IPv4, cpus: nat)
    requires Sensible(lim) && cpus <= lim.cpus
    requires forall i :: 0 <= i < |tr| ==> tr[i].cpu < lim.cpus
    requires src in Run(lim, Boot(bl), tr).syns
    ensures var alerts, m := FloodBelow(Run(lim, Boot(bl), tr).log, src, cpus), lim.synThreshold + 1;
      Spent(m, alerts) <= SynBelow(tr, src, cpus) <= Spent(m, alerts) + Spent(lim.synThreshold, cpus)
  {
    hide Run, SynCount, FloodAlerts, PureSyn;
    if cpus > 0 {
      var end, m := Run(lim, Boot(bl), tr), lim.synThreshold + 1;
      assert FloodAlerts([], src, cpus - 1) == 0 by { NoFloodYet(src, cpus - 1); }
      BalancedSum(lim, bl, tr, src, cpus - 1);
      SynBalance(lim, Boot(bl), tr, src, cpus - 1);
      RunSynRowsOk(lim, Boot(bl), tr);
      SpentAdds(m, FloodBelow(end.log, src, cpus - 1), FloodAlerts(end.log, src, cpus - 1));
    }
  }

  lemma NoFloodYet(src: IPv4, cpu: nat)
    ensures FloodAlerts([], src, cpu) == 0
  {
  }

  lemma {:induction false} SpentAdds(m: nat, a: nat, b: nat)
    ensures Spent(m, a + b) == Spent(m, a) + Spent(m, b)
  {
    if b > 0 {
      SpentAdds(m, a, b - 1);
    }
  }

  /** From start-up, with n pure SYNs from src over C CPUs: (T+1)*alerts <= n, and n <= (T+1)*alerts + T*C when the
    source is tracked. An untracked source raises no flood alert. */
  lemma FloodBounds(lim: Limits, bl: map<IPv4, Byte>, tr: seq<Arrival>, src: IPv4)
    requires Sensible(lim)
    requires forall i :: 0 <= i < |tr| ==> tr[i].cpu < lim.cpus
    ensures var end, t := Run(lim, Boot(bl), tr), lim.synThreshold;
      var n, alerts := SynBelow(tr, src, lim.cpus), FloodBelow(end.log, src, lim.cpus);
      && alerts * (t + 1) <= n
      && (src in end.syns ==> n <= alerts * (t + 1) + lim.cpus * t)
      && (src !in end.syns ==> alerts == 0)
  {
    hide *;
    var end, t := Run(lim, Boot(bl), tr), lim.synThreshold;
    if src in end.syns {
      BalancedSum(lim, bl, tr, src, lim.cpus);
      SpentIsProduct(t + 1, FloodBelow(end.log, src, lim.cpus));
      SpentIsProduct(t, lim.cpus);
    } else {
      UntrackedSum(lim, bl, tr, src, lim.cpus);
    }
  }

  lemma {:induction false} UntrackedSum(lim: Limits, bl: map<IPv4, Byte>, tr: seq<Arrival>, src: IPv4, cpus: nat)
    requires src !in Run(lim, Boot(bl), tr).syns
    ensures FloodBelow(Run(lim, Boot(bl), tr).log, src, cpus) == 0
  {
    if cpus > 0 {
      UntrackedSum(lim, bl, tr, src, cpus - 1);
      UntrackedNoFlood(lim, Boot(bl), tr, src, cpus - 1);
    }
  }

  // ---- port scans: the stored set is the history since the last alert ----

  /** Low ports SYN packets of src went to. */
  function LowPorts(tr: seq<Arrival>, src: IPv4): set<nat> {
    if tr == [] then {}
    else LowPorts(Init(tr), src) + (if LowSyn(Last(tr), src) then {Last(tr).request.synPort.value} else {})
  }

  function LowSynCount(tr: seq<Arrival>, src: IPv4): nat {
    if tr == [] then 0 else LowSynCount(Init(tr), src) + (if LowSyn(Last(tr), src) then 1 else 0)
  }

  function ScanAlerts(log: seq<Alert>, src: IPv4): nat {
    if log == [] then 0
    else ScanAlerts(Init(log), src) + (if Last(log).kind == PortScan && Last(log).src == src then 1 else 0)
  }

  lemma {:induction false} ScanAlertsAppend(log: seq<Alert>, more: seq<Alert>, src: IPv4)
    ensures ScanAlerts(log + more, src) == ScanAlerts(log, src) + ScanAlerts(more, src)
  {
    if more == [] {
      assert log + more == log;
    } else {
      ScanAlertsAppend(log, Init(more), src);
      assert Init(log + more) == log + Init(more);
    }
  }

  lemma ScanLogStep(lim: Limits, s: State, a: Arrival, src: IPv4)
    ensures ScanAlerts(Apply(lim, s, a).log, src) ==
      ScanAlerts(s.log, src) + (if AnySyn(a, src) && ScanPart(lim, s.scans, a).1 then 1 else 0)
  {
    if a.request.Request? {
      var flood := Raised(a, SynFlood, SynPart(lim, s.syns, a).1);
      var scan := Raised(a, PortScan, ScanPart(lim, s.scans, a).1);
      ScanAlertsAppend(s.log + flood, scan, src);
      ScanAlertsAppend(s.log, flood, src);
    }
  }

  function PortSet(s: State, src: IPv4): set<nat> {
    if src in s.scans then s.scans[src] else {}
  }

  /** The set one arrival leaves behind, had it not been cleared. */
  function Grown(before: set<nat>, a: Arrival, src: IPv4): set<nat> {
    before + (if LowSyn(a, src) then {a.request.synPort.value} else {})
  }

  /** A set growing with each low port, emptied with an alert when it outgrows the threshold. */
  ghost predicate SetMoves(lim: Limits, grown: set<nat>, after: set<nat>, alerts: nat, alerts': nat) {
    if |grown| > lim.scanThreshold then after == {} && alerts' == alerts + 1 else after == grown && alerts' == alerts
  }

  lemma NotePortStep(lim: Limits, scans: map<IPv4, set<nat>>, other: IPv4, port: nat, src: IPv4)
    requires src in NotePort(lim, scans, other, port).0
    ensures var (after, scan) := NotePort(lim, scans, other, port);
      var before := if src in scans then scans[src] else {};
      var grown := before + {port};
      if other == src && port < PORT_LIMIT
      then scan == (|grown| > lim.scanThreshold) && after[src] == (if scan then {} else grown)
      else after[src] == before && (other == src ==> !scan)
  {
    var tracked := TrackScan(lim, scans, other);
    assert src in tracked && tracked[src] == if src in scans then scans[src] else {};
  }

  lemma ScanPartStep(lim: Limits, scans: map<IPv4, set<nat>>, a: Arrival, src: IPv4)
    requires src in ScanPart(lim, scans, a).0
    ensures var before, after := if src in scans then scans[src] else {}, ScanPart(lim, scans, a).0[src];
      if LowSyn(a, src)
      then var grown := before + {a.request.synPort.value};
        ScanPart(lim, scans, a).1 == (|grown| > lim.scanThreshold)
        && after == (if |grown| > lim.scanThreshold then {} else grown)
      else after == before && !(AnySyn(a, src) && ScanPart(lim, scans, a).1)
  {
    if a.request.Request? && a.request.synPort.Some? {
      NotePortStep(lim, scans, a.request.src, a.request.synPort.value, src);
      hide NotePort;
    }
  }

  /** No stored set is larger than the threshold. */
  ghost predicate ScansOk(lim: Limits, scans: map<IPv4, set<nat>>) {
    forall src :: src in scans ==> |scans[src]| <= lim.scanThreshold
  }

  lemma {:induction false} RunScansOk(lim: Limits, s: State, tr: seq<Arrival>)
    requires ScansOk(lim, s.scans)
    ensures ScansOk(lim, Run(lim, s, tr).scans)
  {
    if tr != [] {
      RunScansOk(lim, s, Init(tr));
      var before := Run(lim, s, Init(tr));
      if Last(tr).request.Request? {
        var after := ScanPart(lim, before.scans, Last(tr)).0;
        forall src | src in after ensures |after[src]| <= lim.scanThreshold {
          ScanPartStep(lim, before.scans, Last(tr), src);
        }
      }
    }
  }

  lemma ScanSetMoves(lim: Limits, s: State, a: Arrival, src: IPv4)
    requires ScansOk(lim, s.scans) && src in Apply(lim, s, a).scans
    ensures SetMoves(lim, Grown(PortSet(s, src), a, src), PortSet(Apply(lim, s, a), src),
                     ScanAlerts(s.log, src), ScanAlerts(Apply(lim, s, a).log, src))
  {
    if a.request.Request? {
      ScanPartStep(lim, s.scans, a, src);
      ScanLogStep(lim, s, a, src);
    }
    assert !LowSyn(a, src) ==> Grown(PortSet(s, src), a, src) == PortSet(s, src);
  }

  lemma UntrackedNoScanStep(lim: Limits, s: State, a: Arrival, src: IPv4)
    requires src !in Apply(lim, s, a).scans
    ensures src !in s.scans && ScanAlerts(Apply(lim, s, a).log, src) == ScanAlerts(s.log, src)
  {
    StepKeys(lim, s, a, ScanTable);
    ScanLogStep(lim, s, a, src);
  }

  lemma {:induction false} UntrackedNoScan(lim: Limits, s: State, tr: seq<Arrival>, src: IPv4)
    requires src !in Run(lim, s, tr).scans
    ensures ScanAlerts(Run(lim, s, tr).log, src) == ScanAlerts(s.log, src)
  {
    if tr != [] {
      UntrackedNoScanStep(lim, Run(lim, s, Init(tr)), Last(tr), src);
      UntrackedNoScan(lim, s, Init(tr), src);
    }
  }

  lemma {:induction false} UntouchedScans(tr: seq<Arrival>, src: IPv4)
    requires src !in Touched(ScanTable, tr)
    ensures LowPorts(tr, src) == {} && LowSynCount(tr, src) == 0
  {
    if tr != [] {
      UntouchedScans(Init(tr), src);
    }
  }

  /** The index just behind the last arrival that raised a scan alert for src; 0 if none did. */
  ghost function LastReset(lim: Limits, s: State, tr: seq<Arrival>, src: IPv4): (r: nat)
    ensures r <= |tr|
  {
    if tr == [] then 0
    else if ScanAlerts(Run(lim, s, tr).log, src) > ScanAlerts(Run(lim, s, Init(tr)).log, src) then |tr|
    else LastReset(lim, s, Init(tr), src)
  }

  /** Low ports of src since index r, on top of the starting set when r is the start of the trace. */
  ghost function Since(s: State, tr: seq<Arrival>, r: nat, src: IPv4): set<nat>
    requires r <= |tr|
  {
    (if r == 0 then PortSet(s, src) else {}) + LowPorts(tr[r..], src)
  }

  lemma SinceStep(s: State, tr: seq<Arrival>, r: nat, src: IPv4)
    requires tr != [] && r < |tr|
    ensures Since(s, tr, r, src) == Grown(Since(s, Init(tr), r, src), Last(tr), src)
  {
    assert Init(tr[r..]) == Init(tr)[r..] && Last(tr[r..]) == Last(tr);
  }

  /** The stored set of a tracked source is exactly the low ports seen since its last scan alert. */
  lemma {:induction false} ScanSetIsHistory(lim: Limits, s: State, tr: seq<Arrival>, src: IPv4)
    requires ScansOk(lim, s.scans) && src in Run(lim, s, tr).scans
    ensures Run(lim, s, tr).scans[src] == Since(s, tr, LastReset(lim, s, tr, src), src)
    decreases |tr|, 2
  {
    hide Apply, SetMoves;
    if tr == [] {
      assert LowPorts(tr[0..], src) == {};
    } else {
      var r := LastReset(lim, s, Init(tr), src);
      ScanFiresExactly(lim, s, tr, src);
      if LastReset(lim, s, tr, src) == |tr| {
        assert tr[|tr|..] == [];
      }
    }
  }

  /** A scan alert fires on exactly the arrivals that bring the low ports since the last alert to threshold + 1. */
  lemma {:induction false} ScanFiresExactly(lim: Limits, s: State, tr: seq<Arrival>, src: IPv4)
    requires ScansOk(lim, s.scans) && tr != [] && src in Run(lim, s, tr).scans
    ensures var grown := Since(s, tr, LastReset(lim, s, Init(tr), src), src);
      && SetMoves(lim, grown, PortSet(Run(lim, s, tr), src),
                  ScanAlerts(Run(lim, s, Init(tr)).log, src), ScanAlerts(Run(lim, s, tr).log, src))
      && |grown| <= lim.scanThreshold + 1
    decreases |tr|, 1
  {
    var before, r := Run(lim, s, Init(tr)), LastReset(lim, s, Init(tr), src);
    HistoryBefore(lim, s, tr, src);
    SinceStep(s, tr, r, src);
    RunScansOk(lim, s, Init(tr));
    ScanSetMoves(lim, before, Last(tr), src);
  }

  lemma {:induction false} HistoryBefore(lim: Limits, s: State, tr: seq<Arrival>, src: IPv4)
    requires ScansOk(lim, s.scans) && tr != [] && src in Run(lim, s, tr).scans
    ensures PortSet(Run(lim, s, Init(tr)), src) == Since(s, Init(tr), LastReset(lim, s, Init(tr), src), src)
    decreases |tr|, 0
  {
    if src in Run(lim, s, Init(tr)).scans {
      ScanSetIsHistory(lim, s, Init(tr), src);
    } else {
      AdmittedAtFirst(lim, s, tr, ScanTable, src);
      UntouchedScans(Init(tr), src);
      KeysBounded(lim, s, Init(tr), ScanTable);
      NoResetBeforeEntry(lim, s, Init(tr), src);
      assert Init(tr)[0..] == Init(tr);
    }
  }

  lemma {:induction false} NoResetBeforeEntry(lim: Limits, s: State, tr: seq<Arrival>, src: IPv4)
    requires src !in Run(lim, s, tr).scans
    ensures LastReset(lim, s, tr, src) == 0
  {
    if tr != [] {
      UntrackedNoScanStep(lim, Run(lim, s, Init(tr)), Last(tr), src);
      NoResetBeforeEntry(lim, s, Init(tr), src);
    }
  }

  /** Detection guarantee over whole runs from start-up: a tracked source's distinct low ports are at most
    (T+1)*alerts + T, and (T+1)*alerts at most its low-port SYN packets. An untracked source raises no scan alert. */
  lemma ScanBounds(lim: Limits, bl: map<IPv4, Byte>, tr: seq<Arrival>, src: IPv4)
    ensures var end, t := Run(lim, Boot(bl), tr), lim.scanThreshold;
      var alerts := ScanAlerts(end.log, src);
      && alerts * (t + 1) <= LowSynCount(tr, src)
      && (src in end.scans ==> |LowPorts(tr, src)| <= alerts * (t + 1) + t)
      && (src !in end.scans ==> alerts == 0)
  {
    hide Run, LowPorts, LowSynCount;
    var end, t := Run(lim, Boot(bl), tr), lim.scanThreshold;
    if src in end.scans {
      ScanSandwich(lim, bl, tr, src);
      RunScansOk(lim, Boot(bl), tr);
      SpentIsProduct(t + 1, ScanAlerts(end.log, src));
    } else {
      UntrackedNoScan(lim, Boot(bl), tr, src);
    }
  }

  lemma {:induction false} ScanSandwich(lim: Limits, bl: map<IPv4, Byte>, tr: seq<Arrival>, src: IPv4)
    requires src in Run(lim, Boot(bl), tr).scans
    ensures var end := Run(lim, Boot(bl), tr);
      Sandwich(lim.scanThreshold, LowPorts(tr, src), PortSet(end, src), ScanAlerts(end.log, src), LowSynCount(tr, src))
  {
    if tr == [] {
    } else {
      var before, a := Run(lim, Boot(bl), Init(tr)), Last(tr);
      if src in before.scans {
        ScanSandwich(lim, bl, Init(tr), src);
      } else {
        AdmittedAtFirst(lim, Boot(bl), tr, ScanTable, src);
        UntouchedScans(Init(tr), src);
        UntrackedNoScan(lim, Boot(bl), Init(tr), src);
      }
      RunScansOk(lim, Boot(bl), Init(tr));
      ScanSetMoves(lim, before, a, src);
      SandwichStep(lim, LowPorts(Init(tr), src), PortSet(before, src), ScanAlerts(before.log, src),
                   LowSynCount(Init(tr), src), a, src, PortSet(Apply(lim, before, a), src),
                   ScanAlerts(Apply(lim, before, a).log, src));
    }
  }

  /** Every alert used up threshold + 1 distinct ports, each of which took at least one packet. */
  ghost predicate Sandwich(t: nat, seen: set<nat>, current: set<nat>, alerts: nat, packets: nat) {
    current <= seen && |seen| <= Spent(t + 1, alerts) + |current| <= packets
  }

  lemma SandwichStep(lim: Limits, seen: set<nat>, current: set<nat>, alerts: nat, packets: nat, a: Arrival, src: IPv4,
                     current': set<nat>, alerts': nat)
    requires Sandwich(lim.scanThreshold, seen, current, alerts, packets) && |current| <= lim.scanThreshold
    requires SetMoves(lim, Grown(current, a, src), current', alerts, alerts')
    ensures Sandwich(lim.scanThreshold, Grown(seen, a, src), current', alerts', packets + (if LowSyn(a, src) then 1 else 0))
  {
    if LowSyn(a, src) {
      var port := a.request.synPort.value;
      assert port in seen ==> seen + {port} == seen;
      assert port in current ==> current + {port} == current;
    }
  }

  // ---- on raw packets, with the program's constants ----

  /** From start-up, for any packets and any source: a tracked source raises a flood alert for every 101 pure SYNs but
    at most 100 on each CPU, and a scan alert for every 21 distinct low ports but at most 20; an untracked source raises
    neither; no map outgrows 100000 sources. */
  lemma DetectorGuarantees(cpus: nat, bl: map<IPv4, Byte>, packets: seq<Packet>, src: IPv4)
    requires forall i :: 0 <= i < |packets| ==> packets[i].cpu < cpus
    ensures var lim, tr := SourceLimits(cpus), DecodeAll(bl, packets);
      var end := RunPackets(lim, Boot(bl), packets);
      var syns, floods := SynBelow(tr, src, cpus), FloodBelow(end.log, src, cpus);
      var scans := ScanAlerts(end.log, src);
      && 101 * floods <= syns
      && (src in end.syns ==> syns <= 101 * floods + 100 * cpus)
      && (src !in end.syns ==> floods == 0)
      && 21 * scans <= LowSynCount(tr, src)
      && (src in end.scans ==> |LowPorts(tr, src)| <= 21 * scans + 20)
      && (src !in end.scans ==> scans == 0)
      && |end.flows.Keys| <= 100000 && |end.syns.Keys| <= 100000 && |end.scans.Keys| <= 100000
  {
    hide Run, RunPackets, SynBelow, FloodBelow, ScanAlerts, LowSynCount, LowPorts;
    var lim, tr := SourceLimits(cpus), DecodeAll(bl, packets);
    PacketsDecode(lim, Boot(bl), packets);
    FloodBounds(lim, bl, tr, src);
    ScanBounds(lim, bl, tr, src);
    KeysBounded(lim, Boot(bl), tr, FlowTable);
    KeysBounded(lim, Boot(bl), tr, SynTable);
    KeysBounded(lim, Boot(bl), tr, ScanTable);
  }
}
