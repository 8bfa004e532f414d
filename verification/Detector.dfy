/** The whole detector: packets, the cleaner's deletions and the loader's readings of flow_stats, interleaved freely. */
module Detector {
  import opened Common
  import opened DataPlane
  import opened Frames
  import opened Traces
  import opened MapCleaner
  import opened RateReporter
  import opened Arith

  datatype System = System(plane: State, readings: map<IPv4, Flow>, reports: seq<Report>)

  /** One atomic action on the shared maps. A cleaner run and a statistics scan are sequences of them, so any
    interleaving of runs, scans and packets is a sequence of events. */
  datatype Event =
    | Arrives(packet: Packet)
    | Deletes(table: Table, ip: IPv4)
    | Reads(ip: IPv4, interval: int, memory: bool)

  function DeleteKey(s: State, t: Table, ip: IPv4): State {
    match t
    case FlowTable => s.(flows := s.flows - {ip})
    case SynTable => s.(syns := s.syns - {ip})
    case ScanTable => s.(scans := s.scans - {ip})
  }

  function Next(lim: Limits, sys: System, e: Event): System {
    match e
    case Arrives(p) => sys.(plane := Step(lim, sys.plane, p))
    case Deletes(t, ip) => sys.(plane := DeleteKey(sys.plane, t, ip))
    case Reads(ip, interval, memory) =>
      if ip !in sys.plane.flows then sys
      else
        var (readings, more) := ReportStep(sys.readings, ip, sys.plane.flows[ip], interval, memory);
        System(sys.plane, readings, sys.reports + more)
  }

  function Behave(lim: Limits, sys: System, es: seq<Event>): System {
    if es == [] then sys else Next(lim, Behave(lim, sys, Init(es)), Last(es))
  }

  // ---- what the data plane counted, what the loader reported ----

  /** The event is a packet the data plane counts in the entry of ip. */
  predicate CountsFor(lim: Limits, sys: System, e: Event, ip: IPv4) {
    e.Arrives? && Counted(Decode(sys.plane.blacklist, e.packet), ip) && ip in Next(lim, sys, e).plane.flows
  }

  function PlusPacket(f: Flow, size: nat): Flow {
    Flow(f.pkts + 1, f.bytes + size)
  }

  predicate IsZero(a: Flow) {
    a.pkts == 0 && a.bytes == 0
  }

  predicate AtMost(a: Flow, b: Flow) {
    a.pkts <= b.pkts && a.bytes <= b.bytes
  }

  /** Packets and bytes the data plane counted for ip over a run, however often its entry was deleted in between. */
  function CountedIn(lim: Limits, sys: System, es: seq<Event>, ip: IPv4): Flow {
    if es == [] then Flow(0, 0)
    else if CountsFor(lim, Behave(lim, sys, Init(es)), Last(es), ip)
    then PlusPacket(CountedIn(lim, sys, Init(es), ip), |Last(es).packet.data|)
    else CountedIn(lim, sys, Init(es), ip)
  }

  /** The sum of the deltas reported for ip. */
  function Reported(reports: seq<Report>, ip: IPv4): Flow {
    if reports == [] then Flow(0, 0)
    else
      var r, before := Last(reports), Reported(Init(reports), ip);
      if r.ip == ip then Flow(before.pkts + r.deltaPkts, before.bytes + r.deltaBytes) else before
  }

  /** The sum of interval times rate over the messages for ip: what a reader of the messages would add up. */
  function RateTimesInterval(reports: seq<Report>, ip: IPv4): Flow {
    if reports == [] then Flow(0, 0)
    else
      var r, before := Last(reports), RateTimesInterval(Init(reports), ip);
      if r.ip == ip then Flow(before.pkts + r.seconds * r.pps, before.bytes + r.seconds * r.bytesPerSec) else before
  }

  /** What has been reported, and what the next reading would report on top, was all counted. */
  ghost predicate Covered(sys: System, counted: Flow, ip: IPv4) {
    var reported := Reported(sys.reports, ip);
    if ip in sys.readings
    then
      && reported.pkts + Delta(FlowOf(sys.plane, ip).pkts, sys.readings[ip].pkts) <= counted.pkts
      && reported.bytes + Delta(FlowOf(sys.plane, ip).bytes, sys.readings[ip].bytes) <= counted.bytes
    else reported.pkts == 0 && reported.bytes == 0
  }

  /** One arrival raises the entry of ip by at most itself. */
  lemma ArrivalGrowth(lim: Limits, s: State, a: Arrival, ip: IPv4)
    ensures AtMost(FlowOf(Apply(lim, s, a), ip),
                   if Counted(a, ip) && ip in Apply(lim, s, a).flows
                   then PlusPacket(FlowOf(s, ip), a.size) else FlowOf(s, ip))
  {
    hide Apply, Counted;
    StepKeys(lim, s, a, FlowTable);
    var before, after := FlowOf(s, ip), FlowOf(Apply(lim, s, a), ip);
    if ip in Apply(lim, s, a).flows {
      FlowStep(lim, s, a, ip);
      WrapLowers(before.pkts + 1);
      WrapLowers(before.bytes + a.size);
    }
  }

  /** Below 2^64 it raises it by exactly itself, or leaves the entry as it is. */
  lemma ArrivalExact(lim: Limits, s: State, a: Arrival, ip: IPv4)
    requires BelowWrap(PlusPacket(FlowOf(s, ip), a.size)) || !(Counted(a, ip) && ip in Apply(lim, s, a).flows)
    ensures if Counted(a, ip) && ip in Apply(lim, s, a).flows
            then FlowOf(Apply(lim, s, a), ip) == PlusPacket(FlowOf(s, ip), a.size)
            else FlowOf(Apply(lim, s, a), ip) == FlowOf(s, ip) && (ip in Apply(lim, s, a).flows <==> ip in s.flows)
    ensures ip in s.flows ==> ip in Apply(lim, s, a).flows
  {
    hide Apply, Counted;
    StepKeys(lim, s, a, FlowTable);
    var before := FlowOf(s, ip);
    if ip in Apply(lim, s, a).flows {
      FlowStep(lim, s, a, ip);
      WrapLowers(before.pkts + 1);
      WrapLowers(before.bytes + a.size);
    }
  }

  lemma SumsAppend(reports: seq<Report>, r: Report, ip: IPv4)
    ensures r.ip == ip ==> Reported(reports + [r], ip).pkts == Reported(reports, ip).pkts + r.deltaPkts
    ensures r.ip == ip ==> Reported(reports + [r], ip).bytes == Reported(reports, ip).bytes + r.deltaBytes
    ensures r.ip != ip ==> Reported(reports + [r], ip) == Reported(reports, ip)
    ensures FirstTotal(reports + [r], ip) ==
      if FirstTotal(reports, ip).None? && r.ip == ip then Some(r.total) else FirstTotal(reports, ip)
    ensures LastTotal(reports + [r], ip) == if r.ip == ip then Some(r.total) else LastTotal(reports, ip)
  {
    assert Init(reports + [r]) == reports;
  }

  /** A reading either changes nothing or reports the growth since the last reading and becomes the last reading. */
  lemma ReadCases(lim: Limits, sys: System, e: Event) returns (r: Option<Report>)
    requires e.Reads?
    ensures r.None? ==> Next(lim, sys, e) == sys
    ensures r.Some? ==> e.ip in sys.plane.flows && r.value.ip == e.ip && r.value.total == sys.plane.flows[e.ip]
    ensures r.Some? ==>
      Next(lim, sys, e) == System(sys.plane, sys.readings[e.ip := sys.plane.flows[e.ip]], sys.reports + [r.value])
    ensures r.Some? && e.ip in sys.readings ==>
      && r.value.deltaPkts == Delta(sys.plane.flows[e.ip].pkts, sys.readings[e.ip].pkts)
      && r.value.deltaBytes == Delta(sys.plane.flows[e.ip].bytes, sys.readings[e.ip].bytes)
    ensures r.Some? && e.ip !in sys.readings ==> r.value.deltaPkts == r.value.deltaBytes == 0
  {
    if e.ip in sys.plane.flows {
      var more := ReportStep(sys.readings, e.ip, sys.plane.flows[e.ip], e.interval, e.memory).1;
      if more == [] {
        assert sys.reports + more == sys.reports;
        return None;
      } else {
        return Some(more[0]);
      }
    }
    return None;
  }

  lemma CoveredRead(lim: Limits, sys: System, e: Event, counted: Flow, ip: IPv4)
    requires Covered(sys, counted, ip) && e.Reads?
    ensures Covered(Next(lim, sys, e), counted, ip)
  {
    hide Next, Reported;
    var r := ReadCases(lim, sys, e);
    if r.Some? {
      SumsAppend(sys.reports, r.value, ip);
    }
  }

  lemma CoveredStep(lim: Limits, sys: System, e: Event, counted: Flow, ip: IPv4)
    requires Covered(sys, counted, ip)
    ensures Covered(Next(lim, sys, e),
                    if CountsFor(lim, sys, e, ip) then PlusPacket(counted, |e.packet.data|) else counted, ip)
  {
    hide Parse, RequestOf, Apply, ReportStep, Reported;
    match e
    case Arrives(p) => ArrivalGrowth(lim, sys.plane, Decode(sys.plane.blacklist, p), ip);
    case Deletes(_, _) =>
    case Reads(_, _, _) => CoveredRead(lim, sys, e, counted, ip);
  }

  lemma {:induction false} CoveredThroughout(lim: Limits, sys: System, es: seq<Event>, ip: IPv4)
    requires sys.readings == map[] && sys.reports == []
    ensures Covered(Behave(lim, sys, es), CountedIn(lim, sys, es, ip), ip)
  {
    if es != [] {
      CoveredThroughout(lim, sys, Init(es), ip);
      CoveredStep(lim, Behave(lim, sys, Init(es)), Last(es), CountedIn(lim, sys, Init(es), ip), ip);
    }
  }

  /** The rates are the deltas divided by the seconds, rounded down. */
  ghost predicate RatesExact(reports: seq<Report>) {
    forall i :: 0 <= i < |reports| ==>
      && reports[i].seconds >= 1
      && reports[i].seconds * reports[i].pps <= reports[i].deltaPkts < reports[i].seconds * (reports[i].pps + 1)
      && reports[i].seconds * reports[i].bytesPerSec <= reports[i].deltaBytes
         < reports[i].seconds * (reports[i].bytesPerSec + 1)
  }

  lemma RateExact(delta: nat, interval: int)
    ensures Seconds(interval) * Rate(delta, interval) <= delta < Seconds(interval) * (Rate(delta, interval) + 1)
  {
    RoundsDown(delta, Seconds(interval));
  }

  lemma RoundsDown(a: nat, m: nat)
    requires m > 0
    ensures m * (a / m) <= a < m * (a / m + 1)
  {
    assert a == m * (a / m) + a % m;
    assert m * (a / m + 1) == m * (a / m) + m;
  }

  lemma {:induction false} RatesThroughout(lim: Limits, sys: System, es: seq<Event>)
    requires RatesExact(sys.reports)
    ensures RatesExact(Behave(lim, sys, es).reports)
  {
    if es != [] {
      RatesThroughout(lim, sys, Init(es));
      RatesStep(lim, Behave(lim, sys, Init(es)), Last(es));
    }
  }

  lemma RatesStep(lim: Limits, sys: System, e: Event)
    requires RatesExact(sys.reports)
    ensures RatesExact(Next(lim, sys, e).reports)
  {
    if e.Reads? && e.ip in sys.plane.flows && e.ip in sys.readings {
      var current, last := sys.plane.flows[e.ip], sys.readings[e.ip];
      RateExact(Delta(current.pkts, last.pkts), e.interval);
      RateExact(Delta(current.bytes, last.bytes), e.interval);
      hide Rate;
    }
  }

  /** What rounding can cost: one second's worth less than the interval, per message. */
  function Slack(reports: seq<Report>, ip: IPv4): nat {
    if reports == [] then 0
    else
      var r, before := Last(reports), Slack(Init(reports), ip);
      if r.ip == ip && r.seconds > 0 then before + r.seconds - 1 else before
  }

  lemma {:induction false} RateSums(reports: seq<Report>, ip: IPv4)
    requires RatesExact(reports)
    ensures AtMost(RateTimesInterval(reports, ip), Reported(reports, ip))
    ensures Reported(reports, ip).pkts <= RateTimesInterval(reports, ip).pkts + Slack(reports, ip)
    ensures Reported(reports, ip).bytes <= RateTimesInterval(reports, ip).bytes + Slack(reports, ip)
  {
    if reports != [] {
      var r := Last(reports);
      RateSums(Init(reports), ip);
      NextMultiple(r.seconds, r.pps);
      NextMultiple(r.seconds, r.bytesPerSec);
    }
  }

  lemma NextMultiple(a: nat, b: nat)
    ensures a * (b + 1) == a * b + a
  {
  }

  /** Interval times rate, added up over the messages of a run, is what was reported, but for the rounding. */
  lemma RatesAddUp(lim: Limits, plane: State, es: seq<Event>, ip: IPv4)
    ensures var reports := Behave(lim, System(plane, map[], []), es).reports;
      var sum, reported := RateTimesInterval(reports, ip), Reported(reports, ip);
      && sum.pkts <= reported.pkts <= sum.pkts + Slack(reports, ip)
      && sum.bytes <= reported.bytes <= sum.bytes + Slack(reports, ip)
  {
    var start := System(plane, map[], []);
    RatesThroughout(lim, start, es);
    RateSums(Behave(lim, start, es).reports, ip);
  }

  /** Every report is over that many seconds, and its rates are its deltas divided by them. */
  ghost predicate PerInterval(reports: seq<Report>, interval: nat)
    requires interval >= 1
  {
    forall r :: r in reports ==>
      r.seconds == interval && r.pps == r.deltaPkts / interval && r.bytesPerSec == r.deltaBytes / interval
  }

  lemma StepPerInterval(readings: map<IPv4, Flow>, ip: IPv4, current: Flow, interval: int, memory: bool)
    ensures PerInterval(ReportStep(readings, ip, current, interval, memory).1, if interval > 0 then interval else 1)
  {
    assert 0 / (if interval > 0 then interval else 1) == 0;
  }

  /** So it is in every run whose readings use one interval; one that is not positive counts as a second. */
  lemma {:induction false} RatesPerInterval(lim: Limits, plane: State, es: seq<Event>, interval: int)
    requires forall i :: 0 <= i < |es| && es[i].Reads? ==> es[i].interval == interval
    ensures PerInterval(Behave(lim, System(plane, map[], []), es).reports, if interval > 0 then interval else 1)
  {
    if es != [] {
      var before, e := Behave(lim, System(plane, map[], []), Init(es)), Last(es);
      RatesPerInterval(lim, plane, Init(es), interval);
      if e.Reads? && e.ip in before.plane.flows {
        assert e.interval == interval;
        StepPerInterval(before.readings, e.ip, before.plane.flows[e.ip], interval, e.memory);
        var more := ReportStep(before.readings, e.ip, before.plane.flows[e.ip], interval, e.memory).1;
        assert Behave(lim, System(plane, map[], []), es).reports == before.reports + more;
      }
    }
  }

  /** Never over-report: in every run, whatever the interleaving, the deletions, the wrap-arounds, the failed
    allocations and the intervals, the packets and bytes reported for an IP were counted for it. */
  lemma NeverOverReport(lim: Limits, plane: State, es: seq<Event>, ip: IPv4)
    ensures var start := System(plane, map[], []);
      var reports, counted := Behave(lim, start, es).reports, CountedIn(lim, start, es, ip);
      AtMost(Reported(reports, ip), counted) && AtMost(RateTimesInterval(reports, ip), counted)
  {
    var start := System(plane, map[], []);
    CoveredThroughout(lim, start, es, ip);
    RatesThroughout(lim, start, es);
    RateSums(Behave(lim, start, es).reports, ip);
  }

  // ---- without cleaning, the deltas telescope ----

  /** The totals in the first message for ip. */
  function FirstTotal(reports: seq<Report>, ip: IPv4): Option<Flow> {
    if reports == [] then None
    else
      var before := FirstTotal(Init(reports), ip);
      if before.None? && Last(reports).ip == ip then Some(Last(reports).total) else before
  }

  /** The totals in the last message for ip. */
  function LastTotal(reports: seq<Report>, ip: IPv4): Option<Flow> {
    if reports == [] then None
    else if Last(reports).ip == ip then Some(Last(reports).total) else LastTotal(Init(reports), ip)
  }

  /** The entry of ip in flow_stats is deleted at some point of the run. */
  predicate Cleaned(es: seq<Event>, ip: IPv4) {
    Deletes(FlowTable, ip) in es
  }

  predicate SumsTo(a: Flow, b: Flow, total: Flow) {
    a.pkts + b.pkts == total.pkts && a.bytes + b.bytes == total.bytes
  }

  /** The reported deltas add up to the distance between the first and the last reading, which the counter has not
    fallen behind. */
  ghost predicate Telescoped(sys: System, ip: IPv4) {
    var first, last, reported := FirstTotal(sys.reports, ip), LastTotal(sys.reports, ip), Reported(sys.reports, ip);
    if ip in sys.readings
    then first.Some? && last == Some(sys.readings[ip]) && SumsTo(first.value, reported, last.value)
         && ip in sys.plane.flows && AtMost(last.value, sys.plane.flows[ip])
    else first.None? && last.None? && IsZero(reported)
  }

  ghost predicate BelowWrap(f: Flow) {
    f.pkts < U64 && f.bytes < U64
  }

  ghost predicate SumBelowWrap(a: Flow, b: Flow) {
    a.pkts + b.pkts < U64 && a.bytes + b.bytes < U64
  }

  lemma TelescopedRead(lim: Limits, sys: System, e: Event, ip: IPv4)
    requires Telescoped(sys, ip) && e.Reads?
    ensures Telescoped(Next(lim, sys, e), ip)
  {
    hide Next, Reported, FirstTotal, LastTotal;
    var r := ReadCases(lim, sys, e);
    if r.Some? {
      SumsAppend(sys.reports, r.value, ip);
    }
  }

  lemma TelescopedStep(lim: Limits, sys: System, e: Event, ip: IPv4)
    requires Telescoped(sys, ip) && e != Deletes(FlowTable, ip)
    requires CountsFor(lim, sys, e, ip) ==> BelowWrap(PlusPacket(FlowOf(sys.plane, ip), |e.packet.data|))
    ensures Telescoped(Next(lim, sys, e), ip)
    ensures FlowOf(Next(lim, sys, e).plane, ip) ==
      if CountsFor(lim, sys, e, ip) then PlusPacket(FlowOf(sys.plane, ip), |e.packet.data|) else FlowOf(sys.plane, ip)
  {
    hide Parse, RequestOf, Apply, ReportStep, Reported, FirstTotal, LastTotal;
    match e
    case Arrives(p) => ArrivalExact(lim, sys.plane, Decode(sys.plane.blacklist, p), ip);
    case Deletes(_, _) =>
    case Reads(_, _, _) => TelescopedRead(lim, sys, e, ip);
  }

  lemma TelescopedStart(plane: State, ip: IPv4)
    ensures Telescoped(System(plane, map[], []), ip)
  {
  }

  lemma NotCleanedInit(es: seq<Event>, ip: IPv4)
    requires es != []
    ensures Cleaned(es, ip) <==> Cleaned(Init(es), ip) || Last(es) == Deletes(FlowTable, ip)
  {
    assert es == Init(es) + [Last(es)];
  }

  /** The counters of ip over a run: the start plus what was counted, provided nothing wrapped and its entry stayed. */
  lemma {:induction false} TelescopedThroughout(lim: Limits, plane: State, es: seq<Event>, ip: IPv4)
    requires !Cleaned(es, ip)
    requires SumBelowWrap(FlowOf(plane, ip), CountedIn(lim, System(plane, map[], []), es, ip))
    ensures Telescoped(Behave(lim, System(plane, map[], []), es), ip)
    ensures SumsTo(FlowOf(plane, ip), CountedIn(lim, System(plane, map[], []), es, ip),
                   FlowOf(Behave(lim, System(plane, map[], []), es).plane, ip))
  {
    hide Next, Telescoped, FlowOf, CountsFor, Cleaned;
    if es == [] {
      TelescopedStart(plane, ip);
    } else {
      NotCleanedInit(es, ip);
      TelescopedThroughout(lim, plane, Init(es), ip);
      TelescopedStep(lim, Behave(lim, System(plane, map[], []), Init(es)), Last(es), ip);
    }
  }

  /** While the entry of an IP is not deleted and its counters do not wrap, its reported deltas are exactly its last
    reading minus its first. */
  lemma DeltasTelescope(lim: Limits, plane: State, es: seq<Event>, ip: IPv4)
    requires !Cleaned(es, ip)
    requires SumBelowWrap(FlowOf(plane, ip), CountedIn(lim, System(plane, map[], []), es, ip))
    ensures var reports := Behave(lim, System(plane, map[], []), es).reports;
      var first, last := FirstTotal(reports, ip), LastTotal(reports, ip);
      if first.Some? then last.Some? && SumsTo(first.value, Reported(reports, ip), last.value)
      else IsZero(Reported(reports, ip))
  {
    TelescopedThroughout(lim, plane, es, ip);
  }

  // ---- what cleaning costs: reports are complete exactly when the entry was never deleted ----

  /** The accounts of one counter since a reading: `due` is what was reported since, plus what the next reading would
    add. It equals what was counted until the entry is deleted, and stays short of it from the next count on. */
  ghost predicate Tallied(cleaned: bool, present: bool, start: nat, counter: nat, reading: nat, reported: nat,
                          counted: nat) {
    && 1 <= reading
    && (if present then 1 <= counter else cleaned && counter == 0)
    && counter <= start + counted
    && (if !cleaned then reading <= counter && reported + counter - reading == counted
        else reported + Delta(counter, reading) <= counted - (if present then 1 else 0))
  }

  lemma TallyCounts(cleaned: bool, present: bool, start: nat, counter: nat, reading: nat, reported: nat, counted: nat,
                    more: nat)
    requires Tallied(cleaned, present, start, counter, reading, reported, counted) && more > 0
    ensures Tallied(cleaned, true, start, counter + more, reading, reported, counted + more)
  {
  }

  lemma TallyReads(cleaned: bool, start: nat, counter: nat, reading: nat, reported: nat, counted: nat)
    requires Tallied(cleaned, true, start, counter, reading, reported, counted)
    ensures Tallied(cleaned, true, start, counter, counter, reported + Delta(counter, reading), counted)
  {
  }

  lemma TallyDeletes(cleaned: bool, present: bool, start: nat, counter: nat, reading: nat, reported: nat, counted: nat)
    requires Tallied(cleaned, present, start, counter, reading, reported, counted)
    ensures Tallied(true, false, start, 0, reading, reported, counted)
  {
  }

  /** Both counters of ip, `sys` being the system some time after `from`. */
  ghost predicate Accounts(from: System, sys: System, cleaned: bool, counted: Flow, ip: IPv4) {
    var start, reported := FlowOf(from.plane, ip), Reported(sys.reports, ip);
    var already, current := Reported(from.reports, ip), FlowOf(sys.plane, ip);
    && ip in sys.readings && AtMost(already, reported)
    && Tallied(cleaned, ip in sys.plane.flows, start.pkts, current.pkts, sys.readings[ip].pkts,
               reported.pkts - already.pkts, counted.pkts)
    && Tallied(cleaned, ip in sys.plane.flows, start.bytes, current.bytes, sys.readings[ip].bytes,
               reported.bytes - already.bytes, counted.bytes)
  }

  /** The loader's last reading of ip is current; every entry stands for at least one packet. */
  predicate JustRead(sys: System, ip: IPv4) {
    && ip in sys.plane.flows && ip in sys.readings && sys.readings[ip] == sys.plane.flows[ip]
    && sys.plane.flows[ip].pkts >= 1 && sys.plane.flows[ip].bytes >= 1
  }

  lemma CountedIsLong(bl: map<IPv4, Byte>, p: Packet, ip: IPv4)
    requires Counted(Decode(bl, p), ip)
    ensures |p.data| >= ETH_LEN + IP_LEN
  {
  }

  lemma AccountsArrival(lim: Limits, from: System, sys: System, e: Event, cleaned: bool, counted: Flow, ip: IPv4)
    requires Accounts(from, sys, cleaned, counted, ip) && e.Arrives?
    requires CountsFor(lim, sys, e, ip) ==> SumBelowWrap(FlowOf(from.plane, ip), PlusPacket(counted, |e.packet.data|))
    ensures Accounts(from, Next(lim, sys, e), cleaned,
                     if CountsFor(lim, sys, e, ip) then PlusPacket(counted, |e.packet.data|) else counted, ip)
  {
    hide Parse, RequestOf, Apply, Reported, Decode, Counted;
    var start, now, a := FlowOf(from.plane, ip), FlowOf(sys.plane, ip), Decode(sys.plane.blacklist, e.packet);
    assert a.size == |e.packet.data| by { DecodeSize(sys.plane.blacklist, e.packet); }
    assert now.pkts <= start.pkts + counted.pkts && now.bytes <= start.bytes + counted.bytes;
    hide Tallied;
    ArrivalExact(lim, sys.plane, a, ip);
    if CountsFor(lim, sys, e, ip) {
      CountedIsLong(sys.plane.blacklist, e.packet, ip);
      var already, reported := Reported(from.reports, ip), Reported(sys.reports, ip);
      TallyCounts(cleaned, ip in sys.plane.flows, start.pkts, now.pkts, sys.readings[ip].pkts,
                  reported.pkts - already.pkts, counted.pkts, 1);
      TallyCounts(cleaned, ip in sys.plane.flows, start.bytes, now.bytes, sys.readings[ip].bytes,
                  reported.bytes - already.bytes, counted.bytes, |e.packet.data|);
    }
  }

  lemma DecodeSize(bl: map<IPv4, Byte>, p: Packet)
    ensures Decode(bl, p).size == |p.data|
  {
  }

  lemma AccountsRead(lim: Limits, from: System, sys: System, e: Event, cleaned: bool, counted: Flow, ip: IPv4)
    requires Accounts(from, sys, cleaned, counted, ip) && e.Reads?
    ensures Accounts(from, Next(lim, sys, e), cleaned, counted, ip)
  {
    hide Next, Reported, Tallied, Delta;
    var r := ReadCases(lim, sys, e);
    if r.Some? {
      SumsAppend(sys.reports, r.value, ip);
      if e.ip == ip {
        var start, now, reading := FlowOf(from.plane, ip), FlowOf(sys.plane, ip), sys.readings[ip];
        var already, reported := Reported(from.reports, ip), Reported(sys.reports, ip);
        TallyReads(cleaned, start.pkts, now.pkts, reading.pkts, reported.pkts - already.pkts, counted.pkts);
        TallyReads(cleaned, start.bytes, now.bytes, reading.bytes, reported.bytes - already.bytes, counted.bytes);
      }
    }
  }

  /** A deletion removes one entry of one table, and nothing the loader has. */
  lemma DeleteEffect(lim: Limits, sys: System, e: Event, ip: IPv4)
    requires e.Deletes?
    ensures var after := Next(lim, sys, e);
      && after.readings == sys.readings && after.reports == sys.reports
      && (if e == Deletes(FlowTable, ip) then ip !in after.plane.flows && FlowOf(after.plane, ip) == Flow(0, 0)
          else FlowOf(after.plane, ip) == FlowOf(sys.plane, ip) && (ip in after.plane.flows <==> ip in sys.plane.flows))
  {
  }

  lemma AccountsDelete(lim: Limits, from: System, sys: System, e: Event, cleaned: bool, counted: Flow, ip: IPv4)
    requires Accounts(from, sys, cleaned, counted, ip) && e.Deletes?
    ensures Accounts(from, Next(lim, sys, e), cleaned || e == Deletes(FlowTable, ip), counted, ip)
  {
    hide Reported, Tallied, Next, FlowOf, DeleteKey;
    DeleteEffect(lim, sys, e, ip);
    if e == Deletes(FlowTable, ip) {
      var start, now, reading := FlowOf(from.plane, ip), FlowOf(sys.plane, ip), sys.readings[ip];
      var already, reported := Reported(from.reports, ip), Reported(sys.reports, ip);
      var present := ip in sys.plane.flows;
      TallyDeletes(cleaned, present, start.pkts, now.pkts, reading.pkts, reported.pkts - already.pkts, counted.pkts);
      TallyDeletes(cleaned, present, start.bytes, now.bytes, reading.bytes, reported.bytes - already.bytes,
                   counted.bytes);
    }
  }

  lemma {:induction false} AccountsThroughout(lim: Limits, from: System, es: seq<Event>, ip: IPv4)
    requires JustRead(from, ip) && SumBelowWrap(FlowOf(from.plane, ip), CountedIn(lim, from, es, ip))
    ensures Accounts(from, Behave(lim, from, es), Cleaned(es, ip), CountedIn(lim, from, es, ip), ip)
  {
    if es != [] {
      hide Next, Accounts, FlowOf, CountsFor, Cleaned, JustRead;
      var sys, counted, e := Behave(lim, from, Init(es)), CountedIn(lim, from, Init(es), ip), Last(es);
      NotCleanedInit(es, ip);
      AccountsThroughout(lim, from, Init(es), ip);
      OnlyArrivalsCount(lim, sys, e, ip);
      match e
      case Arrives(_) => AccountsArrival(lim, from, sys, e, Cleaned(Init(es), ip), counted, ip);
      case Deletes(_, _) => AccountsDelete(lim, from, sys, e, Cleaned(Init(es), ip), counted, ip);
      case Reads(_, _, _) => AccountsRead(lim, from, sys, e, Cleaned(Init(es), ip), counted, ip);
    }
  }

  lemma OnlyArrivalsCount(lim: Limits, sys: System, e: Event, ip: IPv4)
    ensures CountsFor(lim, sys, e, ip) ==> e.Arrives?
  {
  }

  /** Reports are complete exactly when nothing was cleaned: over any run between two current readings of an IP, with
    packets, readings and deletions in any order and no wrap-around, the deltas reported for it add up to what was
    counted for it if and only if its entry was not deleted in between. */
  lemma CompleteIffNotCleaned(lim: Limits, from: System, es: seq<Event>, ip: IPv4)
    requires JustRead(from, ip) && SumBelowWrap(FlowOf(from.plane, ip), CountedIn(lim, from, es, ip))
    requires JustRead(Behave(lim, from, es), ip)
    ensures var already, reported := Reported(from.reports, ip), Reported(Behave(lim, from, es).reports, ip);
      var counted := CountedIn(lim, from, es, ip);
      && (reported.pkts - already.pkts == counted.pkts <==> !Cleaned(es, ip))
      && (reported.bytes - already.bytes == counted.bytes <==> !Cleaned(es, ip))
  {
    AccountsThroughout(lim, from, es, ip);
    hide Behave, CountedIn, Reported, Cleaned;
  }

  /** The same about the next reading: what it would show on top of what was reported completes the count if and only
    if the entry was not deleted. */
  lemma NextReadingCompletesIffNotCleaned(lim: Limits, from: System, es: seq<Event>, ip: IPv4)
    requires JustRead(from, ip) && SumBelowWrap(FlowOf(from.plane, ip), CountedIn(lim, from, es, ip))
    requires ip in Behave(lim, from, es).plane.flows
    ensures var end := Behave(lim, from, es);
      var already, reported := Reported(from.reports, ip), Reported(end.reports, ip);
      var counted, now := CountedIn(lim, from, es, ip), end.plane.flows[ip];
      && ip in end.readings
      && (reported.pkts + Delta(now.pkts, end.readings[ip].pkts) == already.pkts + counted.pkts
          <==> !Cleaned(es, ip))
      && (reported.bytes + Delta(now.bytes, end.readings[ip].bytes) == already.bytes + counted.bytes
          <==> !Cleaned(es, ip))
  {
    AccountsThroughout(lim, from, es, ip);
    hide Behave, CountedIn, Reported, Cleaned;
  }

  /** A UDP packet of an address to itself, header only. */
  function Probe(ip: IPv4): Packet {
    var header := IpHeader(0x45, 0, 20, 0, 0, 64, 17, 0, ip, ip);
    Packet(Ethernet(seq(12, _ => 0), 0x0800, IpBytes(header) + []), 0, 0)
  }

  lemma ProbeCounts(ip: IPv4)
    ensures Decode(map[], Probe(ip)) == Arrival(Request(ip, ip, false, None), 0, 0, 34)
  {
    var header := IpHeader(0x45, 0, 20, 0, 0, 64, 17, 0, ip, ip);
    FrameReadsBack(seq(12, _ => 0), header, []);
    hide Parse, IpBytes;
  }

  /** A probe that finds no entry makes one. */
  lemma ProbeArrives(lim: Limits, sys: System, ip: IPv4)
    requires sys.plane.blacklist == map[] && ip !in sys.plane.flows && |sys.plane.flows| < lim.size
    ensures Next(lim, sys, Arrives(Probe(ip))) == sys.(plane := sys.plane.(flows := sys.plane.flows[ip := Flow(1, 34)]))
    ensures CountsFor(lim, sys, Arrives(Probe(ip)), ip) && |Probe(ip).data| == 34
  {
    ProbeCounts(ip);
    DecodeSize(map[], Probe(ip));
    hide Probe, Decode;
    var a := Arrival(Request(ip, ip, false, None), 0, 0, 34);
    assert Raised(a, SynFlood, false) == Raised(a, PortScan, false) == [];
    assert sys.plane.log + [] + [] == sys.plane.log;
  }

  /** A run that loses a packet: it is counted in an entry made anew after a deletion, and not reported. */
  function CleanedRun(ip: IPv4): seq<Event> {
    [Deletes(FlowTable, ip), Arrives(Probe(ip)), Reads(ip, 5, true)]
  }

  lemma OneEvent(lim: Limits, sys: System, es: seq<Event>, e: Event, ip: IPv4)
    ensures Behave(lim, sys, es + [e]) == Next(lim, Behave(lim, sys, es), e)
    ensures CountedIn(lim, sys, es + [e], ip) ==
      if CountsFor(lim, Behave(lim, sys, es), e, ip)
      then PlusPacket(CountedIn(lim, sys, es, ip), |e.packet.data|) else CountedIn(lim, sys, es, ip)
  {
    assert Init(es + [e]) == es;
    hide Next, CountsFor;
  }

  lemma ThreeEvents(lim: Limits, sys: System, a: Event, b: Event, c: Event, ip: IPv4)
    requires !a.Arrives? && CountsFor(lim, Next(lim, sys, a), b, ip) && !c.Arrives?
    ensures Behave(lim, sys, [a, b, c]) == Next(lim, Next(lim, Next(lim, sys, a), b), c)
    ensures CountedIn(lim, sys, [a, b, c], ip) == Flow(1, |b.packet.data|)
  {
    hide Next;
    OneEvent(lim, sys, [], a, ip);
    OneEvent(lim, sys, [a], b, ip);
    OneEvent(lim, sys, [a, b], c, ip);
    assert [] + [a] == [a] && [a] + [b] == [a, b] && [a, b] + [c] == [a, b, c];
  }

  /** An address seen once, with 34 bytes, and read; nothing else. */
  ghost predicate SeenOnce(sys: System, ip: IPv4) {
    sys.plane == Boot(map[]).(flows := map[ip := Flow(1, 34)]) && sys.readings == map[ip := Flow(1, 34)]
  }

  /** Such a system comes about from start-up. */
  lemma SeenOnceHappens(lim: Limits, ip: IPv4)
    requires lim.size >= 1
    ensures SeenOnce(Behave(lim, System(Boot(map[]), map[], []), [Arrives(Probe(ip)), Reads(ip, 5, true)]), ip)
  {
    hide Probe, CountsFor;
    var start := System(Boot(map[]), map[], []);
    OneEvent(lim, start, [], Arrives(Probe(ip)), ip);
    OneEvent(lim, start, [Arrives(Probe(ip))], Reads(ip, 5, true), ip);
    assert [] + [Arrives(Probe(ip))] == [Arrives(Probe(ip))];
    assert [Arrives(Probe(ip))] + [Reads(ip, 5, true)] == [Arrives(Probe(ip)), Reads(ip, 5, true)];
    hide Behave;
    ProbeArrives(lim, start, ip);
  }

  /** From it the run goes from one current reading to the next, a packet is counted, and nothing is reported. */
  lemma CleaningHidesTraffic(lim: Limits, from: System, ip: IPv4)
    requires lim.size >= 1 && SeenOnce(from, ip)
    ensures var end, counted := Behave(lim, from, CleanedRun(ip)), CountedIn(lim, from, CleanedRun(ip), ip);
      && JustRead(from, ip) && JustRead(end, ip)
      && counted == Flow(1, 34) && Reported(end.reports, ip) == Reported(from.reports, ip)
  {
    hide Probe, Reported, CountsFor;
    var cleaned := System(Boot(map[]), map[ip := Flow(1, 34)], from.reports);
    assert Next(lim, from, Deletes(FlowTable, ip)) == cleaned;
    ProbeArrives(lim, cleaned, ip);
    ThreeEvents(lim, from, Deletes(FlowTable, ip), Arrives(Probe(ip)), Reads(ip, 5, true), ip);
    hide Behave, CountedIn;
    SumsAppend(from.reports, Report(ip, 5, 0, 0, 0, 0, Flow(1, 34)), ip);
  }

  // ---- scans and cleaner runs as events ----

  /** A statistics scan with nothing in between: one reading per key. */
  function ScanEvents(keys: seq<IPv4>, interval: int, memory: set<IPv4>): seq<Event> {
    seq(|keys|, i requires 0 <= i < |keys| => Reads(keys[i], interval, keys[i] in memory))
  }

  /** A cleaner run over one map with nothing in between: one deletion per key. */
  function CleanEvents(t: Table, keys: seq<IPv4>): seq<Event> {
    seq(|keys|, i requires 0 <= i < |keys| => Deletes(t, keys[i]))
  }

  lemma ScanEventsSnoc(keys: seq<IPv4>, interval: int, memory: set<IPv4>)
    requires keys != []
    ensures var es := ScanEvents(keys, interval, memory);
      && es != [] && Init(es) == ScanEvents(Init(keys), interval, memory)
      && Last(es) == Reads(Last(keys), interval, Last(keys) in memory)
    ensures keys == Init(keys) + [Last(keys)]
  {
  }

  /** An undisturbed scan does to the system what `read_and_report_stats` does to the reading cache. */
  lemma {:induction false} ScanIsEvents(lim: Limits, sys: System, keys: seq<IPv4>, interval: int, memory: set<IPv4>)
    requires forall k :: k in keys ==> k in sys.plane.flows
    ensures var (readings, more) := ScanSteps(sys.readings, keys, sys.plane.flows, interval, memory);
      Behave(lim, sys, ScanEvents(keys, interval, memory)) == System(sys.plane, readings, sys.reports + more)
  {
    hide ReportStep, Step, ScanEvents;
    if keys == [] {
      NoScanEvents(interval, memory);
      assert sys.reports + [] == sys.reports;
    } else {
      ScanEventsSnoc(keys, interval, memory);
      ScanIsEvents(lim, sys, Init(keys), interval, memory);
      ScanStepsSnoc(sys.readings, Init(keys), Last(keys), sys.plane.flows, interval, memory);
      hide ScanSteps;
      var (readings, reports) := ScanSteps(sys.readings, Init(keys), sys.plane.flows, interval, memory);
      var more := ReportStep(readings, Last(keys), sys.plane.flows[Last(keys)], interval, Last(keys) in memory).1;
      assert sys.reports + (reports + more) == (sys.reports + reports) + more;
    }
  }

  lemma NoScanEvents(interval: int, memory: set<IPv4>)
    ensures ScanEvents([], interval, memory) == []
  {
  }

  /** The state without any entry in t. */
  function Emptied(s: State, t: Table): State {
    match t
    case FlowTable => s.(flows := map[])
    case SynTable => s.(syns := map[])
    case ScanTable => s.(scans := map[])
  }

  function WithoutKeys(s: State, t: Table, keys: set<IPv4>): State {
    match t
    case FlowTable => s.(flows := s.flows - keys)
    case SynTable => s.(syns := s.syns - keys)
    case ScanTable => s.(scans := s.scans - keys)
  }

  lemma WithoutKeysStep(s: State, t: Table, keys: set<IPv4>, key: IPv4)
    ensures WithoutKeys(s, t, {}) == s
    ensures DeleteKey(WithoutKeys(s, t, keys), t, key) == WithoutKeys(s, t, keys + {key})
    ensures Keys(t, s) <= keys ==> WithoutKeys(s, t, keys) == Emptied(s, t)
  {
    match t
    case FlowTable => assert s.flows - keys - {key} == s.flows - (keys + {key});
    case SynTable => assert s.syns - keys - {key} == s.syns - (keys + {key});
    case ScanTable => assert s.scans - keys - {key} == s.scans - (keys + {key});
  }

  lemma {:induction false} DeletesRemove(lim: Limits, sys: System, t: Table, keys: seq<IPv4>)
    ensures Behave(lim, sys, CleanEvents(t, keys)) == sys.(plane := WithoutKeys(sys.plane, t, SetOf(keys)))
  {
    hide WithoutKeys, DeleteKey;
    if keys == [] {
      WithoutKeysStep(sys.plane, t, {}, ZERO_IP);
      assert SetOf(keys) == {};
    } else {
      DeletesRemove(lim, sys, t, Init(keys));
      assert Init(CleanEvents(t, keys)) == CleanEvents(t, Init(keys));
      assert keys == Init(keys) + [Last(keys)];
      assert SetOf(keys) == SetOf(Init(keys)) + {Last(keys)};
      WithoutKeysStep(sys.plane, t, SetOf(Init(keys)), Last(keys));
    }
  }

  /** An undisturbed run of `clean_map` over a table, whatever its iteration order: the deletions it makes empty that
    table and touch nothing else, unless 0.0.0.0 is last in order; then nothing happens. */
  lemma CleanIsEvents(lim: Limits, sys: System, t: Table, order: seq<IPv4>)
    requires DistinctKeys(order) && forall k :: k in order <==> k in Keys(t, sys.plane)
    ensures Behave(lim, sys, CleanEvents(t, DeletionOrder(order))) ==
      if ZeroIsLast(order) then sys else sys.(plane := Emptied(sys.plane, t))
  {
    var keys := DeletionOrder(order);
    DeletionOrderIsAll(order);
    hide DeletionOrder;
    DeletesRemove(lim, sys, t, keys);
    hide Behave;
    WithoutKeysStep(sys.plane, t, SetOf(keys), ZERO_IP);
    if ZeroIsLast(order) {
      assert SetOf(keys) == {};
    }
  }
}
