/** From packets to the backend: what the loader says about a run of the detector, and what arrives of it. */
module Pipeline {
  import opened Common
  import opened DataPlane
  import opened Traces
  import opened RateReporter
  import opened Detector
  import opened Text
  import opened Framing
  import opened Broadcast
  import opened Reader
  import opened Segments

  // ---- the loader's two messages ----

  function KindCode(kind: AlertKind): nat {
    match kind
    case SynFlood => 1
    case PortScan => 2
  }

  /** `handle_alert` */
  function AlertMessage(a: Alert): string {
    Snprintf(BUFFER_SIZE, AlertText(a.src, a.dst, KindCode(a.kind), a.timestamp))
  }

  /** The message of `report_flow_rate`, at clock `now`. */
  function ReportMessage(r: Report, now: int): string {
    Snprintf(BUFFER_SIZE, FlowText(r.ip, r.pps, r.bytesPerSec, r.total.pkts, r.total.bytes, now))
  }

  predicate IsTime(now: int) {
    -0x8000_0000_0000_0000 <= now < 0x8000_0000_0000_0000
  }

  /** The message is the loader's wording of an alert or of a report of this system. */
  ghost predicate Says(sys: System, m: string) {
    || (exists a :: a in sys.plane.log && m == AlertMessage(a))
    || exists r, now :: r in sys.reports && IsTime(now) && m == ReportMessage(r, now)
  }

  // ---- every number fits 64 bits ----

  ghost predicate ReportFits(r: Report) {
    r.pps < U64 && r.bytesPerSec < U64 && BelowWrap(r.total)
  }

  ghost predicate AlertsFit(log: seq<Alert>) {
    forall a :: a in log ==> a.timestamp < U64
  }

  ghost predicate ReadingsFit(flows: map<IPv4, Flow>) {
    forall ip :: ip in flows ==> BelowWrap(flows[ip])
  }

  ghost predicate Bounded(sys: System) {
    AlertsFit(sys.plane.log) && ReadingsFit(sys.plane.flows) && ReadingsFit(sys.readings)
    && forall r :: r in sys.reports ==> ReportFits(r)
  }

  /** The kernel clock is a 64-bit number. */
  ghost predicate ClockFits(e: Event) {
    e.Arrives? ==> e.packet.now < U64
  }

  lemma ArrivalFits(lim: Limits, s: State, a: Arrival)
    requires ReadingsFit(s.flows) && AlertsFit(s.log) && a.now < U64
    ensures ReadingsFit(Apply(lim, s, a).flows) && AlertsFit(Apply(lim, s, a).log)
  {
    hide SynPart, ScanPart;
  }

  lemma RateFits(current: nat, last: nat, interval: int)
    requires current < U64
    ensures Rate(Delta(current, last), interval) < U64
  {
    RateExact(Delta(current, last), interval);
    FactorAtMost(Seconds(interval), Rate(Delta(current, last), interval));
    hide Rate;
  }

  lemma FactorAtMost(a: nat, b: nat)
    requires a > 0
    ensures b <= a * b
  {
    assert a * b == b + (a - 1) * b;
  }

  lemma ReportStepFits(readings: map<IPv4, Flow>, ip: IPv4, current: Flow, interval: int, memory: bool)
    requires ReadingsFit(readings) && BelowWrap(current)
    ensures var (after, more) := ReportStep(readings, ip, current, interval, memory);
      ReadingsFit(after) && forall r :: r in more ==> ReportFits(r)
  {
    if ip in readings {
      RateFits(current.pkts, readings[ip].pkts, interval);
      RateFits(current.bytes, readings[ip].bytes, interval);
    }
    hide Rate;
  }

  lemma BoundedStep(lim: Limits, sys: System, e: Event)
    requires Bounded(sys) && ClockFits(e)
    ensures Bounded(Next(lim, sys, e))
  {
    hide Apply, ReportStep, Parse, RequestOf, ReportFits;
    match e
    case Arrives(p) => ArrivalFits(lim, sys.plane, Decode(sys.plane.blacklist, p));
    case Deletes(_, _) =>
    case Reads(ip, interval, memory) =>
      if ip in sys.plane.flows {
        ReportStepFits(sys.readings, ip, sys.plane.flows[ip], interval, memory);
      }
  }

  lemma {:induction false} BoundedThroughout(lim: Limits, start: System, es: seq<Event>)
    requires Bounded(start) && forall i :: 0 <= i < |es| ==> ClockFits(es[i])
    ensures Bounded(Behave(lim, start, es))
  {
    hide Next, Bounded, ClockFits;
    if es != [] {
      BoundedThroughout(lim, start, Init(es));
      BoundedStep(lim, Behave(lim, start, Init(es)), Last(es));
    }
  }

  lemma SaidIsMessage(sys: System, m: string)
    requires Bounded(sys) && Says(sys, m)
    ensures IsMessage(m) && |m| < BUFFER_SIZE
  {
    hide AlertText, FlowText, IsMessage, Snprintf;
    if a :| a in sys.plane.log && m == AlertMessage(a) {
      AlertFits(a.src, a.dst, KindCode(a.kind), a.timestamp);
    } else {
      var r, now :| r in sys.reports && IsTime(now) && m == ReportMessage(r, now);
      assert ReportFits(r);
      FlowFits(r.ip, r.pps, r.bytesPerSec, r.total.pkts, r.total.bytes, now);
    }
  }

  /** Whatever the run, everything the loader says about it is one framed line that fits its buffer uncut. */
  lemma RunsSayMessages(lim: Limits, start: System, es: seq<Event>, m: string)
    requires Bounded(start) && forall i :: 0 <= i < |es| ==> ClockFits(es[i])
    requires Says(Behave(lim, start, es), m)
    ensures IsMessage(m) && |m| < BUFFER_SIZE
  {
    BoundedThroughout(lim, start, es);
    SaidIsMessage(Behave(lim, start, es), m);
  }

  // ---- the loader, turn by turn ----

  /** Something the loader says: the handling of an alert, or a report made at some time. */
  datatype Word = OfAlert(alert: Alert) | OfReport(report: Report, now: int)

  function TextOf(w: Word): string {
    match w
    case OfAlert(a) => AlertMessage(a)
    case OfReport(r, now) => ReportMessage(r, now)
  }

  function Texts(said: seq<Word>): (r: seq<string>)
    ensures |r| == |said| && forall i :: 0 <= i < |r| ==> r[i] == TextOf(said[i])
  {
    seq(|said|, i requires 0 <= i < |said| => TextOf(said[i]))
  }

  /** The detector with its ring buffer, and what the loader has said so far. */
  datatype Loader = Loader(sys: System, ring: seq<Alert>, said: seq<Word>)

  /** One step of the whole: a packet, whose alerts the ring buffer may have no room for; a deletion by the cleaner; a
    poll handing over the first alerts in the ring buffer; one key of a statistics scan. */
  datatype Turn =
    | Packets(packet: Packet, floodLost: bool, scanLost: bool)
    | Cleans(table: Table, ip: IPv4)
    | Polls(count: nat)
    | Scans(ip: IPv4, interval: int, memory: bool, now: int)

  function EventsOf(t: Turn): seq<Event> {
    match t
    case Packets(p, _, _) => [Arrives(p)]
    case Cleans(table, ip) => [Deletes(table, ip)]
    case Polls(_) => []
    case Scans(ip, interval, memory, _) => [Reads(ip, interval, memory)]
  }

  function EventsOfAll(turns: seq<Turn>): seq<Event> {
    if turns == [] then [] else EventsOfAll(Init(turns)) + EventsOf(Last(turns))
  }

  /** The part of a log or a report list that is new. */
  function News<T>(before: seq<T>, after: seq<T>): seq<T> {
    if |before| <= |after| then after[|before|..] else []
  }

  /** The alerts the ring buffer has room for. */
  function Stored(raised: seq<Alert>, floodLost: bool, scanLost: bool): seq<Alert> {
    if raised == [] then []
    else
      Stored(Init(raised), floodLost, scanLost)
      + (if (if Last(raised).kind == SynFlood then floodLost else scanLost) then [] else [Last(raised)])
  }

  function AlertWords(alerts: seq<Alert>): seq<Word> {
    seq(|alerts|, i requires 0 <= i < |alerts| => OfAlert(alerts[i]))
  }

  function ReportWords(reports: seq<Report>, now: int): seq<Word> {
    seq(|reports|, i requires 0 <= i < |reports| => OfReport(reports[i], now))
  }

  function Handed(ring: seq<Alert>, count: nat): nat {
    if count < |ring| then count else |ring|
  }

  function Take(lim: Limits, l: Loader, t: Turn): Loader {
    match t
    case Packets(p, floodLost, scanLost) =>
      var after := Next(lim, l.sys, Arrives(p));
      Loader(after, l.ring + Stored(News(l.sys.plane.log, after.plane.log), floodLost, scanLost), l.said)
    case Cleans(table, ip) => l.(sys := Next(lim, l.sys, Deletes(table, ip)))
    case Polls(count) =>
      var n := Handed(l.ring, count);
      l.(ring := l.ring[n..], said := l.said + AlertWords(l.ring[..n]))
    case Scans(ip, interval, memory, now) =>
      var after := Next(lim, l.sys, Reads(ip, interval, memory));
      l.(sys := after, said := l.said + ReportWords(News(l.sys.reports, after.reports), now))
  }

  function TakeAll(lim: Limits, l: Loader, turns: seq<Turn>): Loader {
    if turns == [] then l else Take(lim, TakeAll(lim, l, Init(turns)), Last(turns))
  }

  function StartUp(bl: map<IPv4, Byte>): Loader {
    Loader(System(Boot(bl), map[], []), [], [])
  }

  function AlertsIn(said: seq<Word>): seq<Alert> {
    if said == [] then []
    else AlertsIn(Init(said)) + (if Last(said).OfAlert? then [Last(said).alert] else [])
  }

  function ReportsIn(said: seq<Word>): seq<Report> {
    if said == [] then []
    else ReportsIn(Init(said)) + (if Last(said).OfReport? then [Last(said).report] else [])
  }

  lemma {:induction false} AlertsInAppend(said: seq<Word>, more: seq<Word>)
    ensures AlertsIn(said + more) == AlertsIn(said) + AlertsIn(more)
  {
    if more == [] {
      assert said + more == said;
    } else {
      AlertsInAppend(said, Init(more));
      assert Init(said + more) == said + Init(more);
    }
  }

  lemma {:induction false} ReportsInAppend(said: seq<Word>, more: seq<Word>)
    ensures ReportsIn(said + more) == ReportsIn(said) + ReportsIn(more)
  {
    if more == [] {
      assert said + more == said;
    } else {
      ReportsInAppend(said, Init(more));
      assert Init(said + more) == said + Init(more);
    }
  }

  lemma {:induction false} AlertWordsAre(alerts: seq<Alert>)
    ensures AlertsIn(AlertWords(alerts)) == alerts && ReportsIn(AlertWords(alerts)) == []
  {
    if alerts != [] {
      AlertWordsAre(Init(alerts));
      assert Init(AlertWords(alerts)) == AlertWords(Init(alerts));
      assert alerts == Init(alerts) + [Last(alerts)];
    }
  }

  lemma {:induction false} ReportWordsAre(reports: seq<Report>, now: int)
    ensures ReportsIn(ReportWords(reports, now)) == reports && AlertsIn(ReportWords(reports, now)) == []
  {
    if reports != [] {
      ReportWordsAre(Init(reports), now);
      assert Init(ReportWords(reports, now)) == ReportWords(Init(reports), now);
      assert reports == Init(reports) + [Last(reports)];
    }
  }

  lemma {:induction false} AllStored(raised: seq<Alert>)
    ensures Stored(raised, false, false) == raised
  {
    if raised != [] {
      AllStored(Init(raised));
      assert raised == Init(raised) + [Last(raised)];
    }
  }

  /** What the ring buffer takes of the alerts raised are those of the kinds it has room for. */
  lemma {:induction false} StoredWereRaised(raised: seq<Alert>, floodLost: bool, scanLost: bool)
    ensures forall a :: a in Stored(raised, floodLost, scanLost) <==>
              a in raised && !(a.kind == SynFlood && floodLost) && !(a.kind == PortScan && scanLost)
  {
    if raised != [] {
      StoredWereRaised(Init(raised), floodLost, scanLost);
      assert raised == Init(raised) + [Last(raised)];
    }
  }

  /** No step takes anything out of the alert log or the reports. */
  lemma LogsGrow(lim: Limits, sys: System, e: Event)
    ensures sys.plane.log + News(sys.plane.log, Next(lim, sys, e).plane.log) == Next(lim, sys, e).plane.log
    ensures sys.reports + News(sys.reports, Next(lim, sys, e).reports) == Next(lim, sys, e).reports
    ensures !e.Arrives? ==> News(sys.plane.log, Next(lim, sys, e).plane.log) == []
    ensures !e.Reads? ==> News(sys.reports, Next(lim, sys, e).reports) == []
  {
    hide Parse, RequestOf, SynPart, ScanPart, CountFlow, ReportStep, Raised;
  }

  /** The ring buffer had room for every alert. */
  predicate NothingLost(turns: seq<Turn>) {
    forall t :: t in turns && t.Packets? ==> !t.floodLost && !t.scanLost
  }

  /** Every alert the ring buffer took was handed over in order, or still waits; every report was said in order. */
  ghost predicate Accounted(l: Loader, complete: bool) {
    && ReportsIn(l.said) == l.sys.reports
    && (forall a :: a in AlertsIn(l.said) + l.ring ==> a in l.sys.plane.log)
    && (complete ==> AlertsIn(l.said) + l.ring == l.sys.plane.log)
  }

  lemma AccountedStep(lim: Limits, l: Loader, t: Turn, complete: bool)
    requires Accounted(l, complete) && (complete && t.Packets? ==> !t.floodLost && !t.scanLost)
    ensures Accounted(Take(lim, l, t), complete)
  {
    hide Next, Stored, News, AlertsIn, ReportsIn, AlertWords, ReportWords;
    match t
    case Packets(p, floodLost, scanLost) =>
      LogsGrow(lim, l.sys, Arrives(p));
      var raised := News(l.sys.plane.log, Next(lim, l.sys, Arrives(p)).plane.log);
      StoredWereRaised(raised, floodLost, scanLost);
      if complete {
        AllStored(raised);
        assert AlertsIn(l.said) + (l.ring + raised) == (AlertsIn(l.said) + l.ring) + raised;
      }
      assert l.sys.reports + [] == l.sys.reports;
    case Cleans(table, ip) =>
      LogsGrow(lim, l.sys, Deletes(table, ip));
      assert l.sys.plane.log + [] == l.sys.plane.log && l.sys.reports + [] == l.sys.reports;
    case Polls(count) =>
      var n := Handed(l.ring, count);
      AlertsInAppend(l.said, AlertWords(l.ring[..n]));
      ReportsInAppend(l.said, AlertWords(l.ring[..n]));
      AlertWordsAre(l.ring[..n]);
      assert (AlertsIn(l.said) + l.ring[..n]) + l.ring[n..] == AlertsIn(l.said) + l.ring;
      assert ReportsIn(l.said) + [] == ReportsIn(l.said);
    case Scans(ip, interval, memory, now) =>
      LogsGrow(lim, l.sys, Reads(ip, interval, memory));
      var made := News(l.sys.reports, Next(lim, l.sys, Reads(ip, interval, memory)).reports);
      AlertsInAppend(l.said, ReportWords(made, now));
      ReportsInAppend(l.said, ReportWords(made, now));
      ReportWordsAre(made, now);
      assert AlertsIn(l.said) + [] == AlertsIn(l.said) && l.sys.plane.log + [] == l.sys.plane.log;
  }

  lemma {:induction false} AccountedThroughout(lim: Limits, bl: map<IPv4, Byte>, turns: seq<Turn>)
    ensures Accounted(TakeAll(lim, StartUp(bl), turns), NothingLost(turns))
  {
    hide Take;
    if turns != [] {
      AccountedThroughout(lim, bl, Init(turns));
      assert turns == Init(turns) + [Last(turns)];
      var before := TakeAll(lim, StartUp(bl), Init(turns));
      assert NothingLost(turns) ==> NothingLost(Init(turns));
      hide NothingLost;
      AccountedStep(lim, before, Last(turns), NothingLost(turns));
    }
  }

  lemma {:induction false} BehaveAppend(lim: Limits, sys: System, es: seq<Event>, more: seq<Event>)
    requires |more| <= 1
    ensures Behave(lim, sys, es + more) ==
      if more == [] then Behave(lim, sys, es) else Next(lim, Behave(lim, sys, es), more[0])
  {
    hide Next;
    if more == [] {
      assert es + more == es;
    } else {
      assert Init(es + more) == es && Last(es + more) == more[0];
    }
  }

  lemma TurnIsEvent(lim: Limits, l: Loader, t: Turn)
    ensures |EventsOf(t)| <= 1
    ensures Take(lim, l, t).sys == if EventsOf(t) == [] then l.sys else Next(lim, l.sys, EventsOf(t)[0])
  {
    hide Next, News, Stored, Handed, AlertWords, ReportWords;
  }

  /** Polling leaves the detector alone: under the loader it runs as it does by itself. */
  lemma {:induction false} TurnsAreEvents(lim: Limits, l: Loader, turns: seq<Turn>)
    ensures TakeAll(lim, l, turns).sys == Behave(lim, l.sys, EventsOfAll(turns))
  {
    hide Next, Take, EventsOf;
    if turns == [] {
      assert EventsOfAll(turns) == [];
    } else {
      TurnsAreEvents(lim, l, Init(turns));
      TurnIsEvent(lim, TakeAll(lim, l, Init(turns)), Last(turns));
      BehaveAppend(lim, l.sys, EventsOfAll(Init(turns)), EventsOf(Last(turns)));
    }
  }

  /** The loader as it runs: shared maps and ring buffer, and the server it broadcasts through. */
  class Daemon {
    const lim: Limits
    const server: Server
    var state: Loader

    /** What was broadcast is what the loader said, in order. */
    ghost predicate Valid()
      reads this, server, server.clientFds
    {
      server.Valid() && server.broadcasts == Texts(state.said)
    }

    constructor (lim: Limits, bl: map<IPv4, Byte>)
      ensures Valid() && this.lim == lim && state == StartUp(bl) && fresh(server) && fresh(server.clientFds)
    {
      this.lim, state := lim, StartUp(bl);
      server := new Server();
    }

    /** New connections change nothing about what is said. */
    method Accept(queue: seq<nat>)
      requires Valid() && forall q :: 0 <= q < |queue| ==> queue[q] !in server.delivered
      requires forall p, q :: 0 <= p < q < |queue| ==> queue[p] != queue[q]
      modifies server, server.clientFds
      ensures Valid() && state == old(state)
      ensures server.clientFds[..] == SeatAll(old(server.clientFds[..]), queue)
    {
      server.AcceptClients(queue);
    }

    /** A packet, or a deletion by the cleaner. */
    method Outside(t: Turn)
      requires Valid() && (t.Packets? || t.Cleans?)
      modifies this
      ensures Valid() && state == Take(lim, old(state), t)
    {
      state := Take(lim, state, t);
    }

    /** ring_buffer__poll: each record handed over goes through `handle_alert`. */
    method Poll(count: nat, outcomes: seq<seq<Outcome>>)
      requires Valid() && |outcomes| >= |state.ring|
      requires forall i :: 0 <= i < |outcomes| ==> |outcomes[i]| == MAX_CLIENTS
      modifies this, server, server.clientFds
      ensures Valid() && state == Take(lim, old(state), Polls(count))
    {
      hide AlertMessage, InOrder, SlotsFit, DeliveredAfter, KeptFd;
      var n, ring := Handed(state.ring, count), state.ring;
      ghost var said := state.said;
      assert said + AlertWords(ring[..0]) == said;
      for i := 0 to n
        invariant server.Valid() && state == old(state)
        invariant server.broadcasts == Texts(said + AlertWords(ring[..i]))
      {
        assert said + AlertWords(ring[..i + 1]) == (said + AlertWords(ring[..i])) + [OfAlert(ring[i])];
        TextsSnoc(said + AlertWords(ring[..i]), OfAlert(ring[i]));
        server.BroadcastJsonLine(AlertMessage(ring[i]), outcomes[i]);
      }
      state := Take(lim, state, Polls(count));
    }

    /** One key of a statistics scan. */
    method Scan(t: Turn, outcomes: seq<Outcome>)
      requires Valid() && t.Scans? && |outcomes| == MAX_CLIENTS
      modifies this, server, server.clientFds
      ensures Valid() && state == Take(lim, old(state), t)
    {
      ghost var said := state.said;
      var before := state.sys.reports;
      OneReport(lim, state.sys, t);
      state := Take(lim, state, t);
      var made := News(before, state.sys.reports);
      if made != [] {
        assert ReportWords(made, t.now) == [OfReport(made[0], t.now)];
        TextsSnoc(said, OfReport(made[0], t.now));
        server.BroadcastJsonLine(ReportMessage(made[0], t.now), outcomes);
      } else {
        assert state.said == said + [] == said;
      }
    }
  }

  lemma TextsSnoc(said: seq<Word>, w: Word)
    ensures Texts(said + [w]) == Texts(said) + [TextOf(w)]
  {
  }

  /** A scan step makes at most one report. */
  lemma OneReport(lim: Limits, sys: System, t: Turn)
    requires t.Scans?
    ensures |News(sys.reports, Next(lim, sys, Reads(t.ip, t.interval, t.memory)).reports)| <= 1
  {
    if t.ip in sys.plane.flows {
      ReportMade(sys.readings, t.ip, sys.plane.flows[t.ip], t.interval, t.memory);
    }
    hide ReportStep;
  }

  // ---- what arrives ----

  /** The clocks of packets and scans are 64-bit numbers. */
  ghost predicate InTime(t: Turn) {
    (t.Packets? ==> t.packet.now < U64) && (t.Scans? ==> IsTime(t.now))
  }

  function BodyOf(m: string): string {
    if m == "" then "" else m[..|m| - 1]
  }

  /** What a receiver reads off a sequence of lines: the alerts, and the flow rates. */
  function AlertsRead(lines: seq<string>): seq<AlertSeen> {
    if lines == [] then []
    else
      var before, x := AlertsRead(Init(lines)), ReadAlert(Last(lines));
      if x.Some? then before + [x.value] else before
  }

  function FlowsRead(lines: seq<string>): seq<FlowSeen> {
    if lines == [] then []
    else
      var before, x := FlowsRead(Init(lines)), ReadFlow(Last(lines));
      if x.Some? then before + [x.value] else before
  }

  /** The alerts as the detector raised them. */
  function AlertsOf(log: seq<Alert>): (r: seq<AlertSeen>)
    ensures |r| == |log|
  {
    seq(|log|, i requires 0 <= i < |log| => AlertSeen(log[i].src, log[i].dst, log[i].kind, log[i].timestamp))
  }

  /** The flow rates are those of the reports, in order, each once, at some time each. */
  ghost predicate FlowsOf(flows: seq<FlowSeen>, reports: seq<Report>) {
    && |flows| == |reports|
    && forall i :: 0 <= i < |flows| ==>
         var r := reports[i];
         flows[i] == FlowSeen(r.ip, r.pps, r.bytesPerSec, r.total.pkts, r.total.bytes, flows[i].time)
  }

  /** The line of an alert is read back as that alert. */
  lemma AlertWordFits(a: Alert)
    requires a.timestamp < U64
    ensures IsMessage(AlertMessage(a))
    ensures ReadAlert(BodyOf(AlertMessage(a))) == Some(AlertSeen(a.src, a.dst, a.kind, a.timestamp))
    ensures ReadFlow(BodyOf(AlertMessage(a))) == None
  {
    hide AlertBody, IsMessage, Snprintf, ReadAlert, ReadFlow;
    AlertFits(a.src, a.dst, KindCode(a.kind), a.timestamp);
    AlertReadsBack(a.src, a.dst, a.kind, KindCode(a.kind), a.timestamp);
    var body := AlertBody(a.src, a.dst, KindCode(a.kind), a.timestamp);
    assert (body + "\n")[..|body|] == body;
    KindsDiffer(body);
  }

  lemma ReportWordFits(r: Report, now: int)
    requires ReportFits(r) && IsTime(now)
    ensures IsMessage(ReportMessage(r, now))
    ensures ReadFlow(BodyOf(ReportMessage(r, now))) ==
      Some(FlowSeen(r.ip, r.pps, r.bytesPerSec, r.total.pkts, r.total.bytes, now))
    ensures ReadAlert(BodyOf(ReportMessage(r, now))) == None
  {
    hide FlowBody, IsMessage, Snprintf, ReadAlert, ReadFlow;
    FlowFits(r.ip, r.pps, r.bytesPerSec, r.total.pkts, r.total.bytes, now);
    FlowReadsBack(r.ip, r.pps, r.bytesPerSec, r.total.pkts, r.total.bytes, now);
    var body := FlowBody(r.ip, r.pps, r.bytesPerSec, r.total.pkts, r.total.bytes, now);
    assert (body + "\n")[..|body|] == body;
    KindsDiffer(body);
  }

  // ---- the lines of a run ----

  /** Every word of the run is about an alert or a report of it, and made at a time. */
  ghost predicate WordFits(sys: System, w: Word) {
    match w
    case OfAlert(a) => a in sys.plane.log
    case OfReport(r, now) => r in sys.reports && IsTime(now)
  }

  ghost predicate WordsFit(l: Loader) {
    (forall a :: a in l.ring ==> a in l.sys.plane.log) && forall w :: w in l.said ==> WordFits(l.sys, w)
  }

  lemma WordsStep(lim: Limits, l: Loader, t: Turn)
    requires WordsFit(l) && InTime(t)
    ensures WordsFit(Take(lim, l, t))
  {
    hide Next, Stored, News, AlertsIn, ReportsIn;
    match t
    case Packets(p, floodLost, scanLost) =>
      LogsGrow(lim, l.sys, Arrives(p));
      StoredWereRaised(News(l.sys.plane.log, Next(lim, l.sys, Arrives(p)).plane.log), floodLost, scanLost);
    case Cleans(table, ip) => LogsGrow(lim, l.sys, Deletes(table, ip));
    case Polls(count) =>
    case Scans(ip, interval, memory, now) => LogsGrow(lim, l.sys, Reads(ip, interval, memory));
  }

  lemma {:induction false} WordsThroughout(lim: Limits, bl: map<IPv4, Byte>, turns: seq<Turn>)
    requires forall i :: 0 <= i < |turns| ==> InTime(turns[i])
    ensures WordsFit(TakeAll(lim, StartUp(bl), turns))
  {
    hide Take, WordsFit, InTime;
    if turns == [] {
      NoWords(bl);
    } else {
      WordsThroughout(lim, bl, Init(turns));
      WordsStep(lim, TakeAll(lim, StartUp(bl), Init(turns)), Last(turns));
    }
  }

  lemma NoWords(bl: map<IPv4, Byte>)
    ensures WordsFit(StartUp(bl))
  {
  }

  lemma {:induction false} TurnsInTime(turns: seq<Turn>)
    requires forall i :: 0 <= i < |turns| ==> InTime(turns[i])
    ensures forall i :: 0 <= i < |EventsOfAll(turns)| ==> ClockFits(EventsOfAll(turns)[i])
  {
    if turns != [] {
      TurnsInTime(Init(turns));
      assert InTime(Last(turns));
    }
  }

  /** What the loader has said after a run is messages, about that run. */
  lemma RunIsSaid(lim: Limits, bl: map<IPv4, Byte>, turns: seq<Turn>)
    requires forall i :: 0 <= i < |turns| ==> InTime(turns[i])
    ensures var l := TakeAll(lim, StartUp(bl), turns);
      && Bounded(l.sys) && WordsFit(l) && AllMessages(Texts(l.said))
  {
    hide TakeAll, StartUp, EventsOfAll, Bounded, WordsFit, InTime, ClockFits, Behave;
    var l := TakeAll(lim, StartUp(bl), turns);
    TurnsAreEvents(lim, StartUp(bl), turns);
    TurnsInTime(turns);
    StartsBounded(bl);
    BoundedThroughout(lim, StartUp(bl).sys, EventsOfAll(turns));
    WordsThroughout(lim, bl, turns);
    forall i | 0 <= i < |l.said| ensures IsMessage(Texts(l.said)[i]) {
      WordIsMessage(l, l.said[i]);
    }
    hide IsMessage;
  }

  lemma StartsBounded(bl: map<IPv4, Byte>)
    ensures Bounded(StartUp(bl).sys)
  {
  }

  /** What is read off the line of a word. */
  ghost predicate ReadsAs(w: Word, line: string) {
    match w
    case OfAlert(a) =>
      ReadAlert(line) == Some(AlertSeen(a.src, a.dst, a.kind, a.timestamp)) && ReadFlow(line) == None
    case OfReport(r, now) =>
      && ReadFlow(line) == Some(FlowSeen(r.ip, r.pps, r.bytesPerSec, r.total.pkts, r.total.bytes, now))
      && ReadAlert(line) == None
  }

  lemma WordIsMessage(l: Loader, w: Word)
    requires Bounded(l.sys) && WordsFit(l) && w in l.said
    ensures IsMessage(TextOf(w)) && ReadsAs(w, BodyOf(TextOf(w))) && Says(l.sys, TextOf(w))
  {
    hide AlertMessage, ReportMessage, IsMessage, ReadAlert, ReadFlow;
    assert WordFits(l.sys, w);
    match w
    case OfAlert(a) => AlertWordFits(a);
    case OfReport(r, now) => ReportWordFits(r, now);
  }

  lemma {:induction false} BodiesSnoc(messages: seq<string>, m: string)
    requires m != ""
    ensures Bodies(messages + [m]) == Bodies(messages) + [BodyOf(m)]
  {
    if messages != [] {
      BodiesSnoc(messages[1..], m);
      assert (messages + [m])[1..] == messages[1..] + [m];
    }
  }

  lemma NotEmpty(m: string)
    requires IsMessage(m)
    ensures m != ""
  {
  }

  lemma ReadSnoc(lines: seq<string>, line: string)
    ensures AlertsRead(lines + [line]) == AlertsRead(lines) + match ReadAlert(line) case Some(x) => [x] case None => []
    ensures FlowsRead(lines + [line]) == FlowsRead(lines) + match ReadFlow(line) case Some(x) => [x] case None => []
  {
    hide ReadAlert, ReadFlow;
    assert Init(lines + [line]) == lines;
  }

  lemma BodiesOfTexts(said: seq<Word>, w: Word)
    requires IsMessage(TextOf(w))
    ensures Bodies(Texts(said + [w])) == Bodies(Texts(said)) + [BodyOf(TextOf(w))]
  {
    hide IsMessage, TextOf, Bodies, BodyOf;
    TextsSnoc(said, w);
    NotEmpty(TextOf(w));
    BodiesSnoc(Texts(said), TextOf(w));
  }

  /** What is read off the lines of what was said is what was said. */
  lemma {:induction false} SaidIsRead(l: Loader, said: seq<Word>)
    requires Bounded(l.sys) && WordsFit(l) && forall w :: w in said ==> w in l.said
    ensures AlertsRead(Bodies(Texts(said))) == AlertsOf(AlertsIn(said))
    ensures FlowsOf(FlowsRead(Bodies(Texts(said))), ReportsIn(said))
  {
    hide Bounded, WordsFit, Bodies, TextOf, BodyOf, IsMessage, Says, ReadAlert, ReadFlow, AlertsRead, FlowsRead;
    if said == [] {
      NothingRead();
      assert Texts(said) == [];
    } else {
      var init, w := Init(said), Last(said);
      assert said == init + [w];
      SaidIsRead(l, init);
      WordIsMessage(l, w);
      BodiesOfTexts(init, w);
      ReadSnoc(Bodies(Texts(init)), BodyOf(TextOf(w)));
    }
  }

  lemma NothingRead()
    ensures AlertsRead(Bodies([])) == [] && FlowsRead(Bodies([])) == []
  {
  }

  // ---- end to end ----

  lemma SubsequenceFull(a: seq<string>, b: seq<string>)
    requires Subsequence(a, b) && |a| == |b|
    ensures a == b
  {
    if a != [] {
      var init := b[..|b| - 1];
      if Subsequence(a, init) {
        SubsequenceMembers(a, init);
      } else {
        SubsequenceFull(a[..|a| - 1], init);
        assert a == a[..|a| - 1] + [a[|a| - 1]];
      }
    }
  }

  /** No send to a client that was there from the start failed or was cut. */
  ghost predicate GotEverything(server: Server, c: int)
    reads server
  {
    c in server.delivered && |server.delivered[c]| == |server.broadcasts| && AllWhole(server.delivered[c])
  }

  /** A client that was there from the start hands on every line broadcast, in order, each once, if and only if no send
    to it failed or was cut. */
  lemma EverythingExactly(server: Server, c: int, receiver: Receiver)
    requires server.Valid() && c in server.delivered && server.joined[c] == 0 && receiver.Valid()
    requires AllMessages(server.broadcasts) && receiver.stream == Stream(server.delivered[c])
    ensures receiver.handled == Bodies(server.broadcasts) <==> GotEverything(server, c)
    ensures GotEverything(server, c) ==> receiver.buffer == ""
  {
    hide Subsequence, AllMessages, AllWhole, Handled, Lines, Tail, Newlines, WholeCount, Stream, Bodies;
    var sent := server.delivered[c];
    assert server.broadcasts[0..] == server.broadcasts;
    SentMessages(server, c);
    SubsequenceMembers(Messages(sent), server.broadcasts);
    EndToEnd(server, c, receiver);
    if |sent| == |server.broadcasts| {
      SubsequenceFull(Messages(sent), server.broadcasts);
    } else {
      BodiesCount(server.broadcasts);
      StreamNewlines(sent);
      LinesAreNewlines(Stream(sent));
      HandledAtMost(Lines(Stream(sent)));
    }
  }

  /** From the packets to the backend, for any client: after any run of packets, deletions, polls and scans, and any
    chunking, the backend has handed on exactly what was sent to it, which is a subsequence of what was broadcast since
    it joined, if and only if no send was cut; and then each of its lines is about an alert or a report of the run. */
  lemma FromPacketsToLines(daemon: Daemon, bl: map<IPv4, Byte>, turns: seq<Turn>, c: int, receiver: Receiver)
    requires daemon.Valid() && daemon.state == TakeAll(daemon.lim, StartUp(bl), turns)
    requires forall i :: 0 <= i < |turns| ==> InTime(turns[i])
    requires c in daemon.server.delivered && receiver.Valid() && receiver.stream == Stream(daemon.server.delivered[c])
    ensures var server, sent := daemon.server, Messages(daemon.server.delivered[c]);
      && Subsequence(sent, server.broadcasts[server.joined[c]..])
      && (receiver.handled == Bodies(sent) <==> AllWhole(server.delivered[c]))
      && (AllWhole(server.delivered[c]) ==> receiver.buffer == "")
      && (AllWhole(server.delivered[c]) ==>
            forall line :: line in receiver.handled ==> Says(daemon.state.sys, line + "\n"))
  {
    hide TakeAll, StartUp, Says, Bounded, WordsFit, Subsequence, IsMessage, Stream, AllWhole, Bodies, InTime;
    var server, l := daemon.server, daemon.state;
    RunIsSaid(daemon.lim, bl, turns);
    EndToEnd(server, c, receiver);
    SentMessages(server, c);
    var sent, since := Messages(server.delivered[c]), server.broadcasts[server.joined[c]..];
    SubsequenceMembers(sent, since);
    if AllWhole(server.delivered[c]) {
      forall line | line in receiver.handled ensures Says(l.sys, line + "\n") {
        BodiesComeFrom(sent, line);
        var i :| 0 <= i < |server.broadcasts| && server.broadcasts[i] == line + "\n";
        WordIsMessage(l, l.said[i]);
      }
    }
  }

  lemma {:induction false} BodiesComeFrom(messages: seq<string>, body: string)
    requires AllMessages(messages) && body in Bodies(messages)
    ensures body + "\n" in messages
  {
    var m := messages[0];
    assert IsMessage(m);
    if body == m[..|m| - 1] {
      assert body + "\n" == m;
    } else {
      assert body in Bodies(messages[1..]);
      BodiesComeFrom(messages[1..], body);
    }
  }

  /** Every alert once: off the lines handed on by the backend of a client there from the start, to which no send failed
    or was cut, one reads, in order and each once, the alerts polled with their addresses, kinds and times, and with the
    ring buffer never full and polled empty, every alert the detector raised; and the rates of every report made. */
  lemma EveryAlertOnce(daemon: Daemon, bl: map<IPv4, Byte>, turns: seq<Turn>, c: int, receiver: Receiver)
    requires daemon.Valid() && daemon.state == TakeAll(daemon.lim, StartUp(bl), turns)
    requires forall i :: 0 <= i < |turns| ==> InTime(turns[i])
    requires c in daemon.server.delivered && daemon.server.joined[c] == 0
    requires receiver.Valid() && receiver.stream == Stream(daemon.server.delivered[c])
    requires GotEverything(daemon.server, c)
    ensures var l := daemon.state;
      && AlertsRead(receiver.handled) == AlertsOf(AlertsIn(l.said))
      && (NothingLost(turns) && l.ring == [] ==> AlertsRead(receiver.handled) == AlertsOf(l.sys.plane.log))
      && FlowsOf(FlowsRead(receiver.handled), l.sys.reports)
      && receiver.buffer == ""
  {
    hide TakeAll, StartUp, Bounded, WordsFit, IsMessage, Stream, GotEverything, Bodies, InTime, AlertsRead, FlowsRead,
      FlowsOf, AlertsIn, ReportsIn, NothingLost, AllMessages, AlertsOf;
    var l := daemon.state;
    RunIsSaid(daemon.lim, bl, turns);
    EverythingExactly(daemon.server, c, receiver);
    SaidIsRead(l, l.said);
    AccountedThroughout(daemon.lim, bl, turns);
    assert AlertsIn(l.said) + [] == AlertsIn(l.said);
  }

  // ---- polls ----

  /** A poll hands over as many records as it may and there are, oldest first, and keeps the rest. */
  lemma PollHandsOver(lim: Limits, l: Loader, count: nat)
    ensures var after, n := Take(lim, l, Polls(count)), if count < |l.ring| then count else |l.ring|;
      && after.sys == l.sys && after.ring == l.ring[n..]
      && AlertsIn(after.said) == AlertsIn(l.said) + l.ring[..n] && ReportsIn(after.said) == ReportsIn(l.said)
    ensures count >= |l.ring| ==> Take(lim, l, Polls(count)).ring == []
  {
    hide AlertsIn, ReportsIn, AlertWords;
    var n := Handed(l.ring, count);
    AlertsInAppend(l.said, AlertWords(l.ring[..n]));
    ReportsInAppend(l.said, AlertWords(l.ring[..n]));
    AlertWordsAre(l.ring[..n]);
    assert ReportsIn(l.said) + [] == ReportsIn(l.said);
  }

  // ---- alerts and the frames behind them ----

  /** Every packet of the run is a frame laid out on the wire. */
  ghost predicate AllOnWire(turns: seq<Turn>) {
    forall t :: t in turns && t.Packets? ==> exists w :: Formed(w) && t.packet == OnWire(w)
  }

  /** Some frame of the run raised the alert, and it carries that frame's addresses, CPU and clock. */
  ghost predicate FromFrame(bl: map<IPv4, Byte>, a: Alert, turns: seq<Turn>) {
    exists t, w :: t in turns && t.Packets? && Formed(w) && t.packet == OnWire(w) && RaisedBy(bl, a, w)
  }

  lemma FromFrameGrows(bl: map<IPv4, Byte>, a: Alert, turns: seq<Turn>)
    requires turns != [] && FromFrame(bl, a, Init(turns))
    ensures FromFrame(bl, a, turns)
  {
    hide RaisedBy, Formed;
    var t, w :| t in Init(turns) && t.Packets? && Formed(w) && t.packet == OnWire(w) && RaisedBy(bl, a, w);
    assert t in turns;
  }

  lemma BlacklistStays(lim: Limits, l: Loader, t: Turn)
    ensures Take(lim, l, t).sys.plane.blacklist == l.sys.plane.blacklist
    ensures !t.Packets? ==> Take(lim, l, t).sys.plane.log == l.sys.plane.log
    ensures t.Packets? ==> Take(lim, l, t).sys.plane == Step(lim, l.sys.plane, t.packet)
  {
    hide Decode, SynPart, ScanPart, CountFlow, Raised, ReportStep, News, Stored;
  }

  /** Whatever else goes on, every alert of a run is that of a frame with SYN set, names its source and destination, and
    carries its clock. */
  lemma {:induction false} AlertsNameTurns(lim: Limits, bl: map<IPv4, Byte>, turns: seq<Turn>)
    requires AllOnWire(turns)
    ensures var l := TakeAll(lim, StartUp(bl), turns);
      l.sys.plane.blacklist == bl && forall a :: a in l.sys.plane.log ==> FromFrame(bl, a, turns)
  {
    hide Take, FromFrame, RaisedBy, Formed, Step;
    if turns != [] {
      var before, t := TakeAll(lim, StartUp(bl), Init(turns)), Last(turns);
      assert forall x :: x in Init(turns) ==> x in turns;
      AlertsNameTurns(lim, bl, Init(turns));
      BlacklistStays(lim, before, t);
      var after := Take(lim, before, t).sys.plane.log;
      forall a | a in after ensures FromFrame(bl, a, turns) {
        if a in before.sys.plane.log {
          FromFrameGrows(bl, a, turns);
        } else {
          NewAlertNamesFrame(lim, before, t, turns, a);
        }
      }
    }
  }

  lemma NewAlertNamesFrame(lim: Limits, before: Loader, t: Turn, turns: seq<Turn>, a: Alert)
    requires t in turns && AllOnWire(turns)
    requires a in Take(lim, before, t).sys.plane.log && a !in before.sys.plane.log
    ensures FromFrame(before.sys.plane.blacklist, a, turns)
  {
    hide Take, RaisedBy, Formed, Step, OnWire;
    BlacklistStays(lim, before, t);
    assert t.Packets?;
    var w :| Formed(w) && t.packet == OnWire(w);
    AlertsOfFrame(lim, before.sys.plane, w);
    var after := Take(lim, before, t).sys.plane.log;
    var k :| 0 <= k < |after| && after[k] == a;
    assert k >= |before.sys.plane.log| by {
      InPrefix(before.sys.plane.log, after, k);
    }
  }

  lemma InPrefix(part: seq<Alert>, whole: seq<Alert>, k: nat)
    requires part <= whole && k < |whole|
    ensures k < |part| ==> whole[k] in part
  {
    assert k < |part| ==> part[k] == whole[k];
  }
}
