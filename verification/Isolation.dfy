/** Sources do not influence each other, and with room for all of them no packet and no byte is lost. */
module Isolation {
  import opened Common
  import opened BpfMap
  import opened DataPlane
  import opened Traces

  // ---- the part of the state that belongs to one source ----

  datatype Slice = Slice(flow: Option<Flow>, row: Option<seq<nat>>, ports: Option<set<nat>>, alerts: seq<Alert>)

  function AlertsOf(log: seq<Alert>, src: IPv4): seq<Alert> {
    if log == [] then []
    else AlertsOf(Init(log), src) + (if Last(log).src == src then [Last(log)] else [])
  }

  function SliceOf(s: State, src: IPv4): Slice {
    Slice(LookupElem(s.flows, src), LookupElem(s.syns, src), LookupElem(s.scans, src), AlertsOf(s.log, src))
  }

  lemma {:induction false} AlertsOfAppend(log: seq<Alert>, more: seq<Alert>, src: IPv4)
    ensures AlertsOf(log + more, src) == AlertsOf(log, src) + AlertsOf(more, src)
  {
    if more == [] {
      assert log + more == log;
    } else {
      AlertsOfAppend(log, Init(more), src);
      assert Init(log + more) == log + Init(more);
    }
  }

  /** The alerts one arrival adds. */
  function NewAlerts(lim: Limits, s: State, a: Arrival): seq<Alert> {
    Raised(a, SynFlood, SynPart(lim, s.syns, a).1) + Raised(a, PortScan, ScanPart(lim, s.scans, a).1)
  }

  lemma AlertsStep(lim: Limits, s: State, a: Arrival, src: IPv4)
    requires a.request.Request?
    ensures AlertsOf(Apply(lim, s, a).log, src) ==
      AlertsOf(s.log, src) + (if a.request.src == src then NewAlerts(lim, s, a) else [])
  {
    hide AlertsOf, SynPart, ScanPart, CountFlow;
    AlertsOfTwo(s.log, Raised(a, SynFlood, SynPart(lim, s.syns, a).1), Raised(a, PortScan, ScanPart(lim, s.scans, a).1),
                src, a.request.src);
  }

  lemma AlertsOfTwo(log: seq<Alert>, flood: seq<Alert>, scan: seq<Alert>, src: IPv4, mine: IPv4)
    requires forall i :: 0 <= i < |flood| ==> flood[i].src == mine
    requires forall i :: 0 <= i < |scan| ==> scan[i].src == mine
    ensures AlertsOf(log + flood + scan, src) == AlertsOf(log, src) + (if mine == src then flood + scan else [])
  {
    hide AlertsOf;
    AlertsOfAppend(log + flood, scan, src);
    AlertsOfAppend(log, flood, src);
    AlertsOfMine(flood, src, mine);
    AlertsOfMine(scan, src, mine);
    assert AlertsOf(log, src) + flood + scan == AlertsOf(log, src) + (flood + scan);
  }

  lemma {:induction false} AlertsOfMine(more: seq<Alert>, src: IPv4, mine: IPv4)
    requires forall i :: 0 <= i < |more| ==> more[i].src == mine
    ensures AlertsOf(more, src) == if mine == src then more else []
  {
    if more != [] {
      AlertsOfMine(Init(more), src, mine);
      assert more == Init(more) + [Last(more)];
    }
  }

  lemma OthersUnaffected(lim: Limits, s: State, a: Arrival, src: IPv4)
    requires !Counted(a, src)
    ensures SliceOf(Apply(lim, s, a), src) == SliceOf(s, src)
  {
    hide AlertsOf, Raised;
    if a.request.Request? {
      AlertsStep(lim, s, a, src);
    }
  }

  /** Two states hold src in table t alike, and an insertion for it would go the same way in both. */
  predicate Alike(lim: Limits, s: State, s': State, t: Table, src: IPv4) {
    && (src in Keys(t, s) <==> src in Keys(t, s'))
    && (src in Keys(t, s) || (|Keys(t, s)| < lim.size <==> |Keys(t, s')| < lim.size))
  }

  /** Room in the maps the arrival calls on is the same. */
  predicate SameRoom(lim: Limits, s: State, s': State, a: Arrival, src: IPv4) {
    && (src in s.flows || (|s.flows| < lim.size <==> |s'.flows| < lim.size))
    && (PureSyn(a, src) ==> src in s.syns || (|s.syns| < lim.size <==> |s'.syns| < lim.size))
    && (AnySyn(a, src) ==> src in s.scans || (|s.scans| < lim.size <==> |s'.scans| < lim.size))
  }

  lemma AlikeMeans(lim: Limits, s: State, s': State, a: Arrival, src: IPv4)
    requires Counted(a, src)
    requires forall t :: Touches(t, a, src) ==> Alike(lim, s, s', t, src)
    ensures SameRoom(lim, s, s', a, src)
  {
    KeysSize(s);
    KeysSize(s');
    assert Touches(FlowTable, a, src);
    assert PureSyn(a, src) ==> Touches(SynTable, a, src);
    assert AnySyn(a, src) ==> Touches(ScanTable, a, src);
  }

  lemma KeysSize(s: State)
    ensures |Keys(FlowTable, s)| == |s.flows| && |Keys(SynTable, s)| == |s.syns| && |Keys(ScanTable, s)| == |s.scans|
  {
  }

  lemma MapsDecided(lim: Limits, s: State, s': State, a: Arrival, src: IPv4)
    requires Counted(a, src) && SliceOf(s, src) == SliceOf(s', src) && SameRoom(lim, s, s', a, src)
    ensures var r, r' := Apply(lim, s, a), Apply(lim, s', a);
      && LookupElem(r.flows, src) == LookupElem(r'.flows, src)
      && LookupElem(r.syns, src) == LookupElem(r'.syns, src)
      && LookupElem(r.scans, src) == LookupElem(r'.scans, src)
    ensures NewAlerts(lim, s, a) == NewAlerts(lim, s', a)
  {
    hide AlertsOf, SynPart, ScanPart, CountFlow, Raised, LookupElem;
    SynPartDecided(lim, s.syns, s'.syns, a, src);
    ScanPartDecided(lim, s.scans, s'.scans, a, src);
    FlowPartDecided(lim, s.flows, s'.flows, a, src);
  }

  /** What an arrival does to its own source depends on that source's slice, and on whether there is room in the tables
    it calls on. */
  lemma OwnSliceDecides(lim: Limits, s: State, s': State, a: Arrival, src: IPv4)
    requires Counted(a, src) && SliceOf(s, src) == SliceOf(s', src)
    requires forall t :: Touches(t, a, src) ==> Alike(lim, s, s', t, src)
    ensures SliceOf(Apply(lim, s, a), src) == SliceOf(Apply(lim, s', a), src)
  {
    AlikeMeans(lim, s, s', a, src);
    hide Apply, AlertsOf, NewAlerts, SameRoom, Alike;
    MapsDecided(lim, s, s', a, src);
    AlertsStep(lim, s, a, src);
    AlertsStep(lim, s', a, src);
  }

  lemma FlowPartDecided(lim: Limits, flows: map<IPv4, Flow>, flows': map<IPv4, Flow>, a: Arrival, src: IPv4)
    requires LookupElem(flows, src) == LookupElem(flows', src)
    requires src in flows || (|flows| < lim.size <==> |flows'| < lim.size)
    ensures LookupElem(CountFlow(lim, flows, src, a.size), src) == LookupElem(CountFlow(lim, flows', src, a.size), src)
  {
  }

  lemma SynPartDecided(lim: Limits, syns: map<IPv4, seq<nat>>, syns': map<IPv4, seq<nat>>, a: Arrival, src: IPv4)
    requires Counted(a, src) && LookupElem(syns, src) == LookupElem(syns', src)
    requires PureSyn(a, src) ==> src in syns || (|syns| < lim.size <==> |syns'| < lim.size)
    ensures LookupElem(SynPart(lim, syns, a).0, src) == LookupElem(SynPart(lim, syns', a).0, src)
    ensures SynPart(lim, syns, a).1 == SynPart(lim, syns', a).1
  {
  }

  lemma ScanPartDecided(lim: Limits, scans: map<IPv4, set<nat>>, scans': map<IPv4, set<nat>>, a: Arrival, src: IPv4)
    requires Counted(a, src) && LookupElem(scans, src) == LookupElem(scans', src)
    requires AnySyn(a, src) ==> src in scans || (|scans| < lim.size <==> |scans'| < lim.size)
    ensures LookupElem(ScanPart(lim, scans, a).0, src) == LookupElem(ScanPart(lim, scans', a).0, src)
    ensures ScanPart(lim, scans, a).1 == ScanPart(lim, scans', a).1
  {
  }

  // ---- projection ----

  function Filter(tr: seq<Arrival>, src: IPv4): seq<Arrival> {
    if tr == [] then []
    else Filter(Init(tr), src) + (if Counted(Last(tr), src) then [Last(tr)] else [])
  }

  /** src calls for an entry in table t that it does not have; there is room at the start, but not once the sources
    that call for an entry before src does are in. */
  predicate CrowdedOut(lim: Limits, s: State, tr: seq<Arrival>, t: Table, src: IPv4) {
    && src in Touched(t, tr) && src !in Keys(t, s)
    && |Keys(t, s)| < lim.size <= |Keys(t, s) + Ahead(Touched(t, tr), src)|
  }

  /** src calls for an entry where there was room at the start, and ends up without. */
  predicate LeftOut(lim: Limits, s: State, tr: seq<Arrival>, t: Table, src: IPv4) {
    src in Touched(t, tr) && |Keys(t, s)| < lim.size && src !in Keys(t, Run(lim, s, tr))
  }

  lemma CrowdedOutIsLeftOut(lim: Limits, s: State, tr: seq<Arrival>, t: Table, src: IPv4)
    ensures CrowdedOut(lim, s, tr, t, src) <==> LeftOut(lim, s, tr, t, src)
  {
    hide Keys, Touched, Run, Ahead, Admit;
    RunKeys(lim, s, tr, t);
    AdmitGrows(Keys(t, s), lim.size, Touched(t, tr));
    if src !in Keys(t, s) {
      AdmittedExactly(Keys(t, s), lim.size, Touched(t, tr), src);
    }
  }

  lemma {:induction false} FilteredTouched(tr: seq<Arrival>, t: Table, src: IPv4)
    ensures src in Touched(t, Filter(tr, src)) <==> src in Touched(t, tr)
    ensures forall i :: 0 <= i < |Touched(t, Filter(tr, src))| ==> Touched(t, Filter(tr, src))[i] == src
  {
    if tr != [] {
      FilteredTouched(Init(tr), t, src);
      if Counted(Last(tr), src) {
        assert Init(Filter(tr, src)) == Filter(Init(tr), src);
      } else {
        assert Filter(tr, src) == Filter(Init(tr), src);
      }
    }
  }

  lemma {:induction false} AdmitOne<K>(keys: set<K>, size: nat, touched: seq<K>, one: K)
    requires forall i :: 0 <= i < |touched| ==> touched[i] == one
    ensures Admit(keys, size, touched) == if one in touched && |keys| < size then keys + {one} else keys
  {
    if touched != [] {
      assert touched == Init(touched) + [Last(touched)];
      AdmitOne(keys, size, Init(touched), one);
      assert one in keys ==> keys + {one} == keys;
      assert keys + {one} + {one} == keys + {one};
    }
  }

  /** The keys after src's own packets alone. */
  lemma OwnKeys(lim: Limits, s: State, tr: seq<Arrival>, t: Table, src: IPv4)
    ensures Keys(t, Run(lim, s, Filter(tr, src))) ==
      if src in Touched(t, tr) && |Keys(t, s)| < lim.size then Keys(t, s) + {src} else Keys(t, s)
  {
    RunKeys(lim, s, Filter(tr, src), t);
    FilteredTouched(tr, t, src);
    AdmitOne(Keys(t, s), lim.size, Touched(t, Filter(tr, src)), src);
  }

  /** One that is not left out now was not left out before. */
  lemma LeftOutStays(lim: Limits, s: State, tr: seq<Arrival>, t: Table, src: IPv4)
    requires tr != [] && LeftOut(lim, s, Init(tr), t, src)
    ensures LeftOut(lim, s, tr, t, src)
  {
    if src in Keys(t, Run(lim, s, tr)) {
      AdmittedAtFirst(lim, s, tr, t, src);
    }
  }

  /** Full run and own run agree on src's standing in a table it now calls on, unless it is being left out. */
  lemma StandingAlike(lim: Limits, s: State, tr: seq<Arrival>, t: Table, src: IPv4)
    requires tr != [] && Touches(t, Last(tr), src) && !LeftOut(lim, s, tr, t, src)
    requires var full, own := Run(lim, s, Init(tr)), Run(lim, s, Filter(Init(tr), src));
      src in Keys(t, full) <==> src in Keys(t, own)
    ensures Alike(lim, Run(lim, s, Init(tr)), Run(lim, s, Filter(Init(tr), src)), t, src)
  {
    var full, own := Run(lim, s, Init(tr)), Run(lim, s, Filter(Init(tr), src));
    OwnKeys(lim, s, Init(tr), t, src);
    KeysBounded(lim, s, Init(tr), t);
    StepKeys(lim, full, Last(tr), t);
    hide Keys, Touched, Filter;
    if src !in Keys(t, full) {
      SubsetSize(Keys(t, s), Keys(t, full));
      NowTouched(tr, t, src);
    }
  }

  lemma NowTouched(tr: seq<Arrival>, t: Table, src: IPv4)
    requires tr != [] && Touches(t, Last(tr), src)
    ensures src in Touched(t, tr) && Last(tr).request.Request? && Last(tr).request.src == src
  {
  }

  lemma SliceHolds(s: State, s': State, t: Table, src: IPv4)
    requires SliceOf(s, src) == SliceOf(s', src)
    ensures src in Keys(t, s) <==> src in Keys(t, s')
  {
  }

  /** Unless it was left out of a table, everything the detector keeps and emits for src after a trace is what it
    would keep and emit had only src sent its packets. */
  lemma {:induction false} ProjectionHolds(lim: Limits, s: State, tr: seq<Arrival>, src: IPv4)
    requires forall t :: !LeftOut(lim, s, tr, t, src)
    ensures SliceOf(Run(lim, s, tr), src) == SliceOf(Run(lim, s, Filter(tr, src)), src)
  {
    if tr != [] {
      hide LeftOut, Alike, Apply, SliceOf;
      var init, a := Init(tr), Last(tr);
      var full, own := Run(lim, s, init), Run(lim, s, Filter(init, src));
      forall t ensures !LeftOut(lim, s, init, t, src) {
        if LeftOut(lim, s, init, t, src) {
          LeftOutStays(lim, s, tr, t, src);
        }
      }
      ProjectionHolds(lim, s, init, src);
      if Counted(a, src) {
        forall t | Touches(t, a, src) ensures Alike(lim, full, own, t, src) {
          SliceHolds(full, own, t, src);
          StandingAlike(lim, s, tr, t, src);
        }
        OwnSliceDecides(lim, full, own, a, src);
        assert Init(Filter(tr, src)) == Filter(init, src);
      } else {
        assert Filter(tr, src) == Filter(init, src);
        OthersUnaffected(lim, full, a, src);
      }
    }
  }

  /** From any state and for any trace, other sources make a difference to src exactly when they crowd it out of a
    table. */
  lemma Projection(lim: Limits, s: State, tr: seq<Arrival>, src: IPv4)
    ensures SliceOf(Run(lim, s, tr), src) == SliceOf(Run(lim, s, Filter(tr, src)), src)
      <==> forall t :: !CrowdedOut(lim, s, tr, t, src)
  {
    hide Run, Filter, SliceOf, Touched, Keys, CrowdedOut;
    forall t ensures CrowdedOut(lim, s, tr, t, src) <==> LeftOut(lim, s, tr, t, src) {
      CrowdedOutIsLeftOut(lim, s, tr, t, src);
    }
    if t :| LeftOut(lim, s, tr, t, src) {
      OwnKeys(lim, s, tr, t, src);
      if SliceOf(Run(lim, s, tr), src) == SliceOf(Run(lim, s, Filter(tr, src)), src) {
        SliceHolds(Run(lim, s, tr), Run(lim, s, Filter(tr, src)), t, src);
      }
    } else {
      ProjectionHolds(lim, s, tr, src);
    }
  }

  function FilterPackets(bl: map<IPv4, Byte>, packets: seq<Packet>, src: IPv4): seq<Packet> {
    if packets == [] then []
    else
      FilterPackets(bl, Init(packets), src) + (if Counted(Decode(bl, Last(packets)), src) then [Last(packets)] else [])
  }

  lemma {:induction false} FilterDecodes(bl: map<IPv4, Byte>, packets: seq<Packet>, src: IPv4)
    ensures DecodeAll(bl, FilterPackets(bl, packets, src)) == Filter(DecodeAll(bl, packets), src)
  {
    if packets != [] {
      FilterDecodes(bl, Init(packets), src);
      assert Init(DecodeAll(bl, packets)) == DecodeAll(bl, Init(packets));
    }
  }

  /** Projection on raw packets: the packets that reach src's counters, with their CPU and clock, decide its slice
    exactly when it is not crowded out. */
  lemma PacketProjection(lim: Limits, s: State, packets: seq<Packet>, src: IPv4)
    ensures SliceOf(RunPackets(lim, s, packets), src) ==
        SliceOf(RunPackets(lim, s, FilterPackets(s.blacklist, packets, src)), src)
      <==> forall t :: !CrowdedOut(lim, s, DecodeAll(s.blacklist, packets), t, src)
  {
    PacketsDecode(lim, s, packets);
    PacketsDecode(lim, s, FilterPackets(s.blacklist, packets, src));
    FilterDecodes(s.blacklist, packets, src);
    Projection(lim, s, DecodeAll(s.blacklist, packets), src);
  }

  // ---- when all sources fit ----

  /** An insertion for src would succeed in every table. */
  predicate HasPlace(lim: Limits, s: State, src: IPv4) {
    && (src in s.flows || |s.flows| < lim.size)
    && (src in s.syns || |s.syns| < lim.size)
    && (src in s.scans || |s.scans| < lim.size)
  }

  /** Every source concerned is one of `universe`, and the maps have room for all of those. */
  ghost predicate Fits(lim: Limits, s: State, tr: seq<Arrival>, universe: set<IPv4>) {
    && |universe| <= lim.size
    && (forall t :: Keys(t, s) <= universe)
    && forall i :: 0 <= i < |tr| && tr[i].request.Request? ==> tr[i].request.src in universe
  }

  lemma FitsStep(lim: Limits, s: State, a: Arrival, universe: set<IPv4>)
    requires Fits(lim, s, [a], universe)
    ensures Fits(lim, Apply(lim, s, a), [], universe)
    ensures a.request.Request? ==> HasPlace(lim, s, a.request.src)
  {
    forall t ensures Keys(t, Apply(lim, s, a)) <= universe {
      StepKeys(lim, s, a, t);
      if a.request.Request? && Touches(t, a, a.request.src) {
        assert a == [a][0];
        TouchWithRoom(Keys(t, s), lim.size, a.request.src, universe);
      }
    }
    if a.request.Request? {
      assert a == [a][0];
      KeysLeaveRoom(lim, s, FlowTable, a.request.src, universe);
      KeysLeaveRoom(lim, s, SynTable, a.request.src, universe);
      KeysLeaveRoom(lim, s, ScanTable, a.request.src, universe);
    }
  }

  lemma KeysLeaveRoom(lim: Limits, s: State, t: Table, src: IPv4, universe: set<IPv4>)
    requires Keys(t, s) <= universe && src in universe && |universe| <= lim.size
    ensures src in Keys(t, s) || |Keys(t, s)| < lim.size
  {
    if src !in Keys(t, s) {
      SmallerSubset(Keys(t, s), universe, src);
    }
  }

  lemma {:induction false} FitsThroughout(lim: Limits, s: State, tr: seq<Arrival>, universe: set<IPv4>)
    requires Fits(lim, s, tr, universe)
    ensures Fits(lim, Run(lim, s, tr), [], universe)
  {
    if tr != [] {
      FitsThroughout(lim, s, Init(tr), universe);
      FitsStep(lim, Run(lim, s, Init(tr)), Last(tr), universe);
    }
  }

  /** Where all sources fit, nobody is crowded out. */
  lemma {:induction false} FittingLeavesNobodyOut(lim: Limits, s: State, tr: seq<Arrival>, t: Table, src: IPv4,
                                                  universe: set<IPv4>)
    requires Fits(lim, s, tr, universe)
    ensures !CrowdedOut(lim, s, tr, t, src)
  {
    CrowdedOutIsLeftOut(lim, s, tr, t, src);
    hide CrowdedOut;
    if src in Touched(t, tr) && src !in Keys(t, Run(lim, s, tr)) {
      TouchedIsIn(tr, t, src, universe);
      FitsThroughout(lim, s, tr, universe);
      RunKeys(lim, s, tr, t);
      AdmittedOnFirstTouch(Keys(t, s), lim.size, Touched(t, tr), src);
      SmallerSubset(Keys(t, Run(lim, s, tr)), universe, src);
    }
  }

  /** Projection while the distinct sources fit. */
  lemma ProjectionWithRoom(lim: Limits, s: State, tr: seq<Arrival>, src: IPv4, universe: set<IPv4>)
    requires Fits(lim, s, tr, universe)
    ensures SliceOf(Run(lim, s, tr), src) == SliceOf(Run(lim, s, Filter(tr, src)), src)
  {
    hide CrowdedOut, SliceOf, Run, Fits;
    forall t ensures !CrowdedOut(lim, s, tr, t, src) {
      FittingLeavesNobodyOut(lim, s, tr, t, src, universe);
    }
    Projection(lim, s, tr, src);
  }

  lemma {:induction false} TouchedIsIn(tr: seq<Arrival>, t: Table, src: IPv4, universe: set<IPv4>)
    requires src in Touched(t, tr)
    requires forall i :: 0 <= i < |tr| && tr[i].request.Request? ==> tr[i].request.src in universe
    ensures src in universe
  {
    if src in Touched(t, Init(tr)) {
      TouchedIsIn(Init(tr), t, src, universe);
    }
  }

  // ---- conservation over all sources ----

  ghost function Total(m: map<IPv4, nat>): nat
    decreases |m.Keys|
  {
    if m.Keys == {} then 0
    else
      var k :| k in m.Keys;
      assert (m - {k}).Keys == m.Keys - {k};
      m[k] + Total(m - {k})
  }

  lemma {:induction false} TotalSplits(m: map<IPv4, nat>, x: IPv4)
    requires x in m
    ensures Total(m) == m[x] + Total(m - {x})
    decreases |m.Keys|
  {
    var k :| k in m.Keys && Total(m) == m[k] + Total(m - {k});
    if k != x {
      assert (m - {k}).Keys == m.Keys - {k};
      TotalSplits(m - {k}, x);
      TotalSplits(m - {x}, k);
      assert m - {k} - {x} == m - {x} - {k};
    }
  }

  lemma TotalUpdate(m: map<IPv4, nat>, x: IPv4, v: nat)
    ensures Total(m[x := v]) == Total(m) - (if x in m then m[x] else 0) + v
    ensures x in m ==> m[x] <= Total(m)
  {
    TotalSplits(m[x := v], x);
    if x in m {
      TotalSplits(m, x);
      assert m[x := v] - {x} == m - {x};
    } else {
      assert m[x := v] - {x} == m;
    }
  }

  function PktsOf(flows: map<IPv4, Flow>): map<IPv4, nat> {
    map src | src in flows :: flows[src].pkts
  }

  function BytesOf(flows: map<IPv4, Flow>): map<IPv4, nat> {
    map src | src in flows :: flows[src].bytes
  }

  function CountedPackets(tr: seq<Arrival>): nat {
    if tr == [] then 0 else CountedPackets(Init(tr)) + (if Last(tr).request.Request? then 1 else 0)
  }

  function CountedBytes(tr: seq<Arrival>): nat {
    if tr == [] then 0 else CountedBytes(Init(tr)) + (if Last(tr).request.Request? then Last(tr).size else 0)
  }

  lemma SetFlowTotals(flows: map<IPv4, Flow>, src: IPv4, f: Flow)
    ensures var was := if src in flows then flows[src] else Flow(0, 0);
      && was.pkts <= Total(PktsOf(flows)) && was.bytes <= Total(BytesOf(flows))
      && Total(PktsOf(flows[src := f])) == Total(PktsOf(flows)) - was.pkts + f.pkts
      && Total(BytesOf(flows[src := f])) == Total(BytesOf(flows)) - was.bytes + f.bytes
  {
    TotalUpdate(PktsOf(flows), src, f.pkts);
    TotalUpdate(BytesOf(flows), src, f.bytes);
    assert PktsOf(flows[src := f]) == PktsOf(flows)[src := f.pkts];
    assert BytesOf(flows[src := f]) == BytesOf(flows)[src := f.bytes];
  }

  lemma FlowTotalsStep(lim: Limits, flows: map<IPv4, Flow>, src: IPv4, size: nat)
    requires src in flows || |flows| < lim.size
    requires Total(PktsOf(flows)) + 1 < U64 && Total(BytesOf(flows)) + size < U64
    ensures Total(PktsOf(CountFlow(lim, flows, src, size))) == Total(PktsOf(flows)) + 1
    ensures Total(BytesOf(CountFlow(lim, flows, src, size))) == Total(BytesOf(flows)) + size
  {
    hide Total, PktsOf, BytesOf;
    SetFlowTotals(flows, src, CountFlow(lim, flows, src, size)[src]);
  }

  /** With room for every source and below 2^64, the totals over all sources are the number and the byte sum of the
    packets that got past the filters. */
  lemma {:induction false} Conservation(lim: Limits, s: State, tr: seq<Arrival>, universe: set<IPv4>)
    requires Fits(lim, s, tr, universe)
    requires Total(PktsOf(s.flows)) + CountedPackets(tr) < U64 && Total(BytesOf(s.flows)) + CountedBytes(tr) < U64
    ensures Total(PktsOf(Run(lim, s, tr).flows)) == Total(PktsOf(s.flows)) + CountedPackets(tr)
    ensures Total(BytesOf(Run(lim, s, tr).flows)) == Total(BytesOf(s.flows)) + CountedBytes(tr)
  {
    if tr != [] {
      var before, a := Run(lim, s, Init(tr)), Last(tr);
      Conservation(lim, s, Init(tr), universe);
      if a.request.Request? {
        FitsThroughout(lim, s, Init(tr), universe);
        FitsStep(lim, before, a, universe);
        FlowTotalsStep(lim, before.flows, a.request.src, a.size);
      }
    }
  }
}
