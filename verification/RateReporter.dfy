/** The loader's flow-rate reports: a linked list remembers the last reading per IP, and each report shows what was
  added since. */
module RateReporter {
  import opened Common
  import opened DataPlane
  import opened MapCleaner
  import opened ScanWalk

  // ---- one report, on values ----

  /** `deltaPkts` and `deltaBytes` are the locals the rates are computed from, `seconds` what they are divided by; the
    message carries the other fields. */
  datatype Report = Report(ip: IPv4, seconds: nat, deltaPkts: nat, deltaBytes: nat, pps: nat, bytesPerSec: nat,
                           total: Flow)

  function Delta(current: nat, last: nat): nat {
    if current >= last then current - last else 0
  }

  /** The configured interval, guarded against a non-positive one. */
  function Seconds(interval: int): (r: nat)
    ensures r > 0
  {
    if interval > 0 then interval else 1
  }

  function Rate(delta: nat, interval: int): nat {
    delta / Seconds(interval)
  }

  /** The reading cache and the report for one key. calloc fails for an IP not seen before when `memory` is false;
    then nothing is reported. */
  function ReportStep(readings: map<IPv4, Flow>, ip: IPv4, current: Flow, interval: int, memory: bool)
    : (map<IPv4, Flow>, seq<Report>)
  {
    if ip in readings then
      var dpkts, dbytes := Delta(current.pkts, readings[ip].pkts), Delta(current.bytes, readings[ip].bytes);
      (readings[ip := current],
       [Report(ip, Seconds(interval), dpkts, dbytes, Rate(dpkts, interval), Rate(dbytes, interval), current)])
    else if memory then (readings[ip := current], [Report(ip, Seconds(interval), 0, 0, 0, 0, current)])
    else (readings, [])
  }

  /** A whole scan of a stats map; `memory` lists the new IPs for which calloc succeeds. */
  function ScanSteps(readings: map<IPv4, Flow>, keys: seq<IPv4>, stats: map<IPv4, Flow>, interval: int,
                     memory: set<IPv4>): (map<IPv4, Flow>, seq<Report>)
    requires forall k :: k in keys ==> k in stats
  {
    if keys == [] then (readings, [])
    else
      var (before, reports) := ScanSteps(readings, keys[..|keys| - 1], stats, interval, memory);
      var key := keys[|keys| - 1];
      var (after, more) := ReportStep(before, key, stats[key], interval, key in memory);
      (after, reports + more)
  }

  /** When memory does not run out, a scan reports every key once, in order, with its current totals, and leaves the
    cache holding the current reading of every key scanned. */
  lemma {:induction false} ScanReportsEachKeyOnce(readings: map<IPv4, Flow>, keys: seq<IPv4>, stats: map<IPv4, Flow>,
                                                  interval: int, memory: set<IPv4>)
    requires forall k :: k in keys ==> k in stats && (k in readings || k in memory)
    requires DistinctKeys(keys)
    ensures var (after, reports) := ScanSteps(readings, keys, stats, interval, memory);
      && |reports| == |keys|
      && (forall i :: 0 <= i < |keys| ==> reports[i].ip == keys[i] && reports[i].total == stats[keys[i]])
      && (forall k :: k in keys ==> k in after && after[k] == stats[k])
      && (forall k :: k !in keys ==> (k in after <==> k in readings))
      && (forall k :: k !in keys && k in readings ==> after[k] == readings[k])
  {
    if keys != [] {
      var init, key := keys[..|keys| - 1], keys[|keys| - 1];
      assert keys == init + [key];
      ScanReportsEachKeyOnce(readings, init, stats, interval, memory);
    }
  }

  // ---- the linked list ----

  class CacheNode {
    const ip: IPv4
    var pkts: nat
    var bytes: nat
    var next: CacheNode?

    constructor (ip: IPv4, pkts: nat, bytes: nat, next: CacheNode?)
      ensures this.ip == ip && this.pkts == pkts && this.bytes == bytes && this.next == next
    {
      this.ip, this.pkts, this.bytes, this.next := ip, pkts, bytes, next;
    }
  }

  ghost function ReadingsIn(table: map<IPv4, CacheNode>): map<IPv4, Flow>
    reads table.Values
  {
    map ip | ip in table :: Flow(table[ip].pkts, table[ip].bytes)
  }

  /** free(): the node must be live, and is not afterwards. */
  ghost function AfterFree(live: set<CacheNode>, p: CacheNode): set<CacheNode>
    requires p in live
  {
    live - {p}
  }

  lemma ReadingsAdd(table: map<IPv4, CacheNode>, p: CacheNode)
    ensures ReadingsIn(table[p.ip := p]) == ReadingsIn(table)[p.ip := Flow(p.pkts, p.bytes)]
  {
  }

  ghost predicate IndexedIn(nodes: seq<CacheNode>, table: map<IPv4, CacheNode>) {
    && (forall n :: n in nodes ==> n.ip in table && table[n.ip] == n)
    && forall ip :: ip in table ==> table[ip] in nodes && table[ip].ip == ip
  }

  lemma IndexedAdd(nodes: seq<CacheNode>, table: map<IPv4, CacheNode>, p: CacheNode)
    requires IndexedIn(nodes, table) && p.ip !in table
    ensures IndexedIn([p] + nodes, table[p.ip := p])
    ensures p !in nodes
  {
  }

  class Reporter {
    var head: CacheNode?
    var reports: seq<Report>
    ghost var nodes: seq<CacheNode>
    ghost var table: map<IPv4, CacheNode>

    ghost function NodeAt(i: nat): CacheNode?
      reads `nodes
    {
      if i < |nodes| then nodes[i] else null
    }

    ghost function NodeSet(): set<CacheNode>
      reads `nodes
    {
      set n | n in nodes
    }

    /** The list runs through `nodes`, all different, and ends: it has no cycle. */
    ghost predicate Linked()
      reads `head, `nodes, nodes`next
    {
      && head == NodeAt(0)
      && (forall i :: 0 <= i < |nodes| ==> nodes[i].next == NodeAt(i + 1))
      && forall i, j :: 0 <= i < j < |nodes| ==> nodes[i] != nodes[j]
    }

    /** `table` finds the one node of each IP. */
    ghost predicate Indexed()
      reads `nodes, `table
    {
      IndexedIn(nodes, table)
    }

    ghost predicate Valid()
      reads `head, `nodes, `table, nodes`next
    {
      Linked() && Indexed()
    }

    /** The map the list stands for: the last reading of each IP. */
    ghost function Readings(): map<IPv4, Flow>
      reads `table, table.Values
    {
      ReadingsIn(table)
    }

    constructor ()
      ensures Valid() && Readings() == map[] && reports == [] && nodes == []
    {
      head, reports, nodes, table := null, [], [], map[];
    }

    /** The search loop of find_or_create_cache. */
    method FindCache(ip: IPv4) returns (p: CacheNode?)
      requires Valid()
      ensures p == if ip in table then table[ip] else null
    {
      p := head;
      ghost var i := 0;
      while p != null
        invariant i <= |nodes| && p == NodeAt(i)
        invariant forall j :: 0 <= j < i ==> nodes[j].ip != ip
        decreases |nodes| - i
      {
        if p.ip == ip {
          assert p in nodes;
          return;
        }
        p := p.next;
        i := i + 1;
      }
    }

    /** Pushes a new node in front. */
    method PushCache(ip: IPv4, pkts: nat, bytes: nat) returns (p: CacheNode)
      requires Valid() && ip !in table
      modifies `head, `nodes, `table
      ensures Valid() && fresh(p) && p.ip == ip && p.pkts == pkts && p.bytes == bytes
      ensures nodes == [p] + old(nodes) && table == old(table)[ip := p]
      ensures Readings() == old(Readings())[ip := Flow(pkts, bytes)]
    {
      hide ReadingsIn, IndexedIn;
      ghost var before, readings := nodes, Readings();
      p := new CacheNode(ip, pkts, bytes, head);
      assert ReadingsIn(table) == readings;
      ReadingsAdd(table, p);
      IndexedAdd(nodes, table, p);
      ghost var grown := table[ip := p];
      assert ReadingsIn(grown) == readings[ip := Flow(pkts, bytes)];
      head, nodes, table := p, [p] + nodes, grown;
      assert forall j :: 1 <= j < |nodes| ==> nodes[j] == before[j - 1];
    }

    method FindOrCreateCache(ip: IPv4, pkts: nat, bytes: nat, memory: bool) returns (p: CacheNode?, isNew: bool)
      requires Valid()
      modifies `head, `nodes, `table
      ensures Valid() && fresh(NodeSet() - old(NodeSet()))
      ensures isNew == (ip !in old(Readings()) && memory)
      ensures Readings() == if isNew then old(Readings())[ip := Flow(pkts, bytes)] else old(Readings())
      ensures p == null <==> ip !in Readings()
      ensures p != null ==> p in nodes && p.ip == ip && Readings()[ip] == Flow(p.pkts, p.bytes)
    {
      p := FindCache(ip);
      isNew := false;
      if p == null && memory {
        p := PushCache(ip, pkts, bytes);
        isNew := true;
      }
    }

    /** Overwrites the reading of one IP. */
    method SetReading(cache: CacheNode, current: Flow)
      requires Indexed() && cache in nodes
      modifies cache`pkts, cache`bytes
      ensures Readings() == old(Readings())[cache.ip := current]
    {
      cache.pkts := current.pkts;
      cache.bytes := current.bytes;
    }

    /** The new nodes, if any, are freshly allocated, and the map takes the abstract step. */
    method ReportFlowRate(ip: IPv4, current: Flow, interval: int, memory: bool)
      requires Valid()
      modifies this, NodeSet()
      ensures Valid() && fresh(NodeSet() - old(NodeSet()))
      ensures var (after, more) := ReportStep(old(Readings()), ip, current, interval, memory);
        Readings() == after && reports == old(reports) + more
    {
      hide Readings, Rate, Linked;
      var cache, isNew := FindOrCreateCache(ip, current.pkts, current.bytes, memory);
      if cache == null {
        return;
      }
      var dpkts, dbytes, pps, bps := 0, 0, 0, 0;
      if !isNew {
        dpkts := if current.pkts >= cache.pkts then current.pkts - cache.pkts else 0;
        dbytes := if current.bytes >= cache.bytes then current.bytes - cache.bytes else 0;
        pps := Rate(dpkts, interval);
        bps := Rate(dbytes, interval);
        SetReading(cache, current);
      }
      reports := reports + [Report(ip, Seconds(interval), dpkts, dbytes, pps, bps, current)];
    }

    /** The state of a scan that has reported the keys in `done`. */
    ghost predicate ScannedTo(start: map<IPv4, Flow>, before: seq<Report>, done: seq<IPv4>, stats: map<IPv4, Flow>,
                              interval: int, memory: set<IPv4>)
      requires forall k :: k in done ==> k in stats
      reads this, table.Values
    {
      var (after, more) := ScanSteps(start, done, stats, interval, memory);
      Readings() == after && reports == before + more
    }

    /** One turn of the loop: looks the key up, which may have been deleted by then, and asks for the next one. */
    method ScanOne(stats: HashMap<Flow>, key: IPv4, d: Disturbance, interval: int, memory: set<IPv4>,
                   ghost start: map<IPv4, Flow>, ghost before: seq<Report>, ghost done: seq<IPv4>,
                   ghost original: map<IPv4, Flow>)
      returns (next: Option<IPv4>, ghost now: seq<IPv4>)
      requires Valid() && stats.Valid() && SameValues(stats.entries, original)
      requires (forall k :: k in done ==> k in original) && ScannedTo(start, before, done, original, interval, memory)
      modifies this, NodeSet(), stats
      ensures Valid() && fresh(NodeSet() - old(NodeSet())) && stats.Valid() && SameValues(stats.entries, original)
      ensures stats.order == WithoutAll(WithoutAll(old(stats.order), d.beforeLookup), d.beforeNext)
      ensures next == Successor(stats.order, Some(key))
      ensures now == done + if key in WithoutAll(old(stats.order), d.beforeLookup) then [key] else []
      ensures (forall k :: k in now ==> k in original) && ScannedTo(start, before, now, original, interval, memory)
    {
      hide Readings, ReportStep, Linked, Indexed, WithoutAll, Successor, ScanSteps, DistinctKeys;
      now := done;
      stats.DeleteAll(d.beforeLookup);
      if key in stats.entries {
        ReportFlowRate(key, stats.entries[key], interval, key in memory);
        ScanStepsSnoc(start, done, key, original, interval, memory);
        now := done + [key];
      } else {
        assert done + [] == done;
      }
      stats.DeleteAll(d.beforeNext);
      next := stats.NextKey(Some(key));
    }

    /** Walks the stats map key by key while keys are deleted as `script` says: terminates, and reports the keys found
      on the walk. */
    method ReadAndReportStats(stats: HashMap<Flow>, interval: int, memory: set<IPv4>, script: seq<Disturbance>)
      requires Valid() && stats.Valid()
      modifies this, NodeSet(), stats
      ensures Valid() && fresh(NodeSet() - old(NodeSet())) && stats.Valid()
      ensures var (found, left) := Walk(old(stats.order), script);
        var (after, more) := ScanSteps(old(Readings()), found, old(stats.entries), interval, memory);
        stats.order == left && Readings() == after && reports == old(reports) + more
    {
      hide Readings, ReportStep, Linked, Indexed, ScanSteps, Successor, WithoutAll, WalkFrom, Ahead;
      ghost var order, original, start, before := stats.order, stats.entries, Readings(), reports;
      ghost var done := [];
      NoScanSteps(start, original, interval, memory);
      FirstKey(order);
      var left := script;
      var next := stats.NextKey(None);
      assert next.Some? ==> done + WalkFrom(order, next.value, left).0 == WalkFrom(order, next.value, left).0;
      while next.Some?
        invariant Valid() && stats.Valid() && fresh(NodeSet() - old(NodeSet())) && SameValues(stats.entries, original)
        invariant forall k :: k in done ==> k in original
        invariant ScannedTo(start, before, done, original, interval, memory)
        invariant next.Some? ==> next.value in stats.order
        invariant (done, stats.order) == Walk(order, script) || next.Some?
        invariant next.Some? ==>
          var (more, end) := WalkFrom(stats.order, next.value, left); (done + more, end) == Walk(order, script)
        decreases |stats.order|, if next.Some? then ToCome(stats.order, next.value) else 0
      {
        var key := next.value;
        StepShortens(stats.order, key, left);
        SomeToCome(stats.order, key);
        WalkUnfolds(stats.order, key, left, done);
        next, done := ScanOne(stats, key, Now(left), interval, memory, start, before, done, original);
        left := Later(left);
      }
    }

    /** The list part of `cleanup`: every node is freed, none twice, and none is left in the list. */
    method FreeCache() returns (freed: seq<CacheNode>, ghost live: set<CacheNode>)
      requires Valid()
      modifies `head, `nodes, `table
      ensures Valid() && freed == old(nodes) && live == {} && nodes == [] && Readings() == map[]
    {
      var p := head;
      freed, live := [], NodeSet();
      while p != null
        invariant |freed| <= |nodes| && freed == nodes[..|freed|] && p == NodeAt(|freed|)
        invariant forall n :: n in live <==> n in nodes[|freed|..]
        decreases |nodes| - |freed|
      {
        var next := p.next;
        ghost var rest := nodes[|freed|..];
        assert rest == [p] + nodes[|freed| + 1..];
        live := AfterFree(live, p);
        freed := freed + [p];
        p := next;
      }
      head, nodes, table := null, [], map[];
    }
  }

  /** Nothing but deletions happened to the values. */
  ghost predicate SameValues(now: map<IPv4, Flow>, original: map<IPv4, Flow>) {
    forall k :: k in now ==> k in original && now[k] == original[k]
  }

  lemma FirstKey(order: seq<IPv4>)
    ensures Successor(order, None) == if order == [] then None else Some(order[0])
  {
  }

  lemma NoScanSteps(readings: map<IPv4, Flow>, stats: map<IPv4, Flow>, interval: int, memory: set<IPv4>)
    ensures ScanSteps(readings, [], stats, interval, memory) == (readings, [])
  {
  }

  lemma ScanStepsSnoc(readings: map<IPv4, Flow>, done: seq<IPv4>, key: IPv4, stats: map<IPv4, Flow>, interval: int,
                      memory: set<IPv4>)
    requires key in stats && forall k :: k in done ==> k in stats
    ensures var (before, reports) := ScanSteps(readings, done, stats, interval, memory);
      var (after, more) := ReportStep(before, key, stats[key], interval, key in memory);
      ScanSteps(readings, done + [key], stats, interval, memory) == (after, reports + more)
  {
    assert (done + [key])[..|done|] == done;
    hide ReportStep;
  }

  /** One turn of the loop against the walk still to come. */
  lemma WalkUnfolds(order: seq<IPv4>, key: IPv4, script: seq<Disturbance>, done: seq<IPv4>)
    requires DistinctKeys(order) && key in order
    ensures var rest, next := AtNext(order, script), Successor(AtNext(order, script), Some(key));
      var (found, left) := WalkFrom(order, key, script);
      && DistinctKeys(rest)
      && (next.None? ==> (done + Found(order, key, script), rest) == (done + found, left))
      && (next.Some? ==> next.value in rest)
      && (next.Some? ==>
            var (more, end) := WalkFrom(rest, next.value, Later(script));
            (done + Found(order, key, script) + more, end) == (done + found, left))
  {
    hide *;
    WalkOnce(order, key, script);
    var rest, next := AtNext(order, script), Successor(AtNext(order, script), Some(key));
    if next.Some? {
      var more := WalkFrom(rest, next.value, Later(script)).0;
      assert done + Found(order, key, script) + more == done + (Found(order, key, script) + more);
    }
  }

  // ---- what a scan reports, whatever is deleted meanwhile ----

  ghost predicate Reports(reports: seq<Report>, key: IPv4, total: Flow) {
    exists r :: r in reports && r.ip == key && r.total == total
  }

  /** A scan makes at most one report per key found, and at least one for each of those there is memory for. */
  lemma {:induction false} ScanReports(readings: map<IPv4, Flow>, found: seq<IPv4>, stats: map<IPv4, Flow>,
                                       interval: int, memory: set<IPv4>)
    requires forall k :: k in found ==> k in stats
    ensures var (after, reports) := ScanSteps(readings, found, stats, interval, memory);
      && |reports| <= |found|
      && (forall k :: k in found && (k in readings || k in memory) ==> Reports(reports, k, stats[k]))
      && (forall r :: r in reports ==>
            r.ip in found && r.total == stats[r.ip] && (r.ip in readings || r.ip in memory))
      && (forall k :: k in readings ==> k in after) && (forall k :: k in after ==> k in readings || k in memory)
  {
    if found != [] {
      var init, key := found[..|found| - 1], found[|found| - 1];
      assert found == init + [key];
      ScanReports(readings, init, stats, interval, memory);
      var (before, reports) := ScanSteps(readings, init, stats, interval, memory);
      var (after, more) := ReportStep(before, key, stats[key], interval, key in memory);
      ReportMade(before, key, stats[key], interval, key in memory);
      hide ReportStep, ScanSteps;
      forall k | k in found && (k in readings || k in memory) ensures Reports(reports + more, k, stats[k]) {
        if k in init {
          var r :| r in reports && r.ip == k && r.total == stats[k];
          assert r in reports + more;
        } else {
          assert more[0] in reports + more;
        }
      }
    }
  }

  lemma ReportMade(readings: map<IPv4, Flow>, ip: IPv4, current: Flow, interval: int, memory: bool)
    ensures var (after, more) := ReportStep(readings, ip, current, interval, memory);
      && |more| <= 1 && (ip in readings || memory <==> |more| == 1) && (more == [] ==> after == readings)
      && (forall r :: r in more ==> r.ip == ip && r.total == current)
      && (forall k :: k in readings ==> k in after) && (forall k :: k in after ==> k in readings || (k == ip && memory))
  {
  }

  /** A scan during which keys are deleted reports every key that is not deleted, makes at most as many reports as there
    were keys, times one more than the number of keys deleted meanwhile, and reports nothing that was not there. */
  lemma DisturbedScan(readings: map<IPv4, Flow>, order: seq<IPv4>, stats: map<IPv4, Flow>, interval: int,
                      memory: set<IPv4>, script: seq<Disturbance>)
    requires DistinctKeys(order) && forall k :: k in order <==> k in stats
    ensures var (found, left) := Walk(order, script);
      var reports := ScanSteps(readings, found, stats, interval, memory).1;
      && |left| <= |order| && |reports| <= (|order| - |left| + 1) * |order|
      && (forall k :: k in order && Spared(script, k) && (k in readings || k in memory) ==>
            Reports(reports, k, stats[k]))
      && (forall r :: r in reports ==>
            r.ip in stats && r.total == stats[r.ip] && (r.ip in readings || r.ip in memory))
  {
    hide Walk, ScanSteps, Spared, Reports;
    DisturbedWalk(order, script);
    ScanReports(readings, Walk(order, script).0, stats, interval, memory);
  }
}
