/** tracecon: four probes that correlate getaddrinfo and tcp_v4_connect over three shared hash maps.

  Reads of user and kernel memory are given with the event: `memory` maps a pointer to the IPv4 address found by
  following it, and a failed read yields zeroes. */
module Tracecon {
  import opened Common
  import opened BpfMap

  type Ptr = nat

  const HOSTNAME_LEN: nat := 84

  datatype Lookup = Lookup(host: string, results: Ptr)

  datatype Output = IpEvent(ip: IPv4) | HostnameEvent(host: string)

  datatype Action =
    | LookupEnter(host: string, results: Ptr)
    | LookupExit(ret: int, memory: map<Ptr, IPv4>)
    | ConnectEnter(sock: Ptr)
    | ConnectExit(ret: int, memory: map<Ptr, IPv4>)

  /** One probe firing in a thread. */
  datatype Event = Event(pid: nat, thread: nat, action: Action)

  datatype State = State(lookups: map<nat, Lookup>, hostnames: map<IPv4, Lookup>, sockets: map<nat, Ptr>,
                         out: seq<Output>)

  const EMPTY := State(map[], map[], map[], [])

  function ReadIp(memory: map<Ptr, IPv4>, p: Ptr): IPv4 {
    if p in memory then memory[p] else ZERO_IP
  }

  /** bpf_probe_read_user_str into an 84-byte field: at most 83 characters. */
  function HostField(host: string): string {
    if |host| < HOSTNAME_LEN then host else host[..HOSTNAME_LEN - 1]
  }

  /** `get_tid`: 0 for a process other than the target, when there is one. */
  function GetTid(target: nat, e: Event): nat {
    if target != 0 && target != e.pid then 0 else e.thread
  }

  // ---- the abstract step, map by map ----

  function LookupsAfter(size: nat, lookups: map<nat, Lookup>, tid: nat, a: Action): map<nat, Lookup> {
    match a
    case LookupEnter(host, results) => Update(lookups, size, tid, Lookup(HostField(host), results))
    case LookupExit(_, _) => lookups - {tid}
    case _ => lookups
  }

  function SocketsAfter(size: nat, sockets: map<nat, Ptr>, tid: nat, a: Action): map<nat, Ptr> {
    match a
    case ConnectEnter(sock) => Update(sockets, size, tid, sock)
    case ConnectExit(_, _) => sockets - {tid}
    case _ => sockets
  }

  /** The address a successful connect of the thread went to, if it was recorded. */
  function ConnectedTo(s: State, tid: nat, a: Action): Option<IPv4> {
    if a.ConnectExit? && a.ret == 0 && tid in s.sockets then Some(ReadIp(a.memory, s.sockets[tid])) else None
  }

  function HostnamesAfter(size: nat, s: State, tid: nat, a: Action): map<IPv4, Lookup> {
    if a.LookupExit? && a.ret == 0 && tid in s.lookups then
      Update(s.hostnames, size, ReadIp(a.memory, s.lookups[tid].results), s.lookups[tid])
    else if ConnectedTo(s, tid, a).Some? then s.hostnames - {ConnectedTo(s, tid, a).value}
    else s.hostnames
  }

  function OutAfter(s: State, tid: nat, a: Action): seq<Output> {
    var ip := ConnectedTo(s, tid, a);
    if ip.None? then s.out
    else s.out + [if ip.value in s.hostnames then HostnameEvent(s.hostnames[ip.value].host) else IpEvent(ip.value)]
  }

  function Step(target: nat, size: nat, s: State, e: Event): State {
    var tid := GetTid(target, e);
    if tid == 0 then s
    else State(LookupsAfter(size, s.lookups, tid, e.action), HostnamesAfter(size, s, tid, e.action),
               SocketsAfter(size, s.sockets, tid, e.action), OutAfter(s, tid, e.action))
  }

  // ---- the probes ----

  class Probes {
    const target: nat
    const size: nat
    var lookups: map<nat, Lookup>
    var hostnames: map<IPv4, Lookup>
    var sockets: map<nat, Ptr>
    var out: seq<Output>

    function View(): State
      reads this
    {
      State(lookups, hostnames, sockets, out)
    }

    constructor (target: nat, size: nat)
      ensures View() == EMPTY && this.target == target && this.size == size
    {
      this.target, this.size := target, size;
      lookups, hostnames, sockets, out := map[], map[], map[], [];
    }

    method GetaddrinfoEnter(e: Event)
      requires e.action.LookupEnter?
      modifies this
      ensures View() == Step(target, size, old(View()), e)
    {
      var tid := GetTid(target, e);
      if tid == 0 {
        return;
      }
      var l := Lookup(HostField(e.action.host), e.action.results);
      lookups := Update(lookups, size, tid, l);
    }

    method GetaddrinfoExit(e: Event)
      requires e.action.LookupExit?
      modifies this
      ensures View() == Step(target, size, old(View()), e)
    {
      var tid := GetTid(target, e);
      if tid == 0 {
        return;
      }
      if e.action.ret == 0 {
        if tid !in lookups {
          assert lookups - {tid} == lookups;
          return;
        }
        var l := lookups[tid];
        var ip := ReadIp(e.action.memory, l.results);
        hostnames := Update(hostnames, size, ip, l);
      }
      lookups := Delete(lookups, tid);
    }

    method ConnectEnter(e: Event)
      requires e.action.ConnectEnter?
      modifies this
      ensures View() == Step(target, size, old(View()), e)
    {
      var tid := GetTid(target, e);
      if tid == 0 {
        return;
      }
      sockets := Update(sockets, size, tid, e.action.sock);
    }

    method ConnectExit(e: Event)
      requires e.action.ConnectExit?
      modifies this
      ensures View() == Step(target, size, old(View()), e)
    {
      var tid := GetTid(target, e);
      if tid == 0 {
        return;
      }
      if e.action.ret == 0 {
        if tid !in sockets {
          assert sockets - {tid} == sockets;
          return;
        }
        var ip := ReadIp(e.action.memory, sockets[tid]);
        if ip in hostnames {
          out := out + [HostnameEvent(hostnames[ip].host)];
          hostnames := Delete(hostnames, ip);
        } else {
          out := out + [IpEvent(ip)];
          assert hostnames - {ip} == hostnames;
        }
      }
      sockets := Delete(sockets, tid);
    }
  }

  // ---- histories ----

  function Run(target: nat, size: nat, tr: seq<Event>): State {
    if tr == [] then EMPTY else Step(target, size, Run(target, size, Init(tr)), Last(tr))
  }

  /** The event is one of a process being traced: any process when no target is set. */
  predicate Watched(target: nat, e: Event) {
    target == 0 || e.pid == target
  }

  /** The event is one of this thread, and traced. */
  predicate By(target: nat, e: Event, thread: nat) {
    Watched(target, e) && e.thread == thread && thread != 0
  }

  /** Following the pointer gives this address, or 0.0.0.0 when it leads nowhere. */
  predicate LeadsTo(memory: map<Ptr, IPv4>, p: Ptr, ip: IPv4) {
    ip == if p in memory then memory[p] else IPv4(0, 0, 0, 0)
  }

  /** What is kept of a host name: its first 83 characters. */
  function Kept(host: string): string {
    if |host| <= 83 then host else host[..83]
  }

  predicate IsLookupProbe(e: Event) {
    e.action.LookupEnter? || e.action.LookupExit?
  }

  predicate IsConnectProbe(e: Event) {
    e.action.ConnectEnter? || e.action.ConnectExit?
  }

  /** The index of the last getaddrinfo probe of a thread. */
  function LastLookupProbe(target: nat, tr: seq<Event>, tid: nat): (r: Option<nat>)
    ensures r.Some? ==> r.value < |tr| && IsLookupProbe(tr[r.value]) && By(target, tr[r.value], tid)
    ensures forall j :: (if r.Some? then r.value + 1 else 0) <= j < |tr| ==>
              !(IsLookupProbe(tr[j]) && By(target, tr[j], tid))
  {
    if tr == [] then None
    else if IsLookupProbe(Last(tr)) && By(target, Last(tr), tid) then Some(|tr| - 1)
    else LastLookupProbe(target, Init(tr), tid)
  }

  /** The index of the last tcp_v4_connect probe of a thread. */
  function LastConnectProbe(target: nat, tr: seq<Event>, tid: nat): (r: Option<nat>)
    ensures r.Some? ==> r.value < |tr| && IsConnectProbe(tr[r.value]) && By(target, tr[r.value], tid)
    ensures forall j :: (if r.Some? then r.value + 1 else 0) <= j < |tr| ==>
              !(IsConnectProbe(tr[j]) && By(target, tr[j], tid))
  {
    if tr == [] then None
    else if IsConnectProbe(Last(tr)) && By(target, Last(tr), tid) then Some(|tr| - 1)
    else LastConnectProbe(target, Init(tr), tid)
  }

  /** The lookup a thread is in, by history alone: its last getaddrinfo probe, if that was an enter. */
  function PendingLookup(target: nat, tr: seq<Event>, tid: nat): Option<Lookup> {
    var i := LastLookupProbe(target, tr, tid);
    if i.Some? && tr[i.value].action.LookupEnter?
    then
      Some(Lookup(Kept(tr[i.value].action.host), tr[i.value].action.results))
    else None
  }

  /** The connect a thread is in, by history alone. */
  function PendingSocket(target: nat, tr: seq<Event>, tid: nat): Option<Ptr> {
    var i := LastConnectProbe(target, tr, tid);
    if i.Some? && tr[i.value].action.ConnectEnter? then Some(tr[i.value].action.sock) else None
  }

  /** No insertion of the run meets a full map. */
  ghost predicate Roomy(target: nat, size: nat, tr: seq<Event>) {
    forall i :: 0 <= i < |tr| ==> HasRoom(target, size, Run(target, size, tr[..i]), tr[i])
  }

  /** The insertion the event makes in this state, if any, finds its key or a free entry. */
  ghost predicate HasRoom(target: nat, size: nat, s: State, e: Event) {
    Watched(target, e) && e.thread != 0 ==>
      match e.action
      case LookupEnter(_, _) => e.thread in s.lookups || |s.lookups| < size
      case LookupExit(ret, memory) =>
        ret == 0 && e.thread in s.lookups ==>
          forall ip :: LeadsTo(memory, s.lookups[e.thread].results, ip) ==> ip in s.hostnames || |s.hostnames| < size
      case ConnectEnter(_) => e.thread in s.sockets || |s.sockets| < size
      case ConnectExit(_, _) => true
  }

  lemma RoomyInit(target: nat, size: nat, tr: seq<Event>)
    requires Roomy(target, size, tr) && tr != []
    ensures Roomy(target, size, Init(tr)) && HasRoom(target, size, Run(target, size, Init(tr)), Last(tr))
  {
    hide HasRoom, Run;
    forall i | 0 <= i < |Init(tr)| ensures HasRoom(target, size, Run(target, size, Init(tr)[..i]), Init(tr)[i]) {
      assert Init(tr)[..i] == tr[..i];
    }
    assert tr[..|tr| - 1] == Init(tr);
  }

  lemma LookupHistoryStep(target: nat, tr: seq<Event>, tid: nat)
    requires tr != []
    ensures PendingLookup(target, tr, tid) ==
      if IsLookupProbe(Last(tr)) && By(target, Last(tr), tid)
      then
        if Last(tr).action.LookupEnter?
        then Some(Lookup(Kept(Last(tr).action.host), Last(tr).action.results)) else None
      else PendingLookup(target, Init(tr), tid)
  {
    hide By, Kept;
  }

  lemma ConnectHistoryStep(target: nat, tr: seq<Event>, tid: nat)
    requires tr != []
    ensures PendingSocket(target, tr, tid) ==
      if IsConnectProbe(Last(tr)) && By(target, Last(tr), tid)
      then (if Last(tr).action.ConnectEnter? then Some(Last(tr).action.sock) else None)
      else PendingSocket(target, Init(tr), tid)
  {
    hide By;
  }

  /** `lookups` and `sockets` hold a thread exactly when its last matching probe was an enter, with what it passed. */
  lemma {:induction false} PendingIsHistory(target: nat, size: nat, tr: seq<Event>, tid: nat)
    requires Roomy(target, size, tr)
    ensures LookupElem(Run(target, size, tr).lookups, tid) == PendingLookup(target, tr, tid)
    ensures LookupElem(Run(target, size, tr).sockets, tid) == PendingSocket(target, tr, tid)
  {
    hide Step, Kept, By, Roomy, HasRoom, PendingLookup, PendingSocket, IsLookupProbe, IsConnectProbe;
    if tr == [] {
      NothingPending(target, tid);
    } else {
      RoomyInit(target, size, tr);
      PendingIsHistory(target, size, Init(tr), tid);
      PendingLookupStep(target, size, Run(target, size, Init(tr)), Last(tr), tid);
      PendingSocketStep(target, size, Run(target, size, Init(tr)), Last(tr), tid);
      LookupHistoryStep(target, tr, tid);
      ConnectHistoryStep(target, tr, tid);
    }
  }

  lemma NothingPending(target: nat, tid: nat)
    ensures PendingLookup(target, [], tid) == None && PendingSocket(target, [], tid) == None
  {
  }

  lemma PendingLookupStep(target: nat, size: nat, s: State, e: Event, tid: nat)
    requires HasRoom(target, size, s, e)
    ensures LookupElem(Step(target, size, s, e).lookups, tid) ==
            if IsLookupProbe(e) && By(target, e, tid)
            then (if e.action.LookupEnter? then Some(Lookup(Kept(e.action.host), e.action.results)) else None)
            else LookupElem(s.lookups, tid)
  {
    hide HostnamesAfter, OutAfter, SocketsAfter;
  }

  lemma PendingSocketStep(target: nat, size: nat, s: State, e: Event, tid: nat)
    requires HasRoom(target, size, s, e)
    ensures LookupElem(Step(target, size, s, e).sockets, tid) ==
            if IsConnectProbe(e) && By(target, e, tid)
            then (if e.action.ConnectEnter? then Some(e.action.sock) else None)
            else LookupElem(s.sockets, tid)
  {
    hide HostnamesAfter, OutAfter, LookupsAfter;
  }

  /** Event i is the successful exit of a recorded lookup that resolved to ip; its host name is `host`. */
  ghost predicate Resolves(target: nat, tr: seq<Event>, i: nat, ip: IPv4, l: Lookup)
    requires i < |tr|
  {
    && Watched(target, tr[i]) && tr[i].action.LookupExit? && tr[i].action.ret == 0
    && PendingLookup(target, tr[..i], tr[i].thread) == Some(l)
    && LeadsTo(tr[i].action.memory, l.results, ip)
  }

  ghost predicate ResolvesAny(target: nat, tr: seq<Event>, i: nat, ip: IPv4)
    requires i < |tr|
  {
    exists l :: Resolves(target, tr, i, ip, l)
  }

  /** Event i is the successful exit of a recorded connect to ip. */
  ghost predicate Connects(target: nat, tr: seq<Event>, i: nat, ip: IPv4)
    requires i < |tr|
  {
    && Watched(target, tr[i]) && tr[i].action.ConnectExit? && tr[i].action.ret == 0
    && PendingSocket(target, tr[..i], tr[i].thread).Some?
    && LeadsTo(tr[i].action.memory, PendingSocket(target, tr[..i], tr[i].thread).value, ip)
  }

  ghost predicate ConnectsNowhere(target: nat, tr: seq<Event>, i: nat)
    requires i < |tr|
  {
    forall ip :: !Connects(target, tr, i, ip)
  }

  /** What event i adds to the output. */
  ghost function OutputOf(target: nat, size: nat, tr: seq<Event>, i: nat): seq<Output>
    requires i < |tr|
  {
    var before, after := Run(target, size, tr[..i]).out, Run(target, size, tr[..i + 1]).out;
    if |before| <= |after| then after[|before|..] else []
  }

  /** Of the events of tr, the i-th resolved ip to l, and since then ip was neither resolved again nor connected to. */
  ghost predicate Fresh(target: nat, tr: seq<Event>, i: nat, ip: IPv4, l: Lookup)
    requires i < |tr|
  {
    && Resolves(target, tr, i, ip, l)
    && forall j :: i < j < |tr| ==>
         !Connects(target, tr, j, ip) && !ResolvesAny(target, tr, j, ip)
  }

  // ---- the hostnames map is the fresh resolutions ----

  /** In state s, event e completes a recorded lookup of ip. */
  ghost predicate ResolvesNow(target: nat, s: State, e: Event, ip: IPv4, l: Lookup) {
    && Watched(target, e) && e.action.LookupExit? && e.action.ret == 0
    && e.thread != 0 && LookupElem(s.lookups, e.thread) == Some(l) && LeadsTo(e.action.memory, l.results, ip)
  }

  /** In state s, event e completes a recorded connect to ip. */
  ghost predicate ConnectsNow(target: nat, s: State, e: Event, ip: IPv4) {
    && Watched(target, e) && e.action.ConnectExit? && e.action.ret == 0
    && e.thread != 0 && e.thread in s.sockets && LeadsTo(e.action.memory, s.sockets[e.thread], ip)
  }

  lemma HostStep(target: nat, size: nat, s: State, e: Event, ip: IPv4)
    requires HasRoom(target, size, s, e)
    ensures forall l :: ResolvesNow(target, s, e, ip, l) ==> LookupElem(Step(target, size, s, e).hostnames, ip) == Some(l)
    ensures ConnectsNow(target, s, e, ip) ==> LookupElem(Step(target, size, s, e).hostnames, ip) == None
    ensures (forall l :: !ResolvesNow(target, s, e, ip, l)) && !ConnectsNow(target, s, e, ip) ==>
              LookupElem(Step(target, size, s, e).hostnames, ip) == LookupElem(s.hostnames, ip)
  {
    hide OutAfter, LookupsAfter, SocketsAfter;
    var tid, a := GetTid(target, e), e.action;
    if a.LookupExit? && tid != 0 && a.ret == 0 && tid in s.lookups {
      assert ResolvesNow(target, s, e, ReadIp(a.memory, s.lookups[tid].results), s.lookups[tid]);
    }
  }

  lemma OutStep(target: nat, size: nat, s: State, e: Event, ip: IPv4)
    ensures ConnectsNow(target, s, e, ip) ==>
              Step(target, size, s, e).out ==
              s.out + [if ip in s.hostnames then HostnameEvent(s.hostnames[ip].host) else IpEvent(ip)]
    ensures (forall x :: !ConnectsNow(target, s, e, x)) ==> Step(target, size, s, e).out == s.out
  {
    if e.action.ConnectExit? && Watched(target, e) && e.thread != 0 && e.action.ret == 0 && e.thread in s.sockets {
      assert ConnectsNow(target, s, e, ReadIp(e.action.memory, s.sockets[e.thread]));
    }
  }

  lemma LastResolves(target: nat, size: nat, tr: seq<Event>, ip: IPv4, l: Lookup)
    requires Roomy(target, size, tr) && tr != []
    ensures Resolves(target, tr, |tr| - 1, ip, l) <==> ResolvesNow(target, Run(target, size, Init(tr)), Last(tr), ip, l)
  {
    RoomyInit(target, size, tr);
    PendingIsHistory(target, size, Init(tr), Last(tr).thread);
    hide Run, PendingLookup, Roomy, LeadsTo;
  }

  lemma LastConnects(target: nat, size: nat, tr: seq<Event>, ip: IPv4)
    requires Roomy(target, size, tr) && tr != []
    ensures Connects(target, tr, |tr| - 1, ip) <==> ConnectsNow(target, Run(target, size, Init(tr)), Last(tr), ip)
  {
    RoomyInit(target, size, tr);
    PendingIsHistory(target, size, Init(tr), Last(tr).thread);
    hide Run, PendingSocket, Roomy, LeadsTo;
  }

  /** What the last event of a run reports: the name its address goes by in `hostnames`, else the address. */
  lemma LastOutput(target: nat, size: nat, tr: seq<Event>, ip: IPv4)
    requires Roomy(target, size, tr) && tr != []
    ensures var names := Run(target, size, Init(tr)).hostnames;
      Connects(target, tr, |tr| - 1, ip) ==>
        OutputOf(target, size, tr, |tr| - 1) ==
        [if ip in names then HostnameEvent(names[ip].host) else IpEvent(ip)]
    ensures ConnectsNowhere(target, tr, |tr| - 1) ==> OutputOf(target, size, tr, |tr| - 1) == []
  {
    var s := Run(target, size, Init(tr));
    assert tr[..|tr|] == tr && tr[..|tr| - 1] == Init(tr);
    assert Run(target, size, tr) == Step(target, size, s, Last(tr));
    hide Step, Run, Connects, ConnectsNow;
    var n := |tr| - 1;
    forall x ensures Connects(target, tr, n, x) <==> ConnectsNow(target, s, Last(tr), x) {
      LastConnects(target, size, tr, x);
    }
    OutStep(target, size, s, Last(tr), ip);
  }

  lemma EarlierSame(target: nat, tr: seq<Event>, i: nat, ip: IPv4)
    requires i < |tr| - 1
    ensures forall l :: Resolves(target, tr, i, ip, l) <==> Resolves(target, Init(tr), i, ip, l)
    ensures ResolvesAny(target, tr, i, ip) <==> ResolvesAny(target, Init(tr), i, ip)
    ensures Connects(target, tr, i, ip) <==> Connects(target, Init(tr), i, ip)
  {
    assert tr[..i] == Init(tr)[..i] && tr[i] == Init(tr)[i];
    hide PendingLookup, PendingSocket, LeadsTo;
  }

  /** Fresh resolutions carry over to a longer trace unless its last event resolves or names the address. */
  lemma FreshStep(target: nat, tr: seq<Event>, i: nat, ip: IPv4, l: Lookup)
    requires i < |tr| - 1
    ensures Fresh(target, tr, i, ip, l) <==>
      && Fresh(target, Init(tr), i, ip, l)
      && !Connects(target, tr, |tr| - 1, ip) && !ResolvesAny(target, tr, |tr| - 1, ip)
  {
    hide Connects, Resolves, ResolvesAny;
    EarlierSame(target, tr, i, ip);
    forall j: nat | j < |tr| - 1
      ensures Connects(target, tr, j, ip) <==> Connects(target, Init(tr), j, ip)
      ensures ResolvesAny(target, tr, j, ip) <==> ResolvesAny(target, Init(tr), j, ip)
    {
      EarlierSame(target, tr, j, ip);
    }
  }

  /** Some event of tr resolved ip to l, and since then ip was neither resolved again nor connected to. */
  ghost predicate ResolvedAndFresh(target: nat, tr: seq<Event>, ip: IPv4, l: Lookup) {
    exists i :: 0 <= i < |tr| && Fresh(target, tr, i, ip, l)
  }

  lemma FreshGrows(target: nat, tr: seq<Event>, ip: IPv4, l: Lookup)
    requires tr != []
    ensures ResolvedAndFresh(target, tr, ip, l) <==>
      || Resolves(target, tr, |tr| - 1, ip, l)
      || (ResolvedAndFresh(target, Init(tr), ip, l)
          && !Connects(target, tr, |tr| - 1, ip) && !ResolvesAny(target, tr, |tr| - 1, ip))
  {
    var n := |tr| - 1;
    FreshAtEnd(target, tr, ip, l);
    hide Fresh, Resolves, Connects, ResolvesAny;
    forall i: nat | i < n ensures Fresh(target, tr, i, ip, l) <==>
      Fresh(target, Init(tr), i, ip, l) && !Connects(target, tr, n, ip) && !ResolvesAny(target, tr, n, ip)
    {
      FreshStep(target, tr, i, ip, l);
    }
    if i :| 0 <= i < n && Fresh(target, Init(tr), i, ip, l) {
      assert !Connects(target, tr, n, ip) && !ResolvesAny(target, tr, n, ip) ==> Fresh(target, tr, i, ip, l);
    }
    if i :| 0 <= i < |tr| && Fresh(target, tr, i, ip, l) {
      assert i < n ==> Fresh(target, Init(tr), i, ip, l);
    }
  }

  /** `hostnames` holds exactly the fresh resolutions: ip maps to l if and only if some event resolved it to l and it
    has been neither resolved again nor connected to since. */
  lemma {:induction false} HostnamesAreFresh(target: nat, size: nat, tr: seq<Event>, ip: IPv4, l: Lookup)
    requires Roomy(target, size, tr)
    ensures LookupElem(Run(target, size, tr).hostnames, ip) == Some(l) <==> ResolvedAndFresh(target, tr, ip, l)
  {
    if tr != [] {
      RoomyInit(target, size, tr);
      HostnamesAreFresh(target, size, Init(tr), ip, l);
      LastEffect(target, size, tr, ip);
      FreshGrows(target, tr, ip, l);
      ResolvesOnce(target, tr, |tr| - 1, ip, l);
      hide Run, Roomy, ResolvedAndFresh, Resolves, Connects, ResolvesAny, HasRoom;
    }
  }

  lemma ResolvesOnce(target: nat, tr: seq<Event>, n: nat, ip: IPv4, l: Lookup)
    requires n < |tr|
    ensures ResolvesAny(target, tr, n, ip) ==> exists m :: Resolves(target, tr, n, ip, m)
    ensures Resolves(target, tr, n, ip, l) ==> ResolvesAny(target, tr, n, ip)
  {
    hide Resolves;
  }

  lemma FreshAtEnd(target: nat, tr: seq<Event>, ip: IPv4, l: Lookup)
    requires tr != []
    ensures Fresh(target, tr, |tr| - 1, ip, l) <==> Resolves(target, tr, |tr| - 1, ip, l)
  {
  }

  /** The effect of the last event on the entry of ip, in terms of the history. */
  lemma LastEffect(target: nat, size: nat, tr: seq<Event>, ip: IPv4)
    requires Roomy(target, size, tr) && tr != []
    ensures var n, before, after := |tr| - 1, LookupElem(Run(target, size, Init(tr)).hostnames, ip),
                                    LookupElem(Run(target, size, tr).hostnames, ip);
      && (forall l :: Resolves(target, tr, n, ip, l) ==> after == Some(l) && !Connects(target, tr, n, ip))
      && (Connects(target, tr, n, ip) ==> after == None)
      && (!ResolvesAny(target, tr, n, ip) && !Connects(target, tr, n, ip) ==> after == before)
  {
    var n, s := |tr| - 1, Run(target, size, Init(tr));
    assert Run(target, size, tr) == Step(target, size, s, Last(tr));
    RoomyInit(target, size, tr);
    HostStep(target, size, s, Last(tr), ip);
    LastConnects(target, size, tr, ip);
    forall l ensures Resolves(target, tr, n, ip, l) <==> ResolvesNow(target, s, Last(tr), ip, l) {
      LastResolves(target, size, tr, ip, l);
    }
    hide Step, Run, Roomy, LeadsTo, PendingLookup, PendingSocket;
  }

  /** The history specification: after any interleaving, a successful recorded connect to ip reports host name h
    exactly when some recorded lookup resolved ip to h and since then ip was neither resolved again nor reported by
    name; otherwise it reports the bare address. Every other event reports nothing. */
  lemma ConnectReports(target: nat, size: nat, tr: seq<Event>, ip: IPv4)
    requires Roomy(target, size, tr) && tr != []
    ensures var out := OutputOf(target, size, tr, |tr| - 1);
      Connects(target, tr, |tr| - 1, ip) ==>
        && (forall h :: out == [HostnameEvent(h)] <==>
              exists l :: ResolvedAndFresh(target, Init(tr), ip, l) && l.host == h)
        && (out == [IpEvent(ip)] <==> forall l :: !ResolvedAndFresh(target, Init(tr), ip, l))
    ensures ConnectsNowhere(target, tr, |tr| - 1) ==> OutputOf(target, size, tr, |tr| - 1) == []
  {
    var names := Run(target, size, Init(tr)).hostnames;
    LastOutput(target, size, tr, ip);
    RoomyInit(target, size, tr);
    hide Run, Connects, OutputOf, Roomy, ResolvedAndFresh, HasRoom;
    forall l ensures LookupElem(names, ip) == Some(l) <==> ResolvedAndFresh(target, Init(tr), ip, l) {
      HostnamesAreFresh(target, size, Init(tr), ip, l);
    }
    if ip in names {
      assert LookupElem(names, ip) == Some(names[ip]);
    }
  }

  // ---- the target process ----

  function OfProcess(pid: nat, tr: seq<Event>): seq<Event> {
    if tr == [] then [] else OfProcess(pid, Init(tr)) + (if Last(tr).pid == pid then [Last(tr)] else [])
  }

  lemma StepSelects(target: nat, size: nat, s: State, e: Event)
    requires target != 0
    ensures Step(target, size, s, e) == if e.pid == target then Step(0, size, s, e) else s
  {
  }

  /** With a target set, the run is that of the target's events traced without one. */
  lemma {:induction false} TargetSelects(target: nat, size: nat, tr: seq<Event>)
    requires target != 0
    ensures Run(target, size, tr) == Run(0, size, OfProcess(target, tr))
  {
    hide Step;
    if tr != [] {
      var own := OfProcess(target, Init(tr));
      TargetSelects(target, size, Init(tr));
      StepSelects(target, size, Run(target, size, Init(tr)), Last(tr));
      assert Init(own + [Last(tr)]) == own && own + [] == own;
    }
  }

  // ---- when there is room ----

  /** All three maps hold what the history says. */
  ghost predicate Faithful(target: nat, size: nat, tr: seq<Event>) {
    PendingFaithful(target, size, tr) && NamesFaithful(target, size, tr)
  }

  ghost predicate PendingFaithful(target: nat, size: nat, tr: seq<Event>) {
    && (forall tid :: LookupElem(Run(target, size, tr).lookups, tid) == PendingLookup(target, tr, tid))
    && (forall tid :: LookupElem(Run(target, size, tr).sockets, tid) == PendingSocket(target, tr, tid))
  }

  ghost predicate NamesFaithful(target: nat, size: nat, tr: seq<Event>) {
    forall ip, l ::
      LookupElem(Run(target, size, tr).hostnames, ip) == Some(l) <==> ResolvedAndFresh(target, tr, ip, l)
  }

  /** A thread turned away by a full `lookups` or `sockets`. */
  lemma TurnedAwayPending(target: nat, size: nat, tr: seq<Event>)
    requires tr != [] && !HasRoom(target, size, Run(target, size, Init(tr)), Last(tr))
    requires Last(tr).action.LookupEnter? || Last(tr).action.ConnectEnter?
    ensures !PendingFaithful(target, size, tr)
  {
    var s, e, tid := Run(target, size, Init(tr)), Last(tr), Last(tr).thread;
    assert Run(target, size, tr) == Step(target, size, s, e);
    if e.action.LookupEnter? {
      assert LastLookupProbe(target, tr, tid) == Some(|tr| - 1);
      assert LookupElem(Run(target, size, tr).lookups, tid) != PendingLookup(target, tr, tid);
    } else {
      assert LastConnectProbe(target, tr, tid) == Some(|tr| - 1);
      assert LookupElem(Run(target, size, tr).sockets, tid) != PendingSocket(target, tr, tid);
    }
  }

  /** An address turned away by a full `hostnames`. */
  lemma TurnedAwayName(target: nat, size: nat, tr: seq<Event>)
    requires tr != [] && !HasRoom(target, size, Run(target, size, Init(tr)), Last(tr))
    requires Last(tr).action.LookupExit? && PendingFaithful(target, size, Init(tr))
    ensures !NamesFaithful(target, size, tr)
  {
    var s, e, tid := Run(target, size, Init(tr)), Last(tr), Last(tr).thread;
    assert Run(target, size, tr) == Step(target, size, s, e);
    var l := s.lookups[tid];
    var ip := ReadIp(e.action.memory, l.results);
    assert LookupElem(s.lookups, tid) == Some(l);
    assert tr[..|tr| - 1] == Init(tr);
    assert Resolves(target, tr, |tr| - 1, ip, l);
    assert ip !in Run(target, size, tr).hostnames;
    hide Run, Step, Resolves, HasRoom, PendingLookup, PendingSocket;
    FreshGrows(target, tr, ip, l);
    assert LookupElem(Run(target, size, tr).hostnames, ip) != Some(l);
  }

  lemma RoomyPrefix(target: nat, size: nat, tr: seq<Event>, n: nat)
    requires Roomy(target, size, tr) && n <= |tr|
    ensures Roomy(target, size, tr[..n])
  {
    hide HasRoom, Run;
    forall i | 0 <= i < n ensures HasRoom(target, size, Run(target, size, tr[..n][..i]), tr[..n][i]) {
      assert tr[..n][..i] == tr[..i];
    }
  }

  lemma RoomyIsFaithful(target: nat, size: nat, tr: seq<Event>)
    requires Roomy(target, size, tr)
    ensures Faithful(target, size, tr)
  {
    hide Roomy, Run, PendingLookup, PendingSocket, ResolvedAndFresh;
    forall tid
      ensures LookupElem(Run(target, size, tr).lookups, tid) == PendingLookup(target, tr, tid)
      ensures LookupElem(Run(target, size, tr).sockets, tid) == PendingSocket(target, tr, tid)
    {
      PendingIsHistory(target, size, tr, tid);
    }
    forall ip, l
      ensures LookupElem(Run(target, size, tr).hostnames, ip) == Some(l) <==> ResolvedAndFresh(target, tr, ip, l)
    {
      HostnamesAreFresh(target, size, tr, ip, l);
    }
  }

  /** The three maps are right all along a run exactly when no insertion meets a full map. */
  lemma FaithfulIffRoomy(target: nat, size: nat, tr: seq<Event>)
    ensures (forall i :: 0 <= i <= |tr| ==> Faithful(target, size, tr[..i])) <==> Roomy(target, size, tr)
  {
    hide PendingFaithful, NamesFaithful, Run;
    if Roomy(target, size, tr) {
      forall i | 0 <= i <= |tr| ensures Faithful(target, size, tr[..i]) {
        RoomyPrefix(target, size, tr, i);
        RoomyIsFaithful(target, size, tr[..i]);
      }
    } else {
      var i :| 0 <= i < |tr| && !HasRoom(target, size, Run(target, size, tr[..i]), tr[i]);
      assert Init(tr[..i + 1]) == tr[..i] && Last(tr[..i + 1]) == tr[i];
      if Faithful(target, size, tr[..i]) {
        if tr[i].action.LookupExit? {
          TurnedAwayName(target, size, tr[..i + 1]);
        } else {
          TurnedAwayPending(target, size, tr[..i + 1]);
        }
      }
    }
  }


  /** With no more distinct threads and addresses than the maps hold entries, there is always room. */
  lemma {:induction false} SmallWorldIsRoomy(target: nat, size: nat, tr: seq<Event>, threads: set<nat>, ips: set<IPv4>)
    requires |threads| <= size && |ips| <= size && ZERO_IP in ips
    requires forall i :: 0 <= i < |tr| ==> InWorld(tr[i], threads, ips)
    ensures var s := Run(target, size, tr);
      s.lookups.Keys <= threads && s.sockets.Keys <= threads && s.hostnames.Keys <= ips
    ensures Roomy(target, size, tr)
  {
    hide Step, InWorld, HasRoom;
    if tr != [] {
      SmallWorldIsRoomy(target, size, Init(tr), threads, ips);
      WorldStep(target, size, Run(target, size, Init(tr)), Last(tr), threads, ips);
      WorldHasRoom(target, size, Run(target, size, Init(tr)), Last(tr), threads, ips);
      forall i | 0 <= i < |tr| ensures HasRoom(target, size, Run(target, size, tr[..i]), tr[i]) {
        if i < |tr| - 1 {
          assert tr[..i] == Init(tr)[..i] && tr[i] == Init(tr)[i];
        } else {
          assert tr[..i] == Init(tr);
        }
      }
    }
  }

  ghost predicate InWorld(e: Event, threads: set<nat>, ips: set<IPv4>) {
    && e.thread in threads
    && (e.action.LookupExit? ==> e.action.memory.Values <= ips)
  }

  lemma WorldStep(target: nat, size: nat, s: State, e: Event, threads: set<nat>, ips: set<IPv4>)
    requires InWorld(e, threads, ips) && ZERO_IP in ips
    requires s.lookups.Keys <= threads && s.sockets.Keys <= threads && s.hostnames.Keys <= ips
    ensures var t := Step(target, size, s, e);
      t.lookups.Keys <= threads && t.sockets.Keys <= threads && t.hostnames.Keys <= ips
  {
    if e.action.LookupExit? && GetTid(target, e) in s.lookups {
      assert ReadIp(e.action.memory, s.lookups[GetTid(target, e)].results) in ips;
    }
  }

  lemma KeyOrRoom<K, V>(m: map<K, V>, key: K, size: nat, world: set<K>)
    requires m.Keys <= world && key in world && |world| <= size
    ensures key in m || |m| < size
  {
    assert |m| == |m.Keys|;
    if key !in m {
      SmallerSubset(m.Keys, world, key);
    }
  }

  lemma WorldHasRoom(target: nat, size: nat, s: State, e: Event, threads: set<nat>, ips: set<IPv4>)
    requires |threads| <= size && |ips| <= size && ZERO_IP in ips && InWorld(e, threads, ips)
    requires s.lookups.Keys <= threads && s.sockets.Keys <= threads && s.hostnames.Keys <= ips
    ensures HasRoom(target, size, s, e)
  {
    KeyOrRoom(s.lookups, e.thread, size, threads);
    KeyOrRoom(s.sockets, e.thread, size, threads);
    if e.action.LookupExit? && GetTid(target, e) in s.lookups {
      KeyOrRoom(s.hostnames, ReadIp(e.action.memory, s.lookups[GetTid(target, e)].results), size, ips);
    }
  }
}
