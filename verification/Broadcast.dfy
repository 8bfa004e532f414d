/** The loader's client slots, and what a client makes of the messages it is sent.

  A send takes some first part of the message, all of it as a rule; the loader does not look how much. A connection is
  named by a number that is never used twice. */
module Broadcast {
  import opened Framing

  const MAX_CLIENTS: nat := 16

  /** What send() does: takes `count` characters, or fails. */
  datatype Outcome = Takes(count: nat) | WouldBlock | Broken

  /** A message of which the first `count` characters went out. */
  datatype Sending = Sending(message: string, count: nat) {
    ghost predicate Valid() {
      count <= |message|
    }

    function Text(): string {
      if count <= |message| then message[..count] else message
    }

    predicate Whole() {
      count == |message|
    }
  }

  function Messages(sendings: seq<Sending>): (r: seq<string>)
    ensures |r| == |sendings| && forall i :: 0 <= i < |r| ==> r[i] == sendings[i].message
  {
    seq(|sendings|, i requires 0 <= i < |sendings| => sendings[i].message)
  }

  /** a can be had from b by leaving messages out. */
  ghost predicate Subsequence(a: seq<string>, b: seq<string>)
    decreases |b|
  {
    if a == [] then true
    else if b == [] then false
    else
      || Subsequence(a, b[..|b| - 1])
      || (a[|a| - 1] == b[|b| - 1] && Subsequence(a[..|a| - 1], b[..|b| - 1]))
  }

  lemma SubsequenceGrows(a: seq<string>, b: seq<string>, m: string)
    requires Subsequence(a, b)
    ensures Subsequence(a, b + [m]) && Subsequence(a + [m], b + [m])
  {
    assert (b + [m])[..|b + [m]| - 1] == b;
    assert (a + [m])[..|a + [m]| - 1] == a;
  }

  lemma {:induction false} SubsequenceMembers(a: seq<string>, b: seq<string>)
    requires Subsequence(a, b)
    ensures |a| <= |b| && forall m :: m in a ==> m in b
    decreases |b|
  {
    if a != [] {
      var init := b[..|b| - 1];
      assert b == init + [b[|b| - 1]];
      if Subsequence(a, init) {
        SubsequenceMembers(a, init);
      } else {
        SubsequenceMembers(a[..|a| - 1], init);
        assert a == a[..|a| - 1] + [a[|a| - 1]];
      }
    }
  }

  // ---- the slots ----

  /** The first free slot; the number of slots when there is none. */
  function FirstFree(fds: seq<int>): (i: nat)
    ensures i <= |fds| && (forall j :: 0 <= j < i ==> fds[j] >= 0) && (i < |fds| ==> fds[i] < 0)
  {
    if fds == [] || fds[0] < 0 then 0 else 1 + FirstFree(fds[1..])
  }

  lemma {:induction false} FirstFreeIs(fds: seq<int>, i: nat)
    requires i <= |fds| && (forall j :: 0 <= j < i ==> fds[j] >= 0) && (i < |fds| ==> fds[i] < 0)
    ensures FirstFree(fds) == i
  {
  }

  /** The slots after one connection came in. */
  function Seat(fds: seq<int>, cfd: nat): (r: seq<int>)
    ensures |r| == |fds|
  {
    if FirstFree(fds) < |fds| then fds[FirstFree(fds) := cfd] else fds
  }

  /** The slots after a queue of connections came in. */
  function SeatAll(fds: seq<int>, queue: seq<nat>): (r: seq<int>)
    ensures |r| == |fds|
  {
    if queue == [] then fds else Seat(SeatAll(fds, queue[..|queue| - 1]), queue[|queue| - 1])
  }

  function FreeSlots(fds: seq<int>): nat {
    if fds == [] then 0 else (if fds[0] < 0 then 1 else 0) + FreeSlots(fds[1..])
  }

  lemma {:induction false} SeatTakesOne(fds: seq<int>, cfd: nat)
    ensures FreeSlots(Seat(fds, cfd)) == if FreeSlots(fds) > 0 then FreeSlots(fds) - 1 else 0
    ensures FirstFree(fds) < |fds| <==> FreeSlots(fds) > 0
  {
    if fds != [] {
      SeatTakesOne(fds[1..], cfd);
      if fds[0] >= 0 && FirstFree(fds) < |fds| {
        assert fds[FirstFree(fds) := cfd][1..] == fds[1..][FirstFree(fds[1..]) := cfd];
      } else if fds[0] < 0 {
        assert fds[0 := cfd][1..] == fds[1..];
      }
    }
  }

  lemma SeatKeeps(fds: seq<int>, cfd: nat)
    ensures forall i :: 0 <= i < |fds| && fds[i] >= 0 ==> Seat(fds, cfd)[i] == fds[i]
    ensures forall i :: 0 <= i < |fds| ==> Seat(fds, cfd)[i] == fds[i] || Seat(fds, cfd)[i] == cfd
    ensures FirstFree(fds) < |fds| ==> Seat(fds, cfd)[FirstFree(fds)] == cfd
    ensures FirstFree(fds) == |fds| ==> Seat(fds, cfd) == fds
  {
  }

  /** Nobody loses a slot, and a queue uses up as many free ones as it needs and there are. */
  lemma {:induction false} SlotsUsed(fds: seq<int>, queue: seq<nat>)
    ensures FreeSlots(SeatAll(fds, queue)) == if FreeSlots(fds) > |queue| then FreeSlots(fds) - |queue| else 0
    ensures forall i :: 0 <= i < |fds| && fds[i] >= 0 ==> SeatAll(fds, queue)[i] == fds[i]
  {
    hide Seat, FreeSlots;
    if queue != [] {
      var before, last := SeatAll(fds, queue[..|queue| - 1]), queue[|queue| - 1];
      SlotsUsed(fds, queue[..|queue| - 1]);
      SeatTakesOne(before, last);
      SeatKeeps(before, last);
    }
  }

  /** The first of a queue get the free slots, as many as there are, and nobody else does. */
  lemma {:induction false} FirstComeFirstServed(fds: seq<int>, queue: seq<nat>)
    ensures forall q :: 0 <= q < |queue| && q < FreeSlots(fds) ==> queue[q] in SeatAll(fds, queue)
    ensures forall i :: 0 <= i < |fds| && SeatAll(fds, queue)[i] != fds[i] ==>
              exists q :: 0 <= q < |queue| && q < FreeSlots(fds) && SeatAll(fds, queue)[i] == queue[q]
  {
    hide Seat, FreeSlots, FirstFree;
    if queue != [] {
      var init, last := queue[..|queue| - 1], queue[|queue| - 1];
      var before, free := SeatAll(fds, init), FreeSlots(fds);
      var r := Seat(before, last);
      FirstComeFirstServed(fds, init);
      SlotsUsed(fds, init);
      SeatTakesOne(before, last);
      SeatKeeps(before, last);
      forall q | 0 <= q < |queue| && q < free ensures queue[q] in r {
        if q < |init| {
          var i :| 0 <= i < |before| && before[i] == init[q];
          assert r[i] == queue[q];
        } else {
          assert r[FirstFree(before)] == last;
        }
      }
      forall i | 0 <= i < |fds| && r[i] != fds[i] ensures exists q :: 0 <= q < |queue| && q < free && r[i] == queue[q] {
        if r[i] == before[i] {
          var q :| 0 <= q < |init| && q < free && before[i] == init[q];
          assert queue[q] == r[i];
        } else {
          assert queue[|init|] == r[i];
        }
      }
    }
  }

  /** close_client on a slot whose send failed for good. */
  function KeptFd(fd: int, outcome: Outcome): int {
    if outcome.Broken? && fd >= 0 then -1 else fd
  }

  /** What one of the first `upTo` sends takes for connection c. */
  function Taken(upTo: nat, fds: seq<int>, c: int, json: string, outcomes: seq<Outcome>): seq<Sending>
    requires upTo <= |fds| == |outcomes|
  {
    if upTo == 0 then []
    else if fds[upTo - 1] == c && c >= 0 && outcomes[upTo - 1].Takes?
    then [Sent(json, outcomes[upTo - 1].count)]
    else Taken(upTo - 1, fds, c, json, outcomes)
  }

  /** send() takes no more than there is. */
  function Sent(json: string, count: nat): (r: Sending)
    ensures r.Valid() && r.message == json
  {
    Sending(json, if count < |json| then count else |json|)
  }

  lemma {:induction false} TakenNone(upTo: nat, fds: seq<int>, c: int, json: string, outcomes: seq<Outcome>)
    requires upTo <= |fds| == |outcomes| && forall j :: 0 <= j < upTo ==> fds[j] != c
    ensures Taken(upTo, fds, c, json, outcomes) == []
  {
    if upTo > 0 {
      TakenNone(upTo - 1, fds, c, json, outcomes);
    }
  }

  lemma {:induction false} TakenShape(upTo: nat, fds: seq<int>, c: int, json: string, outcomes: seq<Outcome>)
    requires upTo <= |fds| == |outcomes|
    ensures var t := Taken(upTo, fds, c, json, outcomes);
      t == [] || (|t| == 1 && t[0].Valid() && t[0].message == json)
  {
    if upTo > 0 {
      TakenShape(upTo - 1, fds, c, json, outcomes);
    }
  }

  /** What a broadcast delivers: `outcomes` says how each slot's send goes. */
  function DeliveredAfter(upTo: nat, fds: seq<int>, before: map<int, seq<Sending>>, json: string,
                          outcomes: seq<Outcome>): (r: map<int, seq<Sending>>)
    requires upTo <= |fds| == |outcomes|
    ensures r.Keys == before.Keys
  {
    map c | c in before :: before[c] + Taken(upTo, fds, c, json, outcomes)
  }

  ghost predicate SlotsFit(fds: seq<int>, delivered: map<int, seq<Sending>>) {
    && (forall i :: 0 <= i < |fds| ==> fds[i] >= -1)
    && (forall i :: 0 <= i < |fds| && fds[i] >= 0 ==> fds[i] in delivered)
    && forall i, j :: 0 <= i < j < |fds| && fds[i] >= 0 ==> fds[i] != fds[j]
  }

  lemma DeliveredNone(fds: seq<int>, before: map<int, seq<Sending>>, json: string, outcomes: seq<Outcome>)
    requires |fds| == |outcomes|
    ensures DeliveredAfter(0, fds, before, json, outcomes) == before
  {
    forall c | c in before ensures before[c] + Taken(0, fds, c, json, outcomes) == before[c] {
    }
  }

  lemma DeliveredStep(i: nat, fds: seq<int>, before: map<int, seq<Sending>>, json: string, outcomes: seq<Outcome>)
    requires i < |fds| == |outcomes| && SlotsFit(fds, before)
    ensures fds[i] >= 0 ==> fds[i] in before
    ensures var now := DeliveredAfter(i, fds, before, json, outcomes);
      DeliveredAfter(i + 1, fds, before, json, outcomes) ==
      if fds[i] >= 0 && outcomes[i].Takes? then now[fds[i] := now[fds[i]] + [Sent(json, outcomes[i].count)]] else now
  {
    if fds[i] >= 0 {
      TakenNone(i, fds, fds[i], json, outcomes);
      assert before[fds[i]] + [] == before[fds[i]];
    }
  }

  /** What a broadcast does, slot by slot: a send that takes characters delivers those, at most the message; one that
    would block or breaks delivers nothing. Only a break frees the slot; a free slot is passed over. */
  lemma BroadcastActs(fds: seq<int>, before: map<int, seq<Sending>>, json: string, outcomes: seq<Outcome>, i: nat)
    requires i < |fds| == |outcomes| && SlotsFit(fds, before)
    ensures var after := DeliveredAfter(|fds|, fds, before, json, outcomes);
      fds[i] >= 0 ==>
        fds[i] in before && after[fds[i]] ==
          match outcomes[i]
          case Takes(n) => before[fds[i]] + [Sending(json, if n <= |json| then n else |json|)]
          case WouldBlock => before[fds[i]]
          case Broken => before[fds[i]]
    ensures KeptFd(fds[i], outcomes[i]) == if fds[i] >= 0 && outcomes[i] == Broken then -1 else fds[i]
    ensures forall c :: c in before && c !in fds ==>
              DeliveredAfter(|fds|, fds, before, json, outcomes)[c] == before[c]
  {
    if fds[i] >= 0 {
      TakenAt(|fds|, fds, json, outcomes, i);
    }
    forall c | c in before && c !in fds ensures before[c] + Taken(|fds|, fds, c, json, outcomes) == before[c] {
      TakenNone(|fds|, fds, c, json, outcomes);
    }
  }

  lemma {:induction false} TakenAt(upTo: nat, fds: seq<int>, json: string, outcomes: seq<Outcome>, i: nat)
    requires i < upTo <= |fds| == |outcomes| && fds[i] >= 0
    requires forall j, k :: 0 <= j < k < |fds| && fds[j] >= 0 ==> fds[j] != fds[k]
    ensures Taken(upTo, fds, fds[i], json, outcomes) ==
      if outcomes[i].Takes? then [Sent(json, outcomes[i].count)] else []
  {
    if i < upTo - 1 {
      TakenAt(upTo - 1, fds, json, outcomes, i);
    } else {
      TakenNone(i, fds, fds[i], json, outcomes);
    }
  }

  /** Of the messages broadcast since a connection joined, it was sent some subsequence, every one whole or cut. */
  ghost predicate InOrder(sendings: seq<Sending>, broadcasts: seq<string>, since: nat) {
    && since <= |broadcasts|
    && Subsequence(Messages(sendings), broadcasts[since..])
    && forall i :: 0 <= i < |sendings| ==> sendings[i].Valid()
  }

  lemma InOrderGrows(sendings: seq<Sending>, more: seq<Sending>, broadcasts: seq<string>, since: nat, json: string)
    requires InOrder(sendings, broadcasts, since)
    requires more == [] || (|more| == 1 && more[0].Valid() && more[0].message == json)
    ensures InOrder(sendings + more, broadcasts + [json], since)
  {
    hide Subsequence;
    SubsequenceGrows(Messages(sendings), broadcasts[since..], json);
    assert (broadcasts + [json])[since..] == broadcasts[since..] + [json];
    if more == [] {
      assert sendings + more == sendings;
    } else {
      assert Messages(sendings + more) == Messages(sendings) + [json];
    }
  }

  class Server {
    const clientFds: array<int>
    var delivered: map<int, seq<Sending>>
    ghost var broadcasts: seq<string>
    ghost var joined: map<int, nat>

    /** Slots hold -1 or distinct connections, each with its part of the broadcasts. */
    ghost predicate Valid()
      reads this, clientFds
    {
      && clientFds.Length == MAX_CLIENTS
      && SlotsFit(clientFds[..], delivered)
      && delivered.Keys == joined.Keys
      && forall c :: c in joined ==> InOrder(delivered[c], broadcasts, joined[c])
    }

    constructor ()
      ensures Valid() && broadcasts == [] && delivered == map[] && fresh(clientFds) && clientFds.Length == 16
      ensures forall i :: 0 <= i < MAX_CLIENTS ==> clientFds[i] == -1
    {
      clientFds := new int[MAX_CLIENTS](_ => -1);
      delivered, broadcasts, joined := map[], [], map[];
    }

    /** A new connection takes the first free slot, or is refused when there is none. */
    method Accept(cfd: nat) returns (stored: bool)
      requires Valid() && cfd !in delivered
      modifies this, clientFds
      ensures Valid() && broadcasts == old(broadcasts)
      ensures clientFds[..] == Seat(old(clientFds[..]), cfd)
      ensures stored <==> FirstFree(old(clientFds[..])) < MAX_CLIENTS
      ensures delivered == if stored then old(delivered)[cfd := []] else old(delivered)
      ensures stored ==> joined[cfd] == |broadcasts|
    {
      hide InOrder, FirstFree;
      for i := 0 to MAX_CLIENTS
        invariant Valid() && clientFds[..] == old(clientFds[..])
        invariant delivered == old(delivered) && broadcasts == old(broadcasts)
        invariant forall j :: 0 <= j < i ==> clientFds[j] >= 0
      {
        if clientFds[i] < 0 {
          FirstFreeIs(clientFds[..], i);
          NewcomerInOrder(broadcasts);
          clientFds[i] := cfd;
          delivered, joined := delivered[cfd := []], joined[cfd := |broadcasts|];
          return true;
        }
      }
      FirstFreeIs(clientFds[..], MAX_CLIENTS);
      stored := false;
    }

    /** `accept_clients`: takes connections off the queue until it is empty. */
    method AcceptClients(queue: seq<nat>)
      requires Valid() && forall q :: 0 <= q < |queue| ==> queue[q] !in delivered
      requires forall p, q :: 0 <= p < q < |queue| ==> queue[p] != queue[q]
      modifies this, clientFds
      ensures Valid() && broadcasts == old(broadcasts)
      ensures clientFds[..] == SeatAll(old(clientFds[..]), queue)
    {
      hide InOrder, Seat, FirstFree;
      for q := 0 to |queue|
        invariant Valid() && broadcasts == old(broadcasts)
        invariant clientFds[..] == SeatAll(old(clientFds[..]), queue[..q])
        invariant forall p :: q <= p < |queue| ==> queue[p] !in delivered
      {
        assert queue[..q + 1][..q] == queue[..q];
        var _ := Accept(queue[q]);
      }
      assert queue[..|queue|] == queue;
    }

    /** The send to one slot: what it takes is delivered, however much it is. */
    method SendTo(i: nat, json: string, outcome: Outcome)
      requires i < clientFds.Length && (clientFds[i] >= 0 ==> clientFds[i] in delivered)
      modifies `delivered, clientFds
      ensures clientFds[..] == old(clientFds[..])[i := KeptFd(old(clientFds[i]), outcome)]
      ensures delivered ==
        if old(clientFds[i]) >= 0 && outcome.Takes?
        then old(delivered)[old(clientFds[i]) := old(delivered)[old(clientFds[i])] + [Sent(json, outcome.count)]]
        else old(delivered)
    {
      var fd := clientFds[i];
      if fd < 0 {
        return;
      }
      match outcome
      case Takes(count) => delivered := delivered[fd := delivered[fd] + [Sent(json, count)]];
      case WouldBlock =>
      case Broken => clientFds[i] := -1;
    }

    /** The loop over the slots. */
    method SendAll(json: string, outcomes: seq<Outcome>)
      requires clientFds.Length == |outcomes| == MAX_CLIENTS && SlotsFit(clientFds[..], delivered)
      modifies `delivered, clientFds
      ensures delivered == DeliveredAfter(MAX_CLIENTS, old(clientFds[..]), old(delivered), json, outcomes)
      ensures forall i :: 0 <= i < MAX_CLIENTS ==>
        clientFds[i] == KeptFd(old(clientFds[i]), outcomes[i])
    {
      hide DeliveredAfter, SlotsFit, KeptFd, Sent;
      ghost var fds := clientFds[..];
      DeliveredNone(fds, delivered, json, outcomes);
      for i := 0 to MAX_CLIENTS
        invariant delivered == DeliveredAfter(i, fds, old(delivered), json, outcomes)
        invariant forall j :: 0 <= j < i ==> clientFds[..][j] == KeptFd(fds[j], outcomes[j])
        invariant clientFds[i..] == fds[i..]
      {
        assert clientFds[i] == fds[i..][0];
        DeliveredStep(i, fds, old(delivered), json, outcomes);
        SendTo(i, json, outcomes[i]);
      }
    }

    method BroadcastJsonLine(json: string, outcomes: seq<Outcome>)
      requires Valid() && |outcomes| == MAX_CLIENTS
      modifies this, clientFds
      ensures Valid() && broadcasts == old(broadcasts) + [json] && joined == old(joined)
      ensures delivered == DeliveredAfter(MAX_CLIENTS, old(clientFds[..]), old(delivered), json, outcomes)
      ensures forall i :: 0 <= i < MAX_CLIENTS ==>
        clientFds[i] == KeptFd(old(clientFds[i]), outcomes[i])
    {
      hide InOrder, Taken;
      ghost var fds, before := clientFds[..], delivered;
      SendAll(json, outcomes);
      forall c | c in joined ensures InOrder(delivered[c], broadcasts + [json], joined[c]) {
        TakenShape(MAX_CLIENTS, fds, c, json, outcomes);
        InOrderGrows(before[c], Taken(MAX_CLIENTS, fds, c, json, outcomes), broadcasts, joined[c], json);
      }
      broadcasts := broadcasts + [json];
    }
  }

  lemma NewcomerInOrder(broadcasts: seq<string>)
    ensures InOrder([], broadcasts, |broadcasts|)
  {
  }

  // ---- from the loader to the backend ----

  function Concat(messages: seq<string>): string {
    if messages == [] then "" else messages[0] + Concat(messages[1..])
  }

  /** What went out on a connection. */
  function Stream(sendings: seq<Sending>): string {
    if sendings == [] then "" else sendings[0].Text() + Stream(sendings[1..])
  }

  function Bodies(messages: seq<string>): seq<string> {
    if messages == [] then []
    else if messages[0] == "" then Bodies(messages[1..])
    else [messages[0][..|messages[0]| - 1]] + Bodies(messages[1..])
  }

  ghost predicate AllWhole(sendings: seq<Sending>) {
    forall i :: 0 <= i < |sendings| ==> sendings[i].Whole()
  }

  ghost predicate AllMessages(messages: seq<string>) {
    forall i :: 0 <= i < |messages| ==> IsMessage(messages[i])
  }

  /** A message body is not touched by strip. */
  lemma BodyIsStripped(m: string)
    requires IsMessage(m)
    ensures Strip(m[..|m| - 1]) == m[..|m| - 1] != ""
  {
  }

  /** A stream of whole messages splits into exactly their bodies, with nothing left over. */
  lemma {:induction false} MessagesSplit(messages: seq<string>)
    requires AllMessages(messages)
    ensures Handled(Lines(Concat(messages))) == Bodies(messages) && Tail(Concat(messages)) == ""
  {
    if messages != [] {
      var m, rest := messages[0], Concat(messages[1..]);
      var s := m + rest;
      assert s[..|m| - 1] == m[..|m| - 1];
      FindIs(s, |m| - 1);
      assert s[|m|..] == rest;
      BodyIsStripped(m);
      DrainStep(s);
      MessagesSplit(messages[1..]);
    }
  }

  lemma {:induction false} WholeStream(sendings: seq<Sending>)
    requires AllWhole(sendings)
    ensures Stream(sendings) == Concat(Messages(sendings))
  {
    if sendings != [] {
      WholeStream(sendings[1..]);
      assert Messages(sendings)[1..] == Messages(sendings[1..]);
      assert sendings[0].message[..|sendings[0].message|] == sendings[0].message;
    }
  }

  // A cut message loses its newline, so the client gets a line less.

  function Newlines(s: string): nat {
    if s == "" then 0 else (if s[0] == NEWLINE then 1 else 0) + Newlines(s[1..])
  }

  lemma {:induction false} NewlinesAppend(s: string, t: string)
    ensures Newlines(s + t) == Newlines(s) + Newlines(t)
  {
    if s == "" {
      assert s + t == t;
    } else {
      NewlinesAppend(s[1..], t);
      assert (s + t)[1..] == s[1..] + t;
    }
  }

  lemma {:induction false} NoNewlines(s: string)
    requires NoNewline(s)
    ensures Newlines(s) == 0
  {
    if s != "" {
      NoNewlines(s[1..]);
    }
  }

  lemma NewlineFirst(a: string, b: string)
    requires NoNewline(a)
    ensures Newlines(a + [NEWLINE] + b) == 1 + Newlines(b)
  {
    NoNewlines(a);
    NewlinesAppend(a + [NEWLINE], b);
    NewlinesAppend(a, [NEWLINE]);
  }

  lemma {:induction false} LinesAreNewlines(s: string)
    ensures |Lines(s)| == Newlines(s)
    decreases |s|
  {
    hide Find, Lines, Newlines, NoNewline;
    LinesOnce(s);
    var i := Find(s);
    if i == |s| {
      assert s[..i] == s;
      NoNewlines(s);
    } else {
      LinesAreNewlines(s[i + 1..]);
      NewlineFirst(s[..i], s[i + 1..]);
      assert s == s[..i] + [NEWLINE] + s[i + 1..];
    }
  }

  lemma {:induction false} HandledAtMost(lines: seq<string>)
    ensures |Handled(lines)| <= |lines|
  {
    hide Strip;
    if lines != [] {
      HandledAtMost(lines[1..]);
    }
  }

  lemma SendingNewlines(x: Sending)
    requires x.Valid() && IsMessage(x.message)
    ensures Newlines(x.Text()) == if x.Whole() then 1 else 0
  {
    var m := x.message;
    if x.Whole() {
      assert m[..|m|] == m == m[..|m| - 1] + [NEWLINE] + "";
      NewlineFirst(m[..|m| - 1], "");
    } else {
      assert m[..x.count] == m[..|m| - 1][..x.count];
      NoNewlines(m[..x.count]);
    }
  }

  function WholeCount(sendings: seq<Sending>): nat {
    if sendings == [] then 0 else (if sendings[0].Whole() then 1 else 0) + WholeCount(sendings[1..])
  }

  lemma {:induction false} StreamNewlines(sendings: seq<Sending>)
    requires AllMessages(Messages(sendings)) && forall i :: 0 <= i < |sendings| ==> sendings[i].Valid()
    ensures Newlines(Stream(sendings)) == WholeCount(sendings) <= |sendings|
    ensures WholeCount(sendings) == |sendings| <==> AllWhole(sendings)
  {
    hide Newlines, IsMessage;
    if sendings == [] {
      NoNewlines("");
    } else {
      assert Messages(sendings)[0] == sendings[0].message && Messages(sendings)[1..] == Messages(sendings[1..]);
      StreamNewlines(sendings[1..]);
      SendingNewlines(sendings[0]);
      NewlinesAppend(sendings[0].Text(), Stream(sendings[1..]));
      assert sendings == [sendings[0]] + sendings[1..];
    }
  }

  lemma {:induction false} BodiesCount(messages: seq<string>)
    requires AllMessages(messages)
    ensures |Bodies(messages)| == |messages|
  {
    if messages != [] {
      BodiesCount(messages[1..]);
    }
  }

  /** A client hands on exactly the bodies of the messages it was sent if and only if every one was sent whole. */
  lemma WholeSendsExactly(sendings: seq<Sending>)
    requires AllMessages(Messages(sendings)) && forall i :: 0 <= i < |sendings| ==> sendings[i].Valid()
    ensures Handled(Lines(Stream(sendings))) == Bodies(Messages(sendings)) <==> AllWhole(sendings)
    ensures AllWhole(sendings) ==> Tail(Stream(sendings)) == ""
  {
    hide *;
    if AllWhole(sendings) {
      WholeStream(sendings);
      MessagesSplit(Messages(sendings));
    } else {
      StreamNewlines(sendings);
      LinesAreNewlines(Stream(sendings));
      HandledAtMost(Lines(Stream(sendings)));
      BodiesCount(Messages(sendings));
    }
  }

  /** A stream cut off anywhere yields a prefix of the lines of the whole stream. */
  lemma PrefixLines(part: string, more: string)
    ensures Handled(Lines(part)) <= Handled(Lines(part + more))
  {
    LinesAppend(part, more);
    HandledAppend(Lines(part), Lines(Tail(part) + more));
  }

  lemma SentMessages(server: Server, c: int)
    requires server.Valid() && c in server.delivered && AllMessages(server.broadcasts)
    ensures var sent := server.delivered[c];
      && AllMessages(Messages(sent)) && Subsequence(Messages(sent), server.broadcasts[server.joined[c]..])
      && forall i :: 0 <= i < |sent| ==> sent[i].Valid()
  {
    hide IsMessage, Subsequence;
    var sent, since := Messages(server.delivered[c]), server.broadcasts[server.joined[c]..];
    assert InOrder(server.delivered[c], server.broadcasts, server.joined[c]);
    SubsequenceMembers(sent, since);
    forall i | 0 <= i < |sent| ensures IsMessage(sent[i]) {
      assert sent[i] in since;
    }
  }

  /** End to end: a client of the loader that has received everything sent to it, in whatever chunks, was sent a
    subsequence of the messages broadcast since it joined; it has handed on exactly their bodies, and buffers nothing,
    if and only if no send cut a message short. */
  lemma EndToEnd(server: Server, c: int, receiver: Receiver)
    requires server.Valid() && c in server.delivered && receiver.Valid()
    requires AllMessages(server.broadcasts) && receiver.stream == Stream(server.delivered[c])
    ensures Subsequence(Messages(server.delivered[c]), server.broadcasts[server.joined[c]..])
    ensures receiver.handled == Bodies(Messages(server.delivered[c])) <==> AllWhole(server.delivered[c])
    ensures AllWhole(server.delivered[c]) ==> receiver.buffer == ""
  {
    hide Subsequence, AllMessages, AllWhole, Handled, Lines, Tail;
    SentMessages(server, c);
    WholeSendsExactly(server.delivered[c]);
  }

  /** At any moment in between, when no send was cut, the lines handed on are a prefix of those bodies, and the buffer
    holds no newline. */
  lemma EndToEndSoFar(server: Server, c: int, receiver: Receiver, pending: string)
    requires server.Valid() && c in server.delivered && receiver.Valid()
    requires AllMessages(server.broadcasts) && AllWhole(server.delivered[c])
    requires receiver.stream + pending == Stream(server.delivered[c])
    ensures receiver.handled <= Bodies(Messages(server.delivered[c])) && NoNewline(receiver.buffer)
  {
    hide Subsequence, AllMessages, AllWhole, Handled, Lines, Tail;
    SentMessages(server, c);
    WholeSendsExactly(server.delivered[c]);
    PrefixLines(receiver.stream, pending);
    TailUnfinished(receiver.stream);
  }
}
