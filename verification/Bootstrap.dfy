/** Process lifetimes: exec and exit tracepoints correlated through a shared map, with events sent through a ring buffer
  (`bootstrap`) or a perf buffer (`bootstrap_legacy`). */
module Bootstrap {
  import opened Common
  import opened BpfMap

  datatype Record = Record(pid: nat, ppid: nat, exitCode: nat, durationNs: nat, comm: string, filename: string,
                           exitEvent: bool)

  const ZERO_RECORD := Record(0, 0, 0, 0, "", "", false)

  /** A tracepoint firing, with what the handler reads from the kernel. */
  datatype Call =
    | Exec(pid: nat, now: nat, ppid: nat, comm: string, filename: string)
    | Exit(pid: nat, tid: nat, now: nat, ppid: nat, taskExitCode: nat, comm: string)

  /** A call and its ring-buffer reservation: None when it fails, else the record with whatever the memory held. */
  datatype Step = Step(call: Call, slot: Option<Record>)

  function ExecRecord(base: Record, c: Call): Record
    requires c.Exec?
  {
    base.(exitEvent := false, pid := c.pid, ppid := c.ppid, comm := c.comm, filename := c.filename)
  }

  function ExitRecord(base: Record, c: Call, duration: nat): Record
    requires c.Exit?
  {
    base.(exitEvent := true, durationNs := duration, pid := c.pid, ppid := c.ppid,
          exitCode := c.taskExitCode / 256 % 256, comm := c.comm)
  }

  /** 64-bit subtraction of timestamps */
  function Elapsed(now: nat, start: nat): nat {
    (now - start) % U64
  }

  // ---- what both handlers do to the map, and whether they get as far as sending ----

  function StartsAfter(size: nat, starts: map<nat, nat>, c: Call): map<nat, nat> {
    match c
    case Exec(pid, now, _, _, _) => Update(starts, size, pid, now)
    case Exit(pid, tid, _, _, _, _) => if pid == tid then starts - {pid} else starts
  }

  function Duration(starts: map<nat, nat>, c: Call): nat
    requires c.Exit?
  {
    if c.pid in starts then Elapsed(c.now, starts[c.pid]) else 0
  }

  predicate Sends(min: nat, starts: map<nat, nat>, c: Call) {
    match c
    case Exec(_, _, _, _, _) => min == 0
    case Exit(pid, tid, _, _, _, _) => pid == tid && (min == 0 || (pid in starts && Duration(starts, c) >= min))
  }

  function RecordOf(base: Record, starts: map<nat, nat>, c: Call): Record {
    if c.Exec? then ExecRecord(base, c) else ExitRecord(base, c, Duration(starts, c))
  }

  datatype State = State(starts: map<nat, nat>, out: seq<Record>)

  const EMPTY := State(map[], [])

  function RingStep(min: nat, size: nat, s: State, x: Step): State {
    State(StartsAfter(size, s.starts, x.call),
          if Sends(min, s.starts, x.call) && x.slot.Some?
          then s.out + [RecordOf(x.slot.value, s.starts, x.call)] else s.out)
  }

  function LegacyStep(min: nat, size: nat, s: State, c: Call): State {
    State(StartsAfter(size, s.starts, c),
          if Sends(min, s.starts, c) then s.out + [RecordOf(ZERO_RECORD, s.starts, c)] else s.out)
  }

  // ---- the handlers ----

  class RingTracer {
    const minDuration: nat
    const size: nat
    var execStart: map<nat, nat>
    var out: seq<Record>

    function View(): State
      reads this
    {
      State(execStart, out)
    }

    constructor (minDuration: nat, size: nat)
      ensures View() == EMPTY && this.minDuration == minDuration && this.size == size
    {
      this.minDuration, this.size := minDuration, size;
      execStart, out := map[], [];
    }

    method HandleExec(c: Call, slot: Option<Record>)
      requires c.Exec?
      modifies this
      ensures View() == RingStep(minDuration, size, old(View()), Step(c, slot))
    {
      execStart := Update(execStart, size, c.pid, c.now);
      if minDuration != 0 {
        return;
      }
      if slot.None? {
        return;
      }
      var e := slot.value;
      e := e.(exitEvent := false, pid := c.pid, ppid := c.ppid, comm := c.comm, filename := c.filename);
      out := out + [e];
    }

    method HandleExit(c: Call, slot: Option<Record>)
      requires c.Exit?
      modifies this
      ensures View() == RingStep(minDuration, size, old(View()), Step(c, slot))
    {
      if c.pid != c.tid {
        return;
      }
      var duration := 0;
      if c.pid in execStart {
        duration := Elapsed(c.now, execStart[c.pid]);
      } else if minDuration != 0 {
        assert execStart - {c.pid} == execStart;
        return;
      }
      execStart := Delete(execStart, c.pid);
      if minDuration != 0 && duration < minDuration {
        return;
      }
      if slot.None? {
        return;
      }
      var e := slot.value;
      e := e.(exitEvent := true, durationNs := duration, pid := c.pid, ppid := c.ppid);
      e := e.(exitCode := c.taskExitCode / 256 % 256, comm := c.comm);
      out := out + [e];
    }
  }

  class LegacyTracer {
    const minDuration: nat
    const size: nat
    var execStart: map<nat, nat>
    var out: seq<Record>

    function View(): State
      reads this
    {
      State(execStart, out)
    }

    constructor (minDuration: nat, size: nat)
      ensures View() == EMPTY && this.minDuration == minDuration && this.size == size
    {
      this.minDuration, this.size := minDuration, size;
      execStart, out := map[], [];
    }

    method HandleExec(c: Call)
      requires c.Exec?
      modifies this
      ensures View() == LegacyStep(minDuration, size, old(View()), c)
    {
      var e := ZERO_RECORD;
      execStart := Update(execStart, size, c.pid, c.now);
      if minDuration != 0 {
        return;
      }
      e := e.(exitEvent := false, pid := c.pid, ppid := c.ppid, comm := c.comm, filename := c.filename);
      out := out + [e];
    }

    method HandleExit(c: Call)
      requires c.Exit?
      modifies this
      ensures View() == LegacyStep(minDuration, size, old(View()), c)
    {
      var e := ZERO_RECORD;
      if c.pid != c.tid {
        return;
      }
      var duration := 0;
      if c.pid in execStart {
        duration := Elapsed(c.now, execStart[c.pid]);
      } else if minDuration != 0 {
        assert execStart - {c.pid} == execStart;
        return;
      }
      execStart := Delete(execStart, c.pid);
      if minDuration != 0 && duration < minDuration {
        return;
      }
      e := e.(exitEvent := true, durationNs := duration, pid := c.pid, ppid := c.ppid);
      e := e.(exitCode := c.taskExitCode / 256 % 256, comm := c.comm);
      out := out + [e];
    }
  }

  // ---- runs ----

  function RunRing(min: nat, size: nat, tr: seq<Step>): State {
    if tr == [] then EMPTY else RingStep(min, size, RunRing(min, size, Init(tr)), Last(tr))
  }

  function RunLegacy(min: nat, size: nat, tr: seq<Step>): State {
    if tr == [] then EMPTY else LegacyStep(min, size, RunLegacy(min, size, Init(tr)), Last(tr).call)
  }

  // ---- legacy equivalence ----

  /** The fields an event of each kind sets; the others are unset memory in the ring-buffer version. */
  datatype Shown =
    | ExecShown(pid: nat, ppid: nat, comm: string, filename: string)
    | ExitShown(pid: nat, ppid: nat, exitCode: nat, durationNs: nat, comm: string)

  function Show(r: Record): Shown {
    if r.exitEvent then ExitShown(r.pid, r.ppid, r.exitCode, r.durationNs, r.comm)
    else ExecShown(r.pid, r.ppid, r.comm, r.filename)
  }

  function ShowAll(rs: seq<Record>): seq<Shown> {
    if rs == [] then [] else ShowAll(Init(rs)) + [Show(Last(rs))]
  }

  /** The events the legacy version sends at steps whose reservation succeeds. */
  function LegacyReserved(min: nat, size: nat, tr: seq<Step>): seq<Shown> {
    if tr == [] then []
    else
      var before, after := RunLegacy(min, size, Init(tr)).out, RunLegacy(min, size, tr).out;
      LegacyReserved(min, size, Init(tr)) +
      (if |after| > |before| && Last(tr).slot.Some? then [Show(Last(after))] else [])
  }

  lemma ShowIgnoresMemory(base: Record, starts: map<nat, nat>, c: Call)
    ensures Show(RecordOf(base, starts, c)) == Show(RecordOf(ZERO_RECORD, starts, c))
  {
  }

  /** On every trace both versions keep the same map, and the ring-buffer version sends exactly the legacy events
    whose reservation succeeded, in order, field by field. */
  lemma {:induction false} LegacyEquivalence(min: nat, size: nat, tr: seq<Step>)
    ensures RunRing(min, size, tr).starts == RunLegacy(min, size, tr).starts
    ensures ShowAll(RunRing(min, size, tr).out) == LegacyReserved(min, size, tr)
  {
    if tr != [] {
      LegacyEquivalence(min, size, Init(tr));
      EquivalenceStep(min, size, RunRing(min, size, Init(tr)), RunLegacy(min, size, Init(tr)), Last(tr));
      hide RingStep, LegacyStep, Show;
    }
  }

  lemma EquivalenceStep(min: nat, size: nat, ring: State, legacy: State, x: Step)
    requires ring.starts == legacy.starts
    ensures var ring', legacy' := RingStep(min, size, ring, x), LegacyStep(min, size, legacy, x.call);
      && ring'.starts == legacy'.starts
      && ShowAll(ring'.out) == ShowAll(ring.out) +
         (if |legacy'.out| > |legacy.out| && x.slot.Some? then [Show(Last(legacy'.out))] else [])
  {
    hide StartsAfter, Show, RecordOf, Sends;
    if Sends(min, ring.starts, x.call) && x.slot.Some? {
      var r := RecordOf(x.slot.value, ring.starts, x.call);
      ShowIgnoresMemory(x.slot.value, ring.starts, x.call);
      assert Init(ring.out + [r]) == ring.out;
    }
  }

  // ---- exec/exit correlation ----

  /** The call opens or closes the life of pid: an exec, or the exit of its leader thread. */
  predicate Bounds(c: Call, pid: nat) {
    c.pid == pid && (c.Exec? || c.tid == pid)
  }

  /** The time of pid's last exec, by history alone, if no leader exit came after it. */
  function RunningSince(tr: seq<Step>, pid: nat): Option<nat> {
    var i := LastBound(tr, pid);
    if i.Some? && tr[i.value].call.Exec? then Some(tr[i.value].call.now) else None
  }

  function LastBound(tr: seq<Step>, pid: nat): (r: Option<nat>)
    ensures r.Some? ==> r.value < |tr| && Bounds(tr[r.value].call, pid)
    ensures forall j :: (if r.Some? then r.value + 1 else 0) <= j < |tr| ==> !Bounds(tr[j].call, pid)
  {
    if tr == [] then None
    else if Bounds(Last(tr).call, pid) then Some(|tr| - 1)
    else LastBound(Init(tr), pid)
  }

  /** No exec of the run meets a full map. */
  ghost predicate Roomy(min: nat, size: nat, tr: seq<Step>) {
    forall i :: 0 <= i < |tr| ==> HasRoom(size, RunRing(min, size, tr[..i]).starts, tr[i].call)
  }

  ghost predicate HasRoom(size: nat, starts: map<nat, nat>, c: Call) {
    c.Exec? ==> c.pid in starts || |starts| < size
  }

  lemma RoomyInit(min: nat, size: nat, tr: seq<Step>)
    requires tr != [] && Roomy(min, size, tr)
    ensures Roomy(min, size, Init(tr)) && HasRoom(size, RunRing(min, size, Init(tr)).starts, Last(tr).call)
  {
    hide HasRoom, RunRing;
    forall i | 0 <= i < |Init(tr)| ensures HasRoom(size, RunRing(min, size, Init(tr)[..i]).starts, Init(tr)[i].call) {
      assert Init(tr)[..i] == tr[..i];
    }
    assert tr[..|tr| - 1] == Init(tr);
  }

  lemma StartsStep(size: nat, starts: map<nat, nat>, c: Call, pid: nat)
    requires HasRoom(size, starts, c)
    ensures LookupElem(StartsAfter(size, starts, c), pid) ==
      if Bounds(c, pid) then (if c.Exec? then Some(c.now) else None) else LookupElem(starts, pid)
  {
  }

  /** `exec_start` holds pid exactly when its last exec or leader exit was an exec, with that exec's time. */
  lemma {:induction false} StartsAreHistory(min: nat, size: nat, tr: seq<Step>, pid: nat)
    requires Roomy(min, size, tr)
    ensures LookupElem(RunRing(min, size, tr).starts, pid) == RunningSince(tr, pid)
  {
    hide Roomy, RecordOf, Sends, HasRoom, LookupElem, StartsAfter, Bounds;
    if tr != [] {
      RoomyInit(min, size, tr);
      StartsAreHistory(min, size, Init(tr), pid);
      StartsStep(size, RunRing(min, size, Init(tr)).starts, Last(tr).call, pid);
      assert RunRing(min, size, tr).starts == StartsAfter(size, RunRing(min, size, Init(tr)).starts, Last(tr).call);
    } else {
      NothingYet(pid);
    }
  }

  lemma NothingYet(pid: nat)
    ensures LookupElem(EMPTY.starts, pid) == None
  {
  }

  /** The map says of every process whether and since when it runs. */
  ghost predicate StartsFaithful(min: nat, size: nat, tr: seq<Step>) {
    forall pid :: LookupElem(RunRing(min, size, tr).starts, pid) == RunningSince(tr, pid)
  }

  /** An exec turned away by a full map makes the map wrong. */
  lemma TurnedAwayShows(min: nat, size: nat, tr: seq<Step>)
    requires tr != [] && !HasRoom(size, RunRing(min, size, Init(tr)).starts, Last(tr).call)
    ensures !StartsFaithful(min, size, tr)
  {
    var pid := Last(tr).call.pid;
    assert LastBound(tr, pid) == Some(|tr| - 1);
    assert LookupElem(RunRing(min, size, tr).starts, pid) != RunningSince(tr, pid);
  }

  /** `exec_start` is right all along a run exactly when no exec meets a full map. */
  lemma FaithfulIffRoomy(min: nat, size: nat, tr: seq<Step>)
    ensures (forall i :: 0 <= i <= |tr| ==> StartsFaithful(min, size, tr[..i])) <==> Roomy(min, size, tr)
  {
    hide StartsFaithful, HasRoom, RunRing;
    if Roomy(min, size, tr) {
      forall i | 0 <= i <= |tr| ensures StartsFaithful(min, size, tr[..i]) {
        RoomyPrefix(min, size, tr, i);
        AllStartsAreHistory(min, size, tr[..i]);
      }
    } else {
      var i :| 0 <= i < |tr| && !HasRoom(size, RunRing(min, size, tr[..i]).starts, tr[i].call);
      assert Init(tr[..i + 1]) == tr[..i] && Last(tr[..i + 1]) == tr[i];
      TurnedAwayShows(min, size, tr[..i + 1]);
    }
  }

  lemma RoomyPrefix(min: nat, size: nat, tr: seq<Step>, n: nat)
    requires Roomy(min, size, tr) && n <= |tr|
    ensures Roomy(min, size, tr[..n])
  {
    hide HasRoom, RunRing;
    forall i | 0 <= i < n ensures HasRoom(size, RunRing(min, size, tr[..n][..i]).starts, tr[..n][i].call) {
      assert tr[..n][..i] == tr[..i];
    }
  }

  lemma AllStartsAreHistory(min: nat, size: nat, tr: seq<Step>)
    requires Roomy(min, size, tr)
    ensures StartsFaithful(min, size, tr)
  {
    hide Roomy, RunRing;
    forall pid ensures LookupElem(RunRing(min, size, tr).starts, pid) == RunningSince(tr, pid) {
      StartsAreHistory(min, size, tr, pid);
    }
  }

  /** A leader exit that sends an event reports the time since the process's latest exec, 0 when it saw none; it is
    silent when that is shorter than the minimum, and when it saw none with a minimum set. */
  lemma ExitShowsLifetime(min: nat, size: nat, tr: seq<Step>)
    requires Roomy(min, size, tr) && tr != []
    requires var c := Last(tr).call; c.Exit? && c.pid == c.tid && Last(tr).slot.Some?
    ensures var c, before := Last(tr).call, RunRing(min, size, Init(tr)).out;
      var since, after := RunningSince(Init(tr), c.pid), RunRing(min, size, tr).out;
      var lifetime := if since.Some? then (c.now - since.value) % 0x1_0000_0000_0000_0000 else 0;
      if min == 0 || (since.Some? && lifetime >= min)
      then |after| == |before| + 1 && before <= after && Show(Last(after)) ==
             ExitShown(c.pid, c.ppid, c.taskExitCode / 256 % 256, lifetime, c.comm)
      else after == before
  {
    hide RingStep, Roomy, RunningSince;
    RoomyInit(min, size, tr);
    StartsAreHistory(min, size, Init(tr), Last(tr).call.pid);
    ExitStep(min, size, RunRing(min, size, Init(tr)), Last(tr));
  }

  lemma ExitStep(min: nat, size: nat, s: State, x: Step)
    requires x.call.Exit? && x.call.pid == x.call.tid && x.slot.Some?
    ensures var c, since, after := x.call, LookupElem(s.starts, x.call.pid), RingStep(min, size, s, x).out;
      var lifetime := if since.Some? then (c.now - since.value) % 0x1_0000_0000_0000_0000 else 0;
      if min == 0 || (since.Some? && lifetime >= min)
      then |after| == |s.out| + 1 && s.out <= after && Show(Last(after)) ==
             ExitShown(c.pid, c.ppid, c.taskExitCode / 256 % 256, lifetime, c.comm)
      else after == s.out
  {
    hide StartsAfter;
  }

  /** An exec adds one event about itself when no minimum is set and a record can be had, and none otherwise. */
  lemma ExecShowsItself(min: nat, size: nat, tr: seq<Step>)
    requires tr != [] && Last(tr).call.Exec?
    ensures var c, before, after := Last(tr).call, RunRing(min, size, Init(tr)).out, RunRing(min, size, tr).out;
      if min == 0 && Last(tr).slot.Some?
      then |after| == |before| + 1 && before <= after &&
           Show(Last(after)) == ExecShown(c.pid, c.ppid, c.comm, c.filename)
      else after == before
  {
    hide StartsAfter;
  }

  /** The exit of a thread that is not the leader sends nothing, and neither does anything without a record. */
  lemma OthersAreSilent(min: nat, size: nat, tr: seq<Step>)
    requires tr != []
    requires Last(tr).slot.None? || (Last(tr).call.Exit? && Last(tr).call.pid != Last(tr).call.tid)
    ensures RunRing(min, size, tr).out == RunRing(min, size, Init(tr)).out
  {
    hide StartsAfter;
  }

  // ---- the -d option ----

  /** A printed line: EXEC, or EXIT with the milliseconds shown, if any. */
  datatype Line = ExecLine | ExitLine(ms: Option<nat>)

  function Print(r: Record): Line {
    if r.exitEvent then ExitLine(if r.durationNs != 0 then Some(r.durationNs / 1000000) else None) else ExecLine
  }

  /** An exec event is printed as EXEC; an exit event as EXIT, with the milliseconds of a duration other than 0. */
  lemma PrintsMilliseconds(r: Record)
    ensures Print(r).ExecLine? <==> !r.exitEvent
    ensures r.exitEvent ==> (Print(r).ms.None? <==> r.durationNs == 0)
    ensures r.exitEvent && r.durationNs > 0 ==>
      Print(r).ms.value * 1000000 <= r.durationNs < (Print(r).ms.value + 1) * 1000000
  {
  }

  /** env.min_duration_ms * 1000000ULL, in 64 bits */
  function MinNs(ms: nat): nat {
    ms * 1000000 % U64
  }

  predicate ShowsAtLeast(line: Line, ms: nat) {
    line.ExitLine? && line.ms.Some? && line.ms.value >= ms
  }

  /** With `-d ms`, every line printed in any run is an EXIT that shows at least ms milliseconds. */
  ghost predicate MinDurationHonoured(ms: nat, size: nat) {
    forall tr, i :: 0 <= i < |RunRing(MinNs(ms), size, tr).out| ==>
                      ShowsAtLeast(Print(RunRing(MinNs(ms), size, tr).out[i]), ms)
  }

  lemma {:induction false} LinesShowAtLeast(ms: nat, size: nat, tr: seq<Step>, i: nat)
    requires 0 < ms && ms * 1000000 < U64 && i < |RunRing(MinNs(ms), size, tr).out|
    ensures ShowsAtLeast(Print(RunRing(MinNs(ms), size, tr).out[i]), ms)
  {
    var before := RunRing(MinNs(ms), size, Init(tr));
    if i < |before.out| {
      LinesShowAtLeast(ms, size, Init(tr), i);
    } else {
      assert Sends(MinNs(ms), before.starts, Last(tr).call);
    }
  }

  /** A run that breaks the promise when the product wraps: a process living exactly the wrapped minimum, or any exec
    when that is zero. */
  lemma WrappedMinimum(ms: nat, size: nat) returns (tr: seq<Step>)
    requires 0 < size && ms * 1000000 >= U64
    ensures |RunRing(MinNs(ms), size, tr).out| == 1
    ensures !ShowsAtLeast(Print(RunRing(MinNs(ms), size, tr).out[0]), ms)
  {
    var min := MinNs(ms);
    var exec := Step(Exec(1, 0, 0, "", ""), Some(ZERO_RECORD));
    assert Init([exec]) == [];
    assert RunRing(min, size, [exec]) == RingStep(min, size, EMPTY, exec);
    if min == 0 {
      tr := [exec];
    } else {
      var exit := Step(Exit(1, 1, min, 0, 0, ""), Some(ZERO_RECORD));
      tr := [exec, exit];
      assert Init(tr) == [exec];
      var mid := RunRing(min, size, [exec]);
      assert mid.starts == map[1 := 0] && mid.out == [];
      assert RunRing(min, size, tr) == RingStep(min, size, mid, exit);
    }
  }

  /** The -d promise holds for exactly the values whose nanoseconds fit in 64 bits. */
  lemma MinDurationExactly(ms: nat, size: nat)
    requires 0 < ms && 0 < size
    ensures MinDurationHonoured(ms, size) <==> ms * 1000000 < U64
  {
    if ms * 1000000 < U64 {
      forall tr, i | 0 <= i < |RunRing(MinNs(ms), size, tr).out|
        ensures ShowsAtLeast(Print(RunRing(MinNs(ms), size, tr).out[i]), ms)
      {
        LinesShowAtLeast(ms, size, tr, i);
      }
    } else {
      var tr := WrappedMinimum(ms, size);
      assert !ShowsAtLeast(Print(RunRing(MinNs(ms), size, tr).out[0]), ms);
    }
  }
}
