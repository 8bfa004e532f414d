/** `stats->pkt_count++` on an existing entry, executed by several CPUs as a separate load and store. */
module FlowRace {
  import opened Common

  datatype Micro = Load(cpu: nat) | Store(cpu: nat)

  /** `registers` holds, for each CPU between its load and its store, the value it loaded. */
  datatype Memory = Memory(stored: nat, registers: map<nat, nat>)

  function Execute(m: Memory, op: Micro): Memory {
    match op
    case Load(cpu) => m.(registers := m.registers[cpu := m.stored])
    case Store(cpu) =>
      if cpu in m.registers then Memory((m.registers[cpu] + 1) % U64, m.registers - {cpu}) else m
  }

  function Interleave(start: nat, ops: seq<Micro>): Memory {
    if ops == [] then Memory(start, map[]) else Execute(Interleave(start, ops[..|ops| - 1]), ops[|ops| - 1])
  }

  /** Every store completes a load by the same CPU. */
  ghost predicate WellFormed(ops: seq<Micro>) {
    forall i :: 0 <= i < |ops| && ops[i].Store? ==> LoadOf(ops[..i], ops[i].cpu).Some?
  }

  /** The index of the load by `cpu` that is still waiting for its store. */
  function LoadOf(ops: seq<Micro>, cpu: nat): (r: Option<nat>)
    ensures r.Some? ==> r.value < |ops| && ops[r.value] == Load(cpu)
  {
    if ops == [] then None
    else
      var last := ops[|ops| - 1];
      if last.cpu != cpu then LoadOf(ops[..|ops| - 1], cpu)
      else if last.Load? then Some(|ops| - 1)
      else None
  }

  /** Number of completed increments. */
  function Stores(ops: seq<Micro>): nat {
    if ops == [] then 0 else Stores(ops[..|ops| - 1]) + (if ops[|ops| - 1].Store? then 1 else 0)
  }

  /** No increment was completed between another increment's load and its store. */
  ghost predicate Serial(ops: seq<Micro>) {
    forall i :: 0 <= i < |ops| && ops[i].Store? ==> Undisturbed(ops, i)
  }

  /** Nothing was stored between the load the i-th operation completes and the i-th operation. */
  ghost predicate Undisturbed(ops: seq<Micro>, i: nat)
    requires i < |ops|
  {
    var load := LoadOf(ops[..i], ops[i].cpu);
    load.Some? && forall j :: load.value < j < i ==> ops[j].Load?
  }

  /** Only loads from index k on. */
  ghost predicate Quiet(ops: seq<Micro>, k: nat) {
    forall j :: k <= j < |ops| ==> ops[j].Load?
  }

  lemma {:induction false} StoresBetween(ops: seq<Micro>, k: nat)
    requires k <= |ops|
    ensures Stores(ops[..k]) <= Stores(ops)
    ensures Stores(ops[..k]) == Stores(ops) <==> Quiet(ops, k)
  {
    if k == |ops| {
      assert ops[..k] == ops;
    } else {
      var init := ops[..|ops| - 1];
      StoresBetween(init, k);
      assert ops[..k] == init[..k];
      assert Quiet(ops, k) <==> Quiet(init, k) && ops[|ops| - 1].Load?;
    }
  }

  lemma {:induction false} RegistersAreLoads(start: nat, ops: seq<Micro>, cpu: nat)
    requires WellFormed(ops)
    ensures cpu in Interleave(start, ops).registers <==> LoadOf(ops, cpu).Some?
    ensures LoadOf(ops, cpu).Some? ==>
      Interleave(start, ops).registers[cpu] == Interleave(start, ops[..LoadOf(ops, cpu).value]).stored
  {
    if ops != [] {
      var init := ops[..|ops| - 1];
      WellFormedInit(ops);
      RegistersAreLoads(start, init, cpu);
      if LoadOf(ops, cpu).Some? {
        assert ops[..LoadOf(ops, cpu).value] == init[..LoadOf(ops, cpu).value];
      }
    }
  }

  lemma WellFormedInit(ops: seq<Micro>)
    requires ops != []
    ensures WellFormed(ops) <==>
      WellFormed(ops[..|ops| - 1]) && (ops[|ops| - 1].Store? ==> LoadOf(ops[..|ops| - 1], ops[|ops| - 1].cpu).Some?)
  {
    var init := ops[..|ops| - 1];
    assert forall i :: 0 <= i < |init| ==> init[i] == ops[i] && init[..i] == ops[..i];
  }

  lemma SerialInit(ops: seq<Micro>)
    requires ops != []
    ensures Serial(ops) <==> Serial(ops[..|ops| - 1]) && (ops[|ops| - 1].Store? ==> Undisturbed(ops, |ops| - 1))
  {
    var init := ops[..|ops| - 1];
    forall i | 0 <= i < |init| && init[i].Store? ensures Undisturbed(init, i) <==> Undisturbed(ops, i) {
      assert init[..i] == ops[..i];
    }
  }

  lemma {:induction false} WellFormedPrefix(ops: seq<Micro>, k: nat)
    requires k <= |ops| && WellFormed(ops)
    ensures WellFormed(ops[..k])
  {
    assert forall i :: 0 <= i < k ==> ops[..k][i] == ops[i] && ops[..k][..i] == ops[..i];
  }

  /** Between a load and an undisturbed store there is no store, so being serial is decided at the load. */
  lemma {:induction false} SerialExtends(ops: seq<Micro>, k: nat)
    requires k <= |ops| && Quiet(ops, k)
    ensures Serial(ops) <==> Serial(ops[..k])
  {
    if k == |ops| {
      assert ops[..k] == ops;
    } else {
      var init := ops[..|ops| - 1];
      SerialInit(ops);
      SerialExtends(init, k);
      assert init[..k] == ops[..k];
    }
  }

  /** Races never over-count: the stored count is at most the start plus the completed increments. */
  lemma {:induction false} NoOverCount(start: nat, ops: seq<Micro>)
    requires WellFormed(ops)
    ensures Interleave(start, ops).stored <= start + Stores(ops)
    decreases |ops|
  {
    if ops != [] {
      var init, last := ops[..|ops| - 1], ops[|ops| - 1];
      WellFormedInit(ops);
      NoOverCount(start, init);
      if last.Store? {
        RegistersAreLoads(start, init, last.cpu);
        var k := LoadOf(init, last.cpu).value;
        WellFormedPrefix(init, k);
        NoOverCount(start, init[..k]);
        StoresBetween(init, k);
      }
    }
  }

  /** Below 2^64, the count is exact if and only if no store fell between another increment's load and store. */
  lemma {:induction false} ExactIffSerial(start: nat, ops: seq<Micro>)
    requires WellFormed(ops) && start + Stores(ops) < U64
    ensures Interleave(start, ops).stored == start + Stores(ops) <==> Serial(ops)
    decreases |ops|
  {
    if ops != [] {
      var init, last := ops[..|ops| - 1], ops[|ops| - 1];
      WellFormedInit(ops);
      SerialInit(ops);
      if last.Load? {
        ExactIffSerial(start, init);
      } else {
        ExactAtStore(start, ops);
      }
    }
  }

  /** What a store writes, in terms of the memory at its load. */
  lemma StoreWrites(start: nat, ops: seq<Micro>) returns (k: nat)
    requires WellFormed(ops) && ops != [] && ops[|ops| - 1].Store?
    ensures k < |ops| && WellFormed(ops[..k])
    ensures Interleave(start, ops).stored == (Interleave(start, ops[..k]).stored + 1) % U64
    ensures Undisturbed(ops, |ops| - 1) <==> Quiet(ops[..|ops| - 1], k)
  {
    var init, last := ops[..|ops| - 1], ops[|ops| - 1];
    WellFormedInit(ops);
    RegistersAreLoads(start, init, last.cpu);
    k := LoadOf(init, last.cpu).value;
    WellFormedPrefix(init, k);
    assert ops[..k] == init[..k];
    assert forall j :: 0 <= j < |init| ==> init[j] == ops[j];
  }

  lemma {:induction false} ExactAtStore(start: nat, ops: seq<Micro>)
    requires WellFormed(ops) && start + Stores(ops) < U64 && ops != [] && ops[|ops| - 1].Store?
    ensures Interleave(start, ops).stored == start + Stores(ops) <==> Serial(ops)
    decreases |ops|, 0
  {
    hide Interleave, Serial, WellFormed, Undisturbed, Quiet;
    var init := ops[..|ops| - 1];
    var k := StoreWrites(start, ops);
    assert ops[..k] == init[..k];
    SerialInit(ops);
    StoresBetween(init, k);
    NoOverCount(start, ops[..k]);
    ExactIffSerial(start, ops[..k]);
    if Quiet(init, k) {
      SerialExtends(init, k);
    }
  }

  lemma Snoc(start: nat, ops: seq<Micro>, op: Micro)
    ensures Interleave(start, ops + [op]) == Execute(Interleave(start, ops), op)
    ensures Stores(ops + [op]) == Stores(ops) + (if op.Store? then 1 else 0)
    ensures forall cpu :: LoadOf(ops + [op], cpu) ==
                          if op.cpu != cpu then LoadOf(ops, cpu) else if op.Load? then Some(|ops|) else None
    ensures WellFormed(ops + [op]) <==> WellFormed(ops) && (op.Store? ==> LoadOf(ops, op.cpu).Some?)
  {
    assert (ops + [op])[..|ops + [op]| - 1] == ops;
    WellFormedInit(ops + [op]);
  }

  /** Lost updates do happen: two CPUs increment a count once each and it ends up one higher. */
  lemma LostUpdate(start: nat, a: nat, b: nat)
    requires a != b && start + 2 < U64
    ensures var ops := [Load(a)] + [Load(b)] + [Store(a)] + [Store(b)];
      WellFormed(ops) && Stores(ops) == 2 && Interleave(start, ops).stored == start + 1
  {
    assert [] + [Load(a)] == [Load(a)];
    Snoc(start, [], Load(a));
    Snoc(start, [Load(a)], Load(b));
    Snoc(start, [Load(a)] + [Load(b)], Store(a));
    Snoc(start, [Load(a)] + [Load(b)] + [Store(a)], Store(b));
  }
}
