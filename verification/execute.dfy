/** Execute: every occupied slot whose operands are known (and, for a load,
    whose hazard check passes) starts, unless it was issued this very cycle,
    and then counts its remaining cycles down by one. */
module Execute {
  import opened Machine
  import Memory
  import Disambiguation

  /** A slot issued in the current cycle may not start in that cycle; once
      started it keeps running. */
  predicate MayRun(stat: Status, cycle: nat) {
    stat.started.Some? || stat.issued != Some(cycle)
  }

  /** One cycle of countdown for a slot allowed to proceed: stamp the start
      if there was none, then decrement; reaching zero stamps the end of
      execution. */
  function Tick(remaining: nat, stat: Status, cycle: nat): (r: (nat, Status))
    ensures r.0 <= remaining <= r.0 + 1
    ensures r.0 < remaining <==> MayRun(stat, cycle) && remaining > 0
    ensures r.1.finished != stat.finished ==> r.1.finished == Some(cycle) && r.0 == 0 && remaining == 1
    ensures r.0 == 0 && remaining == 1 ==> r.1.finished == Some(cycle)
    ensures r.1.started != stat.started <==> stat.started.None? && stat.issued != Some(cycle)
    ensures r.1.started != stat.started ==> r.1.started == Some(cycle)
    ensures r.1.issued == stat.issued && r.1.written == stat.written
    ensures !MayRun(stat, cycle) ==> r == (remaining, stat)
  {
    if !MayRun(stat, cycle) then (remaining, stat)
    else
      var started := if stat.started.None? then stat.(started := Some(cycle)) else stat;
      if remaining > 0 then
        var left := remaining - 1;
        (left, if left == 0 then started.(finished := Some(cycle)) else started)
      else (remaining, started)
  }

  /** One cycle of a reservation station: nothing happens unless both operands
      are known. */
  function ExecStation(st: Station, stat: Status, cycle: nat): (r: (Station, Status))
    ensures !st.Station? || st.j.Waiting? || st.k.Waiting? ==> r == (st, stat)
    ensures st.Station? && st.j.Ready? && st.k.Ready? ==>
      r.0.Station? && (r.0.remaining, r.1) == Tick(st.remaining, stat, cycle) && r.0 == st.(remaining := r.0.remaining)
  {
    if !st.Station? || st.j.Waiting? || st.k.Waiting? then (st, stat)
    else
      var (left, stat') := Tick(st.remaining, stat, cycle);
      (st.(remaining := left), stat')
  }

  /** One cycle of a store buffer: nothing happens unless base and value are
      known. */
  function ExecStore(sb: StoreBuf, stat: Status, cycle: nat): (r: (StoreBuf, Status))
    ensures !sb.StoreBuf? || sb.base.Waiting? || sb.value.Waiting? ==> r == (sb, stat)
    ensures sb.StoreBuf? && sb.base.Ready? && sb.value.Ready? ==>
      r.0.StoreBuf? && (r.0.remaining, r.1) == Tick(sb.remaining, stat, cycle) && r.0 == sb.(remaining := r.0.remaining)
  {
    if !sb.StoreBuf? || sb.base.Waiting? || sb.value.Waiting? then (sb, stat)
    else
      var (left, stat') := Tick(sb.remaining, stat, cycle);
      (sb.(remaining := left), stat')
  }

  /** One cycle of a load buffer. The hazard check runs first and its forwarding
      decision is recorded; a blocked load neither starts nor counts down.
      When the countdown reaches zero the result is the forwarded value, or
      else memory at base + offset. */
  function ExecLoad(lb: LoadBuf, stores: seq<StoreBuf>, stat: Status, status: seq<Status>,
                    mem: Memory.Mem, cycle: nat): (r: (LoadBuf, Status))
    requires lb.LoadBuf? ==> Disambiguation.StampsInRange(stores, status, lb)
    ensures !lb.LoadBuf? ==> r == (lb, stat)
    ensures lb.LoadBuf? ==>
      var check := Disambiguation.CheckLoad(stores, status, lb);
      && r.0.LoadBuf? && r.0.forward == check.1
      && (check.0 ==> r == (lb.(forward := check.1), stat))
      && (!check.0 ==> (r.0.remaining, r.1) == Tick(lb.remaining, stat, cycle))
      && r.0.base == lb.base && r.0.offset == lb.offset
      && r.0.dest == lb.dest && r.0.instr == lb.instr
      && (r.0.remaining == lb.remaining ==> r.0.resultReady == lb.resultReady && r.0.result == lb.result)
      && (r.0.remaining < lb.remaining && r.0.remaining == 0 ==>
            && r.0.resultReady
            && r.0.result == (if check.1.Some? then check.1.value
                              else Memory.Read(mem, lb.base.value + lb.offset)))
      && (r.0.remaining < lb.remaining && r.0.remaining > 0 ==>
            r.0.resultReady == lb.resultReady && r.0.result == lb.result)
  {
    if !lb.LoadBuf? then (lb, stat)
    else
      var (blocked, fwd) := Disambiguation.CheckLoad(stores, status, lb);
      var lb1 := lb.(forward := fwd);
      if blocked then (lb1, stat)
      else
        var (left, stat') := Tick(lb.remaining, stat, cycle);
        if left < lb.remaining && left == 0 then
          var value := if fwd.Some? then fwd.value else Memory.Read(mem, lb.base.value + lb.offset);
          (lb1.(remaining := left, resultReady := true, result := value), stat')
        else (lb1.(remaining := left), stat')
  }

  /** The station changed only in its countdown, by at most one, and only if
      both operands are known. */
  predicate StationStepped(st: Station, st': Station) {
    && (!st.Station? ==> st' == st)
    && (st.Station? ==>
          && st'.Station? && st' == st.(remaining := st'.remaining)
          && st'.remaining <= st.remaining <= st'.remaining + 1
          && (st'.remaining < st.remaining ==> st.j.Ready? && st.k.Ready?))
  }

  predicate StoreStepped(sb: StoreBuf, sb': StoreBuf) {
    && (!sb.StoreBuf? ==> sb' == sb)
    && (sb.StoreBuf? ==>
          && sb'.StoreBuf? && sb' == sb.(remaining := sb'.remaining)
          && sb'.remaining <= sb.remaining <= sb'.remaining + 1
          && (sb'.remaining < sb.remaining ==> sb.base.Ready? && sb.value.Ready?))
  }

  predicate LoadStepped(lb: LoadBuf, lb': LoadBuf) {
    && (!lb.LoadBuf? ==> lb' == lb)
    && (lb.LoadBuf? ==>
          && lb'.LoadBuf? && lb'.base == lb.base && lb'.offset == lb.offset
          && lb'.dest == lb.dest && lb'.instr == lb.instr
          && lb'.remaining <= lb.remaining <= lb'.remaining + 1
          && (lb'.remaining < lb.remaining ==> lb.base.Ready?))
  }

  /** No other occupied slot of the pool runs the same instruction. */
  predicate UniqueStation(pool: seq<Station>, i: nat)
    requires i < |pool| && pool[i].Station?
  {
    forall j :: 0 <= j < |pool| && j != i && pool[j].Station? ==> pool[j].instr != pool[i].instr
  }

  predicate StationsInRange(pool: seq<Station>, n: nat) {
    forall i :: 0 <= i < |pool| ==> (pool[i].Station? ==> pool[i].instr < n)
  }

  /** The stamps other than start and end are never touched by execution. */
  predicate SameIssueAndWrite(status: seq<Status>, status': seq<Status>) {
    && |status'| == |status|
    && forall k :: 0 <= k < |status| ==>
         status'[k].issued == status[k].issued && status'[k].written == status[k].written
  }

  /** No occupied slot at index from or later runs instruction k. */
  predicate StationsFreeOf(pool: seq<Station>, from: nat, k: nat) {
    forall i :: from <= i < |pool| && pool[i].Station? ==> pool[i].instr != k
  }

  predicate StoresFreeOf(stores: seq<StoreBuf>, from: nat, k: nat) {
    forall i :: from <= i < |stores| && stores[i].StoreBuf? ==> stores[i].instr != k
  }

  predicate LoadsFreeOf(loads: seq<LoadBuf>, from: nat, k: nat) {
    forall i :: from <= i < |loads| && loads[i].LoadBuf? ==> loads[i].instr != k
  }

  /** Executes stations from..|pool|-1 in slot order. */
  function ExecStations(pool: seq<Station>, status: seq<Status>, cycle: nat, from: nat): (r: (seq<Station>, seq<Status>))
    requires from <= |pool| && StationsInRange(pool, |status|)
    ensures |r.0| == |pool| && SameIssueAndWrite(status, r.1)
    ensures forall i :: 0 <= i < from ==> r.0[i] == pool[i]
    ensures forall i :: from <= i < |pool| ==> StationStepped(pool[i], r.0[i])
    ensures forall k :: 0 <= k < |status| && StationsFreeOf(pool, from, k) ==> r.1[k] == status[k]
    ensures forall i :: from <= i < |pool| && pool[i].Station? && UniqueStation(pool, i) ==>
      (r.0[i], r.1[pool[i].instr]) == ExecStation(pool[i], status[pool[i].instr], cycle)
    decreases |pool| - from
  {
    if from == |pool| then (pool, status)
    else
      var st := pool[from];
      if !st.Station? then ExecStations(pool, status, cycle, from + 1)
      else
        var (st', stat') := ExecStation(st, status[st.instr], cycle);
        var pool' := pool[from := st'];
        var status' := status[st.instr := stat'];
        assert forall i :: 0 <= i < |pool| && i != from && pool[i].Station? && UniqueStation(pool, i) ==>
          UniqueStation(pool', i);
        ExecStations(pool', status', cycle, from + 1)
  }

  predicate StoresInRange(stores: seq<StoreBuf>, n: nat) {
    forall i :: 0 <= i < |stores| ==> (stores[i].StoreBuf? ==> stores[i].instr < n)
  }

  predicate UniqueStore(stores: seq<StoreBuf>, i: nat)
    requires i < |stores| && stores[i].StoreBuf?
  {
    forall j :: 0 <= j < |stores| && j != i && stores[j].StoreBuf? ==> stores[j].instr != stores[i].instr
  }

  /** Executes store buffers from..|stores|-1 in slot order. */
  function ExecStores(stores: seq<StoreBuf>, status: seq<Status>, cycle: nat, from: nat): (r: (seq<StoreBuf>, seq<Status>))
    requires from <= |stores| && StoresInRange(stores, |status|)
    ensures |r.0| == |stores| && SameIssueAndWrite(status, r.1)
    ensures forall i :: 0 <= i < from ==> r.0[i] == stores[i]
    ensures forall i :: from <= i < |stores| ==> StoreStepped(stores[i], r.0[i])
    ensures forall k :: 0 <= k < |status| && StoresFreeOf(stores, from, k) ==> r.1[k] == status[k]
    ensures forall i :: from <= i < |stores| && stores[i].StoreBuf? && UniqueStore(stores, i) ==>
      (r.0[i], r.1[stores[i].instr]) == ExecStore(stores[i], status[stores[i].instr], cycle)
    decreases |stores| - from
  {
    if from == |stores| then (stores, status)
    else
      var sb := stores[from];
      if !sb.StoreBuf? then ExecStores(stores, status, cycle, from + 1)
      else
        var (sb', stat') := ExecStore(sb, status[sb.instr], cycle);
        var stores' := stores[from := sb'];
        var status' := status[sb.instr := stat'];
        assert forall i :: 0 <= i < |stores| && i != from && stores[i].StoreBuf? && UniqueStore(stores, i) ==>
          UniqueStore(stores', i);
        ExecStores(stores', status', cycle, from + 1)
  }

  predicate LoadsInRange(loads: seq<LoadBuf>, n: nat) {
    forall i :: 0 <= i < |loads| ==> (loads[i].LoadBuf? ==> loads[i].instr < n)
  }

  predicate UniqueLoad(loads: seq<LoadBuf>, i: nat)
    requires i < |loads| && loads[i].LoadBuf?
  {
    forall j :: 0 <= j < |loads| && j != i && loads[j].LoadBuf? ==> loads[j].instr != loads[i].instr
  }

  /** Executes load buffers from..|loads|-1 in slot order, each against the
      same store buffer contents and memory. */
  function ExecLoads(loads: seq<LoadBuf>, stores: seq<StoreBuf>, status: seq<Status>,
                     mem: Memory.Mem, cycle: nat, from: nat): (r: (seq<LoadBuf>, seq<Status>))
    requires from <= |loads| && LoadsInRange(loads, |status|) && StoresInRange(stores, |status|)
    ensures |r.0| == |loads| && SameIssueAndWrite(status, r.1)
    ensures forall i :: 0 <= i < from ==> r.0[i] == loads[i]
    ensures forall i :: from <= i < |loads| ==> LoadStepped(loads[i], r.0[i])
    ensures forall k :: 0 <= k < |status| && LoadsFreeOf(loads, from, k) ==> r.1[k] == status[k]
    decreases |loads| - from
  {
    if from == |loads| then (loads, status)
    else
      var lb := loads[from];
      if !lb.LoadBuf? then ExecLoads(loads, stores, status, mem, cycle, from + 1)
      else
        var (lb', stat') := ExecLoad(lb, stores, status[lb.instr], status, mem, cycle);
        ExecLoads(loads[from := lb'], stores, status[lb.instr := stat'], mem, cycle, from + 1)
  }

  /** A load buffer whose instruction no other buffer runs ends the pass
      exactly as one ExecLoad against the stamps the pass started from:
      earlier loads only start or end their own instructions, which the
      hazard check does not read. */
  lemma {:induction false} ExecLoadsRunsUnique(loads: seq<LoadBuf>, stores: seq<StoreBuf>, status: seq<Status>,
                                               mem: Memory.Mem, cycle: nat, from: nat, i: nat)
    requires from <= |loads| && LoadsInRange(loads, |status|) && StoresInRange(stores, |status|)
    requires from <= i < |loads| && loads[i].LoadBuf? && UniqueLoad(loads, i)
    ensures var r := ExecLoads(loads, stores, status, mem, cycle, from);
      (r.0[i], r.1[loads[i].instr]) == ExecLoad(loads[i], stores, status[loads[i].instr], status, mem, cycle)
    decreases |loads| - from
  {
    var lb := loads[from];
    if !lb.LoadBuf? {
      ExecLoadsRunsUnique(loads, stores, status, mem, cycle, from + 1, i);
    } else {
      var (lb', stat') := ExecLoad(lb, stores, status[lb.instr], status, mem, cycle);
      var loads' := loads[from := lb'];
      var status' := status[lb.instr := stat'];
      assert ExecLoads(loads, stores, status, mem, cycle, from) == ExecLoads(loads', stores, status', mem, cycle, from + 1);
      if i == from {
        assert LoadsFreeOf(loads', from + 1, lb.instr);
      } else {
        assert Disambiguation.SameIssue(status, status');
        LaterLoadsSeeSameCheck(loads, stores, status, status', mem, cycle, from);
        assert UniqueLoad(loads', i);
        ExecLoadsRunsUnique(loads', stores, status', mem, cycle, from + 1, i);
      }
    }
  }

  /** After buffer `from` has run, every later unique load still computes the
      same ExecLoad: its own stamps are untouched and its hazard check sees the
      same issue stamps. */
  lemma LaterLoadsSeeSameCheck(loads: seq<LoadBuf>, stores: seq<StoreBuf>, status: seq<Status>,
                               status': seq<Status>, mem: Memory.Mem, cycle: nat, from: nat)
    requires from < |loads| && loads[from].LoadBuf?
    requires LoadsInRange(loads, |status|) && StoresInRange(stores, |status|)
    requires Disambiguation.SameIssue(status, status')
    requires forall k :: 0 <= k < |status| && k != loads[from].instr ==> status'[k] == status[k]
    ensures forall i :: from < i < |loads| && loads[i].LoadBuf? && UniqueLoad(loads, i) ==>
      ExecLoad(loads[i], stores, status'[loads[i].instr], status', mem, cycle) ==
      ExecLoad(loads[i], stores, status[loads[i].instr], status, mem, cycle)
  {
    forall i | from < i < |loads| && loads[i].LoadBuf? && UniqueLoad(loads, i)
      ensures ExecLoad(loads[i], stores, status'[loads[i].instr], status', mem, cycle) ==
              ExecLoad(loads[i], stores, status[loads[i].instr], status, mem, cycle)
    {
      Disambiguation.CheckLoadReadsIssueOnly(stores, status, status', loads[i]);
    }
  }

  /** Some occupied slot of some pool runs instruction k. */
  predicate Occupies(s: SimState, k: nat) {
    || (exists i :: 0 <= i < |s.addSub| && s.addSub[i].Station? && s.addSub[i].instr == k)
    || (exists i :: 0 <= i < |s.mulDiv| && s.mulDiv[i].Station? && s.mulDiv[i].instr == k)
    || (exists i :: 0 <= i < |s.loads| && s.loads[i].LoadBuf? && s.loads[i].instr == k)
    || (exists i :: 0 <= i < |s.stores| && s.stores[i].StoreBuf? && s.stores[i].instr == k)
  }

  /** The execute phase: loads, then stores, then add/sub stations, then
      mul/div stations, each pool in slot order. */
  function Execute(s: SimState): (s': SimState)
    requires Shape(s)
    ensures s' == s.(loads := s'.loads, stores := s'.stores, addSub := s'.addSub,
                     mulDiv := s'.mulDiv, status := s'.status)
    ensures SameIssueAndWrite(s.status, s'.status)
    ensures |s'.loads| == |s.loads| && |s'.stores| == |s.stores|
    ensures |s'.addSub| == |s.addSub| && |s'.mulDiv| == |s.mulDiv|
    ensures forall i :: 0 <= i < |s.addSub| ==> StationStepped(s.addSub[i], s'.addSub[i])
    ensures forall i :: 0 <= i < |s.mulDiv| ==> StationStepped(s.mulDiv[i], s'.mulDiv[i])
    ensures forall i :: 0 <= i < |s.loads| ==> LoadStepped(s.loads[i], s'.loads[i])
    ensures forall i :: 0 <= i < |s.stores| ==> StoreStepped(s.stores[i], s'.stores[i])
    ensures forall k :: 0 <= k < |s.status| && !Occupies(s, k) ==> s'.status[k] == s.status[k]
  {
    assert LoadsInRange(s.loads, |s.status|) && StoresInRange(s.stores, |s.status|) by {
      assert forall i :: 0 <= i < |s.loads| ==> LoadInRange(s.loads[i], |s.program|, |s.regs|);
      assert forall i :: 0 <= i < |s.stores| ==> StoreInRange(s.stores[i], |s.program|);
    }
    assert StationsInRange(s.addSub, |s.status|) && StationsInRange(s.mulDiv, |s.status|) by {
      assert forall i :: 0 <= i < |s.addSub| ==> StationInRange(s.addSub[i], |s.program|, |s.regs|);
      assert forall i :: 0 <= i < |s.mulDiv| ==> StationInRange(s.mulDiv[i], |s.program|, |s.regs|);
    }
    var (loads', st1) := ExecLoads(s.loads, s.stores, s.status, s.memory, s.cycle, 0);
    var (stores', st2) := ExecStores(s.stores, st1, s.cycle, 0);
    var (addSub', st3) := ExecStations(s.addSub, st2, s.cycle, 0);
    var (mulDiv', st4) := ExecStations(s.mulDiv, st3, s.cycle, 0);
    s.(loads := loads', stores := stores', addSub := addSub', mulDiv := mulDiv', status := st4)
  }

  /** What the execute phase does to a load buffer whose instruction no other
      load buffer runs: exactly one ExecLoad against the store buffers, stamps
      and memory of the start of the cycle. So a load that is not blocked and
      reaches zero holds the forwarded value, or else memory at base + offset. */
  lemma ExecuteRunsLoad(s: SimState, i: nat)
    requires Shape(s) && i < |s.loads| && s.loads[i].LoadBuf? && UniqueLoad(s.loads, i)
    ensures s.loads[i].instr < |s.status| && Disambiguation.StampsInRange(s.stores, s.status, s.loads[i])
    ensures Execute(s).loads[i] == ExecLoad(s.loads[i], s.stores, s.status[s.loads[i].instr], s.status, s.memory, s.cycle).0
  {
    assert LoadInRange(s.loads[i], |s.program|, |s.regs|);
    assert LoadsInRange(s.loads, |s.status|) && StoresInRange(s.stores, |s.status|) by {
      assert forall j :: 0 <= j < |s.loads| ==> LoadInRange(s.loads[j], |s.program|, |s.regs|);
      assert forall j :: 0 <= j < |s.stores| ==> StoreInRange(s.stores[j], |s.program|);
    }
    ExecLoadsRunsUnique(s.loads, s.stores, s.status, s.memory, s.cycle, 0, i);
  }

  /** Execution frees no slot, changes no destination or operand, and keeps
      the state invariant. */
  lemma ExecutePreservesValid(s: SimState)
    requires Valid(s)
    ensures Valid(Execute(s)) && KeepsProducers(s, Execute(s))
  {
    var s' := Execute(s);
    assert KeepsProducers(s, s');
    OkCarriesOver(s, s');
    forall i | 0 <= i < |s'.addSub|
      ensures StationOk(s', s'.addSub[i]) && StationInRange(s'.addSub[i], |s'.program|, |s'.regs|)
    {
      assert StationOk(s', s.addSub[i]) && StationInRange(s.addSub[i], |s.program|, |s.regs|);
    }
    forall i | 0 <= i < |s'.mulDiv|
      ensures StationOk(s', s'.mulDiv[i]) && StationInRange(s'.mulDiv[i], |s'.program|, |s'.regs|)
    {
      assert StationOk(s', s.mulDiv[i]) && StationInRange(s.mulDiv[i], |s.program|, |s.regs|);
    }
    forall i | 0 <= i < |s'.loads|
      ensures LoadOk(s', s'.loads[i]) && LoadInRange(s'.loads[i], |s'.program|, |s'.regs|)
    {
      assert LoadOk(s', s.loads[i]) && LoadInRange(s.loads[i], |s.program|, |s.regs|);
    }
    forall i | 0 <= i < |s'.stores|
      ensures StoreOk(s', s'.stores[i]) && StoreInRange(s'.stores[i], |s'.program|)
    {
      assert StoreOk(s', s.stores[i]) && StoreInRange(s.stores[i], |s.program|);
    }
    forall r | 0 <= r < |s'.rat|
      ensures AliasOk(s', r)
    {
      assert AliasOk(s, r);
      if s.rat[r].Some? {
        ProducerKept(s, s', s.rat[r].value);
      }
    }
  }
}
