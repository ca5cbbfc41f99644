/** Write-back over the single common data bus: at most one finished
    instruction per cycle, chosen round-robin over three classes (add/sub
    stations, mul/div stations, load buffers) starting from the class after
    the one served last, and the lowest-numbered ready slot within the class.
    A finished BNE uses the bus turn to resolve the branch instead of
    broadcasting a value. */
module Cdb {
  import opened Machine

  /** A station may broadcast once its countdown is over, its execution did
      not end in this very cycle, and its instruction has no write stamp. */
  predicate StationEligible(st: Station, status: seq<Status>, cycle: nat) {
    && st.Station? && st.instr < |status|
    && st.remaining == 0
    && status[st.instr].finished != Some(cycle)
    && status[st.instr].written.None?
  }

  /** A load may broadcast once its result is ready and its instruction has no
      write stamp. */
  predicate LoadEligible(lb: LoadBuf, status: seq<Status>) {
    && lb.LoadBuf? && lb.instr < |status|
    && lb.resultReady
    && status[lb.instr].written.None?
  }

  /** The slot `t` names may take the bus this cycle. */
  predicate Eligible(s: SimState, t: Tag) {
    match t.unit
    case AddSubUnit => t.index < |s.addSub| && StationEligible(s.addSub[t.index], s.status, s.cycle)
    case MulDivUnit => t.index < |s.mulDiv| && StationEligible(s.mulDiv[t.index], s.status, s.cycle)
    case LoadUnit => t.index < |s.loads| && LoadEligible(s.loads[t.index], s.status)
  }

  function PoolSize(s: SimState, u: Unit): nat {
    match u
    case AddSubUnit => |s.addSub|
    case MulDivUnit => |s.mulDiv|
    case LoadUnit => |s.loads|
  }

  predicate AnyEligible(s: SimState, u: Unit) {
    exists i :: 0 <= i < PoolSize(s, u) && Eligible(s, Tag(u, i))
  }

  /** The lowest eligible slot of unit `u`, or -1. */
  function FirstEligible(s: SimState, u: Unit): (r: int)
    ensures r == -1 <==> !AnyEligible(s, u)
    ensures r >= 0 ==> Eligible(s, Tag(u, r)) && forall i: nat :: i < r ==> !Eligible(s, Tag(u, i))
  {
    match u
    case AddSubUnit =>
      var r := FirstFree(s.addSub, st => !StationEligible(st, s.status, s.cycle));
      assert r == -1 ==> forall i: nat :: !Eligible(s, Tag(u, i));
      assert r >= 0 ==> r < PoolSize(s, u) && Eligible(s, Tag(u, r));
      r
    case MulDivUnit =>
      var r := FirstFree(s.mulDiv, st => !StationEligible(st, s.status, s.cycle));
      assert r == -1 ==> forall i: nat :: !Eligible(s, Tag(u, i));
      assert r >= 0 ==> r < PoolSize(s, u) && Eligible(s, Tag(u, r));
      r
    case LoadUnit =>
      var r := FirstFree(s.loads, lb => !LoadEligible(lb, s.status));
      assert r == -1 ==> forall i: nat :: !Eligible(s, Tag(u, i));
      assert r >= 0 ==> r < PoolSize(s, u) && Eligible(s, Tag(u, r));
      r
  }

  /** The class examined at turn `turn` of the round robin. */
  function TurnUnit(s: SimState, turn: nat): Unit {
    UnitOf((s.cdbNext + turn) % 3)
  }

  /** No class visited at turns lo .. hi - 1 has an eligible slot. */
  predicate NoneEligible(s: SimState, lo: nat, hi: nat) {
    forall t :: lo <= t < hi ==> !AnyEligible(s, TurnUnit(s, t))
  }

  /** The round robin from turn `turn` on. */
  function SelectFrom(s: SimState, turn: nat): (r: Option<Tag>)
    requires turn <= 3
    ensures r.None? <==> NoneEligible(s, turn, 3)
    ensures r.Some? ==> exists t :: turn <= t < 3 && r.value.unit == TurnUnit(s, t) && NoneEligible(s, turn, t)
    ensures r.Some? ==> Eligible(s, r.value) && forall i: nat :: i < r.value.index ==> !Eligible(s, Tag(r.value.unit, i))
    decreases 3 - turn
  {
    if turn == 3 then None
    else
      var u := TurnUnit(s, turn);
      var i := FirstEligible(s, u);
      if i >= 0 then
        assert NoneEligible(s, turn, turn);
        Some(Tag(u, i))
      else
        var r := SelectFrom(s, turn + 1);
        assert !AnyEligible(s, TurnUnit(s, turn));
        assert r.None? <==> NoneEligible(s, turn, 3);
        assert r.Some? ==> exists t :: turn <= t < 3 && r.value.unit == TurnUnit(s, t) && NoneEligible(s, turn, t) by {
          if r.Some? {
            var t :| turn + 1 <= t < 3 && r.value.unit == TurnUnit(s, t) && NoneEligible(s, turn + 1, t);
            assert NoneEligible(s, turn, t);
          }
        }
        r
  }

  /** Three consecutive turns visit every class. */
  lemma TurnsCoverAllUnits(s: SimState, u: Unit)
    ensures exists t :: 0 <= t < 3 && TurnUnit(s, t) == u
  {
    var c := ClassOf(u);
    var t := (c + 3 - s.cdbNext % 3) % 3;
    assert (s.cdbNext + t) % 3 == c;
    assert TurnUnit(s, t) == u;
  }

  /** The bus holder this cycle: the lowest eligible slot of the first class,
      in rotation from `cdbNext`, that has one; None when nothing is eligible. */
  function Select(s: SimState): (r: Option<Tag>)
    ensures r.None? <==> forall u :: !AnyEligible(s, u)
    ensures r.Some? ==> Eligible(s, r.value) && forall i: nat :: i < r.value.index ==> !Eligible(s, Tag(r.value.unit, i))
    ensures r.Some? ==> exists t :: 0 <= t < 3 && r.value.unit == TurnUnit(s, t) && NoneEligible(s, 0, t)
  {
    var r := SelectFrom(s, 0);
    assert r.None? ==> forall u :: !AnyEligible(s, u) by {
      if r.None? {
        forall u
          ensures !AnyEligible(s, u)
        {
          TurnsCoverAllUnits(s, u);
        }
      }
    }
    r
  }

  /** An operand waiting for `t` takes the broadcast value; any other operand
      is left alone. */
  function ResolveOperand(o: Operand, t: Tag, v: int): (o': Operand)
    ensures o == Waiting(t) ==> o' == Ready(v)
    ensures o != Waiting(t) ==> o' == o
  {
    if o == Waiting(t) then Ready(v) else o
  }

  function ResolveStation(st: Station, t: Tag, v: int): (st': Station)
    ensures !st.Station? ==> st' == st
    ensures st.Station? ==> st' == st.(j := ResolveOperand(st.j, t, v), k := ResolveOperand(st.k, t, v))
  {
    if st.Station? then st.(j := ResolveOperand(st.j, t, v), k := ResolveOperand(st.k, t, v)) else st
  }

  function ResolveLoad(lb: LoadBuf, t: Tag, v: int): (lb': LoadBuf)
    ensures !lb.LoadBuf? ==> lb' == lb
    ensures lb.LoadBuf? ==> lb' == lb.(base := ResolveOperand(lb.base, t, v))
  {
    if lb.LoadBuf? then lb.(base := ResolveOperand(lb.base, t, v)) else lb
  }

  function ResolveStore(sb: StoreBuf, t: Tag, v: int): (sb': StoreBuf)
    ensures !sb.StoreBuf? ==> sb' == sb
    ensures sb.StoreBuf? ==> sb' == sb.(base := ResolveOperand(sb.base, t, v), value := ResolveOperand(sb.value, t, v))
  {
    if sb.StoreBuf? then sb.(base := ResolveOperand(sb.base, t, v), value := ResolveOperand(sb.value, t, v)) else sb
  }

  /** The broadcast of value `v` under tag `t`: every occupied slot of every
      pool that waits for `t` receives `v`; nothing else changes. */
  function Broadcast(s: SimState, t: Tag, v: int): (s': SimState)
    ensures s' == s.(addSub := s'.addSub, mulDiv := s'.mulDiv, loads := s'.loads, stores := s'.stores)
    ensures |s'.addSub| == |s.addSub| && |s'.mulDiv| == |s.mulDiv|
    ensures |s'.loads| == |s.loads| && |s'.stores| == |s.stores|
    ensures forall i :: 0 <= i < |s.addSub| ==> s'.addSub[i] == ResolveStation(s.addSub[i], t, v)
    ensures forall i :: 0 <= i < |s.mulDiv| ==> s'.mulDiv[i] == ResolveStation(s.mulDiv[i], t, v)
    ensures forall i :: 0 <= i < |s.loads| ==> s'.loads[i] == ResolveLoad(s.loads[i], t, v)
    ensures forall i :: 0 <= i < |s.stores| ==> s'.stores[i] == ResolveStore(s.stores[i], t, v)
  {
    s.(addSub := seq(|s.addSub|, i requires 0 <= i < |s.addSub| => ResolveStation(s.addSub[i], t, v)),
       mulDiv := seq(|s.mulDiv|, i requires 0 <= i < |s.mulDiv| => ResolveStation(s.mulDiv[i], t, v)),
       loads := seq(|s.loads|, i requires 0 <= i < |s.loads| => ResolveLoad(s.loads[i], t, v)),
       stores := seq(|s.stores|, i requires 0 <= i < |s.stores| => ResolveStore(s.stores[i], t, v)))
  }

  /** True if some occupied slot still waits for `t`. */
  predicate AnyoneWaits(s: SimState, t: Tag) {
    || (exists i :: 0 <= i < |s.addSub| && s.addSub[i].Station? && (s.addSub[i].j == Waiting(t) || s.addSub[i].k == Waiting(t)))
    || (exists i :: 0 <= i < |s.mulDiv| && s.mulDiv[i].Station? && (s.mulDiv[i].j == Waiting(t) || s.mulDiv[i].k == Waiting(t)))
    || (exists i :: 0 <= i < |s.loads| && s.loads[i].LoadBuf? && s.loads[i].base == Waiting(t))
    || (exists i :: 0 <= i < |s.stores| && s.stores[i].StoreBuf? && (s.stores[i].base == Waiting(t) || s.stores[i].value == Waiting(t)))
  }

  /** After a broadcast nobody waits for the broadcast tag any more. */
  lemma BroadcastReachesEveryone(s: SimState, t: Tag, v: int)
    ensures !AnyoneWaits(Broadcast(s, t, v), t)
  {
  }

  /** The clamped branch target: instruction at + 1 + offset, kept within
      0 .. n (n meaning "past the end"). */
  function BranchTarget(at: int, offset: int, n: nat): (r: int)
    ensures 0 <= r <= n
    ensures 0 <= at + 1 + offset <= n ==> r == at + 1 + offset
    ensures at + 1 + offset < 0 ==> r == 0
    ensures at + 1 + offset > n ==> r == n
  {
    var target := at + 1 + offset;
    if target < 0 then 0 else if target > n then n else target
  }

  /** Instruction i's write stamp is the current cycle. */
  function StampWritten(s: SimState, i: nat): seq<Status>
    requires i < |s.status|
  {
    s.status[i := s.status[i].(written := Some(s.cycle))]
  }

  /** The bus turn of a finished BNE in add/sub station i: the branch is
      resolved as taken when its operands differ, a taken branch records its
      clamped target, the instruction is stamped and the station freed. */
  function ResolveBranch(s: SimState, i: nat): (s': SimState)
    requires Shape(s) && i < |s.addSub| && s.addSub[i].Station?
  {
    var st := s.addSub[i];
    var taken := ValueOf(st.j) != ValueOf(st.k);
    var target := if taken then BranchTarget(s.branch.at, s.program[st.instr].offset, |s.program|) else s.branch.target;
    s.(branch := s.branch.(resolved := true, taken := taken, target := target),
       status := StampWritten(s, st.instr),
       addSub := s.addSub[i := NoStation])
  }

  /** The value producer `t` broadcasts and the register it writes. */
  function Result(s: SimState, t: Tag): int
    requires Producer(s, t)
  {
    match t.unit
    case AddSubUnit => var st := s.addSub[t.index]; Compute(st.op, ValueOf(st.j), ValueOf(st.k))
    case MulDivUnit => var st := s.mulDiv[t.index]; Compute(st.op, ValueOf(st.j), ValueOf(st.k))
    case LoadUnit => s.loads[t.index].result
  }

  function InstrOf(s: SimState, t: Tag): nat
    requires Producer(s, t)
  {
    match t.unit
    case AddSubUnit => s.addSub[t.index].instr
    case MulDivUnit => s.mulDiv[t.index].instr
    case LoadUnit => s.loads[t.index].instr
  }

  /** Frees the slot `t` names. */
  function Free(s: SimState, t: Tag): (s': SimState)
    requires Producer(s, t)
  {
    match t.unit
    case AddSubUnit => s.(addSub := s.addSub[t.index := NoStation])
    case MulDivUnit => s.(mulDiv := s.mulDiv[t.index := NoStation])
    case LoadUnit => s.(loads := s.loads[t.index := NoLoad])
  }

  /** The bus turn of producer `t`: stamp its instruction, write the register
      if the alias table still names `t` for it, broadcast the value to every
      waiting slot, and free the slot. */
  function Retire(s: SimState, t: Tag): (s': SimState)
    requires Shape(s) && Producer(s, t)
  {
    var v := Result(s, t);
    var d := ProducerDest(s, t);
    var s1 := s.(status := StampWritten(s, InstrOf(s, t)));
    var s2 := if d < |s.rat| && s.rat[d] == Some(t)
              then s1.(rat := s.rat[d := None], regs := s.regs[d := v])
              else s1;
    Free(Broadcast(s2, t, v), t)
  }

  /** The slot `t` names is free. */
  predicate SlotFree(s: SimState, t: Tag) {
    match t.unit
    case AddSubUnit => t.index < |s.addSub| && s.addSub[t.index] == NoStation
    case MulDivUnit => t.index < |s.mulDiv| && s.mulDiv[t.index] == NoStation
    case LoadUnit => t.index < |s.loads| && s.loads[t.index] == NoLoad
  }

  /** What a producer's bus turn did, stated slot by slot. */
  predicate Retired(s: SimState, t: Tag, s': SimState)
    requires Shape(s) && Producer(s, t)
  {
    var v := Result(s, t);
    var d := ProducerDest(s, t);
    var instr := InstrOf(s, t);
    && s'.program == s.program && s'.memory == s.memory && s'.latency == s.latency
    && s'.cycle == s.cycle && s'.branch == s.branch && s'.next == s.next
    && s'.status == s.status[instr := s.status[instr].(written := Some(s.cycle))]
    && (s.rat[d] == Some(t) ==> s'.rat == s.rat[d := None] && s'.regs == s.regs[d := v])
    && (s.rat[d] != Some(t) ==> s'.rat == s.rat && s'.regs == s.regs)
    && |s'.addSub| == |s.addSub| && |s'.mulDiv| == |s.mulDiv|
    && |s'.loads| == |s.loads| && |s'.stores| == |s.stores|
    && SlotFree(s', t)
    && (forall i :: 0 <= i < |s.addSub| && (t.unit != AddSubUnit || i != t.index) ==>
          s'.addSub[i] == ResolveStation(s.addSub[i], t, v))
    && (forall i :: 0 <= i < |s.mulDiv| && (t.unit != MulDivUnit || i != t.index) ==>
          s'.mulDiv[i] == ResolveStation(s.mulDiv[i], t, v))
    && (forall i :: 0 <= i < |s.loads| && (t.unit != LoadUnit || i != t.index) ==>
          s'.loads[i] == ResolveLoad(s.loads[i], t, v))
    && (forall i :: 0 <= i < |s.stores| ==> s'.stores[i] == ResolveStore(s.stores[i], t, v))
  }

  /** What a BNE's bus turn did. */
  predicate BranchResolved(s: SimState, i: nat, s': SimState)
    requires Shape(s) && i < |s.addSub| && s.addSub[i].Station?
  {
    var st := s.addSub[i];
    var n := |s.program|;
    && s' == s.(branch := s'.branch, status := s'.status, addSub := s'.addSub)
    && s'.branch.resolved
    && (s'.branch.taken <==> ValueOf(st.j) != ValueOf(st.k))
    && (s'.branch.taken ==> 0 <= s'.branch.target <= n)
    && (s'.branch.taken ==> s'.branch.target == BranchTarget(s.branch.at, s.program[st.instr].offset, n))
    && (!s'.branch.taken ==> s'.branch.target == s.branch.target)
    && s'.branch.pending == s.branch.pending && s'.branch.at == s.branch.at
    && s'.status == s.status[st.instr := s.status[st.instr].(written := Some(s.cycle))]
    && s'.addSub == s.addSub[i := NoStation]
  }

  /** The write-back phase. */
  function WriteBack(s: SimState): (s': SimState)
    requires Valid(s)
    ensures Select(s).None? ==> s' == s
    ensures Select(s).Some? ==> s'.cdbNext == (ClassOf(Select(s).value.unit) + 1) % 3
    ensures Select(s).Some? && Producer(s, Select(s).value) ==>
      Retired(s, Select(s).value, s'.(cdbNext := s.cdbNext))
    ensures Select(s).Some? && !Producer(s, Select(s).value) ==>
      Select(s).value.unit == AddSubUnit && s.addSub[Select(s).value.index].op == Bne &&
      BranchResolved(s, Select(s).value.index, s'.(cdbNext := s.cdbNext))
  {
    match Select(s)
    case None => s
    case Some(t) =>
      if Producer(s, t) then
        RetireMeets(s, t);
        Retire(s, t).(cdbNext := (ClassOf(t.unit) + 1) % 3)
      else
        ResolveBranchMeets(s, t);
        ResolveBranch(s, t.index).(cdbNext := (ClassOf(t.unit) + 1) % 3)
  }

  lemma RetireMeets(s: SimState, t: Tag)
    requires Shape(s) && Producer(s, t)
    ensures Retired(s, t, Retire(s, t))
  {
  }

  lemma ResolveBranchMeets(s: SimState, t: Tag)
    requires Valid(s) && Eligible(s, t) && !Producer(s, t)
    ensures t.unit == AddSubUnit && s.addSub[t.index].op == Bne
    ensures BranchResolved(s, t.index, ResolveBranch(s, t.index))
  {
    assert StationOk(s, s.addSub[t.index]);
  }

  /** A producer other than the retiring one is still a producer after the
      bus turn, with the same destination. */
  lemma OtherProducerSurvives(s: SimState, t: Tag, s': SimState, t': Tag)
    requires Shape(s) && Producer(s, t) && Retired(s, t, s')
    requires Producer(s, t') && t' != t
    ensures Producer(s', t') && ProducerDest(s', t') == ProducerDest(s, t')
  {
  }

  /** An operand that was well formed stays well formed once the broadcast has
      resolved it. */
  lemma ResolvedOperandOk(s: SimState, t: Tag, s': SimState, o: Operand)
    requires Shape(s) && Producer(s, t) && Retired(s, t, s')
    requires OperandOk(s, o)
    ensures OperandOk(s', ResolveOperand(o, t, Result(s, t)))
  {
    if o.Waiting? && o.tag != t {
      OtherProducerSurvives(s, t, s', o.tag);
    }
  }

  lemma ResolvedStationOk(s: SimState, t: Tag, s': SimState, st: Station)
    requires Shape(s) && Producer(s, t) && Retired(s, t, s')
    requires StationOk(s, st) && StationInRange(st, |s.program|, |s.regs|)
    ensures var st' := ResolveStation(st, t, Result(s, t));
      StationOk(s', st') && StationInRange(st', |s'.program|, |s'.regs|)
  {
    if st.Station? {
      ResolvedOperandOk(s, t, s', st.j);
      ResolvedOperandOk(s, t, s', st.k);
    }
  }

  lemma RetirePreservesValid(s: SimState, t: Tag, s': SimState)
    requires Valid(s) && Producer(s, t) && Retired(s, t, s') && s'.latency == s.latency
    ensures Valid(s')
  {
    var v := Result(s, t);
    forall r | 0 <= r < |s'.rat|
      ensures AliasOk(s', r)
    {
      assert AliasOk(s, r);
      if s'.rat[r].Some? {
        assert s'.rat[r] == s.rat[r];
        OtherProducerSurvives(s, t, s', s.rat[r].value);
      }
    }
    forall i | 0 <= i < |s'.addSub|
      ensures StationOk(s', s'.addSub[i]) && StationInRange(s'.addSub[i], |s'.program|, |s'.regs|)
    {
      if t.unit != AddSubUnit || i != t.index {
        ResolvedStationOk(s, t, s', s.addSub[i]);
      }
    }
    forall i | 0 <= i < |s'.mulDiv|
      ensures StationOk(s', s'.mulDiv[i]) && StationInRange(s'.mulDiv[i], |s'.program|, |s'.regs|)
      ensures s'.mulDiv[i].Station? ==> s'.mulDiv[i].op in {Mul, Div}
    {
      if t.unit != MulDivUnit || i != t.index {
        ResolvedStationOk(s, t, s', s.mulDiv[i]);
      }
    }
    forall i | 0 <= i < |s'.loads|
      ensures LoadOk(s', s'.loads[i]) && LoadInRange(s'.loads[i], |s'.program|, |s'.regs|)
    {
      if t.unit != LoadUnit || i != t.index {
        var lb := s.loads[i];
        assert LoadOk(s, lb) && LoadInRange(lb, |s.program|, |s.regs|);
        if lb.LoadBuf? {
          ResolvedOperandOk(s, t, s', lb.base);
        }
      }
    }
    forall i | 0 <= i < |s'.stores|
      ensures StoreOk(s', s'.stores[i]) && StoreInRange(s'.stores[i], |s'.program|)
    {
      var sb := s.stores[i];
      assert StoreOk(s, sb) && StoreInRange(sb, |s.program|);
      if sb.StoreBuf? {
        ResolvedOperandOk(s, t, s', sb.base);
        ResolvedOperandOk(s, t, s', sb.value);
      }
    }
  }

  lemma BranchResolvePreservesValid(s: SimState, i: nat, s': SimState)
    requires Valid(s) && i < |s.addSub| && s.addSub[i].Station? && s.addSub[i].op == Bne
    requires BranchResolved(s, i, s')
    ensures Valid(s')
  {
    assert StationOk(s, s.addSub[i]);
    forall t | Producer(s, t)
      ensures Producer(s', t) && ProducerDest(s', t) == ProducerDest(s, t)
    {
    }
    forall o | OperandOk(s, o)
      ensures OperandOk(s', o)
    {
    }
    forall r | 0 <= r < |s'.rat|
      ensures AliasOk(s', r)
    {
      assert AliasOk(s, r);
    }
    forall k | 0 <= k < |s'.addSub|
      ensures StationOk(s', s'.addSub[k]) && StationInRange(s'.addSub[k], |s'.program|, |s'.regs|)
    {
      if k != i {
        assert StationOk(s, s.addSub[k]) && StationInRange(s.addSub[k], |s.program|, |s.regs|);
      }
    }
    forall k | 0 <= k < |s'.mulDiv|
      ensures StationOk(s', s'.mulDiv[k])
    {
      assert StationOk(s, s.mulDiv[k]);
    }
    forall k | 0 <= k < |s'.loads|
      ensures LoadOk(s', s'.loads[k])
    {
      assert LoadOk(s, s.loads[k]);
    }
    forall k | 0 <= k < |s'.stores|
      ensures StoreOk(s', s'.stores[k])
    {
      assert StoreOk(s, s.stores[k]);
    }
  }

  /** The write-back phase keeps the state invariant. */
  lemma WriteBackPreservesValid(s: SimState)
    requires Valid(s)
    ensures Valid(WriteBack(s))
  {
    var s' := WriteBack(s);
    match Select(s)
    case None =>
    case Some(t) =>
      var s0 := s'.(cdbNext := s.cdbNext);
      if Producer(s, t) {
        RetirePreservesValid(s, t, s0);
      } else {
        BranchResolvePreservesValid(s, t.index, s0);
      }
      ValidIgnoresBus(s0, s'.cdbNext);
      assert s' == s0.(cdbNext := s'.cdbNext);
  }

  /** The round-robin pointer plays no part in the invariant. */
  lemma ValidIgnoresBus(s: SimState, c: nat)
    requires Valid(s)
    ensures Valid(s.(cdbNext := c))
  {
    var s' := s.(cdbNext := c);
    assert forall t :: Producer(s', t) == Producer(s, t);
    assert forall o :: OperandOk(s', o) == OperandOk(s, o);
    assert forall r :: 0 <= r < |s.rat| ==> AliasOk(s', r) == AliasOk(s, r);
  }
}
