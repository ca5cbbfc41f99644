/** Issue: the next instruction takes the lowest free slot of its pool, reads
    its source operands through the register alias table, and (if it writes a
    register) becomes that register's pending producer. */
module Issue {
  import opened Machine
  import Registers

  /** What an issue attempt did. The source returns 0 for Issued and Skipped,
      -1 for Stalled and -2 for PastEnd; BadRegister is the runtime_error it
      throws for an operand that names no register, which ends the program. */
  datatype Outcome = Issued | Skipped | Stalled | PastEnd | BadRegister

  function Code(o: Outcome): int
    requires o != BadRegister
  {
    match o
    case Issued => 0
    case Skipped => 0
    case Stalled => -1
    case PastEnd => -2
  }

  /** The simulation loop moves to the next instruction unless issue returned
      -1 or -2. */
  predicate Advances(o: Outcome) {
    o == Issued || o == Skipped
  }

  /** Advances is the loop's test on the returned code. */
  lemma AdvancesMatchesReturnCode(o: Outcome)
    requires o != BadRegister
    ensures Advances(o) <==> Code(o) != -1 && Code(o) != -2
  {
  }

  /** The operand an issuing instruction takes from register r: the alias
      table's tag when the register has a pending producer, otherwise the
      register's value, read by index. */
  function ReadOperand(s: SimState, r: nat): (o: Operand)
    requires r < |s.rat| && |s.rat| == |s.regs|
    ensures s.rat[r].Some? ==> o == Waiting(s.rat[r].value)
    ensures s.rat[r].None? ==> o.Ready? && o.value == s.regs[r]
    ensures s.rat[r].None? ==> o.value == Registers.ReadRegisterByName(s.regs, Registers.RegName(r))
  {
    Registers.ReadByNameAgreesOnCanonicalNames(s.regs, r);
    if s.rat[r].Some? then Waiting(s.rat[r].value) else Ready(s.regs[r])
  }

  /** The register index an operand spelling denotes in this register file. */
  function Reg(s: SimState, name: string): int {
    Registers.RegIndex(name, |s.regs|)
  }

  /** Instruction i's issue stamp is the current cycle; its other stamps are
      left as they were. */
  function StampIssued(s: SimState, i: nat): seq<Status>
    requires i < |s.status|
  {
    s.status[i := s.status[i].(issued := Some(s.cycle))]
  }

  /** The stamping a second issue of the same instruction evidently needs: a
      fresh record carrying only the new issue stamp, so that no start, end or
      write stamp of an earlier execution survives. The step model keeps
      StampIssued, the behaviour as written. */
  function StampFresh(s: SimState, i: nat): seq<Status>
    requires i < |s.status|
  {
    s.status[i := Unstamped.(issued := Some(s.cycle))]
  }

  function ArithUnit(op: Opcode): Unit {
    if op == Mul || op == Div then MulDivUnit else AddSubUnit
  }

  function StationPool(s: SimState, u: Unit): seq<Station> {
    if u == MulDivUnit then s.mulDiv else s.addSub
  }

  function WithStationPool(s: SimState, u: Unit, p: seq<Station>): SimState {
    if u == MulDivUnit then s.(mulDiv := p) else s.(addSub := p)
  }

  /** Everything but the slot pools, the alias table, the stamps and the
      branch controller is left alone by issue. */
  predicate SameMachine(s: SimState, s': SimState) {
    && s'.program == s.program && s'.regs == s.regs && s'.memory == s.memory
    && s'.latency == s.latency && s'.cycle == s.cycle && s'.cdbNext == s.cdbNext
    && s'.next == s.next
  }

  /** Issue of ADD, SUB, MUL or DIV into the add/sub or mul/div pool. */
  function IssueArith(s: SimState, i: nat): (r: (Outcome, SimState))
    requires Shape(s) && i < |s.program|
    requires s.program[i].op in {Add, Sub, Mul, Div}
    ensures r.0 in {Issued, Stalled, BadRegister}
    ensures r.0 == Stalled <==> FirstFree(StationPool(s, ArithUnit(s.program[i].op)), StationBusy) == -1
    ensures r.0 == BadRegister <==>
      && FirstFree(StationPool(s, ArithUnit(s.program[i].op)), StationBusy) >= 0
      && (Reg(s, s.program[i].rs) < 0 || Reg(s, s.program[i].rt) < 0 || Reg(s, s.program[i].rd) < 0)
    ensures r.0 != Issued ==> r.1 == s
    ensures r.0 == Issued ==> ArithIssued(s, i, r.1)
  {
    var ins := s.program[i];
    var u := ArithUnit(ins.op);
    var pool := StationPool(s, u);
    var idx := FirstFree(pool, StationBusy);
    if idx == -1 then (Stalled, s)
    else
      var rs, rt, rd := Reg(s, ins.rs), Reg(s, ins.rt), Reg(s, ins.rd);
      if rs < 0 || rt < 0 || rd < 0 then (BadRegister, s)
      else
        var st := Station(ins.op, ReadOperand(s, rs), ReadOperand(s, rt), Some(rd),
                          LatencyOf(s.latency, ins.op), i);
        var s' := WithStationPool(s, u, pool[idx := st]);
        (Issued, s'.(rat := s.rat[rd := Some(Tag(u, idx))], status := StampIssued(s, i)))
  }

  /** The successful issue of an arithmetic instruction: the lowest free
      station of its pool is filled, its operands are read through the alias
      table, and the destination's alias entry now names that station. */
  predicate ArithIssued(s: SimState, i: nat, s': SimState)
    requires Shape(s) && i < |s.program|
  {
    var ins := s.program[i];
    var u := ArithUnit(ins.op);
    var pool := StationPool(s, u);
    var idx := FirstFree(pool, StationBusy);
    var rs, rt, rd := Reg(s, ins.rs), Reg(s, ins.rt), Reg(s, ins.rd);
    && idx >= 0 && rs >= 0 && rt >= 0 && rd >= 0
    && |StationPool(s', u)| == |pool|
    && var st := StationPool(s', u)[idx];
    && StationPool(s', u) == pool[idx := st]
    && StationPool(s', OtherUnit(u)) == StationPool(s, OtherUnit(u))
    && st.Station? && st.op == ins.op && st.instr == i && st.dest == Some(rd)
    && st.remaining == LatencyOf(s.latency, ins.op)
    && st.j == ReadOperand(s, rs) && st.k == ReadOperand(s, rt)
    && s'.rat == s.rat[rd := Some(Tag(u, idx))]
    && s'.status == StampIssued(s, i)
    && s'.loads == s.loads && s'.stores == s.stores && s'.branch == s.branch
    && SameMachine(s, s')
  }

  function OtherUnit(u: Unit): Unit {
    if u == MulDivUnit then AddSubUnit else MulDivUnit
  }

  /** Issue of a BNE: it takes an add/sub station with a countdown of 1, has no
      destination, and makes the branch pending. */
  function IssueBne(s: SimState, i: nat): (r: (Outcome, SimState))
    requires Shape(s) && i < |s.program| && s.program[i].op == Bne
    ensures r.0 in {Issued, Stalled, BadRegister}
    ensures r.0 == Stalled <==> FirstFree(s.addSub, StationBusy) == -1
    ensures r.0 == BadRegister <==>
      FirstFree(s.addSub, StationBusy) >= 0 && (Reg(s, s.program[i].rs) < 0 || Reg(s, s.program[i].rt) < 0)
    ensures r.0 != Issued ==> r.1 == s
    ensures r.0 == Issued ==> BneIssued(s, i, r.1)
  {
    var ins := s.program[i];
    var idx := FirstFree(s.addSub, StationBusy);
    if idx == -1 then (Stalled, s)
    else
      var rs, rt := Reg(s, ins.rs), Reg(s, ins.rt);
      if rs < 0 || rt < 0 then (BadRegister, s)
      else
        var st := Station(Bne, ReadOperand(s, rs), ReadOperand(s, rt), None, 1, i);
        (Issued, s.(addSub := s.addSub[idx := st],
                    branch := s.branch.(pending := true, resolved := false, at := i),
                    status := StampIssued(s, i)))
  }

  predicate BneIssued(s: SimState, i: nat, s': SimState)
    requires Shape(s) && i < |s.program|
  {
    var ins := s.program[i];
    var idx := FirstFree(s.addSub, StationBusy);
    var rs, rt := Reg(s, ins.rs), Reg(s, ins.rt);
    && idx >= 0 && rs >= 0 && rt >= 0
    && |s'.addSub| == |s.addSub|
    && var st := s'.addSub[idx];
    && s'.addSub == s.addSub[idx := st]
    && st.Station? && st.op == Bne && st.instr == i && st.dest.None? && st.remaining == 1
    && st.j == ReadOperand(s, rs) && st.k == ReadOperand(s, rt)
    && s'.branch == s.branch.(pending := true, resolved := false, at := i)
    && s'.status == StampIssued(s, i)
    && s'.mulDiv == s.mulDiv && s'.loads == s.loads && s'.stores == s.stores && s'.rat == s.rat
    && SameMachine(s, s')
  }

  /** Issue of a LOAD: base from `rs`, destination `rt`, which becomes the
      register's pending producer. */
  function IssueLoad(s: SimState, i: nat): (r: (Outcome, SimState))
    requires Shape(s) && i < |s.program| && s.program[i].op == Load
    ensures r.0 in {Issued, Stalled, BadRegister}
    ensures r.0 == Stalled <==> FirstFree(s.loads, LoadBusy) == -1
    ensures r.0 == BadRegister <==>
      FirstFree(s.loads, LoadBusy) >= 0 && (Reg(s, s.program[i].rs) < 0 || Reg(s, s.program[i].rt) < 0)
    ensures r.0 != Issued ==> r.1 == s
    ensures r.0 == Issued ==> LoadIssued(s, i, r.1)
  {
    var ins := s.program[i];
    var idx := FirstFree(s.loads, LoadBusy);
    if idx == -1 then (Stalled, s)
    else
      var rs, rd := Reg(s, ins.rs), Reg(s, ins.rt);
      if rs < 0 || rd < 0 then (BadRegister, s)
      else
        var lb := LoadBuf(ReadOperand(s, rs), ins.offset, rd, s.latency.loadStore, false, 0, None, i);
        (Issued, s.(loads := s.loads[idx := lb],
                    rat := s.rat[rd := Some(Tag(LoadUnit, idx))],
                    status := StampIssued(s, i)))
  }

  predicate LoadIssued(s: SimState, i: nat, s': SimState)
    requires Shape(s) && i < |s.program|
  {
    var ins := s.program[i];
    var idx := FirstFree(s.loads, LoadBusy);
    var rs, rd := Reg(s, ins.rs), Reg(s, ins.rt);
    && idx >= 0 && rs >= 0 && rd >= 0
    && |s'.loads| == |s.loads|
    && var lb := s'.loads[idx];
    && s'.loads == s.loads[idx := lb]
    && lb.LoadBuf? && lb.instr == i && lb.dest == rd && lb.offset == ins.offset
    && lb.remaining == s.latency.loadStore && !lb.resultReady && lb.forward.None?
    && lb.base == ReadOperand(s, rs)
    && s'.rat == s.rat[rd := Some(Tag(LoadUnit, idx))]
    && s'.status == StampIssued(s, i)
    && s'.addSub == s.addSub && s'.mulDiv == s.mulDiv && s'.stores == s.stores && s'.branch == s.branch
    && SameMachine(s, s')
  }

  /** Issue of a STORE: base from `rs`, value from `rt`; no register is
      claimed. */
  function IssueStore(s: SimState, i: nat): (r: (Outcome, SimState))
    requires Shape(s) && i < |s.program| && s.program[i].op == Store
    ensures r.0 in {Issued, Stalled, BadRegister}
    ensures r.0 == Stalled <==> FirstFree(s.stores, StoreBusy) == -1
    ensures r.0 == BadRegister <==>
      FirstFree(s.stores, StoreBusy) >= 0 && (Reg(s, s.program[i].rs) < 0 || Reg(s, s.program[i].rt) < 0)
    ensures r.0 != Issued ==> r.1 == s
    ensures r.0 == Issued ==> StoreIssued(s, i, r.1)
  {
    var ins := s.program[i];
    var idx := FirstFree(s.stores, StoreBusy);
    if idx == -1 then (Stalled, s)
    else
      var rs, rt := Reg(s, ins.rs), Reg(s, ins.rt);
      if rs < 0 || rt < 0 then (BadRegister, s)
      else
        var sb := StoreBuf(ReadOperand(s, rs), ins.offset, ReadOperand(s, rt), s.latency.loadStore, i);
        (Issued, s.(stores := s.stores[idx := sb], status := StampIssued(s, i)))
  }

  predicate StoreIssued(s: SimState, i: nat, s': SimState)
    requires Shape(s) && i < |s.program|
  {
    var ins := s.program[i];
    var idx := FirstFree(s.stores, StoreBusy);
    var rs, rt := Reg(s, ins.rs), Reg(s, ins.rt);
    && idx >= 0 && rs >= 0 && rt >= 0
    && |s'.stores| == |s.stores|
    && var sb := s'.stores[idx];
    && s'.stores == s.stores[idx := sb]
    && sb.StoreBuf? && sb.instr == i && sb.offset == ins.offset
    && sb.remaining == s.latency.loadStore
    && sb.base == ReadOperand(s, rs) && sb.value == ReadOperand(s, rt)
    && s'.status == StampIssued(s, i)
    && s'.addSub == s.addSub && s'.mulDiv == s.mulDiv && s'.loads == s.loads
    && s'.rat == s.rat && s'.branch == s.branch
    && SameMachine(s, s')
  }

  /** One issue attempt for instruction i. */
  function Issue(s: SimState, i: nat): (r: (Outcome, SimState))
    requires Shape(s)
    ensures i >= |s.program| ==> r == (PastEnd, s)
    ensures i < |s.program| && s.branch.pending ==> r == (Stalled, s)
    ensures r.0 != Issued ==> r.1 == s
    ensures r.1.program == s.program && r.1.cycle == s.cycle && r.1.next == s.next
    ensures r.0 == Skipped <==> i < |s.program| && !s.branch.pending && s.program[i].op == Unknown
    ensures r.0 == Issued ==> i < |s.program| && !s.branch.pending
    ensures r.0 == Issued ==> r.1.status == StampIssued(s, i)
    ensures r.0 == Issued ==> r.1.memory == s.memory && r.1.regs == s.regs && r.1.cycle == s.cycle
    ensures r.0 == Issued && s.program[i].op != Bne ==> r.1.branch == s.branch
    ensures r.0 == Issued && s.program[i].op in {Store, Bne} ==> r.1.rat == s.rat
    ensures r.0 == Issued && s.program[i].op == Bne ==> r.1.branch.pending && r.1.branch.at == i
    ensures r.0 == Issued && s.program[i].op == Load ==> LoadIssued(s, i, r.1)
    ensures r.0 == Issued && s.program[i].op == Store ==> StoreIssued(s, i, r.1)
    ensures r.0 == Issued && s.program[i].op == Bne ==> BneIssued(s, i, r.1)
    ensures r.0 == Issued && s.program[i].op in {Add, Sub, Mul, Div} ==> ArithIssued(s, i, r.1)
  {
    if i >= |s.program| then (PastEnd, s)
    else if s.branch.pending then (Stalled, s)
    else
      match s.program[i].op
      case Load => IssueLoad(s, i)
      case Store => IssueStore(s, i)
      case Bne => IssueBne(s, i)
      case Unknown => (Skipped, s)
      case _ => IssueArith(s, i)
  }

  /** Issue fills a free slot: an occupied add/sub station is left exactly
      as it was, whatever is issued. */
  lemma IssueKeepsOccupied(s: SimState, i: nat, k: nat)
    requires Shape(s) && k < |s.addSub| && s.addSub[k].Station?
    ensures k < |Issue(s, i).1.addSub| && Issue(s, i).1.addSub[k] == s.addSub[k]
  {
    var r := Issue(s, i);
    if r.0 == Issued {
      var op := s.program[i].op;
      if op == Bne {
        assert BneIssued(s, i, r.1);
        FirstFreeIsFree(s.addSub, k);
      } else if op in {Add, Sub, Mul, Div} {
        ArithKeepsOccupied(s, i, r.1, k);
      } else if op == Load {
        assert LoadIssued(s, i, r.1);
      } else {
        assert StoreIssued(s, i, r.1);
      }
    }
  }

  lemma ArithKeepsOccupied(s: SimState, i: nat, s': SimState, k: nat)
    requires Shape(s) && i < |s.program| && ArithIssued(s, i, s')
    requires k < |s.addSub| && s.addSub[k].Station?
    ensures k < |s'.addSub| && s'.addSub[k] == s.addSub[k]
  {
    if ArithUnit(s.program[i].op) == AddSubUnit {
      assert StationPool(s', AddSubUnit) == s'.addSub;
      FirstFreeIsFree(s.addSub, k);
    } else {
      assert StationPool(s', OtherUnit(MulDivUnit)) == s'.addSub;
    }
  }

  lemma FirstFreeIsFree(pool: seq<Station>, k: nat)
    requires k < |pool| && pool[k].Station?
    ensures FirstFree(pool, StationBusy) != k
  {
  }

  /** Issue preserves the state invariant: in particular the destination's
      alias entry names the new slot, and every other alias entry and every
      waiting operand still names a live producer. */
  lemma IssuePreservesValid(s: SimState, i: nat)
    requires Valid(s)
    ensures Valid(Issue(s, i).1)
  {
    var r := Issue(s, i);
    if r.0 == Issued {
      match s.program[i].op
      case Load => LoadIssueValid(s, i, r.1);
      case Store => StoreIssueValid(s, i, r.1);
      case Bne => BneIssueValid(s, i, r.1);
      case Unknown =>
      case _ => ArithIssueValid(s, i, r.1);
    }
  }

  /** The operand read at issue names a live producer or is a value. */
  lemma ReadOperandOk(s: SimState, s': SimState, r: nat)
    requires Valid(s) && r < |s.rat| && KeepsProducers(s, s')
    ensures OperandOk(s', ReadOperand(s, r))
  {
    assert AliasOk(s, r);
    if s.rat[r].Some? {
      ProducerKept(s, s', s.rat[r].value);
    }
  }

  lemma LoadIssueValid(s: SimState, i: nat, s': SimState)
    requires Valid(s) && i < |s.program| && s.program[i].op == Load && LoadIssued(s, i, s')
    ensures Valid(s')
  {
    LoadIssueKeeps(s, i, s');
    LoadIssueAliases(s, i, s');
    LoadIssueLoads(s, i, s');
    UntouchedPoolsOk(s, s');
  }

  lemma LoadIssueKeeps(s: SimState, i: nat, s': SimState)
    requires Valid(s) && i < |s.program| && s.program[i].op == Load && LoadIssued(s, i, s')
    ensures KeepsProducers(s, s')
  {
    var idx := FirstFree(s.loads, LoadBusy);
    assert !s.loads[idx].LoadBuf?;
    forall k | 0 <= k < |s.loads| && s.loads[k].LoadBuf?
      ensures s'.loads[k] == s.loads[k]
    {
    }
  }

  lemma LoadIssueAliases(s: SimState, i: nat, s': SimState)
    requires Valid(s) && i < |s.program| && s.program[i].op == Load && LoadIssued(s, i, s')
    requires KeepsProducers(s, s')
    ensures forall r :: 0 <= r < |s'.rat| ==> AliasOk(s', r)
  {
    var rd := Reg(s, s.program[i].rt);
    forall r | 0 <= r < |s'.rat|
      ensures AliasOk(s', r)
    {
      if r != rd {
        assert AliasOk(s, r);
        if s.rat[r].Some? {
          ProducerKept(s, s', s.rat[r].value);
        }
      }
    }
  }

  lemma LoadIssueLoads(s: SimState, i: nat, s': SimState)
    requires Valid(s) && i < |s.program| && s.program[i].op == Load && LoadIssued(s, i, s')
    requires KeepsProducers(s, s')
    ensures forall k :: 0 <= k < |s'.loads| ==> LoadOk(s', s'.loads[k])
    ensures forall k :: 0 <= k < |s'.loads| ==> LoadInRange(s'.loads[k], |s'.program|, |s'.regs|)
  {
    var idx := FirstFree(s.loads, LoadBusy);
    OkCarriesOver(s, s');
    ReadOperandOk(s, s', Reg(s, s.program[i].rs));
    forall k | 0 <= k < |s'.loads|
      ensures LoadOk(s', s'.loads[k])
      ensures LoadInRange(s'.loads[k], |s'.program|, |s'.regs|)
    {
      if k != idx {
        assert LoadOk(s, s.loads[k]);
        assert LoadInRange(s.loads[k], |s.program|, |s.regs|);
      }
    }
  }

  lemma StoreIssueValid(s: SimState, i: nat, s': SimState)
    requires Valid(s) && i < |s.program| && s.program[i].op == Store && StoreIssued(s, i, s')
    ensures Valid(s')
  {
    assert KeepsProducers(s, s') by {
      assert s'.addSub == s.addSub && s'.mulDiv == s.mulDiv && s'.loads == s.loads;
    }
    StoreIssueAliases(s, i, s');
    StoreIssueStores(s, i, s');
    UntouchedPoolsOk(s, s');
  }

  /** A pool an issue leaves as it was stays well formed against the new
      state, as long as every producer survives. */
  lemma UntouchedPoolsOk(s: SimState, s': SimState)
    requires Valid(s) && KeepsProducers(s, s') && SameMachine(s, s')
    ensures s'.addSub == s.addSub ==> forall k :: 0 <= k < |s'.addSub| ==>
      StationOk(s', s'.addSub[k]) && StationInRange(s'.addSub[k], |s'.program|, |s'.regs|)
    ensures s'.mulDiv == s.mulDiv ==> forall k :: 0 <= k < |s'.mulDiv| ==>
      StationOk(s', s'.mulDiv[k]) && StationInRange(s'.mulDiv[k], |s'.program|, |s'.regs|)
    ensures s'.mulDiv == s.mulDiv ==> forall k :: 0 <= k < |s'.mulDiv| ==>
      (s'.mulDiv[k].Station? ==> s'.mulDiv[k].op in {Mul, Div})
    ensures s'.loads == s.loads ==> forall k :: 0 <= k < |s'.loads| ==>
      LoadOk(s', s'.loads[k]) && LoadInRange(s'.loads[k], |s'.program|, |s'.regs|)
    ensures s'.stores == s.stores ==> forall k :: 0 <= k < |s'.stores| ==>
      StoreOk(s', s'.stores[k]) && StoreInRange(s'.stores[k], |s'.program|)
  {
    OkCarriesOver(s, s');
    if s'.addSub == s.addSub {
      forall k | 0 <= k < |s'.addSub|
        ensures StationOk(s', s'.addSub[k]) && StationInRange(s'.addSub[k], |s'.program|, |s'.regs|)
      {
        assert StationOk(s, s.addSub[k]) && StationInRange(s.addSub[k], |s.program|, |s.regs|);
      }
    }
    if s'.mulDiv == s.mulDiv {
      forall k | 0 <= k < |s'.mulDiv|
        ensures StationOk(s', s'.mulDiv[k]) && StationInRange(s'.mulDiv[k], |s'.program|, |s'.regs|)
      {
        assert StationOk(s, s.mulDiv[k]) && StationInRange(s.mulDiv[k], |s.program|, |s.regs|);
      }
    }
    if s'.loads == s.loads {
      forall k | 0 <= k < |s'.loads|
        ensures LoadOk(s', s'.loads[k]) && LoadInRange(s'.loads[k], |s'.program|, |s'.regs|)
      {
        assert LoadOk(s, s.loads[k]) && LoadInRange(s.loads[k], |s.program|, |s.regs|);
      }
    }
    if s'.stores == s.stores {
      forall k | 0 <= k < |s'.stores|
        ensures StoreOk(s', s'.stores[k]) && StoreInRange(s'.stores[k], |s'.program|)
      {
        assert StoreOk(s, s.stores[k]) && StoreInRange(s.stores[k], |s.program|);
      }
    }
  }

  lemma StoreIssueAliases(s: SimState, i: nat, s': SimState)
    requires Valid(s) && i < |s.program| && s.program[i].op == Store && StoreIssued(s, i, s')
    requires KeepsProducers(s, s')
    ensures forall r :: 0 <= r < |s'.rat| ==> AliasOk(s', r)
  {
    forall r | 0 <= r < |s'.rat|
      ensures AliasOk(s', r)
    {
      assert AliasOk(s, r);
      if s.rat[r].Some? {
        ProducerKept(s, s', s.rat[r].value);
      }
    }
  }

  lemma StoreIssueStores(s: SimState, i: nat, s': SimState)
    requires Valid(s) && i < |s.program| && s.program[i].op == Store && StoreIssued(s, i, s')
    requires KeepsProducers(s, s')
    ensures forall k :: 0 <= k < |s'.stores| ==> StoreOk(s', s'.stores[k])
    ensures forall k :: 0 <= k < |s'.stores| ==> StoreInRange(s'.stores[k], |s'.program|)
  {
    var idx := FirstFree(s.stores, StoreBusy);
    OkCarriesOver(s, s');
    ReadOperandOk(s, s', Reg(s, s.program[i].rs));
    ReadOperandOk(s, s', Reg(s, s.program[i].rt));
    forall k | 0 <= k < |s'.stores|
      ensures StoreOk(s', s'.stores[k])
      ensures StoreInRange(s'.stores[k], |s'.program|)
    {
      if k != idx {
        assert StoreOk(s, s.stores[k]);
        assert StoreInRange(s.stores[k], |s.program|);
      }
    }
  }

  lemma BneIssueValid(s: SimState, i: nat, s': SimState)
    requires Valid(s) && i < |s.program| && s.program[i].op == Bne && BneIssued(s, i, s')
    ensures Valid(s')
  {
    BneIssueKeeps(s, i, s');
    BneIssueAliases(s, i, s');
    BneIssueStations(s, i, s');
    UntouchedPoolsOk(s, s');
  }

  /** Filling a free slot leaves every occupied slot as it was. */
  lemma FillKeeps(pool: seq<Station>, pool': seq<Station>, idx: int)
    requires 0 <= idx < |pool| && !pool[idx].Station?
    requires |pool'| == |pool| && pool' == pool[idx := pool'[idx]]
    ensures forall k :: 0 <= k < |pool| && pool[k].Station? ==> pool'[k] == pool[k]
  {
  }

  lemma BneIssueKeeps(s: SimState, i: nat, s': SimState)
    requires Shape(s) && i < |s.program| && BneIssued(s, i, s')
    ensures KeepsProducers(s, s')
  {
    FillKeeps(s.addSub, s'.addSub, FirstFree(s.addSub, StationBusy));
  }

  lemma BneIssueAliases(s: SimState, i: nat, s': SimState)
    requires Valid(s) && i < |s.program| && BneIssued(s, i, s')
    requires KeepsProducers(s, s')
    ensures forall r :: 0 <= r < |s'.rat| ==> AliasOk(s', r)
  {
    forall r | 0 <= r < |s'.rat|
      ensures AliasOk(s', r)
    {
      assert AliasOk(s, r);
      if s.rat[r].Some? {
        ProducerKept(s, s', s.rat[r].value);
      }
    }
  }

  lemma BneIssueStations(s: SimState, i: nat, s': SimState)
    requires Valid(s) && i < |s.program| && s.program[i].op == Bne && BneIssued(s, i, s')
    requires KeepsProducers(s, s')
    ensures forall k :: 0 <= k < |s'.addSub| ==> StationOk(s', s'.addSub[k]) && StationInRange(s'.addSub[k], |s'.program|, |s'.regs|)
  {
    var idx := FirstFree(s.addSub, StationBusy);
    OkCarriesOver(s, s');
    ReadOperandOk(s, s', Reg(s, s.program[i].rs));
    ReadOperandOk(s, s', Reg(s, s.program[i].rt));
    forall k | 0 <= k < |s'.addSub|
      ensures StationOk(s', s'.addSub[k]) && StationInRange(s'.addSub[k], |s'.program|, |s'.regs|)
    {
      if k != idx {
        assert StationOk(s, s.addSub[k]) && StationInRange(s.addSub[k], |s.program|, |s.regs|);
      }
    }
  }

  lemma ArithIssueValid(s: SimState, i: nat, s': SimState)
    requires Valid(s) && i < |s.program| && s.program[i].op in {Add, Sub, Mul, Div} && ArithIssued(s, i, s')
    ensures Valid(s')
  {
    ArithIssueKeeps(s, i, s');
    OkCarriesOver(s, s');
    ArithIssueAliases(s, i, s');
    ArithIssueStations(s, i, s');
    assert s'.loads == s.loads && s'.stores == s.stores;
    UntouchedPoolsOk(s, s');
  }

  lemma ArithIssueKeeps(s: SimState, i: nat, s': SimState)
    requires Shape(s) && i < |s.program| && ArithIssued(s, i, s')
    ensures KeepsProducers(s, s')
  {
    var u := ArithUnit(s.program[i].op);
    FillKeeps(StationPool(s, u), StationPool(s', u), FirstFree(StationPool(s, u), StationBusy));
    if u == MulDivUnit {
      assert s'.addSub == StationPool(s', OtherUnit(u)) == s.addSub;
    } else {
      assert s'.mulDiv == StationPool(s', OtherUnit(u)) == s.mulDiv;
    }
  }

  lemma ArithIssueAliases(s: SimState, i: nat, s': SimState)
    requires Valid(s) && i < |s.program| && s.program[i].op in {Add, Sub, Mul, Div} && ArithIssued(s, i, s')
    requires KeepsProducers(s, s')
    ensures forall r :: 0 <= r < |s'.rat| ==> AliasOk(s', r)
  {
    var u := ArithUnit(s.program[i].op);
    var idx := FirstFree(StationPool(s, u), StationBusy);
    var rd := Reg(s, s.program[i].rd);
    forall r | 0 <= r < |s'.rat|
      ensures AliasOk(s', r)
    {
      if r != rd {
        assert AliasOk(s, r);
        if s.rat[r].Some? {
          ProducerKept(s, s', s.rat[r].value);
        }
      } else {
        assert s'.rat[r] == Some(Tag(u, idx));
        if u == MulDivUnit {
          assert StationPool(s', u) == s'.mulDiv;
        } else {
          assert StationPool(s', u) == s'.addSub;
        }
      }
    }
  }

  lemma ArithIssueStations(s: SimState, i: nat, s': SimState)
    requires Valid(s) && i < |s.program| && s.program[i].op in {Add, Sub, Mul, Div} && ArithIssued(s, i, s')
    requires KeepsProducers(s, s')
    ensures forall k :: 0 <= k < |s'.addSub| ==> StationOk(s', s'.addSub[k]) && StationInRange(s'.addSub[k], |s'.program|, |s'.regs|)
    ensures forall k :: 0 <= k < |s'.mulDiv| ==> StationOk(s', s'.mulDiv[k]) && StationInRange(s'.mulDiv[k], |s'.program|, |s'.regs|)
    ensures forall k :: 0 <= k < |s'.mulDiv| ==> (s'.mulDiv[k].Station? ==> s'.mulDiv[k].op in {Mul, Div})
  {
    var u := ArithUnit(s.program[i].op);
    var idx := FirstFree(StationPool(s, u), StationBusy);
    OkCarriesOver(s, s');
    ReadOperandOk(s, s', Reg(s, s.program[i].rs));
    ReadOperandOk(s, s', Reg(s, s.program[i].rt));
    assert LatencyOf(s.latency, s.program[i].op) >= 1;
    forall k | 0 <= k < |StationPool(s', u)|
      ensures StationOk(s', StationPool(s', u)[k])
      ensures StationInRange(StationPool(s', u)[k], |s'.program|, |s'.regs|)
    {
      if k != idx {
        assert StationOk(s, StationPool(s, u)[k]);
        assert StationInRange(StationPool(s, u)[k], |s.program|, |s.regs|);
      }
    }
    if u == MulDivUnit {
      assert StationPool(s', u) == s'.mulDiv;
      assert s'.addSub == StationPool(s', OtherUnit(u)) == s.addSub;
      forall k | 0 <= k < |s'.addSub|
        ensures StationOk(s', s'.addSub[k]) && StationInRange(s'.addSub[k], |s'.program|, |s'.regs|)
      {
        assert StationOk(s, s.addSub[k]) && StationInRange(s.addSub[k], |s.program|, |s.regs|);
      }
    } else {
      assert StationPool(s', u) == s'.addSub;
      assert s'.mulDiv == StationPool(s', OtherUnit(u)) == s.mulDiv;
      forall k | 0 <= k < |s'.mulDiv|
        ensures StationOk(s', s'.mulDiv[k]) && StationInRange(s'.mulDiv[k], |s'.program|, |s'.regs|)
      {
        assert StationOk(s, s.mulDiv[k]) && StationInRange(s.mulDiv[k], |s.program|, |s.regs|);
      }
    }
  }
}
