/** The simulator state: the instruction list with its timing stamps, the
    register file and its alias table, the four slot pools, memory, the CDB
    round-robin pointer, the branch controller and the next-issue pointer. */
module Machine {
  import Memory

  datatype Option<T> = None | Some(value: T)

  datatype Opcode = Add | Sub | Mul | Div | Load | Store | Bne | Unknown

  /** A decoded instruction. `rs` is the first source (the base of a load or
      store), `rt` the second source (the data register of a load or store),
      `rd` the destination of an arithmetic instruction, `offset` the memory
      offset or the branch displacement. Register operands stay as spelled. */
  datatype Instr = Instr(op: Opcode, rd: string, rs: string, rt: string, offset: int)

  /** Cycle stamps of one instruction; None is the source's -1. */
  datatype Status = Status(issued: Option<nat>, started: Option<nat>, finished: Option<nat>, written: Option<nat>)

  const Unstamped := Status(None, None, None, None)

  /** A stamp as the source's integer: -1 when unset. */
  function StampValue(o: Option<nat>): (v: int)
    ensures v >= -1 && (v == -1 <==> o.None?)
  {
    if o.Some? then o.value else -1
  }

  /** The three producer classes, in CDB round-robin order. Stores never
      broadcast, so no tag ever names a store buffer. */
  datatype Unit = AddSubUnit | MulDivUnit | LoadUnit

  function ClassOf(u: Unit): (c: nat)
    ensures c < 3
  {
    match u
    case AddSubUnit => 0
    case MulDivUnit => 1
    case LoadUnit => 2
  }

  function UnitOf(c: nat): (u: Unit)
    requires c < 3
    ensures ClassOf(u) == c
  {
    if c == 0 then AddSubUnit else if c == 1 then MulDivUnit else LoadUnit
  }

  /** The name of a producing slot ("ADD0", "MUL1", "LOAD2" in the source). */
  datatype Tag = Tag(unit: Unit, index: nat)

  /** A source operand: either its value, or the tag of the slot that will
      broadcast it. */
  datatype Operand = Ready(value: int) | Waiting(tag: Tag)

  /** The literal of an operand. A waiting operand has no literal yet; the
      source keeps a stale number there, which nothing reads before the tag
      clears. */
  function ValueOf(o: Operand): int {
    if o.Ready? then o.value else 0
  }

  /** A reservation station of the add/sub (also BNE) or mul/div pool. */
  datatype Station =
    | NoStation
    | Station(op: Opcode, j: Operand, k: Operand, dest: Option<nat>, remaining: nat, instr: nat)

  datatype LoadBuf =
    | NoLoad
    | LoadBuf(base: Operand, offset: int, dest: nat, remaining: nat,
              resultReady: bool, result: int, forward: Option<int>, instr: nat)

  datatype StoreBuf =
    | NoStore
    | StoreBuf(base: Operand, offset: int, value: Operand, remaining: nat, instr: nat)

  datatype Latencies = Latencies(addSub: nat, mul: nat, div: nat, loadStore: nat)

  /** The cycle counts as the configuration file gives them, before the
      reader raises each to at least 1; any integer may appear there. */
  datatype CycleSettings = CycleSettings(addSub: int, mul: int, div: int, loadStore: int)

  /** The branch controller: at most one BNE in flight. `at` is the index of the
      issuing instruction, -1 when idle; `target` is -1 unless a taken branch
      set it. */
  datatype Branch = Branch(pending: bool, resolved: bool, taken: bool, target: int, at: int)

  const NoBranch := Branch(false, false, false, -1, -1)

  datatype SimState = SimState(
    program: seq<Instr>,
    status: seq<Status>,
    regs: seq<int>,
    rat: seq<Option<Tag>>,
    addSub: seq<Station>,
    mulDiv: seq<Station>,
    loads: seq<LoadBuf>,
    stores: seq<StoreBuf>,
    memory: Memory.Mem,
    latency: Latencies,
    cycle: nat,
    cdbNext: nat,
    branch: Branch,
    next: nat)

  predicate StationInRange(st: Station, n: nat, nregs: nat) {
    st.Station? ==> st.instr < n && (st.dest.Some? ==> st.dest.value < nregs)
  }

  predicate LoadInRange(lb: LoadBuf, n: nat, nregs: nat) {
    lb.LoadBuf? ==> lb.instr < n && lb.dest < nregs
  }

  predicate StoreInRange(sb: StoreBuf, n: nat) {
    sb.StoreBuf? ==> sb.instr < n
  }

  /** Every index held anywhere in the state is in range: what the source's
      pointers into fixed arrays guarantee by construction. */
  predicate Shape(s: SimState) {
    && |s.status| == |s.program|
    && |s.rat| == |s.regs|
    && (forall i :: 0 <= i < |s.addSub| ==> StationInRange(s.addSub[i], |s.program|, |s.regs|))
    && (forall i :: 0 <= i < |s.mulDiv| ==> StationInRange(s.mulDiv[i], |s.program|, |s.regs|))
    && (forall i :: 0 <= i < |s.loads| ==> LoadInRange(s.loads[i], |s.program|, |s.regs|))
    && (forall i :: 0 <= i < |s.stores| ==> StoreInRange(s.stores[i], |s.program|))
  }

  /** The slot a tag names is occupied by an instruction that will broadcast a
      value (an arithmetic station or a load, never a BNE). */
  predicate Producer(s: SimState, t: Tag) {
    match t.unit
    case AddSubUnit => t.index < |s.addSub| && s.addSub[t.index].Station? && s.addSub[t.index].dest.Some?
    case MulDivUnit => t.index < |s.mulDiv| && s.mulDiv[t.index].Station? && s.mulDiv[t.index].dest.Some?
    case LoadUnit => t.index < |s.loads| && s.loads[t.index].LoadBuf?
  }

  /** The register the producer named by `t` will write. */
  function ProducerDest(s: SimState, t: Tag): nat
    requires Producer(s, t)
  {
    match t.unit
    case AddSubUnit => s.addSub[t.index].dest.value
    case MulDivUnit => s.mulDiv[t.index].dest.value
    case LoadUnit => s.loads[t.index].dest
  }

  predicate OperandOk(s: SimState, o: Operand) {
    o.Waiting? ==> Producer(s, o.tag)
  }

  /** Stations hold a destination exactly when they are not branches, and a
      station whose countdown has run out had both operands resolved. */
  predicate StationOk(s: SimState, st: Station) {
    st.Station? ==>
      && (st.op == Bne <==> st.dest.None?)
      && OperandOk(s, st.j) && OperandOk(s, st.k)
      && (st.remaining == 0 ==> st.j.Ready? && st.k.Ready?)
  }

  predicate LoadOk(s: SimState, lb: LoadBuf) {
    lb.LoadBuf? ==> OperandOk(s, lb.base)
  }

  predicate StoreOk(s: SimState, sb: StoreBuf) {
    sb.StoreBuf? ==> OperandOk(s, sb.base) && OperandOk(s, sb.value)
  }

  /** The alias-table entry of register r, when set, names an occupied producer
      whose destination is r: each register has at most one pending writer. */
  predicate AliasOk(s: SimState, r: nat)
    requires r < |s.rat|
  {
    s.rat[r].Some? ==> Producer(s, s.rat[r].value) && ProducerDest(s, s.rat[r].value) == r
  }

  /** The branch record never holds an index below -1, and a branch resolved
      as taken holds a target within 0 .. n, so the redirect always lands on an
      instruction index or just past the end. */
  predicate BranchOk(s: SimState) {
    && s.branch.at >= -1
    && (s.branch.resolved && s.branch.taken ==> 0 <= s.branch.target <= |s.program|)
  }

  /** The state invariant the scheduling phases maintain. */
  predicate Valid(s: SimState) {
    && Shape(s)
    && BranchOk(s)
    && s.latency.addSub >= 1 && s.latency.mul >= 1 && s.latency.div >= 1 && s.latency.loadStore >= 1
    && (forall r :: 0 <= r < |s.rat| ==> AliasOk(s, r))
    && (forall i :: 0 <= i < |s.addSub| ==> StationOk(s, s.addSub[i]))
    && (forall i :: 0 <= i < |s.mulDiv| ==> StationOk(s, s.mulDiv[i]))
    && (forall i :: 0 <= i < |s.mulDiv| ==> (s.mulDiv[i].Station? ==> s.mulDiv[i].op in {Mul, Div}))
    && (forall i :: 0 <= i < |s.loads| ==> LoadOk(s, s.loads[i]))
    && (forall i :: 0 <= i < |s.stores| ==> StoreOk(s, s.stores[i]))
  }

  /** Every occupied producer slot of `s` is still occupied in `s'` with the
      same destination (slots that were free may have been filled). */
  predicate KeepsProducers(s: SimState, s': SimState) {
    && |s'.addSub| == |s.addSub| && |s'.mulDiv| == |s.mulDiv| && |s'.loads| == |s.loads|
    && (forall i :: 0 <= i < |s.addSub| && s.addSub[i].Station? ==>
          s'.addSub[i].Station? && s'.addSub[i].dest == s.addSub[i].dest)
    && (forall i :: 0 <= i < |s.mulDiv| && s.mulDiv[i].Station? ==>
          s'.mulDiv[i].Station? && s'.mulDiv[i].dest == s.mulDiv[i].dest)
    && (forall i :: 0 <= i < |s.loads| && s.loads[i].LoadBuf? ==>
          s'.loads[i].LoadBuf? && s'.loads[i].dest == s.loads[i].dest)
  }

  lemma ProducerKept(s: SimState, s': SimState, t: Tag)
    requires KeepsProducers(s, s') && Producer(s, t)
    ensures Producer(s', t) && ProducerDest(s', t) == ProducerDest(s, t)
  {
  }

  /** Whatever names a live producer in `s` still does in `s'`. */
  lemma OkCarriesOver(s: SimState, s': SimState)
    requires KeepsProducers(s, s')
    ensures forall o :: OperandOk(s, o) ==> OperandOk(s', o)
    ensures forall st :: StationOk(s, st) ==> StationOk(s', st)
    ensures forall lb :: LoadOk(s, lb) ==> LoadOk(s', lb)
    ensures forall sb :: StoreOk(s, sb) ==> StoreOk(s', sb)
  {
    forall o | OperandOk(s, o)
      ensures OperandOk(s', o)
    {
      if o.Waiting? {
        ProducerKept(s, s', o.tag);
      }
    }
  }

  /** The state the simulation loop starts from: cycle 1, next instruction 0,
      every slot free, no alias, no stamp, no branch in flight, empty memory.
      Cycle counts below 1 are raised to 1 as the configuration reader does. */
  function Initial(program: seq<Instr>, regs: seq<int>, cfg: CycleSettings,
                   nAddSub: nat, nMulDiv: nat, nLoad: nat, nStore: nat): (s: SimState)
    ensures Valid(s)
    ensures s.program == program && s.regs == regs
    ensures |s.addSub| == nAddSub && |s.mulDiv| == nMulDiv && |s.loads| == nLoad && |s.stores| == nStore
    ensures forall i :: 0 <= i < |s.addSub| ==> s.addSub[i] == NoStation
    ensures forall i :: 0 <= i < |s.mulDiv| ==> s.mulDiv[i] == NoStation
    ensures forall i :: 0 <= i < |s.loads| ==> s.loads[i] == NoLoad
    ensures forall i :: 0 <= i < |s.stores| ==> s.stores[i] == NoStore
    ensures forall k :: 0 <= k < |s.status| ==> s.status[k] == Unstamped
    ensures s.latency == Latencies(AtLeastOne(cfg.addSub), AtLeastOne(cfg.mul), AtLeastOne(cfg.div), AtLeastOne(cfg.loadStore))
    ensures s.cycle == 1 && s.next == 0 && s.cdbNext == 0 && s.memory == Memory.Empty
    ensures s.branch == NoBranch
    ensures forall r :: 0 <= r < |s.rat| ==> s.rat[r].None?
  {
    SimState(
      program, seq(|program|, _ => Unstamped), regs, seq(|regs|, _ => None),
      seq(nAddSub, _ => NoStation), seq(nMulDiv, _ => NoStation),
      seq(nLoad, _ => NoLoad), seq(nStore, _ => NoStore),
      Memory.Empty,
      Latencies(AtLeastOne(cfg.addSub), AtLeastOne(cfg.mul), AtLeastOne(cfg.div), AtLeastOne(cfg.loadStore)),
      1, 0, NoBranch, 0)
  }

  /** `max(1, n)`: the larger of 1 and the setting. */
  function AtLeastOne(n: int): (m: nat)
    ensures m >= 1 && m >= n && (m == 1 || m == n)
  {
    if n < 1 then 1 else n
  }

  /** The lowest-numbered free slot of a pool, or -1 when every slot is busy. */
  function FirstFree<T>(pool: seq<T>, busy: T -> bool): (r: int)
    ensures -1 <= r < |pool|
    ensures r == -1 <==> forall i :: 0 <= i < |pool| ==> busy(pool[i])
    ensures r >= 0 ==> !busy(pool[r]) && forall i :: 0 <= i < r ==> busy(pool[i])
  {
    FirstFreeFrom(pool, busy, 0)
  }

  function FirstFreeFrom<T>(pool: seq<T>, busy: T -> bool, from: nat): (r: int)
    requires from <= |pool|
    requires forall i :: 0 <= i < from ==> busy(pool[i])
    ensures -1 <= r < |pool|
    ensures r == -1 <==> forall i :: 0 <= i < |pool| ==> busy(pool[i])
    ensures r >= 0 ==> !busy(pool[r]) && forall i :: 0 <= i < r ==> busy(pool[i])
    decreases |pool| - from
  {
    if from == |pool| then -1
    else if !busy(pool[from]) then from
    else FirstFreeFrom(pool, busy, from + 1)
  }

  predicate StationBusy(st: Station) { st.Station? }
  predicate LoadBusy(lb: LoadBuf) { lb.LoadBuf? }
  predicate StoreBusy(sb: StoreBuf) { sb.StoreBuf? }

  /** C++ integer division: the quotient truncated toward zero. */
  function TruncDiv(a: int, b: int): (q: int)
    requires b != 0
  {
    var q := Abs(a) / Abs(b);
    if (a < 0) != (b < 0) then -q else q
  }

  function Abs(x: int): nat {
    if x < 0 then -x else x
  }

  /** TruncDiv meets the C++ definition of `/`: `a - q*b` is smaller than `b`
      in magnitude and never has the opposite sign of `a`. */
  lemma TruncDivIsCppDivision(a: int, b: int)
    requires b != 0
    ensures var q := TruncDiv(a, b);
      && Abs(a - q * b) < Abs(b)
      && (a >= 0 ==> a - q * b >= 0)
      && (a <= 0 ==> a - q * b <= 0)
  {
    var A: int, B: int := Abs(a), Abs(b);
    var m: int := A / B;
    var q := TruncDiv(a, b);
    assert q * b == if a < 0 then -(m * B) else m * B by {
      if b > 0 {
        assert B == b;
      } else {
        assert b == -B;
      }
    }
  }

  /** The value an arithmetic station broadcasts. */
  function Compute(op: Opcode, a: int, b: int): (r: int)
    ensures op == Div && b == 0 ==> r == 0
    ensures op == Div && b != 0 ==> Abs(a - r * b) < Abs(b) && (a >= 0 ==> a - r * b >= 0) && (a <= 0 ==> a - r * b <= 0)
    ensures op !in {Add, Sub, Mul, Div} ==> r == 0
  {
    match op
    case Add => a + b
    case Sub => a - b
    case Mul => a * b
    case Div =>
      if b == 0 then 0
      else
        TruncDivIsCppDivision(a, b);
        TruncDiv(a, b)
    case _ => 0
  }

  /** The numbers in the source's pools: a BNE uses an add/sub station with a
      fixed countdown of 1. */
  function LatencyOf(lat: Latencies, op: Opcode): nat {
    match op
    case Add => lat.addSub
    case Sub => lat.addSub
    case Mul => lat.mul
    case Div => lat.div
    case Load => lat.loadStore
    case Store => lat.loadStore
    case Bne => 1
    case Unknown => 0
  }
}
