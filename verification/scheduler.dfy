/** The cycle driver: one step is write-back over the bus, store commit,
    execute, branch redirect, issue of at most one instruction, and the
    check for remaining work, after which the cycle counter advances unless
    the simulation has ended. */
module Scheduler {
  import opened Machine
  import Issue
  import Cdb
  import Commit
  import Execute

  /** A branch resolved this cycle sends the fetch pointer to its target when
      taken and to the instruction after the branch otherwise; the branch
      record is then cleared. */
  function Redirect(s: SimState): (s': SimState)
    requires BranchOk(s)
    ensures !s.branch.resolved ==> s' == s
    ensures s.branch.resolved ==> s' == s.(branch := NoBranch, next := s'.next)
    ensures s.branch.resolved && s.branch.taken ==> s'.next == s.branch.target
    ensures s.branch.resolved && !s.branch.taken ==> s'.next == s.branch.at + 1
  {
    if !s.branch.resolved then s
    else
      var next := if s.branch.taken then s.branch.target else s.branch.at + 1;
      s.(branch := NoBranch, next := next)
  }

  lemma RedirectPreservesValid(s: SimState)
    requires Valid(s)
    ensures Valid(Redirect(s))
  {
    var s' := Redirect(s);
    assert forall t :: Producer(s', t) == Producer(s, t);
    assert forall o :: OperandOk(s', o) == OperandOk(s, o);
    assert forall r :: 0 <= r < |s.rat| ==> AliasOk(s', r) == AliasOk(s, r);
  }

  predicate AnyBusyStation(pool: seq<Station>) {
    exists i :: 0 <= i < |pool| && pool[i].Station?
  }

  predicate AnyBusyLoad(pool: seq<LoadBuf>) {
    exists i :: 0 <= i < |pool| && pool[i].LoadBuf?
  }

  predicate AnyBusyStore(pool: seq<StoreBuf>) {
    exists i :: 0 <= i < |pool| && pool[i].StoreBuf?
  }

  /** Instruction k has been issued and has not written its result. */
  predicate InFlight(s: SimState, k: nat) {
    k < |s.status| && s.status[k].issued.Some? && s.status[k].written.None?
  }

  /** The simulation goes on while an instruction can still be issued, any
      slot is occupied, or an issued instruction has not written back. */
  predicate HasPendingWork(s: SimState) {
    || (s.next < |s.program| && !s.branch.pending)
    || AnyBusyLoad(s.loads) || AnyBusyStore(s.stores)
    || AnyBusyStation(s.addSub) || AnyBusyStation(s.mulDiv)
    || exists k :: 0 <= k < |s.status| && InFlight(s, k)
  }

  /** The pending-work check as the source performs it, pool by pool. */
  method PendingWork(s: SimState) returns (b: bool)
    ensures b == HasPendingWork(s)
  {
    if s.next < |s.program| && !s.branch.pending {
      return true;
    }
    var i := 0;
    while i < |s.loads|
      invariant 0 <= i <= |s.loads|
      invariant forall k :: 0 <= k < i ==> !s.loads[k].LoadBuf?
    {
      if s.loads[i].LoadBuf? {
        return true;
      }
      i := i + 1;
    }
    i := 0;
    while i < |s.stores|
      invariant 0 <= i <= |s.stores|
      invariant forall k :: 0 <= k < i ==> !s.stores[k].StoreBuf?
    {
      if s.stores[i].StoreBuf? {
        return true;
      }
      i := i + 1;
    }
    i := 0;
    while i < |s.addSub|
      invariant 0 <= i <= |s.addSub|
      invariant forall k :: 0 <= k < i ==> !s.addSub[k].Station?
    {
      if s.addSub[i].Station? {
        return true;
      }
      i := i + 1;
    }
    i := 0;
    while i < |s.mulDiv|
      invariant 0 <= i <= |s.mulDiv|
      invariant forall k :: 0 <= k < i ==> !s.mulDiv[k].Station?
    {
      if s.mulDiv[i].Station? {
        return true;
      }
      i := i + 1;
    }
    i := 0;
    while i < |s.status|
      invariant 0 <= i <= |s.status|
      invariant forall k :: 0 <= k < i ==> !InFlight(s, k)
    {
      if s.status[i].issued.Some? && s.status[i].written.None? {
        assert InFlight(s, i);
        return true;
      }
      i := i + 1;
    }
    return false;
  }

  /** The state after write-back, store commit, execute and redirect. */
  function BeforeIssue(s: SimState): (s': SimState)
    requires Valid(s)
    ensures Valid(s')
    ensures s'.program == s.program && s'.cycle == s.cycle
  {
    Cdb.WriteBackPreservesValid(s);
    var s1 := Cdb.WriteBack(s);
    Commit.CommitPreservesValid(s1);
    var s2 := Commit.CommitStores(s1);
    Execute.ExecutePreservesValid(s2);
    var s3 := Execute.Execute(s2);
    RedirectPreservesValid(s3);
    Redirect(s3)
  }

  /** The issue attempt of a step: only when no branch is pending and the
      pointer is inside the program; an attempt that is not made counts as a
      stall (the loop's -1). */
  function TryIssue(s: SimState): (r: (Issue.Outcome, SimState))
    requires Valid(s)
    ensures Valid(r.1)
    ensures r.1.program == s.program && r.1.cycle == s.cycle
    ensures s.branch.pending || s.next >= |s.program| ==> r == (Issue.Stalled, s)
    ensures !s.branch.pending && s.next < |s.program| ==> r == Issue.Issue(s, s.next)
  {
    if !s.branch.pending && s.next < |s.program| then
      Issue.IssuePreservesValid(s, s.next);
      Issue.Issue(s, s.next)
    else (Issue.Stalled, s)
  }

  datatype StepResult =
    | Running(state: SimState)
    | Finished(state: SimState)
    /** An operand named no register; the source throws and the run ends. */
    | Aborted(state: SimState)

  /** One cycle of the simulation loop. */
  function Step(s: SimState): (r: StepResult)
    requires Valid(s)
    ensures Valid(r.state)
    ensures r.Running? ==> r.state.cycle == s.cycle + 1 && HasPendingWork(r.state.(cycle := s.cycle))
    ensures r.Finished? ==> r.state.cycle == s.cycle && !HasPendingWork(r.state)
    ensures r.state.program == s.program && |r.state.status| == |s.status|
  {
    var (out, s5) := TryIssue(BeforeIssue(s));
    Conclude(out, s5)
  }

  /** The end of a cycle: a bad register aborts; otherwise the fetch pointer
      advances past what was issued or skipped, and the loop stops when no
      work is pending and counts the cycle when some is. Nothing but the two
      counters changes. */
  function Conclude(out: Issue.Outcome, s5: SimState): (r: StepResult)
    requires Valid(s5)
    ensures Valid(r.state)
    ensures r.Aborted? <==> out == Issue.BadRegister
    ensures r.Running? ==> r.state.cycle == s5.cycle + 1 && HasPendingWork(r.state.(cycle := s5.cycle))
    ensures r.Finished? ==> r.state.cycle == s5.cycle && !HasPendingWork(r.state)
    ensures r.state.next == if Issue.Advances(out) then s5.next + 1 else s5.next
    ensures r.state == s5.(next := r.state.next, cycle := r.state.cycle)
  {
    if out == Issue.BadRegister then Aborted(s5)
    else
      var s6 := if Issue.Advances(out) then s5.(next := s5.next + 1) else s5;
      ValidIgnoresCounters(s5, s6.next, s5.cycle);
      if !HasPendingWork(s6) then Finished(s6)
      else
        ValidIgnoresCounters(s5, s6.next, s5.cycle + 1);
        Running(s6.(cycle := s6.cycle + 1))
  }

  /** The fetch pointer and the cycle counter play no part in the invariant. */
  lemma ValidIgnoresCounters(s: SimState, next: nat, cycle: nat)
    requires Valid(s)
    ensures Valid(s.(next := next, cycle := cycle))
  {
    var s' := s.(next := next, cycle := cycle);
    assert forall t :: Producer(s', t) == Producer(s, t);
    assert forall o :: OperandOk(s', o) == OperandOk(s, o);
    assert forall r :: 0 <= r < |s.rat| ==> AliasOk(s', r) == AliasOk(s, r);
  }

  /** Station i of the add/sub pool is occupied by an instruction that already
      carries a write stamp. The bus never selects such a station, so it is
      never freed: this is what happens to an instruction issued a second
      time after a backward branch, since issue sets only the issue stamp. */
  predicate Stuck(s: SimState, i: nat) {
    && i < |s.addSub| && s.addSub[i].Station? && s.addSub[i].instr < |s.status|
    && s.status[s.addSub[i].instr].written.Some?
  }

  /** How a phase may change the stamps: issue stamps stay, write stamps once
      set stay set, and a stuck station stays stuck on the same instruction. */
  predicate PhaseKeeps(s: SimState, s': SimState) {
    && |s'.status| == |s.status| && |s'.addSub| == |s.addSub|
    && (forall k :: 0 <= k < |s.status| ==> s'.status[k].issued == s.status[k].issued)
    && (forall k :: 0 <= k < |s.status| && s.status[k].written.Some? ==> s'.status[k].written.Some?)
    && (forall i :: 0 <= i < |s.addSub| && Stuck(s, i) ==> Stuck(s', i) && s'.addSub[i].instr == s.addSub[i].instr)
  }

  lemma PhaseKeepsTransitive(s: SimState, s': SimState, s'': SimState)
    requires PhaseKeeps(s, s') && PhaseKeeps(s', s'')
    ensures PhaseKeeps(s, s'')
  {
  }

  lemma WriteBackKeeps(s: SimState)
    requires Valid(s)
    ensures PhaseKeeps(s, Cdb.WriteBack(s))
    ensures Cdb.WriteBack(s).branch.pending == s.branch.pending && Cdb.WriteBack(s).next == s.next
  {
    var s' := Cdb.WriteBack(s);
    match Cdb.Select(s)
    case None =>
    case Some(t) =>
      assert Cdb.Eligible(s, t);
      var s'' := s'.(cdbNext := s.cdbNext);
      if Producer(s, t) {
        RetiredKeeps(s, t, s'');
      } else {
        BranchResolvedKeeps(s, t.index, s'');
      }
      KeepsIgnoresBus(s, s'', s'.cdbNext);
      assert s' == s''.(cdbNext := s'.cdbNext);
  }

  lemma KeepsIgnoresBus(s: SimState, s': SimState, c: nat)
    requires PhaseKeeps(s, s')
    ensures PhaseKeeps(s, s'.(cdbNext := c))
  {
    var s'' := s'.(cdbNext := c);
    assert forall i :: 0 <= i < |s'.addSub| ==> Stuck(s'', i) == Stuck(s', i);
  }

  /** The bus turn of a producer stamps only its own instruction, which has
      no write stamp, so a stuck station is not the one freed. */
  lemma RetiredKeeps(s: SimState, t: Tag, s': SimState)
    requires Shape(s) && Producer(s, t) && Cdb.Eligible(s, t) && Cdb.Retired(s, t, s')
    ensures PhaseKeeps(s, s')
  {
    forall i: nat | i < |s.addSub| && Stuck(s, i)
      ensures Stuck(s', i) && s'.addSub[i].instr == s.addSub[i].instr
    {
      assert t.unit != AddSubUnit || i != t.index;
      assert s'.addSub[i] == Cdb.ResolveStation(s.addSub[i], t, Cdb.Result(s, t));
    }
  }

  lemma BranchResolvedKeeps(s: SimState, i: nat, s': SimState)
    requires Shape(s) && i < |s.addSub| && Cdb.Eligible(s, Tag(AddSubUnit, i))
    requires Cdb.BranchResolved(s, i, s')
    ensures PhaseKeeps(s, s')
    ensures s'.branch.pending == s.branch.pending && s'.next == s.next
  {
    forall k: nat | k < |s.addSub| && Stuck(s, k)
      ensures Stuck(s', k) && s'.addSub[k].instr == s.addSub[k].instr
    {
      assert k != i;
    }
  }

  lemma CommitKeeps(s: SimState)
    ensures PhaseKeeps(s, Commit.CommitStores(s))
  {
  }

  lemma ExecuteKeeps(s: SimState)
    requires Shape(s)
    ensures PhaseKeeps(s, Execute.Execute(s))
  {
    var s' := Execute.Execute(s);
    forall i: nat | i < |s.addSub| && Stuck(s, i)
      ensures Stuck(s', i) && s'.addSub[i].instr == s.addSub[i].instr
    {
      assert Execute.StationStepped(s.addSub[i], s'.addSub[i]);
    }
  }

  /** Issue fills a free station, never an occupied one. */
  lemma IssueKeepsStuck(s: SimState, i: nat)
    requires Valid(s) && Stuck(s, i)
    ensures Stuck(TryIssue(s).1, i) && TryIssue(s).1.addSub[i].instr == s.addSub[i].instr
  {
    if !s.branch.pending && s.next < |s.program| {
      Issue.IssueKeepsOccupied(s, s.next, i);
    }
  }

  /** Issue changes at most the issue stamp of the instruction at the fetch
      pointer, to the current cycle. */
  lemma IssueStamps(s: SimState)
    requires Valid(s)
    ensures TryIssue(s).0 != Issue.Issued ==> TryIssue(s).1 == s
    ensures TryIssue(s).0 == Issue.Issued ==>
      TryIssue(s).1.status == s.status[s.next := s.status[s.next].(issued := Some(s.cycle))]
  {
  }

  /** Redirect touches only the branch record and the fetch pointer, and it
      leaves a branch pending only when nothing was resolved. */
  lemma RedirectKeeps(s: SimState)
    requires BranchOk(s)
    ensures PhaseKeeps(s, Redirect(s))
    ensures Redirect(s).branch.pending ==> s.branch.pending && Redirect(s).next == s.next
  {
  }

  lemma ChainKeeps(s0: SimState, s1: SimState, s2: SimState, s3: SimState, s4: SimState)
    requires PhaseKeeps(s0, s1) && PhaseKeeps(s1, s2) && PhaseKeeps(s2, s3) && PhaseKeeps(s3, s4)
    ensures PhaseKeeps(s0, s4)
  {
    PhaseKeepsTransitive(s0, s1, s2);
    PhaseKeepsTransitive(s0, s2, s3);
    PhaseKeepsTransitive(s0, s3, s4);
  }

  /** Across the phases before issue the stamps and stuck stations are kept,
      and the fetch pointer moves only together with a branch redirect. */
  lemma BeforeIssueKeeps(s: SimState)
    requires Valid(s)
    ensures PhaseKeeps(s, BeforeIssue(s))
    ensures BeforeIssue(s).branch.pending ==> s.branch.pending && BeforeIssue(s).next == s.next
  {
    var s1 := Cdb.WriteBack(s);
    Cdb.WriteBackPreservesValid(s);
    WriteBackKeeps(s);
    var s2 := Commit.CommitStores(s1);
    CommitKeeps(s1);
    Commit.CommitPreservesValid(s1);
    var s3 := Execute.Execute(s2);
    ExecuteKeeps(s2);
    assert s3.branch == s2.branch == s1.branch && s3.next == s1.next;
    RedirectKeeps(s3);
    ChainKeeps(s, s1, s2, s3, Redirect(s3));
    assert BeforeIssue(s) == Redirect(s3);
  }

  /** Once an add/sub station is stuck it stays stuck and the simulation never
      reports that it has finished. */
  lemma StuckStationNeverFinishes(s: SimState, i: nat)
    requires Valid(s) && Stuck(s, i)
    ensures !Step(s).Finished?
    ensures Stuck(Step(s).state, i) && Step(s).state.addSub[i].instr == s.addSub[i].instr
  {
    var s4 := BeforeIssue(s);
    BeforeIssueKeeps(s);
    IssueKeepsStuck(s4, i);
    assert AnyBusyStation(Step(s).state.addSub);
  }

  /** With the fresh stamping a re-issue clears the write stamp, so no add/sub
      station holding the re-issued instruction is stuck, and once its
      countdown is over it is eligible for the bus in every cycle. */
  lemma FreshStampUnsticks(s: SimState, i: nat)
    requires Shape(s) && i < |s.status|
    ensures forall j :: 0 <= j < |s.addSub| && s.addSub[j].Station? && s.addSub[j].instr == i ==>
      !Stuck(s.(status := Issue.StampFresh(s, i)), j)
    ensures forall j, c ::
      (0 <= j < |s.addSub| && s.addSub[j].Station? && s.addSub[j].instr == i && s.addSub[j].remaining == 0) ==>
      Cdb.StationEligible(s.addSub[j], Issue.StampFresh(s, i), c)
  {
  }

  /** With the stamping as written, a station holding an instruction that
      already has a write stamp stays stuck when that instruction is issued
      again, and the bus never selects it, whatever the cycle. */
  lemma AsWrittenStampKeepsStuck(s: SimState, i: nat)
    requires Shape(s) && i < |s.status|
    ensures forall j :: 0 <= j < |s.addSub| && Stuck(s, j) && s.addSub[j].instr == i ==>
      Stuck(s.(status := Issue.StampIssued(s, i)), j)
    ensures forall j, c :: 0 <= j < |s.addSub| && Stuck(s, j) ==>
      !Cdb.StationEligible(s.addSub[j], Issue.StampIssued(s, i), c)
  {
  }

  /** While a branch stays pending nothing is issued: the fetch pointer and
      every issue stamp are unchanged. */
  lemma PendingBranchStallsIssue(s: SimState)
    requires Valid(s) && BeforeIssue(s).branch.pending
    ensures Step(s).state.next == s.next
    ensures forall k :: 0 <= k < |s.status| ==> Step(s).state.status[k].issued == s.status[k].issued
  {
    var s4 := BeforeIssue(s);
    BeforeIssueKeeps(s);
    assert TryIssue(s4) == (Issue.Stalled, s4);
  }

  /** A BNE that takes the bus this cycle sends the fetch pointer, before the
      issue of the same cycle, to its clamped target when its operands differ
      and to the instruction after it otherwise, and ends the branch stall. */
  lemma BranchRedirectsFetch(s: SimState)
    requires Valid(s) && !s.branch.resolved
    requires Cdb.Select(s).Some? && !Producer(s, Cdb.Select(s).value)
    ensures var t := Cdb.Select(s).value;
      var st := s.addSub[t.index];
      var s4 := BeforeIssue(s);
      && t.unit == AddSubUnit && st.op == Bne
      && s4.branch == NoBranch
      && (ValueOf(st.j) != ValueOf(st.k) ==> s4.next == Cdb.BranchTarget(s.branch.at, s.program[st.instr].offset, |s.program|))
      && (ValueOf(st.j) == ValueOf(st.k) ==> s4.next == s.branch.at + 1)
  {
    var t := Cdb.Select(s).value;
    var s1 := Cdb.WriteBack(s);
    Cdb.WriteBackPreservesValid(s);
    var s2 := Commit.CommitStores(s1);
    Commit.CommitPreservesValid(s1);
    var s3 := Execute.Execute(s2);
    assert s3.branch == s1.branch;
    assert BeforeIssue(s) == Redirect(s3);
  }

  /** The stamps a step leaves are those of its issue phase. */
  lemma StepStampsAsIssue(s: SimState)
    requires Valid(s)
    ensures Step(s).state.status == TryIssue(BeforeIssue(s)).1.status
  {
    BeforeIssueKeeps(s);
  }

  /** At most one instruction is issued per step, the one at the fetch
      pointer as left by the redirect, and its issue stamp is this cycle. */
  lemma OneIssuePerStep(s: SimState)
    requires Valid(s)
    ensures var s' := Step(s).state;
      forall k :: 0 <= k < |s.status| && s'.status[k].issued != s.status[k].issued ==>
        k == BeforeIssue(s).next && s'.status[k].issued == Some(s.cycle)
  {
    BeforeIssueKeeps(s);
    StepStampsAsIssue(s);
    IssueChangesOneStamp(s, BeforeIssue(s), Step(s).state);
  }

  /** The issue phase, run on a state whose issue stamps are those of `s`,
      changes at most the issue stamp at its fetch pointer, to the cycle. */
  lemma IssueChangesOneStamp(s: SimState, s4: SimState, s': SimState)
    requires Valid(s4) && s4.cycle == s.cycle
    requires |s4.status| == |s.status| && forall k :: 0 <= k < |s.status| ==> s4.status[k].issued == s.status[k].issued
    requires s'.status == TryIssue(s4).1.status
    ensures forall k :: 0 <= k < |s.status| && s'.status[k].issued != s.status[k].issued ==>
      k == s4.next && s'.status[k].issued == Some(s.cycle)
  {
    IssueStamps(s4);
  }

  /** No slot of any pool is occupied. */
  predicate Idle(s: SimState) {
    && !AnyBusyStation(s.addSub) && !AnyBusyStation(s.mulDiv)
    && !AnyBusyLoad(s.loads) && !AnyBusyStore(s.stores)
  }

  /** With no slot occupied the write-back, commit and execute phases change
      nothing, so stopping the loop there loses no work. */
  lemma IdleMachineIsFixpoint(s: SimState)
    requires Valid(s) && Idle(s)
    ensures Cdb.WriteBack(s) == s
    ensures Commit.CommitStores(s) == s
    ensures Execute.Execute(s) == s
  {
    IdleWriteBack(s);
    IdleCommit(s);
    IdleExecute(s);
  }

  lemma IdleWriteBack(s: SimState)
    requires Valid(s) && Idle(s)
    ensures Cdb.WriteBack(s) == s
  {
    forall u
      ensures !Cdb.AnyEligible(s, u)
    {
      forall i | 0 <= i < Cdb.PoolSize(s, u)
        ensures !Cdb.Eligible(s, Tag(u, i))
      {
        match u
        case AddSubUnit => assert !s.addSub[i].Station?;
        case MulDivUnit => assert !s.mulDiv[i].Station?;
        case LoadUnit => assert !s.loads[i].LoadBuf?;
      }
    }
  }

  lemma IdleCommit(s: SimState)
    requires Idle(s)
    ensures Commit.CommitStores(s) == s
  {
    Commit.NoCandidatesFrom(s, 0);
    assert Commit.CommitOrder(s) == [];
  }

  lemma IdleExecute(s: SimState)
    requires Valid(s) && Idle(s)
    ensures Execute.Execute(s) == s
  {
    var s' := Execute.Execute(s);
    assert s'.addSub == s.addSub && s'.mulDiv == s.mulDiv && s'.loads == s.loads && s'.stores == s.stores;
    assert forall k :: !Execute.Occupies(s, k);
    assert s'.status == s.status;
  }
}
