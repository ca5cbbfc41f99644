/** Store commit: every store buffer whose countdown is over and whose
    instruction has an end-of-execution stamp but no write stamp is a
    candidate; candidates are taken in increasing order of issue cycle, and
    each one whose base and value are known writes memory at base + offset,
    gets its write stamp and frees its buffer. */
module Commit {
  import opened Machine
  import Memory

  predicate Candidate(s: SimState, i: nat) {
    && i < |s.stores| && s.stores[i].StoreBuf? && s.stores[i].instr < |s.status|
    && s.stores[i].remaining == 0
    && s.status[s.stores[i].instr].finished.Some?
    && s.status[s.stores[i].instr].written.None?
  }

  /** A store buffer able to write memory: occupied with base and value known. */
  predicate Commits(s: SimState, i: nat) {
    && i < |s.stores| && s.stores[i].StoreBuf? && s.stores[i].instr < |s.status|
    && s.stores[i].base.Ready? && s.stores[i].value.Ready?
  }

  function Addr(s: SimState, i: nat): int
    requires Commits(s, i)
  {
    s.stores[i].base.value + s.stores[i].offset
  }

  function Value(s: SimState, i: nat): int
    requires Commits(s, i)
  {
    s.stores[i].value.value
  }

  /** The sort key: the issue stamp of the buffer's instruction. */
  function IssueKey(s: SimState, i: nat): int {
    if i < |s.stores| && s.stores[i].StoreBuf? && s.stores[i].instr < |s.status|
    then StampValue(s.status[s.stores[i].instr].issued)
    else -1
  }

  /** Earlier issue first; buffers issued in the same cycle in slot order. */
  predicate Before(s: SimState, a: nat, b: nat) {
    IssueKey(s, a) < IssueKey(s, b) || (IssueKey(s, a) == IssueKey(s, b) && a < b)
  }

  predicate Sorted(s: SimState, xs: seq<nat>) {
    forall p, q :: 0 <= p < q < |xs| ==> Before(s, xs[p], xs[q])
  }

  /** The candidate buffers from..|stores|-1 in slot order. */
  function CandidatesFrom(s: SimState, from: nat): (r: seq<nat>)
    requires from <= |s.stores|
    ensures forall i :: i in r <==> from <= i && Candidate(s, i)
    ensures forall p, q :: 0 <= p < q < |r| ==> r[p] < r[q]
    decreases |s.stores| - from
  {
    if from == |s.stores| then []
    else
      var rest := CandidatesFrom(s, from + 1);
      assert forall q :: 0 <= q < |rest| ==> from < rest[q] by {
        forall q | 0 <= q < |rest|
          ensures from < rest[q]
        {
          assert rest[q] in rest;
        }
      }
      if Candidate(s, from) then [from] + rest else rest
  }

  lemma {:induction false} NoCandidatesFrom(s: SimState, from: nat)
    requires from <= |s.stores|
    requires forall i :: from <= i < |s.stores| ==> !s.stores[i].StoreBuf?
    ensures CandidatesFrom(s, from) == []
    decreases |s.stores| - from
  {
    if from < |s.stores| {
      NoCandidatesFrom(s, from + 1);
    }
  }

  /** Inserts `x` into a sorted list. */
  function Insert(s: SimState, x: nat, xs: seq<nat>): (r: seq<nat>)
    requires Sorted(s, xs) && x !in xs
    ensures Sorted(s, r)
    ensures multiset(r) == multiset(xs) + multiset{x}
  {
    if |xs| == 0 then [x]
    else if Before(s, x, xs[0]) then
      PrependSorted(s, x, xs);
      [x] + xs
    else
      var rest := Insert(s, x, xs[1..]);
      assert xs == [xs[0]] + xs[1..];
      assert Before(s, xs[0], x) by {
        assert x != xs[0];
      }
      assert forall q :: 0 <= q < |rest| ==> Before(s, xs[0], rest[q]) by {
        forall q | 0 <= q < |rest|
          ensures Before(s, xs[0], rest[q])
        {
          assert rest[q] in multiset(rest);
          if rest[q] != x {
            var p :| 0 <= p < |xs[1..]| && xs[1..][p] == rest[q];
            assert xs[p + 1] == rest[q];
          }
        }
      }
      ConsSorted(s, xs[0], rest);
      [xs[0]] + rest
  }

  lemma BeforeTransitive(s: SimState, a: nat, b: nat, c: nat)
    requires Before(s, a, b) && Before(s, b, c)
    ensures Before(s, a, c)
  {
  }

  /** A sorted list stays sorted with an element in front of all of it. */
  lemma ConsSorted(s: SimState, x: nat, xs: seq<nat>)
    requires Sorted(s, xs)
    requires forall q :: 0 <= q < |xs| ==> Before(s, x, xs[q])
    ensures Sorted(s, [x] + xs)
  {
    var r := [x] + xs;
    forall p, q | 0 <= p < q < |r|
      ensures Before(s, r[p], r[q])
    {
      if p > 0 {
        assert r[p] == xs[p - 1] && r[q] == xs[q - 1];
      } else {
        assert r[q] == xs[q - 1];
      }
    }
  }

  lemma PrependSorted(s: SimState, x: nat, xs: seq<nat>)
    requires Sorted(s, xs) && |xs| > 0 && Before(s, x, xs[0])
    ensures Sorted(s, [x] + xs)
  {
    forall q | 0 <= q < |xs|
      ensures Before(s, x, xs[q])
    {
      if q > 0 {
        BeforeTransitive(s, x, xs[0], xs[q]);
      }
    }
    ConsSorted(s, x, xs);
  }

  /** Insertion sort of distinct buffer indices by Before. */
  function SortByIssue(s: SimState, xs: seq<nat>): (r: seq<nat>)
    requires forall p, q :: 0 <= p < q < |xs| ==> xs[p] != xs[q]
    ensures Sorted(s, r)
    ensures multiset(r) == multiset(xs)
  {
    if |xs| == 0 then []
    else
      var rest := SortByIssue(s, xs[1..]);
      assert xs[0] !in rest by {
        assert xs[0] !in multiset(xs[1..]);
      }
      assert xs == [xs[0]] + xs[1..];
      Insert(s, xs[0], rest)
  }

  /** The order in which the phase visits candidates. */
  function CommitOrder(s: SimState): (r: seq<nat>)
    ensures Sorted(s, r)
    ensures forall i :: i in r <==> Candidate(s, i)
  {
    var c := CandidatesFrom(s, 0);
    var r := SortByIssue(s, c);
    assert forall i :: i in r <==> i in c by {
      forall i
        ensures i in r <==> i in c
      {
        assert i in r <==> i in multiset(r);
        assert i in c <==> i in multiset(c);
      }
    }
    r
  }

  /** Writes the memory, stamps and frees buffer i. */
  function CommitOne(s: SimState, i: nat): SimState
    requires Commits(s, i)
  {
    s.(memory := Memory.Write(s.memory, Addr(s, i), Value(s, i)),
       status := s.status[s.stores[i].instr := s.status[s.stores[i].instr].(written := Some(s.cycle))],
       stores := s.stores[i := NoStore])
  }

  predicate Distinct(xs: seq<nat>) {
    forall p, q :: 0 <= p < q < |xs| ==> xs[p] != xs[q]
  }

  /** True if some buffer listed in `order` commits and runs instruction k. */
  predicate CommitsInstr(s: SimState, order: seq<nat>, k: nat) {
    exists p :: 0 <= p < |order| && Commits(s, order[p]) && s.stores[order[p]].instr == k
  }

  /** Visits the listed buffers in turn; those able to write do so. */
  function CommitInOrder(s: SimState, order: seq<nat>): (s': SimState)
    requires Distinct(order)
    ensures s' == s.(memory := s'.memory, status := s'.status, stores := s'.stores)
    ensures |s'.stores| == |s.stores| && |s'.status| == |s.status|
    ensures forall i :: 0 <= i < |s.stores| && i in order && Commits(s, i) ==> s'.stores[i] == NoStore
    ensures forall i :: 0 <= i < |s.stores| && !(i in order && Commits(s, i)) ==> s'.stores[i] == s.stores[i]
    ensures forall k :: 0 <= k < |s.status| && CommitsInstr(s, order, k) ==>
      s'.status[k] == s.status[k].(written := Some(s.cycle))
    ensures forall k :: 0 <= k < |s.status| && !CommitsInstr(s, order, k) ==> s'.status[k] == s.status[k]
    decreases |order|
  {
    if |order| == 0 then s
    else
      var s1 := VisitFirst(s, order);
      VisitFirstFacts(s, order);
      CommitInOrder(s1, order[1..])
  }

  /** Buffer i is able to write and writes address a. */
  predicate WritesAt(s: SimState, i: nat, a: int) {
    Commits(s, i) && Addr(s, i) == a
  }

  /** Position p of `order` is the last one that writes address a. */
  predicate LastWriterAt(s: SimState, order: seq<nat>, p: nat, a: int) {
    && p < |order| && WritesAt(s, order[p], a)
    && forall q :: p < q < |order| ==> !WritesAt(s, order[q], a)
  }

  predicate NoWriterAt(s: SimState, order: seq<nat>, a: int) {
    forall p :: 0 <= p < |order| ==> !WritesAt(s, order[p], a)
  }

  /** The state after visiting the first buffer of `order`. */
  function VisitFirst(s: SimState, order: seq<nat>): (s1: SimState)
    requires |order| > 0
    ensures |s1.status| == |s.status| && |s1.stores| == |s.stores|
    ensures forall j :: 0 <= j < |s.stores| && j != order[0] ==> s1.stores[j] == s.stores[j]
  {
    if Commits(s, order[0]) then CommitOne(s, order[0]) else s
  }

  /** What visiting the first buffer does to the rest of the visit: the
      other buffers keep whether they can write, and an instruction is
      committed by the whole order iff the first buffer commits it or the
      rest does. */
  lemma VisitFirstFacts(s: SimState, order: seq<nat>)
    requires Distinct(order) && |order| > 0
    ensures var s1 := VisitFirst(s, order);
      && (Commits(s, order[0]) ==> s1 == CommitOne(s, order[0]))
      && (!Commits(s, order[0]) ==> s1 == s)
      && (forall j :: j in order[1..] ==> j != order[0])
      && (forall j: nat :: j != order[0] ==> Commits(s1, j) == Commits(s, j))
      && (forall j: nat :: Commits(s1, j) ==> s1.stores[j] == s.stores[j])
      && (forall k :: CommitsInstr(s, order, k) <==>
            (Commits(s, order[0]) && s.stores[order[0]].instr == k) || CommitsInstr(s1, order[1..], k))
  {
    var i := order[0];
    var s1 := VisitFirst(s, order);
    assert forall j :: j in order[1..] ==> j != i;
    forall k
      ensures CommitsInstr(s, order, k) ==> (Commits(s, i) && s.stores[i].instr == k) || CommitsInstr(s1, order[1..], k)
    {
      if CommitsInstr(s, order, k) {
        var p :| 0 <= p < |order| && Commits(s, order[p]) && s.stores[order[p]].instr == k;
        if p > 0 {
          assert order[1..][p - 1] == order[p];
        }
      }
    }
    forall k
      ensures CommitsInstr(s1, order[1..], k) ==> CommitsInstr(s, order, k)
    {
      if CommitsInstr(s1, order[1..], k) {
        var p :| 0 <= p < |order[1..]| && Commits(s1, order[1..][p]) && s1.stores[order[1..][p]].instr == k;
        assert order[p + 1] == order[1..][p];
      }
    }
  }

  /** Whether and what a buffer writes depends on nothing but the buffer. */
  lemma WritesAtUnchanged(s: SimState, s1: SimState, j: nat, a: int)
    requires |s1.status| == |s.status| && |s1.stores| == |s.stores| && j < |s.stores|
    requires s1.stores[j] == s.stores[j]
    ensures WritesAt(s1, j, a) == WritesAt(s, j, a)
    ensures Commits(s, j) ==> Commits(s1, j) && Value(s1, j) == Value(s, j)
  {
  }

  /** An address no visited buffer writes keeps its value. */
  lemma {:induction false} CommitInOrderUntouched(s: SimState, order: seq<nat>, a: int)
    requires Distinct(order) && NoWriterAt(s, order, a)
    ensures Memory.Read(CommitInOrder(s, order).memory, a) == Memory.Read(s.memory, a)
    decreases |order|
  {
    if |order| > 0 {
      var s1 := VisitFirst(s, order);
      var rest := order[1..];
      assert CommitInOrder(s, order) == CommitInOrder(s1, rest);
      forall q | 0 <= q < |rest|
        ensures !WritesAt(s1, rest[q], a)
      {
        assert rest[q] == order[q + 1] && !WritesAt(s, order[q + 1], a);
        if rest[q] < |s.stores| {
          WritesAtUnchanged(s, s1, rest[q], a);
        }
      }
      CommitInOrderUntouched(s1, rest, a);
      if Commits(s, order[0]) {
        assert !WritesAt(s, order[0], a);
        Memory.ReadOtherAfterWrite(s.memory, Addr(s, order[0]), Value(s, order[0]), a);
      }
    }
  }

  /** An address holds the value of the last visited buffer that writes it. */
  lemma {:induction false} CommitInOrderLastWriter(s: SimState, order: seq<nat>, p: nat, a: int)
    requires Distinct(order) && LastWriterAt(s, order, p, a)
    ensures Memory.Read(CommitInOrder(s, order).memory, a) == Value(s, order[p])
    decreases |order|
  {
    var s1 := VisitFirst(s, order);
    var rest := order[1..];
    assert CommitInOrder(s, order) == CommitInOrder(s1, rest);
    forall q | 0 <= q < |rest| && p <= q
      ensures !WritesAt(s1, rest[q], a)
    {
      assert rest[q] == order[q + 1] && !WritesAt(s, order[q + 1], a);
      if rest[q] < |s.stores| {
        WritesAtUnchanged(s, s1, rest[q], a);
      }
    }
    if p == 0 {
      CommitInOrderUntouched(s1, rest, a);
      Memory.ReadAfterWrite(s.memory, a, Value(s, order[0]));
    } else {
      assert rest[p - 1] == order[p];
      WritesAtUnchanged(s, s1, order[p], a);
      CommitInOrderLastWriter(s1, rest, p - 1, a);
    }
  }

  /** A buffer the phase commits: a candidate whose base and value are known. */
  predicate Committed(s: SimState, i: nat) {
    Candidate(s, i) && Commits(s, i)
  }

  /** Some committed buffer runs instruction k. */
  predicate CommittedInstr(s: SimState, k: nat) {
    exists i :: 0 <= i < |s.stores| && Committed(s, i) && s.stores[i].instr == k
  }

  lemma OrderCommitsInstr(s: SimState, k: nat)
    ensures CommitsInstr(s, CommitOrder(s), k) <==> CommittedInstr(s, k)
  {
    var order := CommitOrder(s);
    if CommittedInstr(s, k) {
      var i :| 0 <= i < |s.stores| && Committed(s, i) && s.stores[i].instr == k;
      assert i in order;
      var p :| 0 <= p < |order| && order[p] == i;
    }
    if CommitsInstr(s, order, k) {
      var p :| 0 <= p < |order| && Commits(s, order[p]) && s.stores[order[p]].instr == k;
      assert order[p] in order;
    }
  }

  lemma SortedIsDistinct(s: SimState, xs: seq<nat>)
    requires Sorted(s, xs)
    ensures Distinct(xs)
  {
    forall p, q | 0 <= p < q < |xs|
      ensures xs[p] != xs[q]
    {
      assert Before(s, xs[p], xs[q]);
    }
  }

  /** The store-commit phase. */
  function CommitStores(s: SimState): (s': SimState)
    ensures s' == s.(memory := s'.memory, status := s'.status, stores := s'.stores)
    ensures |s'.stores| == |s.stores| && |s'.status| == |s.status|
    ensures forall i :: 0 <= i < |s.stores| && Committed(s, i) ==> s'.stores[i] == NoStore
    ensures forall i :: 0 <= i < |s.stores| && !Committed(s, i) ==> s'.stores[i] == s.stores[i]
    ensures forall k :: 0 <= k < |s.status| && CommittedInstr(s, k) ==>
      s'.status[k] == s.status[k].(written := Some(s.cycle))
    ensures forall k :: 0 <= k < |s.status| && !CommittedInstr(s, k) ==> s'.status[k] == s.status[k]
  {
    var order := CommitOrder(s);
    SortedIsDistinct(s, order);
    forall k {
      OrderCommitsInstr(s, k);
    }
    CommitInOrder(s, order)
  }

  /** Among committed stores to one address, the one that comes last in
      (issue cycle, slot) order. */
  predicate LastIssuedAt(s: SimState, i: nat, a: int) {
    && i < |s.stores| && Committed(s, i) && Addr(s, i) == a
    && forall j :: 0 <= j < |s.stores| && j != i && Committed(s, j) && Addr(s, j) == a ==> Before(s, j, i)
  }

  /** The memory after the phase: an address written by some committed store
      holds the value of the one issued last (the highest slot among those
      issued in the same cycle). */
  lemma LastIssuedStoreWins(s: SimState, i: nat, a: int)
    requires LastIssuedAt(s, i, a)
    ensures Memory.Read(CommitStores(s).memory, a) == Value(s, i)
  {
    var order := CommitOrder(s);
    SortedIsDistinct(s, order);
    assert i in order;
    var p :| 0 <= p < |order| && order[p] == i;
    forall q | p < q < |order|
      ensures !WritesAt(s, order[q], a)
    {
      assert order[q] in order;
      assert Before(s, order[p], order[q]);
    }
    CommitInOrderLastWriter(s, order, p, a);
  }

  /** An address no committed store writes keeps its value. */
  lemma UnwrittenAddressKept(s: SimState, a: int)
    requires forall i :: 0 <= i < |s.stores| && Committed(s, i) ==> Addr(s, i) != a
    ensures Memory.Read(CommitStores(s).memory, a) == Memory.Read(s.memory, a)
  {
    var order := CommitOrder(s);
    SortedIsDistinct(s, order);
    forall p | 0 <= p < |order|
      ensures !WritesAt(s, order[p], a)
    {
      assert order[p] in order;
    }
    CommitInOrderUntouched(s, order, a);
  }

  /** Committing frees only store buffers, which never produce tags, so the
      state invariant is kept. */
  lemma CommitPreservesValid(s: SimState)
    requires Valid(s)
    ensures Valid(CommitStores(s))
  {
    var s' := CommitStores(s);
    assert KeepsProducers(s, s');
    OkCarriesOver(s, s');
    forall r | 0 <= r < |s'.rat|
      ensures AliasOk(s', r)
    {
      assert AliasOk(s, r);
      if s.rat[r].Some? {
        ProducerKept(s, s', s.rat[r].value);
      }
    }
    forall i | 0 <= i < |s'.stores|
      ensures StoreOk(s', s'.stores[i]) && StoreInRange(s'.stores[i], |s'.program|)
    {
      assert StoreOk(s, s.stores[i]) && StoreInRange(s.stores[i], |s.program|);
    }
  }
}
