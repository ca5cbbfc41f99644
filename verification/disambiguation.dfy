/** Load disambiguation: before a load may read, every older store in the
    store buffer must have a known address, and an older store to the same
    address must have its value; the value of the youngest such store is
    forwarded instead of reading memory. */
module Disambiguation {
  import opened Machine

  /** Every occupied slot points at a stamped instruction record. */
  predicate StampsInRange(stores: seq<StoreBuf>, status: seq<Status>, lb: LoadBuf) {
    && (lb.LoadBuf? ==> lb.instr < |status|)
    && forall i :: 0 <= i < |stores| ==> (stores[i].StoreBuf? ==> stores[i].instr < |status|)
  }

  function IssueStamp(status: seq<Status>, instr: nat): int
    requires instr < |status|
  {
    StampValue(status[instr].issued)
  }

  /** The store is occupied and was issued no later than the load. */
  predicate Older(status: seq<Status>, sb: StoreBuf, lb: LoadBuf)
    requires lb.LoadBuf? && lb.instr < |status|
    requires sb.StoreBuf? ==> sb.instr < |status|
  {
    && sb.StoreBuf?
    && IssueStamp(status, sb.instr) != -1
    && IssueStamp(status, sb.instr) <= IssueStamp(status, lb.instr)
  }

  /** An older store stops the load when its address is unknown, or when it
      writes the load's address with a value not yet known. */
  predicate Blocks(status: seq<Status>, sb: StoreBuf, lb: LoadBuf, addr: int)
    requires lb.LoadBuf? && lb.instr < |status|
    requires sb.StoreBuf? ==> sb.instr < |status|
  {
    && Older(status, sb, lb)
    && (sb.base.Waiting? || (sb.base.value + sb.offset == addr && sb.value.Waiting?))
  }

  /** An older store whose address is the load's and whose value is known. */
  predicate Candidate(status: seq<Status>, sb: StoreBuf, lb: LoadBuf, addr: int)
    requires lb.LoadBuf? && lb.instr < |status|
    requires sb.StoreBuf? ==> sb.instr < |status|
  {
    && Older(status, sb, lb)
    && sb.base.Ready? && sb.base.value + sb.offset == addr && sb.value.Ready?
  }

  /** The running result of the scan over the store buffer: whether a blocker
      was seen, and the issue stamp (-1 for none) and value of the youngest
      forwarding candidate seen so far. */
  datatype Scan = Scan(blocked: bool, bestIssued: int, bestValue: int)

  /** The scan over the first n store buffers, in slot order. */
  function ScanStores(stores: seq<StoreBuf>, status: seq<Status>, lb: LoadBuf, addr: int, n: nat): Scan
    requires lb.LoadBuf? && StampsInRange(stores, status, lb) && n <= |stores|
  {
    if n == 0 then Scan(false, -1, 0)
    else
      var prev := ScanStores(stores, status, lb, addr, n - 1);
      var st := stores[n - 1];
      if !Older(status, st, lb) then prev
      else if st.base.Waiting? then prev.(blocked := true)
      else if st.base.value + st.offset != addr then prev
      else if st.value.Ready? then
        var e := IssueStamp(status, st.instr);
        if e > prev.bestIssued then prev.(bestIssued := e, bestValue := st.value.value) else prev
      else prev.(blocked := true)
  }

  /** What the scan finds: a blocker among the first n buffers, whether any
      of them is a forwarding candidate, and the issue stamp and value of the
      youngest candidate; among candidates sharing that stamp, the lowest
      slot, since the scan replaces its choice only on a strictly larger one. */
  lemma {:induction false} ScanStoresMeets(stores: seq<StoreBuf>, status: seq<Status>, lb: LoadBuf, addr: int, n: nat)
    requires lb.LoadBuf? && StampsInRange(stores, status, lb) && n <= |stores|
    ensures var r := ScanStores(stores, status, lb, addr, n);
      && (r.blocked <==> exists i :: 0 <= i < n && Blocks(status, stores[i], lb, addr))
      && (r.bestIssued == -1 <==> forall i :: 0 <= i < n ==> !Candidate(status, stores[i], lb, addr))
      && (r.bestIssued != -1 ==> exists w :: (0 <= w < n && Candidate(status, stores[w], lb, addr)
            && IssueStamp(status, stores[w].instr) == r.bestIssued && stores[w].value.value == r.bestValue
            && forall i :: 0 <= i < w && Candidate(status, stores[i], lb, addr) ==>
                 IssueStamp(status, stores[i].instr) < r.bestIssued))
      && (forall i :: 0 <= i < n && Candidate(status, stores[i], lb, addr) ==>
            IssueStamp(status, stores[i].instr) <= r.bestIssued)
  {
    if n > 0 {
      ScanStoresMeets(stores, status, lb, addr, n - 1);
    }
  }

  /** The hazard check run for a load each cycle: whether it must wait, and
      the value to forward to it, if any: that of the youngest older store
      to the load's address, the lowest such slot on a tie. */
  function CheckLoad(stores: seq<StoreBuf>, status: seq<Status>, lb: LoadBuf): (r: (bool, Option<int>))
    requires lb.LoadBuf? && StampsInRange(stores, status, lb)
    ensures lb.base.Waiting? ==> r == (true, None)
    ensures lb.base.Ready? ==>
      (r.0 <==> exists i :: 0 <= i < |stores| && Blocks(status, stores[i], lb, lb.base.value + lb.offset))
    ensures r.0 ==> r.1.None?
    ensures !r.0 ==>
      (r.1.None? <==> forall i :: 0 <= i < |stores| ==> !Candidate(status, stores[i], lb, lb.base.value + lb.offset))
    ensures r.1.Some? ==> exists w :: (
      && 0 <= w < |stores|
      && Candidate(status, stores[w], lb, lb.base.value + lb.offset)
      && stores[w].value.value == r.1.value
      && (forall i :: 0 <= i < |stores| && Candidate(status, stores[i], lb, lb.base.value + lb.offset) ==>
            IssueStamp(status, stores[i].instr) <= IssueStamp(status, stores[w].instr))
      && forall i :: 0 <= i < w && Candidate(status, stores[i], lb, lb.base.value + lb.offset) ==>
           IssueStamp(status, stores[i].instr) < IssueStamp(status, stores[w].instr))
  {
    if lb.base.Waiting? then (true, None)
    else
      var scan := ScanStores(stores, status, lb, lb.base.value + lb.offset, |stores|);
      ScanStoresMeets(stores, status, lb, lb.base.value + lb.offset, |stores|);
      if scan.blocked then (true, None)
      else if scan.bestIssued != -1 then (false, Some(scan.bestValue))
      else (false, None)
  }

  /** Two stamp records that agree on every issue stamp. */
  predicate SameIssue(status: seq<Status>, status': seq<Status>) {
    && |status'| == |status|
    && forall k :: 0 <= k < |status| ==> status'[k].issued == status[k].issued
  }

  /** The scan reads nothing of the stamp records but the issue stamps. */
  lemma {:induction false} ScanReadsIssueOnly(stores: seq<StoreBuf>, status: seq<Status>, status': seq<Status>,
                                              lb: LoadBuf, addr: int, n: nat)
    requires lb.LoadBuf? && StampsInRange(stores, status, lb) && n <= |stores|
    requires SameIssue(status, status')
    ensures ScanStores(stores, status', lb, addr, n) == ScanStores(stores, status, lb, addr, n)
  {
    if n > 0 {
      ScanReadsIssueOnly(stores, status, status', lb, addr, n - 1);
      var st := stores[n - 1];
      assert Older(status', st, lb) == Older(status, st, lb) by {
        if st.StoreBuf? {
          assert IssueStamp(status', st.instr) == IssueStamp(status, st.instr);
        }
        assert IssueStamp(status', lb.instr) == IssueStamp(status, lb.instr);
      }
      assert st.StoreBuf? ==> IssueStamp(status', st.instr) == IssueStamp(status, st.instr);
    }
  }

  /** So the hazard check of a load depends only on the store buffer and the
      issue stamps: a pass that only starts or ends instructions does not
      change what a later load of the same pass sees. */
  lemma {:induction false} CheckLoadReadsIssueOnly(stores: seq<StoreBuf>, status: seq<Status>, status': seq<Status>, lb: LoadBuf)
    requires lb.LoadBuf? && StampsInRange(stores, status, lb) && SameIssue(status, status')
    ensures CheckLoad(stores, status', lb) == CheckLoad(stores, status, lb)
  {
    if lb.base.Ready? {
      var addr := lb.base.value + lb.offset;
      ScanReadsIssueOnly(stores, status, status', lb, addr, |stores|);
    }
  }
}
