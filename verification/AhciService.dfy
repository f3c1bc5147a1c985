/**
 Slots that wait (bhyve/pci_ahci.c): of several commands written to PxCI all but the first
 may be issued by completion callbacks, in the middle of the drain that executes them.
 */
module AhciService {
  import opened BlockQueue
  import opened Sequences
  import opened Interrupts
  import opened AhciIov
  import opened DiskTransfer
  import opened AhciSpec
  import opened AhciRuns
  import opened AhciIssue
  import opened AhciDrain
  import opened AhciWork
  import opened AhciDelivery
  import opened AhciSteps

  // Slot x holds a transfer that has not been issued.
  ghost predicate Waits(s: Ahci, x: Bit)
    requires |s.table| == 32
  {
    x in s.regs.ci && x !in s.regs.pending && s.table[x].Rw? && GoodCommand(s.table[x])
  }

  // 'left' is still to be transferred for slot x, up to byte 'fin'.
  ghost predicate Ahead(s: Ahci, x: Bit, left: seq<IoOp>, fin: nat)
    requires |s.table| == 32 && |s.prdbc| == 32
  {
    if Waits(s, x) then left == RoundsFrom(x, s.table[x], 0) && fin == EndFrom(s.table[x], 0)
    else Tracks(s, x, left, fin)
  }

  // As far as slot x is concerned.
  ghost predicate SameSlot(s: Ahci, t: Ahci, x: Bit) {
    && t.table == s.table && |t.prdbc| == |s.prdbc|
    && (x in t.regs.ci <==> x in s.regs.ci) && (x in t.regs.pending <==> x in s.regs.pending)
  }

  lemma CmdOther(s: Ahci, slot: Bit, c: Command, x: Bit)
    requires (c.Rw? || c.FlushCache? || c.Sync?) && CanIssue(s) && x != slot
    ensures SameSlot(s, HandleCmd(s, slot, c), x)
  {
  }

  lemma SlotOther(s: Ahci, slot: Bit, x: Bit)
    requires |s.table| == 32 && CanIssue(s) && x != slot
    ensures SameSlot(s, HandleSlot(s, slot), x)
  {
    var c := s.table[slot];
    if c.Rw? || c.FlushCache? || c.Sync? { CmdOther(s, slot, c, x); }
  }

  lemma IterWaits(s: Ahci, x: Bit)
    requires Core(s, {}) && CanIssue(s) && Waits(s, x) && s.regs.ccs != x
    ensures |PortIter(s).table| == 32 && |PortIter(s).prdbc| == 32 && Waits(PortIter(s), x)
    ensures PortIter(s).table == s.table
  {
    if s.regs.ccs in Issuable(s) { SlotOther(s.(regs := s.regs.(cmdCcs := s.regs.ccs)), s.regs.ccs, x); }
  }

  lemma IterAhead(s: Ahci, x: Bit, left: seq<IoOp>, fin: nat)
    requires Core(s, {}) && CanIssue(s) && !Stopped(s) && Ahead(s, x, left, fin)
    ensures |PortIter(s).table| == 32 && |PortIter(s).prdbc| == 32 && Ahead(PortIter(s), x, left, fin)
  {
    if !Waits(s, x) {
      IterTracks(s, x, left, fin);
    } else if s.regs.ccs == x {
      IssueStarts(s);
    } else {
      IterWaits(s, x);
    }
  }

  /** The issue loop issues a waiting transfer or leaves it waiting. */
  lemma {:induction false} HandlePortAhead(s: Ahci, x: Bit, left: seq<IoOp>, fin: nat)
    requires Core(s, {}) && Halting(s) && Ahead(s, x, left, fin)
    ensures Core(HandlePort(s), {}) && Ahead(HandlePort(s), x, left, fin)
    decreases Rank0(s), Rank1(s), Rank2(s)
  {
    HandlePortKeeps(s);
    if !Stopped(s) {
      NeverExhausted(s, {});
      IterProgress(s);
      IterAhead(s, x, left, fin);
      HandlePortAhead(PortIter(s), x, left, fin);
    }
  }

  // ----- a round of the worker

  lemma FinishOther(s: Ahci, y: Bit, err: bool, x: Bit)
    requires |s.table| == 32 && |s.prdbc| == 32 && x != y && CMD_ST in s.regs.cmd
    ensures SameSlot(s, CbFinish(s, y, err), x)
  {
  }

  lemma ContinueOther(s: Ahci, y: Bit, c: Command, done: nat, x: Bit)
    requires CanIssue(s) && c.Rw? && done <= c.count * SECTOR && x != y
    ensures SameSlot(s, HandleRw(s, y, c, done), x)
  {
  }

  lemma ReleasedSame(s: Ahci)
    requires Ready(s) && Driven(s)
    ensures Released(s).regs == s.regs && Released(s).table == s.table && |Released(s).prdbc| == |s.prdbc|
  {
    ReleasedIs(s);
    CallbackReady(s);
  }

  lemma HeadPending(s: Ahci)
    requires Ready(s) && Driven(s)
    ensures HeadRequest(s).slot in s.regs.pending
  {
    BeginRelease(s, Fails(s));
  }

  lemma SameWaits(s: Ahci, t: Ahci, x: Bit, left: seq<IoOp>, fin: nat)
    requires |s.table| == 32 && |s.prdbc| == 32 && Waits(s, x) && Ahead(s, x, left, fin) && SameSlot(s, t, x)
    ensures Ahead(t, x, left, fin)
  {
  }

  lemma CalledWaits(s: Ahci, x: Bit, left: seq<IoOp>, fin: nat)
    requires Ready(s) && Driven(s) && CMD_ST in s.regs.cmd && Waits(s, x) && Ahead(s, x, left, fin)
    ensures |Called(s).table| == 32 && |Called(s).prdbc| == 32 && Ahead(Called(s), x, left, fin)
  {
    HeadPending(s);
    ReleasedWorks(s);
    ReleasedSame(s);
    CalledIs(s);
    var r, s1 := HeadRequest(s), Released(s);
    SameWaits(s, s1, x, left, fin);
    if !Fails(s) && r.more {
      ContinueOther(s1, r.slot, s1.table[r.slot], r.done, x);
      SameWaits(s1, Called(s), x, left, fin);
    } else {
      var f := CbFinish(s1, r.slot, Fails(s));
      FinishOther(s1, r.slot, Fails(s), x);
      SameWaits(s1, f, x, left, fin);
      HandlePortAhead(f, x, left, fin);
    }
  }

  // The callback issues what waits after the round's own slot has finished.
  lemma RoundAhead(s: Ahci, x: Bit, left: seq<IoOp>, fin: nat)
    requires Ready(s) && Driven(s) && CMD_ST in s.regs.cmd && Ahead(s, x, left, fin) && !s.rdonly
    ensures |Round(s).table| == 32 && |Round(s).prdbc| == 32
    ensures Ahead(Round(s), x, LeftAfter(s, x, left), fin)
    ensures s.q.pend[0].req.id < |s.ioreqs|
    ensures OwnedBy(Executed(s, s.q.pend[0]), x) + LeftAfter(s, x, left) == left
  {
    if Waits(s, x) {
      HeadPending(s);
      HeadFlight(s);
      CalledWaits(s, x, left, fin);
      CompleteAhead(s, x, left, fin);
      assert OwnedBy(Executed(s, s.q.pend[0]), x) == [];
    } else {
      RoundTracks(s, x, left, fin);
      TracksAhead(Round(s), x, LeftAfter(s, x, left), fin);
    }
  }

  lemma TracksAhead(s: Ahci, x: Bit, left: seq<IoOp>, fin: nat)
    requires |s.table| == 32 && |s.prdbc| == 32 && Tracks(s, x, left, fin)
    ensures Ahead(s, x, left, fin)
  {
  }

  lemma CompleteAhead(s: Ahci, x: Bit, left: seq<IoOp>, fin: nat)
    requires Ready(s) && Driven(s) && |Called(s).table| == 32 && |Called(s).prdbc| == 32
    requires Ahead(Called(s), x, left, fin)
    ensures |Round(s).table| == 32 && |Round(s).prdbc| == 32 && Ahead(Round(s), x, left, fin)
  {
    CallbackKeeps(s);
    if Waits(Called(s), x) {
      SameWaits(Called(s), Round(s), x, left, fin);
    } else {
      CompleteTracks(s, x, left, fin);
      TracksAhead(Round(s), x, left, fin);
    }
  }

  // ----- the whole drain

  lemma RoundKeepsCmd(s: Ahci)
    requires Ready(s) && Driven(s) && CMD_ST in s.regs.cmd
    ensures Round(s).regs.cmd == s.regs.cmd
  {
    CallbackKeeps(s);
    ReleasedWorks(s);
    CalledIs(s);
    var r, s1 := HeadRequest(s), Released(s);
    if !Fails(s) && r.more {
      ContinueWorks(s1, r.slot, r);
    } else {
      FinishOnlyFis(s1, r.slot, Fails(s));
      HandlePortKeeps(CbFinish(s1, r.slot, Fails(s)));
    }
  }

  lemma {:induction false} DrainAhead(s: Ahci, x: Bit, left: seq<IoOp>, fin: nat) returns (left': seq<IoOp>)
    requires Core(s, {}) && s.q.busy == [] && Driven(s) && !s.rdonly && CMD_ST in s.regs.cmd && Ahead(s, x, left, fin)
    ensures |Drain(s).table| == 32 && |Drain(s).prdbc| == 32 && Ahead(Drain(s), x, left', fin)
    ensures OwnedBy(DrainTrace(s), x) + left' == left
    decreases ToIssue(s), Work(s.ioreqs, s.iobhd)
  {
    if s.q.pend == [] {
      left' := left;
    } else {
      HeadFlight(s);
      RoundKeeps(s);
      RoundOwes(s);
      RoundFrame(s);
      RoundKeepsCmd(s);
      RoundAhead(s, x, left, fin);
      left' := DrainAhead(Round(s), x, LeftAfter(s, x, left), fin);
      OwnedByStep(Executed(s, s.q.pend[0]), DrainTrace(Round(s)), x);
      ConcatAssoc(OwnedBy(Executed(s, s.q.pend[0]), x), OwnedBy(DrainTrace(Round(s)), x), left');
    }
  }

  ghost predicate Served(s: Ahci, x: Bit, left: seq<IoOp>, fin: nat)
    requires Core(s, {}) && s.q.busy == [] && Driven(s)
  {
    OwnedBy(DrainTrace(s), x) == left && |Drain(s).prdbc| == 32 && Drain(s).prdbc[x] == fin
  }

  lemma {:induction false} DrainKeepsCmd(s: Ahci)
    requires Core(s, {}) && s.q.busy == [] && Driven(s) && CMD_ST in s.regs.cmd
    ensures Drain(s).regs.cmd == s.regs.cmd
    decreases ToIssue(s), Work(s.ioreqs, s.iobhd)
  {
    if s.q.pend != [] {
      RoundKeeps(s);
      RoundOwes(s);
      RoundKeepsCmd(s);
      DrainKeepsCmd(Round(s));
    }
  }

  lemma NothingTaken(a: seq<IoOp>, left: seq<IoOp>)
    requires a + left == left
    ensures a == []
  {
    assert |a + left| == |a| + |left|;
  }

  lemma AllTaken(a: seq<IoOp>, left: seq<IoOp>)
    requires a + [] == left
    ensures a == left
  {
  }
}
