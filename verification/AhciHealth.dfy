/**
 A port on which nothing has failed: after a drain no command waits and none is in flight.
 */
module AhciHealth {
  import opened BlockQueue
  import opened Interrupts
  import opened AhciIov
  import opened DiskTransfer
  import opened AhciSpec
  import opened AhciRuns
  import opened AhciIssue
  import opened AhciDrain
  import opened AhciWork
  import opened AhciDelivery
  import opened AhciSteps
  import opened AhciService

  ghost predicate NonNcqPending(s: Ahci)
    requires |s.table| == 32
  {
    exists t :: t in s.regs.pending && !IsNcq(s.table[t])
  }

  // The port runs, and is busy only on behalf of a command in flight.
  ghost predicate Running(s: Ahci)
    requires |s.table| == 32
  {
    && CMD_ST in s.regs.cmd && !s.regs.waitforclear && !s.rdonly
    && (TFD_BUSY in s.regs.tfd || TFD_DRQ in s.regs.tfd ==> NonNcqPending(s))
  }

  // Nothing that will fail is issued.
  ghost predicate Healthy(s: Ahci)
    requires |s.table| == 32
  {
    Running(s) && forall t :: t in s.regs.ci ==> s.table[t] != Sync(false)
  }

  // ----- the issue loop

  lemma RwRuns(s: Ahci, slot: Bit, c: Command)
    requires |s.table| == 32 && CanIssue(s) && Running(s) && Live(s) && c == s.table[slot] && c.Rw?
    ensures Running(HandleCmd(s, slot, c))
  {
    var s1 := s.(regs := s.regs.(tfd := s.regs.tfd + {TFD_BUSY}));
    RwIsLaunch(s1, slot, 0);
    var r := HandleCmd(s, slot, c);
    assert slot in r.regs.pending;
  }

  lemma CmdRuns(s: Ahci, slot: Bit, c: Command)
    requires |s.table| == 32 && CanIssue(s) && Running(s) && Live(s)
    requires c == s.table[slot] && (c.FlushCache? || c == Sync(true))
    ensures Running(HandleCmd(s, slot, c))
  {
    if c.FlushCache? { assert slot in HandleCmd(s, slot, c).regs.pending; }
  }

  lemma SlotRuns(s: Ahci, slot: Bit)
    requires |s.table| == 32 && CanIssue(s) && Running(s) && Live(s) && s.table[slot] != Sync(false)
    ensures |HandleSlot(s, slot).table| == 32 && Running(HandleSlot(s, slot))
  {
    var c := s.table[slot];
    if c.Rw? {
      RwRuns(s, slot, c);
    } else if c.FlushCache? || c.Sync? {
      CmdRuns(s, slot, c);
    }
  }

  lemma IterHealthy(s: Ahci)
    requires Core(s, {}) && CanIssue(s) && !Stopped(s) && Healthy(s)
    ensures |PortIter(s).table| == 32 && Healthy(PortIter(s))
  {
    IterEffect(s);
    if s.regs.ccs in Issuable(s) { SlotRuns(s.(regs := s.regs.(cmdCcs := s.regs.ccs)), s.regs.ccs); }
  }

  lemma {:induction false} HandlePortHealthy(s: Ahci)
    requires Core(s, {}) && Halting(s) && Healthy(s)
    ensures |HandlePort(s).table| == 32 && Healthy(HandlePort(s))
    decreases Rank0(s), Rank1(s), Rank2(s)
  {
    if !Stopped(s) {
      NeverExhausted(s, {});
      IterProgress(s);
      IterHealthy(s);
      HandlePortHealthy(PortIter(s));
    }
  }

  // ----- the worker

  lemma FinishHealthy(s: Ahci, slot: Bit)
    requires |s.table| == 32 && Healthy(s)
    ensures |CbFinish(s, slot, false).table| == 32 && Healthy(CbFinish(s, slot, false))
  {
    FinishOnlyFis(s, slot, false);
    var s1 := FinishFis(s, slot, false);
    var r := CbFinish(s, slot, false);
    if IsNcq(s.table[slot]) && NonNcqPending(s) {
      var t :| t in s.regs.pending && !IsNcq(s.table[t]);
      assert t in r.regs.pending;
    }
  }

  lemma CalledHealthy(s: Ahci)
    requires Ready(s) && Driven(s) && Healthy(s)
    ensures |Called(s).table| == 32 && Healthy(Called(s))
  {
    ReleasedWorks(s);
    CalledIs(s);
    var r, s1 := HeadRequest(s), Released(s);
    assert s1.rdonly == s.rdonly;
    if r.more {
      ContinueWorks(s1, r.slot, r);
      RwIsLaunch(s1, r.slot, r.done);
    } else {
      FinishHealthy(s1, r.slot);
      HandlePortHealthy(CbFinish(s1, r.slot, false));
    }
  }

  lemma {:induction false} DrainHealthy(s: Ahci)
    requires Core(s, {}) && s.q.busy == [] && Driven(s) && Healthy(s)
    ensures |Drain(s).table| == 32 && Healthy(Drain(s))
    decreases ToIssue(s), Work(s.ioreqs, s.iobhd)
  {
    if s.q.pend != [] {
      RoundKeeps(s);
      RoundOwes(s);
      CallbackKeeps(s);
      CalledHealthy(s);
      DrainHealthy(Round(s));
    }
  }

  /** The drain of a healthy port issues and completes every command, and executes
      whatever is left of every transfer, in order, with its end in PRDBC. */
  lemma HealthyDrain(s: Ahci)
    requires Settled(s) && Healthy(s)
    ensures Settled(Drain(s)) && Healthy(Drain(s)) && Drain(s).regs.ci == {} && Drain(s).regs.pending == {}
    ensures forall x: Bit, left, fin :: Ahead(s, x, left, fin) ==> Served(s, x, left, fin)
  {
    DrainHealthy(s);
    DrainCompletes(s);
    assert Issuable(Drain(s)) == {};
    forall x: Bit, left, fin | Ahead(s, x, left, fin) ensures Served(s, x, left, fin) {
      var left' := DrainAhead(s, x, left, fin);
      AllTaken(OwnedBy(DrainTrace(s), x), left);
    }
  }
}
