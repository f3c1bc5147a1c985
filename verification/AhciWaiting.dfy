/**
 Which waiting transfers a drain leaves waiting: exactly those on a port that is stuck, or
 behind a command that will fail.
 */
module AhciWaiting {
  import opened BlockQueue
  import opened Interrupts
  import opened AhciIov
  import opened DiskTransfer
  import opened AhciSpec
  import opened AhciRuns
  import opened AhciIssue
  import opened AhciDrain
  import opened AhciWork
  import opened AhciDelivery
  import opened AhciSteps
  import opened AhciService
  import opened AhciHealth

  // An error is latched, or the device is busy and no command in flight will clear that.
  ghost predicate Stuck(s: Ahci)
    requires |s.table| == 32
  {
    s.regs.waitforclear || ((TFD_BUSY in s.regs.tfd || TFD_DRQ in s.regs.tfd) && !NonNcqPending(s))
  }

  // Slot t holds a command that will fail, and comes before x.
  predicate Precedes(s: Ahci, t: Bit, x: Bit)
    requires |s.table| == 32
  {
    t in s.regs.ci && s.table[t] == Sync(false) && Distance(s.regs.ccs, t) < Distance(s.regs.ccs, x)
  }

  ghost predicate FailsFirst(s: Ahci, x: Bit)
    requires |s.table| == 32
  {
    exists t: Bit :: Precedes(s, t, x)
  }

  // Slot x will not be issued.
  ghost predicate Starves(s: Ahci, x: Bit)
    requires |s.table| == 32
  {
    Stuck(s) || FailsFirst(s, x)
  }

  lemma RunningIff(s: Ahci)
    requires |s.table| == 32 && CMD_ST in s.regs.cmd && !s.rdonly
    ensures Running(s) <==> !Stuck(s)
  {
  }

  // ----- the issue loop

  // A command in flight is a transfer or a flush.
  lemma PendingKind(s: Ahci, t: Bit)
    requires Core(s, {}) && t in s.regs.pending
    ensures s.table[t].Rw? || s.table[t].FlushCache?
  {
    assert t in multiset(s.regs.pending);
    assert t in multiset(SlotsOf(s.ioreqs, s.iobhd));
    var k :| 0 <= k < |s.iobhd| && SlotsOf(s.ioreqs, s.iobhd)[k] == t;
    var i := |s.iobhd| - 1 - k;
    assert Flight(s.q.pend[i], s.iobhd[|s.iobhd| - 1 - i], s.ioreqs, s.table);
  }

  lemma DistanceStep(c: Bit, t: Bit)
    requires t != c
    ensures Distance(NextSlot(c), t) == Distance(c, t) - 1
  {
  }

  // The pointer moves on by one; the slot it leaves behind did not fail.
  lemma PointerMoves(s: Ahci, r: Ahci, x: Bit)
    requires |s.table| == 32 && r.table == s.table && r.regs.ccs == NextSlot(s.regs.ccs) && s.regs.ccs != x
    requires s.regs.ccs in s.regs.ci ==> s.table[s.regs.ccs] != Sync(false)
    requires forall t: Bit :: t != s.regs.ccs ==> (t in r.regs.ci <==> t in s.regs.ci)
    ensures FailsFirst(r, x) <==> FailsFirst(s, x)
  {
    DistanceStep(s.regs.ccs, x);
    forall t: Bit ensures Precedes(r, t, x) <==> Precedes(s, t, x) {
      if t != s.regs.ccs { DistanceStep(s.regs.ccs, t); }
    }
  }

  lemma IterKeepsOthers(s: Ahci, t: Bit)
    requires Core(s, {}) && CanIssue(s) && t != s.regs.ccs
    ensures t in PortIter(s).regs.ci <==> t in s.regs.ci
  {
    if s.regs.ccs in Issuable(s) { SlotOther(s.(regs := s.regs.(cmdCcs := s.regs.ccs)), s.regs.ccs, t); }
  }

  // A turn that issues nothing, or something that does not fail.
  lemma IterRuns(s: Ahci)
    requires Core(s, {}) && CanIssue(s) && !Stopped(s) && Running(s)
    requires s.regs.ccs in Issuable(s) ==> s.table[s.regs.ccs] != Sync(false)
    ensures |PortIter(s).table| == 32 && Running(PortIter(s))
  {
    if s.regs.ccs in Issuable(s) { SlotRuns(s.(regs := s.regs.(cmdCcs := s.regs.ccs)), s.regs.ccs); }
  }

  lemma FailingJams(s: Ahci)
    requires Core(s, {}) && CanIssue(s) && !Stopped(s) && Driven(s)
    requires s.regs.ccs in Issuable(s) && s.table[s.regs.ccs] == Sync(false)
    ensures PortIter(s).regs.waitforclear
  {
    assert !Hangs(s, s.regs.ccs);
  }

  lemma IterIssues(s: Ahci)
    requires Core(s, {}) && CanIssue(s) && !Stopped(s) && Waits(s, s.regs.ccs)
    ensures s.regs.ccs in PortIter(s).regs.pending
  {
    var s1 := s.(regs := s.regs.(cmdCcs := s.regs.ccs, tfd := s.regs.tfd + {TFD_BUSY}));
    RwIsLaunch(s1, s.regs.ccs, 0);
  }

  lemma IterStarves(s: Ahci, x: Bit)
    requires Core(s, {}) && CanIssue(s) && !Stopped(s) && Driven(s) && !s.rdonly && Waits(s, x)
    ensures |PortIter(s).table| == 32
    ensures Waits(PortIter(s), x) ==> (Starves(PortIter(s), x) <==> Starves(s, x))
    ensures Starves(s, x) ==> Waits(PortIter(s), x)
  {
    var t := s.regs.ccs;
    IterEffect(s);
    if t == x {
      IterIssues(s);
    } else {
      IterWaits(s, x);
      if t in s.regs.ci && s.table[t] == Sync(false) {
        if t in s.regs.pending { PendingKind(s, t); }
        FailingJams(s);
        assert Precedes(s, t, x);
      } else {
        forall u: Bit | u != t ensures u in PortIter(s).regs.ci <==> u in s.regs.ci { IterKeepsOthers(s, u); }
        PointerMoves(s, PortIter(s), x);
        RunningIff(s);
        IterRuns(s);
        RunningIff(PortIter(s));
      }
    }
  }

  // Once issued, x does not wait again.
  lemma IterAheadOf(s: Ahci, x: Bit)
    requires Core(s, {}) && CanIssue(s) && !Stopped(s) && Waits(s, x)
    ensures var r := PortIter(s); |r.table| == 32 && |r.prdbc| == 32
    ensures !Waits(PortIter(s), x) ==> Tracks(PortIter(s), x, RoundsFrom(x, s.table[x], 0), EndFrom(s.table[x], 0))
  {
    IterAhead(s, x, RoundsFrom(x, s.table[x], 0), EndFrom(s.table[x], 0));
  }

  lemma TrackedDoesNotWait(s: Ahci, x: Bit, left: seq<IoOp>, fin: nat)
    requires |s.table| == 32 && |s.prdbc| == 32 && Tracks(s, x, left, fin)
    ensures !Waits(s, x)
  {
  }

  lemma {:induction false} HandlePortStarves(s: Ahci, x: Bit)
    requires Core(s, {}) && Halting(s) && Driven(s) && !s.rdonly && Waits(s, x)
    ensures |HandlePort(s).table| == 32
    ensures Waits(HandlePort(s), x) ==> (Starves(HandlePort(s), x) <==> Starves(s, x))
    ensures Starves(s, x) ==> Waits(HandlePort(s), x)
    decreases Rank0(s), Rank1(s), Rank2(s)
  {
    HandlePortKeeps(s);
    if !Stopped(s) {
      NeverExhausted(s, {});
      IterProgress(s);
      IterEffect(s);
      IterStarves(s, x);
      IterAheadOf(s, x);
      var r := PortIter(s);
      if Waits(r, x) {
        HandlePortStarves(r, x);
      } else {
        HandlePortTracks(r, x, RoundsFrom(x, s.table[x], 0), EndFrom(s.table[x], 0));
        TrackedDoesNotWait(HandlePort(r), x, RoundsFrom(x, s.table[x], 0), EndFrom(s.table[x], 0));
      }
    }
  }

  // ----- the worker

  lemma SameFailures(s: Ahci, r: Ahci, x: Bit)
    requires |s.table| == 32 && r.table == s.table && r.regs.ccs == s.regs.ccs
    requires forall t: Bit :: s.table[t] == Sync(false) ==> (t in r.regs.ci <==> t in s.regs.ci)
    ensures FailsFirst(r, x) <==> FailsFirst(s, x)
  {
    forall t: Bit ensures Precedes(r, t, x) <==> Precedes(s, t, x) {}
  }

  lemma FinishStuck(s: Ahci, y: Bit)
    requires |s.table| == 32 && CMD_ST in s.regs.cmd && y in s.regs.pending
    ensures var f := CbFinish(s, y, false); |f.table| == 32 && (Stuck(f) <==> Stuck(s)) && f.regs.ccs == s.regs.ccs
  {
    var f := CbFinish(s, y, false);
    FinishOnlyFis(s, y, false);
    if IsNcq(s.table[y]) {
      assert f.regs.pending == s.regs.pending - {y};
      assert NonNcqPending(f) <==> NonNcqPending(s);
    }
  }

  lemma FinishStarves(s: Ahci, y: Bit, x: Bit)
    requires |s.table| == 32 && |s.prdbc| == 32 && CMD_ST in s.regs.cmd && y in s.regs.pending && x != y && Waits(s, x)
    requires s.table[y] != Sync(false)
    ensures var f := CbFinish(s, y, false); |f.table| == 32 && Waits(f, x) && (Starves(f, x) <==> Starves(s, x))
  {
    var f := CbFinish(s, y, false);
    FinishStuck(s, y);
    FinishOther(s, y, false, x);
    FinishOnlyFis(s, y, false);
    forall t: Bit | s.table[t] == Sync(false) ensures t in f.regs.ci <==> t in s.regs.ci {
      FinishOther(s, y, false, t);
    }
    SameFailures(s, f, x);
  }

  // What a step does to a waiting slot that starves, and to one that does not.
  ghost predicate Fates(s: Ahci, r: Ahci, x: Bit) {
    && |s.table| == 32 && |r.table| == 32
    && (Waits(r, x) ==> (Starves(r, x) <==> Starves(s, x)))
    && (Starves(s, x) ==> Waits(r, x))
  }

  lemma FatesJoin(s: Ahci, m: Ahci, r: Ahci, x: Bit)
    requires |s.table| == 32 && |m.table| == 32 && Waits(m, x) && (Starves(m, x) <==> Starves(s, x)) && Fates(m, r, x)
    ensures Fates(s, r, x)
  {
  }

  // Only registers, commands and the disk's mode count.
  lemma SameFate(s: Ahci, t: Ahci, x: Bit)
    requires |s.table| == 32 && Waits(s, x) && t.table == s.table && t.regs == s.regs
    ensures Waits(t, x) && (Starves(t, x) <==> Starves(s, x))
  {
    forall u: Bit ensures Precedes(t, u, x) <==> Precedes(s, u, x) {}
  }

  lemma FinishFate(s1: Ahci, y: Bit, x: Bit)
    requires Core(s1, {y}) && Driven(s1) && CMD_ST in s1.regs.cmd && !s1.rdonly && y in s1.regs.pending && x != y
    requires Waits(s1, x) && s1.table[y] != Sync(false)
    requires var f := CbFinish(s1, y, false); Core(f, {}) && Halting(f) && Driven(f)
    ensures Fates(s1, HandlePort(CbFinish(s1, y, false)), x)
  {
    var f := CbFinish(s1, y, false);
    FinishStarves(s1, y, x);
    FinishFrame(s1, y, false);
    HandlePortStarves(f, x);
    FatesJoin(s1, f, HandlePort(f), x);
  }

  lemma ContinueFate(s1: Ahci, r: Ioreq, x: Bit)
    requires Core(s1, {r.slot}) && CanIssue(s1) && s1.table[r.slot].Rw? && Waits(s1, x)
    requires r.more && r.len == s1.table[r.slot].count * SECTOR && 0 < r.done <= r.len && r.done % SECTOR == 0
    requires FitFrom(s1.table[r.slot], r.done)
    ensures Fates(s1, HandleRw(s1, r.slot, s1.table[r.slot], r.done), x)
  {
    ContinueWorks(s1, r.slot, r);
    RwIsLaunch(s1, r.slot, r.done);
    SameFate(s1, HandleRw(s1, r.slot, s1.table[r.slot], r.done), x);
  }

  lemma CalledFate(s: Ahci, x: Bit)
    requires Ready(s) && Driven(s) && CMD_ST in s.regs.cmd && !s.rdonly && Waits(s, x)
    ensures Fates(s, Called(s), x)
  {
    HeadPending(s);
    ReleasedWorks(s);
    ReleasedSame(s);
    CalledIs(s);
    var r, s1 := HeadRequest(s), Released(s);
    PendingKind(s, r.slot);
    SameFate(s, s1, x);
    assert s1.rdonly == s.rdonly && !Fails(s);
    if r.more {
      ContinueFate(s1, r, x);
    } else {
      FinishFate(s1, r.slot, x);
    }
    FatesJoin(s, s1, Called(s), x);
  }

  lemma RoundFate(s: Ahci, x: Bit)
    requires Ready(s) && Driven(s) && CMD_ST in s.regs.cmd && !s.rdonly && Waits(s, x)
    ensures Fates(s, Round(s), x)
    ensures |Round(s).prdbc| == 32
    ensures !Waits(Round(s), x) ==>
              exists left, fin :: Tracks(Round(s), x, left, fin)
  {
    CallbackKeeps(s);
    CalledFate(s, x);
    if Waits(Called(s), x) { SameFate(Called(s), Round(s), x); }
    RoundAhead(s, x, RoundsFrom(x, s.table[x], 0), EndFrom(s.table[x], 0));
    if !Waits(Round(s), x) {
      assert Tracks(Round(s), x, LeftAfter(s, x, RoundsFrom(x, s.table[x], 0)), EndFrom(s.table[x], 0));
    }
  }

  lemma {:induction false} DrainFate(s: Ahci, x: Bit)
    requires Core(s, {}) && s.q.busy == [] && Driven(s) && CMD_ST in s.regs.cmd && !s.rdonly && Waits(s, x)
    ensures Fates(s, Drain(s), x)
    decreases ToIssue(s), Work(s.ioreqs, s.iobhd)
  {
    if s.q.pend != [] {
      RoundKeeps(s);
      RoundOwes(s);
      RoundFrame(s);
      RoundKeepsCmd(s);
      RoundFate(s, x);
      if Waits(Round(s), x) {
        DrainFate(Round(s), x);
      } else {
        var left, fin :| Tracks(Round(s), x, left, fin);
        DrainForgets(Round(s), x, left, fin);
      }
    }
  }

  // A transfer in flight does not wait when the drain is over.
  lemma DrainForgets(s: Ahci, x: Bit, left: seq<IoOp>, fin: nat)
    requires Core(s, {}) && s.q.busy == [] && Driven(s) && CMD_ST in s.regs.cmd && !s.rdonly
    requires Tracks(s, x, left, fin)
    ensures |Drain(s).table| == 32 && !Waits(Drain(s), x)
  {
    TracksAhead(s, x, left, fin);
    var left' := DrainAhead(s, x, left, fin);
    DrainTracks(s, x, left, fin);
    assert |left + left'| == |left| + |left'|;
    if Waits(Drain(s), x) { SomeRound(x, Drain(s).table[x]); }
  }

  /** A slot that waits while other commands keep the device busy: the drain executes its
      transfer whole, in order, and reports its end, exactly unless the port is stuck or a
      command that will fail comes before it; then the slot still waits, untouched. */
  lemma DrainServesIff(s: Ahci, x: Bit)
    requires Settled(s) && !s.rdonly && CMD_ST in s.regs.cmd && Waits(s, x)
    ensures |Drain(s).table| == 32 && (Waits(Drain(s), x) <==> Starves(s, x))
    ensures Starves(s, x) ==> OwnedBy(DrainTrace(s), x) == []
    ensures !Starves(s, x) ==> Served(s, x, RoundsFrom(x, s.table[x], 0), EndFrom(s.table[x], 0))
  {
    var left := DrainAhead(s, x, RoundsFrom(x, s.table[x], 0), EndFrom(s.table[x], 0));
    DrainCompletes(s);
    DrainKeepsCmd(s);
    DrainFate(s, x);
    if Waits(Drain(s), x) {
      NothingTaken(OwnedBy(DrainTrace(s), x), left);
      assert x in Issuable(Drain(s));
      assert Stuck(Drain(s));
    } else {
      AllTaken(OwnedBy(DrainTrace(s), x), RoundsFrom(x, s.table[x], 0));
    }
  }

  // ----- a run that starves a slot

  function Started(table: seq<Command>): Ahci
    requires |table| == 32
  {
    PowerOnSettled(table);
    RegWriteSpec(PowerOn(table), PxCMD({CMD_ST, CMD_FRE}))
  }

  lemma StartedIs(table: seq<Command>)
    requires |table| == 32
    ensures var s := Started(table);
            && Settled(s) && s.table == table && !s.rdonly && CMD_ST in s.regs.cmd && FisOn(s)
            && s.regs.ccs == 0 && s.regs.ci == {} && s.regs.pending == {}
  {
    PowerOnSettled(table);
    RegWriteKeeps(PowerOn(table), PxCMD({CMD_ST, CMD_FRE}));
    CmdWriteKeeps(PowerOn(table), {CMD_ST, CMD_FRE});
    assert Issuable(CmdWrite(PowerOn(table), {CMD_ST, CMD_FRE})) == {};
  }

  // Slot 0 will fail, slot 1 holds a transfer, and both are written to PxCI.
  const ToStarve := [WriteReg(PxCMD({CMD_ST, CMD_FRE})), WriteReg(PxCI({0, 1}))]

  /** A slot can starve: behind a command that fails it is not served by any drain. */
  lemma SlotStarves(table: seq<Command>)
    requires |table| == 32 && table[0] == Sync(false) && table[1].Rw? && GoodCommand(table[1])
    ensures RunsFromPowerOn(table, ToStarve)
    ensures var s := Reached(table, ToStarve);
            && Settled(s) && |s.table| == 32 && Starves(s, 1) && |Drain(s).table| == 32 && Waits(Drain(s), 1)
            && OwnedBy(DrainTrace(s), 1) == []
  {
    StartedIs(table);
    PowerOnSettled(table);
    var s1 := Started(table);
    var s2 := s1.(regs := s1.regs.(ci := s1.regs.ci + {0, 1}));
    assert AllowedWrite(s1, PxCI({0, 1}));
    WriteStartKeeps(s1, PxCI({0, 1}));
    DrivenHalts(s2);
    assert Precedes(s2, 0, 1);
    HandlePortStarves(s2, 1);
    HandlePortKeeps(s2);
    var s := HandlePort(s2);
    RegWriteKeeps(s1, PxCI({0, 1}));
    ReachedIs(table, s1, s);
    DrainServesIff(s, 1);
  }

  lemma ReachedIs(table: seq<Command>, s1: Ahci, s: Ahci)
    requires |table| == 32 && Settled(PowerOn(table)) && s1 == Started(table) && Settled(s1)
    requires AllowedWrite(s1, PxCI({0, 1})) && s == RegWriteSpec(s1, PxCI({0, 1})) && Settled(s)
    ensures RunsFromPowerOn(table, ToStarve) && Reached(table, ToStarve) == s
  {
    var s0 := PowerOn(table);
    assert ToStarve[1..] == [WriteReg(PxCI({0, 1}))] && ToStarve[1..][1..] == [];
    assert AllowedRun(s, []);
    assert AllowedRun(s1, ToStarve[1..]);
    assert AllowedRun(s0, ToStarve);
    assert RunSteps(s1, ToStarve[1..]) == s;
  }
}
