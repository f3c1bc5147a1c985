/**
 From a guest's command to its bytes: in every state that guest and worker can reach,
 the next drain delivers each transfer that is waiting or in flight.
 */
module AhciEndToEnd {
  import opened BlockQueue
  import opened Interrupts
  import opened AhciIov
  import opened DiskTransfer
  import opened AhciSpec
  import opened AhciRuns
  import opened AhciIssue
  import opened AhciDrain
  import opened AhciWork
  import opened AhciDelivery
  import opened AhciSteps
  import opened AhciService
  import opened AhciHealth
  import opened AhciReach

  // The transfer of slot x is active, and all of it is ahead.
  ghost predicate Whole(s: Ahci, x: Bit) {
    && |s.table| == 32 && |s.prdbc| == 32 && x in Active(s) && s.table[x].Rw? && GoodCommand(s.table[x])
    && Ahead(s, x, RoundsFrom(x, s.table[x], 0), EndFrom(s.table[x], 0))
  }

  // Slot x has been written to PxCI again while its queued command was in flight.
  predicate Again(s: Ahci, x: Bit)
    requires |s.table| == 32
  {
    x in s.regs.pending && x in s.regs.ci && IsNcq(s.table[x])
  }

  ghost predicate Fresh(s: Ahci)
    requires |s.table| == 32
  {
    forall x: Bit :: x in Active(s) && s.table[x].Rw? && !Again(s, x) ==> Whole(s, x)
  }

  // ----- every step keeps transfers whole

  lemma WaitingIsWhole(s: Ahci, x: Bit)
    requires Core(s, {}) && x in s.regs.ci && x !in s.regs.pending && s.table[x].Rw?
    ensures Whole(s, x)
  {
  }

  lemma IdleFresh(s: Ahci)
    requires Core(s, {}) && s.regs.pending == {}
    ensures Fresh(s)
  {
    forall x: Bit | x in Active(s) && s.table[x].Rw? && !Again(s, x) ensures Whole(s, x) { WaitingIsWhole(s, x); }
  }

  lemma TracksSide(s: Ahci, t: Ahci, x: Bit, left: seq<IoOp>, fin: nat)
    requires |s.table| == 32 && |s.prdbc| == 32 && Tracks(s, x, left, fin) && x in s.regs.pending
    requires |t.table| == 32 && t.table[x] == s.table[x] && t.prdbc == s.prdbc && t.ioreqs == s.ioreqs
    requires t.iobhd == s.iobhd && t.regs.pending == s.regs.pending && !Again(t, x)
    ensures Tracks(t, x, left, fin)
  {
    var k: nat :| Carries(s, x, k, left, fin);
    assert Carries(t, x, k, left, fin);
  }

  lemma SideFresh(s: Ahci, t: Ahci)
    requires Core(s, {}) && Fresh(s) && Core(t, {}) && s.regs.ci <= t.regs.ci
    requires forall x: Bit :: x in Active(s) ==> t.table[x] == s.table[x]
    requires t.prdbc == s.prdbc && t.ioreqs == s.ioreqs && t.iobhd == s.iobhd && t.regs.pending == s.regs.pending
    ensures Fresh(t)
  {
    forall x: Bit | x in Active(t) && t.table[x].Rw? && !Again(t, x) ensures Whole(t, x) {
      if x in s.regs.pending {
        assert Whole(s, x);
        TracksSide(s, t, x, RoundsFrom(x, s.table[x], 0), EndFrom(s.table[x], 0));
      } else {
        WaitingIsWhole(t, x);
      }
    }
  }

  lemma IterAgain(s: Ahci, x: Bit)
    requires Core(s, {}) && CanIssue(s) && !Stopped(s) && Again(s, x)
    ensures |PortIter(s).table| == 32 && Again(PortIter(s), x)
  {
    if s.regs.ccs in Issuable(s) { SlotOther(s.(regs := s.regs.(cmdCcs := s.regs.ccs)), s.regs.ccs, x); }
  }

  lemma {:induction false} HandlePortAgain(s: Ahci, x: Bit)
    requires Core(s, {}) && Halting(s) && Again(s, x)
    ensures |HandlePort(s).table| == 32 && Again(HandlePort(s), x)
    decreases Rank0(s), Rank1(s), Rank2(s)
  {
    if !Stopped(s) {
      NeverExhausted(s, {});
      IterProgress(s);
      IterAgain(s, x);
      HandlePortAgain(PortIter(s), x);
    }
  }

  lemma HandlePortFresh(s: Ahci)
    requires Core(s, {}) && Halting(s) && Fresh(s)
    ensures |HandlePort(s).table| == 32 && Fresh(HandlePort(s))
  {
    HandlePortKeeps(s);
    HandlePortActive(s);
    var r := HandlePort(s);
    forall x: Bit | x in Active(r) && r.table[x].Rw? && !Again(r, x) ensures Whole(r, x) {
      if Again(s, x) { HandlePortAgain(s, x); }
      assert Whole(s, x);
      HandlePortAhead(s, x, RoundsFrom(x, s.table[x], 0), EndFrom(s.table[x], 0));
    }
  }

  lemma WriteIsSide(s: Ahci, w: RegWrite)
    requires Quiet(s) && !(w.PxCMD? && CMD_ST !in w.v)
    ensures var t := WriteStart(s, w);
            && t.table == s.table && t.prdbc == s.prdbc && t.ioreqs == s.ioreqs && t.iobhd == s.iobhd
            && t.regs.pending == s.regs.pending && s.regs.ci <= t.regs.ci
  {
    if w.PxCMD? { CmdFlagsKeep(CmdStart(s, w.v).regs, w.v); }
  }

  lemma WriteStartFresh(s: Ahci, w: RegWrite)
    requires Settled(s) && Fresh(s) && AllowedWrite(s, w)
    ensures Core(WriteStart(s, w), {}) && Fresh(WriteStart(s, w))
  {
    WriteStartKeeps(s, w);
    if w.PxCMD? && CMD_ST !in w.v {
      CmdWriteKeeps(s, w.v);
      IdleFresh(WriteStart(s, w));
    } else {
      WriteIsSide(s, w);
      SideFresh(s, WriteStart(s, w));
    }
  }

  lemma WriteFresh(s: Ahci, w: RegWrite)
    requires Settled(s) && Fresh(s) && AllowedWrite(s, w)
    ensures |RegWriteSpec(s, w).table| == 32 && Fresh(RegWriteSpec(s, w))
  {
    WriteStartKeeps(s, w);
    DrivenHalts(WriteStart(s, w));
    WriteStartFresh(s, w);
    if w.PxCMD? || w.PxCI? { HandlePortFresh(WriteStart(s, w)); }
  }

  lemma StepFresh(s: Ahci, st: Step)
    requires Settled(s) && Fresh(s) && Allowed(s, st)
    ensures |StepSpec(s, st).table| == 32 && Fresh(StepSpec(s, st))
  {
    match st {
      case WriteReg(w) => WriteFresh(s, w);
      case Store(slot, c) =>
        StoreKeeps(s, slot, c);
        SideFresh(s, s.(table := s.table[slot := c]));
      case Worker =>
        DrainCompletes(s);
        IdleFresh(Drain(s));
    }
  }

  lemma {:induction false} RunsFresh(s: Ahci, steps: seq<Step>)
    requires Settled(s) && Fresh(s) && AllowedRun(s, steps)
    ensures Settled(RunSteps(s, steps)) && Fresh(RunSteps(s, steps))
    decreases |steps|
  {
    if steps != [] {
      StepKeeps(s, steps[0]);
      StepFresh(s, steps[0]);
      RunsFresh(StepSpec(s, steps[0]), steps[1..]);
    }
  }

  // ----- and the next drain delivers them

  // What the guest must see to for the transfer of slot x to arrive: it is not empty, its
  // PRDT covers it with distinct buffers, and nobody's bytes are out of reach or in its way.
  ghost predicate Deliverable(s: Ahci, x: Bit, m: Memory)
    requires |s.table| == 32 && s.table[x].Rw?
  {
    var t := TransferOf(x, s.table[x]);
    && 0 < t.len <= |Stream(t.prdt)| && Distinct(Buffer(t))
    && AllReach(s, m) && OthersApart(s, x)
  }

  // Slot x is active with a transfer to deliver.
  ghost predicate Delivers(s: Ahci, x: Bit, m: Memory)
    requires |s.table| == 32
  {
    x in Active(s) && s.table[x].Rw? && !Again(s, x) && Deliverable(s, x, m)
  }

  // The transfer of slot x has arrived when s has been drained from memory m.
  ghost predicate Arrives(s: Ahci, x: Bit, m: Memory)
    requires Core(s, {}) && s.q.busy == [] && Driven(s) && s.table[x].Rw?
  {
    && AllValid(DrainTrace(s), m) && Delivered(m, ExecAll(m, DrainTrace(s)), TransferOf(x, s.table[x]))
    && |Drain(s).prdbc| == 32 && Drain(s).prdbc[x] == s.table[x].count * SECTOR
  }

  lemma FlatArrives(m: Memory, ops: seq<IoOp>, c: Command, x: Bit, fin: nat)
    requires c.Rw? && GoodCommand(c) && 0 < c.count * SECTOR <= |Stream(c.prdt)| && Distinct(Buffer(TransferOf(x, c)))
    requires Reaches(TransferOf(x, c), m) && AllValid(ops, m) && OthersLeaveAlone(ops, TransferOf(x, c))
    requires OwnedBy(ops, x) == RoundsFrom(x, c, 0) && fin == EndFrom(c, 0)
    ensures Delivered(m, ExecAll(m, ops), TransferOf(x, c)) && fin == c.count * SECTOR
  {
    var t := TransferOf(x, c);
    forall k | 0 <= k < t.len ensures Buffer(t)[k] < |m.ram| { assert Buffer(t)[k] in Buffer(t); }
    ChunkedEqualsFlat(m, ops, t);
    ReachesLen(c.prdt, c.count * SECTOR, 0);
  }

  lemma ServedArrives(s: Ahci, x: Bit, m: Memory)
    requires Core(s, {}) && s.q.busy == [] && Driven(s) && x in Active(s) && s.table[x].Rw? && Deliverable(s, x, m)
    requires GoodCommand(s.table[x]) && Served(s, x, RoundsFrom(x, s.table[x], 0), EndFrom(s.table[x], 0))
    ensures Arrives(s, x, m)
  {
    DrainValid(s, m);
    DrainApart(s, x);
    FlatArrives(m, DrainTrace(s), s.table[x], x, Drain(s).prdbc[x]);
  }

  /** The drain delivers every whole transfer as one flat copy, with PRDBC at its length: one
      in flight whatever else happens, and one that waits for another's completion if
      nothing on the port has failed. */
  lemma DrainDelivers(s: Ahci, x: Bit, m: Memory)
    requires Settled(s) && Whole(s, x) && Deliverable(s, x, m)
    requires Healthy(s) || (x in s.regs.pending && !s.rdonly)
    ensures Arrives(s, x, m)
  {
    if Healthy(s) {
      HealthyDrain(s);
    } else {
      DrainTracks(s, x, RoundsFrom(x, s.table[x], 0), EndFrom(s.table[x], 0));
    }
    ServedArrives(s, x, m);
  }

  // s with v written to PxCI, before the issue loop.
  function Written(s: Ahci, v: Bits): Ahci { s.(regs := s.regs.(ci := s.regs.ci + v)) }

  lemma IssueHealthy(s: Ahci, v: Bits)
    requires Settled(s) && Healthy(s) && AllowedWrite(s, PxCI(v)) && forall t :: t in v ==> s.table[t] != Sync(false)
    ensures Settled(RegWriteSpec(s, PxCI(v))) && Healthy(RegWriteSpec(s, PxCI(v)))
  {
    RegWriteKeeps(s, PxCI(v));
    WriteStartKeeps(s, PxCI(v));
    DrivenHalts(Written(s, v));
    HandlePortHealthy(Written(s, v));
  }

  lemma AheadIsWhole(s: Ahci, x: Bit)
    requires |s.table| == 32 && |s.prdbc| == 32 && s.table[x].Rw? && GoodCommand(s.table[x])
    requires Ahead(s, x, RoundsFrom(x, s.table[x], 0), EndFrom(s.table[x], 0))
    ensures Whole(s, x)
  {
    SomeRound(x, s.table[x]);
  }

  lemma IssueWhole(s: Ahci, v: Bits, x: Bit)
    requires Settled(s) && Fresh(s) && AllowedWrite(s, PxCI(v))
    requires x in Active(Written(s, v)) && s.table[x].Rw? && !Again(Written(s, v), x)
    ensures var r := RegWriteSpec(s, PxCI(v));
            r.table == s.table && Whole(r, x) && Active(r) <= Active(Written(s, v))
  {
    var w := Written(s, v);
    WriteStartKeeps(s, PxCI(v));
    WriteStartFresh(s, PxCI(v));
    DrivenHalts(w);
    HandlePortKeeps(w);
    HandlePortActive(w);
    assert Whole(w, x);
    HandlePortAhead(w, x, RoundsFrom(x, s.table[x], 0), EndFrom(s.table[x], 0));
    AheadIsWhole(HandlePort(w), x);
  }

  /** End to end: on a port where nothing has failed, write any slots to PxCI and let the
      worker drain: no command is left waiting or in flight, and the transfer of every
      slot written, or active before, has arrived, however many were written at once. */
  lemma IssueDelivers(s: Ahci, v: Bits, m: Memory)
    requires Settled(s) && Fresh(s) && Healthy(s)
    requires AllowedWrite(s, PxCI(v)) && forall t :: t in v ==> s.table[t] != Sync(false)
    ensures var r := RegWriteSpec(s, PxCI(v));
            && Settled(r) && Drain(r).regs.ci == {} && Drain(r).regs.pending == {}
            && forall x: Bit :: Delivers(Written(s, v), x, m) ==> r.table == s.table && Arrives(r, x, m)
  {
    var r := RegWriteSpec(s, PxCI(v));
    IssueHealthy(s, v);
    HealthyDrain(r);
    forall x: Bit | Delivers(Written(s, v), x, m) ensures r.table == s.table && Arrives(r, x, m) {
      IssueWhole(s, v, x);
      DrainDelivers(r, x, m);
    }
  }

  /** Over every run from power-on, whatever transfer is waiting or in flight is whole: the
      next drain delivers it as above. */
  lemma RunsDeliver(table: seq<Command>, steps: seq<Step>, x: Bit, m: Memory)
    requires |table| == 32 && RunsFromPowerOn(table, steps)
    requires var s := Reached(table, steps);
             |s.table| == 32 && Delivers(s, x, m) && (x in s.regs.pending || Healthy(s))
    ensures var s := Reached(table, steps); Settled(s) && Arrives(s, x, m)
  {
    PowerOnSettled(table);
    IdleFresh(PowerOn(table));
    RunsFresh(PowerOn(table), steps);
    RunsWritable(PowerOn(table), steps);
    DrainDelivers(Reached(table, steps), x, m);
  }
}
