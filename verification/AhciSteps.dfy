/**
 Register writes of an AHCI port, stopping it, and runs of guest and worker steps.
 */
module AhciSteps {
  import opened BlockQueue
  import opened Interrupts
  import opened AhciIov
  import opened DiskTransfer
  import opened AhciSpec
  import opened AhciRuns
  import opened AhciIssue
  import opened AhciDrain
  import opened AhciWork

  // ----- stopping

  ghost predicate Quiet(s: Ahci) {
    Core(s, {}) && s.q.busy == []
  }

  // The first busy request is the newest: its element is the last of the queue.
  lemma NewestIsLast(s: Ahci)
    requires Core(s, {}) && s.iobhd != []
    ensures |s.q.pend| == |s.iobhd| && FindId(s.q.pend, s.iobhd[0]) == |s.q.pend| - 1
    ensures s.iobhd[0] < |s.ioreqs|
  {
    var n, id := |s.iobhd|, s.iobhd[0];
    assert Flight(s.q.pend[n - 1], s.iobhd[n - 1 - (n - 1)], s.ioreqs, s.table);
    forall j | 0 <= j < n - 1 ensures s.q.pend[j].req.id != id {
      assert Flight(s.q.pend[j], s.iobhd[n - 1 - j], s.ioreqs, s.table);
      BusyIdsDiffer(s, 0, n - 1 - j);
    }
  }

  lemma DropNewestConserves(s: Ahci, t: Ahci, id: nat, slot: Bit)
    requires Shape(s) && Conserved(s, {}) && Shape(t)
    requires s.iobhd == [id] + t.iobhd && t.iofhd == s.iofhd + [id] && t.ioreqs == s.ioreqs
    requires id < IOQSZ && slot == s.ioreqs[id].slot && t.regs.pending == s.regs.pending - {slot}
    ensures Conserved(t, {})
  {
    forall k | 0 <= k < |t.iobhd| ensures t.iobhd[k] < IOQSZ { assert s.iobhd[k + 1] == t.iobhd[k]; }
    assert SlotsOf(s.ioreqs, s.iobhd) == [slot] + SlotsOf(t.ioreqs, t.iobhd);
    assert multiset(SlotsOf(s.ioreqs, s.iobhd)) == multiset(s.regs.pending);
    assert slot in multiset(SlotsOf(s.ioreqs, s.iobhd));
    assert multiset(t.regs.pending) == multiset(s.regs.pending) - multiset{slot};
  }

  lemma DropNewestFlights(s: Ahci, t: Ahci)
    requires Core(s, {}) && s.iobhd != [] && t.table == s.table && t.ioreqs == s.ioreqs
    requires t.iobhd == s.iobhd[1..] && |t.q.pend| == |s.q.pend| - 1
    requires forall i :: 0 <= i < |t.q.pend| ==> t.q.pend[i].req == s.q.pend[i].req && t.q.pend[i].op == s.q.pend[i].op
    ensures Flights(t)
  {
    var n := |s.iobhd|;
    forall i | 0 <= i < |t.q.pend| ensures Flight(t.q.pend[i], t.iobhd[|t.iobhd| - 1 - i], t.ioreqs, t.table) {
      assert Flight(s.q.pend[i], s.iobhd[n - 1 - i], s.ioreqs, s.table);
    }
  }

  lemma StopHeadIs(s: Ahci)
    requires |s.table| == 32 && s.iobhd != [] && s.iobhd[0] < |s.ioreqs|
    requires FindId(s.q.pend, s.iobhd[0]) < |s.q.pend|
    ensures var t, id := StopAt(s, 0), s.iobhd[0];
            && t.iobhd == s.iobhd[1..] && t.iofhd == s.iofhd + [id] && t.ioreqs == s.ioreqs && t.prdbc == s.prdbc
            && t.table == s.table && t.regs.pending == s.regs.pending - {s.ioreqs[id].slot}
            && t.regs.ci <= s.regs.ci && t.regs.cmd == s.regs.cmd && t.regs.rfis == s.regs.rfis
            && t.intr == s.intr && t.trace == s.trace
  {
  }

  lemma CancelNewest(s: Ahci)
    requires Quiet(s) && s.iobhd != []
    ensures var q := CancelSpec(s.q, s.iobhd[0]);
            && Inv(q) && q.busy == [] && |q.pend| == |s.q.pend| - 1
            && forall i :: 0 <= i < |q.pend| ==> q.pend[i].req == s.q.pend[i].req && q.pend[i].op == s.q.pend[i].op
  {
    NewestIsLast(s);
    CancelKeepsInv(s.q, s.iobhd[0]);
  }

  lemma StopHeadKeeps(s: Ahci)
    requires Quiet(s) && s.iobhd != []
    ensures s.iobhd[0] < |s.ioreqs| && Quiet(StopAt(s, 0))
    ensures |StopAt(s, 0).iobhd| == |s.iobhd| - 1
    ensures StopAt(s, 0).regs.cmd == s.regs.cmd && StopAt(s, 0).intr == s.intr && StopAt(s, 0).trace == s.trace
    ensures StopAt(s, 0).table == s.table && StopAt(s, 0).regs.rfis == s.regs.rfis
  {
    NewestIsLast(s);
    StopHeadIs(s);
    CancelNewest(s);
    var t, id := StopAt(s, 0), s.iobhd[0];
    assert t.q == CancelSpec(s.q, id);
    assert s.iobhd == [id] + t.iobhd;
    DropNewestConserves(s, t, id, s.ioreqs[id].slot);
    DropNewestFlights(s, t);
  }

  lemma {:induction false} StopLoop(s: Ahci)
    requires Quiet(s)
    ensures var r := StopFrom(s, 0);
            && Quiet(r) && r.iobhd == [] && r.q.pend == [] && r.regs.pending == {}
            && r.regs.cmd == s.regs.cmd && r.regs.rfis == s.regs.rfis
            && r.intr == s.intr && r.trace == s.trace && r.table == s.table
    decreases |s.iobhd|
  {
    if s.iobhd == [] {
      NeverExhausted(s, {});
    } else {
      NewestIsLast(s);
      StopHeadKeeps(s);
      StopLoop(StopAt(s, 0));
      assert StopFrom(s, 0) == StopFrom(StopAt(s, 0), 0);
    }
  }

  /** Clearing ST between drains cancels everything: no request is busy or queued,
      and CI, SACT, the current slot and the error latch are clear. */
  lemma StopQuiesces(s: Ahci)
    requires Quiet(s) && CMD_ST !in s.regs.cmd
    ensures var r := PortStop(s);
            && Quiet(r) && r.regs.pending == {} && r.regs.ci == {} && r.regs.sact == {}
            && r.regs.ccs == 0 && r.regs.cmdCcs == 0
            && CMD_CR !in r.regs.cmd && !r.regs.waitforclear
            && r.iobhd == [] && |r.iofhd| == IOQSZ && r.q.pend == [] && |r.q.free| == MAXREQ
            && r.regs.cmd == s.regs.cmd - {CMD_CR} && r.intr == s.intr && r.trace == s.trace
            && r.table == s.table && r.regs.rfis == s.regs.rfis
  {
    StopLoop(s);
    var r := StopFrom(s, 0);
    AsideKeepsCore(r, CheckStopped(r), {});
    CellCount(r.q);
    AllIdsBag(0);
    assert |multiset(r.iofhd) + multiset(r.iobhd)| == |r.iofhd| + |r.iobhd|;
  }

  // ----- register writes

  datatype RegWrite =
    | PxCMD(v: Bits) | PxSCTL(reset: bool) | PxSACT(v: Bits) | PxCI(v: Bits)
    | Interrupt(w: IntrWrite)
    | HostReset

  // A write to PxCMD, up to the call of the issue loop.
  function CmdStart(s: Ahci, v: Bits): Ahci
    requires Quiet(s)
  {
    var s1 := s.(regs := s.regs.(cmd := (s.regs.cmd - CMD_WRITABLE) + (v * CMD_WRITABLE)));
    if CMD_ST in v then s1.(regs := s1.regs.(cmd := s1.regs.cmd + {CMD_CR})) else PortStop(s1)
  }

  function CmdFlags(r: Regs, v: Bits): Regs {
    var r1 := if CMD_FRE in v then r.(cmd := r.cmd + {CMD_FR}, rfis := true) else r.(cmd := r.cmd - {CMD_FR});
    var r2 := if CMD_CLO in v then r1.(tfd := r1.tfd - {TFD_BUSY, TFD_DRQ}, cmd := r1.cmd - {CMD_CLO}) else r1;
    if v * CMD_ICC != {} then r2.(cmd := r2.cmd - CMD_ICC) else r2
  }

  function CmdWrite(s: Ahci, v: Bits): Ahci
    requires Quiet(s)
  {
    var s1 := CmdStart(s, v);
    s1.(regs := CmdFlags(s1.regs, v))
  }

  function HostResetSpec(s: Ahci): Ahci {
    PortReset(s.(regs := s.regs.(cmd := {CMD_SUD, CMD_POD, CMD_CPS}, cmdCcs := 0), intr := ResetIntr(s.intr)))
  }

  // Everything but the issue loop.
  function WriteStart(s: Ahci, w: RegWrite): Ahci
    requires Quiet(s)
  {
    match w
    case PxCMD(v) => CmdWrite(s, v)
    case PxSCTL(reset) => if CMD_ST !in s.regs.cmd && reset then PortReset(s) else s
    case PxSACT(v) => s.(regs := s.regs.(sact := s.regs.sact + v))
    case PxCI(v) => s.(regs := s.regs.(ci := s.regs.ci + v))
    case Interrupt(iw) => s.(intr := WriteIntr(s.intr, iw))
    case HostReset => HostResetSpec(s)
  }

  // What the driver owes: a slot's command is in place before it is issued, no round of it
  // fires the assertion of the scan, and it does not hang the issue loop: while the port
  // runs an issued slot holds a host-to-device FIS, and FISes are received if it may fail.
  ghost predicate AllowedWrite(s: Ahci, w: RegWrite)
    requires |s.table| == 32
  {
    match w
    case PxCMD(v) =>
      CMD_ST in v ==>
        forall t :: t in s.regs.ci ==> !s.table[t].NotH2D? && (MayFail(s, t) ==> CMD_FRE in v)
    case PxCI(v) =>
      forall t :: t in v ==> GoodCommand(s.table[t]) && (CMD_ST in s.regs.cmd ==> !Hangs(s, t))
    case _ => true
  }

  lemma CmdWritten(cmd: Bits, v: Bits)
    ensures ((cmd - CMD_WRITABLE) + (v * CMD_WRITABLE)) * CMD_WRITABLE == v * CMD_WRITABLE
    ensures ((cmd - CMD_WRITABLE) + (v * CMD_WRITABLE) + {CMD_CR}) * CMD_WRITABLE == v * CMD_WRITABLE
    ensures ((cmd - CMD_WRITABLE) + (v * CMD_WRITABLE) - {CMD_CR}) * CMD_WRITABLE == v * CMD_WRITABLE
  {
  }

  lemma CmdStartKeeps(s: Ahci, v: Bits)
    requires Quiet(s)
    ensures var r := CmdStart(s, v);
            && Quiet(r) && r.table == s.table && r.trace == s.trace && r.regs.rfis == s.regs.rfis
            && r.regs.cmd * CMD_WRITABLE == v * CMD_WRITABLE
            && (if CMD_ST in v then r.regs.ci == s.regs.ci
                else r.regs.pending == {} && r.regs.ci == {} && r.q.pend == [])
  {
    var s1 := s.(regs := s.regs.(cmd := (s.regs.cmd - CMD_WRITABLE) + (v * CMD_WRITABLE)));
    AsideKeepsCore(s, s1, {});
    CmdWritten(s.regs.cmd, v);
    if CMD_ST in v {
      AsideKeepsCore(s1, CmdStart(s, v), {});
    } else {
      assert CMD_ST !in s1.regs.cmd;
      StopQuiesces(s1);
    }
  }

  lemma CmdFlagsKeep(r: Regs, v: Bits)
    ensures var t := CmdFlags(r, v);
            && t.ci == r.ci && t.pending == r.pending
            && (CMD_ST in t.cmd <==> CMD_ST in r.cmd) && (CMD_FRE in t.cmd <==> CMD_FRE in r.cmd)
            && (CMD_FRE in v ==> t.rfis)
  {
  }

  lemma CmdWriteKeeps(s: Ahci, v: Bits)
    requires Quiet(s) && AllowedWrite(s, PxCMD(v))
    ensures var r := CmdWrite(s, v);
            && Quiet(r) && Driven(r) && r.table == s.table && r.trace == s.trace
            && (CMD_ST in r.regs.cmd <==> CMD_ST in v) && (CMD_FRE in r.regs.cmd <==> CMD_FRE in v)
            && (CMD_ST !in v ==> r.regs.pending == {} && r.regs.ci == {} && r.q.pend == [])
  {
    CmdStartKeeps(s, v);
    CmdFlagsKeep(CmdStart(s, v).regs, v);
    var s1, r := CmdStart(s, v), CmdWrite(s, v);
    assert CMD_ST in s1.regs.cmd <==> CMD_ST in s1.regs.cmd * CMD_WRITABLE;
    assert CMD_FRE in s1.regs.cmd <==> CMD_FRE in s1.regs.cmd * CMD_WRITABLE;
    AsideKeepsCore(s1, r, {});
  }

  lemma CiWriteKeeps(s: Ahci, v: Bits)
    requires Quiet(s) && Driven(s) && AllowedWrite(s, PxCI(v))
    ensures Quiet(s.(regs := s.regs.(ci := s.regs.ci + v))) && Driven(s.(regs := s.regs.(ci := s.regs.ci + v)))
  {
  }

  lemma WriteStartKeeps(s: Ahci, w: RegWrite)
    requires Quiet(s) && Driven(s) && AllowedWrite(s, w)
    ensures Quiet(WriteStart(s, w)) && Driven(WriteStart(s, w))
    ensures Stopped(s) && !w.PxCMD? && !w.PxCI? ==> Stopped(WriteStart(s, w))
  {
    match w {
      case PxCMD(v) => CmdWriteKeeps(s, v);
      case PxSCTL(reset) => PortResetKeepsCore(s, {});
      case PxSACT(v) => AsideKeepsCore(s, WriteStart(s, w), {});
      case PxCI(v) => CiWriteKeeps(s, v);
      case Interrupt(iw) =>
        WriteKeepsIntr(s.intr, iw);
        AsideKeepsCore(s, WriteStart(s, w), {});
      case HostReset =>
        ResetKeepsIntr(s.intr);
        var s1 := s.(regs := s.regs.(cmd := {CMD_SUD, CMD_POD, CMD_CPS}, cmdCcs := 0), intr := ResetIntr(s.intr));
        AsideKeepsCore(s, s1, {});
        PortResetKeepsCore(s1, {});
    }
  }

  // ----- runs

  // Between steps: the invariants hold, nothing is executing, and whatever could be issued has been.
  ghost predicate Settled(s: Ahci) {
    Quiet(s) && Driven(s) && Stopped(s)
  }

  function RegWriteSpec(s: Ahci, w: RegWrite): Ahci
    requires Quiet(s) && Driven(s) && AllowedWrite(s, w)
  {
    WriteStartKeeps(s, w);
    DrivenHalts(WriteStart(s, w));
    if w.PxCMD? || w.PxCI? then HandlePort(WriteStart(s, w)) else WriteStart(s, w)
  }

  lemma RegWriteKeeps(s: Ahci, w: RegWrite)
    requires Settled(s) && AllowedWrite(s, w)
    ensures Settled(RegWriteSpec(s, w))
  {
    WriteStartKeeps(s, w);
    DrivenHalts(WriteStart(s, w));
    if w.PxCMD? || w.PxCI? { HandlePortKeeps(WriteStart(s, w)); }
  }

  /** Stopping the port by its register quiesces it. */
  lemma StopWriteQuiesces(s: Ahci, v: Bits)
    requires Settled(s) && CMD_ST !in v
    ensures var r := RegWriteSpec(s, PxCMD(v));
            && Settled(r) && r.regs.pending == {} && r.regs.ci == {} && r.iobhd == [] && r.q.pend == []
            && r.regs.sact == {} && r.regs.ccs == 0 && r.regs.cmdCcs == 0
            && CMD_CR !in r.regs.cmd && !r.regs.waitforclear
  {
    RegWriteKeeps(s, PxCMD(v));
    CmdWriteKeeps(s, v);
    var s1 := s.(regs := s.regs.(cmd := (s.regs.cmd - CMD_WRITABLE) + (v * CMD_WRITABLE)));
    AsideKeepsCore(s, s1, {});
    assert CMD_ST !in s1.regs.cmd;
    StopQuiesces(s1);
    assert CmdStart(s, v) == PortStop(s1);
    assert Stopped(CmdWrite(s, v));
  }

  datatype Step = WriteReg(w: RegWrite) | Store(slot: Bit, c: Command) | Worker

  ghost predicate Allowed(s: Ahci, st: Step)
    requires |s.table| == 32
  {
    match st
    case WriteReg(w) => AllowedWrite(s, w)
    case Store(slot, c) => slot !in s.regs.ci + s.regs.pending     // a slot's command is the guest's until it is issued
    case Worker => true
  }

  function StepSpec(s: Ahci, st: Step): Ahci
    requires Settled(s) && Allowed(s, st)
  {
    match st
    case WriteReg(w) => RegWriteSpec(s, w)
    case Store(slot, c) => s.(table := s.table[slot := c])
    case Worker => Drain(s)
  }

  lemma StoreKeeps(s: Ahci, slot: Bit, c: Command)
    requires Settled(s) && slot !in s.regs.ci + s.regs.pending
    ensures Settled(s.(table := s.table[slot := c]))
  {
    var t := s.(table := s.table[slot := c]);
    var n := |s.iobhd|;
    forall i | 0 <= i < |t.q.pend| ensures Flight(t.q.pend[i], t.iobhd[n - 1 - i], t.ioreqs, t.table) {
      assert Flight(s.q.pend[i], s.iobhd[n - 1 - i], s.ioreqs, s.table);
      BusySlotPending(s, n - 1 - i);
    }
  }

  lemma BusySlotPending(s: Ahci, k: nat)
    requires Core(s, {}) && k < |s.iobhd|
    ensures s.iobhd[k] < |s.ioreqs| && s.ioreqs[s.iobhd[k]].slot in s.regs.pending
  {
    var slot: Bit := s.ioreqs[s.iobhd[k]].slot;
    assert SlotsOf(s.ioreqs, s.iobhd)[k] == slot;
    assert slot in multiset(SlotsOf(s.ioreqs, s.iobhd));
    assert slot in multiset(s.regs.pending);
  }

  lemma StepKeeps(s: Ahci, st: Step)
    requires Settled(s) && Allowed(s, st)
    ensures Settled(StepSpec(s, st))
  {
    match st {
      case WriteReg(w) => RegWriteKeeps(s, w);
      case Store(slot, c) => StoreKeeps(s, slot, c);
      case Worker => DrainCompletes(s);
    }
  }

  function PowerOn(table: seq<Command>): Ahci {
    Ahci(Regs(0, {}, {}, {}, {TFD_DIAG, TFD_DSC, TFD_DMA, TFD_READY}, {CMD_SUD, CMD_POD, CMD_CPS}, 0,
              false, false, false), InitIntr(), table, seq(32, _ => 0),
         seq(IOQSZ, k requires 0 <= k < IOQSZ => Ioreq(0, 0, 0, false, Request(k, 0, []))),
         AllIds(), [], InitQueues(), false, [])
  }

  lemma PowerOnSettled(table: seq<Command>)
    requires |table| == 32
    ensures Settled(PowerOn(table))
  {
    var s := PowerOn(table);
    InitInv();
    assert SlotsOf(s.ioreqs, []) == [];
    assert multiset(s.iobhd) == multiset{};
  }

  // Steps of guest and worker from s, each one allowed when it is made.
  ghost predicate AllowedRun(s: Ahci, steps: seq<Step>)
    requires Settled(s)
    decreases |steps|
  {
    steps == [] || (Allowed(s, steps[0]) && (StepKeeps(s, steps[0]); AllowedRun(StepSpec(s, steps[0]), steps[1..])))
  }

  function RunSteps(s: Ahci, steps: seq<Step>): Ahci
    requires Settled(s) && AllowedRun(s, steps)
    decreases |steps|
  {
    if steps == [] then s
    else
      StepKeeps(s, steps[0]);
      RunSteps(StepSpec(s, steps[0]), steps[1..])
  }

  // What the port's books say in every settled state.
  ghost predicate Balanced(s: Ahci)
    requires Shape(s)
  {
    // free and busy requests partition all of them
    && multiset(s.iofhd) + multiset(s.iobhd) == multiset(AllIds())
    && (forall k :: 0 <= k < |s.iobhd| ==> s.iobhd[k] < |s.ioreqs|)
    // busy slots are distinct, and are exactly the pending bits
    && multiset(SlotsOf(s.ioreqs, s.iobhd)) == multiset(s.regs.pending)
    // busy requests and queue elements correspond, oldest first
    && |s.q.pend| == |s.iobhd|
    && (forall i :: 0 <= i < |s.q.pend| ==> s.q.pend[i].req.id == s.iobhd[|s.iobhd| - 1 - i])
    // at most 32 are in flight, and neither list of spares runs out
    && |s.regs.pending| <= 32 && |s.iofhd| >= IOQSZ - 32 && |s.q.free| >= MAXREQ - 32
    && s.q.busy == []
    // nothing issuable is waiting unless the port is stopped, busy or in error
    && Stopped(s)
    && IntrOk(s.intr)
  }

  lemma SettledIsBalanced(s: Ahci)
    requires Settled(s)
    ensures Balanced(s)
  {
    NeverExhausted(s, {});
    CellCount(s.q);
    AllIdsBag(0);
    assert |multiset(s.iofhd) + multiset(s.iobhd)| == |s.iofhd| + |s.iobhd|;
    forall i | 0 <= i < |s.q.pend| ensures s.q.pend[i].req.id == s.iobhd[|s.iobhd| - 1 - i] {
      assert Flight(s.q.pend[i], s.iobhd[|s.iobhd| - 1 - i], s.ioreqs, s.table);
    }
  }

  /** Over every run of register writes, command stores and drains from power-on, the
      requests, slots, queue elements and interrupt line stay in balance. */
  lemma {:induction false} RunsStayBalanced(s: Ahci, steps: seq<Step>)
    requires Settled(s) && AllowedRun(s, steps)
    ensures Settled(RunSteps(s, steps)) && Balanced(RunSteps(s, steps))
    decreases |steps|
  {
    if steps == [] {
      SettledIsBalanced(s);
    } else {
      StepKeeps(s, steps[0]);
      RunsStayBalanced(StepSpec(s, steps[0]), steps[1..]);
    }
  }

  ghost predicate RunsFromPowerOn(table: seq<Command>, steps: seq<Step>)
    requires |table| == 32
  {
    PowerOnSettled(table);
    AllowedRun(PowerOn(table), steps)
  }

  function Reached(table: seq<Command>, steps: seq<Step>): Ahci
    requires |table| == 32 && RunsFromPowerOn(table, steps)
  {
    PowerOnSettled(table);
    RunSteps(PowerOn(table), steps)
  }

  lemma PowerOnStaysBalanced(table: seq<Command>, steps: seq<Step>)
    requires |table| == 32 && RunsFromPowerOn(table, steps)
    ensures Settled(Reached(table, steps)) && Balanced(Reached(table, steps))
  {
    PowerOnSettled(table);
    RunsStayBalanced(PowerOn(table), steps);
  }

  // ----- the disk stays writable

  lemma {:induction false} StopWritable(s: Ahci, i: nat)
    requires |s.table| == 32 && i <= |s.iobhd| && forall k :: 0 <= k < |s.iobhd| ==> s.iobhd[k] < |s.ioreqs|
    ensures StopFrom(s, i).rdonly == s.rdonly
    decreases |s.iobhd| - i
  {
    if i < |s.iobhd| {
      if FindId(s.q.pend, s.iobhd[i]) == |s.q.pend| {
        StopWritable(StopAt(s, i), i + 1);
      } else {
        StopWritable(StopAt(s, i), i);
      }
    }
  }

  lemma WriteWritable(s: Ahci, w: RegWrite)
    requires Settled(s) && AllowedWrite(s, w)
    ensures RegWriteSpec(s, w).rdonly == s.rdonly
  {
    WriteStartKeeps(s, w);
    DrivenHalts(WriteStart(s, w));
    if w.PxCMD? && CMD_ST !in w.v {
      StopWritable(s.(regs := s.regs.(cmd := (s.regs.cmd - CMD_WRITABLE) + (w.v * CMD_WRITABLE))), 0);
    }
    if w.PxCMD? || w.PxCI? { HandlePortKeeps(WriteStart(s, w)); }
  }

  lemma {:induction false} RunsWritable(s: Ahci, steps: seq<Step>)
    requires Settled(s) && AllowedRun(s, steps)
    ensures RunSteps(s, steps).rdonly == s.rdonly
    decreases |steps|
  {
    if steps != [] {
      StepKeeps(s, steps[0]);
      match steps[0] {
        case WriteReg(w) => WriteWritable(s, w);
        case Store(slot, c) =>
        case Worker => DrainCompletes(s);
      }
      RunsWritable(StepSpec(s, steps[0]), steps[1..]);
    }
  }
}
