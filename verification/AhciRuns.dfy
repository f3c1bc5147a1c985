/**
 Whole runs of an AHCI port: the issue loop, completion callbacks, the worker's
 drain and register writes, and what every one of them keeps.
 */
module AhciRuns {
  import opened BlockQueue
  import opened AhciIov
  import opened Interrupts
  import opened DiskTransfer
  import opened AhciSpec

  // ----- steps that only touch registers

  // r is s with other register contents.
  ghost predicate Aside(s: Ahci, r: Ahci) {
    && r.regs.pending == s.regs.pending && r.table == s.table && r.ioreqs == s.ioreqs && r.iofhd == s.iofhd
    && r.iobhd == s.iobhd && r.q == s.q && |r.prdbc| == |s.prdbc| && r.rdonly == s.rdonly && r.trace == s.trace
  }

  lemma AsideKeepsCore(s: Ahci, r: Ahci, extra: Bits)
    requires Core(s, extra) && Aside(s, r) && r.regs.ci <= s.regs.ci && IntrOk(r.intr)
    ensures Core(r, extra)
  {
  }

  lemma FisKeepsIntr(s: Ahci, error: bool, irq: Bits)
    requires IntrOk(s.intr)
    ensures IntrOk(WriteFis(s, error, irq).intr)
  {
    RaiseKeepsIntr(s.intr, if error then irq + {IX_TFE} else irq);
  }

  lemma NcqFisKeepsCore(s: Ahci, slot: Bit, extra: Bits)
    requires Core(s, extra)
    ensures Core(WriteFisD2hNcq(s, slot), extra)
  {
    FisKeepsIntr(s, false, {});
    AsideKeepsCore(s, WriteFisD2hNcq(s, slot), extra);
  }

  lemma D2hFisKeepsCore(s: Ahci, slot: Bit, tfd: Bits, extra: Bits)
    requires Core(s, extra)
    ensures Core(WriteFisD2h(s, slot, tfd), extra)
  {
    FisKeepsIntr(s, TFD_ERR in tfd, {IX_DHR});
    AsideKeepsCore(s, WriteFisD2h(s, slot, tfd), extra);
  }

  lemma SdbFisKeepsCore(s: Ahci, slot: Bit, tfd: Bits, extra: Bits)
    requires Core(s, extra)
    ensures Core(WriteFisSdb(s, slot, tfd), extra)
  {
    FisKeepsIntr(s, TFD_ERR in tfd, {IX_SDB});
    AsideKeepsCore(s, WriteFisSdb(s, slot, tfd), extra);
  }

  lemma PortResetKeepsCore(s: Ahci, extra: Bits)
    requires Core(s, extra)
    ensures Core(PortReset(s), extra)
  {
    FisKeepsIntr(s, false, {});
    AsideKeepsCore(s, PortReset(s), extra);
  }

  // ----- putting a request in flight

  // s with its first free request in flight as r, and queued.
  function Launch(s: Ahci, r: Ioreq, op: Op): Ahci
    requires CanIssue(s)
  {
    InFlight(s, r).(q := EnqueueSpec(s.q, r.req, op))
  }

  lemma AddPending(pending: Bits, slots: multiset<nat>, slot: Bit, extra: Bits)
    requires slots + multiset(extra) == multiset(pending)
    requires extra == {slot} || (extra == {} && slot !in pending)
    ensures slots + multiset{slot} == multiset(pending + {slot})
  {
    assert multiset(pending + {slot}) == multiset(pending - {slot}) + multiset{slot};
    assert multiset({slot}) == multiset{slot};
    if extra == {slot} {
      assert slot in multiset(pending);
      assert multiset(pending) == multiset(pending - {slot}) + multiset{slot};
    } else {
      assert |extra| == 0 && multiset(extra) == multiset{};
      assert pending - {slot} == pending;
    }
  }

  lemma FreeIsNotBusy(s: Ahci, extra: Bits)
    requires Core(s, extra) && CanIssue(s)
    ensures s.iofhd[0] !in s.iobhd && s.iofhd[0] < IOQSZ
  {
    var id := s.iofhd[0];
    AllIdsBag(id);
    assert (multiset(s.iofhd) + multiset(s.iobhd))[id] <= 1;
    assert id in multiset(s.iofhd);
    assert id !in multiset(s.iobhd);
  }

  lemma LaunchConserves(s: Ahci, r: Ioreq, op: Op, extra: Bits)
    requires Core(s, extra) && (extra == {r.slot} || (extra == {} && r.slot !in s.regs.pending))
    requires CanIssue(s) && r.req.id == s.iofhd[0]
    ensures Shape(Launch(s, r, op)) && Conserved(Launch(s, r, op), {})
    ensures s.iofhd[0] !in s.iobhd
  {
    var id, t := s.iofhd[0], Launch(s, r, op);
    FreeIsNotBusy(s, extra);
    assert s.iofhd == [id] + t.iofhd;
    assert multiset(t.iobhd) == multiset{id} + multiset(s.iobhd);
    assert SlotsOf(t.ioreqs, t.iobhd) == [r.slot] + SlotsOf(s.ioreqs, s.iobhd);
    AddPending(s.regs.pending, multiset(SlotsOf(s.ioreqs, s.iobhd)), r.slot, extra);
  }

  // The requests that were in flight, and the new one behind them.
  lemma LaunchFlight(s: Ahci, r: Ioreq, op: Op, extra: Bits, i: nat)
    requires Core(s, extra) && CanIssue(s) && r.req.id == s.iofhd[0] && s.iofhd[0] !in s.iobhd
    requires i < |s.iobhd|
    ensures var t := Launch(s, r, op);
            i < |t.q.pend| && Flight(t.q.pend[i], t.iobhd[|s.iobhd| - i], t.ioreqs, t.table)
  {
    var t, n := Launch(s, r, op), |s.iobhd|;
    assert t.iobhd[n - i] == s.iobhd[n - 1 - i];
    assert Flight(s.q.pend[i], s.iobhd[n - 1 - i], s.ioreqs, s.table);
    assert t.q.pend[i] == s.q.pend[i];
  }

  lemma LaunchFlies(s: Ahci, r: Ioreq, op: Op, extra: Bits)
    requires Core(s, extra) && CanIssue(s) && r.req.id == s.iofhd[0] && s.iofhd[0] !in s.iobhd
    requires Flight(NewElem(s.q, r.req, op), s.iofhd[0], s.ioreqs[s.iofhd[0] := r], s.table)
    ensures Flights(Launch(s, r, op))
  {
    var t, n := Launch(s, r, op), |s.iobhd|;
    forall i | 0 <= i < |t.q.pend| ensures Flight(t.q.pend[i], t.iobhd[n - i], t.ioreqs, t.table) {
      if i < n { LaunchFlight(s, r, op, extra, i); }
    }
  }

  lemma LaunchKeepsCore(s: Ahci, r: Ioreq, op: Op, extra: Bits)
    requires Core(s, extra) && (extra == {r.slot} || (extra == {} && r.slot !in s.regs.pending))
    requires CanIssue(s) && r.req.id == s.iofhd[0] && GoodCommand(s.table[r.slot])
    requires Flight(NewElem(s.q, r.req, op), s.iofhd[0], s.ioreqs[s.iofhd[0] := r], s.table)
    ensures Core(Launch(s, r, op), {})
  {
    LaunchConserves(s, r, op, extra);
    LaunchFlies(s, r, op, extra);
    EnqueueKeepsInv(s.q, r.req, op);
  }

  lemma RoundFlies(s: Ahci, slot: Bit, done: nat)
    requires |s.table| == 32 && CanIssue(s) && s.table[slot].Rw?
    requires done <= s.table[slot].count * SECTOR && done % SECTOR == 0 && FitFrom(s.table[slot], done)
    ensures var r := RoundOf(s, slot, s.table[slot], done);
            Flight(NewElem(s.q, r.req, OpOf(s.table[slot])), s.iofhd[0], s.ioreqs[s.iofhd[0] := r], s.table)
  {
    var c := s.table[slot];
    RoundTakesStream(c.prdt, c.count * SECTOR, done);
  }

  lemma RwIsLaunch(s: Ahci, slot: Bit, done: nat)
    requires CanIssue(s) && slot < |s.table| && s.table[slot].Rw? && done <= s.table[slot].count * SECTOR
    ensures var t := Launch(s, RoundOf(s, slot, s.table[slot], done), OpOf(s.table[slot]));
            HandleRw(s, slot, s.table[slot], done)
            == if s.table[slot].ncq && done == 0 then WriteFisD2hNcq(t, slot) else t
  {
  }

  // Issues round 'done' of the command of a slot: the slot is new, or in its callback.
  lemma RwKeepsCore(s: Ahci, slot: Bit, done: nat, extra: Bits)
    requires Core(s, extra) && (extra == {slot} || (extra == {} && slot !in s.regs.pending)) && CanIssue(s)
    requires var c := s.table[slot];
             && c.Rw? && GoodCommand(c) && done <= c.count * SECTOR && done % SECTOR == 0 && FitFrom(c, done)
    ensures Core(HandleRw(s, slot, s.table[slot], done), {})
  {
    var c, r := s.table[slot], RoundOf(s, slot, s.table[slot], done);
    RoundFlies(s, slot, done);
    LaunchKeepsCore(s, r, OpOf(c), extra);
    NcqFisKeepsCore(Launch(s, r, OpOf(c)), slot, {});
    RwIsLaunch(s, slot, done);
  }

  lemma FlushKeepsCore(s: Ahci, slot: Bit)
    requires Core(s, {}) && slot !in s.regs.pending && CanIssue(s) && s.table[slot].FlushCache?
    ensures Core(HandleFlush(s, slot), {})
  {
    var id := s.iofhd[0];
    var r := Ioreq(slot, 0, 0, false, s.ioreqs[id].req);
    AllIdsBag(id);
    assert id in multiset(s.iofhd) + multiset(s.iobhd);
    assert Flight(NewElem(s.q, r.req, Flush), id, s.ioreqs[id := r], s.table);
    LaunchKeepsCore(s, r, Flush, {});
    assert HandleFlush(s, slot) == Launch(s, r, Flush);
  }

  lemma CmdKeepsCore(s: Ahci, slot: Bit, c: Command)
    requires Core(s, {}) && slot in Issuable(s) && CanIssue(s)
    requires c == s.table[slot] && (c.Rw? || c.FlushCache? || c.Sync?)
    ensures Core(HandleCmd(s, slot, c), {})
  {
    var s1 := s.(regs := s.regs.(tfd := s.regs.tfd + {TFD_BUSY}));
    AsideKeepsCore(s, s1, {});
    match c {
      case Rw(_, _, _, _, _) => RwKeepsCore(s1, slot, 0, {});
      case FlushCache => FlushKeepsCore(s1, slot);
      case Sync(ok) => D2hFisKeepsCore(s1, slot, if ok then TFD_OK else TFD_FAIL, {});
    }
  }

  lemma ControlKeepsCore(s: Ahci, slot: Bit)
    requires Core(s, {}) && CanIssue(s) && s.table[slot].Control?
    ensures Core(HandleSlot(s, slot), {})
  {
    if !s.table[slot].srst && s.regs.reset {
      var s0 := s.(regs := s.regs.(reset := false));
      AsideKeepsCore(s, s0, {});
      PortResetKeepsCore(s0, {});
      AsideKeepsCore(PortReset(s0), HandleSlot(s, slot), {});
    } else {
      AsideKeepsCore(s, HandleSlot(s, slot), {});
    }
  }

  lemma SlotKeepsCore(s: Ahci, slot: Bit)
    requires Core(s, {}) && slot in Issuable(s) && CanIssue(s)
    ensures Core(HandleSlot(s, slot), {})
  {
    var c := s.table[slot];
    if c.Control? {
      ControlKeepsCore(s, slot);
    } else if !c.NotH2D? {
      CmdKeepsCore(s, slot, c);
    }
  }

  lemma IterKeepsCore(s: Ahci)
    requires Core(s, {}) && CanIssue(s)
    ensures Core(PortIter(s), {})
  {
    if s.regs.ccs in Issuable(s) {
      var s1 := s.(regs := s.regs.(cmdCcs := s.regs.ccs));
      AsideKeepsCore(s, s1, {});
      SlotKeepsCore(s1, s.regs.ccs);
      var s2 := HandleSlot(s1, s.regs.ccs);
      AsideKeepsCore(s2, s2.(regs := s2.regs.(ccs := NextSlot(s2.regs.ccs))), {});
    } else {
      AsideKeepsCore(s, PortIter(s), {});
    }
  }
}
