/**
 The worker's drain with its completion callbacks (bhyve/block_if.c, blockif_thr;
 bhyve/pci_ahci.c, ata_ioreq_cb): it ends, and it completes everything in flight.
 */
module AhciDrain {
  import opened BlockQueue
  import opened Interrupts
  import opened AhciIov
  import opened DiskTransfer
  import opened AhciSpec
  import opened AhciRuns
  import opened AhciIssue

  predicate MayFail(s: Ahci, slot: Bit)
    requires |s.table| == 32
  {
    s.table[slot] == Sync(false) || (s.rdonly && s.table[slot].Rw? && s.table[slot].write)
  }

  // Issued, the slot would hang the issue loop, or fail unseen and be issued again, without end.
  predicate Hangs(s: Ahci, slot: Bit)
    requires |s.table| == 32
  {
    s.table[slot].NotH2D? || (MayFail(s, slot) && !FisOn(s))
  }

  // What the guest owes while the port runs.
  ghost predicate Driven(s: Ahci)
    requires |s.table| == 32
  {
    CMD_ST in s.regs.cmd ==> forall t :: t in s.regs.ci ==> !Hangs(s, t)
  }

  lemma DrivenHalts(s: Ahci)
    requires |s.table| == 32 && Driven(s)
    ensures Halting(s)
  {
  }

  // ----- one request: taken, executed, called back, completed

  ghost predicate Ready(s: Ahci) {
    Core(s, {}) && s.q.busy == [] && s.q.pend != []
  }

  function Executed(s: Ahci, e: Elem): seq<IoOp>
    requires e.req.id < |s.ioreqs|
  {
    if e.op == Read || (e.op == Write && !s.rdonly)
    then [IoOp(s.ioreqs[e.req.id].slot, e.op == Write, e.req.offset, e.req.iov)] else []
  }

  lemma HeadFlight(s: Ahci)
    requires Ready(s)
    ensures FirstPend(s.q.pend) == 0
    ensures var n, e := |s.iobhd|, s.q.pend[0];
            n > 0 && e.req.id == s.iobhd[n - 1] < |s.ioreqs| && Flight(e, e.req.id, s.ioreqs, s.table)
  {
    HeadIsRunnable(s.q);
    assert Flight(s.q.pend[0], s.iobhd[|s.iobhd| - 1 - 0], s.ioreqs, s.table);
  }

  lemma BusyIdsDiffer(s: Ahci, i: nat, j: nat)
    requires Shape(s) && Conserved(s, {}) && i < j < |s.iobhd|
    ensures s.iobhd[i] != s.iobhd[j]
  {
    var id := s.iobhd[i];
    AllIdsBag(id);
    assert s.iobhd == s.iobhd[..j] + [s.iobhd[j]] + s.iobhd[j + 1..];
    assert multiset(s.iobhd)[id] <= (multiset(s.iofhd) + multiset(s.iobhd))[id] <= 1;
    assert s.iobhd[..j][i] == id;
    assert multiset(s.iobhd[..j])[id] >= 1;
  }

  // The worker has taken the head request and moved its data.
  function Begin(s: Ahci): Ahci
    requires Ready(s)
  {
    HeadFlight(s);
    s.(q := DequeueSpec(s.q), trace := s.trace + Executed(s, s.q.pend[0]))
  }

  lemma LastIndex(s: Ahci)
    requires Shape(s) && Conserved(s, {}) && s.iobhd != []
    ensures IndexOf(s.iobhd, s.iobhd[|s.iobhd| - 1]) == |s.iobhd| - 1
  {
    var n := |s.iobhd|;
    var i := IndexOf(s.iobhd, s.iobhd[n - 1]);
    if i < n - 1 { BusyIdsDiffer(s, i, n - 1); }
  }

  lemma ReleaseFlights(s: Ahci, r: Ahci)
    requires Ready(s) && |r.table| == 32 && r.table == s.table && r.ioreqs == s.ioreqs
    requires r.q.pend == s.q.pend[1..] && r.iobhd == s.iobhd[..|s.iobhd| - 1]
    ensures Flights(r)
  {
    var n := |s.iobhd|;
    forall i | 0 <= i < |r.q.pend| ensures Flight(r.q.pend[i], r.iobhd[|r.iobhd| - 1 - i], r.ioreqs, r.table) {
      assert Flight(s.q.pend[i + 1], s.iobhd[n - 1 - (i + 1)], s.ioreqs, s.table);
    }
  }

  lemma ReleaseLast(s: Ahci, err: bool)
    requires Ready(s)
    ensures var id := s.q.pend[0].req.id;
            && id < |s.ioreqs| && IndexOf(s.iobhd, id) == |s.iobhd| - 1
            && var r := CbRelease(Begin(s), id, err);
               && s.iobhd == r.iobhd + [id] && r.iofhd == s.iofhd + [id] && r.ioreqs == s.ioreqs && r.regs == s.regs
               && r.iobhd == s.iobhd[..|s.iobhd| - 1] && r.table == s.table && |r.prdbc| == |s.prdbc|
               && r.intr == s.intr && r.q == DequeueSpec(s.q)
  {
    HeadFlight(s);
    LastIndex(s);
  }

  lemma BeginRelease(s: Ahci, err: bool)
    requires Ready(s)
    ensures var id := s.q.pend[0].req.id;
            && id < |s.ioreqs| && IndexOf(s.iobhd, id) == |s.iobhd| - 1
            && Core(CbRelease(Begin(s), id, err), {s.ioreqs[id].slot})
            && s.ioreqs[id].slot in s.regs.pending
  {
    HeadFlight(s);
    ReleaseLast(s, err);
    var id := s.q.pend[0].req.id;
    var r := CbRelease(Begin(s), id, err);
    DequeueKeepsInv(s.q);
    ReleaseConserves(s, r, id);
    ReleaseFlights(s, r);
  }

  lemma ReleaseConserves(s: Ahci, r: Ahci, id: nat)
    requires Shape(s) && Conserved(s, {}) && Shape(r)
    requires s.iobhd == r.iobhd + [id] && r.iofhd == s.iofhd + [id]
    requires r.ioreqs == s.ioreqs && r.regs.pending == s.regs.pending
    ensures id < IOQSZ && s.ioreqs[id].slot in s.regs.pending && Conserved(r, {s.ioreqs[id].slot})
  {
    assert s.iobhd[|r.iobhd|] == id;
    var slot := s.ioreqs[id].slot;
    forall k | 0 <= k < |r.iobhd| ensures r.iobhd[k] < IOQSZ { assert s.iobhd[k] == r.iobhd[k]; }
    assert SlotsOf(s.ioreqs, s.iobhd) == SlotsOf(r.ioreqs, r.iobhd) + [slot];
    assert multiset({slot}) == multiset{slot};
    assert slot in multiset(SlotsOf(s.ioreqs, s.iobhd));
    assert slot in multiset(s.regs.pending);
  }

  // The completion callback of request id, run while its element is still on the busy queue.
  function Callback(s: Ahci, id: nat, err: bool): Ahci
    requires id < |s.ioreqs| && |s.table| == 32 && |s.prdbc| == 32 && IndexOf(s.iobhd, id) < |s.iobhd|
    requires var slot := s.ioreqs[id].slot; Core(CbRelease(s, id, err), {slot}) && GoodCommand(s.table[slot])
    requires s.ioreqs[id].more && !err ==> Continues(s, id)
    requires Driven(s)
  {
    var r, s1 := s.ioreqs[id], CbRelease(s, id, err);
    NeverExhausted(s1, {r.slot});
    if !err && r.more then HandleRw(s1, r.slot, s.table[r.slot], r.done)
    else
      FinishKeepsCore(s1, r.slot, err);
      DrivenHalts(CbFinish(s1, r.slot, err));
      HandlePort(CbFinish(s1, r.slot, err))
  }

  // The request's command is a transfer that goes on at a sector boundary.
  ghost predicate Continues(s: Ahci, id: nat)
    requires id < |s.ioreqs| && |s.table| == 32
  {
    var r, c := s.ioreqs[id], s.table[s.ioreqs[id].slot];
    c.Rw? && r.len == c.count * SECTOR && 0 < r.done <= r.len && r.done % SECTOR == 0 && FitFrom(c, r.done)
  }

  lemma FlightContinues(e: Elem, id: nat, s: Ahci)
    requires |s.table| == 32 && Flight(e, id, s.ioreqs, s.table) && GoodCommand(s.table[s.ioreqs[id].slot])
    ensures s.ioreqs[id].more ==> Continues(s, id)
    ensures s.table[s.ioreqs[id].slot].Rw? ==> s.ioreqs[id].done <= s.ioreqs[id].len
  {
    var r, c := s.ioreqs[id], s.table[s.ioreqs[id].slot];
    if c.Rw? {
      var start := e.req.offset - c.lba * SECTOR;
      RoundTakesStream(c.prdt, r.len, start);
      SectorMultiples(start, r.done - start);
    }
  }

  lemma DropPending(s: Ahci, slot: Bit)
    requires Core(s, {slot})
    ensures slot in s.regs.pending && Core(s.(regs := s.regs.(pending := s.regs.pending - {slot})), {})
  {
    assert slot in multiset({slot});
    assert slot in multiset(s.regs.pending);
    assert multiset({slot}) == multiset{slot};
    assert multiset(s.regs.pending - {slot}) == multiset(s.regs.pending) - multiset{slot};
  }

  lemma FinishFisKeepsCore(s: Ahci, slot: Bit, err: bool)
    requires Core(s, {slot})
    ensures Core(FinishFis(s, slot, err), {slot})
  {
    var tfd := if err then TFD_FAIL else TFD_OK;
    if IsNcq(s.table[slot]) { SdbFisKeepsCore(s, slot, tfd, {slot}); } else { D2hFisKeepsCore(s, slot, tfd, {slot}); }
  }

  ghost predicate OnlyFis(s: Ahci, r: Ahci) {
    && Aside(s, r) && r.prdbc == s.prdbc
    && r.regs.cmd == s.regs.cmd && r.regs.rfis == s.regs.rfis && r.regs.ci <= s.regs.ci
  }

  lemma SdbOnlyFis(s: Ahci, slot: Bit, tfd: Bits)
    ensures OnlyFis(s, WriteFisSdb(s, slot, tfd))
  {
  }

  lemma D2hOnlyFis(s: Ahci, slot: Bit, tfd: Bits)
    ensures OnlyFis(s, WriteFisD2h(s, slot, tfd))
  {
  }

  lemma FinishOnlyFis(s: Ahci, slot: Bit, err: bool)
    requires |s.table| == 32
    ensures OnlyFis(s, FinishFis(s, slot, err))
  {
    var tfd := if err then TFD_FAIL else TFD_OK;
    SdbOnlyFis(s, slot, tfd);
    D2hOnlyFis(s, slot, tfd);
  }

  lemma FinishKeepsCore(s: Ahci, slot: Bit, err: bool)
    requires Core(s, {slot}) && Driven(s)
    ensures Core(CbFinish(s, slot, err), {}) && Driven(CbFinish(s, slot, err))
    ensures CbFinish(s, slot, err).q == s.q
  {
    FinishFisKeepsCore(s, slot, err);
    FinishOnlyFis(s, slot, err);
    var s1 := FinishFis(s, slot, err);
    DropPending(s1, slot);
    var s2 := s1.(regs := s1.regs.(pending := s1.regs.pending - {slot}));
    AsideKeepsCore(s2, CheckStopped(s2), {});
  }

  lemma UnblockKeepsCore(s: Ahci)
    requires Core(s, {}) && |s.q.busy| == 1
    ensures Core(s.(q := CompleteBusySpec(s.q, 0)), {})
  {
    CompleteBusyKeepsInv(s.q, 0);
    var t := s.(q := CompleteBusySpec(s.q, 0));
    forall i | 0 <= i < |t.q.pend|
      ensures Flight(t.q.pend[i], t.iobhd[|t.iobhd| - 1 - i], t.ioreqs, t.table)
    {
      assert Flight(s.q.pend[i], s.iobhd[|s.iobhd| - 1 - i], s.ioreqs, s.table);
    }
  }

  // The error the backend reports for the head request.
  predicate Fails(s: Ahci)
    requires s.q.pend != []
  {
    s.q.pend[0].op == Write && s.rdonly
  }

  lemma CallbackReady(s: Ahci)
    requires Ready(s) && Driven(s)
    ensures var m, id, err := Begin(s), s.q.pend[0].req.id, Fails(s);
            && id < |m.ioreqs| && IndexOf(m.iobhd, id) < |m.iobhd| && |m.prdbc| == 32
            && Core(CbRelease(m, id, err), {m.ioreqs[id].slot}) && GoodCommand(m.table[m.ioreqs[id].slot])
            && (m.ioreqs[id].more && !err ==> Continues(m, id)) && Driven(m)
  {
    HeadFlight(s);
    BeginRelease(s, Fails(s));
    FlightContinues(s.q.pend[0], s.q.pend[0].req.id, s);
  }

  // The head request taken, executed and called back.
  function Called(s: Ahci): Ahci
    requires Ready(s) && Driven(s)
  {
    CallbackReady(s);
    Callback(Begin(s), s.q.pend[0].req.id, Fails(s))
  }

  lemma ContinueKeeps(s1: Ahci, slot: Bit, done: nat)
    requires Core(s1, {slot}) && CanIssue(s1) && Driven(s1) && s1.table[slot].Rw? && GoodCommand(s1.table[slot])
    requires 0 < done <= s1.table[slot].count * SECTOR && done % SECTOR == 0 && FitFrom(s1.table[slot], done)
    ensures var r := HandleRw(s1, slot, s1.table[slot], done); Core(r, {}) && Driven(r) && r.q.busy == s1.q.busy
  {
    RwKeepsCore(s1, slot, done, {slot});
    RwIsLaunch(s1, slot, done);
  }

  lemma FinishKeeps(s1: Ahci, slot: Bit, err: bool)
    requires Core(s1, {slot}) && Driven(s1)
    ensures var f := CbFinish(s1, slot, err);
            Core(f, {}) && Halting(f) && Core(HandlePort(f), {}) && Driven(HandlePort(f))
            && HandlePort(f).q.busy == s1.q.busy
  {
    FinishKeepsCore(s1, slot, err);
    DrivenHalts(CbFinish(s1, slot, err));
    HandlePortKeeps(CbFinish(s1, slot, err));
    assert Driven(HandlePort(CbFinish(s1, slot, err)));
  }

  lemma CallbackEnds(m: Ahci, id: nat, err: bool, s1: Ahci, slot: Bit)
    requires id < |m.ioreqs| && |m.table| == 32 && |m.prdbc| == 32 && IndexOf(m.iobhd, id) < |m.iobhd|
    requires slot == m.ioreqs[id].slot && s1 == CbRelease(m, id, err) && Core(s1, {slot}) && GoodCommand(m.table[slot])
    requires (m.ioreqs[id].more && !err ==> Continues(m, id)) && Driven(m) && Driven(s1)
    ensures var c := Callback(m, id, err); Core(c, {}) && Driven(c) && c.q.busy == m.q.busy
  {
    NeverExhausted(s1, {slot});
    if !err && m.ioreqs[id].more {
      ContinueKeeps(s1, slot, m.ioreqs[id].done);
    } else {
      FinishKeeps(s1, slot, err);
    }
  }

  lemma CallbackKeeps(s: Ahci)
    requires Ready(s) && Driven(s)
    ensures Core(Called(s), {}) && Driven(Called(s)) && |Called(s).q.busy| == 1
  {
    CallbackReady(s);
    HeadFlight(s);
    var m, id, err := Begin(s), s.q.pend[0].req.id, Fails(s);
    CallbackEnds(m, id, err, CbRelease(m, id, err), m.ioreqs[id].slot);
  }

  // One turn of the worker's loop.
  function Round(s: Ahci): Ahci
    requires Ready(s) && Driven(s)
  {
    CallbackKeeps(s);
    Called(s).(q := CompleteBusySpec(Called(s).q, 0))
  }

  lemma RoundKeeps(s: Ahci)
    requires Ready(s) && Driven(s)
    ensures Core(Round(s), {}) && Driven(Round(s)) && Round(s).q.busy == []
  {
    CallbackKeeps(s);
    UnblockKeepsCore(Called(s));
  }
}
