/**
 What each operation of an AHCI port does to the port, its I/O requests and the
 block queue (bhyve/pci_ahci.c).  Registers are sets of bits; the guest's command
 tables are values in 'table', one for each slot.
 */
module AhciSpec {
  import opened BlockQueue
  import opened AhciIov
  import opened Interrupts
  import opened DiskTransfer

  const IOQSZ: nat := 71

  // PxTFD
  const TFD_ERR: Bit := 0
  const TFD_DRQ: Bit := 3
  const TFD_DSC: Bit := 4
  const TFD_DMA: Bit := 5
  const TFD_READY: Bit := 6
  const TFD_BUSY: Bit := 7
  const TFD_DIAG: Bit := 8
  const TFD_ABORT: Bit := 10
  const TFD_SDB_MASK: Bits := {0, 1, 2, 4, 5, 6}
  const TFD_OK: Bits := {TFD_READY, TFD_DSC}
  const TFD_FAIL: Bits := {TFD_ABORT, TFD_READY, TFD_ERR}

  // PxCMD
  const CMD_ST: Bit := 0
  const CMD_SUD: Bit := 1
  const CMD_POD: Bit := 2
  const CMD_CLO: Bit := 3
  const CMD_FRE: Bit := 4
  const CMD_FR: Bit := 14
  const CMD_CR: Bit := 15
  const CMD_CPS: Bit := 16
  const CMD_ICC: Bits := {28, 29, 30, 31}
  const CMD_WRITABLE: Bits := {0, 1, 2, 3, 4, 23, 24, 25, 26, 27, 28, 29, 30, 31}

  // What a slot's command table asks for.
  datatype Command =
    | NotH2D                                            // not a host-to-device FIS
    | Control(srst: bool)                               // device control, no command
    | Rw(write: bool, ncq: bool, lba: nat, count: nat, prdt: seq<Prd>)
    | FlushCache
    | Sync(ok: bool)                                    // completes at once

  datatype Ioreq = Ioreq(slot: Bit, len: nat, done: nat, more: bool, req: Request)

  // The port's registers and the flags kept beside them.
  datatype Regs = Regs(ccs: Bit, pending: Bits, ci: Bits, sact: Bits, tfd: Bits, cmd: Bits, cmdCcs: Bit,
                       waitforclear: bool, reset: bool, rfis: bool)

  datatype Ahci = Ahci(
    regs: Regs, intr: Intr,
    table: seq<Command>, prdbc: seq<nat>,
    ioreqs: seq<Ioreq>, iofhd: seq<nat>, iobhd: seq<nat>,
    q: Queues, rdonly: bool,
    trace: seq<IoOp>)   // the transfers the worker has executed

  // ----- FISes to the host

  predicate FisOn(s: Ahci) { s.regs.rfis && CMD_FRE in s.regs.cmd }

  function WriteFis(s: Ahci, error: bool, irq: Bits): Ahci {
    if !FisOn(s) then s
    else
      s.(regs := s.regs.(waitforclear := s.regs.waitforclear || error),
         intr := RaisePort(s.intr, if error then irq + {IX_TFE} else irq))
  }

  function WriteFisSdb(s: Ahci, slot: Bit, tfd: Bits): Ahci {
    var sact := if TFD_ERR in tfd then s.regs.sact else s.regs.sact - {slot};
    var status := (s.regs.tfd - TFD_SDB_MASK) + (tfd * TFD_SDB_MASK);
    WriteFis(s.(regs := s.regs.(sact := sact, tfd := status)), TFD_ERR in tfd, {IX_SDB})
  }

  function WriteFisD2h(s: Ahci, slot: Bit, tfd: Bits): Ahci {
    var ci := if TFD_ERR in tfd then s.regs.ci else s.regs.ci - {slot};
    WriteFis(s.(regs := s.regs.(ci := ci, tfd := tfd)), TFD_ERR in tfd, {IX_DHR})
  }

  function WriteFisD2hNcq(s: Ahci, slot: Bit): Ahci {
    WriteFis(s.(regs := s.regs.(tfd := TFD_OK, ci := s.regs.ci - {slot})), false, {})
  }

  // ----- issuing commands

  // What HandleRw may rely on: a free request, a free queue element, and the scan's assertion.
  predicate CanIssue(s: Ahci) {
    s.iofhd != [] && s.q.free != [] && s.iofhd[0] < |s.ioreqs|
  }

  // The first free request, used as r: off the free list, on the busy list, its slot pending.
  function InFlight(s: Ahci, r: Ioreq): Ahci
    requires CanIssue(s)
  {
    var id := s.iofhd[0];
    s.(regs := s.regs.(pending := s.regs.pending + {r.slot}),
       iofhd := s.iofhd[1..], iobhd := [id] + s.iobhd, ioreqs := s.ioreqs[id := r])
  }

  // The round of a transfer that starts at byte 'done'.
  function RoundOf(s: Ahci, slot: Bit, c: Command, done: nat): Ioreq
    requires CanIssue(s) && c.Rw? && done <= c.count * SECTOR
  {
    var b := BuildIovSpec(c.prdt, c.count * SECTOR, done);
    Ioreq(slot, c.count * SECTOR, done + b.todo, b.more, Request(s.iofhd[0], c.lba * SECTOR + done, b.iov))
  }

  function OpOf(c: Command): Op { if c.Rw? && c.write then Write else Read }

  function HandleRw(s: Ahci, slot: Bit, c: Command, done: nat): Ahci
    requires CanIssue(s) && c.Rw? && done <= c.count * SECTOR
  {
    var r := RoundOf(s, slot, c, done);
    var s1 := InFlight(s, r);
    var s2 := if c.ncq && done == 0 then WriteFisD2hNcq(s1, slot) else s1;
    s2.(q := EnqueueSpec(s2.q, r.req, OpOf(c)))
  }

  // The request keeps whatever offset and pieces its last use left in it.
  function HandleFlush(s: Ahci, slot: Bit): Ahci
    requires CanIssue(s)
  {
    var r := Ioreq(slot, 0, 0, false, s.ioreqs[s.iofhd[0]].req);
    InFlight(s, r).(q := EnqueueSpec(s.q, r.req, Flush))
  }

  function HandleCmd(s: Ahci, slot: Bit, c: Command): Ahci
    requires c.Rw? || c.FlushCache? || c.Sync?
    requires c.Sync? || CanIssue(s)
  {
    var s1 := s.(regs := s.regs.(tfd := s.regs.tfd + {TFD_BUSY}));
    match c
    case Rw(_, _, _, _, _) => HandleRw(s1, slot, c, 0)
    case FlushCache => HandleFlush(s1, slot)
    case Sync(ok) => WriteFisD2h(s1, slot, if ok then TFD_OK else TFD_FAIL)
  }

  function PortReset(s: Ahci): Ahci {
    WriteFis(s.(regs := s.regs.(sact := {}, tfd := {TFD_DIAG, TFD_DSC, TFD_DMA, TFD_READY})), false, {})
  }

  function HandleSlot(s: Ahci, slot: Bit): Ahci
    requires slot < |s.table| && CanIssue(s)
  {
    match s.table[slot]
    case NotH2D => s
    case Control(srst) =>
      var s1 := if srst then s.(regs := s.regs.(reset := true))
                else if s.regs.reset then PortReset(s.(regs := s.regs.(reset := false))) else s;
      s1.(regs := s1.regs.(ci := s1.regs.ci - {slot}))
    case c => HandleCmd(s, slot, c)
  }

  function Issuable(s: Ahci): Bits { s.regs.ci - s.regs.pending }

  predicate Stopped(s: Ahci) {
    || CMD_ST !in s.regs.cmd
    || Issuable(s) == {}
    || TFD_BUSY in s.regs.tfd || TFD_DRQ in s.regs.tfd
    || s.regs.waitforclear
  }

  function NextSlot(b: Bit): Bit { if b == 31 then 0 else b + 1 }

  // One turn of the issue loop.
  function PortIter(s: Ahci): Ahci
    requires s.regs.ccs < |s.table| && CanIssue(s)
  {
    var s1 := if s.regs.ccs !in Issuable(s) then s
              else HandleSlot(s.(regs := s.regs.(cmdCcs := s.regs.ccs)), s.regs.ccs);
    s1.(regs := s1.regs.(ccs := NextSlot(s1.regs.ccs)))
  }

  // ----- stopping and completing

  function CheckStopped(s: Ahci): Ahci {
    if CMD_ST in s.regs.cmd || s.regs.pending != {} then s
    else s.(regs := s.regs.(ccs := 0, cmd := s.regs.cmd - {CMD_CR}, cmdCcs := 0, ci := {}, sact := {},
                            waitforclear := false))
  }

  function IndexOf(xs: seq<nat>, x: nat): (i: nat)
    ensures i <= |xs|
    ensures i < |xs| ==> xs[i] == x
    ensures forall j :: 0 <= j < i ==> xs[j] != x
  {
    if xs == [] || xs[0] == x then 0 else 1 + IndexOf(xs[1..], x)
  }

  predicate IsNcq(c: Command) { c.Rw? && c.ncq }

  // Gives the i-th busy request back to the free list.
  function Release(s: Ahci, i: nat): Ahci
    requires i < |s.iobhd|
  {
    s.(iobhd := RemoveAt(s.iobhd, i), iofhd := s.iofhd + [s.iobhd[i]])
  }

  function CancelSlot(s: Ahci, slot: Bit): Ahci
    requires slot < |s.table|
  {
    var r := if IsNcq(s.table[slot]) then s.regs.(sact := s.regs.sact - {slot})
             else s.regs.(ci := s.regs.ci - {slot});
    s.(regs := r.(pending := r.pending - {slot}))
  }

  // Cancels the i-th busy request, if its element is still pending.
  function StopAt(s: Ahci, i: nat): Ahci
    requires |s.table| == 32 && i < |s.iobhd| && s.iobhd[i] < |s.ioreqs|
  {
    var id := s.iobhd[i];
    var s1 := s.(q := CancelSpec(s.q, id));
    if FindId(s.q.pend, id) == |s.q.pend| then s1 else Release(CancelSlot(s1, s.ioreqs[id].slot), i)
  }

  // Cancels from the i-th busy request on.
  function StopFrom(s: Ahci, i: nat): Ahci
    requires |s.table| == 32 && forall k :: 0 <= k < |s.iobhd| ==> s.iobhd[k] < |s.ioreqs|
    requires i <= |s.iobhd|
    decreases |s.iobhd| - i
  {
    if i == |s.iobhd| then s
    else if FindId(s.q.pend, s.iobhd[i]) == |s.q.pend| then StopFrom(StopAt(s, i), i + 1)
    else StopFrom(StopAt(s, i), i)
  }

  // One turn of the cancelling loop.
  lemma StopTurn(s: Ahci, i: nat)
    requires |s.table| == 32 && i < |s.iobhd| && forall k :: 0 <= k < |s.iobhd| ==> s.iobhd[k] < |s.ioreqs|
    ensures var t, next := StopAt(s, i), if FindId(s.q.pend, s.iobhd[i]) == |s.q.pend| then i + 1 else i;
            && |t.table| == 32 && next <= |t.iobhd| && |t.iobhd| - next < |s.iobhd| - i
            && (forall k :: 0 <= k < |t.iobhd| ==> t.iobhd[k] < |t.ioreqs|)
            && StopFrom(s, i) == StopFrom(t, next)
  {
  }

  function PortStop(s: Ahci): Ahci
    requires |s.table| == 32 && forall k :: 0 <= k < |s.iobhd| ==> s.iobhd[k] < |s.ioreqs|
  {
    CheckStopped(StopFrom(s, 0))
  }

  // The part of a completion callback before it continues or issues.
  function CbRelease(s: Ahci, id: nat, err: bool): Ahci
    requires IndexOf(s.iobhd, id) < |s.iobhd| && id < |s.ioreqs| && |s.prdbc| == 32
  {
    var s1 := Release(s, IndexOf(s.iobhd, id));
    if err then s1 else s1.(prdbc := s1.prdbc[s.ioreqs[id].slot := s.ioreqs[id].done])
  }

  function FinishFis(s: Ahci, slot: Bit, err: bool): Ahci
    requires |s.table| == 32
  {
    var tfd := if err then TFD_FAIL else TFD_OK;
    if IsNcq(s.table[slot]) then WriteFisSdb(s, slot, tfd) else WriteFisD2h(s, slot, tfd)
  }

  // The part of a completion callback that ends the command of a slot.
  function CbFinish(s: Ahci, slot: Bit, err: bool): Ahci
    requires |s.table| == 32
  {
    var s1 := FinishFis(s, slot, err);
    CheckStopped(s1.(regs := s1.regs.(pending := s1.regs.pending - {slot})))
  }

  // ----- invariants

  function AllIds(): seq<nat> { seq(IOQSZ, i => i) }

  function SlotsOf(ioreqs: seq<Ioreq>, ids: seq<nat>): (r: seq<nat>)
    requires forall k :: 0 <= k < |ids| ==> ids[k] < |ioreqs|
    ensures |r| == |ids|
  {
    seq(|ids|, k requires 0 <= k < |ids| => ioreqs[ids[k]].slot)
  }

  // A transfer whose rounds meet the assertion of the scan.
  ghost predicate GoodCommand(c: Command) {
    c.Rw? ==> RoundsFit(c.prdt, c.count * SECTOR, 0)
  }

  /** Entries of 16 bytes make any transfer good. */
  lemma SixteenBytesGood(c: Command)
    requires c.Rw? && Sizes16(c.prdt)
    ensures GoodCommand(c)
  {
    SixteenBytesSuffice(c.prdt, c.count * SECTOR);
    FitEverywhere(c.prdt, c.count * SECTOR, 0);
  }

  // The same for the rounds from 'done' on.
  ghost predicate FitFrom(c: Command, done: nat)
    requires c.Rw? && done <= c.count * SECTOR
  {
    RoundsFit(c.prdt, c.count * SECTOR, done)
  }

  // The queue element e carries busy request id, which is the next round of its slot's command.
  ghost predicate Flight(e: Elem, id: nat, ioreqs: seq<Ioreq>, table: seq<Command>)
    requires |table| == 32
  {
    && id < |ioreqs|
    && var r := ioreqs[id];
       && r.req.id == id && e.req == r.req
       && (match table[r.slot]
           case Rw(write, _, lba, count, prdt) =>
             var start := e.req.offset - lba * SECTOR;
             && e.op == (if write then Write else Read)
             && 0 <= start <= r.len == count * SECTOR && start % SECTOR == 0 && start <= r.done
             && RoundsFit(prdt, r.len, start)
             && BuildIovSpec(prdt, r.len, start) == Chunk(r.req.iov, r.done - start, r.more)
           case FlushCache => e.op == Flush && !r.more
           case _ => false)
  }

  ghost predicate Flights(s: Ahci)
    requires |s.table| == 32
  {
    && |s.q.pend| == |s.iobhd|
    && forall i :: 0 <= i < |s.q.pend| ==> Flight(s.q.pend[i], s.iobhd[|s.iobhd| - 1 - i], s.ioreqs, s.table)
  }

  ghost predicate Shape(s: Ahci) {
    && |s.table| == 32 && |s.prdbc| == 32 && |s.ioreqs| == IOQSZ
    && forall k :: 0 <= k < IOQSZ ==> s.ioreqs[k].req.id == k
  }

  // Free and busy requests partition all requests; 'extra' is a slot in the middle of its callback.
  ghost predicate Conserved(s: Ahci, extra: Bits)
    requires Shape(s)
  {
    && multiset(s.iofhd) + multiset(s.iobhd) == multiset(AllIds())
    && (forall k :: 0 <= k < |s.iobhd| ==> s.iobhd[k] < IOQSZ)
    && multiset(SlotsOf(s.ioreqs, s.iobhd)) + multiset(extra) == multiset(s.regs.pending)
  }

  ghost predicate Core(s: Ahci, extra: Bits) {
    && Shape(s) && Conserved(s, extra) && |extra| <= 1
    && Inv(s.q) && |s.q.busy| <= 1
    && Flights(s)
    && (forall slot :: slot in s.regs.ci + s.regs.pending ==> GoodCommand(s.table[slot]))
    && IntrOk(s.intr)
  }

  // ----- counting

  lemma BitSetSize(b: Bits, n: nat)
    requires forall x :: x in b ==> x < n
    ensures |b| <= n
  {
    if n == 0 {
      assert b == {};
    } else if n <= 32 && n - 1 in b {
      var rest := b - {n - 1};
      BitSetSize(rest, n - 1);
      assert b == rest + {n - 1};
    } else {
      BitSetSize(b, n - 1);
    }
  }

  lemma AllIdsBag(id: nat)
    ensures multiset(AllIds())[id] <= 1
    ensures id in multiset(AllIds()) <==> id < IOQSZ
    ensures |multiset(AllIds())| == IOQSZ
  {
    IotaBag(IOQSZ, id);
  }

  lemma {:induction false} IotaBag(n: nat, id: nat)
    ensures multiset(seq(n, i => i))[id] == if id < n then 1 else 0
  {
    if n > 0 {
      IotaBag(n - 1, id);
      assert seq(n, i => i) == seq(n - 1, i => i) + [n - 1];
    } else {
      assert seq(n, i => i) == [];
    }
  }

  /** At most 32 requests are in flight, so there is always a free request and a free
      queue element: the assertions of the source cannot fire. */
  lemma NeverExhausted(s: Ahci, extra: Bits)
    requires Core(s, extra)
    ensures |s.iobhd| + |extra| == |s.regs.pending| <= 32
    ensures |s.q.pend| == |s.iobhd|
    ensures CanIssue(s)
  {
    assert |multiset(s.regs.pending)| == |s.regs.pending|;
    assert |multiset(extra)| == |extra|;
    BitSetSize(s.regs.pending, 32);
    AllIdsBag(0);
    assert |multiset(s.iofhd) + multiset(s.iobhd)| == |s.iofhd| + |s.iobhd|;
    CellCount(s.q);
    AllIdsBag(s.iofhd[0]);
    assert s.iofhd[0] in multiset(s.iofhd) + multiset(s.iobhd);
  }
}
