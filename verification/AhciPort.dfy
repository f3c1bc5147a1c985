/**
 The AHCI port as the code updates it: registers and request lists in place, loops,
 and re-entrant completion callbacks.  Every method is proved equal to its specification.
 */
module AhciPort {
  import opened Bytes
  import opened BlockQueue
  import opened AhciIov
  import opened Interrupts
  import opened DiskTransfer
  import opened AhciSpec
  import opened AhciRuns
  import opened AhciIssue
  import opened AhciDrain
  import opened AhciWork
  import opened AhciDelivery
  import opened AhciReach
  import opened AhciSteps

  class Port {
    var regs: Regs
    var pxis: Bits
    var pxie: Bits
    // the host controller
    var gis: Bits
    var gie: bool
    var lintr: bool
    // guest memory: command tables, and the byte counts in the command headers
    var table: seq<Command>
    var prdbc: seq<nat>
    // I/O requests
    var ioreqs: seq<Ioreq>
    var iofhd: seq<nat>
    var iobhd: seq<nat>

    const rdonly: bool
    const bctx: BlockContext
    const pin: IntxPin
    ghost var trace: seq<IoOp>

    ghost function IntrState(): Intr
      reads this, pin
    {
      Intr(pxis, pxie, gis, gie, lintr, pin.state, pin.line, pin.disabled)
    }

    ghost function State(): Ahci
      reads this, pin, bctx
    {
      Ahci(regs, IntrState(), table, prdbc, ioreqs, iofhd, iobhd, bctx.State(), rdonly, trace)
    }

    constructor (table: seq<Command>)
      requires |table| == 32
      ensures State() == PowerOn(table) && fresh(bctx) && fresh(pin)
    {
      regs := Regs(0, {}, {}, {}, {TFD_DIAG, TFD_DSC, TFD_DMA, TFD_READY}, {CMD_SUD, CMD_POD, CMD_CPS}, 0,
                   false, false, false);
      pxis, pxie, gis, gie, lintr := {}, {}, {}, false, false;
      this.table := table;
      prdbc := seq(32, _ => 0);
      ioreqs := seq(IOQSZ, k requires 0 <= k < IOQSZ => Ioreq(0, 0, 0, false, Request(k, 0, [])));
      iofhd, iobhd := seq(IOQSZ, i => i), [];
      rdonly := false;
      bctx := new BlockContext();
      pin := new IntxPin();
      trace := [];
    }

    // ----- interrupts

    method LowerLine()
      modifies this`lintr, pin
      ensures IntrState() == var u := old(IntrState()); if u.lintr then LintrDeassert(u).(lintr := false) else u
    {
      if lintr {
        pin.Deassert(IntrState());
        lintr := false;
      }
    }

    method RaiseLine()
      modifies this`lintr, pin
      ensures IntrState() == var u := old(IntrState()); if u.lintr then u else LintrAssert(u.(lintr := true))
    {
      if !lintr {
        lintr := true;
        pin.Assert(IntrState());
      }
    }

    method PortIntr()
      modifies this`gis, this`lintr, pin
      ensures IntrState() == Interrupts.PortIntr(old(IntrState()))
    {
      if pxis * pxie == {} || PORT in gis {
        return;
      }
      gis := gis + {PORT};
      if !gie {
        return;
      }
      RaiseLine();
    }

    method GenerateIntr()
      modifies this`gis, this`lintr, pin
      ensures IntrState() == Interrupts.GenerateIntr(old(IntrState()))
    {
      if pxis * pxie != {} {
        gis := gis + {PORT};
      }
      if gis == {} || !gie {
        LowerLine();
      } else {
        RaiseLine();
      }
    }

    method WriteInterrupt(w: IntrWrite)
      modifies this`pxis, this`pxie, this`gis, this`gie, this`lintr, pin
      ensures IntrState() == WriteIntr(old(IntrState()), w)
    {
      match w {
        case PxIS(v) =>
          pxis := pxis - v;
          PortIntr();
        case PxIE(v) =>
          pxie := v * IE_MASK;
          PortIntr();
        case GhcIE(on) =>
          gie := on;
          GenerateIntr();
        case IS(v) =>
          gis := gis - v;
          GenerateIntr();
        case Command(dis) => pin.CommandWrite(dis, IntrState());
      }
    }

    // ----- FISes

    method WriteFis(error: bool, irq0: Bits)
      modifies this`regs, this`pxis, this`gis, this`lintr, pin
      ensures State() == AhciSpec.WriteFis(old(State()), error, irq0)
    {
      if !regs.rfis || CMD_FRE !in regs.cmd {
        return;
      }
      var irq := irq0;
      if error {
        regs := regs.(waitforclear := true);
        irq := irq + {IX_TFE};
      }
      if irq - pxis != {} {
        pxis := pxis + irq;
        PortIntr();
      }
      assert IntrState() == RaisePort(old(IntrState()), irq);
    }

    method WriteFisSdb(slot: Bit, status: Bits)
      modifies this`regs, this`pxis, this`gis, this`lintr, pin
      ensures State() == AhciSpec.WriteFisSdb(old(State()), slot, status)
    {
      if TFD_ERR !in status {
        regs := regs.(sact := regs.sact - {slot});
      }
      regs := regs.(tfd := (regs.tfd - TFD_SDB_MASK) + (status * TFD_SDB_MASK));
      WriteFis(TFD_ERR in status, {IX_SDB});
    }

    method WriteFisD2h(slot: Bit, status: Bits)
      modifies this`regs, this`pxis, this`gis, this`lintr, pin
      ensures State() == AhciSpec.WriteFisD2h(old(State()), slot, status)
    {
      if TFD_ERR !in status {
        regs := regs.(ci := regs.ci - {slot});
      }
      regs := regs.(tfd := status);
      WriteFis(TFD_ERR in status, {IX_DHR});
    }

    method WriteFisD2hNcq(slot: Bit)
      modifies this`regs, this`pxis, this`gis, this`lintr, pin
      ensures State() == AhciSpec.WriteFisD2hNcq(old(State()), slot)
    {
      regs := regs.(tfd := TFD_OK, ci := regs.ci - {slot});
      WriteFis(false, {});
    }

    // ----- issuing

    // Takes the first request off the free list and marks it in flight.
    method TakeRequest(r: Ioreq)
      requires CanIssue(State())
      modifies this`regs, this`ioreqs, this`iofhd, this`iobhd
      ensures State() == InFlight(old(State()), r)
    {
      var id := iofhd[0];
      iofhd := iofhd[1..];
      ioreqs := ioreqs[id := r];
      regs := regs.(pending := regs.pending + {r.slot});
      iobhd := [id] + iobhd;
    }

    method HandleRw(slot: Bit, c: Command, done: nat)
      requires CanIssue(State()) && c.Rw? && done <= c.count * SECTOR
      requires SectorFits(c.prdt, c.count * SECTOR, done)
      modifies this, pin, bctx
      ensures State() == AhciSpec.HandleRw(old(State()), slot, c, done)
    {
      var len := c.count * SECTOR;
      var iov, todo, more := BuildIov(c.prdt, len, done);
      var req := Request(iofhd[0], c.lba * SECTOR + done, iov);
      TakeRequest(Ioreq(slot, len, done + todo, more, req));
      if c.ncq && done == 0 {
        WriteFisD2hNcq(slot);
      }
      var ok := bctx.Submit(req, if c.write then Write else Read);
      assert ok;
    }

    method HandleFlush(slot: Bit)
      requires CanIssue(State())
      modifies this, bctx
      ensures State() == AhciSpec.HandleFlush(old(State()), slot)
    {
      var req := ioreqs[iofhd[0]].req;
      TakeRequest(Ioreq(slot, 0, 0, false, req));
      var ok := bctx.Submit(req, Flush);
      assert ok;
    }

    method HandleCmd(slot: Bit, c: Command)
      requires CanIssue(State()) && (c.Rw? || c.FlushCache? || c.Sync?)
      requires c.Rw? ==> SectorFits(c.prdt, c.count * SECTOR, 0)
      modifies this, pin, bctx
      ensures State() == AhciSpec.HandleCmd(old(State()), slot, c)
    {
      regs := regs.(tfd := regs.tfd + {TFD_BUSY});
      match c {
        case Rw(_, _, _, _, _) => HandleRw(slot, c, 0);
        case FlushCache => HandleFlush(slot);
        case Sync(ok) => WriteFisD2h(slot, if ok then TFD_OK else TFD_FAIL);
      }
    }

    method PortReset()
      modifies this`regs, this`pxis, this`gis, this`lintr, pin
      ensures State() == AhciSpec.PortReset(old(State()))
    {
      regs := regs.(sact := {}, tfd := {TFD_DIAG, TFD_DSC, TFD_DMA, TFD_READY});
      WriteFis(false, {});
    }

    method HandleSlot(slot: Bit)
      requires |table| == 32 && CanIssue(State()) && GoodCommand(table[slot])
      modifies this, pin, bctx
      ensures State() == AhciSpec.HandleSlot(old(State()), slot)
    {
      var c := table[slot];
      if c.NotH2D? {
        return;
      }
      if c.Control? {
        if c.srst {
          regs := regs.(reset := true);
        } else if regs.reset {
          regs := regs.(reset := false);
          PortReset();
        }
        regs := regs.(ci := regs.ci - {slot});
        return;
      }
      HandleCmd(slot, c);
    }

    // One turn of the loop of HandlePort.
    method HandleNext()
      requires Core(State(), {}) && CanIssue(State())
      modifies this, pin, bctx
      ensures State() == PortIter(old(State()))
    {
      if regs.ccs in regs.ci - regs.pending {
        regs := regs.(cmdCcs := regs.ccs);
        HandleSlot(regs.ccs);
      }
      regs := regs.(ccs := NextSlot(regs.ccs));
    }

    method HandlePort()
      requires Core(State(), {}) && Halting(State())
      modifies this, pin, bctx
      ensures State() == AhciIssue.HandlePort(old(State()))
    {
      if CMD_ST !in regs.cmd {
        return;
      }
      while regs.ci - regs.pending != {}
        invariant Core(State(), {}) && Halting(State()) && CMD_ST in regs.cmd
        invariant AhciIssue.HandlePort(State()) == AhciIssue.HandlePort(old(State()))
        decreases Rank0(State()), Rank1(State()), Rank2(State())
      {
        if TFD_BUSY in regs.tfd || TFD_DRQ in regs.tfd || regs.waitforclear {
          break;
        }
        NeverExhausted(State(), {});
        IterProgress(State());
        IterEffect(State());
        HandleNext();
      }
    }

    // ----- stopping and completing

    method CheckStopped()
      modifies this`regs
      ensures State() == AhciSpec.CheckStopped(old(State()))
    {
      if CMD_ST !in regs.cmd && regs.pending == {} {
        regs := regs.(ccs := 0, cmd := regs.cmd - {CMD_CR}, cmdCcs := 0, ci := {}, sact := {}, waitforclear := false);
      }
    }

    // Gives the i-th busy request back.
    method ReleaseAt(i: nat)
      requires i < |iobhd|
      modifies this`iofhd, this`iobhd
      ensures State() == Release(old(State()), i)
    {
      var id := iobhd[i];
      iobhd := RemoveAt(iobhd, i);
      iofhd := iofhd + [id];
    }

    // Cancels the i-th busy request, if its element is still pending.
    method StopAt(i: nat) returns (cancelled: bool)
      requires |table| == 32 && i < |iobhd| && iobhd[i] < |ioreqs|
      modifies this`regs, this`iofhd, this`iobhd, bctx
      ensures cancelled <==> FindId(old(bctx.pendq), old(iobhd[i])) < |old(bctx.pendq)|
      ensures State() == AhciSpec.StopAt(old(State()), i)
    {
      cancelled := bctx.CancelRequest(iobhd[i]);
      if cancelled {
        var slot := ioreqs[iobhd[i]].slot;
        if IsNcq(table[slot]) {
          regs := regs.(sact := regs.sact - {slot});
        } else {
          regs := regs.(ci := regs.ci - {slot});
        }
        regs := regs.(pending := regs.pending - {slot});
        ReleaseAt(i);
      }
    }

    method PortStop()
      requires |table| == 32 && forall k :: 0 <= k < |iobhd| ==> iobhd[k] < |ioreqs|
      modifies this`regs, this`iofhd, this`iobhd, bctx
      ensures State() == AhciSpec.PortStop(old(State()))
    {
      var i := 0;
      while i < |iobhd|
        invariant 0 <= i <= |iobhd| && |table| == 32
        invariant forall k :: 0 <= k < |iobhd| ==> iobhd[k] < |ioreqs|
        invariant StopFrom(State(), i) == StopFrom(old(State()), 0)
        decreases |iobhd| - i
      {
        StopTurn(State(), i);
        var cancelled := StopAt(i);
        if !cancelled {
          i := i + 1;
        }
      }
      CheckStopped();
    }

    method FinishSlot(slot: Bit, err: bool)
      requires |table| == 32
      modifies this`regs, this`pxis, this`gis, this`lintr, pin
      ensures State() == CbFinish(old(State()), slot, err)
    {
      var status := if !err then TFD_OK else TFD_FAIL;
      if IsNcq(table[slot]) {
        WriteFisSdb(slot, status);
      } else {
        WriteFisD2h(slot, status);
      }
      regs := regs.(pending := regs.pending - {slot});
      CheckStopped();
    }

    method TakeBack(id: nat, err: bool)
      requires id < |ioreqs| && |prdbc| == 32 && IndexOf(iobhd, id) < |iobhd|
      modifies this`iofhd, this`iobhd, this`prdbc
      ensures State() == CbRelease(old(State()), id, err)
    {
      ReleaseAt(IndexOf(iobhd, id));
      if !err {
        prdbc := prdbc[ioreqs[id].slot := ioreqs[id].done];
      }
    }

    // The completion callback, called by the worker while the request is on the busy queue.
    method IoreqCb(id: nat, err: bool)
      requires id < |ioreqs| && |table| == 32 && |prdbc| == 32 && IndexOf(iobhd, id) < |iobhd|
      requires var slot := ioreqs[id].slot;
               Core(CbRelease(State(), id, err), {slot}) && GoodCommand(table[slot])
      requires ioreqs[id].more && !err ==> Continues(State(), id)
      requires Driven(State())
      modifies this, pin, bctx
      ensures State() == Callback(old(State()), id, err)
    {
      var r := ioreqs[id];
      ghost var s1 := CbRelease(State(), id, err);
      NeverExhausted(s1, {r.slot});
      TakeBack(id, err);
      if !err && r.more {
        HandleRw(r.slot, table[r.slot], r.done);
      } else {
        FinishKeepsCore(s1, r.slot, err);
        DrivenHalts(CbFinish(s1, r.slot, err));
        FinishSlot(r.slot, err);
        HandlePort();
      }
    }

    // ----- the worker

    // Takes the next request and moves its bytes.
    method TakeNext(ram: array<byte>, disk: array<byte>) returns (found: bool, id: nat, err: bool)
      requires Core(State(), {}) && bctx.busyq == [] && ram != disk
      requires Ready(State()) ==> AllValid(ExecutedNext(State()), Memory(ram[..], disk[..]))
      modifies this`trace, bctx, ram, disk
      ensures found <==> Ready(old(State()))
      ensures !found ==> State() == old(State()) && Memory(ram[..], disk[..]) == old(Memory(ram[..], disk[..]))
      ensures found ==> State() == Begin(old(State())) && id == old(bctx.pendq)[0].req.id && err == Fails(old(State()))
      ensures found ==>
                Memory(ram[..], disk[..]) == ExecAll(old(Memory(ram[..], disk[..])), ExecutedNext(old(State())))
    {
      ghost var s, m := State(), Memory(ram[..], disk[..]);
      NothingRunnable(s);
      id, err := 0, false;
      found := bctx.Dequeue();
      if found {
        HeadFlight(s);
        var be := bctx.busyq[0];
        ghost var e := ExecutedNext(s);
        trace := trace + e;
        assert State() == Begin(s);
        if e != [] { ExecOne(m, e[0]); }
        var error := Proc(ram, disk, rdonly, be.op, be.req.offset, be.req.iov);
        id, err := be.req.id, error != Ok;
      }
    }

    // Calls back the request just executed.
    method CallBack(id: nat, err: bool, ghost s: Ahci)
      requires Ready(s) && Driven(s) && State() == Begin(s) && id == s.q.pend[0].req.id && err == Fails(s)
      modifies this, pin, bctx
      ensures State() == Called(s)
    {
      CallbackReady(s);
      IoreqCb(id, err);
    }

    // Calls it back and completes it.
    method CompleteOne(id: nat, err: bool, ghost s: Ahci)
      requires Ready(s) && Driven(s) && State() == Begin(s) && id == s.q.pend[0].req.id && err == Fails(s)
      modifies this, pin, bctx
      ensures State() == Round(s)
    {
      CallBack(id, err, s);
      CallbackKeeps(s);
      bctx.CompleteBusy(0);
    }

    // Takes, executes and completes one request.
    method WorkOne(ram: array<byte>, disk: array<byte>) returns (found: bool)
      requires Core(State(), {}) && Driven(State()) && bctx.busyq == [] && ram != disk
      requires Ready(State()) ==> AllValid(ExecutedNext(State()), Memory(ram[..], disk[..]))
      modifies this, pin, bctx, ram, disk
      ensures found <==> Ready(old(State()))
      ensures State() == if found then Round(old(State())) else old(State())
      ensures Memory(ram[..], disk[..]) == var m := old(Memory(ram[..], disk[..]));
                                           if found then ExecAll(m, ExecutedNext(old(State()))) else m
    {
      ghost var s := State();
      var id, err;
      found, id, err := TakeNext(ram, disk);
      ghost var r, d := ram[..], disk[..];
      if found {
        CompleteOne(id, err, s);
      }
      assert ram[..] == r && disk[..] == d;
    }

    // Executes everything queued, moving bytes between guest memory and the disk.
    method Work(ram: array<byte>, disk: array<byte>)
      requires Settled(State()) && ram != disk
      requires AllReach(State(), Memory(ram[..], disk[..]))
      modifies this, pin, bctx, ram, disk
      ensures trace == old(trace) + DrainTrace(old(State()))
      ensures State() == Drain(old(State())) && AllValid(DrainTrace(old(State())), old(Memory(ram[..], disk[..])))
      ensures Memory(ram[..], disk[..]) == ExecAll(old(Memory(ram[..], disk[..])), DrainTrace(old(State())))
    {
      ghost var s0, m0 := State(), Memory(ram[..], disk[..]);
      ghost var did: seq<IoOp> := [];
      DrainValid(s0, m0);
      WorkerStarts(s0, m0);
      DrainTraceIs(s0);
      var more := true;
      while more
        invariant Worked(s0, m0, State(), Memory(ram[..], disk[..]), did)
        invariant !more ==> State().q.pend == []
        decreases ToIssue(State()), AhciWork.Work(ioreqs, iobhd), more
      {
        ghost var s := State();
        if Ready(s) {
          WorkerStep(s0, m0, s, Memory(ram[..], disk[..]), did);
          RoundOwes(s);
          did := did + ExecutedNext(s);
        }
        more := WorkOne(ram, disk);
      }
      WorkerEnds(s0, m0, State(), Memory(ram[..], disk[..]), did);
    }

    // ----- register writes

    method WriteCmd(v: Bits)
      requires Quiet(State())
      modifies this`regs, this`iofhd, this`iobhd, bctx
      ensures State() == CmdWrite(old(State()), v)
    {
      regs := regs.(cmd := (regs.cmd - CMD_WRITABLE) + (v * CMD_WRITABLE));
      if CMD_ST !in v {
        PortStop();
      } else {
        regs := regs.(cmd := regs.cmd + {CMD_CR});
      }
      assert State() == CmdStart(old(State()), v);
      if CMD_FRE in v {
        regs := regs.(cmd := regs.cmd + {CMD_FR}, rfis := true);
      } else {
        regs := regs.(cmd := regs.cmd - {CMD_FR});
      }
      if CMD_CLO in v {
        regs := regs.(tfd := regs.tfd - {TFD_BUSY, TFD_DRQ}, cmd := regs.cmd - {CMD_CLO});
      }
      if v * CMD_ICC != {} {
        regs := regs.(cmd := regs.cmd - CMD_ICC);
      }
    }

    method ResetInterrupts()
      modifies this`gie, this`gis, this`lintr, this`pxie, this`pxis, pin
      ensures IntrState() == ResetIntr(old(IntrState()))
    {
      gie, gis := false, {};
      LowerLine();
      pxie, pxis := {}, {};
    }

    method ResetHost()
      modifies this, pin
      ensures State() == HostResetSpec(old(State()))
    {
      ResetInterrupts();
      regs := regs.(cmd := {CMD_SUD, CMD_POD, CMD_CPS}, cmdCcs := 0);
      PortReset();
    }

    method WriteRegister(w: RegWrite)
      requires Quiet(State()) && Driven(State()) && AllowedWrite(State(), w)
      modifies this, pin, bctx
      ensures State() == RegWriteSpec(old(State()), w)
    {
      WriteStartKeeps(State(), w);
      DrivenHalts(WriteStart(State(), w));
      match w {
        case PxCMD(v) =>
          WriteCmd(v);
          HandlePort();
        case PxSCTL(reset) =>
          if CMD_ST !in regs.cmd && reset {
            PortReset();
          }
        case PxSACT(v) => regs := regs.(sact := regs.sact + v);
        case PxCI(v) =>
          regs := regs.(ci := regs.ci + v);
          HandlePort();
        case Interrupt(iw) => WriteInterrupt(iw);
        case HostReset => ResetHost();
      }
    }
  }
}
