/**
 Which bytes a drain can touch: every transfer it executes is a round of a command that
 is issued or in flight when it starts, within that command's disk range and buffers.
 */
module AhciReach {
  import opened BlockQueue
  import opened Interrupts
  import opened AhciIov
  import opened DiskTransfer
  import opened AhciSpec
  import opened AhciRuns
  import opened AhciIssue
  import opened AhciDrain
  import opened AhciWork
  import opened AhciDelivery

  ghost predicate NonEmpty(iov: seq<Iov>) {
    forall k :: 0 <= k < |iov| ==> iov[k].len > 0
  }

  // op moves only bytes of t.
  ghost predicate PartOf(op: IoOp, t: Transfer) {
    && op.owner == t.owner && op.write == t.write
    && t.base <= op.offset && op.offset + TotalLen(op.iov) <= t.base + t.len
    && NonEmpty(op.iov) && forall a :: a in Addrs(op.iov) ==> a in Buffer(t)
  }

  // t's disk range is in the image and its buffers are in memory.
  ghost predicate Reaches(t: Transfer, m: Memory) {
    t.base + t.len <= |m.disk| && forall a :: a in Buffer(t) ==> a < |m.ram|
  }

  // Moving u's bytes changes neither t's source nor its target.
  ghost predicate Apart(u: Transfer, t: Transfer) {
    if u.write then u.base + u.len <= t.base || t.base + t.len <= u.base
    else forall a :: a in Buffer(u) ==> a !in Buffer(t)
  }

  lemma {:induction false} AddrsHas(iov: seq<Iov>, k: nat, a: nat)
    requires k < |iov| && iov[k].base <= a < iov[k].base + iov[k].len
    ensures a in Addrs(iov)
  {
    var init, v := iov[..|iov| - 1], iov[|iov| - 1];
    assert Addrs(iov) == Addrs(init) + Range(v.base, v.len);
    if k < |init| { AddrsHas(init, k, a); } else { RangeHas(v.base, v.len, a); }
  }

  lemma PartValid(op: IoOp, t: Transfer, m: Memory)
    requires PartOf(op, t) && Reaches(t, m)
    ensures Valid(op, m)
  {
    forall k | 0 <= k < |op.iov| ensures op.iov[k].base + op.iov[k].len <= |m.ram| {
      AddrsHas(op.iov, k, op.iov[k].base + op.iov[k].len - 1);
    }
  }

  lemma PartLeavesAlone(op: IoOp, u: Transfer, t: Transfer)
    requires PartOf(op, u) && Apart(u, t)
    ensures LeavesAlone(op, t)
  {
  }

  // ----- a round's pieces are within its command

  lemma {:induction false} ScanNonEmpty(prdt: seq<Prd>, i: nat, skip: nat, left: nat, acc: seq<Iov>)
    requires i <= |prdt| && NonEmpty(acc)
    ensures NonEmpty(ScanFrom(prdt, i, skip, left, acc).iov)
    decreases |prdt| - i
  {
    if i < |prdt| && |acc| < IOV_MAX && left > 0 {
      if Size(prdt[i]) <= skip {
        ScanNonEmpty(prdt, i + 1, skip - Size(prdt[i]), left, acc);
      } else {
        var n := if Size(prdt[i]) - skip > left then left else Size(prdt[i]) - skip;
        ScanNonEmpty(prdt, i + 1, 0, left - n, acc + [Iov(prdt[i].dba + skip, n)]);
      }
    }
  }

  lemma {:induction false} TrimNonEmpty(iov: seq<Iov>, extra: nat)
    requires extra <= TotalLen(iov) && NonEmpty(iov)
    ensures NonEmpty(Trim(iov, extra))
  {
    if extra > 0 && iov[|iov| - 1].len <= extra { TrimNonEmpty(iov[..|iov| - 1], extra - iov[|iov| - 1].len); }
  }

  lemma RoundNonEmpty(prdt: seq<Prd>, len: nat, done: nat)
    requires done <= len
    ensures NonEmpty(BuildIovSpec(prdt, len, done).iov)
  {
    var s := ScanFrom(prdt, 0, done, len - done, []);
    ScanNonEmpty(prdt, 0, done, len - done, []);
    TrimNonEmpty(s.iov, if |s.iov| == IOV_MAX then TotalLen(s.iov) % SECTOR else 0);
  }

  lemma RoundInBuffer(t: Transfer, start: nat, c: Chunk, a: nat)
    requires start <= t.len && RoundOk(t.prdt, t.len, start, c) && a in Addrs(c.iov)
    ensures a in Buffer(t)
  {
    var j :| 0 <= j < |Addrs(c.iov)| && Addrs(c.iov)[j] == a;
    assert Addrs(c.iov)[j] == Stream(t.prdt)[start + j] == Buffer(t)[start + j];
  }

  lemma RoundIsPart(t: Transfer, start: nat)
    requires start <= t.len && SectorFits(t.prdt, t.len, start)
    ensures PartOf(IoOp(t.owner, t.write, t.base + start, BuildIovSpec(t.prdt, t.len, start).iov), t)
  {
    var c := BuildIovSpec(t.prdt, t.len, start);
    RoundTakesStream(t.prdt, t.len, start);
    RoundNonEmpty(t.prdt, t.len, start);
    forall a | a in Addrs(c.iov) ensures a in Buffer(t) { RoundInBuffer(t, start, c, a); }
  }

  // A round of a command in the table.
  ghost predicate RoundIn(op: IoOp, table: seq<Command>) {
    op.owner < |table| && op.owner < 32 && table[op.owner].Rw? && PartOf(op, TransferOf(op.owner, table[op.owner]))
  }

  ghost predicate RoundsOf(ops: seq<IoOp>, table: seq<Command>, slots: Bits) {
    forall i :: 0 <= i < |ops| ==> ops[i].owner in slots && RoundIn(ops[i], table)
  }

  lemma HeadPart(s: Ahci)
    requires Ready(s)
    ensures s.q.pend[0].req.id < |s.ioreqs| && RoundsOf(Executed(s, s.q.pend[0]), s.table, s.regs.pending)
  {
    HeadFlight(s);
    BeginRelease(s, false);
    var e := s.q.pend[0];
    var r := s.ioreqs[e.req.id];
    var c := s.table[r.slot];
    if c.Rw? {
      RoundIsPart(TransferOf(r.slot, c), e.req.offset - c.lba * SECTOR);
    }
  }

  // ----- nothing becomes active during a drain

  function Active(s: Ahci): Bits { s.regs.ci + s.regs.pending }

  lemma CmdActive(s: Ahci, slot: Bit, c: Command)
    requires CanIssue(s) && (c.Rw? || c.FlushCache? || c.Sync?)
    ensures HandleCmd(s, slot, c).regs.pending <= s.regs.pending + {slot}
  {
  }

  lemma SlotActive(s: Ahci, slot: Bit)
    requires |s.table| == 32 && CanIssue(s)
    ensures HandleSlot(s, slot).regs.pending <= s.regs.pending + {slot}
  {
    var c := s.table[slot];
    if c.Rw? || c.FlushCache? || c.Sync? { CmdActive(s, slot, c); }
  }

  lemma IterActive(s: Ahci)
    requires Core(s, {}) && CanIssue(s) && !Stopped(s)
    ensures Active(PortIter(s)) <= Active(s)
  {
    IterEffect(s);
    if s.regs.ccs in Issuable(s) { SlotActive(s.(regs := s.regs.(cmdCcs := s.regs.ccs)), s.regs.ccs); }
  }

  lemma {:induction false} HandlePortActive(s: Ahci)
    requires Core(s, {}) && Halting(s)
    ensures Active(HandlePort(s)) <= Active(s)
    decreases Rank0(s), Rank1(s), Rank2(s)
  {
    if !Stopped(s) {
      NeverExhausted(s, {});
      IterProgress(s);
      IterActive(s);
      HandlePortActive(PortIter(s));
    }
  }

  lemma FinishActive(s: Ahci, slot: Bit, err: bool)
    requires |s.table| == 32
    ensures Active(CbFinish(s, slot, err)) <= Active(s)
  {
    FinishOnlyFis(s, slot, err);
  }

  lemma RoundActive(s: Ahci)
    requires Ready(s) && Driven(s)
    ensures Active(Round(s)) <= Active(s)
  {
    CallbackKeeps(s);
    ReleasedWorks(s);
    CalledIs(s);
    var r, s1 := HeadRequest(s), Released(s);
    if !Fails(s) && r.more {
      ContinueWorks(s1, r.slot, r);
    } else {
      FinishActive(s1, r.slot, Fails(s));
      HandlePortActive(CbFinish(s1, r.slot, Fails(s)));
    }
  }

  lemma RoundsJoin(e: seq<IoOp>, rest: seq<IoOp>, table: seq<Command>, a: Bits, b: Bits)
    requires RoundsOf(e, table, a) && RoundsOf(rest, table, b) && b <= a
    ensures RoundsOf(e + rest, table, a)
  {
  }

  /** Every transfer a drain executes is a round of a command active at its start. */
  lemma {:induction false} DrainRounds(s: Ahci)
    requires Core(s, {}) && s.q.busy == [] && Driven(s)
    ensures RoundsOf(DrainTrace(s), s.table, Active(s))
    decreases ToIssue(s), Work(s.ioreqs, s.iobhd)
  {
    if s.q.pend != [] {
      HeadFlight(s);
      RoundKeeps(s);
      RoundOwes(s);
      RoundFrame(s);
      RoundActive(s);
      HeadPart(s);
      DrainRounds(Round(s));
      RoundsJoin(Executed(s, s.q.pend[0]), DrainTrace(Round(s)), s.table, Active(s), Active(Round(s)));
    }
  }

  // ----- what the guest's commands must be for the drain to stay in bounds

  ghost predicate AllReach(s: Ahci, m: Memory)
    requires |s.table| == 32
  {
    forall x: Bit :: x in Active(s) && s.table[x].Rw? ==> Reaches(TransferOf(x, s.table[x]), m)
  }

  ghost predicate OthersApart(s: Ahci, x: Bit)
    requires |s.table| == 32 && s.table[x].Rw?
  {
    forall y: Bit :: y in Active(s) && y != x && s.table[y].Rw? ==>
      Apart(TransferOf(y, s.table[y]), TransferOf(x, s.table[x]))
  }

  lemma DrainValid(s: Ahci, m: Memory)
    requires Core(s, {}) && s.q.busy == [] && Driven(s) && AllReach(s, m)
    ensures AllValid(DrainTrace(s), m)
  {
    DrainRounds(s);
    var ops := DrainTrace(s);
    forall i | 0 <= i < |ops| ensures Valid(ops[i], m) {
      PartValid(ops[i], TransferOf(ops[i].owner, s.table[ops[i].owner]), m);
    }
  }

  lemma DrainApart(s: Ahci, x: Bit)
    requires Core(s, {}) && s.q.busy == [] && Driven(s) && s.table[x].Rw? && OthersApart(s, x)
    ensures OthersLeaveAlone(DrainTrace(s), TransferOf(x, s.table[x]))
  {
    DrainRounds(s);
    var ops := DrainTrace(s);
    forall i | 0 <= i < |ops| && ops[i].owner != x ensures LeavesAlone(ops[i], TransferOf(x, s.table[x])) {
      PartLeavesAlone(ops[i], TransferOf(ops[i].owner, s.table[ops[i].owner]), TransferOf(x, s.table[x]));
    }
  }
}
