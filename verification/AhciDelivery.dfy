/**
 What a drain transfers for one command: its rounds in order, exactly once, so that
 the memory ends as after the flat transfer and PRDBC ends at its length.
 */
module AhciDelivery {
  import opened BlockQueue
  import opened Sequences
  import opened Interrupts
  import opened AhciIov
  import opened DiskTransfer
  import opened AhciSpec
  import opened AhciRuns
  import opened AhciIssue
  import opened AhciDrain
  import opened AhciWork

  // ----- the rounds a request still has to make

  ghost predicate Sound(c: Command, r: Ioreq) {
    && c.Rw? && GoodCommand(c)
    && (r.more ==> r.len == c.count * SECTOR && r.done <= r.len && r.done % SECTOR == 0 && FitFrom(c, r.done))
  }

  function Rest(c: Command, r: Ioreq): seq<Chunk>
    requires Sound(c, r)
  {
    if r.more then Chunks(c.prdt, r.len, r.done) else []
  }

  function LeftOf(c: Command, r: Ioreq): seq<IoOp>
    requires Sound(c, r)
  {
    [IoOp(r.slot, c.write, r.req.offset, r.req.iov)]
    + RoundOps(r.slot, c.write, Rest(c, r), c.lba * SECTOR, r.done)
  }

  function FinalOf(c: Command, r: Ioreq): nat
    requires Sound(c, r)
  {
    FinalDone(Rest(c, r), r.done)
  }

  // Request ids[k] is slot x's, with 'left' to transfer up to byte 'fin'.
  ghost predicate Carries(s: Ahci, x: Bit, k: nat, left: seq<IoOp>, fin: nat)
    requires |s.table| == 32
  {
    && k < |s.iobhd| && s.iobhd[k] < |s.ioreqs|
    && var c, r := s.table[x], s.ioreqs[s.iobhd[k]];
       r.slot == x && Sound(c, r) && left == LeftOf(c, r) && fin == FinalOf(c, r)
  }

  // Slot x is in flight, or done and not to be issued again.
  ghost predicate Tracks(s: Ahci, x: Bit, left: seq<IoOp>, fin: nat)
    requires |s.table| == 32 && |s.prdbc| == 32
  {
    if x in s.regs.pending then
      (exists k: nat :: Carries(s, x, k, left, fin)) && !(IsNcq(s.table[x]) && x in s.regs.ci)
    else
      left == [] && s.prdbc[x] == fin && x !in s.regs.ci
  }

  // The first of the rounds, and the rest.
  lemma ChunksUnfold(c: Command, done: nat) returns (b: Chunk)
    requires c.Rw? && done <= c.count * SECTOR && done % SECTOR == 0 && FitFrom(c, done)
    ensures b == BuildIovSpec(c.prdt, c.count * SECTOR, done)
    ensures b.more ==> done + b.todo <= c.count * SECTOR && (done + b.todo) % SECTOR == 0 && FitFrom(c, done + b.todo)
    ensures Chunks(c.prdt, c.count * SECTOR, done)
         == [b] + if b.more then Chunks(c.prdt, c.count * SECTOR, done + b.todo) else []
  {
    b := BuildIovSpec(c.prdt, c.count * SECTOR, done);
    RoundTakesStream(c.prdt, c.count * SECTOR, done);
    SectorMultiples(done, b.todo);
  }

  lemma RoundLeft(s: Ahci, slot: Bit, done: nat)
    requires CanIssue(s) && |s.table| == 32 && s.table[slot].Rw? && GoodCommand(s.table[slot])
    requires done <= s.table[slot].count * SECTOR && done % SECTOR == 0 && FitFrom(s.table[slot], done)
    ensures var c, r := s.table[slot], RoundOf(s, slot, s.table[slot], done);
            var cs := Chunks(c.prdt, c.count * SECTOR, done);
            Sound(c, r) && LeftOf(c, r) == RoundOps(slot, c.write, cs, c.lba * SECTOR, done)
            && FinalOf(c, r) == FinalDone(cs, done)
  {
    var c, r := s.table[slot], RoundOf(s, slot, s.table[slot], done);
    var b := ChunksUnfold(c, done);
    var cs := Chunks(c.prdt, c.count * SECTOR, done);
    assert cs[0] == b && cs[1..] == Rest(c, r);
  }

  // ----- what other slots' issues leave alone

  lemma AsideTracks(s: Ahci, t: Ahci, x: Bit, left: seq<IoOp>, fin: nat)
    requires |s.table| == 32 && |s.prdbc| == 32 && Tracks(s, x, left, fin)
    requires t.table == s.table && t.prdbc == s.prdbc && t.ioreqs == s.ioreqs && t.iobhd == s.iobhd
    requires t.regs.pending == s.regs.pending && t.regs.ci <= s.regs.ci
    ensures Tracks(t, x, left, fin)
  {
    if x in s.regs.pending {
      var k: nat :| Carries(s, x, k, left, fin);
      assert Carries(t, x, k, left, fin);
    }
  }

  lemma LaunchTracks(s: Ahci, r: Ioreq, op: Op, x: Bit, left: seq<IoOp>, fin: nat)
    requires |s.table| == 32 && |s.prdbc| == 32 && Tracks(s, x, left, fin)
    requires CanIssue(s) && s.iofhd[0] !in s.iobhd && r.slot != x
    ensures Tracks(Launch(s, r, op), x, left, fin)
  {
    if x in s.regs.pending {
      var k: nat :| Carries(s, x, k, left, fin);
      assert s.iobhd[k] in s.iobhd;
      assert Carries(Launch(s, r, op), x, k + 1, left, fin);
    }
  }

  lemma CmdTracks(s: Ahci, slot: Bit, c: Command, x: Bit, left: seq<IoOp>, fin: nat)
    requires Core(s, {}) && CanIssue(s) && slot in Issuable(s) && slot != x && Tracks(s, x, left, fin)
    requires c == s.table[slot] && (c.Rw? || c.FlushCache? || c.Sync?)
    ensures var r := HandleCmd(s, slot, c); |r.table| == 32 && |r.prdbc| == 32 && Tracks(r, x, left, fin)
  {
    FreeIsNotBusy(s, {});
    var s1 := s.(regs := s.regs.(tfd := s.regs.tfd + {TFD_BUSY}));
    AsideTracks(s, s1, x, left, fin);
    match c {
      case Rw(_, _, _, _, _) =>
        var t := Launch(s1, RoundOf(s1, slot, s1.table[slot], 0), OpOf(c));
        LaunchTracks(s1, RoundOf(s1, slot, s1.table[slot], 0), OpOf(c), x, left, fin);
        RwIsLaunch(s1, slot, 0);
        AsideTracks(t, HandleCmd(s, slot, c), x, left, fin);
      case FlushCache =>
        var r := Ioreq(slot, 0, 0, false, s1.ioreqs[s1.iofhd[0]].req);
        LaunchTracks(s1, r, Flush, x, left, fin);
        assert HandleFlush(s1, slot) == Launch(s1, r, Flush);
      case Sync(ok) =>
        AsideTracks(s1, HandleCmd(s, slot, c), x, left, fin);
    }
  }

  lemma IterTracks(s: Ahci, x: Bit, left: seq<IoOp>, fin: nat)
    requires Core(s, {}) && CanIssue(s) && !Stopped(s) && Tracks(s, x, left, fin)
    ensures var r := PortIter(s); |r.table| == 32 && |r.prdbc| == 32 && Tracks(r, x, left, fin)
  {
    IterEffect(s);
    var t := s.regs.ccs;
    if t in Issuable(s) {
      assert t != x;
      var s1, c := s.(regs := s.regs.(cmdCcs := t)), s.table[t];
      AsideKeepsCore(s, s1, {});
      AsideTracks(s, s1, x, left, fin);
      if c.Rw? || c.FlushCache? || c.Sync? {
        CmdTracks(s1, t, c, x, left, fin);
        var s2 := HandleCmd(s1, t, c);
        AsideTracks(s2, PortIter(s), x, left, fin);
      } else {
        AsideTracks(s1, PortIter(s), x, left, fin);
      }
    } else {
      AsideTracks(s, PortIter(s), x, left, fin);
    }
  }

  lemma {:induction false} HandlePortTracks(s: Ahci, x: Bit, left: seq<IoOp>, fin: nat)
    requires Core(s, {}) && Halting(s) && Tracks(s, x, left, fin)
    ensures Core(HandlePort(s), {}) && Tracks(HandlePort(s), x, left, fin)
    decreases Rank0(s), Rank1(s), Rank2(s)
  {
    HandlePortKeeps(s);
    if !Stopped(s) {
      NeverExhausted(s, {});
      IterProgress(s);
      IterTracks(s, x, left, fin);
      HandlePortTracks(PortIter(s), x, left, fin);
    }
  }

  // All rounds of a transfer from byte 'done' on.
  function RoundsFrom(x: Bit, c: Command, done: nat): seq<IoOp>
    requires c.Rw? && done <= c.count * SECTOR && done % SECTOR == 0 && FitFrom(c, done)
  {
    RoundOps(x, c.write, Chunks(c.prdt, c.count * SECTOR, done), c.lba * SECTOR, done)
  }

  function EndFrom(c: Command, done: nat): nat
    requires c.Rw? && done <= c.count * SECTOR && done % SECTOR == 0 && FitFrom(c, done)
  {
    FinalDone(Chunks(c.prdt, c.count * SECTOR, done), done)
  }

  lemma SomeRound(x: Bit, c: Command)
    requires c.Rw? && GoodCommand(c)
    ensures RoundsFrom(x, c, 0) != []
  {
    assert Chunks(c.prdt, c.count * SECTOR, 0) != [];
  }

  lemma RwStarts(s: Ahci, x: Bit, c: Command, done: nat)
    requires CanIssue(s) && |s.table| == 32 && |s.prdbc| == 32 && c == s.table[x] && c.Rw? && GoodCommand(c)
    requires done <= c.count * SECTOR && done % SECTOR == 0 && FitFrom(c, done)
    requires c.ncq ==> done == 0 || x !in s.regs.ci
    ensures var r := HandleRw(s, x, c, done);
            r.table == s.table && |r.prdbc| == 32 && Tracks(r, x, RoundsFrom(x, c, done), EndFrom(c, done))
  {
    RoundLeft(s, x, done);
    RwIsLaunch(s, x, done);
    var t, n := Launch(s, RoundOf(s, x, s.table[x], done), OpOf(c)), RoundOf(s, x, s.table[x], done);
    assert t.ioreqs[t.iobhd[0]] == n;
    assert Carries(t, x, 0, RoundsFrom(x, c, done), EndFrom(c, done));
    var r := HandleRw(s, x, c, done);
    assert r.ioreqs == t.ioreqs && r.iobhd == t.iobhd && r.table == t.table;
    assert Carries(r, x, 0, RoundsFrom(x, c, done), EndFrom(c, done));
  }

  /** Issuing a transfer starts it: all its rounds are ahead. */
  lemma IssueStarts(s: Ahci)
    requires Core(s, {}) && CanIssue(s) && !Stopped(s) && s.regs.ccs in Issuable(s) && s.table[s.regs.ccs].Rw?
    ensures var x, c, r := s.regs.ccs, s.table[s.regs.ccs], PortIter(s);
            |r.table| == 32 && |r.prdbc| == 32 && Tracks(r, x, RoundsFrom(x, c, 0), EndFrom(c, 0))
  {
    var x, c := s.regs.ccs, s.table[s.regs.ccs];
    var s2 := s.(regs := s.regs.(cmdCcs := x, tfd := s.regs.tfd + {TFD_BUSY}));
    RwStarts(s2, x, c, 0);
    AsideTracks(HandleRw(s2, x, c, 0), PortIter(s), x, RoundsFrom(x, c, 0), EndFrom(c, 0));
  }

  // ----- one round of the worker

  lemma SlotsDiffer(s: Ahci, i: nat, j: nat)
    requires Core(s, {}) && i < j < |s.iobhd|
    ensures s.ioreqs[s.iobhd[i]].slot != s.ioreqs[s.iobhd[j]].slot
  {
    var sl := SlotsOf(s.ioreqs, s.iobhd);
    var v: Bit := s.ioreqs[s.iobhd[i]].slot;
    assert multiset(s.regs.pending)[v] <= 1;
    assert multiset(sl)[v] <= multiset(s.regs.pending)[v];
    assert sl == sl[..j] + [sl[j]] + sl[j + 1..];
    assert sl[..j][i] == sl[i];
    assert multiset(sl[..j])[sl[i]] >= 1;
  }

  // The worker has executed a round of slot y; what x still has to do.
  function LeftAfter(s: Ahci, x: Bit, left: seq<IoOp>): seq<IoOp>
    requires Ready(s) && Driven(s)
  {
    if HeadRequest(s).slot == x && left != [] then left[1..] else left
  }

  lemma ReleaseTracksOther(s: Ahci, x: Bit, left: seq<IoOp>, fin: nat)
    requires Ready(s) && Driven(s) && Tracks(s, x, left, fin) && HeadRequest(s).slot != x
    ensures |Released(s).table| == 32 && |Released(s).prdbc| == 32 && Tracks(Released(s), x, left, fin)
  {
    HeadFlight(s);
    CallbackReady(s);
    BeginRelease(s, Fails(s));
    if x in s.regs.pending {
      var k: nat :| Carries(s, x, k, left, fin);
      assert k != |s.iobhd| - 1;
      assert Carries(Released(s), x, k, left, fin);
    }
  }

  lemma FinishTracksOther(s: Ahci, y: Bit, err: bool, x: Bit, left: seq<IoOp>, fin: nat)
    requires |s.table| == 32 && |s.prdbc| == 32 && x != y && Tracks(s, x, left, fin)
    ensures var r := CbFinish(s, y, err); |r.table| == 32 && |r.prdbc| == 32 && Tracks(r, x, left, fin)
  {
    FinishOnlyFis(s, y, err);
    var s1 := FinishFis(s, y, err);
    AsideTracks(s, s1, x, left, fin);
    var s2 := s1.(regs := s1.regs.(pending := s1.regs.pending - {y}));
    if x in s1.regs.pending {
      var k: nat :| Carries(s1, x, k, left, fin);
      assert Carries(s2, x, k, left, fin);
    }
    AsideTracks(s2, CheckStopped(s2), x, left, fin);
  }

  lemma CalledTracksOther(s: Ahci, x: Bit, left: seq<IoOp>, fin: nat)
    requires Ready(s) && Driven(s) && Tracks(s, x, left, fin) && HeadRequest(s).slot != x
    ensures |Called(s).table| == 32 && |Called(s).prdbc| == 32 && Tracks(Called(s), x, left, fin)
  {
    ReleasedWorks(s);
    CalledIs(s);
    ReleaseTracksOther(s, x, left, fin);
    var r, s1 := HeadRequest(s), Released(s);
    if !Fails(s) && r.more {
      FreeIsNotBusy(s1, {r.slot});
      RwIsLaunch(s1, r.slot, r.done);
      LaunchTracks(s1, RoundOf(s1, r.slot, s1.table[r.slot], r.done), OpOf(s1.table[r.slot]), x, left, fin);
    } else {
      FinishTracksOther(s1, r.slot, Fails(s), x, left, fin);
      HandlePortTracks(CbFinish(s1, r.slot, Fails(s)), x, left, fin);
    }
  }

  lemma OnlyLastCarries(s: Ahci, left: seq<IoOp>, fin: nat, k: nat)
    requires Core(s, {}) && k < |s.iobhd| && s.iobhd[|s.iobhd| - 1] < |s.ioreqs|
    requires Carries(s, s.ioreqs[s.iobhd[|s.iobhd| - 1]].slot, k, left, fin)
    ensures k == |s.iobhd| - 1
  {
    if k < |s.iobhd| - 1 { SlotsDiffer(s, k, |s.iobhd| - 1); }
  }

  lemma HeadIsCarried(s: Ahci, left: seq<IoOp>, fin: nat)
    requires Ready(s) && Driven(s) && Tracks(s, HeadRequest(s).slot, left, fin)
    ensures Carries(s, HeadRequest(s).slot, |s.iobhd| - 1, left, fin)
  {
    HeadFlight(s);
    BeginRelease(s, false);
    var k: nat :| Carries(s, HeadRequest(s).slot, k, left, fin);
    OnlyLastCarries(s, left, fin, k);
  }

  lemma HeadExecutes(s: Ahci)
    requires Ready(s) && Driven(s) && !s.rdonly && Sound(s.table[HeadRequest(s).slot], HeadRequest(s))
    ensures s.q.pend[0].req.id < |s.ioreqs|
    ensures Executed(s, s.q.pend[0]) == [LeftOf(s.table[HeadRequest(s).slot], HeadRequest(s))[0]]
  {
    HeadFlight(s);
  }

  lemma HeadCarries(s: Ahci, left: seq<IoOp>, fin: nat)
    requires Ready(s) && Driven(s) && Tracks(s, HeadRequest(s).slot, left, fin) && !s.rdonly
    ensures var r := HeadRequest(s);
            && Sound(s.table[r.slot], r) && left == LeftOf(s.table[r.slot], r) && fin == FinalOf(s.table[r.slot], r)
            && left != [] && s.q.pend[0].req.id < |s.ioreqs| && Executed(s, s.q.pend[0]) == [left[0]]
            && !(IsNcq(s.table[r.slot]) && r.slot in s.regs.ci)
  {
    HeadFlight(s);
    BeginRelease(s, false);
    HeadIsCarried(s, left, fin);
    HeadExecutes(s);
  }

  lemma FinishEnds(s: Ahci, x: Bit, fin: nat)
    requires |s.table| == 32 && |s.prdbc| == 32 && s.prdbc[x] == fin && (IsNcq(s.table[x]) ==> x !in s.regs.ci)
    ensures var r := CbFinish(s, x, false);
            r.table == s.table && |r.prdbc| == 32 && Tracks(r, x, [], fin)
  {
    FinishOnlyFis(s, x, false);
    FinishFrame(s, x, false);
  }

  lemma CalledTracksOwn(s: Ahci, left: seq<IoOp>, fin: nat)
    requires Ready(s) && Driven(s) && Tracks(s, HeadRequest(s).slot, left, fin) && !s.rdonly && left != []
    ensures |Called(s).table| == 32 && |Called(s).prdbc| == 32
    ensures Tracks(Called(s), HeadRequest(s).slot, left[1..], fin)
  {
    HeadCarries(s, left, fin);
    ReleasedWorks(s);
    CalledIs(s);
    CallbackReady(s);
    var r, s1, x := HeadRequest(s), Released(s), HeadRequest(s).slot;
    var c := s1.table[x];
    if r.more {
      RwStarts(s1, x, c, r.done);
      assert left[1..] == RoundsFrom(x, c, r.done);
    } else {
      assert left[1..] == [] && s1.prdbc[x] == fin;
      FinishEnds(s1, x, fin);
      HandlePortTracks(CbFinish(s1, x, false), x, [], fin);
    }
  }

  lemma CompleteTracks(s: Ahci, x: Bit, left: seq<IoOp>, fin: nat)
    requires Ready(s) && Driven(s) && |Called(s).table| == 32 && |Called(s).prdbc| == 32
    requires Tracks(Called(s), x, left, fin)
    ensures |Round(s).table| == 32 && |Round(s).prdbc| == 32 && Tracks(Round(s), x, left, fin)
  {
    CallbackKeeps(s);
    AsideTracks(Called(s), Round(s), x, left, fin);
  }

  lemma RoundExecutes(s: Ahci, x: Bit, left: seq<IoOp>, fin: nat)
    requires Ready(s) && Driven(s) && Tracks(s, x, left, fin) && !s.rdonly
    ensures s.q.pend[0].req.id < |s.ioreqs|
    ensures OwnedBy(Executed(s, s.q.pend[0]), x) + LeftAfter(s, x, left) == left
  {
    HeadFlight(s);
    if HeadRequest(s).slot == x {
      HeadCarries(s, left, fin);
    } else {
      assert OwnedBy(Executed(s, s.q.pend[0]), x) == [];
    }
  }

  lemma RoundTracks(s: Ahci, x: Bit, left: seq<IoOp>, fin: nat)
    requires Ready(s) && Driven(s) && Tracks(s, x, left, fin) && !s.rdonly
    ensures |Round(s).table| == 32 && |Round(s).prdbc| == 32
    ensures Tracks(Round(s), x, LeftAfter(s, x, left), fin)
    ensures s.q.pend[0].req.id < |s.ioreqs|
    ensures OwnedBy(Executed(s, s.q.pend[0]), x) + LeftAfter(s, x, left) == left
  {
    RoundExecutes(s, x, left, fin);
    HeadFlight(s);
    if HeadRequest(s).slot == x {
      HeadCarries(s, left, fin);
      CalledTracksOwn(s, left, fin);
      CompleteTracks(s, x, left[1..], fin);
    } else {
      CalledTracksOther(s, x, left, fin);
      CompleteTracks(s, x, left, fin);
    }
  }

  // ----- the whole drain

  // The transfers a drain executes.
  function DrainTrace(s: Ahci): seq<IoOp>
    requires Core(s, {}) && s.q.busy == [] && Driven(s)
    decreases ToIssue(s), Work(s.ioreqs, s.iobhd)
  {
    if s.q.pend == [] then []
    else
      HeadFlight(s);
      RoundKeeps(s);
      RoundOwes(s);
      Executed(s, s.q.pend[0]) + DrainTrace(Round(s))
  }

  // A step executes at most one transfer.
  lemma OwnedByStep(e: seq<IoOp>, t: seq<IoOp>, x: nat)
    requires |e| <= 1
    ensures OwnedBy(e + t, x) == OwnedBy(e, x) + OwnedBy(t, x)
  {
    if e == [] {
      assert e + t == t;
    } else {
      assert (e + t)[0] == e[0] && (e + t)[1..] == t;
    }
  }

  lemma {:induction false} DrainTraceIs(s: Ahci)
    requires Core(s, {}) && s.q.busy == [] && Driven(s)
    ensures Drain(s).trace == s.trace + DrainTrace(s)
    decreases ToIssue(s), Work(s.ioreqs, s.iobhd)
  {
    if s.q.pend != [] {
      RoundKeeps(s);
      RoundOwes(s);
      RoundFrame(s);
      var r, e := Round(s), Executed(s, s.q.pend[0]);
      DrainTraceIs(r);
      assert Drain(s) == Drain(r) && DrainTrace(s) == e + DrainTrace(r);
      ConcatAssoc(s.trace, e, DrainTrace(r));
    }
  }

  /** A drain executes exactly the rounds slot x has left, in order, and reports their end in PRDBC. */
  lemma {:induction false} DrainTracks(s: Ahci, x: Bit, left: seq<IoOp>, fin: nat)
    requires Core(s, {}) && s.q.busy == [] && Driven(s) && !s.rdonly && Tracks(s, x, left, fin)
    ensures OwnedBy(DrainTrace(s), x) == left
    ensures |Drain(s).prdbc| == 32 && Drain(s).prdbc[x] == fin
    decreases ToIssue(s), Work(s.ioreqs, s.iobhd)
  {
    if s.q.pend == [] {
      NeverExhausted(s, {});
    } else {
      HeadFlight(s);
      RoundKeeps(s);
      RoundOwes(s);
      RoundFrame(s);
      RoundTracks(s, x, left, fin);
      DrainTracks(Round(s), x, LeftAfter(s, x, left), fin);
      OwnedByStep(Executed(s, s.q.pend[0]), DrainTrace(Round(s)), x);
    }
  }

  function TransferOf(x: Bit, c: Command): Transfer
    requires c.Rw?
  {
    Transfer(x, c.write, c.prdt, c.lba * SECTOR, c.count * SECTOR)
  }

  // ----- the memory behind the worker's loop

  lemma NothingRunnable(s: Ahci)
    requires Core(s, {}) && s.q.busy == []
    ensures FirstPend(s.q.pend) == |s.q.pend| <==> s.q.pend == []
  {
    if s.q.pend != [] { HeadIsRunnable(s.q); }
  }

  function ExecutedNext(s: Ahci): seq<IoOp>
    requires Ready(s)
  {
    HeadFlight(s);
    Executed(s, s.q.pend[0])
  }

  // Draining s0 from memory m0, the worker has executed 'did' and stands at s with memory m.
  ghost predicate Worked(s0: Ahci, m0: Memory, s: Ahci, m: Memory, did: seq<IoOp>) {
    && Core(s0, {}) && s0.q.busy == [] && Driven(s0) && Core(s, {}) && s.q.busy == [] && Driven(s)
    && Drain(s) == Drain(s0) && DrainTrace(s0) == did + DrainTrace(s)
    && AllValid(DrainTrace(s0), m0) && AllValid(did, m0) && m == ExecAll(m0, did)
  }

  lemma WorkerStarts(s: Ahci, m: Memory)
    requires Core(s, {}) && s.q.busy == [] && Driven(s) && AllValid(DrainTrace(s), m)
    ensures Worked(s, m, s, m, [])
  {
  }

  // The next request can be executed, and then the worker stands behind it.
  lemma WorkerStep(s0: Ahci, m0: Memory, s: Ahci, m: Memory, did: seq<IoOp>)
    requires Worked(s0, m0, s, m, did) && Ready(s)
    ensures AllValid(ExecutedNext(s), m)
    ensures Worked(s0, m0, Round(s), ExecAll(m, ExecutedNext(s)), did + ExecutedNext(s))
  {
    HeadFlight(s);
    RoundKeeps(s);
    RoundOwes(s);
    var e, rest := ExecutedNext(s), DrainTrace(Round(s));
    assert DrainTrace(s) == e + rest && Drain(s) == Drain(Round(s));
    ConcatAssoc(did, e, rest);
    ExecConcat(m0, did + e, rest);
    ExecConcat(m0, did, e);
  }

  lemma WorkerEnds(s0: Ahci, m0: Memory, s: Ahci, m: Memory, did: seq<IoOp>)
    requires Worked(s0, m0, s, m, did) && s.q.pend == []
    ensures s == Drain(s0) && m == ExecAll(m0, DrainTrace(s0))
  {
    assert did + [] == did;
  }

  lemma ExecOne(m: Memory, op: IoOp)
    requires AllValid([op], m)
    ensures Valid(op, m) && ExecAll(m, [op]) == Exec(m, op)
  {
    assert Valid([op][0], m);
  }
}
