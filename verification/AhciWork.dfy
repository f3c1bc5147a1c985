/**
 Why the worker's drain ends although callbacks queue further rounds and issue
 further slots, and what it leaves behind.
 */
module AhciWork {
  import opened BlockQueue
  import opened Interrupts
  import opened AhciIov
  import opened DiskTransfer
  import opened AhciSpec
  import opened AhciRuns
  import opened AhciIssue
  import opened AhciDrain

  // Commands the drain may still have to issue.
  function Owed(s: Ahci): Bits
    requires |s.table| == 32
  {
    set t | t in s.regs.ci && (t in s.regs.pending ==> IsNcq(s.table[t]))
  }

  function ToIssue(s: Ahci): nat
    requires |s.table| == 32
  {
    if CMD_ST in s.regs.cmd && !s.regs.waitforclear then |Owed(s)| + 1 else 0
  }

  function Weight(r: Ioreq): nat {
    1 + (if r.more then 1 else 0) + (if r.len >= r.done then r.len - r.done else 0)
  }

  ghost predicate InTable(ids: seq<nat>, n: nat) {
    forall k :: 0 <= k < |ids| ==> ids[k] < n
  }

  // Rounds and bytes of the requests in flight.
  function Work(ioreqs: seq<Ioreq>, ids: seq<nat>): nat
    requires InTable(ids, |ioreqs|)
  {
    if ids == [] then 0 else Weight(ioreqs[ids[0]]) + Work(ioreqs, ids[1..])
  }

  lemma {:induction false} WorkLast(ioreqs: seq<Ioreq>, ids: seq<nat>)
    requires InTable(ids, |ioreqs|) && ids != []
    ensures Work(ioreqs, ids) == Work(ioreqs, ids[..|ids| - 1]) + Weight(ioreqs[ids[|ids| - 1]])
  {
    if |ids| > 1 {
      WorkLast(ioreqs, ids[1..]);
      assert ids[1..][..|ids| - 2] == ids[..|ids| - 1][1..];
    }
  }

  lemma {:induction false} WorkFrame(a: seq<Ioreq>, b: seq<Ioreq>, ids: seq<nat>)
    requires InTable(ids, |a|) && |b| == |a| && forall k :: 0 <= k < |ids| ==> a[ids[k]] == b[ids[k]]
    ensures Work(a, ids) == Work(b, ids)
  {
    if ids != [] { WorkFrame(a, b, ids[1..]); }
  }

  lemma SubsetSize(a: Bits, b: Bits)
    requires a <= b
    ensures |a| <= |b|
    ensures |a| == |b| ==> a == b
    decreases |b|
  {
    if b != {} {
      var x :| x in b;
      if x in a {
        SubsetSize(a - {x}, b - {x});
        assert a == (a - {x}) + {x} && b == (b - {x}) + {x};
      } else {
        SubsetSize(a, b - {x});
      }
    }
  }

  ghost predicate Sized(s: Ahci) {
    |s.table| == 32 && InTable(s.iobhd, |s.ioreqs|)
  }

  // r has no more to do than s.
  ghost predicate NoMore(s: Ahci, r: Ahci)
    requires Sized(s) && Sized(r)
  {
    || ToIssue(r) < ToIssue(s)
    || (ToIssue(r) == ToIssue(s) && Work(r.ioreqs, r.iobhd) <= Work(s.ioreqs, s.iobhd))
  }

  // ----- the issue loop

  lemma LaunchOwes(s: Ahci, t: Ahci, slot: Bit)
    requires Sized(s) && Sized(t) && t.table == s.table
    requires t.regs.cmd == s.regs.cmd && t.regs.waitforclear == s.regs.waitforclear
    requires slot in Issuable(s) && t.regs.pending == s.regs.pending + {slot}
    requires t.regs.ci == s.regs.ci - {slot} || (t.regs.ci == s.regs.ci && !IsNcq(s.table[slot]))
    requires CMD_ST in s.regs.cmd && !s.regs.waitforclear
    ensures ToIssue(t) < ToIssue(s)
  {
    assert Owed(t) <= Owed(s) - {slot};
    SubsetSize(Owed(t), Owed(s) - {slot});
    FewerBits(Owed(s), slot);
  }

  lemma AsideOwes(s: Ahci, t: Ahci)
    requires Sized(s) && Aside(s, t) && t.regs.ci <= s.regs.ci && t.regs.cmd == s.regs.cmd
    requires t.regs.waitforclear == s.regs.waitforclear || t.regs.waitforclear
    ensures Sized(t) && NoMore(s, t)
  {
    assert Owed(t) <= Owed(s);
    SubsetSize(Owed(t), Owed(s));
  }

  lemma RwOwes(s: Ahci, slot: Bit)
    requires Core(s, {}) && CanIssue(s) && slot in Issuable(s) && Live(s) && CMD_ST in s.regs.cmd && s.table[slot].Rw?
    ensures var r := HandleCmd(s, slot, s.table[slot]); Sized(r) && ToIssue(r) < ToIssue(s)
  {
    var s1 := s.(regs := s.regs.(tfd := s.regs.tfd + {TFD_BUSY}));
    RwIsLaunch(s1, slot, 0);
    CmdKeepsCore(s, slot, s.table[slot]);
    LaunchOwes(s, HandleCmd(s, slot, s.table[slot]), slot);
  }

  lemma FlushOwes(s: Ahci, slot: Bit)
    requires Core(s, {}) && CanIssue(s) && slot in Issuable(s) && Live(s)
    requires CMD_ST in s.regs.cmd && s.table[slot].FlushCache?
    ensures var r := HandleCmd(s, slot, s.table[slot]); Sized(r) && ToIssue(r) < ToIssue(s)
  {
    CmdKeepsCore(s, slot, s.table[slot]);
    LaunchOwes(s, HandleCmd(s, slot, s.table[slot]), slot);
  }

  lemma SyncOwes(s: Ahci, slot: Bit)
    requires Sized(s) && CanIssue(s) && s.table[slot].Sync?
    ensures var r := HandleSlot(s, slot); Sized(r) && NoMore(s, r)
  {
    AsideOwes(s, HandleSlot(s, slot));
  }

  lemma ControlOwes(s: Ahci, slot: Bit)
    requires Sized(s) && CanIssue(s) && (s.table[slot].Control? || s.table[slot].NotH2D?)
    ensures var r := HandleSlot(s, slot); Sized(r) && NoMore(s, r)
  {
    AsideOwes(s, HandleSlot(s, slot));
  }

  lemma SlotOwes(s: Ahci, slot: Bit)
    requires Core(s, {}) && CanIssue(s) && slot in Issuable(s) && Live(s) && CMD_ST in s.regs.cmd && Driven(s)
    ensures var r := HandleSlot(s, slot); Sized(r) && NoMore(s, r)
  {
    var c := s.table[slot];
    if c.Rw? {
      RwOwes(s, slot);
    } else if c.FlushCache? {
      FlushOwes(s, slot);
    } else if c.Sync? {
      SyncOwes(s, slot);
    } else {
      ControlOwes(s, slot);
    }
  }

  lemma IterOwes(s: Ahci)
    requires Core(s, {}) && CanIssue(s) && !Stopped(s) && Driven(s)
    ensures var r := PortIter(s); Sized(r) && NoMore(s, r)
  {
    if s.regs.ccs in Issuable(s) {
      var s1 := s.(regs := s.regs.(cmdCcs := s.regs.ccs));
      AsideKeepsCore(s, s1, {});
      SlotOwes(s1, s.regs.ccs);
      assert Owed(s1) == Owed(s);
      var s2 := HandleSlot(s1, s.regs.ccs);
      assert Owed(s2.(regs := s2.regs.(ccs := NextSlot(s2.regs.ccs)))) == Owed(s2);
    } else {
      AsideOwes(s, PortIter(s));
    }
  }

  lemma {:induction false} HandlePortOwes(s: Ahci)
    requires Core(s, {}) && Halting(s) && Driven(s)
    ensures var r := HandlePort(s); Core(r, {}) && NoMore(s, r)
    decreases Rank0(s), Rank1(s), Rank2(s)
  {
    HandlePortKeeps(s);
    if !Stopped(s) {
      NeverExhausted(s, {});
      IterProgress(s);
      IterEffect(s);
      IterOwes(s);
      HandlePortOwes(PortIter(s));
    }
  }

  // ----- one round of the worker

  lemma FinishOwes(s: Ahci, slot: Bit, err: bool)
    requires Core(s, {slot}) && Driven(s)
    requires err && CMD_ST in s.regs.cmd && slot in s.regs.ci ==> FisOn(s)
    ensures var r := CbFinish(s, slot, err); Sized(r) && NoMore(s, r)
  {
    var r := CbFinish(s, slot, err);
    FinishOnlyFis(s, slot, err);
    DropPending(s, slot);
    if CMD_ST in s.regs.cmd {
      var s1 := FinishFis(s, slot, err);
      if !err || slot !in s.regs.ci {
        assert s1.regs.waitforclear == s.regs.waitforclear || s1.regs.waitforclear;
        assert Owed(r) <= Owed(s);
        SubsetSize(Owed(r), Owed(s));
      } else {
        assert s1.regs.waitforclear;
      }
    }
  }

  // Continuing a transfer puts its request in flight again and leaves the registers alone.
  lemma ContinueIs(s1: Ahci, slot: Bit, done: nat)
    requires CanIssue(s1) && |s1.table| == 32 && s1.table[slot].Rw? && slot in s1.regs.pending
    requires 0 < done <= s1.table[slot].count * SECTOR
    ensures var t, n := HandleRw(s1, slot, s1.table[slot], done), RoundOf(s1, slot, s1.table[slot], done);
            && t.regs == s1.regs && t.table == s1.table
            && t.iobhd == [s1.iofhd[0]] + s1.iobhd && t.ioreqs == s1.ioreqs[s1.iofhd[0] := n]
  {
    assert s1.regs.pending + {slot} == s1.regs.pending;
  }

  lemma WorkAdded(ioreqs: seq<Ioreq>, ids: seq<nat>, id: nat, n: Ioreq)
    requires InTable(ids, |ioreqs|) && id < |ioreqs| && id !in ids
    ensures InTable([id] + ids, |ioreqs|)
    ensures Work(ioreqs[id := n], [id] + ids) == Weight(n) + Work(ioreqs, ids)
  {
    WorkFrame(ioreqs, ioreqs[id := n], ids);
    assert ([id] + ids)[1..] == ids;
  }

  lemma SameToIssue(s: Ahci, t: Ahci)
    requires |s.table| == 32 && t.table == s.table && t.regs == s.regs
    ensures ToIssue(t) == ToIssue(s)
  {
    assert Owed(t) == Owed(s);
  }

  lemma LighterRound(s1: Ahci, slot: Bit, r: Ioreq)
    requires CanIssue(s1) && |s1.table| == 32 && s1.table[slot].Rw?
    requires r.more && r.len == s1.table[slot].count * SECTOR && r.done <= r.len && FitFrom(s1.table[slot], r.done)
    ensures Weight(RoundOf(s1, slot, s1.table[slot], r.done)) < Weight(r)
  {
    RoundTakesStream(s1.table[slot].prdt, r.len, r.done);
  }

  lemma ContinueWorks(s1: Ahci, slot: Bit, r: Ioreq)
    requires Core(s1, {slot}) && CanIssue(s1) && s1.table[slot].Rw?
    requires r.more && r.len == s1.table[slot].count * SECTOR && 0 < r.done <= r.len && r.done % SECTOR == 0
    requires FitFrom(s1.table[slot], r.done)
    ensures var t := HandleRw(s1, slot, s1.table[slot], r.done);
            Sized(t) && ToIssue(t) == ToIssue(s1)
            && Work(t.ioreqs, t.iobhd) < Work(s1.ioreqs, s1.iobhd) + Weight(r)
            && t.regs == s1.regs
  {
    DropPending(s1, slot);
    FreeIsNotBusy(s1, {slot});
    ContinueIs(s1, slot, r.done);
    SameToIssue(s1, HandleRw(s1, slot, s1.table[slot], r.done));
    LighterRound(s1, slot, r);
    WorkAdded(s1.ioreqs, s1.iobhd, s1.iofhd[0], RoundOf(s1, slot, s1.table[slot], r.done));
  }

  // The state in which the callback continues or finishes, and the request it is for.
  function Released(s: Ahci): Ahci
    requires Ready(s) && Driven(s)
  {
    CallbackReady(s);
    CbRelease(Begin(s), s.q.pend[0].req.id, Fails(s))
  }

  function HeadRequest(s: Ahci): Ioreq
    requires Ready(s) && Driven(s)
  {
    CallbackReady(s);
    s.ioreqs[s.q.pend[0].req.id]
  }

  // Releasing a request takes it from the head of the list in flight.
  lemma ReleasedIs(s: Ahci)
    requires Ready(s) && Driven(s)
    ensures var s1 := Released(s);
            && s.iobhd != [] && s1.iobhd == s.iobhd[..|s.iobhd| - 1] && s1.ioreqs == s.ioreqs
            && s1.regs == s.regs && s1.table == s.table
            && s.iobhd[|s.iobhd| - 1] < |s.ioreqs| && HeadRequest(s) == s.ioreqs[s.iobhd[|s.iobhd| - 1]]
  {
    BeginRelease(s, Fails(s));
    HeadFlight(s);
  }

  lemma ReleasedMeasures(s: Ahci)
    requires Ready(s) && Driven(s)
    ensures var r, s1 := HeadRequest(s), Released(s);
            ToIssue(s1) == ToIssue(s) && Work(s1.ioreqs, s1.iobhd) + Weight(r) == Work(s.ioreqs, s.iobhd)
  {
    ReleasedIs(s);
    WorkLast(s.ioreqs, s.iobhd);
    assert Owed(Released(s)) == Owed(s);
  }

  lemma ReleasedWorks(s: Ahci)
    requires Ready(s) && Driven(s)
    ensures var r, s1 := HeadRequest(s), Released(s);
            && Core(s1, {r.slot}) && GoodCommand(s1.table[r.slot]) && Driven(s1) && CanIssue(s1)
            && s1.table == s.table && s1.regs == s.regs
            && ToIssue(s1) == ToIssue(s)
            && Work(s1.ioreqs, s1.iobhd) + Weight(r) == Work(s.ioreqs, s.iobhd)
  {
    CallbackReady(s);
    BeginRelease(s, Fails(s));
    HeadFlight(s);
    ReleasedMeasures(s);
    NeverExhausted(Released(s), {HeadRequest(s).slot});
  }

  lemma CalledIs(s: Ahci)
    requires Ready(s) && Driven(s)
    ensures var r, s1 := HeadRequest(s), Released(s);
            Core(s1, {r.slot}) && CanIssue(s1) &&
            if !Fails(s) && r.more then
              && s1.table[r.slot].Rw? && r.len == s1.table[r.slot].count * SECTOR
              && 0 < r.done <= r.len && r.done % SECTOR == 0 && FitFrom(s1.table[r.slot], r.done)
              && Called(s) == HandleRw(s1, r.slot, s1.table[r.slot], r.done)
            else
              var f := CbFinish(s1, r.slot, Fails(s));
              Core(f, {}) && Halting(f) && Driven(f) && Called(s) == HandlePort(f)
  {
    CallbackReady(s);
    ReleasedWorks(s);
    var r, s1 := HeadRequest(s), Released(s);
    if Fails(s) || !r.more {
      FinishKeepsCore(s1, r.slot, Fails(s));
      DrivenHalts(CbFinish(s1, r.slot, Fails(s)));
    }
  }

  // A failing transfer that would be issued again is seen to fail.
  lemma FailureSeen(s: Ahci)
    requires Ready(s) && Driven(s) && Fails(s) && CMD_ST in s.regs.cmd && HeadRequest(s).slot in s.regs.ci
    ensures FisOn(s)
  {
    HeadFlight(s);
    assert MayFail(s, HeadRequest(s).slot);
  }

  lemma CalledOwes(s: Ahci)
    requires Ready(s) && Driven(s)
    ensures var c := Called(s);
            Sized(c) && (ToIssue(c) < ToIssue(s)
                         || (ToIssue(c) == ToIssue(s) && Work(c.ioreqs, c.iobhd) < Work(s.ioreqs, s.iobhd)))
  {
    ReleasedWorks(s);
    CalledIs(s);
    var r, s1 := HeadRequest(s), Released(s);
    if !Fails(s) && r.more {
      ContinueWorks(s1, r.slot, r);
    } else {
      if Fails(s) && CMD_ST in s.regs.cmd && r.slot in s.regs.ci { FailureSeen(s); }
      FinishOwes(s1, r.slot, Fails(s));
      HandlePortOwes(CbFinish(s1, r.slot, Fails(s)));
    }
  }

  lemma RoundOwes(s: Ahci)
    requires Ready(s) && Driven(s)
    ensures Sized(Round(s))
    ensures ToIssue(Round(s)) < ToIssue(s)
         || (ToIssue(Round(s)) == ToIssue(s)
             && Work(Round(s).ioreqs, Round(s).iobhd) < Work(s.ioreqs, s.iobhd))
  {
    CallbackKeeps(s);
    CalledOwes(s);
    assert Owed(Round(s)) == Owed(Called(s));
  }

  // ----- the drain

  function Drain(s: Ahci): Ahci
    requires Core(s, {}) && s.q.busy == [] && Driven(s)
    decreases ToIssue(s), Work(s.ioreqs, s.iobhd)
  {
    if s.q.pend == [] then s
    else
      RoundKeeps(s);
      RoundOwes(s);
      Drain(Round(s))
  }

  lemma FinishFrame(s: Ahci, slot: Bit, err: bool)
    requires |s.table| == 32
    ensures var r := CbFinish(s, slot, err);
            r.table == s.table && r.rdonly == s.rdonly && r.trace == s.trace && r.prdbc == s.prdbc && r.q == s.q
  {
    FinishOnlyFis(s, slot, err);
  }

  // The callback neither executes anything nor touches the guest's tables.
  lemma CalledFrame(s: Ahci)
    requires Ready(s) && Driven(s)
    ensures Called(s).table == s.table && Called(s).rdonly == s.rdonly && Called(s).trace == Released(s).trace
    ensures Stopped(s) ==> Stopped(Called(s))
  {
    ReleasedWorks(s);
    CalledIs(s);
    var r, s1 := HeadRequest(s), Released(s);
    assert s1.rdonly == s.rdonly;
    if !Fails(s) && r.more {
      ContinueWorks(s1, r.slot, r);
      RwIsLaunch(s1, r.slot, r.done);
    } else {
      FinishFrame(s1, r.slot, Fails(s));
      HandlePortKeeps(CbFinish(s1, r.slot, Fails(s)));
    }
  }

  lemma RoundFrame(s: Ahci)
    requires Ready(s) && Driven(s)
    ensures Round(s).table == s.table && Round(s).rdonly == s.rdonly
    ensures s.q.pend[0].req.id < |s.ioreqs| && Round(s).trace == s.trace + Executed(s, s.q.pend[0])
    ensures Stopped(s) ==> Stopped(Round(s))
  {
    HeadFlight(s);
    CallbackKeeps(s);
    CalledFrame(s);
  }

  /** The drain completes every request, leaves the port's invariants in place and
      no command it could have issued. */
  lemma {:induction false} DrainCompletes(s: Ahci)
    requires Core(s, {}) && s.q.busy == [] && Driven(s) && Stopped(s)
    ensures var r := Drain(s);
            && Core(r, {}) && Driven(r) && Stopped(r)
            && r.q.busy == [] && r.q.pend == [] && r.iobhd == [] && r.regs.pending == {}
            && r.table == s.table && r.rdonly == s.rdonly
    decreases ToIssue(s), Work(s.ioreqs, s.iobhd)
  {
    if s.q.pend == [] {
      NeverExhausted(s, {});
    } else {
      RoundKeeps(s);
      RoundOwes(s);
      RoundFrame(s);
      DrainCompletes(Round(s));
    }
  }
}
