/**
 The issue loop of an AHCI port (bhyve/pci_ahci.c, ahci_handle_port): exactly when
 it ends, and what holds when it does.
 */
module AhciIssue {
  import opened BlockQueue
  import opened Interrupts
  import opened AhciIov
  import opened AhciSpec
  import opened AhciRuns

  // Issuing the slot leaves it issuable and lets the loop go on.
  predicate Sticks(s: Ahci, slot: Bit)
    requires |s.table| == 32
  {
    s.table[slot].NotH2D? || (s.table[slot] == Sync(false) && !FisOn(s))
  }

  // Issuing the slot makes the device busy or puts it in error.
  predicate Blocks(s: Ahci, slot: Bit)
    requires |s.table| == 32
  {
    var c := s.table[slot];
    c.FlushCache? || (c.Rw? && !c.ncq) || (c == Sync(false) && FisOn(s))
  }

  function Blockers(s: Ahci): Bits
    requires |s.table| == 32
  {
    set t | t in Issuable(s) && Blocks(s, t)
  }

  // The exact condition: already stopped, or something will stop it, or nothing sticks.
  predicate Halting(s: Ahci)
    requires |s.table| == 32
  {
    Stopped(s) || Blockers(s) != {} || forall t :: t in Issuable(s) ==> !Sticks(s, t)
  }

  // ----- one turn

  // What issuing can not change.
  ghost predicate Steady(s: Ahci, r: Ahci) {
    && r.table == s.table && r.regs.cmd == s.regs.cmd && r.regs.rfis == s.regs.rfis && r.rdonly == s.rdonly
    && r.trace == s.trace && r.prdbc == s.prdbc && r.q.busy == s.q.busy && r.regs.ci <= s.regs.ci
  }

  ghost predicate Live(s: Ahci) {
    TFD_BUSY !in s.regs.tfd && TFD_DRQ !in s.regs.tfd && !s.regs.waitforclear
  }

  // What issuing a slot does to the loop.
  ghost predicate Effect(s: Ahci, r: Ahci, slot: Bit)
    requires |s.table| == 32
  {
    && Steady(s, r) && r.regs.ccs == s.regs.ccs
    && (Blocks(s, slot) ==> TFD_BUSY in r.regs.tfd || r.regs.waitforclear)
    && (!Blocks(s, slot) ==> Live(r))
    && (!Blocks(s, slot) && !Sticks(s, slot) ==> Issuable(r) == Issuable(s) - {slot})
    && (Sticks(s, slot) ==> Issuable(r) == Issuable(s))
  }

  lemma RwEffect(s: Ahci, slot: Bit, c: Command)
    requires Core(s, {}) && CanIssue(s) && slot in Issuable(s) && Live(s) && c == s.table[slot] && c.Rw?
    ensures Effect(s, HandleCmd(s, slot, c), slot)
  {
    var s1 := s.(regs := s.regs.(tfd := s.regs.tfd + {TFD_BUSY}));
    RwIsLaunch(s1, slot, 0);
    assert HandleCmd(s, slot, c) == HandleRw(s1, slot, c, 0);
    var r := HandleCmd(s, slot, c);
    assert Issuable(r) == Issuable(s) - {slot};
  }

  lemma CmdEffect(s: Ahci, slot: Bit, c: Command)
    requires Core(s, {}) && CanIssue(s) && slot in Issuable(s) && Live(s)
    requires c == s.table[slot] && (c.FlushCache? || c.Sync?)
    ensures Effect(s, HandleCmd(s, slot, c), slot)
  {
  }

  lemma ControlEffect(s: Ahci, slot: Bit)
    requires |s.table| == 32 && CanIssue(s) && slot in Issuable(s) && Live(s) && s.table[slot].Control?
    ensures Effect(s, HandleSlot(s, slot), slot)
  {
  }

  lemma SlotEffect(s: Ahci, slot: Bit)
    requires Core(s, {}) && CanIssue(s) && slot in Issuable(s) && Live(s)
    ensures Effect(s, HandleSlot(s, slot), slot)
  {
    var c := s.table[slot];
    if c.Control? {
      ControlEffect(s, slot);
    } else if !c.NotH2D? {
      if c.Rw? { RwEffect(s, slot, c); } else { CmdEffect(s, slot, c); }
      assert HandleSlot(s, slot) == HandleCmd(s, slot, c);
    }
  }

  lemma IterEffect(s: Ahci)
    requires Core(s, {}) && CanIssue(s) && !Stopped(s)
    ensures var r, t := PortIter(s), s.regs.ccs;
            && Steady(s, r) && r.regs.ccs == NextSlot(t)
            && (t in Issuable(s) && Blocks(s, t) ==> Stopped(r))
            && (t !in Issuable(s) || !Blocks(s, t) ==> Live(r))
            && (t in Issuable(s) && !Blocks(s, t) && !Sticks(s, t) ==> Issuable(r) == Issuable(s) - {t})
            && (t !in Issuable(s) || Sticks(s, t) ==> Issuable(r) == Issuable(s))
  {
    if s.regs.ccs in Issuable(s) {
      var s1 := s.(regs := s.regs.(cmdCcs := s.regs.ccs));
      AsideKeepsCore(s, s1, {});
      SlotEffect(s1, s.regs.ccs);
    }
  }

  // ----- the loop ends

  function Distance(c: Bit, t: Bit): nat { if t >= c then t - c else 32 + t - c }

  // Turns before the slot pointer meets S, looking at most 'fuel' slots ahead.
  function Nearest(c: Bit, S: Bits, fuel: nat): nat
    decreases fuel
  {
    if fuel == 0 || c in S then 0 else 1 + Nearest(NextSlot(c), S, fuel - 1)
  }

  lemma {:induction false} NearestFuel(c: Bit, S: Bits, fuel: nat, t: Bit)
    requires t in S && Distance(c, t) < fuel
    ensures Nearest(c, S, fuel) == Nearest(c, S, fuel + 1)
    decreases fuel
  {
    if c !in S {
      NearestFuel(NextSlot(c), S, fuel - 1, t);
    }
  }

  lemma NearestStep(c: Bit, S: Bits)
    requires S != {} && c !in S
    ensures Nearest(NextSlot(c), S, 32) < Nearest(c, S, 32)
  {
    var t :| t in S;
    NearestFuel(NextSlot(c), S, 31, t);
  }

  function Targets(s: Ahci): Bits
    requires |s.table| == 32
  {
    if Blockers(s) != {} then Blockers(s) else Issuable(s)
  }

  function Rank0(s: Ahci): nat { if Stopped(s) then 0 else 1 }
  function Rank1(s: Ahci): nat { |Issuable(s)| }
  function Rank2(s: Ahci): nat
    requires |s.table| == 32
  {
    Nearest(s.regs.ccs, Targets(s), 32)
  }

  lemma SteadyBlockers(s: Ahci, r: Ahci)
    requires |s.table| == 32 && Steady(s, r)
    ensures Issuable(r) == Issuable(s) ==> Blockers(r) == Blockers(s)
    ensures forall t: Bit :: Issuable(r) == Issuable(s) - {t} && !Blocks(s, t) ==> Blockers(r) == Blockers(s)
    ensures forall t: Bit :: Sticks(r, t) == Sticks(s, t)
  {
    forall t: Bit | Issuable(r) == Issuable(s) - {t} && !Blocks(s, t) ensures Blockers(r) == Blockers(s) {
    }
  }

  lemma FewerBits(a: Bits, t: Bit)
    requires t in a
    ensures |a - {t}| == |a| - 1
  {
  }

  lemma IterProgress(s: Ahci)
    requires Core(s, {}) && CanIssue(s) && !Stopped(s) && Halting(s)
    ensures Core(PortIter(s), {}) && Halting(PortIter(s))
    ensures var r := PortIter(s);
            || Rank0(r) < Rank0(s)
            || (Rank0(r) == Rank0(s) && (Rank1(r) < Rank1(s) || (Rank1(r) == Rank1(s) && Rank2(r) < Rank2(s))))
  {
    IterKeepsCore(s);
    IterEffect(s);
    var r, t := PortIter(s), s.regs.ccs;
    SteadyBlockers(s, r);
    if !Stopped(r) {
      if t in Issuable(s) && !Sticks(s, t) {
        FewerBits(Issuable(s), t);
        assert t !in Blockers(s);
      } else {
        assert t !in Targets(s);
        NearestStep(t, Targets(s));
      }
    }
  }

  function HandlePort(s: Ahci): Ahci
    requires Core(s, {}) && Halting(s)
    decreases Rank0(s), Rank1(s), Rank2(s)
  {
    if Stopped(s) then s
    else
      NeverExhausted(s, {});
      IterProgress(s);
      HandlePort(PortIter(s))
  }

  /** The loop keeps every invariant and leaves nothing it could have issued. */
  lemma {:induction false} HandlePortKeeps(s: Ahci)
    requires Core(s, {}) && Halting(s)
    ensures Core(HandlePort(s), {}) && Stopped(HandlePort(s)) && Steady(s, HandlePort(s))
    decreases Rank0(s), Rank1(s), Rank2(s)
  {
    if !Stopped(s) {
      NeverExhausted(s, {});
      IterProgress(s);
      IterEffect(s);
      HandlePortKeeps(PortIter(s));
    }
  }

  // ----- and only then

  // The loop stops within n turns.
  ghost predicate EndsWithin(s: Ahci, n: nat)
    requires Core(s, {})
    decreases n
  {
    Stopped(s) || (n > 0 && (NeverExhausted(s, {}); IterKeepsCore(s); EndsWithin(PortIter(s), n - 1)))
  }

  ghost predicate Terminates(s: Ahci)
    requires Core(s, {})
  {
    exists n: nat :: EndsWithin(s, n)
  }

  lemma OneMoreTurn(s: Ahci, n: nat)
    requires Core(s, {}) && !Stopped(s) && CanIssue(s) && Core(PortIter(s), {})
    ensures EndsWithin(s, n + 1) == EndsWithin(PortIter(s), n)
  {
  }

  lemma {:induction false} HaltsSometime(s: Ahci)
    requires Core(s, {}) && Halting(s)
    ensures Terminates(s)
    decreases Rank0(s), Rank1(s), Rank2(s)
  {
    if Stopped(s) {
      assert EndsWithin(s, 0);
    } else {
      NeverExhausted(s, {});
      IterProgress(s);
      HaltsSometime(PortIter(s));
      var m: nat :| EndsWithin(PortIter(s), m);
      OneMoreTurn(s, m);
      assert EndsWithin(s, m + 1);
    }
  }

  lemma IterStaysStuck(s: Ahci)
    requires Core(s, {}) && CanIssue(s) && !Halting(s)
    ensures Core(PortIter(s), {}) && !Halting(PortIter(s))
  {
    IterKeepsCore(s);
    IterEffect(s);
    var r := PortIter(s);
    SteadyBlockers(s, r);
    var t :| t in Issuable(s) && Sticks(s, t);
    assert s.regs.ccs !in Blockers(s);
    assert t in Issuable(r) && Sticks(r, t);
  }

  lemma {:induction false} StuckForever(s: Ahci, n: nat)
    requires Core(s, {}) && !Halting(s)
    ensures !EndsWithin(s, n)
    decreases n
  {
    if n > 0 {
      NeverExhausted(s, {});
      IterStaysStuck(s);
      StuckForever(PortIter(s), n - 1);
    }
  }

  /** The loop ends iff it is already stopped, or an issuable command will make the
      device busy or put it in error, or every issuable slot can be issued: a slot
      without a host-to-device FIS, or failing while FISes are not received, hangs it. */
  lemma EndsIff(s: Ahci)
    requires Core(s, {})
    ensures Terminates(s) <==> Halting(s)
  {
    if Halting(s) {
      HaltsSometime(s);
    } else {
      forall n: nat ensures !EndsWithin(s, n) { StuckForever(s, n); }
    }
  }
}
