/**
 The interrupt path of one AHCI port: port status, the host controller's global
 status and enable bits (bhyve/pci_ahci.c), and the PCI legacy interrupt pin
 (bhyve/pci_emul.c).  MSI is never enabled, as in the build of the repository.

 A 32-bit register is the set of its one bits.
 */
module Interrupts {

  type Bit = b: nat | b < 32
  type Bits = set<Bit>

  const PORT: Bit := 0

  const IX_DHR: Bit := 0
  const IX_SDB: Bit := 3
  const IX_TFE: Bit := 30

  // Writable bits of PxIE: 0xFDC000FF.
  const IE_MASK: Bits := {0, 1, 2, 3, 4, 5, 6, 7, 22, 23, 24, 26, 27, 28, 29, 30, 31}

  datatype LineState = Idle | Asserted | Pending

  // pxis, pxie: the port; gis, ie, lintr: the controller; the rest: the PCI function.
  datatype Intr = Intr(pxis: Bits, pxie: Bits, gis: Bits, ie: bool, lintr: bool,
                       state: LineState, line: bool, disabled: bool)

  function InitIntr(): Intr { Intr({}, {}, {}, false, false, Idle, false, false) }

  function LintrAssert(i: Intr): Intr {
    if i.state != Idle then i
    else if i.disabled then i.(state := Pending)
    else i.(state := Asserted, line := true)
  }

  function LintrDeassert(i: Intr): Intr {
    match i.state
    case Asserted => i.(state := Idle, line := false)
    case Pending => i.(state := Idle)
    case Idle => i
  }

  function LintrUpdate(i: Intr): Intr {
    if i.state == Asserted && i.disabled then i.(state := Pending, line := false)
    else if i.state == Pending && !i.disabled then i.(state := Asserted, line := true)
    else i
  }

  function PortIntr(i: Intr): Intr {
    if i.pxis * i.pxie == {} || PORT in i.gis then i
    else
      var set_ := i.(gis := i.gis + {PORT});
      if !i.ie || i.lintr then set_ else LintrAssert(set_.(lintr := true))
  }

  function GenerateIntr(i: Intr): Intr {
    var u := if i.pxis * i.pxie != {} then i.(gis := i.gis + {PORT}) else i;
    if u.gis == {} || !u.ie then
      if u.lintr then LintrDeassert(u).(lintr := false) else u
    else if u.lintr then u
    else LintrAssert(u.(lintr := true))
  }

  // A FIS that asks for the interrupts 'irq'.
  function RaisePort(i: Intr, irq: Bits): Intr {
    if irq - i.pxis == {} then i else PortIntr(i.(pxis := i.pxis + irq))
  }

  // Register writes, as the guest makes them.
  datatype IntrWrite = PxIS(v: Bits) | PxIE(v: Bits) | GhcIE(on: bool) | IS(v: Bits) | Command(intxDis: bool)

  function WriteIntr(i: Intr, w: IntrWrite): Intr {
    match w
    case PxIS(v) => PortIntr(i.(pxis := i.pxis - v))
    case PxIE(v) => PortIntr(i.(pxie := v * IE_MASK))
    case GhcIE(on) => GenerateIntr(i.(ie := on))
    case IS(v) => GenerateIntr(i.(gis := i.gis - v))
    case Command(dis) => LintrUpdate(i.(disabled := dis))
  }

  // Host controller reset.
  function ResetIntr(i: Intr): Intr {
    var c := i.(ie := false, gis := {});
    var d := if c.lintr then LintrDeassert(c).(lintr := false) else c;
    d.(pxie := {}, pxis := {})
  }

  // The specification: what every register shows is a function of the causes and the enables.
  ghost predicate IntrOk(i: Intr) {
    && (i.pxis * i.pxie != {} ==> PORT in i.gis)
    && (i.lintr <==> i.gis != {} && i.ie)
    && (i.line <==> i.lintr && !i.disabled)
    && i.state == (if !i.lintr then Idle else if i.disabled then Pending else Asserted)
  }

  lemma RaiseKeepsIntr(i: Intr, irq: Bits)
    requires IntrOk(i)
    ensures IntrOk(RaisePort(i, irq))
    ensures RaisePort(i, irq).pxis == i.pxis + irq
    ensures irq * i.pxie != {} ==> PORT in RaisePort(i, irq).gis
  {
    if irq - i.pxis == {} {
      assert forall b :: b in irq && b !in i.pxis ==> b in irq - i.pxis;
      assert i.pxis + irq == i.pxis;
      assert forall b :: b in irq * i.pxie ==> b in i.pxis * i.pxie;
    } else {
      assert forall b :: b in irq * i.pxie ==> b in (i.pxis + irq) * i.pxie;
    }
  }

  /** After every write the line is exactly (IS nonzero, enabled, INTx permitted), and
      an enabled port cause shows in IS. */
  lemma WriteKeepsIntr(i: Intr, w: IntrWrite)
    requires IntrOk(i)
    ensures IntrOk(WriteIntr(i, w))
  {
    match w {
      case PxIS(v) =>
        var j := i.(pxis := i.pxis - v);
        assert forall b :: b in j.pxis * j.pxie ==> b in i.pxis * i.pxie;
        if i.pxis * i.pxie == {} { assert j.pxis * j.pxie == {}; }
      case PxIE(v) =>
      case GhcIE(on) =>
      case IS(v) =>
      case Command(dis) =>
    }
  }

  lemma ResetKeepsIntr(i: Intr)
    requires IntrOk(i)
    ensures IntrOk(ResetIntr(i)) && !ResetIntr(i).line && ResetIntr(i).gis == {}
  {
  }

  datatype IntrEvent = Raised(irq: Bits) | Written(w: IntrWrite) | Reset

  function RunIntr(evs: seq<IntrEvent>): Intr {
    if evs == [] then InitIntr()
    else
      var i := RunIntr(evs[..|evs| - 1]);
      match evs[|evs| - 1]
      case Raised(irq) => RaisePort(i, irq)
      case Written(w) => WriteIntr(i, w)
      case Reset => ResetIntr(i)
  }

  /** The specification holds in every reachable state. */
  lemma {:induction false} LineIsSpecified(evs: seq<IntrEvent>)
    ensures IntrOk(RunIntr(evs))
  {
    if evs != [] {
      LineIsSpecified(evs[..|evs| - 1]);
      var i := RunIntr(evs[..|evs| - 1]);
      match evs[|evs| - 1] {
        case Raised(irq) => RaiseKeepsIntr(i, irq);
        case Written(w) => WriteKeepsIntr(i, w);
        case Reset => ResetKeepsIntr(i);
      }
    }
  }

  /** The PCI function's pin, as the code keeps it. */
  class IntxPin {
    var state: LineState
    var line: bool
    var disabled: bool

    constructor ()
      ensures state == Idle && !line && !disabled
    {
      state, line, disabled := Idle, false, false;
    }

    ghost predicate Is(i: Intr)
      reads this
    {
      state == i.state && line == i.line && disabled == i.disabled
    }

    method Assert(ghost i: Intr)
      requires Is(i)
      modifies this
      ensures Is(LintrAssert(i))
    {
      if state == Idle {
        if !disabled {
          state := Asserted;
          line := true;
        } else {
          state := Pending;
        }
      }
    }

    method Deassert(ghost i: Intr)
      requires Is(i)
      modifies this
      ensures Is(LintrDeassert(i))
    {
      if state == Asserted {
        state := Idle;
        line := false;
      } else if state == Pending {
        state := Idle;
      }
    }

    method CommandWrite(dis: bool, ghost i: Intr)
      requires Is(i)
      modifies this
      ensures Is(WriteIntr(i, Command(dis)))
    {
      disabled := dis;
      if state == Asserted && disabled {
        line := false;
        state := Pending;
      } else if state == Pending && !disabled {
        state := Asserted;
        line := true;
      }
    }
  }
}
