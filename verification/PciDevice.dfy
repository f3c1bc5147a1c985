/**
 One PCI function as the program keeps it (bhyve/pci_emul.c): bytes, base address
 registers and bookkeeping that guest writes update in place, and the memory map that
 its ranges are registered with.
 */
module PciDevice {
  import opened Wrappers
  import opened Bytes
  import opened MmioMap
  import opened Powers
  import opened PciSpec
  import opened PciCaps
  import opened PciBar
  import opened PciAlloc

  class PciFunction {
    const name: string
    const cfg: array<byte>
    const bars: array<Bar>
    var prevcap: nat
    var capend: nat
    const mem: Mmio
    // No assertion has failed.
    var ok: bool

    ghost predicate Laid()
      reads this, mem, mem.hints
    {
      cfg.Length == SPACE && bars.Length == BARS && Valid(mem.State())
    }

    ghost function State(): St
      reads this, cfg, bars, mem, mem.hints
      requires Laid()
    {
      St(Dev(name, cfg[..], bars[..], prevcap, capend), Elems(mem.root), ok)
    }

    // Every memory bar is an aligned power of two.
    ghost predicate Good()
      reads this, cfg, bars, mem, mem.hints
    {
      Laid() && Shape(State().dev) && forall i :: 0 <= i < BARS ==> GoodBar(bars[i])
    }

    constructor (n: string, m: Mmio, bytes: array<byte>, regs: array<Bar>)
      requires bytes.Length == SPACE && regs.Length == BARS && Valid(m.State())
      ensures Laid() && name == n && mem == m && cfg == bytes && bars == regs && ok && prevcap == capend == 0
    {
      name, mem, cfg, bars, ok, prevcap, capend := n, m, bytes, regs, true, 0, 0;
    }

    // ----- bytes

    method PutBytes(off: nat, bytes: nat, val: nat)
      requires Laid() && off + bytes <= SPACE && bytes <= 4
      modifies cfg
      ensures Laid()
      ensures State() == old(State()).(dev := old(State()).dev.(cfg := Put(old(State()).dev.cfg, off, bytes, val)))
    {
      ghost var c: Config := cfg[..];
      var k := 0;
      while k < bytes
        invariant k <= bytes
        invariant forall i :: 0 <= i < SPACE ==> cfg[i] == PutByte(c, off, k, val, i)
      {
        cfg[off + k] := ByteOf(val, k);
        k := k + 1;
      }
      assert cfg[..] == Put(c, off, bytes, val);
    }

    // ----- registration

    method RegisterMemory(i: nat)
      requires Good() && i < BARS && bars[i].kind != NoBar && bars[i].kind != MemHi64
      modifies this`ok, mem`root
      ensures Good() && State() == RegisterBar(old(State()), i)
    {
      if IsMem(bars[i]) {
        var r := Range(name, bars[i].addr, bars[i].size, false, i);
        RangeFits(State().dev, i);
        StepAgreesIff(mem.State(), Register(r));
        var o := mem.RegisterMem(r);
        ok := ok && o == Ok;
      }
    }

    method UnregisterMemory(i: nat)
      requires Good() && i < BARS && bars[i].kind != NoBar && bars[i].kind != MemHi64
      modifies this`ok, mem`root, mem.hints
      ensures Good() && State() == UnregisterBar(old(State()), i)
    {
      if IsMem(bars[i]) {
        var r := Range(name, bars[i].addr, bars[i].size, false, i);
        RangeFits(State().dev, i);
        StepAgreesIff(mem.State(), Unregister(r));
        var o := mem.UnregisterMem(r);
        ok := ok && o == Ok;
      }
    }

    // update_bar_address, for a memory register.
    method UpdateBarAddress(i: nat, addr: nat)
      requires Good() && i < BARS && IsMem(bars[i]) && GoodBar(bars[i].(addr := addr))
      modifies this`ok, bars, mem`root, mem.hints
      ensures Good() && State() == MoveBar(old(State()), i, addr)
    {
      var decode := (cfg[COMMAND] / 2) % 2 == 1;
      if decode { UnregisterMemory(i); }
      ghost var b := bars[..];
      bars[i] := bars[i].(addr := addr);
      assert bars[..] == b[i := b[i].(addr := addr)];
      if decode { RegisterMemory(i); }
    }

    // ----- guest writes

    // The address register itself, for a bar that decodes no memory.
    method SetAddress(i: nat, addr: nat)
      requires Good() && i < BARS && !IsMem(bars[i])
      modifies bars
      ensures Good() && State() == old(State()).(dev := Moved(old(State()).dev, i, addr))
    {
      ghost var b := bars[..];
      bars[i] := bars[i].(addr := addr);
      assert bars[..] == b[i := b[i].(addr := addr)];
    }

    method MoveIf(move: bool, i: nat, addr: nat)
      requires Good() && i < BARS && IsMem(bars[i]) && GoodBar(bars[i].(addr := addr))
      modifies this`ok, bars, mem`root, mem.hints
      ensures Good() && State() == if move then MoveBar(old(State()), i, addr) else old(State())
    {
      if move { UpdateBarAddress(i, addr); }
    }

    method ShowValue(i: nat, val: nat)
      requires Good() && i < BARS
      modifies cfg
      ensures Good() && State() == Show(old(State()), i, val)
    {
      PutBytes(BAR0 + 4 * i, 4, val);
    }

    method WriteMemoryBar(i: nat, val: nat)
      requires Good() && i < BARS && IsMem(bars[i]) && val < W32
      modifies this`ok, cfg, bars, mem`root, mem.hints
      ensures Good() && State() == BarWrite(old(State()), i, val)
    {
      ghost var s := State();
      var addr := Masked(val, bars[i].size);
      if bars[i].kind == Mem32 {
        Mem32Good(bars[i], val);
        BarWriteIs(s, i, val, i, addr, addr != bars[i].addr, addr);
        MoveIf(addr != bars[i].addr, i, addr);
        ShowValue(i, addr);
      } else {
        Mem64LowGood(bars[i], val);
        var to := High(bars[i].addr) * W32 + addr;
        BarWriteIs(s, i, val, i, to, addr != Low(bars[i].addr), addr + 12);
        MoveIf(addr != Low(bars[i].addr), i, to);
        ShowValue(i, addr + 12);
      }
    }

    method WriteUpperBar(i: nat, val: nat)
      requires Good() && 0 < i < BARS && bars[i].kind == MemHi64 && val < W32
      modifies this`ok, cfg, bars, mem`root, mem.hints
      ensures Good() && State() == BarWrite(old(State()), i, val)
    {
      ghost var s := State();
      var p := bars[i - 1];
      var up := Masked(val * W32, p.size);
      Mem64HighGood(p, val);
      var to := Low(p.addr) + up;
      BarWriteIs(s, i, val, i - 1, to, High(up) != High(p.addr), High(up));
      MoveIf(High(up) != High(p.addr), i - 1, to);
      ShowValue(i, High(up));
    }

    method WriteBar(i: nat, val: nat)
      requires Good() && i < BARS && val < W32
      modifies this`ok, cfg, bars, mem`root, mem.hints
      ensures Good() && State() == BarWrite(old(State()), i, val)
    {
      match bars[i].kind {
        case NoBar =>
          SetAddress(i, 0);
          ShowValue(i, 0);
        case Io =>
          var addr := Masked(val, bars[i].size) % 0x1_0000;
          SetAddress(i, addr);
          ShowValue(i, addr + 1);
        case MemHi64 => WriteUpperBar(i, val);
        case _ => WriteMemoryBar(i, val);
      }
    }

    // Registers or unregisters every memory bar.
    method SwitchDecoding(on: bool)
      requires Good()
      modifies this`ok, mem`root, mem.hints
      ensures Good() && State() == Decode(old(State()), 0, on)
    {
      var i := 0;
      while i < BARS
        invariant i <= BARS && Good() && bars[..] == old(bars[..])
        invariant Decode(State(), i, on) == Decode(old(State()), 0, on)
      {
        if IsMem(bars[i]) {
          if on { RegisterMemory(i); } else { UnregisterMemory(i); }
        }
        i := i + 1;
      }
    }

    method StoreCommand(off: nat, bytes: nat, val: nat)
      requires Good() && off + bytes <= REVID && bytes <= 4
      modifies cfg
      ensures Good()
      ensures var d := old(State()).dev;
              State() == old(State()).(dev := d.(cfg := CommandPut(d.cfg, off, bytes, val)))
    {
      ghost var c: Config := cfg[..];
      var k := 0;
      while k < bytes
        invariant k <= bytes
        invariant forall i :: 0 <= i < SPACE ==>
                       cfg[i] == if off <= i < off + k then CommandByte(i, c[i], ByteOf(val, i - off)) else c[i]
      {
        cfg[off + k] := CommandByte(off + k, cfg[off + k], ByteOf(val, k));
        k := k + 1;
      }
      assert cfg[..] == CommandPut(c, off, bytes, val);
    }

    method WriteCommand(off: nat, bytes: nat, val: nat)
      requires Good() && Accessible(off, bytes) && COMMAND <= off < REVID
      modifies this`ok, cfg, mem`root, mem.hints
      ensures Good() && State() == CommandWrite(old(State()), off, bytes, val)
    {
      CommandFits(off, bytes);
      var was := (cfg[COMMAND] / 2) % 2 == 1;
      StoreCommand(off, bytes, val);
      var now := (cfg[COMMAND] / 2) % 2 == 1;
      if now != was { SwitchDecoding(now); }
    }

    lemma CommandFits(off: nat, bytes: nat)
      requires Accessible(off, bytes) && COMMAND <= off < REVID
      ensures off + bytes <= REVID
    {
    }

    // ----- capabilities

    // The search for the capability that contains the offset.
    method FindCapability(off: nat, ghost caps: seq<byte>) returns (cap: byte)
      requires Laid() && Chain(State().dev.cfg, caps, capend) && CAP_START <= off <= capend
      ensures cap == FindCap(State().dev.cfg, off, CAP_START) && cap <= off && cap as int + 4 <= SPACE
    {
      ghost var c: Config := cfg[..];
      ghost var k: nat := 0;
      cap := CAP_START;
      Grows(c, caps, capend, 0, 0);
      while true
        invariant k < |caps| && cap == caps[k] && cap <= off && cap as int + 4 <= SPACE
        invariant FindCap(c, off, cap) == FindCap(c, off, CAP_START)
        decreases |caps| - k
      {
        var next := cfg[cap + 1];
        assert k + 1 < |caps| ==> Link(c, caps, k);
        if next == 0 || cap <= off < next { break; }
        k := k + 1;
        Grows(c, caps, capend, k, k);
        cap := next;
      }
    }

    method StoreControl(id: byte, cap: byte, val: nat)
      requires Good() && cap as int + 4 <= SPACE
      modifies cfg
      ensures Good()
      ensures State() == old(State()).(dev := old(State()).dev.(cfg := ControlPut(old(State()).dev.cfg, id, cap, val)))
    {
      ghost var c: Config := cfg[..];
      cfg[cap + 2], cfg[cap + 3] := ControlByte(id, 2, cfg[cap + 2], ByteOf(val, 0)),
                                    ControlByte(id, 3, cfg[cap + 3], ByteOf(val, 1));
      assert cfg[..] == ControlPut(c, id, cap, val);
    }

    method StoreCapability(cap: byte, off: nat, bytes: nat, val: nat)
      requires Good() && cap as int + 4 <= SPACE && off + bytes <= SPACE && bytes <= 4
      modifies cfg
      ensures Good()
      ensures var d := old(State()).dev;
              State() == old(State()).(dev := d.(cfg := CapStore(d.cfg, cap, off, bytes, val)))
    {
      var id := cfg[cap];
      if id == CAP_MSI || id == CAP_MSIX || id == CAP_EXPRESS {
        if id != CAP_EXPRESS && off == cap + 2 && bytes == 2 {
          StoreControl(id, cap, val);
        } else {
          PutBytes(off, bytes, val);
        }
      }
    }

    // pci_emul_capwrite.
    method WriteCapability(off: nat, bytes: nat, val: nat, ghost caps: seq<byte>)
      requires Good() && Accessible(off, bytes) && IsCap(State().dev, off) && CapsOk(State().dev, caps)
      modifies cfg
      ensures Good()
      ensures State() == old(State()).(dev := old(State()).dev.(cfg := CapWrite(old(State()).dev.cfg, off, bytes, val)))
    {
      AccessFits(off, bytes);
      var cap := FindCapability(off, caps);
      if off == cap && bytes == 4 {
        StoreCapability(cap, off + 2, 2, val / 0x1_0000);
      } else if off != cap && off != cap + 1 {
        StoreCapability(cap, off, bytes, val);
      }
    }

    lemma AccessFits(off: nat, bytes: nat)
      requires Accessible(off, bytes)
      ensures off + bytes <= SPACE
    {
    }

    /** A guest's write to configuration space. */
    method WriteConfig(off: nat, bytes: nat, val: nat, ghost caps: seq<byte>)
      requires Good() && CapsOk(State().dev, caps) && val < W32
      modifies this`ok, cfg, bars, mem`root, mem.hints
      ensures Good() && CapsOk(State().dev, caps)
      ensures State() == CfgWrite(old(State()), off, bytes, val)
    {
      WriteKeepsCaps(State(), caps, off, bytes, val);
      if Accessible(off, bytes) {
        AccessFits(off, bytes);
        if BAR0 <= off < BAR0 + 4 * BARS {
          if bytes == 4 { WriteBar((off - BAR0) / 4, val); }
        } else if (cfg[STATUS] / 16) % 2 == 1 && CAP_START <= off <= capend {
          WriteCapability(off, bytes, val, caps);
        } else if COMMAND <= off < REVID {
          WriteCommand(off, bytes, val);
        } else {
          PutBytes(off, bytes, val);
        }
      }
    }

    // pci_emul_add_capability.
    method AddCapabilityData(data: seq<byte>, ghost caps: seq<byte>) returns (added: bool)
      requires Good() && CapsOk(State().dev, caps) && data != []
      modifies this`prevcap, this`capend, cfg
      ensures Good() && added == AddCapability(old(State()).dev, data).Some?
      ensures State() == if added then old(State()).(dev := AddCapability(old(State()).dev, data).value)
                         else old(State())
    {
      ghost var d := State().dev;
      PlaceIs(d, caps);
      CapSpace(|data|);
      var present := (cfg[STATUS] / 16) % 2 == 1;
      var off := if present then capend + 1 else CAP_START;
      var len := RoundUp4(|data|);
      if off + len > SPACE { return false; }
      ghost var c: Config := cfg[..];
      if present {
        Grows(c, caps, capend, 0, |caps| - 1);
        cfg[prevcap + 1] := off;
      } else {
        cfg[CAP_PTR] := off;
        cfg[STATUS] := cfg[STATUS] + 16;
      }
      assert cfg[..] == Linked(d, off);
      CopyData(off, data);
      cfg[off + 1] := 0;
      prevcap, capend := off, off + len - 1;
      return true;
    }

    lemma CapSpace(n: nat)
      requires n > 0
      ensures n <= RoundUp4(n) && 4 <= RoundUp4(n)
    {
      CapLengthIs(n);
    }

    method CopyData(off: nat, data: seq<byte>)
      requires Laid() && off + |data| <= SPACE
      modifies cfg
      ensures cfg[..] == Copied(old(cfg[..]), off, data)
    {
      ghost var c: Config := cfg[..];
      var i := 0;
      while i < |data|
        invariant i <= |data|
        invariant forall k :: 0 <= k < SPACE ==> cfg[k] == if off <= k < off + i then data[k - off] else c[k]
      {
        cfg[off + i] := data[i];
        i := i + 1;
      }
    }

    // ----- start-up

    // The registers of a new bar, in place.
    method SetUpBar(i: nat, kind: BarKind, addr: nat, size: nat, w: Window)
      requires Good() && Unused(State().dev, i, kind) && (kind == Io || kind == Mem32 || kind == Mem64)
      requires GoodBar(Bar(kind, addr, size))
      modifies cfg, bars
      ensures Good() && State() == old(State()).(dev := WithBar(old(State()).dev, i, kind, addr, size, w))
    {
      ghost var d := State().dev;
      WithBarShape(d, i, kind, addr, size, w);
      SetRegisters(i, kind, addr, size);
      PutBytes(BAR0 + 4 * i, 4, Low(addr) + KindBits(kind, w));
      if kind == Mem64 { PutBytes(BAR0 + 4 * i + 4, 4, High(addr)); }
      assert State().dev == WithBar(d, i, kind, addr, size, w);
    }

    method SetRegisters(i: nat, kind: BarKind, addr: nat, size: nat)
      requires Laid() && i < BARS && (kind == Mem64 ==> i + 1 < BARS)
      modifies bars
      ensures Laid()
      ensures bars[..] == var b := old(bars[..])[i := Bar(kind, addr, size)];
                          if kind == Mem64 then b[i + 1 := b[i + 1].(kind := MemHi64)] else b
    {
      bars[i] := Bar(kind, addr, size);
      if kind == Mem64 { bars[i + 1] := bars[i + 1].(kind := MemHi64); }
    }

    // pci_emul_alloc_pbar.
    method AllocateBar(p: Pool, i: nat, host: nat, kind: BarKind, size: nat) returns (success: bool, q: Pool)
      requires Good() && Unused(State().dev, i, kind) && (kind == Io || kind == Mem32 || kind == Mem64)
      requires size <= 0x4000_0000_0000_0000 && PoolOk(p) && host <= LIMIT64
      modifies this`ok, cfg, bars, mem`root
      ensures Good()
      ensures match AllocBar(old(State()), p, i, host, kind, size)
              case None => !success && q == p && State() == old(State())
              case Some(t) => success && q == t.1 && State() == t.0
    {
      var n := RealSize(kind, size);
      var w := WindowOf(kind, n);
      RealSizeIs(kind, size);
      PowerBound(n);
      AllocIs(BaseOf(w, p, host), LimitOf(w), n);
      match AllocResource(BaseOf(w, p, host), LimitOf(w), n) {
        case None => success, q := false, p;
        case Some(a) =>
          if kind != Io { PlacedGood(kind, a.addr, n, LimitOf(w)); }
          SetUpBar(i, kind, a.addr, n, w);
          RegisterMemory(i);
          success, q := true, Taken(w, p, a.next);
      }
    }
  }
}
