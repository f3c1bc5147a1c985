/**
 What a guest reads from the base address registers (bhyve/pci_emul.c) is what they
 decode, in the encoding of section 6.2.5.1 of the PCI Local Bus Specification 3.0.
 */
module PciReadback {
  import opened Bytes
  import opened MmioMap
  import opened Powers
  import opened PciSpec
  import opened PciCaps
  import opened PciBar

  function BarReg(c: Config, i: nat): nat
    requires i < BARS
  {
    Get32(c, BAR0 + 4 * i)
  }

  // Register i shows what bar i decodes.
  ghost predicate Shows(d: Dev, i: nat)
    requires i < BARS == |d.bars|
  {
    var v, b := BarReg(d.cfg, i), d.bars[i];
    match b.kind
    case NoBar => true
    case Io => v == b.addr + 1
    case Mem32 => v == b.addr
    case Mem64 => v - v % 16 == Low(b.addr) && v % 8 == 4
    case MemHi64 => i > 0 && v == High(d.bars[i - 1].addr)
  }

  ghost predicate AllShow(d: Dev) {
    |d.bars| == BARS && forall i: nat :: i < BARS ==> Shows(d, i)
  }

  lemma PutGet(c: Config, i: nat, v: nat)
    requires i < BARS && v < W32
    ensures BarReg(Put(c, BAR0 + 4 * i, 4, v), i) == v
  {
    Digits(v);
  }

  lemma Digits(v: nat)
    requires v < W32
    ensures v == v % 256 + 0x100 * (v / 0x100 % 256) + 0x1_0000 * (v / 0x1_0000 % 256 + 0x100 * (v / 0x100_0000 % 256))
  {
  }

  lemma RegKept(c: Config, c': Config, lo: nat, hi: nat, i: nat)
    requires Within(c, c', lo, hi) && i < BARS && (hi <= BAR0 + 4 * i || BAR0 + 4 * i + 4 <= lo)
    ensures BarReg(c', i) == BarReg(c, i)
  {
  }

  lemma LowAligned(b: Bar)
    requires GoodBar(b) && IsMem(b)
    ensures Low(b.addr) % 16 == 0
  {
    var k: nat :| k < 64 && b.size == Pow2(k);
    assert Pow2(4) == 16;
    if k < 4 { PowLess(k, 4); }
    PowMultiple(k, 4);
    MultipleOfMultiple(b.addr, b.size, 16);
    PowerValues();
    PowMultiple(32, 4);
    LowMultiple(b.addr, 16);
    NoRemainder(Low(b.addr), 16);
  }

  ghost predicate AllGood(d: Dev) {
    |d.bars| == BARS && forall i :: 0 <= i < BARS ==> GoodBar(d.bars[i])
  }

  lemma MoveBarIs(s: St, i: nat, addr: nat)
    requires i < |s.dev.bars|
    ensures MoveBar(s, i, addr).dev == Moved(s.dev, i, addr)
  {
  }

  // Which bar a write to register i moves, where to, and what the register shows.
  function Target(d: Dev, i: nat): nat
    requires i < BARS == |d.bars|
  {
    if d.bars[i].kind == MemHi64 && i > 0 then i - 1 else i
  }

  function NewAddr(d: Dev, i: nat, val: nat): nat
    requires i < BARS == |d.bars|
  {
    var b := d.bars[Target(d, i)];
    match d.bars[i].kind
    case NoBar => 0
    case Io => Masked(val, b.size) % 0x1_0000
    case Mem32 => Masked(val, b.size)
    case Mem64 => High(b.addr) * W32 + Masked(val, b.size)
    case MemHi64 => Low(b.addr) + Masked(val * W32, b.size)
  }

  function NewShown(d: Dev, i: nat, val: nat): nat
    requires i < BARS == |d.bars|
  {
    match d.bars[i].kind
    case NoBar => 0
    case Io => NewAddr(d, i, val) + 1
    case Mem32 => NewAddr(d, i, val)
    case Mem64 => Low(NewAddr(d, i, val)) + 12
    case MemHi64 => High(NewAddr(d, i, val))
  }

  lemma SplitBack(a: nat)
    ensures High(a) * W32 + Low(a) == a
  {
  }

  lemma SameHalf(b: Bar, val: nat)
    requires GoodBar(b) && b.kind == Mem64 && val < W32
    ensures var low := Masked(val, b.size);
            Low(High(b.addr) * W32 + low) == low && (low == Low(b.addr) ==> High(b.addr) * W32 + low == b.addr)
    ensures var up := Masked(val * W32, b.size);
            High(Low(b.addr) + up) == High(up) && (High(up) == High(b.addr) ==> Low(b.addr) + up == b.addr)
  {
    var low, up := Masked(val, b.size), Masked(val * W32, b.size);
    SplitIs(High(b.addr), low);
    SplitBack(b.addr);
    Mem64HighGood(b, val);
    NoRemainder(up, W32);
    SplitIs(High(up), Low(b.addr));
  }

  lemma WideBarDev(s: St, i: nat, val: nat)
    requires AllGood(s.dev) && Shape(s.dev) && i < BARS && val < W32 && s.dev.bars[Target(s.dev, i)].kind == Mem64
    ensures BarWrite(s, i, val).dev ==
            Moved(s.dev, Target(s.dev, i), NewAddr(s.dev, i, val)).(
              cfg := Put(s.dev.cfg, BAR0 + 4 * i, 4, NewShown(s.dev, i, val)))
  {
    var j, to := Target(s.dev, i), NewAddr(s.dev, i, val);
    var b := s.dev.bars[j];
    MoveBarIs(s, j, to);
    SameHalf(b, val);
    assert s.dev.bars[j := b.(addr := b.addr)] == s.dev.bars;
  }

  /** A write moves the bar to the part of the value its size leaves, in both steps of a
      64-bit update, and the register shows the address. */
  lemma BarWriteDev(s: St, i: nat, val: nat)
    requires AllGood(s.dev) && Shape(s.dev) && i < BARS && val < W32
    ensures BarWrite(s, i, val).dev ==
            Moved(s.dev, Target(s.dev, i), NewAddr(s.dev, i, val)).(
              cfg := Put(s.dev.cfg, BAR0 + 4 * i, 4, NewShown(s.dev, i, val)))
  {
    var j, to := Target(s.dev, i), NewAddr(s.dev, i, val);
    MoveBarIs(s, j, to);
    var b := s.dev.bars[j];
    if b.kind == Mem64 {
      WideBarDev(s, i, val);
    } else {
      assert s.dev.bars[j := b.(addr := b.addr)] == s.dev.bars;
    }
  }

  lemma KindBitsFit(low: nat)
    requires low % 16 == 0 && low < W32
    ensures low + 12 < W32 && (low + 12) - (low + 12) % 16 == low && (low + 12) % 8 == 4
  {
    KindBits(low / 16);
  }

  lemma KindBits(q: nat)
    ensures (16 * q + 12) % 16 == 12 && (16 * q + 12) % 8 == 4
  {
    assert 16 * q + 12 == 8 * (2 * q + 1) + 4;
  }

  lemma LowShown(d: Dev, i: nat, val: nat, to: nat)
    requires AllGood(d) && i < BARS && d.bars[i].kind == Mem64 && val < W32 && to == NewAddr(d, i, val)
    ensures Low(to) + 12 < W32
    ensures Shows(Moved(d, i, to).(cfg := Put(d.cfg, BAR0 + 4 * i, 4, Low(to) + 12)), i)
  {
    Mem64LowGood(d.bars[i], val);
    LowAligned(d.bars[i].(addr := to));
    KindBitsFit(Low(to));
    PutGet(d.cfg, i, Low(to) + 12);
  }

  lemma HighShown(d: Dev, i: nat, val: nat, to: nat)
    requires AllGood(d) && Shape(d) && 0 < i < BARS && d.bars[i].kind == MemHi64
    requires val < W32 && to == NewAddr(d, i, val)
    ensures High(to) < W32
    ensures Shows(Moved(d, i - 1, to).(cfg := Put(d.cfg, BAR0 + 4 * i, 4, High(to))), i)
  {
    Mem64HighGood(d.bars[i - 1], val);
    HalfFits(to);
    PutGet(d.cfg, i, High(to));
  }

  lemma HalfFits(a: nat)
    requires a < LIMIT
    ensures High(a) < W32
  {
  }

  lemma ShownFits(d: Dev, i: nat, val: nat)
    requires AllGood(d) && Shape(d) && i < BARS && val < W32
    ensures NewShown(d, i, val) < W32
    ensures Shows(Moved(d, Target(d, i), NewAddr(d, i, val)).(
                    cfg := Put(d.cfg, BAR0 + 4 * i, 4, NewShown(d, i, val))), i)
  {
    match d.bars[i].kind
    case NoBar =>
    case Io => PutGet(d.cfg, i, NewShown(d, i, val));
    case Mem32 => PutGet(d.cfg, i, NewShown(d, i, val));
    case Mem64 => LowShown(d, i, val, NewAddr(d, i, val));
    case MemHi64 => HighShown(d, i, val, NewAddr(d, i, val));
  }

  // Each half of an update leaves the other half of the address.
  lemma OtherHalf(b: Bar, val: nat)
    requires GoodBar(b) && b.kind == Mem64 && val < W32
    ensures High(High(b.addr) * W32 + Masked(val, b.size)) == High(b.addr)
    ensures Low(Low(b.addr) + Masked(val * W32, b.size)) == Low(b.addr)
  {
    SplitIs(High(b.addr), Masked(val, b.size));
    Mem64HighGood(b, val);
    var up := Masked(val * W32, b.size);
    NoRemainder(up, W32);
    SplitIs(High(up), Low(b.addr));
  }

  lemma OtherShows(d: Dev, i: nat, val: nat, j: nat)
    requires AllGood(d) && AllShow(d) && Shape(d) && i < BARS && val < W32 && j < BARS && j != i
    ensures Shows(Moved(d, Target(d, i), NewAddr(d, i, val)).(
                    cfg := Put(d.cfg, BAR0 + 4 * i, 4, NewShown(d, i, val))), j)
  {
    assert Shows(d, j);
    RegKept(d.cfg, Put(d.cfg, BAR0 + 4 * i, 4, NewShown(d, i, val)), BAR0 + 4 * i, BAR0 + 4 * i + 4, j);
    var b := d.bars[Target(d, i)];
    if b.kind == Mem64 { OtherHalf(b, val); }
  }

  /** After any guest write every register shows what it decodes. */
  lemma CfgWriteShows(s: St, off: nat, bytes: nat, val: nat)
    requires AllGood(s.dev) && AllShow(s.dev) && Shape(s.dev) && val < W32
    ensures AllShow(CfgWrite(s, off, bytes, val).dev)
  {
    var t := CfgWrite(s, off, bytes, val);
    if Accessible(off, bytes) {
      AlignedBelow(off, bytes);
      if BAR0 <= off < BAR0 + 4 * BARS {
        if bytes == 4 {
          var i := (off - BAR0) / 4;
          BarWriteDev(s, i, val);
          ShownFits(s.dev, i, val);
          forall j: nat | j < BARS ensures Shows(t.dev, j) { if j != i { OtherShows(s.dev, i, val, j); } }
        }
      } else if IsCap(s.dev, off) {
        CapWriteWithin(s.dev.cfg, off, bytes, val);
        ElsewhereShows(s.dev, t.dev.cfg, off, off + bytes);
      } else if COMMAND <= off < REVID {
        CommandWriteDev(s, off, bytes, val);
        ElsewhereShows(s.dev, t.dev.cfg, COMMAND, REVID);
      } else {
        BelowBars(off, bytes);
        ElsewhereShows(s.dev, t.dev.cfg, off, off + bytes);
      }
    }
  }

  lemma BelowBars(off: nat, bytes: nat)
    requires Accessible(off, bytes)
    ensures off < BAR0 ==> off + bytes <= BAR0
  {
  }

  lemma CommandWriteDev(s: St, off: nat, bytes: nat, val: nat)
    requires |s.dev.bars| == BARS
    ensures CommandWrite(s, off, bytes, val).dev == s.dev.(cfg := CommandPut(s.dev.cfg, off, bytes, val))
    ensures Within(s.dev.cfg, CommandPut(s.dev.cfg, off, bytes, val), COMMAND, REVID)
  {
    var c := CommandPut(s.dev.cfg, off, bytes, val);
    DecodeChanges(s.(dev := s.dev.(cfg := c)), 0, MemEn(c));
  }

  lemma ElsewhereShows(d: Dev, c: Config, lo: nat, hi: nat)
    requires AllShow(d) && Within(d.cfg, c, lo, hi) && (hi <= BAR0 || BAR0 + 4 * BARS <= lo)
    ensures AllShow(d.(cfg := c))
  {
    forall j: nat | j < BARS ensures Shows(d.(cfg := c), j) {
      assert Shows(d, j);
      RegKept(d.cfg, c, lo, hi, j);
    }
  }
}
