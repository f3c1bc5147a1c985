/**
 A PCI function's configuration space (bhyve/pci_emul.c): base address registers, the
 command and status registers, capabilities, and the memory ranges registered for it.
 Multi-byte fields are little-endian, as section 6.1 of the PCI Local Bus Specification
 3.0 defines.
 */
module PciSpec {
  import opened Wrappers
  import opened Bytes
  import opened MmioMap

  const SPACE: nat := 256
  const BARS: nat := 6
  const COMMAND: nat := 0x04
  const STATUS: nat := 0x06
  const REVID: nat := 0x08
  const BAR0: nat := 0x10
  const CAP_PTR: nat := 0x34
  const CAP_START: nat := 0x40

  const W32: nat := 0x1_0000_0000

  // ----- the bytes

  type Config = c: seq<byte> | |c| == SPACE witness seq(SPACE, _ => 0)

  function ByteOf(val: nat, k: nat): byte {
    match k
    case 0 => val % 256
    case 1 => (val / 0x100) % 256
    case 2 => (val / 0x1_0000) % 256
    case _ => (val / 0x100_0000) % 256
  }

  function PutByte(c: Config, off: nat, bytes: nat, val: nat, i: nat): byte
    requires i < SPACE
  {
    if off <= i < off + bytes then ByteOf(val, i - off) else c[i]
  }

  function Put(c: Config, off: nat, bytes: nat, val: nat): Config {
    seq(SPACE, i requires 0 <= i < SPACE => PutByte(c, off, bytes, val, i))
  }

  function Get16(c: Config, off: nat): nat
    requires off + 2 <= SPACE
  {
    c[off] as nat + 0x100 * c[off + 1] as nat
  }

  function Get32(c: Config, off: nat): nat
    requires off + 4 <= SPACE
  {
    Get16(c, off) + 0x1_0000 * Get16(c, off + 2)
  }

  predicate MemEn(c: Config) { (c[COMMAND] / 2) % 2 == 1 }

  predicate CapPresent(c: Config) { (c[STATUS] / 16) % 2 == 1 }

  // ----- the state

  datatype BarKind = NoBar | Io | Mem32 | Mem64 | MemHi64

  datatype Bar = Bar(kind: BarKind, addr: nat, size: nat)

  // prevcap and capend are the last capability's first and last byte.
  datatype Dev = Dev(name: string, cfg: Config, bars: seq<Bar>, prevcap: nat, capend: nat)

  // root holds every range registered by anyone; ok is false once an assertion has failed.
  datatype St = St(dev: Dev, root: set<Range>, ok: bool)

  predicate IsMem(b: Bar) { b.kind == Mem32 || b.kind == Mem64 }

  // The range that bar i decodes, tagged with i for its handler.
  function RangeOf(d: Dev, i: nat): Range
    requires i < |d.bars|
  {
    Range(d.name, d.bars[i].addr, d.bars[i].size, false, i)
  }

  // ----- registration; I/O ranges go to a stub that always succeeds

  ghost function RegisterBar(s: St, i: nat): St
    requires i < |s.dev.bars|
  {
    if !IsMem(s.dev.bars[i]) then s.(ok := s.ok && s.dev.bars[i].kind == Io)
    else
      var (r, o) := PlainRegister(s.root, RangeOf(s.dev, i));
      s.(root := r, ok := s.ok && o == Ok)
  }

  ghost function UnregisterBar(s: St, i: nat): St
    requires i < |s.dev.bars|
  {
    if !IsMem(s.dev.bars[i]) then s.(ok := s.ok && s.dev.bars[i].kind == Io)
    else
      match At(s.root, s.dev.bars[i].addr)
      case None => s.(ok := false)
      case Some(e) => if Same(e, RangeOf(s.dev, i)) then s.(root := s.root - {e}) else s.(ok := false)
  }

  // update_bar_address, for a memory register.
  ghost function MoveBar(s: St, i: nat, addr: nat): St
    requires i < |s.dev.bars|
  {
    var dev := s.dev.(bars := s.dev.bars[i := s.dev.bars[i].(addr := addr)]);
    if MemEn(s.dev.cfg) then RegisterBar(UnregisterBar(s, i).(dev := dev), i) else s.(dev := dev)
  }

  // ----- writes to base address registers

  // The part of a value that a register of this size decodes.
  function Masked(val: nat, size: nat): (r: nat)
    ensures r <= val
  {
    if size == 0 then 0 else val - val % size
  }

  function Low(addr: nat): nat { addr % W32 }

  function High(addr: nat): nat { addr / W32 }

  ghost function Show(s: St, i: nat, val: nat): St {
    s.(dev := s.dev.(cfg := Put(s.dev.cfg, BAR0 + 4 * i, 4, val)))
  }

  ghost function BarWrite(s: St, i: nat, val: nat): St
    requires i < |s.dev.bars| == BARS
  {
    var b := s.dev.bars[i];
    match b.kind
    case NoBar => Show(s.(dev := s.dev.(bars := s.dev.bars[i := b.(addr := 0)])), i, 0)
    case Io =>
      var addr := Masked(val, b.size) % 0x1_0000;
      Show(s.(dev := s.dev.(bars := s.dev.bars[i := b.(addr := addr)])), i, addr + 1)
    case Mem32 =>
      var addr := Masked(val, b.size);
      Show(if addr != b.addr then MoveBar(s, i, addr) else s, i, addr)
    case Mem64 =>
      var addr := Masked(val, b.size);
      Show(if addr != Low(b.addr) then MoveBar(s, i, High(b.addr) * W32 + addr) else s, i, addr + 12)
    case MemHi64 =>
      if i == 0 then s
      else
        var p := s.dev.bars[i - 1];
        var addr := Masked(val * W32, p.size);
        Show(if High(addr) != High(p.addr) then MoveBar(s, i - 1, Low(p.addr) + addr) else s, i, High(addr))
  }

  // ----- writes to the command and status registers

  // Bits 7 and 11 to 31 are read-only: a write changes bits 0 to 6 and 8 to 10.
  function CommandByte(lane: nat, was: byte, val: byte): byte {
    match lane
    case 4 => was - was % 128 + val % 128
    case 5 => was - was % 8 + val % 8
    case _ => was
  }

  function CommandPut(c: Config, off: nat, bytes: nat, val: nat): Config {
    seq(SPACE, i requires 0 <= i < SPACE =>
      if off <= i < off + bytes then CommandByte(i, c[i], ByteOf(val, i - off)) else c[i])
  }

  // The loop over the registers, from i on.
  ghost function Decode(s: St, i: nat, on: bool): St
    requires |s.dev.bars| == BARS
    decreases BARS - i
  {
    if i >= BARS then s
    else Decode(if !IsMem(s.dev.bars[i]) then s else if on then RegisterBar(s, i) else UnregisterBar(s, i), i + 1, on)
  }

  ghost function CommandWrite(s: St, off: nat, bytes: nat, val: nat): St
    requires |s.dev.bars| == BARS
  {
    var t := s.(dev := s.dev.(cfg := CommandPut(s.dev.cfg, off, bytes, val)));
    if MemEn(t.dev.cfg) != MemEn(s.dev.cfg) then Decode(t, 0, MemEn(t.dev.cfg)) else t
  }

  // ----- writes to capabilities

  const CAP_MSI: byte := 0x05
  const CAP_EXPRESS: byte := 0x10
  const CAP_MSIX: byte := 0x11

  predicate IsCap(d: Dev, off: nat) { CapPresent(d.cfg) && CAP_START <= off <= d.capend }

  // The capability the search stops at; it would not stop on pointers that do not grow.
  function FindCap(c: Config, off: nat, cap: byte): byte
    decreases 256 - cap
  {
    if cap == 255 then cap
    else
      var next := c[cap + 1];
      if next == 0 || cap <= off < next || next <= cap then cap else FindCap(c, off, next)
  }

  // Message control: enable and multiple message enable; enable and function mask.
  function ControlByte(id: byte, k: nat, was: byte, val: byte): byte {
    if id == CAP_MSI then
      if k == 2 then val % 2 + (was / 2 % 8) * 2 + (val / 16 % 8) * 16 + was / 128 * 128 else was
    else
      if k == 3 then val - val % 64 + was % 64 else was
  }

  function ControlPut(c: Config, id: byte, cap: byte, val: nat): Config {
    seq(SPACE, i requires 0 <= i < SPACE =>
      if cap + 2 <= i < cap + 4 then ControlByte(id, i - cap, c[i], ByteOf(val, i - cap - 2)) else c[i])
  }

  function CapStore(c: Config, cap: byte, off: nat, bytes: nat, val: nat): Config {
    var id := c[cap];
    if id != CAP_MSI && id != CAP_MSIX && id != CAP_EXPRESS then c
    else if id != CAP_EXPRESS && off == cap + 2 && bytes == 2 then ControlPut(c, id, cap, val)
    else Put(c, off, bytes, val)
  }

  // The identifier and the next pointer are read-only.
  function CapWrite(c: Config, off: nat, bytes: nat, val: nat): Config {
    var cap := FindCap(c, off, CAP_START);
    if off == cap as nat && bytes == 4 then CapStore(c, cap, off + 2, 2, val / 0x1_0000)
    else if off == cap as nat || off == cap as nat + 1 then c
    else CapStore(c, cap, off, bytes, val)
  }

  // ----- a guest's write

  predicate Accessible(off: nat, bytes: nat) {
    (bytes == 1 || (bytes == 2 && off % 2 == 0) || (bytes == 4 && off % 4 == 0)) && off < SPACE
  }

  ghost function CfgWrite(s: St, off: nat, bytes: nat, val: nat): St
    requires |s.dev.bars| == BARS
  {
    if !Accessible(off, bytes) then s
    else if BAR0 <= off < BAR0 + 4 * BARS then
      if bytes != 4 then s else BarWrite(s, (off - BAR0) / 4, val)
    else if IsCap(s.dev, off) then s.(dev := s.dev.(cfg := CapWrite(s.dev.cfg, off, bytes, val)))
    else if COMMAND <= off < REVID then CommandWrite(s, off, bytes, val)
    else s.(dev := s.dev.(cfg := Put(s.dev.cfg, off, bytes, val)))
  }

  // ----- adding a capability

  function RoundUp4(n: nat): nat { (n + 3) / 4 * 4 }

  function Place(d: Dev): nat { if CapPresent(d.cfg) then d.capend + 1 else CAP_START }

  function Copied(c: Config, off: nat, data: seq<byte>): Config {
    seq(SPACE, i requires 0 <= i < SPACE => if off <= i < off + |data| then data[i - off] else c[i])
  }

  function Linked(d: Dev, off: byte): Config {
    if CapPresent(d.cfg) then (if d.prevcap + 1 < SPACE then d.cfg[d.prevcap + 1 := off] else d.cfg)
    else d.cfg[CAP_PTR := off][STATUS := d.cfg[STATUS] + 16]
  }

  function AddCapability(d: Dev, data: seq<byte>): Option<Dev>
    requires data != []
  {
    var off, len := Place(d), RoundUp4(|data|);
    if off + len > SPACE then None
    else
      var c := Copied(Linked(d, off), off, data);
      Some(d.(cfg := c[off + 1 := 0], prevcap := off, capend := off + len - 1))
  }
}
