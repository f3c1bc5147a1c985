/**
 The bit-serial EEPROM (bhyve/pci_e82545.c, e82545_eecd_strobe and the EECD register):
 a Microwire state machine clocked by rising edges of a register bit, against an array
 of words and a sequence of commands.
 */
module Eeprom {
  import opened Powers

  const OPADDR_BITS: nat := 9
  const DATA_BITS: nat := 16
  const SIZE: nat := 64

  // ----- numbers and bits, most significant first

  function Num(b: bool): nat { if b then 1 else 0 }

  function Value(bs: seq<bool>): nat {
    if bs == [] then 0 else Num(bs[0]) * Pow2(|bs| - 1) + Value(bs[1..])
  }

  function Bits(v: nat, n: nat): (bs: seq<bool>)
    ensures |bs| == n
  {
    if n == 0 then []
    else [v >= Pow2(n - 1)] + Bits(if v >= Pow2(n - 1) then v - Pow2(n - 1) else v, n - 1)
  }

  lemma {:induction false} ValueOfBits(v: nat, n: nat)
    requires v < Pow2(n)
    ensures Value(Bits(v, n)) == v
  {
    if n > 0 { ValueOfBits(if v >= Pow2(n - 1) then v - Pow2(n - 1) else v, n - 1); }
  }

  // ----- the state machine

  datatype Mode = OpAddr | DataIn | DataOut

  datatype Nvm = Nvm(mode: Mode, bits: nat, opaddr: nat, data: nat, dout: bool, words: seq<nat>)

  // Shifting a bit into a 16-bit register.
  function Shift(r: nat, b: bool): nat { (2 * r) % 0x1_0000 + Num(b) }

  function Op(opaddr: nat): nat { (opaddr / 64) % 8 }

  function Addr(opaddr: nat): nat { opaddr % 64 }

  const WRITE: nat := 5
  const READ: nat := 6

  function ToOpcode(n: Nvm): Nvm { n.(opaddr := 0, mode := OpAddr, bits := OPADDR_BITS) }

  // The last bit of an opcode and address has come in.
  function Decoded(n: Nvm): Nvm {
    var op, addr := Op(n.opaddr), Addr(n.opaddr);
    if op == READ then
      n.(mode := DataOut, bits := DATA_BITS, data := if addr < SIZE && addr < |n.words| then n.words[addr] else 0)
    else if op == WRITE then n.(mode := DataIn, bits := DATA_BITS, data := 0)
    else ToOpcode(n)
  }

  // The last bit of a word has come in.
  function StoredWord(n: Nvm): Nvm {
    var addr := Addr(n.opaddr);
    ToOpcode(if Op(n.opaddr) == WRITE && addr < SIZE && addr < |n.words| then n.(words := n.words[addr := n.data])
             else n)
  }

  // e82545_eecd_strobe.
  function Strobe(n: Nvm, di: bool): Nvm {
    if n.bits == 0 then n
    else
      var m := n.(bits := n.bits - 1);
      match n.mode
      case DataOut =>
        var o := m.(dout := n.data >= 0x8000, data := Shift(n.data, false));
        if m.bits == 0 then ToOpcode(o) else o
      case DataIn =>
        var i := m.(data := Shift(n.data, di));
        if m.bits == 0 then StoredWord(i) else i
      case OpAddr =>
        var a := m.(opaddr := Shift(n.opaddr, di));
        if m.bits == 0 then Decoded(a) else a
  }

  function Clock(n: Nvm, dis: seq<bool>): Nvm
    decreases |dis|
  {
    if dis == [] then n else Clock(Strobe(n, dis[0]), dis[1..])
  }

  // The data output after each edge.
  function Outputs(n: Nvm, dis: seq<bool>): (o: seq<bool>)
    ensures |o| == |dis|
    decreases |dis|
  {
    if dis == [] then []
    else [Strobe(n, dis[0]).dout] + Outputs(Strobe(n, dis[0]), dis[1..])
  }

  predicate Valid(n: Nvm) {
    && |n.words| == SIZE && (forall i :: 0 <= i < SIZE ==> n.words[i] < 0x1_0000)
    && 1 <= n.bits <= (if n.mode == OpAddr then OPADDR_BITS else DATA_BITS)
    && n.opaddr < 0x1_0000 && n.data < 0x1_0000
  }

  /** The bit counter never runs out, whatever is clocked in. */
  lemma StrobeKeeps(n: Nvm, di: bool)
    requires Valid(n)
    ensures Valid(Strobe(n, di))
  {
  }

  lemma {:induction false} ClockKeeps(n: Nvm, dis: seq<bool>)
    requires Valid(n)
    ensures Valid(Clock(n, dis))
    decreases |dis|
  {
    if dis != [] {
      StrobeKeeps(n, dis[0]);
      ClockKeeps(Strobe(n, dis[0]), dis[1..]);
    }
  }

  // ----- the register

  // The pins of EECD that software drives.
  datatype Pins = Pins(sk: bool, cs: bool, di: bool, req: bool)

  datatype Eecd = Eecd(pins: Pins, gnt: bool, nvm: Nvm)

  // Edge triggered, low to high, with the chip selected.
  function WriteEecd(e: Eecd, v: Pins): Eecd {
    Eecd(v, v.req, if !e.pins.sk && v.sk && v.cs then Strobe(e.nvm, v.di) else e.nvm)
  }

  function WriteAll(e: Eecd, vs: seq<Pins>): Eecd
    decreases |vs|
  {
    if vs == [] then e else WriteAll(WriteEecd(e, vs[0]), vs[1..])
  }

  // The data bits at the edges of a sequence of writes.
  function Edges(sk: bool, vs: seq<Pins>): seq<bool>
    decreases |vs|
  {
    if vs == [] then []
    else (if !sk && vs[0].sk && vs[0].cs then [vs[0].di] else []) + Edges(vs[0].sk, vs[1..])
  }

  /** However software drives the pins, only the edges count. */
  lemma {:induction false} OnlyEdgesCount(e: Eecd, vs: seq<Pins>)
    ensures WriteAll(e, vs).nvm == Clock(e.nvm, Edges(e.pins.sk, vs))
    decreases |vs|
  {
    if vs != [] {
      OnlyEdgesCount(WriteEecd(e, vs[0]), vs[1..]);
      var rest := Edges(vs[0].sk, vs[1..]);
      if !e.pins.sk && vs[0].sk && vs[0].cs {
        assert ([vs[0].di] + rest)[1..] == rest;
      } else {
        assert [] + rest == rest;
      }
    }
  }

  // ----- commands

  lemma {:induction false} ClockJoin(n: Nvm, a: seq<bool>, b: seq<bool>)
    ensures Clock(n, a + b) == Clock(Clock(n, a), b)
    ensures Outputs(n, a + b) == Outputs(n, a) + Outputs(Clock(n, a), b)
    decreases |a|
  {
    if a == [] {
      assert a + b == b;
    } else {
      assert (a + b)[1..] == a[1..] + b;
      ClockJoin(Strobe(n, a[0]), a[1..], b);
    }
  }

  // Shifting a whole sequence into a register.
  function ShiftAll(r: nat, bs: seq<bool>): nat
    decreases |bs|
  {
    if bs == [] then r else ShiftAll(Shift(r, bs[0]), bs[1..])
  }

  lemma {:induction false} ShiftAllValue(r: nat, bs: seq<bool>)
    requires |bs| <= 16 && (r + 1) * Pow2(|bs|) <= 0x1_0000
    ensures ShiftAll(r, bs) == r * Pow2(|bs|) + Value(bs)
    decreases |bs|
  {
    if bs != [] {
      var p := Pow2(|bs| - 1);
      ShiftFits(r, bs[0], p);
      ShiftAllValue(2 * r + Num(bs[0]), bs[1..]);
    }
  }

  lemma ShiftFits(r: nat, b: bool, p: nat)
    requires p > 0 && (r + 1) * (2 * p) <= 0x1_0000
    ensures Shift(r, b) == 2 * r + Num(b)
    ensures (2 * r + Num(b) + 1) * p <= 0x1_0000
    ensures (2 * r + Num(b)) * p == r * (2 * p) + Num(b) * p
  {
    assert (r + 1) * (2 * p) == (2 * r + 2) * p;
  }

  lemma {:induction false} ShiftZeroValue(bs: seq<bool>)
    requires |bs| <= 16
    ensures ShiftAll(0, bs) == Value(bs)
  {
    PowBound(|bs|);
    ShiftAllValue(0, bs);
  }

  lemma {:induction false} PowBound(n: nat)
    requires n <= 16
    ensures Pow2(n) <= 0x1_0000
    decreases 16 - n
  {
    if n == 16 { PowerValues(); } else { PowBound(n + 1); }
  }

  // All but the last bit of an opcode and address, or of a word.
  lemma {:induction false} ClockHeader(n: Nvm, h: seq<bool>)
    requires n.mode == OpAddr && |h| < n.bits
    ensures Clock(n, h) == n.(bits := n.bits - |h|, opaddr := ShiftAll(n.opaddr, h))
    decreases |h|
  {
    if h != [] { ClockHeader(Strobe(n, h[0]), h[1..]); }
  }

  lemma {:induction false} ClockWord(n: Nvm, w: seq<bool>)
    requires n.mode == DataIn && |w| < n.bits
    ensures Clock(n, w) == n.(bits := n.bits - |w|, data := ShiftAll(n.data, w))
    decreases |w|
  {
    if w != [] { ClockWord(Strobe(n, w[0]), w[1..]); }
  }

  lemma {:induction false} ShiftLast(r: nat, bs: seq<bool>)
    requires bs != []
    ensures ShiftAll(r, bs) == Shift(ShiftAll(r, bs[..|bs| - 1]), bs[|bs| - 1])
    decreases |bs|
  {
    if |bs| > 1 {
      ShiftLast(Shift(r, bs[0]), bs[1..]);
      assert bs[1..][..|bs| - 2] == bs[..|bs| - 1][1..];
    }
  }

  lemma ClockLast(n: Nvm, bs: seq<bool>)
    requires bs != []
    ensures Clock(n, bs) == Strobe(Clock(n, bs[..|bs| - 1]), bs[|bs| - 1])
  {
    var a, b := bs[..|bs| - 1], [bs[|bs| - 1]];
    assert bs == a + b;
    ClockJoin(n, a, b);
    assert Clock(Clock(n, a), b) == Clock(Strobe(Clock(n, a), b[0]), b[1..]);
  }

  // Between commands.
  predicate Ready(n: Nvm) { Valid(n) && n.mode == OpAddr && n.bits == OPADDR_BITS && n.opaddr == 0 }

  lemma HeaderDone(n: Nvm, h: seq<bool>)
    requires Ready(n) && |h| == OPADDR_BITS
    ensures Clock(n, h) == Decoded(n.(bits := 0, opaddr := Value(h)))
  {
    ClockLast(n, h);
    ClockHeader(n, h[..8]);
    ShiftLast(0, h);
    ShiftZeroValue(h);
  }

  lemma WordDone(n: Nvm, w: seq<bool>)
    requires n.mode == DataIn && n.bits == DATA_BITS && n.data == 0 && |w| == DATA_BITS
    ensures Clock(n, w) == StoredWord(n.(bits := 0, data := Value(w)))
  {
    ClockLast(n, w);
    ClockWord(n, w[..15]);
    ShiftLast(0, w);
    ShiftZeroValue(w);
  }

  // One bit out: data is v, moved up to the top of the register.
  lemma ShiftOut(data: nat, v: nat, p: nat, s: nat)
    requires p * s == 0x8000 && data == v * s && v < 2 * p && s > 0
    ensures data >= 0x8000 <==> v >= p
    ensures Shift(data, false) == (if v >= p then v - p else v) * (2 * s)
  {
    var u := if v >= p then v - p else v;
    assert v * s == u * s + (if v >= p then p * s else 0);
    Below(u, p, s);
    if v >= p { Below(0, 1, s); }
    assert u * (2 * s) == 2 * (u * s);
  }

  lemma Below(u: nat, p: nat, s: nat)
    requires u < p && s > 0
    ensures u * s < p * s
  {
    assert p * s == u * s + (p - u) * s;
  }

  lemma {:induction false} ClockOut(n: Nvm, dis: seq<bool>, v: nat)
    requires n.mode == DataOut && dis != [] && n.bits == |dis| <= DATA_BITS
    requires v < Pow2(|dis|) && n.data == v * Pow2(16 - |dis|)
    ensures Outputs(n, dis) == Bits(v, |dis|)
    ensures Clock(n, dis).words == n.words && Clock(n, dis) == ToOpcode(Clock(n, dis))
    decreases |dis|
  {
    var k := |dis|;
    var m := Strobe(n, dis[0]);
    PowProduct(k - 1, 16 - k);
    PowerValues();
    ShiftOut(n.data, v, Pow2(k - 1), Pow2(16 - k));
    if k > 1 {
      ClockOut(m, dis[1..], if v >= Pow2(k - 1) then v - Pow2(k - 1) else v);
    } else {
      assert dis[1..] == [];
    }
  }

  // What software can ask for; other opcodes are ignored.
  datatype Command = Read(addr: nat) | Write(addr: nat, word: nat) | Other(op: nat, addr: nat)

  predicate Sane(c: Command) {
    c.addr < SIZE && (c.Write? ==> c.word < 0x1_0000) && (c.Other? ==> c.op < 8 && c.op != READ && c.op != WRITE)
  }

  function Opcode(c: Command): nat {
    match c
    case Read(_) => READ
    case Write(_, _) => WRITE
    case Other(op, _) => op
  }

  // The bits to clock in; while a word is read any 16 bits do.
  ghost predicate Encodes(c: Command, dis: seq<bool>) {
    var h := Bits(64 * Opcode(c) + c.addr, OPADDR_BITS);
    match c
    case Read(_) => |dis| == OPADDR_BITS + DATA_BITS && dis[..OPADDR_BITS] == h
    case Write(_, w) => dis == h + Bits(w, DATA_BITS)
    case Other(_, _) => dis == h
  }

  // What a command means to an array of words.
  function Exec(words: seq<nat>, c: Command): seq<nat>
    requires c.addr < |words|
  {
    if c.Write? then words[c.addr := c.word] else words
  }

  lemma FieldsOf(op: nat, addr: nat)
    requires op < 8 && addr < 64
    ensures Op(64 * op + addr) == op && Addr(64 * op + addr) == addr
  {
  }

  lemma HeaderOf(n: Nvm, c: Command, h: seq<bool>)
    requires Ready(n) && Sane(c) && h == Bits(64 * Opcode(c) + c.addr, OPADDR_BITS)
    ensures Clock(n, h) == Decoded(n.(bits := 0, opaddr := 64 * Opcode(c) + c.addr))
    ensures Op(64 * Opcode(c) + c.addr) == Opcode(c) && Addr(64 * Opcode(c) + c.addr) == c.addr
  {
    PowerValues();
    FieldsOf(Opcode(c), c.addr);
    ValueOfBits(64 * Opcode(c) + c.addr, OPADDR_BITS);
    HeaderDone(n, h);
  }

  /** A command does to the words exactly what it means, and the machine is ready for
      the next one; a read shows the word's 16 bits, the most significant first. */
  lemma CommandRuns(n: Nvm, c: Command, dis: seq<bool>)
    requires Ready(n) && Sane(c) && Encodes(c, dis)
    ensures Ready(Clock(n, dis)) && Clock(n, dis).words == Exec(n.words, c)
    ensures c.Read? ==> Outputs(n, dis)[OPADDR_BITS..] == Bits(n.words[c.addr], DATA_BITS)
  {
    var h := Bits(64 * Opcode(c) + c.addr, OPADDR_BITS);
    HeaderOf(n, c, h);
    ClockKeeps(n, dis);
    PowerValues();
    match c {
      case Read(addr) =>
        var m := Clock(n, h);
        assert dis == h + dis[OPADDR_BITS..];
        ClockJoin(n, h, dis[OPADDR_BITS..]);
        assert m.data == n.words[addr] * Pow2(0);
        ClockOut(m, dis[OPADDR_BITS..], n.words[addr]);
      case Write(addr, w) =>
        ClockJoin(n, h, Bits(w, DATA_BITS));
        ValueOfBits(w, DATA_BITS);
        WordDone(Clock(n, h), Bits(w, DATA_BITS));
      case Other(_, _) =>
    }
  }

  // ----- sessions

  function ExecAll(words: seq<nat>, cs: seq<Command>): (r: seq<nat>)
    requires |words| == SIZE && (forall i :: 0 <= i < |cs| ==> Sane(cs[i]))
    ensures |r| == SIZE
    decreases |cs|
  {
    if cs == [] then words else assert Sane(cs[0]); ExecAll(Exec(words, cs[0]), cs[1..])
  }

  // The bits of a session, one command after the other.
  function Joined(ds: seq<seq<bool>>): seq<bool> {
    if ds == [] then [] else ds[0] + Joined(ds[1..])
  }

  ghost predicate EncodesAll(cs: seq<Command>, ds: seq<seq<bool>>) {
    |cs| == |ds| && forall i :: 0 <= i < |cs| ==> Sane(cs[i]) && Encodes(cs[i], ds[i])
  }

  /** A whole session refines the array of words. */
  lemma {:induction false} SessionRuns(n: Nvm, cs: seq<Command>, ds: seq<seq<bool>>)
    requires Ready(n) && EncodesAll(cs, ds)
    ensures Ready(Clock(n, Joined(ds))) && Clock(n, Joined(ds)).words == ExecAll(n.words, cs)
    decreases |cs|
  {
    if cs != [] {
      CommandRuns(n, cs[0], ds[0]);
      SessionRuns(Clock(n, ds[0]), cs[1..], ds[1..]);
      ClockJoin(n, ds[0], Joined(ds[1..]));
    }
  }

  /** What was written is read back after any commands that do not write there. */
  lemma {:induction false} OthersKeep(words: seq<nat>, cs: seq<Command>, addr: nat)
    requires |words| == SIZE && addr < SIZE && forall i :: 0 <= i < |cs| ==> Sane(cs[i])
    requires forall i :: 0 <= i < |cs| ==> !(cs[i].Write? && cs[i].addr == addr)
    ensures ExecAll(words, cs)[addr] == words[addr]
    decreases |cs|
  {
    if cs != [] { OthersKeep(Exec(words, cs[0]), cs[1..], addr); }
  }

  /** Write, anything else, read: the bits that come out are the bits that went in. */
  lemma RoundTrip(n: Nvm, addr: nat, w: nat, cs: seq<Command>, dw: seq<bool>, ds: seq<seq<bool>>, dr: seq<bool>)
    requires Ready(n) && Sane(Write(addr, w)) && Encodes(Write(addr, w), dw)
    requires EncodesAll(cs, ds) && forall i :: 0 <= i < |cs| ==> !(cs[i].Write? && cs[i].addr == addr)
    requires Encodes(Read(addr), dr)
    ensures Outputs(Clock(n, dw + Joined(ds)), dr)[OPADDR_BITS..] == Bits(w, DATA_BITS)
  {
    CommandRuns(n, Write(addr, w), dw);
    var m := Clock(n, dw);
    SessionRuns(m, cs, ds);
    OthersKeep(m.words, cs, addr);
    ClockJoin(n, dw, Joined(ds));
    CommandRuns(Clock(m, Joined(ds)), Read(addr), dr);
  }

  // ----- the device

  class EepromDevice {
    var pins: Pins
    var gnt: bool
    var mode: Mode
    var bits: nat
    var opaddr: nat
    var data: nat
    var dout: bool
    var words: array<nat>

    ghost function State(): Eecd
      reads this, words
    {
      Eecd(pins, gnt, Nvm(mode, bits, opaddr, data, dout, words[..]))
    }

    constructor (initial: array<nat>)
      requires initial.Length == SIZE
      ensures words == initial && mode == OpAddr && bits == OPADDR_BITS && opaddr == 0 && data == 0
    {
      pins, gnt, dout := Pins(false, false, false, false), false, false;
      mode, bits, opaddr, data := OpAddr, OPADDR_BITS, 0, 0;
      words := initial;
    }

    method Opcode()
      modifies this`opaddr, this`mode, this`bits
      ensures State().nvm == ToOpcode(old(State().nvm))
    {
      opaddr, mode, bits := 0, OpAddr, OPADDR_BITS;
    }

    method Clocked()
      modifies this, words
      ensures words == old(words) && pins == old(pins) && gnt == old(gnt)
      ensures State().nvm == Strobe(old(State().nvm), old(pins.di))
    {
      if bits == 0 { return; }
      bits := bits - 1;
      if mode == DataOut {
        dout := data >= 0x8000;
        data := Shift(data, false);
        if bits == 0 { Opcode(); }
      } else if mode == DataIn {
        data := Shift(data, pins.di);
        if bits == 0 {
          if Op(opaddr) == WRITE && Addr(opaddr) < SIZE && Addr(opaddr) < words.Length { words[Addr(opaddr)] := data; }
          Opcode();
        }
      } else {
        opaddr := Shift(opaddr, pins.di);
        if bits == 0 {
          if Op(opaddr) == READ {
            mode, bits := DataOut, DATA_BITS;
            data := if Addr(opaddr) < SIZE && Addr(opaddr) < words.Length then words[Addr(opaddr)] else 0;
          } else if Op(opaddr) == WRITE {
            mode, bits, data := DataIn, DATA_BITS, 0;
          } else {
            Opcode();
          }
        }
      }
    }

    method WriteRegister(v: Pins)
      modifies this, words
      ensures words == old(words) && State() == WriteEecd(old(State()), v)
    {
      var strobe := !pins.sk && v.sk;
      pins := v;
      gnt := v.req;
      if strobe && pins.cs { Clocked(); }
    }
  }
}
