/**
 Allocation of base address registers at start-up (bhyve/pci_emul.c,
 pci_emul_alloc_resource and pci_emul_alloc_pbar): windows that are handed out upwards,
 shared by all functions.
 */
module PciAlloc {
  import opened Wrappers
  import opened Bytes
  import opened MmioMap
  import opened Powers
  import opened PciSpec
  import opened PciCaps
  import opened PciBar

  const IO_LIMIT: nat := 0x1_0000
  const LIMIT32: nat := 0xFDC0_0000
  const LIMIT64: nat := 0xFD_0000_0000
  const BIG: nat := 0x200_0000

  // ----- one window

  datatype Alloc = Alloc(addr: nat, next: nat)

  // roundup2, in 64 bits.
  function RoundUp(base: nat, size: nat): nat
    requires size > 0
  {
    var t := (base + size - 1) % LIMIT;
    t - t % size
  }

  // pci_emul_alloc_resource; the sum wraps.
  function AllocResource(base: nat, limit: nat, size: nat): Option<Alloc>
    requires size > 0
  {
    var a := RoundUp(base, size);
    var end := (a + size) % LIMIT;
    if end <= limit then Some(Alloc(a, end)) else None
  }

  ghost predicate Power(size: nat) { exists k: nat :: k <= 62 && size == Pow2(k) }

  lemma TopPower()
    ensures Pow2(62) == 0x4000_0000_0000_0000
  {
    PowerValues();
    assert Pow2(64) == 4 * Pow2(62);
  }

  lemma PowerBound(size: nat)
    requires Power(size)
    ensures 0 < size <= 0x4000_0000_0000_0000
  {
    var k: nat :| k <= 62 && size == Pow2(k);
    TopPower();
    if k < 62 { PowLess(k, 62); }
  }

  lemma RoundUpIs(base: nat, size: nat)
    requires Power(size) && base < 0x4000_0000_0000_0000
    ensures base <= RoundUp(base, size) < base + size && Multiple(RoundUp(base, size), size)
    ensures forall b: nat :: Multiple(b, size) && base <= b ==> RoundUp(base, size) <= b
  {
    PowerBound(size);
    var t := base + size - 1;
    NoWrap(t, 0);
    Remainder(t, size);
    forall b: nat | Multiple(b, size) && base <= b ensures RoundUp(base, size) <= b {
      if b < RoundUp(base, size) { MultipleFits(b, RoundUp(base, size), size); }
    }
  }

  lemma NoWrap(a: nat, size: nat)
    requires a + size < LIMIT
    ensures (a + size) % LIMIT == a + size
  {
  }

  // The allocation is aligned, in the window, and the lowest one; there is none exactly
  // when no aligned range is left.
  ghost predicate Lowest(base: nat, limit: nat, size: nat, r: Option<Alloc>) {
    match r
    case Some(a) =>
      && Multiple(a.addr, size) && base <= a.addr && a.addr + size == a.next <= limit
      && (forall b: nat :: Multiple(b, size) && base <= b ==> a.addr <= b)
    case None => forall b: nat :: Multiple(b, size) && base <= b ==> b + size > limit
  }

  lemma AllocIs(base: nat, limit: nat, size: nat)
    requires Power(size) && base <= limit < 0x4000_0000_0000_0000
    ensures Lowest(base, limit, size, AllocResource(base, limit, size))
  {
    PowerBound(size);
    RoundUpIs(base, size);
    NoWrap(RoundUp(base, size), size);
  }

  const HUGE: nat := 0x8000_0000_0000_0000

  // A request of 2^63 bytes wraps around: it succeeds, and the window starts over.
  lemma HugeWraps(base: nat, limit: nat)
    requires base <= limit < 0x4000_0000_0000_0000
    ensures AllocResource(base, limit, HUGE) == if base > 0 then Some(Alloc(HUGE, 0)) else None
  {
    assert (base + HUGE - 1) % LIMIT == base + HUGE - 1;
    if base > 0 { assert (base + HUGE - 1) % HUGE == base - 1; }
  }

  /** For every power of two of 64 bits: the allocation is the lowest one, or rightly none,
      except that 2^63 bytes wrap around in a window that does not start at zero. */
  lemma AllocLowestIff(base: nat, limit: nat, size: nat)
    requires (Power(size) || size == HUGE) && base <= limit < 0x4000_0000_0000_0000
    ensures Lowest(base, limit, size, AllocResource(base, limit, size)) <==> size < HUGE || base == 0
  {
    if size == HUGE {
      HugeWraps(base, limit);
    } else {
      PowerBound(size);
      AllocIs(base, limit, size);
    }
  }

  datatype Given = Given(addr: nat, size: nat)

  // A sequence of requests to one window; a failed one leaves it alone.
  function AllocAll(base: nat, limit: nat, sizes: seq<nat>): seq<Given>
    requires forall i :: 0 <= i < |sizes| ==> sizes[i] > 0
    decreases |sizes|
  {
    if sizes == [] then []
    else
      match AllocResource(base, limit, sizes[0])
      case None => AllocAll(base, limit, sizes[1..])
      case Some(a) => [Given(a.addr, sizes[0])] + AllocAll(a.next, limit, sizes[1..])
  }

  ghost predicate Placed(g: seq<Given>, base: nat, limit: nat) {
    && (forall i :: 0 <= i < |g| ==>
                      Multiple(g[i].addr, g[i].size) && base <= g[i].addr && g[i].addr + g[i].size <= limit)
    && (forall i, j :: 0 <= i < j < |g| ==> g[i].addr + g[i].size <= g[j].addr)
  }

  lemma PlacedNext(g: Given, rest: seq<Given>, base: nat, limit: nat)
    requires Multiple(g.addr, g.size) && base <= g.addr && g.addr + g.size <= limit
    ensures Placed([g] + rest, base, limit) <==> Placed(rest, g.addr + g.size, limit)
  {
    var all := [g] + rest;
    if Placed(all, base, limit) {
      forall i | 0 <= i < |rest|
        ensures Multiple(rest[i].addr, rest[i].size) && g.addr + g.size <= rest[i].addr
                && rest[i].addr + rest[i].size <= limit
      {
        assert all[i + 1] == rest[i] && all[0].addr + all[0].size <= all[i + 1].addr;
      }
      forall i, j | 0 <= i < j < |rest| ensures rest[i].addr + rest[i].size <= rest[j].addr {
        assert all[i + 1] == rest[i] && all[j + 1] == rest[j];
      }
    }
  }

  /** What a window gives is aligned, in the window, and does not overlap, exactly when no
      request is for 2^63 bytes. */
  lemma {:induction false} WindowPlacesIff(base: nat, limit: nat, sizes: seq<nat>)
    requires 0 < base <= limit < 0x4000_0000_0000_0000
    requires forall i :: 0 <= i < |sizes| ==> sizes[i] > 0 && (Power(sizes[i]) || sizes[i] == HUGE)
    ensures Placed(AllocAll(base, limit, sizes), base, limit) <==> HUGE !in sizes
    decreases |sizes|
  {
    if sizes != [] {
      AllocLowestIff(base, limit, sizes[0]);
      if sizes[0] == HUGE {
        HugeWraps(base, limit);
        assert AllocAll(base, limit, sizes)[0] == Given(HUGE, HUGE);
      } else {
        PowerBound(sizes[0]);
        assert HUGE in sizes <==> HUGE in sizes[1..];
        match AllocResource(base, limit, sizes[0])
        case None => WindowPlacesIff(base, limit, sizes[1..]);
        case Some(a) =>
          WindowPlacesIff(a.next, limit, sizes[1..]);
          PlacedNext(Given(a.addr, sizes[0]), AllocAll(a.next, limit, sizes[1..]), base, limit);
      }
    }
  }

  // ----- sizes

  // The next power of two from p on; p is a power of two.
  function NextPower(p: nat, size: nat): nat
    requires p > 0
    decreases if p < size then size - p else 0
  {
    if p >= size then p else NextPower(2 * p, size)
  }

  // The sizes the standard asks for.
  function RealSize(kind: BarKind, size: nat): nat {
    var p, least := NextPower(1, size), if kind == Io then 4 else 16;
    if p < least then least else p
  }

  lemma {:induction false} NextPowerIs(k: nat, size: nat)
    requires k <= 62 && size <= 0x4000_0000_0000_0000
    ensures Power(NextPower(Pow2(k), size)) && NextPower(Pow2(k), size) >= size
    decreases 62 - k
  {
    TopPower();
    if Pow2(k) < size { NextPowerIs(k + 1, size); }
  }

  lemma RealSizeIs(kind: BarKind, size: nat)
    requires size <= 0x4000_0000_0000_0000
    ensures Power(RealSize(kind, size)) && RealSize(kind, size) >= size
    ensures RealSize(kind, size) >= if kind == Io then 4 else 16
  {
    NextPowerIs(0, size);
    assert Pow2(2) == 4 && Pow2(4) == 16;
  }

  // ----- one bar

  datatype Pool = Pool(io: nat, mem32: nat, mem64: nat)

  const FOUR_GIG: nat := 0x1_0000_0000

  predicate PoolOk(p: Pool) { p.mem32 <= LIMIT32 < p.mem64 <= LIMIT64 && p.io <= IO_LIMIT }

  // No range lies in what is left of the memory windows.
  ghost predicate Free(root: set<Range>, p: Pool) {
    forall r :: r in root ==>
                  && (End(r) < p.mem32 || LIMIT32 <= r.base) && (End(r) < p.mem64 || LIMIT64 <= r.base)
  }

  datatype Window = IoWindow | Window32 | Window64 | Host

  // Small 64-bit bars are put below 4 GB, and one size at the caller's address.
  function WindowOf(kind: BarKind, size: nat): Window {
    if kind == Io then IoWindow
    else if kind == Mem64 && size > BIG then (if size == FOUR_GIG then Host else Window64)
    else Window32
  }

  function BaseOf(w: Window, p: Pool, host: nat): nat {
    match w
    case IoWindow => p.io
    case Window32 => p.mem32
    case Window64 => p.mem64
    case Host => host
  }

  function LimitOf(w: Window): nat {
    match w
    case IoWindow => IO_LIMIT
    case Window32 => LIMIT32
    case _ => LIMIT64
  }

  function Taken(w: Window, p: Pool, next: nat): Pool {
    match w
    case IoWindow => p.(io := next)
    case Window32 => p.(mem32 := next)
    case Window64 => p.(mem64 := next)
    case Host => p
  }

  // The bits of the register that tell its kind.
  function KindBits(kind: BarKind, w: Window): nat {
    match kind
    case Io => 1
    case Mem64 => if w == Window32 then 4 else 12
    case _ => 0
  }

  // The registers once the address is known, before the range is registered.
  function WithBar(d: Dev, i: nat, kind: BarKind, addr: nat, size: nat, w: Window): Dev
    requires |d.bars| == BARS && i < BARS && (kind == Mem64 ==> i + 1 < BARS)
  {
    var b1 := d.bars[i := Bar(kind, addr, size)];
    var c1 := Put(d.cfg, BAR0 + 4 * i, 4, Low(addr) + KindBits(kind, w));
    if kind == Mem64 then
      d.(bars := b1[i + 1 := b1[i + 1].(kind := MemHi64)], cfg := Put(c1, BAR0 + 4 * i + 4, 4, High(addr)))
    else d.(bars := b1, cfg := c1)
  }

  ghost function AllocBar(s: St, p: Pool, i: nat, host: nat, kind: BarKind, size: nat): Option<(St, Pool)>
    requires |s.dev.bars| == BARS && i < BARS && (kind == Mem64 ==> i + 1 < BARS)
    requires size <= 0x4000_0000_0000_0000
  {
    RealSizeIs(kind, size);
    PowerBound(RealSize(kind, size));
    var n := RealSize(kind, size);
    var w := WindowOf(kind, n);
    match AllocResource(BaseOf(w, p, host), LimitOf(w), n)
    case None => None
    case Some(a) => Some((RegisterBar(s.(dev := WithBar(s.dev, i, kind, a.addr, n, w)), i), Taken(w, p, a.next)))
  }

  // The registers a function may still be given.
  predicate Unused(d: Dev, i: nat, kind: BarKind) {
    && |d.bars| == BARS && i < BARS && d.bars[i] == Bar(NoBar, 0, 0)
    && (kind == Mem64 ==> i + 1 < BARS && d.bars[i + 1] == Bar(NoBar, 0, 0))
  }

  lemma WithBarShape(d: Dev, i: nat, kind: BarKind, addr: nat, size: nat, w: Window)
    requires Shape(d) && Unused(d, i, kind) && (kind == Io || kind == Mem32 || kind == Mem64)
    ensures Shape(WithBar(d, i, kind, addr, size, w))
    ensures MemEn(WithBar(d, i, kind, addr, size, w).cfg) == MemEn(d.cfg)
  {
    var e := WithBar(d, i, kind, addr, size, w);
    assert e.cfg[COMMAND] == d.cfg[COMMAND];
  }

  // The other bars decode what they did.
  lemma WithBarDecodes(d: Dev, e: Dev, i: nat)
    requires |d.bars| == BARS && |e.bars| == BARS && i < BARS && e.name == d.name
    requires forall j :: 0 <= j < BARS && j != i ==> SameMem(d, e, j)
    requires !IsMem(d.bars[i])
    ensures Decoded(e, All() - {i}) == Decoded(d, All())
  {
    forall j | 0 <= j < BARS && j != i
      ensures IsMem(e.bars[j]) == IsMem(d.bars[j]) && (IsMem(d.bars[j]) ==> RangeOf(e, j) == RangeOf(d, j))
    {
      assert SameMem(d, e, j);
    }
    assert forall r :: r in Decoded(d, All()) ==>
                         exists j :: j in All() - {i} && IsMem(d.bars[j]) && RangeOf(e, j) == r;
  }

  // With the new bar not yet registered.
  lemma WithBarKeeps(s: St, i: nat, kind: BarKind, addr: nat, size: nat, w: Window)
    requires Bound(s) && MemEn(s.dev.cfg) && Shape(s.dev) && Unused(s.dev, i, kind) && kind != NoBar && kind != MemHi64
    requires GoodBar(Bar(kind, addr, size))
    ensures Registered(s.(dev := WithBar(s.dev, i, kind, addr, size, w)), All() - {i})
    ensures Others(s.root, s.dev.name) == Others(s.root, WithBar(s.dev, i, kind, addr, size, w).name)
  {
    var e := WithBar(s.dev, i, kind, addr, size, w);
    forall j | 0 <= j < BARS && j != i ensures SameMem(s.dev, e, j) {}
    WithBarDecodes(s.dev, e, i);
  }

  lemma FreshRange(root: set<Range>, p: Pool, w: Window, a: Alloc, r: Range)
    requires PoolOk(p) && Free(root, p) && (w == Window32 || w == Window64)
    requires BaseOf(w, p, 0) <= a.addr && a.addr + r.size == a.next <= LimitOf(w) && 0 < r.size && r.base == a.addr
    ensures !Meets(root, r) && PoolOk(Taken(w, p, a.next)) && Free(root + {r}, Taken(w, p, a.next))
  {
    ProperEnd(r);
  }

  /** A bar from the shared windows is aligned and clear of everything registered, so its
      registration succeeds; the windows stay free. */
  lemma AllocBarKeeps(s: St, p: Pool, i: nat, host: nat, kind: BarKind, size: nat)
    requires Bound(s) && MemEn(s.dev.cfg) && Shape(s.dev) && Unused(s.dev, i, kind)
    requires kind == Mem32 || kind == Mem64
    requires size <= 0x4000_0000_0000_0000 && PoolOk(p) && Free(s.root, p)
    requires AllocBar(s, p, i, host, kind, size).Some? && WindowOf(kind, RealSize(kind, size)) != Host
    ensures var (t, q) := AllocBar(s, p, i, host, kind, size).value;
            && Bound(t) && Shape(t.dev) && MemEn(t.dev.cfg) && PoolOk(q) && Free(t.root, q)
            && t.dev.bars[i].kind == kind && t.dev.bars[i].size == RealSize(kind, size)
  {
    var n := RealSize(kind, size);
    var w := WindowOf(kind, n);
    RealSizeIs(kind, size);
    PowerBound(n);
    AllocIs(BaseOf(w, p, host), LimitOf(w), n);
    var a := AllocResource(BaseOf(w, p, host), LimitOf(w), n).value;
    PlacedGood(kind, a.addr, n, LimitOf(w));
    WithBarKeeps(s, i, kind, a.addr, n, w);
    WithBarShape(s.dev, i, kind, a.addr, n, w);
    var m := s.(dev := WithBar(s.dev, i, kind, a.addr, n, w));
    FreshRange(s.root, p, w, a, RangeOf(m.dev, i));
    RegisterClear(m, i);
  }

  // A port range takes nothing from the memory windows and registers nothing.
  lemma AllocIoKeeps(s: St, p: Pool, i: nat, size: nat)
    requires Bound(s) && MemEn(s.dev.cfg) && Shape(s.dev) && Unused(s.dev, i, Io)
    requires size <= 0x4000_0000_0000_0000 && PoolOk(p) && Free(s.root, p)
    requires AllocBar(s, p, i, 0, Io, size).Some?
    ensures var (t, q) := AllocBar(s, p, i, 0, Io, size).value;
            && Bound(t) && Shape(t.dev) && MemEn(t.dev.cfg) && PoolOk(q) && Free(t.root, q) && t.root == s.root
  {
    var n := RealSize(Io, size);
    RealSizeIs(Io, size);
    PowerBound(n);
    AllocIs(p.io, IO_LIMIT, n);
    var a := AllocResource(p.io, IO_LIMIT, n).value;
    WithBarKeeps(s, i, Io, a.addr, n, IoWindow);
    WithBarShape(s.dev, i, Io, a.addr, n, IoWindow);
    var m := s.(dev := WithBar(s.dev, i, Io, a.addr, n, IoWindow));
    assert m.dev.bars[i].kind == Io;
    assert Decoded(m.dev, All() - {i}) == Decoded(m.dev, All());
  }

  lemma PlacedGood(kind: BarKind, addr: nat, size: nat, limit: nat)
    requires Power(size) && size >= 16 && Multiple(addr, size) && addr + size <= limit <= LIMIT64
    requires kind == Mem64 || (kind == Mem32 && limit <= LIMIT32)
    ensures GoodBar(Bar(kind, addr, size))
  {
  }

  lemma RegisterClear(m: St, i: nat)
    requires Registered(m, All() - {i}) && i < BARS && IsMem(m.dev.bars[i]) && !Meets(m.root, RangeOf(m.dev, i))
    ensures Registered(RegisterBar(m, i), All())
    ensures RegisterBar(m, i) == m.(root := m.root + {RangeOf(m.dev, i)})
  {
    RegisterIff(m, All() - {i}, i);
    assert All() - {i} + {i} == All();
    RangeFits(m.dev, i);
    AtMeets(m.root, RangeOf(m.dev, i));
  }

  /** The exception: a bar of exactly 4 GB is put at the caller's address, which is zero,
      and so registers exactly when nothing below 4 GB is registered. */
  lemma FourGigIff(s: St, p: Pool, i: nat)
    requires Bound(s) && MemEn(s.dev.cfg) && Shape(s.dev) && Unused(s.dev, i, Mem64)
    ensures AllocBar(s, p, i, 0, Mem64, FOUR_GIG).Some?
    ensures var (t, q) := AllocBar(s, p, i, 0, Mem64, FOUR_GIG).value;
            && t.dev.bars[i].addr == 0 && q == p
            && (Bound(t) <==> forall x :: x in s.root ==> x.base >= FOUR_GIG)
  {
    FourGigSize();
    AllocIs(0, LIMIT64, FOUR_GIG);
    RoundUpIs(0, FOUR_GIG);
    MultipleOf(0, FOUR_GIG);
    var m := s.(dev := WithBar(s.dev, i, Mem64, 0, FOUR_GIG, Host));
    PlacedGood(Mem64, 0, FOUR_GIG, LIMIT64);
    WithBarKeeps(s, i, Mem64, 0, FOUR_GIG, Host);
    WithBarShape(s.dev, i, Mem64, 0, FOUR_GIG, Host);
    RangeFits(m.dev, i);
    LowMeets(s.root, RangeOf(m.dev, i));
    RegisterIff(m, All() - {i}, i);
    assert All() - {i} + {i} == All();
  }

  lemma LowMeets(root: set<Range>, r: Range)
    requires r.base == 0 && r.size == FOUR_GIG
    ensures Meets(root, r) <==> exists x :: x in root && x.base < FOUR_GIG
  {
  }

  lemma FourGigSize()
    ensures RealSize(Mem64, FOUR_GIG) == FOUR_GIG && Power(FOUR_GIG)
  {
    PowerValues();
    NextPowerReaches(0, 32);
  }

  lemma {:induction false} NextPowerReaches(k: nat, n: nat)
    requires k <= n
    ensures NextPower(Pow2(k), Pow2(n)) == Pow2(n)
    decreases n - k
  {
    if k < n {
      PowLess(k, n);
      NextPowerReaches(k + 1, n);
    }
  }
}
