/**
 Base address registers and the map of memory ranges (bhyve/pci_emul.c): while what is
 programmed does not overlap, a range is registered exactly where a register decodes it.
 */
module PciBar {
  import opened Bytes
  import opened MmioMap
  import opened Powers
  import opened PciSpec
  import opened PciCaps

  // ----- what is registered

  // The bars that decode memory, among the indices in 'on'.
  ghost function Decoded(d: Dev, on: set<nat>): set<Range> {
    set i | i in on && i < |d.bars| && IsMem(d.bars[i]) :: RangeOf(d, i)
  }

  ghost function Own(root: set<Range>, name: string): set<Range> {
    set r | r in root && r.name == name
  }

  // A memory bar decodes a naturally aligned power of two.
  ghost predicate GoodBar(b: Bar) {
    IsMem(b) ==>
      && (exists k: nat :: k < 64 && b.size == Pow2(k)) && 16 <= b.size
      && Multiple(b.addr, b.size) && b.addr < (if b.kind == Mem32 then W32 else LIMIT)
      && (b.kind == Mem32 ==> b.size <= W32)
  }

  lemma PowerDivides(size: nat, k: nat)
    requires k < 64 && size == Pow2(k)
    ensures Multiple(LIMIT, size)
    ensures size <= W32 ==> Multiple(W32, size)
    ensures size >= W32 ==> Multiple(size, W32)
  {
    PowerValues();
    PowMultiple(64, k);
    if k <= 32 { PowMultiple(32, k); } else { PowProduct(k - 32, 32); }
    if k >= 32 { PowMultiple(k, 32); } else { PowLess(k, 32); }
  }

  lemma {:induction false} PowLess(a: nat, b: nat)
    requires a < b
    ensures Pow2(a) < Pow2(b)
  {
    if a + 1 < b { PowLess(a, b - 1); }
  }

  lemma GoodBarFits(b: Bar)
    requires GoodBar(b) && IsMem(b)
    ensures b.addr + b.size <= LIMIT
    ensures b.kind == Mem32 ==> b.addr + b.size <= W32
  {
    var k: nat :| k < 64 && b.size == Pow2(k);
    PowerDivides(b.size, k);
    MultipleFits(b.addr, LIMIT, b.size);
    if b.kind == Mem32 { MultipleFits(b.addr, W32, b.size); }
  }

  // Exactly the bars in 'on' are registered for the device, and no assertion has failed.
  ghost predicate Registered(s: St, on: set<nat>) {
    && s.ok && Disjoint(s.root) && |s.dev.bars| == BARS
    && (forall i :: 0 <= i < BARS ==> GoodBar(s.dev.bars[i]))
    && Own(s.root, s.dev.name) == Decoded(s.dev, on)
  }

  ghost function All(): set<nat> { {0, 1, 2, 3, 4, 5} }

  ghost function Enabled(d: Dev): set<nat> { if MemEn(d.cfg) then All() else {} }

  // Registered if and only if decoding is enabled, at the current address.
  ghost predicate Bound(s: St) { Registered(s, Enabled(s.dev)) }

  lemma RangeFits(d: Dev, i: nat)
    requires i < |d.bars| && IsMem(d.bars[i]) && GoodBar(d.bars[i])
    ensures Proper(RangeOf(d, i)) && RangeOf(d, i).base <= End(RangeOf(d, i))
    ensures Contains(RangeOf(d, i), d.bars[i].addr)
  {
    GoodBarFits(d.bars[i]);
    ProperEnd(RangeOf(d, i));
  }

  lemma DecodedPlus(d: Dev, on: set<nat>, i: nat)
    requires i < |d.bars| && IsMem(d.bars[i])
    ensures Decoded(d, on + {i}) == Decoded(d, on) + {RangeOf(d, i)}
  {
  }

  lemma DecodedMinus(d: Dev, on: set<nat>, i: nat)
    requires i < |d.bars| && IsMem(d.bars[i])
    ensures Decoded(d, on - {i}) == Decoded(d, on) - {RangeOf(d, i)}
  {
    forall r | r in Decoded(d, on - {i}) ensures r != RangeOf(d, i) { assert r.arg != i; }
  }

  lemma NotDecoded(d: Dev, on: set<nat>, i: nat)
    requires i < |d.bars| && i !in on
    ensures RangeOf(d, i) !in Decoded(d, on)
  {
    forall r | r in Decoded(d, on) ensures r != RangeOf(d, i) { assert r.arg != i; }
  }

  lemma DisjointPlus(s: set<Range>, r: Range)
    requires Disjoint(s) && r.base <= End(r) && !Meets(s, r)
    ensures Disjoint(s + {r})
  {
  }

  /** Registering a bar that is not registered succeeds, and registers it, exactly when
      nothing overlaps it. */
  lemma RegisterIff(s: St, on: set<nat>, i: nat)
    requires Registered(s, on) && i < BARS && i !in on && IsMem(s.dev.bars[i])
    ensures Registered(RegisterBar(s, i), on + {i}) <==> !Meets(s.root, RangeOf(s.dev, i))
  {
    var r := RangeOf(s.dev, i);
    RangeFits(s.dev, i);
    AtMeets(s.root, r);
    DecodedPlus(s.dev, on, i);
    NotDecoded(s.dev, on, i);
    if !Meets(s.root, r) {
      DisjointPlus(s.root, r);
      assert Own(s.root + {r}, s.dev.name) == Own(s.root, s.dev.name) + {r};
    } else if RegisterBar(s, i).ok {
      assert RegisterBar(s, i).root == s.root;
      assert r !in Own(s.root, s.dev.name);
    }
  }

  /** Unregistering a registered bar finds it and removes it. */
  lemma UnregisterFinds(s: St, on: set<nat>, i: nat)
    requires Registered(s, on) && i < BARS && i in on && IsMem(s.dev.bars[i])
    ensures UnregisterBar(s, i) == s.(root := s.root - {RangeOf(s.dev, i)})
    ensures Registered(UnregisterBar(s, i), on - {i})
  {
    var r := RangeOf(s.dev, i);
    RangeFits(s.dev, i);
    assert r in Decoded(s.dev, on);
    assert r in Own(s.root, s.dev.name);
    AtIs(s.root, r.base, r);
    DecodedMinus(s.dev, on, i);
    assert Own(s.root - {r}, s.dev.name) == Own(s.root, s.dev.name) - {r};
  }

  // ----- moving a bar

  function Moved(d: Dev, i: nat, addr: nat): Dev
    requires i < |d.bars|
  {
    d.(bars := d.bars[i := d.bars[i].(addr := addr)])
  }

  lemma MovedKeeps(s: St, on: set<nat>, i: nat, addr: nat)
    requires Registered(s, on) && i < BARS && i !in on && GoodBar(Moved(s.dev, i, addr).bars[i])
    ensures Registered(s.(dev := Moved(s.dev, i, addr)), on)
  {
    var d := Moved(s.dev, i, addr);
    forall j | j in on && j < BARS
      ensures RangeOf(d, j) == RangeOf(s.dev, j) && IsMem(d.bars[j]) == IsMem(s.dev.bars[j]) {}
    assert Decoded(d, on) == Decoded(s.dev, on);
  }

  ghost function Others(root: set<Range>, name: string): set<Range> {
    set r | r in root && r.name != name
  }

  // If decoding is enabled, what is programmed overlaps neither itself nor the others.
  ghost predicate Compatible(d: Dev, others: set<Range>) {
    MemEn(d.cfg) ==> Disjoint(Decoded(d, All()) + others)
  }

  lemma Halves(root: set<Range>, name: string)
    ensures Own(root, name) + Others(root, name) == root
  {
  }

  lemma DisjointPlusIff(s: set<Range>, r: Range)
    requires Disjoint(s) && r.base <= End(r) && r !in s
    ensures Disjoint(s + {r}) <==> !Meets(s, r)
  {
    if !Meets(s, r) { DisjointPlus(s, r); } else { var x :| x in s && Overlap(x, r); }
  }

  lemma RegisterKeepsOthers(s: St, i: nat)
    requires i < |s.dev.bars|
    ensures Others(RegisterBar(s, i).root, s.dev.name) == Others(s.root, s.dev.name)
  {
  }

  lemma UnregisterKeepsOthers(s: St, i: nat)
    requires i < |s.dev.bars|
    ensures Others(UnregisterBar(s, i).root, s.dev.name) == Others(s.root, s.dev.name)
  {
  }

  // Registering the last bar that is missing.
  lemma RegisterLast(s: St, on: set<nat>, i: nat)
    requires Registered(s, on) && i < BARS && i !in on && IsMem(s.dev.bars[i]) && on + {i} == All()
    ensures Registered(RegisterBar(s, i), All()) <==> Disjoint(Decoded(s.dev, All()) + Others(s.root, s.dev.name))
  {
    var r := RangeOf(s.dev, i);
    RegisterIff(s, on, i);
    DecodedPlus(s.dev, on, i);
    NotDecoded(s.dev, on, i);
    RangeFits(s.dev, i);
    Halves(s.root, s.dev.name);
    assert r !in s.root by { assert r !in Own(s.root, s.dev.name); }
    DisjointPlusIff(s.root, r);
    assert Decoded(s.dev, All()) + Others(s.root, s.dev.name) == s.root + {r};
  }

  /** Moving a bar keeps registrations right, and fires no assertion, exactly when what is
      programmed afterwards does not overlap. */
  lemma MoveBarIff(s: St, i: nat, addr: nat)
    requires Bound(s) && i < BARS && IsMem(s.dev.bars[i]) && GoodBar(Moved(s.dev, i, addr).bars[i])
    ensures Bound(MoveBar(s, i, addr)) <==> Compatible(Moved(s.dev, i, addr), Others(s.root, s.dev.name))
    ensures Others(MoveBar(s, i, addr).root, s.dev.name) == Others(s.root, s.dev.name)
    ensures MoveBar(s, i, addr).dev == Moved(s.dev, i, addr)
  {
    if MemEn(s.dev.cfg) {
      var u := UnregisterBar(s, i);
      UnregisterFinds(s, All(), i);
      UnregisterKeepsOthers(s, i);
      MovedKeeps(u, All() - {i}, i, addr);
      var m := u.(dev := Moved(s.dev, i, addr));
      RegisterKeepsOthers(m, i);
      assert All() - {i} + {i} == All();
      RegisterLast(m, All() - {i}, i);
    } else {
      MovedKeeps(s, {}, i, addr);
    }
  }

  // ----- switching decoding

  ghost function Below(i: nat): set<nat> { set j | j in All() && j < i }

  ghost function From(i: nat): set<nat> { set j | j in All() && i <= j }

  lemma BelowNext(i: nat)
    requires i < BARS
    ensures Below(i + 1) == Below(i) + {i} && From(i + 1) == From(i) - {i} && i in From(i) && i !in Below(i)
  {
  }

  lemma NotMemory(d: Dev, on: set<nat>, i: nat)
    requires i < |d.bars| && !IsMem(d.bars[i])
    ensures Decoded(d, on + {i}) == Decoded(d, on) == Decoded(d, on - {i})
  {
  }

  // A bar that was left out stays out.
  lemma {:induction false} DecodeMisses(s: St, i: nat, j: nat)
    requires |s.dev.bars| == BARS && j < i <= BARS && (!s.ok || RangeOf(s.dev, j) !in s.root)
    ensures Decode(s, i, true).dev == s.dev
    ensures !Decode(s, i, true).ok || RangeOf(s.dev, j) !in Decode(s, i, true).root
    decreases BARS - i
  {
    if i < BARS {
      var t := if !IsMem(s.dev.bars[i]) then s else RegisterBar(s, i);
      assert RangeOf(s.dev, i).arg != RangeOf(s.dev, j).arg;
      DecodeMisses(t, i + 1, j);
    }
  }

  lemma RegisterFails(s: St, on: set<nat>, i: nat)
    requires Registered(s, on) && i < BARS && i !in on && IsMem(s.dev.bars[i]) && Meets(s.root, RangeOf(s.dev, i))
    ensures !RegisterBar(s, i).ok || RangeOf(s.dev, i) !in RegisterBar(s, i).root
    ensures on <= All() ==> !Disjoint(Decoded(s.dev, All()) + Others(s.root, s.dev.name))
  {
    var r := RangeOf(s.dev, i);
    RangeFits(s.dev, i);
    NotDecoded(s.dev, on, i);
    assert r !in Own(s.root, s.dev.name);
    var x :| x in s.root && Overlap(x, r);
    if on <= All() {
      assert Decoded(s.dev, on) <= Decoded(s.dev, All());
      Halves(s.root, s.dev.name);
      assert r in Decoded(s.dev, All());
    }
  }

  lemma NotRegistered(s: St, i: nat)
    requires i < BARS && |s.dev.bars| == BARS && IsMem(s.dev.bars[i]) && (!s.ok || RangeOf(s.dev, i) !in s.root)
    ensures !Registered(s, All())
  {
    if s.ok {
      assert RangeOf(s.dev, i) in Decoded(s.dev, All());
      assert RangeOf(s.dev, i) !in Own(s.root, s.dev.name);
    }
  }

  lemma {:induction false} DecodeOnIff(s: St, i: nat)
    requires Registered(s, Below(i)) && i <= BARS
    ensures Registered(Decode(s, i, true), All()) <==> Disjoint(Decoded(s.dev, All()) + Others(s.root, s.dev.name))
    ensures Others(Decode(s, i, true).root, s.dev.name) == Others(s.root, s.dev.name)
    decreases BARS - i
  {
    DecodeChanges(s, i, true);
    if i == BARS {
      assert Below(i) == All();
      Halves(s.root, s.dev.name);
    } else {
      BelowNext(i);
      if !IsMem(s.dev.bars[i]) {
        NotMemory(s.dev, Below(i), i);
        DecodeOnIff(s, i + 1);
      } else {
        RegisterIff(s, Below(i), i);
        RegisterKeepsOthers(s, i);
        if !Meets(s.root, RangeOf(s.dev, i)) {
          DecodeOnIff(RegisterBar(s, i), i + 1);
        } else {
          RegisterFails(s, Below(i), i);
          DecodeMisses(RegisterBar(s, i), i + 1, i);
          NotRegistered(Decode(s, i, true), i);
          DecodeKeepsOthers(RegisterBar(s, i), i + 1, true);
        }
      }
    }
  }

  lemma {:induction false} DecodeKeepsOthers(s: St, i: nat, on: bool)
    requires |s.dev.bars| == BARS
    ensures Others(Decode(s, i, on).root, s.dev.name) == Others(s.root, s.dev.name)
    decreases BARS - i
  {
    if i < BARS {
      if IsMem(s.dev.bars[i]) {
        RegisterKeepsOthers(s, i);
        UnregisterKeepsOthers(s, i);
      }
      DecodeKeepsOthers(if !IsMem(s.dev.bars[i]) then s else if on then RegisterBar(s, i) else UnregisterBar(s, i),
                        i + 1, on);
    }
  }

  lemma {:induction false} DecodeOff(s: St, i: nat)
    requires Registered(s, From(i)) && i <= BARS
    ensures Registered(Decode(s, i, false), {})
    decreases BARS - i
  {
    if i == BARS {
      assert From(i) == {};
    } else {
      BelowNext(i);
      if !IsMem(s.dev.bars[i]) {
        NotMemory(s.dev, From(i), i);
        DecodeOff(s, i + 1);
      } else {
        UnregisterFinds(s, From(i), i);
        DecodeOff(UnregisterBar(s, i), i + 1);
      }
    }
  }

  lemma SameBars(s: St, t: St, on: set<nat>)
    requires Registered(s, on) && t.ok && t.root == s.root && t.dev.bars == s.dev.bars && t.dev.name == s.dev.name
    ensures Registered(t, on)
  {
    forall j | j in on && j < BARS ensures RangeOf(t.dev, j) == RangeOf(s.dev, j) {}
    assert Decoded(t.dev, on) == Decoded(s.dev, on);
  }

  /** Writing the command register keeps registrations right exactly when what is
      programmed does not overlap once decoding is enabled. */
  lemma CommandWriteIff(s: St, off: nat, bytes: nat, val: nat)
    requires Bound(s)
    ensures var t := CommandWrite(s, off, bytes, val);
            && (Bound(t) <==> Compatible(t.dev, Others(s.root, s.dev.name)))
            && Others(t.root, s.dev.name) == Others(s.root, s.dev.name)
  {
    var u := s.(dev := s.dev.(cfg := CommandPut(s.dev.cfg, off, bytes, val)));
    SameBars(s, u, Enabled(s.dev));
    DecodeChanges(u, 0, MemEn(u.dev.cfg));
    DecodeKeepsOthers(u, 0, MemEn(u.dev.cfg));
    if MemEn(u.dev.cfg) && !MemEn(s.dev.cfg) {
      assert Below(0) == {};
      DecodeOnIff(u, 0);
    } else if !MemEn(u.dev.cfg) && MemEn(s.dev.cfg) {
      assert From(0) == All();
      DecodeOff(u, 0);
    } else {
      Halves(s.root, s.dev.name);
    }
  }

  // ----- writes to the registers

  // A 64-bit bar takes the next register for its upper half.
  ghost predicate Shape(d: Dev) {
    && |d.bars| == BARS && d.bars[0].kind != MemHi64 && d.bars[5].kind != Mem64
    && forall i :: 1 <= i < BARS ==> (d.bars[i].kind == MemHi64 <==> d.bars[i - 1].kind == Mem64)
  }

  lemma SplitIs(hi: nat, lo: nat)
    requires lo < W32
    ensures Low(hi * W32 + lo) == lo && High(hi * W32 + lo) == hi
  {
  }

  lemma MaskedMultiple(val: nat, size: nat)
    requires size > 0
    ensures Multiple(Masked(val, size), size)
    ensures val < size ==> Masked(val, size) == 0
  {
    Remainder(val, size);
  }

  lemma Mem32Good(b: Bar, val: nat)
    requires GoodBar(b) && b.kind == Mem32 && val < W32
    ensures GoodBar(b.(addr := Masked(val, b.size)))
  {
    MaskedMultiple(val, b.size);
  }

  lemma Mem64LowGood(b: Bar, val: nat)
    requires GoodBar(b) && b.kind == Mem64 && val < W32
    ensures GoodBar(b.(addr := High(b.addr) * W32 + Masked(val, b.size)))
  {
    var k: nat :| k < 64 && b.size == Pow2(k);
    PowerDivides(b.size, k);
    MaskedMultiple(val, b.size);
    if b.size <= W32 {
      MultipleOf(High(b.addr), W32);
      MultipleOfMultiple(High(b.addr) * W32, W32, b.size);
      MultipleSum(High(b.addr) * W32, Masked(val, b.size), b.size);
    } else {
      MultipleOfMultiple(b.addr, b.size, W32);
      NoRemainder(b.addr, W32);
    }
  }

  lemma Mem64HighGood(b: Bar, val: nat)
    requires GoodBar(b) && b.kind == Mem64 && val < W32
    ensures GoodBar(b.(addr := Low(b.addr) + Masked(val * W32, b.size)))
    ensures Multiple(Masked(val * W32, b.size), W32)
  {
    var k: nat :| k < 64 && b.size == Pow2(k);
    PowerDivides(b.size, k);
    MaskedMultiple(val * W32, b.size);
    MultipleOf(val, W32);
    if b.size <= W32 {
      MultipleOfMultiple(val * W32, W32, b.size);
      NoRemainder(val * W32, b.size);
      Remainder(b.addr, W32);
      MultipleOfMultiple(b.addr - Low(b.addr), W32, b.size);
      LowMultiple(b.addr, b.size);
      MultipleSum(Low(b.addr), val * W32, b.size);
    } else {
      MultipleOfMultiple(b.addr, b.size, W32);
      NoRemainder(b.addr, W32);
      MultipleOfMultiple(Masked(val * W32, b.size), b.size, W32);
    }
  }

  lemma LowMultiple(addr: nat, size: nat)
    requires Multiple(addr, size) && Multiple(W32, size)
    ensures Multiple(Low(addr), size)
  {
    Remainder(addr, W32);
    MultipleOfMultiple(addr - Low(addr), W32, size);
    MultipleDifference(addr, addr - Low(addr), size);
  }

  // A step that leaves the registrations alone.
  lemma QuietKeeps(s: St, t: St)
    requires Bound(s) && t.ok && t.root == s.root && t.dev.name == s.dev.name && MemEn(t.dev.cfg) == MemEn(s.dev.cfg)
    requires |t.dev.bars| == BARS && forall i :: 0 <= i < BARS ==> SameMem(s.dev, t.dev, i)
    ensures Bound(t) && Compatible(t.dev, Others(s.root, s.dev.name))
  {
    assert Decoded(t.dev, Enabled(t.dev)) == Decoded(s.dev, Enabled(s.dev)) by {
      forall i | 0 <= i < BARS ensures IsMem(t.dev.bars[i]) == IsMem(s.dev.bars[i]) { assert SameMem(s.dev, t.dev, i); }
      forall i | 0 <= i < BARS && IsMem(s.dev.bars[i]) ensures RangeOf(t.dev, i) == RangeOf(s.dev, i) {
        assert SameMem(s.dev, t.dev, i);
      }
    }
    forall i | 0 <= i < BARS ensures GoodBar(t.dev.bars[i]) { assert SameMem(s.dev, t.dev, i); }
    Halves(s.root, s.dev.name);
  }

  ghost predicate SameMem(d: Dev, e: Dev, i: nat)
    requires |d.bars| == |e.bars| == BARS && i < BARS
  {
    && IsMem(d.bars[i]) == IsMem(e.bars[i]) && (IsMem(d.bars[i]) ==> e.bars[i] == d.bars[i])
  }

  // What is asked of a step: no assertion and right registrations exactly if compatible.
  ghost predicate Exact(s: St, t: St) {
    && (Bound(t) <==> Compatible(t.dev, Others(s.root, s.dev.name)))
    && Others(t.root, s.dev.name) == Others(s.root, s.dev.name)
    && t.dev.name == s.dev.name
  }

  lemma ShowExact(s: St, m: St, i: nat, val: nat)
    requires Exact(s, m) && |m.dev.bars| == BARS
    ensures Exact(s, Show(m, i, val))
  {
    var t := Show(m, i, val);
    assert t.dev.cfg[COMMAND] == m.dev.cfg[COMMAND];
    assert forall j :: 0 <= j < BARS ==> RangeOf(t.dev, j) == RangeOf(m.dev, j);
    assert Decoded(t.dev, All()) == Decoded(m.dev, All());
    assert Decoded(t.dev, {}) == Decoded(m.dev, {});
  }

  lemma MoveExact(s: St, i: nat, addr: nat)
    requires Bound(s) && i < BARS && IsMem(s.dev.bars[i]) && GoodBar(Moved(s.dev, i, addr).bars[i])
    ensures Exact(s, MoveBar(s, i, addr)) && |MoveBar(s, i, addr).dev.bars| == BARS
  {
    MoveBarIff(s, i, addr);
  }

  lemma StayExact(s: St)
    requires Bound(s)
    ensures Exact(s, s)
  {
    QuietKeeps(s, s);
  }

  lemma OtherBarExact(s: St, i: nat, addr: nat, val: nat)
    requires Bound(s) && i < BARS && !IsMem(s.dev.bars[i])
    ensures Exact(s, Show(s.(dev := Moved(s.dev, i, addr)), i, val))
  {
    var m := s.(dev := Moved(s.dev, i, addr));
    QuietKeeps(s, m);
    ShowExact(s, m, i, val);
  }

  // Moved to another address, or left where it is.
  lemma MemBarExact(s: St, i: nat, addr: nat, move: bool, j: nat, val: nat)
    requires Bound(s) && i < BARS && IsMem(s.dev.bars[i]) && GoodBar(Moved(s.dev, i, addr).bars[i])
    ensures Exact(s, Show(if move then MoveBar(s, i, addr) else s, j, val))
  {
    StayExact(s);
    MoveExact(s, i, addr);
    ShowExact(s, if move then MoveBar(s, i, addr) else s, j, val);
  }

  // What a write to a memory bar does, with its new address.
  lemma BarWriteIs(s: St, i: nat, val: nat, j: nat, to: nat, move: bool, shown: nat)
    requires i < BARS == |s.dev.bars| && j < BARS
    requires match s.dev.bars[i].kind
             case Mem32 =>
               j == i && to == Masked(val, s.dev.bars[i].size) && move == (to != s.dev.bars[i].addr) && shown == to
             case Mem64 =>
               var low := Masked(val, s.dev.bars[i].size);
               && j == i && to == High(s.dev.bars[i].addr) * W32 + low
               && move == (low != Low(s.dev.bars[i].addr)) && shown == low + 12
             case MemHi64 =>
               && j + 1 == i
               && (var up := Masked(val * W32, s.dev.bars[j].size);
                   && to == Low(s.dev.bars[j].addr) + up
                   && move == (High(up) != High(s.dev.bars[j].addr)) && shown == High(up))
             case _ => false
    ensures BarWrite(s, i, val) == Show(if move then MoveBar(s, j, to) else s, i, shown)
  {
  }

  lemma MemWriteExact(s: St, i: nat, val: nat, j: nat, to: nat, move: bool, shown: nat)
    requires Bound(s) && j < BARS && IsMem(s.dev.bars[j]) && GoodBar(s.dev.bars[j].(addr := to))
    requires i < BARS && BarWrite(s, i, val) == Show(if move then MoveBar(s, j, to) else s, i, shown)
    ensures Exact(s, BarWrite(s, i, val))
  {
    MemBarExact(s, j, to, move, i, shown);
  }

  lemma Mem32Exact(s: St, i: nat, val: nat, to: nat)
    requires Bound(s) && i < BARS && s.dev.bars[i].kind == Mem32 && val < W32 && to == Masked(val, s.dev.bars[i].size)
    ensures Exact(s, BarWrite(s, i, val))
  {
    Mem32Good(s.dev.bars[i], val);
    BarWriteIs(s, i, val, i, to, to != s.dev.bars[i].addr, to);
    MemWriteExact(s, i, val, i, to, to != s.dev.bars[i].addr, to);
  }

  lemma LowExact(s: St, i: nat, val: nat, low: nat, to: nat)
    requires Bound(s) && i < BARS && s.dev.bars[i].kind == Mem64 && low == Masked(val, s.dev.bars[i].size)
    requires to == High(s.dev.bars[i].addr) * W32 + low && GoodBar(s.dev.bars[i].(addr := to))
    ensures Exact(s, BarWrite(s, i, val))
  {
    BarWriteIs(s, i, val, i, to, low != Low(s.dev.bars[i].addr), low + 12);
    MemWriteExact(s, i, val, i, to, low != Low(s.dev.bars[i].addr), low + 12);
  }

  lemma HighExact(s: St, i: nat, val: nat, up: nat, to: nat)
    requires Bound(s) && 0 < i < BARS && s.dev.bars[i].kind == MemHi64 && s.dev.bars[i - 1].kind == Mem64
    requires up == Masked(val * W32, s.dev.bars[i - 1].size)
    requires to == Low(s.dev.bars[i - 1].addr) + up && GoodBar(s.dev.bars[i - 1].(addr := to))
    ensures Exact(s, BarWrite(s, i, val))
  {
    BarWriteIs(s, i, val, i - 1, to, High(up) != High(s.dev.bars[i - 1].addr), High(up));
    MemWriteExact(s, i, val, i - 1, to, High(up) != High(s.dev.bars[i - 1].addr), High(up));
  }

  lemma BarWriteExact(s: St, i: nat, val: nat)
    requires Bound(s) && Shape(s.dev) && i < BARS && val < W32
    ensures Exact(s, BarWrite(s, i, val))
  {
    var b := s.dev.bars[i];
    match b.kind
    case NoBar => OtherBarExact(s, i, 0, 0);
    case Io => OtherBarExact(s, i, Masked(val, b.size) % 0x1_0000, Masked(val, b.size) % 0x1_0000 + 1);
    case Mem32 => Mem32Exact(s, i, val, Masked(val, b.size));
    case Mem64 =>
      Mem64LowGood(b, val);
      LowExact(s, i, val, Masked(val, b.size), High(b.addr) * W32 + Masked(val, b.size));
    case MemHi64 =>
      var p := s.dev.bars[i - 1];
      Mem64HighGood(p, val);
      HighExact(s, i, val, Masked(val * W32, p.size), Low(p.addr) + Masked(val * W32, p.size));
  }

  lemma CfgExact(s: St, c: Config)
    requires Bound(s) && c[COMMAND] == s.dev.cfg[COMMAND]
    ensures Exact(s, s.(dev := s.dev.(cfg := c)))
  {
    QuietKeeps(s, s.(dev := s.dev.(cfg := c)));
  }

  /** After any guest write the registrations are right, and no assertion has fired,
      exactly when what is then programmed does not overlap. */
  lemma CfgWriteExact(s: St, off: nat, bytes: nat, val: nat)
    requires Bound(s) && Shape(s.dev) && val < W32
    ensures Exact(s, CfgWrite(s, off, bytes, val))
  {
    StayExact(s);
    if Accessible(off, bytes) {
      AlignedBelow(off, bytes);
      if BAR0 <= off < BAR0 + 4 * BARS {
        if bytes == 4 { BarWriteExact(s, (off - BAR0) / 4, val); }
      } else if IsCap(s.dev, off) {
        CapWriteWithin(s.dev.cfg, off, bytes, val);
        CfgExact(s, CapWrite(s.dev.cfg, off, bytes, val));
      } else if COMMAND <= off < REVID {
        CommandWriteIff(s, off, bytes, val);
        CommandWriteName(s, off, bytes, val);
      } else {
        CfgExact(s, Put(s.dev.cfg, off, bytes, val));
      }
    }
  }

  lemma CommandWriteName(s: St, off: nat, bytes: nat, val: nat)
    requires |s.dev.bars| == BARS
    ensures var t := CommandWrite(s, off, bytes, val); t.dev.name == s.dev.name && t.dev.bars == s.dev.bars
  {
    var c := CommandPut(s.dev.cfg, off, bytes, val);
    DecodeChanges(s.(dev := s.dev.(cfg := c)), 0, MemEn(c));
  }

  ghost predicate SameKinds(d: Dev, e: Dev) {
    |d.bars| == |e.bars| && forall i :: 0 <= i < |d.bars| ==> e.bars[i].kind == d.bars[i].kind
  }

  lemma MoveBarKinds(s: St, i: nat, addr: nat)
    requires i < |s.dev.bars|
    ensures SameKinds(s.dev, MoveBar(s, i, addr).dev)
  {
    assert MoveBar(s, i, addr).dev.bars == Moved(s.dev, i, addr).bars;
  }

  lemma BarWriteKinds(s: St, i: nat, val: nat)
    requires i < |s.dev.bars| == BARS
    ensures SameKinds(s.dev, BarWrite(s, i, val).dev)
  {
    var b := s.dev.bars[i];
    match b.kind
    case NoBar =>
    case Io =>
    case Mem32 => MoveBarKinds(s, i, Masked(val, b.size));
    case Mem64 => MoveBarKinds(s, i, High(b.addr) * W32 + Masked(val, b.size));
    case MemHi64 =>
      if i > 0 { MoveBarKinds(s, i - 1, Low(s.dev.bars[i - 1].addr) + Masked(val * W32, s.dev.bars[i - 1].size)); }
  }

  lemma CfgWriteShape(s: St, off: nat, bytes: nat, val: nat)
    requires Shape(s.dev)
    ensures Shape(CfgWrite(s, off, bytes, val).dev)
  {
    if Accessible(off, bytes) {
      if BAR0 <= off < BAR0 + 4 * BARS {
        BarWriteKinds(s, (off - BAR0) / 4, val);
      } else if COMMAND <= off < REVID && !IsCap(s.dev, off) {
        CommandWriteName(s, off, bytes, val);
      }
    }
  }

  // ----- runs

  datatype GuestWrite = GuestWrite(off: nat, bytes: nat, val: nat)

  ghost function After(s: St, w: GuestWrite): St
    requires |s.dev.bars| == BARS
  {
    CfgWrite(s, w.off, w.bytes, w.val)
  }

  // The guest never leaves overlapping ranges programmed with decoding enabled.
  ghost predicate Careful(s: St, ws: seq<GuestWrite>, others: set<Range>)
    requires Shape(s.dev)
    decreases |ws|
  {
    ws == [] ||
    (CfgWriteShape(s, ws[0].off, ws[0].bytes, ws[0].val);
     ws[0].val < W32 && Compatible(After(s, ws[0]).dev, others) && Careful(After(s, ws[0]), ws[1..], others))
  }

  ghost function AfterAll(s: St, ws: seq<GuestWrite>): St
    requires Shape(s.dev)
    decreases |ws|
  {
    if ws == [] then s
    else
      CfgWriteShape(s, ws[0].off, ws[0].bytes, ws[0].val);
      AfterAll(After(s, ws[0]), ws[1..])
  }

  /** Over any run of a careful guest, a range is registered exactly where an enabled bar
      decodes it, and no assertion fires. */
  lemma {:induction false} RunsStayBound(s: St, ws: seq<GuestWrite>)
    requires Bound(s) && Shape(s.dev) && Careful(s, ws, Others(s.root, s.dev.name))
    ensures Bound(AfterAll(s, ws)) && AfterAll(s, ws).ok
    ensures Others(AfterAll(s, ws).root, s.dev.name) == Others(s.root, s.dev.name)
    decreases |ws|
  {
    if ws != [] {
      CfgWriteShape(s, ws[0].off, ws[0].bytes, ws[0].val);
      CfgWriteExact(s, ws[0].off, ws[0].bytes, ws[0].val);
      RunsStayBound(After(s, ws[0]), ws[1..]);
    }
  }
}
