/**
 The capability chain (bhyve/pci_emul.c): capabilities are linked from 0x40 on through
 their next pointers; the guest may write to them, but not to identifiers and pointers.
 */
module PciCaps {
  import opened Wrappers
  import opened Bytes
  import opened MmioMap
  import opened PciSpec

  // ----- the chain

  ghost predicate Link(c: Config, caps: seq<byte>, k: nat)
    requires k + 1 < |caps|
  {
    caps[k] as int + 4 <= caps[k + 1] as int && c[caps[k] as int + 1] == caps[k + 1]
  }

  ghost predicate Chain(c: Config, caps: seq<byte>, capend: nat) {
    && caps != [] && caps[0] == CAP_START
    && (forall k :: 0 <= k < |caps| ==> caps[k] % 4 == 0)
    && (forall k: nat :: k + 1 < |caps| ==> Link(c, caps, k))
    && (var last := caps[|caps| - 1];
        last + 4 <= capend + 1 <= SPACE && (capend + 1) % 4 == 0 && c[last + 1] == 0)
  }

  // The capabilities of a device, if it has any.
  ghost predicate CapsOk(d: Dev, caps: seq<byte>) {
    if CapPresent(d.cfg) then Chain(d.cfg, caps, d.capend) && d.prevcap == caps[|caps| - 1]
    else caps == []
  }

  lemma {:induction false} Grows(c: Config, caps: seq<byte>, capend: nat, j: nat, k: nat)
    requires Chain(c, caps, capend) && j <= k < |caps|
    ensures caps[j] + 4 * (k - j) <= caps[k] && caps[k] + 4 <= capend + 1
    decreases |caps| - k, k - j
  {
    if j < k {
      assert Link(c, caps, k - 1);
      GrowsBy(c, caps, capend, j, k - 1);
    }
    if k + 1 < |caps| {
      assert Link(c, caps, k);
      Grows(c, caps, capend, k + 1, k + 1);
    }
  }

  lemma {:induction false} GrowsBy(c: Config, caps: seq<byte>, capend: nat, j: nat, k: nat)
    requires Chain(c, caps, capend) && j <= k < |caps|
    ensures caps[j] + 4 * (k - j) <= caps[k]
    decreases k - j
  {
    if j < k {
      assert Link(c, caps, k - 1);
      GrowsBy(c, caps, capend, j, k - 1);
    }
  }

  // Which capability an offset belongs to.
  ghost predicate Belongs(caps: seq<byte>, off: nat, k: nat) {
    k < |caps| && caps[k] <= off && (k + 1 < |caps| ==> off < caps[k + 1])
  }

  /** The search ends at the capability that contains the offset. */
  lemma {:induction false} FindCapFrom(c: Config, caps: seq<byte>, capend: nat, off: nat, j: nat) returns (k: nat)
    requires Chain(c, caps, capend) && j < |caps| && caps[j] <= off
    ensures j <= k && Belongs(caps, off, k) && FindCap(c, off, caps[j]) == caps[k]
    decreases |caps| - j
  {
    Grows(c, caps, capend, j, j);
    k := j;
    if j + 1 < |caps| {
      assert Link(c, caps, j);
      if off >= caps[j + 1] { k := FindCapFrom(c, caps, capend, off, j + 1); }
    }
  }

  // ----- writes leave the chain alone

  // Bytes outside [lo, hi) are the same.
  ghost predicate Within(c: Config, c': Config, lo: nat, hi: nat) {
    forall i :: 0 <= i < SPACE && !(lo <= i < hi) ==> c'[i] == c[i]
  }

  // Identifiers and next pointers, and whether there are capabilities, are the same.
  ghost predicate Untouched(c: Config, c': Config, caps: seq<byte>) {
    && c'[STATUS] == c[STATUS]
    && forall k :: 0 <= k < |caps| ==> Pointers(c, c', caps[k])
  }

  ghost predicate Pointers(c: Config, c': Config, cap: byte) {
    cap + 1 < SPACE && c'[cap] == c[cap] && c'[cap + 1] == c[cap + 1]
  }

  lemma ChainKept(c: Config, c': Config, caps: seq<byte>, capend: nat)
    requires Chain(c, caps, capend) && Untouched(c, c', caps)
    ensures Chain(c', caps, capend)
  {
    forall k: nat | k + 1 < |caps| ensures Link(c', caps, k) {
      assert Link(c, caps, k) && Pointers(c, c', caps[k]);
    }
    assert Pointers(c, c', caps[|caps| - 1]);
  }

  // A write outside the capabilities and the status register.
  lemma ElsewhereUntouched(c: Config, c': Config, caps: seq<byte>, capend: nat, lo: nat, hi: nat)
    requires caps != [] ==> Chain(c, caps, capend) && (hi <= CAP_START || lo > capend)
    requires Within(c, c', lo, hi) && (hi <= STATUS || lo >= REVID)
    ensures Untouched(c, c', caps)
  {
    forall k | 0 <= k < |caps| ensures Pointers(c, c', caps[k]) {
      Grows(c, caps, capend, k, k);
      Grows(c, caps, capend, 0, k);
    }
  }

  // A write behind the pointers of capability k, before the next one.
  lemma InsideUntouched(c: Config, c': Config, caps: seq<byte>, capend: nat, k: nat, lo: nat, hi: nat)
    requires Chain(c, caps, capend) && k < |caps| && caps[k] + 2 <= lo && Within(c, c', lo, hi)
    requires k + 1 < |caps| ==> hi <= caps[k + 1]
    ensures Untouched(c, c', caps)
  {
    Grows(c, caps, capend, 0, k);
    forall j | 0 <= j < |caps| ensures Pointers(c, c', caps[j]) {
      Grows(c, caps, capend, j, j);
      if j < k { Grows(c, caps, capend, j, k); }
      if j > k { Grows(c, caps, capend, k + 1, j); }
    }
  }

  lemma CapStoreWithin(c: Config, cap: byte, off: nat, bytes: nat, val: nat)
    ensures Within(c, CapStore(c, cap, off, bytes, val), off, off + bytes)
  {
  }

  // Dword aligned capabilities: an aligned access does not run into the next one.
  lemma AlignedFits(cap: nat, off: nat, bytes: nat, next: nat)
    requires cap % 4 == 0 && next % 4 == 0 && cap <= off < next && Accessible(off, bytes)
    ensures off + bytes <= next
  {
  }

  lemma CapWriteUntouched(c: Config, caps: seq<byte>, capend: nat, off: nat, bytes: nat, val: nat)
    requires Chain(c, caps, capend) && Accessible(off, bytes) && CAP_START <= off <= capend
    ensures Untouched(c, CapWrite(c, off, bytes, val), caps)
  {
    var k := FindCapFrom(c, caps, capend, off, 0);
    var cap := caps[k];
    if k + 1 < |caps| {
      AlignedFits(cap, off, bytes, caps[k + 1]);
      assert Link(c, caps, k);
    }
    if off == cap as nat && bytes == 4 {
      CapStoreWithin(c, cap, off + 2, 2, val / 0x1_0000);
      InsideUntouched(c, CapWrite(c, off, bytes, val), caps, capend, k, off + 2, off + 4);
    } else if off == cap as nat || off == cap as nat + 1 {
      forall j | 0 <= j < |caps| ensures Pointers(c, c, caps[j]) { Grows(c, caps, capend, j, j); }
    } else {
      CapStoreWithin(c, cap, off, bytes, val);
      InsideUntouched(c, CapWrite(c, off, bytes, val), caps, capend, k, off, off + bytes);
    }
  }

  // ----- any guest write

  // A step that changes at most the configuration bytes in [lo, hi), and the registers.
  ghost predicate Changes(s: St, t: St, lo: nat, hi: nat) {
    && t.dev.prevcap == s.dev.prevcap && t.dev.capend == s.dev.capend && t.dev.name == s.dev.name
    && |t.dev.bars| == |s.dev.bars| && Within(s.dev.cfg, t.dev.cfg, lo, hi)
  }

  lemma MoveBarChanges(s: St, i: nat, addr: nat)
    requires i < |s.dev.bars|
    ensures Changes(s, MoveBar(s, i, addr), 0, 0)
  {
  }

  lemma BarWriteChanges(s: St, i: nat, val: nat)
    requires i < |s.dev.bars| == BARS
    ensures Changes(s, BarWrite(s, i, val), BAR0 + 4 * i, BAR0 + 4 * i + 4)
  {
    var b := s.dev.bars[i];
    match b.kind
    case NoBar =>
    case Io =>
    case Mem32 => MoveBarChanges(s, i, Masked(val, b.size));
    case Mem64 => MoveBarChanges(s, i, High(b.addr) * W32 + Masked(val, b.size));
    case MemHi64 =>
      if i > 0 {
        var p := s.dev.bars[i - 1];
        MoveBarChanges(s, i - 1, Low(p.addr) + Masked(val * W32, p.size));
      }
  }

  lemma {:induction false} DecodeChanges(s: St, i: nat, on: bool)
    requires |s.dev.bars| == BARS
    ensures Decode(s, i, on).dev == s.dev
    decreases BARS - i
  {
    if i < BARS {
      DecodeChanges(if !IsMem(s.dev.bars[i]) then s else if on then RegisterBar(s, i) else UnregisterBar(s, i),
                    i + 1, on);
    }
  }

  lemma CommandWriteUntouched(s: St, caps: seq<byte>, off: nat, bytes: nat, val: nat)
    requires |s.dev.bars| == BARS && Accessible(off, bytes) && COMMAND <= off < REVID
    requires caps != [] ==> Chain(s.dev.cfg, caps, s.dev.capend)
    ensures Changes(s, CommandWrite(s, off, bytes, val), COMMAND, STATUS)
    ensures Untouched(s.dev.cfg, CommandWrite(s, off, bytes, val).dev.cfg, caps)
  {
    var c := CommandPut(s.dev.cfg, off, bytes, val);
    DecodeChanges(s.(dev := s.dev.(cfg := c)), 0, MemEn(c));
    ElsewhereUntouched(s.dev.cfg, c, caps, s.dev.capend, COMMAND, STATUS);
  }

  /** No guest write changes an identifier, a next pointer or the search's bounds. */
  lemma WriteUntouched(s: St, caps: seq<byte>, off: nat, bytes: nat, val: nat)
    requires CapsOk(s.dev, caps) && |s.dev.bars| == BARS
    ensures var t := CfgWrite(s, off, bytes, val);
            && Untouched(s.dev.cfg, t.dev.cfg, caps) && |t.dev.bars| == BARS
            && t.dev.prevcap == s.dev.prevcap && t.dev.capend == s.dev.capend
  {
    var c := s.dev.cfg;
    var capend := s.dev.capend;
    if !Accessible(off, bytes) || (BAR0 <= off < BAR0 + 4 * BARS && bytes != 4) {
      ElsewhereUntouched(c, c, caps, capend, 0, 0);
    } else if BAR0 <= off < BAR0 + 4 * BARS {
      var i := (off - BAR0) / 4;
      BarWriteChanges(s, i, val);
      ElsewhereUntouched(c, BarWrite(s, i, val).dev.cfg, caps, capend, BAR0 + 4 * i, BAR0 + 4 * i + 4);
    } else if IsCap(s.dev, off) {
      CapWriteUntouched(c, caps, capend, off, bytes, val);
    } else if COMMAND <= off < REVID {
      CommandWriteUntouched(s, caps, off, bytes, val);
    } else {
      AlignedBelow(off, bytes);
      ElsewhereUntouched(c, Put(c, off, bytes, val), caps, capend, off, off + bytes);
    }
  }

  lemma AlignedBelow(off: nat, bytes: nat)
    requires Accessible(off, bytes)
    ensures off < COMMAND ==> off + bytes <= COMMAND
    ensures off < CAP_START ==> off + bytes <= CAP_START
  {
  }

  lemma WriteKeepsCaps(s: St, caps: seq<byte>, off: nat, bytes: nat, val: nat)
    requires CapsOk(s.dev, caps) && |s.dev.bars| == BARS
    ensures CapsOk(CfgWrite(s, off, bytes, val).dev, caps)
  {
    WriteUntouched(s, caps, off, bytes, val);
    if caps != [] { ChainKept(s.dev.cfg, CfgWrite(s, off, bytes, val).dev.cfg, caps, s.dev.capend); }
  }

  // ----- adding capabilities

  /** A new capability is linked behind the last; the others keep their identifiers. */
  lemma AddKeepsCaps(d: Dev, caps: seq<byte>, data: seq<byte>)
    requires CapsOk(d, caps) && data != [] && AddCapability(d, data).Some?
    ensures var e := AddCapability(d, data).value;
            && CapsOk(e, caps + [Place(d)]) && e.cfg[Place(d)] == data[0]
            && e.bars == d.bars && e.name == d.name
            && forall k :: 0 <= k < |caps| ==> e.cfg[caps[k]] == d.cfg[caps[k]]
  {
    var e := AddCapability(d, data).value;
    var off := Place(d);
    PlaceIs(d, caps);
    var all := caps + [off];
    forall k: nat | k + 1 < |all| ensures Link(e.cfg, all, k) {
      Grows(d.cfg, caps, d.capend, k, k);
      if k + 1 < |caps| {
        assert Link(d.cfg, caps, k);
        Grows(d.cfg, caps, d.capend, k, |caps| - 1);
        Grows(d.cfg, caps, d.capend, 0, k);
        Grows(d.cfg, caps, d.capend, k + 1, |caps| - 1);
      } else {
        Grows(d.cfg, caps, d.capend, 0, k);
      }
    }
    forall k | 0 <= k < |caps| ensures e.cfg[caps[k]] == d.cfg[caps[k]] {
      Grows(d.cfg, caps, d.capend, k, |caps| - 1);
      Grows(d.cfg, caps, d.capend, 0, k);
    }
    CapLengthIs(|data|);
    StatusOf(d, caps, data);
  }

  lemma StatusOf(d: Dev, caps: seq<byte>, data: seq<byte>)
    requires CapsOk(d, caps) && data != [] && AddCapability(d, data).Some?
    ensures CapPresent(AddCapability(d, data).value.cfg)
  {
    var c := Linked(d, Place(d));
    if CapPresent(d.cfg) {
      Grows(d.cfg, caps, d.capend, 0, |caps| - 1);
      assert c[STATUS] == d.cfg[STATUS];
    } else {
      BitSet(d.cfg[STATUS]);
      assert c[STATUS] == d.cfg[STATUS] + 16;
    }
    assert AddCapability(d, data).value.cfg[STATUS] == c[STATUS];
  }

  lemma BitSet(b: byte)
    requires (b / 16) % 2 != 1
    ensures ((b + 16) / 16) % 2 == 1
  {
  }

  lemma PlaceIs(d: Dev, caps: seq<byte>)
    requires CapsOk(d, caps)
    ensures Place(d) % 4 == 0 && Place(d) <= SPACE && (caps == [] ==> Place(d) == CAP_START)
    ensures caps != [] ==> caps[|caps| - 1] as int + 4 <= Place(d)
  {
  }

  lemma CapLengthIs(n: nat)
    requires n > 0
    ensures RoundUp4(n) % 4 == 0 && n <= RoundUp4(n) < n + 4 && RoundUp4(n) >= 4
  {
  }

  // ----- runs

  datatype PciOp = Add(data: seq<byte>) | Write(off: nat, bytes: nat, val: nat)

  ghost function Step(s: St, op: PciOp): St
    requires |s.dev.bars| == BARS
  {
    match op
    case Add(data) =>
      if data == [] || AddCapability(s.dev, data) == None then s else s.(dev := AddCapability(s.dev, data).value)
    case Write(off, bytes, val) => CfgWrite(s, off, bytes, val)
  }

  lemma StepKeepsCaps(s: St, caps: seq<byte>, op: PciOp) returns (caps': seq<byte>)
    requires CapsOk(s.dev, caps) && |s.dev.bars| == BARS
    ensures var t := Step(s, op);
            && CapsOk(t.dev, caps') && |t.dev.bars| == BARS && caps <= caps'
            && forall k :: 0 <= k < |caps| ==> t.dev.cfg[caps[k]] == s.dev.cfg[caps[k]]
    ensures op.Write? ==> caps' == caps
  {
    caps' := caps;
    match op
    case Add(data) =>
      if data != [] && AddCapability(s.dev, data).Some? {
        AddKeepsCaps(s.dev, caps, data);
        caps' := caps + [Place(s.dev)];
      }
    case Write(off, bytes, val) =>
      WriteUntouched(s, caps, off, bytes, val);
      WriteKeepsCaps(s, caps, off, bytes, val);
      forall k | 0 <= k < |caps| ensures Step(s, op).dev.cfg[caps[k]] == s.dev.cfg[caps[k]] {
        assert Pointers(s.dev.cfg, Step(s, op).dev.cfg, caps[k]);
      }
  }

  ghost predicate RunTo(s: St, ops: seq<PciOp>, t: St)
    requires |s.dev.bars| == BARS
    decreases |ops|
  {
    if ops == [] then t == s else |Step(s, ops[0]).dev.bars| == BARS && RunTo(Step(s, ops[0]), ops[1..], t)
  }

  /** Over any run of additions and guest writes the chain stays well formed, and a
      capability keeps its place and its identifier. */
  lemma {:induction false} RunKeepsCaps(s: St, caps: seq<byte>, ops: seq<PciOp>, t: St) returns (caps': seq<byte>)
    requires CapsOk(s.dev, caps) && |s.dev.bars| == BARS && RunTo(s, ops, t)
    ensures CapsOk(t.dev, caps') && caps <= caps'
    ensures forall k :: 0 <= k < |caps| ==> t.dev.cfg[caps[k]] == s.dev.cfg[caps[k]]
    decreases |ops|
  {
    caps' := caps;
    if ops != [] {
      var mid := StepKeepsCaps(s, caps, ops[0]);
      caps' := RunKeepsCaps(Step(s, ops[0]), mid, ops[1..], t);
      forall k | 0 <= k < |caps| ensures t.dev.cfg[caps[k]] == s.dev.cfg[caps[k]] { assert mid[k] == caps[k]; }
    }
  }

  // What following the next pointers visits.
  function Walk(c: Config, cap: byte): seq<byte>
    decreases 256 - cap
  {
    if cap == 255 || c[cap + 1] <= cap then [cap] else [cap] + Walk(c, c[cap + 1])
  }

  /** Following the pointers from 0x40 visits exactly the capabilities, in order. */
  lemma {:induction false} WalkIs(c: Config, caps: seq<byte>, capend: nat, j: nat)
    requires Chain(c, caps, capend) && j < |caps|
    ensures Walk(c, caps[j]) == caps[j..]
    decreases |caps| - j
  {
    Grows(c, caps, capend, j, j);
    if j + 1 < |caps| {
      assert Link(c, caps, j);
      WalkIs(c, caps, capend, j + 1);
    }
  }

  /** The pointer to the chain at 0x34 is not protected: a guest's write that reaches it
      keeps it exactly if it writes the value that is there. */
  lemma CapPtrKeptIff(s: St, off: nat, bytes: nat, val: nat)
    requires |s.dev.bars| == BARS && Accessible(off, bytes)
    ensures CfgWrite(s, off, bytes, val).dev.cfg[CAP_PTR] == s.dev.cfg[CAP_PTR] <==>
            !(off <= CAP_PTR < off + bytes) || ByteOf(val, CAP_PTR - off) == s.dev.cfg[CAP_PTR]
  {
    var c := s.dev.cfg;
    if BAR0 <= off < BAR0 + 4 * BARS {
      if bytes == 4 { BarWriteChanges(s, (off - BAR0) / 4, val); }
    } else if IsCap(s.dev, off) {
      CapWriteWithin(c, off, bytes, val);
    } else if COMMAND <= off < REVID {
      DecodeChanges(s.(dev := s.dev.(cfg := CommandPut(c, off, bytes, val))), 0, MemEn(CommandPut(c, off, bytes, val)));
    }
  }

  lemma CapWriteWithin(c: Config, off: nat, bytes: nat, val: nat)
    requires Accessible(off, bytes)
    ensures Within(c, CapWrite(c, off, bytes, val), off, off + bytes)
  {
    var cap := FindCap(c, off, CAP_START);
    if off == cap as nat && bytes == 4 {
      CapStoreWithin(c, cap, off + 2, 2, val / 0x1_0000);
    } else {
      CapStoreWithin(c, cap, off, bytes, val);
    }
  }
}
