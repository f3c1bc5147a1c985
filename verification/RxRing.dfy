/**
 The receive descriptor ring (bhyve/pci_e82545.c, e82545_tap_callback): frames are
 written to the buffers between head and tail, and their descriptors marked in place.
 The FIFO that delivers the frames is not part of this model: a poll is given the frames.
 */
module RxRing {
  import opened Rings

  const MIN_LEN: nat := 60
  const CRC_LEN: nat := 4

  type pos = n: nat | 0 < n witness 1

  // ----- sizes

  // The receive control register's size fields.
  datatype Size = B2048 | B1024 | B512 | B256 | X16384 | X8192 | X4096 | Forbidden

  // e82545_bufsz.
  function BufSize(s: Size): nat {
    match s
    case B2048 => 2048
    case B1024 => 1024
    case B512 => 512
    case B256 => 256
    case X16384 => 16384
    case X8192 => 8192
    case X4096 => 4096
    case Forbidden => 256
  }

  datatype Control = Control(size: Size, longPackets: bool)

  // What a poll works with: buffer size, descriptors to check for, filters.
  datatype Config = Config(bufsz: pos, maxdesc: nat, stripCrc: bool, vlanFilter: bool,
                           vet: nat, knownVlans: set<nat>, smallPacket: nat, threshold: nat)

  // The minimum threshold is a half, a quarter, an eighth or a sixteenth of the ring.
  function Threshold(c: Config): nat {
    match c.threshold % 4
    case 0 => 2
    case 1 => 4
    case 2 => 8
    case _ => 16
  }

  function CeilDiv(a: nat, b: nat): nat
    requires b > 0
  {
    (a + b - 1) / b
  }

  function MaxDesc(k: Control): nat {
    CeilDiv(if k.longPackets then 16384 else 1522, BufSize(k.size))
  }

  ghost predicate Controlled(c: Config, k: Control) { c.bufsz == BufSize(k.size) && c.maxdesc == MaxDesc(k) }

  /** The vector of buffers has room for every configuration. */
  lemma VectorSuffices(k: Control)
    ensures 0 < MaxDesc(k) <= 64
    ensures MaxDesc(k) == 64 <==> k.longPackets && BufSize(k.size) == 256
  {
  }

  // ----- frames

  // A frame's length, and the two words a VLAN tag would be in.
  datatype Frame = Frame(len: nat, etype: nat, tci: nat)

  // Short frames are padded, and a CRC may be counted.
  function Adjusted(c: Config, len: nat): nat {
    var l := if len < MIN_LEN then MIN_LEN else len;
    if c.stripCrc then l else l + CRC_LEN
  }

  function Filtered(c: Config, f: Frame): bool {
    c.vlanFilter && f.etype == c.vet && f.tci % 4096 !in c.knownVlans
  }

  // What is written to a descriptor; csum, errors and special become zero.
  datatype Back = Back(length: nat, eop: bool)

  // The descriptors of a frame: full buffers, then the rest.
  function Backs(len: nat, bufsz: nat): (b: seq<Back>)
    requires len > 0 && bufsz > 0
    ensures |b| == CeilDiv(len, bufsz)
  {
    CeilPositive(len, bufsz);
    seq(CeilDiv(len, bufsz) - 1, i => Back(bufsz, false)) + [Back(len % bufsz, true)]
  }

  lemma CeilPositive(len: nat, bufsz: nat)
    requires len > 0 && bufsz > 0
    ensures CeilDiv(len, bufsz) > 0
  {
  }

  function Total(b: seq<Back>): nat {
    if b == [] then 0 else b[0].length + Total(b[1..])
  }

  lemma {:induction false} TotalSame(b: seq<Back>, last: Back, bufsz: nat)
    requires forall i :: 0 <= i < |b| ==> b[i].length == bufsz
    ensures Total(b + [last]) == |b| * bufsz + last.length
  {
    if b == [] {
      assert b + [last] == [last] && Total([last]) == last.length + Total([]);
    } else {
      assert (b + [last])[1..] == b[1..] + [last];
      TotalSame(b[1..], last, bufsz);
      assert |b| * bufsz == |b[1..]| * bufsz + bufsz;
    }
  }

  lemma CeilIs(len: nat, bufsz: nat)
    requires len > 0 && bufsz > 0
    ensures var n := CeilDiv(len, bufsz);
            len == (if len % bufsz == 0 then n * bufsz else (n - 1) * bufsz + len % bufsz)
  {
    var q, r := len / bufsz, len % bufsz;
    assert len == q * bufsz + r;
    if r == 0 {
      QuotientIs(q * bufsz + (bufsz - 1), bufsz, q, bufsz - 1);
    } else {
      assert (q + 1) * bufsz == q * bufsz + bufsz;
      QuotientIs((q + 1) * bufsz + (r - 1), bufsz, q + 1, r - 1);
    }
  }

  lemma QuotientIs(a: nat, b: nat, q: nat, r: nat)
    requires r < b && a == q * b + r
    ensures a / b == q
  {
    var k, m := a / b, a % b;
    assert a == k * b + m;
    if k > q { Apart(k, q, b); }
    if k < q { Apart(q, k, b); }
  }

  lemma Apart(k: nat, q: nat, b: nat)
    requires k > q
    ensures k * b >= q * b + b
  {
    assert k * b == q * b + b + (k - q - 1) * b;
  }

  /** The lengths written add up to the frame exactly when its last buffer is not full. */
  lemma LengthsIff(len: nat, bufsz: nat)
    requires len > 0 && bufsz > 0
    ensures Total(Backs(len, bufsz)) == len <==> len % bufsz != 0
    ensures len % bufsz == 0 ==> Total(Backs(len, bufsz)) + bufsz == len
  {
    CeilPositive(len, bufsz);
    var n := CeilDiv(len, bufsz);
    TotalSame(Backs(len, bufsz)[..n - 1], Back(len % bufsz, true), bufsz);
    assert Backs(len, bufsz) == Backs(len, bufsz)[..n - 1] + [Back(len % bufsz, true)];
    CeilIs(len, bufsz);
    assert n * bufsz == (n - 1) * bufsz + bufsz;
  }

  /** A frame takes no more descriptors than are checked for exactly when it is not
      longer than their buffers. */
  lemma FitsIff(len: nat, bufsz: nat, maxdesc: nat)
    requires len > 0 && bufsz > 0
    ensures CeilDiv(len, bufsz) <= maxdesc <==> len <= maxdesc * bufsz
  {
    var n := CeilDiv(len, bufsz);
    CeilPositive(len, bufsz);
    CeilIs(len, bufsz);
    assert n * bufsz == (n - 1) * bufsz + bufsz;
    if n < maxdesc { Apart(maxdesc, n, bufsz); }
    if n - 1 > maxdesc { Apart(n - 1, maxdesc, bufsz); }
  }

  // ----- a poll's writes

  // What a poll takes from the FIFO, writes back and reports.
  datatype Run = Run(backs: seq<Back>, used: nat, rxt: bool, srpd: bool)

  const Nothing := Run([], 0, false, false)

  function Then(a: Run, b: Run): Run {
    Run(a.backs + b.backs, a.used + b.used, a.rxt || b.rxt, a.srpd || b.srpd)
  }

  // One frame: dropped for an unknown VLAN, or delivered.
  function One(c: Config, f: Frame): Run {
    var len := Adjusted(c, f.len);
    if Filtered(c, f) then Run([], 1, false, false)
    else Run(Backs(len, c.bufsz), 1, true, len <= c.smallPacket)
  }

  // The whole poll, given what it has done so far and what is left.
  function Receive(c: Config, frames: seq<Frame>, left: int, lim: int, r: Run): Run
    decreases |frames| - r.used
  {
    if lim <= 0 || left < c.maxdesc || r.used >= |frames| then r
    else
      var o := One(c, frames[r.used]);
      Receive(c, frames, left - |o.backs|, lim - |o.backs|, Then(r, o))
  }

  // The check before each frame covers the frame.
  predicate Fits(c: Config, f: Frame) { Adjusted(c, f.len) <= c.maxdesc * c.bufsz }

  // No frame that the poll reaches takes more buffers than are left; left and lim count from r on.
  predicate HasRoom(c: Config, frames: seq<Frame>, left: nat, lim: int, r: Run)
    decreases |frames| - r.used
  {
    lim <= 0 || left < c.maxdesc || r.used >= |frames| ||
    var o := One(c, frames[r.used]);
    |o.backs| <= left && HasRoom(c, frames, left - |o.backs|, lim - |o.backs|, Then(r, o))
  }

  lemma {:induction false} ReceiveGrows(c: Config, frames: seq<Frame>, left: int, lim: int, r: Run)
    ensures |r.backs| <= |Receive(c, frames, left, lim, r).backs|
    decreases |frames| - r.used
  {
    if !(lim <= 0 || left < c.maxdesc || r.used >= |frames|) {
      var o := One(c, frames[r.used]);
      ReceiveGrows(c, frames, left - |o.backs|, lim - |o.backs|, Then(r, o));
    }
  }

  /** The head stays behind the tail exactly when no frame reached needs more than is left. */
  lemma {:induction false} StaysIff(c: Config, frames: seq<Frame>, left: nat, lim: int, r: Run)
    ensures HasRoom(c, frames, left, lim, r) <==> |Receive(c, frames, left, lim, r).backs| <= |r.backs| + left
    decreases |frames| - r.used
  {
    if !(lim <= 0 || left < c.maxdesc || r.used >= |frames|) {
      var o := One(c, frames[r.used]);
      if |o.backs| <= left {
        StaysIff(c, frames, left - |o.backs|, lim - |o.backs|, Then(r, o));
      } else {
        ReceiveGrows(c, frames, left - |o.backs|, lim - |o.backs|, Then(r, o));
      }
    }
  }

  /** The check before each frame is enough if every frame fits or is filtered out. */
  lemma {:induction false} FittingHasRoom(c: Config, frames: seq<Frame>, left: nat, lim: int, r: Run)
    requires forall i :: r.used <= i < |frames| ==> Fits(c, frames[i]) || Filtered(c, frames[i])
    ensures HasRoom(c, frames, left, lim, r)
    decreases |frames| - r.used
  {
    if !(lim <= 0 || left < c.maxdesc || r.used >= |frames|) {
      var o := One(c, frames[r.used]);
      if !Filtered(c, frames[r.used]) { FitsIff(Adjusted(c, frames[r.used].len), c.bufsz, c.maxdesc); }
      FittingHasRoom(c, frames, left - |o.backs|, lim - |o.backs|, Then(r, o));
    }
  }

  lemma TooLong(c: Config, f: Frame)
    requires c.maxdesc > 0 && !Fits(c, f) && !Filtered(c, f)
    ensures !HasRoom(c, [f], c.maxdesc, 1, Nothing)
  {
    FitsIff(Adjusted(c, f.len), c.bufsz, c.maxdesc);
    assert [f][0] == f;
  }

  /** A frame is safe wherever the head is exactly when it is not longer than the buffers
      that are checked for, or is filtered out. */
  lemma FrameSafeIff(c: Config, f: Frame)
    requires c.maxdesc > 0
    ensures (forall left: nat :: HasRoom(c, [f], left, 1, Nothing)) <==> Fits(c, f) || Filtered(c, f)
  {
    if Fits(c, f) || Filtered(c, f) {
      forall left: nat ensures HasRoom(c, [f], left, 1, Nothing) { FittingHasRoom(c, [f], left, 1, Nothing); }
    } else {
      TooLong(c, f);
    }
  }

  ghost predicate UpTo(frames: seq<Frame>, max: nat) {
    forall i :: 0 <= i < |frames| ==> frames[i].len <= max
  }

  ghost predicate PollsSafe(c: Config, max: nat) {
    forall frames: seq<Frame>, left: nat, lim: int :: UpTo(frames, max) ==> HasRoom(c, frames, left, lim, Nothing)
  }

  /** Every poll of frames of up to 'max' bytes is safe exactly when a frame of that length
      is not longer than the buffers that are checked for. */
  lemma PollsSafeIff(c: Config, max: nat)
    requires c.maxdesc > 0
    ensures PollsSafe(c, max) <==> Adjusted(c, max) <= c.maxdesc * c.bufsz
  {
    var f := Frame(max, c.vet + 1, 0);
    if Fits(c, f) {
      forall frames: seq<Frame>, left: nat, lim: int | UpTo(frames, max)
        ensures HasRoom(c, frames, left, lim, Nothing)
      {
        forall i | 0 <= i < |frames| ensures Fits(c, frames[i]) { assert frames[i].len <= max; }
        FittingHasRoom(c, frames, left, lim, Nothing);
      }
    } else {
      TooLong(c, f);
      assert UpTo([f], max);
    }
  }

  /** As the registers can configure it: with long packets polls are safe exactly up to 16384
      bytes, CRC included; without them, for 1522 bytes at least. */
  lemma ConfiguredSafe(c: Config, k: Control, max: nat)
    requires Controlled(c, k)
    ensures k.longPackets ==> (PollsSafe(c, max) <==> Adjusted(c, max) <= 16384)
    ensures !k.longPackets && Adjusted(c, max) <= 1522 ==> PollsSafe(c, max)
  {
    VectorSuffices(k);
    PollsSafeIff(c, max);
    assert k.longPackets ==> c.maxdesc * c.bufsz == 16384;
    assert !k.longPackets ==> 1522 <= c.maxdesc * c.bufsz;
  }

  /** A jumbo frame with its CRC counted does not fit: it takes a descriptor more than
      were checked for, so with just enough left the head passes the tail. */
  lemma JumboOverruns(c: Config, k: Control, f: Frame)
    requires Controlled(c, k) && k.longPackets && !c.stripCrc && f.len == 16384 && !Filtered(c, f)
    ensures !Fits(c, f) && |Receive(c, [f], c.maxdesc, 1, Nothing).backs| == c.maxdesc + 1
  {
    assert c.maxdesc * c.bufsz == 16384;
    assert CeilDiv(16388, c.bufsz) == c.maxdesc + 1;
    assert One(c, [f][0]) == One(c, f);
  }

  // ----- the ring

  datatype RxDesc = RxDesc(addr: nat, length: nat, csum: nat, errors: nat, special: nat, eop: bool, dd: bool)

  function Apply(d: RxDesc, b: Back): RxDesc { RxDesc(d.addr, b.length, 0, 0, 0, b.eop, true) }

  // Position p of the turn that starts at p0, after the writes.
  ghost predicate After(r: seq<RxDesc>, r': seq<RxDesc>, p0: nat, backs: seq<Back>, p: nat)
    requires 0 < |r| == |r'|
  {
    var i := Slot(p, |r|);
    r'[i] == if p0 <= p < p0 + |backs| then Apply(r[i], backs[p - p0]) else r[i]
  }

  ghost predicate Written(r: seq<RxDesc>, r': seq<RxDesc>, p0: nat, backs: seq<Back>) {
    && 0 < |r| == |r'|
    && forall p: nat :: p0 <= p < p0 + |r| ==> After(r, r', p0, backs, p)
  }

  lemma WrittenNone(r: seq<RxDesc>, p0: nat)
    requires |r| > 0
    ensures Written(r, r, p0, [])
  {
  }

  lemma WrittenOne(r: seq<RxDesc>, r': seq<RxDesc>, p0: nat, backs: seq<Back>, b: Back)
    requires Written(r, r', p0, backs) && |backs| < |r|
    ensures var i := Slot(p0 + |backs|, |r|);
            Written(r, r'[i := Apply(r'[i], b)], p0, backs + [b])
  {
    var q := p0 + |backs|;
    var r2, backs2 := r'[Slot(q, |r|) := Apply(r'[Slot(q, |r|)], b)], backs + [b];
    forall p: nat | p0 <= p < p0 + |r| ensures After(r, r2, p0, backs2, p) {
      assert After(r, r', p0, backs, p);
      if p < q { SlotsDiffer(p, q, |r|); } else if p > q { SlotsDiffer(q, p, |r|); }
    }
  }

  /** In terms of the registers: a slot outside the circular interval from head up to
      tail keeps its descriptor. */
  lemma OutsideUntouched(r: seq<RxDesc>, r': seq<RxDesc>, head: nat, tail: nat, p0: nat, p1: nat, backs: seq<Back>,
                         i: nat)
    requires Written(r, r', p0, backs) && |backs| <= p1 - p0 < |r| && i < |r|
    requires head == Slot(p0, |r|) && tail == Slot(p1, |r|)
    requires Distance(head, i, |r|) >= Distance(head, tail, |r|)
    ensures r'[i] == r[i]
  {
    SlotCovers(p0, i, |r|);
    SlotDistance(p0, p1, |r|);
    assert After(r, r', p0, backs, p0 + Distance(head, i, |r|));
  }

  // ----- the loops

  // The descriptors of one frame, from slot 'head' on.
  method WriteBack(ring: array<RxDesc>, head: nat, len: nat, bufsz: nat, n: nat,
                   ghost r0: seq<RxDesc>, ghost p0: nat, ghost backs: seq<Back>)
    requires len > 0 && bufsz > 0 && n == CeilDiv(len, bufsz)
    requires Written(r0, ring[..], p0, backs) && |backs| + n < ring.Length
    requires head == Slot(p0 + |backs|, ring.Length)
    modifies ring
    ensures Written(r0, ring[..], p0, backs + Backs(len, bufsz))
  {
    ghost var b := Backs(len, bufsz);
    CeilPositive(len, bufsz);
    var i := 0;
    assert backs + b[..0] == backs;
    while i < n - 1
      invariant i <= n - 1 && Written(r0, ring[..], p0, backs + b[..i])
    {
      WriteOne(ring, head, i, Back(bufsz, false), r0, p0, backs, b);
      i := i + 1;
    }
    WriteOne(ring, head, i, Back(len % bufsz, true), r0, p0, backs, b);
    assert b[..n] == b;
  }

  method WriteOne(ring: array<RxDesc>, head: nat, i: nat, back: Back,
                  ghost r0: seq<RxDesc>, ghost p0: nat, ghost backs: seq<Back>, ghost b: seq<Back>)
    requires i < |b| && back == b[i] && |backs| + i < ring.Length
    requires Written(r0, ring[..], p0, backs + b[..i]) && head == Slot(p0 + |backs|, ring.Length)
    modifies ring
    ensures Written(r0, ring[..], p0, backs + b[..i + 1])
  {
    ghost var r := ring[..];
    SlotPlus(p0 + |backs|, i, ring.Length);
    WrittenOne(r0, r, p0, backs + b[..i], back);
    var at := Plus(head, i, ring.Length);
    ring[at] := RxDesc(ring[at].addr, back.length, 0, 0, 0, back.eop, true);
    assert ring[..] == r[at := Apply(r[at], back)];
    assert (backs + b[..i]) + [b[i]] == backs + b[..i + 1];
  }

  // The ring, the head and what is left after the writes of r.
  ghost predicate Filled(r0: seq<RxDesc>, r': seq<RxDesc>, p0: nat, left0: int, r: Run, head: nat, left: int) {
    && Written(r0, r', p0, r.backs) && head == Slot(p0 + |r.backs|, |r0|) && left == left0 - |r.backs|
  }

  /** Between frames the count of buffers left is the distance from the head to the tail. */
  lemma LeftIsDistance(r0: seq<RxDesc>, r': seq<RxDesc>, p0: nat, p1: nat, r: Run, head: nat, tail: nat, left: nat)
    requires p0 <= p1 < p0 + |r0| && tail == Slot(p1, |r0|)
    requires Filled(r0, r', p0, p1 - p0, r, head, left)
    ensures Distance(head, tail, |r0|) == left
  {
    SlotDistance(p0 + |r.backs|, p1, |r0|);
  }

  // One frame: nothing for an unknown VLAN, otherwise its descriptors.
  method OneFrame(c: Config, ring: array<RxDesc>, head: nat, f: Frame,
                  ghost r0: seq<RxDesc>, ghost p0: nat, ghost left0: int, ghost r: Run, ghost left: int)
    returns (n: nat, head': nat, delivered: bool, small: bool)
    requires |One(c, f).backs| <= left && Filled(r0, ring[..], p0, left0, r, head, left) && left0 < ring.Length
    modifies ring
    ensures var o := One(c, f);
            && n == |o.backs| && delivered == o.rxt && small == o.srpd
            && Filled(r0, ring[..], p0, left0, Then(r, o), head', left - n)
  {
    var len, bufsz := Adjusted(c, f.len), c.bufsz;
    n, delivered, small := 0, false, false;
    if Filtered(c, f) {
      assert r.backs + [] == r.backs;
    } else {
      n, delivered, small := CeilDiv(len, bufsz), true, len <= c.smallPacket;
      WriteBack(ring, head, len, bufsz, n, r0, p0, r.backs);
    }
    SlotPlus(p0 + |r.backs|, n, ring.Length);
    head' := Plus(head, n, ring.Length);
  }

  // The loop of the callback, given how many buffers are left and how many it may fill.
  method ReceiveLoop(c: Config, ring: array<RxDesc>, head0: nat, left0: nat, lim0: int, frames: seq<Frame>,
                     ghost p0: nat)
    returns (ghost r: Run, head: nat, used: nat, rxt: bool, srpd: bool)
    requires left0 < ring.Length && head0 == Slot(p0, ring.Length)
    requires HasRoom(c, frames, left0, lim0, Nothing)
    modifies ring
    ensures r == Receive(c, frames, left0, lim0, Nothing) && used == r.used && rxt == r.rxt && srpd == r.srpd
    ensures |r.backs| <= left0 && head == Slot(p0 + |r.backs|, ring.Length)
    ensures Written(old(ring[..]), ring[..], p0, r.backs)
  {
    ghost var r0 := ring[..];
    var left: int, lim: int := left0, lim0;
    r, head, used, rxt, srpd := Nothing, head0, 0, false, false;
    WrittenNone(r0, p0);
    while lim > 0 && left >= c.maxdesc && used < |frames|
      invariant Receive(c, frames, left, lim, r) == Receive(c, frames, left0, lim0, Nothing)
      invariant used == r.used && rxt == r.rxt && srpd == r.srpd
      invariant Filled(r0, ring[..], p0, left0, r, head, left) && left >= 0
      invariant HasRoom(c, frames, left, lim, r)
      decreases |frames| - used
    {
      ghost var o := One(c, frames[used]);
      var n, delivered, small;
      n, head, delivered, small := OneFrame(c, ring, head, frames[used], r0, p0, left0, r, left);
      used, left, lim, rxt, srpd := used + 1, left - n, lim - n, rxt || delivered, srpd || small;
      r := Then(r, o);
    }
  }

  class RxDevice {
    const ring: array<RxDesc>
    var rdh: nat
    var rdt: nat
    var enabled: bool
    var loopback: bool
    // How many buffers the guest has supplied, and how many have been filled.
    ghost var supplied: nat
    ghost var done: nat

    ghost predicate Valid()
      reads this
    {
      && ring.Length > 0 && done <= supplied < done + ring.Length
      && rdh == Slot(done, ring.Length) && rdt == Slot(supplied, ring.Length)
    }

    constructor (descs: array<RxDesc>)
      requires descs.Length > 0
      ensures Valid() && ring == descs && !enabled
    {
      ring, rdh, rdt, enabled, loopback, supplied, done := descs, 0, 0, false, false, 0, 0;
    }

    // The enable and loopback bits of the receive control register; loopback counts only when
    // the receiver is being enabled.  The ring is where it was.
    method ReceiveControl(on: bool, loop: bool)
      requires Valid()
      modifies this`enabled, this`loopback
      ensures Valid() && enabled == on
      ensures loopback == if on == old(enabled) then old(loopback) else on && loop
    {
      if on != enabled {
        enabled, loopback := on, on && loop;
      }
    }

    // The guest supplies n more buffers.
    method Supply(n: nat)
      requires Valid() && supplied + n < done + ring.Length
      modifies this`rdt, this`supplied
      ensures Valid() && supplied == old(supplied) + n
    {
      SlotPlus(supplied, n, ring.Length);
      rdt := Plus(rdt, n, ring.Length);
      supplied := supplied + n;
    }

    // What a poll must do, by the registers alone.
    ghost function Spec(c: Config, frames: seq<Frame>): Run
      reads this
      requires Valid()
    {
      var left := Distance(rdh, rdt, ring.Length);
      if !enabled || loopback || left < c.maxdesc then Nothing
      else Receive(c, frames, left, ring.Length / 4, Nothing)
    }

    // The poll, should it receive, has room for what it reaches.
    predicate Room(c: Config, frames: seq<Frame>)
      reads this
      requires Valid()
    {
      var left := Distance(rdh, rdt, ring.Length);
      !enabled || loopback || HasRoom(c, frames, left, ring.Length / 4, Nothing)
    }

    /** A poll fills buffers from the head on, never past the tail, and writes nothing
        else; the head ends behind the last buffer filled. */
    method Poll(c: Config, frames: seq<Frame>) returns (ghost r: Run, used: nat, rxt: bool, srpd: bool, rxdmt: bool)
      requires Valid() && Room(c, frames)
      modifies this`rdh, this`done, ring
      ensures Valid() && r == old(Spec(c, frames))
      ensures used == r.used && rxt == r.rxt && srpd == r.srpd
      ensures done == old(done) + |r.backs| <= supplied
      ensures Written(old(ring[..]), ring[..], old(done), r.backs)
      ensures rxdmt <==> enabled && !loopback && old(supplied - done) >= c.maxdesc
                         && supplied - done < ring.Length / Threshold(c)
    {
      used, rxt, srpd, rxdmt := 0, false, false, false;
      r := Nothing;
      WrittenNone(ring[..], done);
      SlotDistance(done, supplied, ring.Length);
      var left := Distance(rdh, rdt, ring.Length);
      if enabled && !loopback && left >= c.maxdesc {
        var head;
        r, head, used, rxt, srpd := ReceiveLoop(c, ring, rdh, left, ring.Length / 4, frames, done);
        rdh := head;
        done := done + |r.backs|;
        SlotDistance(done, supplied, ring.Length);
        left := Distance(rdh, rdt, ring.Length);
        rxdmt := left < ring.Length / Threshold(c);
      }
    }
  }
}
