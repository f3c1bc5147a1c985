/**
 Several functions on one map (bhyve/pci_emul.c): start-up allocates their base address
 registers from shared windows, and then the guest writes to any of them in any order.
 */
module PciBus {
  import opened Wrappers
  import opened Bytes
  import opened MmioMap
  import opened Powers
  import opened PciSpec
  import opened PciCaps
  import opened PciBar
  import opened PciAlloc

  datatype Bus = Bus(devs: seq<Dev>, root: set<Range>, ok: bool, pool: Pool)

  // Function f by itself.
  function Function(b: Bus, f: nat): St
    requires f < |b.devs|
  {
    St(b.devs[f], b.root, b.ok)
  }

  ghost predicate Named(devs: seq<Dev>) {
    forall f, g :: 0 <= f < g < |devs| ==> devs[f].name != devs[g].name
  }

  // Of every function exactly the enabled bars are registered.
  ghost predicate AllBound(b: Bus) {
    && Named(b.devs)
    && forall f :: 0 <= f < |b.devs| ==> Bound(Function(b, f)) && Shape(b.devs[f])
  }

  // The ranges that belong to no function.
  ghost function Foreign(b: Bus): set<Range> {
    set r | r in b.root && forall f :: 0 <= f < |b.devs| ==> b.devs[f].name != r.name
  }

  // b once function f has made the step to t.
  function With(b: Bus, f: nat, t: St): Bus
    requires f < |b.devs|
  {
    b.(devs := b.devs[f := t.dev], root := t.root, ok := t.ok)
  }

  // A step of f that is right for itself and leaves the others' ranges alone.
  ghost predicate OwnStep(b: Bus, f: nat, t: St)
    requires f < |b.devs|
  {
    && t.dev.name == b.devs[f].name && Others(t.root, t.dev.name) == Others(b.root, t.dev.name)
    && Shape(t.dev)
  }

  lemma OtherStaysBound(b: Bus, f: nat, t: St, g: nat)
    requires AllBound(b) && f < |b.devs| && g < |b.devs| && g != f && OwnStep(b, f, t) && Bound(t)
    ensures Bound(St(b.devs[g], t.root, t.ok))
  {
    var name := b.devs[g].name;
    assert Bound(Function(b, g)) && name != t.dev.name;
    forall r: Range | r.name == name ensures r in t.root <==> r in b.root {
      assert r in t.root <==> r in Others(t.root, t.dev.name);
      assert r in b.root <==> r in Others(b.root, t.dev.name);
    }
    assert Own(t.root, name) == Own(b.root, name);
  }

  /** A step that is right for the function that makes it is right for all of them. */
  lemma StepKeepsAll(b: Bus, f: nat, t: St)
    requires AllBound(b) && f < |b.devs| && OwnStep(b, f, t)
    ensures AllBound(With(b, f, t)) <==> Bound(t)
    ensures Foreign(With(b, f, t)) == Foreign(b)
  {
    var c := With(b, f, t);
    if Bound(t) {
      forall g | 0 <= g < |c.devs| ensures Bound(Function(c, g)) && Shape(c.devs[g]) {
        if g != f { OtherStaysBound(b, f, t, g); }
      }
    }
    if AllBound(c) { assert Bound(Function(c, f)); }
    ForeignKept(b, f, t);
  }

  lemma ForeignKept(b: Bus, f: nat, t: St)
    requires f < |b.devs| && OwnStep(b, f, t)
    ensures Foreign(With(b, f, t)) == Foreign(b)
  {
    var c := With(b, f, t);
    forall r: Range ensures r in Foreign(c) <==> r in Foreign(b) {
      if r.name != t.dev.name {
        assert r in t.root <==> r in Others(t.root, t.dev.name);
        assert r in b.root <==> r in Others(b.root, t.dev.name);
      } else {
        assert b.devs[f].name == r.name && c.devs[f].name == r.name;
      }
      assert forall g :: 0 <= g < |b.devs| ==> c.devs[g].name == b.devs[g].name;
    }
  }

  /** What is registered is what the enabled bars of all functions decode, and the rest. */
  lemma RootIs(b: Bus, r: Range)
    requires AllBound(b)
    ensures r in b.root <==>
            r in Foreign(b) || exists f :: 0 <= f < |b.devs| && r in Decoded(b.devs[f], Enabled(b.devs[f]))
  {
    if f :| 0 <= f < |b.devs| && b.devs[f].name == r.name {
      assert Bound(Function(b, f));
      assert r in b.root <==> r in Own(b.root, b.devs[f].name);
      forall g | 0 <= g < |b.devs| && g != f ensures r !in Decoded(b.devs[g], Enabled(b.devs[g])) {
        assert b.devs[g].name != r.name;
      }
    } else {
      forall g | 0 <= g < |b.devs| ensures r !in Decoded(b.devs[g], Enabled(b.devs[g])) {
        assert b.devs[g].name != r.name;
      }
    }
  }

  // ----- start-up

  datatype Request = Request(f: nat, i: nat, kind: BarKind, size: nat)

  // The register is unused and decoding is on, as start-up leaves it; 4 GB is the exception
  // that is put at the caller's address.
  ghost predicate Askable(b: Bus, q: Request) {
    && q.f < |b.devs| && Unused(b.devs[q.f], q.i, q.kind) && MemEn(b.devs[q.f].cfg)
    && (q.kind == Io || q.kind == Mem32 || q.kind == Mem64) && q.size <= 0x4000_0000_0000_0000
    && (q.kind == Mem64 ==> RealSize(q.kind, q.size) != FOUR_GIG)
  }

  // A request that finds no room changes nothing.
  ghost function Give(b: Bus, q: Request): Bus
    requires Askable(b, q)
  {
    match AllocBar(Function(b, q.f), b.pool, q.i, 0, q.kind, q.size)
    case None => b
    case Some(t) => With(b, q.f, t.0).(pool := t.1)
  }

  // All functions are right, and the windows hold no range.
  ghost predicate Starting(b: Bus) { AllBound(b) && PoolOk(b.pool) && Free(b.root, b.pool) }

  lemma AllocBarOwn(s: St, p: Pool, i: nat, kind: BarKind, size: nat)
    requires |s.dev.bars| == BARS && Unused(s.dev, i, kind) && (kind == Io || kind == Mem32 || kind == Mem64)
    requires size <= 0x4000_0000_0000_0000 && AllocBar(s, p, i, 0, kind, size).Some?
    ensures var t := AllocBar(s, p, i, 0, kind, size).value.0;
            t.dev.name == s.dev.name && Others(t.root, t.dev.name) == Others(s.root, t.dev.name)
  {
    var t := AllocBar(s, p, i, 0, kind, size).value.0;
    assert forall r :: r in t.root && r !in s.root ==> r.name == s.dev.name;
  }

  lemma GiveKeeps(b: Bus, q: Request)
    requires Starting(b) && Askable(b, q)
    ensures Starting(Give(b, q)) && Foreign(Give(b, q)) == Foreign(b)
  {
    var s := Function(b, q.f);
    assert Bound(s) && Shape(s.dev);
    var a := AllocBar(s, b.pool, q.i, 0, q.kind, q.size);
    if a.Some? {
      if q.kind == Io {
        AllocIoKeeps(s, b.pool, q.i, q.size);
      } else {
        AllocBarKeeps(s, b.pool, q.i, 0, q.kind, q.size);
      }
      AllocBarOwn(s, b.pool, q.i, q.kind, q.size);
      StepKeepsAll(b, q.f, a.value.0);
    }
  }

  ghost predicate AskableAll(b: Bus, qs: seq<Request>)
    decreases |qs|
  {
    qs == [] || (Askable(b, qs[0]) && AskableAll(Give(b, qs[0]), qs[1..]))
  }

  ghost function GiveAll(b: Bus, qs: seq<Request>): Bus
    requires AskableAll(b, qs)
    decreases |qs|
  {
    if qs == [] then b else GiveAll(Give(b, qs[0]), qs[1..])
  }

  /** Whichever registers which functions ask for, in whatever order, start-up registers them
      clear of each other and of everything else. */
  lemma {:induction false} StartUpKeeps(b: Bus, qs: seq<Request>)
    requires Starting(b) && AskableAll(b, qs)
    ensures Starting(GiveAll(b, qs)) && Foreign(GiveAll(b, qs)) == Foreign(b)
    decreases |qs|
  {
    if qs != [] {
      GiveKeeps(b, qs[0]);
      StartUpKeeps(Give(b, qs[0]), qs[1..]);
    }
  }

  // ----- guest writes

  datatype BusWrite = BusWrite(f: nat, w: GuestWrite)

  ghost function Written(b: Bus, w: BusWrite): Bus
    requires w.f < |b.devs| && |b.devs[w.f].bars| == BARS
  {
    With(b, w.f, After(Function(b, w.f), w.w))
  }

  /** A guest write to one function leaves all of them right exactly when what that function
      is then programmed to decode overlaps neither itself nor anyone else's ranges. */
  lemma BusWriteExact(b: Bus, w: BusWrite)
    requires AllBound(b) && w.f < |b.devs| && w.w.val < W32
    ensures AllBound(Written(b, w)) <==> Compatible(Written(b, w).devs[w.f], Others(b.root, b.devs[w.f].name))
    ensures Foreign(Written(b, w)) == Foreign(b)
  {
    var s := Function(b, w.f);
    assert Bound(s) && Shape(s.dev);
    CfgWriteShape(s, w.w.off, w.w.bytes, w.w.val);
    CfgWriteExact(s, w.w.off, w.w.bytes, w.w.val);
    StepKeepsAll(b, w.f, After(s, w.w));
  }

  // The guest leaves nothing overlapping programmed with decoding enabled.
  ghost predicate CarefulBus(b: Bus, ws: seq<BusWrite>)
    requires AllBound(b)
    decreases |ws|
  {
    ws == [] ||
    (&& ws[0].f < |b.devs| && ws[0].w.val < W32
     && Compatible(Written(b, ws[0]).devs[ws[0].f], Others(b.root, b.devs[ws[0].f].name))
     && (BusWriteExact(b, ws[0]); CarefulBus(Written(b, ws[0]), ws[1..])))
  }

  ghost function WrittenAll(b: Bus, ws: seq<BusWrite>): Bus
    requires AllBound(b) && CarefulBus(b, ws)
    decreases |ws|
  {
    if ws == [] then b
    else
      BusWriteExact(b, ws[0]);
      WrittenAll(Written(b, ws[0]), ws[1..])
  }

  lemma {:induction false} WritesStayBound(b: Bus, ws: seq<BusWrite>)
    requires AllBound(b) && CarefulBus(b, ws)
    ensures AllBound(WrittenAll(b, ws)) && Foreign(WrittenAll(b, ws)) == Foreign(b)
    decreases |ws|
  {
    if ws != [] {
      BusWriteExact(b, ws[0]);
      WritesStayBound(Written(b, ws[0]), ws[1..]);
    }
  }

  // A careful guest after start-up, and what it leaves.
  ghost predicate CarefulFrom(b: Bus, qs: seq<Request>, ws: seq<BusWrite>)
    requires Starting(b) && AskableAll(b, qs)
  {
    StartUpKeeps(b, qs);
    CarefulBus(GiveAll(b, qs), ws)
  }

  ghost function Reached(b: Bus, qs: seq<Request>, ws: seq<BusWrite>): Bus
    requires Starting(b) && AskableAll(b, qs) && CarefulFrom(b, qs, ws)
  {
    StartUpKeeps(b, qs);
    WrittenAll(GiveAll(b, qs), ws)
  }

  /** From start-up on, over any writes of a careful guest to any functions: what is
      registered is exactly what enabled bars decode, besides what never was a function's. */
  lemma BusStaysBound(b: Bus, qs: seq<Request>, ws: seq<BusWrite>, r: Range)
    requires Starting(b) && AskableAll(b, qs) && CarefulFrom(b, qs, ws)
    ensures var c := Reached(b, qs, ws);
            && AllBound(c)
            && (r in c.root <==>
                  r in Foreign(b) || exists f :: 0 <= f < |c.devs| && r in Decoded(c.devs[f], Enabled(c.devs[f])))
  {
    StartUpKeeps(b, qs);
    WritesStayBound(GiveAll(b, qs), ws);
    RootIs(Reached(b, qs, ws), r);
  }
}
