/**
 Dispatch of memory-mapped accesses (bhyve/mem.c): two search trees of address ranges,
 whose comparator calls overlapping ranges equal, and a hint for each virtual CPU.
 Balancing is not modelled: what a search finds does not depend on the tree's shape.
 */
module MmioMap {
  import opened Wrappers

  const LIMIT: nat := 0x1_0000_0000_0000_0000

  // arg is what the handler is called with.
  datatype Range = Range(name: string, base: nat, size: nat, immutable: bool, arg: nat)

  // 64-bit arithmetic.
  function End(r: Range): nat { (r.base + r.size + LIMIT - 1) % LIMIT }

  // Not empty, and not wrapping around.
  predicate Proper(r: Range) { 0 < r.size && r.base + r.size <= LIMIT }

  // Its end, in 64 bits, is not below its base.
  predicate Upright(r: Range) { r.base < LIMIT && r.base <= End(r) }

  predicate Contains(r: Range, addr: nat) { r.base <= addr <= End(r) }

  predicate Overlap(a: Range, b: Range) { a.base <= End(b) && b.base <= End(a) }

  // mmio_rb_range_compare.
  function Compare(a: Range, b: Range): int {
    if End(a) < b.base then -1 else if a.base > End(b) then 1 else 0
  }

  // The key of a search for an address.
  function Point(addr: nat): Range { Range("", addr, 1, false, 0) }

  lemma PointIs(addr: nat, r: Range)
    requires addr < LIMIT
    ensures Proper(Point(addr)) && End(Point(addr)) == addr
    ensures Overlap(r, Point(addr)) <==> Contains(r, addr)
  {
  }

  lemma ProperEnd(r: Range)
    requires Proper(r)
    ensures End(r) == r.base + r.size - 1 && Upright(r)
  {
  }

  // ----- search trees

  datatype Tree = Leaf | Node(left: Tree, range: Range, right: Tree)

  ghost function Elems(t: Tree): set<Range> {
    match t
    case Leaf => {}
    case Node(l, m, r) => Elems(l) + {m} + Elems(r)
  }

  ghost predicate AllBelow(s: set<Range>, m: Range) { forall x :: x in s ==> End(x) < m.base }

  ghost predicate AllAbove(s: set<Range>, m: Range) { forall x :: x in s ==> End(m) < x.base }

  ghost predicate Ordered(t: Tree) {
    match t
    case Leaf => true
    case Node(l, m, r) =>
      && Ordered(l) && Ordered(r) && m.base <= End(m)
      && AllBelow(Elems(l), m) && AllAbove(Elems(r), m)
  }

  function Find(t: Tree, key: Range): Option<Range> {
    match t
    case Leaf => None
    case Node(l, m, r) =>
      var c := Compare(key, m);
      if c < 0 then Find(l, key) else if c > 0 then Find(r, key) else Some(m)
  }

  // Leaves the tree alone if something overlaps.
  function Insert(t: Tree, key: Range): Tree {
    match t
    case Leaf => Node(Leaf, key, Leaf)
    case Node(l, m, r) =>
      var c := Compare(key, m);
      if c < 0 then Node(Insert(l, key), m, r) else if c > 0 then Node(l, m, Insert(r, key)) else t
  }

  function First(t: Tree): Range
    requires t.Node?
  {
    if t.left.Leaf? then t.range else First(t.left)
  }

  function ButFirst(t: Tree): Tree
    requires t.Node?
  {
    if t.left.Leaf? then t.right else Node(ButFirst(t.left), t.range, t.right)
  }

  function Join(l: Tree, r: Tree): Tree {
    if r.Leaf? then l else Node(l, First(r), ButFirst(r))
  }

  function Remove(t: Tree, e: Range): Tree {
    match t
    case Leaf => Leaf
    case Node(l, m, r) =>
      if e == m then Join(l, r)
      else if Compare(e, m) < 0 then Node(Remove(l, e), m, r)
      else Node(l, m, Remove(r, e))
  }

  ghost predicate Disjoint(s: set<Range>) {
    && (forall x :: x in s ==> x.base <= End(x))
    && (forall x, y :: x in s && y in s && Overlap(x, y) ==> x == y)
  }

  /** The ranges of an ordered tree are pairwise disjoint. */
  lemma {:induction false} OrderedDisjoint(t: Tree)
    requires Ordered(t)
    ensures Disjoint(Elems(t))
  {
    match t
    case Leaf =>
    case Node(l, m, r) =>
      OrderedDisjoint(l);
      OrderedDisjoint(r);
  }

  lemma {:induction false} FindSound(t: Tree, key: Range)
    ensures Find(t, key).Some? ==> Find(t, key).value in Elems(t) && Overlap(Find(t, key).value, key)
  {
    match t
    case Leaf =>
    case Node(l, m, r) =>
      FindSound(l, key);
      FindSound(r, key);
  }

  /** The search misses no overlapping range, though the comparator is not transitive. */
  lemma {:induction false} FindComplete(t: Tree, key: Range)
    requires Ordered(t) && key.base <= End(key)
    ensures Find(t, key) == None ==> forall x :: x in Elems(t) ==> !Overlap(x, key)
  {
    match t
    case Leaf =>
    case Node(l, m, r) =>
      FindComplete(l, key);
      FindComplete(r, key);
  }

  lemma {:induction false} InsertElems(t: Tree, key: Range)
    ensures Elems(Insert(t, key)) == if Find(t, key) == None then Elems(t) + {key} else Elems(t)
  {
    match t
    case Leaf =>
    case Node(l, m, r) =>
      if Compare(key, m) < 0 { InsertElems(l, key); } else if Compare(key, m) > 0 { InsertElems(r, key); }
  }

  lemma LeftGrows(l: Tree, l': Tree, m: Range, r: Tree, key: Range)
    requires Ordered(Node(l, m, r)) && Ordered(l') && Elems(l') <= Elems(l) + {key} && End(key) < m.base
    ensures Ordered(Node(l', m, r))
  {
  }

  lemma RightGrows(l: Tree, m: Range, r: Tree, r': Tree, key: Range)
    requires Ordered(Node(l, m, r)) && Ordered(r') && Elems(r') <= Elems(r) + {key} && End(m) < key.base
    ensures Ordered(Node(l, m, r'))
  {
  }

  lemma {:induction false} InsertOrdered(t: Tree, key: Range)
    requires Ordered(t) && key.base <= End(key)
    ensures Ordered(Insert(t, key))
  {
    match t
    case Leaf =>
    case Node(l, m, r) =>
      if Compare(key, m) < 0 {
        InsertElems(l, key);
        InsertOrdered(l, key);
        LeftGrows(l, Insert(l, key), m, r, key);
      } else if Compare(key, m) > 0 {
        InsertElems(r, key);
        InsertOrdered(r, key);
        RightGrows(l, m, r, Insert(r, key), key);
      }
  }

  lemma {:induction false} FirstIs(t: Tree)
    requires t.Node? && Ordered(t)
    ensures First(t) in Elems(t) && Elems(ButFirst(t)) == Elems(t) - {First(t)}
    ensures Ordered(ButFirst(t)) && AllAbove(Elems(ButFirst(t)), First(t)) && First(t).base <= End(First(t))
  {
    var Node(l, m, r) := t;
    if l.Node? {
      FirstIs(l);
    } else {
      assert m !in Elems(r);
    }
  }

  lemma JoinIs(l: Tree, m: Range, r: Tree)
    requires Ordered(Node(l, m, r))
    ensures Ordered(Join(l, r)) && Elems(Join(l, r)) == Elems(l) + Elems(r)
  {
    if r.Node? { FirstIs(r); }
  }

  lemma Side(l: Tree, m: Range, r: Tree, e: Range)
    requires Ordered(Node(l, m, r))
    ensures m !in Elems(l) && m !in Elems(r)
    ensures e in Elems(l) ==> e != m && Compare(e, m) < 0 && e !in Elems(r)
    ensures e in Elems(r) ==> e != m && Compare(e, m) >= 0 && e !in Elems(l)
  {
    OrderedDisjoint(l);
    OrderedDisjoint(r);
  }

  lemma LeftShrinks(l: Tree, l': Tree, m: Range, r: Tree, e: Range)
    requires Ordered(Node(l, m, r)) && Ordered(l') && Elems(l') == Elems(l) - {e} && e != m && e !in Elems(r)
    ensures Ordered(Node(l', m, r)) && Elems(Node(l', m, r)) == Elems(Node(l, m, r)) - {e}
  {
  }

  lemma RightShrinks(l: Tree, m: Range, r: Tree, r': Tree, e: Range)
    requires Ordered(Node(l, m, r)) && Ordered(r') && Elems(r') == Elems(r) - {e} && e != m && e !in Elems(l)
    ensures Ordered(Node(l, m, r')) && Elems(Node(l, m, r')) == Elems(Node(l, m, r)) - {e}
  {
  }

  lemma {:induction false} RemoveIs(t: Tree, e: Range)
    requires Ordered(t) && e in Elems(t)
    ensures Ordered(Remove(t, e)) && Elems(Remove(t, e)) == Elems(t) - {e}
  {
    var Node(l, m, r) := t;
    Side(l, m, r, e);
    if e == m {
      JoinIs(l, m, r);
    } else if e in Elems(l) {
      RemoveIs(l, e);
      LeftShrinks(l, Remove(l, e), m, r, e);
    } else {
      RemoveIs(r, e);
      RightShrinks(l, m, r, Remove(r, e), e);
    }
  }

  // The range of a set that contains the address.
  ghost function At(s: set<Range>, addr: nat): Option<Range> {
    if r :| r in s && Contains(r, addr) then Some(r) else None
  }

  /** A search by address finds the one range that contains it. */
  lemma FindAt(t: Tree, addr: nat)
    requires Ordered(t) && addr < LIMIT
    ensures Find(t, Point(addr)) == At(Elems(t), addr)
  {
    var f := Find(t, Point(addr));
    FindSound(t, Point(addr));
    FindComplete(t, Point(addr));
    OrderedDisjoint(t);
    forall r: Range ensures Overlap(r, Point(addr)) <==> Contains(r, addr) { PointIs(addr, r); }
    if f.Some? { AtIs(Elems(t), addr, f.value); }
  }

  lemma AtIs(s: set<Range>, addr: nat, r: Range)
    requires Disjoint(s) && r in s && Contains(r, addr)
    ensures At(s, addr) == Some(r)
  {
    var o := At(s, addr);
    assert Overlap(o.value, r);
  }

  /** What is found at an address does not depend on the shape of the tree. */
  lemma FindIgnoresShape(t: Tree, u: Tree, addr: nat)
    requires Ordered(t) && Ordered(u) && Elems(t) == Elems(u) && addr < LIMIT
    ensures Find(t, Point(addr)) == Find(u, Point(addr))
  {
    FindAt(t, addr);
    FindAt(u, addr);
  }

  // ----- the operations

  datatype Outcome = Ok | Exists | NoEntry | NoHandler | Dispatched(range: Range) | Aborted

  datatype Op = Register(range: Range)
              | RegisterFallback(range: Range)
              | Unregister(range: Range)
              | Access(cpu: nat, addr: nat)

  datatype Map = Map(root: Tree, fallback: Tree, hints: seq<Option<Range>>)

  // register_mem_int: a range whose base is taken already is dropped without an error.
  function RegisterInt(t: Tree, r: Range): (Tree, Outcome) {
    if Find(t, Point(r.base)).Some? then (t, Ok)
    else if Find(t, r).Some? then (t, Exists)
    else (Insert(t, r), Ok)
  }

  function Flushed(hints: seq<Option<Range>>, e: Range): seq<Option<Range>> {
    seq(|hints|, i requires 0 <= i < |hints| => if hints[i] == Some(e) then None else hints[i])
  }

  // The caller names the range it registered; the code stops otherwise.
  predicate Same(e: Range, r: Range) {
    e.name == r.name && e.base == r.base && e.size == r.size && !e.immutable
  }

  function UnregisterStep(m: Map, r: Range): (Map, Outcome) {
    match Find(m.root, Point(r.base))
    case None => (m, NoEntry)
    case Some(e) =>
      if Same(e, r) then (m.(root := Remove(m.root, e), hints := Flushed(m.hints, e)), Ok) else (m, Aborted)
  }

  function AccessStep(m: Map, cpu: nat, addr: nat): (Map, Outcome)
    requires cpu < |m.hints|
  {
    if m.hints[cpu].Some? && Contains(m.hints[cpu].value, addr) then (m, Dispatched(m.hints[cpu].value))
    else
      match Find(m.root, Point(addr))
      case Some(e) => (m.(hints := m.hints[cpu := Some(e)]), Dispatched(e))
      case None =>
        match Find(m.fallback, Point(addr))
        case Some(e) => (m, Dispatched(e))
        case None => (m, NoHandler)
  }

  // The addresses are 64 bits wide and the virtual CPU exists.
  predicate Sane(op: Op, cpus: nat) {
    match op
    case Register(r) => r.base < LIMIT
    case RegisterFallback(r) => r.base < LIMIT
    case Unregister(r) => r.base < LIMIT
    case Access(cpu, addr) => cpu < cpus && addr < LIMIT
  }

  function Step(m: Map, op: Op): (Map, Outcome)
    requires Sane(op, |m.hints|)
  {
    match op
    case Register(r) => var (t, o) := RegisterInt(m.root, r); (m.(root := t), o)
    case RegisterFallback(r) => var (t, o) := RegisterInt(m.fallback, r); (m.(fallback := t), o)
    case Unregister(r) => UnregisterStep(m, r)
    case Access(cpu, addr) => AccessStep(m, cpu, addr)
  }

  // ----- the same without trees and hints

  datatype Plain = Plain(root: set<Range>, fallback: set<Range>)

  ghost predicate Meets(s: set<Range>, r: Range) { exists x :: x in s && Overlap(x, r) }

  ghost function PlainRegister(s: set<Range>, r: Range): (set<Range>, Outcome) {
    if At(s, r.base).Some? then (s, Ok) else if Meets(s, r) then (s, Exists) else (s + {r}, Ok)
  }

  ghost function PlainStep(p: Plain, op: Op): (Plain, Outcome) {
    match op
    case Register(r) => var (s, o) := PlainRegister(p.root, r); (p.(root := s), o)
    case RegisterFallback(r) => var (s, o) := PlainRegister(p.fallback, r); (p.(fallback := s), o)
    case Unregister(r) =>
      (match At(p.root, r.base)
       case None => (p, NoEntry)
       case Some(e) => if Same(e, r) then (p.(root := p.root - {e}), Ok) else (p, Aborted))
    case Access(_, addr) =>
      (p, if At(p.root, addr).Some? then Dispatched(At(p.root, addr).value)
          else if At(p.fallback, addr).Some? then Dispatched(At(p.fallback, addr).value)
          else NoHandler)
  }

  ghost function View(m: Map): Plain { Plain(Elems(m.root), Elems(m.fallback)) }

  // A hint is null or a live member of the root tree.
  ghost predicate HintsLive(m: Map) {
    forall i :: 0 <= i < |m.hints| && m.hints[i].Some? ==> m.hints[i].value in Elems(m.root)
  }

  ghost predicate Valid(m: Map) { Ordered(m.root) && Ordered(m.fallback) && HintsLive(m) }

  lemma RegisterAgrees(t: Tree, r: Range)
    requires Ordered(t) && Upright(r)
    ensures var (t', o) := RegisterInt(t, r);
            Ordered(t') && (Elems(t'), o) == PlainRegister(Elems(t), r) && Elems(t) <= Elems(t')
  {
    FindAt(t, r.base);
    FindSound(t, r);
    FindComplete(t, r);
    InsertOrdered(t, r);
    InsertElems(t, r);
  }

  // The range may be put in: it neither is empty nor wraps, or its base is taken and it is dropped.
  ghost predicate Welcome(s: set<Range>, r: Range) { Upright(r) || At(s, r.base).Some? }

  /** An empty or wrapping range breaks the tree exactly when its base is free; any other
      registration keeps the order and does what it does without the tree. */
  lemma RegisterAgreesIff(t: Tree, r: Range)
    requires Ordered(t) && r.base < LIMIT
    ensures var (t', o) := RegisterInt(t, r);
            && (Ordered(t') <==> Welcome(Elems(t), r))
            && (Welcome(Elems(t), r) ==> (Elems(t'), o) == PlainRegister(Elems(t), r))
  {
    var t' := RegisterInt(t, r).0;
    FindAt(t, r.base);
    if Upright(r) {
      RegisterAgrees(t, r);
    } else if At(Elems(t), r.base) == None {
      ClashContains(t, r);
      InsertElems(t, r);
      if Ordered(t') { OrderedDisjoint(t'); }
    }
  }

  // What an empty or wrapping range meets contains its base.
  lemma ClashContains(t: Tree, r: Range)
    requires End(r) < r.base
    ensures Find(t, r).Some? ==> At(Elems(t), r.base).Some?
  {
    FindSound(t, r);
    if Find(t, r).Some? { assert Contains(Find(t, r).value, r.base); }
  }

  lemma UnregisterAgrees(m: Map, r: Range)
    requires Valid(m) && r.base < LIMIT
    ensures var (m', o) := UnregisterStep(m, r);
            Valid(m') && |m'.hints| == |m.hints| && (View(m'), o) == PlainStep(View(m), Unregister(r))
  {
    FindAt(m.root, r.base);
    var f := Find(m.root, Point(r.base));
    if f.Some? {
      FindSound(m.root, Point(r.base));
      RemoveIs(m.root, f.value);
    }
  }

  lemma AccessAgrees(m: Map, cpu: nat, addr: nat)
    requires Valid(m) && cpu < |m.hints| && addr < LIMIT
    ensures var (m', o) := AccessStep(m, cpu, addr);
            Valid(m') && |m'.hints| == |m.hints| && (View(m'), o) == PlainStep(View(m), Access(cpu, addr))
  {
    FindAt(m.root, addr);
    FindAt(m.fallback, addr);
    FindSound(m.root, Point(addr));
    if m.hints[cpu].Some? && Contains(m.hints[cpu].value, addr) {
      OrderedDisjoint(m.root);
      AtIs(Elems(m.root), addr, m.hints[cpu].value);
    }
  }

  // The ranges it registers may be put in.
  ghost predicate WelcomeOp(p: Plain, op: Op) {
    match op
    case Register(r) => Welcome(p.root, r)
    case RegisterFallback(r) => Welcome(p.fallback, r)
    case _ => true
  }

  /** Every operation keeps the trees ordered and the hints live, and does what it does
      without trees and hints, exactly when the range it registers may be put in. */
  lemma StepAgreesIff(m: Map, op: Op)
    requires Valid(m) && Sane(op, |m.hints|)
    ensures var (m', o) := Step(m, op);
            && |m'.hints| == |m.hints|
            && (Valid(m') <==> WelcomeOp(View(m), op))
            && (WelcomeOp(View(m), op) ==> (View(m'), o) == PlainStep(View(m), op))
  {
    match op
    case Register(r) =>
      RegisterAgreesIff(m.root, r);
      InsertElems(m.root, r);
    case RegisterFallback(r) => RegisterAgreesIff(m.fallback, r);
    case Unregister(r) => UnregisterAgrees(m, r);
    case Access(cpu, addr) => AccessAgrees(m, cpu, addr);
  }

  // ----- runs

  // Every operation of the run is sane, and every range it registers may be put in.
  ghost predicate WelcomeRun(p: Plain, ops: seq<Op>, cpus: nat)
    decreases |ops|
  {
    ops == [] || (Sane(ops[0], cpus) && WelcomeOp(p, ops[0]) && WelcomeRun(PlainStep(p, ops[0]).0, ops[1..], cpus))
  }

  ghost function Run(m: Map, ops: seq<Op>): (Map, seq<Outcome>)
    requires Valid(m) && WelcomeRun(View(m), ops, |m.hints|)
    decreases |ops|
  {
    if ops == [] then (m, [])
    else
      StepAgreesIff(m, ops[0]);
      var (m', o) := Step(m, ops[0]);
      var (m2, os) := Run(m', ops[1..]);
      (m2, [o] + os)
  }

  ghost function PlainRun(p: Plain, ops: seq<Op>): (Plain, seq<Outcome>)
    decreases |ops|
  {
    if ops == [] then (p, [])
    else
      var (p', o) := PlainStep(p, ops[0]);
      var (p2, os) := PlainRun(p', ops[1..]);
      (p2, [o] + os)
  }

  /** Over any run, dispatch with trees and hints is dispatch without. */
  lemma {:induction false} RunsAgree(m: Map, ops: seq<Op>)
    requires Valid(m) && WelcomeRun(View(m), ops, |m.hints|)
    ensures var (m', os) := Run(m, ops);
            Valid(m') && Disjoint(Elems(m'.root)) && (View(m'), os) == PlainRun(View(m), ops)
    decreases |ops|
  {
    if ops == [] {
      OrderedDisjoint(m.root);
    } else {
      StepAgreesIff(m, ops[0]);
      RunsAgree(Step(m, ops[0]).0, ops[1..]);
    }
  }

  /** A registration that reports success has added the range exactly when nothing
      overlapped it; otherwise its base was taken, and it was dropped in silence. */
  lemma SuccessAddsIff(t: Tree, r: Range)
    requires Ordered(t) && r.base < LIMIT && r !in Elems(t)
    ensures RegisterInt(t, r).1 == Ok ==> (r in Elems(RegisterInt(t, r).0) <==> At(Elems(t), r.base) == None)
    ensures RegisterInt(t, r).1 == Ok <==> !Meets(Elems(t), r) || At(Elems(t), r.base).Some?
  {
    if Upright(r) {
      RegisterAgrees(t, r);
    } else {
      FindAt(t, r.base);
      ClashContains(t, r);
      if Meets(Elems(t), r) { MeetsContains(Elems(t), r); }
      InsertElems(t, r);
    }
  }

  lemma MeetsContains(s: set<Range>, r: Range)
    requires End(r) < r.base && Meets(s, r)
    ensures At(s, r.base).Some?
  {
    var x :| x in s && Overlap(x, r);
    assert Contains(x, r.base);
  }

  lemma AtMeets(s: set<Range>, r: Range)
    requires r.base <= End(r)
    ensures At(s, r.base).Some? || r in s ==> Meets(s, r)
  {
    if At(s, r.base).Some? { assert Overlap(At(s, r.base).value, r); }
    if r in s { assert Overlap(r, r); }
  }

  /** Unregistering what was just added gives the old ranges back. */
  lemma UnregisterUndoes(m: Map, r: Range)
    requires Valid(m) && Upright(r) && !r.immutable && !Meets(Elems(m.root), r)
    ensures var m1 := Step(m, Register(r)).0;
            var (m2, o) := UnregisterStep(m1, r);
            o == Ok && View(m2) == View(m)
  {
    StepAgreesIff(m, Register(r));
    var m1 := Step(m, Register(r)).0;
    AtMeets(Elems(m.root), r);
    assert Elems(m1.root) == Elems(m.root) + {r};
    OrderedDisjoint(m1.root);
    AtIs(Elems(m1.root), r.base, r);
    UnregisterAgrees(m1, r);
  }

  // ----- the device's own trees

  class Mmio {
    var root: Tree
    var fallback: Tree
    const hints: array<Option<Range>>

    ghost function State(): Map
      reads this, hints
    {
      Map(root, fallback, hints[..])
    }

    constructor (cpus: nat)
      ensures Valid(State()) && View(State()) == Plain({}, {}) && hints.Length == cpus && fresh(hints)
    {
      root, fallback := Leaf, Leaf;
      hints := new Option<Range>[cpus](_ => None);
    }

    method RegisterMem(r: Range) returns (o: Outcome)
      requires Valid(State()) && r.base < LIMIT
      modifies this`root
      ensures (State(), o) == Step(old(State()), Register(r))
      ensures Valid(State()) <==> Welcome(old(Elems(root)), r)
    {
      StepAgreesIff(State(), Register(r));
      var (t, res) := RegisterInt(root, r);
      root, o := t, res;
    }

    method RegisterMemFallback(r: Range) returns (o: Outcome)
      requires Valid(State()) && r.base < LIMIT
      modifies this`fallback
      ensures (State(), o) == Step(old(State()), RegisterFallback(r))
      ensures Valid(State()) <==> Welcome(old(Elems(fallback)), r)
    {
      StepAgreesIff(State(), RegisterFallback(r));
      var (t, res) := RegisterInt(fallback, r);
      fallback, o := t, res;
    }

    method UnregisterMem(r: Range) returns (o: Outcome)
      requires Valid(State()) && r.base < LIMIT
      modifies this`root, hints
      ensures Valid(State()) && (State(), o) == Step(old(State()), Unregister(r))
    {
      StepAgreesIff(State(), Unregister(r));
      match Find(root, Point(r.base)) {
        case None => o := NoEntry;
        case Some(e) =>
          if Same(e, r) {
            root := Remove(root, e);
            Flush(e);
            o := Ok;
          } else {
            o := Aborted;
          }
      }
    }

    method Flush(e: Range)
      modifies hints
      ensures hints[..] == Flushed(old(hints[..]), e)
    {
      var i := 0;
      while i < hints.Length
        invariant i <= hints.Length
        invariant forall k :: 0 <= k < hints.Length ==>
                                hints[k] == if k < i then Flushed(old(hints[..]), e)[k] else old(hints[k])
      {
        if hints[i] == Some(e) { hints[i] := None; }
        i := i + 1;
      }
    }

    method AccessMemory(cpu: nat, addr: nat) returns (o: Outcome)
      requires Valid(State()) && cpu < hints.Length && addr < LIMIT
      modifies hints
      ensures Valid(State()) && (State(), o) == Step(old(State()), Access(cpu, addr))
    {
      StepAgreesIff(State(), Access(cpu, addr));
      var hint := hints[cpu];
      if hint.Some? && Contains(hint.value, addr) {
        o := Dispatched(hint.value);
      } else {
        var entry := Find(root, Point(addr));
        if entry.Some? {
          hints[cpu] := entry;
          o := Dispatched(entry.value);
        } else {
          entry := Find(fallback, Point(addr));
          o := if entry.Some? then Dispatched(entry.value) else NoHandler;
        }
      }
    }
  }
}
