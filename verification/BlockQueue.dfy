/**
 The request queue of the memory-backed block device (bhyve/block_if.c).

 An element waits in the pending queue as Pend or, when an earlier request ends
 exactly where it starts, as Blocked.  One worker executes requests; completion
 callbacks may enqueue further requests while the worker's element is still on
 the busy queue.  The main result is that all of this is a plain FIFO.
 */
module BlockQueue {

  const OFF_MAX: nat := 0x7FFF_FFFF_FFFF_FFFF
  const MAXREQ: nat := 72

  datatype Op = Read | Write | Flush | Delete
  datatype Status = Blocked | Pend | Busy | Done
  datatype Iov = Iov(base: nat, len: nat)

  // id stands for the address of the caller's request structure.
  datatype Request = Request(id: nat, offset: nat, iov: seq<Iov>)

  // cell is the index of the element in the context's fixed array of elements.
  datatype Elem = Elem(cell: nat, req: Request, op: Op, status: Status, block: nat)

  datatype Queues = Queues(free: seq<nat>, pend: seq<Elem>, busy: seq<Elem>)

  // ----- what each operation does to the three queues

  function TotalLen(iov: seq<Iov>): nat {
    if iov == [] then 0 else TotalLen(iov[..|iov| - 1]) + iov[|iov| - 1].len
  }

  function EndOffset(req: Request, op: Op): nat {
    if op == Flush then OFF_MAX else req.offset + TotalLen(req.iov)
  }

  predicate HasBlock(es: seq<Elem>, offset: nat) {
    exists i :: 0 <= i < |es| && es[i].block == offset
  }

  function InitQueues(): Queues {
    Queues(seq(MAXREQ, i => MAXREQ - 1 - i), [], [])
  }

  function NewElem(q: Queues, req: Request, op: Op): Elem
    requires q.free != []
  {
    Elem(q.free[0], req, op,
         if HasBlock(q.pend, req.offset) || HasBlock(q.busy, req.offset) then Blocked else Pend,
         EndOffset(req, op))
  }

  function EnqueueSpec(q: Queues, req: Request, op: Op): Queues
    requires q.free != []
  {
    Queues(q.free[1..], q.pend + [NewElem(q, req, op)], q.busy)
  }

  // Index of the first runnable element, or |es|.
  function FirstPend(es: seq<Elem>): (i: nat)
    ensures i <= |es|
    ensures i < |es| ==> es[i].status == Pend
    ensures forall j :: 0 <= j < i ==> es[j].status != Pend
  {
    if es == [] || es[0].status == Pend then 0 else 1 + FirstPend(es[1..])
  }

  function RemoveAt<T>(s: seq<T>, i: nat): (r: seq<T>)
    requires i < |s|
    ensures |r| == |s| - 1
  {
    s[..i] + s[i + 1..]
  }

  function DequeueSpec(q: Queues): Queues {
    var i := FirstPend(q.pend);
    if i == |q.pend| then q
    else Queues(q.free, RemoveAt(q.pend, i), q.busy + [q.pend[i].(status := Busy)])
  }

  function Unblock(es: seq<Elem>, block: nat): (r: seq<Elem>)
    ensures |r| == |es|
  {
    seq(|es|, i requires 0 <= i < |es| => if es[i].req.offset == block then es[i].(status := Pend) else es[i])
  }

  function CompleteBusySpec(q: Queues, i: nat): Queues
    requires i < |q.busy|
  {
    Queues(q.free + [q.busy[i].cell], Unblock(q.pend, q.busy[i].block), RemoveAt(q.busy, i))
  }

  function CompletePendSpec(q: Queues, i: nat): Queues
    requires i < |q.pend|
  {
    Queues(q.free + [q.pend[i].cell], Unblock(RemoveAt(q.pend, i), q.pend[i].block), q.busy)
  }

  // Index of the first element holding request id, or |es|.
  function FindId(es: seq<Elem>, id: nat): (i: nat)
    ensures i <= |es|
    ensures i < |es| ==> es[i].req.id == id
    ensures forall j :: 0 <= j < i ==> es[j].req.id != id
  {
    if es == [] || es[0].req.id == id then 0 else 1 + FindId(es[1..], id)
  }

  function CancelSpec(q: Queues, id: nat): Queues {
    var i := FindId(q.pend, id);
    if i < |q.pend| then CompletePendSpec(q, i) else q
  }

  // ----- the blocking invariant

  function Cells(es: seq<Elem>): (r: seq<nat>)
    ensures |r| == |es|
  {
    seq(|es|, i requires 0 <= i < |es| => es[i].cell)
  }

  ghost function CellBag(q: Queues): multiset<nat> {
    multiset(q.free) + multiset(Cells(q.pend)) + multiset(Cells(q.busy))
  }

  // Element i is runnable, or something ahead of it (or being executed) will unblock it.
  ghost predicate WaitsFor(q: Queues, i: nat)
    requires i < |q.pend|
  {
    || q.pend[i].status == Pend
    || (q.pend[i].status == Blocked
        && (HasBlock(q.busy, q.pend[i].req.offset) || HasBlock(q.pend[..i], q.pend[i].req.offset)))
  }

  // No element is lost or duplicated, and every blocked one has its blocker ahead.
  ghost predicate Inv(q: Queues) {
    && CellBag(q) == multiset(InitQueues().free)
    && forall i :: 0 <= i < |q.pend| ==> WaitsFor(q, i)
  }

  lemma CellCount(q: Queues)
    requires Inv(q)
    ensures |q.free| + |q.pend| + |q.busy| == MAXREQ
  {
    assert |CellBag(q)| == |q.free| + |q.pend| + |q.busy|;
  }

  lemma EnqueueKeepsInv(q: Queues, req: Request, op: Op)
    requires Inv(q) && q.free != []
    ensures Inv(EnqueueSpec(q, req, op))
  {
    var r := EnqueueSpec(q, req, op);
    assert q.free == [q.free[0]] + r.free;
    assert Cells(r.pend) == Cells(q.pend) + [q.free[0]];
    forall i | 0 <= i < |r.pend| ensures WaitsFor(r, i) {
      assert r.pend[..i] == q.pend[..i];
      if i < |q.pend| { assert WaitsFor(q, i); } else { assert q.pend[..i] == q.pend; }
    }
  }

  lemma HasBlockInRemoved(es: seq<Elem>, k: nat, offset: nat)
    requires k < |es| && HasBlock(es, offset)
    ensures es[k].block == offset || HasBlock(RemoveAt(es, k), offset)
  {
    var i :| 0 <= i < |es| && es[i].block == offset;
    assert i < k ==> RemoveAt(es, k)[i] == es[i];
    assert i > k ==> RemoveAt(es, k)[i - 1] == es[i];
  }

  lemma RemoveBag(es: seq<Elem>, k: nat)
    requires k < |es|
    ensures multiset(Cells(es)) == multiset(Cells(RemoveAt(es, k))) + multiset{es[k].cell}
  {
    assert Cells(es) == Cells(es[..k]) + [es[k].cell] + Cells(es[k + 1..]);
    assert Cells(RemoveAt(es, k)) == Cells(es[..k]) + Cells(es[k + 1..]);
  }

  /** With nothing executing, the oldest element is always runnable. */
  lemma HeadIsRunnable(q: Queues)
    requires Inv(q) && q.busy == [] && q.pend != []
    ensures FirstPend(q.pend) == 0
  {
    assert WaitsFor(q, 0);
  }

  lemma DequeueKeepsInv(q: Queues)
    requires Inv(q) && q.busy == []
    ensures Inv(DequeueSpec(q))
  {
    if q.pend != [] {
      HeadIsRunnable(q);
      var r := DequeueSpec(q);
      RemoveBag(q.pend, 0);
      assert Cells(r.busy) == [q.pend[0].cell];
      forall i | 0 <= i < |r.pend| ensures WaitsFor(r, i) {
        assert WaitsFor(q, i + 1);
        assert r.pend[i] == q.pend[i + 1];
        if q.pend[i + 1].status == Blocked {
          HasBlockInRemoved(q.pend[..i + 1], 0, r.pend[i].req.offset);
          assert RemoveAt(q.pend[..i + 1], 0) == r.pend[..i];
          assert r.busy[0].block == q.pend[0].block;
        }
      }
    }
  }

  lemma UnblockKeepsBlocks(es: seq<Elem>, block: nat, k: nat, offset: nat)
    requires k <= |es| && HasBlock(es[..k], offset)
    ensures HasBlock(Unblock(es, block)[..k], offset)
  {
    var i :| 0 <= i < |es[..k]| && es[..k][i].block == offset;
    assert Unblock(es, block)[..k][i].block == offset;
  }

  lemma CompleteBusyKeepsInv(q: Queues, k: nat)
    requires Inv(q) && k < |q.busy|
    ensures Inv(CompleteBusySpec(q, k))
  {
    var r := CompleteBusySpec(q, k);
    RemoveBag(q.busy, k);
    assert Cells(r.pend) == Cells(q.pend);
    forall i | 0 <= i < |r.pend| ensures WaitsFor(r, i) {
      assert WaitsFor(q, i);
      var off := q.pend[i].req.offset;
      if r.pend[i].status == Blocked {
        if HasBlock(q.busy, off) {
          HasBlockInRemoved(q.busy, k, off);
        } else {
          UnblockKeepsBlocks(q.pend, q.busy[k].block, i, off);
        }
      }
    }
  }

  lemma CompletePendKeepsInv(q: Queues, k: nat)
    requires Inv(q) && k < |q.pend|
    ensures Inv(CompletePendSpec(q, k))
  {
    var r := CompletePendSpec(q, k);
    var rest := RemoveAt(q.pend, k);
    RemoveBag(q.pend, k);
    assert Cells(r.pend) == Cells(rest);
    forall i | 0 <= i < |r.pend| ensures WaitsFor(r, i) {
      var was := if i < k then i else i + 1;
      assert WaitsFor(q, was);
      assert rest[i] == q.pend[was];
      var off := rest[i].req.offset;
      if r.pend[i].status == Blocked && !HasBlock(q.busy, off) {
        if i < k {
          assert rest[..i] == q.pend[..was];
        } else {
          HasBlockInRemoved(q.pend[..was], k, off);
          assert RemoveAt(q.pend[..was], k) == rest[..i];
        }
        UnblockKeepsBlocks(rest, q.pend[k].block, i, off);
      }
    }
  }

  lemma CancelKeepsInv(q: Queues, id: nat)
    requires Inv(q)
    ensures Inv(CancelSpec(q, id))
  {
    if FindId(q.pend, id) < |q.pend| { CompletePendKeepsInv(q, FindId(q.pend, id)); }
  }

  lemma InitInv()
    ensures Inv(InitQueues())
  {
    assert multiset(Cells([])) == multiset{};
  }

  // ----- whole runs

  // Start is the worker taking an element and moving its data; Finish is the end
  // of its completion.  Whatever happens in between is done by the callback.
  datatype Event = Submit(req: Request, op: Op) | Cancel(id: nat) | Start | Finish

  datatype Job = Job(req: Request, op: Op)

  datatype Machine = Machine(q: Queues, executed: seq<Job>)

  function JobOf(e: Elem): Job { Job(e.req, e.op) }

  function Jobs(es: seq<Elem>): (r: seq<Job>)
    ensures |r| == |es|
  {
    seq(|es|, i requires 0 <= i < |es| => JobOf(es[i]))
  }

  function Step(m: Machine, ev: Event): Machine {
    match ev
    case Submit(req, op) => if m.q.free == [] then m else m.(q := EnqueueSpec(m.q, req, op))
    case Cancel(id) => m.(q := CancelSpec(m.q, id))
    case Start =>
      var i := FirstPend(m.q.pend);
      if m.q.busy != [] || i == |m.q.pend| then m
      else Machine(DequeueSpec(m.q), m.executed + [JobOf(m.q.pend[i])])
    case Finish => if m.q.busy == [] then m else m.(q := CompleteBusySpec(m.q, 0))
  }

  function Run(evs: seq<Event>): Machine {
    if evs == [] then Machine(InitQueues(), []) else Step(Run(evs[..|evs| - 1]), evs[|evs| - 1])
  }

  // The reference: one list, no statuses, no offsets.
  datatype Fifo = Fifo(waiting: seq<Job>, running: bool, executed: seq<Job>)

  function WithoutId(js: seq<Job>, id: nat): seq<Job> {
    if js == [] then [] else if js[0].req.id == id then js[1..] else [js[0]] + WithoutId(js[1..], id)
  }

  function FifoStep(f: Fifo, ev: Event): Fifo {
    match ev
    case Submit(req, op) =>
      if |f.waiting| + (if f.running then 1 else 0) == MAXREQ then f
      else f.(waiting := f.waiting + [Job(req, op)])
    case Cancel(id) => f.(waiting := WithoutId(f.waiting, id))
    case Start =>
      if f.running || f.waiting == [] then f
      else Fifo(f.waiting[1..], true, f.executed + [f.waiting[0]])
    case Finish => f.(running := false)
  }

  function FifoRun(evs: seq<Event>): Fifo {
    if evs == [] then Fifo([], false, []) else FifoStep(FifoRun(evs[..|evs| - 1]), evs[|evs| - 1])
  }

  function View(m: Machine): Fifo {
    Fifo(Jobs(m.q.pend), m.q.busy != [], m.executed)
  }

  ghost predicate Good(m: Machine) {
    Inv(m.q) && |m.q.busy| <= 1
  }

  lemma {:induction false} WithoutIdIsRemoveAt(es: seq<Elem>, id: nat)
    ensures WithoutId(Jobs(es), id) ==
            (var i := FindId(es, id); if i < |es| then Jobs(RemoveAt(es, i)) else Jobs(es))
  {
    if es != [] && es[0].req.id != id {
      WithoutIdIsRemoveAt(es[1..], id);
      assert Jobs(es)[1..] == Jobs(es[1..]);
      var k := FindId(es[1..], id);
      assert FindId(es, id) == 1 + k;
      if k < |es[1..]| {
        assert Jobs(RemoveAt(es, 1 + k)) == [JobOf(es[0])] + Jobs(RemoveAt(es[1..], k));
      }
    } else if es != [] {
      assert Jobs(RemoveAt(es, 0)) == Jobs(es)[1..];
    }
  }

  lemma SubmitRefines(m: Machine, req: Request, op: Op)
    requires Good(m)
    ensures Good(Step(m, Submit(req, op)))
    ensures View(Step(m, Submit(req, op))) == FifoStep(View(m), Submit(req, op))
  {
    CellCount(m.q);
    if m.q.free != [] {
      EnqueueKeepsInv(m.q, req, op);
      assert Jobs(m.q.pend + [NewElem(m.q, req, op)]) == Jobs(m.q.pend) + [Job(req, op)];
    }
  }

  lemma CancelRefines(m: Machine, id: nat)
    requires Good(m)
    ensures Good(Step(m, Cancel(id)))
    ensures View(Step(m, Cancel(id))) == FifoStep(View(m), Cancel(id))
  {
    CancelKeepsInv(m.q, id);
    WithoutIdIsRemoveAt(m.q.pend, id);
    var i := FindId(m.q.pend, id);
    if i < |m.q.pend| {
      var rest := RemoveAt(m.q.pend, i);
      assert Jobs(Unblock(rest, m.q.pend[i].block)) == Jobs(rest);
    }
  }

  lemma StartRefines(m: Machine)
    requires Good(m)
    ensures Good(Step(m, Start))
    ensures View(Step(m, Start)) == FifoStep(View(m), Start)
    ensures m.q.busy == [] && m.q.pend != [] ==>
              Step(m, Start).q.busy != [] && |Step(m, Start).q.pend| == |m.q.pend| - 1
  {
    if m.q.busy == [] && m.q.pend != [] {
      DequeueKeepsInv(m.q);
      HeadIsRunnable(m.q);
      assert Jobs(RemoveAt(m.q.pend, 0)) == Jobs(m.q.pend)[1..];
    }
  }

  lemma FinishRefines(m: Machine)
    requires Good(m)
    ensures Good(Step(m, Finish))
    ensures View(Step(m, Finish)) == FifoStep(View(m), Finish)
    ensures Step(m, Finish).q.busy == [] && |Step(m, Finish).q.pend| == |m.q.pend|
  {
    if m.q.busy != [] {
      CompleteBusyKeepsInv(m.q, 0);
      assert Jobs(Unblock(m.q.pend, m.q.busy[0].block)) == Jobs(m.q.pend);
    }
  }

  /** Any mix of requests, cancellations, executions and callback-time requests
      executes in arrival order: the dependency scheme is invisible. */
  lemma {:induction false} RefinesFifo(evs: seq<Event>)
    ensures Good(Run(evs))
    ensures View(Run(evs)) == FifoRun(evs)
  {
    if evs == [] {
      InitInv();
    } else {
      RefinesFifo(evs[..|evs| - 1]);
      var m := Run(evs[..|evs| - 1]);
      match evs[|evs| - 1] {
        case Submit(req, op) => SubmitRefines(m, req, op);
        case Cancel(id) => CancelRefines(m, id);
        case Start => StartRefines(m);
        case Finish => FinishRefines(m);
      }
    }
  }

  function WorkerTurn(m: Machine): Machine { Step(Step(m, Start), Finish) }

  function DrainFrom(m: Machine, rounds: nat): Machine
    decreases rounds
  {
    if rounds == 0 then m else DrainFrom(WorkerTurn(m), rounds - 1)
  }

  lemma TurnTakesHead(m: Machine)
    requires Good(m) && m.q.busy == [] && m.q.pend != []
    ensures Good(WorkerTurn(m)) && WorkerTurn(m).q.busy == []
    ensures Jobs(m.q.pend) == [JobOf(m.q.pend[0])] + Jobs(WorkerTurn(m).q.pend)
    ensures WorkerTurn(m).executed == m.executed + [JobOf(m.q.pend[0])]
  {
    StartRefines(m);
    FinishRefines(Step(m, Start));
    HeadIsRunnable(m.q);
    assert View(WorkerTurn(m)).waiting == View(m).waiting[1..];
    assert Jobs(m.q.pend) == [Jobs(m.q.pend)[0]] + Jobs(m.q.pend)[1..];
  }

  // After the drain of m nothing is left, and 'jobs' have been executed in order.
  ghost predicate Drained(m: Machine, d: Machine, jobs: seq<Job>) {
    Good(d) && d.q.pend == [] && d.q.busy == [] && d.executed == m.executed + jobs
  }

  lemma DrainedStep(m: Machine, r: Machine, d: Machine, jobs: seq<Job>)
    requires jobs != [] && r.executed == m.executed + [jobs[0]] && Drained(r, d, jobs[1..])
    ensures Drained(m, d, jobs)
  {
    assert (m.executed + [jobs[0]]) + jobs[1..] == m.executed + jobs;
  }

  /** Nothing is stranded: from an idle reachable state the worker executes every
      waiting request, in order, in as many rounds as there are requests. */
  lemma {:induction false} NothingStranded(m: Machine, jobs: seq<Job>)
    requires Good(m) && m.q.busy == [] && jobs == Jobs(m.q.pend)
    ensures Drained(m, DrainFrom(m, |jobs|), jobs)
    decreases |jobs|
  {
    if jobs != [] {
      TurnTakesHead(m);
      var r := WorkerTurn(m);
      assert jobs == [jobs[0]] + Jobs(r.q.pend);
      NothingStranded(r, jobs[1..]);
      DrainedStep(m, r, DrainFrom(r, |jobs[1..]|), jobs);
    }
  }

  // ----- the device context, updated in place

  class BlockContext {
    var freeq: seq<nat>
    var pendq: seq<Elem>
    var busyq: seq<Elem>

    ghost function State(): Queues
      reads this
    {
      Queues(freeq, pendq, busyq)
    }

    constructor ()
      ensures State() == InitQueues()
    {
      freeq, pendq, busyq := [], [], [];
      new;
      for i := 0 to MAXREQ
        invariant pendq == [] && busyq == []
        invariant freeq == seq(i, j => i - 1 - j)
      {
        freeq := [i] + freeq;
      }
    }

    method Enqueue(req: Request, op: Op) returns (runnable: bool)
      requires freeq != []
      modifies this
      ensures State() == EnqueueSpec(old(State()), req, op)
      ensures runnable <==> pendq[|pendq| - 1].status == Pend
    {
      var cell := freeq[0];
      freeq := freeq[1..];
      var end := OFF_MAX;
      if op != Flush {
        end := req.offset;
        for i := 0 to |req.iov|
          invariant end == req.offset + TotalLen(req.iov[..i])
        {
          end := end + req.iov[i].len;
          assert req.iov[..i + 1][..i] == req.iov[..i];
        }
        assert req.iov[..|req.iov|] == req.iov;
      }
      var blocked := false;
      for i := 0 to |pendq|
        invariant !blocked && !HasBlock(pendq[..i], req.offset)
      {
        if pendq[i].block == req.offset {
          blocked := true;
          break;
        }
        assert pendq[..i + 1] == pendq[..i] + [pendq[i]];
      }
      assert pendq[..|pendq|] == pendq;
      assert blocked <==> HasBlock(pendq, req.offset);
      if !blocked {
        for i := 0 to |busyq|
          invariant !blocked && !HasBlock(busyq[..i], req.offset)
        {
          if busyq[i].block == req.offset {
            blocked := true;
            break;
          }
          assert busyq[..i + 1] == busyq[..i] + [busyq[i]];
        }
        assert busyq[..|busyq|] == busyq;
      }
      runnable := !blocked;
      pendq := pendq + [Elem(cell, req, op, if blocked then Blocked else Pend, end)];
    }

    // Refuses when every element is in use.
    method Submit(req: Request, op: Op) returns (ok: bool)
      modifies this
      ensures ok <==> old(freeq) != []
      ensures State() == if ok then EnqueueSpec(old(State()), req, op) else old(State())
    {
      ok := freeq != [];
      if ok {
        var _ := Enqueue(req, op);
      }
    }

    method Dequeue() returns (found: bool)
      modifies this
      ensures State() == DequeueSpec(old(State()))
      ensures found <==> FirstPend(old(pendq)) < |old(pendq)|
    {
      var i := 0;
      while i < |pendq| && pendq[i].status != Pend
        invariant 0 <= i <= |pendq|
        invariant forall j :: 0 <= j < i ==> pendq[j].status != Pend
      {
        i := i + 1;
      }
      found := i < |pendq|;
      if found {
        var be := pendq[i];
        pendq := RemoveAt(pendq, i);
        busyq := busyq + [be.(status := Busy)];
      }
    }

    method WakeBlocked(block: nat)
      modifies this
      ensures State() == old(State()).(pend := Unblock(old(pendq), block))
    {
      var i := 0;
      while i < |pendq|
        invariant 0 <= i <= |pendq| == |old(pendq)|
        invariant freeq == old(freeq) && busyq == old(busyq)
        invariant pendq[..i] == Unblock(old(pendq), block)[..i]
        invariant pendq[i..] == old(pendq)[i..]
      {
        assert pendq[i] == pendq[i..][0] == old(pendq)[i];
        ghost var before := pendq;
        if pendq[i].req.offset == block {
          pendq := pendq[i := pendq[i].(status := Pend)];
        }
        assert pendq[..i + 1] == before[..i] + [pendq[i]];
        assert pendq[i + 1..] == before[i..][1..];
        i := i + 1;
      }
    }

    // Completes the i-th element of the busy queue.
    method CompleteBusy(i: nat)
      requires i < |busyq|
      modifies this
      ensures State() == CompleteBusySpec(old(State()), i)
    {
      var be := busyq[i];
      busyq := RemoveAt(busyq, i);
      WakeBlocked(be.block);
      freeq := freeq + [be.cell];
    }

    // Completes the i-th element of the pending queue, without executing it.
    method CompletePend(i: nat)
      requires i < |pendq|
      modifies this
      ensures State() == CompletePendSpec(old(State()), i)
    {
      var be := pendq[i];
      pendq := RemoveAt(pendq, i);
      WakeBlocked(be.block);
      freeq := freeq + [be.cell];
    }

    method CancelRequest(id: nat) returns (ok: bool)
      modifies this
      ensures State() == CancelSpec(old(State()), id)
      ensures ok <==> FindId(old(pendq), id) < |old(pendq)|
    {
      var i := 0;
      while i < |pendq| && pendq[i].req.id != id
        invariant 0 <= i <= |pendq|
        invariant forall j :: 0 <= j < i ==> pendq[j].req.id != id
      {
        i := i + 1;
      }
      ok := i < |pendq|;
      if ok {
        CompletePend(i);
      }
    }
  }
}
