/**
 Polling the transmit ring (bhyve/pci_e82545.c): the guest submits descriptors and
 advances the tail; each poll consumes complete groups from the head, in place.
 */
module TxPoll {
  import opened Bytes
  import opened Rings
  import opened Sequences
  import opened TxRing

  // The slot that holds position p, once positions below 'done' have been consumed.
  ghost predicate InSlot(r: seq<Desc>, stream: seq<Desc>, done: nat, p: nat)
    requires p < |stream| && |r| > 0
  {
    r[Slot(p, |r|)] == if p < done then Mark(stream[p]) else stream[p]
  }

  // The last positions of the stream, as many as there are slots.
  ghost predicate Holds(r: seq<Desc>, stream: seq<Desc>, done: nat) {
    && |r| > 0
    && forall p: nat :: p < |stream| <= p + |r| ==> InSlot(r, stream, done, p)
  }

  // One descriptor written back.
  lemma HoldsMarked(r: seq<Desc>, stream: seq<Desc>, done: nat)
    requires Holds(r, stream, done) && done < |stream| < done + |r|
    ensures var i := Slot(done, |r|);
            r[i] == stream[done] && Holds(r[i := Mark(r[i])], stream, done + 1)
  {
    var i := Slot(done, |r|);
    assert InSlot(r, stream, done, done);
    var r', done' := r[i := Mark(r[i])], done + 1;
    forall p: nat | p < |stream| <= p + |r|
      ensures InSlot(r', stream, done', p)
    {
      assert InSlot(r, stream, done, p);
      if p < done { SlotsDiffer(p, done, |r|); } else if p > done { SlotsDiffer(done, p, |r|); }
    }
  }

  // One descriptor submitted.
  lemma HoldsSubmitted(r: seq<Desc>, stream: seq<Desc>, done: nat, d: Desc)
    requires Holds(r, stream, done) && done <= |stream|
    ensures Holds(r[Slot(|stream|, |r|) := d], stream + [d], done)
  {
    var i := Slot(|stream|, |r|);
    var r', stream' := r[i := d], stream + [d];
    forall p: nat | p < |stream'| <= p + |r|
      ensures InSlot(r', stream', done, p)
    {
      if p < |stream| {
        assert InSlot(r, stream, done, p);
        SlotsDiffer(p, |stream|, |r|);
      }
    }
  }

  ghost predicate AnyRs(g: seq<Desc>) { exists i :: 0 <= i < |g| && g[i].rs }

  // The pieces gathered so far: as many as there is room for, and their count.
  datatype Gather = Gather(pieces: seq<Piece>, count: nat)

  ghost predicate Gathered(g: seq<Desc>, a: Gather) {
    && a.count == |Pieces(g)|
    && a.pieces == Pieces(g)[..if a.count < MAX_TXSEGS then a.count else MAX_TXSEGS]
  }

  function Add(a: Gather, d: Desc): Gather {
    if d.len <= 0 then a
    else Gather(if a.count < MAX_TXSEGS then a.pieces + [PieceOf(d)] else a.pieces, a.count + 1)
  }

  lemma GatherNext(g: seq<Desc>, d: Desc, a: Gather)
    requires Gathered(g, a)
    ensures Gathered(g + [d], Add(a, d))
  {
    assert (g + [d])[..|g|] == g;
  }

  // The first descriptors of a packet that has not ended yet.
  ghost predicate Open(s: seq<Desc>, k: nat) {
    k <= |s| && (k > 0 ==> s[0].kind != Context) && forall i :: 0 <= i < k ==> !s[i].eop
  }

  lemma OpenEnds(s: seq<Desc>, k: nat)
    requires Open(s, k)
    ensures k == |s| ==> GroupLen(s) == 0
    ensures k < |s| && s[k].eop && (k == 0 ==> s[0].kind != Context) ==> GroupLen(s) == k + 1
    ensures k < |s| && k == 0 && s[0].kind == Context ==> GroupLen(s) == 1
  {
    if k == |s| { NoPacket(s); }
    if k < |s| && s[k].eop { PacketLenUnique(s, k); }
  }

  lemma OpenTyped(s: seq<Desc>, k: nat)
    requires Open(s, k) && 0 < k < |s| && Typed(s)
    ensures s[k].kind == NextKind(s[0])
  {
    PacketLenIs(s);
  }

  // The loop of the scan, before descriptor k.
  ghost predicate Scanning(s: seq<Desc>, k: nat, first: Desc, a: Gather) {
    Open(s, k) && Gathered(s[..k], a) && (k > 0 ==> first == s[0])
  }

  lemma ScanStep(s: seq<Desc>, k: nat, first: Desc, a: Gather)
    requires Scanning(s, k, first, a) && k < |s| && Typed(s)
    ensures k > 0 ==> s[k].kind == NextKind(first)
    ensures k == 0 && s[k].kind == Context ==> GroupLen(s) == 1
    ensures k > 0 || s[k].kind != Context ==>
              (if s[k].eop then GroupLen(s) == k + 1 && Gathered(s[..k + 1], Add(a, s[k]))
               else Scanning(s, k + 1, s[0], Add(a, s[k])))
  {
    OpenEnds(s, k);
    if k > 0 { OpenTyped(s, k); }
    GatherNext(s[..k], s[k], a);
    assert s[..k] + [s[k]] == s[..k + 1];
  }

  // s lies in the slots from position p on.
  ghost predicate Pending(r: seq<Desc>, p: nat, s: seq<Desc>) {
    && |s| < |r|
    && forall k: nat :: k < |s| ==> AtSlot(r, p, s, k)
  }

  ghost predicate AtSlot(r: seq<Desc>, p: nat, s: seq<Desc>, k: nat)
    requires k < |s| < |r|
  {
    r[Slot(p + k, |r|)] == s[k]
  }

  lemma HoldsPending(r: seq<Desc>, stream: seq<Desc>, done: nat)
    requires Holds(r, stream, done) && done <= |stream| < done + |r|
    ensures Pending(r, done, stream[done..])
  {
    var s := stream[done..];
    forall k: nat | k < |s| ensures AtSlot(r, done, s, k) {
      assert InSlot(r, stream, done, done + k);
    }
  }

  // The scan of e82545_transmit: the length of the group at the head, and its pieces.
  method Scan(ring: array<Desc>, head: nat, tail: nat, ghost p: nat, ghost s: seq<Desc>, any: Desc)
    returns (n: nat, a: Gather, first: Desc, last: Desc)
    requires Pending(ring[..], p, s) && Typed(s)
    requires head == Slot(p, ring.Length) && tail == Slot(p + |s|, ring.Length)
    ensures n == GroupLen(s)
    ensures n > 0 ==> first == s[0] && last == s[n - 1]
    ensures n > 0 && first.kind != Context ==> Gathered(s[..n], a)
  {
    var h, desc := head, 0;
    n, a, first, last := 0, Gather([], 0), any, any;
    MeetIff(p, p + |s|, ring.Length);
    while h != tail
      invariant desc <= |s| && h == Slot(p + desc, ring.Length)
      invariant h != tail <==> desc < |s|
      invariant Scanning(s, desc, first, a)
      decreases |s| - desc
    {
      assert AtSlot(ring[..], p, s, desc);
      ScanStep(s, desc, first, a);
      last := ring[h];
      if desc == 0 {
        first := last;
        if last.kind == Context { return 1, a, first, last; }
      } else {
        assert last.kind == NextKind(first);
      }
      a := Add(a, last);
      if last.eop { return desc + 1, a, first, last; }
      SlotPlus(p + desc, 1, ring.Length);
      MeetIff(p + desc + 1, p + |s|, ring.Length);
      h := Plus(h, 1, ring.Length);
      desc := desc + 1;
    }
    OpenEnds(s, desc);
  }

  lemma AnyRsNext(g: seq<Desc>, d: Desc)
    ensures AnyRs(g + [d]) <==> AnyRs(g) || d.rs
  {
    if AnyRs(g) { var i :| 0 <= i < |g| && g[i].rs; assert (g + [d])[i].rs; }
    if d.rs { assert (g + [d])[|g|].rs; }
  }

  lemma AnyRsJoin(g: seq<Desc>, h: seq<Desc>)
    ensures AnyRs(g + h) <==> AnyRs(g) || AnyRs(h)
  {
    if AnyRs(g) { var i :| 0 <= i < |g| && g[i].rs; assert (g + h)[i].rs; }
    if AnyRs(h) { var i :| 0 <= i < |h| && h[i].rs; assert (g + h)[|g| + i].rs; }
  }

  // DD on one descriptor, if it asks for it.
  method WriteBack(ring: array<Desc>, h: nat, ghost stream: seq<Desc>, ghost p: nat) returns (rs: bool)
    requires Holds(ring[..], stream, p) && p < |stream| < p + ring.Length && h == Slot(p, ring.Length)
    modifies ring
    ensures Holds(ring[..], stream, p + 1) && rs == stream[p].rs
  {
    ghost var r := ring[..];
    HoldsMarked(r, stream, p);
    rs := ring[h].rs;
    if rs { ring[h] := ring[h].(dd := true); }
    assert ring[..] == r[h := Mark(r[h])];
  }

  // e82545_transmit_done: DD on the RS descriptors from head up to next.
  method TransmitDone(ring: array<Desc>, head: nat, next: nat, ghost stream: seq<Desc>, ghost done: nat, ghost n: nat)
    returns (tdwb: bool)
    requires Holds(ring[..], stream, done) && done + n <= |stream| < done + ring.Length
    requires head == Slot(done, ring.Length) && next == Slot(done + n, ring.Length)
    modifies ring
    ensures Holds(ring[..], stream, done + n)
    ensures tdwb <==> AnyRs(stream[done..done + n])
  {
    var h := head;
    ghost var p, end := done, done + n;
    tdwb := false;
    MeetIff(p, end, ring.Length);
    while h != next
      invariant done <= p <= end && h == Slot(p, ring.Length) && (h != next <==> p < end)
      invariant Holds(ring[..], stream, p)
      invariant tdwb <==> AnyRs(stream[done..p])
      decreases end - p
    {
      AnyRsNext(stream[done..p], stream[p]);
      assert stream[done..p] + [stream[p]] == stream[done..p + 1];
      var rs := WriteBack(ring, h, stream, p);
      if rs { tdwb := true; }
      SlotPlus(p, 1, ring.Length);
      MeetIff(p + 1, end, ring.Length);
      h := Plus(h, 1, ring.Length);
      p := p + 1;
    }
  }

  // What has been consumed and done so far is a scan of the stream up to a boundary.
  ghost predicate Scanned(stream: seq<Desc>, done: nat, out: seq<Event>, ctx: Desc, ctx0: Desc) {
    && Boundary(stream, done) && Typed(stream) && done <= |stream|
    && out == Batch(stream[..done], ctx0) && ctx == BatchCtx(stream[..done], ctx0)
  }

  lemma ScannedNext(stream: seq<Desc>, done: nat, out: seq<Event>, ctx: Desc, ctx0: Desc, n: nat, g: seq<Desc>)
    requires Scanned(stream, done, out, ctx, ctx0)
    requires n == GroupLen(stream[done..]) && n > 0 && g == stream[done..][..n]
    ensures Scanned(stream, done + n, out + [EventOf(g, ctx)], CtxAfter(g, ctx), ctx0)
  {
    BoundaryNext(stream, done);
    BatchGrows(stream, done, ctx0, n, g);
  }

  lemma ScannedMore(stream: seq<Desc>, done: nat, out: seq<Event>, ctx: Desc, ctx0: Desc, ds: seq<Desc>)
    requires Scanned(stream, done, out, ctx, ctx0) && Typed(stream + ds)
    ensures Scanned(stream + ds, done, out, ctx, ctx0)
  {
    BoundaryStays(stream, ds, done);
    assert (stream + ds)[..done] == stream[..done];
  }

  // The ring's part of the state.
  ghost predicate Laid(r: seq<Desc>, stream: seq<Desc>, done: nat, tail: nat) {
    Holds(r, stream, done) && done <= |stream| < done + |r| && tail == Slot(|stream|, |r|)
  }

  // The head and the place up to which the last poll looked in vain.
  ghost predicate Resting(size: nat, stream: seq<Desc>, done: nat, seen: nat, tdh: nat, tdhr: nat) {
    && size > 0 && done <= seen <= |stream| && tdh == Slot(done, size) && tdhr == Slot(seen, size)
    && (seen > done ==> GroupLen(stream[done..seen]) == 0)
  }

  lemma AllOf(s: seq<Desc>, d: nat)
    requires d <= |s|
    ensures s[d..|s|] == s[d..]
  {
  }

  class TxDevice {
    const ring: array<Desc>
    var tdh: nat
    var tdhr: nat
    var tdt: nat
    var enabled: bool
    var ctx: Desc
    var out: seq<Event>
    // All that was ever submitted, what has been consumed, and what the last poll saw.
    ghost var stream: seq<Desc>
    ghost var done: nat
    ghost var seen: nat
    ghost const ctx0: Desc

    ghost predicate Ready()
      reads this, ring
    {
      Scanned(stream, done, out, ctx, ctx0) && Laid(ring[..], stream, done, tdt)
    }

    ghost predicate Valid()
      reads this, ring
    {
      Ready() && Resting(ring.Length, stream, done, seen, tdh, tdhr)
    }

    constructor (descs: array<Desc>, c: Desc)
      requires descs.Length > 0
      ensures Valid() && ring == descs && fresh(this) && !enabled
    {
      ring, ctx, ctx0, out, enabled := descs, c, c, [], false;
      tdh, tdhr, tdt := 0, 0, 0;
      stream, done, seen := [], 0, 0;
      new;
      BatchOfNone(c);
    }

    // The enable bit of the transmit control register; the ring is where it was.
    method TransmitControl(on: bool)
      requires Valid()
      modifies this`enabled
      ensures Valid() && enabled == on
    {
      if on == enabled {
        return;
      }
      enabled := on;
    }

    // The guest writes descriptors behind the tail, and then the tail register.
    method Submit(ds: seq<Desc>)
      requires Valid() && |stream| + |ds| < done + ring.Length && Typed(stream + ds)
      modifies this`tdt, this`stream, ring
      ensures Valid() && stream == old(stream) + ds
    {
      ghost var s0 := stream;
      var i, tail := 0, tdt;
      while i < |ds|
        invariant i <= |ds| && stream == s0 + ds[..i] && tail == Slot(|s0| + i, ring.Length)
        invariant Holds(ring[..], stream, done)
        invariant tdt == old(tdt)
      {
        HoldsSubmitted(ring[..], stream, done, ds[i]);
        SlotPlus(|s0| + i, 1, ring.Length);
        ring[tail] := ds[i];
        stream := stream + [ds[i]];
        tail := Plus(tail, 1, ring.Length);
        i := i + 1;
      }
      assert stream == s0 + ds;
      tdt := tail;
      ScannedMore(s0, done, out, ctx, ctx0, ds);
      assert stream[done..seen] == s0[done..seen];
    }

    // What e82545_transmit does with the group it has scanned.
    method Act(first: Desc, last: Desc, a: Gather, ghost g: seq<Desc>)
      requires g != [] && first == g[0] && last == g[|g| - 1]
      requires first.kind != Context ==> Gathered(g, a)
      modifies this`ctx, this`out
      ensures out == old(out) + [EventOf(g, old(ctx))] && ctx == CtxAfter(g, old(ctx))
    {
      if first.kind == Context {
        ctx := first;
        out := out + [Loaded(first)];
      } else if a.count > MAX_TXSEGS {
        out := out + [Dropped(a.count)];
      } else {
        assert Pieces(g)[..|Pieces(g)|] == Pieces(g);
        out := out + [Packet(first, last, ctx, a.pieces)];
      }
    }

    // The group is acted on; its descriptors are consumed but not yet written back.
    method Take(first: Desc, last: Desc, a: Gather, ghost n: nat, ghost g: seq<Desc>)
      requires Scanned(stream, done, out, ctx, ctx0)
      requires n == GroupLen(stream[done..]) && n > 0 && g == stream[done..][..n]
      requires first == g[0] && last == g[|g| - 1] && (first.kind != Context ==> Gathered(g, a))
      modifies this`ctx, this`out, this`done
      ensures Scanned(stream, done, out, ctx, ctx0) && done == old(done) + n
    {
      ScannedNext(stream, done, out, ctx, ctx0, n, g);
      Act(first, last, a, g);
      done := done + n;
    }

    method ScanHead(head: nat, ghost s: seq<Desc>) returns (n: nat, a: Gather, first: Desc, last: Desc)
      requires Ready() && head == Slot(done, ring.Length) && s == stream[done..]
      ensures n == GroupLen(s)
      ensures n > 0 ==> first == s[0] && last == s[n - 1]
      ensures n > 0 && first.kind != Context ==> Gathered(s[..n], a)
    {
      TypedBehind(stream, done);
      HoldsPending(ring[..], stream, done);
      n, a, first, last := Scan(ring, head, tdt, done, s, ctx);
    }

    // One group at the head, or nothing.
    method Transmit(head: nat, ghost s: seq<Desc>) returns (sent: nat, rhead: nat, tdwb: bool)
      requires Ready() && head == Slot(done, ring.Length) && s == stream[done..]
      modifies this`ctx, this`out, this`done, ring
      ensures Ready() && sent == GroupLen(s) && done == old(done) + sent
      ensures rhead == if sent > 0 then Slot(done, ring.Length) else tdt
      ensures tdwb <==> AnyRs(stream[old(done)..done])
    {
      var a, first, last;
      sent, a, first, last := ScanHead(head, s);
      rhead, tdwb := tdt, false;
      if sent > 0 {
        ghost var d, r := done, ring[..];
        Take(first, last, a, sent, s[..sent]);
        assert ring[..] == r && stream[d..d + sent] == s[..sent];
        SlotPlus(d, sent, ring.Length);
        rhead := Plus(head, sent, ring.Length);
        tdwb := TransmitDone(ring, head, rhead, stream, d, sent);
      }
    }

    // Where a run rests: at the head, or having looked at everything in vain.
    method Rest(head: nat, rhead: nat, ghost s: nat)
      requires Ready() && head == Slot(done, ring.Length) && rhead == Slot(s, ring.Length) && done <= s <= |stream|
      requires s > done ==> GroupLen(stream[done..s]) == 0
      modifies this`tdh, this`tdhr, this`seen
      ensures Valid() && tdh == head && (tdh == tdt <==> done == |stream|)
    {
      tdh, tdhr, seen := head, rhead, s;
      MeetIff(done, |stream|, ring.Length);
    }

    // The loop of a run: groups until nothing is complete or the limit is reached.
    method RunLoop(head0: nat, lim0: int) returns (head: nat, rhead: nat, lim: int, txdw: bool, ghost s: nat)
      requires Ready() && head0 == Slot(done, ring.Length)
      modifies this`ctx, this`out, this`done, ring
      ensures Ready() && old(done) <= done && head == Slot(done, ring.Length) && rhead == Slot(s, ring.Length)
      ensures done <= s <= |stream| && (s > done ==> GroupLen(stream[done..s]) == 0)
      ensures enabled && lim0 > 0 && GroupLen(old(stream[done..])) > 0 ==> old(done) < done
      ensures txdw <==> AnyRs(stream[old(done)..done])
      ensures lim < lim0 <==> old(done) < done
      ensures lim <= lim0
    {
      head, rhead, lim, txdw := head0, head0, lim0, false;
      ghost var d0 := done;
      s := done;
      while enabled && lim > 0
        invariant Ready() && d0 <= done && head == rhead == Slot(done, ring.Length)
        invariant lim <= lim0 && (lim < lim0 <==> d0 < done)
        invariant txdw <==> AnyRs(stream[d0..done])
        invariant s == done
        decreases |stream| - done
      {
        ghost var d := done;
        var sent, next, wb := Transmit(head, stream[done..]);
        rhead := next;
        if sent == 0 {
          s := |stream|;
          AllOf(stream, done);
          break;
        }
        AnyRsJoin(stream[d0..d], stream[d..done]);
        SlicesJoin(stream, d0, d, done);
        head, lim, txdw, s := rhead, lim - sent, txdw || wb, done;
      }
    }

    /** A run consumes complete groups only, in order, and rests on a boundary. */
    method TxRun() returns (txdw: bool, txqe: bool)
      requires Valid()
      modifies this`tdh, this`tdhr, this`ctx, this`out, this`done, this`seen, ring
      ensures Valid() && old(done) <= done
      ensures enabled && ring.Length >= 4 && GroupLen(old(stream[done..])) > 0 ==> old(done) < done
      ensures txdw <==> AnyRs(stream[old(done)..done])
      ensures txqe <==> old(done) < done == |stream|
    {
      var head, rhead, lim;
      ghost var s;
      head, rhead, lim, txdw, s := RunLoop(tdh, ring.Length / 4);
      Rest(head, rhead, s);
      txqe := lim != ring.Length / 4 && tdh == tdt;
    }

    /** A poll makes progress whenever a complete group is waiting. */
    method Poll() returns (txdw: bool, txqe: bool)
      requires Valid()
      modifies this`tdh, this`tdhr, this`ctx, this`out, this`done, this`seen, ring
      ensures Valid() && old(done) <= done
      ensures enabled && ring.Length >= 4 && GroupLen(old(stream[done..])) > 0 ==> old(done) < done
      ensures !enabled ==> done == old(done)
      ensures txdw <==> AnyRs(stream[old(done)..done])
      ensures txqe <==> old(done) < done == |stream|
    {
      MeetIff(seen, |stream|, ring.Length);
      assert stream[done..|stream|] == stream[done..];
      txdw, txqe := false, false;
      if enabled && tdhr != tdt {
        txdw, txqe := TxRun();
      }
    }

    /** However the guest submitted and whenever the device was polled, what it has done
        is what a single scan of everything submitted would have done up to the head;
        once no complete group is left, it is the whole scan. */
    lemma StreamingIsBatch()
      requires Valid()
      ensures done <= Complete(stream)
      ensures done == Complete(stream) <==> GroupLen(stream[done..]) == 0
      ensures Batch(stream, ctx0) == out + Batch(stream[done..], ctx)
      ensures done == Complete(stream) ==> out == Batch(stream, ctx0)
    {
      CompleteSplits(stream, done);
      BatchSplits(stream, done, ctx0);
    }

    /** DD is set on exactly the consumed RS descriptors. */
    lemma DdExact(p: nat)
      requires Valid() && p < |stream| <= p + ring.Length && !stream[p].dd
      ensures ring[Slot(p, ring.Length)].dd <==> p < done && stream[p].rs
    {
      assert InSlot(ring[..], stream, done, p);
    }

    /** The guest sees no work left, head at tail, exactly when all was consumed. */
    lemma HeadAtTail()
      requires Valid()
      ensures tdh == tdt <==> done == |stream|
    {
      MeetIff(done, |stream|, ring.Length);
    }
  }
}
