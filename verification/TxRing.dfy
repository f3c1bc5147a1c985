/**
 The transmit descriptor ring (bhyve/pci_e82545.c, e82545_transmit, e82545_transmit_done,
 e82545_tx_run and e82545_tx_poll): descriptors are consumed in groups, one context
 descriptor or the data descriptors of one packet up to EOP.
 */
module TxRing {
  import opened Bytes
  import opened Rings
  import opened Sequences

  // ----- descriptors

  // The type of a descriptor; other types are not known to the device.
  datatype Kind = Legacy | Data | Context | Unknown

  // len is the length field; mss to paylen of a context descriptor are in 'words'.
  datatype Desc = Desc(kind: Kind, addr: nat, len: int, eop: bool, ifcs: bool, rs: bool, dd: bool, words: nat)

  datatype Piece = Piece(addr: nat, len: int)

  // What the device does with a group: it loads a context, or sends the pieces of a
  // packet under the context loaded last, or drops a packet with too many pieces.
  datatype Event = Loaded(ctx: Desc)
                 | Packet(first: Desc, last: Desc, ctx: Desc, pieces: seq<Piece>)
                 | Dropped(count: nat)

  // The type the rest of the packet must have: an unknown type leaves it legacy.
  function NextKind(first: Desc): Kind {
    if first.kind == Unknown then Legacy else first.kind
  }

  function Mark(d: Desc): Desc { if d.rs then d.(dd := true) else d }

  // A guest checksum at the end of the packet is cut off.
  function PieceOf(d: Desc): Piece {
    Piece(d.addr, if d.eop && !d.ifcs then d.len - 2 else d.len)
  }

  function Pieces(g: seq<Desc>): seq<Piece> {
    if g == [] then []
    else Pieces(g[..|g| - 1]) + (if g[|g| - 1].len > 0 then [PieceOf(g[|g| - 1])] else [])
  }

  // ----- a scan of the whole stream

  // The length of the packet that starts s, or 0 if it is incomplete.
  function PacketLen(s: seq<Desc>): (n: nat)
    ensures n <= |s|
  {
    if s == [] then 0
    else if s[0].eop then 1
    else var n := PacketLen(s[1..]); if n == 0 then 0 else n + 1
  }

  function GroupLen(s: seq<Desc>): (n: nat)
    ensures n <= |s|
  {
    if s == [] then 0 else if s[0].kind == Context then 1 else PacketLen(s)
  }

  function EventOf(g: seq<Desc>, ctx: Desc): Event
    requires g != []
  {
    if g[0].kind == Context then Loaded(g[0])
    else if |Pieces(g)| > MAX_TXSEGS then Dropped(|Pieces(g)|)
    else Packet(g[0], g[|g| - 1], ctx, Pieces(g))
  }

  function CtxAfter(g: seq<Desc>, ctx: Desc): Desc
    requires g != []
  {
    if g[0].kind == Context then g[0] else ctx
  }

  // How much of s is complete groups.
  function Complete(s: seq<Desc>): (n: nat)
    ensures n <= |s|
    decreases |s|
  {
    var n := GroupLen(s);
    if n == 0 then 0 else n + Complete(s[n..])
  }

  // Everything the device does for s, given its context.
  function Batch(s: seq<Desc>, ctx: Desc): seq<Event>
    decreases |s|
  {
    var n := GroupLen(s);
    if n == 0 then [] else [EventOf(s[..n], ctx)] + Batch(s[n..], CtxAfter(s[..n], ctx))
  }

  function BatchCtx(s: seq<Desc>, ctx: Desc): Desc
    decreases |s|
  {
    var n := GroupLen(s);
    if n == 0 then ctx else BatchCtx(s[n..], CtxAfter(s[..n], ctx))
  }

  // Position d is the end of a group of s.
  ghost predicate Boundary(s: seq<Desc>, d: nat)
    decreases |s|
  {
    d == 0 || (var n := GroupLen(s); n > 0 && d >= n && Boundary(s[n..], d - n))
  }

  // The descriptors of a packet have one type; the device stops otherwise.
  ghost predicate Typed(s: seq<Desc>)
    decreases |s|
  {
    var n := GroupLen(s);
    && (s != [] && s[0].kind != Context ==>
          forall i :: 1 <= i < (if n == 0 then |s| else n) ==> s[i].kind == NextKind(s[0]))
    && (n > 0 ==> Typed(s[n..]))
  }

  // ----- facts about scans

  lemma {:induction false} PacketLenIs(s: seq<Desc>)
    ensures var n := PacketLen(s);
            && (forall i :: 0 <= i < (if n == 0 then |s| else n - 1) ==> !s[i].eop)
            && (n > 0 ==> s[n - 1].eop)
  {
    if s != [] && !s[0].eop { PacketLenIs(s[1..]); }
  }

  lemma {:induction false} PacketLenUnique(s: seq<Desc>, n: nat)
    requires n < |s| && s[n].eop && forall i :: 0 <= i < n ==> !s[i].eop
    ensures PacketLen(s) == n + 1
  {
    if n > 0 { PacketLenUnique(s[1..], n - 1); }
  }

  lemma {:induction false} NoPacket(s: seq<Desc>)
    requires forall i :: 0 <= i < |s| ==> !s[i].eop
    ensures PacketLen(s) == 0
  {
    if s != [] { NoPacket(s[1..]); }
  }

  // A complete group stays the same when more is submitted.
  lemma GroupStays(s: seq<Desc>, t: seq<Desc>)
    requires GroupLen(s) > 0
    ensures GroupLen(s + t) == GroupLen(s)
  {
    if s[0].kind != Context {
      PacketLenIs(s);
      PacketLenUnique(s + t, PacketLen(s) - 1);
    }
  }

  lemma GroupInPrefix(s: seq<Desc>, d: nat)
    requires GroupLen(s) > 0 && GroupLen(s) <= d <= |s|
    ensures GroupLen(s[..d]) == GroupLen(s)
  {
    if s[0].kind != Context {
      PacketLenIs(s);
      PacketLenUnique(s[..d], PacketLen(s) - 1);
    }
  }

  lemma {:induction false} BoundaryStays(s: seq<Desc>, t: seq<Desc>, d: nat)
    requires Boundary(s, d)
    ensures Boundary(s + t, d)
    decreases |s|
  {
    if d > 0 {
      var n := GroupLen(s);
      GroupStays(s, t);
      BoundaryStays(s[n..], t, d - n);
      assert (s + t)[n..] == s[n..] + t;
    }
  }

  // The next group behind a boundary ends at a boundary.
  lemma {:induction false} BoundaryNext(s: seq<Desc>, d: nat)
    requires Boundary(s, d) && d <= |s| && GroupLen(s[d..]) > 0
    ensures Boundary(s, d + GroupLen(s[d..]))
    decreases |s|
  {
    if d > 0 {
      var n := GroupLen(s);
      assert s[n..][d - n..] == s[d..];
      BoundaryNext(s[n..], d - n);
    } else {
      assert s[0..] == s;
    }
  }

  lemma {:induction false} TypedBehind(s: seq<Desc>, d: nat)
    requires Boundary(s, d) && d <= |s| && Typed(s)
    ensures Typed(s[d..])
    decreases |s|
  {
    if d > 0 {
      var n := GroupLen(s);
      TypedBehind(s[n..], d - n);
      assert s[n..][d - n..] == s[d..];
    } else {
      assert s[0..] == s;
    }
  }

  lemma BatchStep(s: seq<Desc>, n: nat, ctx: Desc)
    requires n == GroupLen(s) && n > 0
    ensures Batch(s, ctx) == [EventOf(s[..n], ctx)] + Batch(s[n..], CtxAfter(s[..n], ctx))
    ensures BatchCtx(s, ctx) == BatchCtx(s[n..], CtxAfter(s[..n], ctx))
  {
  }

  lemma PrefixStep(s: seq<Desc>, n: nat, d: nat, ctx: Desc)
    requires n == GroupLen(s) && 0 < n <= d <= |s|
    ensures Batch(s[..d], ctx) == [EventOf(s[..n], ctx)] + Batch(s[n..][..d - n], CtxAfter(s[..n], ctx))
    ensures BatchCtx(s[..d], ctx) == BatchCtx(s[n..][..d - n], CtxAfter(s[..n], ctx))
  {
    GroupInPrefix(s, d);
    BatchStep(s[..d], n, ctx);
    assert s[n..][..d - n] == s[..d][n..] && s[..d][..n] == s[..n];
  }

  /** A scan of the whole stream is a scan up to any boundary, and one behind it. */
  lemma {:induction false} BatchSplits(s: seq<Desc>, d: nat, ctx: Desc)
    requires Boundary(s, d) && d <= |s|
    ensures Batch(s, ctx) == Batch(s[..d], ctx) + Batch(s[d..], BatchCtx(s[..d], ctx))
    ensures BatchCtx(s, ctx) == BatchCtx(s[d..], BatchCtx(s[..d], ctx))
    decreases |s|
  {
    if d > 0 {
      var n := GroupLen(s);
      var c := CtxAfter(s[..n], ctx);
      BatchStep(s, n, ctx);
      PrefixStep(s, n, d, ctx);
      BatchSplits(s[n..], d - n, c);
      assert s[n..][d - n..] == s[d..];
      ConcatAssoc([EventOf(s[..n], ctx)], Batch(s[n..][..d - n], c), Batch(s[d..], BatchCtx(s[n..][..d - n], c)));
    } else {
      assert s[..0] == [] && s[0..] == s;
      BatchOfNone(ctx);
    }
  }

  lemma BatchOfNone(ctx: Desc)
    ensures Batch([], ctx) == [] && BatchCtx([], ctx) == ctx
  {
  }

  lemma BatchOfOne(g: seq<Desc>, ctx: Desc)
    requires g != [] && GroupLen(g) == |g|
    ensures Batch(g, ctx) == [EventOf(g, ctx)] && BatchCtx(g, ctx) == CtxAfter(g, ctx)
  {
    assert g[..|g|] == g && g[|g|..] == [];
  }

  lemma BatchOfMore(p: seq<Desc>, g: seq<Desc>, ctx: Desc)
    requires Boundary(p + g, |p|) && g != [] && GroupLen(g) == |g|
    ensures Batch(p + g, ctx) == Batch(p, ctx) + [EventOf(g, BatchCtx(p, ctx))]
    ensures BatchCtx(p + g, ctx) == CtxAfter(g, BatchCtx(p, ctx))
  {
    BatchSplits(p + g, |p|, ctx);
    assert (p + g)[..|p|] == p && (p + g)[|p|..] == g;
    BatchOfOne(g, BatchCtx(p, ctx));
  }

  // One group more.
  lemma BatchGrows(s: seq<Desc>, d: nat, ctx: Desc, n: nat, g: seq<Desc>)
    requires Boundary(s, d) && d <= |s| && n == GroupLen(s[d..]) && n > 0 && g == s[d..][..n]
    ensures Batch(s[..d + n], ctx) == Batch(s[..d], ctx) + [EventOf(g, BatchCtx(s[..d], ctx))]
    ensures BatchCtx(s[..d + n], ctx) == CtxAfter(g, BatchCtx(s[..d], ctx))
  {
    PrefixBoundary(s, d, d + n);
    GroupInPrefix(s[d..], n);
    assert s[..d + n] == s[..d] + g;
    BatchOfMore(s[..d], g, ctx);
  }

  lemma {:induction false} PrefixBoundary(s: seq<Desc>, d: nat, e: nat)
    requires Boundary(s, d) && d <= e <= |s|
    ensures Boundary(s[..e], d)
    decreases |s|
  {
    if d > 0 {
      var n := GroupLen(s);
      GroupInPrefix(s, e);
      PrefixBoundary(s[n..], d - n, e - n);
      assert s[..e][n..] == s[n..][..e - n];
    }
  }

  /** Behind a boundary, what is left to a scan of the whole stream is what is left. */
  lemma {:induction false} CompleteSplits(s: seq<Desc>, d: nat)
    requires Boundary(s, d) && d <= |s|
    ensures Complete(s) == d + Complete(s[d..])
    decreases |s|
  {
    if d > 0 {
      var n := GroupLen(s);
      CompleteSplits(s[n..], d - n);
      assert s[n..][d - n..] == s[d..];
    } else {
      assert s[0..] == s;
    }
  }
}
