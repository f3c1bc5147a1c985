/**
 TCP segmentation offload (bhyve/pci_e82545.c, e82545_transmit): one header, rewritten
 in place for every segment, in front of consecutive pieces of a scattered payload.
 */
module Segmentation {
  import opened Bytes
  import opened Sequences
  import opened Checksum
  import opened PacketChecksum
  import opened SegmentHeader

  // ----- what segment k must be

  // Where the payload of segment k starts: at k times mss.
  function Start(c: Context, k: nat): nat { if k == 0 then 0 else Start(c, k - 1) + c.mss }

  lemma {:induction false} StartIs(c: Context, k: nat)
    ensures Start(c, k) == k * c.mss
  {
    if k > 0 { StartIs(c, k - 1); }
  }

  // n segments of mss bytes, the last one perhaps shorter, hold the payload.
  ghost predicate IsCount(c: Context, n: nat) {
    Start(c, n) >= c.paylen && (n > 0 ==> Start(c, n - 1) < c.paylen)
  }

  // The length of segment k, by the paylen the driver gave.
  function SegmentLen(c: Context, k: nat): nat
    requires Start(c, k) <= c.paylen
  {
    Min(c.mss, c.paylen - Start(c, k))
  }

  // The frame is header h and the k-th piece of the payload; if the fields do not
  // overlap, the header is right and the checksums verify.
  ghost predicate FrameOk(c: Context, h0: seq<byte>, payload: seq<byte>, k: nat, at: nat, now: nat,
                          h: seq<byte>, frame: seq<byte>)
    requires Inside(c, |h0|)
  {
    && |h| == |h0| && frame == h + Clip(payload, at, now)
    && (Ordered(c) ==> HeaderFields(c, h0, h, k, at, now) && Verifies(c, h0, frame, now))
  }

  ghost predicate SegmentOk(c: Context, h0: seq<byte>, payload: seq<byte>, k: nat, frame: seq<byte>)
    requires Inside(c, |h0|)
  {
    && Start(c, k) < c.paylen && |h0| <= |frame|
    && FrameOk(c, h0, payload, k, Start(c, k), SegmentLen(c, k), frame[..|h0|], frame)
  }

  // ----- a round

  // What a round stores.
  function RoundFields(c: Context, h: seq<byte>, v: Saved, k: nat, at: nat, now: nat): (f: Fields)
    requires Inside(c, |h|)
    ensures Sized(f)
  {
    FieldsFor(c, |h|, v, k, at, now, RoundFlags(c, at, now, h[c.tcp.start + 13]))
  }

  function RoundTcpSum(c: Context, hdrlen: nat, v: Saved, now: nat): (a: nat)
    requires v.tcpcs <= M16
    ensures a < M32
  {
    TcpSum(v.tcpcs, hdrlen - c.tcp.start + now)
  }

  // The flags a round stores are those of every round.
  lemma FlagsStored(c: Context, h0: seq<byte>, h: seq<byte>, k: nat, at: nat, now: nat)
    requires Inside(c, |h0|) && |h| == |h0| && Before(c, h0, h, k) && Ordered(c) && Round(c, k, at, now)
    ensures RoundFlags(c, at, now, h[c.tcp.start + 13]) == FlagsFor(c, h0[c.tcp.start + 13])
  {
    RoundFlagsAre(c, k, at, now, h0[c.tcp.start + 13]);
  }

  lemma ShowsBefore(c: Context, h0: seq<byte>, h: seq<byte>, f: Fields, k: nat)
    requires Shows(c, h0, h, f) && f.flags == FlagsFor(c, h0[c.tcp.start + 13])
    ensures Before(c, h0, h, k + 1)
  {
  }

  /** A round makes the next frame: a right header, sums that verify, and the next bytes. */
  lemma RoundFrame(c: Context, h0: seq<byte>, h: seq<byte>, v: Saved, payload: seq<byte>, k: nat, at: nat, now: nat,
                   f: Fields, h': seq<byte>)
    requires Inside(c, |h0|) && |h| == |h0| && Before(c, h0, h, k) && Round(c, k, at, now)
    requires v == Read(c, h0) && f == RoundFields(c, h, v, k, at, now)
    requires h' == Rewritten(c, h, f, Clip(payload, at, now), v.ipcs, RoundTcpSum(c, |h0|, v, now))
    ensures FrameOk(c, h0, payload, k, at, now, h', h' + Clip(payload, at, now))
    ensures Before(c, h0, h', k + 1)
  {
    if Ordered(c) {
      var rest, a := Clip(payload, at, now), RoundTcpSum(c, |h0|, v, now);
      FlagsStored(c, h0, h, k, at, now);
      RoundShows(c, h0, h, f, rest, v.ipcs, a);
      RoundVerifies(c, h, f, rest, v.ipcs, a);
      ShowsBefore(c, h0, h', f, k);
    }
  }

  // ----- the payload iterator

  ghost predicate At(pieces: seq<seq<byte>>, pv: nat, pvoff: nat) {
    pv <= |pieces| && pvoff <= if pv < |pieces| then |pieces[pv]| else 0
  }

  // The bytes of the pieces from the pv-th on.
  ghost function Rest(pieces: seq<seq<byte>>, pv: nat): (r: seq<byte>)
    ensures pv < |pieces| ==> |pieces[pv]| <= |r|
    decreases |pieces| - pv
  {
    if pv >= |pieces| then [] else pieces[pv] + Rest(pieces, pv + 1)
  }

  lemma {:induction false} RestIsFlat(pieces: seq<seq<byte>>, pv: nat)
    requires pv <= |pieces|
    ensures Rest(pieces, pv) == Flatten(pieces[pv..])
    decreases |pieces| - pv
  {
    if pv < |pieces| {
      RestIsFlat(pieces, pv + 1);
      assert pieces[pv..][1..] == pieces[pv + 1..];
    }
  }

  // What the pieces from the pv-th on, less pvoff bytes, still hold.
  ghost function Left(pieces: seq<seq<byte>>, pv: nat, pvoff: nat): seq<byte>
    requires At(pieces, pv, pvoff)
  {
    Rest(pieces, pv)[pvoff..]
  }

  lemma LeftStep(pieces: seq<seq<byte>>, pv: nat, pvoff: nat, n: nat)
    requires pv < |pieces| && pvoff + n <= |pieces[pv]|
    ensures var next := if pvoff + n == |pieces[pv]| then (pv + 1, 0) else (pv, pvoff + n);
            At(pieces, next.0, next.1)
            && n <= |Left(pieces, pv, pvoff)|
            && pieces[pv][pvoff..pvoff + n] == Left(pieces, pv, pvoff)[..n]
            && Left(pieces, next.0, next.1) == Left(pieces, pv, pvoff)[n..]
  {
  }

  lemma {:induction false} FlattenSnoc(ps: seq<seq<byte>>, p: seq<byte>)
    ensures Flatten(ps + [p]) == Flatten(ps) + p
  {
    if ps == [] {
      assert [p][1..] == [] && Flatten([p]) == p + [];
    } else {
      assert (ps + [p])[1..] == ps[1..] + [p];
      FlattenSnoc(ps[1..], p);
    }
  }

  // 'done' bytes of l are in tiov, and the rest is left.
  ghost predicate Gathered(l: seq<byte>, tiov: seq<seq<byte>>, done: nat, left: seq<byte>) {
    done <= |l| && Flatten(tiov) == l[..done] && left == l[done..]
  }

  lemma GatherPiece(l: seq<byte>, tiov: seq<seq<byte>>, done: nat, left: seq<byte>, n: nat)
    requires Gathered(l, tiov, done, left) && n <= |left|
    ensures Gathered(l, tiov + [left[..n]], done + n, left[n..])
  {
    FlattenSnoc(tiov, left[..n]);
    SlicesJoin(l, 0, done, done + n);
    assert left[..n] == l[done..done + n] && left[n..] == l[done + n..];
  }

  // The next 'now' payload bytes, as pieces; never more pieces than there are.
  method NextPayload(pieces: seq<seq<byte>>, pv0: nat, pvoff0: nat, now: nat)
    returns (tiov: seq<seq<byte>>, pv: nat, pvoff: nat)
    requires At(pieces, pv0, pvoff0)
    ensures At(pieces, pv, pvoff)
    ensures var l := Left(pieces, pv0, pvoff0);
            Gathered(l, tiov, Min(now, |l|), Left(pieces, pv, pvoff))
    ensures |tiov| <= |pieces| - pv0
    ensures forall i :: 0 <= i < |tiov| ==> |tiov[i]| <= now
  {
    pv, pvoff, tiov := pv0, pvoff0, [];
    var nleft := now;
    ghost var l := Left(pieces, pv0, pvoff0);
    while pv < |pieces| && nleft > 0
      invariant pv0 <= pv && At(pieces, pv, pvoff) && 0 <= nleft <= now
      invariant Gathered(l, tiov, now - nleft, Left(pieces, pv, pvoff))
      invariant |tiov| <= pv - pv0 || (|tiov| == pv - pv0 + 1 && nleft == 0 && pv < |pieces|)
      invariant forall i :: 0 <= i < |tiov| ==> |tiov[i]| <= now
      decreases |pieces| - pv, nleft
    {
      var nnow := Min(nleft, |pieces[pv]| - pvoff);
      LeftStep(pieces, pv, pvoff, nnow);
      GatherPiece(l, tiov, now - nleft, Left(pieces, pv, pvoff), nnow);
      tiov := tiov + [pieces[pv][pvoff..pvoff + nnow]];
      if pvoff + nnow == |pieces[pv]| {
        pv, pvoff := pv + 1, 0;
      } else {
        pvoff := pvoff + nnow;
      }
      nleft := nleft - nnow;
    }
    assert nleft > 0 ==> Left(pieces, pv, pvoff) == [];
  }

  // ----- the segments

  lemma ClipOfLeft(payload: seq<byte>, at: nat, now: nat, l: seq<byte>, left: seq<byte>)
    requires l == payload[Min(at, |payload|)..] && left == l[Min(now, |l|)..]
    ensures l[..Min(now, |l|)] == Clip(payload, at, now)
    ensures left == payload[Min(at + now, |payload|)..]
  {
  }

  // Round k starts 'at' bytes into the payload.
  ghost predicate Position(c: Context, k: nat, at: nat) {
    && at == Min(Start(c, k), c.paylen) && (k > 0 ==> Start(c, k - 1) < c.paylen)
  }

  lemma NextPosition(c: Context, k: nat, at: nat, now: nat)
    requires Position(c, k, at) && at < c.paylen && now == Min(c.mss, c.paylen - at)
    ensures at == Start(c, k) && now == SegmentLen(c, k)
    ensures Position(c, k + 1, at + now) && Round(c, k, at, now)
  {
    if k > 0 { assert Start(c, k) == Start(c, k - 1) + c.mss; }
  }

  lemma SegmentDone(c: Context, h0: seq<byte>, payload: seq<byte>, k: nat, at: nat, now: nat,
                    h: seq<byte>, frame: seq<byte>)
    requires Inside(c, |h0|) && FrameOk(c, h0, payload, k, at, now, h, frame)
    requires Position(c, k, at) && at < c.paylen && now == Min(c.mss, c.paylen - at)
    ensures SegmentOk(c, h0, payload, k, frame)
  {
    NextPosition(c, k, at, now);
    assert frame[..|h0|] == h;
  }

  ghost predicate AllOk(c: Context, h0: seq<byte>, payload: seq<byte>, out: seq<seq<byte>>)
    requires Inside(c, |h0|)
  {
    forall k :: 0 <= k < |out| ==> SegmentOk(c, h0, payload, k, out[k])
  }

  lemma AllOkSnoc(c: Context, h0: seq<byte>, payload: seq<byte>, out: seq<seq<byte>>, frame: seq<byte>)
    requires Inside(c, |h0|) && AllOk(c, h0, payload, out) && SegmentOk(c, h0, payload, |out|, frame)
    ensures AllOk(c, h0, payload, out + [frame])
  {
  }

  // Before round k: the header, the payload still left, and the segments sent.
  ghost predicate Underway(c: Context, h0: seq<byte>, h: seq<byte>, pieces: seq<seq<byte>>,
                           pv: nat, pvoff: nat, at: nat, out: seq<seq<byte>>) {
    && Inside(c, |h0|) && |h| == |h0|
    && Position(c, |out|, at) && Before(c, h0, h, |out|) && AllOk(c, h0, Flatten(pieces), out)
    && At(pieces, pv, pvoff) && Left(pieces, pv, pvoff) == Flatten(pieces)[Min(at, |Flatten(pieces)|)..]
  }

  // The pieces of one segment, and the round it is.
  method OnePiece(c: Context, ghost h0: seq<byte>, ghost h: seq<byte>, pieces: seq<seq<byte>>, pv: nat, pvoff: nat,
                  at: nat, now: nat, ghost out: seq<seq<byte>>) returns (tiov: seq<seq<byte>>, pv': nat, pvoff': nat)
    requires Underway(c, h0, h, pieces, pv, pvoff, at, out) && at < c.paylen && now == Min(c.mss, c.paylen - at)
    ensures At(pieces, pv', pvoff')
    ensures Left(pieces, pv', pvoff') == Flatten(pieces)[Min(at + now, |Flatten(pieces)|)..]
    ensures Flatten(tiov) == Clip(Flatten(pieces), at, now)
    ensures |tiov| <= |pieces| && forall i :: 0 <= i < |tiov| ==> |tiov[i]| <= now
  {
    ghost var l := Left(pieces, pv, pvoff);
    tiov, pv', pvoff' := NextPayload(pieces, pv, pvoff, now);
    ClipOfLeft(Flatten(pieces), at, now, l, Left(pieces, pv', pvoff'));
  }

  lemma SegmentAdded(c: Context, h0: seq<byte>, h: seq<byte>, h': seq<byte>, pieces: seq<seq<byte>>,
                     pv: nat, pvoff: nat, pv': nat, pvoff': nat, at: nat, now: nat,
                     out: seq<seq<byte>>, frame: seq<byte>)
    requires Underway(c, h0, h, pieces, pv, pvoff, at, out) && at < c.paylen && now == Min(c.mss, c.paylen - at)
    requires At(pieces, pv', pvoff')
    requires Left(pieces, pv', pvoff') == Flatten(pieces)[Min(at + now, |Flatten(pieces)|)..]
    requires FrameOk(c, h0, Flatten(pieces), |out|, at, now, h', frame) && Before(c, h0, h', |out| + 1)
    ensures Underway(c, h0, h', pieces, pv', pvoff', at + now, out + [frame])
  {
    NextPosition(c, |out|, at, now);
    SegmentDone(c, h0, Flatten(pieces), |out|, at, now, h', frame);
    AllOkSnoc(c, h0, Flatten(pieces), out, frame);
  }

  // One round: the pieces of a segment, its header, and the frame they make.
  method EmitSegment(c: Context, hdr: array<byte>, ghost h0: seq<byte>, v: Saved, pieces: seq<seq<byte>>,
                     pv: nat, pvoff: nat, k: nat, at: nat, ghost out: seq<seq<byte>>)
    returns (frame: seq<byte>, pv': nat, pvoff': nat, now: nat)
    requires Inside(c, hdr.Length) && |pieces| <= MAX_TXSEGS && k == |out| && at < c.paylen
    requires Underway(c, h0, hdr[..], pieces, pv, pvoff, at, out) && v == Read(c, h0)
    modifies hdr
    ensures now == Min(c.mss, c.paylen - at)
    ensures Underway(c, h0, hdr[..], pieces, pv', pvoff', at + now, out + [frame])
  {
    now := Min(c.paylen - at, c.mss);
    ghost var h := hdr[..];
    NextPosition(c, k, at, now);
    var tiov;
    tiov, pv', pvoff' := OnePiece(c, h0, h, pieces, pv, pvoff, at, now, out);
    assert 1 + |tiov| <= MAX_TXSEGS + 2;
    var f := RoundFields(c, hdr[..], v, k, at, now);
    RewriteHeader(c, hdr, f, tiov, v.ipcs, RoundTcpSum(c, hdr.Length, v, now));
    RoundFrame(c, h0, h, v, Flatten(pieces), k, at, now, f, hdr[..]);
    frame := hdr[..] + Flatten(tiov);
    SegmentAdded(c, h0, h, hdr[..], pieces, pv, pvoff, pv', pvoff', at, now, out, frame);
  }

  lemma FirstUnderway(c: Context, h0: seq<byte>, pieces: seq<seq<byte>>)
    requires Inside(c, |h0|)
    ensures Underway(c, h0, h0, pieces, 0, 0, 0, [])
  {
    RestIsFlat(pieces, 0);
    assert pieces[0..] == pieces;
  }

  lemma LastUnderway(c: Context, h0: seq<byte>, h: seq<byte>, pieces: seq<seq<byte>>, pv: nat, pvoff: nat,
                     out: seq<seq<byte>>)
    requires Underway(c, h0, h, pieces, pv, pvoff, c.paylen, out)
    ensures IsCount(c, |out|) && AllOk(c, h0, Flatten(pieces), out)
  {
  }

  /** Segments are an exact partition of the payload, each behind a right header and
      with checksums that verify. */
  method Segments(c: Context, hdr: array<byte>, pieces: seq<seq<byte>>) returns (out: seq<seq<byte>>)
    requires Inside(c, hdr.Length) && c.mss > 0 && |pieces| <= MAX_TXSEGS
    modifies hdr
    ensures IsCount(c, |out|) && AllOk(c, old(hdr[..]), Flatten(pieces), out)
  {
    ghost var h0 := hdr[..];
    var v := Read(c, hdr[..]);
    var seg, left, pv, pvoff := 0, c.paylen, 0, 0;
    out := [];
    FirstUnderway(c, h0, pieces);
    var at := 0;
    while left > 0
      invariant 0 <= left <= c.paylen && at == c.paylen - left && |out| == seg
      invariant Underway(c, h0, hdr[..], pieces, pv, pvoff, at, out)
    {
      var frame, now;
      frame, pv, pvoff, now := EmitSegment(c, hdr, h0, v, pieces, pv, pvoff, seg, at, out);
      out := out + [frame];
      at := at + now;
      seg, left := seg + 1, left - now;
    }
    LastUnderway(c, h0, hdr[..], pieces, pv, pvoff, out);
  }

  // ----- what the segments amount to

  // The payload parts of the frames, in order.
  function Bodies(out: seq<seq<byte>>, hdrlen: nat): seq<byte>
    requires forall k :: 0 <= k < |out| ==> hdrlen <= |out[k]|
  {
    if out == [] then [] else Bodies(out[..|out| - 1], hdrlen) + out[|out| - 1][hdrlen..]
  }

  lemma BodyIs(c: Context, h0: seq<byte>, payload: seq<byte>, k: nat, frame: seq<byte>)
    requires Inside(c, |h0|) && SegmentOk(c, h0, payload, k, frame)
    ensures |h0| <= |frame| && Start(c, k) < c.paylen
    ensures frame[|h0|..] == Clip(payload, Start(c, k), SegmentLen(c, k))
  {
  }

  lemma AddBody(c: Context, h0: seq<byte>, payload: seq<byte>, k: nat, frame: seq<byte>, before: seq<byte>)
    requires Inside(c, |h0|) && SegmentOk(c, h0, payload, k, frame)
    requires before == Clip(payload, 0, Min(Start(c, k), c.paylen))
    ensures |h0| <= |frame| && before + frame[|h0|..] == Clip(payload, 0, Min(Start(c, k + 1), c.paylen))
  {
    BodyIs(c, h0, payload, k, frame);
    ClipsJoin(payload, Start(c, k), SegmentLen(c, k));
  }

  lemma {:induction false} BodiesArePrefix(c: Context, h0: seq<byte>, payload: seq<byte>, out: seq<seq<byte>>)
    requires Inside(c, |h0|) && AllOk(c, h0, payload, out)
    ensures forall k :: 0 <= k < |out| ==> |h0| <= |out[k]|
    ensures Bodies(out, |h0|) == Clip(payload, 0, Min(Start(c, |out|), c.paylen))
  {
    if out != [] {
      var n := |out| - 1;
      BodiesArePrefix(c, h0, payload, out[..n]);
      AddBody(c, h0, payload, n, out[n], Bodies(out[..n], |h0|));
    }
  }

  lemma ClipsJoin(bs: seq<byte>, at: nat, now: nat)
    ensures Clip(bs, 0, at) + Clip(bs, at, now) == Clip(bs, 0, at + now)
  {
  }

  /** Nothing of the payload is lost, repeated or reordered: the segments' bodies, one
      after the other, are its first paylen bytes. */
  lemma ExactPartition(c: Context, h0: seq<byte>, payload: seq<byte>, out: seq<seq<byte>>)
    requires Inside(c, |h0|) && AllOk(c, h0, payload, out) && IsCount(c, |out|)
    ensures forall k :: 0 <= k < |out| ==> |h0| <= |out[k]|
    ensures Bodies(out, |h0|) == Clip(payload, 0, c.paylen)
  {
    BodiesArePrefix(c, h0, payload, out);
  }

  // The header shows these numbers: length, identification (version 4 only) and sequence number.
  ghost predicate Numbers(c: Context, h: seq<byte>, len: nat, id: nat, number: nat)
    requires Inside(c, |h|)
  {
    && Get32(h, c.tcp.start + 4) == number
    && (if c.ipv4 then Get16(h, c.ip.start + 2) == len && Get16(h, c.ip.start + 4) == id
        else Get16(h, c.ip.start + 4) == len)
  }

  // The length of the IP packet that carries 'now' bytes, without a version 6 header.
  function IpLen(c: Context, hdrlen: nat, now: nat): nat {
    (hdrlen - c.ip.start - (if c.ipv4 then 0 else 40) + now) % 0x1_0000
  }

  lemma FieldsForIs(c: Context, hdrlen: nat, v: Saved, k: nat, at: nat, now: nat, flags: byte)
    ensures var f := FieldsFor(c, hdrlen, v, k, at, now, flags);
            && f.len == Be16(IpLen(c, hdrlen, now)) && f.id == Be16((v.ipid + k) % 0x1_0000)
            && f.number == Be32((v.tcpseq + at) % M32)
  {
  }

  lemma ShowsNumbers(c: Context, h0: seq<byte>, h: seq<byte>, f: Fields, len: nat, id: nat, number: nat)
    requires Shows(c, h0, h, f) && len <= M16 && id <= M16 && number < M32
    requires f.len == Be16(len) && f.id == Be16(id) && f.number == Be32(number)
    ensures Numbers(c, h, len, id, number)
  {
    FieldsRead(c, h0, h, f, len, id, number);
  }

  lemma HeaderNumbers(c: Context, h0: seq<byte>, h: seq<byte>, k: nat, at: nat, now: nat)
    requires Inside(c, |h0|) && |h| == |h0| && HeaderFields(c, h0, h, k, at, now)
    ensures Numbers(c, h, IpLen(c, |h0|, now), (Get16(h0, c.ip.start + 4) + k) % 0x1_0000,
                    (Get32(h0, c.tcp.start + 4) + at) % M32)
  {
    var v, flags := Read(c, h0), FlagsFor(c, h0[c.tcp.start + 13]);
    FieldsForIs(c, |h0|, v, k, at, now, flags);
    ShowsNumbers(c, h0, h, FieldsFor(c, |h0|, v, k, at, now, flags), IpLen(c, |h0|, now),
                 (v.ipid + k) % 0x1_0000, (v.tcpseq + at) % M32);
  }

  /** In numbers: segment k carries the payload from k times the segment size on, and its
      header counts on from the driver's. */
  lemma SegmentNumbers(c: Context, h0: seq<byte>, payload: seq<byte>, out: seq<seq<byte>>, k: nat)
    requires Inside(c, |h0|) && AllOk(c, h0, payload, out) && k < |out|
    ensures k * c.mss < c.paylen && |h0| <= |out[k]|
    ensures var now := Min(c.mss, c.paylen - k * c.mss);
            && out[k][|h0|..] == Clip(payload, k * c.mss, now)
            && (Ordered(c) ==> Numbers(c, out[k][..|h0|], IpLen(c, |h0|, now),
                                       (Get16(h0, c.ip.start + 4) + k) % 0x1_0000,
                                       (Get32(h0, c.tcp.start + 4) + k * c.mss) % M32))
  {
    StartIs(c, k);
    BodyIs(c, h0, payload, k, out[k]);
    if Ordered(c) { HeaderNumbers(c, h0, out[k][..|h0|], k, Start(c, k), SegmentLen(c, k)); }
  }

  // The payload still left after some rounds of the loop.
  function LeftAfter(mss: nat, paylen: nat, rounds: nat): nat {
    if rounds == 0 then paylen
    else var left := LeftAfter(mss, paylen, rounds - 1); left - Min(left, mss)
  }

  lemma {:induction false} RoundsTake(mss: nat, paylen: nat, rounds: nat)
    ensures LeftAfter(mss, paylen, rounds) == paylen - Min(paylen, rounds * mss)
  {
    if rounds > 0 {
      RoundsTake(mss, paylen, rounds - 1);
      assert rounds * mss == (rounds - 1) * mss + mss;
    }
  }

  lemma {:induction false} NothingTaken(paylen: nat, rounds: nat)
    ensures LeftAfter(0, paylen, rounds) == paylen
  {
    if rounds > 0 { NothingTaken(paylen, rounds - 1); }
  }

  lemma TimesAtLeast(n: nat, k: nat)
    requires k > 0
    ensures n * k >= n
  {
    assert n * k == n + n * (k - 1);
  }

  /** The loop ends exactly when the segment size is positive or there is no payload. */
  lemma EndsIff(mss: nat, paylen: nat)
    ensures (exists n: nat :: LeftAfter(mss, paylen, n) == 0) <==> mss > 0 || paylen == 0
  {
    if mss > 0 {
      RoundsTake(mss, paylen, paylen);
      TimesAtLeast(paylen, mss);
      assert LeftAfter(mss, paylen, paylen) == 0;
    } else {
      forall n: nat ensures LeftAfter(mss, paylen, n) == paylen { NothingTaken(paylen, n); }
      assert LeftAfter(mss, paylen, 0) == paylen;
    }
  }
}
