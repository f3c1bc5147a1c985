/**
 Header extraction, VLAN insertion and the packets that are not segmented
 (bhyve/pci_e82545.c, e82545_transmit): the first bytes of a scattered frame are copied
 to a writable buffer and put in front of what is left of the pieces.
 */
module TxHeader {
  import opened Bytes
  import opened Sequences
  import opened Checksum
  import opened PacketChecksum

  const ADDRS: nat := 12
  const TAG: nat := 4

  function Max(a: nat, b: nat): nat { if a < b then b else a }

  // ----- the writable space

  // What the VLAN tag and the checksum fields need.
  function Need(vlan: bool, ip: Ck, tcp: Ck): nat {
    var n0 := if vlan then ADDRS else 0;
    var n1 := if ip.valid then Max(n0, ip.off + 2) else n0;
    if tcp.valid then Max(n1, tcp.off + 2) else n1
  }

  // Rounded up to the first piece if that is close.
  function Rounded(need: nat, first: nat): nat {
    if need != 0 && need < first < need + 100 then first else need
  }

  /** The writable header covers everything that is written, and fits in the frame
      exactly when the need does. */
  lemma RoundedCovers(vlan: bool, ip: Ck, tcp: Ck, first: nat, total: nat)
    requires first <= total
    ensures var need := Need(vlan, ip, tcp); var n := Rounded(need, first);
            && (vlan ==> ADDRS <= n) && (ip.valid ==> ip.off + 2 <= n) && (tcp.valid ==> tcp.off + 2 <= n)
            && (n == 0 <==> !vlan && !ip.valid && !tcp.valid)
            && (n <= total <==> need <= total) && n <= need + 100
  {
  }

  // ----- extraction

  // The pieces once n bytes have been taken off their front.
  function Without(ps: seq<seq<byte>>, n: nat): seq<seq<byte>> {
    if n == 0 || ps == [] then ps
    else if |ps[0]| <= n then Without(ps[1..], n - |ps[0]|)
    else [ps[0][n..]] + ps[1..]
  }

  lemma {:induction false} WithoutFlatten(ps: seq<seq<byte>>, n: nat)
    requires n <= |Flatten(ps)|
    ensures Flatten(Without(ps, n)) == Flatten(ps)[n..] && |Without(ps, n)| <= |ps|
  {
    if n > 0 && ps != [] {
      if |ps[0]| <= n {
        WithoutFlatten(ps[1..], n - |ps[0]|);
      } else {
        FlattenFirst(ps[0][n..], ps[1..]);
      }
    }
  }

  lemma {:induction false} WithoutNameable(ps: seq<seq<byte>>, n: nat, max: nat)
    requires forall j :: 0 <= j < |ps| ==> |ps[j]| <= max
    ensures forall j :: 0 <= j < |Without(ps, n)| ==> |Without(ps, n)[j]| <= max
  {
    if n > 0 && ps != [] && |ps[0]| <= n { WithoutNameable(ps[1..], n - |ps[0]|, max); }
  }

  // One turn of the source's loop: 'now' bytes of the first piece, and the piece if that empties it.
  function Advanced(ps: seq<seq<byte>>, now: nat): seq<seq<byte>>
    requires ps != [] && now <= |ps[0]|
  {
    if now == |ps[0]| then ps[1..] else [ps[0][now..]] + ps[1..]
  }

  lemma WithoutTurn(ps: seq<seq<byte>>, left: nat)
    requires ps != [] && left > 0
    ensures var now := Min(left, |ps[0]|);
            now <= left && Without(ps, left) == Without(Advanced(ps, now), left - now)
  {
  }

  lemma AdvancedFlatten(ps: seq<seq<byte>>, now: nat)
    requires ps != [] && now <= |ps[0]|
    ensures now <= |Flatten(ps)| && ps[0][..now] == Flatten(ps)[..now]
    ensures Flatten(Advanced(ps, now)) == Flatten(ps)[now..]
  {
    FlattenFirst(ps[0][now..], ps[1..]);
  }

  // iovb[i..i + n] are the pieces ps.
  ghost predicate Pieces(iovb: array<seq<byte>>, i: nat, n: nat, ps: seq<seq<byte>>)
    reads iovb
  {
    i + n <= iovb.Length && iovb[i..i + n] == ps
  }

  // 'left' bytes of the header are still to be copied.
  ghost predicate Copied(hdr: seq<byte>, vlen: nat, hdrlen: nat, left: nat, f: seq<byte>, rest: seq<byte>) {
    && left <= hdrlen <= |f| && |hdr| == vlen + hdrlen
    && hdr[vlen..vlen + hdrlen - left] == f[..hdrlen - left] && rest == f[hdrlen - left..]
  }

  lemma CopyStep(hdr: seq<byte>, hdr': seq<byte>, vlen: nat, hdrlen: nat, left: nat, now: nat,
                 f: seq<byte>, rest: seq<byte>)
    requires Copied(hdr, vlen, hdrlen, left, f, rest) && now <= left
    requires |hdr'| == |hdr| && hdr'[..vlen + hdrlen - left] == hdr[..vlen + hdrlen - left]
    requires hdr'[vlen + hdrlen - left..vlen + hdrlen - left + now] == rest[..now]
    ensures Copied(hdr', vlen, hdrlen, left - now, f, rest[now..])
  {
    var at := hdrlen - left;
    SlicesJoin(hdr', vlen, vlen + at, vlen + at + now);
    SlicesJoin(f, 0, at, at + now);
    assert hdr'[vlen..vlen + at] == hdr'[..vlen + at][vlen..] == hdr[..vlen + at][vlen..] == hdr[vlen..vlen + at];
    assert rest[..now] == f[at..at + now];
  }

  method CopyInto(hdr: array<byte>, at: nat, bs: seq<byte>)
    requires at + |bs| <= hdr.Length
    modifies hdr
    ensures hdr[..at] == old(hdr[..at]) && hdr[at..at + |bs|] == bs
  {
    var i := 0;
    while i < |bs|
      invariant i <= |bs|
      invariant hdr[..at] == old(hdr[..at]) && hdr[at..at + i] == bs[..i]
    {
      hdr[at + i] := bs[i];
      i := i + 1;
    }
  }

  // Takes n bytes off the first piece, and the piece away if that empties it.
  method Advance(iovb: array<seq<byte>>, i: nat, n: nat, now: nat, ghost ps: seq<seq<byte>>) returns (i': nat, n': nat)
    requires n > 0 && Pieces(iovb, i, n, ps) && now <= |iovb[i]|
    modifies iovb
    ensures Pieces(iovb, i', n', Advanced(ps, now)) && i' + n' == i + n && i <= i' && n' <= n
    ensures n' < n || now < |ps[0]|
  {
    assert ps == [iovb[i]] + ps[1..] && iovb[i + 1..i + n] == ps[1..];
    iovb[i] := iovb[i][now..];
    assert iovb[i + 1..i + n] == ps[1..] && iovb[i..i + n] == [iovb[i]] + iovb[i + 1..i + n];
    if iovb[i] == [] {
      i', n' := i + 1, n - 1;
    } else {
      i', n' := i, n;
    }
  }

  // Copies from the first piece.
  method TakeSome(iovb: array<seq<byte>>, i: nat, n: nat, hdr: array<byte>, vlen: nat, hdrlen: nat, left: nat,
                  ghost f: seq<byte>, ghost ps: seq<seq<byte>>) returns (i': nat, n': nat, now: nat)
    requires Pieces(iovb, i, n, ps) && ps != [] && left > 0
    requires Copied(hdr[..], vlen, hdrlen, left, f, Flatten(ps))
    modifies iovb, hdr
    ensures now == Min(left, |ps[0]|) && i' + n' == i + n && i <= i' && n' <= n && (n' < n || now == left)
    ensures Pieces(iovb, i', n', Advanced(ps, now))
    ensures Copied(hdr[..], vlen, hdrlen, left - now, f, Flatten(Advanced(ps, now)))
  {
    assert iovb[i] == ps[0];
    now := Min(left, |iovb[i]|);
    AdvancedFlatten(ps, now);
    ghost var before := hdr[..];
    CopyInto(hdr, vlen + hdrlen - left, iovb[i][..now]);
    ghost var after := hdr[..];
    i', n' := Advance(iovb, i, n, now, ps);
    assert hdr[..] == after;
    CopyStep(before, after, vlen, hdrlen, left, now, f, Flatten(ps));
  }

  // Puts the header in the slot before the pieces.
  method PutHeader(iovb: array<seq<byte>>, i: nat, n: nat, h: seq<byte>, ghost ps: seq<seq<byte>>)
    requires 0 < i && Pieces(iovb, i, n, ps)
    modifies iovb
    ensures Pieces(iovb, i - 1, n + 1, [h] + ps)
  {
    iovb[i - 1] := h;
    assert iovb[i..i + n] == ps;
    assert iovb[i - 1..i + n] == [h] + iovb[i..i + n];
  }

  // The first bytes go to the header, which takes their place.
  method TakeHeader(iovb: array<seq<byte>>, first: nat, cnt: nat, hdr: array<byte>, vlen: nat, hdrlen: nat,
                    ghost ps: seq<seq<byte>>) returns (iov: nat, iovcnt: nat)
    requires first >= 1 && Pieces(iovb, first, cnt, ps)
    requires hdr.Length == vlen + hdrlen && 0 < hdrlen <= |Flatten(ps)|
    modifies iovb, hdr
    ensures 0 < iovcnt <= cnt + 1 && iov + iovcnt == first + cnt && hdr[vlen..] == Flatten(ps)[..hdrlen]
    ensures Pieces(iovb, iov, iovcnt, [hdr[vlen..]] + Without(ps, hdrlen))
    ensures Pieces(iovb, iov + 1, iovcnt - 1, Without(ps, hdrlen))
  {
    iov, iovcnt := first, cnt;
    var left := hdrlen;
    ghost var f, rest := Flatten(ps), ps;
    while left > 0
      invariant 0 <= left <= hdrlen && first <= iov && iov + iovcnt == first + cnt
      invariant Pieces(iovb, iov, iovcnt, rest) && Without(rest, left) == Without(ps, hdrlen)
      invariant Copied(hdr[..], vlen, hdrlen, left, f, Flatten(rest))
      decreases iovcnt, left
    {
      WithoutTurn(rest, left);
      var now;
      iov, iovcnt, now := TakeSome(iovb, iov, iovcnt, hdr, vlen, hdrlen, left, f, rest);
      rest := Advanced(rest, now);
      left := left - now;
    }
    assert hdr[vlen..] == hdr[..][vlen..vlen + hdrlen] && f[..hdrlen - left] == f[..hdrlen];
    PutHeader(iovb, iov, iovcnt, hdr[vlen..], rest);
    assert iovb[iov..iov + iovcnt] == iovb[iov - 1..iov + iovcnt][1..];
    iov, iovcnt := iov - 1, iovcnt + 1;
  }

  // ----- the VLAN tag

  function Tagged(f: seq<byte>, tag: seq<byte>): seq<byte>
    requires |f| >= ADDRS
  {
    f[..ADDRS] + tag + f[ADDRS..]
  }

  // uint8_t and uint16_t fields.
  function Moved(ck: Ck): Ck {
    Ck(ck.valid, (ck.start + TAG) % 256, (ck.off + TAG) % 256, if ck.end == 0 then 0 else (ck.end + TAG) % 0x1_0000)
  }

  // Where a byte of the frame is once the tag is in.
  function Place(i: nat): nat { if i < ADDRS then i else i + TAG }

  lemma TaggedPlace(f: seq<byte>, tag: seq<byte>, i: nat)
    requires ADDRS <= |f| && |tag| == TAG && i < |f|
    ensures Tagged(f, tag)[Place(i)] == f[i]
  {
  }

  /** The corrected offsets designate the same bytes exactly when they lie behind the
      addresses and do not wrap. */
  lemma MovedIff(ck: Ck)
    requires ck.start < 256 && ck.off < 256 && ck.end < 0x1_0000
    ensures Moved(ck).off == Place(ck.off) <==> ADDRS <= ck.off < 252
    ensures Moved(ck).start == Place(ck.start) <==> ADDRS <= ck.start < 252
    ensures Moved(ck).end == (if ck.end == 0 then 0 else Place(ck.end)) <==> ck.end == 0 || ADDRS <= ck.end < 65532
  {
  }

  lemma MovedLen(ck: Ck)
    requires ADDRS <= ck.start < 252 && (ck.end == 0 || ck.start <= ck.end + 1 <= 65532)
    ensures Moved(ck).start == ck.start + TAG && CkLen(Moved(ck)) == CkLen(ck)
  {
  }

  /** A range that ends behind its start covers the same bytes after the correction. */
  lemma MovedRange(f: seq<byte>, tag: seq<byte>, ck: Ck)
    requires ADDRS <= ck.start < 252 && (ck.end == 0 || ck.start <= ck.end + 1 <= 65532)
    requires ADDRS <= |f| && |tag| == TAG
    ensures CkRange(Tagged(f, tag), Moved(ck)) == CkRange(f, ck)
  {
    var len := CkLen(ck);
    MovedLen(ck);
    ClipSkip(f[..ADDRS] + tag, f[ADDRS..], ck.start + TAG, len);
    ClipSkip(f[..ADDRS], f[ADDRS..], ck.start, len);
    assert f == f[..ADDRS] + f[ADDRS..];
  }

  // memmove of the addresses, then the tag.
  method InsertTag(hdr: array<byte>, tag: seq<byte>)
    requires hdr.Length >= ADDRS + TAG && |tag| == TAG
    modifies hdr
    ensures hdr[..] == Tagged(old(hdr[TAG..]), tag)
  {
    forall i | 0 <= i < ADDRS { hdr[i] := hdr[i + TAG]; }
    hdr[12], hdr[13], hdr[14], hdr[15] := tag[0], tag[1], tag[2], tag[3];
  }

  // ----- packets that are not segmented

  function StoredIf(f: seq<byte>, ck: Ck): (r: seq<byte>)
    requires ck.valid ==> ck.off + 2 <= |f|
    ensures |r| == |f|
  {
    if ck.valid then Stored(f, [], ck) else f
  }

  // What is sent for frame f, however it was scattered.
  function Sent(f: seq<byte>, vlan: bool, tag: seq<byte>, ip: Ck, tcp: Ck): seq<byte>
    requires Need(vlan, ip, tcp) <= |f| && |tag| == TAG
  {
    if vlan then StoredIf(StoredIf(Tagged(f, tag), Moved(ip)), Moved(tcp))
    else StoredIf(StoredIf(f, ip), tcp)
  }

  // A checksum stored in the header is stored in the frame.
  lemma StoredInFront(h: seq<byte>, rest: seq<byte>, ck: Ck)
    requires ck.off + 2 <= |h|
    ensures Stored(h, rest, ck) + rest == Stored(h + rest, [], ck)
  {
    assert (h + rest) + [] == h + rest;
    OnesSumIsFold(CkRange(h + rest, ck));
    PutInFront(h, rest, ck.off, M16 - OnesSum(CkRange(h + rest, ck)));
  }

  // The header with the code's sum stored, if it is asked for.
  function BySumIf(h: seq<byte>, rest: seq<seq<byte>>, ck: Ck): (r: seq<byte>)
    requires ck.valid ==> ck.off + 2 <= |h|
    ensures |r| == |h|
  {
    if ck.valid then BySum(h, rest, ck) else h
  }

  ghost predicate FitsIf(n: nat, rest: seq<seq<byte>>, ck: Ck) { ck.valid ==> RestFits(n, rest, ck) }

  lemma OneStored(h: seq<byte>, rest: seq<seq<byte>>, ck: Ck)
    requires (ck.valid ==> ck.off + 2 <= |h|) && |h| <= 131074 && |rest| < 256 && FitsIf(|h|, rest, ck)
    ensures BySumIf(h, rest, ck) + Flatten(rest) == StoredIf(h + Flatten(rest), ck)
  {
    if ck.valid {
      BySumRight(h, rest, ck);
      StoredInFront(h, Flatten(rest), ck);
    }
  }

  // Both, right if the shares of both ranges fit.
  lemma BothStored(h: seq<byte>, rest: seq<seq<byte>>, ip: Ck, tcp: Ck)
    requires (ip.valid ==> ip.off + 2 <= |h|) && (tcp.valid ==> tcp.off + 2 <= |h|) && |h| <= 131074 && |rest| < 256
    requires FitsIf(|h|, rest, ip) && FitsIf(|h|, rest, tcp)
    ensures BySumIf(BySumIf(h, rest, ip), rest, tcp) + Flatten(rest) == StoredIf(StoredIf(h + Flatten(rest), ip), tcp)
  {
    OneStored(h, rest, ip);
    OneStored(BySumIf(h, rest, ip), rest, tcp);
  }

  method Checksums(hdr: array<byte>, rest: seq<seq<byte>>, ip: Ck, tcp: Ck)
    requires (ip.valid ==> ip.off + 2 <= hdr.Length) && (tcp.valid ==> tcp.off + 2 <= hdr.Length)
    modifies hdr
    ensures hdr[..] == BySumIf(BySumIf(old(hdr[..]), rest, ip), rest, tcp)
  {
    if ip.valid { TransmitChecksum(hdr, rest, ip); }
    if tcp.valid { TransmitChecksum(hdr, rest, tcp); }
  }

  lemma TaggedInFront(h: seq<byte>, rest: seq<byte>, tag: seq<byte>)
    requires ADDRS <= |h|
    ensures Tagged(h, tag) + rest == Tagged(h + rest, tag)
  {
  }

  // The offsets that count in the frame that is sent.
  function Final(vlan: bool, ck: Ck): Ck { if vlan then Moved(ck) else ck }

  // The header h sent, tagged and with the code's sums.
  function HeaderSent(h: seq<byte>, rest: seq<seq<byte>>, vlan: bool, tag: seq<byte>, ip: Ck, tcp: Ck): seq<byte>
    requires Need(vlan, ip, tcp) <= |h| && |tag| == TAG
  {
    var t := if vlan then Tagged(h, tag) else h;
    BySumIf(BySumIf(t, rest, Final(vlan, ip)), rest, Final(vlan, tcp))
  }

  // The header is the last part of hdr if there is room for a tag.
  method SendHeader(hdr: array<byte>, rest: seq<seq<byte>>, vlan: bool, tag: seq<byte>, ip: Ck, tcp: Ck)
    requires |tag| == TAG && (if vlan then TAG else 0) + Need(vlan, ip, tcp) <= hdr.Length
    modifies hdr
    ensures hdr[..] == HeaderSent(old(hdr[if vlan then TAG else 0..]), rest, vlan, tag, ip, tcp)
  {
    if vlan {
      InsertTag(hdr, tag);
    } else {
      assert hdr[0..] == hdr[..];
    }
    Checksums(hdr, rest, if vlan then Moved(ip) else ip, if vlan then Moved(tcp) else tcp);
  }

  // The shares of both checksums' ranges fit, behind the header that is taken off the pieces.
  ghost predicate SumsFit(ps: seq<seq<byte>>, vlan: bool, ip: Ck, tcp: Ck) {
    var need := Need(vlan, ip, tcp);
    ps == [] || need == 0 ||
    (var n := Rounded(need, |ps[0]|);
     && FitsIf(if vlan then n + TAG else n, Without(ps, n), Final(vlan, ip))
     && FitsIf(if vlan then n + TAG else n, Without(ps, n), Final(vlan, tcp)))
  }

  // The two fields do not overlap.
  predicate Separate(ip: Ck, tcp: Ck) {
    ip.valid && tcp.valid ==> ip.off + 2 <= tcp.off || tcp.off + 2 <= ip.off
  }

  lemma BySumElsewhere(h: seq<byte>, rest: seq<seq<byte>>, ck: Ck, at: nat)
    requires (ck.valid ==> ck.off + 2 <= |h|) && at + 2 <= |h| && (ck.valid ==> at + 2 <= ck.off || ck.off + 2 <= at)
    ensures Get16(BySumIf(h, rest, ck), at) == Get16(h, at)
  {
  }

  lemma StoredElsewhere(f: seq<byte>, ck: Ck, at: nat)
    requires (ck.valid ==> ck.off + 2 <= |f|) && at + 2 <= |f| && (ck.valid ==> at + 2 <= ck.off || ck.off + 2 <= at)
    ensures Get16(StoredIf(f, ck), at) == Get16(f, at)
  {
  }

  lemma OneWrong(h: seq<byte>, rest: seq<seq<byte>>, ck: Ck)
    requires ck.valid && ck.off + 2 <= |h| <= 131074 && |rest| <= MAX_TXSEGS && Nameable(rest)
    requires !RestFits(|h|, rest, ck)
    ensures Get16(BySumIf(h, rest, ck), ck.off) != Get16(StoredIf(h + Flatten(rest), ck), ck.off)
  {
    BySumWrong(h, rest, ck);
    StoredInFront(h, Flatten(rest), ck);
    InFront(Stored(h, Flatten(rest), ck), Flatten(rest), ck.off);
  }

  lemma InFront(h: seq<byte>, rest: seq<byte>, at: nat)
    requires at + 2 <= |h|
    ensures Get16(h + rest, at) == Get16(h, at)
  {
  }

  // A share that does not fit shows in its field.
  lemma BothWrong(h: seq<byte>, rest: seq<seq<byte>>, ip: Ck, tcp: Ck)
    requires (ip.valid ==> ip.off + 2 <= |h|) && (tcp.valid ==> tcp.off + 2 <= |h|) && |h| <= 131074
    requires |rest| <= MAX_TXSEGS && Nameable(rest) && Separate(ip, tcp)
    requires !FitsIf(|h|, rest, ip) || !FitsIf(|h|, rest, tcp)
    ensures BySumIf(BySumIf(h, rest, ip), rest, tcp) + Flatten(rest) != StoredIf(StoredIf(h + Flatten(rest), ip), tcp)
  {
    var g, g' := BySumIf(h, rest, ip), StoredIf(h + Flatten(rest), ip);
    var e, e' := BySumIf(g, rest, tcp), StoredIf(g', tcp);
    if !FitsIf(|h|, rest, ip) {
      OneWrong(h, rest, ip);
      BySumElsewhere(g, rest, tcp, ip.off);
      StoredElsewhere(g', tcp, ip.off);
      InFront(e, Flatten(rest), ip.off);
    } else {
      OneStored(h, rest, ip);
      OneWrong(g, rest, tcp);
      InFront(e, Flatten(rest), tcp.off);
    }
  }

  lemma BothStoredIff(h: seq<byte>, rest: seq<seq<byte>>, ip: Ck, tcp: Ck)
    requires (ip.valid ==> ip.off + 2 <= |h|) && (tcp.valid ==> tcp.off + 2 <= |h|) && |h| <= 131074
    requires |rest| <= MAX_TXSEGS
    ensures var sent := BySumIf(BySumIf(h, rest, ip), rest, tcp) + Flatten(rest);
            var right := StoredIf(StoredIf(h + Flatten(rest), ip), tcp);
            && (FitsIf(|h|, rest, ip) && FitsIf(|h|, rest, tcp) ==> sent == right)
            && (Nameable(rest) && Separate(ip, tcp) && sent == right ==>
                  FitsIf(|h|, rest, ip) && FitsIf(|h|, rest, tcp))
  {
    if FitsIf(|h|, rest, ip) && FitsIf(|h|, rest, tcp) {
      BothStored(h, rest, ip, tcp);
    } else if Nameable(rest) && Separate(ip, tcp) {
      BothWrong(h, rest, ip, tcp);
    }
  }

  // The header behind the tag, if there is one.
  function MaybeTagged(h: seq<byte>, vlan: bool, tag: seq<byte>): seq<byte>
    requires vlan ==> ADDRS <= |h|
  {
    if vlan then Tagged(h, tag) else h
  }

  lemma SentIs(h: seq<byte>, rest: seq<seq<byte>>, vlan: bool, tag: seq<byte>, ip: Ck, tcp: Ck, t: seq<byte>)
    requires Need(vlan, ip, tcp) <= |h| && |tag| == TAG && t == MaybeTagged(h, vlan, tag)
    ensures |t| == (if vlan then |h| + TAG else |h|)
    ensures (ip.valid ==> Final(vlan, ip).off + 2 <= |t|) && (tcp.valid ==> Final(vlan, tcp).off + 2 <= |t|)
    ensures HeaderSent(h, rest, vlan, tag, ip, tcp)
         == BySumIf(BySumIf(t, rest, Final(vlan, ip)), rest, Final(vlan, tcp))
    ensures Sent(h + Flatten(rest), vlan, tag, ip, tcp)
         == StoredIf(StoredIf(t + Flatten(rest), Final(vlan, ip)), Final(vlan, tcp))
  {
    if vlan { TaggedInFront(h, Flatten(rest), tag); }
  }

  // The header sent is right exactly when the sums fit.
  lemma HeaderSentIff(h: seq<byte>, rest: seq<seq<byte>>, vlan: bool, tag: seq<byte>, ip: Ck, tcp: Ck, n: nat)
    requires Need(vlan, ip, tcp) <= |h| <= 131000 && |tag| == TAG && |rest| <= MAX_TXSEGS
    requires n == if vlan then |h| + TAG else |h|
    ensures var fit := FitsIf(n, rest, Final(vlan, ip)) && FitsIf(n, rest, Final(vlan, tcp));
            var sent := HeaderSent(h, rest, vlan, tag, ip, tcp) + Flatten(rest);
            var right := Sent(h + Flatten(rest), vlan, tag, ip, tcp);
            && (fit ==> sent == right)
            && (Nameable(rest) && Separate(Final(vlan, ip), Final(vlan, tcp)) && sent == right ==> fit)
  {
    var t := MaybeTagged(h, vlan, tag);
    SentIs(h, rest, vlan, tag, ip, tcp, t);
    BothStoredIff(t, rest, Final(vlan, ip), Final(vlan, tcp));
  }

  lemma TakenIs(ps: seq<seq<byte>>, n: nat)
    requires n <= |Flatten(ps)|
    ensures Flatten(ps)[..n] + Flatten(Without(ps, n)) == Flatten(ps) && |Without(ps, n)| <= |ps|
    ensures Nameable(ps) ==> Nameable(Without(ps, n))
  {
    WithoutFlatten(ps, n);
    if Nameable(ps) { WithoutNameable(ps, n, 0xF_FFFF); }
  }

  // The frame is the right one if the sums fit; and only then, where the fields are apart
  // and a descriptor can name the lengths.
  ghost predicate RightIff(ps: seq<seq<byte>>, vlan: bool, tag: seq<byte>, ip: Ck, tcp: Ck, frame: seq<byte>)
    requires Need(vlan, ip, tcp) <= |Flatten(ps)| && |tag| == TAG
  {
    var right := frame == Sent(Flatten(ps), vlan, tag, ip, tcp);
    && (SumsFit(ps, vlan, ip, tcp) ==> right)
    && (Nameable(ps) && Separate(Final(vlan, ip), Final(vlan, tcp)) && right ==> SumsFit(ps, vlan, ip, tcp))
  }

  lemma PlainIff(ps: seq<seq<byte>>, vlan: bool, tag: seq<byte>, ip: Ck, tcp: Ck, n: nat,
                 h: seq<byte>, frame: seq<byte>)
    requires 0 < Need(vlan, ip, tcp) <= |Flatten(ps)| && |tag| == TAG && 0 < |ps| <= MAX_TXSEGS
    requires n == Rounded(Need(vlan, ip, tcp), |ps[0]|) && Need(vlan, ip, tcp) <= n <= |Flatten(ps)| && n <= 131000
    requires h == Flatten(ps)[..n]
    requires frame == HeaderSent(h, Without(ps, n), vlan, tag, ip, tcp) + Flatten(Without(ps, n))
    ensures RightIff(ps, vlan, tag, ip, tcp, frame)
  {
    TakenIs(ps, n);
    HeaderSentIff(h, Without(ps, n), vlan, tag, ip, tcp, if vlan then n + TAG else n);
  }

  /** A packet without segmentation goes out as the flat frame with the tag inserted and both
      checksums stored, wherever its pieces were cut, if the sums of the shares fit in 32
      bits, and only then. */
  method TransmitPlain(iovb: array<seq<byte>>, cnt: nat, vlan: bool, tag: seq<byte>, ip: Ck, tcp: Ck,
                       ghost ps: seq<seq<byte>>) returns (frame: seq<byte>)
    requires Pieces(iovb, 2, cnt, ps) && cnt <= MAX_TXSEGS && |tag| == TAG
    requires Need(vlan, ip, tcp) <= |Flatten(ps)| && ip.off < 256 && tcp.off < 256
    modifies iovb
    ensures RightIff(ps, vlan, tag, ip, tcp, frame)
  {
    var need := Need(vlan, ip, tcp);
    if need == 0 {
      return Flatten(iovb[2..2 + cnt]);
    }
    assert iovb[2] == ps[0] && |ps[0]| <= |Flatten(ps)|;
    var hdrlen := Rounded(need, |iovb[2]|);
    RoundedCovers(vlan, ip, tcp, |iovb[2]|, |Flatten(ps)|);
    var vlen := if vlan then TAG else 0;
    var hdr := new byte[vlen + hdrlen];
    var iov, iovcnt := TakeHeader(iovb, 2, cnt, hdr, vlen, hdrlen, ps);
    var rest := iovb[iov + 1..iov + iovcnt];
    assert rest == Without(ps, hdrlen);
    ghost var h := hdr[vlen..];
    SendHeader(hdr, rest, vlan, tag, ip, tcp);
    frame := hdr[..] + Flatten(rest);
    PlainIff(ps, vlan, tag, ip, tcp, hdrlen, h, frame);
  }

  /** Pieces of up to 131074 bytes always do. */
  lemma ShortSumsFit(ps: seq<seq<byte>>, vlan: bool, ip: Ck, tcp: Ck)
    requires Short(ps) && Need(vlan, ip, tcp) <= |Flatten(ps)|
    ensures SumsFit(ps, vlan, ip, tcp)
  {
    if ps != [] && Need(vlan, ip, tcp) > 0 {
      var n := Rounded(Need(vlan, ip, tcp), |ps[0]|);
      RoundedCovers(vlan, ip, tcp, |ps[0]|, |Flatten(ps)|);
      WithoutFlatten(ps, n);
      WithoutNameable(ps, n, 131074);
      ShortRestFits(if vlan then n + TAG else n, Without(ps, n), Final(vlan, ip));
      ShortRestFits(if vlan then n + TAG else n, Without(ps, n), Final(vlan, tcp));
    }
  }

  // ----- the checksums verify

  // Even places, the IP range ending before the TCP field, each field in its range.
  predicate Apart(ip: Ck, tcp: Ck) {
    && (ip.valid ==> InRange(ip))
    && (tcp.valid ==> InRange(tcp))
    && (ip.valid && tcp.valid ==> 0 < ip.end < tcp.off && ip.off + 2 <= tcp.off)
  }

  // Range and what the driver left in the field sum to 0xFFFF.
  ghost predicate Sums(frame: seq<byte>, ck: Ck, seed: nat) {
    SumsWith(CkRange(frame, ck), seed)
  }

  lemma StoredSums(f: seq<byte>, ck: Ck)
    requires ck.off + 2 <= |f| && ck.off < 65535 && InRange(ck)
    ensures Sums(Stored(f, [], ck), ck, Get16(f, ck.off))
  {
    assert f + [] == f;
    RangeComplement(f, ck, OnesSum(CkRange(f, ck)));
  }

  lemma LaterStoreKeeps(f: seq<byte>, ip: Ck, tcp: Ck, seed: nat)
    requires tcp.off + 2 <= |f| && Sums(f, ip, seed) && ip.start <= ip.end + 1 && 0 < ip.end < tcp.off
    ensures Sums(Stored(f, [], tcp), ip, seed)
  {
    ClipElsewhere(f, Stored(f, [], tcp), tcp.off, ip.start, ip.end + 1 - ip.start);
  }

  lemma BothSum(f: seq<byte>, ip: Ck, tcp: Ck)
    requires (ip.valid ==> ip.off + 2 <= |f|) && (tcp.valid ==> tcp.off + 2 <= |f|)
    requires Apart(ip, tcp) && ip.off < 65535 && tcp.off < 65535
    ensures ip.valid ==> Sums(StoredIf(StoredIf(f, ip), tcp), ip, Get16(f, ip.off))
    ensures tcp.valid ==> Sums(StoredIf(StoredIf(f, ip), tcp), tcp, Get16(f, tcp.off))
  {
    var g := StoredIf(f, ip);
    if ip.valid {
      StoredSums(f, ip);
      if tcp.valid { LaterStoreKeeps(g, ip, tcp, Get16(f, ip.off)); }
    }
    if tcp.valid { StoredSums(g, tcp); }
  }

  predicate Behind(ck: Ck) {
    ck.valid ==> ADDRS <= ck.start < 252 && ADDRS <= ck.off < 252 && ck.end < 65532
  }

  lemma TaggedField(f: seq<byte>, tag: seq<byte>, ck: Ck)
    requires ADDRS <= |f| && |tag| == TAG && ck.valid && Behind(ck) && ck.off + 2 <= |f|
    ensures Moved(ck).off + 2 <= |Tagged(f, tag)| && Get16(Tagged(f, tag), Moved(ck).off) == Get16(f, ck.off)
  {
    TaggedPlace(f, tag, ck.off);
    TaggedPlace(f, tag, ck.off + 1);
  }

  lemma MovedExact(ck: Ck)
    requires ck.valid && Behind(ck)
    ensures Moved(ck) == Ck(true, ck.start + TAG, ck.off + TAG, if ck.end == 0 then 0 else ck.end + TAG)
  {
  }

  lemma ApartMoved(ip: Ck, tcp: Ck)
    requires Apart(ip, tcp) && Behind(ip) && Behind(tcp)
    ensures Apart(Moved(ip), Moved(tcp))
  {
    if ip.valid { MovedExact(ip); }
    if tcp.valid { MovedExact(tcp); }
  }

  lemma TaggedVerifies(f: seq<byte>, tag: seq<byte>, ip: Ck, tcp: Ck)
    requires Need(true, ip, tcp) <= |f| && |tag| == TAG && Apart(ip, tcp)
    requires Behind(ip) && Behind(tcp)
    ensures ip.valid ==> Sums(Sent(f, true, tag, ip, tcp), Moved(ip), Get16(f, ip.off))
    ensures tcp.valid ==> Sums(Sent(f, true, tag, ip, tcp), Moved(tcp), Get16(f, tcp.off))
  {
    ApartMoved(ip, tcp);
    if ip.valid { TaggedField(f, tag, ip); }
    if tcp.valid { TaggedField(f, tag, tcp); }
    BothSum(Tagged(f, tag), Moved(ip), Moved(tcp));
  }

  /** Every requested checksum of the packet that is sent verifies: its range, with what
      the driver left in the field, sums to 0xFFFF. */
  lemma SentVerifies(f: seq<byte>, vlan: bool, tag: seq<byte>, ip: Ck, tcp: Ck)
    requires Need(vlan, ip, tcp) <= |f| && |tag| == TAG && Apart(ip, tcp) && ip.off < 256 && tcp.off < 256
    requires vlan ==> Behind(ip) && Behind(tcp)
    ensures ip.valid ==> Sums(Sent(f, vlan, tag, ip, tcp), Final(vlan, ip), Get16(f, ip.off))
    ensures tcp.valid ==> Sums(Sent(f, vlan, tag, ip, tcp), Final(vlan, tcp), Get16(f, tcp.off))
  {
    if vlan { TaggedVerifies(f, tag, ip, tcp); } else { BothSum(f, ip, tcp); }
  }
}
