/**
 Storing a packet's checksum into its header (bhyve/pci_e82545.c,
 e82545_transmit_checksum): the range may run past the header into scattered pieces.
 */
module PacketChecksum {
  import opened Bytes
  import opened Sequences
  import opened Checksum

  const INT_MAX: nat := 0x7FFF_FFFF

  // Where a checksum starts, is stored, and ends (inclusive; 0 is the end of the packet).
  datatype Ck = Ck(valid: bool, start: nat, off: nat, end: nat)

  function CkLen(ck: Ck): nat {
    if ck.end == 0 then INT_MAX else if ck.end + 1 >= ck.start then ck.end + 1 - ck.start else 0
  }

  function CkRange(frame: seq<byte>, ck: Ck): seq<byte> { Clip(frame, ck.start, CkLen(ck)) }

  function Min(a: nat, b: nat): nat { if a < b then a else b }

  // The header with the complement of the range's sum in the checksum field.
  function Stored(h: seq<byte>, rest: seq<byte>, ck: Ck): (r: seq<byte>)
    requires ck.off + 2 <= |h|
    ensures |r| == |h|
  {
    OnesSumIsFold(CkRange(h + rest, ck));
    Put16(h, ck.off, M16 - OnesSum(CkRange(h + rest, ck)))
  }

  ghost predicate EqualBut(h: seq<byte>, h': seq<byte>, at: nat) {
    |h'| == |h| && forall i :: 0 <= i < |h| && !(at <= i < at + 2) ==> h'[i] == h[i]
  }

  lemma ClipPut(bs: seq<byte>, at: nat, v: nat, off: nat, len: nat)
    requires off <= at && at + 2 <= |bs| && at + 2 <= off + len && v <= M16
    ensures at - off + 2 <= |Clip(bs, off, len)|
    ensures Clip(Put16(bs, at, v), off, len) == Put16(Clip(bs, off, len), at - off, v)
    ensures Get16(Clip(bs, off, len), at - off) == Get16(bs, at)
  {
  }

  lemma ClipElsewhere(bs: seq<byte>, bs': seq<byte>, at: nat, off: nat, len: nat)
    requires EqualBut(bs, bs', at) && off + len <= at
    ensures Clip(bs', off, len) == Clip(bs, off, len)
  {
  }

  lemma PutInFront(h: seq<byte>, rest: seq<byte>, at: nat, v: nat)
    requires at + 2 <= |h| && v <= M16
    ensures Put16(h, at, v) + rest == Put16(h + rest, at, v)
  {
  }

  predicate InRange(ck: Ck) {
    && ck.start <= ck.off && (ck.off - ck.start) % 2 == 0
    && (ck.end == 0 || ck.off + 1 <= ck.end)
  }

  // The range and what the driver left in its checksum field sum to 0xFFFF.
  ghost predicate SumsWith(range: seq<byte>, seed: nat) { Fold(Words(range) + seed) == M16 }

  lemma RangeComplement(bs: seq<byte>, ck: Ck, f: nat)
    requires InRange(ck) && ck.off + 2 <= |bs| && ck.off < 65535 && f == OnesSum(CkRange(bs, ck))
    ensures f <= M16
    ensures SumsWith(CkRange(Put16(bs, ck.off, M16 - f), ck), Get16(bs, ck.off))
  {
    var range := CkRange(bs, ck);
    OnesSumIsFold(range);
    ClipPut(bs, ck.off, M16 - f, ck.start, CkLen(ck));
    Be16Word(M16 - f);
    ComplementVerifies(range, ck.off - ck.start, Be16(M16 - f));
  }

  lemma ZeroSeedSum(bs: seq<byte>, seed: nat)
    requires SumsWith(bs, seed) && seed == 0
    ensures OnesSum(bs) == M16
  {
    OnesSumIsFold(bs);
  }

  lemma SeedUnfolded(bs: seq<byte>, a: nat)
    requires a < M32 && SumsWith(bs, Carry(a))
    ensures SumsWith(bs, a)
  {
    CarryIsFold(a);
    FoldedSeed(Words(bs), a);
  }

  method Store16(a: array<byte>, at: nat, v: nat)
    requires at + 2 <= a.Length && v <= M16
    modifies a
    ensures a[..] == Put16(old(a[..]), at, v)
  {
    a[at], a[at + 1] := v / 256, v % 256;
  }

  // The header once the code's sum of header and pieces has been stored, right or not.
  function BySum(h: seq<byte>, rest: seq<seq<byte>>, ck: Ck): (r: seq<byte>)
    requires ck.off + 2 <= |h|
    ensures |r| == |h|
  {
    IovSumBound([h] + rest, ck.start, CkLen(ck));
    Put16(h, ck.off, M16 - IovSum([h] + rest, ck.start, CkLen(ck)))
  }

  // What a range takes of the pieces behind a header of n bytes.
  function RestShares(n: nat, rest: seq<seq<byte>>, off: nat, len: nat): seq<seq<byte>> {
    if n <= off then Shares(rest, 0, off - n, len)
    else Shares(rest, 0, 0, if len < n - off then 0 else len - (n - off))
  }

  // The words of what the checksum's range takes of each of them add up to less than 2^32.
  ghost predicate RestFits(n: nat, rest: seq<seq<byte>>, ck: Ck) { AllFit(RestShares(n, rest, ck.start, CkLen(ck))) }

  lemma HeaderTaken(h: seq<byte>, rest: seq<seq<byte>>, off: nat, len: nat, now: nat)
    requires (off == 0 || off < |h|) && len > 0 && now == Share(h, off, len)
    ensures Shares([h] + rest, 0, off, len) == [h[off..off + now]] + Shares(rest, 0, 0, len - now)
  {
    SharesBehind(h, rest, 0, 0, len - now);
  }

  lemma HeaderSkipped(h: seq<byte>, rest: seq<seq<byte>>, off: nat, len: nat)
    requires |h| <= off && off > 0
    ensures Shares([h] + rest, 0, off, len) == Shares(rest, 0, off - |h|, len)
  {
    SharesBehind(h, rest, 0, off - |h|, len);
  }

  lemma RestIs(n: nat, rest: seq<seq<byte>>, off: nat, len: nat, now: nat)
    requires off <= n && now == if len < n - off then len else n - off
    ensures RestShares(n, rest, off, len) == Shares(rest, 0, 0, len - now)
  {
  }

  // The header's own share, if it has one, and then the others.
  lemma HeaderShare(h: seq<byte>, rest: seq<seq<byte>>, off: nat, len: nat) returns (p: seq<seq<byte>>)
    ensures Shares([h] + rest, 0, off, len) == p + RestShares(|h|, rest, off, len)
    ensures p == [] || (|p| == 1 && |p[0]| <= |h|)
  {
    if |h| <= off && off > 0 {
      HeaderSkipped(h, rest, off, len);
      p := [];
    } else if len == 0 {
      p := [];
    } else {
      var now := Share(h, off, len);
      HeaderTaken(h, rest, off, len, now);
      RestIs(|h|, rest, off, len, now);
      p := [h[off..off + now]];
    }
  }

  lemma FitsBehind(p: seq<byte>, ps: seq<seq<byte>>)
    requires Words(p) < M32
    ensures AllFit([p] + ps) <==> AllFit(ps)
  {
    if AllFit([p] + ps) {
      forall j | 0 <= j < |ps| ensures Words(ps[j]) < M32 { assert ([p] + ps)[j + 1] == ps[j]; }
    }
  }

  // The header is short.
  lemma HeaderFits(h: seq<byte>, rest: seq<seq<byte>>, off: nat, len: nat)
    requires |h| <= 131074
    ensures AllFit(Shares([h] + rest, 0, off, len)) <==> AllFit(RestShares(|h|, rest, off, len))
  {
    var p := HeaderShare(h, rest, off, len);
    var qs := RestShares(|h|, rest, off, len);
    if p == [] {
      assert [] + qs == qs;
    } else {
      ShortBuffersFit(p[0]);
      assert p == [p[0]];
      FitsBehind(p[0], qs);
    }
  }

  // The standard's sum, if every share fits.
  lemma SumRight(h: seq<byte>, rest: seq<seq<byte>>, ck: Ck)
    requires |h| <= 131074 && |rest| < 256 && RestFits(|h|, rest, ck)
    ensures IovSum([h] + rest, ck.start, CkLen(ck)) == OnesSum(CkRange(h + Flatten(rest), ck))
  {
    FlattenFirst(h, rest);
    HeaderFits(h, rest, ck.start, CkLen(ck));
    IovSumRight([h] + rest, ck.start, CkLen(ck));
  }

  lemma SumWrong(h: seq<byte>, rest: seq<seq<byte>>, ck: Ck)
    requires |h| <= 131074 && |rest| <= MAX_TXSEGS && Nameable(rest) && !RestFits(|h|, rest, ck)
    ensures IovSum([h] + rest, ck.start, CkLen(ck)) != OnesSum(CkRange(h + Flatten(rest), ck))
  {
    FlattenFirst(h, rest);
    HeaderFits(h, rest, ck.start, CkLen(ck));
    IovSumIff([h] + rest, ck.start, CkLen(ck));
  }

  lemma BySumIs(h: seq<byte>, rest: seq<seq<byte>>, ck: Ck, sum: nat)
    requires ck.off + 2 <= |h| && sum == IovSum([h] + rest, ck.start, CkLen(ck))
    ensures sum <= M16 && BySum(h, rest, ck) == Put16(h, ck.off, M16 - sum)
  {
    IovSumBound([h] + rest, ck.start, CkLen(ck));
  }

  lemma StoredIs(h: seq<byte>, rest: seq<byte>, ck: Ck, sum: nat)
    requires ck.off + 2 <= |h| && sum == OnesSum(CkRange(h + rest, ck))
    ensures sum <= M16 && Stored(h, rest, ck) == Put16(h, ck.off, M16 - sum)
  {
    OnesSumIsFold(CkRange(h + rest, ck));
  }

  lemma BySumRight(h: seq<byte>, rest: seq<seq<byte>>, ck: Ck)
    requires ck.off + 2 <= |h| <= 131074 && |rest| < 256 && RestFits(|h|, rest, ck)
    ensures BySum(h, rest, ck) == Stored(h, Flatten(rest), ck)
  {
    var sum := IovSum([h] + rest, ck.start, CkLen(ck));
    SumRight(h, rest, ck);
    BySumIs(h, rest, ck, sum);
    StoredIs(h, Flatten(rest), ck, sum);
  }

  // Different sums show in the field.
  lemma PutTells(h: seq<byte>, at: nat, v: nat, w: nat)
    requires at + 2 <= |h| && v <= M16 && w <= M16 && v != w
    ensures Get16(Put16(h, at, v), at) != Get16(Put16(h, at, w), at)
  {
  }

  lemma BySumWrong(h: seq<byte>, rest: seq<seq<byte>>, ck: Ck)
    requires ck.off + 2 <= |h| <= 131074 && |rest| <= MAX_TXSEGS && Nameable(rest) && !RestFits(|h|, rest, ck)
    ensures Get16(BySum(h, rest, ck), ck.off) != Get16(Stored(h, Flatten(rest), ck), ck.off)
  {
    var v, w := IovSum([h] + rest, ck.start, CkLen(ck)), OnesSum(CkRange(h + Flatten(rest), ck));
    SumWrong(h, rest, ck);
    BySumIs(h, rest, ck, v);
    StoredIs(h, Flatten(rest), ck, w);
    PutTells(h, ck.off, M16 - v, M16 - w);
  }

  /** What is stored is the complement of the standard's sum exactly when every share fits,
      for every packet whose pieces a descriptor can name. */
  lemma BySumIff(h: seq<byte>, rest: seq<seq<byte>>, ck: Ck)
    requires ck.off + 2 <= |h| <= 131074 && |rest| <= MAX_TXSEGS && Nameable(rest)
    ensures BySum(h, rest, ck) == Stored(h, Flatten(rest), ck) <==> RestFits(|h|, rest, ck)
  {
    if RestFits(|h|, rest, ck) { BySumRight(h, rest, ck); } else { BySumWrong(h, rest, ck); }
  }

  // The first piece of the packet is the writable header.
  method TransmitChecksum(hdr: array<byte>, rest: seq<seq<byte>>, ck: Ck)
    requires ck.off + 2 <= hdr.Length
    modifies hdr
    ensures hdr[..] == BySum(old(hdr[..]), rest, ck)
  {
    var sum := IovChecksum([hdr[..]] + rest, ck.start, CkLen(ck));
    Store16(hdr, ck.off, M16 - sum);
  }

  // With short pieces, whatever the range.
  method TransmitShort(hdr: array<byte>, rest: seq<seq<byte>>, ck: Ck)
    requires ck.off + 2 <= hdr.Length <= 131074 && Short(rest)
    modifies hdr
    ensures hdr[..] == Stored(old(hdr[..]), Flatten(rest), ck)
  {
    ShortRestFits(hdr.Length, rest, ck);
    BySumRight(hdr[..], rest, ck);
    TransmitChecksum(hdr, rest, ck);
  }

  lemma ShortRestFits(n: nat, rest: seq<seq<byte>>, ck: Ck)
    requires Short(rest)
    ensures RestFits(n, rest, ck)
  {
    if n <= ck.start {
      ShortSharesFit(rest, ck.start - n, CkLen(ck));
    } else {
      ShortSharesFit(rest, 0, if CkLen(ck) < n - ck.start then 0 else CkLen(ck) - (n - ck.start));
    }
  }
}
