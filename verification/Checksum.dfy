/**
 The Internet checksum over scattered buffers (bhyve/pci_e82545.c), against the ones'
 complement sum of RFC 1071, section 1.  Words are read in the big-endian order of the
 target machine; sums are 32 bits wide and wrap.
 */
module Checksum {
  import opened Bytes
  import opened Sequences

  const M16: nat := 0xFFFF
  const M32: nat := 0x1_0000_0000

  // ----- the standard's sum

  function Word(hi: byte, lo: byte): nat { 256 * (hi as nat) + lo as nat }

  // Ones' complement addition of 16-bit words: the carry comes around.
  function OnesAdd(a: nat, b: nat): nat {
    if a + b > M16 then a + b - M16 else a + b
  }

  // The ones' complement sum of the 16-bit words; a last odd byte is a high byte.
  function OnesSum(bs: seq<byte>): nat {
    if bs == [] then 0
    else if |bs| == 1 then Word(bs[0], 0)
    else OnesAdd(Word(bs[0], bs[1]), OnesSum(bs[2..]))
  }

  // The plain sum of the same words.
  function Words(bs: seq<byte>): nat {
    if bs == [] then 0
    else if |bs| == 1 then Word(bs[0], 0)
    else Word(bs[0], bs[1]) + Words(bs[2..])
  }

  // The 16-bit representative of a sum modulo 0xFFFF; zero stands only for zero.
  function Fold(s: nat): (r: nat)
    ensures r <= M16
    ensures r == 0 <==> s == 0
  {
    if s == 0 then 0 else (s - 1) % M16 + 1
  }

  lemma FoldIs(s: nat)
    ensures exists q: nat :: s == Fold(s) + M16 * q
  {
    if s > 0 {
      var q := (s - 1) / M16;
      assert s == Fold(s) + M16 * q;
    } else {
      assert s == Fold(s) + M16 * 0;
    }
  }

  lemma ModSteps(a: nat, b: nat, k: nat)
    requires a == b + M16 * k
    ensures a % M16 == b % M16
    decreases k
  {
    if k > 0 { ModSteps(a - M16, b, k - 1); }
  }

  // Sums that differ by a multiple of 0xFFFF, and are zero together, fold alike.
  lemma FoldCongruent(a: nat, b: nat, k: int)
    requires a == b + M16 * k && (a == 0 <==> b == 0)
    ensures Fold(a) == Fold(b)
  {
    if a != 0 {
      if k >= 0 { ModSteps(a - 1, b - 1, k); } else { ModSteps(b - 1, a - 1, -k); }
    }
  }

  lemma FoldUnique(a: nat, b: nat)
    requires Fold(a) == Fold(b)
    ensures exists k: int :: a == b + M16 * k
  {
    FoldIs(a);
    FoldIs(b);
    var p: nat :| a == Fold(a) + M16 * p;
    var q: nat :| b == Fold(b) + M16 * q;
    assert a == b + M16 * (p - q);
  }

  lemma AddFolded(w: nat, rest: nat)
    requires w <= M16
    ensures OnesAdd(w, Fold(rest)) == Fold(w + rest)
  {
    FoldIs(rest);
    var q: nat :| rest == Fold(rest) + M16 * q;
    var t := OnesAdd(w, Fold(rest));
    if w + Fold(rest) > M16 {
      assert w + rest == t + M16 * (q + 1);
      FoldCongruent(w + rest, t, q + 1);
    } else {
      FoldCongruent(w + rest, t, q);
    }
    assert Fold(t) == t;
  }

  lemma {:induction false} OnesSumIsFold(bs: seq<byte>)
    ensures OnesSum(bs) == Fold(Words(bs))
  {
    if |bs| >= 2 {
      OnesSumIsFold(bs[2..]);
      AddFolded(Word(bs[0], bs[1]), Words(bs[2..]));
    }
  }

  // ----- position weights

  // The sum of the bytes weighted by their place in a word, starting at an odd place or not.
  function ByteSum(bs: seq<byte>, odd: bool): nat {
    if bs == [] then 0 else (if odd then bs[0] as nat else Word(bs[0], 0)) + ByteSum(bs[1..], !odd)
  }

  function EvenSum(bs: seq<byte>, odd: bool): nat {
    if bs == [] then 0 else (if odd then 0 else bs[0] as nat) + EvenSum(bs[1..], !odd)
  }

  lemma {:induction false} WordsAreBytes(bs: seq<byte>)
    ensures Words(bs) == ByteSum(bs, false)
  {
    if |bs| >= 2 {
      WordsAreBytes(bs[2..]);
      assert bs[1..][1..] == bs[2..];
    } else if |bs| == 1 {
      assert bs[1..] == [];
    }
  }

  // Moving bytes one place multiplies their sum by 256, modulo 0xFFFF.
  lemma {:induction false} SwapPlaces(bs: seq<byte>, odd: bool)
    ensures 256 * ByteSum(bs, odd) == ByteSum(bs, !odd) + M16 * EvenSum(bs, odd)
  {
    if bs != [] { SwapPlaces(bs[1..], !odd); }
  }

  lemma {:induction false} ZeroTogether(bs: seq<byte>)
    ensures ByteSum(bs, true) == 0 <==> ByteSum(bs, false) == 0
  {
    SwapPlaces(bs, false);
    SwapPlaces(bs, true);
  }

  lemma NextParity(n: nat)
    requires n > 0
    ensures n % 2 == 0 <==> (n - 1) % 2 != 0
  {
  }

  lemma {:induction false} ByteSumConcat(a: seq<byte>, b: seq<byte>, odd: bool)
    ensures ByteSum(a + b, odd) == ByteSum(a, odd) + ByteSum(b, if |a| % 2 == 0 then odd else !odd)
  {
    if a == [] {
      assert a + b == b;
    } else {
      assert (a + b)[1..] == a[1..] + b && (a + b)[0] == a[0];
      NextParity(|a|);
      ByteSumConcat(a[1..], b, !odd);
    }
  }

  // ----- the code's sums

  // e82545_carry, on a 32-bit sum.
  function Carry(sum: nat): nat {
    var s := sum % 0x1_0000 + sum / 0x1_0000;
    if s > M16 then s - M16 else s
  }

  lemma CarryIsFold(sum: nat)
    requires sum < M32
    ensures Carry(sum) == Fold(sum)
  {
    var hi, lo := sum / 0x1_0000, sum % 0x1_0000;
    var s := lo + hi;
    assert sum == s + M16 * hi;
    if s > M16 {
      FoldCongruent(sum, s - M16, hi + 1);
    } else {
      FoldCongruent(sum, s, hi);
    }
    assert Fold(Carry(sum)) == Carry(sum);
  }

  // Addition in the code's 32-bit sum.
  function Add32(a: nat, b: nat): (r: nat)
    ensures r < M32
    ensures a + b < M32 ==> r == a + b
  {
    (a + b) % M32
  }

  function BufChecksumSpec(bs: seq<byte>): nat { Carry(Words(bs) % M32) }

  lemma {:induction false} WordsBound(bs: seq<byte>)
    ensures 2 * Words(bs) <= M16 * (|bs| + 1)
  {
    if |bs| >= 2 { WordsBound(bs[2..]); }
  }

  // Each wrap of the 32-bit sum loses one, modulo 0xFFFF.
  lemma WrapsShow(w: nat, r: nat, wraps: nat)
    requires w == r + M32 * wraps && 1 <= wraps <= 8
    ensures Fold(w) != Fold(r)
  {
    if Fold(w) == Fold(r) {
      FoldUnique(w, r);
      var k: int :| w == r + M16 * k;
      Between(wraps, k - 0x1_0001 * wraps);
    }
  }

  lemma Between(n: nat, k: int)
    requires 1 <= n < M16
    ensures n != M16 * k
  {
  }

  /** One buffer: the code's sum is the standard's exactly when the words add up to
      less than 2^32, for every buffer a descriptor's 20-bit length can name. */
  lemma BufferExact(bs: seq<byte>)
    requires |bs| < 0x10_0000
    ensures BufChecksumSpec(bs) == OnesSum(bs) <==> Words(bs) < M32
  {
    OnesSumIsFold(bs);
    WordsBound(bs);
    SumExact(Words(bs));
  }

  lemma SumExact(w: nat)
    requires w <= 8 * M32
    ensures Carry(w % M32) == Fold(w) <==> w < M32
  {
    CarryIsFold(w % M32);
    if w >= M32 { WrapsShow(w, w % M32, w / M32); }
  }

  /** Buffers of up to 131074 bytes are always summed correctly. */
  lemma ShortBuffersFit(bs: seq<byte>)
    requires |bs| <= 131074
    ensures Words(bs) < M32 && BufChecksumSpec(bs) == OnesSum(bs)
  {
    WordsFit(bs);
    HalfBound(|bs|);
    BufferExact(bs);
  }

  lemma HalfBound(n: nat)
    requires n <= 131074
    ensures M16 * ((n + 1) / 2) < M32
  {
    assert (n + 1) / 2 <= 65537;
  }

  lemma {:induction false} WordsFit(bs: seq<byte>)
    ensures Words(bs) <= M16 * ((|bs| + 1) / 2)
  {
    if |bs| >= 2 { WordsFit(bs[2..]); }
  }

  ghost predicate AllOnes(bs: seq<byte>) {
    forall i :: 0 <= i < |bs| ==> bs[i] == 255
  }

  lemma {:induction false} OnesWords(bs: seq<byte>)
    requires AllOnes(bs) && |bs| % 2 == 0
    ensures 2 * Words(bs) == M16 * |bs|
  {
    if bs != [] { OnesWords(bs[2..]); }
  }

  /** Two bytes more can wrap: a buffer of 131076 bytes of 0xFF is summed wrongly. */
  lemma LongBufferFails(bs: seq<byte>)
    requires AllOnes(bs) && |bs| == 131076
    ensures BufChecksumSpec(bs) != OnesSum(bs)
  {
    OnesWords(bs);
    BufferExact(bs);
  }

  // The sum so far and the words still to come make the whole.
  ghost predicate Summed32(sum: nat, rest: seq<byte>, all: seq<byte>) {
    sum < M32 && (sum + Words(rest)) % M32 == Words(all) % M32
  }

  lemma SumWord(sum: nat, rest: seq<byte>, all: seq<byte>)
    requires Summed32(sum, rest, all) && |rest| >= 2
    ensures Summed32(Add32(sum, Word(rest[0], rest[1])), rest[2..], all)
  {
    WrapAdd(sum + Word(rest[0], rest[1]), Words(rest[2..]));
  }

  lemma SumEnd(sum: nat, rest: seq<byte>, all: seq<byte>)
    requires Summed32(sum, rest, all) && |rest| <= 1
    ensures (if rest == [] then sum else Add32(sum, Word(rest[0], 0))) == Words(all) % M32
  {
  }

  method BufChecksum(buf: seq<byte>) returns (r: nat)
    ensures r == BufChecksumSpec(buf)
  {
    var i, sum := 0, 0;
    assert buf[0..] == buf;
    while i < |buf| - |buf| % 2
      invariant 0 <= i <= |buf| - |buf| % 2 && i % 2 == 0
      invariant Summed32(sum, buf[i..], buf)
    {
      SumWord(sum, buf[i..], buf);
      assert buf[i..][2..] == buf[i + 2..];
      sum := Add32(sum, Word(buf[i], buf[i + 1]));
      i := i + 2;
    }
    SumEnd(sum, buf[i..], buf);
    if i < |buf| { sum := Add32(sum, Word(buf[i], 0)); }
    r := Carry(sum);
  }

  lemma WrapAdd(a: nat, b: nat)
    ensures (a % M32 + b) % M32 == (a + b) % M32
  {
  }

  // ----- scattered ranges

  function Flatten(iov: seq<seq<byte>>): seq<byte> {
    if iov == [] then [] else iov[0] + Flatten(iov[1..])
  }

  // The bytes [off, off + len) of bs, as far as it has them.
  function Clip(bs: seq<byte>, off: nat, len: nat): (r: seq<byte>)
    ensures |r| <= len
  {
    if off >= |bs| then [] else if off + len >= |bs| then bs[off..] else bs[off..off + len]
  }

  lemma ClipSkip(p: seq<byte>, rest: seq<byte>, off: nat, len: nat)
    requires |p| <= off
    ensures Clip(p + rest, off, len) == Clip(rest, off - |p|, len)
  {
  }

  lemma ClipTake(p: seq<byte>, rest: seq<byte>, off: nat, len: nat)
    requires off <= |p|
    ensures var now := if len < |p| - off then len else |p| - off;
            Clip(p + rest, off, len) == p[off..off + now] + Clip(rest, 0, len - now)
  {
  }

  // How much of a piece the range takes.
  function Share(piece: seq<byte>, off: nat, len: nat): (now: nat)
    requires off <= |piece|
    ensures now <= len && off + now <= |piece|
  {
    if len < |piece| - off then len else |piece| - off
  }

  // What the range of len bytes from 'off' on takes of each piece, from piece i on.
  function Shares(iov: seq<seq<byte>>, i: nat, off: nat, len: nat): (r: seq<seq<byte>>)
    requires i <= |iov|
    ensures |r| <= |iov| - i
    decreases |iov| - i
  {
    if len == 0 || i == |iov| then []
    else if |iov[i]| <= off && off > 0 then Shares(iov, i + 1, off - |iov[i]|, len)
    else
      var now := Share(iov[i], off, len);
      [iov[i][off..off + now]] + Shares(iov, i + 1, 0, len - now)
  }

  lemma FlattenAt(iov: seq<seq<byte>>, i: nat)
    requires i < |iov|
    ensures Flatten(iov[i..]) == iov[i] + Flatten(iov[i + 1..])
  {
    assert iov[i..][1..] == iov[i + 1..];
  }

  lemma FlattenFirst(p: seq<byte>, iov: seq<seq<byte>>)
    ensures Flatten([p] + iov) == p + Flatten(iov)
  {
    assert ([p] + iov)[1..] == iov;
  }

  lemma ShareSkipped(p: seq<byte>, pieces: seq<byte>, shares: seq<seq<byte>>, off: nat, len: nat)
    requires |p| <= off && Flatten(shares) == Clip(pieces, off - |p|, len)
    ensures Flatten(shares) == Clip(p + pieces, off, len)
  {
    ClipSkip(p, pieces, off, len);
  }

  lemma ShareTaken(p: seq<byte>, pieces: seq<byte>, shares: seq<seq<byte>>, off: nat, len: nat, now: nat)
    requires off <= |p| && now == Share(p, off, len) && Flatten(shares) == Clip(pieces, 0, len - now)
    ensures Flatten([p[off..off + now]] + shares) == Clip(p + pieces, off, len)
  {
    ClipTake(p, pieces, off, len);
    FlattenFirst(p[off..off + now], shares);
  }

  // Put together, they are the range.
  lemma {:induction false} SharesFlatten(iov: seq<seq<byte>>, i: nat, off: nat, len: nat, r: seq<seq<byte>>)
    requires i <= |iov| && r == Shares(iov, i, off, len)
    ensures Flatten(r) == Clip(Flatten(iov[i..]), off, len)
    decreases |iov| - i
  {
    if len > 0 && i < |iov| {
      FlattenAt(iov, i);
      if |iov[i]| <= off && off > 0 {
        SharesFlatten(iov, i + 1, off - |iov[i]|, len, r);
        ShareSkipped(iov[i], Flatten(iov[i + 1..]), r, off, len);
      } else {
        var now := Share(iov[i], off, len);
        var rest := Shares(iov, i + 1, 0, len - now);
        SharesFlatten(iov, i + 1, 0, len - now, rest);
        ShareTaken(iov[i], Flatten(iov[i + 1..]), rest, off, len, now);
      }
    }
  }

  // Behind its first piece.
  lemma {:induction false} SharesBehind(p: seq<byte>, iov: seq<seq<byte>>, i: nat, off: nat, len: nat)
    requires i <= |iov|
    ensures Shares([p] + iov, i + 1, off, len) == Shares(iov, i, off, len)
    decreases |iov| - i
  {
    if len > 0 && i < |iov| {
      assert ([p] + iov)[i + 1] == iov[i];
      if |iov[i]| <= off && off > 0 {
        SharesBehind(p, iov, i + 1, off - |iov[i]|, len);
      } else {
        SharesBehind(p, iov, i + 1, 0, len - Share(iov[i], off, len));
      }
    }
  }

  // The words of every piece add up to less than 2^32.
  ghost predicate AllFit(ps: seq<seq<byte>>) {
    forall j :: 0 <= j < |ps| ==> Words(ps[j]) < M32
  }

  ghost predicate Short(iov: seq<seq<byte>>) {
    |iov| < 256 && forall i :: 0 <= i < |iov| ==> |iov[i]| <= 131074
  }

  // Pieces whose lengths a descriptor can name.
  ghost predicate Nameable(ps: seq<seq<byte>>) {
    forall j :: 0 <= j < |ps| ==> |ps[j]| < 0x10_0000
  }

  lemma {:induction false} SharesNoLonger(iov: seq<seq<byte>>, i: nat, off: nat, len: nat, max: nat)
    requires i <= |iov| && forall j :: 0 <= j < |iov| ==> |iov[j]| <= max
    ensures forall j :: 0 <= j < |Shares(iov, i, off, len)| ==> |Shares(iov, i, off, len)[j]| <= max
    decreases |iov| - i
  {
    if len > 0 && i < |iov| {
      if |iov[i]| <= off && off > 0 {
        SharesNoLonger(iov, i + 1, off - |iov[i]|, len, max);
      } else {
        SharesNoLonger(iov, i + 1, 0, len - Share(iov[i], off, len), max);
      }
    }
  }

  /** Pieces of up to 131074 bytes always fit. */
  lemma ShortSharesFit(iov: seq<seq<byte>>, off: nat, len: nat)
    requires Short(iov)
    ensures AllFit(Shares(iov, 0, off, len))
  {
    var ps := Shares(iov, 0, off, len);
    SharesNoLonger(iov, 0, off, len, 131074);
    forall j | 0 <= j < |ps| ensures Words(ps[j]) < M32 { ShortBuffersFit(ps[j]); }
  }

  // ----- the loops over the pieces

  function Shifted(s: nat, odd: bool): nat { if odd then 256 * s else s }

  // The loop's 32-bit sum, given the shares still to come.
  function SumAll(ps: seq<seq<byte>>, sum: nat, odd: bool): (r: nat)
    ensures sum < M32 ==> r < M32
  {
    if ps == [] then sum
    else SumAll(ps[1..], Add32(sum, Shifted(BufChecksumSpec(ps[0]), odd)), odd != (|ps[0]| % 2 == 1))
  }

  lemma SumOne(p: seq<byte>, ps: seq<seq<byte>>, sum: nat, odd: bool)
    ensures SumAll([p] + ps, sum, odd)
         == SumAll(ps, Add32(sum, Shifted(BufChecksumSpec(p), odd)), odd != (|p| % 2 == 1))
  {
    assert ([p] + ps)[1..] == ps;
  }

  // e82545_iov_checksum.
  function IovSum(iov: seq<seq<byte>>, start: nat, len: nat): nat {
    Carry(SumAll(Shares(iov, 0, start, len), 0, false))
  }

  lemma IovSumBound(iov: seq<seq<byte>>, start: nat, len: nat)
    ensures IovSum(iov, start, len) <= M16
  {
    CarryIsFold(SumAll(Shares(iov, 0, start, len), 0, false));
  }

  // Takes the share of piece i.
  method SumShare(iov: seq<seq<byte>>, i: nat, off: nat, len: nat, sum: nat, odd: bool)
    returns (now: nat, sum': nat, odd': bool)
    requires i < |iov| && (off == 0 || off < |iov[i]|) && len > 0
    ensures now <= len
    ensures SumAll(Shares(iov, i + 1, 0, len - now), sum', odd') == SumAll(Shares(iov, i, off, len), sum, odd)
  {
    now := Share(iov[i], off, len);
    var s := BufChecksum(iov[i][off..off + now]);
    sum', odd' := Add32(sum, Shifted(s, odd)), odd != (now % 2 == 1);
    SumOne(iov[i][off..off + now], Shares(iov, i + 1, 0, len - now), sum, odd);
  }

  method IovChecksum(iov: seq<seq<byte>>, start: nat, length: nat) returns (r: nat)
    ensures r == IovSum(iov, start, length)
  {
    var len, i, off := length, 0, start;
    while i < |iov| && |iov[i]| <= off && off > 0
      invariant 0 <= i <= |iov| && off >= 0
      invariant Shares(iov, i, off, len) == Shares(iov, 0, start, length)
    {
      off := off - |iov[i]|;
      i := i + 1;
    }
    var sum: nat, odd := 0, false;
    while len > 0 && i < |iov|
      invariant len >= 0 && 0 <= i <= |iov| && off >= 0 && (i < |iov| ==> off == 0 || off < |iov[i]|)
      invariant SumAll(Shares(iov, i, off, len), sum, odd) == SumAll(Shares(iov, 0, start, length), 0, false)
    {
      var now;
      now, sum, odd := SumShare(iov, i, off, len, sum, odd);
      len, off, i := len - now, 0, i + 1;
    }
    r := Carry(sum);
  }

  // ----- when they are right

  // The sum stands for the bytes taken so far, short by the wraps of the pieces that began
  // at an even place and of those that began at an odd place.
  ghost predicate Stands(sum: nat, taken: seq<byte>, even: nat, odd: nat, k: int) {
    && ByteSum(taken, false) == sum + even + 256 * odd + M16 * k
    && (ByteSum(taken, false) == 0 <==> sum + even + odd == 0)
  }

  // The sum of a buffer is short by one for each wrap, modulo 0xFFFF.
  lemma WrapsLose(w: nat, s: nat, c: nat) returns (q: nat)
    requires s == Carry(w % M32) && c == w / M32
    ensures s <= M16 && w == s + c + M16 * q && (w == 0 <==> s + c == 0)
  {
    CarryIsFold(w % M32);
    FoldIs(w % M32);
    var q0: nat :| w % M32 == s + M16 * q0;
    q := q0 + 0x1_0001 * c;
  }

  // How often a piece's sum wraps.
  function WrapsOf(p: seq<byte>): nat { Words(p) / M32 }

  lemma TakeEven(sum: nat, taken: seq<byte>, a: nat, b: nat, k: int, piece: seq<byte>, s: nat, c: nat, q: nat)
    requires Stands(sum, taken, a, b, k) && |taken| % 2 == 0
    requires Words(piece) == s + c + M16 * q && (Words(piece) == 0 <==> s + c == 0)
    ensures Stands(sum + s, taken + piece, a + c, b, k + q)
  {
    ByteSumConcat(taken, piece, false);
    WordsAreBytes(piece);
  }

  lemma TakeOdd(sum: nat, taken: seq<byte>, a: nat, b: nat, k: int, piece: seq<byte>, s: nat, c: nat, q: nat)
    requires Stands(sum, taken, a, b, k) && |taken| % 2 == 1
    requires Words(piece) == s + c + M16 * q && (Words(piece) == 0 <==> s + c == 0)
    ensures Stands(sum + 256 * s, taken + piece, a, b + c, k + 256 * q - EvenSum(piece, false))
  {
    ByteSumConcat(taken, piece, false);
    WordsAreBytes(piece);
    SwapPlaces(piece, false);
    ZeroTogether(piece);
  }

  lemma TakePiece(sum: nat, taken: seq<byte>, a: nat, b: nat, k: int, piece: seq<byte>, odd: bool, s: nat, c: nat)
    returns (a': nat, b': nat, k': int)
    requires Stands(sum, taken, a, b, k) && odd == (|taken| % 2 == 1)
    requires s == BufChecksumSpec(piece) && c == WrapsOf(piece)
    ensures Stands(sum + Shifted(s, odd), taken + piece, a', b', k')
    ensures s <= M16 && a' + b' == a + b + c
  {
    var q := WrapsLose(Words(piece), s, c);
    if odd {
      TakeOdd(sum, taken, a, b, k, piece, s, c, q);
      a', b', k' := a, b + c, k + 256 * q - EvenSum(piece, false);
    } else {
      TakeEven(sum, taken, a, b, k, piece, s, c, q);
      a', b', k' := a + c, b, k + q;
    }
  }

  function WrapsAll(ps: seq<seq<byte>>): nat { if ps == [] then 0 else WrapsOf(ps[0]) + WrapsAll(ps[1..]) }

  lemma {:induction false} NoWrapsIff(ps: seq<seq<byte>>)
    ensures WrapsAll(ps) == 0 <==> AllFit(ps)
  {
    if ps != [] {
      NoWrapsIff(ps[1..]);
      assert forall j :: 0 < j < |ps| ==> ps[j] == ps[1..][j - 1];
    }
  }

  lemma {:induction false} FewWraps(ps: seq<seq<byte>>)
    requires Nameable(ps)
    ensures WrapsAll(ps) <= 7 * |ps|
  {
    if ps != [] {
      WordsBound(ps[0]);
      FewWraps(ps[1..]);
    }
  }

  lemma Parity(a: nat, b: nat)
    ensures (a + b) % 2 == 1 <==> (a % 2 == 1) != (b % 2 == 1)
  {
  }

  lemma NoWrap(sum: nat, s: nat, odd: bool, n: nat)
    requires sum <= n * 0xFF_FF00 && n < 256 && s <= M16
    ensures Add32(sum, Shifted(s, odd)) == sum + Shifted(s, odd) <= (n + 1) * 0xFF_FF00
  {
  }

  // After n pieces, the loop's sum stands for the range, short by the wraps of its shares.
  lemma {:induction false} SumStands(ps: seq<seq<byte>>, sum: nat, odd: bool, taken: seq<byte>,
                                     a: nat, b: nat, k: int, n: nat) returns (a': nat, b': nat, k': int)
    requires Stands(sum, taken, a, b, k) && odd == (|taken| % 2 == 1) && sum <= n * 0xFF_FF00 && n + |ps| <= 256
    ensures Stands(SumAll(ps, sum, odd), taken + Flatten(ps), a', b', k') && a' + b' == a + b + WrapsAll(ps)
    decreases |ps|
  {
    if ps == [] {
      assert taken + [] == taken;
      a', b', k' := a, b, k;
    } else {
      var p, s := ps[0], BufChecksumSpec(ps[0]);
      var a1, b1, k1 := TakePiece(sum, taken, a, b, k, p, odd, s, WrapsOf(p));
      Parity(|taken|, |p|);
      NoWrap(sum, s, odd, n);
      ConcatAssoc(taken, p, Flatten(ps[1..]));
      a', b', k' := SumStands(ps[1..], sum + Shifted(s, odd), odd != (|p| % 2 == 1), taken + p, a1, b1, k1, n + 1);
    }
  }

  // The whole sum, short by the wraps of its shares.
  lemma IovStands(iov: seq<seq<byte>>, start: nat, len: nat) returns (sum: nat, a: nat, b: nat, k: int)
    requires |iov| <= 256
    ensures sum < M32 && IovSum(iov, start, len) == Carry(sum)
    ensures Stands(sum, Clip(Flatten(iov), start, len), a, b, k)
    ensures a + b == WrapsAll(Shares(iov, 0, start, len))
  {
    var ps := Shares(iov, 0, start, len);
    SharesFlatten(iov, 0, start, len, ps);
    assert iov[0..] == iov && [] + Flatten(ps) == Flatten(ps);
    sum := SumAll(ps, 0, false);
    a, b, k := SumStands(ps, 0, false, [], 0, 0, 0, 0);
  }

  // Wraps of so few pieces do not cancel.
  lemma NoCancel(a: nat, b: nat, m: int)
    requires 0 < a + b <= 455
    ensures a + 256 * b != M16 * m
  {
  }

  /** The range's checksum does not depend on how it is cut into pieces: it is the standard's
      sum of the flat bytes, if the words of every share add up to less than 2^32. */
  lemma IovSumRight(iov: seq<seq<byte>>, start: nat, len: nat)
    requires |iov| <= 256 && AllFit(Shares(iov, 0, start, len))
    ensures IovSum(iov, start, len) == OnesSum(Clip(Flatten(iov), start, len))
  {
    var range := Clip(Flatten(iov), start, len);
    NoWrapsIff(Shares(iov, 0, start, len));
    var sum, a, b, k := IovStands(iov, start, len);
    CarryIsFold(sum);
    OnesSumIsFold(range);
    WordsAreBytes(range);
    FoldCongruent(ByteSum(range, false), sum, k);
  }

  /** And only then, for every packet of at most 64 pieces and a header whose lengths a
      descriptor can name: wrong sums of pieces never make a right sum. */
  lemma IovSumIff(iov: seq<seq<byte>>, start: nat, len: nat)
    requires |iov| <= 65 && Nameable(iov)
    ensures IovSum(iov, start, len) == OnesSum(Clip(Flatten(iov), start, len)) <==> AllFit(Shares(iov, 0, start, len))
  {
    var ps := Shares(iov, 0, start, len);
    if AllFit(ps) {
      IovSumRight(iov, start, len);
    } else {
      SharesNoLonger(iov, 0, start, len, 0xF_FFFF);
      NoWrapsIff(ps);
      FewWraps(ps);
      var sum, a, b, k := IovStands(iov, start, len);
      WrongSum(sum, Clip(Flatten(iov), start, len), a, b, k);
    }
  }

  lemma WrongSum(sum: nat, range: seq<byte>, a: nat, b: nat, k: int)
    requires Stands(sum, range, a, b, k) && 0 < a + b <= 455 && sum < M32
    ensures Carry(sum) != OnesSum(range)
  {
    CarryIsFold(sum);
    OnesSumIsFold(range);
    WordsAreBytes(range);
    if Fold(sum) == Fold(ByteSum(range, false)) {
      FoldUnique(ByteSum(range, false), sum);
      var m: int :| ByteSum(range, false) == sum + M16 * m;
      NoCancel(a, b, m - k);
    }
  }

  // ----- storing a checksum

  function Get16(bs: seq<byte>, at: nat): nat
    requires at + 2 <= |bs|
  {
    Word(bs[at], bs[at + 1])
  }

  // A word's two octets.
  function Be16(v: nat): (w: seq<byte>)
    requires v <= M16
    ensures |w| == 2
  {
    [v / 256, v % 256]
  }

  function Put2(bs: seq<byte>, at: nat, w: seq<byte>): (r: seq<byte>)
    requires at + 2 <= |bs| && |w| == 2
    ensures |r| == |bs|
  {
    bs[at := w[0]][at + 1 := w[1]]
  }

  function Put16(bs: seq<byte>, at: nat, v: nat): (r: seq<byte>)
    requires at + 2 <= |bs| && v <= M16
    ensures |r| == |bs| && Get16(r, at) == v
  {
    Put2(bs, at, Be16(v))
  }

  lemma {:induction false} PutWords(bs: seq<byte>, at: nat, w: seq<byte>)
    requires at + 2 <= |bs| && |w| == 2 && at % 2 == 0
    ensures Words(Put2(bs, at, w)) + Get16(bs, at) == Words(bs) + Word(w[0], w[1])
  {
    var r := Put2(bs, at, w);
    if at == 0 {
      assert r[2..] == bs[2..];
    } else {
      PutWords(bs[2..], at - 2, w);
      assert r[2..] == Put2(bs[2..], at - 2, w);
    }
  }

  lemma Be16Word(v: nat)
    requires v <= M16
    ensures Word(Be16(v)[0], Be16(v)[1]) == v
  {
  }

  lemma FoldComplement(w: nat, f: nat)
    requires f == Fold(w)
    ensures Fold(w + (M16 - f)) == M16
  {
    FoldIs(w);
    var q: nat :| w == f + M16 * q;
    FoldCongruent(w + (M16 - f), M16, q);
  }

  // Whatever octets hold the complement.
  lemma ComplementStored(range: seq<byte>, at: nat, w: seq<byte>, f: nat)
    requires at + 2 <= |range| && at % 2 == 0 && |w| == 2
    requires f == Fold(Words(range)) && Word(w[0], w[1]) + f == M16
    ensures Fold(Words(Put2(range, at, w)) + Get16(range, at)) == M16
  {
    PutWords(range, at, w);
    FoldComplement(Words(range), f);
  }

  /** Storing the complement of a range's sum at an even place of it makes the range,
      with what stood there before, sum to 0xFFFF. */
  lemma ComplementVerifies(range: seq<byte>, at: nat, w: seq<byte>)
    requires at + 2 <= |range| && at % 2 == 0 && |w| == 2 && Word(w[0], w[1]) + OnesSum(range) == M16
    ensures Fold(Words(Put2(range, at, w)) + Get16(range, at)) == M16
  {
    OnesSumIsFold(range);
    ComplementStored(range, at, w, OnesSum(range));
  }

  // A seed may be folded first.
  lemma FoldedSeed(w: nat, a: nat)
    requires Fold(w + Fold(a)) == M16
    ensures Fold(w + a) == M16
  {
    FoldIs(a);
    var q: nat :| a == Fold(a) + M16 * q;
    FoldCongruent(w + a, w + Fold(a), q);
  }
}
