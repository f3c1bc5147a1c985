/**
 The header of a TCP segment (bhyve/pci_e82545.c, e82545_transmit): one buffer whose
 fields and checksums are rewritten in place for every segment.
 */
module SegmentHeader {
  import opened Bytes
  import opened Sequences
  import opened Checksum
  import opened PacketChecksum

  datatype Context = Context(ip: Ck, tcp: Ck, mss: nat, paylen: nat, ipv4: bool)

  // The fields the code reads and writes are inside the header.
  predicate Inside(c: Context, hdrlen: nat) {
    && hdrlen <= 65535 && c.mss <= M16
    && c.ip.start + 6 <= hdrlen && c.ip.off + 2 <= hdrlen && c.tcp.start + 14 <= hdrlen
    && (c.tcp.valid ==> c.tcp.off + 2 <= hdrlen)
  }

  // In order: IP length and ID, IP checksum, TCP sequence number, TCP flags, TCP checksum.
  predicate Ordered(c: Context) {
    && c.ip.start + 6 <= c.tcp.start
    && (c.ip.valid ==> c.ip.start + 6 <= c.ip.off && c.ip.off + 2 <= c.tcp.start)
    && (c.tcp.valid ==> c.tcp.start + 14 <= c.tcp.off)
  }

  // ----- the fields, as octets

  // IP length, IPv4 ID, TCP sequence number and TCP flags.
  datatype Fields = Fields(len: seq<byte>, id: seq<byte>, number: seq<byte>, flags: byte)

  predicate Sized(f: Fields) { |f.len| == 2 && |f.id| == 2 && |f.number| == 4 }

  // Not in a field that segmentation writes.
  predicate Fixed(c: Context, i: nat) {
    && !(c.ip.start + (if c.ipv4 then 2 else 4) <= i < c.ip.start + 6)
    && !(c.ip.valid && c.ip.off <= i < c.ip.off + 2)
    && !(c.tcp.start + 4 <= i < c.tcp.start + 8) && i != c.tcp.start + 13
    && !(c.tcp.valid && c.tcp.off <= i < c.tcp.off + 2)
  }

  // h is h0 up to the fields.
  ghost predicate Kept(c: Context, h0: seq<byte>, h: seq<byte>) {
    && Inside(c, |h0|) && |h| == |h0|
    && forall i :: 0 <= i < |h| && Fixed(c, i) ==> h[i] == h0[i]
  }

  predicate Has2(h: seq<byte>, at: nat, w: seq<byte>)
    requires at + 2 <= |h| && |w| == 2
  {
    h[at] == w[0] && h[at + 1] == w[1]
  }

  // h is h0 with the fields as given.
  ghost predicate Shows(c: Context, h0: seq<byte>, h: seq<byte>, f: Fields) {
    && Kept(c, h0, h) && Sized(f)
    && (c.ipv4 ==> Has2(h, c.ip.start + 2, f.len) && Has2(h, c.ip.start + 4, f.id))
    && (!c.ipv4 ==> Has2(h, c.ip.start + 4, f.len))
    && Has2(h, c.tcp.start + 4, f.number[..2]) && Has2(h, c.tcp.start + 6, f.number[2..])
    && h[c.tcp.start + 13] == f.flags
  }

  function SetIp(c: Context, h: seq<byte>, f: Fields): (r: seq<byte>)
    requires Inside(c, |h|) && Sized(f)
    ensures |r| == |h|
  {
    if c.ipv4 then Put2(Put2(h, c.ip.start + 2, f.len), c.ip.start + 4, f.id) else Put2(h, c.ip.start + 4, f.len)
  }

  function SetTcp(c: Context, h: seq<byte>, f: Fields): (r: seq<byte>)
    requires Inside(c, |h|) && Sized(f)
    ensures |r| == |h|
  {
    Put2(Put2(h, c.tcp.start + 4, f.number[..2]), c.tcp.start + 6, f.number[2..])[c.tcp.start + 13 := f.flags]
  }

  /** Storing the fields changes nothing else. */
  lemma SetShows(c: Context, h0: seq<byte>, h: seq<byte>, f: Fields)
    requires Kept(c, h0, h) && Ordered(c) && Sized(f)
    ensures Shows(c, h0, SetTcp(c, SetIp(c, h, f), f), f)
  {
    var h1 := SetIp(c, h, f);
    assert Kept(c, h0, h1);
  }

  // A checksum field is none of the others.
  lemma SumKeeps(c: Context, h0: seq<byte>, h: seq<byte>, h': seq<byte>, off: nat, f: Fields)
    requires Shows(c, h0, h, f) && Ordered(c) && EqualBut(h, h', off)
    requires (c.ip.valid && off == c.ip.off) || (c.tcp.valid && off == c.tcp.off)
    ensures Shows(c, h0, h', f)
  {
  }

  // ----- what the fields must be

  function Get32(bs: seq<byte>, at: nat): (v: nat)
    requires at + 4 <= |bs|
    ensures v < M32
  {
    0x1_0000 * Get16(bs, at) + Get16(bs, at + 2)
  }

  function Be32(v: nat): (w: seq<byte>)
    requires v < M32
    ensures |w| == 4
  {
    Be16(v / 0x1_0000) + Be16(v % 0x1_0000)
  }

  function ClearFinPush(b: byte): byte { b - b % 2 - 8 * ((b / 8) % 2) }

  lemma ClearTwice(b: byte)
    ensures ClearFinPush(ClearFinPush(b)) == ClearFinPush(b)
  {
  }

  // The values read from the header before the first round.
  datatype Saved = Saved(ipid: nat, tcpseq: nat, ipcs: nat, tcpcs: nat)

  // What the driver left in the TCP checksum field, if it asked for the checksum.
  function PseudoSum(c: Context, h0: seq<byte>): (r: nat)
    requires Inside(c, |h0|)
    ensures r <= M16
  {
    if c.tcp.valid then Get16(h0, c.tcp.off) else 0
  }

  function Read(c: Context, h0: seq<byte>): (v: Saved)
    requires Inside(c, |h0|)
    ensures v.ipcs <= M16 && v.tcpcs <= M16
  {
    Saved(Get16(h0, c.ip.start + 4), Get32(h0, c.tcp.start + 4), Get16(h0, c.ip.off), PseudoSum(c, h0))
  }

  // The fields of the segment that carries bytes [at, at + now) of the payload, as the
  // k-th: lengths, IDs and sequence numbers wrap.
  function FieldsFor(c: Context, hdrlen: nat, v: Saved, k: nat, at: nat, now: nat, flags: byte): (f: Fields)
    ensures Sized(f)
  {
    Fields(Be16((hdrlen - c.ip.start - (if c.ipv4 then 0 else 40) + now) % 0x1_0000),
           Be16((v.ipid + k) % 0x1_0000), Be32((v.tcpseq + at) % M32), flags)
  }

  // FIN and PUSH are cleared in every segment unless there is only one.
  function FlagsFor(c: Context, flags: byte): byte {
    if c.paylen > c.mss then ClearFinPush(flags) else flags
  }

  ghost predicate HeaderFields(c: Context, h0: seq<byte>, h: seq<byte>, k: nat, at: nat, now: nat)
    requires Inside(c, |h0|)
  {
    Shows(c, h0, h, FieldsFor(c, |h0|, Read(c, h0), k, at, now, FlagsFor(c, h0[c.tcp.start + 13])))
  }

  lemma Has16(h: seq<byte>, at: nat, v: nat)
    requires at + 2 <= |h| && v <= M16 && Has2(h, at, Be16(v))
    ensures Get16(h, at) == v
  {
  }

  lemma Has32(h: seq<byte>, at: nat, v: nat)
    requires at + 4 <= |h| && v < M32 && Has2(h, at, Be32(v)[..2]) && Has2(h, at + 2, Be32(v)[2..])
    ensures Get32(h, at) == v
  {
    Has16(h, at, v / 0x1_0000);
    Has16(h, at + 2, v % 0x1_0000);
  }

  /** Fields are read back as the numbers that were stored. */
  lemma FieldsRead(c: Context, h0: seq<byte>, h: seq<byte>, f: Fields, len: nat, id: nat, number: nat)
    requires Shows(c, h0, h, f) && len <= M16 && id <= M16 && number < M32
    requires f.len == Be16(len) && f.id == Be16(id) && f.number == Be32(number)
    ensures |h| == |h0|
    ensures Get32(h, c.tcp.start + 4) == number
    ensures c.ipv4 ==> Get16(h, c.ip.start + 2) == len && Get16(h, c.ip.start + 4) == id
    ensures !c.ipv4 ==> Get16(h, c.ip.start + 4) == len
  {
    Has32(h, c.tcp.start + 4, number);
    if c.ipv4 {
      Has16(h, c.ip.start + 2, len);
      Has16(h, c.ip.start + 4, id);
    } else {
      Has16(h, c.ip.start + 4, len);
    }
  }

  /** FIN and PUSH are cleared and never set again, so a segment carries the driver's
      flags exactly when it is the only one or neither flag was asked for. */
  lemma FlagsKeptIff(c: Context, h0: seq<byte>, h: seq<byte>, f: Fields)
    requires Shows(c, h0, h, f) && f.flags == FlagsFor(c, h0[c.tcp.start + 13])
    ensures var flags := h0[c.tcp.start + 13];
            h[c.tcp.start + 13] == flags <==> c.paylen <= c.mss || (flags % 2 == 0 && (flags / 8) % 2 == 0)
  {
  }

  // ----- the checksums

  // Seeds the field, sums the range, and stores the complement.
  function Summed(h: seq<byte>, rest: seq<byte>, ck: Ck, seed: nat): (r: seq<byte>)
    requires ck.off + 2 <= |h| && seed <= M16
    ensures |r| == |h|
  {
    Stored(Put16(h, ck.off, seed), rest, ck)
  }

  function WithSum(h: seq<byte>, rest: seq<byte>, ck: Ck, seed: nat): (r: seq<byte>)
    requires (ck.valid ==> ck.off + 2 <= |h|) && seed <= M16
    ensures |r| == |h|
  {
    if ck.valid then Summed(h, rest, ck, seed) else h
  }

  lemma SummedEqualBut(h: seq<byte>, rest: seq<byte>, ck: Ck, seed: nat)
    requires ck.off + 2 <= |h| && seed <= M16
    ensures EqualBut(h, Summed(h, rest, ck, seed), ck.off)
  {
  }

  // The IP checksum field started as zero and lies at an even place of its range, and
  // the TCP checksum is not in that range.
  ghost predicate IpChecked(c: Context, ipcs: nat) {
    c.ip.valid && ipcs == 0 && InRange(c.ip) && c.ip.end != 0 && (c.tcp.valid ==> c.ip.end < c.tcp.off)
  }

  ghost predicate TcpChecked(c: Context) { c.tcp.valid && InRange(c.tcp) }

  // RFC 1071: the IP header sums to 0xFFFF, and so do the TCP range and a: the
  // pseudo-header sum the driver left in the field, and the segment's length.
  ghost predicate SumsTo(c: Context, ipcs: nat, frame: seq<byte>, a: nat) {
    && (IpChecked(c, ipcs) ==> OnesSum(CkRange(frame, c.ip)) == M16)
    && (TcpChecked(c) ==> SumsWith(CkRange(frame, c.tcp), a))
  }

  // tcpsum, 32 bits wide.
  function TcpSum(tcpcs: nat, len: int): (a: nat)
    requires tcpcs <= M16
    ensures a < M32
  {
    tcpcs + len % 0x1_0000
  }

  ghost predicate Verifies(c: Context, h0: seq<byte>, frame: seq<byte>, now: nat)
    requires Inside(c, |h0|)
  {
    SumsTo(c, Get16(h0, c.ip.off), frame, TcpSum(PseudoSum(c, h0), |h0| - c.tcp.start + now))
  }

  lemma StoredVerifies(h: seq<byte>, rest: seq<byte>, ck: Ck, f: nat, h': seq<byte>)
    requires InRange(ck) && ck.off + 2 <= |h| <= 65535 && f == OnesSum(CkRange(h + rest, ck)) && f <= M16
    requires h' == Put16(h, ck.off, M16 - f)
    ensures SumsWith(CkRange(h' + rest, ck), Get16(h, ck.off))
  {
    RangeComplement(h + rest, ck, f);
    PutInFront(h, rest, ck.off, M16 - f);
    assert Get16(h + rest, ck.off) == Get16(h, ck.off);
  }

  lemma SummedVerifies(h: seq<byte>, rest: seq<byte>, ck: Ck, seed: nat, h': seq<byte>)
    requires InRange(ck) && ck.off + 2 <= |h| <= 65535 && seed <= M16
    requires h' == Summed(h, rest, ck, seed)
    ensures SumsWith(CkRange(h' + rest, ck), seed)
  {
    var h1 := Put16(h, ck.off, seed);
    OnesSumIsFold(CkRange(h1 + rest, ck));
    StoredVerifies(h1, rest, ck, OnesSum(CkRange(h1 + rest, ck)), h');
  }

  // A header store behind the IP range leaves its sum alone.
  lemma TcpStoreElsewhere(c: Context, h: seq<byte>, rest: seq<byte>, h': seq<byte>)
    requires c.ip.start <= c.ip.end + 1 && 0 < c.ip.end < c.tcp.off && EqualBut(h, h', c.tcp.off)
    ensures CkRange(h' + rest, c.ip) == CkRange(h + rest, c.ip)
  {
    assert EqualBut(h + rest, h' + rest, c.tcp.off);
    ClipElsewhere(h + rest, h' + rest, c.tcp.off, c.ip.start, c.ip.end + 1 - c.ip.start);
  }

  lemma IpSumIs(c: Context, range: seq<byte>, ipcs: nat)
    requires IpChecked(c, ipcs) && SumsWith(range, ipcs)
    ensures OnesSum(range) == M16
  {
    ZeroSeedSum(range, ipcs);
  }

  lemma IpSum(c: Context, h3: seq<byte>, rest: seq<byte>, ipcs: nat, h4: seq<byte>)
    requires IpChecked(c, ipcs) && SumsWith(CkRange(h3 + rest, c.ip), ipcs)
    requires if c.tcp.valid then EqualBut(h3, h4, c.tcp.off) else h4 == h3
    ensures OnesSum(CkRange(h4 + rest, c.ip)) == M16
  {
    IpSumIs(c, CkRange(h3 + rest, c.ip), ipcs);
    if c.tcp.valid { TcpStoreElsewhere(c, h3, rest, h4); }
  }

  lemma TcpSumOk(c: Context, h3: seq<byte>, rest: seq<byte>, a: nat, h4: seq<byte>)
    requires Inside(c, |h3|) && TcpChecked(c) && a < M32 && Carry(a) <= M16 && h4 == Summed(h3, rest, c.tcp, Carry(a))
    ensures SumsWith(CkRange(h4 + rest, c.tcp), a)
  {
    SummedVerifies(h3, rest, c.tcp, Carry(a), h4);
    SeedUnfolded(CkRange(h4 + rest, c.tcp), a);
  }

  // ----- one round

  function Seed(a: nat): (r: nat)
    requires a < M32
    ensures r <= M16
  {
    CarryIsFold(a);
    Carry(a)
  }

  // The fields, then the two sums.
  function Rewritten(c: Context, h: seq<byte>, f: Fields, rest: seq<byte>, ipcs: nat, a: nat): (r: seq<byte>)
    requires Inside(c, |h|) && Sized(f) && ipcs <= M16 && a < M32
    ensures |r| == |h|
  {
    WithSum(WithSum(SetTcp(c, SetIp(c, h, f), f), rest, c.ip, ipcs), rest, c.tcp, Seed(a))
  }

  // The header before the k-th round.
  ghost predicate Before(c: Context, h0: seq<byte>, h: seq<byte>, k: nat) {
    Ordered(c) ==>
      && Kept(c, h0, h)
      && h[c.tcp.start + 13] == (if k > 0 then FlagsFor(c, h0[c.tcp.start + 13]) else h0[c.tcp.start + 13])
  }

  // The round that carries [at, at + now) knows whether it is the first.
  predicate Round(c: Context, k: nat, at: nat, now: nat) {
    && at + now <= c.paylen
    && (if k == 0 then at == 0 && now == Min(c.mss, c.paylen) else c.mss < c.paylen)
  }

  // The flags a round stores over the ones it finds.
  function RoundFlags(c: Context, at: nat, now: nat, flags: byte): byte {
    if at + now < c.paylen then ClearFinPush(flags) else flags
  }

  lemma RoundFlagsAre(c: Context, k: nat, at: nat, now: nat, flags0: byte)
    requires Round(c, k, at, now)
    ensures RoundFlags(c, at, now, if k > 0 then FlagsFor(c, flags0) else flags0) == FlagsFor(c, flags0)
  {
    ClearTwice(flags0);
  }

  lemma SumsKeep(c: Context, h0: seq<byte>, h2: seq<byte>, h3: seq<byte>, h4: seq<byte>, f: Fields)
    requires Shows(c, h0, h2, f) && Ordered(c)
    requires if c.ip.valid then EqualBut(h2, h3, c.ip.off) else h3 == h2
    requires if c.tcp.valid then EqualBut(h3, h4, c.tcp.off) else h4 == h3
    ensures Shows(c, h0, h4, f)
  {
    if c.ip.valid { SumKeeps(c, h0, h2, h3, c.ip.off, f); }
    if c.tcp.valid { SumKeeps(c, h0, h3, h4, c.tcp.off, f); }
  }

  lemma RoundStores(c: Context, h2: seq<byte>, rest: seq<byte>, h3: seq<byte>, h4: seq<byte>, ipcs: nat, seed: nat)
    requires Inside(c, |h2|) && ipcs <= M16 && seed <= M16
    requires h3 == WithSum(h2, rest, c.ip, ipcs) && h4 == WithSum(h3, rest, c.tcp, seed)
    ensures if c.ip.valid then EqualBut(h2, h3, c.ip.off) else h3 == h2
    ensures if c.tcp.valid then EqualBut(h3, h4, c.tcp.off) else h4 == h3
  {
    if c.ip.valid { SummedEqualBut(h2, rest, c.ip, ipcs); }
    if c.tcp.valid { SummedEqualBut(h3, rest, c.tcp, seed); }
  }

  lemma RoundSums(c: Context, h2: seq<byte>, rest: seq<byte>, h3: seq<byte>, h4: seq<byte>, ipcs: nat, a: nat)
    requires Inside(c, |h2|) && ipcs <= M16 && a < M32 && |h3| == |h2|
    requires if c.ip.valid then h3 == Summed(h2, rest, c.ip, ipcs) else h3 == h2
    requires if c.tcp.valid then h4 == Summed(h3, rest, c.tcp, Seed(a)) && EqualBut(h3, h4, c.tcp.off) else h4 == h3
    ensures SumsTo(c, ipcs, h4 + rest, a)
  {
    if IpChecked(c, ipcs) {
      SummedVerifies(h2, rest, c.ip, ipcs, h3);
      IpSum(c, h3, rest, ipcs, h4);
    }
    if TcpChecked(c) { TcpSumOk(c, h3, rest, a, h4); }
  }

  /** A round leaves the fields as they must be. */
  lemma RoundShows(c: Context, h0: seq<byte>, h: seq<byte>, f: Fields, rest: seq<byte>, ipcs: nat, a: nat)
    requires Kept(c, h0, h) && Ordered(c) && Sized(f) && ipcs <= M16 && a < M32
    ensures Shows(c, h0, Rewritten(c, h, f, rest, ipcs, a), f)
  {
    var h2 := SetTcp(c, SetIp(c, h, f), f);
    var h3 := WithSum(h2, rest, c.ip, ipcs);
    var h4 := Rewritten(c, h, f, rest, ipcs, a);
    SetShows(c, h0, h, f);
    RoundStores(c, h2, rest, h3, h4, ipcs, Seed(a));
    SumsKeep(c, h0, h2, h3, h4, f);
  }

  /** And sums that verify. */
  lemma RoundVerifies(c: Context, h: seq<byte>, f: Fields, rest: seq<byte>, ipcs: nat, a: nat)
    requires Inside(c, |h|) && Sized(f) && ipcs <= M16 && a < M32
    ensures SumsTo(c, ipcs, Rewritten(c, h, f, rest, ipcs, a) + rest, a)
  {
    var h2 := SetTcp(c, SetIp(c, h, f), f);
    var h3 := WithSum(h2, rest, c.ip, ipcs);
    var h4 := Rewritten(c, h, f, rest, ipcs, a);
    RoundStores(c, h2, rest, h3, h4, ipcs, Seed(a));
    RoundSums(c, h2, rest, h3, h4, ipcs, a);
  }

  // ----- in place

  method Store2(hdr: array<byte>, at: nat, w: seq<byte>)
    requires at + 2 <= hdr.Length && |w| == 2
    modifies hdr
    ensures hdr[..] == Put2(old(hdr[..]), at, w)
  {
    hdr[at], hdr[at + 1] := w[0], w[1];
  }

  method UpdateIp(c: Context, hdr: array<byte>, f: Fields)
    requires Inside(c, hdr.Length) && Sized(f)
    modifies hdr
    ensures hdr[..] == SetIp(c, old(hdr[..]), f)
  {
    if c.ipv4 {
      Store2(hdr, c.ip.start + 2, f.len);
      Store2(hdr, c.ip.start + 4, f.id);
    } else {
      Store2(hdr, c.ip.start + 4, f.len);
    }
  }

  method UpdateTcp(c: Context, hdr: array<byte>, f: Fields)
    requires Inside(c, hdr.Length) && Sized(f)
    modifies hdr
    ensures hdr[..] == SetTcp(c, old(hdr[..]), f)
  {
    Store2(hdr, c.tcp.start + 4, f.number[..2]);
    Store2(hdr, c.tcp.start + 6, f.number[2..]);
    hdr[c.tcp.start + 13] := f.flags;
  }

  method StoreSum(hdr: array<byte>, rest: seq<seq<byte>>, ck: Ck, seed: nat)
    requires ck.off + 2 <= hdr.Length <= 65535 && seed <= M16 && Short(rest)
    modifies hdr
    ensures hdr[..] == Summed(old(hdr[..]), Flatten(rest), ck, seed)
  {
    Store16(hdr, ck.off, seed);
    TransmitShort(hdr, rest, ck);
  }

  method RewriteHeader(c: Context, hdr: array<byte>, f: Fields, tiov: seq<seq<byte>>, ipcs: nat, a: nat)
    requires Inside(c, hdr.Length) && Sized(f) && ipcs <= M16 && a < M32 && Short(tiov)
    modifies hdr
    ensures hdr[..] == Rewritten(c, old(hdr[..]), f, Flatten(tiov), ipcs, a)
  {
    UpdateIp(c, hdr, f);
    UpdateTcp(c, hdr, f);
    if c.ip.valid { StoreSum(hdr, tiov, c.ip, ipcs); }
    if c.tcp.valid { StoreSum(hdr, tiov, c.tcp, Seed(a)); }
  }
}
