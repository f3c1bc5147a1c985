/**
 Splitting one ATA transfer over its PRDT (bhyve/pci_ahci.c, ahci_build_iov).

 A command's buffers are the PRDT entries laid end to end.  Each round takes at
 most IOV_MAX pieces starting at byte 'done' of that stream; a round that ran out
 of pieces is cut back to whole sectors, and the rest is left for the next round.
 */
module AhciIov {
  import opened BlockQueue
  import opened Sequences

  const IOV_MAX: nat := 33
  const SECTOR: nat := 512
  const DBCMASK: nat := 0x3f_ffff

  datatype Prd = Prd(dba: nat, dbc: nat)

  function Size(e: Prd): (n: nat)
    ensures 1 <= n <= DBCMASK + 1
  {
    e.dbc % (DBCMASK + 1) + 1
  }

  function Range(base: nat, len: nat): (r: seq<nat>)
    ensures |r| == len
  {
    seq(len, k => base + k)
  }

  // The guest addresses the PRDT names, byte by byte.
  function Stream(prdt: seq<Prd>): seq<nat> {
    if prdt == [] then []
    else var e := prdt[|prdt| - 1]; Stream(prdt[..|prdt| - 1]) + Range(e.dba, Size(e))
  }

  // The guest addresses an iovec list names, byte by byte.
  function Addrs(iov: seq<Iov>): (r: seq<nat>)
    ensures |r| == TotalLen(iov)
  {
    if iov == [] then []
    else var v := iov[|iov| - 1]; Addrs(iov[..|iov| - 1]) + Range(v.base, v.len)
  }

  datatype Scan = Scan(iov: seq<Iov>, used: nat, left: nat)

  // The scan of the PRDT, from entry i on, with acc already collected.
  function ScanFrom(prdt: seq<Prd>, i: nat, skip: nat, left: nat, acc: seq<Iov>): Scan
    requires i <= |prdt|
    decreases |prdt| - i
  {
    if i == |prdt| || |acc| >= IOV_MAX || left == 0 then Scan(acc, i, left)
    else if Size(prdt[i]) <= skip then ScanFrom(prdt, i + 1, skip - Size(prdt[i]), left, acc)
    else
      var n := if Size(prdt[i]) - skip > left then left else Size(prdt[i]) - skip;
      ScanFrom(prdt, i + 1, 0, left - n, acc + [Iov(prdt[i].dba + skip, n)])
  }

  // Drops 'extra' bytes from the end of an iovec list.
  function Trim(iov: seq<Iov>, extra: nat): seq<Iov>
    requires extra <= TotalLen(iov)
  {
    if extra == 0 then iov
    else
      var last := iov[|iov| - 1];
      if last.len > extra then iov[..|iov| - 1] + [Iov(last.base, last.len - extra)]
      else Trim(iov[..|iov| - 1], extra - last.len)
  }

  datatype Chunk = Chunk(iov: seq<Iov>, todo: nat, more: bool)

  // What is left of a scan after cutting it back to whole sectors.
  function CutBack(s: Scan, entries: nat, len: nat, done: nat): Chunk {
    var total := TotalLen(s.iov);
    var extra := if |s.iov| == IOV_MAX then total % SECTOR else 0;
    var todo := total - extra;
    Chunk(Trim(s.iov, extra), todo, done + todo < len && s.used < entries)
  }

  function BuildIovSpec(prdt: seq<Prd>, len: nat, done: nat): Chunk
    requires done <= len
  {
    CutBack(ScanFrom(prdt, 0, done, len - done, []), |prdt|, len, done)
  }

  // The assertion of the source: a round that ran out of pieces still holds a sector.
  predicate SectorFits(prdt: seq<Prd>, len: nat, done: nat)
    requires done <= len
  {
    var s := ScanFrom(prdt, 0, done, len - done, []);
    |s.iov| == IOV_MAX ==> TotalLen(s.iov) >= SECTOR
  }

  // ----- what one round takes

  lemma {:induction false} StreamPrefix(prdt: seq<Prd>, i: nat)
    requires i <= |prdt|
    ensures Stream(prdt[..i]) <= Stream(prdt)
    decreases |prdt| - i
  {
    if i < |prdt| {
      StreamPrefix(prdt, i + 1);
      assert prdt[..i + 1][..i] == prdt[..i];
      assert Stream(prdt[..i]) <= Stream(prdt[..i + 1]);
    } else {
      assert prdt[..i] == prdt;
    }
  }

  // iov is the stream from 'done' on.
  ghost predicate Takes(prdt: seq<Prd>, iov: seq<Iov>, done: nat) {
    var end := done + TotalLen(iov);
    end <= |Stream(prdt)| && Addrs(iov) == Stream(prdt)[done..end]
  }

  // Where a scan stands before entry i.
  ghost predicate ScanAt(prdt: seq<Prd>, i: nat, skip: nat, acc: seq<Iov>, done: nat, left: nat) {
    && i <= |prdt| && |acc| <= IOV_MAX
    && (skip > 0 ==> acc == [])
    && (left > 0 ==> |Stream(prdt[..i])| + skip == done + TotalLen(acc))
    && (acc != [] ==> Takes(prdt, acc, done))
  }

  // Where a scan that looks for 'total' bytes from 'done' on may stop.
  ghost predicate ScanEnd(prdt: seq<Prd>, s: Scan, done: nat, total: nat) {
    var end := done + TotalLen(s.iov);
    && s.used <= |prdt| && |s.iov| <= IOV_MAX
    && TotalLen(s.iov) + s.left == total
    && (s.iov != [] ==> Takes(prdt, s.iov, done))
    && (s.left > 0 && s.used == |prdt| ==> |Stream(prdt)| <= end)
    && (s.left > 0 && s.used < |prdt| ==> |s.iov| == IOV_MAX && end < |Stream(prdt)|)
  }

  lemma RangeSlice(base: nat, len: nat, i: nat, n: nat)
    requires i + n <= len
    ensures Range(base, len)[i..i + n] == Range(base + i, n)
  {
  }

  lemma PieceOfEntry(prdt: seq<Prd>, i: nat, skip: nat, n: nat)
    requires i < |prdt| && skip + n <= Size(prdt[i])
    ensures var at := |Stream(prdt[..i])| + skip;
            at + n <= |Stream(prdt)| && Stream(prdt)[at..at + n] == Range(prdt[i].dba + skip, n)
  {
    assert prdt[..i + 1][..i] == prdt[..i];
    StreamPrefix(prdt, i + 1);
    var p, e := Stream(prdt[..i]), Range(prdt[i].dba, Size(prdt[i]));
    assert Stream(prdt[..i + 1]) == p + e;
    SliceOfPrefix(p + e, Stream(prdt), |p| + skip, |p| + skip + n);
    SliceOfRight(p, e, skip, skip + n);
    RangeSlice(prdt[i].dba, Size(prdt[i]), skip, n);
  }

  lemma AppendPiece(acc: seq<Iov>, v: Iov)
    ensures TotalLen(acc + [v]) == TotalLen(acc) + v.len
    ensures Addrs(acc + [v]) == Addrs(acc) + Range(v.base, v.len)
  {
    assert (acc + [v])[..|acc|] == acc;
  }

  // The stream up to 'at', then a slice of it.
  lemma AddrsJoin(acc: seq<Iov>, v: Iov, s: seq<nat>, done: nat, at: nat)
    requires at + v.len <= |s| && at == done + TotalLen(acc)
    requires acc != [] ==> Addrs(acc) == s[done..at]
    requires Range(v.base, v.len) == s[at..at + v.len]
    ensures TotalLen(acc + [v]) == TotalLen(acc) + v.len
    ensures Addrs(acc + [v]) == s[done..at + v.len]
  {
    AppendPiece(acc, v);
    SlicesJoin(s, done, at, at + v.len);
    if acc == [] { assert s[done..at] == []; }
  }

  lemma TakesMore(prdt: seq<Prd>, i: nat, skip: nat, v: Iov, acc: seq<Iov>, done: nat)
    requires i < |prdt| && v.base == prdt[i].dba + skip && skip + v.len <= Size(prdt[i])
    requires |Stream(prdt[..i])| + skip == done + TotalLen(acc) && (acc != [] ==> Takes(prdt, acc, done))
    ensures Takes(prdt, acc + [v], done)
  {
    PieceOfEntry(prdt, i, skip, v.len);
    AddrsJoin(acc, v, Stream(prdt), done, done + TotalLen(acc));
  }

  lemma TakePiece(prdt: seq<Prd>, i: nat, skip: nat, n: nat, acc: seq<Iov>, done: nat, left: nat)
    requires ScanAt(prdt, i, skip, acc, done, left) && left > 0 && i < |prdt| && |acc| < IOV_MAX
    requires Size(prdt[i]) > skip
    requires n == if Size(prdt[i]) - skip > left then left else Size(prdt[i]) - skip
    ensures ScanAt(prdt, i + 1, 0, acc + [Iov(prdt[i].dba + skip, n)], done, left - n)
  {
    AppendPiece(acc, Iov(prdt[i].dba + skip, n));
    assert prdt[..i + 1][..i] == prdt[..i];
    TakesMore(prdt, i, skip, Iov(prdt[i].dba + skip, n), acc, done);
  }

  lemma ScanStops(prdt: seq<Prd>, i: nat, skip: nat, left: nat, acc: seq<Iov>, done: nat)
    requires ScanAt(prdt, i, skip, acc, done, left)
    requires i == |prdt| || |acc| >= IOV_MAX || left == 0
    ensures ScanEnd(prdt, Scan(acc, i, left), done, TotalLen(acc) + left)
  {
    assert prdt[..|prdt|] == prdt;
    if left > 0 && i < |prdt| {
      StreamPrefix(prdt, i + 1);
      assert prdt[..i + 1][..i] == prdt[..i];
      assert |Stream(prdt[..i + 1])| == |Stream(prdt[..i])| + Size(prdt[i]);
    }
  }

  lemma ScanTakes(prdt: seq<Prd>, i: nat, skip: nat, left: nat, acc: seq<Iov>, n: nat)
    requires i < |prdt| && |acc| < IOV_MAX && left > 0 && Size(prdt[i]) > skip
    requires n == if Size(prdt[i]) - skip > left then left else Size(prdt[i]) - skip
    ensures var acc' := acc + [Iov(prdt[i].dba + skip, n)];
            && ScanFrom(prdt, i, skip, left, acc) == ScanFrom(prdt, i + 1, 0, left - n, acc')
            && TotalLen(acc') + (left - n) == TotalLen(acc) + left
  {
    AppendPiece(acc, Iov(prdt[i].dba + skip, n));
  }

  lemma {:induction false} ScanResult(prdt: seq<Prd>, i: nat, skip: nat, left: nat, acc: seq<Iov>, done: nat)
    requires ScanAt(prdt, i, skip, acc, done, left)
    ensures ScanEnd(prdt, ScanFrom(prdt, i, skip, left, acc), done, TotalLen(acc) + left)
    decreases |prdt| - i
  {
    if i == |prdt| || |acc| >= IOV_MAX || left == 0 {
      ScanStops(prdt, i, skip, left, acc, done);
    } else if Size(prdt[i]) <= skip {
      assert prdt[..i + 1][..i] == prdt[..i];
      ScanResult(prdt, i + 1, skip - Size(prdt[i]), left, acc, done);
    } else {
      var n := if Size(prdt[i]) - skip > left then left else Size(prdt[i]) - skip;
      TakePiece(prdt, i, skip, n, acc, done, left);
      ScanTakes(prdt, i, skip, left, acc, n);
      ScanResult(prdt, i + 1, 0, left - n, acc + [Iov(prdt[i].dba + skip, n)], done);
    }
  }

  lemma ShortenLast(iov: seq<Iov>, extra: nat)
    requires iov != [] && extra < iov[|iov| - 1].len
    ensures var last := iov[|iov| - 1];
            var r := iov[..|iov| - 1] + [Iov(last.base, last.len - extra)];
            TotalLen(r) == TotalLen(iov) - extra && Addrs(r) == Addrs(iov)[..TotalLen(iov) - extra]
  {
    var init, last := iov[..|iov| - 1], iov[|iov| - 1];
    var r := init + [Iov(last.base, last.len - extra)];
    assert r[..|r| - 1] == init;
    TakeOfConcat(Addrs(init), Range(last.base, last.len), TotalLen(iov) - extra);
    RangeSlice(last.base, last.len, 0, last.len - extra);
  }

  lemma DropLast(iov: seq<Iov>, n: nat)
    requires iov != [] && n <= TotalLen(iov[..|iov| - 1])
    ensures Addrs(iov)[..n] == Addrs(iov[..|iov| - 1])[..n]
  {
    var last := iov[|iov| - 1];
    TakeOfConcat(Addrs(iov[..|iov| - 1]), Range(last.base, last.len), n);
  }

  lemma {:induction false} TrimAddrs(iov: seq<Iov>, extra: nat)
    requires extra <= TotalLen(iov)
    ensures TotalLen(Trim(iov, extra)) == TotalLen(iov) - extra
    ensures Addrs(Trim(iov, extra)) == Addrs(iov)[..TotalLen(iov) - extra]
    ensures |Trim(iov, extra)| <= |iov|
  {
    if extra > 0 {
      if iov[|iov| - 1].len > extra {
        ShortenLast(iov, extra);
      } else {
        TrimAddrs(iov[..|iov| - 1], extra - iov[|iov| - 1].len);
        DropLast(iov, TotalLen(iov) - extra);
      }
    }
  }

  // One round: its pieces are the stream from 'done' on; unless it is the last, it is a
  // positive number of whole sectors; and the last one reaches a length the PRDT covers.
  ghost predicate RoundOk(prdt: seq<Prd>, len: nat, done: nat, c: Chunk) {
    && |c.iov| <= IOV_MAX && TotalLen(c.iov) == c.todo && done + c.todo <= len
    && (c.todo > 0 ==> Takes(prdt, c.iov, done))
    && (c.more ==> c.todo > 0 && c.todo % SECTOR == 0 && done + c.todo < |Stream(prdt)|)
    && (!c.more && len <= |Stream(prdt)| && (len - done) % SECTOR == 0 ==> done + c.todo == len)
  }

  lemma SectorMultiples(a: nat, b: nat)
    ensures a % SECTOR == 0 ==> (a + b) % SECTOR == b % SECTOR
    ensures (a - a % SECTOR) % SECTOR == 0
  {
  }

  lemma CutBackTakes(prdt: seq<Prd>, s: Scan, done: nat, extra: nat)
    requires s.iov != [] && Takes(prdt, s.iov, done) && extra <= TotalLen(s.iov)
    ensures Takes(prdt, Trim(s.iov, extra), done)
  {
    TrimAddrs(s.iov, extra);
    var st, total := Stream(prdt), TotalLen(s.iov);
    assert st[done..done + total][..total - extra] == st[done..done + (total - extra)];
  }

  // How much is cut off, and what stays.
  lemma CutBackParts(s: Scan, entries: nat, len: nat, done: nat) returns (extra: nat)
    requires |s.iov| == IOV_MAX ==> TotalLen(s.iov) >= SECTOR
    ensures extra <= TotalLen(s.iov) && extra == if |s.iov| == IOV_MAX then TotalLen(s.iov) % SECTOR else 0
    ensures var c := CutBack(s, entries, len, done);
            && c.iov == Trim(s.iov, extra) && c.todo == TotalLen(c.iov) == TotalLen(s.iov) - extra
            && |c.iov| <= |s.iov| && (c.todo == 0 ==> TotalLen(s.iov) == 0)
            && (|s.iov| == IOV_MAX ==> c.todo % SECTOR == 0)
  {
    extra := if |s.iov| == IOV_MAX then TotalLen(s.iov) % SECTOR else 0;
    TrimAddrs(s.iov, extra);
    SectorMultiples(TotalLen(s.iov), 0);
  }

  lemma CutBackOk(prdt: seq<Prd>, len: nat, done: nat, s: Scan)
    requires done <= len && ScanEnd(prdt, s, done, len - done)
    requires |s.iov| == IOV_MAX ==> TotalLen(s.iov) >= SECTOR
    ensures RoundOk(prdt, len, done, CutBack(s, |prdt|, len, done))
  {
    var extra := CutBackParts(s, |prdt|, len, done);
    if s.iov != [] { CutBackTakes(prdt, s, done, extra); }
  }

  lemma RoundTakesStream(prdt: seq<Prd>, len: nat, done: nat)
    requires done <= len && SectorFits(prdt, len, done)
    ensures RoundOk(prdt, len, done, BuildIovSpec(prdt, len, done))
  {
    assert prdt[..0] == [];
    ScanResult(prdt, 0, done, len - done, [], done);
    CutBackOk(prdt, len, done, ScanFrom(prdt, 0, done, len - done, []));
  }

  // ----- when the assertion of the source fires

  // From the entry that holds byte 'done', IOV_MAX entries end within a sector.
  ghost predicate Tight(prdt: seq<Prd>, i: nat, done: nat) {
    && i + IOV_MAX <= |prdt|
    && |Stream(prdt[..i])| <= done < |Stream(prdt[..i + 1])|
    && |Stream(prdt[..i + IOV_MAX])| < done + SECTOR
  }

  lemma StreamNext(prdt: seq<Prd>, i: nat)
    requires i < |prdt|
    ensures |Stream(prdt[..i + 1])| == |Stream(prdt[..i])| + Size(prdt[i])
  {
    assert prdt[..i + 1][..i] == prdt[..i];
  }

  lemma {:induction false} StreamGrows(prdt: seq<Prd>, i: nat, j: nat)
    requires i <= j <= |prdt|
    ensures |Stream(prdt[..i])| <= |Stream(prdt[..j])|
    decreases j - i
  {
    if i < j {
      StreamNext(prdt, j - 1);
      StreamGrows(prdt, i, j - 1);
    }
  }

  // Entries before the one that holds byte 'done' are skipped.
  lemma {:induction false} SkipsTo(prdt: seq<Prd>, j: nat, i: nat, done: nat, left: nat)
    requires j <= i <= |prdt| && |Stream(prdt[..i])| <= done && left > 0
    ensures |Stream(prdt[..j])| <= done
    ensures ScanFrom(prdt, j, done - |Stream(prdt[..j])|, left, [])
         == ScanFrom(prdt, i, done - |Stream(prdt[..i])|, left, [])
    decreases i - j
  {
    StreamGrows(prdt, j, i);
    if j < i {
      StreamNext(prdt, j);
      StreamGrows(prdt, j + 1, i);
      SkipsTo(prdt, j + 1, i, done, left);
    }
  }

  // Having taken acc from entry i on, the scan is in front of the next entry.
  ghost predicate Taking(prdt: seq<Prd>, i: nat, acc: seq<Iov>, skip: nat, left: nat, done: nat) {
    && |acc| <= IOV_MAX && i + |acc| <= |prdt| && left > 0 && TotalLen(acc) + left >= SECTOR
    && done + TotalLen(acc) == |Stream(prdt[..i + |acc|])| + skip && (acc != [] ==> skip == 0)
    && (i + |acc| < |prdt| ==> skip < Size(prdt[i + |acc|]))
  }

  // A whole entry taken, with more to come.
  lemma TakesEntry(prdt: seq<Prd>, i: nat, acc: seq<Iov>, skip: nat, left: nat, done: nat)
    requires Taking(prdt, i, acc, skip, left, done) && |acc| < IOV_MAX && i + |acc| < |prdt|
    requires Size(prdt[i + |acc|]) - skip < left
    ensures var n := Size(prdt[i + |acc|]) - skip;
            Taking(prdt, i, acc + [Iov(prdt[i + |acc|].dba + skip, n)], 0, left - n, done)
  {
    var n := Size(prdt[i + |acc|]) - skip;
    AppendPiece(acc, Iov(prdt[i + |acc|].dba + skip, n));
    StreamNext(prdt, i + |acc|);
  }

  ghost predicate Fires(s: Scan) { |s.iov| == IOV_MAX && TotalLen(s.iov) < SECTOR }

  // The last entry needed ends the scan with a sector or more.
  lemma TakesLast(prdt: seq<Prd>, i: nat, acc: seq<Iov>, skip: nat, left: nat, done: nat)
    requires Taking(prdt, i, acc, skip, left, done) && |acc| < IOV_MAX && i + |acc| < |prdt|
    requires Size(prdt[i + |acc|]) - skip >= left
    ensures !Fires(ScanFrom(prdt, i + |acc|, skip, left, acc))
    ensures i + IOV_MAX <= |prdt| ==> |Stream(prdt[..i + IOV_MAX])| >= done + SECTOR
  {
    AppendPiece(acc, Iov(prdt[i + |acc|].dba + skip, left));
    StreamNext(prdt, i + |acc|);
    if i + IOV_MAX <= |prdt| { StreamGrows(prdt, i + |acc| + 1, i + IOV_MAX); }
  }

  lemma {:induction false} TakeFires(prdt: seq<Prd>, i: nat, acc: seq<Iov>, skip: nat, left: nat, done: nat)
    requires Taking(prdt, i, acc, skip, left, done)
    ensures Fires(ScanFrom(prdt, i + |acc|, skip, left, acc)) <==>
            i + IOV_MAX <= |prdt| && |Stream(prdt[..i + IOV_MAX])| < done + SECTOR
    decreases |prdt| - i - |acc|
  {
    if |acc| < IOV_MAX && i + |acc| < |prdt| {
      var n := Size(prdt[i + |acc|]) - skip;
      if n < left {
        TakesEntry(prdt, i, acc, skip, left, done);
        TakeFires(prdt, i, acc + [Iov(prdt[i + |acc|].dba + skip, n)], 0, left - n, done);
      } else {
        TakesLast(prdt, i, acc, skip, left, done);
      }
    }
  }

  /** The assertion fires exactly when the 33 entries from the one that holds byte 'done'
      end before a whole sector. */
  lemma SectorFitsIff(prdt: seq<Prd>, len: nat, done: nat, i: nat)
    requires done < len && len % SECTOR == 0 && done % SECTOR == 0
    requires i < |prdt| && |Stream(prdt[..i])| <= done < |Stream(prdt[..i + 1])|
    ensures SectorFits(prdt, len, done) <==> !Tight(prdt, i, done)
  {
    SectorMultiples(done, len - done);
    StreamNext(prdt, i);
    assert prdt[..0] == [];
    SkipsTo(prdt, 0, i, done, len - done);
    TakeFires(prdt, i, [], done - |Stream(prdt[..i])|, len - done, done);
  }

  // The entry that holds a byte of the stream.
  lemma {:induction false} EntryOf(prdt: seq<Prd>, done: nat, n: nat) returns (i: nat)
    requires n <= |prdt| && done < |Stream(prdt[..n])|
    ensures i < n && |Stream(prdt[..i])| <= done < |Stream(prdt[..i + 1])|
  {
    if done >= |Stream(prdt[..n - 1])| { i := n - 1; } else { i := EntryOf(prdt, done, n - 1); }
  }

  // Behind the stream there is nothing to take.
  lemma PastEnd(prdt: seq<Prd>, len: nat, done: nat)
    requires done <= len && (done == len || |Stream(prdt)| <= done)
    ensures SectorFits(prdt, len, done)
  {
    if done < len {
      assert prdt[..0] == [] && prdt[..|prdt|] == prdt;
      SkipsTo(prdt, 0, |prdt|, done, len - done);
    }
  }

  // No round of the transfer fires the assertion.
  ghost predicate SectorsFit(prdt: seq<Prd>, len: nat) {
    forall done: nat :: done <= len && done % SECTOR == 0 ==> SectorFits(prdt, len, done)
  }

  ghost predicate NowhereTight(prdt: seq<Prd>, len: nat) {
    forall i: nat, done: nat :: done < len && done % SECTOR == 0 ==> !Tight(prdt, i, done)
  }

  /** No round of a transfer can fire it exactly when, from no sector boundary below the
      length, 33 entries end before the next. */
  lemma SectorsFitIff(prdt: seq<Prd>, len: nat)
    requires len % SECTOR == 0
    ensures SectorsFit(prdt, len) <==> NowhereTight(prdt, len)
  {
    forall i: nat, done: nat | done < len && done % SECTOR == 0 && Tight(prdt, i, done)
      ensures !SectorFits(prdt, len, done)
    {
      SectorFitsIff(prdt, len, done, i);
    }
    if NowhereTight(prdt, len) {
      forall done: nat | done <= len && done % SECTOR == 0 ensures SectorFits(prdt, len, done) {
        if done == len || |Stream(prdt)| <= done {
          PastEnd(prdt, len, done);
        } else {
          assert prdt[..|prdt|] == prdt;
          var i := EntryOf(prdt, done, |prdt|);
          SectorFitsIff(prdt, len, done, i);
        }
      }
    }
  }

  ghost predicate Sizes16(prdt: seq<Prd>) {
    forall k :: 0 <= k < |prdt| ==> Size(prdt[k]) >= 16
  }

  lemma {:induction false} SixteenGrows(prdt: seq<Prd>, i: nat, n: nat)
    requires Sizes16(prdt) && i + n <= |prdt|
    ensures |Stream(prdt[..i + n])| >= |Stream(prdt[..i])| + 16 * n
  {
    if n > 0 {
      SixteenGrows(prdt, i, n - 1);
      StreamNext(prdt, i + n - 1);
    }
  }

  /** Entries of 16 bytes are enough for it never to fire. */
  lemma SixteenBytesSuffice(prdt: seq<Prd>, len: nat)
    requires len % SECTOR == 0 && Sizes16(prdt)
    ensures SectorsFit(prdt, len)
  {
    forall i: nat, done: nat | done < len && done % SECTOR == 0 ensures !Tight(prdt, i, done) {
      if i + IOV_MAX <= |prdt| { SixteenGrows(prdt, i + 1, IOV_MAX - 1); }
    }
    SectorsFitIff(prdt, len);
  }

  ghost predicate OneByteEntries(prdt: seq<Prd>) {
    |prdt| == IOV_MAX && forall k :: 0 <= k < IOV_MAX ==> Size(prdt[k]) == 1
  }

  lemma {:induction false} ScanTiny(prdt: seq<Prd>, i: nat, acc: seq<Iov>)
    requires OneByteEntries(prdt) && i <= IOV_MAX && |acc| == i && TotalLen(acc) == i
    ensures var s := ScanFrom(prdt, i, 0, SECTOR - i, acc); |s.iov| == IOV_MAX && TotalLen(s.iov) == IOV_MAX
    decreases IOV_MAX - i
  {
    if i < IOV_MAX {
      var acc' := acc + [Iov(prdt[i].dba + 0, 1)];
      assert acc'[..i] == acc;
      ScanTiny(prdt, i + 1, acc');
    }
  }

  /** Without a lower bound it does fire: 33 one-byte entries for one sector. */
  lemma OneByteEntriesFail(prdt: seq<Prd>)
    requires OneByteEntries(prdt)
    ensures !SectorFits(prdt, SECTOR, 0)
  {
    ScanTiny(prdt, 0, []);
  }

  // ----- all rounds of one command

  // None of the rounds from 'done' on fires the assertion.
  ghost predicate RoundsFit(prdt: seq<Prd>, len: nat, done: nat)
    requires done <= len
    decreases len - done
  {
    var c := BuildIovSpec(prdt, len, done);
    SectorFits(prdt, len, done) && (c.more && c.todo > 0 ==> RoundsFit(prdt, len, done + c.todo))
  }

  lemma {:induction false} FitEverywhere(prdt: seq<Prd>, len: nat, done: nat)
    requires done <= len && done % SECTOR == 0 && SectorsFit(prdt, len)
    ensures RoundsFit(prdt, len, done)
    decreases len - done
  {
    RoundTakesStream(prdt, len, done);
    var c := BuildIovSpec(prdt, len, done);
    SectorMultiples(done, c.todo);
    if c.more { FitEverywhere(prdt, len, done + c.todo); }
  }

  function Chunks(prdt: seq<Prd>, len: nat, done: nat): seq<Chunk>
    requires done <= len && len % SECTOR == 0 && done % SECTOR == 0 && RoundsFit(prdt, len, done)
    decreases len - done
  {
    RoundTakesStream(prdt, len, done);
    var c := BuildIovSpec(prdt, len, done);
    SectorMultiples(done, c.todo);
    if c.more then [c] + Chunks(prdt, len, done + c.todo) else [c]
  }

  // The byte count reported in the command header when the last round ends.
  function FinalDone(cs: seq<Chunk>, done: nat): nat {
    if cs == [] then done else FinalDone(cs[1..], done + cs[0].todo)
  }

  /** The command ends with every byte transferred iff its PRDT covers the length. */
  lemma {:induction false} ReachesLen(prdt: seq<Prd>, len: nat, done: nat)
    requires done <= len && len % SECTOR == 0 && done % SECTOR == 0 && RoundsFit(prdt, len, done)
    requires done <= |Stream(prdt)|
    ensures FinalDone(Chunks(prdt, len, done), done) == len <==> len <= |Stream(prdt)|
    decreases len - done
  {
    RoundTakesStream(prdt, len, done);
    var c := BuildIovSpec(prdt, len, done);
    SectorMultiples(done, c.todo);
    SectorMultiples(done, len - done);
    if c.more {
      ReachesLen(prdt, len, done + c.todo);
      assert Chunks(prdt, len, done) == [c] + Chunks(prdt, len, done + c.todo);
    } else {
      assert Chunks(prdt, len, done) == [c] + [];
      assert FinalDone([c], done) == done + c.todo;
    }
  }

  // ----- the loop of the source

  method BuildIov(prdt: seq<Prd>, len: nat, done: nat) returns (iov: seq<Iov>, todo: nat, more: bool)
    requires done <= len && SectorFits(prdt, len, done)
    ensures Chunk(iov, todo, more) == BuildIovSpec(prdt, len, done)
  {
    var i, skip, left := 0, done, len - done;
    iov, todo := [], 0;
    while i < |prdt| && |iov| < IOV_MAX && left > 0
      invariant 0 <= i <= |prdt| && skip >= 0 && left >= 0
      invariant todo == TotalLen(iov)
      invariant ScanFrom(prdt, i, skip, left, iov) == ScanFrom(prdt, 0, done, len - done, [])
    {
      var dbcsz := Size(prdt[i]);
      if dbcsz <= skip {
        skip := skip - dbcsz;
      } else {
        dbcsz := dbcsz - skip;
        if dbcsz > left {
          dbcsz := left;
        }
        ghost var before := iov;
        iov := iov + [Iov(prdt[i].dba + skip, dbcsz)];
        assert iov[..|iov| - 1] == before;
        todo := todo + dbcsz;
        left := left - dbcsz;
        skip := 0;
      }
      i := i + 1;
    }
    if |iov| == IOV_MAX {
      var extra := todo % SECTOR;
      todo := todo - extra;
      assert todo > 0;
      ghost var end := Trim(iov, extra);
      while extra > 0
        invariant 0 <= extra <= TotalLen(iov)
        invariant Trim(iov, extra) == end
        decreases |iov|
      {
        var last := iov[|iov| - 1];
        if last.len > extra {
          iov := iov[..|iov| - 1] + [Iov(last.base, last.len - extra)];
          break;
        }
        extra := extra - last.len;
        iov := iov[..|iov| - 1];
      }
    }
    more := done + todo < len && i < |prdt|;
  }
}
