/**
 Moving the bytes of a transfer (bhyve/block_if.c, blockif_proc), and what all the
 rounds of one command move when other commands' rounds are executed in between.
 */
module DiskTransfer {
  import opened Bytes
  import opened BlockQueue
  import opened AhciIov
  import opened Sequences

  datatype Memory = Memory(ram: seq<byte>, disk: seq<byte>)

  predicate InRam(iov: seq<Iov>, size: nat) {
    forall i :: 0 <= i < |iov| ==> iov[i].base + iov[i].len <= size
  }

  // s with data written from index 'at' on.
  function Patch(s: seq<byte>, at: nat, data: seq<byte>): (r: seq<byte>)
    requires at + |data| <= |s|
    ensures |r| == |s|
  {
    seq(|s|, k requires 0 <= k < |s| => if at <= k < at + |data| then data[k - at] else s[k])
  }

  // Address a once disk[offset..] has been copied to the pieces, first piece first.
  function ReadByte(ram: seq<byte>, disk: seq<byte>, offset: nat, iov: seq<Iov>, a: nat): byte
    requires offset + TotalLen(iov) <= |disk| && a < |ram|
  {
    if iov == [] then ram[a]
    else
      var init, v := iov[..|iov| - 1], iov[|iov| - 1];
      if v.base <= a < v.base + v.len then disk[offset + TotalLen(init) + (a - v.base)]
      else ReadByte(ram, disk, offset, init, a)
  }

  function ReadInto(ram: seq<byte>, disk: seq<byte>, offset: nat, iov: seq<Iov>): (r: seq<byte>)
    requires offset + TotalLen(iov) <= |disk|
    ensures |r| == |ram|
  {
    seq(|ram|, a requires 0 <= a < |ram| => ReadByte(ram, disk, offset, iov, a))
  }

  // Disk byte b once the pieces have been copied to disk[offset..], first piece first.
  function WriteByte(ram: seq<byte>, disk: seq<byte>, offset: nat, iov: seq<Iov>, b: nat): byte
    requires InRam(iov, |ram|) && b < |disk|
  {
    if iov == [] then disk[b]
    else
      var init, v := iov[..|iov| - 1], iov[|iov| - 1];
      var at := offset + TotalLen(init);
      if at <= b < at + v.len then ram[v.base + (b - at)] else WriteByte(ram, disk, offset, init, b)
  }

  function WriteFrom(ram: seq<byte>, disk: seq<byte>, offset: nat, iov: seq<Iov>): (r: seq<byte>)
    requires InRam(iov, |ram|)
    ensures |r| == |disk|
  {
    seq(|disk|, b requires 0 <= b < |disk| => WriteByte(ram, disk, offset, iov, b))
  }

  lemma RangeHas(base: nat, len: nat, a: nat)
    ensures a in Range(base, len) <==> base <= a < base + len
  {
    if base <= a < base + len { assert Range(base, len)[a - base] == a; }
  }

  ghost predicate Differ(s: seq<nat>, i: nat, j: nat)
    requires i < |s| && j < |s|
  {
    s[i] != s[j]
  }

  ghost predicate Distinct(s: seq<nat>) {
    forall i, j :: 0 <= i < j < |s| ==> Differ(s, i, j)
  }

  lemma DistinctSplit(x: seq<nat>, y: seq<nat>)
    requires Distinct(x + y)
    ensures Distinct(x) && Distinct(y)
    ensures forall k :: 0 <= k < |x| ==> x[k] !in y
  {
    var s := x + y;
    forall i, j | 0 <= i < j < |x| ensures Differ(x, i, j) { assert Differ(s, i, j); }
    forall i, j | 0 <= i < j < |y| ensures Differ(y, i, j) { assert Differ(s, |x| + i, |x| + j); }
    forall i, j | 0 <= i < |x| && 0 <= j < |y| ensures x[i] != y[j] { assert Differ(s, i, |x| + j); }
  }

  lemma {:induction false} ReadOutside(ram: seq<byte>, disk: seq<byte>, offset: nat, iov: seq<Iov>, a: nat)
    requires offset + TotalLen(iov) <= |disk| && a < |ram| && a !in Addrs(iov)
    ensures ReadByte(ram, disk, offset, iov, a) == ram[a]
  {
    if iov != [] {
      var init, v := iov[..|iov| - 1], iov[|iov| - 1];
      assert Addrs(iov) == Addrs(init) + Range(v.base, v.len);
      RangeHas(v.base, v.len, a);
      ReadOutside(ram, disk, offset, init, a);
    }
  }

  lemma LastAddrs(iov: seq<Iov>, k: nat)
    requires iov != [] && k < TotalLen(iov)
    ensures var init, v := iov[..|iov| - 1], iov[|iov| - 1];
            Addrs(iov)[k] == if k < TotalLen(init) then Addrs(init)[k] else v.base + (k - TotalLen(init))
  {
  }

  lemma {:induction false} ReadInside(ram: seq<byte>, disk: seq<byte>, offset: nat, iov: seq<Iov>, k: nat)
    requires InRam(iov, |ram|) && offset + TotalLen(iov) <= |disk|
    requires Distinct(Addrs(iov)) && k < TotalLen(iov)
    ensures Addrs(iov)[k] < |ram|
    ensures ReadByte(ram, disk, offset, iov, Addrs(iov)[k]) == disk[offset + k]
  {
    var init, v := iov[..|iov| - 1], iov[|iov| - 1];
    LastAddrs(iov, k);
    if k < TotalLen(init) {
      DistinctSplit(Addrs(init), Range(v.base, v.len));
      ReadInside(ram, disk, offset, init, k);
      RangeHas(v.base, v.len, Addrs(init)[k]);
    }
  }

  lemma {:induction false} WriteOutside(ram: seq<byte>, disk: seq<byte>, offset: nat, iov: seq<Iov>, b: nat)
    requires InRam(iov, |ram|) && b < |disk| && !(offset <= b < offset + TotalLen(iov))
    ensures WriteByte(ram, disk, offset, iov, b) == disk[b]
  {
    if iov != [] { WriteOutside(ram, disk, offset, iov[..|iov| - 1], b); }
  }

  lemma {:induction false} WriteInside(ram: seq<byte>, disk: seq<byte>, offset: nat, iov: seq<Iov>, k: nat)
    requires InRam(iov, |ram|) && offset + TotalLen(iov) <= |disk| && k < TotalLen(iov)
    ensures Addrs(iov)[k] < |ram|
    ensures WriteByte(ram, disk, offset, iov, offset + k) == ram[Addrs(iov)[k]]
  {
    var init := iov[..|iov| - 1];
    LastAddrs(iov, k);
    if k < TotalLen(init) { WriteInside(ram, disk, offset, init, k); }
  }

  // ----- a run of block requests from several owners

  datatype IoOp = IoOp(owner: nat, write: bool, offset: nat, iov: seq<Iov>)

  predicate Valid(op: IoOp, m: Memory) {
    InRam(op.iov, |m.ram|) && op.offset + TotalLen(op.iov) <= |m.disk|
  }

  function Exec(m: Memory, op: IoOp): (r: Memory)
    requires Valid(op, m)
    ensures |r.ram| == |m.ram| && |r.disk| == |m.disk|
  {
    if op.write then m.(disk := WriteFrom(m.ram, m.disk, op.offset, op.iov))
    else m.(ram := ReadInto(m.ram, m.disk, op.offset, op.iov))
  }

  ghost predicate AllValid(ops: seq<IoOp>, m: Memory) {
    forall i :: 0 <= i < |ops| ==> Valid(ops[i], m)
  }

  function ExecAll(m: Memory, ops: seq<IoOp>): (r: Memory)
    requires AllValid(ops, m)
    ensures |r.ram| == |m.ram| && |r.disk| == |m.disk|
    decreases |ops|
  {
    if ops == [] then m else ExecAll(Exec(m, ops[0]), ops[1..])
  }

  lemma {:induction false} ExecConcat(m: Memory, a: seq<IoOp>, b: seq<IoOp>)
    requires AllValid(a + b, m)
    ensures AllValid(a, m) && AllValid(b, ExecAll(m, a)) && ExecAll(m, a + b) == ExecAll(ExecAll(m, a), b)
    decreases |a|
  {
    forall i | 0 <= i < |a| ensures Valid(a[i], m) { assert Valid((a + b)[i], m); }
    if a == [] {
      assert a + b == b;
    } else {
      var m' := Exec(m, a[0]);
      assert (a + b)[1..] == a[1..] + b;
      forall i | 0 <= i < |a[1..] + b| ensures Valid((a[1..] + b)[i], m') { assert Valid((a + b)[i + 1], m); }
      ExecConcat(m', a[1..], b);
    }
  }

  function OwnedBy(ops: seq<IoOp>, owner: nat): seq<IoOp> {
    if ops == [] then []
    else (if ops[0].owner == owner then [ops[0]] else []) + OwnedBy(ops[1..], owner)
  }

  function RoundOps(owner: nat, write: bool, cs: seq<Chunk>, base: nat, done: nat): seq<IoOp> {
    if cs == [] then []
    else [IoOp(owner, write, base + done, cs[0].iov)] + RoundOps(owner, write, cs[1..], base, done + cs[0].todo)
  }

  // A command: 'len' bytes between the disk at 'base' and the PRDT's buffers.
  datatype Transfer = Transfer(owner: nat, write: bool, prdt: seq<Prd>, base: nat, len: nat)

  ghost predicate WellFormed(t: Transfer) {
    t.len % SECTOR == 0 && RoundsFit(t.prdt, t.len, 0) && t.len <= |Stream(t.prdt)| && Distinct(Buffer(t))
  }

  ghost function Buffer(t: Transfer): (r: seq<nat>) {
    if t.len <= |Stream(t.prdt)| then Stream(t.prdt)[..t.len] else Stream(t.prdt)
  }

  // op neither changes the source nor the target of t.
  ghost predicate LeavesAlone(op: IoOp, t: Transfer) {
    if op.write then op.offset + TotalLen(op.iov) <= t.base || t.base + t.len <= op.offset
    else forall a :: a in Addrs(op.iov) ==> a !in Buffer(t)
  }

  ghost predicate OthersLeaveAlone(ops: seq<IoOp>, t: Transfer) {
    forall i :: 0 <= i < |ops| && ops[i].owner != t.owner ==> LeavesAlone(ops[i], t)
  }

  // Byte k still reads 'data' at its source, and at its target too once moved.
  ghost predicate ByteAt(m: Memory, t: Transfer, k: nat, done: nat, data: seq<byte>)
    requires k < t.len && |data| == t.len
  {
    && k < |Buffer(t)| && Buffer(t)[k] < |m.ram| && t.base + k < |m.disk|
    && (t.write || k < done ==> m.ram[Buffer(t)[k]] == data[k])
    && (!t.write || k < done ==> m.disk[t.base + k] == data[k])
  }

  ghost predicate Progress(m: Memory, t: Transfer, done: nat, data: seq<byte>) {
    && |data| == t.len && done <= t.len
    && (forall k :: 0 <= k < t.len ==> ByteAt(m, t, k, done, data))
  }

  lemma OtherKeepsProgress(m: Memory, op: IoOp, t: Transfer, done: nat, data: seq<byte>)
    requires Progress(m, t, done, data) && Valid(op, m) && LeavesAlone(op, t)
    ensures Progress(Exec(m, op), t, done, data)
  {
    forall k | 0 <= k < t.len ensures ByteAt(Exec(m, op), t, k, done, data) {
      assert ByteAt(m, t, k, done, data);
      if op.write {
        WriteOutside(m.ram, m.disk, op.offset, op.iov, t.base + k);
      } else {
        ReadOutside(m.ram, m.disk, op.offset, op.iov, Buffer(t)[k]);
      }
    }
  }

  ghost predicate NextPiece(t: Transfer, iov: seq<Iov>, done: nat) {
    var end := done + TotalLen(iov);
    end <= t.len <= |Stream(t.prdt)| && Addrs(iov) == Buffer(t)[done..end]
  }

  lemma PieceAt(t: Transfer, iov: seq<Iov>, done: nat, k: nat)
    requires NextPiece(t, iov, done) && done <= k < done + TotalLen(iov)
    ensures Addrs(iov)[k - done] == Buffer(t)[k]
  {
  }

  lemma PieceDistinct(t: Transfer, iov: seq<Iov>, done: nat, k: nat)
    requires NextPiece(t, iov, done) && Distinct(Buffer(t)) && k < t.len
    ensures Distinct(Addrs(iov))
    ensures !(done <= k < done + TotalLen(iov)) ==> Buffer(t)[k] !in Addrs(iov)
  {
    var a, buf, n := Addrs(iov), Buffer(t), TotalLen(iov);
    forall i, j | 0 <= i < j < n ensures Differ(a, i, j) {
      PieceAt(t, iov, done, done + i);
      PieceAt(t, iov, done, done + j);
      assert Differ(buf, done + i, done + j);
    }
    if !(done <= k < done + n) {
      forall j | 0 <= j < n ensures a[j] != buf[k] {
        PieceAt(t, iov, done, done + j);
        assert if k < done then Differ(buf, k, done + j) else Differ(buf, done + j, k);
      }
    }
  }

  lemma OwnWrites(m: Memory, t: Transfer, iov: seq<Iov>, done: nat, k: nat)
    requires NextPiece(t, iov, done) && Valid(IoOp(t.owner, true, t.base + done, iov), m) && t.base + k < |m.disk|
    ensures var d := WriteByte(m.ram, m.disk, t.base + done, iov, t.base + k);
            if done <= k < done + TotalLen(iov) then Buffer(t)[k] < |m.ram| && d == m.ram[Buffer(t)[k]]
            else d == m.disk[t.base + k]
  {
    if done <= k < done + TotalLen(iov) {
      PieceAt(t, iov, done, k);
      WriteInside(m.ram, m.disk, t.base + done, iov, k - done);
    } else {
      WriteOutside(m.ram, m.disk, t.base + done, iov, t.base + k);
    }
  }

  lemma OwnReads(m: Memory, t: Transfer, iov: seq<Iov>, done: nat, k: nat)
    requires WellFormed(t) && NextPiece(t, iov, done) && Valid(IoOp(t.owner, false, t.base + done, iov), m)
    requires k < t.len && Buffer(t)[k] < |m.ram|
    ensures var r := ReadByte(m.ram, m.disk, t.base + done, iov, Buffer(t)[k]);
            if done <= k < done + TotalLen(iov) then r == m.disk[t.base + k] else r == m.ram[Buffer(t)[k]]
  {
    PieceDistinct(t, iov, done, k);
    if done <= k < done + TotalLen(iov) {
      PieceAt(t, iov, done, k);
      ReadInside(m.ram, m.disk, t.base + done, iov, k - done);
    } else {
      ReadOutside(m.ram, m.disk, t.base + done, iov, Buffer(t)[k]);
    }
  }

  lemma OwnWriteAdvances(m: Memory, t: Transfer, iov: seq<Iov>, done: nat, end: nat, data: seq<byte>)
    requires t.write && Progress(m, t, done, data) && NextPiece(t, iov, done) && end == done + TotalLen(iov)
    requires Valid(IoOp(t.owner, true, t.base + done, iov), m)
    ensures Progress(Memory(m.ram, WriteFrom(m.ram, m.disk, t.base + done, iov)), t, end, data)
  {
    var r := Memory(m.ram, WriteFrom(m.ram, m.disk, t.base + done, iov));
    forall k | 0 <= k < t.len ensures ByteAt(r, t, k, end, data) {
      assert ByteAt(m, t, k, done, data);
      OwnWrites(m, t, iov, done, k);
    }
  }

  lemma OwnReadAdvances(m: Memory, t: Transfer, iov: seq<Iov>, done: nat, end: nat, data: seq<byte>)
    requires WellFormed(t) && !t.write
    requires Progress(m, t, done, data) && NextPiece(t, iov, done) && end == done + TotalLen(iov)
    requires Valid(IoOp(t.owner, false, t.base + done, iov), m)
    ensures Progress(Memory(ReadInto(m.ram, m.disk, t.base + done, iov), m.disk), t, end, data)
  {
    var r := Memory(ReadInto(m.ram, m.disk, t.base + done, iov), m.disk);
    forall k | 0 <= k < t.len ensures ByteAt(r, t, k, end, data) {
      assert ByteAt(m, t, k, done, data);
      OwnReads(m, t, iov, done, k);
    }
  }

  lemma OwnAdvances(m: Memory, op: IoOp, t: Transfer, done: nat, end: nat, data: seq<byte>)
    requires WellFormed(t) && Progress(m, t, done, data) && NextPiece(t, op.iov, done)
    requires op == IoOp(t.owner, t.write, t.base + done, op.iov) && Valid(op, m) && end == done + TotalLen(op.iov)
    ensures Progress(Exec(m, op), t, end, data)
  {
    if t.write {
      OwnWriteAdvances(m, t, op.iov, done, end, data);
    } else {
      OwnReadAdvances(m, t, op.iov, done, end, data);
    }
  }

  // What remains of t's rounds once 'done' bytes have been moved.
  ghost predicate Remaining(cs: seq<Chunk>, t: Transfer, done: nat)
    requires WellFormed(t)
  {
    && done <= t.len
    && (if done == t.len then cs == []
        else done % SECTOR == 0 && RoundsFit(t.prdt, t.len, done) && cs == Chunks(t.prdt, t.len, done))
  }

  lemma NextRound(cs: seq<Chunk>, t: Transfer, done: nat)
    requires WellFormed(t) && Remaining(cs, t, done) && cs != []
    ensures TotalLen(cs[0].iov) == cs[0].todo && NextPiece(t, cs[0].iov, done)
    ensures Remaining(cs[1..], t, done + cs[0].todo)
  {
    RoundTakesStream(t.prdt, t.len, done);
    var c := BuildIovSpec(t.prdt, t.len, done);
    SectorMultiples(done, c.todo);
    SectorMultiples(done, t.len - done);
    assert cs[0] == c && (!c.more ==> cs[1..] == []);
    if c.more { assert cs[1..] == Chunks(t.prdt, t.len, done + c.todo); }
    SliceOfPrefix(Buffer(t), Stream(t.prdt), done, done + c.todo);
  }

  lemma TailStillValid(m: Memory, ops: seq<IoOp>)
    requires ops != [] && AllValid(ops, m)
    ensures AllValid(ops[1..], Exec(m, ops[0]))
  {
    forall i | 0 <= i < |ops[1..]| ensures Valid(ops[1..][i], Exec(m, ops[0])) { assert Valid(ops[i + 1], m); }
  }

  lemma TailLeavesAlone(ops: seq<IoOp>, t: Transfer)
    requires ops != [] && OthersLeaveAlone(ops, t)
    ensures OthersLeaveAlone(ops[1..], t)
  {
    forall i | 0 <= i < |ops[1..]| && ops[1..][i].owner != t.owner ensures LeavesAlone(ops[1..][i], t) {
      assert LeavesAlone(ops[i + 1], t);
    }
  }

  ghost predicate OwnIs(ops: seq<IoOp>, t: Transfer, cs: seq<Chunk>, done: nat) {
    OwnedBy(ops, t.owner) == RoundOps(t.owner, t.write, cs, t.base, done)
  }

  lemma OwnTail(ops: seq<IoOp>, t: Transfer, cs: seq<Chunk>, done: nat)
    requires ops != [] && OwnIs(ops, t, cs, done)
    ensures ops[0].owner != t.owner ==> OwnIs(ops[1..], t, cs, done)
    ensures ops[0].owner == t.owner ==>
              cs != [] && ops[0] == IoOp(t.owner, t.write, t.base + done, cs[0].iov)
              && OwnIs(ops[1..], t, cs[1..], done + cs[0].todo)
  {
    if ops[0].owner == t.owner {
      assert OwnedBy(ops, t.owner)[1..] == OwnedBy(ops[1..], t.owner);
      assert cs != [];
      assert RoundOps(t.owner, t.write, cs, t.base, done)[1..]
          == RoundOps(t.owner, t.write, cs[1..], t.base, done + cs[0].todo);
    }
  }

  lemma {:induction false} InterleavedRun(m: Memory, ops: seq<IoOp>, t: Transfer, cs: seq<Chunk>, done: nat,
                                          data: seq<byte>)
    requires WellFormed(t) && AllValid(ops, m) && Progress(m, t, done, data)
    requires Remaining(cs, t, done) && OwnIs(ops, t, cs, done) && OthersLeaveAlone(ops, t)
    ensures Progress(ExecAll(m, ops), t, t.len, data)
    decreases |ops|
  {
    if ops == [] {
      assert cs == [];
    } else {
      TailStillValid(m, ops);
      TailLeavesAlone(ops, t);
      OwnTail(ops, t, cs, done);
      if ops[0].owner == t.owner {
        NextRound(cs, t, done);
        OwnAdvances(m, ops[0], t, done, done + cs[0].todo, data);
        InterleavedRun(Exec(m, ops[0]), ops[1..], t, cs[1..], done + cs[0].todo, data);
      } else {
        OtherKeepsProgress(m, ops[0], t, done, data);
        InterleavedRun(Exec(m, ops[0]), ops[1..], t, cs, done, data);
      }
    }
  }

  // Byte k of the flat transfer from m to r.
  ghost predicate ByteMoved(m: Memory, r: Memory, t: Transfer, k: nat) {
    && k < |Buffer(t)| && Buffer(t)[k] < |m.ram| == |r.ram| && t.base + k < |m.disk| == |r.disk|
    && (t.write ==> r.disk[t.base + k] == m.ram[Buffer(t)[k]])
    && (!t.write ==> r.ram[Buffer(t)[k]] == m.disk[t.base + k])
  }

  ghost predicate Delivered(m: Memory, r: Memory, t: Transfer) {
    forall k :: 0 <= k < t.len ==> ByteMoved(m, r, t, k)
  }

  ghost function Source(m: Memory, t: Transfer): (d: seq<byte>)
    requires t.len <= |Stream(t.prdt)| && t.base + t.len <= |m.disk|
    requires forall k :: 0 <= k < t.len ==> Buffer(t)[k] < |m.ram|
    ensures |d| == t.len
  {
    if t.write then seq(t.len, k requires 0 <= k < t.len => m.ram[Buffer(t)[k]])
    else m.disk[t.base..t.base + t.len]
  }

  lemma ProgressStarts(m: Memory, t: Transfer)
    requires t.len <= |Stream(t.prdt)| && t.base + t.len <= |m.disk|
    requires forall k :: 0 <= k < t.len ==> Buffer(t)[k] < |m.ram|
    ensures Progress(m, t, 0, Source(m, t))
  {
    forall k | 0 <= k < t.len ensures ByteAt(m, t, k, 0, Source(m, t)) {}
  }

  lemma ProgressEnds(m: Memory, r: Memory, t: Transfer)
    requires t.len <= |Stream(t.prdt)| && t.base + t.len <= |m.disk|
    requires forall k :: 0 <= k < t.len ==> Buffer(t)[k] < |m.ram|
    requires |r.ram| == |m.ram| && |r.disk| == |m.disk| && Progress(r, t, t.len, Source(m, t))
    ensures Delivered(m, r, t)
  {
    forall k | 0 <= k < t.len ensures ByteMoved(m, r, t, k) {
      assert ByteAt(r, t, k, t.len, Source(m, t));
    }
  }

  /** Chunked equals flat: whatever other commands' rounds come in between, a read
      leaves disk[base..base+len] in the PRDT's buffers and a write leaves the
      buffers' bytes on the disk. */
  lemma ChunkedEqualsFlat(m: Memory, ops: seq<IoOp>, t: Transfer)
    requires WellFormed(t) && t.len > 0 && AllValid(ops, m) && OthersLeaveAlone(ops, t)
    requires t.base + t.len <= |m.disk| && forall k :: 0 <= k < t.len ==> Buffer(t)[k] < |m.ram|
    requires OwnedBy(ops, t.owner) == RoundOps(t.owner, t.write, Chunks(t.prdt, t.len, 0), t.base, 0)
    ensures Delivered(m, ExecAll(m, ops), t)
  {
    ProgressStarts(m, t);
    InterleavedRun(m, ops, t, Chunks(t.prdt, t.len, 0), 0, Source(m, t));
    ProgressEnds(m, ExecAll(m, ops), t);
  }

  // Only t's target differs between m and r.
  ghost predicate OnlyTarget(m: Memory, r: Memory, t: Transfer) {
    && |r.ram| == |m.ram| && |r.disk| == |m.disk|
    && (t.write ==> r.ram == m.ram)
    && (!t.write ==> r.disk == m.disk)
    && (forall a :: 0 <= a < |m.ram| && a !in Buffer(t) ==> r.ram[a] == m.ram[a])
    && (forall b :: 0 <= b < |m.disk| && !(t.base <= b < t.base + t.len) ==> r.disk[b] == m.disk[b])
  }

  lemma OneRoundOnlyTarget(m: Memory, t: Transfer, iov: seq<Iov>, done: nat)
    requires NextPiece(t, iov, done) && Valid(IoOp(t.owner, t.write, t.base + done, iov), m)
    ensures OnlyTarget(m, Exec(m, IoOp(t.owner, t.write, t.base + done, iov)), t)
  {
    var op := IoOp(t.owner, t.write, t.base + done, iov);
    var m' := Exec(m, op);
    forall a | 0 <= a < |m.ram| && a !in Buffer(t) ensures m'.ram[a] == m.ram[a] {
      if !t.write {
        assert forall j :: 0 <= j < TotalLen(iov) ==> Addrs(iov)[j] == Buffer(t)[done + j];
        ReadOutside(m.ram, m.disk, op.offset, iov, a);
      }
    }
    forall b | 0 <= b < |m.disk| && !(t.base <= b < t.base + t.len) ensures m'.disk[b] == m.disk[b] {
      if t.write { WriteOutside(m.ram, m.disk, op.offset, iov, b); }
    }
  }

  lemma OnlyTargetJoin(m: Memory, m': Memory, r: Memory, t: Transfer)
    requires OnlyTarget(m, m', t) && OnlyTarget(m', r, t)
    ensures OnlyTarget(m, r, t)
  {
  }

  /** And it moves nothing else: alone, a read changes only its buffers and a write
      only its disk range. */
  lemma {:induction false} NothingElseMoves(m: Memory, t: Transfer, cs: seq<Chunk>, done: nat)
    requires WellFormed(t) && Remaining(cs, t, done)
    requires AllValid(RoundOps(t.owner, t.write, cs, t.base, done), m)
    ensures OnlyTarget(m, ExecAll(m, RoundOps(t.owner, t.write, cs, t.base, done)), t)
    decreases |cs|
  {
    if cs != [] {
      var ops := RoundOps(t.owner, t.write, cs, t.base, done);
      assert ops[1..] == RoundOps(t.owner, t.write, cs[1..], t.base, done + cs[0].todo);
      NextRound(cs, t, done);
      assert Valid(ops[0], m);
      OneRoundOnlyTarget(m, t, cs[0].iov, done);
      TailStillValid(m, ops);
      NothingElseMoves(Exec(m, ops[0]), t, cs[1..], done + cs[0].todo);
      OnlyTargetJoin(m, Exec(m, ops[0]), ExecAll(m, ops), t);
    }
  }

  // ----- the copying loops of the source

  datatype Errno = Ok | ReadOnly | NotSupported

  // The C library's memcpy.
  method Memcpy(dst: array<byte>, at: nat, src: array<byte>, from: nat, n: nat)
    requires dst != src && at + n <= dst.Length && from + n <= src.Length
    modifies dst
    ensures dst[..] == Patch(old(dst[..]), at, src[..][from..from + n])
  {
    forall k | 0 <= k < n { dst[at + k] := src[from + k]; }
  }

  lemma ReadIntoNext(ram: seq<byte>, disk: seq<byte>, offset: nat, init: seq<Iov>, v: Iov)
    requires v.base + v.len <= |ram| && offset + TotalLen(init) + v.len <= |disk|
    ensures TotalLen(init + [v]) == TotalLen(init) + v.len
    ensures var at := offset + TotalLen(init);
            ReadInto(ram, disk, offset, init + [v])
            == Patch(ReadInto(ram, disk, offset, init), v.base, disk[at..at + v.len])
  {
    AppendPiece(init, v);
    assert (init + [v])[..|init|] == init;
  }

  lemma WriteFromNext(ram: seq<byte>, disk: seq<byte>, offset: nat, init: seq<Iov>, v: Iov)
    requires InRam(init, |ram|) && v.base + v.len <= |ram| && offset + TotalLen(init) + v.len <= |disk|
    ensures TotalLen(init + [v]) == TotalLen(init) + v.len && InRam(init + [v], |ram|)
    ensures WriteFrom(ram, disk, offset, init + [v])
         == Patch(WriteFrom(ram, disk, offset, init), offset + TotalLen(init), ram[v.base..v.base + v.len])
  {
    AppendPiece(init, v);
    assert (init + [v])[..|init|] == init;
  }

  lemma NextPrefix(iov: seq<Iov>, i: nat)
    requires i < |iov|
    ensures iov[..i + 1] == iov[..i] + [iov[i]]
    ensures TotalLen(iov[..i]) + iov[i].len <= TotalLen(iov)
  {
    AppendPiece(iov[..i], iov[i]);
    PrefixTotal(iov, i + 1);
  }

  method ProcRead(ram: array<byte>, disk: array<byte>, offset: nat, iov: seq<Iov>)
    requires ram != disk && InRam(iov, ram.Length) && offset + TotalLen(iov) <= disk.Length
    modifies ram
    ensures ram[..] == ReadInto(old(ram[..]), disk[..], offset, iov)
  {
    var addr := offset;
    for i := 0 to |iov|
      invariant addr == offset + TotalLen(iov[..i]) <= disk.Length
      invariant ram[..] == ReadInto(old(ram[..]), disk[..], offset, iov[..i])
    {
      NextPrefix(iov, i);
      ReadIntoNext(old(ram[..]), disk[..], offset, iov[..i], iov[i]);
      Memcpy(ram, iov[i].base, disk, addr, iov[i].len);
      addr := addr + iov[i].len;
    }
    assert iov[..|iov|] == iov;
  }

  method ProcWrite(ram: array<byte>, disk: array<byte>, offset: nat, iov: seq<Iov>)
    requires ram != disk && InRam(iov, ram.Length) && offset + TotalLen(iov) <= disk.Length
    modifies disk
    ensures disk[..] == WriteFrom(ram[..], old(disk[..]), offset, iov)
  {
    var addr := offset;
    for i := 0 to |iov|
      invariant addr == offset + TotalLen(iov[..i]) <= disk.Length
      invariant disk[..] == WriteFrom(ram[..], old(disk[..]), offset, iov[..i])
    {
      NextPrefix(iov, i);
      WriteFromNext(ram[..], old(disk[..]), offset, iov[..i], iov[i]);
      Memcpy(disk, addr, ram, iov[i].base, iov[i].len);
      addr := addr + iov[i].len;
    }
    assert iov[..|iov|] == iov;
  }

  method Proc(ram: array<byte>, disk: array<byte>, rdonly: bool, op: Op, offset: nat, iov: seq<Iov>)
    returns (err: Errno)
    requires ram != disk
    requires op == Read || (op == Write && !rdonly) ==>
               InRam(iov, ram.Length) && offset + TotalLen(iov) <= disk.Length
    modifies ram, disk
    ensures err == match op case Read => Ok case Write => if rdonly then ReadOnly else Ok
                            case Flush => Ok case Delete => NotSupported
    ensures ram[..] == if op == Read then ReadInto(old(ram[..]), old(disk[..]), offset, iov) else old(ram[..])
    ensures disk[..] == if op == Write && !rdonly then WriteFrom(old(ram[..]), old(disk[..]), offset, iov)
                        else old(disk[..])
  {
    err := Ok;
    match op {
      case Read => ProcRead(ram, disk, offset, iov);
      case Write =>
        if rdonly {
          err := ReadOnly;
        } else {
          ProcWrite(ram, disk, offset, iov);
        }
      case Flush =>
      case Delete => err := NotSupported;
    }
  }

  lemma {:induction false} PrefixTotal(iov: seq<Iov>, i: nat)
    requires i <= |iov|
    ensures TotalLen(iov[..i]) <= TotalLen(iov)
  {
    if i < |iov| {
      PrefixTotal(iov[..|iov| - 1], i);
      assert iov[..|iov| - 1][..i] == iov[..i];
    } else {
      assert iov[..i] == iov;
    }
  }
}
