/** The log file with its batch of records not yet written. */
module Wals {
  import opened Layout
  import opened Codec
  import opened WalFormat

  const BATCH_BYTES: nat := 0x10_0000
  const ROOM: nat := BATCH_BYTES + HEADER_SIZE + BLOCK_SIZE   // the batch's buffer

  /** The record encode lays out. */
  function MakeRecord(kind: u16, txn: u64, blockNo: u32, payload: seq<Byte>, lsn: u64): WalRecord
    requires payload == [] || |payload| == BLOCK_SIZE
  {
    var h := Header(WAL_MAGIC, kind, 0, blockNo, |payload|, lsn, txn, 0, 0);
    WalRecord(h.(checksum := RecordChecksum(h, payload)), payload)
  }

  /** What the journal logs: the mark at either end of a transaction, or the image of a block it may write. */
  predicate Loggable(kind: u16, blockNo: u32, payload: seq<Byte>, totalBlocks: nat) {
    || ((kind == WAL_BEGIN || kind == WAL_COMMIT) && payload == [] && blockNo == 0)
    || (kind == WAL_BLOCK && |payload| == BLOCK_SIZE && 0 < blockNo < totalBlocks)
  }

  lemma ZeroedChecksum(h: Header, c: u32, payload: seq<Byte>)
    ensures RecordChecksum(h.(checksum := c), payload) == RecordChecksum(h, payload)
  {
    assert h.(checksum := c).(checksum := 0) == h.(checksum := 0);
  }

  /** A record of one of the three kinds, for a block of the disk, is one that scan accepts. */
  lemma MadeIntact(kind: u16, txn: u64, blockNo: u32, payload: seq<Byte>, lsn: u64, totalBlocks: nat)
    requires Loggable(kind, blockNo, payload, totalBlocks) && lsn != 0
    ensures Intact(MakeRecord(kind, txn, blockNo, payload, lsn), totalBlocks)
  {
    var h := Header(WAL_MAGIC, kind, 0, blockNo, |payload|, lsn, txn, 0, 0);
    var r := MakeRecord(kind, txn, blockNo, payload, lsn);
    ZeroedChecksum(h, RecordChecksum(h, payload), payload);
    assert IntactIn(r, totalBlocks);
  }

  /** Every record is one that scan accepts, and their lsns count up from `first`. */
  ghost predicate WellMade(rs: seq<WalRecord>, first: nat, totalBlocks: nat) {
    forall q :: q == rs ==> WellMadeIn(q, first, totalBlocks)
  }

  ghost predicate WellMadeIn(rs: seq<WalRecord>, first: nat, totalBlocks: nat) {
    first > 0 && Numbered(rs, first) && AllIntact(rs, totalBlocks)
  }

  lemma WellMadeMore(rs: seq<WalRecord>, first: nat, kind: u16, txn: u64, blockNo: u32, payload: seq<Byte>, lsn: u64,
                     totalBlocks: nat)
    requires WellMade(rs, first, totalBlocks) && Loggable(kind, blockNo, payload, totalBlocks) && lsn == first + |rs|
    ensures WellMade(rs + [MakeRecord(kind, txn, blockNo, payload, lsn)], first, totalBlocks)
  {
    assert WellMadeIn(rs, first, totalBlocks);
    IntactMore(rs, kind, txn, blockNo, payload, lsn, totalBlocks);
    assert WellMadeIn(rs + [MakeRecord(kind, txn, blockNo, payload, lsn)], first, totalBlocks);
  }

  lemma NoneMade(first: nat, totalBlocks: nat)
    requires first > 0
    ensures WellMade([], first, totalBlocks)
  {
    assert WellMadeIn([], first, totalBlocks);
  }

  lemma IntactMore(rs: seq<WalRecord>, kind: u16, txn: u64, blockNo: u32, payload: seq<Byte>, lsn: u64,
      totalBlocks: nat)
    requires AllIntact(rs, totalBlocks) && Loggable(kind, blockNo, payload, totalBlocks) && lsn != 0
    ensures AllIntact(rs + [MakeRecord(kind, txn, blockNo, payload, lsn)], totalBlocks)
  {
    MadeIntact(kind, txn, blockNo, payload, lsn, totalBlocks);
  }

  lemma {:induction false} LogAppend(rs: seq<WalRecord>, r: WalRecord)
    ensures LogBytes(rs + [r]) == LogBytes(rs) + RecordBytes(r)
  {
    if rs == [] {
      assert rs + [r] == [r];
      assert LogBytes([r]) == RecordBytes(r) + LogBytes([]);
    } else {
      LogAppend(rs[1..], r);
      assert (rs + [r])[1..] == rs[1..] + [r];
      Regroup(RecordBytes(rs[0]), LogBytes(rs[1..]), RecordBytes(r));
    }
  }

  lemma Regroup<T>(a: seq<T>, b: seq<T>, c: seq<T>)
    ensures a + b + c == a + (b + c)
  {
  }

  /** The lsns count up from `first`. */
  predicate Numbered(rs: seq<WalRecord>, first: nat) {
    forall k :: 0 <= k < |rs| ==> rs[k].header.lsn == first + k
  }

  lemma {:induction false} NumberedConsecutive(rs: seq<WalRecord>, first: nat, last: nat)
    requires Numbered(rs, first) && first > 0 && (last == 0 || last == first - 1)
    ensures Consecutive(rs, last)
  {
    if rs != [] {
      assert rs[0].header.lsn == first;
      forall k | 0 <= k < |rs[1..]| ensures rs[1..][k].header.lsn == first + 1 + k {
        assert rs[1..][k] == rs[k + 1];
      }
      NumberedConsecutive(rs[1..], first + 1, first);
    }
  }

  class Wal {
    const totalBlocks: nat    // of the disk whose blocks it logs
    var file: seq<Byte>       // what the file holds, synced or not
    var batch: seq<Byte>      // batch_[0, batch_len_)
    var end: nat
    var nextLsn: nat
    var durableLsn: nat
    ghost var records: seq<WalRecord>   // every record since the log was last emptied
    ghost var first: nat                // the lsn of the first of them
    ghost var synced: nat               // how much of the file is on disk for sure

    ghost predicate Valid()
      reads this
    {
      && end == |file| && |batch| <= BATCH_BYTES
      && file + batch == LogBytes(records) && WellMade(records, first, totalBlocks)
      && first > 0 && nextLsn == first + |records|
      && synced <= |file| && durableLsn < nextLsn
      && durableLsn + 1 >= first
      && LogBytes(records[..durableLsn + 1 - first]) == file[..synced]
    }

    /** A new log, or one just emptied. */
    constructor (nextLsn: nat, totalBlocks: nat)
      requires nextLsn > 0
      ensures Valid() && records == [] && this.nextLsn == nextLsn && file == [] && batch == []
      ensures this.totalBlocks == totalBlocks
    {
      this.totalBlocks := totalBlocks;
      file, batch, end := [], [], 0;
      this.nextLsn, durableLsn := nextLsn, nextLsn - 1;
      records, first, synced := [], nextLsn, 0;
      NoneMade(nextLsn, totalBlocks);
    }

    /** The record's bytes join the batch. */
    method Encode(kind: u16, txn: u64, blockNo: u32, payload: seq<Byte>) returns (lsn: nat)
      requires Valid() && Loggable(kind, blockNo, payload, totalBlocks) && nextLsn < 0x1_0000_0000_0000_0000
      requires |batch| == 0 || |batch| + HEADER_SIZE + |payload| <= BATCH_BYTES
      modifies this
      ensures Valid() && lsn == old(nextLsn) && nextLsn == lsn + 1
      ensures records == old(records) + [MakeRecord(kind, txn, blockNo, payload, old(nextLsn))]
      ensures var r := records[|old(records)|];
              && r.header.kind == kind && r.header.txn == txn && r.header.blockNo == blockNo
              && r.header.lsn == old(nextLsn) && r.payload == payload && r.header.payloadLen == |payload|
      ensures file == old(file) && batch == old(batch) + RecordBytes(records[|records| - 1])
      ensures durableLsn == old(durableLsn) && first == old(first) && synced == old(synced)
    {
      var r := MakeRecord(kind, txn, blockNo, payload, nextLsn);
      batch := batch + RecordBytes(r);
      LogAppend(records, r);
      WellMadeMore(records, first, kind, txn, blockNo, payload, nextLsn, totalBlocks);
      Regroup(file, old(batch), RecordBytes(r));
      records := records + [r];
      lsn := nextLsn;
      nextLsn := nextLsn + 1;
      assert records[..durableLsn + 1 - first] == old(records[..durableLsn + 1 - first]);
    }

    /** The batch goes to the file in one write. */
    method Flush()
      requires Valid()
      modifies this
      ensures Valid() && batch == [] && file == old(file) + old(batch)
      ensures records == old(records) && nextLsn == old(nextLsn) && durableLsn == old(durableLsn) && first == old(first)
      ensures synced == old(synced)
    {
      if |batch| == 0 {
        assert file + batch == file;
        return;
      }
      file := file[..end] + batch;
      assert file[..synced] == old(file)[..synced];
      end := end + |batch|;
      batch := [];
      assert file + batch == file;
    }

    /** One record, in a write of its own. */
    method Append(kind: u16, txn: u64, blockNo: u32, payload: seq<Byte>) returns (lsn: nat)
      requires Valid() && Loggable(kind, blockNo, payload, totalBlocks) && nextLsn < 0x1_0000_0000_0000_0000
      modifies this
      ensures Valid() && batch == [] && lsn == old(nextLsn)
      ensures records == old(records) + [MakeRecord(kind, txn, blockNo, payload, old(nextLsn))]
      ensures var r := records[|old(records)|];
              && r.header.kind == kind && r.header.txn == txn && r.header.blockNo == blockNo
              && r.header.lsn == old(nextLsn) && r.payload == payload && r.header.payloadLen == |payload|
      ensures durableLsn == old(durableLsn) && first == old(first) && synced == old(synced)
      ensures file == old(file) + old(batch) + RecordBytes(records[|old(records)|])
    {
      Flush();
      ghost var before := file;
      lsn := Encode(kind, txn, blockNo, payload);
      ghost var bytes := RecordBytes(records[|records| - 1]);
      assert batch == bytes;
      Flush();
      assert file == before + bytes;
    }

    /** One record, left in the batch; a batch too full for it is written out first. */
    method Stage(kind: u16, txn: u64, blockNo: u32, payload: seq<Byte>) returns (lsn: nat)
      requires Valid() && Loggable(kind, blockNo, payload, totalBlocks) && nextLsn < 0x1_0000_0000_0000_0000
      modifies this
      ensures Valid() && lsn == old(nextLsn)
      ensures records == old(records) + [MakeRecord(kind, txn, blockNo, payload, old(nextLsn))]
      ensures var r := records[|old(records)|];
              && r.header.kind == kind && r.header.txn == txn && r.header.blockNo == blockNo
              && r.header.lsn == old(nextLsn) && r.payload == payload && r.header.payloadLen == |payload|
      ensures durableLsn == old(durableLsn) && first == old(first) && synced == old(synced)
      ensures |batch| + HEADER_SIZE + BLOCK_SIZE <= ROOM
      ensures var bytes := RecordBytes(records[|old(records)|]);
              if 0 < |old(batch)| && |old(batch)| + |bytes| > BATCH_BYTES
              then file == old(file) + old(batch) && batch == bytes
              else file == old(file) && batch == old(batch) + bytes
    {
      if |batch| > 0 && |batch| + HEADER_SIZE + |payload| > BATCH_BYTES {
        Flush();
      }
      lsn := Encode(kind, txn, blockNo, payload);
    }

    /** The file is on the disk as far as it goes. */
    method Sync()
      requires Valid()
      modifies this
      ensures Valid() && batch == [] && records == old(records) && first == old(first) && nextLsn == old(nextLsn)
      ensures durableLsn == nextLsn - 1 && file == old(file) + old(batch) && synced == |file|
    {
      Flush();
      synced := |file|;
      durableLsn := nextLsn - 1;
      assert records[..durableLsn + 1 - first] == records;
      assert file[..synced] == file == file + batch;
    }

    /** Empties the log. */
    method Reset(next: nat)
      requires Valid() && next > 0
      modifies this
      ensures Valid() && records == [] && file == [] && batch == [] && nextLsn == first == next
              && durableLsn == next - 1 && synced == 0
    {
      batch, file, end := [], [], 0;
      nextLsn, durableLsn := next, next - 1;
      records, first, synced := [], next, 0;
      NoneMade(next, totalBlocks);
    }

    method ScanFile() returns (found: seq<WalRecord>)
      ensures found == Scan(file, totalBlocks, 0)
    {
      found := ScanBytes(file, totalBlocks);
    }

    /**
     Whatever part of the unsynced bytes a crash leaves, a scan finds the first so many of
     the records, in order, and among them every one that was durable.
     */
    lemma CrashKeepsPrefix(n: nat)
      requires Valid() && synced <= n <= |file|
      ensures var k := WholeIn(records, n);
              && Scan(file[..n], totalBlocks, 0) == records[..k]
              && durableLsn + 1 - first <= k
    {
      assert file[..n] == (file + batch)[..n];
      SomeKept(records, first, durableLsn + 1 - first, n, totalBlocks);
    }
  }

  /** The records that fit whole in the first n bytes; the first d, if their bytes all do. */
  lemma SomeKept(rs: seq<WalRecord>, first: nat, d: nat, n: nat, totalBlocks: nat)
    requires WellMade(rs, first, totalBlocks)
    requires d <= |rs| && |LogBytes(rs[..d])| <= n <= |LogBytes(rs)|
    ensures d <= WholeIn(rs, n) <= |rs|
    ensures Scan(LogBytes(rs)[..n], totalBlocks, 0) == rs[..WholeIn(rs, n)]
  {
    assert WellMadeIn(rs, first, totalBlocks);
    NumberedConsecutive(rs, first, 0);
    ScanPrefix(rs, n, totalBlocks, 0);
    WholeAtLeast(rs, d, n);
  }

  lemma {:induction false} WholeAtLeast(rs: seq<WalRecord>, d: nat, n: nat)
    requires d <= |rs| && |LogBytes(rs[..d])| <= n
    ensures WholeIn(rs, n) >= d
  {
    if d > 0 {
      assert rs[..d][1..] == rs[1..][..d - 1] && rs[..d][0] == rs[0];
      WholeAtLeast(rs[1..], d - 1, n - |RecordBytes(rs[0])|);
    }
  }

  /** scan's loop: record after record until one does not pass. */
  method ScanBytes(file: seq<Byte>, totalBlocks: nat) returns (found: seq<WalRecord>)
    ensures found == Scan(file, totalBlocks, 0)
  {
    found := [];
    var offset, last := 0, 0;
    assert file[0..] == file;
    while true
      invariant 0 <= offset <= |file|
      invariant found + Scan(file[offset..], totalBlocks, last) == Scan(file, totalBlocks, 0)
      decreases |file| - offset
    {
      var step := ScanOne(file[offset..], totalBlocks, last);
      if step.Stop? {
        assert Scan(file[offset..], totalBlocks, last) == [];
        return;
      }
      var len := |RecordBytes(step.record)|;
      assert file[offset..][len..] == file[offset + len..];
      Regroup(found, [step.record], Scan(file[offset + len..], totalBlocks, step.record.header.lsn));
      found := found + [step.record];
      offset, last := offset + len, step.record.header.lsn;
    }
  }
}
