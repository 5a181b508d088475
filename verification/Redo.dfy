/**
 The write-ahead log as a sequence of records, and what redo-only recovery
 makes of it. A record is what `Wal::scan` returns: whole, in lsn order.
 */
module Redo {
  import opened Layout

  datatype Body = Begin | Image(block: nat, data: Block) | Commit
  datatype Record = Record(lsn: nat, txn: nat, body: Body)

  /** The transactions with a COMMIT record among `log`. */
  function Done(log: seq<Record>): set<nat> {
    set r | r in log && r.body.Commit? :: r.txn
  }

  /** Whether recovery copies this record's block to the image. */
  predicate Redoable(r: Record, ckpt: nat, done: set<nat>) {
    r.body.Image? && r.lsn > ckpt && r.txn in done
  }

  predicate InRange(log: seq<Record>, n: nat) {
    forall r :: r in log && r.body.Image? ==> r.body.block < n
  }

  /** The redo pass over `log`, record by record, on top of `disk`. */
  function RedoPass(log: seq<Record>, ckpt: nat, done: set<nat>, disk: seq<Block>): (r: seq<Block>)
    requires InRange(log, |disk|)
    ensures |r| == |disk|
    decreases |log|
  {
    if log == [] then disk
    else
      var d := RedoPass(log[..|log| - 1], ckpt, done, disk);
      var r := log[|log| - 1];
      if Redoable(r, ckpt, done) then d[r.body.block := r.body.data] else d
  }

  /** What a whole recovery leaves in the image. */
  function Replay(log: seq<Record>, ckpt: nat, disk: seq<Block>): (r: seq<Block>)
    requires InRange(log, |disk|)
  {
    RedoPass(log, ckpt, Done(log), disk)
  }

  /** The largest lsn of the scanned records, or the checkpoint's. */
  function LastLsn(log: seq<Record>, ckpt: nat): (m: nat)
    ensures m >= ckpt
    ensures forall r :: r in log ==> r.lsn <= m
    decreases |log|
  {
    if log == [] then ckpt
    else
      var n := |log| - 1;
      var m := LastLsn(log[..n], ckpt);
      assert forall r :: r in log ==> r == log[n] || r in log[..n];
      if log[n].lsn > m then log[n].lsn else m
  }

  /** For each block, the last image the redo pass writes to it. */
  function Images(log: seq<Record>, ckpt: nat, done: set<nat>): map<nat, Block>
    decreases |log|
  {
    if log == [] then map[]
    else
      var m := Images(log[..|log| - 1], ckpt, done);
      var r := log[|log| - 1];
      if Redoable(r, ckpt, done) then m[r.body.block := r.body.data] else m
  }

  /** `disk` with the blocks of `img` put over it. */
  ghost predicate IsOverlay(c: seq<Block>, img: map<nat, Block>, disk: seq<Block>) {
    && |c| == |disk|
    && forall b :: 0 <= b < |disk| ==> c[b] == if b in img then img[b] else disk[b]
  }

  lemma {:induction false} ImagesInRange(log: seq<Record>, ckpt: nat, done: set<nat>, n: nat)
    requires InRange(log, n)
    ensures forall b :: b in Images(log, ckpt, done) ==> b < n
    decreases |log|
  {
    if log != [] {
      var r := log[|log| - 1];
      assert r in log;
      assert forall x :: x in log[..|log| - 1] ==> x in log;
      ImagesInRange(log[..|log| - 1], ckpt, done, n);
    }
  }

  /** The redo pass depends on the image only off the blocks it writes. */
  lemma {:induction false} RedoPassIsOverlay(log: seq<Record>, ckpt: nat, done: set<nat>, disk: seq<Block>)
    requires InRange(log, |disk|)
    ensures IsOverlay(RedoPass(log, ckpt, done, disk), Images(log, ckpt, done), disk)
    decreases |log|
  {
    if log != [] {
      var r := log[|log| - 1];
      assert r in log;
      assert forall x :: x in log[..|log| - 1] ==> x in log;
      RedoPassIsOverlay(log[..|log| - 1], ckpt, done, disk);
    }
  }

  /** Record i brings block b back: an image of it past the checkpoint, in a transaction the log has a COMMIT of. */
  predicate BringsBack(log: seq<Record>, ckpt: nat, i: nat, b: nat)
    requires i < |log|
  {
    && log[i].body.Image? && log[i].body.block == b && log[i].lsn > ckpt
    && exists c :: c in log && c.body.Commit? && c.txn == log[i].txn
  }

  lemma {:induction false} PassIs(log: seq<Record>, ckpt: nat, done: set<nat>, disk: seq<Block>, b: nat)
    requires InRange(log, |disk|) && b < |disk|
    ensures var r := RedoPass(log, ckpt, done, disk);
            && ((forall i: nat :: i < |log| ==> !(Redoable(log[i], ckpt, done) && log[i].body.block == b)) ==>
                  r[b] == disk[b])
            && forall i: nat :: i < |log| && Redoable(log[i], ckpt, done) && log[i].body.block == b
                 && (forall j: nat :: i < j < |log| ==> !(Redoable(log[j], ckpt, done) && log[j].body.block == b))
                 ==> r[b] == log[i].body.data
    decreases |log|
  {
    if log != [] {
      var less := log[..|log| - 1];
      assert forall x :: x in less ==> x in log;
      assert log[|log| - 1] in log;
      PassIs(less, ckpt, done, disk, b);
      assert forall i: nat :: i < |less| ==> less[i] == log[i];
    }
  }

  /** After recovery a block is as the last record that brings it back has it, or, if none does, as it was. */
  lemma ReplayIs(log: seq<Record>, ckpt: nat, disk: seq<Block>, b: nat)
    requires InRange(log, |disk|) && b < |disk|
    ensures (forall i: nat :: i < |log| ==> !BringsBack(log, ckpt, i, b)) ==> Replay(log, ckpt, disk)[b] == disk[b]
    ensures forall i: nat :: i < |log| && BringsBack(log, ckpt, i, b)
              && (forall j: nat :: i < j < |log| ==> !BringsBack(log, ckpt, j, b))
              ==> Replay(log, ckpt, disk)[b] == log[i].body.data
  {
    forall i: nat | i < |log|
        ensures BringsBack(log, ckpt, i, b) <==> Redoable(log[i], ckpt, Done(log)) && log[i].body.block == b {
    }
    PassIs(log, ckpt, Done(log), disk, b);
  }

  lemma {:induction false} LastLsnHeld(log: seq<Record>, ckpt: nat)
    ensures LastLsn(log, ckpt) == ckpt || exists r :: r in log && r.lsn == LastLsn(log, ckpt)
    decreases |log|
  {
    if log != [] {
      var less := log[..|log| - 1];
      LastLsnHeld(less, ckpt);
      assert log[|log| - 1] in log && forall r :: r in less ==> r in log;
    }
  }

  lemma {:induction false} ImagesAppend(log: seq<Record>, tail: seq<Record>, ckpt: nat, done: set<nat>)
    ensures Images(log + tail, ckpt, done) == Images(log, ckpt, done) + Images(tail, ckpt, done)
    decreases |tail|
  {
    if tail == [] {
      assert log + tail == log;
    } else {
      assert (log + tail)[..|log + tail| - 1] == log + tail[..|tail| - 1];
      ImagesAppend(log, tail[..|tail| - 1], ckpt, done);
    }
  }

  /** Only membership of the log's own transactions in `done` matters. */
  lemma {:induction false} ImagesAgree(log: seq<Record>, ckpt: nat, done: set<nat>, done': set<nat>)
    requires forall r :: r in log ==> (r.txn in done <==> r.txn in done')
    ensures Images(log, ckpt, done) == Images(log, ckpt, done')
    decreases |log|
  {
    if log != [] {
      assert log[|log| - 1] in log;
      assert forall x :: x in log[..|log| - 1] ==> x in log;
      ImagesAgree(log[..|log| - 1], ckpt, done, done');
    }
  }

  /** Records of transactions that never committed are ignored. */
  lemma {:induction false} ImagesNone(tail: seq<Record>, ckpt: nat, done: set<nat>)
    requires forall r :: r in tail ==> r.txn !in done || r.lsn <= ckpt
    ensures Images(tail, ckpt, done) == map[]
    decreases |tail|
  {
    if tail != [] {
      assert tail[|tail| - 1] in tail;
      assert forall x :: x in tail[..|tail| - 1] ==> x in tail;
      ImagesNone(tail[..|tail| - 1], ckpt, done);
    }
  }

  /** A tail of one unfinished transaction changes nothing recovery does. */
  lemma UnfinishedTail(log: seq<Record>, tail: seq<Record>, txn: nat, ckpt: nat)
    requires forall r :: r in log ==> r.txn != txn
    requires forall r :: r in tail ==> r.txn == txn && !r.body.Commit?
    ensures Done(log + tail) == Done(log)
    ensures Images(log + tail, ckpt, Done(log + tail)) == Images(log, ckpt, Done(log))
  {
    assert forall r :: r in log + tail <==> r in log || r in tail;
    assert Done(log + tail) == Done(log);
    ImagesAppend(log, tail, ckpt, Done(log));
    ImagesNone(tail, ckpt, Done(log));
  }

  /** Its COMMIT record brings in exactly that transaction's images. */
  lemma SealedTail(log: seq<Record>, tail: seq<Record>, c: Record, ckpt: nat)
    requires c.body.Commit?
    requires forall r :: r in log ==> r.txn != c.txn
    requires forall r :: r in tail ==> r.txn == c.txn && !r.body.Commit?
    ensures Done(log + tail + [c]) == Done(log) + {c.txn}
    ensures Images(log + tail + [c], ckpt, Done(log + tail + [c]))
         == Images(log, ckpt, Done(log)) + Images(tail, ckpt, {c.txn})
  {
    var whole := log + tail + [c];
    assert forall r :: r in whole <==> r in log || r in tail || r == c;
    assert Done(whole) == Done(log) + {c.txn} by {
      forall t | t in Done(log) + {c.txn} ensures t in Done(whole) {
        if t == c.txn { assert c in whole; }
      }
    }
    assert whole[..|whole| - 1] == log + tail;
    ImagesAppend(log, tail, ckpt, Done(whole));
    ImagesAgree(log, ckpt, Done(whole), Done(log));
    ImagesAgree(tail, ckpt, Done(whole), {c.txn});
  }

  /** Nothing past the checkpoint, nothing to redo. */
  lemma NothingPastCheckpoint(log: seq<Record>, ckpt: nat)
    requires forall r :: r in log ==> r.lsn <= ckpt
    ensures Images(log, ckpt, Done(log)) == map[]
  {
    ImagesNone(log, ckpt, Done(log));
  }
}
