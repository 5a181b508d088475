/** Recovery: one pass over the scanned records, then the checkpoint moved past them, then the log emptied. */
module Recovery {
  import opened Layout
  import opened Redo

  datatype Info = Info(txnsReplayed: nat, txnsDiscarded: nat, blocksReplayed: nat)

  /** The image, its checkpoint and the log, as a crash would leave them. */
  class Disk {
    var blocks: seq<Block>
    var mark: Mark
    var log: seq<Record>

    constructor (blocks: seq<Block>, mark: Mark, log: seq<Record>)
      ensures this.blocks == blocks && this.mark == mark && this.log == log
    {
      this.blocks, this.mark, this.log := blocks, mark, log;
    }
  }

  /** How many records of `log` past the checkpoint open a transaction that is done, or is not. */
  function Begun(log: seq<Record>, ckpt: nat, done: set<nat>, finished: bool): nat
    decreases |log|
  {
    if log == [] then 0
    else
      var r := log[|log| - 1];
      Begun(log[..|log| - 1], ckpt, done, finished)
      + if r.body.Begin? && r.lsn > ckpt && (r.txn in done) == finished then 1 else 0
  }

  /** How many block images the redo pass writes. */
  function Redone(log: seq<Record>, ckpt: nat, done: set<nat>): nat
    decreases |log|
  {
    if log == [] then 0
    else Redone(log[..|log| - 1], ckpt, done) + if Redoable(log[|log| - 1], ckpt, done) then 1 else 0
  }

  /** The transactions with a COMMIT record. */
  method CommittedIn(records: seq<Record>) returns (committed: set<nat>)
    ensures committed == Done(records)
  {
    committed := {};
    var k := 0;
    while k < |records|
      invariant 0 <= k <= |records| && committed == Done(records[..k])
    {
      if records[k].body.Commit? {
        committed := committed + {records[k].txn};
      }
      DoneNext(records, k);
      k := k + 1;
    }
    assert records[..|records|] == records;
  }

  lemma DoneNext(records: seq<Record>, k: nat)
    requires k < |records|
    ensures Done(records[..k + 1]) == Done(records[..k]) + if records[k].body.Commit? then {records[k].txn} else {}
  {
    assert records[..k + 1] == records[..k] + [records[k]];
    assert records[k] in records[..k + 1];
    forall t | t in Done(records[..k]) ensures t in Done(records[..k + 1]) {
      var r :| r in records[..k] && r.body.Commit? && r.txn == t;
      assert r in records[..k + 1];
    }
  }

  // ------------------------------------------------------- interruption

  /** The image differs only where the redo pass is going to write. */
  ghost predicate Underway(was: seq<Block>, now: seq<Block>, log: seq<Record>, ckpt: nat) {
    && |now| == |was|
    && forall b: nat :: b < |was| && b !in Images(log, ckpt, Done(log)) ==> now[b] == was[b]
  }

  /** Where a recovery that was cut off may have left the disk. */
  ghost predicate LeftAt(blocks: seq<Block>, mark: Mark, log: seq<Record>, blocks': seq<Block>, mark': Mark,
      log': seq<Record>)
    requires InRange(log, |blocks|)
  {
    || (log' == log && mark' == mark && Underway(blocks, blocks', log, mark.ckpt))
    || (log' == log && blocks' == Replay(log, mark.ckpt, blocks) && mark'.ckpt == LastLsn(log, mark.ckpt))
    || (log' == [] && blocks' == Replay(log, mark.ckpt, blocks) && mark'.ckpt == LastLsn(log, mark.ckpt))
  }

  /** Redoing from a half-redone image gives what redoing from the start gives. */
  lemma RedoFromMiddle(was: seq<Block>, now: seq<Block>, log: seq<Record>, ckpt: nat)
    requires InRange(log, |was|) && Underway(was, now, log, ckpt)
    ensures Replay(log, ckpt, now) == Replay(log, ckpt, was)
  {
    RedoPassIsOverlay(log, ckpt, Done(log), was);
    RedoPassIsOverlay(log, ckpt, Done(log), now);
    var a, b := Replay(log, ckpt, now), Replay(log, ckpt, was);
    forall k | 0 <= k < |was| ensures a[k] == b[k] {
    }
  }

  lemma NothingToRedo(log: seq<Record>, ckpt: nat, disk: seq<Block>)
    requires InRange(log, |disk|) && forall r :: r in log ==> r.lsn <= ckpt
    ensures Replay(log, ckpt, disk) == disk && LastLsn(log, ckpt) == ckpt
  {
    NothingPastCheckpoint(log, ckpt);
    RedoPassIsOverlay(log, ckpt, Done(log), disk);
    LastLsnIs(log, ckpt);
  }

  lemma {:induction false} LastLsnIs(log: seq<Record>, ckpt: nat)
    requires forall r :: r in log ==> r.lsn <= ckpt
    ensures LastLsn(log, ckpt) == ckpt
    decreases |log|
  {
    if log != [] {
      assert log[|log| - 1] in log;
      assert forall r :: r in log[..|log| - 1] ==> r in log;
      LastLsnIs(log[..|log| - 1], ckpt);
    }
  }

  /** A recovery from where another stopped has the same end in view. */
  lemma SameEnd(blocks: seq<Block>, mark: Mark, log: seq<Record>, blocks': seq<Block>, mark': Mark, log': seq<Record>)
    requires InRange(log, |blocks|) && LeftAt(blocks, mark, log, blocks', mark', log')
    ensures InRange(log', |blocks'|)
    ensures Replay(log', mark'.ckpt, blocks') == Replay(log, mark.ckpt, blocks)
    ensures LastLsn(log', mark'.ckpt) == LastLsn(log, mark.ckpt)
  {
    if log' == log && mark' == mark && Underway(blocks, blocks', log, mark.ckpt) {
      RedoFromMiddle(blocks, blocks', log, mark.ckpt);
    } else if log' == log {
      NothingToRedo(log, mark'.ckpt, blocks');
    }
  }

  /**
   recover, which may be cut off: `writes` is how many writes to the image it lives for, and
   `torn` what the one after that leaves in its block. The superblock's write is whole or not at all.
   */
  method Recover(d: Disk, writes: nat, torn: Block) returns (finished: bool, info: Info)
    requires InRange(d.log, |d.blocks|)
    modifies d
    ensures LeftAt(old(d.blocks), old(d.mark), old(d.log), d.blocks, d.mark, d.log)
    ensures finished ==>
              && d.blocks == Replay(old(d.log), old(d.mark).ckpt, old(d.blocks))
              && d.mark == old(d.mark).(ckpt := LastLsn(old(d.log), old(d.mark).ckpt)) && d.log == []
              && info == var done := Done(old(d.log));
                         Info(Begun(old(d.log), old(d.mark).ckpt, done, true),
                             Begun(old(d.log), old(d.mark).ckpt, done, false),
                              Redone(old(d.log), old(d.mark).ckpt, done))
    ensures finished <==> writes > Redone(old(d.log), old(d.mark).ckpt, Done(old(d.log))) + 1
  {
    var records, ckpt := d.log, d.mark.ckpt;
    var committed := CommittedIn(records);
    var lastLsn, left := ckpt, writes;
    ghost var was := d.blocks;
    info := Info(0, 0, 0);
    var k := 0;
    RedoPassIsOverlay([], ckpt, committed, was);
    while k < |records|
      invariant 0 <= k <= |records| && d.log == records && d.mark == old(d.mark) && InRange(records[..k], |was|)
      invariant d.blocks == RedoPass(records[..k], ckpt, committed, was) && lastLsn == LastLsn(records[..k], ckpt)
      invariant info == Info(Begun(records[..k], ckpt, committed, true), Begun(records[..k], ckpt, committed, false),
                             Redone(records[..k], ckpt, committed))
      invariant left >= 0 && left + Redone(records[..k], ckpt, committed) == writes
    {
      var r := records[k];
      PrefixStep(records, k, |was|);
      lastLsn := if r.lsn > lastLsn then r.lsn else lastLsn;
      if r.lsn > ckpt {
        var done := r.txn in committed;
        if r.body.Begin? {
          info := if done then info.(txnsReplayed := info.txnsReplayed + 1)
              else info.(txnsDiscarded := info.txnsDiscarded + 1);
        }
        if r.body.Image? && done {
          StillUnderway(records, k, ckpt, committed, was, torn);
          if left == 0 {
            d.blocks := d.blocks[r.body.block := torn];
            RedoneRest(records, k + 1, ckpt, committed);
            return false, info;
          }
          left := left - 1;
          d.blocks := d.blocks[r.body.block := r.body.data];
          info := info.(blocksReplayed := info.blocksReplayed + 1);
        }
      }
      k := k + 1;
    }
    assert records[..|records|] == records;
    if left == 0 {
      RedoPassIsOverlay(records, ckpt, committed, was);
      return false, info;
    }
    d.mark := d.mark.(ckpt := lastLsn);
    if left == 1 {
      return false, info;
    }
    d.log := [];
    return true, info;
  }

  lemma PrefixStep(records: seq<Record>, k: nat, n: nat)
    requires k < |records| && InRange(records, n)
    ensures records[..k + 1][..k] == records[..k] && records[..k + 1][k] == records[k]
    ensures InRange(records[..k + 1], n) && (records[k].body.Image? ==> records[k].body.block < n)
  {
    assert records[k] in records;
    assert forall r :: r in records[..k + 1] ==> r in records;
  }

  lemma {:induction false} RedoneRest(records: seq<Record>, k: nat, ckpt: nat, done: set<nat>)
    requires k <= |records|
    ensures Redone(records[..k], ckpt, done) <= Redone(records, ckpt, done)
    decreases |records| - k
  {
    if k < |records| {
      RedoneRest(records, k + 1, ckpt, done);
      assert records[..k + 1][..k] == records[..k];
    } else {
      assert records[..k] == records;
    }
  }

  /** Stopped at record k, with its block torn: only blocks the pass writes have changed. */
  lemma StillUnderway(records: seq<Record>, k: nat, ckpt: nat, done: set<nat>, was: seq<Block>, torn: Block)
    requires k < |records| && InRange(records, |was|) && InRange(records[..k], |was|) && done == Done(records)
    requires Redoable(records[k], ckpt, done) && records[k].body.block < |was|
    ensures Underway(was, RedoPass(records[..k], ckpt, done, was)[records[k].body.block := torn], records, ckpt)
  {
    RedoPassIsOverlay(records[..k], ckpt, done, was);
    ImagesGrow(records, k, ckpt, done);
    ImagesGrow(records, k + 1, ckpt, done);
    assert records[..k + 1][..k] == records[..k] && records[..k + 1][k] == records[k];
  }

  lemma {:induction false} ImagesGrow(records: seq<Record>, k: nat, ckpt: nat, done: set<nat>)
    requires k <= |records|
    ensures Images(records[..k], ckpt, done).Keys <= Images(records, ckpt, done).Keys
    decreases |records| - k
  {
    if k < |records| {
      ImagesGrow(records, k + 1, ckpt, done);
      assert records[..k + 1][..k] == records[..k];
    } else {
      assert records[..k] == records;
    }
  }

  // ----------------------------------------- any number of interruptions

  datatype Left = Left(blocks: seq<Block>, mark: Mark, log: seq<Record>)

  /** Each recovery starts where the one before it stopped. */
  ghost predicate Attempts(run: seq<Left>) {
    && run != [] && InRange(run[0].log, |run[0].blocks|)
    && forall i :: 0 <= i < |run| - 1 ==>
         && InRange(run[i].log, |run[i].blocks|)
         && LeftAt(run[i].blocks, run[i].mark, run[i].log, run[i + 1].blocks, run[i + 1].mark, run[i + 1].log)
  }

  /** However often recovery is cut off, the one that finishes leaves what one uninterrupted would have left. */
  lemma {:induction false} AnyNumberOfTimes(run: seq<Left>, n: nat)
    requires Attempts(run) && n < |run|
    ensures InRange(run[n].log, |run[n].blocks|)
    ensures Replay(run[n].log, run[n].mark.ckpt, run[n].blocks) == Replay(run[0].log, run[0].mark.ckpt, run[0].blocks)
    ensures LastLsn(run[n].log, run[n].mark.ckpt) == LastLsn(run[0].log, run[0].mark.ckpt)
  {
    if n > 0 {
      AnyNumberOfTimes(run, n - 1);
      SameEnd(run[n - 1].blocks, run[n - 1].mark, run[n - 1].log, run[n].blocks, run[n].mark, run[n].log);
    }
  }
}
