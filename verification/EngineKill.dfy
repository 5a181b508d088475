/**
 A process that is killed is not a machine that loses power: the kernel still
 holds every byte written, so the next mount sees a COMMIT record that was
 written but never synced. Recovery redoes that transaction without syncing the
 log first. If the power then goes while it does, the log may lose the COMMIT
 after the image has already taken some of the transaction's blocks.

 This module says exactly when that can happen.
 */
module EngineKill {
  import opened Layout
  import opened Redo
  import opened Engine
  import opened EngineInvariant
  import opened EngineTheorems

  /**
   The files after a kill in `s`, a mount that redoes the first `next` records
   of the log it sees, and a loss of power: any bytes in a block not synced by
   then, and any part of the log that holds what was synced.
   */
  ghost predicate KilledThenLost(s: State, next: nat, disk: seq<Block>, log: seq<Record>) {
    && next <= |s.log| && |disk| == |s.disk|
    && (forall b :: (0 <= b < |disk| && b !in s.unsynced
                     && b !in Images(s.log[..next], s.mark.ckpt, Done(s.log))) ==> disk[b] == s.disk[b])
    && log <= s.log && s.durableLen <= |log|
  }

  /** Recovery then makes what one whole commit made. */
  ghost predicate WholeCommit(s: State, disk: seq<Block>, log: seq<Record>) {
    && InRange(log, |disk|)
    && (Recovered(disk, log, s.mark) == s.sure
        || (s.phase.Sealed? && Recovered(disk, log, s.mark) == s.now))
  }

  /** The window: COMMIT written, not synced, with a block the synced log has no image of. */
  ghost predicate InWindow(s: State) {
    s.phase.Sealed? && !(s.part.Keys <= s.img.Keys)
  }

  /** Outside the window, what recovery touches is covered by the synced log. */
  lemma OutsideWindow(s: State, next: nat, disk: seq<Block>, log: seq<Record>)
    requires Inv(s) && Mounted(s.phase) && !s.truncated && !InWindow(s)
    requires KilledThenLost(s, next, disk, log)
    ensures WholeCommit(s, disk, log)
  {
    Unfold(s);
    var redone := Images(s.log[..next], s.mark.ckpt, Done(s.log));
    assert forall r :: r in log ==> r in s.log;
    SurvivingImages(s, s.log);
    assert s.log == s.log[..next] + s.log[next..];
    ImagesAppend(s.log[..next], s.log[next..], s.mark.ckpt, Done(s.log));
    var touched := s.unsynced + redone.Keys;
    assert forall b :: b in touched ==> b in s.img;
    SurvivingImages(s, log);
    RedoPassIsOverlay(log, s.mark.ckpt, Done(log), disk);
    if Kept(s, log) == s.sealed {
      OverlayAnyBytes(s.sure, s.img, s.disk, touched, disk);
      OverlayUnique(s.sure, Recovered(disk, log, s.mark), s.img, disk);
    } else {
      EngineStore.CacheCommit(s.cache, s.vol, s.now, s.sure, s.img, s.part, s.durableLsn, s.phase.blocks);
      EngineStore.DiskCommit(s.disk, s.vol, s.unsynced, s.sure, s.now, s.img, s.part, s.phase.blocks);
      OverlayAnyBytes(s.now, s.img + s.part, s.disk, touched, disk);
      OverlayUnique(s.now, Recovered(disk, log, s.mark), s.img + s.part, disk);
    }
  }

  /** A block different from two given ones. */
  lemma ThirdBlock(x: Block, y: Block) returns (z: Block)
    ensures z != x && z != y
  {
    var p: Block := seq(BLOCK_SIZE, _ => 1);
    var q: Block := seq(BLOCK_SIZE, _ => 2);
    assert ZERO_BLOCK[0] == 0 && p[0] == 1 && q[0] == 2;
    z := if ZERO_BLOCK != x && ZERO_BLOCK != y then ZERO_BLOCK else if p != x && p != y then p else q;
  }

  /** A block recovery has no image of keeps the bytes the disk has. */
  lemma NotCovered(disk: seq<Block>, log: seq<Record>, mark: Mark, b: nat)
    requires InRange(log, |disk|) && b < |disk| && b !in Images(log, mark.ckpt, Done(log))
    ensures Recovered(disk, log, mark)[b] == disk[b]
  {
    if !mark.clean {
      RedoPassIsOverlay(log, mark.ckpt, Done(log), disk);
    }
  }

  lemma SealedCovers(s: State)
    requires Inv(s) && s.phase.Sealed? && !s.truncated
    ensures |s.log| > 0 && s.durableLen == |s.log| - 1
    ensures Images(s.log, s.mark.ckpt, Done(s.log)) == s.img + s.part
    ensures var log := s.log[..|s.log| - 1]; Images(log, s.mark.ckpt, Done(log)) == s.img
    ensures InRange(s.log, |s.disk|) && |s.sure| == |s.now| == |s.disk|
    ensures forall b :: b in s.part ==> b < |s.disk|
  {
    Unfold(s);
    SurvivingImages(s, s.log);
    SurvivingImages(s, s.log[..|s.log| - 1]);
  }

  /** Inside it, one torn block and a lost COMMIT leave the image between two commits. */
  lemma InsideWindow(s: State) returns (disk: seq<Block>, log: seq<Record>)
    requires Inv(s) && InWindow(s) && !s.truncated
    ensures KilledThenLost(s, |s.log|, disk, log) && !WholeCommit(s, disk, log)
  {
    SealedCovers(s);
    var b :| b in s.part && b !in s.img;
    var z := ThirdBlock(s.sure[b], s.now[b]);
    disk := s.disk[b := z];
    log := s.log[..|s.log| - 1];
    assert s.log[..|s.log|] == s.log;
    assert forall r :: r in log ==> r in s.log;
    NotCovered(disk, log, s.mark, b);
  }

  /** A kill followed by a loss of power during recovery is harmless exactly outside the window. */
  lemma KillThenLoss(s: State)
    requires Inv(s) && Mounted(s.phase) && !s.truncated
    ensures (forall next, disk, log :: KilledThenLost(s, next, disk, log) ==> WholeCommit(s, disk, log))
       <==> !InWindow(s)
  {
    if InWindow(s) {
      var disk, log := InsideWindow(s);
      assert KilledThenLost(s, |s.log|, disk, log);
    } else {
      forall next, disk, log | KilledThenLost(s, next, disk, log) ensures WholeCommit(s, disk, log) {
        OutsideWindow(s, next, disk, log);
      }
    }
  }

  // ------------------------------------------------------ the window is reached

  /** Some run ends in this state. */
  ghost predicate Reached(s: State) {
    exists states, steps :: Run(states, steps) && states[|steps|] == s
  }

  /** The steps of a mount, of one operation and of a commit. */
  ghost predicate Plain(s: State, step: Step, s': State) {
    match step
    case SMountStart => MountStart(s, s')
    case SSettleTruncate => SettleTruncate(s, s')
    case SSettleTruncateSync => SettleTruncateSync(s, s')
    case SInUseMark => InUseMark(s, s')
    case SMountDone => MountDone(s, s')
    case SOpBegin => OpBegin(s, s')
    case SOpAcquire(o, b) => OpAcquire(s, o, b, s')
    case SOpChange(o, data) => OpChange(s, o, data, s')
    case SOpFinish(o) => OpFinish(s, o, s')
    case SOpRecord(o) => OpRecord(s, o, s')
    case SOpEnd(o) => OpEnd(s, o, s')
    case SCommitStart(close) => CommitStart(s, close, s')
    case SLogImage => LogImage(s, s')
    case SLogDone => LogDone(s, s')
    case SLogSync => LogSync(s, s')
    case SLogCommit => LogCommit(s, s')
    case _ => false
  }

  lemma OneMore(s: State, step: Step, s': State)
    requires Reached(s) && Plain(s, step, s')
    ensures Reached(s')
  {
    assert Next(s, step, s');
    Prolonged(s, step, s');
  }

  lemma Prolonged(s: State, step: Step, s': State)
    requires Reached(s) && Next(s, step, s')
    ensures Reached(s')
  {
    var states, steps :| Run(states, steps) && states[|steps|] == s;
    LongerRun(states, steps, step, s');
    assert (states + [s'])[|steps + [step]|] == s';
  }

  lemma LongerRun(states: seq<State>, steps: seq<Step>, step: Step, s': State)
    requires Run(states, steps) && Next(states[|steps|], step, s')
    ensures Run(states + [s'], steps + [step])
  {
    var more, all := states + [s'], steps + [step];
    forall i | 0 <= i < |all| ensures Next(more[i], all[i], more[i + 1]) {
      if i < |steps| {
        assert Next(states[i], steps[i], states[i + 1]);
      }
    }
  }

  /** A clean image of two blocks, and the same once it is mounted. */
  function CleanImage(): State {
    var disk := [ZERO_BLOCK, ZERO_BLOCK];
    State(disk, disk, {}, Mark(true, 0), [], [], 0, false, 0, 0, map[], Idle, [], map[], map[], 0, false, Down,
          disk, [], 0, [Cut(0, 0)], 0, {}, 0, disk, disk, map[], map[])
  }

  function InService(): State {
    CleanImage().(mark := Mark(false, 0), nextLsn := 1, phase := Up)
  }

  /** The log is dropped unread, as the image was left clean. */
  lemma LogDropped(s: State)
    requires Reached(s) && s.phase.Down? && s.mark.clean
    ensures Reached(s.(truncated := true, part := map[], phase := Settling(TruncateSync, s.mark.ckpt, true)))
  {
    var b := s.(phase := Settling(Truncate, s.mark.ckpt, true), part := map[]);
    OneMore(s, SMountStart, b);
    OneMore(b, SSettleTruncate, b.(truncated := true, phase := Settling(TruncateSync, s.mark.ckpt, true)));
  }

  lemma LogSynced(s: State)
    requires Reached(s) && s.phase == Settling(TruncateSync, 0, true) && s.log == [] && s.img == map[]
    requires s.durableLen == s.base == s.durableLsn == 0
    ensures Reached(s.(truncated := false, nextLsn := 1, pending := [Mark(false, s.mark.ckpt)], phase := InUseSync))
  {
    var d := s.(truncated := false, nextLsn := 1, phase := InUseWrite);
    OneMore(s, SSettleTruncateSync, d);
    OneMore(d, SInUseMark, d.(pending := [Mark(false, s.mark.ckpt)], phase := InUseSync));
  }

  lemma ImageReached()
    ensures Reached(CleanImage())
  {
    var none: seq<Step> := [];
    assert Run([CleanImage()], none) && [CleanImage()][|none|] == CleanImage();
  }

  lemma MountsUp()
    ensures Reached(InService())
  {
    var a := CleanImage();
    ImageReached();
    LogDropped(a);
    var c := a.(truncated := true, phase := Settling(TruncateSync, 0, true));
    LogSynced(c);
    OneMore(c.(truncated := false, nextLsn := 1, pending := [Mark(false, 0)], phase := InUseSync), SMountDone,
        InService());
  }

  /** An operation holds block 1 for the first time. */
  function Holding(s: State): State
    requires |s.vol| == 2
  {
    s.(cache := map[1 := Frame(s.vol[1], false, true, 0, 0)], ops := map[s.nextOp := Pinned(1, true)],
        nextOp := s.nextOp + 1)
  }

  /** It has changed it. */
  function Changing(s: State): State
    requires |s.vol| == |s.now| == 2
  {
    Holding(s).(cache := map[1 := Frame(ZERO_BLOCK, false, true, 0, 0)], ops := map[s.nextOp := Changed(1, true)],
                trace := s.trace + [Write(s.nextOp, 1, ZERO_BLOCK)], now := s.now[1 := ZERO_BLOCK])
  }

  /** And let it go. */
  function Letting(s: State): State
    requires |s.vol| == |s.now| == 2
  {
    Holding(s).(cache := map[1 := Frame(ZERO_BLOCK, false, true, 0, 1)], ops := map[s.nextOp := Unpinned(1, true)],
                trace := s.trace + [Write(s.nextOp, 1, ZERO_BLOCK)], now := s.now[1 := ZERO_BLOCK])
  }

  /** It has ended. */
  function OneWrite(s: State): State
    requires |s.vol| == |s.now| == 2
  {
    Letting(s).(txn := [1], ops := map[])
  }

  predicate Quiet(s: State) {
    s.phase == Up && |s.vol| == |s.now| == 2 && s.cache == map[] && s.ops == map[] && s.txn == []
  }

  function Beginning(s: State): State {
    s.(ops := map[s.nextOp := Ready], nextOp := s.nextOp + 1)
  }

  lemma BeginsOperation(s: State)
    requires Reached(s) && Quiet(s)
    ensures Reached(Beginning(s))
  {
    assert s.ops[s.nextOp := Ready] == map[s.nextOp := Ready];
    OneMore(s, SOpBegin, Beginning(s));
  }

  lemma HoldsBlock(s: State)
    requires Reached(s) && Quiet(s)
    ensures Reached(Holding(s))
  {
    BeginsOperation(s);
    assert Beginning(s).ops[s.nextOp := Pinned(1, true)] == map[s.nextOp := Pinned(1, true)];
    assert s.cache[1 := Frame(s.vol[1], false, true, 0, 0)] == map[1 := Frame(s.vol[1], false, true, 0, 0)];
    OneMore(Beginning(s), SOpAcquire(s.nextOp, 1), Holding(s));
  }

  lemma ChangesBlock(s: State)
    requires Quiet(s) && Reached(Holding(s))
    ensures Reached(Letting(s))
  {
    assert OpChange(Holding(s), s.nextOp, ZERO_BLOCK, Changing(s));
    OneMore(Holding(s), SOpChange(s.nextOp, ZERO_BLOCK), Changing(s));
    LetsBlock(s);
  }

  lemma LetsBlock(s: State)
    requires Quiet(s) && Reached(Changing(s))
    ensures Reached(Letting(s))
  {
    assert OpFinish(Changing(s), s.nextOp, Letting(s));
    OneMore(Changing(s), SOpFinish(s.nextOp), Letting(s));
  }

  lemma WritesBlock(s: State)
    requires Reached(s) && Quiet(s)
    ensures Reached(OneWrite(s))
  {
    HoldsBlock(s);
    ChangesBlock(s);
    EndsOperation(s);
  }

  lemma EndsOperation(s: State)
    requires Quiet(s) && Reached(Letting(s))
    ensures Reached(OneWrite(s))
  {
    var o, d := s.nextOp, Letting(s);
    var e := d.(ops := map[o := Ready], txn := [1]);
    OneMore(d, SOpRecord(o), e);
    assert map[o := Ready] - {o} == map[];
    OneMore(e, SOpEnd(o), OneWrite(s));
  }

  /** A commit takes the one block ... */
  function Starting(s: State): State {
    s.(txn := [], cuts := s.cuts + [Cut(|s.trace|, s.nextOp)], closing := false, nextLsn := s.nextLsn + 1,
       phase := Logging(s.nextLsn, [1], 0), log := s.log + [Record(s.nextLsn, s.nextLsn, Begin)], part := map[])
  }

  lemma StartsCommit(s: State)
    requires Reached(s) && s.phase == Up && s.ops == map[] && s.txn == [1]
    ensures Reached(Starting(s))
  {
    OneMore(s, SCommitStart(false), Starting(s));
  }

  /** ... and logs its image. */
  lemma LogsImage(s: State) returns (s': State)
    requires Reached(s) && s.phase == Up && s.ops == map[] && s.txn == [1] && 1 in s.cache && s.img == map[]
             && !s.truncated
    ensures Reached(s') && s'.phase.Logged? && 1 in s'.part && s'.img == map[] && !s'.truncated && s'.nextLsn > 0
  {
    StartsCommit(s);
    var n, data, a := s.nextLsn, s.cache[1].data, Starting(s);
    var b := a.(log := a.log + [Record(n + 1, n, Image(1, data))], nextLsn := n + 2, phase := Logging(n, [1], 1),
                part := map[1 := data]);
    s' := b.(phase := Logged(n, [1]));
    OneMore(a, SLogImage, b);
    OneMore(b, SLogDone, s');
  }

  /** It gets as far as its COMMIT record. */
  lemma CommitsUnsynced(s: State) returns (s': State)
    requires Reached(s) && s.phase.Logged? && 1 in s.part && s.img == map[] && !s.truncated && s.nextLsn > 0
    ensures Reached(s') && InWindow(s') && !s'.truncated
  {
    var n := s.nextLsn;
    var d := s.(durableLen := |s.log|, durableLsn := n - 1, phase := Barrier(s.phase.txn, s.phase.blocks));
    s' := d.(log := d.log + [Record(n, s.phase.txn, Commit)], nextLsn := n + 1,
        phase := Sealed(s.phase.txn, s.phase.blocks));
    OneMore(s, SLogSync, d);
    OneMore(d, SLogCommit, s');
  }

  /** One mount, one operation and one commit lead there, and so to a loss that leaves no whole commit. */
  lemma WindowReached() returns (states: seq<State>, steps: seq<Step>, disk: seq<Block>, log: seq<Record>)
    ensures Run(states, steps)
    ensures var s := states[|steps|];
            && Inv(s) && InWindow(s) && Mounted(s.phase) && !s.truncated
            && KilledThenLost(s, |s.log|, disk, log) && !WholeCommit(s, disk, log)
  {
    MountsUp();
    WritesBlock(InService());
    var logged := LogsImage(OneWrite(InService()));
    var s := CommitsUnsynced(logged);
    states, steps :| Run(states, steps) && states[|steps|] == s;
    RunKeeps(states, steps, |steps|);
    disk, log := InsideWindow(s);
  }
}
