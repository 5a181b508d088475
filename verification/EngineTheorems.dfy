/** Crash safety over whole runs of the storage engine. */
module EngineTheorems {
  import opened Layout
  import opened Redo
  import opened Engine
  import opened EngineInvariant
  import EngineStore
  import EngineHistory
  import EngineLog

  /** What the next mount finds, or makes, of the files a crash left. */
  function Recovered(disk: seq<Block>, log: seq<Record>, mark: Mark): (r: seq<Block>)
    requires InRange(log, |disk|)
  {
    if mark.clean then disk else Replay(log, mark.ckpt, disk)
  }

  lemma InitHolds(s: State)
    requires Init(s)
    ensures Inv(s)
  {
    assert s.trace[..0] == s.trace;
    assert s.log[..s.base] == s.log;
  }

  // ------------------------------------------------------------- the crash

  ghost predicate InvOk(s: State) {
    HistoryOk(s) && LogOk(s) && StoreOk(s)
  }

  lemma Unfold(s: State)
    requires Inv(s)
    ensures InvOk(s)
  {
  }

  lemma OverlayUnique(c: seq<Block>, d: seq<Block>, img: map<nat, Block>, disk: seq<Block>)
    requires IsOverlay(c, img, disk) && IsOverlay(d, img, disk)
    ensures c == d
  {
  }

  /** Blocks written since the last sync hide under images, whatever they hold. */
  lemma OverlayAnyBytes(c: seq<Block>, img: map<nat, Block>, disk: seq<Block>, unsynced: set<nat>, disk': seq<Block>)
    requires IsOverlay(c, img, disk) && (forall b :: b in unsynced ==> b in img)
    requires |disk'| == |disk| && forall b :: 0 <= b < |disk| && b !in unsynced ==> disk'[b] == disk[b]
    ensures IsOverlay(c, img, disk')
  {
  }

  /** A transaction without its COMMIT, or with part of its records gone, is nothing. */
  lemma PrefixImages(log: seq<Record>, base: nat, tail: seq<Record>, part: map<nat, Block>, txn: nat, ckpt: nat)
    requires base <= |log| && PartIs(part, log[..base], tail, txn, ckpt) && log[base..] <= tail
    ensures Images(log, ckpt, Done(log)) == Images(log[..base], ckpt, Done(log[..base]))
  {
    assert log == log[..base] + log[base..];
    forall r | r in log[base..] ensures r in tail {
      var i :| 0 <= i < |log[base..]| && log[base..][i] == r;
      assert tail[i] == r;
    }
    UnfinishedTail(log[..base], log[base..], txn, ckpt);
  }

  /** The images left in any part of the log a crash may keep. */
  lemma SurvivingImages(s: State, log: seq<Record>)
    requires LogOk(s) && log <= s.log && s.durableLen <= |log|
    ensures Images(log, s.mark.ckpt, Done(log)) == if s.phase.Sealed? && |log| == |s.log| then s.img + s.part else s.img
  {
    if s.phase.Sealed? && |log| == |s.log| {
      assert log == s.log;
      EngineLog.SealedImages(s);
    } else if InLogging(s.phase) {
      assert log[..s.base] == s.log[..s.base];
      PrefixImages(log, s.base, Tail(s), s.part, TxnOf(s.phase), s.mark.ckpt);
    } else {
      assert log == s.log == s.log[..s.base];
    }
  }

  /** The commits the log may keep after a crash, and what they make. */
  lemma KeptContent(s: State, log: seq<Record>)
    requires HistoryOk(s)
    ensures Kept(s, log) < |s.cuts| && s.cuts[Kept(s, log)].pos <= |s.trace|
    ensures Content(s, Kept(s, log)) == if Kept(s, log) == s.sealed then s.sure else s.now
    ensures WholeOps(s.trace, s.cuts[Kept(s, log)])
    ensures s.cuts[s.sealed].ops <= s.cuts[Kept(s, log)].ops
  {
    assert WholeOps(s.trace, s.cuts[Kept(s, log)]);
    assert s.trace[..|s.trace|] == s.trace;
  }

  ghost predicate Recovers(c: seq<Block>, disk: seq<Block>, log: seq<Record>, mark: Mark) {
    if mark.clean then disk == c else IsOverlay(c, Images(log, mark.ckpt, Done(log)), disk)
  }

  /** With block 0 as it was last synced. */
  lemma OldMarkSurvives(s: State, disk: seq<Block>, log: seq<Record>)
    requires InvOk(s) && Survives(s, disk, log, s.mark) && !s.truncated
    ensures Recovers(if Kept(s, log) == s.sealed then s.sure else s.now, disk, log, s.mark)
  {
    if s.mark.clean {
      assert disk == s.sure;
    } else {
      SurvivingImages(s, log);
      OverlayAnyBytes(s.sure, s.img, s.disk, s.unsynced, disk);
      if Kept(s, log) != s.sealed {
        EngineStore.CacheCommit(s.cache, s.vol, s.now, s.sure, s.img, s.part, s.durableLsn, s.phase.blocks);
        EngineStore.DiskCommit(s.disk, s.vol, s.unsynced, s.sure, s.now, s.img, s.part, s.phase.blocks);
        OverlayAnyBytes(s.now, s.img + s.part, s.disk, s.unsynced, disk);
      }
    }
  }

  /** With everything in disk.img, and nothing in the log past the checkpoint. */
  lemma SettledSurvives(s: State, disk: seq<Block>, log: seq<Record>, mark: Mark)
    requires InvOk(s) && Survives(s, disk, log, mark)
    requires s.truncated || mark != s.mark
    ensures Recovers(s.sure, disk, log, mark) && Kept(s, log) == s.sealed
  {
    assert disk == s.sure;
    if !mark.clean {
      assert forall r :: r in log ==> r in s.log;
      NothingPastCheckpoint(log, mark.ckpt);
    }
  }

  /** Whatever survives, recovery makes of it exactly a whole number of commits. */
  lemma SurvivorsRecover(s: State, disk: seq<Block>, log: seq<Record>, mark: Mark)
    requires InvOk(s) && Survives(s, disk, log, mark)
    ensures InRange(log, |disk|)
    ensures Kept(s, log) < |s.cuts| && s.cuts[Kept(s, log)].pos <= |s.trace|
    ensures Recovers(Content(s, Kept(s, log)), disk, log, mark)
    ensures Recovered(disk, log, mark) == Content(s, Kept(s, log))
  {
    assert forall r :: r in log ==> r in s.log;
    KeptContent(s, log);
    if s.truncated || mark != s.mark {
      SettledSurvives(s, disk, log, mark);
    } else {
      OldMarkSurvives(s, disk, log);
    }
    if !mark.clean {
      RedoPassIsOverlay(log, mark.ckpt, Done(log), disk);
      OverlayUnique(Content(s, Kept(s, log)), Recovered(disk, log, mark), Images(log, mark.ckpt, Done(log)), disk);
    }
  }

  lemma CutTrace(trace: seq<Write>, nextOp: nat, cuts: seq<Cut>, n: nat, k: nat)
    requires TraceOk(trace, nextOp, n) && CutsOk(trace, nextOp, cuts) && k < |cuts|
    ensures cuts[k].pos <= |trace|
    ensures TraceOk(trace[..cuts[k].pos], cuts[k].ops, n)
    ensures CutsOk(trace[..cuts[k].pos], cuts[k].ops, cuts[..k + 1])
  {
  }

  lemma HistoryCrash(s: State, disk: seq<Block>, log: seq<Record>, mark: Mark, s': State)
    requires HistoryInv(s) && Crash(s, disk, log, mark, s')
    requires Kept(s, log) < |s.cuts| && s.cuts[s.sealed].ops <= s.cuts[Kept(s, log)].ops
    ensures HistoryInv(s')
  {
    UnfoldHistoryInv(s);
    var k := Kept(s, log);
    CutTrace(s.trace, s.nextOp, s.cuts, |s.origin|, k);
    EngineHistory.PromisesLater(s.promised, s.committedThrough, s.cuts[s.sealed].ops, s.cuts[k].ops);
    assert s'.trace[..|s'.trace|] == s'.trace;
  }

  lemma LogCrash(s: State, disk: seq<Block>, log: seq<Record>, mark: Mark, s': State)
    requires LogInv(s) && Crash(s, disk, log, mark, s')
    ensures LogInv(s')
  {
    UnfoldLogInv(s);
    assert log[..|log|] == log;
    assert forall r :: r in log ==> r in s.log;
  }

  lemma KeepCrash(s: State, disk: seq<Block>, log: seq<Record>, mark: Mark, s': State)
    requires Inv(s) && Crash(s, disk, log, mark, s')
    ensures Inv(s')
  {
    Unfold(s);
    SurvivorsRecover(s, disk, log, mark);
    KeptContent(s, log);
    HistoryCrash(s, disk, log, mark, s');
    LogCrash(s, disk, log, mark, s');
    assert Recovers(s'.sure, s'.disk, s'.log, s'.mark);
  }

  // ------------------------------------------------------- the other steps

  ghost predicate OpStep(step: Step) {
    step.SOpBegin? || step.SOpAcquire? || step.SOpChange? || step.SOpFinish? || step.SOpRecord? || step.SOpEnd?
  }

  ghost predicate CacheStep(step: Step) {
    step.SLoad? || step.SEvict? || step.SPassStart? || step.SPassPick? || step.SPassCopy? || step.SPassRecheck?
    || step.SPassWrite? || step.SPassClean? || step.SPassEnd?
  }

  ghost predicate CommitStep(step: Step) {
    step.SCommitStart? || step.SLogImage? || step.SLogDone? || step.SLogSync? || step.SLogCommit?
    || step.SCommitSync? || step.SFrameLeave? || step.SLeaveDone? || step.SCommitEnd?
  }

  ghost predicate CallStep(step: Step) {
    step.SCallCommit? || step.SCallReturn?
  }

  /** Next, folded like the invariant. */
  ghost predicate Took(s: State, step: Step, s': State) { forall t :: t == s' ==> Next(s, step, t) }

  ghost predicate SettleStep(step: Step) {
    !OpStep(step) && !CacheStep(step) && !CommitStep(step) && !CallStep(step) && !step.SCrash?
  }

  lemma StoreOps(s: State, step: Step, s': State)
    requires StoreInv(s) && s.nextOp !in s.ops && Took(s, step, s') && OpStep(step)
    ensures StoreInv(s')
  {
    var _ := Next(s, step, s');
    match step
    case SOpBegin => EngineStore.StoreOpBegin(s, s');
    case SOpAcquire(o, b) => EngineStore.StoreOpAcquire(s, o, b, s');
    case SOpChange(o, data) => EngineStore.StoreOpChange(s, o, data, s');
    case SOpFinish(o) => EngineStore.StoreOpFinish(s, o, s');
    case SOpRecord(o) => EngineStore.StoreOpRecord(s, o, s');
    case SOpEnd(o) => EngineStore.StoreOpEnd(s, o, s');
  }

  lemma StoreCache(s: State, step: Step, s': State)
    requires StoreInv(s) && (Mounted(s.phase) || s.pass.Pass? ==> !s.mark.clean) && Took(s, step, s') && CacheStep(step)
    ensures StoreInv(s') && OnlyCache(s, s')
  {
    var _ := Next(s, step, s');
    match step
    case SLoad(b) => EngineStore.StoreLoad(s, b, s');
    case SEvict(b) => EngineStore.StoreEvict(s, b, s');
    case SPassStart => EngineStore.StorePassStart(s, s');
    case SPassPick(chosen) => EngineStore.StorePassPick(s, chosen, s');
    case SPassCopy(b) => EngineStore.StorePassCopy(s, b, s');
    case SPassRecheck(b) => EngineStore.StorePassRecheck(s, b, s');
    case SPassWrite(b) => EngineStore.StorePassWrite(s, b, s');
    case SPassClean(b) => EngineStore.StorePassClean(s, b, s');
    case SPassEnd => EngineStore.StorePassEnd(s, s');
  }

  lemma StoreCommit(s: State, step: Step, s': State)
    requires StoreInv(s) && (Mounted(s.phase) ==> !s.mark.clean && s.durableLsn < s.nextLsn) && Took(s, step, s')
             && CommitStep(step)
    requires s.phase.Leaving? ==> s.now == s.sure
    ensures StoreInv(s')
    ensures !HistoryStep(step) ==> SameHistory(s, s')
  {
    var _ := Next(s, step, s');
    match step
    case SCommitStart(close) => EngineStore.StoreCommitStart(s, close, s');
    case SLogImage => EngineStore.StoreLogImage(s, s');
    case SLogDone => EngineStore.StoreLogDone(s, s');
    case SLogSync => EngineStore.StoreLogSync(s, s');
    case SLogCommit => EngineStore.StoreLogCommit(s, s');
    case SCommitSync => EngineStore.StoreCommitSync(s, s');
    case SFrameLeave => EngineStore.StoreFrameLeave(s, s');
    case SLeaveDone => EngineStore.StoreLeaveDone(s, s');
    case SCommitEnd => EngineStore.StoreCommitEnd(s, s');
  }

  ghost predicate CloseStep(step: Step) {
    step.SCloseMark? || step.SUnmounted? || step.SInUseMark? || step.SMountDone?
  }

  ghost predicate RedoingStep(step: Step) {
    step.SMountStart? || step.SRedoStep? || step.SRedoDone?
  }

  lemma KeepCheckpoint(s: State, step: Step, s': State)
    requires LogInv(s) && StoreInv(s) && (s.phase != Up && !InLogging(s.phase) ==> s.now == s.sure)
    requires Took(s, step, s') && SettleStep(step) && !CloseStep(step) && !RedoingStep(step)
    ensures LogInv(s') && StoreInv(s') && SameHistory(s, s')
  {
    var _ := Next(s, step, s');
    match step
    case SCheckpointStart => EngineLog.LogRest(s, s'); EngineStore.StoreCheckpointStart(s, s');
    case SCheckpointWritten => EngineLog.LogCheckpointWritten(s, s'); EngineStore.StoreCheckpointWritten(s, s');
    case SSettleSync => EngineLog.LogSettleSync(s, s'); EngineStore.StoreSettleSync(s, s');
    case SSettleMark => EngineLog.LogSettleMark(s, s'); EngineStore.StoreSettleMark(s, s');
    case SSettleMarkSync => EngineLog.LogSettleMarkSync(s, s'); EngineStore.StoreSettleMarkSync(s, s');
    case SSettleTruncate => EngineLog.LogSettleTruncate(s, s'); EngineStore.StoreSettleTruncate(s, s');
    case SSettleTruncateSync => EngineLog.LogSettleTruncateSync(s, s'); EngineStore.StoreSettleTruncateSync(s, s');
  }

  lemma KeepRedo(s: State, step: Step, s': State)
    requires LogInv(s) && StoreInv(s) && |s.vol| == |s.origin|
    requires Took(s, step, s') && RedoingStep(step)
    ensures LogInv(s') && StoreInv(s') && SameHistory(s, s')
  {
    var _ := Next(s, step, s');
    match step
    case SMountStart => EngineLog.LogMountStart(s, s'); EngineStore.StoreMountStart(s, s');
    case SRedoStep => EngineLog.LogRedoStep(s, s'); EngineStore.StoreRedoStep(s, s');
    case SRedoDone => EngineLog.LogRedoDone(s, s'); EngineStore.StoreRedoDone(s, s');
  }

  lemma KeepClose(s: State, step: Step, s': State)
    requires LogInv(s) && StoreInv(s)
    requires s.phase != Up && !InLogging(s.phase) ==> s.now == s.sure
    requires Took(s, step, s') && CloseStep(step)
    ensures LogInv(s') && StoreInv(s')
    ensures !HistoryStep(step) ==> SameHistory(s, s')
  {
    var _ := Next(s, step, s');
    match step
    case SCloseMark => EngineLog.LogCloseMark(s, s'); EngineStore.StoreCloseMark(s, s');
    case SUnmounted => EngineLog.LogUnmounted(s, s'); EngineStore.StoreUnmounted(s, s');
    case SInUseMark => EngineLog.LogInUseMark(s, s'); EngineStore.StoreInUseMark(s, s');
    case SMountDone => EngineLog.LogMountDone(s, s'); EngineStore.StoreMountDone(s, s');
  }

  lemma LogCommits(s: State, step: Step, s': State)
    requires LogInv(s) && Took(s, step, s') && CommitStep(step)
    requires forall b :: b in s.cache ==> b < |s.origin|
    ensures LogInv(s')
  {
    var _ := Next(s, step, s');
    match step
    case SCommitStart(close) => EngineLog.LogCommitStart(s, close, s');
    case SLogImage => EngineLog.LogLogImage(s, s');
    case SLogDone => EngineLog.LogLogDone(s, s');
    case SLogSync => EngineLog.LogLogSync(s, s');
    case SLogCommit => EngineLog.LogLogCommit(s, s');
    case SCommitSync => EngineLog.LogCommitSync(s, s');
    case SFrameLeave => EngineLog.LogRest(s, s');
    case SLeaveDone => EngineLog.LogRest(s, s');
    case SCommitEnd => EngineLog.LogRest(s, s');
  }

  lemma HistoryOps(s: State, step: Step, s': State)
    requires HistoryInv(s) && Took(s, step, s') && OpStep(step)
    requires forall b :: b in s.cache ==> b < |s.origin|
    requires s.ops != map[] ==> s.phase == Up
    ensures HistoryInv(s')
  {
    var _ := Next(s, step, s');
    if step.SOpBegin? {
      EngineHistory.HistoryOpBegin(s, s');
    } else if step.SOpChange? {
      EngineHistory.HistoryOpChange(s, step.o, step.data, s');
    } else {
      EngineHistory.HistoryOpMove(s, s');
    }
  }

  ghost predicate HistoryStep(step: Step) {
    step.SCommitStart? || step.SCommitSync? || step.SCommitEnd? || step.SUnmounted? || step.SMountDone?
  }

  lemma HistoryMoves(s: State, step: Step, s': State)
    requires HistoryInv(s) && Took(s, step, s') && HistoryStep(step)
    requires s.phase == Up && s.ops == map[] && s.txn == [] ==> s.now == s.sure
    ensures HistoryInv(s')
  {
    var _ := Next(s, step, s');
    match step
    case SCommitStart(close) => EngineHistory.HistoryCommitStart(s, close, s');
    case SCommitSync => EngineHistory.HistoryCommitSync(s, s');
    case SCommitEnd => EngineHistory.HistoryCommitEnd(s, s');
    case SUnmounted => EngineHistory.HistoryUnmounted(s, s');
    case SMountDone => EngineHistory.HistoryMountDone(s, s');
  }

  lemma LocalOpStep(s: State, step: Step, s': State)
    requires Took(s, step, s') && OpStep(step)
    ensures EngineLog.FieldsOf(s') == EngineLog.FieldsOf(s) && s'.phase == s.phase
  {
    var _ := Next(s, step, s');
  }

  lemma KeepOp(s: State, step: Step, s': State)
    requires Inv(s) && Took(s, step, s') && OpStep(step)
    ensures Inv(s')
  {
    Crossings(s);
    HistoryOps(s, step, s');
    StoreOps(s, step, s');
    LocalOpStep(s, step, s');
    EngineLog.LogRest(s, s');
  }

  lemma KeepCache(s: State, step: Step, s': State)
    requires Inv(s) && Took(s, step, s') && CacheStep(step)
    ensures Inv(s')
  {
    Crossings(s);
    StoreCache(s, step, s');
    EngineHistory.HistoryRest(s, s');
    EngineLog.LogRest(s, s');
  }

  lemma KeepCommit(s: State, step: Step, s': State)
    requires Inv(s) && Took(s, step, s') && CommitStep(step)
    ensures Inv(s')
  {
    Crossings(s);
    StoreCommit(s, step, s');
    if HistoryStep(step) {
      HistoryMoves(s, step, s');
    } else {
      EngineHistory.HistoryRest(s, s');
    }
    LogCommits(s, step, s');
  }

  lemma KeepCall(s: State, step: Step, s': State)
    requires Inv(s) && Took(s, step, s') && CallStep(step)
    ensures Inv(s')
  {
    var _ := Next(s, step, s');
    Crossings(s);
    if step.SCallCommit? {
      EngineHistory.HistoryCallCommit(s, step.c, s');
    } else {
      EngineHistory.HistoryCallReturn(s, step.c, s');
    }
    EngineStore.StoreCalls(s, s');
    EngineLog.LogRest(s, s');
  }

  /** Every step keeps the invariant. */
  lemma KeepNext(s: State, step: Step, s': State)
    requires Inv(s) && Took(s, step, s')
    ensures Inv(s')
  {
    if step.SCrash? {
      var _ := Next(s, step, s');
      KeepCrash(s, step.disk, step.log, step.mark, s');
    } else if OpStep(step) {
      KeepOp(s, step, s');
    } else if CacheStep(step) {
      KeepCache(s, step, s');
    } else if CommitStep(step) {
      KeepCommit(s, step, s');
    } else if CallStep(step) {
      KeepCall(s, step, s');
    } else {
      Crossings(s);
      if RedoingStep(step) {
        KeepRedo(s, step, s');
      } else if CloseStep(step) {
        KeepClose(s, step, s');
      } else {
        KeepCheckpoint(s, step, s');
      }
      if HistoryStep(step) {
        HistoryMoves(s, step, s');
      } else {
        EngineHistory.HistoryRest(s, s');
      }
    }
  }

  /** What each part of the invariant owes the others. */
  lemma Crossings(s: State)
    requires Inv(s)
    ensures s.nextOp !in s.ops
    ensures forall b :: b in s.cache ==> b < |s.origin|
    ensures s.phase != Up && !InLogging(s.phase) ==> s.now == s.sure
    ensures s.phase == Up && s.ops == map[] && s.txn == [] ==> s.now == s.sure
    ensures Mounted(s.phase) ==> !s.mark.clean && s.durableLsn < s.nextLsn
    ensures s.pass.Pass? ==> !s.mark.clean
    ensures |s.vol| == |s.origin|
    ensures s.ops != map[] ==> s.phase == Up
  {
    UnfoldHistoryInv(s);
    UnfoldLogInv(s);
    UnfoldStoreInv(s);
    if s.phase != Up && !InLogging(s.phase) {
      assert s.trace[..|s.trace|] == s.trace;
    }
    if s.phase == Up && s.ops == map[] && s.txn == [] {
      EngineStore.TxnRecorded(s.txn, s.cache);
      forall b | 0 <= b < |s.now| ensures s.now[b] == s.sure[b] {
        assert b in s.cache ==> FrameOk(s.cache[b], b, s.vol, s.now, s.sure, s.img, s.durableLsn);
      }
    }
  }

  // ------------------------------------------------------------- theorems

  lemma {:induction false} RunKeeps(states: seq<State>, steps: seq<Step>, i: nat)
    requires Run(states, steps) && i < |states|
    ensures Inv(states[i])
  {
    if i == 0 {
      InitHolds(states[0]);
    } else {
      RunKeeps(states, steps, i - 1);
      KeepNext(states[i - 1], steps[i - 1], states[i]);
    }
  }

  // ----------------------------------------------------- what stays made sure

  /** What recovery must produce has only grown: the same writes, and perhaps more, of the same operations. */
  ghost predicate Onward(s: State, s': State) { forall t :: t == s' ==> OnwardIn(s, t) }

  ghost predicate OnwardIn(s: State, s': State) {
    && s.sealed < |s.cuts| && s'.sealed < |s'.cuts|
    && s.cuts[s.sealed].ops <= s'.cuts[s'.sealed].ops
    && s.cuts[s.sealed].pos <= |s.trace| && s'.cuts[s'.sealed].pos <= |s'.trace|
    && s.trace[..s.cuts[s.sealed].pos] <= s'.trace[..s'.cuts[s'.sealed].pos]
  }

  /** Nothing was cut off: every write stands, and every commit() call but those that may have returned goes on. */
  ghost predicate Unbroken(s: State, step: Step, s': State) { forall t :: t == s' ==> UnbrokenIn(s, step, t) }

  ghost predicate UnbrokenIn(s: State, step: Step, s': State) {
    && s.trace <= s'.trace
    && forall c :: c in s.calls && step != SCallReturn(c) ==> c in s'.calls && s'.calls[c] == s.calls[c]
  }

  /** A step that leaves cuts and calls alone. */
  lemma SameCuts(s: State, step: Step, s': State)
    requires HistoryInv(s) && s'.cuts == s.cuts && s'.sealed == s.sealed && s'.calls == s.calls && s.trace <= s'.trace
    ensures Onward(s, s') && Unbroken(s, step, s')
  {
    UnfoldHistoryInv(s);
    assert WholeOps(s.trace, s.cuts[s.sealed]);
    assert OnwardIn(s, s') && UnbrokenIn(s, step, s');
  }

  lemma OpsOnward(s: State, step: Step, s': State)
    requires Took(s, step, s') && OpStep(step)
    ensures s'.cuts == s.cuts && s'.sealed == s.sealed && s'.calls == s.calls && s.trace <= s'.trace
  {
    var _ := Next(s, step, s');
  }

  lemma CallsOnward(s: State, step: Step, s': State)
    requires HistoryInv(s) && Took(s, step, s') && CallStep(step)
    ensures Onward(s, s') && Unbroken(s, step, s')
  {
    var _ := Next(s, step, s');
    UnfoldHistoryInv(s);
    assert WholeOps(s.trace, s.cuts[s.sealed]);
    assert OnwardIn(s, s') && UnbrokenIn(s, step, s');
  }

  lemma MovesOnward(s: State, step: Step, s': State)
    requires HistoryInv(s) && Took(s, step, s') && HistoryStep(step)
    ensures Onward(s, s') && (!step.SUnmounted? ==> Unbroken(s, step, s'))
  {
    MoveCuts(s, step, s');
    UnfoldHistoryInv(s);
    LaterCut(s, s');
    if !step.SUnmounted? {
      assert UnbrokenIn(s, step, s');
    }
  }

  lemma MoveCuts(s: State, step: Step, s': State)
    requires Took(s, step, s') && HistoryStep(step)
    ensures s'.trace == s.trace && (!step.SUnmounted? ==> s'.calls == s.calls)
    ensures s'.sealed == s.sealed || s'.sealed == |s'.cuts| - 1
    ensures s'.cuts == s.cuts || s'.cuts == s.cuts + [Cut(|s.trace|, s.nextOp)]
  {
    var _ := Next(s, step, s');
    match step
    case SCommitStart(close) => StartCuts(s, close, s');
    case SCommitSync => SyncCuts(s, s');
    case _ => EndCuts(s, s');
  }

  lemma StartCuts(s: State, close: bool, s': State)
    requires CommitStart(s, close, s')
    ensures s'.trace == s.trace && s'.calls == s.calls
    ensures s'.sealed == s.sealed || s'.sealed == |s'.cuts| - 1
    ensures s'.cuts == s.cuts + [Cut(|s.trace|, s.nextOp)]
  {
  }

  lemma SyncCuts(s: State, s': State)
    requires CommitSync(s, s')
    ensures s'.trace == s.trace && s'.calls == s.calls && s'.cuts == s.cuts && s'.sealed == |s'.cuts| - 1
  {
  }

  lemma EndCuts(s: State, s': State)
    requires CommitEnd(s, s') || Unmounted(s, s') || MountDone(s, s')
    ensures s'.trace == s.trace && s'.cuts == s.cuts && s'.sealed == s.sealed
    ensures !Unmounted(s, s') ==> s'.calls == s.calls
    ensures s.phase.CloseSync? <==> Unmounted(s, s')
  {
  }

  lemma LaterCut(s: State, s': State)
    requires HistoryInv(s) && s'.trace == s.trace && s.sealed < |s.cuts|
    requires s'.sealed == s.sealed || s'.sealed == |s'.cuts| - 1
    requires s'.cuts == s.cuts || s'.cuts == s.cuts + [Cut(|s.trace|, s.nextOp)]
    ensures Onward(s, s')
  {
    UnfoldHistoryInv(s);
    assert WholeOps(s.trace, s.cuts[s.sealed]) && WholeOps(s.trace, s.cuts[|s.cuts| - 1]);
    assert OnwardIn(s, s');
  }

  lemma CrashOnward(s: State, step: Step, s': State)
    requires Inv(s) && Took(s, step, s') && step.SCrash?
    ensures Onward(s, s')
  {
    var _ := Next(s, step, s');
    UnfoldHistoryInv(s);
    var k := Kept(s, step.log);
    assert WholeOps(s.trace, s.cuts[s.sealed]) && WholeOps(s.trace, s.cuts[k]);
    assert s'.trace[..s.cuts[k].pos] == s.trace[..s.cuts[k].pos];
    assert OnwardIn(s, s');
  }

  lemma StepOnward(s: State, step: Step, s': State)
    requires Inv(s) && Took(s, step, s')
    ensures Onward(s, s') && (!step.SCrash? && !step.SUnmounted? ==> Unbroken(s, step, s'))
  {
    if step.SCrash? {
      CrashOnward(s, step, s');
    } else if HistoryStep(step) {
      MovesOnward(s, step, s');
    } else if CallStep(step) {
      CallsOnward(s, step, s');
    } else {
      if OpStep(step) {
        OpsOnward(s, step, s');
      } else {
        OthersOnward(s, step, s');
      }
      SameCuts(s, step, s');
    }
  }

  /** The cache, the log and the checkpoints leave the history alone. */
  lemma OthersOnward(s: State, step: Step, s': State)
    requires Inv(s) && Took(s, step, s')
    requires !step.SCrash? && !HistoryStep(step) && !CallStep(step) && !OpStep(step)
    ensures s'.cuts == s.cuts && s'.sealed == s.sealed && s'.calls == s.calls && s'.trace == s.trace
  {
    Crossings(s);
    if CacheStep(step) {
      StoreCache(s, step, s');
    } else if CommitStep(step) {
      StoreCommit(s, step, s');
    } else if RedoingStep(step) {
      KeepRedo(s, step, s');
    } else if CloseStep(step) {
      KeepClose(s, step, s');
    } else {
      KeepCheckpoint(s, step, s');
    }
  }

  lemma RunStep(states: seq<State>, steps: seq<Step>, i: nat)
    requires Run(states, steps) && i < |steps|
    ensures Inv(states[i]) && Took(states[i], steps[i], states[i + 1])
  {
    RunKeeps(states, steps, i);
    assert Next(states[i], steps[i], states[i + 1]);
  }

  lemma OnwardTwice(a: State, b: State, c: State)
    requires Onward(a, b) && Onward(b, c)
    ensures Onward(a, c)
  {
    assert OnwardIn(a, b) && OnwardIn(b, c);
    assert OnwardIn(a, c);
  }

  /** Run, folded. */
  ghost predicate Ran(states: seq<State>, steps: seq<Step>) { forall t :: t == steps ==> Run(states, t) }

  lemma StepOnwardAt(states: seq<State>, steps: seq<Step>, k: nat)
    requires Ran(states, steps) && |states| == |steps| + 1 && k < |steps|
    ensures Onward(states[k], states[k + 1])
  {
    RunStep(states, steps, k);
    StepOnward(states[k], steps[k], states[k + 1]);
  }

  lemma OnwardSelf(states: seq<State>, steps: seq<Step>, k: nat)
    requires Ran(states, steps) && k < |states|
    ensures Onward(states[k], states[k])
  {
    RunKeeps(states, steps, k);
    SameCuts(states[k], SPassEnd, states[k]);
  }

  /** Whatever commits are sure of at one time they are sure of for good, through any crash. */
  lemma SureForGood(states: seq<State>, steps: seq<Step>, i: nat, k: nat)
    requires Run(states, steps) && i <= k < |states|
    ensures Onward(states[i], states[k])
  {
    assert Ran(states, steps);
    SureOn(states, steps, i, k);
  }

  lemma {:induction false} SureOn(states: seq<State>, steps: seq<Step>, i: nat, k: nat)
    requires Ran(states, steps) && |states| == |steps| + 1 && i <= k < |states|
    ensures Onward(states[i], states[k])
  {
    if i == k {
      OnwardSelf(states, steps, i);
    } else {
      SureOn(states, steps, i, k - 1);
      StepOnwardAt(states, steps, k - 1);
      OnwardTwice(states[i], states[k - 1], states[k]);
    }
  }

  // ------------------------------------------------------- what commit() means

  /** Step j is a call of commit(), and step i its return: nothing has stopped the machine or unmounted between. */
  ghost predicate CommitReturned(states: seq<State>, steps: seq<Step>, c: nat, j: nat, i: nat) {
    && j < i < |steps| && steps[j] == SCallCommit(c) && steps[i] == SCallReturn(c)
    && forall m :: j < m < i ==> !steps[m].SCrash? && !steps[m].SUnmounted? && steps[m] != SCallReturn(c)
  }

  /** Every operation that had ended in `early` is among the first `ops`, with all its writes among the first `pos`. */
  ghost predicate Includes(trace: seq<Write>, pos: nat, ops: nat, early: State) {
    && (forall o: nat :: o < early.nextOp && o !in early.ops ==> o < ops)
    && (forall m: nat :: m < |early.trace| && early.trace[m].op !in early.ops ==>
          m < pos && m < |trace| && trace[m] == early.trace[m])
  }

  lemma IncludesMore(trace: seq<Write>, pos: nat, ops: nat, trace': seq<Write>, pos': nat, ops': nat, early: State)
    requires Includes(trace, pos, ops, early) && ops <= ops' && pos <= |trace| && pos' <= |trace'|
    requires trace[..pos] <= trace'[..pos']
    ensures Includes(trace', pos', ops', early)
  {
    forall m: nat | m < |early.trace| && early.trace[m].op !in early.ops
        ensures m < pos' && trace'[m] == early.trace[m] {
      assert trace'[..pos'][m] == trace[..pos][m];
    }
  }

  lemma CallStarts(states: seq<State>, steps: seq<Step>, c: nat, j: nat)
    requires Run(states, steps) && j < |steps| && steps[j] == SCallCommit(c)
    ensures var s := states[j];
            c in states[j + 1].calls && states[j + 1].calls[c] == Call(|Below(s.nextOp) - s.ops.Keys|,
                Below(s.nextOp) - s.ops.Keys)
    ensures states[j + 1].trace == states[j].trace
  {
    assert Next(states[j], steps[j], states[j + 1]);
  }

  ghost predicate Goes(s: State, c: nat, call: Call, early: seq<Write>) {
    c in s.calls && s.calls[c] == call && early <= s.trace
  }

  lemma {:induction false} CallGoesOn(states: seq<State>, steps: seq<Step>, c: nat, j: nat, i: nat, m: nat, call: Call,
                                      early: seq<Write>)
    requires Ran(states, steps) && |states| == |steps| + 1 && CommitReturned(states, steps, c, j, i) && j < m <= i
    requires Goes(states[j + 1], c, call, early)
    ensures Goes(states[m], c, call, early)
  {
    if m > j + 1 {
      CallGoesOn(states, steps, c, j, i, m - 1, call, early);
      CallGoesOnce(states, steps, m - 1, c, call, early);
    }
  }

  lemma CallGoesOnce(states: seq<State>, steps: seq<Step>, m: nat, c: nat, call: Call, early: seq<Write>)
    requires Ran(states, steps) && |states| == |steps| + 1 && m < |steps|
    requires !steps[m].SCrash? && !steps[m].SUnmounted? && steps[m] != SCallReturn(c)
    requires Goes(states[m], c, call, early)
    ensures Goes(states[m + 1], c, call, early)
  {
    RunStep(states, steps, m);
    StepOnward(states[m], steps[m], states[m + 1]);
    CallStays(states[m], steps[m], states[m + 1], c, early);
  }

  lemma CallStays(s: State, step: Step, s': State, c: nat, early: seq<Write>)
    requires Unbroken(s, step, s') && c in s.calls && step != SCallReturn(c) && early <= s.trace
    ensures c in s'.calls && s'.calls[c] == s.calls[c] && early <= s'.trace
  {
    assert UnbrokenIn(s, step, s');
  }

  /** Enough operations are committed for the call to return: the ones it came for are among them. */
  lemma EndedCovered(s: State, c: nat, early: State)
    requires HistoryInv(s) && HistoryInv(early) && early.trace <= s.trace && c in s.calls
    requires s.calls[c].ended == Below(early.nextOp) - early.ops.Keys && s.committedThrough >= s.calls[c].target
    ensures s.sealed < |s.cuts| && Includes(s.trace, s.cuts[s.sealed].pos, s.cuts[s.sealed].ops, early)
  {
    EndedSealed(s, c);
    UnfoldHistoryInv(early);
    EndedIncluded(s.trace, s.cuts[s.sealed], early, s.calls[c].ended);
  }

  lemma EndedSealed(s: State, c: nat)
    requires HistoryInv(s) && c in s.calls && s.committedThrough >= s.calls[c].target
    ensures s.sealed < |s.cuts| && s.calls[c].ended <= Below(s.cuts[s.sealed].ops)
    ensures WholeOps(s.trace, s.cuts[s.sealed])
  {
    UnfoldHistoryInv(s);
    assert CallOk(s.calls[c], s.nextOp, s.cuts);
    EngineHistory.CountedIn(s.calls[c].ended, s.cuts[s.sealed].ops);
  }

  lemma EndedIncluded(trace: seq<Write>, cut: Cut, early: State, ended: set<nat>)
    requires WholeOps(trace, cut) && early.trace <= trace && TraceOk(early.trace, early.nextOp, |early.origin|)
    requires ended == Below(early.nextOp) - early.ops.Keys && ended <= Below(cut.ops)
    ensures Includes(trace, cut.pos, cut.ops, early)
  {
    forall m: nat | m < |early.trace| && early.trace[m].op !in early.ops
        ensures m < cut.pos && trace[m] == early.trace[m] {
      assert early.trace[m].op in ended;
    }
    forall o: nat | o < early.nextOp && o !in early.ops ensures o < cut.ops {
      assert o in ended;
    }
  }

  lemma ReturnIncludes(states: seq<State>, steps: seq<Step>, c: nat, j: nat, i: nat)
    requires Run(states, steps) && CommitReturned(states, steps, c, j, i)
    ensures var s := states[i]; s.sealed < |s.cuts| && Includes(s.trace, s.cuts[s.sealed].pos, s.cuts[s.sealed].ops,
            states[j])
  {
    RunKeeps(states, steps, j);
    RunKeeps(states, steps, i);
    CallStarts(states, steps, c, j);
    CallGoesOn(states, steps, c, j, i, i, states[j + 1].calls[c], states[j].trace);
    assert Next(states[i], steps[i], states[i + 1]);
    EndedCovered(states[i], c, states[j]);
  }

  /** From a commit() call's return on, what had ended when it was called is in what a crash leaves, in any cut. */
  lemma CommitIncluded(states: seq<State>, steps: seq<Step>, c: nat, j: nat, i: nat, n: nat, k: nat)
    requires Run(states, steps) && CommitReturned(states, steps, c, j, i) && i < n < |states|
    requires states[n].sealed <= k < |states[n].cuts|
    ensures Includes(states[n].trace, states[n].cuts[k].pos, states[n].cuts[k].ops, states[j])
  {
    ReturnIncludes(states, steps, c, j, i);
    SureForGood(states, steps, i, n);
    RunKeeps(states, steps, n);
    var a, b := states[i], states[n];
    assert OnwardIn(a, b);
    CutsOnward(b, k);
    IncludesMore(a.trace, a.cuts[a.sealed].pos, a.cuts[a.sealed].ops, b.trace, b.cuts[k].pos, b.cuts[k].ops, states[j]);
  }

  lemma CutsOnward(s: State, k: nat)
    requires HistoryInv(s) && s.sealed <= k < |s.cuts|
    ensures s.cuts[s.sealed].pos <= s.cuts[k].pos <= |s.trace| && s.cuts[s.sealed].ops <= s.cuts[k].ops
    ensures s.trace[..s.cuts[s.sealed].pos] <= s.trace[..s.cuts[k].pos]
  {
    UnfoldHistoryInv(s);
    assert WholeOps(s.trace, s.cuts[k]);
  }

  /**
   What commit() is for: once it has returned, every operation that had ended when it was called is there, with all
   it wrote, after any crash and any number of them.
   */
  lemma CommitIsKept(states: seq<State>, steps: seq<Step>, c: nat, j: nat, i: nat, n: nat,
                     disk: seq<Block>, log: seq<Record>, mark: Mark)
    requires Run(states, steps) && CommitReturned(states, steps, c, j, i) && i < n < |states|
    requires Survives(states[n], disk, log, mark)
    ensures InRange(log, |disk|)
    ensures var s := states[n];
            && Kept(s, log) < |s.cuts|
            && var cut := s.cuts[Kept(s, log)];
               && cut.pos <= |s.trace|
               && Recovered(disk, log, mark) == AfterWrites(s.origin, s.trace[..cut.pos])
               && (forall o: nat :: o < states[j].nextOp && o !in states[j].ops ==> o < cut.ops)
               && (forall m: nat :: m < |states[j].trace| && states[j].trace[m].op !in states[j].ops ==>
                     m < cut.pos && s.trace[m] == states[j].trace[m])
  {
    RunKeeps(states, steps, n);
    SurvivorsOf(states[n], disk, log, mark);
    CommitIncluded(states, steps, c, j, i, n, Kept(states[n], log));
  }

  /**
   Crash safety. In any run, with any number of crashes and recoveries behind
   it, whatever a crash now leaves on the two files, the next recovery makes
   of it exactly what one whole commit left: every write up to a point that no
   operation straddles, at or past the last commit that was synced, and with
   every operation that had ended when a commit() was called that has returned.
   */
  lemma CrashSafety(states: seq<State>, steps: seq<Step>, i: nat,
                    disk: seq<Block>, log: seq<Record>, mark: Mark)
    requires Run(states, steps) && i < |states|
    requires Survives(states[i], disk, log, mark)
    ensures InRange(log, |disk|)
    ensures var s := states[i]; exists k ::
              && s.sealed <= k < |s.cuts|
              && s.cuts[k].pos <= |s.trace|
              && Recovered(disk, log, mark) == AfterWrites(s.origin, s.trace[..s.cuts[k].pos])
              && WholeOps(s.trace, s.cuts[k])
              && s.promised <= Below(s.cuts[k].ops)
              && forall c: nat, j: nat, r: nat :: r < i && CommitReturned(states, steps, c, j, r) ==>
                   Includes(s.trace, s.cuts[k].pos, s.cuts[k].ops, states[j])
  {
    var s := states[i];
    RunKeeps(states, steps, i);
    Unfold(s);
    SurvivorsRecover(s, disk, log, mark);
    KeptContent(s, log);
    var k := Kept(s, log);
    assert s.cuts[s.sealed].ops <= s.cuts[k].ops;
    forall c: nat, j: nat, r: nat | r < i && CommitReturned(states, steps, c, j, r)
        ensures Includes(s.trace, s.cuts[k].pos, s.cuts[k].ops, states[j]) {
      CommitIncluded(states, steps, c, j, r, i, k);
    }
    assert Recovered(disk, log, mark) == AfterWrites(s.origin, s.trace[..s.cuts[k].pos]);
  }

  /**
   The write-back pass and eviction are safe against everything else: whatever
   they have written, and however little of it a crash keeps, recovery makes
   of it what it would have made before.
   */
  lemma WriteBackHarmless(s: State, step: Step, s': State, disk: seq<Block>, log: seq<Record>, mark: Mark)
    requires Inv(s) && Next(s, step, s') && CacheStep(step)
    requires Survives(s', disk, log, mark)
    ensures Inv(s') && InRange(log, |disk|)
    ensures Kept(s, log) < |s.cuts| && s.cuts[Kept(s, log)].pos <= |s.trace|
    ensures Recovered(disk, log, mark) == Content(s, Kept(s, log))
  {
    assert Took(s, step, s');
    KeepNext(s, step, s');
    StillOwed(s, step, s', disk, log, mark);
  }

  lemma StillOwed(s: State, step: Step, s': State, disk: seq<Block>, log: seq<Record>, mark: Mark)
    requires Inv(s) && Took(s, step, s') && CacheStep(step)
    requires Inv(s') && Survives(s', disk, log, mark)
    ensures InRange(log, |disk|)
    ensures Kept(s, log) < |s.cuts| && s.cuts[Kept(s, log)].pos <= |s.trace|
    ensures Recovered(disk, log, mark) == Content(s, Kept(s, log))
  {
    SurvivorsOf(s', disk, log, mark);
    StoreInvAfterCache(s, step, s');
    OwesTheSame(s, s', log);
  }

  lemma SurvivorsOf(s: State, disk: seq<Block>, log: seq<Record>, mark: Mark)
    requires Inv(s) && Survives(s, disk, log, mark)
    ensures InRange(log, |disk|)
    ensures Kept(s, log) < |s.cuts| && s.cuts[Kept(s, log)].pos <= |s.trace|
    ensures Recovered(disk, log, mark) == Content(s, Kept(s, log))
  {
    Unfold(s);
    SurvivorsRecover(s, disk, log, mark);
  }

  lemma OwesTheSame(s: State, s': State, log: seq<Record>)
    requires OnlyCache(s, s') && Kept(s', log) < |s'.cuts| && s'.cuts[Kept(s', log)].pos <= |s'.trace|
    ensures Kept(s, log) == Kept(s', log) && s.cuts == s'.cuts && s.trace == s'.trace
    ensures Content(s, Kept(s, log)) == Content(s', Kept(s', log))
  {
  }

  lemma StoreInvAfterCache(s: State, step: Step, s': State)
    requires Inv(s) && Took(s, step, s') && CacheStep(step)
    ensures OnlyCache(s, s')
  {
    Crossings(s);
    StoreCache(s, step, s');
  }

  /** Recovery can be stopped anywhere, any number of times: it still owes the same. */
  lemma RecoveryRepeats(s: State, disk: seq<Block>, log: seq<Record>, mark: Mark)
    requires Inv(s) && !Mounted(s.phase) && Survives(s, disk, log, mark)
    ensures InRange(log, |disk|) && Recovered(disk, log, mark) == s.sure
  {
    Unfold(s);
    SurvivorsRecover(s, disk, log, mark);
    KeptContent(s, log);
  }

  /** The cache is transparent: a read sees every write made so far, and no other. */
  lemma ReadsSeeWrites(s: State, b: nat)
    requires Inv(s) && Mounted(s.phase) && b < |s.vol|
    ensures |s.vol| == |s.origin|
    ensures View(s, b) == AfterWrites(s.origin, s.trace)[b]
  {
    Unfold(s);
    assert b in s.cache ==> FrameOk(s.cache[b], b, s.vol, s.now, s.sure, s.img, s.durableLsn);
  }

  /** A mount hands over exactly what recovery owed: nothing more, nothing less. */
  lemma MountedAsRecovered(s: State, s': State, b: nat)
    requires Inv(s) && MountDone(s, s') && b < |s'.vol|
    ensures |s'.vol| == |s.sure| && View(s', b) == s.sure[b] && s'.disk == s.sure
  {
    Unfold(s);
  }

  /** After a clean close the image alone holds everything, and the log nothing. */
  lemma CloseLosesNothing(s: State, s': State)
    requires Inv(s) && Unmounted(s, s')
    ensures s'.mark.clean && s'.log == [] && s'.disk == AfterWrites(s.origin, s.trace)
  {
    Unfold(s);
    Crossings(s);
  }
}
