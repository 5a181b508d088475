/**
 The storage engine as a step machine: operations, the cache's write-back
 passes and evictions, the commit and checkpoint sequences, mount, recovery,
 close and the crash. One step is one thing no other thread can see half of.

 The last group of fields is history: what the program did, kept to say what
 its files mean. No step of the program reads it.
 */
module Engine {
  import opened Layout
  import opened Redo

  const SHARDS: nat := 16

  /** A cached block. A frame that is not mapped is simply absent. */
  datatype Frame = Frame(data: Block, dirty: bool, inTxn: bool, lsn: nat, version: nat)

  /** How far a write-back pass has got with one frame it pinned. */
  datatype Pick =
    | Picked(version: nat)
    | Copied(version: nat, bytes: Block)
    | Cleared(version: nat, bytes: Block)  // rechecked: part of the run
    | Written(version: nat)

  /** The write-back pass under way, if any: there is at most one. */
  datatype Pass = Idle | Pass(all: bool, shard: nat, picks: map<nat, Pick>)

  /** What a running operation is doing. `joined`: it must record the block. */
  datatype OpPc =
    | Ready
    | Pinned(block: nat, joined: bool)
    | Changed(block: nat, joined: bool)
    | Unpinned(block: nat, joined: bool)

  /** One change to one block, by one operation. */
  datatype Write = Write(op: nat, block: nat, data: Block)

  /** Where a commit falls: after trace[..pos], with operations 0..ops all ended. */
  datatype Cut = Cut(pos: nat, ops: nat)

  /** A commit() call under way, and the operations that had ended before it. */
  datatype Call = Call(target: nat, ended: set<nat>)

  /** The ordered tail every checkpoint shares with recovery. */
  datatype Stage = DevSync | MarkWrite | MarkSync | Truncate | TruncateSync

  datatype Phase =
    | Down
    | Redoing(next: nat)
    | Settling(stage: Stage, last: nat, mounting: bool)
    | InUseWrite
    | InUseSync
    | Up
    | Logging(txn: nat, blocks: seq<nat>, next: nat)
    | Logged(txn: nat, blocks: seq<nat>)
    | Barrier(txn: nat, blocks: seq<nat>)
    | Sealed(txn: nat, blocks: seq<nat>)
    | Leaving(blocks: seq<nat>, next: nat, lsn: nat)
    | Finishing
    | WritingBack
    | CloseWrite
    | CloseSync

  datatype State = State(
    // disk.img: what a crash keeps, what a read returns, and where they may differ
    disk: seq<Block>, vol: seq<Block>, unsynced: set<nat>,
    // block 0: durable, and written but not synced
    mark: Mark, pending: seq<Mark>,
    // the log file: all of it, how much is durable, and an unsynced truncation
    log: seq<Record>, durableLen: nat, truncated: bool,
    nextLsn: nat, durableLsn: nat,
    // memory
    cache: map<nat, Frame>, pass: Pass, txn: seq<nat>, ops: map<nat, OpPc>,
    calls: map<nat, Call>, committedThrough: nat, closing: bool, phase: Phase,
    // history
    origin: seq<Block>, trace: seq<Write>, nextOp: nat,
    cuts: seq<Cut>, sealed: nat, promised: set<nat>, base: nat,
    // what they make: the contents now, the contents recovery must produce, the
    // images it would redo, and the images of the transaction being logged (or,
    // during recovery, of the records redone so far)
    now: seq<Block>, sure: seq<Block>, img: map<nat, Block>, part: map<nat, Block>)

  // ------------------------------------------------------------- meaning

  /** `origin` after every write of `trace`, in order. */
  function AfterWrites(origin: seq<Block>, trace: seq<Write>): (r: seq<Block>)
    ensures |r| == |origin|
    decreases |trace|
  {
    if trace == [] then origin
    else
      var d := AfterWrites(origin, trace[..|trace| - 1]);
      var w := trace[|trace| - 1];
      if w.block < |d| then d[w.block := w.data] else d
  }

  /** The contents commit number k vouches for. */
  function Content(s: State, k: nat): (r: seq<Block>)
    requires k < |s.cuts| && s.cuts[k].pos <= |s.trace|
    ensures |r| == |s.origin|
  {
    AfterWrites(s.origin, s.trace[..s.cuts[k].pos])
  }

  /** A cut no operation straddles: whole operations on each side of it. */
  ghost predicate WholeOps(trace: seq<Write>, cut: Cut) {
    && cut.pos <= |trace|
    && (forall i :: 0 <= i < cut.pos ==> trace[i].op < cut.ops)
    && (forall i :: cut.pos <= i < |trace| ==> trace[i].op >= cut.ops)
  }

  /** The first k operation numbers. */
  function Below(k: nat): (r: set<nat>)
    ensures forall i: nat :: i in r <==> i < k
    ensures |r| == k
  {
    if k == 0 then {} else Below(k - 1) + {k - 1}
  }

  /** What a read returns: the cached bytes, else the disk's. */
  function View(s: State, b: nat): Block
    requires b < |s.vol|
  {
    if b in s.cache then s.cache[b].data else s.vol[b]
  }

  // ----------------------------------------------------------- operations

  predicate OpBegin(s: State, s': State) {
    && s.phase == Up
    && s' == s.(ops := s.ops[s.nextOp := Ready], nextOp := s.nextOp + 1)
  }

  /**
   Find or load the block, join the transaction, pin it. A `fresh` block is not
   read from the disk, but its frame stays locked until the operation has
   changed it, so what it holds before OpChange is never seen.
   */
  predicate OpAcquire(s: State, o: nat, b: nat, s': State) {
    && o in s.ops && s.ops[o] == Ready && 0 < b < |s.vol|
    && var joined := b !in s.cache || !s.cache[b].inTxn;
       var f := if b in s.cache then s.cache[b].(inTxn := true)
                else Frame(s.vol[b], false, true, 0, 0);
       s' == s.(cache := s.cache[b := f], ops := s.ops[o := Pinned(b, joined)])
  }

  /** The block's bytes change, under the frame's own lock. */
  predicate OpChange(s: State, o: nat, data: Block, s': State) {
    && o in s.ops && s.ops[o].Pinned?
    && var b := s.ops[o].block;
       && b in s.cache
       && s' == s.(cache := s.cache[b := s.cache[b].(data := data)],
                   ops := s.ops[o := Changed(b, s.ops[o].joined)],
                   trace := s.trace + [Write(o, b, data)],
                   now := if b < |s.now| then s.now[b := data] else s.now)
  }

  /** finish_modify: a new version, and the pin goes. */
  predicate OpFinish(s: State, o: nat, s': State) {
    && o in s.ops && s.ops[o].Changed?
    && var b := s.ops[o].block;
       && b in s.cache
       && s' == s.(cache := s.cache[b := s.cache[b].(version := s.cache[b].version + 1)],
                   ops := s.ops[o := Unpinned(b, s.ops[o].joined)])
  }

  /** add_to_txn, for the operation that made the frame join. */
  predicate OpRecord(s: State, o: nat, s': State) {
    && o in s.ops && s.ops[o].Unpinned?
    && var b := s.ops[o].block;
       s' == s.(ops := s.ops[o := Ready],
                txn := if s.ops[o].joined && b !in s.txn then s.txn + [b] else s.txn)
  }

  predicate OpEnd(s: State, o: nat, s': State) {
    && o in s.ops && s.ops[o] == Ready
    && s' == s.(ops := s.ops - {o})
  }

  // ---------------------------------------------------------------- cache

  predicate Mounted(p: Phase) {
    !p.Down? && !p.Redoing? && !(p.Settling? && p.mounting) && !p.InUseWrite? && !p.InUseSync?
  }

  /** A read brings a block in. */
  predicate Load(s: State, b: nat, s': State) {
    && Mounted(s.phase) && 0 < b < |s.vol| && b !in s.cache
    && s' == s.(cache := s.cache[b := Frame(s.vol[b], false, false, 0, 0)])
  }

  /** take_frame: an unpinned frame no transaction holds, written first if dirty. */
  predicate Evict(s: State, b: nat, s': State) {
    && Mounted(s.phase) && b in s.cache && !s.cache[b].inTxn && b < |s.vol|
    && (s.pass.Pass? ==> b !in s.pass.picks)
    && (s.cache[b].dirty ==> s.cache[b].lsn <= s.durableLsn)
    && if s.cache[b].dirty
       then s' == s.(cache := s.cache - {b}, vol := s.vol[b := s.cache[b].data],
                     unsynced := s.unsynced + {b})
       else s' == s.(cache := s.cache - {b})
  }

  predicate Eligible(s: State, b: nat) {
    b in s.cache && s.cache[b].dirty && !s.cache[b].inTxn && s.cache[b].lsn <= s.durableLsn
  }

  /** The flusher starts a pass. */
  predicate PassStart(s: State, s': State) {
    && Mounted(s.phase) && s.pass.Idle? && !s.closing && !s.phase.WritingBack?
    && s' == s.(pass := Pass(false, 0, map[]))
  }

  /** One shard's frames are picked, all at once, under its mutex. */
  predicate PassPick(s: State, chosen: set<nat>, s': State) {
    && s.pass.Pass? && s.pass.shard < SHARDS
    && (forall b :: b in chosen ==> Eligible(s, b) && b % SHARDS == s.pass.shard)
    && (s.pass.all ==> forall b :: b in s.cache && Eligible(s, b) && b % SHARDS == s.pass.shard ==> b in chosen)
    && s' == s.(pass := s.pass.(shard := s.pass.shard + 1,
                  picks := s.pass.picks + map b | b in chosen && b in s.cache :: Picked(s.cache[b].version)))
  }

  predicate PassCopy(s: State, b: nat, s': State) {
    && s.pass.Pass? && b in s.pass.picks && s.pass.picks[b].Picked? && b in s.cache
    && s' == s.(pass := s.pass.(picks := s.pass.picks[b := Copied(s.pass.picks[b].version, s.cache[b].data)]))
  }

  /** The recheck: into the run, or left out and unpinned. */
  predicate PassRecheck(s: State, b: nat, s': State) {
    && s.pass.Pass? && b in s.pass.picks && s.pass.picks[b].Copied? && b in s.cache
    && if !s.cache[b].inTxn && s.cache[b].lsn <= s.durableLsn
       then s' == s.(pass := s.pass.(picks :=
                     s.pass.picks[b := Cleared(s.pass.picks[b].version, s.pass.picks[b].bytes)]))
       else s' == s.(pass := s.pass.(picks := s.pass.picks - {b}))
  }

  predicate PassWrite(s: State, b: nat, s': State) {
    && s.pass.Pass? && b in s.pass.picks && s.pass.picks[b].Cleared? && b < |s.vol|
    && s' == s.(vol := s.vol[b := s.pass.picks[b].bytes], unsynced := s.unsynced + {b},
                pass := s.pass.(picks := s.pass.picks[b := Written(s.pass.picks[b].version)]))
  }

  /** The version decides whether the frame is clean now; its pin goes in any case. */
  predicate PassClean(s: State, b: nat, s': State) {
    && s.pass.Pass? && b in s.pass.picks && s.pass.picks[b].Written? && b in s.cache
    && var f := s.cache[b];
       s' == s.(pass := s.pass.(picks := s.pass.picks - {b}),
                cache := if f.version == s.pass.picks[b].version
                         then s.cache[b := f.(dirty := false)] else s.cache)
  }

  predicate PassEnd(s: State, s': State) {
    && s.pass.Pass? && s.pass.picks == map[] && !s.pass.all
    && s' == s.(pass := Idle)
  }

  // --------------------------------------------------------------- commit

  /** commit() is called: the operations ended by now are its business. */
  predicate CallCommit(s: State, c: nat, s': State) {
    && Mounted(s.phase) && c !in s.calls
    && s' == s.(calls := s.calls[c := Call(|Below(s.nextOp) - s.ops.Keys|, Below(s.nextOp) - s.ops.Keys)])
  }

  /** It returns once enough operations are committed. */
  predicate CallReturn(s: State, c: nat, s': State) {
    && c in s.calls && s.committedThrough >= s.calls[c].target
    && s' == s.(calls := s.calls - {c}, promised := s.promised + s.calls[c].ended)
  }

  /** run_commit past the gate: no operation is running, and none can start. */
  predicate CommitStart(s: State, close: bool, s': State) {
    && s.phase == Up && s.ops == map[]
    && var cuts := s.cuts + [Cut(|s.trace|, s.nextOp)];
       if s.txn == []
       then s' == s.(closing := close, phase := Finishing, cuts := cuts, sealed := |s.cuts|)
       else s' == s.(closing := close, txn := [], cuts := cuts,
                     phase := Logging(s.nextLsn, s.txn, 0), nextLsn := s.nextLsn + 1,
                     log := s.log + [Record(s.nextLsn, s.nextLsn, Begin)], part := map[])
  }

  predicate LogImage(s: State, s': State) {
    && s.phase.Logging? && s.phase.next < |s.phase.blocks|
    && var b := s.phase.blocks[s.phase.next];
       && b in s.cache
       && s' == s.(log := s.log + [Record(s.nextLsn, s.phase.txn, Image(b, s.cache[b].data))],
                   nextLsn := s.nextLsn + 1,
                   phase := Logging(s.phase.txn, s.phase.blocks, s.phase.next + 1),
                   part := s.part[b := s.cache[b].data])
  }

  predicate LogDone(s: State, s': State) {
    && s.phase.Logging? && s.phase.next == |s.phase.blocks|
    && s' == s.(phase := Logged(s.phase.txn, s.phase.blocks))
  }

  /** The first barrier. */
  predicate LogSync(s: State, s': State) {
    && s.phase.Logged?
    && s.nextLsn > 0
    && s' == s.(durableLen := |s.log|, durableLsn := s.nextLsn - 1, phase := Barrier(s.phase.txn, s.phase.blocks))
  }

  predicate LogCommit(s: State, s': State) {
    && s.phase.Barrier?
    && s' == s.(log := s.log + [Record(s.nextLsn, s.phase.txn, Commit)],
                nextLsn := s.nextLsn + 1, phase := Sealed(s.phase.txn, s.phase.blocks))
  }

  /** The second barrier: the transaction is durable. */
  predicate CommitSync(s: State, s': State) {
    && s.phase.Sealed? && |s.cuts| > 0 && s.nextLsn > 0
    && s' == s.(durableLen := |s.log|, durableLsn := s.nextLsn - 1, base := |s.log|,
                sealed := |s.cuts| - 1, sure := s.now, img := s.img + s.part, part := map[],
                phase := Leaving(s.phase.blocks, 0, s.nextLsn - 1))
  }

  /** commit_frame. */
  predicate FrameLeave(s: State, s': State) {
    && s.phase.Leaving? && s.phase.next < |s.phase.blocks|
    && var b := s.phase.blocks[s.phase.next];
       && b in s.cache
       && s' == s.(cache := s.cache[b := s.cache[b].(inTxn := false, lsn := s.phase.lsn,
                                        version := s.cache[b].version + 1, dirty := true)],
                   phase := Leaving(s.phase.blocks, s.phase.next + 1, s.phase.lsn))
  }

  predicate LeaveDone(s: State, s': State) {
    && s.phase.Leaving? && s.phase.next == |s.phase.blocks|
    && s' == s.(phase := Finishing)
  }

  /** The commit is over and the gate opens. */
  predicate CommitEnd(s: State, s': State) {
    && s.phase.Finishing? && !s.closing && s.sealed < |s.cuts|
    && s' == s.(phase := Up, committedThrough := s.cuts[s.sealed].ops)
  }

  // ----------------------------------------------------------- checkpoint

  /** write_back_all begins, once no other pass is running. */
  predicate CheckpointStart(s: State, s': State) {
    && s.phase.Finishing? && s.pass.Idle?
    && s' == s.(phase := WritingBack, pass := Pass(true, 0, map[]))
  }

  predicate CheckpointWritten(s: State, s': State) {
    && s.phase.WritingBack? && s.pass.Pass? && s.pass.shard == SHARDS && s.pass.picks == map[]
    && s.nextLsn > 0
    && s' == s.(pass := Idle, phase := Settling(DevSync, s.nextLsn - 1, false))
  }

  predicate SettleSync(s: State, s': State) {
    && s.phase.Settling? && s.phase.stage.DevSync?
    && s' == s.(disk := s.vol, unsynced := {}, phase := s.phase.(stage := MarkWrite))
  }

  predicate SettleMark(s: State, s': State) {
    && s.phase.Settling? && s.phase.stage.MarkWrite?
    && s' == s.(pending := [Mark(false, s.phase.last)], phase := s.phase.(stage := MarkSync))
  }

  predicate SettleMarkSync(s: State, s': State) {
    && s.phase.Settling? && s.phase.stage.MarkSync? && |s.pending| == 1
    && s' == s.(mark := s.pending[0], pending := [], phase := s.phase.(stage := Truncate),
                img := map[])
  }

  /** Wal::reset empties the file ... */
  predicate SettleTruncate(s: State, s': State) {
    && s.phase.Settling? && s.phase.stage.Truncate?
    && s' == s.(truncated := true, phase := s.phase.(stage := TruncateSync))
  }

  /** ... and syncs it. */
  predicate SettleTruncateSync(s: State, s': State) {
    && s.phase.Settling? && s.phase.stage.TruncateSync?
    && s' == s.(log := [], durableLen := 0, base := 0, truncated := false, img := map[],
                nextLsn := s.phase.last + 1, durableLsn := s.phase.last,
                phase := if s.phase.mounting then InUseWrite
                         else if s.closing then CloseWrite else Finishing)
  }

  // ------------------------------------------------------- close and mount

  predicate CloseMark(s: State, s': State) {
    && s.phase.CloseWrite?
    && s' == s.(pending := [Mark(true, s.mark.ckpt)], phase := CloseSync)
  }

  predicate Unmounted(s: State, s': State) {
    && s.phase.CloseSync? && |s.pending| == 1
    && s' == s.(mark := s.pending[0], pending := [], cache := map[], pass := Idle, calls := map[],
                committedThrough := 0, closing := false, phase := Down)
  }

  /** A mount: redo if the image was left in use, else drop the log unread. */
  predicate MountStart(s: State, s': State) {
    && s.phase.Down?
    && s' == s.(phase := if s.mark.clean then Settling(Truncate, s.mark.ckpt, true) else Redoing(0),
                part := map[])
  }

  predicate RedoStep(s: State, s': State) {
    && s.phase.Redoing? && s.phase.next < |s.log|
    && var r := s.log[s.phase.next];
       if Redoable(r, s.mark.ckpt, Done(s.log)) && r.body.block < |s.vol|
       then s' == s.(vol := s.vol[r.body.block := r.body.data],
                     unsynced := s.unsynced + {r.body.block},
                     phase := Redoing(s.phase.next + 1),
                     part := s.part[r.body.block := r.body.data])
       else s' == s.(phase := Redoing(s.phase.next + 1))
  }

  predicate RedoDone(s: State, s': State) {
    && s.phase.Redoing? && s.phase.next == |s.log|
    && s' == s.(phase := Settling(DevSync, LastLsn(s.log, s.mark.ckpt), true))
  }

  predicate InUseMark(s: State, s': State) {
    && s.phase.InUseWrite?
    && s' == s.(pending := [Mark(false, s.mark.ckpt)], phase := InUseSync)
  }

  predicate MountDone(s: State, s': State) {
    && s.phase.InUseSync? && |s.pending| == 1
    && s' == s.(mark := s.pending[0], pending := [], committedThrough := s.nextOp, phase := Up)
  }

  // ---------------------------------------------------------------- crash

  /**
   What may be on the two files after power is lost: any bytes at all in a
   block written since the last sync, any prefix of the log that holds its
   durable part (or any prefix, if a truncation was not synced yet), and
   either version of block 0.
   */
  ghost predicate Survives(s: State, disk: seq<Block>, log: seq<Record>, mark: Mark) {
    && |disk| == |s.disk|
    && (forall b :: 0 <= b < |disk| && b !in s.unsynced ==> disk[b] == s.disk[b])
    && log <= s.log
    && (!s.truncated ==> s.durableLen <= |log|)
    && (mark == s.mark || mark in s.pending)
  }

  /**
   The commits a crash keeps: those synced, and the one being synced if its
   COMMIT record happens to be whole on the disk.
   */
  function Kept(s: State, log: seq<Record>): nat {
    if s.phase.Sealed? && |log| == |s.log| then s.sealed + 1 else s.sealed
  }

  ghost predicate Crash(s: State, disk: seq<Block>, log: seq<Record>, mark: Mark, s': State) {
    && Survives(s, disk, log, mark)
    && Kept(s, log) < |s.cuts| && s.cuts[Kept(s, log)].pos <= |s.trace|
    && s' == s.(disk := disk, vol := disk, unsynced := {}, mark := mark, pending := [],
                log := log, durableLen := |log|, truncated := false, base := |log|,
                cache := map[], pass := Idle, txn := [], ops := map[], calls := map[],
                committedThrough := 0, closing := false, phase := Down,
                trace := s.trace[..s.cuts[Kept(s, log)].pos],
                nextOp := s.cuts[Kept(s, log)].ops,
                cuts := s.cuts[..Kept(s, log) + 1], sealed := Kept(s, log),
                now := Content(s, Kept(s, log)), sure := Content(s, Kept(s, log)),
                img := Images(log, mark.ckpt, Done(log)), part := map[])
  }

  // ----------------------------------------------------------------- runs

  datatype Step =
    | SOpBegin | SOpAcquire(o: nat, b: nat) | SOpChange(o: nat, data: Block)
    | SOpFinish(o: nat) | SOpRecord(o: nat) | SOpEnd(o: nat)
    | SLoad(b: nat) | SEvict(b: nat)
    | SPassStart | SPassPick(chosen: set<nat>) | SPassCopy(b: nat) | SPassRecheck(b: nat)
    | SPassWrite(b: nat) | SPassClean(b: nat) | SPassEnd
    | SCallCommit(c: nat) | SCallReturn(c: nat)
    | SCommitStart(close: bool) | SLogImage | SLogDone | SLogSync | SLogCommit | SCommitSync
    | SFrameLeave | SLeaveDone | SCommitEnd
    | SCheckpointStart | SCheckpointWritten
    | SSettleSync | SSettleMark | SSettleMarkSync | SSettleTruncate | SSettleTruncateSync
    | SCloseMark | SUnmounted
    | SMountStart | SRedoStep | SRedoDone | SInUseMark | SMountDone
    | SCrash(disk: seq<Block>, log: seq<Record>, mark: Mark)

  ghost predicate Next(s: State, step: Step, s': State) {
    match step
    case SOpBegin => OpBegin(s, s')
    case SOpAcquire(o, b) => OpAcquire(s, o, b, s')
    case SOpChange(o, data) => OpChange(s, o, data, s')
    case SOpFinish(o) => OpFinish(s, o, s')
    case SOpRecord(o) => OpRecord(s, o, s')
    case SOpEnd(o) => OpEnd(s, o, s')
    case SLoad(b) => Load(s, b, s')
    case SEvict(b) => Evict(s, b, s')
    case SPassStart => PassStart(s, s')
    case SPassPick(chosen) => PassPick(s, chosen, s')
    case SPassCopy(b) => PassCopy(s, b, s')
    case SPassRecheck(b) => PassRecheck(s, b, s')
    case SPassWrite(b) => PassWrite(s, b, s')
    case SPassClean(b) => PassClean(s, b, s')
    case SPassEnd => PassEnd(s, s')
    case SCallCommit(c) => CallCommit(s, c, s')
    case SCallReturn(c) => CallReturn(s, c, s')
    case SCommitStart(close) => CommitStart(s, close, s')
    case SLogImage => LogImage(s, s')
    case SLogDone => LogDone(s, s')
    case SLogSync => LogSync(s, s')
    case SLogCommit => LogCommit(s, s')
    case SCommitSync => CommitSync(s, s')
    case SFrameLeave => FrameLeave(s, s')
    case SLeaveDone => LeaveDone(s, s')
    case SCommitEnd => CommitEnd(s, s')
    case SCheckpointStart => CheckpointStart(s, s')
    case SCheckpointWritten => CheckpointWritten(s, s')
    case SSettleSync => SettleSync(s, s')
    case SSettleMark => SettleMark(s, s')
    case SSettleMarkSync => SettleMarkSync(s, s')
    case SSettleTruncate => SettleTruncate(s, s')
    case SSettleTruncateSync => SettleTruncateSync(s, s')
    case SCloseMark => CloseMark(s, s')
    case SUnmounted => Unmounted(s, s')
    case SMountStart => MountStart(s, s')
    case SRedoStep => RedoStep(s, s')
    case SRedoDone => RedoDone(s, s')
    case SInUseMark => InUseMark(s, s')
    case SMountDone => MountDone(s, s')
    case SCrash(disk, log, mark) => Crash(s, disk, log, mark, s')
  }

  /** A clean image, with any old log beside it. */
  ghost predicate Init(s: State) {
    && s.disk == s.vol == s.origin && s.unsynced == {}
    && s.mark.clean && s.pending == []
    && InRange(s.log, |s.disk|) && s.durableLen == s.base == |s.log| && !s.truncated
    && s.cache == map[] && s.pass == Idle && s.txn == [] && s.ops == map[] && s.calls == map[]
    && s.committedThrough == 0 && !s.closing && s.phase == Down
    && s.now == s.sure == s.origin && s.img == Images(s.log, s.mark.ckpt, Done(s.log))
    && s.trace == [] && s.nextOp == 0 && s.cuts == [Cut(0, 0)] && s.sealed == 0 && s.promised == {}
  }

  ghost predicate Run(states: seq<State>, steps: seq<Step>) {
    && |states| == |steps| + 1
    && Init(states[0])
    && forall i :: 0 <= i < |steps| ==> Next(states[i], steps[i], states[i + 1])
  }
}
