/**
 What every reachable state of the storage engine satisfies. Each predicate
 takes the values it speaks of: `c` is always the contents recovery must
 produce, `now` the contents every write so far makes, `img` the images
 recovery would redo.
 */
module EngineInvariant {
  import opened Layout
  import opened Redo
  import opened Engine

  ghost predicate Distinct(q: seq<nat>) {
    forall i, j :: 0 <= i < j < |q| ==> q[i] != q[j]
  }

  // -------------------------------------------------------------- history

  ghost predicate TraceOk(trace: seq<Write>, nextOp: nat, n: nat) {
    forall i :: 0 <= i < |trace| ==> trace[i].block < n && trace[i].op < nextOp
  }

  ghost predicate CutsOk(trace: seq<Write>, nextOp: nat, cuts: seq<Cut>) {
    && (forall k :: 0 <= k < |cuts| ==> WholeOps(trace, cuts[k]) && cuts[k].ops <= nextOp)
    && (forall j, k :: 0 <= j < k < |cuts| ==> cuts[j].pos <= cuts[k].pos && cuts[j].ops <= cuts[k].ops)
  }

  /** Every running operation began after every cut. */
  ghost predicate RunningOk(ops: map<nat, OpPc>, nextOp: nat, cuts: seq<Cut>) {
    forall o :: o in ops ==> o < nextOp && forall k :: 0 <= k < |cuts| ==> cuts[k].ops <= o
  }

  /** A call's ended operations and a cut's are nested, whichever came first. */
  ghost predicate Nested(ended: set<nat>, k: nat) {
    ended <= Below(k) || Below(k) <= ended
  }

  ghost predicate CallOk(c: Call, nextOp: nat, cuts: seq<Cut>) {
    && c.target == |c.ended|
    && c.ended <= Below(nextOp)
    && forall k :: 0 <= k < |cuts| ==> Nested(c.ended, cuts[k].ops)
  }

  ghost predicate CallsOk(calls: map<nat, Call>, nextOp: nat, cuts: seq<Cut>) {
    forall c :: c in calls ==> CallOk(calls[c], nextOp, cuts)
  }

  /** Nothing promised is missing from the first `ops` operations. */
  ghost predicate PromisesOk(promised: set<nat>, committedThrough: nat, ops: nat) {
    promised <= Below(ops) && committedThrough <= ops
  }

  /** Operations, cuts and commit() calls, and the contents they make. */
  ghost predicate HistoryOk(s: State) {
    && s.sealed < |s.cuts|
    && TraceOk(s.trace, s.nextOp, |s.origin|)
    && CutsOk(s.trace, s.nextOp, s.cuts)
    && RunningOk(s.ops, s.nextOp, s.cuts)
    && CallsOk(s.calls, s.nextOp, s.cuts)
    && PromisesOk(s.promised, s.committedThrough, s.cuts[s.sealed].ops)
    && s.now == AfterWrites(s.origin, s.trace)
    && s.sure == Content(s, s.sealed)
    && |s.cuts| == (if InLogging(s.phase) then s.sealed + 2 else s.sealed + 1)
    && (s.phase != Up ==> s.ops == map[] && CutNow(s.cuts, |s.trace|, s.nextOp))
    && (!Mounted(s.phase) ==> s.calls == map[] && s.committedThrough == 0)
  }

  // ------------------------------------------------------------- the disk

  ghost predicate DiskOk(clean: bool, disk: seq<Block>, vol: seq<Block>, unsynced: set<nat>,
                         c: seq<Block>, img: map<nat, Block>) {
    && |disk| == |vol| == |c|
    && (forall b :: 0 <= b < |disk| && b !in unsynced ==> vol[b] == disk[b])
    && (forall b :: b in unsynced ==> b < |c|)
    && (clean ==> disk == c && unsynced == {})
    && (!clean ==> IsOverlay(c, img, disk) && forall b :: b in unsynced ==> b in img)
  }

  // ------------------------------------------------------------ the cache

  ghost predicate FrameOk(f: Frame, b: nat, vol: seq<Block>, now: seq<Block>, c: seq<Block>,
                          img: map<nat, Block>, durableLsn: nat)
  {
    && b < |vol| == |now| == |c|
    && f.data == now[b]
    && f.lsn <= durableLsn
    && (f.dirty ==> b in img)
    && (!f.inTxn ==> f.data == c[b])
    && (!f.inTxn && !f.dirty ==> vol[b] == c[b])
  }

  ghost predicate CacheOk(cache: map<nat, Frame>, vol: seq<Block>, now: seq<Block>, c: seq<Block>,
                          img: map<nat, Block>, durableLsn: nat)
  {
    && |vol| == |now| == |c|
    && (forall b :: b in cache ==> FrameOk(cache[b], b, vol, now, c, img, durableLsn))
    && (forall b :: 0 <= b < |vol| && b !in cache ==> vol[b] == c[b] == now[b])
  }

  ghost predicate PickOk(p: Pick, f: Frame, b: nat, vol: seq<Block>, c: seq<Block>, img: map<nat, Block>) {
    && b < |vol| == |c|
    && p.version <= f.version
    && b in img
    && (!f.inTxn ==> f.dirty)
    && (!f.inTxn && p.version == f.version ==>
          match p
          case Picked(_) => true
          case Copied(_, bytes) => bytes == c[b]
          case Cleared(_, bytes) => bytes == c[b]
          case Written(_) => vol[b] == c[b])
  }

  ghost predicate PicksOk(picks: map<nat, Pick>, cache: map<nat, Frame>, vol: seq<Block>,
                          c: seq<Block>, img: map<nat, Block>) {
    forall b :: b in picks ==> b in cache && PickOk(picks[b], cache[b], b, vol, c, img)
  }

  /** In a pass over everything, a visited shard's dirty frames are all picked. */
  ghost predicate SweptOk(picks: map<nat, Pick>, cache: map<nat, Frame>, shard: nat) {
    forall b :: b in cache && b % SHARDS < shard && cache[b].dirty ==>
      b in picks && picks[b].version == cache[b].version
  }

  ghost predicate PassOk(pass: Pass, cache: map<nat, Frame>, vol: seq<Block>,
                         c: seq<Block>, img: map<nat, Block>) {
    pass.Pass? ==>
      && pass.shard <= SHARDS
      && PicksOk(pass.picks, cache, vol, c, img)
      && (pass.all ==> SweptOk(pass.picks, cache, pass.shard))
  }

  // ----------------------------------------------------- the transaction

  /** Operation o has made block b join, and has yet to record it. */
  ghost predicate Owes(ops: map<nat, OpPc>, o: nat, b: nat) {
    o in ops && !ops[o].Ready? && ops[o].joined && ops[o].block == b
  }

  ghost predicate Holds(cache: map<nat, Frame>, b: nat) {
    b in cache && cache[b].inTxn
  }

  ghost predicate OpsOk(ops: map<nat, OpPc>, txn: seq<nat>, cache: map<nat, Frame>) {
    && Distinct(txn)
    && (forall o :: o in ops && !ops[o].Ready? ==> Holds(cache, ops[o].block))
    && (forall i :: 0 <= i < |txn| ==> Holds(cache, txn[i]))
    && (forall b :: Holds(cache, b) ==> b in txn || exists o :: Owes(ops, o, b))
  }

  ghost predicate NoTxn(cache: map<nat, Frame>) {
    forall b :: b in cache ==> !cache[b].inTxn
  }

  /** The frames in the transaction are the blocks from `next` on. */
  ghost predicate TxnIs(cache: map<nat, Frame>, blocks: seq<nat>, next: nat) {
    && next <= |blocks|
    && Distinct(blocks)
    && (forall i :: next <= i < |blocks| ==> Holds(cache, blocks[i]))
    && (forall b :: Holds(cache, b) ==> b in blocks[next..])
  }

  // -------------------------------------------------------------- the log

  /** Consecutive lsns, so that a scan never stops early. */
  ghost predicate LsnsOk(log: seq<Record>, nextLsn: nat) {
    forall i :: 0 <= i < |log| ==> log[i].lsn + |log| == nextLsn + i && log[i].txn < nextLsn
  }

  /** The unfinished transaction at the end of the log. */
  ghost predicate TailOk(done: seq<Record>, tail: seq<Record>, txn: nat, ckpt: nat) {
    && (forall r :: r in done ==> r.txn != txn)
    && (forall r :: r in tail ==> r.txn == txn && r.lsn > ckpt && !r.body.Commit?)
  }

  /** It holds the current bytes of exactly these blocks. */
  ghost predicate TailHolds(img: map<nat, Block>, blocks: seq<nat>, now: seq<Block>) {
    && (forall b :: b in img ==> b in blocks && b < |now| && img[b] == now[b])
    && (forall i :: 0 <= i < |blocks| ==> blocks[i] in img)
  }

  ghost predicate LsnsUpTo(log: seq<Record>, last: nat) {
    forall r :: r in log ==> r.lsn <= last
  }

  ghost function TxnOf(p: Phase): nat
    requires InLogging(p)
  {
    match p
    case Logging(t, _, _) => t
    case Logged(t, _) => t
    case Barrier(t, _) => t
    case Sealed(t, _) => t
  }

  /** The records of the transaction being logged, its COMMIT left off. */
  ghost function Tail(s: State): seq<Record>
    requires s.base <= |s.log| && (s.phase.Sealed? ==> s.base < |s.log|)
  {
    if s.phase.Sealed? then s.log[s.base..|s.log| - 1] else s.log[s.base..]
  }

  ghost predicate RecordsOk(log: seq<Record>, base: nat, durableLen: nat, n: nat) {
    base <= durableLen <= |log| && InRange(log, n)
  }

  /** `img` is what recovery from `log` would redo. */
  ghost predicate ImgIs(img: map<nat, Block>, log: seq<Record>, ckpt: nat) {
    img == Images(log, ckpt, Done(log))
  }

  /** Only in a mounted log: consecutive lsns, the next one still unused. */
  ghost predicate LsnsInUse(log: seq<Record>, nextLsn: nat, ckpt: nat, durableLsn: nat) {
    LsnsOk(log, nextLsn) && ckpt < nextLsn && durableLsn < nextLsn
  }

  /** `part` is what the unfinished transaction at the end of the log would add. */
  ghost predicate PartIs(part: map<nat, Block>, done: seq<Record>, tail: seq<Record>, txn: nat, ckpt: nat) {
    TailOk(done, tail, txn, ckpt) && part == Images(tail, ckpt, {txn})
  }

  /** A COMMIT record ends the log, and only it may be lost. */
  ghost predicate SealOk(log: seq<Record>, base: nat, durableLen: nat, txn: nat) {
    && base < |log| && durableLen == |log| - 1
    && log[|log| - 1].txn == txn && log[|log| - 1].body.Commit?
  }

  /** The log, and the images it makes. */
  ghost predicate LogOk(s: State) {
    && RecordsOk(s.log, s.base, s.durableLen, |s.origin|)
    && (!InLogging(s.phase) ==> s.base == |s.log|)
    && ImgIs(s.img, s.log[..s.base], s.mark.ckpt)
    && (Mounted(s.phase) ==> LsnsInUse(s.log, s.nextLsn, s.mark.ckpt, s.durableLsn) && !s.mark.clean)
    && (s.phase.Sealed? ==> SealOk(s.log, s.base, s.durableLen, s.phase.txn))
    && (s.phase.Barrier? ==> s.durableLen == |s.log|)
    && (InLogging(s.phase) ==>
          TxnOf(s.phase) < s.nextLsn && PartIs(s.part, s.log[..s.base], Tail(s), TxnOf(s.phase), s.mark.ckpt))
    && (s.phase.Redoing? ==>
          && !s.mark.clean
          && s.phase.next <= |s.log|
          && s.part == Images(s.log[..s.phase.next], s.mark.ckpt, Done(s.log)))
    && (s.phase.Settling? ==>
          && s.mark.ckpt <= s.phase.last
          && (!s.mark.clean ==> LsnsUpTo(s.log, s.phase.last))
          && (s.phase.stage.MarkSync? ==> s.pending == [Mark(false, s.phase.last)])
          && (s.phase.stage.Truncate? || s.phase.stage.TruncateSync? ==> s.mark.ckpt == s.phase.last)
          && (!s.phase.mounting ==> s.phase.last + 1 == s.nextLsn)
          && (s.mark.clean ==> s.phase.stage.Truncate? || s.phase.stage.TruncateSync?))
    && (s.phase.InUseWrite? || s.phase.InUseSync? || s.phase.CloseWrite? || s.phase.CloseSync? ==>
          && s.log == [] && s.img == map[]
          && (s.phase.InUseWrite? || s.phase.InUseSync? ==>
                s.nextLsn == s.mark.ckpt + 1 && s.durableLsn == s.mark.ckpt))
    && (s.phase.InUseSync? ==> s.pending == [Mark(false, s.mark.ckpt)])
    && (s.phase.CloseSync? ==> s.pending == [Mark(true, s.mark.ckpt)])
    && |s.pending| == (if HasPending(s.phase) then 1 else 0)
    && (s.truncated <==> s.phase.Settling? && s.phase.stage.TruncateSync?)
  }

  // --------------------------------------------------------------- phases

  /** The last cut is the present: no write has come after it. */
  ghost predicate CutNow(cuts: seq<Cut>, pos: nat, ops: nat) {
    |cuts| > 0 && cuts[|cuts| - 1] == Cut(pos, ops)
  }

  /** Everything is in disk.img. */
  ghost predicate Quiet(cache: map<nat, Frame>, pass: Pass, vol: seq<Block>, c: seq<Block>) {
    && vol == c
    && (forall b :: b in cache ==> !cache[b].dirty && !cache[b].inTxn)
    && (pass.Pass? ==> pass.picks == map[] && !pass.all)
  }

  ghost predicate NotMounted(s: State) {
    && s.ops == map[] && s.cache == map[] && s.pass == Idle && s.txn == [] && !s.closing
  }

  ghost predicate InLogging(p: Phase) {
    p.Logging? || p.Logged? || p.Barrier? || p.Sealed?
  }

  ghost predicate HasPending(p: Phase) {
    (p.Settling? && p.stage.MarkSync?) || p.InUseSync? || p.CloseSync?
  }

  ghost predicate PhaseOk(s: State) {
    match s.phase
    case Down => s.vol == s.disk && s.unsynced == {}
    case Redoing(next) => !s.mark.clean && IsOverlay(s.vol, s.part, s.disk)
    case Settling(stage, last, mounting) =>
      && Quiet(s.cache, s.pass, s.vol, s.sure)
      && (!stage.DevSync? ==> s.disk == s.sure && s.unsynced == {})
    case InUseWrite => s.vol == s.disk == s.sure && s.unsynced == {}
    case InUseSync => s.vol == s.disk == s.sure && s.unsynced == {}
    case Up => OpsOk(s.ops, s.txn, s.cache)
    case Logging(txn, blocks, next) =>
      TxnIs(s.cache, blocks, 0) && next <= |blocks| && TailHolds(s.part, blocks[..next], s.now)
    case Logged(txn, blocks) => TxnIs(s.cache, blocks, 0) && TailHolds(s.part, blocks, s.now)
    case Barrier(txn, blocks) => TxnIs(s.cache, blocks, 0) && TailHolds(s.part, blocks, s.now)
    case Sealed(txn, blocks) => TxnIs(s.cache, blocks, 0) && TailHolds(s.part, blocks, s.now)
    case Leaving(blocks, next, lsn) => TxnIs(s.cache, blocks, next) && lsn == s.durableLsn
                                       && forall i :: 0 <= i < |blocks| ==> blocks[i] in s.img
    case Finishing => NoTxn(s.cache)
    case WritingBack => NoTxn(s.cache) && s.pass.Pass? && s.pass.all
    case CloseWrite => Quiet(s.cache, s.pass, s.vol, s.sure) && s.disk == s.sure && s.unsynced == {}
    case CloseSync => Quiet(s.cache, s.pass, s.vol, s.sure) && s.disk == s.sure && s.unsynced == {}
  }

  /** The disk and the cache against the contents they must have. */
  ghost predicate StoreOk(s: State) {
    && DiskOk(s.mark.clean, s.disk, s.vol, s.unsynced, s.sure, s.img)
    && |s.now| == |s.sure|
    && (Mounted(s.phase) ==>
          && CacheOk(s.cache, s.vol, s.now, s.sure, s.img, s.durableLsn)
          && PassOk(s.pass, s.cache, s.vol, s.sure, s.img))
    && (s.pass.Pass? && s.pass.all ==> s.phase.WritingBack?)
    && (!Mounted(s.phase) ==> NotMounted(s) && s.now == s.sure)
    && (s.phase != Up ==> s.ops == map[] && s.txn == [])
    && PhaseOk(s)
  }

  // The three parts, folded: a proof that needs what is inside calls Unfold.

  ghost predicate HistoryInv(s: State) { forall t :: t == s ==> HistoryOk(t) }

  ghost predicate LogInv(s: State) { forall t :: t == s ==> LogOk(t) }

  ghost predicate StoreInv(s: State) { forall t :: t == s ==> StoreOk(t) }

  lemma UnfoldHistoryInv(s: State)
    requires HistoryInv(s)
    ensures HistoryOk(s)
  {
  }

  lemma UnfoldLogInv(s: State)
    requires LogInv(s)
    ensures LogOk(s)
  {
  }

  lemma UnfoldStoreInv(s: State)
    requires StoreInv(s)
    ensures StoreOk(s)
  {
  }

  /** A step the history does not notice. */
  ghost predicate SameHistory(s: State, s': State) {
    && s' == s.(disk := s'.disk, vol := s'.vol, unsynced := s'.unsynced, mark := s'.mark, pending := s'.pending,
                log := s'.log, durableLen := s'.durableLen, truncated := s'.truncated, nextLsn := s'.nextLsn,
                durableLsn := s'.durableLsn, cache := s'.cache, pass := s'.pass, txn := s'.txn, phase := s'.phase,
                base := s'.base, img := s'.img, part := s'.part)
    && InLogging(s'.phase) == InLogging(s.phase)
    && (s'.phase == Up <==> s.phase == Up)
    && Mounted(s'.phase) == Mounted(s.phase)
  }

  /** A step of the cache: only frames, passes and the disk's volatile side change. */
  ghost predicate OnlyCache(s: State, s': State) {
    s' == s.(cache := s'.cache, vol := s'.vol, unsynced := s'.unsynced, pass := s'.pass)
  }

  ghost predicate Inv(s: State) {
    HistoryInv(s) && LogInv(s) && StoreInv(s)
  }
}
