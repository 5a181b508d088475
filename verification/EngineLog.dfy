/** What single steps do to the log and to the images it makes. */
module EngineLog {
  import opened Layout
  import opened Redo
  import opened Engine
  import opened EngineInvariant

  /** The fields the log's part of the invariant speaks of. */
  datatype Fields = Fields(log: seq<Record>, durableLen: nat, base: nat, mark: Mark, pending: seq<Mark>,
                           truncated: bool, origin: seq<Block>, nextLsn: nat, durableLsn: nat,
                           img: map<nat, Block>, part: map<nat, Block>)

  ghost function FieldsOf(s: State): Fields {
    Fields(s.log, s.durableLen, s.base, s.mark, s.pending, s.truncated, s.origin, s.nextLsn, s.durableLsn,
           s.img, s.part)
  }

  ghost predicate LogIdle(p: Phase) {
    p.Up? || p.Leaving? || p.Finishing? || p.WritingBack?
  }

  /** Steps that do not touch them. */
  lemma LogRest(s: State, s': State)
    requires LogInv(s) && FieldsOf(s') == FieldsOf(s)
    requires s'.phase == s.phase || (LogIdle(s.phase) && LogIdle(s'.phase))
    ensures LogInv(s')
  {
    var other := s.(phase := s'.phase);
    assert LogInv(other) by {
      LogIdles(s, s'.phase);
    }
    LogAlike(other, s');
  }

  lemma LogIdles(s: State, p: Phase)
    requires LogInv(s) && (p == s.phase || (LogIdle(s.phase) && LogIdle(p)))
    ensures LogInv(s.(phase := p))
  {
    if p != s.phase {
      UnfoldLogInv(s);
    }
  }

  lemma LogAlike(s: State, s': State)
    requires LogInv(s) && FieldsOf(s') == FieldsOf(s) && s'.phase == s.phase
    ensures LogInv(s')
  {
    UnfoldLogInv(s);
    assert Tail(s') == Tail(s);
  }

  /** A transaction's BEGIN record adds no image. */
  lemma PartBegins(log: seq<Record>, nextLsn: nat, ckpt: nat)
    requires LsnsOk(log, nextLsn) && ckpt < nextLsn
    ensures PartIs(map[], log, [Record(nextLsn, nextLsn, Begin)], nextLsn, ckpt)
  {
  }

  lemma LogBegins(s: State, s': State)
    requires LogInv(s) && Mounted(s.phase) && s.base == |s.log|
    requires s'.phase.Logging? && s'.phase.txn == s.nextLsn && s'.part == map[]
    requires s'.log == s.log + [Record(s.nextLsn, s.nextLsn, Begin)] && s'.nextLsn == s.nextLsn + 1
    requires s'.base == s.base && s'.durableLen == s.durableLen && s'.durableLsn == s.durableLsn
    requires s'.mark == s.mark && s'.img == s.img && s'.origin == s.origin
    requires s.phase == Up && s'.pending == s.pending && s'.truncated == s.truncated
    ensures LogInv(s')
  {
    UnfoldLogInv(s);
    var r := Record(s.nextLsn, s.nextLsn, Begin);
    assert s.log[..s.base] == s.log;
    assert s'.log[..s.base] == s.log;
    assert s'.log[s.base..] == [r];
    PartBegins(s.log, s.nextLsn, s.mark.ckpt);
    assert InRange(s'.log, |s.origin|);
  }

  lemma LogCommitStart(s: State, close: bool, s': State)
    requires LogInv(s) && CommitStart(s, close, s')
    ensures LogInv(s')
  {
    UnfoldLogInv(s);
    if s.txn != [] {
      LogBegins(s, s');
    }
  }

  /** One more image joins the unfinished transaction. */
  lemma PartGrows(part: map<nat, Block>, done: seq<Record>, tail: seq<Record>, txn: nat, ckpt: nat, r: Record)
    requires PartIs(part, done, tail, txn, ckpt) && r.body.Image? && r.txn == txn && r.lsn > ckpt
    ensures PartIs(part[r.body.block := r.body.data], done, tail + [r], txn, ckpt)
  {
  }

  lemma RecordAppended(log: seq<Record>, base: nat, durableLen: nat, n: nat, nextLsn: nat, r: Record)
    requires RecordsOk(log, base, durableLen, n) && LsnsOk(log, nextLsn)
    requires r.lsn == nextLsn && r.txn <= nextLsn && (r.body.Image? ==> r.body.block < n)
    ensures RecordsOk(log + [r], base, durableLen, n) && LsnsOk(log + [r], nextLsn + 1)
    ensures (log + [r])[..base] == log[..base] && (log + [r])[base..] == log[base..] + [r]
  {
  }

  lemma LogLogImage(s: State, s': State)
    requires LogInv(s) && LogImage(s, s') && s.phase.blocks[s.phase.next] < |s.origin|
    ensures LogInv(s')
  {
    UnfoldLogInv(s);
    var b := s.phase.blocks[s.phase.next];
    var r := Record(s.nextLsn, s.phase.txn, Image(b, s.cache[b].data));
    ImageLogged(s, r);
    assert Tail(s') == s.log[s.base..] + [r];
  }

  lemma ImageLogged(s: State, r: Record)
    requires LogOk(s) && s.phase.Logging? && r.body.Image? && r.body.block < |s.origin|
    requires r.lsn == s.nextLsn && r.txn == s.phase.txn
    ensures var log := s.log + [r];
            && RecordsOk(log, s.base, s.durableLen, |s.origin|)
            && LsnsInUse(log, s.nextLsn + 1, s.mark.ckpt, s.durableLsn)
            && log[..s.base] == s.log[..s.base] && log[s.base..] == s.log[s.base..] + [r]
            && PartIs(s.part[r.body.block := r.body.data], log[..s.base], s.log[s.base..] + [r], s.phase.txn,
                      s.mark.ckpt)
  {
    RecordAppended(s.log, s.base, s.durableLen, |s.origin|, s.nextLsn, r);
    PartGrows(s.part, s.log[..s.base], s.log[s.base..], s.phase.txn, s.mark.ckpt, r);
  }

  lemma LogLogDone(s: State, s': State)
    requires LogInv(s) && LogDone(s, s')
    ensures LogInv(s')
  {
    UnfoldLogInv(s);
  }

  lemma LogLogSync(s: State, s': State)
    requires LogInv(s) && LogSync(s, s')
    ensures LogInv(s')
  {
    UnfoldLogInv(s);
  }

  lemma LogLogCommit(s: State, s': State)
    requires LogInv(s) && LogCommit(s, s')
    ensures LogInv(s')
  {
    UnfoldLogInv(s);
    SealsLog(s);
  }

  /** The COMMIT record at the end of what was synced. */
  lemma SealsLog(s: State)
    requires LogOk(s) && s.phase.Barrier?
    ensures var log := s.log + [Record(s.nextLsn, s.phase.txn, Commit)];
            && RecordsOk(log, s.base, s.durableLen, |s.origin|)
            && LsnsInUse(log, s.nextLsn + 1, s.mark.ckpt, s.durableLsn)
            && SealOk(log, s.base, s.durableLen, s.phase.txn)
            && log[..s.base] == s.log[..s.base] && log[s.base..|log| - 1] == s.log[s.base..]
  {
    RecordAppended(s.log, s.base, s.durableLen, |s.origin|, s.nextLsn, Record(s.nextLsn, s.phase.txn, Commit));
  }

  /** Sealing the tail adds exactly its images. */
  lemma SealedImages(s: State)
    requires LogInv(s) && s.phase.Sealed?
    ensures Images(s.log, s.mark.ckpt, Done(s.log)) == s.img + s.part
  {
    UnfoldLogInv(s);
    ThreeParts(s.log, s.base);
    SealedTail(s.log[..s.base], Tail(s), s.log[|s.log| - 1], s.mark.ckpt);
  }

  lemma ThreeParts(log: seq<Record>, base: nat)
    requires base < |log|
    ensures log == log[..base] + log[base..|log| - 1] + [log[|log| - 1]]
  {
  }

  lemma LogCommitSync(s: State, s': State)
    requires LogInv(s) && CommitSync(s, s')
    ensures LogInv(s')
  {
    UnfoldLogInv(s);
    SealedImages(s);
    assert s.log[..|s.log|] == s.log;
  }

  lemma LogCheckpointWritten(s: State, s': State)
    requires LogInv(s) && CheckpointWritten(s, s')
    ensures LogInv(s')
  {
    UnfoldLogInv(s);
    assert LsnsUpTo(s.log, s.nextLsn - 1);
  }

  lemma LogSettleSync(s: State, s': State)
    requires LogInv(s) && SettleSync(s, s')
    ensures LogInv(s')
  {
    UnfoldLogInv(s);
  }

  lemma LogSettleMark(s: State, s': State)
    requires LogInv(s) && SettleMark(s, s')
    ensures LogInv(s')
  {
    UnfoldLogInv(s);
  }

  /** Once block 0 names the last lsn, the log has nothing left to redo. */
  lemma LogSettleMarkSync(s: State, s': State)
    requires LogInv(s) && SettleMarkSync(s, s')
    ensures LogInv(s') && !s'.mark.clean
  {
    UnfoldLogInv(s);
    assert s.log[..|s.log|] == s.log;
    NothingPastCheckpoint(s.log, s.phase.last);
  }

  lemma LogSettleTruncate(s: State, s': State)
    requires LogInv(s) && SettleTruncate(s, s')
    ensures LogInv(s')
  {
    UnfoldLogInv(s);
  }

  lemma LogSettleTruncateSync(s: State, s': State)
    requires LogInv(s) && SettleTruncateSync(s, s')
    ensures LogInv(s')
    ensures Mounted(s.phase) ==> s.durableLsn <= s.phase.last
  {
    UnfoldLogInv(s);
  }

  lemma LogCloseMark(s: State, s': State)
    requires LogInv(s) && CloseMark(s, s')
    ensures LogInv(s')
  {
    UnfoldLogInv(s);
  }

  lemma LogUnmounted(s: State, s': State)
    requires LogInv(s) && Unmounted(s, s')
    ensures LogInv(s') && s'.mark.clean
  {
    UnfoldLogInv(s);
  }

  lemma LogMountStart(s: State, s': State)
    requires LogInv(s) && MountStart(s, s')
    ensures LogInv(s')
  {
    UnfoldLogInv(s);
  }

  lemma RedoneOneMore(log: seq<Record>, next: nat, ckpt: nat)
    requires next < |log|
    ensures var part := Images(log[..next], ckpt, Done(log));
            var part' := Images(log[..next + 1], ckpt, Done(log));
            && part' == (if Redoable(log[next], ckpt, Done(log))
                         then part[log[next].body.block := log[next].body.data] else part)
            && part'.Keys <= Images(log, ckpt, Done(log)).Keys
  {
    assert log[..next + 1][..next] == log[..next];
    assert log == log[..next + 1] + log[next + 1..];
    ImagesAppend(log[..next + 1], log[next + 1..], ckpt, Done(log));
  }

  lemma LogRedoStep(s: State, s': State)
    requires LogInv(s) && RedoStep(s, s') && |s.vol| == |s.origin|
    ensures LogInv(s') && s'.part.Keys <= s'.img.Keys
  {
    UnfoldLogInv(s);
    RedoneOneMore(s.log, s.phase.next, s.mark.ckpt);
    assert s.log[s.phase.next] in s.log;
    assert s.log[..s.base] == s.log;
  }

  lemma LogRedoDone(s: State, s': State)
    requires LogInv(s) && RedoDone(s, s')
    ensures LogInv(s') && s.part == s.img
  {
    UnfoldLogInv(s);
    assert s.log[..|s.log|] == s.log;
  }

  lemma LogInUseMark(s: State, s': State)
    requires LogInv(s) && InUseMark(s, s')
    ensures LogInv(s')
  {
    UnfoldLogInv(s);
  }

  lemma LogMountDone(s: State, s': State)
    requires LogInv(s) && MountDone(s, s')
    ensures LogInv(s') && s.img == map[] && !s'.mark.clean
  {
    UnfoldLogInv(s);
  }
}
