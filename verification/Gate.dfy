/**
 The journal's gate: an atomic word, a mutex and a condition variable, with each
 thread's every atomic access as a step of its own. The word counts the running
 operations and carries the CLOSED bit.
 */
module Gate {
  import opened OpLimit

  /** Who called run_commit, and so what happens when it returns. */
  datatype Caller = FromBegin | FromEnd | FromCommit(target: nat) | FromCheckpoint(target: nat) | FromFlusher

  /** Where a thread is. A thread that holds the mutex says so in `Holds`. */
  datatype Pc =
    | Idle
    // begin_op, the fast path: the word it read last
    | BeginLoaded(closed: bool, running: nat)
    | BeginFits(closed: bool, running: nat)
    // inside an operation, by its number
    | InOp(op: nat)
    | Counted(op: nat)                 // ended_ has it; the gate still does too
    | EndChecks                        // last out of an open gate: the size is checked next
    | EndSlow                          // on its way to the mutex in end_op_slow
    | EndSlowIn                        // in it
    | BeginSlow                        // on its way to the mutex in begin_op_slow
    | BeginSlowIn
    | BeginSlowLoaded                  // saw no commit running, and reads the word
    | BeginSlowRead(running: nat)      // found the gate open
    | BeginSlowFits                    // and room in the transaction
    | BeginSlowFull                    // asked for a commit, and closes the gate
    | CommitCall
    | CommitIn(target: nat)
    | CheckpointCall
    | CheckpointIn(target: nat)
    | FlusherCall
    | FlusherIn
    | RunCommit(caller: Caller)        // closing the gate
    | Refused(caller: Caller)          // operations are running: asks for a commit
    | Starting(caller: Caller)         // none is: about to mark the commit as running
    | Committing(caller: Caller, covered: nat, checkpoint: bool)  // the I/O, without the mutex
    | Finishing(caller: Caller, covered: nat, checkpoint: bool)   // the mutex is back
    | Waiting(caller: Caller)          // on the condition variable
    | Woken(caller: Caller)            // notified, wants the mutex back
    | Returning                        // about to let the mutex go

  datatype Option<T> = None | Some(value: T)

  datatype State = State(
    closed: bool, running: nat, txn: nat, ended: nat,
    mutex: Option<nat>,
    committing: bool, commitRequested: bool, checkpointRequested: bool,
    committedThrough: nat, checkpointsDone: nat,
    pc: map<nat, Pc>,
    // history: operations begun so far, those counted in ended_, and the thread
    // of each of the others
    begun: nat, endedOps: set<nat>, owner: map<nat, nat>,
    // history: the operations the running commit holds, those finished commits
    // hold, those some commit() has vouched for, and those each call must cover
    held: set<nat>, durable: set<nat>, promised: set<nat>, wanted: map<nat, set<nat>>,
    // history: the thread that runs the commit, the threads inside the gate, and
    // those on their way into end_op_slow
    committer: Option<nat>, inside: set<nat>, leaving: set<nat>)

  /** Thread t moves to p; what its place says about it is kept up to date. */
  function Go(s: State, t: nat, p: Pc): State {
    s.(pc := s.pc[t := p],
       mutex := if Holds(p) then Some(t) else if s.mutex == Some(t) then None else s.mutex,
       committer := if Busy(p) then Some(t) else if s.committer == Some(t) then None else s.committer,
       inside := if Inside(p) then s.inside + {t} else s.inside - {t},
       leaving := if LastOut(p) then s.leaving + {t} else s.leaving - {t})
  }

  /** Thread t's operation joins those in the gate, under the next number. */
  function Enter(s: State, t: nat): State {
    Go(s, t, InOp(s.begun)).(running := s.running + 1, begun := s.begun + 1, owner := s.owner[s.begun := t])
  }

  /** The places where a thread holds the mutex. */
  predicate Holds(p: Pc) {
    p.EndSlowIn? || p.BeginSlowIn? || p.BeginSlowLoaded? || p.BeginSlowRead? || p.BeginSlowFits? || p.BeginSlowFull?
        || p.CommitIn? || p.CheckpointIn?
    || p.FlusherIn? || p.RunCommit? || p.Refused? || p.Starting? || p.Finishing? || p.Returning?
  }

  predicate Inside(p: Pc) { p.InOp? || p.Counted? }

  predicate Busy(p: Pc) { p.Committing? || p.Finishing? }

  predicate LastOut(p: Pc) { p.EndSlow? || p.EndSlowIn? }

  predicate Free(s: State) { s.mutex == None }

  predicate At(s: State, t: nat, p: Pc) {
    t in s.pc && s.pc[t] == p
  }

  // ------------------------------------------------------------- begin_op

  predicate BeginLoad(s: State, t: nat, s': State) {
    At(s, t, Idle) && s' == Go(s, t, BeginLoaded(s.closed, s.running))
  }

  predicate BeginCheck(s: State, max: nat, t: nat, s': State) {
    && t in s.pc && s.pc[t].BeginLoaded?
    && s' == Go(s, t, if !s.pc[t].closed && Fits(s.txn, s.pc[t].running, max)
                      then BeginFits(false, s.pc[t].running) else BeginSlow)
  }

  /** compare_exchange_weak: it may also fail for no reason. */
  predicate BeginSwap(s: State, t: nat, spurious: bool, s': State) {
    && t in s.pc && s.pc[t].BeginFits?
    && if s.pc[t].closed == s.closed && s.pc[t].running == s.running && !spurious
       then s' == Enter(s, t)
       else s' == Go(s, t, BeginLoaded(s.closed, s.running))
  }

  predicate BeginLock(s: State, t: nat, s': State) {
    At(s, t, BeginSlow) && Free(s) && s' == Go(s, t, BeginSlowIn)
  }

  predicate BeginLook(s: State, t: nat, s': State) {
    && At(s, t, BeginSlowIn)
    && s' == Go(s, t, if s.committing then Waiting(FromBegin) else BeginSlowLoaded)
  }

  predicate BeginRead(s: State, t: nat, s': State) {
    && At(s, t, BeginSlowLoaded)
    && s' == Go(s, t, if s.closed then RunCommit(FromBegin) else BeginSlowRead(s.running))
  }

  predicate BeginDecide(s: State, max: nat, t: nat, s': State) {
    && t in s.pc && s.pc[t].BeginSlowRead?
    && var full := !Fits(s.txn, s.pc[t].running, max);
       s' == Go(s, t, if full then BeginSlowFull else BeginSlowFits).(commitRequested := s.commitRequested || full)
  }

  /** fetch_add, whatever the fast path has done to the count since. */
  predicate BeginAdd(s: State, t: nat, s': State) {
    At(s, t, BeginSlowFits) && s' == Enter(s, t)
  }

  predicate BeginClose(s: State, t: nat, s': State) {
    At(s, t, BeginSlowFull) && s' == Go(s, t, RunCommit(FromBegin)).(closed := true)
  }

  // ------------------------------------------------- the operation and end_op

  /** add_to_txn, under the mutex. */
  predicate AddBlock(s: State, t: nat, s': State) {
    t in s.pc && s.pc[t].InOp? && Free(s) && s' == s.(txn := s.txn + 1)
  }

  predicate EndCount(s: State, t: nat, s': State) {
    && t in s.pc && s.pc[t].InOp?
    && s' == Go(s, t, Counted(s.pc[t].op)).(ended := s.ended + 1, endedOps := s.endedOps + {s.pc[t].op},
       owner := s.owner - {s.pc[t].op})
  }

  predicate EndLeave(s: State, t: nat, s': State) {
    && t in s.pc && s.pc[t].Counted? && s.running > 0
    && s' == Go(s, t, if s.running != 1 then Idle else if s.closed then EndSlow else EndChecks)
               .(running := s.running - 1)
  }

  predicate EndCheck(s: State, max: nat, t: nat, s': State) {
    At(s, t, EndChecks) && s' == Go(s, t, if s.txn <= max then Idle else EndSlow)
  }

  predicate EndLock(s: State, t: nat, s': State) {
    At(s, t, EndSlow) && Free(s) && s' == Go(s, t, EndSlowIn)
  }

  predicate EndDecide(s: State, max: nat, t: nat, s': State) {
    && At(s, t, EndSlowIn)
    && s' == Go(s, t, if s.committing || s.running != 0 then Returning
                      else if s.commitRequested || s.checkpointRequested || s.txn > max then RunCommit(FromEnd)
                      else Returning)
  }

  // -------------------------------------- commit, checkpoint and the flusher

  /** commit() is called; what has ended by the time it reads ended_ is what it must cover. */
  predicate CallCommit(s: State, t: nat, s': State) {
    At(s, t, Idle) && s' == Go(s, t, CommitCall)
  }

  predicate CommitLock(s: State, t: nat, s': State) {
    && At(s, t, CommitCall) && Free(s)
    && s' == Go(s, t, CommitIn(s.ended)).(wanted := s.wanted[t := s.endedOps])
  }

  predicate CommitLoop(s: State, t: nat, s': State) {
    && t in s.pc && s.pc[t].CommitIn? && t in s.wanted
    && var target := s.pc[t].target;
       if s.committedThrough >= target
       then s' == Go(s, t, Returning).(promised := s.promised + s.wanted[t], wanted := s.wanted - {t})
       else s' == Go(s, t, if s.committing then Waiting(FromCommit(target)) else RunCommit(FromCommit(target)))
  }

  predicate CallCheckpoint(s: State, t: nat, s': State) {
    At(s, t, Idle) && s' == Go(s, t, CheckpointCall)
  }

  predicate CheckpointLock(s: State, t: nat, s': State) {
    At(s, t, CheckpointCall) && Free(s) && s' == Go(s, t, CheckpointIn(s.checkpointsDone + 1))
  }

  predicate CheckpointLoop(s: State, t: nat, s': State) {
    && t in s.pc && s.pc[t].CheckpointIn?
    && var target := s.pc[t].target;
       if s.checkpointsDone >= target then s' == Go(s, t, Returning)
       else if s.committing then s' == Go(s, t, Waiting(FromCheckpoint(target)))
       else s' == Go(s, t, RunCommit(FromCheckpoint(target))).(checkpointRequested := true)
  }

  predicate CallFlusher(s: State, t: nat, s': State) {
    At(s, t, Idle) && s' == Go(s, t, FlusherCall)
  }

  predicate FlusherLock(s: State, t: nat, s': State) {
    At(s, t, FlusherCall) && Free(s) && s' == Go(s, t, FlusherIn)
  }

  /** `young`: the transaction has not been open long enough. */
  predicate FlusherDecide(s: State, t: nat, young: bool, s': State) {
    && At(s, t, FlusherIn)
    && s' == Go(s, t, if s.committing || s.txn == 0 || young then Returning else RunCommit(FromFlusher))
  }

  predicate Unlock(s: State, t: nat, s': State) {
    At(s, t, Returning) && s' == Go(s, t, Idle)
  }

  // ----------------------------------------------------------- run_commit

  predicate RunClose(s: State, t: nat, s': State) {
    && t in s.pc && s.pc[t].RunCommit?
    && s' == Go(s, t, if s.running != 0 then Refused(s.pc[t].caller) else Starting(s.pc[t].caller)).(closed := true)
  }

  /** It returns false: the caller waits, or goes home. */
  predicate RunRefuse(s: State, t: nat, s': State) {
    && t in s.pc && s.pc[t].Refused?
    && var c := s.pc[t].caller;
       s' == Go(s, t, if c.FromEnd? || c.FromFlusher? then Returning else Waiting(c)).(commitRequested := true)
  }

  /** The commit is marked, the transaction taken, ended_ read, the mutex let go. */
  predicate RunStart(s: State, t: nat, s': State) {
    && t in s.pc && s.pc[t].Starting?
    && s' == Go(s, t, Committing(s.pc[t].caller, s.ended, s.checkpointRequested))
               .(committing := true, commitRequested := false, checkpointRequested := false, txn := 0,
                 held := s.endedOps)
  }

  /** The I/O is over (with a checkpoint, if one was asked for or the log is long). */
  predicate RunRelock(s: State, t: nat, long: bool, s': State) {
    && t in s.pc && s.pc[t].Committing? && Free(s)
    && s' == Go(s, t, Finishing(s.pc[t].caller, s.pc[t].covered, s.pc[t].checkpoint || long))
  }

  function AfterCommit(c: Caller): Pc {
    match c
    case FromBegin => BeginSlowIn
    case FromEnd => Returning
    case FromCommit(target) => CommitIn(target)
    case FromCheckpoint(target) => CheckpointIn(target)
    case FromFlusher => Returning
  }

  function Notified(pc: map<nat, Pc>): map<nat, Pc> {
    map t | t in pc :: if pc[t].Waiting? then Woken(pc[t].caller) else pc[t]
  }

  /** The gate opens and everyone waiting is told. */
  predicate RunFinish(s: State, t: nat, s': State) {
    && t in s.pc && s.pc[t].Finishing?
    && var told := s.(committing := false, committedThrough := s.pc[t].covered, closed := false,
                      checkpointsDone := s.checkpointsDone + (if s.pc[t].checkpoint then 1 else 0),
                      durable := s.held, pc := Notified(s.pc));
       s' == Go(told, t, AfterCommit(s.pc[t].caller))
  }

  predicate Wake(s: State, t: nat, s': State) {
    && t in s.pc && s.pc[t].Woken? && Free(s)
    && s' == Go(s, t, AfterCommit(s.pc[t].caller))
  }

  // ----------------------------------------------------------------- runs

  ghost predicate Next(s: State, max: nat, t: nat, s': State) {
    || BeginLoad(s, t, s') || BeginCheck(s, max, t, s')
    || (exists spurious: bool :: BeginSwap(s, t, spurious, s'))
    || BeginLock(s, t, s') || BeginLook(s, t, s') || BeginRead(s, t, s')
    || BeginDecide(s, max, t, s') || BeginAdd(s, t, s') || BeginClose(s, t, s')
    || AddBlock(s, t, s') || EndCount(s, t, s') || EndLeave(s, t, s') || EndCheck(s, max, t, s')
    || EndLock(s, t, s') || EndDecide(s, max, t, s')
    || CallCommit(s, t, s') || CommitLock(s, t, s') || CommitLoop(s, t, s')
    || CallCheckpoint(s, t, s') || CheckpointLock(s, t, s') || CheckpointLoop(s, t, s')
    || CallFlusher(s, t, s') || FlusherLock(s, t, s')
    || (exists young: bool :: FlusherDecide(s, t, young, s'))
    || Unlock(s, t, s')
    || RunClose(s, t, s') || RunRefuse(s, t, s') || RunStart(s, t, s')
    || (exists long: bool :: RunRelock(s, t, long, s'))
    || RunFinish(s, t, s') || Wake(s, t, s')
  }

  ghost predicate Init(s: State) {
    && !s.closed && s.running == 0 && s.txn == 0 && s.ended == 0 && s.mutex == None
    && !s.committing && !s.commitRequested && !s.checkpointRequested
    && s.committedThrough == 0 && s.checkpointsDone == 0
    && (forall t :: t in s.pc ==> s.pc[t] == Idle)
    && s.begun == 0 && s.endedOps == {} && s.owner == map[] && s.held == {} && s.durable == {} && s.promised == {}
       && s.wanted == map[]
    && s.committer == None && s.inside == {} && s.leaving == {}
  }

  ghost predicate Run(states: seq<State>, max: nat, threads: seq<nat>) {
    && |states| == |threads| + 1
    && Init(states[0])
    && forall i :: 0 <= i < |threads| ==> Next(states[i], max, threads[i], states[i + 1])
  }
}
