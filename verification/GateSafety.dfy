/** What the journal's gate guarantees in every reachable state. */
module GateSafety {
  import opened Gate

  /** The operations are those numbered below k. */
  ghost predicate AllBelow(ops: set<nat>, k: nat) {
    forall i: nat :: i in ops <==> i < k
  }

  lemma {:induction false} CountBelow(ops: set<nat>, k: nat)
    requires AllBelow(ops, k)
    ensures |ops| == k
  {
    if k > 0 {
      CountBelow(ops - {k - 1}, k - 1);
    } else {
      assert ops == {};
    }
  }

  /** About to commit, or about to ask for it, with the mutex. */
  predicate Rescuer(p: Pc) { p.RunCommit? || p.Refused? || p.Starting? }

  /** Saw, under the mutex it still holds, that no commit was running. */
  predicate SawNone(p: Pc) { Rescuer(p) || p.BeginSlowLoaded? || p.BeginSlowRead? || p.BeginSlowFits?
      || p.BeginSlowFull? }

  /** What a commit() call is waiting for, or -1. */
  function Target(p: Pc): int {
    match p
    case CommitIn(target) => target
    case RunCommit(FromCommit(target)) => target
    case Refused(FromCommit(target)) => target
    case Starting(FromCommit(target)) => target
    case Committing(FromCommit(target), _, _) => target
    case Finishing(FromCommit(target), _, _) => target
    case Waiting(FromCommit(target)) => target
    case Woken(FromCommit(target)) => target
    case _ => -1
  }

  // -------------------------------------------------------- the invariant

  /** Who is where: the mutex, the commit and the gate against the threads' places. */
  ghost predicate PlaceOk(s: State, t: nat, p: Pc) {
    && (Holds(p) <==> s.mutex == Some(t))
    && (Busy(p) <==> s.committer == Some(t))
    && (Inside(p) <==> t in s.inside)
    && (LastOut(p) <==> t in s.leaving)
  }

  ghost predicate GateOk(s: State, t: nat, p: Pc) {
    && (SawNone(p) ==> !s.committing)
    && (p.Starting? ==> s.closed && s.running == 0)
    && (p.Refused? ==> s.closed && (s.running > 0 || s.leaving != {}))
    && (p.BeginFits? ==> !p.closed)
    && (p.BeginSlowRead? || p.BeginSlowFits? ==> !s.closed)
    && (p.Waiting? ==> s.closed)
  }

  ghost predicate ThreadOpOk(s: State, t: nat, p: Pc) {
    && (p.InOp? ==> p.op in s.owner && s.owner[p.op] == t)
    && (p.Counted? ==> p.op in s.endedOps)
    && (Busy(p) ==> p.covered == s.begun)
    && (Target(p) >= 0 ==> t in s.wanted && |s.wanted[t]| == Target(p))
  }

  ghost predicate SharedOk(s: State) {
    && s.running == |s.inside|
    && s.inside <= s.pc.Keys && s.leaving <= s.pc.Keys
    && (s.mutex.Some? ==> s.mutex.value in s.pc)
    && (s.committer.Some? ==> s.committer.value in s.pc)
    && (s.committing <==> s.committer.Some?)
    && (s.committing ==> s.closed && s.running == 0)
  }

  /** Closed with no commit running: someone will start one. */
  ghost predicate WakeOk(s: State) {
    s.closed && !s.committing ==>
      || (s.mutex.Some? && s.mutex.value in s.pc && Rescuer(s.pc[s.mutex.value]))
      || (s.commitRequested && (s.running > 0 || s.leaving != {}))
  }

  /** Every operation begun has ended or is some thread's. */
  ghost predicate NumbersOk(begun: nat, ended: nat, endedOps: set<nat>, going: set<nat>) {
    && ended == |endedOps|
    && (forall i :: i in endedOps ==> i !in going)
    && (forall i: nat :: i in endedOps || i in going <==> i < begun)
  }

  ghost predicate OwnersOk(pc: map<nat, Pc>, owner: map<nat, nat>) {
    forall o :: o in owner ==> owner[o] in pc && pc[owner[o]] == InOp(o)
  }

  ghost predicate OpsOk(s: State) {
    NumbersOk(s.begun, s.ended, s.endedOps, s.owner.Keys) && OwnersOk(s.pc, s.owner)
  }

  ghost predicate CommitOk(s: State) {
    && AllBelow(s.durable, s.committedThrough)
    && s.durable <= s.endedOps
    && s.promised <= s.durable
    && (s.committing ==> s.held == s.endedOps && AllBelow(s.endedOps, s.begun))
    && (forall t :: t in s.wanted ==>
          s.wanted[t] <= s.endedOps && (s.wanted[t] <= s.durable || s.durable <= s.wanted[t]))
  }

  ghost predicate Places(s: State) { forall t :: t in s.pc ==> PlaceOk(s, t, s.pc[t]) }
  ghost predicate Gates(s: State) { forall t :: t in s.pc ==> GateOk(s, t, s.pc[t]) }
  ghost predicate ThreadOps(s: State) { forall t :: t in s.pc ==> ThreadOpOk(s, t, s.pc[t]) }

  ghost predicate Inv(s: State) {
    && Places(s) && Gates(s) && ThreadOps(s)
    && SharedOk(s) && WakeOk(s) && OpsOk(s) && CommitOk(s)
  }

  lemma InitHolds(s: State)
    requires Init(s)
    ensures Inv(s)
  {
  }

  // ---------------------------------------------- a thread moves, no more

  lemma PlacesGo(s: State, t: nat, p: Pc)
    requires Places(s) && t in s.pc
    requires Holds(p) ==> s.mutex == None || s.mutex == Some(t)
    requires Busy(p) ==> s.committer == None || s.committer == Some(t)
    ensures Places(Go(s, t, p))
  {
    var s' := Go(s, t, p);
    forall u | u in s'.pc ensures PlaceOk(s', u, s'.pc[u]) {
      assert PlaceOk(s, u, s.pc[u]);
    }
  }

  /** A step that at most moves t, closes the gate and asks for a commit. */
  ghost predicate Local(s: State, t: nat, p: Pc, s': State) {
    && t in s.pc
    && s' == Go(s, t, p).(closed := s'.closed, txn := s'.txn, commitRequested := s'.commitRequested,
                          checkpointRequested := s'.checkpointRequested)
    && (s.closed ==> s'.closed) && (s'.closed != s.closed ==> Holds(s.pc[t]))
    && (s.commitRequested ==> s'.commitRequested)
    && !Inside(p) && !Inside(s.pc[t]) && Busy(p) == Busy(s.pc[t])
    && (Holds(p) ==> s.mutex == None || s.mutex == Some(t))
    && (LastOut(s.pc[t]) && !LastOut(p) ==> Holds(s.pc[t]))
  }

  lemma GatesLocal(s: State, t: nat, p: Pc, s': State)
    requires Places(s) && Gates(s) && Local(s, t, p, s') && GateOk(s', t, p)
    ensures Gates(s')
  {
    forall u | u in s'.pc ensures GateOk(s', u, s'.pc[u]) {
      if u != t {
        assert GateOk(s, u, s.pc[u]) && PlaceOk(s, u, s.pc[u]) && PlaceOk(s, t, s.pc[t]);
      }
    }
  }

  lemma ThreadOpsLocal(s: State, t: nat, p: Pc, s': State)
    requires ThreadOps(s) && Local(s, t, p, s') && ThreadOpOk(s', t, p)
    ensures ThreadOps(s')
  {
    forall u | u in s'.pc ensures ThreadOpOk(s', u, s'.pc[u]) {
      if u != t {
        assert ThreadOpOk(s, u, s.pc[u]);
      }
    }
  }

  lemma SharedLocal(s: State, t: nat, p: Pc, s': State)
    requires Places(s) && SharedOk(s) && Local(s, t, p, s')
    ensures SharedOk(s') && s'.inside == s.inside && s'.committer == s.committer
  {
    assert PlaceOk(s, t, s.pc[t]);
    assert s'.inside == s.inside;
  }

  /** What a step may use: t's own place and the shared words. */
  ghost predicate Facts(s: State, t: nat) {
    && t in s.pc
    && PlaceOk(s, t, s.pc[t]) && GateOk(s, t, s.pc[t]) && ThreadOpOk(s, t, s.pc[t])
    && SharedOk(s) && WakeOk(s)
  }

  /** What a step that only moves t must show. */
  ghost predicate Moved(s: State, t: nat, s': State) {
    && t in s'.pc
    && Local(s, t, s'.pc[t], s')
    && GateOk(s', t, s'.pc[t]) && ThreadOpOk(s', t, s'.pc[t]) && WakeOk(s')
  }

  lemma PlacesLocal(s: State, t: nat, s': State)
    requires Places(s) && Moved(s, t, s')
    ensures Places(s')
  {
    PlacesGo(s, t, s'.pc[t]);
    forall u | u in s'.pc ensures PlaceOk(s', u, s'.pc[u]) {
      assert PlaceOk(Go(s, t, s'.pc[t]), u, s'.pc[u]);
    }
  }

  lemma KeepMoved(s: State, t: nat, s': State)
    requires Inv(s) && Moved(s, t, s')
    ensures Inv(s')
  {
    PlacesLocal(s, t, s');
    GatesLocal(s, t, s'.pc[t], s');
    ThreadOpsLocal(s, t, s'.pc[t], s');
    SharedLocal(s, t, s'.pc[t], s');
  }

  lemma MovedBeginFast(s: State, max: nat, t: nat, s': State)
    requires Facts(s, t)
    requires BeginLoad(s, t, s') || BeginCheck(s, max, t, s')
    ensures Moved(s, t, s')
  {
  }

  lemma MovedBeginSlow(s: State, t: nat, s': State)
    requires Facts(s, t)
    requires BeginLock(s, t, s') || BeginLook(s, t, s')
    ensures Moved(s, t, s')
  {
  }

  lemma MovedBeginRead(s: State, max: nat, t: nat, s': State)
    requires Facts(s, t)
    requires BeginRead(s, t, s') || BeginDecide(s, max, t, s')
    ensures Moved(s, t, s')
  {
  }

  lemma MovedBeginClose(s: State, t: nat, s': State)
    requires Facts(s, t)
    requires BeginClose(s, t, s')
    ensures Moved(s, t, s')
  {
  }

  lemma MovedEndFast(s: State, max: nat, t: nat, s': State)
    requires Facts(s, t)
    requires EndCheck(s, max, t, s') || EndLock(s, t, s')
    ensures Moved(s, t, s')
  {
  }

  lemma MovedEndSlow(s: State, max: nat, t: nat, s': State)
    requires Facts(s, t)
    requires EndDecide(s, max, t, s') || Unlock(s, t, s')
    ensures Moved(s, t, s')
  {
  }

  lemma MovedCall(s: State, t: nat, s': State)
    requires Facts(s, t)
    requires CallCommit(s, t, s') || CallCheckpoint(s, t, s') || CallFlusher(s, t, s')
    ensures Moved(s, t, s')
  {
  }

  lemma MovedCheckpointLock(s: State, t: nat, s': State)
    requires Facts(s, t)
    requires CheckpointLock(s, t, s')
    ensures Moved(s, t, s')
  {
  }

  lemma MovedCheckpointLoop(s: State, t: nat, s': State)
    requires Facts(s, t)
    requires CheckpointLoop(s, t, s')
    ensures Moved(s, t, s')
  {
    if s.checkpointsDone < s.pc[t].target {
      MovedCheckpointOn(s, t, s');
    }
  }

  lemma MovedCheckpointOn(s: State, t: nat, s': State)
    requires Facts(s, t)
    requires CheckpointLoop(s, t, s') && s.checkpointsDone < s.pc[t].target
    ensures Moved(s, t, s')
  {
  }

  lemma MovedFlusher(s: State, t: nat, young: bool, s': State)
    requires Facts(s, t)
    requires FlusherLock(s, t, s') || FlusherDecide(s, t, young, s')
    ensures Moved(s, t, s')
  {
  }

  lemma MovedRun(s: State, t: nat, long: bool, s': State)
    requires Facts(s, t)
    requires RunClose(s, t, s') || RunRefuse(s, t, s') || RunRelock(s, t, long, s') || Wake(s, t, s')
    ensures Moved(s, t, s')
  {
  }

  // ------------------------------------------- an operation comes and goes

  /** An operation gets in through an open gate. */
  ghost predicate Enters(s: State, t: nat, s': State) {
    && t in s.pc && !s.closed && !Inside(s.pc[t])
    && s' == Enter(s, t)
    && (Holds(s.pc[t]) ==> s.pc[t].BeginSlowFits?)
  }

  lemma BeginSwaps(s: State, t: nat, spurious: bool, s': State)
    requires Facts(s, t) && BeginSwap(s, t, spurious, s')
    ensures Enters(s, t, s') || Moved(s, t, s')
  {
    if s' == Go(s, t, BeginLoaded(s.closed, s.running)) {
      SwapFails(s, t, s');
    }
  }

  lemma SwapFails(s: State, t: nat, s': State)
    requires Facts(s, t) && s.pc[t].BeginFits? && s' == Go(s, t, BeginLoaded(s.closed, s.running))
    ensures Moved(s, t, s')
  {
  }

  lemma BeginAdds(s: State, t: nat, s': State)
    requires Facts(s, t) && BeginAdd(s, t, s')
    ensures Enters(s, t, s')
  {
  }

  lemma PlacesLike(s: State, t: nat, p: Pc, s': State)
    requires Places(s) && t in s.pc
    requires Holds(p) ==> s.mutex == None || s.mutex == Some(t)
    requires Busy(p) ==> s.committer == None || s.committer == Some(t)
    requires var g := Go(s, t, p);
             s'.pc == g.pc && s'.mutex == g.mutex && s'.committer == g.committer && s'.inside == g.inside
             && s'.leaving == g.leaving
    ensures Places(s')
  {
    PlacesGo(s, t, p);
    forall u | u in s'.pc ensures PlaceOk(s', u, s'.pc[u]) {
      assert PlaceOk(Go(s, t, p), u, s'.pc[u]);
    }
  }

  lemma EntersGates(s: State, t: nat, s': State)
    requires Gates(s) && Places(s) && Enters(s, t, s')
    ensures Gates(s')
  {
    forall u | u in s'.pc ensures GateOk(s', u, s'.pc[u]) {
      assert GateOk(s, u, s.pc[u]) && PlaceOk(s, u, s.pc[u]) && PlaceOk(s, t, s.pc[t]);
    }
  }

  lemma EntersThreads(s: State, t: nat, s': State)
    requires ThreadOps(s) && Places(s) && s.committer == None && s.begun !in s.owner && Enters(s, t, s')
    ensures ThreadOps(s')
  {
    var was := s.pc;
    forall u | u in s'.pc ensures ThreadOpOk(s', u, s'.pc[u]) {
      if u != t {
        assert s'.pc[u] == was[u];
        assert ThreadOpOk(s, u, was[u]) && PlaceOk(s, u, was[u]);
      }
    }
  }

  lemma EntersShared(s: State, t: nat, s': State)
    requires SharedOk(s) && WakeOk(s) && t in s.pc && PlaceOk(s, t, s.pc[t]) && Enters(s, t, s')
    ensures SharedOk(s') && WakeOk(s')
  {
    assert |s.inside + {t}| == |s.inside| + 1;
  }

  lemma EntersOps(s: State, t: nat, s': State)
    requires OpsOk(s) && Enters(s, t, s')
    ensures OpsOk(s')
  {
    OneMore(s.begun, s.ended, s.endedOps, s.owner.Keys);
    assert s'.owner.Keys == s.owner.Keys + {s.begun};
    OwnersJoin(s.pc, s.owner, t, s.begun);
  }

  lemma OneMore(begun: nat, ended: nat, endedOps: set<nat>, going: set<nat>)
    requires NumbersOk(begun, ended, endedOps, going)
    ensures NumbersOk(begun + 1, ended, endedOps, going + {begun})
  {
  }

  lemma OwnersJoin(pc: map<nat, Pc>, owner: map<nat, nat>, t: nat, op: nat)
    requires OwnersOk(pc, owner) && t in pc && !Inside(pc[t])
    ensures OwnersOk(pc[t := InOp(op)], owner[op := t])
  {
  }

  lemma EntersCommit(s: State, t: nat, s': State)
    requires CommitOk(s) && !s.committing && Enters(s, t, s')
    ensures CommitOk(s')
  {
  }

  lemma KeepEnters(s: State, t: nat, s': State)
    requires Inv(s) && Enters(s, t, s')
    ensures Inv(s')
  {
    PlacesLike(s, t, InOp(s.begun), s');
    EntersGates(s, t, s');
    EntersThreads(s, t, s');
    EntersShared(s, t, s');
    EntersOps(s, t, s');
    EntersCommit(s, t, s');
  }

  lemma KeepAddBlock(s: State, t: nat, s': State)
    requires Inv(s) && AddBlock(s, t, s')
    ensures Inv(s')
  {
    forall u | u in s'.pc ensures PlaceOk(s', u, s'.pc[u]) && GateOk(s', u, s'.pc[u]) && ThreadOpOk(s', u, s'.pc[u]) {
      assert PlaceOk(s, u, s.pc[u]) && GateOk(s, u, s.pc[u]) && ThreadOpOk(s, u, s.pc[u]);
    }
  }

  lemma EndCountThreads(s: State, t: nat, s': State)
    requires Places(s) && Gates(s) && ThreadOps(s) && EndCount(s, t, s')
    ensures Places(s') && Gates(s') && ThreadOps(s') && s'.inside == s.inside
  {
    var was, op := s.pc, s.pc[t].op;
    assert PlaceOk(s, t, was[t]) && ThreadOpOk(s, t, was[t]);
    PlacesLike(s, t, Counted(op), s');
    assert s'.inside == s.inside;
    forall u | u in s'.pc ensures GateOk(s', u, s'.pc[u]) && ThreadOpOk(s', u, s'.pc[u]) {
      if u != t {
        assert s'.pc[u] == was[u];
        assert GateOk(s, u, was[u]) && ThreadOpOk(s, u, was[u]);
      }
    }
  }

  lemma OneEnds(begun: nat, ended: nat, endedOps: set<nat>, going: set<nat>, op: nat)
    requires NumbersOk(begun, ended, endedOps, going) && op in going
    ensures NumbersOk(begun, ended + 1, endedOps + {op}, going - {op})
  {
  }

  lemma OwnersLeave(pc: map<nat, Pc>, owner: map<nat, nat>, t: nat, op: nat, p: Pc)
    requires OwnersOk(pc, owner) && t in pc && pc[t] == InOp(op)
    ensures OwnersOk(pc[t := p], owner - {op})
  {
  }

  lemma EndCountOps(s: State, t: nat, s': State)
    requires OpsOk(s) && EndCount(s, t, s') && s.pc[t].op in s.owner && s.owner[s.pc[t].op] == t
    ensures OpsOk(s')
  {
    var op := s.pc[t].op;
    OneEnds(s.begun, s.ended, s.endedOps, s.owner.Keys, op);
    assert s'.owner.Keys == s.owner.Keys - {op};
    OwnersLeave(s.pc, s.owner, t, op, Counted(op));
  }

  lemma EndCountRest(s: State, t: nat, s': State)
    requires SharedOk(s) && WakeOk(s) && CommitOk(s) && EndCount(s, t, s') && t in s.inside && s'.inside == s.inside
    requires PlaceOk(s, t, s.pc[t])
    ensures SharedOk(s') && WakeOk(s') && CommitOk(s')
  {
  }

  lemma KeepEndCount(s: State, t: nat, s': State)
    requires Inv(s) && EndCount(s, t, s')
    ensures Inv(s')
  {
    assert PlaceOk(s, t, s.pc[t]) && ThreadOpOk(s, t, s.pc[t]);
    EndCountThreads(s, t, s');
    EndCountOps(s, t, s');
    EndCountRest(s, t, s');
  }

  lemma EndLeaveThreads(s: State, t: nat, s': State)
    requires Places(s) && Gates(s) && ThreadOps(s) && EndLeave(s, t, s')
    ensures Places(s') && Gates(s') && ThreadOps(s')
  {
    var was := s.pc;
    assert PlaceOk(s, t, was[t]) && ThreadOpOk(s, t, was[t]);
    PlacesLike(s, t, s'.pc[t], s');
    forall u | u in s'.pc ensures GateOk(s', u, s'.pc[u]) && ThreadOpOk(s', u, s'.pc[u]) {
      if u != t {
        assert s'.pc[u] == was[u];
        assert GateOk(s, u, was[u]) && ThreadOpOk(s, u, was[u]);
      }
    }
  }

  lemma EndLeaveRest(s: State, t: nat, s': State)
    requires SharedOk(s) && WakeOk(s) && OpsOk(s) && CommitOk(s) && EndLeave(s, t, s')
    requires PlaceOk(s, t, s.pc[t])
    ensures SharedOk(s') && WakeOk(s') && OpsOk(s') && CommitOk(s')
  {
    assert |s.inside - {t}| == |s.inside| - 1;
  }

  lemma KeepEndLeave(s: State, t: nat, s': State)
    requires Inv(s) && EndLeave(s, t, s')
    ensures Inv(s')
  {
    assert PlaceOk(s, t, s.pc[t]);
    EndLeaveThreads(s, t, s');
    EndLeaveRest(s, t, s');
  }

  // -------------------------------------------------- commits and promises

  lemma OwnersInside(s: State)
    requires Places(s) && OpsOk(s)
    ensures forall o :: o in s.owner ==> s.owner[o] in s.inside
  {
    forall o | o in s.owner ensures s.owner[o] in s.inside {
      assert PlaceOk(s, s.owner[o], InOp(o));
    }
  }

  /** With nobody inside the gate, every operation begun has ended. */
  lemma NoneInside(s: State)
    requires Places(s) && SharedOk(s) && OpsOk(s) && s.running == 0
    ensures s.inside == {} && AllBelow(s.endedOps, s.begun) && s.ended == s.begun
  {
    OwnersInside(s);
    CountBelow(s.endedOps, s.begun);
  }

  lemma KeepCommitLock(s: State, t: nat, s': State)
    requires Inv(s) && CommitLock(s, t, s')
    ensures Inv(s')
  {
    assert PlaceOk(s, t, s.pc[t]);
    PlacesLike(s, t, s'.pc[t], s');
    CommitLockThreads(s, t, s');
    CommitLockRest(s, t, s');
  }

  lemma CommitLockThreads(s: State, t: nat, s': State)
    requires Places(s) && Gates(s) && ThreadOps(s) && OpsOk(s) && CommitLock(s, t, s')
    ensures Gates(s') && ThreadOps(s')
  {
    var was := s.pc;
    forall u | u in s'.pc ensures GateOk(s', u, s'.pc[u]) && ThreadOpOk(s', u, s'.pc[u]) {
      if u != t {
        assert s'.pc[u] == was[u];
        assert GateOk(s, u, was[u]) && ThreadOpOk(s, u, was[u]) && PlaceOk(s, u, was[u]) && PlaceOk(s, t, was[t]);
      }
    }
  }

  lemma CommitLockRest(s: State, t: nat, s': State)
    requires t in s.pc && PlaceOk(s, t, s.pc[t]) && SharedOk(s) && WakeOk(s) && OpsOk(s) && CommitOk(s)
    requires CommitLock(s, t, s')
    ensures SharedOk(s') && WakeOk(s') && OpsOk(s') && CommitOk(s')
  {
  }

  /** A commit() call returns: what it was to cover is durable. */
  ghost predicate Returns(s: State, t: nat, s': State) {
    && t in s.pc && s.pc[t].CommitIn? && t in s.wanted && s.committedThrough >= s.pc[t].target
    && s' == Go(s, t, Returning).(promised := s.promised + s.wanted[t], wanted := s.wanted - {t})
  }

  lemma CommitLoops(s: State, t: nat, s': State)
    requires Facts(s, t) && CommitLoop(s, t, s')
    ensures Returns(s, t, s') || Moved(s, t, s')
  {
  }

  /** Nested sets of operations, the smaller of which has at least as many. */
  lemma Covered(wanted: set<nat>, durable: set<nat>, through: nat)
    requires AllBelow(durable, through) && (wanted <= durable || durable <= wanted) && |wanted| <= through
    ensures wanted <= durable
  {
    CountBelow(durable, through);
    if durable <= wanted {
      assert |wanted - durable| == |wanted| - |durable|;
    }
  }

  lemma KeepReturns(s: State, t: nat, s': State)
    requires Inv(s) && Returns(s, t, s')
    ensures Inv(s')
  {
    var was := s.pc;
    assert PlaceOk(s, t, was[t]) && ThreadOpOk(s, t, was[t]);
    PlacesLike(s, t, Returning, s');
    ReturnsThreads(s, t, s');
    ReturnsRest(s, t, s');
  }

  lemma ReturnsRest(s: State, t: nat, s': State)
    requires SharedOk(s) && WakeOk(s) && OpsOk(s) && CommitOk(s) && Returns(s, t, s')
    requires PlaceOk(s, t, s.pc[t]) && ThreadOpOk(s, t, s.pc[t])
    ensures SharedOk(s') && WakeOk(s') && OpsOk(s') && CommitOk(s')
  {
    Covered(s.wanted[t], s.durable, s.committedThrough);
  }

  lemma ReturnsThreads(s: State, t: nat, s': State)
    requires Places(s) && Gates(s) && ThreadOps(s) && Returns(s, t, s')
    ensures Gates(s') && ThreadOps(s')
  {
    var was := s.pc;
    forall u | u in s'.pc ensures GateOk(s', u, s'.pc[u]) && ThreadOpOk(s', u, s'.pc[u]) {
      if u != t {
        assert s'.pc[u] == was[u];
        assert GateOk(s, u, was[u]) && ThreadOpOk(s, u, was[u]) && PlaceOk(s, u, was[u]) && PlaceOk(s, t, was[t]);
      }
    }
  }

  lemma RunStartThreads(s: State, t: nat, s': State)
    requires Places(s) && Gates(s) && ThreadOps(s) && RunStart(s, t, s') && s.ended == s.begun && s.committer == None
    ensures Places(s') && Gates(s') && ThreadOps(s')
  {
    var was := s.pc;
    PlacesLike(s, t, s'.pc[t], s');
    forall u | u in s'.pc ensures GateOk(s', u, s'.pc[u]) && ThreadOpOk(s', u, s'.pc[u]) {
      assert PlaceOk(s, t, was[t]) && GateOk(s, t, was[t]) && ThreadOpOk(s, t, was[t]);
      if u != t {
        assert s'.pc[u] == was[u];
        assert GateOk(s, u, was[u]) && ThreadOpOk(s, u, was[u]) && PlaceOk(s, u, was[u]);
      }
    }
  }

  lemma KeepRunStart(s: State, t: nat, s': State)
    requires Inv(s) && RunStart(s, t, s')
    ensures Inv(s')
  {
    assert PlaceOk(s, t, s.pc[t]) && GateOk(s, t, s.pc[t]);
    NoneInside(s);
    RunStartThreads(s, t, s');
    RunStartRest(s, t, s');
  }

  lemma RunStartRest(s: State, t: nat, s': State)
    requires SharedOk(s) && OpsOk(s) && CommitOk(s) && RunStart(s, t, s')
    requires AllBelow(s.endedOps, s.begun) && PlaceOk(s, t, s.pc[t]) && GateOk(s, t, s.pc[t])
    ensures SharedOk(s') && WakeOk(s') && OpsOk(s') && CommitOk(s')
  {
    assert s'.inside == s.inside;
  }

  /** The commit's thread, with everyone else told. */
  lemma RunFinishThreads(s: State, t: nat, s': State)
    requires Places(s) && Gates(s) && ThreadOps(s) && RunFinish(s, t, s')
    ensures Places(s') && Gates(s') && ThreadOps(s')
  {
    var was := s.pc;
    forall u | u in s'.pc ensures PlaceOk(s', u, s'.pc[u]) && GateOk(s', u, s'.pc[u]) && ThreadOpOk(s', u, s'.pc[u]) {
      assert PlaceOk(s, t, was[t]) && ThreadOpOk(s, t, was[t]);
      if u != t {
        assert s'.pc[u] == if was[u].Waiting? then Woken(was[u].caller) else was[u];
        assert PlaceOk(s, u, was[u]) && GateOk(s, u, was[u]) && ThreadOpOk(s, u, was[u]);
      }
    }
  }

  lemma RunFinishRest(s: State, t: nat, s': State)
    requires SharedOk(s) && OpsOk(s) && CommitOk(s) && RunFinish(s, t, s')
    requires PlaceOk(s, t, s.pc[t]) && ThreadOpOk(s, t, s.pc[t])
    ensures SharedOk(s') && WakeOk(s') && OpsOk(s') && CommitOk(s')
  {
    assert s'.inside == s.inside;
  }

  lemma KeepRunFinish(s: State, t: nat, s': State)
    requires Inv(s) && RunFinish(s, t, s')
    ensures Inv(s')
  {
    assert PlaceOk(s, t, s.pc[t]) && ThreadOpOk(s, t, s.pc[t]);
    RunFinishThreads(s, t, s');
    RunFinishRest(s, t, s');
  }
}
