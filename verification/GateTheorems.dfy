/** Every run of the gate keeps the invariant, and what follows for its callers. */
module GateTheorems {
  import opened OpLimit
  import opened Gate
  import opened GateSafety

  // ------------------------------------------------------------ every step

  /** The nine ways a step can touch what the invariant speaks of. */
  ghost predicate Kind(s: State, t: nat, s': State) {
    || Moved(s, t, s') || Enters(s, t, s') || AddBlock(s, t, s') || EndCount(s, t, s') || EndLeave(s, t, s')
    || CommitLock(s, t, s') || Returns(s, t, s') || RunStart(s, t, s') || RunFinish(s, t, s')
  }

  lemma KindBegin(s: State, max: nat, t: nat, spurious: bool, s': State)
    requires Facts(s, t)
    requires BeginLoad(s, t, s') || BeginCheck(s, max, t, s') || BeginSwap(s, t, spurious, s')
             || BeginLock(s, t, s') || BeginLook(s, t, s') || BeginAdd(s, t, s')
    ensures Moved(s, t, s') || Enters(s, t, s')
  {
    if BeginLoad(s, t, s') || BeginCheck(s, max, t, s') {
      MovedBeginFast(s, max, t, s');
    } else if BeginLock(s, t, s') || BeginLook(s, t, s') {
      MovedBeginSlow(s, t, s');
    } else if BeginAdd(s, t, s') {
      BeginAdds(s, t, s');
    } else {
      BeginSwaps(s, t, spurious, s');
    }
  }

  lemma KindEnd(s: State, max: nat, t: nat, s': State)
    requires Facts(s, t)
    requires EndCheck(s, max, t, s') || EndLock(s, t, s') || EndDecide(s, max, t, s') || Unlock(s, t, s')
             || BeginRead(s, t, s') || BeginDecide(s, max, t, s') || BeginClose(s, t, s')
    ensures Moved(s, t, s')
  {
    if EndCheck(s, max, t, s') || EndLock(s, t, s') {
      MovedEndFast(s, max, t, s');
    } else if EndDecide(s, max, t, s') || Unlock(s, t, s') {
      MovedEndSlow(s, max, t, s');
    } else if BeginClose(s, t, s') {
      MovedBeginClose(s, t, s');
    } else {
      MovedBeginRead(s, max, t, s');
    }
  }

  lemma KindCall(s: State, t: nat, young: bool, s': State)
    requires Facts(s, t)
    requires CallCommit(s, t, s') || CallCheckpoint(s, t, s') || CallFlusher(s, t, s')
             || FlusherLock(s, t, s') || FlusherDecide(s, t, young, s')
             || CheckpointLock(s, t, s') || CheckpointLoop(s, t, s')
    ensures Moved(s, t, s')
  {
    if CallCommit(s, t, s') || CallCheckpoint(s, t, s') || CallFlusher(s, t, s') {
      MovedCall(s, t, s');
    } else if CheckpointLock(s, t, s') {
      MovedCheckpointLock(s, t, s');
    } else if CheckpointLoop(s, t, s') {
      MovedCheckpointLoop(s, t, s');
    } else {
      MovedFlusher(s, t, young, s');
    }
  }

  lemma FactsAt(s: State, t: nat)
    requires Inv(s) && t in s.pc
    ensures Facts(s, t)
  {
  }

  lemma KindOf(s: State, max: nat, t: nat, s': State)
    requires Facts(s, t) && Next(s, max, t, s')
    ensures Kind(s, t, s')
  {
    if spurious :| BeginSwap(s, t, spurious, s') {
      KindBegin(s, max, t, spurious, s');
    } else if young :| FlusherDecide(s, t, young, s') {
      KindCall(s, t, young, s');
    } else if long :| RunRelock(s, t, long, s') {
      MovedRun(s, t, long, s');
    } else if RunClose(s, t, s') || RunRefuse(s, t, s') || Wake(s, t, s') {
      MovedRun(s, t, false, s');
    } else if CommitLoop(s, t, s') {
      CommitLoops(s, t, s');
    } else if BeginLoad(s, t, s') || BeginCheck(s, max, t, s') || BeginLock(s, t, s') || BeginLook(s, t, s')
        || BeginAdd(s, t, s') {
      KindBegin(s, max, t, false, s');
    } else if EndCheck(s, max, t, s') || EndLock(s, t, s') || EndDecide(s, max, t, s') || Unlock(s, t, s')
              || BeginRead(s, t, s') || BeginDecide(s, max, t, s') || BeginClose(s, t, s') {
      KindEnd(s, max, t, s');
    } else if CallCommit(s, t, s') || CallCheckpoint(s, t, s') || CallFlusher(s, t, s')
              || FlusherLock(s, t, s') || CheckpointLock(s, t, s') || CheckpointLoop(s, t, s') {
      KindCall(s, t, false, s');
    }
  }

  lemma KeepKind(s: State, t: nat, s': State)
    requires Inv(s) && Kind(s, t, s')
    ensures Inv(s')
  {
    if Moved(s, t, s') {
      KeepMoved(s, t, s');
    } else if Enters(s, t, s') {
      KeepEnters(s, t, s');
    } else if AddBlock(s, t, s') {
      KeepAddBlock(s, t, s');
    } else if EndCount(s, t, s') {
      KeepEndCount(s, t, s');
    } else if EndLeave(s, t, s') {
      KeepEndLeave(s, t, s');
    } else if CommitLock(s, t, s') {
      KeepCommitLock(s, t, s');
    } else if Returns(s, t, s') {
      KeepReturns(s, t, s');
    } else if RunStart(s, t, s') {
      KeepRunStart(s, t, s');
    } else {
      KeepRunFinish(s, t, s');
    }
  }

  lemma KeepNext(s: State, max: nat, t: nat, s': State)
    requires Inv(s) && Next(s, max, t, s')
    ensures Inv(s') && Kind(s, t, s')
  {
    FactsAt(s, t);
    KindOf(s, max, t, s');
    KeepKind(s, t, s');
  }

  /** The invariant and the step as facts that are unfolded on demand. */
  ghost predicate Good(s: State) {
    forall r :: r == s ==> Inv(r)
  }

  ghost predicate Took(s: State, max: nat, t: nat, s': State) {
    forall r :: r == s ==> Next(r, max, t, s')
  }

  lemma StepOf(states: seq<State>, max: nat, threads: seq<nat>, i: nat)
    requires Run(states, max, threads) && i < |threads|
    ensures Good(states[i]) && Took(states[i], max, threads[i], states[i + 1])
  {
    RunKeeps(states, max, threads, i);
  }

  lemma {:induction false} RunKeeps(states: seq<State>, max: nat, threads: seq<nat>, i: nat)
    requires Run(states, max, threads) && i < |states|
    ensures Inv(states[i])
  {
    if i == 0 {
      InitHolds(states[0]);
    } else {
      RunKeeps(states, max, threads, i - 1);
      KeepNext(states[i - 1], max, threads[i - 1], states[i]);
    }
  }

  // ---------------------------------------------------------- group commit

  /**
   While a commit runs no thread is inside an operation, the commit and those
   before it hold every operation ever begun, whole, and `covered` is their number.
   */
  lemma GroupCommit(states: seq<State>, max: nat, threads: seq<nat>, i: nat)
    requires Run(states, max, threads) && i < |states|
    ensures var s := states[i];
            s.committing ==>
              && (forall t :: t in s.pc ==> !Inside(s.pc[t]))
              && AllBelow(s.held, s.begun) && s.held == s.endedOps
              && (forall t :: t in s.pc && Busy(s.pc[t]) ==> s.pc[t].covered == |s.held|)
              && (exists t :: t in s.pc && Busy(s.pc[t]) && forall u :: u in s.pc && Busy(s.pc[u]) ==> u == t)
  {
    RunKeeps(states, max, threads, i);
    var s := states[i];
    if s.committing {
      var c := s.committer.value;
      assert PlaceOk(s, c, s.pc[c]);
      forall t | t in s.pc ensures !Inside(s.pc[t]) && (Busy(s.pc[t]) ==> t == c && s.pc[t].covered == s.begun) {
        assert PlaceOk(s, t, s.pc[t]) && ThreadOpOk(s, t, s.pc[t]);
      }
      CountBelow(s.held, s.begun);
    }
  }

  /** What finished commits hold is whole operations, the first committed_through_ of them. */
  lemma DurablePrefix(states: seq<State>, max: nat, threads: seq<nat>, i: nat)
    requires Run(states, max, threads) && i < |states|
    ensures AllBelow(states[i].durable, states[i].committedThrough)
    ensures states[i].durable <= states[i].endedOps
  {
    RunKeeps(states, max, threads, i);
  }

  // --------------------------------------------------- the fsync guarantee

  lemma DurableGrows(s: State, t: nat, s': State)
    requires CommitOk(s) && Kind(s, t, s') && (Busy(s.pc[t]) ==> s.committing)
    ensures s.durable <= s'.durable
  {
    if Moved(s, t, s') || Enters(s, t, s') {
      MovedStays(s, t, s');
    } else {
      OthersGrow(s, t, s');
    }
  }

  lemma OthersGrow(s: State, t: nat, s': State)
    requires AddBlock(s, t, s') || EndCount(s, t, s') || EndLeave(s, t, s') || CommitLock(s, t, s') || Returns(s, t, s')
             || RunStart(s, t, s') || RunFinish(s, t, s')
    requires CommitOk(s) && (Busy(s.pc[t]) ==> s.committing)
    ensures s.durable <= s'.durable
  {
    if AddBlock(s, t, s') || EndCount(s, t, s') || EndLeave(s, t, s') {
      InsideStays(s, t, s');
    }
  }

  lemma OthersStay(s: State, u: nat, s': State, t: nat)
    requires AddBlock(s, u, s') || EndCount(s, u, s') || EndLeave(s, u, s') || CommitLock(s, u, s') || Returns(s, u, s')
             || RunStart(s, u, s') || RunFinish(s, u, s')
    requires t in s.wanted && (u == t ==> !CommitLock(s, u, s') && !Returns(s, u, s'))
    ensures t in s'.wanted && s'.wanted[t] == s.wanted[t]
  {
    if AddBlock(s, u, s') || EndCount(s, u, s') || EndLeave(s, u, s') {
      InsideStays(s, u, s');
    } else if RunStart(s, u, s') || RunFinish(s, u, s') {
      RunStays(s, u, s');
    } else if CommitLock(s, u, s') {
      assert s'.wanted == s.wanted[u := s.endedOps];
    } else {
      assert s'.wanted == s.wanted - {u};
    }
  }

  lemma InsideStays(s: State, u: nat, s': State)
    requires AddBlock(s, u, s') || EndCount(s, u, s') || EndLeave(s, u, s')
    ensures s'.wanted == s.wanted && s'.durable == s.durable && s.endedOps <= s'.endedOps
  {
  }

  lemma RunStays(s: State, u: nat, s': State)
    requires RunStart(s, u, s') || RunFinish(s, u, s')
    ensures s'.wanted == s.wanted && s'.endedOps == s.endedOps
  {
  }

  lemma MovedStays(s: State, u: nat, s': State)
    requires Moved(s, u, s') || Enters(s, u, s')
    ensures s'.wanted == s.wanted && s'.durable == s.durable && s'.endedOps == s.endedOps
  {
  }

  /** Until a commit() call of t's starts or returns, what t's call must cover stays. */
  lemma WantedStays(s: State, u: nat, s': State, t: nat)
    requires Kind(s, u, s') && t in s.wanted
    requires u == t ==> !CommitLock(s, u, s') && !Returns(s, u, s')
    ensures t in s'.wanted && s'.wanted[t] == s.wanted[t]
  {
    if Moved(s, u, s') || Enters(s, u, s') {
      MovedStays(s, u, s');
    } else {
      OthersStay(s, u, s', t);
    }
  }

  /** t is in a commit() call that has read ended_. */
  ghost predicate InCall(s: State, t: nat) {
    t in s.pc && Target(s.pc[t]) >= 0
  }

  /** At step j t's commit() reads ended_, and at step i that call returns. */
  ghost predicate CommitCalled(states: seq<State>, threads: seq<nat>, t: nat, j: nat, i: nat)
    requires |states| == |threads| + 1
  {
    && j < i < |threads| && !InCall(states[j], t) && !InCall(states[i + 1], t)
    && forall k :: j < k <= i ==> InCall(states[k], t)
  }

  // A call begins and ends with just these two steps.

  /** Thread u alone has moved, and is in a call if it was. */
  ghost predicate StaysInCall(s: State, u: nat, s': State) {
    && u in s.pc && u in s'.pc && s'.pc == s.pc[u := s'.pc[u]]
    && (Target(s.pc[u]) >= 0 <==> Target(s'.pc[u]) >= 0)
  }

  lemma BeginStays(s: State, max: nat, u: nat, spurious: bool, s': State)
    requires BeginLoad(s, u, s') || BeginCheck(s, max, u, s') || BeginSwap(s, u, spurious, s') || BeginLock(s, u, s')
             || BeginLook(s, u, s') || BeginAdd(s, u, s')
    ensures StaysInCall(s, u, s')
  {
    if BeginLoad(s, u, s') || BeginCheck(s, max, u, s') {
      BeginStaysFast(s, max, u, spurious, s');
    } else if BeginLock(s, u, s') || BeginLook(s, u, s') {
      BeginStaysSlow(s, max, u, spurious, s');
    } else {
      BeginStaysIn(s, max, u, spurious, s');
    }
  }

  lemma BeginStaysFast(s: State, max: nat, u: nat, spurious: bool, s': State)
    requires BeginLoad(s, u, s') || BeginCheck(s, max, u, s')
    ensures StaysInCall(s, u, s')
  {
  }

  lemma BeginStaysSlow(s: State, max: nat, u: nat, spurious: bool, s': State)
    requires BeginLock(s, u, s') || BeginLook(s, u, s')
    ensures StaysInCall(s, u, s')
  {
  }

  lemma BeginStaysIn(s: State, max: nat, u: nat, spurious: bool, s': State)
    requires BeginSwap(s, u, spurious, s') || BeginAdd(s, u, s')
    ensures StaysInCall(s, u, s')
  {
  }

  lemma BeginRestStays(s: State, max: nat, u: nat, s': State)
    requires BeginRead(s, u, s') || BeginDecide(s, max, u, s') || BeginClose(s, u, s')
    ensures StaysInCall(s, u, s')
  {
  }

  lemma EndStays(s: State, max: nat, u: nat, s': State)
    requires AddBlock(s, u, s') || EndCount(s, u, s') || EndLeave(s, u, s') || EndCheck(s, max, u, s')
             || EndLock(s, u, s') || EndDecide(s, max, u, s') || Unlock(s, u, s')
    ensures StaysInCall(s, u, s')
  {
    if AddBlock(s, u, s') || EndCount(s, u, s') || EndLeave(s, u, s') {
      EndStaysIn(s, max, u, s');
    } else if EndCheck(s, max, u, s') || EndLock(s, u, s') {
      EndStaysFast(s, max, u, s');
    } else {
      EndStaysSlow(s, max, u, s');
    }
  }

  lemma EndStaysIn(s: State, max: nat, u: nat, s': State)
    requires AddBlock(s, u, s') || EndCount(s, u, s') || EndLeave(s, u, s')
    ensures StaysInCall(s, u, s')
  {
  }

  lemma EndStaysFast(s: State, max: nat, u: nat, s': State)
    requires EndCheck(s, max, u, s') || EndLock(s, u, s')
    ensures StaysInCall(s, u, s')
  {
  }

  lemma EndStaysSlow(s: State, max: nat, u: nat, s': State)
    requires EndDecide(s, max, u, s') || Unlock(s, u, s')
    ensures StaysInCall(s, u, s')
  {
  }

  lemma CallsStay(s: State, u: nat, young: bool, s': State)
    requires CallCommit(s, u, s') || CallCheckpoint(s, u, s') || CallFlusher(s, u, s') || FlusherLock(s, u, s')
             || FlusherDecide(s, u, young, s') || CheckpointLock(s, u, s')
    ensures StaysInCall(s, u, s')
  {
    if CallCommit(s, u, s') {
      CallsStayCommit(s, u, young, s');
    } else if CallCheckpoint(s, u, s') || CheckpointLock(s, u, s') {
      CallsStayCheckpoint(s, u, young, s');
    } else if CallFlusher(s, u, s') || FlusherLock(s, u, s') {
      CallsStayFlusher(s, u, young, s');
    } else {
      CallsStayDecide(s, u, young, s');
    }
  }

  lemma CallsStayCommit(s: State, u: nat, young: bool, s': State)
    requires CallCommit(s, u, s')
    ensures StaysInCall(s, u, s')
  {
  }

  lemma CallsStayCheckpoint(s: State, u: nat, young: bool, s': State)
    requires CallCheckpoint(s, u, s') || CheckpointLock(s, u, s')
    ensures StaysInCall(s, u, s')
  {
  }

  lemma CallsStayFlusher(s: State, u: nat, young: bool, s': State)
    requires CallFlusher(s, u, s') || FlusherLock(s, u, s')
    ensures StaysInCall(s, u, s')
  {
  }

  lemma CallsStayDecide(s: State, u: nat, young: bool, s': State)
    requires FlusherDecide(s, u, young, s')
    ensures StaysInCall(s, u, s')
  {
  }

  lemma LoopsStay(s: State, u: nat, s': State)
    requires CheckpointLoop(s, u, s') || (CommitLoop(s, u, s') && !Returns(s, u, s'))
    ensures StaysInCall(s, u, s')
  {
    if CheckpointLoop(s, u, s') {
      LoopsStayCheckpoint(s, u, s');
    } else {
      LoopsStayCommit(s, u, s');
    }
  }

  lemma LoopsStayCheckpoint(s: State, u: nat, s': State)
    requires CheckpointLoop(s, u, s')
    ensures StaysInCall(s, u, s')
  {
  }

  lemma LoopsStayCommit(s: State, u: nat, s': State)
    requires (CommitLoop(s, u, s') && !Returns(s, u, s'))
    ensures StaysInCall(s, u, s')
  {
  }

  lemma RunsStay(s: State, u: nat, long: bool, s': State)
    requires RunClose(s, u, s') || RunRefuse(s, u, s') || RunStart(s, u, s') || RunRelock(s, u, long, s')
             || Wake(s, u, s')
    ensures StaysInCall(s, u, s')
  {
    if RunClose(s, u, s') || RunRefuse(s, u, s') {
      RunsStayClosed(s, u, long, s');
    } else if RunStart(s, u, s') || RunRelock(s, u, long, s') {
      RunsStayStart(s, u, long, s');
    } else {
      RunsStayWoken(s, u, long, s');
    }
  }

  lemma RunsStayClosed(s: State, u: nat, long: bool, s': State)
    requires RunClose(s, u, s') || RunRefuse(s, u, s')
    ensures StaysInCall(s, u, s')
  {
  }

  lemma RunsStayStart(s: State, u: nat, long: bool, s': State)
    requires RunStart(s, u, s') || RunRelock(s, u, long, s')
    ensures StaysInCall(s, u, s')
  {
  }

  lemma RunsStayWoken(s: State, u: nat, long: bool, s': State)
    requires Wake(s, u, s')
    ensures StaysInCall(s, u, s')
  {
  }

  /** Those told that a commit is over are in the calls they were in. */
  lemma FinishStays(s: State, u: nat, s': State, t: nat)
    requires RunFinish(s, u, s')
    ensures InCall(s, t) <==> InCall(s', t)
  {
    if t in s.pc && t != u {
      assert s'.pc[t] == Notified(s.pc)[t];
    }
  }

  lemma StepInCall(s: State, max: nat, u: nat, s': State, t: nat)
    requires Took(s, max, u, s') && !CommitLock(s, u, s') && !Returns(s, u, s')
    ensures InCall(s, t) <==> InCall(s', t)
  {
    assert Next(s, max, u, s');
    if RunFinish(s, u, s') {
      FinishStays(s, u, s', t);
    } else {
      assert StaysInCall(s, u, s') by {
        OwnMoveStays(s, max, u, s');
      }
    }
  }

  lemma OwnMoveStays(s: State, max: nat, u: nat, s': State)
    requires Next(s, max, u, s') && !CommitLock(s, u, s') && !Returns(s, u, s') && !RunFinish(s, u, s')
    ensures StaysInCall(s, u, s')
  {
    if spurious :| BeginSwap(s, u, spurious, s') {
      BeginStays(s, max, u, spurious, s');
    } else if young :| FlusherDecide(s, u, young, s') {
      CallsStay(s, u, young, s');
    } else if long :| RunRelock(s, u, long, s') {
      RunsStay(s, u, long, s');
    } else if RunClose(s, u, s') || RunRefuse(s, u, s') || RunStart(s, u, s') || Wake(s, u, s') {
      RunsStay(s, u, false, s');
    } else if CommitLoop(s, u, s') || CheckpointLoop(s, u, s') {
      LoopsStay(s, u, s');
    } else if BeginLoad(s, u, s') || BeginCheck(s, max, u, s') || BeginLock(s, u, s') || BeginLook(s, u, s')
              || BeginAdd(s, u, s') {
      BeginStays(s, max, u, false, s');
    } else if BeginRead(s, u, s') || BeginDecide(s, max, u, s') || BeginClose(s, u, s') {
      BeginRestStays(s, max, u, s');
    } else if CallCommit(s, u, s') || CallCheckpoint(s, u, s') || CallFlusher(s, u, s') || FlusherLock(s, u, s')
              || CheckpointLock(s, u, s') {
      CallsStay(s, u, false, s');
    } else {
      EndStays(s, max, u, s');
    }
  }

  /** A call's first step and its last; another thread's step is neither. */
  lemma EdgeIs(s: State, u: nat, s': State, t: nat)
    requires CommitLock(s, u, s') || Returns(s, u, s')
    ensures t != u ==> (InCall(s, t) <==> InCall(s', t))
    ensures CommitLock(s, u, s') ==> !InCall(s, u) && InCall(s', u)
    ensures Returns(s, u, s') ==> InCall(s, u) && !InCall(s', u)
  {
  }

  lemma CallBegins(s: State, max: nat, u: nat, s': State, t: nat)
    requires Took(s, max, u, s') && !InCall(s, t) && InCall(s', t)
    ensures u == t && CommitLock(s, t, s')
  {
    if CommitLock(s, u, s') || Returns(s, u, s') {
      EdgeIs(s, u, s', t);
    } else {
      StepInCall(s, max, u, s', t);
    }
  }

  lemma CallEnds(s: State, max: nat, u: nat, s': State, t: nat)
    requires Took(s, max, u, s') && InCall(s, t) && !InCall(s', t)
    ensures u == t && Returns(s, t, s')
  {
    if CommitLock(s, u, s') || Returns(s, u, s') {
      EdgeIs(s, u, s', t);
    } else {
      StepInCall(s, max, u, s', t);
    }
  }

  lemma InCallNoEdge(states: seq<State>, threads: seq<nat>, t: nat, k: nat)
    requires |states| == |threads| + 1 && k < |threads| && InCall(states[k], t) && InCall(states[k + 1], t)
    ensures k !in CallEdges(states, threads, t)
  {
    if threads[k] == t && CallEdge(states[k], t, states[k + 1]) {
      EdgeIs(states[k], t, states[k + 1], t);
    }
  }

  /** The steps where a commit() call of t's reads ended_ or returns. */
  ghost function CallEdges(states: seq<State>, threads: seq<nat>, t: nat): set<int>
    requires |states| == |threads| + 1
  {
    set k | 0 <= k < |threads| && threads[k] == t
            && CallEdge(states[k], t, states[k + 1])
  }

  /** Folded, as Took is. */
  ghost predicate CallEdge(s: State, t: nat, s': State) {
    forall r :: r == s' ==> CommitLock(s, t, r) || Returns(s, t, r)
  }

  lemma StepStays(s: State, max: nat, u: nat, s': State, t: nat)
    requires Good(s) && Took(s, max, u, s')
    ensures s.durable <= s'.durable
    ensures t in s.wanted ==>
              || (u == t && CallEdge(s, u, s'))
              || (t in s'.wanted && s'.wanted[t] == s.wanted[t])
  {
    KeepNext(s, max, u, s');
    FactsAt(s, u);
    DurableGrows(s, u, s');
    if t in s.wanted && (u == t ==> !CommitLock(s, u, s') && !Returns(s, u, s')) {
      WantedStays(s, u, s', t);
    }
  }

  /** t's call must cover these operations. */
  ghost predicate Owes(s: State, t: nat, ops: set<nat>) {
    t in s.wanted && s.wanted[t] == ops
  }

  lemma StepOwes(states: seq<State>, max: nat, threads: seq<nat>, t: nat, ops: set<nat>, k: nat)
    requires Run(states, max, threads) && k < |threads| && Owes(states[k], t, ops)
    requires k !in CallEdges(states, threads, t)
    ensures Owes(states[k + 1], t, ops)
  {
    StepOf(states, max, threads, k);
    StepStays(states[k], max, threads[k], states[k + 1], t);
    NoEdge(states, threads, t, k);
  }

  lemma NoEdge(states: seq<State>, threads: seq<nat>, t: nat, k: nat)
    requires |states| == |threads| + 1 && k < |threads| && k !in CallEdges(states, threads, t)
    ensures !(threads[k] == t && CallEdge(states[k], t, states[k + 1]))
  {
  }

  lemma {:induction false} OwesThrough(states: seq<State>, max: nat, threads: seq<nat>, t: nat, ops: set<nat>, j: nat,
      i: nat)
    requires Run(states, max, threads) && j < i < |threads|
    requires forall k :: j < k < i ==> k !in CallEdges(states, threads, t)
    requires Owes(states[j + 1], t, ops)
    ensures Owes(states[i], t, ops)
  {
    if i > j + 1 {
      OwesThrough(states, max, threads, t, ops, j, i - 1);
      StepOwes(states, max, threads, t, ops, i - 1);
    }
  }

  /** Run, folded. */
  ghost predicate Ran(states: seq<State>, max: nat, threads: seq<nat>) {
    forall t :: t == threads ==> Run(states, max, t)
  }

  lemma DurableForGood(states: seq<State>, max: nat, threads: seq<nat>, i: nat, k: nat)
    requires Run(states, max, threads) && i <= k < |states|
    ensures states[i].durable <= states[k].durable
  {
    assert Ran(states, max, threads);
    AllGrows(states, max, threads, i, k);
  }

  lemma {:induction false} AllGrows(states: seq<State>, max: nat, threads: seq<nat>, i: nat, k: nat)
    requires Ran(states, max, threads) && |states| == |threads| + 1 && i <= k < |states|
    ensures states[i].durable <= states[k].durable && states[i].endedOps <= states[k].endedOps
  {
    if i < k {
      AllGrows(states, max, threads, i, k - 1);
      StepGrows(states, max, threads, k - 1);
    }
  }

  lemma StepGrows(states: seq<State>, max: nat, threads: seq<nat>, k: nat)
    requires Ran(states, max, threads) && |states| == |threads| + 1 && k < |threads|
    ensures states[k].durable <= states[k + 1].durable && states[k].endedOps <= states[k + 1].endedOps
  {
    StepOf(states, max, threads, k);
    StepStays(states[k], max, threads[k], states[k + 1], 0);
    KeepTook(states[k], max, threads[k], states[k + 1]);
    EndedGrows(states[k], threads[k], states[k + 1]);
  }

  /** What a returning call was to cover is durable. */
  lemma ReturnKeepsPromise(s: State, t: nat, s': State)
    requires Good(s) && Returns(s, t, s')
    ensures s.wanted[t] <= s.durable
  {
    assert Inv(s);
    assert ThreadOpOk(s, t, s.pc[t]);
    Covered(s.wanted[t], s.durable, s.committedThrough);
  }

  /** What has ended has ended for good. */
  lemma EndedGrows(s: State, t: nat, s': State)
    requires Kind(s, t, s')
    ensures s.endedOps <= s'.endedOps
  {
    if Moved(s, t, s') || Enters(s, t, s') {
      MovedStays(s, t, s');
    } else if RunStart(s, t, s') || RunFinish(s, t, s') {
      RunStays(s, t, s');
    } else if CommitLock(s, t, s') || Returns(s, t, s') {
      assert s'.endedOps == s.endedOps;
    } else {
      InsideStays(s, t, s');
    }
  }

  lemma EndedForGood(states: seq<State>, max: nat, threads: seq<nat>, i: nat, k: nat)
    requires Run(states, max, threads) && i <= k < |states|
    ensures states[i].endedOps <= states[k].endedOps
  {
    assert Ran(states, max, threads);
    AllGrows(states, max, threads, i, k);
  }

  lemma KeepTook(s: State, max: nat, t: nat, s': State)
    requires Good(s) && Took(s, max, t, s')
    ensures Kind(s, t, s')
  {
    KeepNext(s, max, t, s');
  }

  /**
   When commit() returns, every operation that had ended by the time it read ended_, and so every one that had ended
   when it was called, is held by a finished commit, and stays so.
   */
  lemma FsyncGuarantee(states: seq<State>, max: nat, threads: seq<nat>, t: nat, c: nat, j: nat, i: nat, k: nat)
    requires Run(states, max, threads) && CommitCalled(states, threads, t, j, i) && c <= j && i <= k < |states|
    ensures states[c].endedOps <= states[k].durable
  {
    EndedForGood(states, max, threads, c, j);
    StepOf(states, max, threads, j);
    CallBegins(states[j], max, threads[j], states[j + 1], t);
    forall m | j < m < i ensures m !in CallEdges(states, threads, t) {
      InCallNoEdge(states, threads, t, m);
    }
    OwesThrough(states, max, threads, t, states[j].endedOps, j, i);
    StepOf(states, max, threads, i);
    CallEnds(states[i], max, threads[i], states[i + 1], t);
    ReturnKeepsPromise(states[i], t, states[i + 1]);
    DurableForGood(states, max, threads, i, k);
  }

  // ------------------------------------------------------ no lost wake-up

  /** A thread that is going to close the books: it holds the mutex and is in run_commit. */
  ghost predicate SomeRescuer(s: State) {
    exists t :: t in s.pc && Rescuer(s.pc[t]) && s.mutex == Some(t)
  }

  ghost predicate SomeInside(s: State) {
    exists t :: t in s.pc && Inside(s.pc[t])
  }

  ghost predicate SomeLeaving(s: State) {
    exists t :: t in s.pc && LastOut(s.pc[t])
  }

  /**
   A closed gate with no commit running is about to get one: from a thread that
   holds the mutex, or, asked for, from the last operation out.
   */
  lemma NoLostWakeup(states: seq<State>, max: nat, threads: seq<nat>, i: nat)
    requires Run(states, max, threads) && i < |states|
    ensures var s := states[i];
            s.closed && !s.committing ==> SomeRescuer(s) || (s.commitRequested && (SomeInside(s) || SomeLeaving(s)))
    ensures var s := states[i]; forall t :: t in s.pc && s.pc[t].Waiting? ==> s.closed
  {
    RunKeeps(states, max, threads, i);
    var s := states[i];
    forall t | t in s.pc ensures PlaceOk(s, t, s.pc[t]) && GateOk(s, t, s.pc[t]) {
    }
    if t :| t in s.inside {
      assert Inside(s.pc[t]);
    }
    if t :| t in s.leaving {
      assert LastOut(s.pc[t]);
    }
  }

  // ------------------------------------------------------------- progress

  ghost predicate CanStep(s: State, max: nat, t: nat) {
    exists s' :: Next(s, max, t, s')
  }

  lemma HolderStepsSlow(s: State, max: nat, t: nat)
    requires t in s.pc && (LastOut(s.pc[t]) || s.pc[t].BeginSlowIn? || s.pc[t].Returning? || s.pc[t].FlusherIn?)
    requires s.pc[t].EndSlow? ==> s.mutex == None
    ensures CanStep(s, max, t)
  {
    match s.pc[t]
    case EndSlow =>
      var s' := Go(s, t, EndSlowIn);
      assert EndLock(s, t, s') && Next(s, max, t, s');
    case EndSlowIn =>
      var p := if s.committing || s.running != 0 then Returning
               else if s.commitRequested || s.checkpointRequested || s.txn > max then RunCommit(FromEnd) else Returning;
      var s' := Go(s, t, p);
      assert EndDecide(s, max, t, s') && Next(s, max, t, s');
    case BeginSlowIn =>
      var s' := Go(s, t, if s.committing then Waiting(FromBegin) else BeginSlowLoaded);
      assert BeginLook(s, t, s') && Next(s, max, t, s');
    case Returning =>
      var s' := Go(s, t, Idle);
      assert Unlock(s, t, s') && Next(s, max, t, s');
    case FlusherIn =>
      var s' := Go(s, t, Returning);
      assert FlusherDecide(s, t, true, s') && Next(s, max, t, s');
  }

  lemma HolderStepsBegin(s: State, max: nat, t: nat)
    requires t in s.pc
    requires s.pc[t].BeginSlowLoaded? || s.pc[t].BeginSlowRead? || s.pc[t].BeginSlowFits? || s.pc[t].BeginSlowFull?
    ensures CanStep(s, max, t)
  {
    match s.pc[t]
    case BeginSlowLoaded =>
      var s' := Go(s, t, if s.closed then RunCommit(FromBegin) else BeginSlowRead(s.running));
      assert BeginRead(s, t, s') && Next(s, max, t, s');
    case BeginSlowRead(running) =>
      var full := !Fits(s.txn, running, max);
      var s' := Go(s, t, if full then BeginSlowFull else BeginSlowFits).(commitRequested := s.commitRequested || full);
      assert BeginDecide(s, max, t, s') && Next(s, max, t, s');
    case BeginSlowFits =>
      var s' := Enter(s, t);
      assert BeginAdd(s, t, s') && Next(s, max, t, s');
    case BeginSlowFull =>
      var s' := Go(s, t, RunCommit(FromBegin)).(closed := true);
      assert BeginClose(s, t, s') && Next(s, max, t, s');
  }

  lemma HolderStepsLoops(s: State, max: nat, t: nat)
    requires t in s.pc && (s.pc[t].CommitIn? || s.pc[t].CheckpointIn?)
    requires s.pc[t].CommitIn? ==> t in s.wanted
    ensures CanStep(s, max, t)
  {
    if s.pc[t].CommitIn? {
      var c := FromCommit(s.pc[t].target);
      var s' := if s.committedThrough >= s.pc[t].target
                then Go(s, t, Returning).(promised := s.promised + s.wanted[t], wanted := s.wanted - {t})
                else Go(s, t, if s.committing then Waiting(c) else RunCommit(c));
      assert CommitLoop(s, t, s');
      assert Next(s, max, t, s');
    } else {
      var c := FromCheckpoint(s.pc[t].target);
      var s' := if s.checkpointsDone >= s.pc[t].target then Go(s, t, Returning)
                else if s.committing then Go(s, t, Waiting(c))
                    else Go(s, t, RunCommit(c)).(checkpointRequested := true);
      assert CheckpointLoop(s, t, s');
      assert Next(s, max, t, s');
    }
  }

  lemma HolderStepsRun(s: State, max: nat, t: nat)
    requires t in s.pc && Rescuer(s.pc[t])
    ensures CanStep(s, max, t)
  {
    match s.pc[t]
    case RunCommit(c) =>
      var s' := Go(s, t, if s.running != 0 then Refused(c) else Starting(c)).(closed := true);
      assert RunClose(s, t, s') && Next(s, max, t, s');
    case Refused(c) =>
      var s' := Go(s, t, if c.FromEnd? || c.FromFlusher? then Returning else Waiting(c)).(commitRequested := true);
      assert RunRefuse(s, t, s') && Next(s, max, t, s');
    case Starting(c) =>
      var s' := Go(s, t, Committing(c, s.ended, s.checkpointRequested))
        .(committing := true, commitRequested := false, checkpointRequested := false, txn := 0, held := s.endedOps);
      assert RunStart(s, t, s') && Next(s, max, t, s');
  }

  lemma RunIsStep(s: State, max: nat, t: nat, s': State)
    requires RunRelock(s, t, true, s') || RunFinish(s, t, s')
    ensures CanStep(s, max, t)
  {
    assert Next(s, max, t, s');
  }

  lemma CommitterSteps(s: State, max: nat, t: nat)
    requires t in s.pc && Busy(s.pc[t]) && (s.pc[t].Committing? ==> s.mutex == None)
    ensures CanStep(s, max, t)
  {
    match s.pc[t]
    case Committing(c, covered, checkpoint) =>
      var s' := Go(s, t, Finishing(c, covered, checkpoint || true));
      assert RunRelock(s, t, true, s');
      RunIsStep(s, max, t, s');
    case Finishing(c, covered, checkpoint) =>
      var told := s.(committing := false, committedThrough := covered, closed := false,
                     checkpointsDone := s.checkpointsDone + (if checkpoint then 1 else 0),
                     durable := s.held, pc := Notified(s.pc));
      var s' := Go(told, t, AfterCommit(c));
      assert RunFinish(s, t, s');
      RunIsStep(s, max, t, s');
  }

  lemma EndIsStep(s: State, max: nat, t: nat, s': State)
    requires EndCount(s, t, s') || EndLeave(s, t, s')
    ensures CanStep(s, max, t)
  {
    assert Next(s, max, t, s');
  }

  lemma InsiderSteps(s: State, max: nat, t: nat)
    requires t in s.pc && Inside(s.pc[t]) && s.running > 0
    ensures CanStep(s, max, t)
  {
    match s.pc[t]
    case InOp(op) =>
      var s' := Go(s, t, Counted(op)).(ended := s.ended + 1, endedOps := s.endedOps + {op}, owner := s.owner - {op});
      assert EndCount(s, t, s');
      EndIsStep(s, max, t, s');
    case Counted(_) =>
      var s' := Go(s, t, if s.running != 1 then Idle else if s.closed then EndSlow
          else EndChecks).(running := s.running - 1);
      assert EndLeave(s, t, s');
      EndIsStep(s, max, t, s');
  }

  /** Whoever holds the mutex can take its next step. */
  lemma HolderSteps(s: State, max: nat, t: nat)
    requires t in s.pc && Holds(s.pc[t]) && (s.pc[t].CommitIn? ==> t in s.wanted)
    ensures CanStep(s, max, t)
  {
    var p := s.pc[t];
    if p.CommitIn? || p.CheckpointIn? {
      HolderStepsLoops(s, max, t);
    } else if p.BeginSlowLoaded? || p.BeginSlowRead? || p.BeginSlowFits? || p.BeginSlowFull? {
      HolderStepsBegin(s, max, t);
    } else if Rescuer(p) {
      HolderStepsRun(s, max, t);
    } else if Busy(p) {
      CommitterSteps(s, max, t);
    } else {
      HolderStepsSlow(s, max, t);
    }
  }

  /** No deadlock: while a thread waits, some thread that neither waits nor is idle can move. */
  lemma NoDeadlock(states: seq<State>, max: nat, threads: seq<nat>, i: nat, w: nat)
    requires Run(states, max, threads) && i < |states| && w in states[i].pc && states[i].pc[w].Waiting?
    ensures var s := states[i];
            exists t :: t in s.pc && !s.pc[t].Waiting? && !s.pc[t].Idle? && CanStep(s, max, t)
  {
    RunKeeps(states, max, threads, i);
    NoLostWakeup(states, max, threads, i);
    SomeoneSteps(states[i], max, w);
  }

  lemma SomeoneSteps(s: State, max: nat, w: nat)
    requires Good(s) && w in s.pc && s.pc[w].Waiting?
    ensures exists t :: t in s.pc && !s.pc[t].Waiting? && !s.pc[t].Idle? && CanStep(s, max, t)
  {
    assert Inv(s);
    assert GateOk(s, w, s.pc[w]);
    var t := if s.mutex.Some? then s.mutex.value else if s.committing then s.committer.value
             else if s.running > 0 then Some1(s.inside) else Some1(s.leaving);
    assert PlaceOk(s, t, s.pc[t]) && ThreadOpOk(s, t, s.pc[t]);
    if s.mutex.Some? {
      HolderSteps(s, max, t);
    } else if s.committing {
      CommitterSteps(s, max, t);
    } else if s.running > 0 {
      InsiderSteps(s, max, t);
    } else {
      HolderStepsSlow(s, max, t);
    }
  }

  ghost function Some1(threads: set<nat>): (t: nat)
    requires threads != {}
    ensures t in threads
  {
    var t :| t in threads;
    t
  }
}
