/**
 How large a transaction grows: what begin_op checks, and what may happen between its
 check and its entry. The fast path and the slow one are alike here: both look at the
 count of blocks and of running operations first, and enter later.
 */
module GateSize {
  import opened OpLimit

  datatype Stage = Idle | Loaded(running: nat) | Cleared(running: nat) | InOp(used: nat)

  /** One stage for each thread. */
  datatype State = State(txn: nat, running: nat, stage: seq<Stage>)

  predicate Is(s: State, t: nat) { t < |s.stage| }

  predicate Load(s: State, t: nat, s': State) {
    Is(s, t) && !s.stage[t].InOp? && s' == s.(stage := s.stage[t := Loaded(s.running)])
  }

  predicate Check(s: State, max: nat, t: nat, s': State) {
    && Is(s, t) && s.stage[t].Loaded? && Fits(s.txn, s.stage[t].running, max)
    && s' == s.(stage := s.stage[t := Cleared(s.stage[t].running)])
  }

  /** The compare-and-swap succeeds: as many operations are running as when it looked. */
  predicate Swap(s: State, t: nat, s': State) {
    Is(s, t) && s.stage[t] == Cleared(s.running) && Enter(s, t, s')
  }

  /** The slow path adds itself whatever the count has become. */
  predicate SlowAdd(s: State, t: nat, s': State) {
    Is(s, t) && s.stage[t].Cleared? && Enter(s, t, s')
  }

  predicate Enter(s: State, t: nat, s': State)
    requires Is(s, t)
  {
    s' == s.(running := s.running + 1, stage := s.stage[t := InOp(0)])
  }

  /** One more block joins; no operation writes more than MAX_OP_BLOCKS. */
  predicate AddBlock(s: State, t: nat, s': State) {
    && Is(s, t) && s.stage[t].InOp? && s.stage[t].used < MAX_OP_BLOCKS
    && s' == s.(txn := s.txn + 1, stage := s.stage[t := InOp(s.stage[t].used + 1)])
  }

  predicate End(s: State, t: nat, s': State) {
    && Is(s, t) && s.stage[t].InOp? && s.running > 0
    && s' == s.(running := s.running - 1, stage := s.stage[t := Idle])
  }

  predicate Commit(s: State, s': State) {
    s.running == 0 && s' == s.(txn := 0)
  }

  predicate Next(s: State, max: nat, t: nat, s': State) {
    || Load(s, t, s') || Check(s, max, t, s') || Swap(s, t, s') || SlowAdd(s, t, s')
    || AddBlock(s, t, s') || End(s, t, s') || Commit(s, s')
  }

  predicate Init(s: State) {
    s.txn == 0 && s.running == 0 && forall t :: 0 <= t < |s.stage| ==> s.stage[t] == Idle
  }

  predicate StepAt(states: seq<State>, max: nat, threads: seq<nat>, i: nat)
    requires |states| == |threads| + 1 && i < |threads|
  {
    Next(states[i], max, threads[i], states[i + 1])
  }

  predicate Run(states: seq<State>, max: nat, threads: seq<nat>) {
    && |states| == |threads| + 1 && Init(states[0])
    && forall i: nat :: i < |threads| ==> StepAt(states, max, threads, i)
  }

  // -------------------------------------------------------------- what is left

  /** How much one thread may still add: `pledged`, what its check let it count on. */
  function Weight(p: Stage, pledged: nat): nat {
    match p
    case InOp(used) => if used < MAX_OP_BLOCKS then MAX_OP_BLOCKS - used else 0
    case Cleared(_) => pledged
    case _ => 0
  }

  function Left(stage: seq<Stage>, pledged: nat): nat {
    if stage == [] then 0 else Left(stage[..|stage| - 1], pledged) + Weight(stage[|stage| - 1], pledged)
  }

  function Running(stage: seq<Stage>): nat {
    if stage == [] then 0 else Running(stage[..|stage| - 1]) + if stage[|stage| - 1].InOp? then 1 else 0
  }

  lemma {:induction false} Replaced(stage: seq<Stage>, t: nat, p: Stage, pledged: nat)
    requires t < |stage|
    ensures Left(stage[t := p], pledged) == Left(stage, pledged) - Weight(stage[t], pledged) + Weight(p, pledged)
    ensures Running(stage[t := p]) == Running(stage) - (if stage[t].InOp? then 1 else 0) + if p.InOp? then 1 else 0
    ensures Running(stage) >= if stage[t].InOp? then 1 else 0
  {
    var n := |stage| - 1;
    if t < n {
      assert stage[t := p][..n] == stage[..n][t := p];
      Replaced(stage[..n], t, p, pledged);
    } else {
      assert stage[t := p][..n] == stage[..n];
    }
  }

  /** At most MAX_OP_BLOCKS for each operation, and nothing for the rest if nothing is pledged. */
  lemma {:induction false} LeftAtMost(stage: seq<Stage>)
    ensures Left(stage, 0) <= Running(stage) * MAX_OP_BLOCKS
    ensures Left(stage, MAX_OP_BLOCKS) <= |stage| * MAX_OP_BLOCKS
  {
    if stage != [] {
      LeftAtMost(stage[..|stage| - 1]);
    }
  }

  lemma {:induction false} NothingLeft(stage: seq<Stage>, pledged: nat)
    requires forall t :: 0 <= t < |stage| ==> stage[t] == Idle
    ensures Left(stage, pledged) == 0 && Running(stage) == 0
  {
    if stage != [] {
      NothingLeft(stage[..|stage| - 1], pledged);
    }
  }

  // -------------------------------------------------- when each entry fits as it is made

  predicate Entered(s: State, s': State) { s'.running > s.running }

  /** The entries that still fitted when they were made: all of them, were check and entry one step. */
  predicate FitsAt(states: seq<State>, max: nat, i: nat)
    requires i + 1 < |states|
  {
    Entered(states[i], states[i + 1]) ==> Fits(states[i].txn, states[i].running, max)
  }

  predicate Room(s: State, max: nat) {
    s.txn + Left(s.stage, 0) <= max && s.running == Running(s.stage)
  }

  lemma StepRoom(s: State, max: nat, t: nat, s': State)
    requires MAX_OP_BLOCKS <= max && Room(s, max) && Next(s, max, t, s')
    requires Entered(s, s') ==> Fits(s.txn, s.running, max)
    ensures Room(s', max)
  {
    if !Commit(s, s') {
      Replaced(s.stage, t, s'.stage[t], 0);
    }
    LeftAtMost(s.stage);
  }

  /** No transaction is larger than the limit, provided no entry is made that no longer fits. */
  lemma {:induction false} WithinLimit(states: seq<State>, max: nat, threads: seq<nat>, i: nat)
    requires MAX_OP_BLOCKS <= max && Run(states, max, threads) && i < |states|
    requires forall k: nat :: k < i ==> FitsAt(states, max, k)
    ensures states[i].txn <= max && Room(states[i], max)
  {
    if i == 0 {
      NothingLeft(states[0].stage, 0);
    } else {
      WithinLimit(states, max, threads, i - 1);
      assert StepAt(states, max, threads, i - 1) && FitsAt(states, max, i - 1);
      StepRoom(states[i - 1], max, threads[i - 1], states[i]);
    }
  }

  // ---------------------------------------------------------- whatever the threads do

  predicate Pledged(s: State, max: nat) {
    s.txn + Left(s.stage, MAX_OP_BLOCKS) <= max + (|s.stage| - 1) * MAX_OP_BLOCKS
  }

  lemma StepPledged(s: State, max: nat, t: nat, s': State)
    requires MAX_OP_BLOCKS <= max && Pledged(s, max) && Next(s, max, t, s') && |s.stage| > 0
    ensures Pledged(s', max)
  {
    if !Commit(s, s') {
      Replaced(s.stage, t, s'.stage[t], MAX_OP_BLOCKS);
      if Check(s, max, t, s') {
        Others(s.stage, t);
      }
    }
  }

  /** What the other threads may add, when this one may add nothing. */
  lemma Others(stage: seq<Stage>, t: nat)
    requires t < |stage| && Weight(stage[t], MAX_OP_BLOCKS) == 0
    ensures Left(stage, MAX_OP_BLOCKS) <= (|stage| - 1) * MAX_OP_BLOCKS
  {
    Replaced(stage, t, InOp(0), MAX_OP_BLOCKS);
    LeftAtMost(stage[t := InOp(0)]);
  }

  /** However check and entry interleave, the excess is at most one operation's worth for every other thread. */
  lemma {:induction false} ExcessBounded(states: seq<State>, max: nat, threads: seq<nat>, i: nat)
    requires MAX_OP_BLOCKS <= max && Run(states, max, threads) && i < |states| && |states[0].stage| > 0
    ensures |states[i].stage| == |states[0].stage| && Pledged(states[i], max)
    ensures states[i].txn <= max + (|states[0].stage| - 1) * MAX_OP_BLOCKS
  {
    if i == 0 {
      NothingLeft(states[0].stage, MAX_OP_BLOCKS);
    } else {
      ExcessBounded(states, max, threads, i - 1);
      assert StepAt(states, max, threads, i - 1);
      StepPledged(states[i - 1], max, threads[i - 1], states[i]);
    }
  }

  // ------------------------------------------------- from a state, with no more entries

  predicate WritesAt(states: seq<State>, threads: seq<nat>, i: nat)
    requires |states| == |threads| + 1 && i < |threads|
  {
    AddBlock(states[i], threads[i], states[i + 1])
  }

  /** The running operations write, and nothing else happens. */
  predicate Writes(s: State, states: seq<State>, threads: seq<nat>) {
    |states| == |threads| + 1 && states[0] == s && forall i: nat :: i < |threads| ==> WritesAt(states, threads, i)
  }

  lemma {:induction false} WritesUse(s: State, states: seq<State>, threads: seq<nat>, i: nat)
    requires Writes(s, states, threads) && i < |states|
    ensures states[i].txn + Left(states[i].stage, 0) == s.txn + Left(s.stage, 0)
  {
    if i > 0 {
      WritesUse(s, states, threads, i - 1);
      assert WritesAt(states, threads, i - 1);
      Replaced(states[i - 1].stage, threads[i - 1], states[i].stage[threads[i - 1]], 0);
    }
  }

  lemma {:induction false} SomeoneLeft(stage: seq<Stage>) returns (t: nat)
    requires Left(stage, 0) > 0
    ensures t < |stage| && stage[t].InOp? && stage[t].used < MAX_OP_BLOCKS
  {
    t := |stage| - 1;
    if Weight(stage[t], 0) == 0 {
      t := SomeoneLeft(stage[..|stage| - 1]);
    }
  }

  lemma {:induction false} WriteAll(s: State) returns (states: seq<State>, threads: seq<nat>)
    ensures Writes(s, states, threads) && states[|threads|].txn == s.txn + Left(s.stage, 0)
    decreases Left(s.stage, 0)
  {
    if Left(s.stage, 0) == 0 {
      states, threads := [s], [];
    } else {
      var t := SomeoneLeft(s.stage);
      var p := InOp(s.stage[t].used + 1);
      var s' := s.(txn := s.txn + 1, stage := s.stage[t := p]);
      Replaced(s.stage, t, p, 0);
      var more, ts := WriteAll(s');
      states, threads := [s] + more, [t] + ts;
      forall i: nat | i < |threads| ensures WritesAt(states, threads, i) {
        if i > 0 {
          assert WritesAt(more, ts, i - 1);
        }
      }
    }
  }

  /** The limit holds however the running operations go on exactly when there is room for all they may write. */
  lemma RoomIsExact(s: State, max: nat)
    ensures s.txn + Left(s.stage, 0) <= max <==>
              forall states: seq<State>, threads: seq<nat> :: Writes(s, states, threads) ==>
                  states[|threads|].txn <= max
  {
    if s.txn + Left(s.stage, 0) <= max {
      forall states: seq<State>, threads: seq<nat> | Writes(s, states, threads) ensures states[|threads|].txn <= max {
        WritesUse(s, states, threads, |threads|);
      }
    } else {
      var states, threads := WriteAll(s);
    }
  }

  // ------------------------------------------------------ the limit is not always kept

  /** One more step on a run. */
  lemma Then(states: seq<State>, max: nat, threads: seq<nat>, t: nat, s': State)
    requires Run(states, max, threads) && Next(states[|threads|], max, t, s')
    ensures Run(states + [s'], max, threads + [t])
  {
    var more, ts := states + [s'], threads + [t];
    forall i: nat | i < |ts| ensures StepAt(more, max, ts, i) {
      if i < |threads| {
        assert StepAt(states, max, threads, i);
      }
    }
  }

  /** Thread t writes n blocks. */
  lemma {:induction false} ThenWrites(states: seq<State>, max: nat, threads: seq<nat>, t: nat, n: nat)
      returns (more: seq<State>, ts: seq<nat>)
    requires Run(states, max, threads) && Is(states[|threads|], t) && states[|threads|].stage[t].InOp?
    requires states[|threads|].stage[t].used + n <= MAX_OP_BLOCKS
    ensures Run(more, max, ts) && more[0] == states[0]
    ensures var s := states[|threads|];
            more[|ts|] == s.(txn := s.txn + n, stage := s.stage[t := InOp(s.stage[t].used + n)])
    decreases n
  {
    var s := states[|threads|];
    if n == 0 {
      assert s.stage == s.stage[t := InOp(s.stage[t].used)];
      more, ts := states, threads;
    } else {
      var s' := s.(txn := s.txn + 1, stage := s.stage[t := InOp(s.stage[t].used + 1)]);
      Then(states, max, threads, t, s');
      more, ts := ThenWrites(states + [s'], max, threads + [t], t, n - 1);
      assert s.stage[t := InOp(s.stage[t].used + n)] == s'.stage[t := InOp(s'.stage[t].used + (n - 1))];
    }
  }

  /**
   Three threads, a limit of 128, and successful swaps only. One is cleared with one operation running and
   nothing written; that one writes 64 and ends; another enters, which fits; the swap then finds one running again.
   */
  lemma LimitExceeded()
    ensures exists states: seq<State>, threads: seq<nat> ::
              && Run(states, 2 * MAX_OP_BLOCKS, threads) && |states[0].stage| == 3
              && states[|threads|].txn > 2 * MAX_OP_BLOCKS
  {
    var max := 2 * MAX_OP_BLOCKS;
    var a := State(0, 0, [Idle, Idle, Idle]);
    var b := State(0, 0, [Loaded(0), Idle, Idle]);
    var c := State(0, 0, [Cleared(0), Idle, Idle]);
    var d := State(0, 1, [InOp(0), Idle, Idle]);
    var e := State(0, 1, [InOp(0), Loaded(1), Idle]);
    var f := State(0, 1, [InOp(0), Cleared(1), Idle]);
    var r, t := [a], [];
    Then(r, max, t, 0, b);
    Then(r + [b], max, t + [0], 0, c);
    Then(r + [b] + [c], max, t + [0] + [0], 0, d);
    Then(r + [b] + [c] + [d], max, t + [0] + [0] + [0], 1, e);
    Then(r + [b] + [c] + [d] + [e], max, t + [0] + [0] + [0] + [1], 1, f);
    var r1, t1 := ThenWrites(r + [b] + [c] + [d] + [e] + [f], max, t + [0] + [0] + [0] + [1] + [1], 0, MAX_OP_BLOCKS);
    FirstHalf(r1, t1);
  }

  lemma FirstHalf(r: seq<State>, ts: seq<nat>)
    requires Run(r, 2 * MAX_OP_BLOCKS, ts) && |r[0].stage| == 3
    requires r[|ts|] == State(MAX_OP_BLOCKS, 1, [InOp(MAX_OP_BLOCKS), Cleared(1), Idle])
    ensures exists states: seq<State>, threads: seq<nat> ::
              && Run(states, 2 * MAX_OP_BLOCKS, threads) && |states[0].stage| == 3
              && states[|threads|].txn > 2 * MAX_OP_BLOCKS
  {
    var max := 2 * MAX_OP_BLOCKS;
    var g := State(MAX_OP_BLOCKS, 0, [Idle, Cleared(1), Idle]);
    var h := State(MAX_OP_BLOCKS, 0, [Idle, Cleared(1), Loaded(0)]);
    var i := State(MAX_OP_BLOCKS, 0, [Idle, Cleared(1), Cleared(0)]);
    var j := State(MAX_OP_BLOCKS, 1, [Idle, Cleared(1), InOp(0)]);
    var k := State(MAX_OP_BLOCKS, 2, [Idle, InOp(0), InOp(0)]);
    Then(r, max, ts, 0, g);
    Then(r + [g], max, ts + [0], 2, h);
    Then(r + [g] + [h], max, ts + [0] + [2], 2, i);
    Then(r + [g] + [h] + [i], max, ts + [0] + [2] + [2], 2, j);
    Then(r + [g] + [h] + [i] + [j], max, ts + [0] + [2] + [2] + [2], 1, k);
    var r2, t2 := ThenWrites(r + [g] + [h] + [i] + [j] + [k], max, ts + [0] + [2] + [2] + [2] + [1], 2, MAX_OP_BLOCKS);
    var r3, t3 := ThenWrites(r2, max, t2, 1, 1);
    assert r3[|t3|].txn == max + 1;
  }
}
