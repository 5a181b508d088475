/** What single steps do to the history: operations, cuts and commit() calls. */
module EngineHistory {
  import opened Layout
  import opened Engine
  import opened EngineInvariant

  /** One more write: what came before it is as it was. */
  lemma TraceGrows(origin: seq<Block>, trace: seq<Write>, w: Write, nextOp: nat, cuts: seq<Cut>)
    requires w.block < |origin| && w.op < nextOp
    requires TraceOk(trace, nextOp, |origin|) && CutsOk(trace, nextOp, cuts)
    requires forall k :: 0 <= k < |cuts| ==> cuts[k].ops <= w.op
    ensures AfterWrites(origin, trace + [w]) == AfterWrites(origin, trace)[w.block := w.data]
    ensures TraceOk(trace + [w], nextOp, |origin|) && CutsOk(trace + [w], nextOp, cuts)
    ensures forall k :: 0 <= k < |cuts| ==> (trace + [w])[..cuts[k].pos] == trace[..cuts[k].pos]
  {
    assert (trace + [w])[..|trace|] == trace;
    forall k | 0 <= k < |cuts|
      ensures WholeOps(trace + [w], cuts[k]) && (trace + [w])[..cuts[k].pos] == trace[..cuts[k].pos]
    {
      assert WholeOps(trace, cuts[k]);
    }
  }

  lemma HistoryOpBegin(s: State, s': State)
    requires HistoryInv(s) && OpBegin(s, s')
    ensures HistoryInv(s')
  {
    UnfoldHistoryInv(s);
    forall c | c in s.calls ensures CallOk(s.calls[c], s'.nextOp, s.cuts) {
      assert CallOk(s.calls[c], s.nextOp, s.cuts);
    }
    assert CutsOk(s.trace, s'.nextOp, s.cuts) by {
      forall k | 0 <= k < |s.cuts| ensures WholeOps(s.trace, s.cuts[k]) && s.cuts[k].ops <= s'.nextOp {
      }
    }
  }

  lemma HistoryOpChange(s: State, o: nat, data: Block, s': State)
    requires HistoryInv(s) && OpChange(s, o, data, s') && s.ops[o].block < |s.origin|
    ensures HistoryInv(s')
  {
    UnfoldHistoryInv(s);
    TraceGrows(s.origin, s.trace, Write(o, s.ops[o].block, data), s.nextOp, s.cuts);
  }

  /** Steps of an operation that neither write nor begin. */
  lemma HistoryOpMove(s: State, s': State)
    requires HistoryInv(s) && s.phase == Up
    requires s'.ops.Keys <= s.ops.Keys
    requires s' == s.(ops := s'.ops, cache := s'.cache, txn := s'.txn)
    ensures HistoryInv(s')
  {
    UnfoldHistoryInv(s);
    assert forall o :: o in s'.ops ==> o in s.ops;
  }

  lemma HistoryCallCommit(s: State, c: nat, s': State)
    requires HistoryInv(s) && CallCommit(s, c, s')
    ensures HistoryInv(s')
  {
    UnfoldHistoryInv(s);
    EndedNested(s);
    CallsMore(s.calls, c, s'.calls[c], s.nextOp, s.cuts);
  }

  lemma EndedNested(s: State)
    requires HistoryOk(s)
    ensures CallOk(Call(|Below(s.nextOp) - s.ops.Keys|, Below(s.nextOp) - s.ops.Keys), s.nextOp, s.cuts)
  {
    var ended := Below(s.nextOp) - s.ops.Keys;
    forall k | 0 <= k < |s.cuts| ensures Nested(ended, s.cuts[k].ops) {
      assert WholeOps(s.trace, s.cuts[k]) && s.cuts[k].ops <= s.nextOp;
      assert Below(s.cuts[k].ops) <= ended;
    }
  }

  lemma CallsMore(calls: map<nat, Call>, c: nat, call: Call, nextOp: nat, cuts: seq<Cut>)
    requires CallsOk(calls, nextOp, cuts) && CallOk(call, nextOp, cuts)
    ensures CallsOk(calls[c := call], nextOp, cuts)
  {
  }

  /** A set of that many of the first operations, if it holds them all, is them. */
  lemma CountedIn(ended: set<nat>, k: nat)
    requires Nested(ended, k) && |ended| <= k
    ensures ended <= Below(k)
  {
    if Below(k) <= ended {
      assert |ended - Below(k)| == |ended| - |Below(k)|;
      assert ended - Below(k) == {};
    }
  }

  /** What commit() promises: every operation ended before the call is sure. */
  lemma HistoryCallReturn(s: State, c: nat, s': State)
    requires HistoryInv(s) && CallReturn(s, c, s')
    ensures HistoryInv(s')
  {
    UnfoldHistoryInv(s);
    assert CallOk(s.calls[c], s.nextOp, s.cuts);
    CountedIn(s.calls[c].ended, s.cuts[s.sealed].ops);
  }

  lemma CutsGrow(trace: seq<Write>, nextOp: nat, cuts: seq<Cut>, n: nat)
    requires TraceOk(trace, nextOp, n) && CutsOk(trace, nextOp, cuts)
    ensures CutsOk(trace, nextOp, cuts + [Cut(|trace|, nextOp)])
  {
  }

  lemma CallsSeeCut(calls: map<nat, Call>, nextOp: nat, cuts: seq<Cut>, pos: nat)
    requires CallsOk(calls, nextOp, cuts)
    ensures CallsOk(calls, nextOp, cuts + [Cut(pos, nextOp)])
  {
  }

  lemma PromisesLater(promised: set<nat>, committedThrough: nat, ops: nat, ops': nat)
    requires PromisesOk(promised, committedThrough, ops) && ops <= ops'
    ensures PromisesOk(promised, committedThrough, ops')
  {
  }

  lemma HistoryCommitStart(s: State, close: bool, s': State)
    requires HistoryInv(s) && CommitStart(s, close, s')
    requires s.txn == [] ==> s.now == s.sure
    ensures HistoryInv(s')
  {
    if s.txn == [] {
      HistoryCommitNone(s, close, s');
    } else {
      HistoryCommitSome(s, close, s');
    }
  }

  lemma HistoryCommitNone(s: State, close: bool, s': State)
    requires HistoryInv(s) && CommitStart(s, close, s') && s.txn == [] && s.now == s.sure
    ensures HistoryInv(s')
  {
    UnfoldHistoryInv(s);
    NewCut(s);
    assert s.trace[..|s.trace|] == s.trace;
  }

  lemma HistoryCommitSome(s: State, close: bool, s': State)
    requires HistoryInv(s) && CommitStart(s, close, s') && s.txn != []
    ensures HistoryInv(s')
  {
    UnfoldHistoryInv(s);
    NewCut(s);
    assert Content(s', s'.sealed) == Content(s, s.sealed);
  }

  /** Every operation has ended: a cut may fall here. */
  lemma NewCut(s: State)
    requires HistoryOk(s) && s.phase == Up && s.ops == map[]
    ensures var cuts := s.cuts + [Cut(|s.trace|, s.nextOp)];
            && CutsOk(s.trace, s.nextOp, cuts) && CallsOk(s.calls, s.nextOp, cuts) && CutNow(cuts, |s.trace|, s.nextOp)
    ensures PromisesOk(s.promised, s.committedThrough, s.nextOp)
  {
    CutsGrow(s.trace, s.nextOp, s.cuts, |s.origin|);
    CallsSeeCut(s.calls, s.nextOp, s.cuts, |s.trace|);
    assert WholeOps(s.trace, s.cuts[s.sealed]);
    PromisesLater(s.promised, s.committedThrough, s.cuts[s.sealed].ops, s.nextOp);
  }

  /** The commit point: the present is what recovery must produce. */
  lemma HistoryCommitSync(s: State, s': State)
    requires HistoryInv(s) && CommitSync(s, s')
    ensures HistoryInv(s')
  {
    UnfoldHistoryInv(s);
    assert s.trace[..|s.trace|] == s.trace;
    PromisesLater(s.promised, s.committedThrough, s.cuts[s.sealed].ops, s.cuts[s'.sealed].ops);
  }

  lemma HistoryCommitEnd(s: State, s': State)
    requires HistoryInv(s) && CommitEnd(s, s')
    ensures HistoryInv(s')
  {
    UnfoldHistoryInv(s);
  }

  lemma HistoryRest(s: State, s': State)
    requires HistoryInv(s) && SameHistory(s, s')
    ensures HistoryInv(s')
  {
    UnfoldHistoryInv(s);
  }

  lemma HistoryUnmounted(s: State, s': State)
    requires HistoryInv(s) && Unmounted(s, s')
    ensures HistoryInv(s')
  {
    UnfoldHistoryInv(s);
  }

  lemma HistoryMountDone(s: State, s': State)
    requires HistoryInv(s) && MountDone(s, s')
    ensures HistoryInv(s')
  {
    UnfoldHistoryInv(s);
  }
}
