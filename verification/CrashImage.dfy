/**
 The two halves together: the storage engine brings back the blocks as some number of whole operations
 left them, and every call leaves blocks that spell a consistent image.
 */
module CrashImage {
  import opened Layout
  import opened Superblocks
  import opened DiskImage
  import opened Charges
  import opened ImageUpdate
  import opened Volume
  import opened Calls
  import opened DiskFormat
  import Redo
  import Engine
  import EngineTheorems

  /** `after` is `before` with the blocks of `wrote` as the image has them. */
  ghost predicate Rewritten(before: seq<Block>, after: seq<Block>, img: Image, wrote: set<nat>) {
    && |after| == |before|
    && forall h: nat :: 0 < h < |after| ==> if h in wrote then Holds(after[h], img, h) else after[h] == before[h]
  }

  /** A call's writes are enough: the blocks it did not write hold what they should without it. */
  lemma CallOnDisk(start: Image, img: Image, wrote: set<nat>, before: seq<Block>, after: seq<Block>)
    requires Decodes(before, start) && Covers(start, img, wrote) && Rewritten(before, after, img, wrote)
    ensures Decodes(after, img)
  {
    assert CoversIn(start, img, wrote);
    forall h: nat | 0 < h < |after| && h !in wrote ensures Holds(after[h], img, h) {
      assert Holds(before[h], start, h);
    }
  }

  // --------------------------------------------------------- after any crash

  /** The disk spells a consistent image, with this superblock and the rest of block 0 zero. */
  ghost predicate GoodDisk(disk: seq<Block>, sb: Superblock) {
    exists img: Image :: Good(img) && img.sb == sb && Decodes(disk, img)
  }

  /**
   What an operation's writes come to: from blocks that spell a consistent image, they make what some call makes, an
   image that is consistent and has every change among the blocks written.
   */
  ghost predicate OneCall(before: seq<Block>, after: seq<Block>, sb: Superblock) {
    GoodDisk(before, sb) ==>
      exists start: Image, img: Image, wrote: set<nat> :: start.sb == sb && Called(start, img, wrote, before, after)
  }

  ghost predicate Called(start: Image, img: Image, wrote: set<nat>, before: seq<Block>, after: seq<Block>) {
    Good(start) && Decodes(before, start) && Good(img) && Covers(start, img, wrote)
        && Rewritten(before, after, img, wrote)
  }

  /** Every call on a volume keeps `Covered` and leaves a consistent image: with its blocks written, it is one. */
  lemma CallMade(v: Volume, before: seq<Block>, after: seq<Block>)
    requires Good(v.start) && Decodes(before, v.start) && v.Covered() && Good(v.img)
    requires Rewritten(before, after, v.img, v.wrote)
    ensures OneCall(before, after, v.start.sb) && GoodDisk(after, v.start.sb)
  {
    assert Called(v.start, v.img, v.wrote, before, after);
    CallOnDisk(v.start, v.img, v.wrote, before, after);
    assert CoversIn(v.start, v.img, v.wrote);
  }

  /** Whatever a call comes to can be written: there are bytes for it. */
  lemma CallCanBeMade(v: Volume, before: seq<Block>) returns (after: seq<Block>)
    requires Good(v.start) && Decodes(before, v.start) && v.Covered() && Good(v.img)
    ensures Rewritten(before, after, v.img, v.wrote) && OneCall(before, after, v.start.sb)
            && GoodDisk(after, v.start.sb)
  {
    assert CoversIn(v.start, v.img, v.wrote);
    after := LaidOut(v.img, before, v.wrote, |before|);
    CallMade(v, before, after);
  }

  /** Every consistent image has a disk that spells it. */
  lemma SomeDisk(img: Image) returns (disk: seq<Block>)
    requires Good(img)
    ensures GoodDisk(disk, img.sb) && Decodes(disk, img)
  {
    DiskShape(img);
    disk := LaidOut(img, img.blocks, Engine.Below(|img.blocks|), |img.blocks|);
    assert Decodes(disk, img);
  }

  lemma GoodAfterCall(before: seq<Block>, after: seq<Block>, sb: Superblock)
    requires GoodDisk(before, sb) && OneCall(before, after, sb)
    ensures GoodDisk(after, sb)
  {
    var start: Image, img: Image, wrote: set<nat> :| start.sb == sb && Called(start, img, wrote, before, after);
    CallOnDisk(start, img, wrote, before, after);
    assert CoversIn(start, img, wrote);
  }

  /** How much of the trace is before operation o: all up to the last write of an earlier one. */
  function Upto(trace: seq<Engine.Write>, o: nat): (r: nat)
    ensures r <= |trace|
  {
    if trace == [] then 0
    else if trace[|trace| - 1].op < o then |trace|
    else Upto(trace[..|trace| - 1], o)
  }

  lemma {:induction false} UptoCut(trace: seq<Engine.Write>, cut: Engine.Cut)
    requires Engine.WholeOps(trace, cut)
    ensures Upto(trace, cut.ops) == cut.pos
  {
    if |trace| > cut.pos {
      var less := trace[..|trace| - 1];
      UptoCut(less, cut);
    }
  }

  lemma {:induction false} UptoNone(trace: seq<Engine.Write>)
    ensures Upto(trace, 0) == 0
  {
    if trace != [] {
      UptoNone(trace[..|trace| - 1]);
    }
  }

  /** The contents after operations 0 to o - 1. */
  function After(s: Engine.State, o: nat): seq<Block> {
    Engine.AfterWrites(s.origin, s.trace[..Upto(s.trace, o)])
  }

  lemma {:induction false} GoodAfter(s: Engine.State, sb: Superblock, o: nat)
    requires GoodDisk(s.origin, sb) && o <= s.nextOp
    requires forall n: nat :: n < s.nextOp ==> OneCall(After(s, n), After(s, n + 1), sb)
    ensures GoodDisk(After(s, o), sb)
  {
    if o == 0 {
      UptoNone(s.trace);
    } else {
      GoodAfter(s, sb, o - 1);
      GoodAfterCall(After(s, o - 1), After(s, o), sb);
    }
  }

  /** Among calls 0 to o - 1 are all that had ended when a commit() was called that has returned by state i. */
  ghost predicate KeepsCommitted(states: seq<Engine.State>, steps: seq<Engine.Step>, i: nat, o: nat)
    requires Engine.Run(states, steps)
  {
    forall c: nat, j: nat, r: nat, n: nat :: r < i && EngineTheorems.CommitReturned(states, steps, c, j, r) ==>
      n < states[j].nextOp && n !in states[j].ops ==> n < o
  }

  /**
   Whenever the machine stops, and whatever of the unsynced bytes survives, recovery makes a disk that spells a
   consistent image: the one that some number of whole calls left, among them every one that
   had ended when a commit() was called that has returned.
   */
  lemma CrashLeavesGood(states: seq<Engine.State>, steps: seq<Engine.Step>, i: nat,
                        disk: seq<Block>, log: seq<Redo.Record>, mark: Mark, sb: Superblock)
    requires Engine.Run(states, steps) && i < |states| && Engine.Survives(states[i], disk, log, mark)
    requires GoodDisk(states[i].origin, sb)
    requires forall n: nat :: n < states[i].nextOp ==> OneCall(After(states[i], n), After(states[i], n + 1), sb)
    ensures Redo.InRange(log, |disk|) && GoodDisk(EngineTheorems.Recovered(disk, log, mark), sb)
    ensures exists o: nat :: o <= states[i].nextOp && EngineTheorems.Recovered(disk, log, mark) == After(states[i], o)
                             && states[i].promised <= Engine.Below(o) && KeepsCommitted(states, steps, i, o)
  {
    var s := states[i];
    EngineTheorems.CrashSafety(states, steps, i, disk, log, mark);
    var k :| s.sealed <= k < |s.cuts| && s.cuts[k].pos <= |s.trace|
             && EngineTheorems.Recovered(disk, log, mark) == Engine.AfterWrites(s.origin, s.trace[..s.cuts[k].pos])
             && Engine.WholeOps(s.trace, s.cuts[k]) && s.promised <= Engine.Below(s.cuts[k].ops)
             && forall c: nat, j: nat, r: nat :: r < i && EngineTheorems.CommitReturned(states, steps, c, j, r) ==>
                  EngineTheorems.Includes(s.trace, s.cuts[k].pos, s.cuts[k].ops, states[j]);
    EngineTheorems.RunKeeps(states, steps, i);
    EngineTheorems.Unfold(s);
    UptoCut(s.trace, s.cuts[k]);
    GoodAfter(s, sb, s.cuts[k].ops);
  }
}
