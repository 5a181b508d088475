/** What fsck's walk of the tree knows part way: what it counted and where it will go. */
module FsckWalk {
  import opened Layout
  import opened Codec
  import opened NameTree

  /** The spots looked at so far that hold inode number x. */
  ghost function RefsIn(t: map<nat, Node>, looked: set<Spot>, x: nat): set<Spot> {
    set s | s in looked && IsSpot(t, s) && EntryAt(t, s).inode == x
  }

  ghost function NamesIn(t: map<nat, Node>, looked: set<Spot>, x: nat): set<Spot> {
    set s | s in looked && Names(t, s, x)
  }

  /** refs_ and names_ count the entries looked at. */
  ghost predicate Counts(t: map<nat, Node>, looked: set<Spot>, refs: seq<nat>, names: seq<nat>) {
    && |refs| == |names|
    && forall x: nat :: 0 < x < |refs| ==> refs[x] == |RefsIn(t, looked, x)| && names[x] == |NamesIn(t, looked, x)|
  }

  /** A directory still to be checked, and the directory that named it. */
  datatype Visit = Visit(dir: nat, parent: nat)

  /** The parent is the directory of an entry, already looked at, that names d. */
  ghost predicate ParentSeen(t: map<nat, Node>, looked: set<Spot>, d: nat, parent: nat) {
    if d == ROOT then parent == ROOT else exists s :: s in looked && s.dir == parent && Names(t, s, d)
  }

  ghost predicate IsDirIn(t: map<nat, Node>, d: nat) { d in t && t[d].Dir? }

  /** What waits on the stack has been named, has not been done, and waits once. */
  ghost predicate Waiting(t: map<nat, Node>, looked: set<Spot>, names: seq<nat>, stack: seq<Visit>, done: set<nat>) {
    && (forall i :: 0 <= i < |stack| ==>
          && IsDirIn(t, stack[i].dir) && stack[i].dir < |names|
          && (stack[i].dir == ROOT || names[stack[i].dir] >= 1)
          && stack[i].dir !in done && ParentSeen(t, looked, stack[i].dir, stack[i].parent))
    && (forall i, k :: 0 <= i < k < |stack| ==> stack[i].dir != stack[k].dir)
  }

  /** The directories named so far, and the root: done, or waiting on the stack. */
  ghost predicate Due(t: map<nat, Node>, names: seq<nat>, stack: seq<Visit>, done: set<nat>) {
    && (forall d :: d in done ==> IsDirIn(t, d) && d < |names| && (d == ROOT || names[d] >= 1))
    && (forall d: nat :: d < |names| && IsDirIn(t, d) && (d == ROOT || names[d] >= 1) ==>
          d in done || exists i :: 0 <= i < |stack| && stack[i].dir == d)
  }

  ghost predicate Scheduled(t: map<nat, Node>, looked: set<Spot>, names: seq<nat>, stack: seq<Visit>, done: set<nat>) {
    Waiting(t, looked, names, stack, done) && Due(t, names, stack, done)
  }

  ghost predicate Marked(t: map<nat, Node>, names: seq<nat>, reachable: seq<bool>) {
    && |reachable| == |names|
    && (forall x: nat :: 0 < x < |names| ==> (reachable[x] <==> x == ROOT || names[x] >= 1))
    && (forall x: nat :: 0 < x < |names| && reachable[x] ==> Reachable(t, x))
  }

  /** Everything in the directories done has been looked at, and nothing else. */
  ghost predicate Looked(t: map<nat, Node>, looked: set<Spot>, done: set<nat>) {
    forall s :: s in looked <==> IsSpot(t, s) && s.dir in done
  }

  /** The directories done keep their rules. */
  ghost predicate DoneOk(t: map<nat, Node>, looked: set<Spot>, done: set<nat>) {
    forall d :: d in done ==> IsDirIn(t, d) && exists p :: DirRule(t, d, p) && ParentSeen(t, looked, d, p)
  }

  ghost predicate Walked(t: map<nat, Node>, looked: set<Spot>, refs: seq<nat>, names: seq<nat>, reachable: seq<bool>,
                         stack: seq<Visit>, done: set<nat>)
  {
    && Counts(t, looked, refs, names) && Scheduled(t, looked, names, stack, done) && Marked(t, names, reachable)
  }

  /** Walked, as a fact unfolded on demand. */
  ghost predicate Knows(t: map<nat, Node>, looked: set<Spot>, refs: seq<nat>, names: seq<nat>, reachable: seq<bool>,
                        stack: seq<Visit>, done: set<nat>)
  {
    forall l :: l == looked ==> Walked(t, l, refs, names, reachable, stack, done)
  }

  // ------------------------------------------------------------ one entry

  lemma OneMoreRef(t: map<nat, Node>, looked: set<Spot>, s: Spot, y: nat)
    requires IsSpot(t, s) && s !in looked
    ensures |RefsIn(t, looked + {s}, y)| == |RefsIn(t, looked, y)| + if EntryAt(t, s).inode == y then 1 else 0
  {
    assert RefsIn(t, looked + {s}, y) == RefsIn(t, looked, y) + if EntryAt(t, s).inode == y then {s} else {};
  }

  lemma OneMoreName(t: map<nat, Node>, looked: set<Spot>, s: Spot, y: nat)
    requires IsSpot(t, s) && s !in looked
    ensures |NamesIn(t, looked + {s}, y)| == |NamesIn(t, looked, y)| + if Names(t, s, y) then 1 else 0
  {
    assert NamesIn(t, looked + {s}, y) == NamesIn(t, looked, y) + if Names(t, s, y) then {s} else {};
  }

  lemma CountEntry(t: map<nat, Node>, looked: set<Spot>, refs: seq<nat>, names: seq<nat>, s: Spot, x: nat)
    requires Counts(t, looked, refs, names) && IsSpot(t, s) && s !in looked && x == EntryAt(t, s).inode
             && 0 < x < |refs|
    ensures Counts(t, looked + {s}, refs[x := refs[x] + 1], if s.slot < 2 then names else names[x := names[x] + 1])
  {
    var refs' := refs[x := refs[x] + 1];
    var names' := if s.slot < 2 then names else names[x := names[x] + 1];
    forall y: nat | 0 < y < |refs|
      ensures refs'[y] == |RefsIn(t, looked + {s}, y)| && names'[y] == |NamesIn(t, looked + {s}, y)|
    {
      OneMoreRef(t, looked, s, y);
      OneMoreName(t, looked, s, y);
    }
  }

  lemma CountFree(t: map<nat, Node>, looked: set<Spot>, refs: seq<nat>, names: seq<nat>, s: Spot)
    requires Counts(t, looked, refs, names) && IsSpot(t, s) && EntryAt(t, s).inode == 0
    ensures Counts(t, looked + {s}, refs, names)
  {
    forall y: nat | 0 < y < |refs|
      ensures RefsIn(t, looked + {s}, y) == RefsIn(t, looked, y) && NamesIn(t, looked + {s}, y) == NamesIn(t, looked, y)
    {
    }
  }

  lemma MoreLooked(t: map<nat, Node>, looked: set<Spot>, names: seq<nat>, stack: seq<Visit>, done: set<nat>, s: Spot)
    requires Scheduled(t, looked, names, stack, done)
    ensures Scheduled(t, looked + {s}, names, stack, done)
  {
    forall i | 0 <= i < |stack| ensures ParentSeen(t, looked + {s}, stack[i].dir, stack[i].parent) {
      assert ParentSeen(t, looked, stack[i].dir, stack[i].parent);
    }
  }

  lemma ParentStays(t: map<nat, Node>, looked: set<Spot>, more: set<Spot>, d: nat, parent: nat)
    requires ParentSeen(t, looked, d, parent) && looked <= more
    ensures ParentSeen(t, more, d, parent)
  {
  }

  /** One more name for x: if it is the first, and a directory's that is not the root, it is pushed. */
  function Pushed(t: map<nat, Node>, names: seq<nat>, stack: seq<Visit>, x: nat, dir: nat): seq<Visit>
    requires x in t && x < |names|
  {
    if names[x] == 0 && x != ROOT && t[x].Dir? then stack + [Visit(x, dir)] else stack
  }

  lemma WaitingName(t: map<nat, Node>, looked: set<Spot>, names: seq<nat>, stack: seq<Visit>, done: set<nat>, s: Spot,
      x: nat)
    requires Scheduled(t, looked, names, stack, done) && Names(t, s, x) && x in t && x < |names|
    ensures Waiting(t, looked + {s}, names[x := names[x] + 1], Pushed(t, names, stack, x, s.dir), done)
  {
    MoreLooked(t, looked, names, stack, done, s);
    if names[x] == 0 && x != ROOT && t[x].Dir? {
      assert ParentSeen(t, looked + {s}, x, s.dir) by {
        assert s in looked + {s};
      }
    }
  }

  lemma DueName(t: map<nat, Node>, names: seq<nat>, stack: seq<Visit>, done: set<nat>, x: nat, dir: nat)
    requires Due(t, names, stack, done) && x in t && x < |names|
    ensures Due(t, names[x := names[x] + 1], Pushed(t, names, stack, x, dir), done)
  {
    var names', stack' := names[x := names[x] + 1], Pushed(t, names, stack, x, dir);
    assert |stack'| > |stack| ==> stack'[|stack|].dir == x;
    forall d: nat | d < |names| && IsDirIn(t, d) && (d == ROOT || names'[d] >= 1)
      ensures d in done || exists i :: 0 <= i < |stack'| && stack'[i].dir == d
    {
      if d == ROOT || names[d] >= 1 {
        if d !in done {
          var i :| 0 <= i < |stack| && stack[i].dir == d;
          assert stack'[i].dir == d;
        }
      }
    }
  }

  lemma ReachChild(t: map<nat, Node>, d: nat, x: nat)
    requires Reachable(t, d) && Child(t, d, x)
    ensures Reachable(t, x)
  {
    var n: nat :| ReachIn(t, d, n);
    assert ReachIn(t, x, n + 1);
  }

  lemma MarkName(t: map<nat, Node>, names: seq<nat>, reachable: seq<bool>, s: Spot, x: nat)
    requires Marked(t, names, reachable) && 0 < x < |names| && Names(t, s, x) && Reachable(t, s.dir)
    ensures Marked(t, names[x := names[x] + 1], if x == ROOT then reachable else reachable[x := true])
  {
    assert Child(t, s.dir, x);
    ReachChild(t, s.dir, x);
  }

  lemma EntryStep(t: map<nat, Node>, looked: set<Spot>, refs: seq<nat>, names: seq<nat>, reachable: seq<bool>,
                  stack: seq<Visit>, done: set<nat>, s: Spot, x: nat)
    requires Knows(t, looked, refs, names, reachable, stack, done)
    requires Names(t, s, x) && x in t && 0 < x < |names| && s !in looked && Reachable(t, s.dir)
    ensures |refs| == |names| == |reachable|
    ensures Knows(t, looked + {s}, refs[x := refs[x] + 1], names[x := names[x] + 1],
                  if x == ROOT || names[x] != 0 then reachable
                      else reachable[x := true], Pushed(t, names, stack, x, s.dir), done)
  {
    assert Walked(t, looked, refs, names, reachable, stack, done);
    CountEntry(t, looked, refs, names, s, x);
    WaitingName(t, looked, names, stack, done, s, x);
    DueName(t, names, stack, done, x, s.dir);
    MarkName(t, names, reachable, s, x);
  }

  lemma FreeStep(t: map<nat, Node>, looked: set<Spot>, refs: seq<nat>, names: seq<nat>, reachable: seq<bool>,
                 stack: seq<Visit>, done: set<nat>, s: Spot)
    requires Knows(t, looked, refs, names, reachable, stack, done)
    requires IsSpot(t, s) && EntryAt(t, s).inode == 0
    ensures Knows(t, looked + {s}, refs, names, reachable, stack, done)
  {
    assert Walked(t, looked, refs, names, reachable, stack, done);
    CountFree(t, looked, refs, names, s);
    MoreLooked(t, looked, names, stack, done, s);
  }

  lemma DotStep(t: map<nat, Node>, looked: set<Spot>, refs: seq<nat>, names: seq<nat>, reachable: seq<bool>,
                stack: seq<Visit>, done: set<nat>, s: Spot, x: nat)
    requires Knows(t, looked, refs, names, reachable, stack, done)
    requires IsSpot(t, s) && s.slot < 2 && EntryAt(t, s).inode == x && s !in looked && 0 < x < |refs|
    ensures Knows(t, looked + {s}, refs[x := refs[x] + 1], names, reachable, stack, done)
  {
    assert Walked(t, looked, refs, names, reachable, stack, done);
    CountEntry(t, looked, refs, names, s, x);
    MoreLooked(t, looked, names, stack, done, s);
  }

  // --------------------------------------------------------- termination

  /** The inodes no entry has named so far: each can still be pushed, once. */
  ghost function Unnamed(names: seq<nat>): set<nat> {
    set x: nat | x < |names| && names[x] == 0
  }

  lemma NameShrinks(names: seq<nat>, x: nat)
    requires x < |names|
    ensures |Unnamed(names[x := names[x] + 1])| == |Unnamed(names)| - if names[x] == 0 then 1 else 0
  {
    assert Unnamed(names[x := names[x] + 1]) == Unnamed(names) - {x};
  }

  // ------------------------------------------------------- one directory

  /** What check_directory asks of slot i. */
  ghost predicate SlotOk(t: map<nat, Node>, d: nat, parent: nat, i: nat)
    requires IsDirIn(t, d) && i < |t[d].slots|
  {
    var e := t[d].slots[i];
    if i == 0 then IsDot(e, DOT, d)
    else if i == 1 then IsDot(e, DOTDOT, parent)
    else EntryOk(t, e) && (e.inode != 0 ==> e.Name() !in NamesBefore(t[d].slots, i))
  }

  lemma DotOk(t: map<nat, Node>, d: nat, parent: nat, i: nat)
    requires IsSpot(t, Spot(d, i)) && i < 2
    ensures SlotOk(t, d, parent, i) <==>
              IsDot(EntryAt(t, Spot(d, i)), if i == 0 then DOT else DOTDOT, if i == 0 then d else parent)
  {
  }

  ghost function NamesBefore(slots: seq<Entry>, i: nat): set<seq<Byte>>
    requires i <= |slots|
  {
    set k | 2 <= k < i && slots[k].inode != 0 :: slots[k].Name()
  }

  lemma NamesGrow(slots: seq<Entry>, i: nat)
    requires 2 <= i < |slots|
    ensures NamesBefore(slots, i + 1) == NamesBefore(slots, i) + if slots[i].inode != 0 then {slots[i].Name()} else {}
  {
  }

  /** The rules of a directory are the rules of its slots, taken in order. */
  lemma DirRuleBySlot(t: map<nat, Node>, d: nat, parent: nat)
    requires IsDirIn(t, d) && |t[d].slots| >= 2
    ensures DirRule(t, d, parent) <==> forall i: nat :: i < |t[d].slots| ==> SlotOk(t, d, parent, i)
  {
    var slots := t[d].slots;
    if DirRule(t, d, parent) {
      forall i: nat | i < |slots| ensures SlotOk(t, d, parent, i) {
      }
    }
    if forall i: nat :: i < |slots| ==> SlotOk(t, d, parent, i) {
      assert SlotOk(t, d, parent, 0) && SlotOk(t, d, parent, 1);
      forall i | 2 <= i < |slots| ensures EntryOk(t, slots[i]) {
        assert SlotOk(t, d, parent, i);
      }
      forall i, k | 2 <= i < k < |slots| && slots[i].inode != 0 && slots[k].inode != 0
        ensures slots[i].Name() != slots[k].Name()
      {
        assert SlotOk(t, d, parent, k);
        assert slots[i].Name() in NamesBefore(slots, k);
      }
    }
  }

  function SpotsBelow(d: nat, i: nat): set<Spot> {
    set k: nat | k < i :: Spot(d, k)
  }

  lemma SpotsGrow(d: nat, i: nat)
    ensures SpotsBelow(d, i + 1) == SpotsBelow(d, i) + {Spot(d, i)} && Spot(d, i) !in SpotsBelow(d, i)
  {
  }

  // --------------------------------------------------------- the whole walk

  lemma StartWalk(t: map<nat, Node>, n: nat)
    requires IsDirIn(t, ROOT) && ROOT < n
    ensures var zeros := seq(n, _ => 0);
            Walked(t, {}, zeros, zeros, seq(n, _ => false)[ROOT := true], [Visit(ROOT, ROOT)], {})
  {
    assert ReachIn(t, ROOT, 0);
    assert [Visit(ROOT, ROOT)][0].dir == ROOT;
    forall x: nat | 0 < x < n ensures RefsIn(t, {}, x) == {} && NamesIn(t, {}, x) == {} {
    }
  }

  /** The directory on top is taken off to be checked. */
  lemma TakeTop(t: map<nat, Node>, looked: set<Spot>, refs: seq<nat>, names: seq<nat>, reachable: seq<bool>,
                stack: seq<Visit>, done: set<nat>)
    requires Knows(t, looked, refs, names, reachable, stack, done) && stack != []
    requires forall x :: x in t ==> 0 < x < |refs|
    ensures var top := stack[|stack| - 1];
            && Knows(t, looked, refs, names, reachable, stack[..|stack| - 1], done + {top.dir})
            && IsDirIn(t, top.dir) && top.dir !in done && ParentSeen(t, looked, top.dir, top.parent)
            && 0 < top.parent < |refs| && Reachable(t, top.dir)
  {
    assert Walked(t, looked, refs, names, reachable, stack, done);
    var rest, top := stack[..|stack| - 1], stack[|stack| - 1];
    TakeDue(t, names, stack, done);
    TopReachable(t, looked, refs, names, reachable, stack, done);
  }

  lemma TakeDue(t: map<nat, Node>, names: seq<nat>, stack: seq<Visit>, done: set<nat>)
    requires Due(t, names, stack, done) && stack != []
    requires var d := stack[|stack| - 1].dir; IsDirIn(t, d) && d < |names| && (d == ROOT || names[d] >= 1)
    ensures Due(t, names, stack[..|stack| - 1], done + {stack[|stack| - 1].dir})
  {
    var rest, top := stack[..|stack| - 1], stack[|stack| - 1];
    forall d: nat | d < |names| && IsDirIn(t, d) && (d == ROOT || names[d] >= 1)
      ensures d in done + {top.dir} || exists i :: 0 <= i < |rest| && rest[i].dir == d
    {
      if d !in done && d != top.dir {
        var i :| 0 <= i < |stack| && stack[i].dir == d;
        assert rest[i].dir == d;
      }
    }
  }

  lemma TopReachable(t: map<nat, Node>, looked: set<Spot>, refs: seq<nat>, names: seq<nat>, reachable: seq<bool>,
                     stack: seq<Visit>, done: set<nat>)
    requires Walked(t, looked, refs, names, reachable, stack, done) && stack != []
    requires forall x :: x in t ==> 0 < x < |refs|
    ensures var top := stack[|stack| - 1]; 0 < top.parent < |refs| && Reachable(t, top.dir)
  {
    var top := stack[|stack| - 1];
    assert ParentSeen(t, looked, top.dir, top.parent);
    assert reachable[top.dir];
  }

  /** The first i slots of d keep their rules. */
  ghost predicate SlotsOk(t: map<nat, Node>, d: nat, parent: nat, i: nat)
    requires IsDirIn(t, d) && i <= |t[d].slots|
  {
    forall k: nat :: k < i ==> SlotOk(t, d, parent, k)
  }

  lemma SlotsStep(t: map<nat, Node>, d: nat, parent: nat, i: nat)
    requires IsDirIn(t, d) && i < |t[d].slots|
    ensures SlotsOk(t, d, parent, i + 1) <==> SlotsOk(t, d, parent, i) && SlotOk(t, d, parent, i)
  {
  }

  lemma DirDone(t: map<nat, Node>, looked: set<Spot>, done: set<nat>, d: nat, parent: nat)
    requires IsDirIn(t, d) && d !in done && Looked(t, looked, done) && DoneOk(t, looked, done)
    requires DirRule(t, d, parent) && ParentSeen(t, looked, d, parent)
    ensures var looked' := looked + SpotsBelow(d, |t[d].slots|);
            Looked(t, looked', done + {d}) && DoneOk(t, looked', done + {d})
  {
    var looked' := looked + SpotsBelow(d, |t[d].slots|);
    forall c | c in done + {d} ensures IsDirIn(t, c) && exists p :: DirRule(t, c, p) && ParentSeen(t, looked', c, p) {
      if c == d {
        ParentStays(t, looked, looked', d, parent);
      } else {
        var p :| DirRule(t, c, p) && ParentSeen(t, looked, c, p);
        ParentStays(t, looked, looked', c, p);
      }
    }
  }

  /** A directory that breaks its rules, reached from the parent that named it, breaks the tree's. */
  lemma DirBroken(t: map<nat, Node>, looked: set<Spot>, d: nat, parent: nat)
    requires IsDirIn(t, d) && ParentSeen(t, looked, d, parent) && !DirRule(t, d, parent)
    ensures !DirsOk(t)
  {
    if d != ROOT {
      var s :| s in looked && s.dir == parent && Names(t, s, d);
      assert Names(t, Spot(parent, s.slot), d);
      assert Child(t, parent, d);
    }
  }

  /** What check_links asks of an inode in use. */
  predicate LinkOk(t: map<nat, Node>, refs: seq<nat>, names: seq<nat>, reachable: seq<bool>, x: nat)
    requires x in t && x < |refs| && |refs| == |names| == |reachable|
  {
    (if x == ROOT then names[x] == 0 else reachable[x] && names[x] <= 1) && t[x].links == refs[x]
  }

  /** The walk is over: nothing waits. */
  ghost predicate WalkOver(t: map<nat, Node>, looked: set<Spot>, refs: seq<nat>, names: seq<nat>, reachable: seq<bool>,
      done: set<nat>) {
    && Walked(t, looked, refs, names, reachable, [], done) && Looked(t, looked, done) && DoneOk(t, looked, done)
    && IsDirIn(t, ROOT) && forall x :: x in t ==> 0 < x < |refs|
  }

  lemma {:induction false} ReachableDone(t: map<nat, Node>, looked: set<Spot>, refs: seq<nat>, names: seq<nat>,
                                         reachable: seq<bool>, done: set<nat>, x: nat, n: nat)
    requires WalkOver(t, looked, refs, names, reachable, done) && x in t && ReachIn(t, x, n)
    ensures reachable[x] && (t[x].Dir? ==> x in done)
    decreases n
  {
    if x != ROOT {
      var d :| Child(t, d, x) && ReachIn(t, d, n - 1);
      ReachableDone(t, looked, refs, names, reachable, done, d, n - 1);
      var i :| Names(t, Spot(d, i), x);
      assert Spot(d, i) in NamesIn(t, looked, x);
    }
  }

  lemma AllDone(t: map<nat, Node>, looked: set<Spot>, refs: seq<nat>, names: seq<nat>, reachable: seq<bool>,
      done: set<nat>)
    requires WalkOver(t, looked, refs, names, reachable, done)
    requires forall x :: x in t ==> Reachable(t, x)
    ensures forall s :: IsSpot(t, s) ==> s in looked
    ensures forall x :: x in t ==> reachable[x]
    ensures forall x :: x in t ==> RefsIn(t, looked, x) == Refs(t, x)
  {
    forall x | x in t ensures reachable[x] && (t[x].Dir? ==> x in done) {
      var n: nat :| ReachIn(t, x, n);
      ReachableDone(t, looked, refs, names, reachable, done, x, n);
    }
    forall x | x in t ensures RefsIn(t, looked, x) == Refs(t, x) {
      forall s ensures s in RefsIn(t, looked, x) <==> s in Refs(t, x) {
      }
    }
  }

  lemma AtMostOne<T>(s: set<T>, a: T, b: T)
    requires a in s && b in s && |s| <= 1
    ensures a == b
  {
    assert |s - {a}| == |s| - 1;
    assert b != a ==> b in s - {a};
  }

  lemma UniqueSmall<T>(s: set<T>)
    requires forall a, b :: a in s && b in s ==> a == b
    ensures |s| <= 1
  {
    if a :| a in s {
      assert s == {a};
    }
  }

  /** An entry past the dots names an inode that is in the tree. */
  lemma NamedInTree(t: map<nat, Node>, d: nat, parent: nat, s: Spot, x: nat)
    requires IsDirIn(t, d) && DirRule(t, d, parent) && Names(t, s, x) && s.dir == d
    ensures x in t
  {
    assert EntryOk(t, t[d].slots[s.slot]);
  }

  /** Once every directory is done, each name leads into the tree. */
  lemma AllNamed(t: map<nat, Node>, looked: set<Spot>, done: set<nat>, s: Spot, x: nat)
    requires DoneOk(t, looked, done) && Looked(t, looked, done) && Names(t, s, x) && s in looked
    ensures x in t
  {
    var p :| DirRule(t, s.dir, p) && ParentSeen(t, looked, s.dir, p);
    NamedInTree(t, s.dir, p, s, x);
  }

  lemma OneName(t: map<nat, Node>, looked: set<Spot>, refs: seq<nat>, names: seq<nat>, reachable: seq<bool>,
      done: set<nat>,
                s: Spot, s': Spot, x: nat)
    requires WalkOver(t, looked, refs, names, reachable, done) && s in looked && s' in looked
    requires forall y :: y in t ==> LinkOk(t, refs, names, reachable, y)
    requires Names(t, s, x) && Names(t, s', x)
    ensures s == s' && x != ROOT
  {
    AllNamed(t, looked, done, s, x);
    assert LinkOk(t, refs, names, reachable, x);
    assert s in NamesIn(t, looked, x) && s' in NamesIn(t, looked, x);
    AtMostOne(NamesIn(t, looked, x), s, s');
  }

  lemma ParentIs(t: map<nat, Node>, looked: set<Spot>, refs: seq<nat>, names: seq<nat>, reachable: seq<bool>,
      done: set<nat>,
                 s: Spot, x: nat)
    requires WalkOver(t, looked, refs, names, reachable, done)
    requires forall y :: y in t ==> LinkOk(t, refs, names, reachable, y)
    requires s in looked && Names(t, s, x) && x in done && x != ROOT
    ensures t[x].Dir? && DirRule(t, x, s.dir)
  {
    assert DoneOk(t, looked, done);
    var p :| DirRule(t, x, p) && ParentSeen(t, looked, x, p);
    var s' :| s' in looked && s'.dir == p && Names(t, s', x);
    OneName(t, looked, refs, names, reachable, done, s, s', x);
  }

  lemma NamedDone(t: map<nat, Node>, looked: set<Spot>, refs: seq<nat>, names: seq<nat>, reachable: seq<bool>,
      done: set<nat>,
                  s: Spot, x: nat)
    requires WalkOver(t, looked, refs, names, reachable, done)
    requires s in looked && Names(t, s, x) && IsDirIn(t, x)
    ensures x in done
  {
    assert s in NamesIn(t, looked, x);
    assert names[x] >= 1;
  }

  lemma DirsSound(t: map<nat, Node>, looked: set<Spot>, refs: seq<nat>, names: seq<nat>, reachable: seq<bool>,
      done: set<nat>)
    requires WalkOver(t, looked, refs, names, reachable, done)
    requires forall y :: y in t ==> LinkOk(t, refs, names, reachable, y)
    requires forall s :: IsSpot(t, s) ==> s in looked
    ensures DirsOk(t)
  {
    RootDone(t, looked, refs, names, reachable, done);
    forall d, x | Child(t, d, x) && x in t && t[x].Dir? && x != ROOT ensures DirRule(t, x, d) {
      var i :| Names(t, Spot(d, i), x);
      NamedDone(t, looked, refs, names, reachable, done, Spot(d, i), x);
      ParentIs(t, looked, refs, names, reachable, done, Spot(d, i), x);
    }
  }

  lemma RootDone(t: map<nat, Node>, looked: set<Spot>, refs: seq<nat>, names: seq<nat>, reachable: seq<bool>,
      done: set<nat>)
    requires WalkOver(t, looked, refs, names, reachable, done)
    ensures DirRule(t, ROOT, ROOT)
  {
    assert ROOT in done;
    var r :| DirRule(t, ROOT, r) && ParentSeen(t, looked, ROOT, r);
  }

  /** If check_links finds nothing after a clean walk, the tree's rules all hold. */
  lemma LinksSound(t: map<nat, Node>, looked: set<Spot>, refs: seq<nat>, names: seq<nat>, reachable: seq<bool>,
      done: set<nat>)
    requires WalkOver(t, looked, refs, names, reachable, done)
    requires forall x :: x in t ==> LinkOk(t, refs, names, reachable, x)
    ensures TreeOk(t)
  {
    forall x | x in t ensures Reachable(t, x) {
      assert LinkOk(t, refs, names, reachable, x);
      assert x == ROOT ==> ReachIn(t, x, 0);
    }
    AllDone(t, looked, refs, names, reachable, done);
    DirsSound(t, looked, refs, names, reachable, done);
    forall s, s', x | Names(t, s, x) && Names(t, s', x) ensures s == s' && x != ROOT {
      OneName(t, looked, refs, names, reachable, done, s, s', x);
    }
    forall x | x in t ensures t[x].links == |Refs(t, x)| {
      assert LinkOk(t, refs, names, reachable, x);
    }
  }

  /** And if they all hold, it finds nothing. */
  lemma LinksComplete(t: map<nat, Node>, looked: set<Spot>, refs: seq<nat>, names: seq<nat>, reachable: seq<bool>,
      done: set<nat>)
    requires WalkOver(t, looked, refs, names, reachable, done) && TreeOk(t)
    ensures forall x :: x in t ==> LinkOk(t, refs, names, reachable, x)
  {
    AllDone(t, looked, refs, names, reachable, done);
    forall x | x in t ensures LinkOk(t, refs, names, reachable, x) {
      if x == ROOT {
        assert NamesIn(t, looked, ROOT) == {};
      } else {
        UniqueSmall(NamesIn(t, looked, x));
      }
    }
  }
}
