/** What adding and removing an entry does to the rules of the directory tree. */
module TreeOps {
  import opened Codec
  import opened NameTree

  // --------------------------------------------------- what the rules imply

  lemma {:induction false} HasRule(t: map<nat, Node>, x: nat) returns (parent: nat)
    requires TreeOk(t) && x in t && t[x].Dir?
    ensures DirRule(t, x, parent) && parent in t
    ensures if x == ROOT then parent == ROOT else Child(t, parent, x)
  {
    if x == ROOT {
      parent := ROOT;
    } else {
      var n: nat :| ReachIn(t, x, n);
      parent :| Child(t, parent, x) && ReachIn(t, parent, n - 1);
    }
  }

  /** Every entry of a directory, past the dots, keeps the entry rules. */
  lemma EntriesOk(t: map<nat, Node>, s: Spot)
    requires TreeOk(t) && IsSpot(t, s)
    ensures s.slot >= 2 ==> EntryOk(t, EntryAt(t, s))
    ensures EntryAt(t, s).inode != 0 ==> EntryAt(t, s).inode in t
    ensures s.slot == 0 ==> EntryAt(t, s).inode == s.dir
  {
    var p := HasRule(t, s.dir);
  }

  lemma {:induction false} ReachMore(t: map<nat, Node>, t': map<nat, Node>, x: nat, n: nat)
    requires ReachIn(t, x, n)
    requires forall d, y :: Child(t, d, y) ==> Child(t', d, y)
    ensures ReachIn(t', x, n)
    decreases n
  {
    if x != ROOT {
      var d :| Child(t, d, x) && ReachIn(t, d, n - 1);
      ReachMore(t, t', d, n - 1);
    }
  }

  /** A chain to anything but x does not pass through x, if x names nothing. */
  lemma {:induction false} ReachAround(t: map<nat, Node>, t': map<nat, Node>, x: nat, y: nat, n: nat)
    requires ReachIn(t, y, n) && y != x && x != ROOT
    requires forall d, z :: Child(t, d, z) && z != x ==> Child(t', d, z)
    requires forall z :: !Child(t, x, z)
    ensures ReachIn(t', y, n)
    decreases n
  {
    if y != ROOT {
      var d :| Child(t, d, y) && ReachIn(t, d, n - 1);
      ReachAround(t, t', x, d, n - 1);
    }
  }

  // ------------------------------------------------------------ adding one

  /** slots' is slots with e in a free slot i, or with i and free slots added at the end. */
  predicate Inserted(slots: seq<Entry>, slots': seq<Entry>, i: nat, e: Entry) {
    && i < |slots'| && |slots| <= |slots'| && slots'[i] == e
    && (i < |slots| ==> slots[i].inode == 0)
    && forall k :: 0 <= k < |slots'| && k != i ==> slots'[k] == if k < |slots| then slots[k] else ZERO_ENTRY
  }

  /** A new directory: "." and ".." and nothing else. */
  predicate FreshDir(slots: seq<Entry>, x: nat, parent: nat) {
    && |slots| >= 2 && IsDot(slots[0], DOT, x) && IsDot(slots[1], DOTDOT, parent)
    && forall k :: 2 <= k < |slots| ==> slots[k] == ZERO_ENTRY
  }

  /** e names a new inode x, a file or an empty directory, by a name that d has not got. */
  predicate NewEntry(t: map<nat, Node>, d: nat, x: nat, node: Node, e: Entry) {
    && d in t && t[d].Dir? && x !in t && x != 0
    && e.inode == x && 1 <= e.len <= MAX_NAME_LEN && GoodName(e.Name())
    && (forall k :: 0 <= k < |t[d].slots| && t[d].slots[k].inode != 0 ==> t[d].slots[k].Name() != e.Name())
    && match node
       case File(links) => links == 1 && e.kind == FT_FILE
       case Dir(links, slots) => links == 2 && e.kind == FT_DIR && FreshDir(slots, x, d)
  }

  function Added(t: map<nat, Node>, d: nat, slots': seq<Entry>, x: nat, node: Node): map<nat, Node>
    requires d in t && t[d].Dir?
  {
    t[d := Dir(t[d].links + if node.Dir? then 1 else 0, slots')][x := node]
  }

  lemma AddedNames(t: map<nat, Node>, d: nat, slots': seq<Entry>, i: nat, x: nat, node: Node, e: Entry)
    requires TreeOk(t) && NewEntry(t, d, x, node, e) && Inserted(t[d].slots, slots', i, e) && i >= 2
    ensures var t' := Added(t, d, slots', x, node);
            forall s, y :: Names(t', s, y) <==> Names(t, s, y) || (s == Spot(d, i) && y == x)
  {
    var t' := Added(t, d, slots', x, node);
    forall s, y ensures Names(t', s, y) <==> Names(t, s, y) || (s == Spot(d, i) && y == x) {
      if s.dir != d && s.dir != x {
        assert IsSpot(t', s) <==> IsSpot(t, s);
      }
    }
  }

  lemma AddedEntryOk(t: map<nat, Node>, d: nat, slots': seq<Entry>, x: nat, node: Node, e: Entry)
    requires d in t && t[d].Dir? && x !in t && EntryOk(t, e)
    ensures EntryOk(Added(t, d, slots', x, node), e)
  {
  }

  lemma AddedRule(t: map<nat, Node>, d: nat, slots': seq<Entry>, i: nat, x: nat, node: Node, e: Entry, y: nat,
      parent: nat)
    requires NewEntry(t, d, x, node, e) && Inserted(t[d].slots, slots', i, e) && i >= 2
    requires y in t && t[y].Dir? && DirRule(t, y, parent)
    ensures DirRule(Added(t, d, slots', x, node), y, parent)
  {
    var t' := Added(t, d, slots', x, node);
    forall k | 2 <= k < |t'[y].slots| ensures EntryOk(t', t'[y].slots[k]) {
      if y == d && k == i {
      } else if k < |t[y].slots| {
        AddedEntryOk(t, d, slots', x, node, t[y].slots[k]);
      }
    }
  }

  lemma FreshRule(t: map<nat, Node>, d: nat, slots': seq<Entry>, x: nat, node: Node, e: Entry)
    requires NewEntry(t, d, x, node, e) && node.Dir?
    ensures DirRule(Added(t, d, slots', x, node), x, d)
  {
  }

  lemma AddedDirs(t: map<nat, Node>, d: nat, slots': seq<Entry>, i: nat, x: nat, node: Node, e: Entry)
    requires TreeOk(t) && NewEntry(t, d, x, node, e) && Inserted(t[d].slots, slots', i, e) && i >= 2
    ensures DirsOk(Added(t, d, slots', x, node))
  {
    var t' := Added(t, d, slots', x, node);
    AddedNames(t, d, slots', i, x, node, e);
    NotNamed(t, x);
    RefsAre(t, x);
    AddedRule(t, d, slots', i, x, node, e, ROOT, ROOT);
    forall c, y | Child(t', c, y) && y in t' && t'[y].Dir? && y != ROOT ensures DirRule(t', y, c) {
      var k :| Names(t', Spot(c, k), y);
      if y != x {
        assert Child(t, c, y);
        AddedRule(t, d, slots', i, x, node, e, y, c);
      } else {
        assert HoldsAt(t, Spot(c, k), x) || c == d;
        FreshRule(t, d, slots', x, node, e);
      }
    }
  }

  lemma AddedOnce(t: map<nat, Node>, d: nat, slots': seq<Entry>, i: nat, x: nat, node: Node, e: Entry)
    requires TreeOk(t) && NewEntry(t, d, x, node, e) && Inserted(t[d].slots, slots', i, e) && i >= 2
    ensures NamedOnce(Added(t, d, slots', x, node))
  {
    AddedNames(t, d, slots', i, x, node, e);
    NotNamed(t, x);
    RefsAre(t, x);
    forall s ensures !Names(t, s, x) {
      assert !HoldsAt(t, s, x);
    }
  }

  lemma AddedReach(t: map<nat, Node>, d: nat, slots': seq<Entry>, i: nat, x: nat, node: Node, e: Entry)
    requires TreeOk(t) && NewEntry(t, d, x, node, e) && Inserted(t[d].slots, slots', i, e) && i >= 2
    ensures var t' := Added(t, d, slots', x, node); forall y :: y in t' ==> Reachable(t', y)
  {
    var t' := Added(t, d, slots', x, node);
    AddedNames(t, d, slots', i, x, node, e);
    forall c, y | Child(t, c, y) ensures Child(t', c, y) {
      var k :| Names(t, Spot(c, k), y);
      assert Names(t', Spot(c, k), y);
    }
    forall y | y in t ensures Reachable(t', y) {
      var n: nat :| ReachIn(t, y, n);
      ReachMore(t, t', y, n);
    }
    var n: nat :| ReachIn(t', d, n);
    assert Names(t', Spot(d, i), x);
    assert Child(t', d, x);
    assert ReachIn(t', x, n + 1);
  }

  /** The spots that come to hold y when x is added under d. */
  function AddedRefs(d: nat, i: nat, x: nat, node: Node, y: nat): set<Spot> {
    (if y == x then {Spot(d, i)} else {})
    + (if node.Dir? && y == x then {Spot(x, 0)} else {}) + (if node.Dir? && y == d then {Spot(x, 1)} else {})
  }

  predicate HoldsAt(t: map<nat, Node>, s: Spot, y: nat) {
    IsSpot(t, s) && EntryAt(t, s).inode == y
  }

  lemma RefsAre(t: map<nat, Node>, y: nat)
    ensures forall s :: s in Refs(t, y) <==> HoldsAt(t, s, y)
  {
  }

  lemma AddedHolds(t: map<nat, Node>, d: nat, slots': seq<Entry>, i: nat, x: nat, node: Node, e: Entry, y: nat, s: Spot)
    requires NewEntry(t, d, x, node, e) && Inserted(t[d].slots, slots', i, e) && i >= 2 && y != 0
    ensures HoldsAt(Added(t, d, slots', x, node), s, y) <==> HoldsAt(t, s, y) || s in AddedRefs(d, i, x, node, y)
    ensures s in AddedRefs(d, i, x, node, y) ==> !HoldsAt(t, s, y)
  {
    var t' := Added(t, d, slots', x, node);
    if s.dir == x && node.Dir? {
      assert s.slot >= 2 && s.slot < |node.slots| ==> node.slots[s.slot] == ZERO_ENTRY;
    }
  }

  lemma AddedRefsAre(t: map<nat, Node>, d: nat, slots': seq<Entry>, i: nat, x: nat, node: Node, e: Entry, y: nat)
    requires NewEntry(t, d, x, node, e) && Inserted(t[d].slots, slots', i, e) && i >= 2 && y != 0
    ensures Refs(Added(t, d, slots', x, node), y) == Refs(t, y) + AddedRefs(d, i, x, node, y)
    ensures Refs(t, y) !! AddedRefs(d, i, x, node, y)
  {
    RefsAre(t, y);
    RefsAre(Added(t, d, slots', x, node), y);
    forall s ensures s in Refs(Added(t, d, slots', x, node), y) <==> s in Refs(t, y) + AddedRefs(d, i, x, node, y) {
      AddedHolds(t, d, slots', i, x, node, e, y, s);
    }
    forall s | s in AddedRefs(d, i, x, node, y) ensures s !in Refs(t, y) {
      AddedHolds(t, d, slots', i, x, node, e, y, s);
    }
  }

  lemma AddedLinks(t: map<nat, Node>, d: nat, slots': seq<Entry>, i: nat, x: nat, node: Node, e: Entry)
    requires TreeOk(t) && NewEntry(t, d, x, node, e) && Inserted(t[d].slots, slots', i, e) && i >= 2
    requires 0 !in t
    ensures LinksOk(Added(t, d, slots', x, node))
  {
    var t' := Added(t, d, slots', x, node);
    forall y | y in t' ensures t'[y].links == |Refs(t', y)| {
      AddedRefsAre(t, d, slots', i, x, node, e, y);
      if y == x {
        NotNamed(t, x);
      }
    }
  }

  lemma NotNamed(t: map<nat, Node>, x: nat)
    requires TreeOk(t) && x !in t && x != 0
    ensures Refs(t, x) == {}
  {
    forall s | s in Refs(t, x) ensures false {
      EntriesOk(t, s);
    }
  }

  /** "." and ".." are never free. */
  lemma FreeSlot(t: map<nat, Node>, d: nat, slots': seq<Entry>, i: nat, e: Entry)
    requires TreeOk(t) && d in t && t[d].Dir? && Inserted(t[d].slots, slots', i, e) && 0 !in t
    ensures i >= 2
  {
    var p := HasRule(t, d);
  }

  /** Adding a well-formed entry for a new inode keeps every rule of the tree. */
  lemma AddKeepsTree(t: map<nat, Node>, d: nat, slots': seq<Entry>, i: nat, x: nat, node: Node, e: Entry)
    requires TreeOk(t) && NewEntry(t, d, x, node, e) && Inserted(t[d].slots, slots', i, e) && i >= 2 && 0 !in t
    ensures TreeOk(Added(t, d, slots', x, node))
  {
    AddedDirs(t, d, slots', i, x, node, e);
    AddedOnce(t, d, slots', i, x, node, e);
    AddedReach(t, d, slots', i, x, node, e);
    AddedLinks(t, d, slots', i, x, node, e);
  }

  // ---------------------------------------------------------- removing one

  /** Slot i of d names x, which is a file or an empty directory. */
  predicate Removable(t: map<nat, Node>, d: nat, i: nat, x: nat) {
    Names(t, Spot(d, i), x) && x in t && (t[x].Dir? ==> forall k :: 2 <= k < |t[x].slots| ==> t[x].slots[k].inode == 0)
  }

  function Removed(t: map<nat, Node>, d: nat, i: nat, x: nat): map<nat, Node>
    requires Removable(t, d, i, x) && (t[x].Dir? ==> t[d].links >= 1)
  {
    (t - {x})[d := Dir(if t[x].Dir? then t[d].links - 1 else t[d].links, t[d].slots[i := ZERO_ENTRY])]
  }

  /** Nothing is named by what is removed, the root is not removed, and d stays. */
  lemma RemovedApart(t: map<nat, Node>, d: nat, i: nat, x: nat)
    requires TreeOk(t) && Removable(t, d, i, x)
    ensures x != ROOT && x != d && (forall z :: !Child(t, x, z))
  {
  }

  /** A removed directory's "..": one of d's links. */
  lemma ParentLinks(t: map<nat, Node>, d: nat, i: nat, x: nat)
    requires TreeOk(t) && Removable(t, d, i, x) && t[x].Dir?
    ensures Spot(x, 1) in Refs(t, d) && t[d].links >= 1
  {
    RemovedApart(t, d, i, x);
    assert Child(t, d, x);
    assert DirRule(t, x, d);
    assert HoldsAt(t, Spot(x, 1), d);
    RefsAre(t, d);
  }

  lemma RemovedNames(t: map<nat, Node>, d: nat, i: nat, x: nat)
    requires TreeOk(t) && Removable(t, d, i, x) && (t[x].Dir? ==> t[d].links >= 1)
    ensures forall s, y :: Names(Removed(t, d, i, x), s, y) <==> Names(t, s, y) && s != Spot(d, i)
    ensures forall s, y :: Names(t, s, y) && s != Spot(d, i) ==> y != x
  {
    RemovedApart(t, d, i, x);
    var t' := Removed(t, d, i, x);
    forall s, y ensures Names(t', s, y) <==> Names(t, s, y) && s != Spot(d, i) {
      if s.dir != d && s.dir != x {
        assert IsSpot(t', s) <==> IsSpot(t, s);
      }
      if s.dir == x {
        assert Names(t, s, y) ==> Child(t, x, y);
      }
    }
  }

  /** No other entry past the dots names x. */
  lemma OnlyThere(t: map<nat, Node>, d: nat, i: nat, x: nat, y: nat, k: nat)
    requires NamedOnce(t) && Removable(t, d, i, x) && IsSpot(t, Spot(y, k)) && k >= 2 && Spot(y, k) != Spot(d, i)
    ensures EntryAt(t, Spot(y, k)).inode != x
  {
    assert EntryAt(t, Spot(y, k)).inode == x ==> Names(t, Spot(y, k), x);
  }

  lemma RemovedEntryOk(t: map<nat, Node>, d: nat, i: nat, x: nat, e: Entry)
    requires Removable(t, d, i, x) && (t[x].Dir? ==> t[d].links >= 1) && EntryOk(t, e) && e.inode != x && x != 0
    ensures EntryOk(Removed(t, d, i, x), e)
  {
  }

  lemma RemovedRule(t: map<nat, Node>, d: nat, i: nat, x: nat, y: nat, parent: nat)
    requires NamedOnce(t) && Removable(t, d, i, x) && (t[x].Dir? ==> t[d].links >= 1) && x != d
    requires y in t && t[y].Dir? && y != x && DirRule(t, y, parent)
    ensures DirRule(Removed(t, d, i, x), y, parent)
  {
    var t' := Removed(t, d, i, x);
    forall k | 2 <= k < |t'[y].slots| ensures EntryOk(t', t'[y].slots[k]) {
      if y != d || k != i {
        OnlyThere(t, d, i, x, y, k);
        RemovedEntryOk(t, d, i, x, t[y].slots[k]);
      }
    }
  }

  lemma RemovedDirs(t: map<nat, Node>, d: nat, i: nat, x: nat)
    requires TreeOk(t) && Removable(t, d, i, x) && (t[x].Dir? ==> t[d].links >= 1)
    ensures DirsOk(Removed(t, d, i, x)) && NamedOnce(Removed(t, d, i, x))
  {
    var t' := Removed(t, d, i, x);
    RemovedApart(t, d, i, x);
    RemovedNames(t, d, i, x);
    RemovedRule(t, d, i, x, ROOT, ROOT);
    forall c, y | Child(t', c, y) && y in t' && t'[y].Dir? && y != ROOT ensures DirRule(t', y, c) {
      var k :| Names(t', Spot(c, k), y);
      assert Child(t, c, y);
      RemovedRule(t, d, i, x, y, c);
    }
  }

  lemma RemovedReach(t: map<nat, Node>, d: nat, i: nat, x: nat)
    requires TreeOk(t) && Removable(t, d, i, x) && (t[x].Dir? ==> t[d].links >= 1)
    ensures forall y :: y in Removed(t, d, i, x) ==> Reachable(Removed(t, d, i, x), y)
  {
    var t' := Removed(t, d, i, x);
    RemovedApart(t, d, i, x);
    RemovedNames(t, d, i, x);
    forall c, z | Child(t, c, z) && z != x ensures Child(t', c, z) {
      var k :| Names(t, Spot(c, k), z);
      assert Names(t', Spot(c, k), z);
    }
    forall y | y in t' ensures Reachable(t', y) {
      var n: nat :| ReachIn(t, y, n);
      ReachAround(t, t', x, y, n);
    }
  }

  lemma RemovedHolds(t: map<nat, Node>, d: nat, i: nat, x: nat, y: nat, s: Spot)
    requires Removable(t, d, i, x) && (t[x].Dir? ==> t[d].links >= 1) && y != 0 && y != x
    requires x != d && (t[x].Dir? ==> DirRule(t, x, d))
    ensures HoldsAt(Removed(t, d, i, x), s, y) <==> HoldsAt(t, s, y) && !(t[x].Dir? && y == d && s == Spot(x, 1))
  {
  }

  lemma RemovedLinks(t: map<nat, Node>, d: nat, i: nat, x: nat)
    requires TreeOk(t) && Removable(t, d, i, x) && (t[x].Dir? ==> t[d].links >= 1) && 0 !in t
    ensures LinksOk(Removed(t, d, i, x))
  {
    var t' := Removed(t, d, i, x);
    RemovedApart(t, d, i, x);
    assert Child(t, d, x);
    if t[x].Dir? {
      ParentLinks(t, d, i, x);
    }
    forall y | y in t' ensures t'[y].links == |Refs(t', y)| {
      RemovedRefs(t, d, i, x, y);
    }
  }

  lemma RemovedRefs(t: map<nat, Node>, d: nat, i: nat, x: nat, y: nat)
    requires Removable(t, d, i, x) && (t[x].Dir? ==> t[d].links >= 1) && y != 0 && y != x
    requires x != d && (t[x].Dir? ==> DirRule(t, x, d))
    ensures Refs(Removed(t, d, i, x), y) == Refs(t, y) - if t[x].Dir? && y == d then {Spot(x, 1)} else {}
  {
    RefsAre(t, y);
    RefsAre(Removed(t, d, i, x), y);
    forall s ensures s in Refs(Removed(t, d, i, x), y)
                     <==> s in Refs(t, y) - if t[x].Dir? && y == d then {Spot(x, 1)} else {} {
      RemovedHolds(t, d, i, x, y, s);
    }
  }

  /** Removing the entry of a file or an empty directory, and the inode, keeps every rule. */
  lemma RemoveKeepsTree(t: map<nat, Node>, d: nat, i: nat, x: nat)
    requires TreeOk(t) && Removable(t, d, i, x) && (t[x].Dir? ==> t[d].links >= 1) && 0 !in t
    ensures TreeOk(Removed(t, d, i, x))
  {
    RemovedDirs(t, d, i, x);
    RemovedReach(t, d, i, x);
    RemovedLinks(t, d, i, x);
  }

  lemma OwnDot(t: map<nat, Node>, d: nat)
    requires TreeOk(t) && d in t && t[d].Dir?
    ensures Spot(d, 0) in Refs(t, d)
  {
    var p := HasRule(t, d);
    RefsAre(t, d);
    assert HoldsAt(t, Spot(d, 0), d);
  }

  lemma TwoAtLeast<T>(s: set<T>, a: T, b: T)
    requires a in s && b in s && a != b
    ensures |s| >= 2
  {
    assert |s - {a}| == |s| - 1;
    assert b in s - {a};
  }

  /** A directory with a subdirectory has two links at least: its own "." and the other's "..". */
  lemma TwoLinks(t: map<nat, Node>, d: nat, i: nat, x: nat)
    requires TreeOk(t) && Removable(t, d, i, x) && t[x].Dir?
    ensures d in t && t[d].links >= 2
  {
    RemovedApart(t, d, i, x);
    ParentLinks(t, d, i, x);
    OwnDot(t, d);
    TwoAtLeast(Refs(t, d), Spot(d, 0), Spot(x, 1));
  }
}
