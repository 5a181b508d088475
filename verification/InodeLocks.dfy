/** The lock manager: one entry for every inode somebody refers to, and the copies of inodes kept there. */
module InodeLocks {
  import opened DiskImage
  import opened ImageUpdate
  import opened Volume

  /** An inode's entry, without the lock itself. */
  class LockEntry {
    var refs: nat
    var openCount: nat
    var inode: Inode
    var inodeValid: bool

    constructor ()
      ensures refs == 0 && openCount == 0 && !inodeValid
    {
      refs, openCount, inode, inodeValid := 0, 0, ZERO_INODE, false;
    }

    /** A valid copy is the inode itself. */
    predicate Faithful(v: Volume, f: nat)
      reads this, v
    {
      f < |v.img.inodes| && (inodeValid ==> inode == v.img.inodes[f])
    }
  }

  /** One acquire that has not been released: for which number, the entry it was given, and if it is a descriptor's. */
  datatype Ref = Ref(id: nat, entry: LockEntry, fd: bool)

  /** The references to one inode's entry. */
  ghost function RefsTo(held: map<nat, Ref>, id: nat): set<nat> {
    set t | t in held && held[t].id == id
  }

  /** How many references there are to each inode's entry. */
  ghost predicate Counts(held: map<nat, Ref>, counts: map<nat, nat>) {
    forall c :: c == counts ==> CountsIn(held, c)
  }

  ghost predicate CountsIn(held: map<nat, Ref>, counts: map<nat, nat>) {
    forall f :: f in counts ==> counts[f] == |RefsTo(held, f)| > 0
  }

  lemma CountsMore(held: map<nat, Ref>, counts: map<nat, nat>, t: nat, r: Ref)
    requires Counts(held, counts) && t !in held && (r.id in counts || RefsTo(held, r.id) == {})
    ensures Counts(held[t := r], counts[r.id := 1 + if r.id in counts then counts[r.id] else 0])
  {
    assert CountsIn(held, counts);
    var more := counts[r.id := 1 + if r.id in counts then counts[r.id] else 0];
    forall f | f in more ensures more[f] == |RefsTo(held[t := r], f)| > 0 {
      OneRefMore(held, t, r, f);
    }
    assert CountsIn(held[t := r], more);
  }

  lemma CountsLess(held: map<nat, Ref>, counts: map<nat, nat>, t: nat, id: nat)
    requires Counts(held, counts) && t in held && held[t].id == id && id in counts
    ensures counts[id] > 0
    ensures Counts(held - {t}, if counts[id] == 1 then counts - {id} else counts[id := counts[id] - 1])
    ensures counts[id] == 1 <==> RefsTo(held, id) == {t}
    ensures counts[id] == 1 ==> forall u :: u in held - {t} ==> held[u].id != id
  {
    assert CountsIn(held, counts);
    var less := if counts[id] == 1 then counts - {id} else counts[id := counts[id] - 1];
    forall f | f in less ensures less[f] == |RefsTo(held - {t}, f)| > 0 {
      OneRefLess(held, t, f);
    }
    assert CountsIn(held - {t}, less);
    OneRefLess(held, t, id);
    if counts[id] == 1 {
      NoneHeld(held - {t}, id);
      assert RefsTo(held, id) == {t};
    }
  }

  /** No entry is two inodes' own, and every reference is to an entry that is there. */
  ghost predicate Agree(entries: map<nat, LockEntry>, held: map<nat, Ref>) {
    && (forall f, g :: f in entries && g in entries && entries[f] == entries[g] ==> f == g)
    && (forall t :: t in held ==> held[t].id in entries && entries[held[t].id] == held[t].entry)
  }

  lemma AgreeMore(entries: map<nat, LockEntry>, held: map<nat, Ref>, id: nat, e: LockEntry, t: nat)
    requires Agree(entries, held) && t !in held
    requires if id in entries then e == entries[id] else forall f :: f in entries ==> entries[f] != e
    ensures Agree(entries[id := e], held[t := Ref(id, e, false)])
    ensures id in entries ==> entries[id := e] == entries
  {
  }

  class LockManager {
    var entries: map<nat, LockEntry>
    ghost var held: map<nat, Ref>

    /** An entry is there just as long as somebody refers to it, and they all refer to that one. */
    ghost predicate Valid()
      reads this, entries.Values`refs
    {
      Agree(entries, held) && Counts(held, RefCounts())
    }

    ghost function RefCounts(): map<nat, nat>
      reads this, entries.Values`refs
    {
      map f | f in entries :: entries[f].refs
    }

    constructor ()
      ensures Valid() && entries == map[] && held == map[]
    {
      entries, held := map[], map[];
    }

    /** A reference to id's entry, made if there is none. Its `t` stands for it until it is released. */
    method Acquire(id: nat) returns (e: LockEntry, ghost t: nat)
      requires Valid()
      modifies this, entries.Values`refs
      ensures Valid() && t !in old(held) && held == old(held)[t := Ref(id, e, false)]
      ensures id in entries && entries[id] == e
      ensures if id in old(entries) then entries == old(entries)
              else fresh(e) && entries == old(entries)[id := e] && !e.inodeValid && e.openCount == 0
    {
      t := Unheld(held);
      if id in entries {
        e := entries[id];
      } else {
        e := new LockEntry();
        NoRefs(held, entries, id);
      }
      Refer(id, e, t);
    }

    /** Counts the reference t to id's entry e. */
    method Refer(id: nat, e: LockEntry, ghost t: nat)
      requires Valid() && t !in held
      requires if id in entries then e == entries[id]
               else e !in entries.Values && e.refs == 0 && RefsTo(held, id) == {}
      modifies this, e`refs
      ensures Valid() && held == old(held)[t := Ref(id, e, false)] && entries == old(entries)[id := e]
    {
      AgreeMore(entries, held, id, e, t);
      ghost var counts := RefCounts();
      CountsMore(held, counts, t, Ref(id, e, false));
      entries := entries[id := e];
      held := held[t := Ref(id, e, false)];
      e.refs := e.refs + 1;
      assert RefCounts() == counts[id := 1 + if id in counts then counts[id] else 0];
    }

    /** The reference t goes back; the entry goes with the last. */
    method Release(id: nat, ghost t: nat)
      requires Valid() && t in held && held[t].id == id
      modifies this, entries.Values`refs
      ensures Valid() && held == old(held) - {t}
      ensures entries == if RefsTo(old(held), id) == {t} then old(entries) - {id} else old(entries)
    {
      var e := entries[id];
      ghost var counts := RefCounts();
      CountsLess(held, counts, t, id);
      e.refs := e.refs - 1;
      held := held - {t};
      if e.refs == 0 {
        entries := entries - {id};
      }
      assert RefCounts() == if counts[id] == 1 then counts - {id} else counts[id := counts[id] - 1];
    }

    // ------------------------------------------------------- copies of inodes

    /** The copies that are marked valid. */
    ghost function Copies(): map<nat, Inode>
      reads this, entries.Values
    {
      map f | f in entries && entries[f].inodeValid :: entries[f].inode
    }

    // ------------------------------------------------------------ descriptors

    ghost function OpenCounts(): map<nat, nat>
      reads this, entries.Values`openCount
    {
      map f | f in entries :: entries[f].openCount
    }

    /** The reference t is a descriptor's from now on, or is one no more. */
    ghost method Mark(t: nat, fd: bool)
      requires Valid() && t in held
      modifies this`held
      ensures Valid() && held == old(held)[t := old(held[t]).(fd := fd)]
    {
      CountsMarked(held, RefCounts(), t, fd);
      held := held[t := held[t].(fd := fd)];
    }
  }

  /** The descriptors that have an inode open. */
  ghost function Descriptors(held: map<nat, Ref>, id: nat): set<nat> {
    set t | t in held && held[t].id == id && held[t].fd
  }

  /** Every entry counts just the descriptors that have its inode open. */
  ghost predicate OpensAre(held: map<nat, Ref>, opens: map<nat, nat>) {
    forall o :: o == opens ==> OpensIn(held, o)
  }

  ghost predicate OpensIn(held: map<nat, Ref>, opens: map<nat, nat>) {
    forall f :: f in opens ==> opens[f] == |Descriptors(held, f)|
  }

  lemma CountsMarked(held: map<nat, Ref>, counts: map<nat, nat>, t: nat, fd: bool)
    requires Counts(held, counts) && t in held
    ensures Counts(held[t := held[t].(fd := fd)], counts)
  {
    assert CountsIn(held, counts);
    var held' := held[t := held[t].(fd := fd)];
    forall f | f in counts ensures counts[f] == |RefsTo(held', f)| > 0 {
      assert RefsTo(held', f) == RefsTo(held, f);
    }
    assert CountsIn(held', counts);
  }

  /** A reference that is no descriptor's comes: nothing is counted for a new entry. */
  lemma OpensRefer(held: map<nat, Ref>, opens: map<nat, nat>, t: nat, r: Ref, opens': map<nat, nat>)
    requires OpensAre(held, opens) && t !in held && !r.fd && (r.id in opens || RefsTo(held, r.id) == {})
    requires forall f :: f in opens' ==> if f in opens then opens'[f] == opens[f] else f == r.id && opens'[f] == 0
    ensures OpensAre(held[t := r], opens')
  {
    assert OpensIn(held, opens);
    forall f | f in opens' ensures opens'[f] == |Descriptors(held[t := r], f)| {
      assert Descriptors(held[t := r], f) == Descriptors(held, f);
      assert Descriptors(held, f) <= RefsTo(held, f);
    }
    assert OpensIn(held[t := r], opens');
  }

  /** One that is no descriptor's goes. */
  lemma OpensRelease(held: map<nat, Ref>, opens: map<nat, nat>, t: nat, opens': map<nat, nat>)
    requires OpensAre(held, opens) && t in held && !held[t].fd
    requires forall f :: f in opens' ==> f in opens && opens'[f] == opens[f]
    ensures OpensAre(held - {t}, opens')
  {
    assert OpensIn(held, opens);
    forall f | f in opens' ensures opens'[f] == |Descriptors(held - {t}, f)| {
      assert Descriptors(held - {t}, f) == Descriptors(held, f);
    }
    assert OpensIn(held - {t}, opens');
  }

  lemma OpensMark(held: map<nat, Ref>, opens: map<nat, nat>, t: nat)
    requires OpensAre(held, opens) && t in held && !held[t].fd && held[t].id in opens
    ensures var x := held[t].id; OpensAre(held[t := held[t].(fd := true)], opens[x := opens[x] + 1])
  {
    assert OpensIn(held, opens);
    var x, held' := held[t].id, held[t := held[t].(fd := true)];
    forall f | f in opens ensures |Descriptors(held', f)| == opens[f] + if f == x then 1 else 0 {
      MarkedOne(held, t, f);
    }
    assert OpensIn(held', opens[x := opens[x] + 1]);
  }

  lemma MarkedOne(held: map<nat, Ref>, t: nat, f: nat)
    requires t in held && !held[t].fd
    ensures var held' := held[t := held[t].(fd := true)];
            |Descriptors(held', f)| == |Descriptors(held, f)| + if f == held[t].id then 1 else 0
  {
    var held' := held[t := held[t].(fd := true)];
    assert Descriptors(held', f) == if f == held[t].id then Descriptors(held, f) + {t} else Descriptors(held, f);
  }

  lemma OpensUnmark(held: map<nat, Ref>, opens: map<nat, nat>, t: nat)
    requires OpensAre(held, opens) && t in held && held[t].fd && held[t].id in opens
    ensures var x := held[t].id;
            opens[x] > 0 && OpensAre(held[t := held[t].(fd := false)], opens[x := opens[x] - 1])
  {
    assert OpensIn(held, opens);
    var x, held' := held[t].id, held[t := held[t].(fd := false)];
    assert t in Descriptors(held, x);
    forall f | f in opens ensures |Descriptors(held', f)| == opens[f] - if f == x then 1 else 0 {
      assert Descriptors(held', f) == if f == x then Descriptors(held, f) - {t} else Descriptors(held, f);
    }
    assert OpensIn(held', opens[x := opens[x] - 1]);
  }

  /** An entry's count says whether any descriptor has the inode open; without an entry, none has. */
  lemma OpenShows(entries: map<nat, LockEntry>, held: map<nat, Ref>, opens: map<nat, nat>, x: nat)
    requires OpensAre(held, opens)
    ensures x in opens ==> opens[x] == |Descriptors(held, x)| && (opens[x] > 0 <==> Descriptors(held, x) != {})
    ensures Agree(entries, held) && x !in entries ==> Descriptors(held, x) == {}
  {
    assert OpensIn(held, opens);
  }

  /** Whoever holds a reference to an inode number, now or since earlier, has the same entry, and so the same lock. */
  lemma OneLock(m: LockManager, t: nat, u: nat)
    requires m.Valid() && t in m.held && u in m.held && m.held[t].id == m.held[u].id
    ensures m.held[t].entry == m.held[u].entry && m.held[t].id in m.entries
            && m.entries[m.held[t].id] == m.held[t].entry
  {
  }

  ghost function Unheld(held: map<nat, Ref>): (t: nat)
    ensures t !in held
  {
    Above(held.Keys)
  }

  ghost function Above(s: set<nat>): (n: nat)
    ensures forall k :: k in s ==> k < n
    decreases |s|
  {
    if s == {} then 0
    else
      var x :| x in s;
      var n := Above(s - {x});
      assert forall k :: k in s ==> k == x || k in s - {x};
      if x < n then n else x + 1
  }

  lemma NoRefs(held: map<nat, Ref>, entries: map<nat, LockEntry>, id: nat)
    requires Agree(entries, held) && id !in entries
    ensures RefsTo(held, id) == {}
  {
  }

  lemma NoneHeld(held: map<nat, Ref>, id: nat)
    requires |RefsTo(held, id)| == 0
    ensures RefsTo(held, id) == {} && forall t :: t in held ==> held[t].id != id
  {
    forall t | t in held ensures held[t].id != id {
      assert t !in RefsTo(held, id);
    }
  }

  lemma OneRefMore(held: map<nat, Ref>, t: nat, r: Ref, f: nat)
    requires t !in held
    ensures RefsTo(held[t := r], f) == if r.id == f then RefsTo(held, f) + {t} else RefsTo(held, f)
    ensures |RefsTo(held[t := r], f)| == |RefsTo(held, f)| + if r.id == f then 1 else 0
  {
    assert RefsTo(held[t := r], f) == if r.id == f then RefsTo(held, f) + {t} else RefsTo(held, f);
  }

  lemma OneRefLess(held: map<nat, Ref>, t: nat, f: nat)
    requires t in held
    ensures RefsTo(held - {t}, f) == if held[t].id == f then RefsTo(held, f) - {t} else RefsTo(held, f)
    ensures |RefsTo(held - {t}, f)| == |RefsTo(held, f)| - if held[t].id == f then 1 else 0
  {
    assert RefsTo(held - {t}, f) == if held[t].id == f then RefsTo(held, f) - {t} else RefsTo(held, f);
    assert held[t].id == f ==> t in RefsTo(held, f);
  }

  // ------------------------------------------------ copies and the stored inodes

  /** Each is a copy of a file in use, as it is stored. */
  ghost predicate CopiesHold(copies: map<nat, Inode>, img: Image) {
    forall f :: f in copies ==> CopyHolds(copies[f], img, f)
  }

  ghost predicate CopyHolds(copy: Inode, img: Image, f: nat) {
    InUse(img, f) && img.inodes[f].mode == FILE_MODE && img.inodes[f] == copy
  }

  /** A change to other inodes leaves the copies true. */
  lemma CopiesSpared(copies: map<nat, Inode>, img: Image, img': Image, ids: set<nat>)
    requires CopiesHold(copies, img) && Spared(img, img', ids) && forall f :: f in ids ==> f !in copies
    ensures CopiesHold(copies, img')
  {
    forall f | f in copies ensures CopyHolds(copies[f], img', f) {
      assert CopyHolds(copies[f], img, f) && SparedAt(img, img', f);
    }
  }

  /** Only a file in use has a copy: no directory, and no number that is free. */
  lemma CopyIsFile(copies: map<nat, Inode>, img: Image, f: nat)
    requires CopiesHold(copies, img) && f in copies
    ensures InUse(img, f) && img.inodes[f].mode == FILE_MODE && copies[f] == img.inodes[f]
  {
    assert CopyHolds(copies[f], img, f);
  }

  lemma FewerCopies(copies: map<nat, Inode>, fewer: map<nat, Inode>, img: Image)
    requires CopiesHold(copies, img) && forall f :: f in fewer ==> f in copies && copies[f] == fewer[f]
    ensures CopiesHold(fewer, img)
  {
    forall f | f in fewer ensures CopyHolds(fewer[f], img, f) {
      assert CopyHolds(copies[f], img, f);
    }
  }
}
