/**
 The calls as the program makes them, with their directory or file found and locked: they
 use the lock manager's entries, and the copies of inodes kept there, on the way.
 */
module Vfs {
  import opened Layout
  import opened Codec
  import opened NameTree
  import opened DiskImage
  import opened BlockMap
  import opened ImageUpdate
  import opened Volume
  import opened FileData
  import opened Charges
  import opened FileIO
  import opened InodeLocks
  import opened Calls

  /** The entries are in order, every copy they keep is true, and they count the descriptors. */
  ghost predicate Coherent(v: Volume, m: LockManager)
    reads v`img, m, m.entries.Values
  {
    forall i :: i == v.img ==> CoherentIn(i, m)
  }

  ghost predicate CoherentIn(img: Image, m: LockManager)
    reads m, m.entries.Values
  {
    m.Valid() && CopiesHold(m.Copies(), img) && OpensAre(m.held, m.OpenCounts())
  }

  // ------------------------------------------------------ entries in passing

  /** A reference to x's entry, taken. */
  method Refer(v: Volume, m: LockManager, x: nat) returns (e: LockEntry, ghost t: nat)
    requires Coherent(v, m)
    modifies m, m.entries.Values`refs
    ensures Coherent(v, m) && t !in old(m.held) && m.held == old(m.held)[t := Ref(x, e, false)]
    ensures x in m.entries && m.entries[x] == e && e.openCount == |Descriptors(old(m.held), x)|
    ensures fresh(m.entries.Values - old(m.entries.Values))
  {
    assert CoherentIn(v.img, m);
    ghost var copies, held, opens := m.Copies(), m.held, m.OpenCounts();
    OpenShows(m.entries, held, opens, x);
    NoneWithout(held, m.entries, x);
    e, t := m.Acquire(x);
    OpensRefer(held, opens, t, Ref(x, e, false), m.OpenCounts());
    StillCoherent(v, m, copies);
  }

  lemma StillCoherent(v: Volume, m: LockManager, copies: map<nat, Inode>)
    requires m.Valid() && OpensAre(m.held, m.OpenCounts()) && CopiesHold(copies, v.img)
    requires forall f :: f in m.Copies() ==> f in copies && copies[f] == m.Copies()[f]
    ensures Coherent(v, m)
  {
    FewerCopies(copies, m.Copies(), v.img);
    assert CoherentIn(v.img, m);
  }

  lemma NoneWithout(held: map<nat, Ref>, entries: map<nat, LockEntry>, x: nat)
    requires Agree(entries, held)
    ensures x in entries || RefsTo(held, x) == {}
  {
    if x !in entries {
      NoRefs(held, entries, x);
    }
  }

  /** What x's entry keeps is not to be trusted any more. */
  method Distrust(v: Volume, m: LockManager, x: nat, e: LockEntry)
    requires Coherent(v, m) && x in m.entries && m.entries[x] == e
    modifies e`inodeValid
    ensures Coherent(v, m) && x !in m.Copies()
  {
    assert CoherentIn(v.img, m);
    ghost var copies := m.Copies();
    e.inodeValid := false;
    FewerCopies(copies, m.Copies(), v.img);
    assert CoherentIn(v.img, m);
  }

  /** One more descriptor has the file open, and keeps the reference t for it. */
  method CountOpen(v: Volume, m: LockManager, x: nat, e: LockEntry, ghost t: nat)
    requires Coherent(v, m) && t in m.held && m.held[t] == Ref(x, e, false)
    modifies m`held, e`openCount
    ensures Coherent(v, m) && m.held == old(m.held)[t := Ref(x, e, true)]
  {
    assert CoherentIn(v.img, m);
    ghost var copies, opens := m.Copies(), m.OpenCounts();
    OpensMark(m.held, opens, t);
    m.Mark(t, true);
    e.openCount := e.openCount + 1;
    assert m.OpenCounts() == opens[x := opens[x] + 1];
    StillCoherent(v, m, copies);
  }

  /** One descriptor fewer has it open. */
  method CountClosed(v: Volume, m: LockManager, x: nat, e: LockEntry, ghost t: nat)
    requires Coherent(v, m) && t in m.held && m.held[t] == Ref(x, e, true)
    modifies m`held, e`openCount
    ensures Coherent(v, m) && m.held == old(m.held)[t := Ref(x, e, false)]
    ensures old(e.openCount) > 0 && e.openCount == old(e.openCount) - 1
  {
    assert CoherentIn(v.img, m);
    ghost var copies, opens := m.Copies(), m.OpenCounts();
    OpensUnmark(m.held, opens, t);
    m.Mark(t, false);
    e.openCount := e.openCount - 1;
    assert m.OpenCounts() == opens[x := opens[x] - 1];
    StillCoherent(v, m, copies);
  }

  method LetGo(v: Volume, m: LockManager, x: nat, ghost t: nat)
    requires Coherent(v, m) && t in m.held && m.held[t].id == x && !m.held[t].fd
    modifies m, m.entries.Values`refs
    ensures Coherent(v, m) && m.held == old(m.held) - {t}
    ensures m.entries == if RefsTo(old(m.held), x) == {t} then old(m.entries) - {x} else old(m.entries)
  {
    assert CoherentIn(v.img, m);
    ghost var copies, held, opens := m.Copies(), m.held, m.OpenCounts();
    m.Release(x, t);
    OpensRelease(held, opens, t, m.OpenCounts());
    StillCoherent(v, m, copies);
  }

  lemma TakenBack(held: map<nat, Ref>, t: nat, r: Ref)
    requires t !in held
    ensures held[t := r] - {t} == held
  {
  }

  // ------------------------------------------------------- unlink and rmdir

  /** The name, the inode and its blocks go; nobody's copy was of either inode. */
  method RemoveFound(v: Volume, m: LockManager, d: nat, x: nat, name: seq<Byte>, now: u64)
    requires Good(v.img) && Leads(v.img, d, name, x) && Coherent(v, m) && x !in m.Copies()
    requires v.Covered()
    modifies v
    ensures v.Covered()
    ensures old(Tidy(v.img)) ==> Tidy(v.img)
    ensures Good(v.img) && Coherent(v, m)
    ensures Spared(old(v.img), v.img, {d, x}) && HasLost(old(v.img), v.img, d, x, name)
    ensures d < |v.img.inodes| && v.img.inodes[d].mtime == now
  {
    ghost var img := v.img;
    assert CoherentIn(v.img, m);
    RemoveEntry(v, d, x, name, now);
    LostSpared(m.Copies(), img, v.img, d, x);
    assert CoherentIn(v.img, m);
  }

  lemma LostSpared(copies: map<nat, Inode>, img: Image, img': Image, d: nat, x: nat)
    requires CopiesHold(copies, img) && d < |img.inodes| && IsDir(img.inodes[d]) && x !in copies
             && Spared(img, img', {d, x})
    ensures CopiesHold(copies, img')
  {
    if d in copies {
      CopyIsFile(copies, img, d);
    }
    CopiesSpared(copies, img, img', {d, x});
  }

  /** The file x goes, unless a descriptor has it open. */
  method RemoveClosed(v: Volume, m: LockManager, d: nat, x: nat, name: seq<Byte>, now: u64) returns (busy: bool)
    requires Good(v.img) && Leads(v.img, d, name, x) && Coherent(v, m)
    requires v.Covered()
    modifies v, m, m.entries.Values
    ensures v.Covered()
    ensures old(Tidy(v.img)) ==> Tidy(v.img)
    ensures Good(v.img) && Coherent(v, m) && m.held == old(m.held) && busy == (Descriptors(m.held, x) != {})
    ensures busy ==> v.img == old(v.img)
    ensures !busy ==> Spared(old(v.img), v.img, {d, x}) && HasLost(old(v.img), v.img, d, x, name)
                      && d < |v.img.inodes| && v.img.inodes[d].mtime == now
  {
    ghost var held := m.held;
    var e, t := Refer(v, m, x);
    TakenBack(held, t, Ref(x, e, false));
    busy := e.openCount > 0;
    if !busy {
      Distrust(v, m, x, e);
      RemoveFound(v, m, d, x, name, now);
    }
    LetGo(v, m, x, t);
  }

  /** The directory x goes, if it is empty. */
  method RemoveEmpty(v: Volume, m: LockManager, d: nat, x: nat, name: seq<Byte>, now: u64) returns (empty: bool)
    requires Good(v.img) && Coherent(v, m) && NameOf(v.img, d, name, x) && GoodName(name) && InUse(v.img, x)
             && IsDir(v.img.inodes[x])
    requires v.Covered()
    modifies v, m, m.entries.Values
    ensures v.Covered()
    ensures old(Tidy(v.img)) ==> Tidy(v.img)
    ensures Good(v.img) && Coherent(v, m) && m.held == old(m.held)
    ensures !empty ==> v.img == old(v.img) && HasEntries(v.img, x)
    ensures empty ==> Spared(old(v.img), v.img, {d, x}) && HasLost(old(v.img), v.img, d, x, name)
                      && d < |v.img.inodes| && v.img.inodes[d].mtime == now
  {
    ghost var held := m.held;
    var e, t := Refer(v, m, x);
    TakenBack(held, t, Ref(x, e, false));
    Distrust(v, m, x, e);
    GoodMounted(v.img);
    TakenDir(v.img, x, 0, {});
    empty := v.DirIsEmpty(v.img.inodes[x]);
    if empty {
      RemoveFound(v, m, d, x, name, now);
    }
    LetGo(v, m, x, t);
  }

  /** More than "." and ".." is in directory x. */
  ghost predicate HasEntries(img: Image, x: nat)
    requires x < |img.inodes|
  {
    exists k :: 2 <= k < |Slots(img.blocks, img.inodes[x])| && Slots(img.blocks, img.inodes[x])[k].inode != 0
  }

  /** vfs_unlink. */
  method Unlink(v: Volume, m: LockManager, d: nat, name: seq<Byte>, now: u64) returns (r: Result<()>)
    requires Good(v.img) && InUse(v.img, d) && GoodName(name) && Coherent(v, m)
    requires v.Covered()
    modifies v, m, m.entries.Values
    ensures v.Covered()
    ensures old(Tidy(v.img)) ==> Tidy(v.img)
    ensures Good(v.img) && Coherent(v, m) && m.held == old(m.held)
    ensures r.Ok? ==> d < |v.img.inodes| && v.img.inodes[d].mtime == now
    ensures r.Ok? ==>
              exists x :: NameOf(old(v.img), d, name, x) && x in Tree(old(v.img)) && Tree(old(v.img))[x].File?
                          && Descriptors(m.held, x) == {}
                          && HasLost(old(v.img), v.img, d, x, name) && Spared(old(v.img), v.img, {d, x})
    ensures r.Err? ==>
              && v.img == old(v.img)
              && match r.code
                 case ENOTDIR => !IsDir(v.img.inodes[d])
                 case ENOENT => IsDir(v.img.inodes[d]) && Unnamed(v.img, d, name)
                 case EISDIR => exists x :: NameOf(v.img, d, name, x) && x in Tree(v.img) && Tree(v.img)[x].Dir?
                 case EBUSY => exists x ::
                     NameOf(v.img, d, name, x) && x in Tree(v.img) && Tree(v.img)[x].File?
                     && Descriptors(m.held, x) != {}
                 case _ => false
  {
    if !IsDir(v.img.inodes[d]) {
      return Err(ENOTDIR);
    }
    var x, kind := Find(v, d, name);
    if x == 0 {
      return Err(ENOENT);
    }
    if kind == FT_DIR {
      return Err(EISDIR);
    }
    var busy := RemoveClosed(v, m, d, x, name, now);
    return if busy then Err(EBUSY) else Ok(());
  }

  /** vfs_rmdir. */
  method RemoveDir(v: Volume, m: LockManager, d: nat, name: seq<Byte>, now: u64) returns (r: Result<()>)
    requires Good(v.img) && InUse(v.img, d) && GoodName(name) && Coherent(v, m)
    requires v.Covered()
    modifies v, m, m.entries.Values
    ensures v.Covered()
    ensures old(Tidy(v.img)) ==> Tidy(v.img)
    ensures Good(v.img) && Coherent(v, m) && m.held == old(m.held)
    ensures r.Ok? ==> d < |v.img.inodes| && v.img.inodes[d].mtime == now
    ensures r.Ok? ==>
              exists x :: NameOf(old(v.img), d, name, x) && x in Tree(old(v.img)) && Tree(old(v.img))[x].Dir?
                          && HasLost(old(v.img), v.img, d, x, name) && Spared(old(v.img), v.img, {d, x})
    ensures r.Err? ==>
              && v.img == old(v.img)
              && match r.code
                 case ENOTDIR => !IsDir(v.img.inodes[d])
                                 || exists x :: NameOf(v.img, d, name, x) && x in Tree(v.img) && Tree(v.img)[x].File?
                 case ENOENT => IsDir(v.img.inodes[d]) && Unnamed(v.img, d, name)
                 case ENOTEMPTY => exists x: nat ::
                     NameOf(v.img, d, name, x) && InUse(v.img, x) && IsDir(v.img.inodes[x]) && HasEntries(v.img, x)
                 case _ => false
  {
    if !IsDir(v.img.inodes[d]) {
      return Err(ENOTDIR);
    }
    var x, kind := Find(v, d, name);
    if x == 0 {
      return Err(ENOENT);
    }
    if kind != FT_DIR {
      return Err(ENOTDIR);
    }
    var empty := RemoveEmpty(v, m, d, x, name, now);
    return if empty then Ok(()) else Err(ENOTEMPTY);
  }

  // ---------------------------------------------------------------- mkdir

  /** vfs_mkdir. */
  method Mkdir(v: Volume, m: LockManager, d: u32, name: seq<Byte>, now: u64) returns (r: Result<u32>)
    requires Good(v.img) && InUse(v.img, d) && GoodName(name) && Coherent(v, m)
    requires v.Covered()
    modifies v
    ensures v.Covered()
    ensures old(Tidy(v.img)) ==> Tidy(v.img)
    ensures Good(v.img) && Coherent(v, m) && Adds(old(v.wrote), v.wrote, 12)
    ensures r.Ok? ==>
              && Spared(old(v.img), v.img, {d, r.value}) && InUse(v.img, r.value)
              && HasNewDir(old(v.img), v.img, d, r.value, name)
              && IsNewDir(v.img.inodes[r.value], r.value, now)
              && d < |v.img.inodes| && v.img.inodes[d].mtime == now
              && v.img.inodes[d].links == old(v.img.inodes[d].links) + 1
    ensures r.Err? ==>
              && v.img == old(v.img)
              && match r.code
                 case ENOTDIR => !IsDir(v.img.inodes[d])
                 case EEXIST => exists x :: NameOf(v.img, d, name, x) && InUse(v.img, x)
                 case _ => IsDir(v.img.inodes[d]) && Unnamed(v.img, d, name)
                           && (NoRoom(v.img, d, 1, r.code) || (r.code == ENOSPC && v.img.inodes[d].links == 0xFFFF))
  {
    AddsNone(v.wrote, 12);
    if !IsDir(v.img.inodes[d]) {
      return Err(ENOTDIR);
    }
    var x, kind := Find(v, d, name);
    if x != 0 {
      return Err(EEXIST);
    }
    if v.img.inodes[d].links == 0xFFFF {
      return Err(ENOSPC);
    }
    ghost var img := v.img;
    assert CoherentIn(img, m);
    r := MakeDir(v, d, name, now);
    if r.Ok? {
      NewSpared(m.Copies(), img, v.img, d, r.value);
      assert CoherentIn(v.img, m);
    }
  }

  /** A directory and a number that was free have changed: neither has a copy. */
  lemma NewSpared(copies: map<nat, Inode>, img: Image, img': Image, d: nat, x: nat)
    requires CopiesHold(copies, img) && InUse(img, d) && IsDir(img.inodes[d]) && x !in img.inodeBits
    requires Spared(img, img', {d, x})
    ensures CopiesHold(copies, img')
  {
    if d in copies {
      CopyIsFile(copies, img, d);
    }
    if x in copies {
      CopyIsFile(copies, img, x);
    }
    CopiesSpared(copies, img, img', {d, x});
  }

  // --------------------------------------------------- opening and closing

  /** register_open, while `lock` refers to x's entry for the lock; then that reference goes. */
  method Register(v: Volume, m: LockManager, x: nat, ghost lock: nat) returns (e: LockEntry, ghost t: nat)
    requires Coherent(v, m) && lock in m.held && m.held[lock].id == x && !m.held[lock].fd
    modifies m, m.entries.Values`refs, m.entries.Values`openCount
    ensures Coherent(v, m) && t !in old(m.held) && m.held == old(m.held)[t := Ref(x, e, true)] - {lock}
  {
    ghost var held := m.held;
    e, t := Refer(v, m, x);
    CountOpen(v, m, x, e, t);
    LetGo(v, m, x, lock);
  }

  /** O_TRUNC: the copy is given up, and the file emptied. */
  method TruncateFound(v: Volume, m: LockManager, x: nat, e: LockEntry, now: u64)
    requires Good(v.img) && InUse(v.img, x) && v.img.inodes[x].mode == FILE_MODE && Tidy(v.img)
    requires Coherent(v, m) && x in m.entries && m.entries[x] == e
    requires v.Covered()
    modifies v, e`inodeValid
    ensures v.Covered()
    ensures Good(v.img) && Tidy(v.img) && Coherent(v, m) && Opened(old(v.img), v.img, x, true, now)
  {
    Distrust(v, m, x, e);
    ghost var img := v.img;
    assert CoherentIn(img, m);
    Truncate(v, x, now);
    CopiesSpared(m.Copies(), img, v.img, {x});
    assert CoherentIn(v.img, m);
  }

  method OpenFound(v: Volume, m: LockManager, x: nat, trunc: bool, now: u64) returns (e: LockEntry, ghost t: nat)
    requires Good(v.img) && InUse(v.img, x) && !IsDir(v.img.inodes[x]) && Tidy(v.img) && Coherent(v, m)
    requires v.Covered()
    modifies v, m, m.entries.Values
    ensures v.Covered()
    ensures Good(v.img) && Tidy(v.img) && Coherent(v, m) && Opened(old(v.img), v.img, x, trunc, now)
    ensures t !in old(m.held) && m.held == old(m.held)[t := Ref(x, e, true)]
  {
    RuleAt(v.img, x);
    ghost var held := m.held;
    var lockEntry, lock := Refer(v, m, x);
    if trunc {
      TruncateFound(v, m, x, lockEntry, now);
    }
    e, t := Register(v, m, x, lock);
    Swapped(held, lock, Ref(x, lockEntry, false), t, Ref(x, e, true));
  }

  lemma Swapped(held: map<nat, Ref>, lock: nat, r: Ref, t: nat, q: Ref)
    requires lock !in held && t !in held[lock := r]
    ensures held[lock := r][t := q] - {lock} == held[t := q] && t !in held
  {
  }

  /** x is a file just made, and directory d has changed now. */
  ghost predicate NewIn(img: Image, d: nat, x: nat, now: u64) {
    InUse(img, x) && IsNewFile(img.inodes[x], x, now) && d < |img.inodes| && img.inodes[d].mtime == now
  }

  /** x's entry counts one descriptor more than there were, and every other entry those there were. */
  ghost predicate Counted(m: LockManager, held: map<nat, Ref>, x: nat)
    reads m, m.entries.Values
  {
    && x in m.entries && m.entries[x].openCount == |Descriptors(held, x)| + 1
    && forall f :: f in m.entries && f != x ==> m.entries[f].openCount == |Descriptors(held, f)|
  }

  lemma OneMoreOpen(v: Volume, m: LockManager, held: map<nat, Ref>, t: nat, r: Ref)
    requires Coherent(v, m) && t !in held && m.held == held[t := r] && r.fd
    ensures Counted(m, held, r.id)
  {
    assert CoherentIn(v.img, m);
    assert t in m.held;
    OpenShows(m.entries, m.held, m.OpenCounts(), r.id);
    assert Descriptors(m.held, r.id) == Descriptors(held, r.id) + {t};
    OthersCount(v, m, held, r.id);
  }

  /** The reference for the lock is no descriptor's: without it, as many have each inode open. */
  lemma Unlocked(held: map<nat, Ref>, lock: nat, t: nat, r: Ref)
    requires lock in held && !held[lock].fd && t !in held
    ensures held[t := r] - {lock} == (held - {lock})[t := r]
    ensures forall f :: Descriptors(held - {lock}, f) == Descriptors(held, f)
  {
    forall f ensures Descriptors(held - {lock}, f) == Descriptors(held, f) {
      var rest := Descriptors(held - {lock}, f);
      assert rest <= Descriptors(held, f) <= rest;
    }
  }

  /** open() with O_CREAT or O_TRUNC: the file's number, its entry and the descriptor's reference to it. */
  method OpenChanging(v: Volume, m: LockManager, d: nat, name: seq<Byte>, create: bool, excl: bool, trunc: bool,
      now: u64)
    returns (r: Result<u32>, e: LockEntry?, ghost t: nat)
    requires Good(v.img) && InUse(v.img, d) && GoodName(name) && Tidy(v.img) && Coherent(v, m)
    requires v.Covered()
    modifies v, m, m.entries.Values
    ensures v.Covered()
    ensures Good(v.img) && Tidy(v.img) && Coherent(v, m)
    ensures r.Ok? ==> e != null && t !in old(m.held) && m.held == old(m.held)[t := Ref(r.value, e, true)]
    ensures r.Ok? ==> Counted(m, old(m.held), r.value)
    ensures r.Ok? && old(LacksName(v.img, d, name)) ==>
              && create && HasNew(old(v.img), v.img, d, r.value, File(1), name)
              && Spared(old(v.img), v.img, {d, r.value}) && NewIn(v.img, d, r.value, now)
    ensures r.Ok? && !old(LacksName(v.img, d, name)) ==>
              && !(create && excl) && NameOf(old(v.img), d, name, r.value)
              && Opened(old(v.img), v.img, r.value, trunc, now)
    ensures r.Err? ==>
              && v.img == old(v.img) && m.held == old(m.held)
              && match r.code
                 case ENOTDIR => !IsDir(v.img.inodes[d])
                 case ENOENT => !create && LacksName(v.img, d, name)
                 case EEXIST => create && excl && !LacksName(v.img, d, name)
                 case EISDIR => !(create && excl) && exists x: nat ::
                     NameOf(v.img, d, name, x) && InUse(v.img, x) && IsDir(v.img.inodes[x])
                 case _ => create && LacksName(v.img, d, name) && NoRoom(v.img, d, 0, r.code)
  {
    e, t := null, 0;
    if !IsDir(v.img.inodes[d]) {
      r := Err(ENOTDIR);
      return;
    }
    var x, kind := Find(v, d, name);
    if x == 0 {
      if !create {
        r := Err(ENOENT);
        return;
      }
      r, e, t := CreateOpen(v, m, d, name, now);
      if r.Ok? {
        OneMoreOpen(v, m, old(m.held), t, Ref(r.value, e, true));
      }
      return;
    }
    if create && excl {
      r := Err(EEXIST);
      return;
    }
    if kind == FT_DIR {
      r := Err(EISDIR);
      return;
    }
    e, t := OpenFound(v, m, x, trunc, now);
    OneMoreOpen(v, m, old(m.held), t, Ref(x, e, true));
    r := Ok(x);
  }

  /** open() without either, of an inode found and locked: nothing on the disk changes. */
  method OpenExisting(v: Volume, m: LockManager, x: nat, ghost lock: nat)
    returns (r: Result<()>, e: LockEntry?, ghost t: nat)
    requires Good(v.img) && InUse(v.img, x) && Coherent(v, m)
    requires lock in m.held && m.held[lock].id == x && !m.held[lock].fd
    modifies m, m.entries.Values`refs, m.entries.Values`openCount
    ensures Coherent(v, m) && (r == Err(EISDIR) <==> IsDir(v.img.inodes[x])) && (r.Err? ==> r.code == EISDIR)
    ensures r.Ok? ==> e != null && t !in old(m.held) && m.held == old(m.held)[t := Ref(x, e, true)] - {lock}
    ensures r.Ok? ==> Counted(m, old(m.held), x)
    ensures r.Err? ==> m.held == old(m.held) - {lock}
  {
    e, t := null, 0;
    if IsDir(v.img.inodes[x]) {
      LetGo(v, m, x, lock);
      r := Err(EISDIR);
      return;
    }
    e, t := Register(v, m, x, lock);
    r := Ok(());
    Unlocked(old(m.held), lock, t, Ref(x, e, true));
    OneMoreOpen(v, m, old(m.held) - {lock}, t, Ref(x, e, true));
  }

  method CreateOpen(v: Volume, m: LockManager, d: nat, name: seq<Byte>, now: u64)
    returns (r: Result<u32>, e: LockEntry?, ghost t: nat)
    requires Good(v.img) && InUse(v.img, d) && IsDir(v.img.inodes[d]) && GoodName(name) && Unnamed(v.img, d, name)
    requires Tidy(v.img) && Coherent(v, m)
    requires v.Covered()
    modifies v, m, m.entries.Values
    ensures v.Covered()
    ensures Good(v.img) && Tidy(v.img) && Coherent(v, m)
    ensures r.Ok? ==> e != null && t !in old(m.held) && m.held == old(m.held)[t := Ref(r.value, e, true)]
    ensures r.Ok? ==> HasNew(old(v.img), v.img, d, r.value, File(1), name) && Spared(old(v.img), v.img, {d, r.value})
                      && NewIn(v.img, d, r.value, now)
    ensures r.Err? ==> v.img == old(v.img) && m.held == old(m.held) && NoRoom(v.img, d, 0, r.code)
  {
    ghost var img, held := v.img, m.held;
    assert CoherentIn(img, m);
    e, t := null, 0;
    r := CreateFile(v, d, name, now);
    if r.Err? {
      return;
    }
    NewSpared(m.Copies(), img, v.img, d, r.value);
    assert CoherentIn(v.img, m);
    var lockEntry, lock := Refer(v, m, r.value);
    e, t := Register(v, m, r.value, lock);
    Swapped(held, lock, Ref(r.value, lockEntry, false), t, Ref(r.value, e, true));
  }

  /** vfs_close, for the descriptor that holds the reference t. */
  method Close(v: Volume, m: LockManager, x: nat, e: LockEntry, ghost t: nat)
    requires Coherent(v, m) && t in m.held && m.held[t] == Ref(x, e, true)
    modifies m, m.entries.Values`refs, m.entries.Values`openCount
    ensures Coherent(v, m) && m.held == old(m.held) - {t}
    ensures e.openCount == |Descriptors(old(m.held), x)| - 1
    ensures forall f :: f in m.entries && f != x ==> m.entries[f].openCount == |Descriptors(old(m.held), f)|
  {
    ghost var held := m.held;
    OpenCountIs(v, m, x, e, t);
    CountClosed(v, m, x, e, t);
    LetGo(v, m, x, t);
    OthersCount(v, m, held, x);
  }

  lemma OpenCountIs(v: Volume, m: LockManager, x: nat, e: LockEntry, t: nat)
    requires Coherent(v, m) && t in m.held && m.held[t].id == x && m.held[t].entry == e
    ensures e in m.entries.Values && e.openCount == |Descriptors(m.held, x)|
  {
    assert CoherentIn(v.img, m);
    assert m.entries[x] == e;
    OpenShows(m.entries, m.held, m.OpenCounts(), x);
  }

  /** The references to other inodes as they were: so are their entries' counts. */
  lemma OthersCount(v: Volume, m: LockManager, held: map<nat, Ref>, x: nat)
    requires Coherent(v, m) && forall t :: (t in held && held[t].id != x) || (t in m.held && m.held[t].id != x) ==>
               t in held && t in m.held && held[t] == m.held[t]
    ensures forall f :: f in m.entries && f != x ==> m.entries[f].openCount == |Descriptors(held, f)|
  {
    assert CoherentIn(v.img, m);
    forall f | f in m.entries && f != x ensures m.entries[f].openCount == |Descriptors(held, f)| {
      OpenShows(m.entries, m.held, m.OpenCounts(), f);
      assert Descriptors(m.held, f) == Descriptors(held, f);
    }
  }

  // ------------------------------------------------------ reading and writing

  /** vfs_read on a descriptor of file f: the copy in its entry, when there is one, leads to the same bytes. */
  method ReadOpen(v: Volume, m: LockManager, f: nat, e: LockEntry, ghost t: nat, offset: nat, n: nat)
    returns (out: seq<Byte>, offset': nat)
    requires Good(v.img) && IsFile(v.img, f) && Coherent(v, m) && t in m.held && m.held[t] == Ref(f, e, true)
    ensures var size := v.img.inodes[f].size;
            && |out| == (if offset >= size then 0 else Min(n, size - offset))
            && (offset < size ==> out == Contents(v.img.blocks, v.img.inodes[f])[offset..offset + |out|])
            && offset' == offset + |out|
  {
    assert CoherentIn(v.img, m);
    CopyFits(m.Copies(), v.img, f);
    var ino := FileInode(v, e, f);
    out := ReadRange(v, f, ino, offset, n);
    offset' := offset + |out|;
  }

  /** vfs_write on a descriptor of file f: every entry's copy is still true, and f's is made so. */
  method WriteOpen(v: Volume, m: LockManager, f: nat, e: LockEntry, ghost t: nat, offset: nat, append: bool,
      src: seq<Byte>, now: u64)
    returns (r: Result<nat>, offset': nat)
    requires Good(v.img) && Tidy(v.img) && IsFile(v.img, f)
    requires Coherent(v, m) && t in m.held && m.held[t] == Ref(f, e, true)
    requires v.Covered()
    modifies v, e`inode, e`inodeValid
    ensures v.Covered()
    ensures Good(v.img) && Tidy(v.img) && Coherent(v, m)
    ensures src == [] ==> r == Ok(0) && offset' == offset && v.img == old(v.img)
    ensures src != [] ==> WriteDone(old(v.img), v.img, f, offset, append, src, now, r, offset')
  {
    if src == [] {
      return Ok(0), offset;
    }
    ghost var img, copies, opens := v.img, m.Copies(), m.OpenCounts();
    EntryOf(v, m, f, e, t);
    r, offset' := Write(v, e, f, offset, append, src, now);
    assert m.OpenCounts() == opens;
    WrittenCoherent(v, m, img, f, offset, append, src, now, r, offset', copies);
  }

  /** The entry a descriptor refers to is the one in the table, and its copy, if it has one, is the inode. */
  lemma EntryOf(v: Volume, m: LockManager, f: nat, e: LockEntry, t: nat)
    requires Coherent(v, m) && InUse(v.img, f) && t in m.held && m.held[t].id == f && m.held[t].entry == e
    ensures m.Valid() && CopiesHold(m.Copies(), v.img) && OpensAre(m.held, m.OpenCounts())
    ensures f in m.entries && m.entries[f] == e && e.Faithful(v, f)
    ensures forall g :: g in m.entries && g != f ==> m.entries[g] != e
  {
    assert CoherentIn(v.img, m);
    CopyFits(m.Copies(), v.img, f);
  }

  lemma WrittenCoherent(v: Volume, m: LockManager, img: Image, f: nat, offset: nat, append: bool, src: seq<Byte>,
                        now: u64, r: Result<nat>, offset': nat, copies: map<nat, Inode>)
    requires m.Valid() && OpensAre(m.held, m.OpenCounts()) && CopiesHold(copies, img) && InUse(img, f) && Tidy(img)
    requires WriteDone(img, v.img, f, offset, append, src, now, r, offset')
    requires forall g :: g in m.Copies() && g != f ==> g in copies && m.Copies()[g] == copies[g]
    requires f in m.Copies() ==> f < |v.img.inodes| && m.Copies()[f] == v.img.inodes[f]
    ensures Coherent(v, m) && Good(v.img) && Tidy(v.img)
  {
    var pos, d := if append then img.inodes[f].size else offset, src[..if r.Ok? then r.value else 0];
    WrittenTidy(img, v.img, f, pos, d);
    WrittenCopies(img, v.img, f, pos, d, copies, m.Copies());
    assert CoherentIn(v.img, m);
  }

  lemma CopyFits(copies: map<nat, Inode>, img: Image, f: nat)
    requires CopiesHold(copies, img)
    ensures f in copies ==> f < |img.inodes| && copies[f] == img.inodes[f]
  {
    if f in copies {
      CopyIsFile(copies, img, f);
    }
  }

  lemma WrittenCopies(img: Image, img': Image, f: nat, pos: nat, d: seq<Byte>, copies: map<nat, Inode>,
      copies': map<nat, Inode>)
    requires CopiesHold(copies, img) && InUse(img, f) && WrittenAt(img, img', f, pos, d)
    requires forall g :: g in copies' && g != f ==> g in copies && copies'[g] == copies[g]
    requires f in copies' ==> f < |img'.inodes| && copies'[f] == img'.inodes[f]
    ensures CopiesHold(copies', img')
  {
    assert WrittenIn(img, img', f, pos, d) && IsFileIn(img', f);
    forall g | g in copies' ensures CopyHolds(copies'[g], img', g) {
      if g != f {
        assert CopyHolds(copies[g], img, g) && SparedAt(img, img', g);
      }
    }
  }
}
