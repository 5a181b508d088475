/**
 The locks a call takes: a descriptor, the journal's gate, inode locks from the top of
 the tree down. Every grant, release, lookup and change of a name is a step of its own.
 */
module Locks {
  const ROOT: nat := 1

  datatype Option<T> = None | Some(value: T)

  /** Where a name stands. */
  datatype Spot = Spot(dir: nat, name: nat)

  /** The names, the inode numbers in use, and which inode each open descriptor has. */
  datatype Files = Files(
    kids: map<Spot, nat>, dirs: set<nat>, used: set<nat>, opens: map<nat, nat>,
    // history: how far below the root an inode was made; nothing ever moves
    depth: map<nat, nat>)

  datatype Pc =
    | WantsFd(fd: nat)
    | WantsGate
    | WantsLock(inode: nat, exclusive: bool, foundAt: Option<Spot>)
    | Ready                           // holds no inode lock
    | Holds(cur: nat)                 // one
    | Both(at: Spot, child: nat)      // a directory's and that of what it names
    | Removed(parent: nat, gone: nat) // the name is gone, the number not yet free
    | Freed(parent: nat, gone: nat)   // it is, and may be in use again already

  /** `locks`: the inodes it has locked, and whether exclusively. */
  datatype Thread = Thread(fd: Option<nat>, inOp: bool, locks: map<nat, bool>, pc: Pc)

  datatype State = State(files: Files, closed: bool, threads: map<nat, Thread>)

  // ------------------------------------------------------------- the grants

  predicate FdFree(s: State, t: nat, fd: nat) {
    forall u :: u in s.threads && u != t ==> s.threads[u].fd != Some(fd)
  }

  /** A shared lock shares with shared ones only. */
  predicate LockFree(s: State, t: nat, x: nat, exclusive: bool) {
    forall u :: u in s.threads && u != t && x in s.threads[u].locks ==> !exclusive && !s.threads[u].locks[x]
  }

  function Granted(th: Thread): (r: Thread)
    requires th.pc.WantsLock?
  {
    var x := th.pc.inode;
    th.(locks := th.locks[x := th.pc.exclusive],
        pc := if th.pc.foundAt.None? then Holds(x) else Both(th.pc.foundAt.value, x))
  }

  predicate Grant(s: State, t: nat, th: Thread) {
    t in s.threads &&
    var was := s.threads[t];
    || (was.pc.WantsFd? && FdFree(s, t, was.pc.fd) && th == was.(fd := Some(was.pc.fd), pc := Ready))
    || (was.pc.WantsGate? && !s.closed && th == was.(inOp := true, pc := Ready))
    || (was.pc.WantsLock? && LockFree(s, t, was.pc.inode, was.pc.exclusive) && th == Granted(was))
  }

  // ------------------------------------------------------------ the requests

  /** What a call asks for next, or lets go of. None of it waits. */
  predicate Ask(s: State, t: nat, th: Thread) {
    t in s.threads &&
    var was := s.threads[t];
    // begin_op, with no inode lock held
    || (was.pc == Ready && !was.inOp && th == was.(pc := WantsGate))
    // the root, or the file a descriptor has
    || (was.pc == Ready && exists e :: th == was.(pc := WantsLock(ROOT, e, None)))
    || (was.pc == Ready && was.fd.Some? && was.fd.value in s.files.opens &&
        exists e :: th == was.(pc := WantsLock(s.files.opens[was.fd.value], e, None)))
    // what a name in the directory it holds stands for
    || (was.pc.Holds? && th.pc.WantsLock? && th.pc.foundAt.Some? && th == was.(pc := th.pc) &&
        th.pc.foundAt.value.dir == was.pc.cur && th.pc.foundAt.value in s.files.kids &&
        th.pc.inode == s.files.kids[th.pc.foundAt.value])
  }

  predicate Release(s: State, t: nat, th: Thread) {
    t in s.threads &&
    var was := s.threads[t];
    || (was.pc.Both? && th == was.(locks := was.locks - {was.pc.at.dir}, pc := Holds(was.pc.child)))
    || (was.pc.Both? && th == was.(locks := was.locks - {was.pc.child}, pc := Holds(was.pc.at.dir)))
    || (was.pc.Freed? && th == was.(locks := was.locks - {was.pc.gone}, pc := Holds(was.pc.parent)))
    || (was.pc.Holds? && th == was.(locks := was.locks - {was.pc.cur}, pc := Ready))
    // end_op after the locks, the descriptor last
    || (was.pc == Ready && was.inOp && th == was.(inOp := false))
    || (was.pc == Ready && !was.inOp && th == was.(fd := None))
  }

  // ------------------------------------------------- what they do to the names

  /** A new file or directory: a number not in use, in a directory held exclusively. */
  predicate Create(s: State, t: nat, name: nat, x: nat, dir: bool, s': State) {
    t in s.threads &&
    var th, f := s.threads[t], s.files;
    && th.pc.Holds? && th.inOp && th.pc.cur in th.locks && th.locks[th.pc.cur] && th.pc.cur in f.dirs
    && Spot(th.pc.cur, name) !in f.kids && x !in f.used && x != ROOT && th.pc.cur in f.depth
    && s' == s.(files := f.(kids := f.kids[Spot(th.pc.cur, name) := x], used := f.used + {x},
                            dirs := if dir then f.dirs + {x} else f.dirs - {x},
                            depth := f.depth[x := f.depth[th.pc.cur] + 1]))
  }

  /** The name goes if both locks are exclusive and the file is not open, the directory empty. */
  predicate Remove(s: State, t: nat, s': State) {
    t in s.threads &&
    var th, f := s.threads[t], s.files;
    && th.pc.Both? && th.inOp
    && th.pc.at.dir in th.locks && th.locks[th.pc.at.dir] && th.pc.child in th.locks && th.locks[th.pc.child]
    && (forall fd :: fd in f.opens ==> f.opens[fd] != th.pc.child)
    && (forall at :: at in f.kids ==> at.dir != th.pc.child)
    && s' == s.(files := f.(kids := f.kids - {th.pc.at}),
                threads := s.threads[t := th.(pc := Removed(th.pc.at.dir, th.pc.child))])
  }

  predicate FreeNumber(s: State, t: nat, s': State) {
    t in s.threads && s.threads[t].pc.Removed? &&
    var th, f := s.threads[t], s.files;
    s' == s.(files := f.(used := f.used - {th.pc.gone}),
             threads := s.threads[t := th.(pc := Freed(th.pc.parent, th.pc.gone))])
  }

  /** register_open, by the thread that has the file locked. */
  predicate Register(s: State, t: nat, fd: nat, s': State) {
    t in s.threads &&
    var th, f := s.threads[t], s.files;
    && fd !in f.opens && (th.pc.Both? || th.pc.Holds?)
    && var x := if th.pc.Both? then th.pc.child else th.pc.cur;
       x !in f.dirs && x != ROOT && s' == s.(files := f.(opens := f.opens[fd := x]))
  }

  /** close, with the descriptor's mutex held. */
  predicate Unregister(s: State, t: nat, s': State) {
    && t in s.threads && s.threads[t].pc == Ready && s.threads[t].fd.Some?
    && s' == s.(files := s.files.(opens := s.files.opens - {s.threads[t].fd.value}))
  }

  // ------------------------------------------------------------------- steps

  ghost predicate Call(s: State, t: nat, s': State) {
    t !in s.threads &&
    (|| s' == s.(threads := s.threads[t := Thread(None, false, map[], Ready)])
     || exists fd :: s' == s.(threads := s.threads[t := Thread(None, false, map[], WantsFd(fd))]))
  }

  predicate Return(s: State, t: nat, s': State) {
    && t in s.threads && s.threads[t].pc == Ready && !s.threads[t].inOp && s.threads[t].fd == None
    && s' == s.(threads := s.threads - {t})
  }

  /** A commit closes the gate at any time, and opens it when no operation is running. */
  predicate Commit(s: State, s': State) {
    || s' == s.(closed := true)
    || ((forall t :: t in s.threads ==> !s.threads[t].inOp) && s' == s.(closed := false))
  }

  /** What a thread does to itself. */
  ghost predicate Own(s: State, t: nat, s': State) {
    exists th :: (Grant(s, t, th) || Ask(s, t, th) || Release(s, t, th)) && s' == s.(threads := s.threads[t := th])
  }

  /** What it does to the names and the open files. */
  ghost predicate Changes(s: State, t: nat, s': State) {
    || (exists name, x, dir :: Create(s, t, name, x, dir, s'))
    || Remove(s, t, s') || FreeNumber(s, t, s')
    || (exists fd :: Register(s, t, fd, s'))
    || Unregister(s, t, s')
  }

  ghost predicate Moves(s: State, t: nat, s': State) {
    Own(s, t, s') || Changes(s, t, s') || Call(s, t, s') || Return(s, t, s')
  }

  ghost predicate Next(s: State, s': State) {
    Commit(s, s') || exists t :: Moves(s, t, s')
  }

  predicate Init(s: State) {
    s.threads == map[] && FilesOk(s.files) && s.files.opens == map[]
  }

  // ------------------------------------------------------------- what they keep

  predicate Linked(f: Files, x: nat) {
    x == ROOT || exists at :: at in f.kids && f.kids[at] == x
  }

  predicate SpotOk(f: Files, at: Spot)
    requires at in f.kids
  {
    && at.dir in f.dirs && Linked(f, at.dir) && f.kids[at] in f.used && f.kids[at] != ROOT
    && at.dir in f.depth && f.kids[at] in f.depth && f.depth[f.kids[at]] == f.depth[at.dir] + 1
  }

  /** The names make one tree, and no inode in it has two. */
  predicate FilesOk(f: Files) {
    && ROOT in f.dirs && ROOT in f.depth && ROOT in f.used
    && (forall at :: at in f.kids ==> SpotOk(f, at))
    && (forall at, to :: at in f.kids && to in f.kids && f.kids[at] == f.kids[to] ==> at == to)
    && (forall fd :: fd in f.opens ==> f.opens[fd] !in f.dirs && Linked(f, f.opens[fd]))
  }

  predicate ThreadOk(f: Files, th: Thread) {
    match th.pc
    case WantsFd(_) => th.locks == map[] && !th.inOp && th.fd == None
    case WantsGate => th.locks == map[] && !th.inOp
    case Ready => th.locks == map[]
    case WantsLock(x, e, None) =>
      && th.locks == map[]
      && (x == ROOT || (th.fd.Some? && th.fd.value in f.opens && f.opens[th.fd.value] == x))
    case WantsLock(x, e, Some(at)) => th.locks.Keys == {at.dir} && at in f.kids && f.kids[at] == x
    case Holds(cur) => th.locks.Keys == {cur} && Linked(f, cur)
    case Both(at, child) => th.locks.Keys == {at.dir, child} && at in f.kids && f.kids[at] == child
    case Removed(parent, gone) =>
      && th.locks == map[parent := true, gone := true] && th.inOp
      && Linked(f, parent) && !Linked(f, gone) && gone in f.used
    case Freed(parent, gone) =>
      th.locks == map[parent := true, gone := true] && parent != gone && Linked(f, parent)
  }

  /** No two threads hold what only one may. */
  predicate Apart(a: Thread, b: Thread) {
    && (a.fd.Some? ==> a.fd != b.fd)
    && forall x :: x in a.locks && x in b.locks ==> !a.locks[x] && !b.locks[x]
  }

  ghost predicate Inv(s: State) {
    && FilesOk(s.files)
    && (forall t :: t in s.threads ==> ThreadOk(s.files, s.threads[t]))
    && (forall t, u :: t in s.threads && u in s.threads && t != u ==> Apart(s.threads[t], s.threads[u]))
  }

  // -------------------------------------------------------- every step keeps it

  lemma GrantKeeps(s: State, t: nat, th: Thread)
    requires Inv(s) && Grant(s, t, th)
    ensures Inv(s.(threads := s.threads[t := th]))
  {
    var was := s.threads[t];
    assert ThreadOk(s.files, was);
    forall u | u in s.threads && u != t ensures Apart(th, s.threads[u]) && Apart(s.threads[u], th) {
      assert Apart(was, s.threads[u]) && Apart(s.threads[u], was);
    }
    if was.pc.WantsLock? && was.pc.foundAt.Some? {
      assert SpotOk(s.files, was.pc.foundAt.value);
    }
    Regrouped(s, t, th, s.(threads := s.threads[t := th]));
  }

  lemma AskKeeps(s: State, t: nat, th: Thread)
    requires Inv(s) && Ask(s, t, th)
    ensures Inv(s.(threads := s.threads[t := th]))
  {
    SameLocks(s, t, th);
    assert ThreadOk(s.files, s.threads[t]);
    Regrouped(s, t, th, s.(threads := s.threads[t := th]));
  }

  lemma SameLocks(s: State, t: nat, th: Thread)
    requires Inv(s) && t in s.threads && th.locks.Keys <= s.threads[t].locks.Keys
             && (th.fd.Some? ==> th.fd == s.threads[t].fd)
    requires forall x :: x in th.locks ==> th.locks[x] == s.threads[t].locks[x]
    ensures forall u :: u in s.threads && u != t ==> Apart(th, s.threads[u]) && Apart(s.threads[u], th)
  {
    forall u | u in s.threads && u != t ensures Apart(th, s.threads[u]) && Apart(s.threads[u], th) {
      assert Apart(s.threads[t], s.threads[u]) && Apart(s.threads[u], s.threads[t]);
    }
  }

  lemma ReleaseKeeps(s: State, t: nat, th: Thread)
    requires Inv(s) && Release(s, t, th)
    ensures Inv(s.(threads := s.threads[t := th]))
  {
    var was := s.threads[t];
    SameLocks(s, t, th);
    assert ThreadOk(s.files, was);
    if was.pc.Both? {
      assert SpotOk(s.files, was.pc.at);
    }
    Regrouped(s, t, th, s.(threads := s.threads[t := th]));
  }

  lemma Regrouped(s: State, t: nat, th: Thread, s': State)
    requires Inv(s) && s' == s.(threads := s.threads[t := th]) && ThreadOk(s.files, th)
    requires forall u :: u in s.threads && u != t ==> Apart(th, s.threads[u]) && Apart(s.threads[u], th)
    ensures Inv(s')
  {
  }

  lemma CreateFiles(f: Files, dir: nat, name: nat, x: nat, isDir: bool, f': Files)
    requires FilesOk(f) && dir in f.dirs && Linked(f, dir) && Spot(dir, name) !in f.kids && x !in f.used && x != ROOT
             && dir in f.depth
    requires f' == f.(kids := f.kids[Spot(dir, name) := x], used := f.used + {x},
                      dirs := if isDir then f.dirs + {x} else f.dirs - {x}, depth := f.depth[x := f.depth[dir] + 1])
    ensures FilesOk(f') && forall y :: Linked(f', y) <==> Linked(f, y) || y == x
  {
    var spot := Spot(dir, name);
    forall y ensures Linked(f', y) <==> Linked(f, y) || y == x {
      if y == x {
        assert f'.kids[spot] == x;
      } else if Linked(f, y) && y != ROOT {
        var at :| at in f.kids && f.kids[at] == y;
        assert at in f'.kids && f'.kids[at] == y;
      }
    }
    forall at | at in f'.kids ensures SpotOk(f', at) {
      assert at != spot ==> SpotOk(f, at);
    }
    forall at, to | at in f'.kids && to in f'.kids && f'.kids[at] == f'.kids[to] ensures at == to {
      assert at != spot ==> SpotOk(f, at);
      assert to != spot ==> SpotOk(f, to);
    }
    forall fd | fd in f'.opens ensures f'.opens[fd] !in f'.dirs {
      LinkedUsed(f, f.opens[fd]);
    }
  }

  lemma LinkedUsed(f: Files, x: nat)
    requires FilesOk(f) && Linked(f, x)
    ensures x in f.used
  {
    if x != ROOT {
      var at :| at in f.kids && f.kids[at] == x;
      assert SpotOk(f, at);
    }
  }

  lemma CreateKeeps(s: State, t: nat, name: nat, x: nat, dir: bool, s': State)
    requires Inv(s) && Create(s, t, name, x, dir, s')
    ensures Inv(s')
  {
    var f, f' := s.files, s'.files;
    assert ThreadOk(f, s.threads[t]);
    CreateFiles(f, s.threads[t].pc.cur, name, x, dir, f');
    forall u | u in s'.threads ensures ThreadOk(f', s'.threads[u]) {
      assert ThreadOk(f, s.threads[u]);
    }
  }

  lemma StillLinked(f: Files, at: Spot, f': Files, y: nat)
    requires FilesOk(f) && at in f.kids && f' == f.(kids := f.kids - {at}) && Linked(f, y) && y != f.kids[at]
    ensures Linked(f', y)
  {
    if y != ROOT {
      var to :| to in f.kids && f.kids[to] == y;
      assert to in f'.kids && f'.kids[to] == y;
    }
  }

  lemma RemoveFiles(f: Files, at: Spot, f': Files)
    requires FilesOk(f) && at in f.kids && f' == f.(kids := f.kids - {at})
    requires forall fd :: fd in f.opens ==> f.opens[fd] != f.kids[at]
    requires forall to :: to in f.kids ==> to.dir != f.kids[at]
    ensures FilesOk(f') && !Linked(f', f.kids[at])
  {
    forall to | to in f'.kids ensures SpotOk(f', to) {
      assert SpotOk(f, to);
      StillLinked(f, at, f', to.dir);
    }
    forall fd | fd in f'.opens ensures Linked(f', f'.opens[fd]) {
      StillLinked(f, at, f', f.opens[fd]);
    }
    assert SpotOk(f, at);
  }

  /** Nobody else holds, wants or has found what is removed: its directory and it are held exclusively. */
  lemma OthersKeep(s: State, t: nat, u: nat, f': Files)
    requires Inv(s) && t in s.threads && u in s.threads && u != t
    requires var th := s.threads[t];
             && th.pc.Both? && th.pc.at in s.files.kids && f' == s.files.(kids := s.files.kids - {th.pc.at})
             && th.pc.at.dir in th.locks && th.locks[th.pc.at.dir] && th.pc.child in th.locks && th.locks[th.pc.child]
             && (forall fd :: fd in s.files.opens ==> s.files.opens[fd] != th.pc.child)
    ensures ThreadOk(f', s.threads[u])
  {
    var f, th, other := s.files, s.threads[t], s.threads[u];
    assert ThreadOk(f, th) && ThreadOk(f, other) && Apart(th, other);
    match other.pc {
      case Holds(cur) => StillLinked(f, th.pc.at, f', cur);
      case Removed(parent, gone) => StillLinked(f, th.pc.at, f', parent);
      case Freed(parent, gone) => StillLinked(f, th.pc.at, f', parent);
      case _ =>
    }
  }

  lemma RemoveKeeps(s: State, t: nat, s': State)
    requires Inv(s) && Remove(s, t, s')
    ensures Inv(s')
  {
    var f, f', th := s.files, s'.files, s.threads[t];
    assert ThreadOk(f, th) && SpotOk(f, th.pc.at);
    RemoveFiles(f, th.pc.at, f');
    forall u | u in s.threads && u != t ensures ThreadOk(f', s.threads[u]) {
      OthersKeep(s, t, u, f');
    }
    RemoverOk(s, t, s');
    SameLocks(s, t, s'.threads[t]);
  }

  lemma RemoverOk(s: State, t: nat, s': State)
    requires FilesOk(s.files) && t in s.threads && ThreadOk(s.files, s.threads[t]) && Remove(s, t, s')
    ensures ThreadOk(s'.files, s'.threads[t])
  {
    var f, th := s.files, s.threads[t];
    assert SpotOk(f, th.pc.at);
    StillLinked(f, th.pc.at, s'.files, th.pc.at.dir);
    assert s'.threads[t].locks == map[th.pc.at.dir := true, th.pc.child := true];
  }

  lemma FreeKeeps(s: State, t: nat, s': State)
    requires Inv(s) && FreeNumber(s, t, s')
    ensures Inv(s')
  {
    var f, f', th := s.files, s'.files, s.threads[t];
    assert ThreadOk(f, th);
    forall at | at in f'.kids ensures SpotOk(f', at) {
      assert SpotOk(f, at);
    }
    forall u | u in s'.threads ensures ThreadOk(f', s'.threads[u]) {
      assert ThreadOk(f, s.threads[u]);
      assert th.pc.gone in th.locks && th.locks[th.pc.gone];
      assert u != t ==> Apart(th, s.threads[u]);
    }
    forall u | u in s.threads && u != t
        ensures Apart(s'.threads[t], s.threads[u]) && Apart(s.threads[u], s'.threads[t]) {
      assert Apart(th, s.threads[u]) && Apart(s.threads[u], th);
    }
  }

  lemma OpensKeep(s: State, t: nat, fd: nat, s': State)
    requires Inv(s) && (Register(s, t, fd, s') || Unregister(s, t, s'))
    ensures Inv(s')
  {
    var f, f', th := s.files, s'.files, s.threads[t];
    assert ThreadOk(f, th);
    if th.pc.Both? {
      assert SpotOk(f, th.pc.at);
    }
    forall at | at in f'.kids ensures SpotOk(f', at) {
      assert SpotOk(f, at);
    }
    forall u | u in s'.threads ensures ThreadOk(f', s'.threads[u]) {
      assert ThreadOk(f, s.threads[u]);
      assert u != t ==> Apart(th, s.threads[u]);
    }
  }

  lemma OwnKeeps(s: State, t: nat, s': State)
    requires Inv(s) && Own(s, t, s')
    ensures Inv(s')
  {
    var th :| (Grant(s, t, th) || Ask(s, t, th) || Release(s, t, th)) && s' == s.(threads := s.threads[t := th]);
    if Grant(s, t, th) {
      GrantKeeps(s, t, th);
    } else if Ask(s, t, th) {
      AskKeeps(s, t, th);
    } else {
      ReleaseKeeps(s, t, th);
    }
  }

  lemma ChangesKeep(s: State, t: nat, s': State)
    requires Inv(s) && Changes(s, t, s')
    ensures Inv(s')
  {
    if name, x, dir :| Create(s, t, name, x, dir, s') {
      CreateKeeps(s, t, name, x, dir, s');
    } else if Remove(s, t, s') {
      RemoveKeeps(s, t, s');
    } else if FreeNumber(s, t, s') {
      FreeKeeps(s, t, s');
    } else if fd :| Register(s, t, fd, s') {
      OpensKeep(s, t, fd, s');
    } else {
      OpensKeep(s, t, 0, s');
    }
  }

  lemma ComeAndGo(s: State, t: nat, s': State)
    requires Inv(s) && (Commit(s, s') || Call(s, t, s') || Return(s, t, s'))
    ensures Inv(s')
  {
    if Call(s, t, s') {
      Regrouped(s, t, s'.threads[t], s');
    }
  }

  lemma NextKeeps(s: State, s': State)
    requires Inv(s) && Next(s, s')
    ensures Inv(s')
  {
    if Commit(s, s') {
      ComeAndGo(s, 0, s');
    } else {
      var t :| Moves(s, t, s');
      if Own(s, t, s') {
        OwnKeeps(s, t, s');
      } else if Changes(s, t, s') {
        ChangesKeep(s, t, s');
      } else {
        ComeAndGo(s, t, s');
      }
    }
  }

  ghost predicate StepAt(states: seq<State>, i: nat)
    requires i < |states| - 1
  {
    Next(states[i], states[i + 1])
  }

  ghost predicate IsRun(states: seq<State>) {
    |states| > 0 && Init(states[0]) && forall i: nat :: i < |states| - 1 ==> StepAt(states, i)
  }

  lemma {:induction false} RunKeeps(states: seq<State>, i: nat)
    requires IsRun(states) && i < |states|
    ensures Inv(states[i])
  {
    if i > 0 {
      RunKeeps(states, i - 1);
      assert StepAt(states, i - 1);
      NextKeeps(states[i - 1], states[i]);
    }
  }

  // ---------------------------------------------------- what a lookup may trust

  /** What a thread has locked has a name, unless it took the name away itself; nor can two threads write it. */
  lemma LockedIsLinked(states: seq<State>, i: nat, t: nat, x: nat)
    requires IsRun(states) && i < |states| && t in states[i].threads && x in states[i].threads[t].locks
    ensures Linked(states[i].files, x) ||
            ((states[i].threads[t].pc.Removed? || states[i].threads[t].pc.Freed?) && x == states[i].threads[t].pc.gone)
    ensures states[i].threads[t].locks[x] ==>
              forall u :: u in states[i].threads && u != t ==> x !in states[i].threads[u].locks
  {
    RunKeeps(states, i);
    var f, th := states[i].files, states[i].threads[t];
    assert ThreadOk(f, th);
    match th.pc {
      case Both(at, child) => assert SpotOk(f, at);
      case WantsLock(y, e, Some(at)) => assert SpotOk(f, at);
      case _ =>
    }
    forall u | u in states[i].threads && u != t && th.locks[x] ensures x !in states[i].threads[u].locks {
      assert Apart(th, states[i].threads[u]);
    }
  }

  /** A name found is still that inode's while its lock is waited for, and when it comes. */
  lemma FoundStays(states: seq<State>, i: nat, t: nat)
    requires IsRun(states) && i < |states| && t in states[i].threads
    ensures var th := states[i].threads[t];
            && (th.pc.WantsLock? && th.pc.foundAt.Some? ==>
                  th.pc.foundAt.value in states[i].files.kids
                      && states[i].files.kids[th.pc.foundAt.value] == th.pc.inode)
            && (th.pc.Both? ==> th.pc.at in states[i].files.kids && states[i].files.kids[th.pc.at] == th.pc.child)
  {
    RunKeeps(states, i);
    assert ThreadOk(states[i].files, states[i].threads[t]);
  }

  /** An open file has a name, and no thread that removes it gets past the count. */
  lemma OpenIsLinked(states: seq<State>, i: nat, fd: nat)
    requires IsRun(states) && i < |states| && fd in states[i].files.opens
    ensures Linked(states[i].files, states[i].files.opens[fd])
  {
    RunKeeps(states, i);
  }

  // ------------------------------------------------------------- no deadlock

  predicate Waiting(th: Thread) {
    th.pc.WantsFd? || th.pc.WantsGate? || th.pc.WantsLock?
  }

  /** u has what t asks for; a closed gate opens only when the running operations have ended. */
  predicate WaitsFor(s: State, t: nat, u: nat) {
    t in s.threads && u in s.threads && t != u &&
    var th, other := s.threads[t], s.threads[u];
    match th.pc
    case WantsFd(fd) => other.fd == Some(fd)
    case WantsGate => s.closed && other.inOp
    case WantsLock(x, e, _) => x in other.locks && (e || other.locks[x])
    case _ => false
  }

  function Rank(f: Files, th: Thread): nat {
    match th.pc
    case WantsFd(_) => 0
    case WantsGate => 1
    case WantsLock(x, _, _) => 2 + if x in f.depth then f.depth[x] else 0
    case _ => 0
  }

  /** Whoever it waits for waits for something further down, or for nothing. */
  lemma RankRises(s: State, t: nat, u: nat)
    requires Inv(s) && WaitsFor(s, t, u) && Waiting(s.threads[u])
    ensures Rank(s.files, s.threads[u]) > Rank(s.files, s.threads[t])
  {
    var f, other := s.files, s.threads[u];
    assert ThreadOk(f, s.threads[t]) && ThreadOk(f, other);
    if other.pc.WantsLock? && other.pc.foundAt.Some? {
      assert SpotOk(f, other.pc.foundAt.value);
    }
  }

  function After(ring: seq<nat>, i: nat): nat
    requires i < |ring|
  {
    ring[if i + 1 == |ring| then 0 else i + 1]
  }

  /** Each waits for the next, and the last for the first. */
  ghost predicate Ring(s: State, ring: seq<nat>) {
    |ring| > 0 && forall i: nat :: i < |ring| ==> Link(s, ring, i)
  }

  predicate Link(s: State, ring: seq<nat>, i: nat)
    requires i < |ring|
  {
    WaitsFor(s, ring[i], After(ring, i))
  }

  lemma NoRing(states: seq<State>, i: nat, ring: seq<nat>)
    requires IsRun(states) && i < |states|
    ensures !Ring(states[i], ring)
  {
    RunKeeps(states, i);
    var s := states[i];
    if Ring(s, ring) {
      RingRises(s, ring, |ring| - 1);
      var last := ring[|ring| - 1];
      assert Link(s, ring, |ring| - 1);
      RankRises(s, last, ring[0]);
    }
  }

  lemma {:induction false} RingRises(s: State, ring: seq<nat>, k: nat)
    requires Inv(s) && Ring(s, ring) && k < |ring|
    ensures ring[0] in s.threads && Waiting(s.threads[ring[0]]) && ring[k] in s.threads
    ensures Rank(s.files, s.threads[ring[0]]) <= Rank(s.files, s.threads[ring[k]])
  {
    assert Link(s, ring, 0);
    if k > 0 {
      RingRises(s, ring, k - 1);
      assert Link(s, ring, k - 1) && Link(s, ring, k);
      RankRises(s, ring[k - 1], ring[k]);
    }
  }

  /** With a call under way, some thread can move, or the commit that closed the gate can end. */
  lemma SomeoneMoves(states: seq<State>, i: nat, t: nat)
    requires IsRun(states) && i < |states| && t in states[i].threads
    ensures (exists u, s' :: u in states[i].threads && Moves(states[i], u, s')) ||
            (states[i].closed && Commit(states[i], states[i].(closed := false)))
  {
    RunKeeps(states, i);
    MovesFrom(states[i], t, Above(states[i], t));
  }

  /** The threads ranked above t. */
  function Above(s: State, t: nat): set<nat>
    requires t in s.threads
  {
    set u | u in s.threads && Rank(s.files, s.threads[u]) > Rank(s.files, s.threads[t])
  }

  lemma {:induction false} MovesFrom(s: State, t: nat, above: set<nat>)
    requires Inv(s) && t in s.threads && above == Above(s, t)
    ensures (exists u, s' :: u in s.threads && Moves(s, u, s')) || (s.closed && Commit(s, s.(closed := false)))
    decreases |above|
  {
    if !Waiting(s.threads[t]) {
      CanMove(s, t);
    } else if u :| u in s.threads && WaitsFor(s, t, u) {
      if Waiting(s.threads[u]) {
        RankRises(s, t, u);
        assert Above(s, u) <= above - {u} && u in above;
        SmallerSet(Above(s, u), above, u);
        MovesFrom(s, u, Above(s, u));
      } else {
        CanMove(s, u);
      }
    } else {
      FreeToGo(s, t);
    }
  }

  lemma SmallerSet(a: set<nat>, b: set<nat>, x: nat)
    requires a <= b - {x} && x in b
    ensures |a| < |b|
  {
    InSet(a, b - {x});
  }

  lemma {:induction false} InSet(a: set<nat>, b: set<nat>)
    requires a <= b
    ensures |a| <= |b|
  {
    if x :| x in a {
      InSet(a - {x}, b - {x});
    }
  }

  /** A thread that waits for nothing has a step, one that lets go of something or ends its call. */
  lemma CanMove(s: State, t: nat)
    requires Inv(s) && t in s.threads && !Waiting(s.threads[t])
    ensures exists s' :: Moves(s, t, s')
  {
    var th := s.threads[t];
    match th.pc {
      case Both(at, child) =>
        var to := th.(locks := th.locks - {at.dir}, pc := Holds(child));
        assert Moves(s, t, s.(threads := s.threads[t := to])) by { assert Release(s, t, to)
            && Own(s, t, s.(threads := s.threads[t := to])); }
      case Freed(parent, gone) =>
        var to := th.(locks := th.locks - {gone}, pc := Holds(parent));
        assert Moves(s, t, s.(threads := s.threads[t := to])) by { assert Release(s, t, to)
            && Own(s, t, s.(threads := s.threads[t := to])); }
      case Holds(cur) =>
        var to := th.(locks := th.locks - {cur}, pc := Ready);
        assert Moves(s, t, s.(threads := s.threads[t := to])) by { assert Release(s, t, to)
            && Own(s, t, s.(threads := s.threads[t := to])); }
      case Ready =>
        if th.inOp || th.fd.Some? {
          var to := if th.inOp then th.(inOp := false) else th.(fd := None);
          assert Moves(s, t, s.(threads := s.threads[t := to])) by { assert Release(s, t, to)
              && Own(s, t, s.(threads := s.threads[t := to])); }
        } else {
          assert Moves(s, t, s.(threads := s.threads - {t})) by { assert Return(s, t, s.(threads := s.threads - {t})); }
        }
      case Removed(parent, gone) =>
        var s' := s.(files := s.files.(used := s.files.used - {gone}),
                     threads := s.threads[t := th.(pc := Freed(parent, gone))]);
        assert Moves(s, t, s') by { assert FreeNumber(s, t, s') && Changes(s, t, s'); }
    }
  }

  /** A thread that waits for nobody gets what it asks for, or the gate can open. */
  lemma FreeToGo(s: State, t: nat)
    requires Inv(s) && t in s.threads && Waiting(s.threads[t])
    requires forall u :: u in s.threads ==> !WaitsFor(s, t, u)
    ensures (exists s' :: Moves(s, t, s')) || (s.closed && Commit(s, s.(closed := false)))
  {
    var th := s.threads[t];
    assert ThreadOk(s.files, th);
    match th.pc {
      case WantsFd(fd) =>
        var to := th.(fd := Some(fd), pc := Ready);
        assert forall u :: u in s.threads && u != t ==> s.threads[u].fd != Some(fd) by {
          assert forall u :: u in s.threads ==> !WaitsFor(s, t, u);
        }
        assert Moves(s, t, s.(threads := s.threads[t := to])) by { assert Grant(s, t, to)
            && Own(s, t, s.(threads := s.threads[t := to])); }
      case WantsGate =>
        if s.closed {
          assert forall u :: u in s.threads ==> !s.threads[u].inOp by {
            assert forall u :: u in s.threads ==> !WaitsFor(s, t, u);
          }
        } else {
          var to := th.(inOp := true, pc := Ready);
          assert Moves(s, t, s.(threads := s.threads[t := to])) by { assert Grant(s, t, to)
              && Own(s, t, s.(threads := s.threads[t := to])); }
        }
      case WantsLock(x, e, at) =>
        var to := Granted(th);
        forall u | u in s.threads && u != t && x in s.threads[u].locks ensures !e && !s.threads[u].locks[x] {
          assert !WaitsFor(s, t, u);
        }
        assert Moves(s, t, s.(threads := s.threads[t := to])) by { assert Grant(s, t, to)
            && Own(s, t, s.(threads := s.threads[t := to])); }
    }
  }
}
