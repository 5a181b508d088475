/** One shard of the buffer cache: which frame holds which block, and who goes first. */
module CacheShard {
  import opened Layout
  import opened LruLists

  /** Nobody is using it, no transaction holds it, and it can go at once. */
  predicate Spare(f: Frame)
    reads f`held
  {
    f.held.pins == 0 && !f.held.inTxn && (!f.held.mapped || !f.held.dirty)
  }

  /** Nobody is using it and no transaction holds it; the log is durable for it, so it may be written first. */
  predicate Ripe(f: Frame, durable: nat)
    reads f`held
  {
    f.held.pins == 0 && !f.held.inTxn && f.held.mapped && f.held.dirty && f.held.lsn <= durable
  }

  /** `f` is the least recently used frame of the list that is spare. */
  ghost predicate LastSpare(order: seq<Frame>, f: Frame)
    reads order`held
  {
    exists k: nat :: k < |order| && order[k] == f && Spare(f) && forall j :: k < j < |order| ==> !Spare(order[j])
  }

  ghost predicate LastRipe(order: seq<Frame>, durable: nat, f: Frame)
    reads order`held
  {
    exists k: nat :: k < |order| && order[k] == f && Ripe(f, durable)
        && forall j :: k < j < |order| ==> !Ripe(order[j], durable)
  }

  /** Every frame is pinned, in the transaction or waiting for the log. */
  ghost predicate AllHeld(order: seq<Frame>, durable: nat)
    reads order`held
  {
    forall f :: f in order ==> !Spare(f) && !Ripe(f, durable)
  }

  /** The least recently used spare frame; the least recently used ripe one if none is spare. */
  ghost predicate Chosen(order: seq<Frame>, durable: nat, f: Frame)
    reads order`held
  {
    LastSpare(order, f) || (LastRipe(order, durable, f) && forall g :: g in order ==> !Spare(g))
  }

  /** Dirty, no transaction's, and committed by a commit the log has for sure. */
  predicate MayWrite(f: Frame, durable: nat)
    reads f`held
  {
    f.held.mapped && f.held.dirty && !f.held.inTxn && f.held.lsn <= durable
  }

  /** f has come to the front, from its place or as a newcomer; the others are in their order. */
  ghost predicate ToFront(was: seq<Frame>, f: Frame, now: seq<Frame>) {
    (f !in was && now == [f] + was) || exists k: nat :: k < |was| && was[k] == f && now == [f] + Without(was, k)
  }

  ghost function DirtyOf(frames: seq<Frame>): set<Frame>
    reads frames`held
  {
    set f | f in frames && f.held.dirty
  }

  /** Every other block's frame is still its own, but for the block, if any, that f held before. */
  ghost predicate OthersStay(was: map<nat, Frame>, now: map<nat, Frame>, b: nat, f: Frame) {
    && (forall c :: c in now && c != b ==> c in was && now[c] == was[c])
    && (forall c :: c in was && c != b && c !in now ==> was[c] == f)
  }

  /** Nothing has gone to the disk but what was dirty, no transaction's, and of a commit the log has for sure. */
  ghost predicate LoggedFirst(was: map<nat, Held>, before: seq<Block>, now: seq<Block>, durable: nat) {
    && |now| == |before|
    && forall b: nat :: b < |now| && now[b] != before[b] ==>
         b in was && was[b].dirty && !was[b].inTxn && was[b].lsn <= durable && now[b] == was[b].data
  }

  /** A picked frame once it is written. */
  function Flushed(held: Held): Held
    requires held.pins > 0
  {
    held.(dirty := false, pins := held.pins - 1)
  }

  /** The disk once these are written, in order. */
  function DiskAfter(disk: seq<Block>, picks: seq<Held>): (r: seq<Block>)
    requires forall h :: h in picks ==> h.blockNo < |disk|
    ensures |r| == |disk|
  {
    if picks == [] then disk
    else
      var last := picks[|picks| - 1];
      DiskAfter(disk, picks[..|picks| - 1])[last.blockNo := last.data]
  }

  class Shard {
    const share: nat
    const list: LruList
    var table: map<nat, Frame>
    var frames: seq<Frame>
    var dirtyCount: nat
    /** The device as a read would see it. */
    var disk: seq<Block>

    /** What the shard promises of one of its frames. */
    ghost predicate FrameOk(f: Frame)
      reads this, f`held
    {
      && (f.held.mapped ==> f.held.blockNo in table && table[f.held.blockNo] == f)
      && (!f.held.mapped ==> !f.held.dirty && !f.held.inTxn && f.held.pins == 0)
      && (f.held.mapped && !f.held.dirty && !f.held.inTxn && f.held.pins == 0 ==>
             f.held.blockNo < |disk| && f.held.data == disk[f.held.blockNo])
    }

    ghost predicate TableOk()
      reads this, frames`held
    {
      forall b :: b in table ==> b < |disk| && table[b] in frames && table[b].held.mapped && table[b].held.blockNo == b
    }

    /** The list is exactly the shard's frames, in some order. */
    ghost predicate ListOk()
      reads this, list, list.order`prev, list.order`next
    {
      && list.Valid() && |frames| == |list.order|
      && (forall f :: f in frames ==> f in list.order) && (forall f :: f in list.order ==> f in frames)
    }

    ghost predicate Valid()
      reads this, list, list.order`prev, list.order`next, frames`held
    {
      ListOk() && BooksOk()
    }

    /** The map, the frames and the count agree. */
    ghost predicate BooksOk()
      reads this, frames`held
    {
      forall n: nat :: n == dirtyCount ==> BooksIn(n)
    }

    /** What BooksOk folds. */
    ghost predicate BooksIn(count: nat)
      reads this, frames`held
    {
      TableOk() && (forall f :: f in frames ==> FrameOk(f)) && count == |DirtyOf(frames)|
    }

    /** What a read of block b returns. */
    ghost function View(b: nat): Block
      reads this, table.Values`held
      requires b < |disk|
    {
      if b in table then table[b].held.data else disk[b]
    }

    /** How the frame of each block that has one stands. */
    ghost function Standing(): map<nat, Held>
      reads this, table.Values`held
    {
      map b | b in table :: table[b].held
    }

    constructor (share: nat, disk: seq<Block>)
      ensures Valid() && this.disk == disk && this.share == share
      ensures forall b: nat :: b < |disk| ==> View(b) == disk[b]
    {
      this.share := share;
      list := new LruList();
      table, frames, dirtyCount := map[], [], 0;
      this.disk := disk;
    }

    method NewFrame() returns (f: Frame)
      requires Valid()
      modifies this`frames, list, list.order`prev, list.order`next
      ensures Valid() && fresh(f) && frames == old(frames) + [f] && list.order == [f] + old(list.order)
      ensures f.held == NOTHING
    {
      assert BooksIn(dirtyCount);
      ghost var dirty := DirtyOf(frames);
      f := new Frame();
      list.PushFront(f);
      frames := frames + [f];
      assert DirtyOf(frames) == dirty;
      assert BooksIn(dirtyCount);
    }

    /** One walk from the least recently used end. */
    method PickVictim(durable: nat) returns (chosen: Frame?)
      requires ListOk()
      ensures if chosen == null then AllHeld(list.order, durable) else Chosen(list.order, durable, chosen)
      ensures chosen != null ==> chosen in list.order && chosen.held.pins == 0 && !chosen.held.inTxn
      ensures chosen != null ==> !AllHeld(list.order, durable)
      ensures chosen != null && chosen.held.mapped && chosen.held.dirty ==> chosen.held.lsn <= durable
    {
      var dirtyVictim: Frame? := null;
      ghost var order := list.order;
      ghost var k := |order| - 1;
      var f := list.tail;
      while f != null
        invariant -1 <= k < |order| && f == At(order, k)
        invariant forall j :: k < j < |order| ==> !Spare(order[j])
        invariant dirtyVictim == null ==> forall j :: k < j < |order| ==> !Ripe(order[j], durable)
        invariant dirtyVictim != null ==> LastRipe(order, durable, dirtyVictim)
        decreases k
      {
        assert order[k].prev == At(order, k - 1);
        if f.held.pins > 0 || f.held.inTxn {
        } else if !f.held.mapped || !f.held.dirty {
          return f;
        } else if dirtyVictim == null && f.held.lsn <= durable {
          dirtyVictim := f;
        }
        f := f.prev;
        k := k - 1;
      }
      chosen := dirtyVictim;
    }

    /** Moves f to the front. */
    method Touch(f: Frame)
      requires ListOk() && f in frames
      modifies list, list.order`prev, list.order`next
      ensures ListOk() && list.order != [] && list.order[0] == f
      ensures multiset(list.order) == multiset(old(list.order)) && ToFront(old(list.order), f, list.order)
    {
      ghost var order := list.order;
      ghost var k: nat :| k < |order| && order[k] == f;
      Reordered(order, k);
      list.Unlink(f, k);
      list.PushFront(f);
    }

    /** Writes a dirty frame to the disk: a read sees what it saw. */
    method WriteOut(f: Frame)
      requires BooksOk() && f in frames && f.held.mapped && f.held.dirty
      modifies this`disk, this`dirtyCount, f`held
      ensures BooksOk() && f.held == old(f.held).(dirty := false) && dirtyCount == old(dirtyCount) - 1
      ensures f.held.blockNo < |disk| == |old(disk)| && disk == old(disk)[f.held.blockNo := f.held.data]
      ensures forall b: nat :: b < |disk| ==> View(b) == old(View(b))
    {
      assert BooksIn(dirtyCount);
      ghost var dirty := DirtyOf(frames);
      assert FrameOk(f) && f in dirty;
      disk := disk[f.held.blockNo := f.held.data];
      f.held := f.held.(dirty := false);
      dirtyCount := dirtyCount - 1;
      assert DirtyOf(frames) == dirty - {f};
      assert dirtyCount == |dirty - {f}|;
      assert BooksIn(dirtyCount);
    }

    /** Forgets which block f holds. */
    method Unmap(f: Frame)
      requires BooksOk() && f in frames && f.held.mapped && Spare(f)
      modifies this`table, f`held
      ensures BooksOk() && f.held == old(f.held).(mapped := false) && table == old(table) - {f.held.blockNo}
      ensures forall b: nat :: b < |disk| ==> View(b) == old(View(b))
    {
      assert BooksIn(dirtyCount);
      assert FrameOk(f);
      ghost var dirty := DirtyOf(frames);
      table := table - {f.held.blockNo};
      f.held := f.held.(mapped := false);
      assert DirtyOf(frames) == dirty;
      assert BooksIn(dirtyCount);
    }

    /** A frame to load a block into, and which of the shard's frames is given up for it. */
    method TakeFrame(durable: nat) returns (f: Frame)
      requires Valid()
      modifies this`table, this`frames, this`dirtyCount, this`disk, list, list.order`prev, list.order`next
      modifies frames`held
      ensures Valid() && f in frames && !f.held.mapped
      ensures |disk| == old(|disk|) && forall b: nat :: b < |disk| ==> View(b) == old(View(b))
      ensures table == old(table)
              || (f in old(list.order) && old(f.held.mapped) && table == old(table) - {old(f.held.blockNo)})
      ensures forall g :: g in old(frames) && g != f ==> g.held == old(g.held)
      ensures if f in old(list.order) then frames == old(frames) && list.order == old(list.order)
              else fresh(f) && frames == old(frames) + [f] && list.order == [f] + old(list.order)
      ensures f !in old(list.order) <==>
                old(|frames|) < share || old(AllHeld(list.order, durable))
      ensures f in old(list.order) ==> old(Chosen(list.order, durable, f))
      ensures LoggedFirst(old(Standing()), old(disk), disk, durable)
      ensures f in old(list.order) && old(f.held.dirty) ==> old(f.held.blockNo) < |old(disk)|
      ensures disk == if f in old(list.order) && old(f.held.dirty)
                      then old(disk)[old(f.held.blockNo) := old(f.held.data)] else old(disk)
      ensures f in old(list.order) ==>
                old(f.held.pins == 0 && !f.held.inTxn && (f.held.dirty ==> f.held.mapped && f.held.lsn <= durable))
    {
      if |frames| < share {
        f := NewFrame();
        return;
      }
      var chosen := Reuse(durable);
      if chosen == null {
        f := NewFrame();
      } else {
        f := chosen;
      }
    }

    /** The victim, emptied; none if every frame is held. */
    method Reuse(durable: nat) returns (f: Frame?)
      requires Valid()
      modifies this`table, this`dirtyCount, this`disk, frames`held
      ensures Valid() && |disk| == old(|disk|) && forall b: nat :: b < |disk| ==> View(b) == old(View(b))
      ensures LoggedFirst(old(Standing()), old(disk), disk, durable)
      ensures f == null <==> old(AllHeld(list.order, durable))
      ensures f == null ==> table == old(table) && disk == old(disk)
      ensures forall g :: g in frames && g != f ==> g.held == old(g.held)
      ensures f != null ==>
                && f in frames && f in list.order && !f.held.mapped && old(Chosen(list.order, durable, f))
                && (table == old(table) || (old(f.held.mapped) && table == old(table) - {old(f.held.blockNo)}))
                && (old(f.held.dirty) ==> old(f.held.mapped) && old(f.held.blockNo) < |disk|)
                && disk == (if old(f.held.dirty) then old(disk)[old(f.held.blockNo) := old(f.held.data)] else old(disk))
                && old(f.held.pins == 0 && !f.held.inTxn && (f.held.dirty ==> f.held.lsn <= durable))
    {
      assert BooksIn(dirtyCount);
      f := PickVictim(durable);
      if f != null {
        assert f in frames && FrameOk(f);
        Vacate(f);
      }
    }

    method Vacate(f: Frame)
      requires BooksOk() && f in frames && f.held.pins == 0 && !f.held.inTxn
      modifies this`table, this`dirtyCount, this`disk, f`held
      ensures BooksOk() && !f.held.mapped
      ensures table == old(table) || (old(f.held.mapped) && table == old(table) - {old(f.held.blockNo)})
      ensures |disk| == old(|disk|) && forall b: nat :: b < |disk| ==> View(b) == old(View(b))
      ensures old(f.held.dirty) ==> old(f.held.mapped) && old(f.held.blockNo) < |disk|
      ensures disk == if old(f.held.dirty) then old(disk)[old(f.held.blockNo) := old(f.held.data)] else old(disk)
    {
      assert BooksIn(dirtyCount);
      assert FrameOk(f);
      if f.held.dirty {
        WriteOut(f);
      }
      if f.held.mapped {
        Unmap(f);
      }
    }

    /**
     Block b's frame, pinned: the one it is in, or one it is loaded into now, exclusively. `joined`: it was
     not in the running transaction before, and is now.
     */
    method Acquire(b: nat, zeroFill: bool, joinTxn: bool, durable: nat)
      returns (f: Frame, exclusive: bool, joined: bool)
      requires Valid() && b < |disk|
      modifies this`table, this`frames, this`dirtyCount, this`disk, list, list.order`prev, list.order`next, frames`held
      ensures Valid() && f in frames && b in table && table[b] == f && f.held.blockNo == b && f.held.mapped
              && f.held.pins > 0
      ensures list.order != [] && list.order[0] == f
      ensures LoggedFirst(old(Standing()), old(disk), disk, durable) && (f in old(frames) || fresh(f))
      ensures OthersStay(old(table), table, b, f) && ToFront(old(list.order), f, list.order)
      ensures forall g :: g in old(frames) && g != f ==> g.held == old(g.held)
      ensures !exclusive ==> disk == old(disk) && table == old(table) && frames == old(frames)
      ensures f.held.data == if exclusive && zeroFill then ZERO_BLOCK else old(View(b))
      ensures f.held.pins == 1 && !f.held.dirty && !f.held.inTxn && !(exclusive && zeroFill) ==> f.held.data == disk[b]
      ensures exclusive <==> b !in old(table)
      ensures !exclusive ==>
                && f == old(table[b])
                && f.held == old(f.held).(pins := old(f.held.pins) + 1, inTxn := joinTxn || old(f.held.inTxn))
      ensures exclusive ==>
                f.held == Held(b, true, false, joinTxn, 0, 0, 1, if zeroFill then ZERO_BLOCK else disk[b])
      ensures joined == (joinTxn && (exclusive || !old(f.held.inTxn)))
      ensures forall c: nat :: c < |disk| && c != b ==> View(c) == old(View(c))
    {
      assert BooksIn(dirtyCount);
      if b in table {
        assert FrameOk(table[b]);
        f, joined := Again(b, joinTxn);
        exclusive := false;
      } else {
        f := Bring(b, zeroFill, joinTxn, durable);
        joined, exclusive := joinTxn, true;
      }
    }

    method Again(b: nat, joinTxn: bool) returns (f: Frame, joined: bool)
      requires Valid() && b in table
      modifies this`dirtyCount, list, list.order`prev, list.order`next, {table[b]}`held
      ensures Valid() && f == table[b] && dirtyCount == old(dirtyCount)
      ensures f.held == old(f.held).(pins := old(f.held.pins) + 1, inTxn := joinTxn || old(f.held.inTxn))
      ensures list.order != [] && list.order[0] == f && ToFront(old(list.order), f, list.order)
      ensures joined == (joinTxn && !old(f.held.inTxn))
    {
      assert BooksIn(dirtyCount);
      f := table[b];
      assert FrameOk(f);
      joined := joinTxn && !f.held.inTxn;
      Put(f, f.held.(pins := f.held.pins + 1, inTxn := joinTxn || f.held.inTxn));
      Touch(f);
    }

    /** A mapped frame's new standing, counted if it is dirty from now on. */
    method Put(f: Frame, held: Held)
      requires BooksOk() && f in frames && f.held.mapped && held.mapped && held.blockNo == f.held.blockNo
      requires f.held.dirty ==> held.dirty
      requires !held.dirty && !held.inTxn && held.pins == 0 ==> held.blockNo < |disk| && held.data == disk[held.blockNo]
      modifies this`dirtyCount, f`held
      ensures BooksOk() && f.held == held
      ensures dirtyCount == old(dirtyCount) + if held.dirty && !old(f.held.dirty) then 1 else 0
    {
      assert BooksIn(dirtyCount);
      assert FrameOk(f);
      ghost var dirty := DirtyOf(frames);
      ghost var marks := held.dirty && !f.held.dirty;
      assert marks ==> |dirty + {f}| == |dirty| + 1;
      if held.dirty && !f.held.dirty {
        dirtyCount := dirtyCount + 1;
      }
      f.held := held;
      assert DirtyOf(frames) == if marks then dirty + {f} else dirty;
      assert TableOk();
      assert FrameOk(f);
      assert BooksIn(dirtyCount);
    }

    /** A frame taken and loaded, and brought to the front. */
    method Bring(b: nat, zeroFill: bool, joinTxn: bool, durable: nat) returns (f: Frame)
      requires Valid() && b < |disk| && b !in table
      modifies this`table, this`frames, this`dirtyCount, this`disk, list, list.order`prev, list.order`next, frames`held
      ensures Valid() && f in frames && b in table && table[b] == f
      ensures f in old(frames) || fresh(f)
      ensures list.order != [] && list.order[0] == f && ToFront(old(list.order), f, list.order)
      ensures LoggedFirst(old(Standing()), old(disk), disk, durable) && disk[b] == old(disk[b])
      ensures OthersStay(old(table), table, b, f)
      ensures forall g :: g in old(frames) && g != f ==> g.held == old(g.held)
      ensures f.held == Held(b, true, false, joinTxn, 0, 0, 1, if zeroFill then ZERO_BLOCK else disk[b])
      ensures forall c: nat :: c < |disk| && c != b ==> View(c) == old(View(c))
    {
      f := Fetch(b, zeroFill, joinTxn, durable);
      ghost var order := list.order;
      Touch(f);
      FrontAgain(old(list.order), f, order, list.order);
    }

    method Fetch(b: nat, zeroFill: bool, joinTxn: bool, durable: nat) returns (f: Frame)
      requires Valid() && b < |disk| && b !in table
      modifies this`table, this`frames, this`dirtyCount, this`disk, list, list.order`prev, list.order`next, frames`held
      ensures Valid() && f in frames && b in table && table[b] == f
      ensures f in old(frames) || fresh(f)
      ensures list.order == old(list.order)
              || (f !in old(list.order) && fresh(f) && list.order == [f] + old(list.order))
      ensures LoggedFirst(old(Standing()), old(disk), disk, durable) && disk[b] == old(disk[b])
      ensures OthersStay(old(table), table, b, f)
      ensures forall g :: g in old(frames) && g != f ==> g.held == old(g.held)
      ensures f.held == Held(b, true, false, joinTxn, 0, 0, 1, if zeroFill then ZERO_BLOCK else disk[b])
      ensures forall c: nat :: c < |disk| && c != b ==> View(c) == old(View(c))
    {
      assert BooksIn(dirtyCount);
      f := TakeFrame(durable);
      assert View(b) == disk[b];
      Install(f, b, if zeroFill then ZERO_BLOCK else disk[b], joinTxn);
    }

    method Install(f: Frame, b: nat, data: Block, joinTxn: bool)
      requires BooksOk() && f in frames && !f.held.mapped && b < |disk| && b !in table
      modifies this`table, f`held
      ensures BooksOk() && table == old(table)[b := f] && f.held == Held(b, true, false, joinTxn, 0, 0, 1, data)
      ensures forall c: nat :: c < |disk| && c != b ==> View(c) == old(View(c))
    {
      assert BooksIn(dirtyCount);
      ghost var dirty := DirtyOf(frames);
      assert FrameOk(f);
      f.held := Held(b, true, false, joinTxn, 0, 0, 1, data);
      table := table[b := f];
      assert DirtyOf(frames) == dirty;
      assert BooksIn(dirtyCount);
    }

    method Unpin(f: Frame)
      requires BooksOk() && f in frames && f.held.pins > 0 && f.held.mapped
      requires f.held.pins == 1 && !f.held.dirty && !f.held.inTxn ==>
                 f.held.blockNo < |disk| && f.held.data == disk[f.held.blockNo]
      modifies this`dirtyCount, f`held
      ensures BooksOk() && dirtyCount == old(dirtyCount)
      ensures f.held == old(f.held).(pins := old(f.held.pins) - 1)
      ensures forall c: nat :: c < |disk| ==> View(c) == old(View(c))
    {
      assert BooksIn(dirtyCount);
      Put(f, f.held.(pins := f.held.pins - 1));
    }

    /** A read changes nothing that a read can see. */
    method Read(b: nat, durable: nat) returns (dst: Block)
      requires Valid() && b < |disk|
      modifies this`table, this`frames, this`dirtyCount, this`disk, list, list.order`prev, list.order`next, frames`held
      ensures Valid() && |disk| == old(|disk|) && dst == old(View(b))
      ensures forall c: nat :: c < |disk| ==> View(c) == old(View(c))
      ensures b in table && ToFront(old(list.order), table[b], list.order) && OthersStay(old(table), table, b, table[b])
      ensures LoggedFirst(old(Standing()), old(disk), disk, durable)
      ensures forall g :: g in old(frames) && g != table[b] ==> g.held == old(g.held)
      ensures if b in old(table) then table == old(table) && table[b].held == old(table[b].held) && disk == old(disk)
              else table[b].held == Held(b, true, false, false, 0, 0, 0, disk[b])
    {
      var f, exclusive, joined := Acquire(b, false, false, durable);
      dst := f.held.data;
      Unpin(f);
    }

    /** One more change; outside a transaction the frame is dirty now, inside one when it commits. */
    method FinishModify(f: Frame, inTxn: bool)
      requires BooksOk() && f in frames && f.held.pins > 0 && f.held.mapped && (inTxn ==> f.held.inTxn)
      requires f.held.blockNo < |disk|
      modifies this`dirtyCount, f`held
      ensures BooksOk() && dirtyCount == old(dirtyCount) + if !inTxn && !old(f.held.dirty) then 1 else 0
      ensures f.held == old(f.held).(version := old(f.held.version) + 1, pins := old(f.held.pins) - 1, dirty := !inTxn
              || old(f.held.dirty))
    {
      assert BooksIn(dirtyCount);
      Put(f, f.held.(version := f.held.version + 1, pins := f.held.pins - 1, dirty := !inTxn || f.held.dirty));
    }

    /** Every later read sees what fn made of the bytes, until the next change. */
    method Modify(b: nat, anew: bool, inTxn: bool, fn: Block -> Block, durable: nat) returns (joined: bool)
      requires Valid() && b < |disk|
      modifies this`table, this`frames, this`dirtyCount, this`disk, list, list.order`prev, list.order`next, frames`held
      ensures Valid() && |disk| == old(|disk|)
      ensures View(b) == fn(if anew then ZERO_BLOCK else old(View(b)))
      ensures forall c: nat :: c < |disk| && c != b ==> View(c) == old(View(c))
      ensures b in table && (inTxn ==> table[b].held.inTxn) && (!inTxn ==> table[b].held.dirty)
      ensures ToFront(old(list.order), table[b], list.order) && OthersStay(old(table), table, b, table[b])
      ensures LoggedFirst(old(Standing()), old(disk), disk, durable)
      ensures forall g :: g in old(frames) && g != table[b] ==> g.held == old(g.held)
      ensures b in old(table) ==>
                var was := old(table[b].held);
                && table[b].held == was.(data := View(b), version := was.version + 1, inTxn := inTxn || was.inTxn,
                                         dirty := !inTxn || was.dirty)
                && table == old(table) && disk == old(disk)
      ensures b !in old(table) ==> table[b].held == Held(b, true, !inTxn, inTxn, 0, 1, 0, View(b))
      ensures joined <==> inTxn && !(b in old(table) && old(table[b].held.inTxn))
    {
      var f, exclusive;
      f, exclusive, joined := Acquire(b, anew, inTxn, durable);
      var data := fn(if anew then ZERO_BLOCK else f.held.data);
      Rewrite(f, data, inTxn);
    }

    /** The change itself, on a pinned frame. */
    method Rewrite(f: Frame, data: Block, inTxn: bool)
      requires BooksOk() && f in frames && f.held.pins > 0 && f.held.mapped && (inTxn ==> f.held.inTxn)
      requires f.held.blockNo < |disk|
      modifies this`dirtyCount, f`held
      ensures BooksOk() && disk == old(disk) && (old(Valid()) ==> Valid())
      ensures var was := old(f.held);
              f.held == was.(data := data, version := was.version + 1, pins := was.pins - 1,
                             dirty := !inTxn || was.dirty)
      ensures View(f.held.blockNo) == data
      ensures forall c: nat :: c < |disk| && c != f.held.blockNo ==> View(c) == old(View(c))
    {
      assert BooksIn(dirtyCount);
      assert FrameOk(f);
      Put(f, f.held.(data := data));
      FinishModify(f, inTxn);
      assert FrameOk(f);
    }

    /** What a commit logs of a block it holds; no block it does not hold has anything to log. */
    method CopyTxnFrame(b: nat) returns (ok: bool, bytes: Block)
      requires Valid() && b < |disk|
      ensures ok <==> b in table && table[b].held.inTxn
      ensures ok ==> bytes == View(b)
    {
      assert BooksIn(dirtyCount);
      ok, bytes := b in table && table[b].held.inTxn, ZERO_BLOCK;
      if ok {
        bytes := table[b].held.data;
      }
    }

    /** Committed: the block is no longer the transaction's, is dirty and is one version on. */
    method CommitFrame(b: nat, lsn: nat) returns (ok: bool)
      requires Valid() && b < |disk|
      modifies this`dirtyCount, frames`held
      ensures Valid() && (ok <==> b in table && old(table[b].held.inTxn))
      ensures forall f :: f in frames && !(ok && f == table[b]) ==> f.held == old(f.held)
      ensures ok ==>
                var was := old(table[b].held);
                table[b].held == was.(inTxn := false, lsn := lsn, dirty := true, version := was.version + 1)
      ensures forall c: nat :: c < |disk| ==> View(c) == old(View(c))
    {
      assert BooksIn(dirtyCount);
      ok := b in table && table[b].held.inTxn;
      if ok {
        var f := table[b];
        Put(f, f.held.(inTxn := false, lsn := lsn, dirty := true, version := f.held.version + 1));
      }
    }

    // ------------------------------------------------------------ write_back

    /** One more pin, on a frame that is to be written. */
    method PinDirty(f: Frame)
      requires BooksOk() && f in frames && f.held.mapped && f.held.dirty
      modifies this`dirtyCount, f`held
      ensures BooksOk() && f.held == old(f.held).(pins := old(f.held.pins) + 1) && dirtyCount == old(dirtyCount)
    {
      assert BooksIn(dirtyCount);
      assert FrameOk(f);
      Put(f, f.held.(pins := f.held.pins + 1));
    }

    /** The frame joins the picks, if it may be written. */
    method PickOne(f: Frame, durable: nat, picks: seq<Frame>) returns (more: seq<Frame>)
      requires BooksOk() && f in frames && f !in picks && Unique(picks)
      modifies this`dirtyCount, f`held
      ensures BooksOk() && dirtyCount == old(dirtyCount) && Unique(more)
      ensures if old(MayWrite(f, durable)) then more == picks + [f]
              && f.held == old(f.held).(pins := old(f.held.pins) + 1)
              else more == picks && f.held == old(f.held)
    {
      assert BooksIn(dirtyCount);
      more := picks;
      if MayWrite(f, durable) {
        UniqueMore(picks, f);
        PinDirty(f);
        more := picks + [f];
      }
    }

    /** The frames that may be written, at most `max` of them and the least recently used, pinned. */
    method PickDirty(max: nat, durable: nat) returns (picks: seq<Frame>, ghost k: int)
      requires Valid()
      modifies this`dirtyCount, frames`held
      ensures BooksOk() && |picks| <= max && Unique(picks) && dirtyCount == old(dirtyCount)
      ensures forall f :: f in picks ==> f in frames
      ensures -1 <= k < |list.order| && (|picks| < max ==> k == -1)
      ensures forall i :: 0 <= i < |list.order| ==>
                if k < i && old(MayWrite(list.order[i], durable))
                then list.order[i] in picks
                    && list.order[i].held == old(list.order[i].held).(pins := old(list.order[i].held.pins) + 1)
                else list.order[i] !in picks && list.order[i].held == old(list.order[i].held)
    {
      picks := [];
      ghost var order := list.order;
      k := |order| - 1;
      var f := list.tail;
      assert UniqueIn(picks);
      while f != null && |picks| < max
        invariant -1 <= k < |order| && f == At(order, k) && BooksOk() && dirtyCount == old(dirtyCount)
        invariant |picks| <= max && Unique(picks)
        invariant forall g :: g in picks ==> g in frames
        invariant forall i :: 0 <= i < |order| ==>
                    if k < i && old(MayWrite(order[i], durable))
                    then order[i] in picks && order[i].held == old(order[i].held).(pins := old(order[i].held.pins) + 1)
                    else order[i] !in picks && order[i].held == old(order[i].held)
        decreases k
      {
        assert order[k].prev == At(order, k - 1);
        assert f in frames;
        OnlyThere(order, k);
        picks := PickOne(f, durable, picks);
        f := f.prev;
        k := k - 1;
      }
    }

    /** A picked frame's turn: its bytes go to the disk, it is clean, and its pin goes. */
    method FlushPick(f: Frame)
      requires BooksOk() && f in frames && f.held.mapped && f.held.dirty && f.held.pins > 0
      modifies this`disk, this`dirtyCount, f`held
      ensures BooksOk() && f.held == old(f.held).(dirty := false, pins := old(f.held.pins) - 1)
      ensures f.held.blockNo < |disk| == |old(disk)| && disk == old(disk)[f.held.blockNo := f.held.data]
      ensures dirtyCount == old(dirtyCount) - 1
      ensures forall b: nat :: b < |disk| ==> View(b) == old(View(b))
    {
      assert BooksIn(dirtyCount);
      WriteOut(f);
      assert FrameOk(f);
      Put(f, f.held.(pins := f.held.pins - 1));
    }

    /**
     A pass with nothing else going on. From the least recently used end it writes the frames that were dirty, in no
     transaction and of a commit the log has for sure, as many as it may: those are clean and counted off, all others
     are as they were, and no read sees a difference.
     */
    method WriteBack(max: nat, durable: nat) returns (written: nat, ghost k: int)
      requires Valid()
      modifies this`disk, this`dirtyCount, frames`held
      ensures Valid() && written <= max && dirtyCount == old(dirtyCount) - written
      ensures |disk| == old(|disk|) && forall b: nat :: b < |disk| ==> View(b) == old(View(b))
      ensures written < max ==> k < 0
      ensures forall i :: 0 <= i < |list.order| ==>
                var was := old(list.order[i].held);
                list.order[i].held ==
                  if k < i && was.mapped && was.dirty && !was.inTxn && was.lsn <= durable
                  then was.(dirty := false) else was
      ensures LoggedFirst(old(Standing()), old(disk), disk, durable)
      ensures forall f :: f in frames && old(f.held.dirty) && !f.held.dirty ==>
                f.held.blockNo < |disk| && disk[f.held.blockNo] == f.held.data
    {
      var picks;
      ghost var was;
      picks, k, was := PickAll(max, durable);
      written := |picks|;
      ghost var before := disk;
      FlushAll(picks, was);
      PicksWritten(old(Standing()), before, was, durable);
    }

    /** The picks, how they stand, and where they come from. */
    method PickAll(max: nat, durable: nat) returns (picks: seq<Frame>, ghost k: int, ghost was: seq<Held>)
      requires Valid()
      modifies this`dirtyCount, frames`held
      ensures Valid() && |was| == |picks| <= max && Unique(picks) && dirtyCount == old(dirtyCount)
      ensures |picks| < max ==> k < 0
      ensures forall b: nat :: b < |disk| ==> View(b) == old(View(b))
      ensures forall i :: 0 <= i < |was| ==>
                && picks[i] in frames && was[i] == picks[i].held && was[i].pins > 0
                && old(MayWrite(picks[i], durable))
                && was[i] == old(picks[i].held).(pins := old(picks[i].held.pins) + 1)
      ensures forall i :: 0 <= i < |was| ==>
                was[i].blockNo < |disk| && was[i].blockNo in table && table[was[i].blockNo] == picks[i]
      ensures forall i, j :: 0 <= i < j < |was| ==> was[i].blockNo != was[j].blockNo
      ensures forall i :: 0 <= i < |list.order| ==>
                (list.order[i] in picks <==> k < i && old(MayWrite(list.order[i], durable)))
      ensures forall f :: f in frames && f !in picks ==> f.held == old(f.held)
    {
      assert ListOk() && BooksIn(dirtyCount);
      picks, k := PickDirty(max, durable);
      was := HeldOf(picks);
      forall n | 0 <= n < |picks|
          ensures picks[n] in frames && old(MayWrite(picks[n], durable))
                  && was[n] == old(picks[n].held).(pins := old(picks[n].held.pins) + 1) {
        assert picks[n] in picks && picks[n] in frames && picks[n] in list.order;
        ghost var i :| 0 <= i < |list.order| && list.order[i] == picks[n];
      }
      BlocksDiffer(picks, was);
      forall f | f in frames && f !in picks ensures f.held == old(f.held) {
        assert f in list.order;
      }
      forall b: nat | b < |disk| ensures View(b) == old(View(b)) {
        assert b in table ==> table[b] in picks || table[b].held == old(table[b].held);
      }
    }

    ghost function HeldOf(picks: seq<Frame>): (r: seq<Held>)
      reads picks`held
      ensures |r| == |picks| && forall i :: 0 <= i < |r| ==> r[i] == picks[i].held
    {
      if picks == [] then [] else HeldOf(picks[..|picks| - 1]) + [picks[|picks| - 1].held]
    }

    /** Different frames hold different blocks. */
    lemma BlocksDiffer(picks: seq<Frame>, was: seq<Held>)
      requires BooksOk() && Unique(picks) && |was| == |picks|
      requires forall i :: 0 <= i < |picks| ==> picks[i] in frames && was[i] == picks[i].held && was[i].mapped
      ensures forall i, j :: 0 <= i < j < |was| ==> was[i].blockNo != was[j].blockNo
      ensures forall i :: 0 <= i < |was| ==>
                && was[i].blockNo < |disk| && was[i].blockNo in table && table[was[i].blockNo] == picks[i]
    {
      assert BooksIn(dirtyCount) && UniqueIn(picks);
      forall i | 0 <= i < |picks|
          ensures was[i].blockNo < |disk| && was[i].blockNo in table && table[was[i].blockNo] == picks[i] {
        assert FrameOk(picks[i]);
      }
    }

    method FlushAll(picks: seq<Frame>, ghost was: seq<Held>)
      requires Valid() && Unique(picks)
      requires forall f :: f in picks ==> f in frames && f.held.mapped && f.held.dirty && f.held.pins > 0
      requires |was| == |picks| && forall i :: 0 <= i < |picks| ==> was[i] == picks[i].held && was[i].blockNo < |disk|
      modifies this`disk, this`dirtyCount, frames`held
      ensures Valid() && dirtyCount == old(dirtyCount) - |picks|
      ensures forall i :: 0 <= i < |picks| ==> picks[i].held == Flushed(was[i])
      ensures forall f :: f in frames && f !in picks ==> f.held == old(f.held)
      ensures disk == DiskAfter(old(disk), was)
      ensures |disk| == old(|disk|) && forall b: nat :: b < |disk| ==> View(b) == old(View(b))
    {
      var written := 0;
      while written < |picks|
        invariant written <= |picks| && Valid() && dirtyCount == old(dirtyCount) - written
        invariant forall i :: 0 <= i < |picks| ==> picks[i].held == if i < written then Flushed(was[i]) else was[i]
        invariant forall f :: f in frames && f !in picks ==> f.held == old(f.held)
        invariant disk == DiskAfter(old(disk), was[..written])
        invariant |disk| == old(|disk|) && forall b: nat :: b < |disk| ==> View(b) == old(View(b))
      {
        OnlyThere(picks, written);
        assert was[..written + 1][..written] == was[..written];
        FlushPick(picks[written]);
        written := written + 1;
      }
      assert was[..written] == was;
    }
  }

  lemma FrontAgain(was: seq<Frame>, f: Frame, mid: seq<Frame>, now: seq<Frame>)
    requires mid == was || (f !in was && mid == [f] + was)
    requires ToFront(mid, f, now) && f in mid
    ensures ToFront(was, f, now)
  {
    if mid != was {
      var k: nat :| k < |mid| && mid[k] == f && now == [f] + Without(mid, k);
      assert k == 0;
    }
  }

  lemma PicksWritten(standing: map<nat, Held>, before: seq<Block>, picks: seq<Held>, durable: nat)
    requires forall i, j :: 0 <= i < j < |picks| ==> picks[i].blockNo != picks[j].blockNo
    requires forall i :: 0 <= i < |picks| ==>
               && picks[i].blockNo < |before| && picks[i].pins > 0 && picks[i].blockNo in standing
               && standing[picks[i].blockNo] == picks[i].(pins := picks[i].pins - 1)
               && picks[i].dirty && !picks[i].inTxn && picks[i].lsn <= durable
    ensures LoggedFirst(standing, before, DiskAfter(before, picks), durable)
    ensures forall i :: 0 <= i < |picks| ==> DiskAfter(before, picks)[picks[i].blockNo] == picks[i].data
  {
    DiskAfterIs(before, picks);
  }

  lemma {:induction false} DiskAfterIs(disk: seq<Block>, picks: seq<Held>)
    requires forall h :: h in picks ==> h.blockNo < |disk|
    requires forall i, j :: 0 <= i < j < |picks| ==> picks[i].blockNo != picks[j].blockNo
    ensures forall i :: 0 <= i < |picks| ==> DiskAfter(disk, picks)[picks[i].blockNo] == picks[i].data
    ensures forall b: nat :: b < |disk| && DiskAfter(disk, picks)[b] != disk[b] ==>
              exists i :: 0 <= i < |picks| && picks[i].blockNo == b
  {
    if picks != [] {
      var less := picks[..|picks| - 1];
      DiskAfterIs(disk, less);
      forall b: nat | b < |disk| && DiskAfter(disk, picks)[b] != disk[b]
          ensures exists i :: 0 <= i < |picks| && picks[i].blockNo == b {
        if b != picks[|picks| - 1].blockNo {
          var i :| 0 <= i < |less| && less[i].blockNo == b;
          assert picks[i].blockNo == b;
        } else {
          assert picks[|picks| - 1].blockNo == b;
        }
      }
    }
  }

  lemma Reordered(order: seq<Frame>, k: nat)
    requires k < |order|
    ensures multiset([order[k]] + Without(order, k)) == multiset(order)
    ensures forall f :: f in [order[k]] + Without(order, k) <==> f in order
  {
    assert order == order[..k] + [order[k]] + order[k + 1..];
    assert multiset([order[k]] + Without(order, k)) == multiset(order);
    forall f ensures f in [order[k]] + Without(order, k) <==> f in order {
      assert f in order <==> f in multiset(order);
    }
  }
}
