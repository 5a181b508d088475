/** The file system's operations on the image, without the locks and the journal around them. */
module Volume {
  import opened Layout
  import opened Codec
  import opened Superblocks
  import opened DiskImage
  import opened BlockTree
  import opened BlockMap
  import opened BlockList
  import opened TreeOps
  import opened FileGrowth
  import opened DirSlots
  import opened Charges

  datatype Code = ENOSPC | EFBIG | EIO | ENOENT | EEXIST | EISDIR | ENOTDIR | ENOTEMPTY | EBUSY
  datatype Result<T> = Ok(value: T) | Err(code: Code)

  class Volume {
    var img: Image
    /** The numbers of the disk blocks written so far: home blocks of bits and inodes, and the others. */
    ghost var wrote: set<nat>
    /** The image when the operation began, and nothing had been written. */
    ghost const start: Image

    ghost predicate Covered()
      reads this
    {
      Covers(start, img, wrote)
    }

    // ------------------------------------------------------- allocator

    method AllocBlock() returns (r: Result<u32>)
      requires Mounted(img)
      requires Covered()
      modifies this
      ensures Covered()
      ensures Mounted(img)
      ensures r.Ok? ==>
                && LowestFree(old(img.blockBits), img.sb.totalBlocks, r.value) && r.value >= img.sb.dataStart
                && img == old(img).(blockBits := old(img.blockBits) + {r.value})
                && wrote == old(wrote) + {BitHome(img.sb, r.value)}
      ensures r.Err? ==> r.code == ENOSPC && img == old(img) && Unused(img) == {} && wrote == old(wrote)
    {
      var b := 0;
      while b < img.sb.totalBlocks && b in img.blockBits
        invariant 0 <= b <= img.sb.totalBlocks
        invariant forall k :: 0 <= k < b ==> k in img.blockBits
      {
        b := b + 1;
      }
      if b == img.sb.totalBlocks {
        return Err(ENOSPC);
      }
      if b < img.sb.dataStart {
        return Err(EIO);
      }
      ghost var was, had := img, wrote;
      img := img.(blockBits := img.blockBits + {b});
      wrote := wrote + {BitHome(img.sb, b)};
      CoversMore(start, was, had, img, wrote);
      return Ok(b);
    }

    method FreeBlocks(bs: seq<nat>) returns (r: Result<()>)
      requires Covered()
      modifies this
      ensures Covered()
      ensures r.Ok? <==> Freeable(old(img), bs)
      ensures r.Ok? ==> img == old(img).(blockBits := old(img.blockBits) - Members(bs))
      ensures r.Ok? ==> wrote == old(wrote) + BitHomes(img.sb, Members(bs))
      ensures r.Err? ==> r.code == EIO && img == old(img) && wrote == old(wrote)
    {
      var k, seen := 0, {};
      while k < |bs|
        invariant 0 <= k <= |bs|
        invariant seen == Members(bs[..k]) && Freeable(img, bs[..k])
      {
        assert bs[..k + 1] == bs[..k] + [bs[k]];
        if bs[k] in seen || bs[k] < img.sb.dataStart || bs[k] >= img.sb.totalBlocks || bs[k] !in img.blockBits {
          assert !Freeable(img, bs);
          return Err(EIO);
        }
        seen := seen + {bs[k]};
        k := k + 1;
      }
      assert bs[..|bs|] == bs;
      ghost var was, had := img, wrote;
      img := img.(blockBits := img.blockBits - seen);
      wrote := wrote + BitHomes(img.sb, seen);
      CoversMore(start, was, had, img, wrote);
      return Ok(());
    }

    /** n blocks or none. */
    method AllocAll(n: nat) returns (r: Result<seq<u32>>)
      requires Mounted(img)
      requires Covered()
      modifies this
      ensures Covered()
      ensures Mounted(img)
      ensures r.Ok? ==>
                && |r.value| == n && TakenFor(old(img), r.value) && InOrder(old(img), r.value)
                && img == old(img).(blockBits := old(img.blockBits) + Members(r.value))
                && wrote == old(wrote) + BitHomes(img.sb, Members(r.value))
      ensures r.Err? ==>
                && r.code == ENOSPC && img == old(img) && |Unused(img)| < n
                && n > 0 && Adds(old(wrote), wrote, n - 1)
    {
      var got: seq<u32> := [];
      ghost var was := img;
      NoneInOrder(was);
      assert was.blockBits + Members(got) == was.blockBits;
      assert BitHomes(was.sb, Members(got)) == {};
      while |got| < n
        invariant Mounted(img) && |got| <= n && TakenFor(was, got) && InOrder(was, got)
        invariant img == was.(blockBits := was.blockBits + Members(got))
        invariant wrote == old(wrote) + BitHomes(was.sb, Members(got)) && Covered()
        decreases n - |got|
      {
        var one := AllocBlock();
        if one.Err? {
          NoMore(was, got);
          UndoAlloc(got, was, old(wrote));
          return Err(one.code);
        }
        TakenMore(was, got, one.value);
        OneMoreInOrder(was, got, one.value);
        HomesMore(was.sb, Members(got), one.value);
        got := got + [one.value];
      }
      return Ok(got);
    }

    method UndoAlloc(got: seq<nat>, ghost was: Image, ghost had: set<nat>)
      requires TakenFor(was, got) && img == was.(blockBits := was.blockBits + Members(got))
      requires wrote == had + BitHomes(was.sb, Members(got))
      requires Covered()
      modifies this
      ensures Covered()
      ensures img == was && Adds(had, wrote, |got|)
    {
      GiveBack(was, got);
      MembersCount(got);
      HomesAdd(had, wrote, was.sb, Members(got), |got|);
      var freed := FreeBlocks(got);
    }

    // ------------------------------------------------------- block map

    method BmapRead(ino: Inode, index: nat) returns (r: Result<u32>)
      ensures r == if index < MAX_FILE_BLOCKS then Ok(DataPtr(img.blocks, ino, index)) else Err(EFBIG)
    {
      if index < DIRECT_PTRS {
        return Ok(ino.direct[index]);
      }
      var i := index - DIRECT_PTRS;
      if i < PTRS_PER_BLOCK {
        return Ok(if ino.single != 0 then Word(Load(img.blocks, ino.single), i) else 0);
      }
      i := i - PTRS_PER_BLOCK;
      if i >= PTRS_PER_BLOCK * PTRS_PER_BLOCK {
        return Err(EFBIG);
      }
      if ino.double == 0 {
        return Ok(0);
      }
      var second := Word(Load(img.blocks, ino.double), i / PTRS_PER_BLOCK);
      return Ok(if second != 0 then Word(Load(img.blocks, second), i % PTRS_PER_BLOCK) else 0);
    }

    /** Sets pointer i of an indirect block; a fresh one starts from zeros. */
    method SetPtr(block: nat, isNew: bool, i: nat, value: u32)
      requires block < |img.blocks| && i < PTRS_PER_BLOCK
      requires Covered()
      modifies this
      ensures Covered()
      ensures img == old(img).(blocks :=
              old(img.blocks)[block := PutWord(if isNew then ZERO_BLOCK else old(img.blocks[block]), i, value)])
      ensures wrote == old(wrote) + {block}
    {
      ghost var was, had := img, wrote;
      img := img.(blocks := img.blocks[block := PutWord(if isNew then ZERO_BLOCK else img.blocks[block], i, value)]);
      wrote := wrote + {block};
      CoversMore(start, was, had, img, wrote);
    }

    /**
     The block of file block `index`, allocated with the indirect blocks on its way if
     there is none: all of them, or none and nothing changed.
     */
    method BmapAlloc(ino: Inode, index: nat) returns (r: Result<u32>, ino': Inode, isNew: bool)
      requires Mounted(img) && Sound(img, ino)
      requires Covered()
      modifies this
      ensures Covered()
      ensures Mounted(img)
      ensures r.Ok? ==> index < MAX_FILE_BLOCKS
      ensures r.Ok? && !isNew ==>
                img == old(img) && ino' == ino && r.value == DataPtr(img.blocks, ino, index) != 0 && wrote == old(wrote)
      ensures r.Ok? && isNew ==>
                  Mapped(old(img), ino, img, ino', index, r.value) && DataPtr(old(img.blocks), ino, index) == 0
      ensures r.Ok? && isNew ==> Charged(old(wrote), wrote, img, ino', Path(index))
      ensures r.Err? ==>
                && img == old(img) && ino' == ino && Adds(old(wrote), wrote, 2)
                && (r.code == EFBIG <==> index >= MAX_FILE_BLOCKS)
                && (index < MAX_FILE_BLOCKS ==> r.code == ENOSPC && |Unused(img)| < Needed(img.blocks, ino, index)
                                                && DataPtr(img.blocks, ino, index) == 0)
    {
      if index < DIRECT_PTRS {
        r, ino', isNew := AllocDirect(ino, index);
        return;
      }
      if index < DIRECT_PTRS + PTRS_PER_BLOCK {
        r, ino', isNew := AllocSingle(ino, index - DIRECT_PTRS);
        return;
      }
      var i := index - DIRECT_PTRS - PTRS_PER_BLOCK;
      if i >= PTRS_PER_BLOCK * PTRS_PER_BLOCK {
        AddsNone(wrote, 2);
        return Err(EFBIG), ino, false;
      }
      var j, k := i / PTRS_PER_BLOCK, i % PTRS_PER_BLOCK;
      IndexIs(index, j, k);
      DoubleAt(img.blocks, ino, index, j, k);
      r, ino', isNew := AllocDouble(ino, j, k);
    }

    method AllocDirect(ino: Inode, i: nat) returns (r: Result<u32>, ino': Inode, isNew: bool)
      requires Mounted(img) && Sound(img, ino) && i < DIRECT_PTRS
      requires Covered()
      modifies this
      ensures Covered()
      ensures Mounted(img)
      ensures r.Ok? && !isNew ==>
                img == old(img) && ino' == ino && r.value == ino.direct[i] != 0 && wrote == old(wrote)
      ensures r.Ok? && isNew ==> Mapped(old(img), ino, img, ino', i, r.value) && ino.direct[i] == 0
      ensures r.Ok? && isNew ==> Charged(old(wrote), wrote, img, ino', Path(i))
      ensures r.Err? ==>
                && r.code == ENOSPC && img == old(img) && ino' == ino && Unused(img) == {} && ino.direct[i] == 0
                && wrote == old(wrote)
    {
      ino', isNew := ino, false;
      if ino.direct[i] != 0 {
        return Ok(ino.direct[i]), ino, false;
      }
      r := AllocBlock();
      if r.Err? {
        return;
      }
      CountFits(old(img), ino, {r.value});
      DirectMapped(old(img), ino, i, r.value);
      ino', isNew := ino.(direct := ino.direct[i := r.value], blockCount := ino.blockCount + 1), true;
      DataCharge(old(wrote), wrote, img, ino', i, r.value);
    }

    method AllocSingle(ino: Inode, k: nat) returns (r: Result<u32>, ino': Inode, isNew: bool)
      requires Mounted(img) && Sound(img, ino) && k < PTRS_PER_BLOCK
      requires Covered()
      modifies this
      ensures Covered()
      ensures Mounted(img)
      ensures r.Ok? && !isNew ==>
                && img == old(img) && ino' == ino && r.value == Entry32(img.blocks, ino.single, k) != 0
                && wrote == old(wrote)
      ensures r.Ok? && isNew ==>
                && Mapped(old(img), ino, img, ino', DIRECT_PTRS + k, r.value)
                   && Entry32(old(img.blocks), ino.single, k) == 0
                && Charged(old(wrote), wrote, img, ino', Path(DIRECT_PTRS + k))
      ensures r.Err? ==>
                && Adds(old(wrote), wrote, 2)
                && r.code == ENOSPC && img == old(img) && ino' == ino && Entry32(img.blocks, ino.single, k) == 0
                && |Unused(img)| < if ino.single == 0 then 2 else 1
    {
      if ino.single == 0 {
        r, ino', isNew := AllocNewSingle(ino, k);
        return;
      }
      ino', isNew := ino, false;
      var data := Word(Load(img.blocks, ino.single), k);
      if data != 0 {
        return Ok(data), ino, false;
      }
      r := AllocBlock();
      if r.Err? {
        return;
      }
      CountFits(old(img), ino, {r.value});
      SingleMapped(old(img), ino, k, r.value);
      SetPtr(ino.single, false, k, r.value);
      ino', isNew := ino.(blockCount := ino.blockCount + 1), true;
      MappedValue(old(img), ino, img, ino', DIRECT_PTRS + k, r.value);
      SingleCharge(old(wrote), wrote, img, ino', k, r.value);
    }

    method AllocNewSingle(ino: Inode, k: nat) returns (r: Result<u32>, ino': Inode, isNew: bool)
      requires Mounted(img) && Sound(img, ino) && k < PTRS_PER_BLOCK && ino.single == 0
      requires Covered()
      modifies this
      ensures Covered()
      ensures Mounted(img)
      ensures r.Ok? ==> isNew && Mapped(old(img), ino, img, ino', DIRECT_PTRS + k, r.value)
      ensures r.Ok? ==> Charged(old(wrote), wrote, img, ino', Path(DIRECT_PTRS + k))
      ensures r.Err? ==>
                && r.code == ENOSPC && img == old(img) && ino' == ino && |Unused(img)| < 2
                && Adds(old(wrote), wrote, 2)
    {
      var all := AllocAll(2);
      if all.Err? {
        return Err(all.code), ino, false;
      }
      var got := all.value;
      TwoMembers(got);
      CountFits(old(img), ino, Members(got));
      NewSingleMapped(old(img), ino, k, got);
      SetPtr(got[0], true, k, got[1]);
      ino', isNew := ino.(single := got[0], blockCount := ino.blockCount + 2), true;
      r := Ok(got[1]);
      MappedValue(old(img), ino, img, ino', DIRECT_PTRS + k, r.value);
      assert BitHomes(img.sb, Members(got)) == {BitHome(img.sb, got[0]), BitHome(img.sb, got[1])};
      SingleCharge(old(wrote), wrote, img, ino', k, got[1]);
    }

    method AllocDouble(ino: Inode, j: nat, k: nat) returns (r: Result<u32>, ino': Inode, isNew: bool)
      requires Mounted(img) && Sound(img, ino) && j < PTRS_PER_BLOCK && k < PTRS_PER_BLOCK
      requires Covered()
      modifies this
      ensures Covered()
      ensures Mounted(img)
      ensures r.Ok? && !isNew ==>
                && img == old(img) && ino' == ino && wrote == old(wrote)
                && r.value == Entry32(img.blocks, Entry32(img.blocks, ino.double, j), k) != 0
      ensures r.Ok? && isNew ==>
                && Mapped(old(img), ino, img, ino', DoubleIndex(j, k), r.value)
                && DoubleIndex(j, k) < MAX_FILE_BLOCKS && Charged(old(wrote), wrote, img, ino', Path(DoubleIndex(j, k)))
                && Entry32(old(img.blocks), Entry32(old(img.blocks), ino.double, j), k) == 0
      ensures r.Err? ==>
                && r.code == ENOSPC && img == old(img) && ino' == ino && Adds(old(wrote), wrote, 2)
                && Entry32(img.blocks, Entry32(img.blocks, ino.double, j), k) == 0
                && |Unused(img)| < 1 + (if ino.double == 0 then 1 else 0) + (if Entry32(img.blocks, ino.double, j) == 0
                   then 1 else 0)
    {
      var top := ino.double;
      var second := Entry32(img.blocks, top, j);
      var data := Entry32(img.blocks, second, k);
      if data != 0 {
        return Ok(data), ino, false;
      }
      var need := 1 + (if second == 0 then 1 else 0) + (if top == 0 then 1 else 0);
      var all := AllocAll(need);
      if all.Err? {
        return Err(all.code), ino, false;
      }
      var got := all.value;
      MembersCount(got);
      CountFits(old(img), ino, Members(got));
      ino' := LinkDouble(ino, j, k, got, old(img), old(wrote));
      r, isNew := Ok(got[|got| - 1]), true;
    }

    /** The blocks taken for a double-indirect file block, in order: the top, the second level, the data. */
    method LinkDouble(ino: Inode, j: nat, k: nat, got: seq<u32>, ghost was: Image, ghost had: set<nat>)
      returns (ino': Inode)
      requires j < PTRS_PER_BLOCK && k < PTRS_PER_BLOCK && Mounted(was) && Sound(was, ino) && TakenFor(was, got)
      requires img == was.(blockBits := was.blockBits + Members(got))
      requires Entry32(img.blocks, Entry32(img.blocks, ino.double, j), k) == 0
      requires |got| == 1 + (if Entry32(img.blocks, ino.double, j) == 0 then 1 else 0) + (if ino.double == 0 then 1
               else 0)
      requires ino.blockCount + |got| < 0x1_0000_0000 && wrote == had + BitHomes(was.sb, Members(got))
      requires Covered()
      modifies this
      ensures Covered()
      ensures DoubleIndex(j, k) < MAX_FILE_BLOCKS && Charged(had, wrote, img, ino', Path(DoubleIndex(j, k)))
      ensures |img.blocks| == |was.blocks|
              && img == was.(blocks := img.blocks, blockBits := was.blockBits + Members(got))
      ensures Mapped(was, ino, img, ino', DoubleIndex(j, k), got[|got| - 1])
    {
      var top := ino.double;
      var second := Entry32(img.blocks, top, j);
      var newTop, newSecond := top == 0, second == 0;
      var n := 0;
      if newTop {
        top := got[n];
        n := n + 1;
      }
      if newSecond {
        second := got[n];
        n := n + 1;
      }
      var data := got[n];
      DoubleBlocks(was, ino, j, got, top, second);
      if newTop {
        NewDoubleMapped(was, ino, j, k, got);
      } else if newSecond {
        NewSecondMapped(was, ino, j, k, got);
      } else {
        SecondMapped(was, ino, j, k, got);
      }
      PutLinks(top, newTop, second, newSecond, j, k, data);
      ino' := ino.(double := top, blockCount := ino.blockCount + |got|);
      LinkedCharge(was, ino, img, ino', j, k, got, top, second, had, wrote);
    }

    /** The data block's number goes into the second-level block, and that block's, if it is new, into the top one. */
    method PutLinks(top: nat, newTop: bool, second: u32, newSecond: bool, j: nat, k: nat, data: u32)
      requires top < |img.blocks| && second < |img.blocks| && j < PTRS_PER_BLOCK && k < PTRS_PER_BLOCK
      requires Covered()
      modifies this
      ensures Covered()
      ensures var was := old(img.blocks);
              var mid := was[second := PutWord(if newSecond then ZERO_BLOCK else was[second], k, data)];
              img == old(img).(blocks := if newSecond then mid[top :=
                  PutWord(if newTop then ZERO_BLOCK else mid[top], j, second)] else mid)
      ensures wrote == old(wrote) + if newSecond then {second as nat, top} else {second as nat}
      ensures newSecond && top != 0 ==> Entry32(img.blocks, top, j) == second
    {
      SetPtr(second, newSecond, k, data);
      if newSecond {
        ghost var above: Block := if newTop then ZERO_BLOCK else img.blocks[top];
        SetPtr(top, newTop, j, second);
        WordOfPut(above, j, second, j);
      }
    }

    /** The words of an indirect block, or the direct pointers, that are not holes. */
    method Collect(ws: seq<u32>, out: seq<u32>) returns (more: seq<u32>)
      ensures more == out + NonZero(ws)
    {
      more := out;
      var k := 0;
      assert out + NonZero(ws[..0]) == out;
      while k < |ws|
        invariant 0 <= k <= |ws| && more == out + NonZero(ws[..k])
      {
        assert ws[..k + 1][..k] == ws[..k];
        if ws[k] != 0 {
          more := more + [ws[k]];
        }
        k := k + 1;
      }
      assert ws[..|ws|] == ws;
    }

    /** Everything the inode owns goes back, all at once; its pointers are cleared. */
    method FreeAllBlocks(ino: Inode) returns (r: Result<()>, ino': Inode)
      requires Mounted(img) && Sound(img, ino)
      requires Covered()
      modifies this
      ensures Covered()
      ensures r.Ok?
      ensures img == old(img).(blockBits := old(img.blockBits) - Owned(img.blocks, ino))
      ensures wrote == old(wrote) + BitHomes(img.sb, Owned(img.blocks, ino))
      ensures ino' == NoBlocks(ino)
    {
      var lo, hi := img.sb.dataStart, img.sb.totalBlocks;
      var owned := Collect(ino.direct, []);
      assert [] + NonZero(ino.direct) == NonZero(ino.direct);
      ListDirect(img.blocks, ino, lo, hi);
      ghost var seen := DataPlaces(0, ino.direct);
      if ino.single != 0 {
        seen := ListSingle(img.blocks, ino, lo, hi, owned);
        owned := Collect(PointersIn(Load(img.blocks, ino.single)), owned);
        owned := owned + [ino.single];
      } else {
        ListNoSingle(img.blocks, ino, owned);
      }
      owned, seen := CollectDouble(ino, owned, seen);
      OwnedFreeable(img, ino, owned);
      r := FreeBlocks(owned);
      ino' := NoBlocks(ino);
    }

    method CollectDouble(ino: Inode, out: seq<u32>, ghost seen: set<Place>)
      returns (owned: seq<u32>, ghost seen': set<Place>)
      requires Mounted(img) && Sound(img, ino) && ListedTo(img.blocks, ino, out, seen, 0)
      ensures Distinct(owned) && Members(owned) == Owned(img.blocks, ino)
    {
      var lo, hi := img.sb.dataStart, img.sb.totalBlocks;
      owned, seen' := out, seen;
      if ino.double == 0 {
        ListNoDouble(img.blocks, ino, lo, hi, owned, seen);
        return;
      }
      var seconds := PointersIn(Load(img.blocks, ino.double));
      var j := 0;
      while j < PTRS_PER_BLOCK
        invariant 0 <= j <= PTRS_PER_BLOCK
        invariant ListedTo(img.blocks, ino, owned, seen', j)
      {
        if seconds[j] != 0 {
          seen' := ListSecond(img.blocks, ino, lo, hi, owned, seen', j);
          owned := Collect(PointersIn(Load(img.blocks, seconds[j])), owned);
          owned := owned + [seconds[j]];
        } else {
          ListNoSecond(img.blocks, ino, owned, seen', j);
        }
        j := j + 1;
      }
      ListDouble(img.blocks, ino, lo, hi, owned, seen');
      owned := owned + [ino.double];
    }

    // ------------------------------------------------------- directories

    /** The first entry with this name, by block and slot. */
    method FindNamed(dir: Inode, name: seq<Byte>) returns (found: bool, k: nat, s: nat)
      requires Mounted(img) && WholeDir(img, dir)
      ensures found ==>
                && k < dir.size / BLOCK_SIZE && s < DIRENTS_PER_BLOCK
                && k * DIRENTS_PER_BLOCK + s < |Slots(img.blocks, dir)|
                && IsNamed(Slots(img.blocks, dir)[k * DIRENTS_PER_BLOCK + s], name)
                && forall i :: 0 <= i < k * DIRENTS_PER_BLOCK + s ==> !IsNamed(Slots(img.blocks, dir)[i], name)
      ensures !found ==> forall i :: 0 <= i < |Slots(img.blocks, dir)| ==> !IsNamed(Slots(img.blocks, dir)[i], name)
    {
      k := 0;
      while k < dir.size / BLOCK_SIZE
        invariant 0 <= k <= dir.size / BLOCK_SIZE
        invariant NoneNamed(img.blocks, dir, name, k)
      {
        WholeBlock(img, dir, k);
        var block := BmapRead(dir, k);
        s := ScanNamed(Load(img.blocks, block.value), name);
        if s < DIRENTS_PER_BLOCK {
          FirstNamed(img.blocks, dir, name, k, s);
          return true, k, s;
        }
        k := k + 1;
      }
      NoneNamedAt(img.blocks, dir, name, k);
      return false, 0, 0;
    }

    /** The first entry of a block with this name, or DIRENTS_PER_BLOCK. */
    method ScanNamed(b: Block, name: seq<Byte>) returns (s: nat)
      ensures s <= DIRENTS_PER_BLOCK && (s < DIRENTS_PER_BLOCK ==> IsNamed(Slot(b, s), name))
      ensures forall t: nat :: t < s ==> !IsNamed(Slot(b, t), name)
    {
      s := 0;
      while s < DIRENTS_PER_BLOCK && !IsNamed(Slot(b, s), name)
        invariant s <= DIRENTS_PER_BLOCK
        invariant forall t: nat :: t < s ==> !IsNamed(Slot(b, t), name)
      {
        s := s + 1;
      }
    }

    /** The first entry of a block, from slot `from` on, that is free (or that is not), or DIRENTS_PER_BLOCK. */
    method ScanFree(b: Block, from: nat, free: bool) returns (s: nat)
      requires from <= DIRENTS_PER_BLOCK
      ensures from <= s <= DIRENTS_PER_BLOCK && (s < DIRENTS_PER_BLOCK ==> (Slot(b, s).inode == 0) == free)
      ensures forall t: nat :: from <= t < s ==> (Slot(b, t).inode == 0) != free
    {
      s := from;
      while s < DIRENTS_PER_BLOCK && (Slot(b, s).inode == 0) != free
        invariant from <= s <= DIRENTS_PER_BLOCK
        invariant forall t: nat :: from <= t < s ==> (Slot(b, t).inode == 0) != free
      {
        s := s + 1;
      }
    }

    /** The inode number and type under this name; 0 if there is none. */
    method DirLookup(dir: Inode, name: seq<Byte>) returns (inode: u32, kind: u8)
      requires Mounted(img) && WholeDir(img, dir)
      ensures inode == 0 <==> forall i :: 0 <= i < |Slots(img.blocks, dir)| ==>
              !IsNamed(Slots(img.blocks, dir)[i], name)
      ensures inode != 0 ==>
                exists i :: 0 <= i < |Slots(img.blocks, dir)| && IsNamed(Slots(img.blocks, dir)[i], name)
                            && Slots(img.blocks, dir)[i].inode == inode && Slots(img.blocks, dir)[i].kind == kind
                            && forall j :: 0 <= j < i ==> !IsNamed(Slots(img.blocks, dir)[j], name)
    {
      var found, k, s := FindNamed(dir, name);
      if !found {
        return 0, 0;
      }
      WholeBlock(img, dir, k);
      SlotIn(img.blocks, dir, k, s);
      var block := BmapRead(dir, k);
      var e := Slot(Load(img.blocks, block.value), s);
      return e.inode, e.kind;
    }

    /** The lowest free slot takes the entry, or the directory grows by a block for it; or nothing happens. */
    method DirAdd(dir: Inode, e: Entry) returns (r: Result<()>, dir': Inode)
      requires Mounted(img) && WholeDir(img, dir)
      requires Covered()
      modifies this
      ensures Covered()
      ensures Mounted(img)
      ensures r.Ok? ==>
                && Extended(old(img), dir, img, dir') && WholeDir(img, dir')
                && SameButSize(dir, dir')
                && exists i :: Inserted(Slots(old(img.blocks), dir), Slots(img.blocks, dir'), i, e)
      ensures r.Ok? ==> exists i: nat :: FirstFit(Slots(old(img.blocks), dir), Slots(img.blocks, dir'), i, e)
      ensures Adds(old(wrote), wrote, 6)
      ensures r.Err? ==>
                && img == old(img) && dir' == dir
                && (forall i :: 0 <= i < |Slots(img.blocks, dir)| ==> Slots(img.blocks, dir)[i].inode != 0)
                && var n := dir.size / BLOCK_SIZE;
                   if n >= MAX_FILE_BLOCKS then r.code == EFBIG
                   else r.code == ENOSPC && |Unused(img)| < Needed(img.blocks, dir, n)
    {
      dir' := dir;
      var found, k, s := FindFree(dir);
      if found {
        PutEntry(img, dir, k, s, e);
        var block := BmapRead(dir, k);
        ghost var was, had := img, wrote;
        img := img.(blocks := img.blocks[block.value := PutSlot(img.blocks[block.value], s, e)]);
        AddsOne(wrote, block.value);
        wrote := wrote + {block.value as nat};
        CoversMore(start, was, had, img, wrote);
        InPlace(Slots(old(img.blocks), dir), k * DIRENTS_PER_BLOCK + s, e);
        assert FirstFit(Slots(old(img.blocks), dir), Slots(img.blocks, dir), k * DIRENTS_PER_BLOCK + s, e);
        return Ok(()), dir;
      }
      r, dir' := DirGrow(dir, e);
      SlotsLonger(old(img.blocks), dir, img.blocks, dir');
      assert r.Ok? ==> FirstFit(Slots(old(img.blocks), dir), Slots(img.blocks, dir'), |Slots(old(img.blocks), dir)|, e);
    }

    method FindFree(dir: Inode) returns (found: bool, k: nat, s: nat)
      requires Mounted(img) && WholeDir(img, dir)
      ensures found ==>
                && k < dir.size / BLOCK_SIZE && s < DIRENTS_PER_BLOCK
                && k * DIRENTS_PER_BLOCK + s < |Slots(img.blocks, dir)|
                && Slots(img.blocks, dir)[k * DIRENTS_PER_BLOCK + s].inode == 0
                && forall i: nat :: i < k * DIRENTS_PER_BLOCK + s ==> Slots(img.blocks, dir)[i].inode != 0
      ensures !found ==> forall i :: 0 <= i < |Slots(img.blocks, dir)| ==> Slots(img.blocks, dir)[i].inode != 0
    {
      k := 0;
      while k < dir.size / BLOCK_SIZE
        invariant 0 <= k <= dir.size / BLOCK_SIZE
        invariant NoneFree(img.blocks, dir, k)
      {
        WholeBlock(img, dir, k);
        var block := BmapRead(dir, k);
        s := ScanFree(Load(img.blocks, block.value), 0, true);
        if s < DIRENTS_PER_BLOCK {
          SlotIn(img.blocks, dir, k, s);
          NoneBefore(img.blocks, dir, k, s);
          return true, k, s;
        }
        k := k + 1;
      }
      NoneFreeAt(img.blocks, dir);
      return false, 0, 0;
    }

    method DirGrow(dir: Inode, e: Entry) returns (r: Result<()>, dir': Inode)
      requires Mounted(img) && WholeDir(img, dir)
      requires Covered()
      modifies this
      ensures Covered()
      ensures Mounted(img)
      ensures r.Ok? ==>
                && Extended(old(img), dir, img, dir') && WholeDir(img, dir')
                && SameButSize(dir, dir')
                && Inserted(Slots(old(img.blocks), dir), Slots(img.blocks, dir'), |Slots(old(img.blocks), dir)|, e)
                && dir'.size == dir.size + BLOCK_SIZE
      ensures Adds(old(wrote), wrote, 6)
      ensures r.Err? ==>
                && img == old(img) && dir' == dir
                && var n := dir.size / BLOCK_SIZE;
                   if n >= MAX_FILE_BLOCKS then r.code == EFBIG
                   else r.code == ENOSPC && |Unused(img)| < Needed(img.blocks, dir, n)
    {
      var n := dir.size / BLOCK_SIZE;
      PastEnd(img, dir);
      var block, dir1, isNew := BmapAlloc(dir, n);
      if block.Err? {
        return Err(block.code), dir;
      }
      GrowDir(old(img), dir, img, dir1, block.value, e);
      MappedValue(old(img), dir, img, dir1, n, block.value);
      ChargedData(old(wrote), wrote, img, dir1, n, block.value);
      ghost var was, had := img, wrote;
      img := img.(blocks := img.blocks[block.value := PutSlot(ZERO_BLOCK, 0, e)]);
      wrote := wrote + {block.value as nat};
      CoversMore(start, was, had, img, wrote);
      r, dir' := Ok(()), dir1.(size := dir.size + BLOCK_SIZE);
      ExtendedMounted(old(img), dir, img, dir');
    }

    /** The slot with this name, if there is one, is zeroed. */
    method DirRemove(dir: Inode, name: seq<Byte>) returns (found: bool)
      requires Mounted(img) && WholeDir(img, dir)
      requires Covered()
      modifies this
      ensures Covered()
      ensures Mounted(img)
      ensures found ==> exists b: nat :: b >= img.sb.dataStart && wrote == old(wrote) + {b}
      ensures !found ==>
                && img == old(img) && wrote == old(wrote)
                && forall i :: 0 <= i < |Slots(img.blocks, dir)| ==> !IsNamed(Slots(img.blocks, dir)[i], name)
      ensures found ==>
                && Extended(old(img), dir, img, dir) && WholeDir(img, dir)
                && exists i :: 0 <= i < |Slots(old(img.blocks), dir)| && IsNamed(Slots(old(img.blocks), dir)[i], name)
                               && Slots(img.blocks, dir) == Slots(old(img.blocks), dir)[i := ZERO_ENTRY]
                               && forall j :: 0 <= j < i ==> !IsNamed(Slots(old(img.blocks), dir)[j], name)
    {
      var k, s;
      found, k, s := FindNamed(dir, name);
      if !found {
        return;
      }
      PutEntry(img, dir, k, s, ZERO_ENTRY);
      BlockIsData(img, dir, k);
      var block := BmapRead(dir, k);
      ghost var was, had := img, wrote;
      img := img.(blocks := img.blocks[block.value := PutSlot(img.blocks[block.value], s, ZERO_ENTRY)]);
      wrote := wrote + {block.value as nat};
      CoversMore(start, was, had, img, wrote);
    }

    /** No entries but the first two of the first block. */
    method DirIsEmpty(dir: Inode) returns (empty: bool)
      requires Mounted(img) && WholeDir(img, dir)
      ensures empty <==> forall i :: 2 <= i < |Slots(img.blocks, dir)| ==> Slots(img.blocks, dir)[i].inode == 0
    {
      var k := 0;
      while k < dir.size / BLOCK_SIZE
        invariant 0 <= k <= dir.size / BLOCK_SIZE
        invariant AllFree(img.blocks, dir, k)
      {
        WholeBlock(img, dir, k);
        var block := BmapRead(dir, k);
        var s := ScanFree(Load(img.blocks, block.value), if k == 0 then 2 else 0, false);
        if s < DIRENTS_PER_BLOCK {
          SlotIn(img.blocks, dir, k, s);
          return false;
        }
        k := k + 1;
      }
      AllFreeAt(img.blocks, dir);
      return true;
    }

    // ------------------------------------------------------------ inodes

    method AllocInode() returns (r: Result<u32>)
      requires Mounted(img)
      requires Covered()
      modifies this
      ensures Covered()
      ensures Mounted(img)
      ensures r.Ok? ==>
                && LowestFree(old(img.inodeBits), |img.inodes|, r.value) && r.value > 0
                && img == old(img).(inodeBits := old(img.inodeBits) + {r.value})
                && wrote == old(wrote) + {InodeBitHome(img.sb, r.value)}
      ensures r.Err? ==>
                && r.code == ENOSPC && img == old(img) && wrote == old(wrote)
                && forall id: nat :: id < |img.inodes| ==> id in img.inodeBits
    {
      var id := 0;
      while id < |img.inodes| && id in img.inodeBits
        invariant 0 <= id <= |img.inodes|
        invariant forall k :: 0 <= k < id ==> k in img.inodeBits
      {
        id := id + 1;
      }
      if id == |img.inodes| {
        return Err(ENOSPC);
      }
      if id == 0 {
        return Err(EIO);
      }
      ghost var was, had := img, wrote;
      img := img.(inodeBits := img.inodeBits + {id});
      wrote := wrote + {InodeBitHome(img.sb, id)};
      CoversMore(start, was, had, img, wrote);
      return Ok(id);
    }

    method FreeInode(id: nat) returns (r: Result<()>)
      requires Covered()
      modifies this
      ensures Covered()
      ensures r.Ok? <==> 0 < id < |old(img.inodes)| && id in old(img.inodeBits)
      ensures r.Ok? ==>
                && img == old(img).(inodeBits := old(img.inodeBits) - {id})
                && wrote == old(wrote) + {InodeBitHome(img.sb, id)}
      ensures r.Err? ==> r.code == EIO && img == old(img) && wrote == old(wrote)
    {
      if id == 0 || id >= |img.inodes| || id !in img.inodeBits {
        return Err(EIO);
      }
      ghost var was, had := img, wrote;
      img := img.(inodeBits := img.inodeBits - {id});
      wrote := wrote + {InodeBitHome(img.sb, id)};
      CoversMore(start, was, had, img, wrote);
      return Ok(());
    }

    method WriteInode(id: nat, ino: Inode)
      requires id < |img.inodes|
      requires Covered()
      modifies this
      ensures Covered()
      ensures img == old(img).(inodes := old(img.inodes)[id := ino]) && wrote == old(wrote) + {InodeHome(img.sb, id)}
    {
      ghost var was, had := img, wrote;
      img := img.(inodes := img.inodes[id := ino]);
      wrote := wrote + {InodeHome(img.sb, id)};
      CoversMore(start, was, had, img, wrote);
    }

    /** "." and ".." of a new directory, in a block that starts from zeros. */
    method DirInit(block: nat, self: u32, parent: u32)
      requires block < |img.blocks|
      requires Covered()
      modifies this
      ensures Covered()
      ensures img == old(img).(blocks := old(img.blocks)[block := FirstBlock(self, parent)])
              && wrote == old(wrote) + {block}
    {
      ghost var was, had := img, wrote;
      img := img.(blocks := img.blocks[block := FirstBlock(self, parent)]);
      wrote := wrote + {block};
      CoversMore(start, was, had, img, wrote);
    }
  }

  function NoBlocks(ino: Inode): Inode {
    ino.(direct := [0, 0, 0, 0, 0, 0, 0, 0, 0, 0, 0, 0], single := 0, double := 0, blockCount := 0)
  }

  lemma OwnedFreeable(img: Image, ino: Inode, owned: seq<nat>)
    requires Sound(img, ino) && Distinct(owned) && Members(owned) == Owned(img.blocks, ino)
    ensures Freeable(img, owned)
  {
    forall k | 0 <= k < |owned| ensures owned[k] in Owned(img.blocks, ino) {
      assert owned[k] in Members(owned);
    }
  }

  lemma MappedValue(img: Image, ino: Inode, img': Image, ino': Inode, index: nat, value: nat)
    requires Mapped(img, ino, img', ino', index, value)
    ensures DataPtr(img'.blocks, ino', index) == value != 0 && img'.sb == img.sb
    ensures Kept(img.blocks, ino, img'.blocks, ino')
  {
    assert MappedAt(img, ino, img', ino', index, value);
    assert Owns(img'.blocks, ino', value);
  }

  /** The second-level block stands in the top one, whether it was there or has just been put there. */
  lemma LinkedEntry(img: Image, ino: Inode, img': Image, ino': Inode, j: nat, k: nat, top: nat, second: nat, data: nat)
    requires j < PTRS_PER_BLOCK && k < PTRS_PER_BLOCK && Mapped(img, ino, img', ino', DoubleIndex(j, k), data)
    requires ino'.double == top
    requires if Entry32(img.blocks, ino.double, j) != 0 then second == Entry32(img.blocks, ino.double, j)
             else Entry32(img'.blocks, top, j) == second
    ensures DoubleIndex(j, k) < MAX_FILE_BLOCKS && DataPtr(img'.blocks, ino', DoubleIndex(j, k)) == data != 0
    ensures Entry32(img'.blocks, top, j) == second && img'.sb == img.sb
  {
    MappedValue(img, ino, img', ino', DoubleIndex(j, k), data);
    DoubleAt(img.blocks, ino, DoubleIndex(j, k), j, k);
    assert KeptIn(img.blocks, ino, img'.blocks, ino');
    assert PtrAt(img.blocks, ino, Second(j)) == Entry32(img.blocks, ino.double, j);
    assert PtrAt(img'.blocks, ino', Second(j)) == Entry32(img'.blocks, ino'.double, j);
  }

  lemma LinkedCharge(img: Image, ino: Inode, img': Image, ino': Inode, j: nat, k: nat, got: seq<nat>, top: nat,
                     second: nat, had: set<nat>, wrote: set<nat>)
    requires j < PTRS_PER_BLOCK && k < PTRS_PER_BLOCK && got != [] && ino'.double == top
    requires Mapped(img, ino, img', ino', DoubleIndex(j, k), got[|got| - 1])
    requires if Entry32(img.blocks, ino.double, j) != 0 then second == Entry32(img.blocks, ino.double, j)
             else Entry32(img'.blocks, top, j) == second
    requires forall n :: 0 <= n < |got| ==> got[n] in {top, second, got[|got| - 1]}
    requires had + BitHomes(img.sb, Members(got)) <= wrote
    requires wrote <= had + BitHomes(img.sb, Members(got)) + {top, second}
    ensures DoubleIndex(j, k) < MAX_FILE_BLOCKS && Charged(had, wrote, img', ino', Path(DoubleIndex(j, k)))
  {
    var data := got[|got| - 1];
    LinkedEntry(img, ino, img', ino', j, k, top, second, data);
    GotHomes(img.sb, got, top, second, data);
    DoubleCharge(had, wrote, img', ino', j, k, second, data);
  }

  lemma GotHomes(sb: Superblock, got: seq<nat>, top: nat, second: nat, data: nat)
    requires forall n :: 0 <= n < |got| ==> got[n] in {top, second, data}
    ensures BitHomes(sb, Members(got)) <= {BitHome(sb, top), BitHome(sb, second), BitHome(sb, data)}
  {
  }

  lemma IndexIs(index: nat, j: nat, k: nat)
    requires DIRECT_PTRS + PTRS_PER_BLOCK <= index < MAX_FILE_BLOCKS
    requires j == (index - DIRECT_PTRS - PTRS_PER_BLOCK) / PTRS_PER_BLOCK
    requires k == (index - DIRECT_PTRS - PTRS_PER_BLOCK) % PTRS_PER_BLOCK
    ensures j < PTRS_PER_BLOCK && k < PTRS_PER_BLOCK && index == DoubleIndex(j, k)
  {
  }
}
