/** What it means to have scanned part of an inode's block tree. */
module FsckScan {
  import opened Layout
  import opened Codec
  import opened DiskImage

  const DIR_MAP_LIMIT: nat := 0x10_0000   // 2^20: check_blocks maps no directory block past it

  /** What check_blocks counts on the way: pointers, the last file block, a directory's blocks. */
  datatype Tally = Tally(owned: nat, end: nat, dirMap: seq<nat>)

  /** What claim demands of all of an inode's pointers, given who owns what already. */
  ghost predicate Claimable(blocks: seq<Block>, ino: Inode, lo: nat, before: seq<nat>) {
    && (forall p :: IsPlace(p) && PtrAt(blocks, ino, p) != 0 ==>
          lo <= PtrAt(blocks, ino, p) < |before| && before[PtrAt(blocks, ino, p)] == 0)
    && (forall p, q :: IsPlace(p) && IsPlace(q) && PtrAt(blocks, ino, p) == PtrAt(blocks, ino, q) != 0 ==> p == q)
  }

  /** The places in `seen` have been claimed for id, and their blocks are `mine`. */
  ghost predicate Scanned(blocks: seq<Block>, ino: Inode, id: nat, lo: nat, before: seq<nat>,
                          owner: seq<nat>, seen: set<Place>, mine: set<nat>)
  {
    && |owner| == |before|
    && (forall p :: p in seen ==> IsPlace(p) && (PtrAt(blocks, ino, p) != 0 ==> PtrAt(blocks, ino, p) in mine))
    && (forall b :: b in mine ==> 0 < b && lo <= b < |before| && before[b] == 0
                                  && exists p :: p in seen && PtrAt(blocks, ino, p) == b)
    && (forall p, q :: p in seen && q in seen && PtrAt(blocks, ino, p) == PtrAt(blocks, ino, q) != 0 ==> p == q)
    && (forall b :: 0 <= b < |before| ==> owner[b] == if b in mine then id else before[b])
  }

  /** `end` is one past the last file block seen to have a block. */
  ghost predicate EndOk(blocks: seq<Block>, ino: Inode, seen: set<Place>, end: nat) {
    && (forall i: nat :: Data(i) in seen && DataPtr(blocks, ino, i) != 0 ==> i < end)
    && (end > 0 ==> Data(end - 1) in seen && DataPtr(blocks, ino, end - 1) != 0)
  }

  /** The directory's blocks seen so far, those below the limit. */
  ghost predicate MapOk(blocks: seq<Block>, ino: Inode, seen: set<Place>, isDir: bool, dirMap: seq<nat>) {
    && (!isDir ==> dirMap == []) && |dirMap| <= DIR_MAP_LIMIT
    && (forall i :: 0 <= i < |dirMap| ==> dirMap[i] == 0 || dirMap[i] == DataPtr(blocks, ino, i))
    && (isDir ==> forall i: nat :: Data(i) in seen && i < DIR_MAP_LIMIT && DataPtr(blocks, ino, i) != 0 ==>
          i < |dirMap| && dirMap[i] == DataPtr(blocks, ino, i))
  }

  /** Everything at once; after a problem, only that the inode cannot pass. */
  ghost predicate Progress(clean: bool, blocks: seq<Block>, ino: Inode, id: nat, lo: nat, before: seq<nat>,
                           owner: seq<nat>, seen: set<Place>, mine: set<nat>,
                           isDir: bool, tally: Tally)
  {
    forall c :: c == clean ==> ProgressAt(c, blocks, ino, id, lo, before, owner, seen, mine, isDir, tally)
  }

  ghost predicate ProgressAt(clean: bool, blocks: seq<Block>, ino: Inode, id: nat, lo: nat, before: seq<nat>,
                             owner: seq<nat>, seen: set<Place>, mine: set<nat>,
                             isDir: bool, tally: Tally)
  {
    if clean then
      && Scanned(blocks, ino, id, lo, before, owner, seen, mine) && tally.owned == |mine|
      && EndOk(blocks, ino, seen, tally.end) && MapOk(blocks, ino, seen, isDir, tally.dirMap)
    else !Claimable(blocks, ino, lo, before)
  }

  lemma SeeClaimed(blocks: seq<Block>, ino: Inode, id: nat, lo: nat, before: seq<nat>, owner: seq<nat>,
                   seen: set<Place>, mine: set<nat>, p: Place)
    requires Scanned(blocks, ino, id, lo, before, owner, seen, mine) && IsPlace(p) && id != 0
    requires var b := PtrAt(blocks, ino, p); b != 0 && lo <= b < |before| && owner[b] == 0
    ensures var b := PtrAt(blocks, ino, p);
            Scanned(blocks, ino, id, lo, before, owner[b := id], seen + {p}, mine + {b}) && b !in mine
  {
    var b0 := PtrAt(blocks, ino, p);
    forall b | b in mine + {b0} ensures exists q :: q in seen + {p} && PtrAt(blocks, ino, q) == b {
      if b == b0 {
        assert p in seen + {p};
      } else {
        var q :| q in seen && PtrAt(blocks, ino, q) == b;
        assert q in seen + {p};
      }
    }
  }

  lemma NotClaimable(blocks: seq<Block>, ino: Inode, id: nat, lo: nat, before: seq<nat>, owner: seq<nat>,
                     seen: set<Place>, mine: set<nat>, p: Place)
    requires Scanned(blocks, ino, id, lo, before, owner, seen, mine) && IsPlace(p) && p !in seen
    requires var b := PtrAt(blocks, ino, p); b != 0 && !(lo <= b < |before| && owner[b] == 0)
    ensures !Claimable(blocks, ino, lo, before)
  {
  }

  /** A scan that has seen every place that is not a hole found the inode's blocks. */
  lemma AllSeen(blocks: seq<Block>, ino: Inode, id: nat, lo: nat, before: seq<nat>, owner: seq<nat>,
                seen: set<Place>, mine: set<nat>)
    requires Scanned(blocks, ino, id, lo, before, owner, seen, mine) && |before| < 0x1_0000_0000
    requires forall p :: IsPlace(p) && PtrAt(blocks, ino, p) != 0 ==> p in seen
    ensures Claimable(blocks, ino, lo, before) && mine == Owned(blocks, ino)
  {
    forall b: nat ensures b in mine <==> b in Owned(blocks, ino) {
      if b in mine {
        var p :| p in seen && PtrAt(blocks, ino, p) == b;
        assert Owns(blocks, ino, b);
      }
      if b in Owned(blocks, ino) {
        var p :| IsPlace(p) && PtrAt(blocks, ino, p) == b;
        assert p in seen;
      }
    }
  }

  /** A directory's map with block b entered for file block index, grown with holes if need be. */
  function Mapped(dirMap: seq<nat>, index: nat, b: nat): (r: seq<nat>)
    ensures index < |r| && |dirMap| <= |r|
    ensures forall i :: 0 <= i < |r| ==> r[i] == if i == index then b else if i < |dirMap| then dirMap[i] else 0
  {
    (if |dirMap| <= index then dirMap + seq(index + 1 - |dirMap|, _ => 0) else dirMap)[index := b]
  }

  lemma SeeDataMap(blocks: seq<Block>, ino: Inode, seen: set<Place>, isDir: bool, dirMap: seq<nat>, index: nat)
    requires MapOk(blocks, ino, seen, isDir, dirMap) && index < MAX_FILE_BLOCKS
    ensures MapOk(blocks, ino, seen + {Data(index)}, isDir,
                  if isDir && index < DIR_MAP_LIMIT then Mapped(dirMap, index, DataPtr(blocks, ino, index)) else dirMap)
  {
  }

  lemma SeeOther(blocks: seq<Block>, ino: Inode, seen: set<Place>, isDir: bool, tally: Tally, p: Place)
    requires EndOk(blocks, ino, seen, tally.end) && MapOk(blocks, ino, seen, isDir, tally.dirMap) && !p.Data?
    ensures EndOk(blocks, ino, seen + {p}, tally.end) && MapOk(blocks, ino, seen + {p}, isDir, tally.dirMap)
  {
  }

  lemma SeeDataEnd(blocks: seq<Block>, ino: Inode, seen: set<Place>, end: nat, index: nat)
    requires EndOk(blocks, ino, seen, end) && DataPtr(blocks, ino, index) != 0
    ensures EndOk(blocks, ino, seen + {Data(index)}, if index + 1 > end then index + 1 else end)
  {
  }

  /** Reports clean exactly when the pointers can all be claimed. */
  ghost predicate ScanDone(clean: bool, blocks: seq<Block>, ino: Inode, id: nat, lo: nat, before: seq<nat>,
                           owner: seq<nat>, isDir: bool, tally: Tally)
  {
    && |owner| == |before|
    && (clean <==> Claimable(blocks, ino, lo, before))
    && (clean ==>
          && tally.owned == |Owned(blocks, ino)|
          && (forall b :: 0 <= b < |before| ==> owner[b] == if Owns(blocks, ino, b) then id else before[b])
          && (forall i: nat :: DataPtr(blocks, ino, i) != 0 ==> i < tally.end)
          && (tally.end > 0 ==> DataPtr(blocks, ino, tally.end - 1) != 0)
          && |tally.dirMap| <= DIR_MAP_LIMIT
          && (forall i :: 0 <= i < |tally.dirMap| ==>
                 tally.dirMap[i] == 0 || tally.dirMap[i] == DataPtr(blocks, ino, i))
          && (isDir ==> forall i: nat :: i < DIR_MAP_LIMIT && DataPtr(blocks, ino, i) != 0 ==>
                i < |tally.dirMap| && tally.dirMap[i] == DataPtr(blocks, ino, i)))
  }

  lemma Finish(clean: bool, blocks: seq<Block>, ino: Inode, id: nat, lo: nat, before: seq<nat>,
               owner: seq<nat>, seen: set<Place>, mine: set<nat>, isDir: bool, tally: Tally)
    requires Progress(clean, blocks, ino, id, lo, before, owner, seen, mine, isDir, tally)
    requires |owner| == |before| < 0x1_0000_0000
    requires clean ==> forall p :: IsPlace(p) && PtrAt(blocks, ino, p) != 0 ==> p in seen
    ensures ScanDone(clean, blocks, ino, id, lo, before, owner, isDir, tally)
  {
    assert ProgressAt(clean, blocks, ino, id, lo, before, owner, seen, mine, isDir, tally);
    if clean {
      AllSeen(blocks, ino, id, lo, before, owner, seen, mine);
      forall i: nat | DataPtr(blocks, ino, i) != 0 ensures Data(i) in seen {
        assert PtrAt(blocks, ino, Data(i)) != 0;
      }
    }
  }

  // ------------------------------------------------- the order of the scan

  const DIRECT_END: nat := DIRECT_PTRS                        // where the single-indirect block ranks
  const SINGLE_END: nat := DIRECT_END + 1 + PTRS_PER_BLOCK    // the double-indirect block comes next
  const SECONDS: nat := SINGLE_END + 1
  const SCAN_END: nat := SECONDS + PTRS_PER_BLOCK * (PTRS_PER_BLOCK + 1)

  /** How many places check_blocks looks at before p. */
  function Rank(p: Place): (r: nat)
    requires IsPlace(p)
    ensures r < SCAN_END
  {
    match p
    case Data(i) =>
      if i < DIRECT_PTRS then i
      else if i < DIRECT_PTRS + PTRS_PER_BLOCK then i + 1
      else
        var k := i - DIRECT_PTRS - PTRS_PER_BLOCK;
        SECONDS + k / PTRS_PER_BLOCK * (PTRS_PER_BLOCK + 1) + 1 + k % PTRS_PER_BLOCK
    case Single => DIRECT_END
    case Double => SINGLE_END
    case Second(j) => SECONDS + j * (PTRS_PER_BLOCK + 1)
  }

  lemma RankInjective(p: Place, q: Place)
    requires IsPlace(p) && IsPlace(q) && Rank(p) == Rank(q)
    ensures p == q
  {
  }

  /** Nothing at rank r or later has been seen; everything before it that is not a hole has. */
  ghost predicate Reached(clean: bool, blocks: seq<Block>, ino: Inode, seen: set<Place>, r: nat) {
    && (forall p :: p in seen ==> IsPlace(p) && Rank(p) < r)
    && (clean ==> forall p :: IsPlace(p) && Rank(p) < r && PtrAt(blocks, ino, p) != 0 ==> p in seen)
  }

  lemma ReachPast(clean: bool, blocks: seq<Block>, ino: Inode, seen: set<Place>, r: nat, p: Place)
    requires IsPlace(p) && Rank(p) == r && Reached(clean, blocks, ino, seen, r)
    ensures Reached(clean, blocks, ino, seen + {p}, r + 1)
  {
    forall q | clean && IsPlace(q) && Rank(q) < r + 1 && PtrAt(blocks, ino, q) != 0 ensures q in seen + {p} {
      if Rank(q) == r {
        RankInjective(p, q);
      }
    }
  }

  lemma ReachHole(clean: bool, blocks: seq<Block>, ino: Inode, seen: set<Place>, r: nat, p: Place)
    requires IsPlace(p) && Rank(p) == r && Reached(clean, blocks, ino, seen, r) && PtrAt(blocks, ino, p) == 0
    ensures Reached(clean, blocks, ino, seen, r + 1)
  {
    forall q | clean && IsPlace(q) && Rank(q) < r + 1 && PtrAt(blocks, ino, q) != 0 ensures q in seen {
      if Rank(q) == r {
        RankInjective(p, q);
      }
    }
  }

  /** A missing indirect block: everything under it is a hole. */
  lemma ReachSkip(clean: bool, blocks: seq<Block>, ino: Inode, seen: set<Place>, r: nat, r': nat)
    requires Reached(clean, blocks, ino, seen, r) && r <= r'
    requires clean ==> forall p :: IsPlace(p) && r <= Rank(p) < r' ==> PtrAt(blocks, ino, p) == 0
    ensures Reached(clean, blocks, ino, seen, r')
  {
  }

  /** A directory's size is what fsck can follow. */
  predicate Mappable(ino: Inode) {
    IsDir(ino) ==> ino.size / BLOCK_SIZE <= DIR_MAP_LIMIT
  }

  function DirBlocks(blocks: seq<Block>, ino: Inode): (r: seq<nat>)
    ensures |r| == ino.size / BLOCK_SIZE && forall k :: 0 <= k < |r| ==> r[k] == DataPtr(blocks, ino, k)
  {
    seq(ino.size / BLOCK_SIZE, k requires 0 <= k => DataPtr(blocks, ino, k))
  }

  // -------------------------------------------------- what hangs under what

  lemma NoSingle(blocks: seq<Block>, ino: Inode)
    requires ino.single == 0
    ensures forall p :: IsPlace(p) && DIRECT_END <= Rank(p) < SINGLE_END ==> PtrAt(blocks, ino, p) == 0
  {
  }

  lemma NoDouble(blocks: seq<Block>, ino: Inode)
    requires ino.double == 0
    ensures forall p :: IsPlace(p) && SINGLE_END <= Rank(p) ==> PtrAt(blocks, ino, p) == 0
  {
  }

  /** The file blocks ranked under entry j are those j's second-level block holds. */
  lemma UnderSecond(j: nat, k: nat)
    requires j * (PTRS_PER_BLOCK + 1) <= k / PTRS_PER_BLOCK * (PTRS_PER_BLOCK + 1) + 1 + k % PTRS_PER_BLOCK
                                      < (j + 1) * (PTRS_PER_BLOCK + 1)
    ensures k / PTRS_PER_BLOCK == j
  {
    var q, m := k / PTRS_PER_BLOCK, k % PTRS_PER_BLOCK;
    assert m < PTRS_PER_BLOCK;
    assert q < j + 1 && j < q + 1;
  }

  lemma NoSecond(blocks: seq<Block>, ino: Inode, j: nat)
    requires j < PTRS_PER_BLOCK && Entry32(blocks, ino.double, j) == 0
    ensures forall p :: IsPlace(p) && Rank(Second(j)) <= Rank(p) < SECONDS + (j + 1) * (PTRS_PER_BLOCK + 1) ==>
              PtrAt(blocks, ino, p) == 0
  {
    forall p | IsPlace(p) && Rank(Second(j)) <= Rank(p) < SECONDS + (j + 1) * (PTRS_PER_BLOCK + 1)
      ensures PtrAt(blocks, ino, p) == 0
    {
      if p.Data? && p.index >= DIRECT_PTRS + PTRS_PER_BLOCK {
        UnderSecond(j, p.index - DIRECT_PTRS - PTRS_PER_BLOCK);
      }
    }
  }

  /** `pointers` are those of file blocks base onwards, ranked from r. */
  ghost predicate Lists(blocks: seq<Block>, ino: Inode, base: nat, r: nat, pointers: seq<u32>) {
    && base + |pointers| <= MAX_FILE_BLOCKS
    && forall k: nat :: k < |pointers| ==>
         pointers[k] == DataPtr(blocks, ino, base + k) && Rank(Data(base + k)) == r + k
  }

  lemma SecondLevel(blocks: seq<Block>, ino: Inode, j: nat, base: nat, r: nat, pointers: seq<u32>)
    requires j < PTRS_PER_BLOCK && Entry32(blocks, ino.double, j) != 0
    requires base == DIRECT_PTRS + PTRS_PER_BLOCK + j * PTRS_PER_BLOCK && r == SECONDS + j * (PTRS_PER_BLOCK + 1)
    requires pointers == PointersIn(Load(blocks, Entry32(blocks, ino.double, j)))
    ensures Lists(blocks, ino, base, r + 1, pointers)
  {
    var e := Entry32(blocks, ino.double, j);
    SecondsEnd(j);
    forall k: nat | k < |pointers|
      ensures pointers[k] == DataPtr(blocks, ino, base + k) && Rank(Data(base + k)) == r + 1 + k
    {
      SecondEntry(blocks, ino, j, k, base + k);
      assert pointers[k] == Entry32(blocks, e, k);
    }
  }

  lemma SecondsEnd(j: nat)
    requires j < PTRS_PER_BLOCK
    ensures DIRECT_PTRS + PTRS_PER_BLOCK + j * PTRS_PER_BLOCK + PTRS_PER_BLOCK <= MAX_FILE_BLOCKS
  {
  }

  lemma SecondEntry(blocks: seq<Block>, ino: Inode, j: nat, k: nat, i: nat)
    requires j < PTRS_PER_BLOCK && k < PTRS_PER_BLOCK && i == DIRECT_PTRS + PTRS_PER_BLOCK + j * PTRS_PER_BLOCK + k
    ensures i < MAX_FILE_BLOCKS
    ensures DataPtr(blocks, ino, i) == Entry32(blocks, Entry32(blocks, ino.double, j), k)
    ensures Rank(Data(i)) == SECONDS + j * (PTRS_PER_BLOCK + 1) + 1 + k
  {
    SplitIndex(j, k);
    assert i - DIRECT_PTRS - PTRS_PER_BLOCK == j * PTRS_PER_BLOCK + k;
  }

  // -------------------------------------------------- sizes, from the tally

  /** What check_blocks asks of the tally, after the scan. */
  predicate TallyOk(ino: Inode, tally: Tally) {
    && tally.owned == ino.blockCount && ino.size <= MAX_FILE_BLOCKS * BLOCK_SIZE
    && if IsDir(ino) then DirTallyOk(ino, tally) else tally.end <= (ino.size + BLOCK_SIZE - 1) / BLOCK_SIZE
  }

  predicate DirTallyOk(ino: Inode, tally: Tally) {
    && ino.size % BLOCK_SIZE == 0 && ino.size > 0
    && tally.end <= ino.size / BLOCK_SIZE
    && ino.size / BLOCK_SIZE <= |tally.dirMap|
    && (forall i :: 0 <= i < ino.size / BLOCK_SIZE ==> tally.dirMap[i] != 0)
  }

  lemma TallyVerdict(blocks: seq<Block>, ino: Inode, id: nat, lo: nat, before: seq<nat>, owner: seq<nat>, tally: Tally)
    requires ScanDone(true, blocks, ino, id, lo, before, owner, IsDir(ino), tally)
    ensures TallyOk(ino, tally) <==> SizeRule(blocks, ino) && Mappable(ino)
    ensures IsDir(ino) && TallyOk(ino, tally) ==> tally.dirMap[..ino.size / BLOCK_SIZE] == DirBlocks(blocks, ino)
  {
    if TallyOk(ino, tally) {
      TallySound(blocks, ino, id, lo, before, owner, tally);
    }
    if SizeRule(blocks, ino) && Mappable(ino) {
      TallyComplete(blocks, ino, id, lo, before, owner, tally);
    }
  }

  lemma TallySound(blocks: seq<Block>, ino: Inode, id: nat, lo: nat, before: seq<nat>, owner: seq<nat>, tally: Tally)
    requires ScanDone(true, blocks, ino, id, lo, before, owner, IsDir(ino), tally) && TallyOk(ino, tally)
    ensures SizeRule(blocks, ino) && Mappable(ino)
  {
    forall k: nat | DataPtr(blocks, ino, k) != 0 ensures k * BLOCK_SIZE < ino.size {
      assert k < tally.end;
    }
  }

  lemma TallyComplete(blocks: seq<Block>, ino: Inode, id: nat, lo: nat, before: seq<nat>, owner: seq<nat>, tally: Tally)
    requires ScanDone(true, blocks, ino, id, lo, before, owner, IsDir(ino), tally) && SizeRule(blocks, ino)
             && Mappable(ino)
    ensures TallyOk(ino, tally)
  {
    if tally.end > 0 {
      assert DataPtr(blocks, ino, tally.end - 1) != 0;
    }
    if IsDir(ino) {
      var n := ino.size / BLOCK_SIZE;
      assert DataPtr(blocks, ino, n - 1) != 0;
    }
  }

  // ------------------------------------------------------------ every inode

  /** The inode rules for the first n inodes, and that fsck can follow their directories. */
  ghost predicate InodesOkBelow(img: Image, n: nat)
    requires n <= |img.inodes|
  {
    && (forall id: nat :: id < n ==> InodeRule(img, id))
    && (forall id: nat :: id < n && InUse(img, id) ==>
          PointerRule(img, id) && SizeRule(img.blocks, img.inodes[id]) && Mappable(img.inodes[id]))
    && (forall id: nat, other: nat :: id < n && other < n && InUse(img, id) && InUse(img, other) && id != other ==>
          DisjointRule(img, id, other))
  }

  /** owner says, of each block, which of the first n inodes owns it. */
  ghost predicate OwnersBelow(img: Image, n: nat, owner: seq<nat>)
    requires n <= |img.inodes|
  {
    forall b: nat :: b < |owner| ==>
      && (owner[b] != 0 ==> owner[b] < n && InUse(img, owner[b]) && Owns(img.blocks, img.inodes[owner[b]], b))
      && (forall id: nat :: id < n && InUse(img, id) && Owns(img.blocks, img.inodes[id], b) ==> owner[b] == id)
  }

  /** Claiming inode id's blocks works exactly when its pointers are good and no earlier inode has them. */
  lemma ClaimableIff(img: Image, id: nat, before: seq<nat>)
    requires id < |img.inodes| && InUse(img, id) && InodesOkBelow(img, id) && OwnersBelow(img, id, before)
    requires |before| == img.sb.totalBlocks
    ensures Claimable(img.blocks, img.inodes[id], img.sb.dataStart, before) <==>
              PointerRule(img, id) && forall other: nat :: other < id && InUse(img, other) ==>
                  DisjointRule(img, id, other)
  {
    var ino := img.inodes[id];
    if Claimable(img.blocks, ino, img.sb.dataStart, before) {
      forall other: nat, b: nat | other < id && InUse(img, other) && Owns(img.blocks, ino, b)
        ensures !Owns(img.blocks, img.inodes[other], b)
      {
        var p :| IsPlace(p) && PtrAt(img.blocks, ino, p) == b;
        assert before[b] == 0;
      }
    }
    if PointerRule(img, id) && forall other: nat :: other < id && InUse(img, other) ==> DisjointRule(img, id, other) {
      forall p | IsPlace(p) && PtrAt(img.blocks, ino, p) != 0
        ensures img.sb.dataStart <= PtrAt(img.blocks, ino, p) < |before| && before[PtrAt(img.blocks, ino, p)] == 0
      {
        assert Owns(img.blocks, ino, PtrAt(img.blocks, ino, p));
      }
    }
  }

  /** What inode id adds to the rules of those before it. */
  ghost predicate InodeJoins(img: Image, id: nat)
    requires id < |img.inodes|
  {
    && InodeRule(img, id) && PointerRule(img, id)
    && (forall other: nat :: other < id && InUse(img, other) ==> DisjointRule(img, id, other))
    && SizeRule(img.blocks, img.inodes[id]) && Mappable(img.inodes[id])
  }

  lemma InodeNeeded(img: Image, id: nat)
    requires id < |img.inodes| && InUse(img, id) && InodesOkBelow(img, id + 1)
    ensures InodeJoins(img, id)
  {
  }

  lemma InodeEnough(img: Image, id: nat)
    requires id < |img.inodes| && InUse(img, id) && InodesOkBelow(img, id) && InodeJoins(img, id)
    ensures InodesOkBelow(img, id + 1)
  {
    forall a: nat, b: nat | a < id + 1 && b < id + 1 && InUse(img, a) && InUse(img, b) && a != b
        ensures DisjointRule(img, a, b) {
      if a == id {
        assert DisjointRule(img, id, b);
      } else if b == id {
        assert DisjointRule(img, id, a);
      }
    }
  }

  lemma OneMoreInode(img: Image, id: nat)
    requires id < |img.inodes| && InUse(img, id) && InodesOkBelow(img, id)
    ensures InodesOkBelow(img, id + 1) <==> InodeJoins(img, id)
  {
    if InodeJoins(img, id) {
      InodeEnough(img, id);
    } else if InodesOkBelow(img, id + 1) {
      InodeNeeded(img, id);
    }
  }

  lemma OneMoreFree(img: Image, id: nat, owner: seq<nat>)
    requires id < |img.inodes| && !InUse(img, id)
    ensures InodesOkBelow(img, id + 1) <==> InodesOkBelow(img, id) && InodeRule(img, id)
    ensures OwnersBelow(img, id, owner) ==> OwnersBelow(img, id + 1, owner)
  {
  }

  lemma OneMoreOwner(img: Image, id: nat, before: seq<nat>, owner: seq<nat>)
    requires id < |img.inodes| && InUse(img, id) && OwnersBelow(img, id, before) && |owner| == |before|
    requires InodesOkBelow(img, id + 1)
    requires forall b: nat :: b < |owner| ==> owner[b] == if Owns(img.blocks, img.inodes[id], b) then id else before[b]
    ensures OwnersBelow(img, id + 1, owner)
  {
    forall b: nat | b < |owner|
      ensures forall k: nat :: k < id + 1 && InUse(img, k) && Owns(img.blocks, img.inodes[k], b) ==> owner[b] == k
    {
      forall k: nat | k < id && InUse(img, k) && Owns(img.blocks, img.inodes[k], b) ensures owner[b] == k {
        assert DisjointRule(img, k, id);
      }
    }
  }
}
