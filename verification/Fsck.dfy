/** The checker: reads a whole image and counts what is wrong with it. */
module Fsck {
  import opened Layout
  import opened Codec
  import opened Superblocks
  import opened NameTree
  import opened DiskImage
  import opened FsckScan
  import opened FsckWalk

  datatype Kind = NoKind | FileKind | DirKind | BadKind

  function KindOf(img: Image, id: nat): Kind {
    if !InUse(img, id) then NoKind
    else if img.inodes[id].mode == FILE_MODE then FileKind
    else if IsDir(img.inodes[id]) then DirKind
    else BadKind
  }

  class Checker {
    const img: Image
    var problems: nat
    // what has been found of every inode, by number ...
    var kind: array<Kind>
    var dirBlocks: array<seq<nat>>   // a directory's pointers, in file order
    var refs: array<nat>             // all that refer to it
    var names: array<nat>            // those of them that are names proper, no dots
    var reachable: array<bool>
    // ... and of every block: who claimed it, 0 for nobody
    var owner: array<nat>

    ghost predicate Valid()
      reads this
    {
      && Shaped(img)
      && owner.Length == img.sb.totalBlocks
      && kind.Length == dirBlocks.Length == refs.Length == names.Length == reachable.Length == |img.inodes|
      && owner != refs && owner != names && refs != names
    }

    // -------------------------------------------------------------- blocks

    method Problem()
      modifies this`problems
      ensures problems == old(problems) + 1
    {
      problems := problems + 1;
    }

    /** A claim on block b for inode id: it is good if b is a data block nobody has claimed before. */
    method Claim(id: nat, b: nat) returns (mine: bool)
      requires Valid()
      modifies this`problems, owner
      ensures mine <==> img.sb.dataStart <= b < img.sb.totalBlocks && old(owner[b]) == 0
      ensures problems == old(problems) + if mine then 0 else 1
      ensures owner[..] == if mine then old(owner[..])[b := id] else old(owner[..])
    {
      if b < img.sb.dataStart || b >= img.sb.totalBlocks {
        Problem();
        return false;
      }
      if owner[b] == id && id != 0 {
        Problem();
        return false;
      }
      if owner[b] != 0 {
        Problem();
        return false;
      }
      owner[b] := id;
      return true;
    }

    /** One data pointer of inode id's: claimed, and entered in the directory's map. */
    method Data(id: nat, ino: Inode, isDir: bool, index: nat, b: nat, tally: Tally,
                ghost before: seq<nat>, ghost seen: set<Place>, ghost mine: set<nat>, ghost start: nat)
      returns (tally': Tally, ghost mine': set<nat>)
      requires Valid() && id != 0 && |before| == owner.Length && start <= problems
      requires index < MAX_FILE_BLOCKS && b == DataPtr(img.blocks, ino, index) != 0
      requires Place.Data(index) !in seen
      requires Progress(problems == start, img.blocks, ino, id, img.sb.dataStart, before, owner[..], seen, mine, isDir,
               tally)
      modifies this`problems, owner
      ensures start <= problems && old(problems) <= problems
      ensures Progress(problems == start, img.blocks, ino, id, img.sb.dataStart, before, owner[..],
                       seen + {Place.Data(index)}, mine', isDir, tally')
    {
      var ours := Claim(id, b);
      var end := if index + 1 > tally.end then index + 1 else tally.end;
      var dirMap := tally.dirMap;
      if isDir && ours && index < DIR_MAP_LIMIT {
        dirMap := Mapped(dirMap, index, b);
      }
      tally' := Tally(tally.owned + 1, end, dirMap);
      assert ProgressAt(old(problems) == start, img.blocks, ino, id, img.sb.dataStart, before, old(owner[..]), seen,
          mine, isDir, tally);
      mine' := mine;
      ghost var p := Place.Data(index);
      assert PtrAt(img.blocks, ino, p) == b;
      if old(problems) == start {
        if ours {
          SeeClaimed(img.blocks, ino, id, img.sb.dataStart, before, old(owner[..]), seen, mine, p);
          mine' := mine + {b};
          SeeDataEnd(img.blocks, ino, seen, tally.end, index);
          SeeDataMap(img.blocks, ino, seen, isDir, tally.dirMap, index);
        } else {
          NotClaimable(img.blocks, ino, id, img.sb.dataStart, before, old(owner[..]), seen, mine, p);
        }
      }
    }

    /** One indirect block of inode id's, at place p: claimed or not. */
    method Indirect(id: nat, ino: Inode, isDir: bool, p: Place, b: nat, tally: Tally,
                    ghost before: seq<nat>, ghost seen: set<Place>, ghost mine: set<nat>, ghost start: nat)
      returns (ours: bool, tally': Tally, ghost mine': set<nat>)
      requires Valid() && id != 0 && |before| == owner.Length && start <= problems
      requires IsPlace(p) && !p.Data? && b == PtrAt(img.blocks, ino, p) != 0 && p !in seen
      requires Progress(problems == start, img.blocks, ino, id, img.sb.dataStart, before, owner[..], seen, mine, isDir,
               tally)
      modifies this`problems, owner
      ensures start <= problems && old(problems) <= problems && (!ours ==> problems > start)
      ensures Progress(problems == start, img.blocks, ino, id, img.sb.dataStart, before, owner[..],
                       seen + {p}, mine', isDir, tally')
    {
      tally' := tally.(owned := tally.owned + 1);
      mine' := mine;
      ours := Claim(id, b);
      assert ProgressAt(old(problems) == start, img.blocks, ino, id, img.sb.dataStart, before, old(owner[..]), seen,
          mine, isDir, tally);
      if old(problems) == start {
        if ours {
          SeeClaimed(img.blocks, ino, id, img.sb.dataStart, before, old(owner[..]), seen, mine, p);
          mine' := mine + {b};
          SeeOther(img.blocks, ino, seen, isDir, tally, p);
        } else {
          NotClaimable(img.blocks, ino, id, img.sb.dataStart, before, old(owner[..]), seen, mine, p);
        }
      }
    }

    /** The data pointers of file blocks [base, base + n), read from `pointers`. */
    method ScanPointers(id: nat, ino: Inode, isDir: bool, base: nat, pointers: seq<u32>, tally: Tally,
                        ghost before: seq<nat>, ghost seen: set<Place>, ghost mine: set<nat>, ghost start: nat,
                            ghost r: nat)
      returns (tally': Tally, ghost seen': set<Place>, ghost mine': set<nat>)
      requires Valid() && id != 0 && |before| == owner.Length && start <= problems
      requires Lists(img.blocks, ino, base, r, pointers)
      requires Reached(problems == start, img.blocks, ino, seen, r)
      requires Progress(problems == start, img.blocks, ino, id, img.sb.dataStart, before, owner[..], seen, mine, isDir,
               tally)
      modifies this`problems, owner
      ensures start <= problems && old(problems) <= problems
      ensures Reached(problems == start, img.blocks, ino, seen', r + |pointers|)
      ensures Progress(problems == start, img.blocks, ino, id, img.sb.dataStart, before, owner[..], seen', mine', isDir,
              tally')
    {
      tally', seen', mine' := tally, seen, mine;
      var k := 0;
      while k < |pointers|
        invariant 0 <= k <= |pointers|
        invariant start <= problems && old(problems) <= problems
        invariant Reached(problems == start, img.blocks, ino, seen', r + k)
        invariant Progress(problems == start, img.blocks, ino, id, img.sb.dataStart, before, owner[..], seen', mine',
                  isDir, tally')
      {
        ghost var p := Place.Data(base + k);
        if pointers[k] != 0 {
          tally', mine' := Data(id, ino, isDir, base + k, pointers[k], tally', before, seen', mine', start);
          ReachPast(problems == start, img.blocks, ino, seen', r + k, p);
          seen' := seen' + {p};
        } else {
          ReachHole(problems == start, img.blocks, ino, seen', r + k, p);
        }
        k := k + 1;
      }
    }

    /** Entry j of the double-indirect block: a second-level block and what it points to. */
    method ScanSecond(id: nat, ino: Inode, isDir: bool, j: nat, b: nat, tally: Tally,
                      ghost before: seq<nat>, ghost seen: set<Place>, ghost mine: set<nat>, ghost start: nat)
      returns (tally': Tally, ghost seen': set<Place>, ghost mine': set<nat>)
      requires Valid() && id != 0 && |before| == owner.Length && start <= problems
      requires j < PTRS_PER_BLOCK && b == PtrAt(img.blocks, ino, Second(j)) != 0
      requires Reached(problems == start, img.blocks, ino, seen, Rank(Second(j)))
      requires Progress(problems == start, img.blocks, ino, id, img.sb.dataStart, before, owner[..], seen, mine, isDir,
               tally)
      modifies this`problems, owner
      ensures start <= problems && old(problems) <= problems
      ensures Reached(problems == start, img.blocks, ino, seen', SECONDS + (j + 1) * (PTRS_PER_BLOCK + 1))
      ensures Progress(problems == start, img.blocks, ino, id, img.sb.dataStart, before, owner[..], seen', mine', isDir,
              tally')
    {
      ghost var r := SECONDS + j * (PTRS_PER_BLOCK + 1);
      assert r == Rank(Second(j)) && r + 1 + PTRS_PER_BLOCK == SECONDS + (j + 1) * (PTRS_PER_BLOCK + 1);
      var ours;
      ours, tally', mine' := Indirect(id, ino, isDir, Second(j), b, tally, before, seen, mine, start);
      ReachPast(problems == start, img.blocks, ino, seen, r, Second(j));
      seen' := seen + {Second(j)};
      if !ours {
        ReachSkip(problems == start, img.blocks, ino, seen', r + 1, r + 1 + PTRS_PER_BLOCK);
        return;
      }
      var pointers := PointersIn(Load(img.blocks, b));
      var base := DIRECT_PTRS + PTRS_PER_BLOCK + j * PTRS_PER_BLOCK;
      SecondLevel(img.blocks, ino, j, base, r, pointers);
      tally', seen', mine' := ScanPointers(id, ino, isDir, base, pointers, tally', before, seen', mine', start, r + 1);
    }

    method ScanDouble(id: nat, ino: Inode, isDir: bool, tally: Tally,
                      ghost before: seq<nat>, ghost seen: set<Place>, ghost mine: set<nat>, ghost start: nat)
      returns (tally': Tally, ghost seen': set<Place>, ghost mine': set<nat>)
      requires Valid() && id != 0 && |before| == owner.Length && start <= problems
      requires Reached(problems == start, img.blocks, ino, seen, SINGLE_END)
      requires Progress(problems == start, img.blocks, ino, id, img.sb.dataStart, before, owner[..], seen, mine, isDir,
               tally)
      modifies this`problems, owner
      ensures start <= problems && old(problems) <= problems
      ensures Reached(problems == start, img.blocks, ino, seen', SCAN_END)
      ensures Progress(problems == start, img.blocks, ino, id, img.sb.dataStart, before, owner[..], seen', mine', isDir,
              tally')
    {
      tally', seen', mine' := tally, seen, mine;
      if ino.double == 0 {
        NoDouble(img.blocks, ino);
        ReachSkip(problems == start, img.blocks, ino, seen, SINGLE_END, SCAN_END);
        return;
      }
      var ours;
      ours, tally', mine' := Indirect(id, ino, isDir, Double, ino.double, tally, before, seen, mine, start);
      ReachPast(problems == start, img.blocks, ino, seen, SINGLE_END, Double);
      seen' := seen + {Double};
      if !ours {
        ReachSkip(problems == start, img.blocks, ino, seen', SECONDS, SCAN_END);
        return;
      }
      var top := PointersIn(Load(img.blocks, ino.double));
      var j := 0;
      while j < PTRS_PER_BLOCK
        invariant 0 <= j <= PTRS_PER_BLOCK
        invariant start <= problems && old(problems) <= problems
        invariant Reached(problems == start, img.blocks, ino, seen', SECONDS + j * (PTRS_PER_BLOCK + 1))
        invariant Progress(problems == start, img.blocks, ino, id, img.sb.dataStart, before, owner[..], seen', mine',
                  isDir, tally')
      {
        if top[j] != 0 {
          tally', seen', mine' := ScanSecond(id, ino, isDir, j, top[j], tally', before, seen', mine', start);
        } else {
          NoSecond(img.blocks, ino, j);
          ReachSkip(problems == start, img.blocks, ino, seen', Rank(Second(j)),
              SECONDS + (j + 1) * (PTRS_PER_BLOCK + 1));
        }
        j := j + 1;
      }
    }

    method ScanSingle(id: nat, ino: Inode, isDir: bool, tally: Tally,
                      ghost before: seq<nat>, ghost seen: set<Place>, ghost mine: set<nat>, ghost start: nat)
      returns (tally': Tally, ghost seen': set<Place>, ghost mine': set<nat>)
      requires Valid() && id != 0 && |before| == owner.Length && start <= problems
      requires Reached(problems == start, img.blocks, ino, seen, DIRECT_END)
      requires Progress(problems == start, img.blocks, ino, id, img.sb.dataStart, before, owner[..], seen, mine, isDir,
               tally)
      modifies this`problems, owner
      ensures start <= problems && old(problems) <= problems
      ensures Reached(problems == start, img.blocks, ino, seen', SINGLE_END)
      ensures Progress(problems == start, img.blocks, ino, id, img.sb.dataStart, before, owner[..], seen', mine', isDir,
              tally')
    {
      tally', seen', mine' := tally, seen, mine;
      if ino.single == 0 {
        NoSingle(img.blocks, ino);
        ReachSkip(problems == start, img.blocks, ino, seen, DIRECT_END, SINGLE_END);
        return;
      }
      var ours;
      ours, tally', mine' := Indirect(id, ino, isDir, Single, ino.single, tally, before, seen, mine, start);
      ReachPast(problems == start, img.blocks, ino, seen, DIRECT_END, Single);
      seen' := seen + {Single};
      if !ours {
        ReachSkip(problems == start, img.blocks, ino, seen', DIRECT_END + 1, SINGLE_END);
        return;
      }
      var pointers := PointersIn(Load(img.blocks, ino.single));
      tally', seen', mine' :=
          ScanPointers(id, ino, isDir, DIRECT_PTRS, pointers, tally', before, seen', mine', start, DIRECT_END + 1);
    }

    /** All of inode id's pointers, in order. */
    method ScanBlocks(id: nat, ino: Inode, isDir: bool) returns (tally: Tally)
      requires Valid() && id != 0
      modifies this`problems, owner
      ensures old(problems) <= problems
      ensures ScanDone(problems == old(problems), img.blocks, ino, id, img.sb.dataStart, old(owner[..]), owner[..],
              isDir, tally)
    {
      ghost var start, before := problems, owner[..];
      ghost var seen, mine := {}, {};
      tally := Tally(0, 0, []);
      tally, seen, mine := ScanPointers(id, ino, isDir, 0, ino.direct, tally, before, seen, mine, start, 0);
      tally, seen, mine := ScanSingle(id, ino, isDir, tally, before, seen, mine, start);
      tally, seen, mine := ScanDouble(id, ino, isDir, tally, before, seen, mine, start);
      Finish(problems == start, img.blocks, ino, id, img.sb.dataStart, before, owner[..], seen, mine, isDir, tally);
    }

    /**
     Inode id's blocks, block_count and size. No problem means exactly that its pointers
     could all be claimed and the rules about its size hold.
     */
    method CheckBlocks(id: nat)
      requires Valid() && InUse(img, id) && kind[id] == KindOf(img, id)
      modifies this`problems, owner, dirBlocks
      ensures old(problems) <= problems
      ensures problems == old(problems) <==>
                Claimable(img.blocks, img.inodes[id], img.sb.dataStart, old(owner[..]))
                && SizeRule(img.blocks, img.inodes[id]) && Mappable(img.inodes[id])
      ensures problems == old(problems) ==>
                && (forall b :: 0 <= b < owner.Length ==>
                      owner[b] == if Owns(img.blocks, img.inodes[id], b) then id else old(owner[b]))
                && (IsDir(img.inodes[id]) ==> dirBlocks[id] == DirBlocks(img.blocks, img.inodes[id]))
      ensures forall k :: 0 <= k < dirBlocks.Length && k != id ==> dirBlocks[k] == old(dirBlocks[k])
    {
      var ino := img.inodes[id];
      var isDir := kind[id] == DirKind;
      ghost var before := owner[..];
      var tally := ScanBlocks(id, ino, isDir);
      ghost var clean := problems == old(problems);
      if clean {
        TallyVerdict(img.blocks, ino, id, img.sb.dataStart, before, owner[..], tally);
      }
      dirBlocks[id] := tally.dirMap;
      if tally.owned != ino.blockCount {
        Problem();
      }
      if ino.size > MAX_FILE_BLOCKS * BLOCK_SIZE {
        Problem();
      }
      if !isDir {
        var sizeBlocks := (ino.size + BLOCK_SIZE - 1) / BLOCK_SIZE;
        if tally.end > sizeBlocks {
          Problem();
        }
        assert problems == old(problems) <==> clean && TallyOk(ino, tally);
        return;
      }
      CheckDirSize(id, ino, tally);
      assert problems == old(problems) <==> clean && TallyOk(ino, tally);
    }

    /** A directory's size: whole blocks, at least one, and none of them missing. */
    method CheckDirSize(id: nat, ino: Inode, tally: Tally)
      requires Valid() && id < dirBlocks.Length && dirBlocks[id] == tally.dirMap
      modifies this`problems, dirBlocks
      ensures old(problems) <= problems
      ensures problems == old(problems) <==> DirTallyOk(ino, tally)
      ensures DirTallyOk(ino, tally) ==> dirBlocks[id] == tally.dirMap[..ino.size / BLOCK_SIZE]
      ensures forall k :: 0 <= k < dirBlocks.Length && k != id ==> dirBlocks[k] == old(dirBlocks[k])
    {
      if ino.size % BLOCK_SIZE != 0 {
        Problem();
      }
      var nblocks := ino.size / BLOCK_SIZE;
      if nblocks == 0 {
        Problem();
      }
      if tally.end > nblocks {
        Problem();
      }
      var i := 0;
      ghost var before := problems;
      while i < nblocks
        invariant 0 <= i <= nblocks && i <= |tally.dirMap| && problems == before
        invariant forall k :: 0 <= k < i ==> tally.dirMap[k] != 0
      {
        if i >= |tally.dirMap| || tally.dirMap[i] == 0 {
          Problem();
          break;
        }
        i := i + 1;
      }
      if |tally.dirMap| > nblocks {
        dirBlocks[id] := tally.dirMap[..nblocks];
      } else if |tally.dirMap| == nblocks {
        assert tally.dirMap[..nblocks] == tally.dirMap;
      }
    }

    // ---------------------------------------------------------- inodes

    /** What is known after the first n inodes, as long as nothing was wrong. */
    ghost predicate CheckedBelow(clean: bool, n: nat)
      reads this, owner, dirBlocks, kind
      requires Valid() && n <= |img.inodes|
    {
      && (clean <==> InodesOkBelow(img, n))
      && (clean ==>
            && OwnersBelow(img, n, owner[..])
            && forall id :: 0 <= id < n && kind[id] == DirKind ==>
                   dirBlocks[id] == DirBlocks(img.blocks, img.inodes[id]))
      && (forall id :: 0 <= id < n ==> kind[id] == KindOf(img, id))
      && (forall id :: n <= id < |img.inodes| ==> kind[id] == NoKind)
    }

    method CheckInode(id: nat, ghost start: nat)
      requires Valid() && id < |img.inodes| && start <= problems
      requires CheckedBelow(problems == start, id)
      modifies this`problems, owner, dirBlocks, kind
      ensures start <= problems
      ensures CheckedBelow(problems == start, id + 1)
    {
      var ino := img.inodes[id];
      var marked := id in img.inodeBits;
      var isZero := ino == ZERO_INODE;
      if id != 0 && marked {
        CheckUsed(id, start);
        return;
      }
      OneMoreFree(img, id, owner[..]);
      if id == 0 && !marked {
        Problem();
      }
      if !isZero {
        Problem();
      }
    }

    method CheckUsed(id: nat, ghost start: nat)
      requires Valid() && InUse(img, id) && start <= problems
      requires CheckedBelow(problems == start, id)
      modifies this`problems, owner, dirBlocks, kind
      ensures start <= problems
      ensures CheckedBelow(problems == start, id + 1)
    {
      var ino := img.inodes[id];
      ghost var before := owner[..];
      ghost var clean := problems == start;
      CheckFields(id);
      CheckBlocks(id);
      if clean {
        ClaimableIff(img, id, before);
        OneMoreInode(img, id);
        if problems == start {
          OneMoreOwner(img, id, before, owner[..]);
        }
      }
    }

    /** An inode in use: its number, mode and link count. */
    method CheckFields(id: nat)
      requires Valid() && InUse(img, id)
      modifies this`problems, kind
      ensures old(problems) <= problems
      ensures problems == old(problems) <==> InodeRule(img, id)
      ensures kind[id] == KindOf(img, id)
      ensures forall k :: 0 <= k < kind.Length && k != id ==> kind[k] == old(kind[k])
    {
      var ino := img.inodes[id];
      if ino.id != id {
        Problem();
      }
      if ino.mode == FILE_MODE {
        kind[id] := FileKind;
      } else if IsDir(ino) {
        kind[id] := DirKind;
      } else {
        Problem();
        kind[id] := BadKind;
      }
      if ino.links == 0 {
        Problem();
      }
    }

    /** No problem means exactly that every inode keeps its rules and the root is a directory. */
    method CheckInodes()
      requires Valid()
      requires forall b :: 0 <= b < owner.Length ==> owner[b] == 0
      requires forall id :: 0 <= id < kind.Length ==> kind[id] == NoKind
      modifies this`problems, owner, dirBlocks, kind
      ensures old(problems) <= problems
      ensures problems == old(problems) <==> InodesOkBelow(img, |img.inodes|) && KindOf(img, ROOT_INODE) == DirKind
      ensures problems == old(problems) ==> CheckedBelow(true, |img.inodes|)
      ensures forall id :: 0 <= id < kind.Length ==> kind[id] == KindOf(img, id)
    {
      var id := 0;
      while id < |img.inodes|
        invariant 0 <= id <= |img.inodes| && old(problems) <= problems
        invariant CheckedBelow(problems == old(problems), id)
      {
        CheckInode(id, old(problems));
        id := id + 1;
      }
      if |img.inodes| <= ROOT_INODE || kind[ROOT_INODE] != DirKind {
        Problem();
      }
    }

    // ------------------------------------------------------------ tree

    ghost predicate KindsKnown()
      reads this, kind
      requires Valid()
    {
      forall id :: 0 <= id < kind.Length ==> kind[id] == KindOf(img, id)
    }

    /** What the walk knows as long as nothing was wrong. */
    ghost predicate Walking(clean: bool, looked: set<Spot>, stack: seq<Visit>, done: set<nat>)
      reads this, refs, names, reachable
    {
      clean ==> Knows(Tree(img), looked, refs[..], names[..], reachable[..], stack, done)
    }

    ghost predicate InRange(stack: seq<Visit>)
      reads this
    {
      forall i :: 0 <= i < |stack| ==> stack[i].dir < |img.inodes|
    }

    /** An entry past "." and "..". */
    method CheckEntry(dir: nat, slot: nat, e: Entry, seen: set<seq<Byte>>, stack: seq<Visit>,
                      ghost start: nat, ghost looked: set<Spot>, ghost done: set<nat>)
      returns (seen': set<seq<Byte>>, stack': seq<Visit>)
      requires Valid() && KindsKnown() && InRange(stack) && start <= problems && slot >= 2
      requires problems == start ==>
                   NoneBad() && IsEntry(dir, slot, e) && Spot(dir, slot) !in looked && Reachable(Tree(img), dir)
      requires Walking(problems == start, looked, stack, done)
      modifies this`problems, refs, names, reachable
      ensures InRange(stack') && start <= problems && old(problems) <= problems
      ensures old(problems) == start ==>
                (problems == start <==> EntryOk(Tree(img), e) && (e.inode != 0 ==> e.Name() !in seen))
      ensures seen' == seen + if e.inode != 0 then {e.Name()} else {}
      ensures Walking(problems == start, looked + {Spot(dir, slot)}, stack', done)
      ensures |Unnamed(names[..])| + |stack'| <= |Unnamed(old(names[..]))| + |stack|
    {
      if e.inode != 0 {
        seen', stack' := CheckNamed(dir, slot, e, seen, stack, start, looked, done);
        return;
      }
      seen', stack' := seen, stack;
      if problems == start {
        FreeStep(Tree(img), looked, refs[..], names[..], reachable[..], stack, done, Spot(dir, slot));
      }
      if e != ZERO_ENTRY {
        Problem();
      }
    }

    ghost predicate NoneBad()
      reads this, kind
    {
      forall id :: 0 <= id < kind.Length ==> kind[id] != BadKind
    }

    ghost predicate IsEntry(dir: nat, slot: nat, e: Entry) {
      IsSpot(Tree(img), Spot(dir, slot)) && EntryAt(Tree(img), Spot(dir, slot)) == e
    }

    method CheckNamed(dir: nat, slot: nat, e: Entry, seen: set<seq<Byte>>, stack: seq<Visit>,
                      ghost start: nat, ghost looked: set<Spot>, ghost done: set<nat>)
      returns (seen': set<seq<Byte>>, stack': seq<Visit>)
      requires Valid() && KindsKnown() && InRange(stack) && start <= problems && slot >= 2 && e.inode != 0
      requires problems == start ==>
                   NoneBad() && IsEntry(dir, slot, e) && Spot(dir, slot) !in looked && Reachable(Tree(img), dir)
      requires Walking(problems == start, looked, stack, done)
      modifies this`problems, refs, names, reachable
      ensures InRange(stack') && start <= problems && old(problems) <= problems
      ensures old(problems) == start ==> (problems == start <==> EntryOk(Tree(img), e) && e.Name() !in seen)
      ensures seen' == seen + {e.Name()}
      ensures Walking(problems == start, looked + {Spot(dir, slot)}, stack', done)
      ensures |Unnamed(names[..])| + |stack'| <= |Unnamed(old(names[..]))| + |stack|
    {
      seen' := CheckName(e, seen);
      stack' := stack;
      if e.inode >= |img.inodes| {
        Problem();
        return;
      }
      stack' := CheckTarget(dir, e, stack);
      if problems == start {
        assert Names(Tree(img), Spot(dir, slot), e.inode) && e.inode in Tree(img);
        EntryStep(Tree(img), looked, old(refs[..]), old(names[..]), old(reachable[..]), stack, done, Spot(dir, slot),
            e.inode);
        assert Walking(true, looked + {Spot(dir, slot)}, stack', done);
      }
    }

    /** The inode that an entry of dir names: counted, and if this is its first name, marked and pushed. */
    method CheckTarget(dir: nat, e: Entry, stack: seq<Visit>) returns (stack': seq<Visit>)
      requires Valid() && KindsKnown() && InRange(stack) && 0 < e.inode < |img.inodes|
      modifies this`problems, refs, names, reachable
      ensures InRange(stack') && old(problems) <= problems
      ensures kind[e.inode] != BadKind ==>
                (problems == old(problems) <==>
                    e.inode in Tree(img) && e.kind == if Tree(img)[e.inode].Dir? then FT_DIR else FT_FILE)
      ensures kind[e.inode] != BadKind && problems == old(problems) ==>
                && refs[..] == old(refs[..])[e.inode := old(refs[e.inode]) + 1]
                && names[..] == old(names[..])[e.inode := old(names[e.inode]) + 1]
                && reachable[..] == (if e.inode == ROOT || old(names[e.inode]) != 0 then old(reachable[..])
                                     else old(reachable[..])[e.inode := true])
                && stack' == Pushed(Tree(img), old(names[..]), stack, e.inode, dir)
      ensures |Unnamed(names[..])| + |stack'| <= |Unnamed(old(names[..]))| + |stack|
    {
      var x := e.inode;
      stack' := stack;
      refs[x] := refs[x] + 1;
      if kind[x] == NoKind {
        Problem();
        return;
      }
      NameShrinks(names[..], x);
      names[x] := names[x] + 1;
      if kind[x] == BadKind {
        reachable[x] := true;
        return;
      }
      var want := if kind[x] == DirKind then FT_DIR else FT_FILE;
      if e.kind != want {
        Problem();
      }
      if names[x] > 1 || x == ROOT_INODE {
        return;
      }
      reachable[x] := true;
      if kind[x] == DirKind {
        stack' := stack + [Visit(x, dir)];
      }
    }

    /** The name of an entry in use. */
    method CheckName(e: Entry, seen: set<seq<Byte>>) returns (seen': set<seq<Byte>>)
      modifies this`problems
      ensures old(problems) <= problems
      ensures problems == old(problems) <==> 1 <= e.len <= MAX_NAME_LEN && GoodName(e.Name()) && e.Name() !in seen
      ensures seen' == seen + {e.Name()}
    {
      var name := e.Name();
      if e.len == 0 || e.len > MAX_NAME_LEN {
        Problem();
      } else if SLASH in name || NUL in name {
        Problem();
      } else if name == DOT || name == DOTDOT {
        Problem();
      }
      if name in seen {
        Problem();
      }
      seen' := seen + {name};
    }

    /** Slot 0 or 1 of a directory: it must be "." or ".." and hold the right inode number. */
    method CheckDot(e: Entry, name: seq<Byte>, want: nat)
      requires 1 <= |name| <= MAX_NAME_LEN
      modifies this`problems
      ensures old(problems) <= problems
      ensures problems == old(problems) <==> IsDot(e, name, want)
    {
      var nameOk := e.len == |name| && e.field[..|name|] == name;
      if !nameOk || e.kind != FT_DIR {
        Problem();
        return;
      }
      if e.inode != want {
        Problem();
      }
    }

    method CheckSlot(dir: nat, parent: nat, slot: nat, e: Entry, seen: set<seq<Byte>>, stack: seq<Visit>,
                     ghost start: nat, ghost looked: set<Spot>, ghost done: set<nat>)
      returns (seen': set<seq<Byte>>, stack': seq<Visit>)
      requires Valid() && KindsKnown() && InRange(stack) && start <= problems
      requires problems == start ==>
                 && NoneBad() && IsEntry(dir, slot, e) && Spot(dir, slot) !in looked && Reachable(Tree(img), dir)
                 && 0 < dir < |img.inodes| && 0 < parent < |img.inodes|
                 && seen == NamesBefore(Tree(img)[dir].slots, slot)
      requires Walking(problems == start, looked, stack, done)
      modifies this`problems, refs, names, reachable
      ensures InRange(stack') && start <= problems && old(problems) <= problems
      ensures old(problems) == start ==> (problems == start <==> SlotOk(Tree(img), dir, parent, slot))
      ensures problems == start ==> seen' == NamesBefore(Tree(img)[dir].slots, slot + 1)
      ensures Walking(problems == start, looked + {Spot(dir, slot)}, stack', done)
      ensures |Unnamed(names[..])| + |stack'| <= |Unnamed(old(names[..]))| + |stack|
    {
      if slot < 2 {
        seen', stack' := seen, stack;
        CheckDotSlot(dir, parent, slot, e, stack, start, looked, done);
        return;
      }
      if problems == start {
        NamesGrow(Tree(img)[dir].slots, slot);
      }
      seen', stack' := CheckEntry(dir, slot, e, seen, stack, start, looked, done);
    }

    method CheckDotSlot(dir: nat, parent: nat, slot: nat, e: Entry, stack: seq<Visit>,
                        ghost start: nat, ghost looked: set<Spot>, ghost done: set<nat>)
      requires Valid() && start <= problems && slot < 2
      requires problems == start ==>
                 && IsEntry(dir, slot, e) && Spot(dir, slot) !in looked
                 && 0 < dir < |img.inodes| && 0 < parent < |img.inodes|
      requires Walking(problems == start, looked, stack, done)
      modifies this`problems, refs
      ensures start <= problems && old(problems) <= problems
      ensures old(problems) == start ==> (problems == start <==> SlotOk(Tree(img), dir, parent, slot))
      ensures Walking(problems == start, looked + {Spot(dir, slot)}, stack, done)
    {
      if problems == start {
        DotOk(Tree(img), dir, parent, slot);
      }
      if slot == 0 {
        CheckDot(e, DOT, dir);
      } else {
        CheckDot(e, DOTDOT, parent);
      }
      if problems == start {
        assert 0 < e.inode < |img.inodes|;
        DotStep(Tree(img), looked, refs[..], names[..], reachable[..], stack, done, Spot(dir, slot), e.inode);
      }
      if e.inode != 0 && e.inode < |img.inodes| {
        refs[e.inode] := refs[e.inode] + 1;
      }
    }

    /** dir is a directory whose blocks the inode pass has listed. */
    ghost predicate Listed(dir: nat)
      reads this, dirBlocks
      requires Valid()
    {
      && 0 < dir < |img.inodes| && IsDirIn(Tree(img), dir)
      && dirBlocks[dir] == DirBlocks(img.blocks, img.inodes[dir]) && dirBlocks[dir] != []
      && forall k :: 0 <= k < |dirBlocks[dir]| ==> dirBlocks[dir][k] != 0
    }

    lemma SlotIs(dir: nat, fb: nat, s: nat)
      requires Valid() && Listed(dir) && fb < |dirBlocks[dir]| && s < DIRENTS_PER_BLOCK
      ensures IsEntry(dir, fb * DIRENTS_PER_BLOCK + s, Slot(Load(img.blocks, dirBlocks[dir][fb]), s))
    {
      var i := fb * DIRENTS_PER_BLOCK + s;
      assert i / DIRENTS_PER_BLOCK == fb && i % DIRENTS_PER_BLOCK == s;
    }

    /** What the check of a directory knows after i of its slots. */
    ghost predicate Halfway(clean: bool, wasClean: bool, dir: nat, parent: nat, i: nat, seen: set<seq<Byte>>,
        stack: seq<Visit>,
                            looked: set<Spot>, done: set<nat>)
      reads this, refs, names, reachable, dirBlocks, kind
      requires Valid()
    {
      forall c :: c == clean ==> HalfwayAt(c, wasClean, dir, parent, i, seen, stack, looked, done)
    }

    ghost predicate HalfwayAt(clean: bool, wasClean: bool, dir: nat, parent: nat, i: nat, seen: set<seq<Byte>>,
        stack: seq<Visit>,
                              looked: set<Spot>, done: set<nat>)
      reads this, refs, names, reachable, dirBlocks, kind
      requires Valid()
    {
      && (clean ==> wasClean)
      && (wasClean ==>
            && NoneBad() && Listed(dir) && 0 < parent < |img.inodes| && Reachable(Tree(img), dir)
            && i <= |Tree(img)[dir].slots|
            && (clean <==> SlotsOk(Tree(img), dir, parent, i))
            && (clean ==> seen == NamesBefore(Tree(img)[dir].slots, i)))
      && Walking(clean, looked + SpotsBelow(dir, i), stack, done)
    }

    method CheckDirBlock(dir: nat, parent: nat, fb: nat, seen: set<seq<Byte>>, stack: seq<Visit>,
                         ghost start: nat, ghost wasClean: bool, ghost looked: set<Spot>, ghost done: set<nat>)
      returns (seen': set<seq<Byte>>, stack': seq<Visit>)
      requires Valid() && KindsKnown() && InRange(stack) && start <= problems
      requires dir < |img.inodes| && fb < |dirBlocks[dir]| && dirBlocks[dir][fb] != 0
      requires forall i :: Spot(dir, i) !in looked
      requires Halfway(problems == start, wasClean, dir, parent, fb * DIRENTS_PER_BLOCK, seen, stack, looked, done)
      modifies this`problems, refs, names, reachable
      ensures InRange(stack') && start <= problems && old(problems) <= problems
      ensures Halfway(problems == start, wasClean, dir, parent, (fb + 1) * DIRENTS_PER_BLOCK, seen', stack', looked,
              done)
      ensures |Unnamed(names[..])| + |stack'| <= |Unnamed(old(names[..]))| + |stack|
    {
      seen', stack' := seen, stack;
      var b := Load(img.blocks, dirBlocks[dir][fb]);
      var s := 0;
      while s < DIRENTS_PER_BLOCK
        invariant 0 <= s <= DIRENTS_PER_BLOCK
        invariant InRange(stack') && start <= problems && old(problems) <= problems
        invariant Halfway(problems == start, wasClean, dir, parent, fb * DIRENTS_PER_BLOCK + s, seen', stack', looked,
                  done)
        invariant |Unnamed(names[..])| + |stack'| <= |Unnamed(old(names[..]))| + |stack|
      {
        seen', stack' := CheckNext(dir, parent, fb, s, b, seen', stack', start, wasClean, looked, done);
        s := s + 1;
      }
    }

    method CheckNext(dir: nat, parent: nat, fb: nat, s: nat, b: Block, seen: set<seq<Byte>>, stack: seq<Visit>,
                     ghost start: nat, ghost wasClean: bool, ghost looked: set<Spot>, ghost done: set<nat>)
      returns (seen': set<seq<Byte>>, stack': seq<Visit>)
      requires Valid() && KindsKnown() && InRange(stack) && start <= problems
      requires dir < |img.inodes| && fb < |dirBlocks[dir]| && s < DIRENTS_PER_BLOCK
      requires b == Load(img.blocks, dirBlocks[dir][fb])
      requires forall i :: Spot(dir, i) !in looked
      requires Halfway(problems == start, wasClean, dir, parent, fb * DIRENTS_PER_BLOCK + s, seen, stack, looked, done)
      modifies this`problems, refs, names, reachable
      ensures InRange(stack') && start <= problems && old(problems) <= problems
      ensures Halfway(problems == start, wasClean, dir, parent, fb * DIRENTS_PER_BLOCK + s + 1, seen', stack', looked,
              done)
      ensures |Unnamed(names[..])| + |stack'| <= |Unnamed(old(names[..]))| + |stack|
    {
      ghost var i := fb * DIRENTS_PER_BLOCK + s;
      assert HalfwayAt(problems == start, wasClean, dir, parent, i, seen, stack, looked, done);
      if wasClean {
        SlotIs(dir, fb, s);
        SlotsStep(Tree(img), dir, parent, i);
      }
      SpotsGrow(dir, i);
      ghost var looked' := looked + SpotsBelow(dir, i);
      assert looked' + {Spot(dir, i)} == looked + SpotsBelow(dir, i + 1);
      seen', stack' := CheckSlot(dir, parent, fb * DIRENTS_PER_BLOCK + s, Slot(b, s), seen, stack, start, looked',
          done);
      assert wasClean ==> Listed(dir) && NoneBad();
    }

    /** One directory. No problem means exactly that it keeps its rules, under that parent. */
    method CheckDirectory(dir: nat, parent: nat, stack: seq<Visit>,
                          ghost start: nat, ghost looked: set<Spot>, ghost done: set<nat>)
      returns (stack': seq<Visit>)
      requires Valid() && KindsKnown() && InRange(stack) && start <= problems && dir < |img.inodes|
      requires problems == start ==> NoneBad() && Listed(dir) && 0 < parent < |img.inodes| && Reachable(Tree(img), dir)
      requires forall i :: Spot(dir, i) !in looked
      requires Walking(problems == start, looked, stack, done)
      modifies this`problems, refs, names, reachable
      ensures InRange(stack') && start <= problems && old(problems) <= problems
      ensures old(problems) == start ==>
                && Listed(dir) && NoneBad()
                && (problems == start <==> DirRule(Tree(img), dir, parent))
      ensures problems == start ==>
                Walking(true, looked + SpotsBelow(dir, |Tree(img)[dir].slots|), stack', done)
      ensures |Unnamed(names[..])| + |stack'| <= |Unnamed(old(names[..]))| + |stack|
    {
      var seen: set<seq<Byte>> := {};
      stack' := stack;
      var fb := 0;
      ghost var wasClean := problems == start;
      assert looked + SpotsBelow(dir, 0) == looked;
      while fb < |dirBlocks[dir]|
        invariant 0 <= fb <= |dirBlocks[dir]|
        invariant InRange(stack') && start <= problems && old(problems) <= problems
        invariant wasClean ==>
                  Halfway(problems == start, wasClean, dir, parent, fb * DIRENTS_PER_BLOCK, seen, stack', looked, done)
        invariant |Unnamed(names[..])| + |stack'| <= |Unnamed(old(names[..]))| + |stack|
      {
        if dirBlocks[dir][fb] != 0 {
          seen, stack' := CheckDirBlock(dir, parent, fb, seen, stack', start, wasClean, looked, done);
        }
        fb := fb + 1;
      }
      if wasClean {
        assert HalfwayAt(problems == start, wasClean, dir, parent, fb * DIRENTS_PER_BLOCK, seen, stack', looked, done);
        DirRuleBySlot(Tree(img), dir, parent);
      }
    }

    /** The inode pass found nothing wrong. */
    ghost predicate Prepared()
      reads this, dirBlocks, kind
      requires Valid()
    {
      && NoneBad() && IsDirIn(Tree(img), ROOT)
      && forall d: nat :: IsDirIn(Tree(img), d) ==> d < |img.inodes| && Listed(d)
    }

    /** What the walk knows between two directories. */
    ghost predicate Between(clean: bool, looked: set<Spot>, stack: seq<Visit>, done: set<nat>)
      reads this, refs, names, reachable
    {
      && Walking(clean, looked, stack, done)
      && (clean ==> Looked(Tree(img), looked, done) && DoneOk(Tree(img), looked, done))
    }

    method VisitTop(stack: seq<Visit>, ghost start: nat, ghost looked: set<Spot>, ghost done: set<nat>)
      returns (stack': seq<Visit>, ghost looked': set<Spot>, ghost done': set<nat>)
      requires Valid() && KindsKnown() && InRange(stack) && stack != [] && start <= problems
      requires problems == start ==> Prepared()
      requires Between(problems == start, looked, stack, done)
      modifies this`problems, refs, names, reachable
      ensures InRange(stack') && start <= problems && old(problems) <= problems
      ensures Between(problems == start, looked', stack', done')
      ensures old(problems) == start && problems > start ==> !DirsOk(Tree(img))
      ensures |Unnamed(names[..])| + |stack'| < |Unnamed(old(names[..]))| + |stack|
    {
      var top := stack[|stack| - 1];
      looked', done' := {}, {};
      if problems == start {
        TreeInTable(img);
        TakeTop(Tree(img), looked, refs[..], names[..], reachable[..], stack, done);
        looked', done' := looked, done + {top.dir};
      }
      stack' := CheckDirectory(top.dir, top.parent, stack[..|stack| - 1], start, looked', done');
      if problems == start {
        looked' := looked + SpotsBelow(top.dir, |Tree(img)[top.dir].slots|);
        DirDone(Tree(img), looked, done, top.dir, top.parent);
      } else if old(problems) == start {
        DirBroken(Tree(img), looked, top.dir, top.parent);
      }
    }

    /** The walk from the root, with an explicit stack; it ends because no inode is pushed twice. */
    method WalkTree(ghost start: nat) returns (ghost looked: set<Spot>, ghost done: set<nat>)
      requires Valid() && KindsKnown() && start <= problems
      requires problems == start ==> Prepared()
      requires kind.Length > ROOT && kind[ROOT] == DirKind
      requires forall x :: 0 <= x < refs.Length ==> refs[x] == 0 && names[x] == 0 && !reachable[x]
      modifies this`problems, refs, names, reachable
      ensures start <= problems && old(problems) <= problems
      ensures problems == start ==> WalkOver(Tree(img), looked, refs[..], names[..], reachable[..], done)
      ensures old(problems) == start && problems > start ==> !DirsOk(Tree(img))
    {
      var stack := [Visit(ROOT, ROOT)];
      reachable[ROOT] := true;
      looked, done := {}, {};
      TreeInTable(img);
      if problems == start {
        StartWalk(Tree(img), |img.inodes|);
        var zeros := seq(|img.inodes|, _ => 0);
        assert refs[..] == zeros && names[..] == zeros;
        assert reachable[..] == seq(|img.inodes|, _ => false)[ROOT := true];
      }
      while stack != []
        invariant InRange(stack) && start <= problems && old(problems) <= problems
        invariant Between(problems == start, looked, stack, done)
        invariant old(problems) == start && problems > start ==> !DirsOk(Tree(img))
        decreases |Unnamed(names[..])| + |stack|
      {
        stack, looked, done := VisitTop(stack, start, looked, done);
      }
      if problems == start {
        assert Walked(Tree(img), looked, refs[..], names[..], reachable[..], [], done);
      }
    }

    // ----------------------------------------------------------- links

    /** An inode in use: reachable, with one name, and with as many links as entries. */
    predicate LinksFine(id: nat)
      reads this, kind, refs, names, reachable
      requires Valid() && id < |img.inodes|
    {
      kind[id] == NoKind ||
      (&& (if id == ROOT then names[id] == 0 else reachable[id] && names[id] <= 1)
       && (kind[id] == BadKind || img.inodes[id].links == refs[id]))
    }

    method CheckLinks()
      requires Valid()
      modifies this`problems
      ensures old(problems) <= problems
      ensures problems == old(problems) <==> forall id :: 1 <= id < |img.inodes| ==> LinksFine(id)
    {
      var id := 1;
      while id < |img.inodes|
        invariant 1 <= id && (|img.inodes| >= 1 ==> id <= |img.inodes|) && old(problems) <= problems
        invariant problems == old(problems) <==> forall k :: 1 <= k < id && k < |img.inodes| ==> LinksFine(k)
      {
        CheckLinksOf(id);
        id := id + 1;
      }
    }

    method CheckLinksOf(id: nat)
      requires Valid() && id < |img.inodes|
      modifies this`problems
      ensures old(problems) <= problems
      ensures problems == old(problems) <==> LinksFine(id)
      ensures forall k :: 0 <= k < |img.inodes| ==> LinksFine(k) == old(LinksFine(k))
    {
      if kind[id] == NoKind {
        return;
      }
      if id == ROOT_INODE {
        if names[id] > 0 {
          Problem();
        }
      } else if !reachable[id] {
        Problem();
        return;
      } else if names[id] > 1 {
        Problem();
      }
      if kind[id] != BadKind && img.inodes[id].links != refs[id] {
        Problem();
      }
    }

    // ----------------------------------------------------- data bitmap

    method CheckDataBitmap()
      requires Valid()
      modifies this`problems
      ensures old(problems) <= problems
      ensures problems == old(problems) <==>
                forall b :: 0 <= b < owner.Length ==> (b in img.blockBits <==> b < img.sb.dataStart || owner[b] != 0)
    {
      var b := 0;
      while b < img.sb.totalBlocks
        invariant 0 <= b <= img.sb.totalBlocks && old(problems) <= problems
        invariant problems == old(problems) <==>
                    forall k :: 0 <= k < b ==> (k in img.blockBits <==> k < img.sb.dataStart || owner[k] != 0)
      {
        var bit := b in img.blockBits;
        if b < img.sb.dataStart {
          if !bit {
            Problem();
          }
        } else if owner[b] != 0 && !bit {
          Problem();
        } else if owner[b] == 0 && bit {
          Problem();
        }
        b := b + 1;
      }
    }

    // ------------------------------------------------------------- run

    constructor (img: Image)
      requires Shaped(img)
      ensures this.img == img && problems == 0 && Valid() && Blank()
      ensures fresh(owner) && fresh(kind) && fresh(dirBlocks) && fresh(refs) && fresh(names) && fresh(reachable)
    {
      this.img := img;
      problems := 0;
      kind := new Kind[img.sb.inodeCount](_ => NoKind);
      owner := new nat[img.sb.totalBlocks](_ => 0);
      dirBlocks := new seq<nat>[img.sb.inodeCount](_ => []);
      refs := new nat[img.sb.inodeCount](_ => 0);
      names := new nat[img.sb.inodeCount](_ => 0);
      reachable := new bool[img.sb.inodeCount](_ => false);
    }

    /** Nothing has been recorded. */
    ghost predicate Blank()
      reads this, kind, owner, refs, names, reachable
      requires Valid()
    {
      && (forall b :: 0 <= b < owner.Length ==> owner[b] == 0)
      && (forall x :: 0 <= x < kind.Length ==> kind[x] == NoKind && refs[x] == 0 && names[x] == 0 && !reachable[x])
    }

    /** True if the rest may be read; false if block 0 does not describe this disk. */
    method CheckSuperblock() returns (readable: bool)
      modifies this`problems
      ensures old(problems) <= problems
      ensures readable <==> SuperblockOk(img.sb, |img.blocks|)
      ensures problems == old(problems) <==> readable && forall k :: 0 <= k < |img.rest| ==> img.rest[k] == 0
    {
      if !SuperblockOk(img.sb, |img.blocks|) {
        Problem();
        return false;
      }
      var i := 0;
      ghost var before := problems;
      while i < |img.rest|
        invariant 0 <= i <= |img.rest| && problems == before
        invariant forall k :: 0 <= k < i ==> img.rest[k] == 0
      {
        if img.rest[i] != 0 {
          Problem();
          break;
        }
        i := i + 1;
      }
      return true;
    }

    /** The tree and its links: no problem exactly when every rule about names holds. */
    method CheckTree(ghost start: nat)
      requires Valid() && KindsKnown() && start <= problems
      requires problems == start ==> Prepared()
      requires forall x :: 0 <= x < refs.Length ==> refs[x] == 0 && names[x] == 0 && !reachable[x]
      modifies this`problems, refs, names, reachable
      ensures start <= problems && old(problems) <= problems
      ensures old(problems) == start ==> (problems == start <==> TreeOk(Tree(img)))
    {
      ghost var looked, done;
      if |img.inodes| > ROOT && kind[ROOT] == DirKind {
        looked, done := WalkTree(start);
      }
      ghost var walked := problems == start;
      CheckLinks();
      if walked {
        LinksAgree();
        if problems == start {
          LinksSound(Tree(img), looked, refs[..], names[..], reachable[..], done);
        } else if TreeOk(Tree(img)) {
          LinksComplete(Tree(img), looked, refs[..], names[..], reachable[..], done);
        }
      }
    }

    lemma LinksAgree()
      requires Valid() && KindsKnown() && NoneBad()
      ensures (forall id :: 1 <= id < |img.inodes| ==> LinksFine(id)) <==>
              forall x :: x in Tree(img) ==>
                  x < |img.inodes| && LinkOk(Tree(img), refs[..], names[..], reachable[..], x)
    {
      TreeInTable(img);
      if forall x :: x in Tree(img) ==> x < |img.inodes| && LinkOk(Tree(img), refs[..], names[..], reachable[..], x) {
        forall id | 1 <= id < |img.inodes| ensures LinksFine(id) {
          assert kind[id] != NoKind ==> id in Tree(img);
        }
      }
      if forall id :: 1 <= id < |img.inodes| ==> LinksFine(id) {
        forall x | x in Tree(img) ensures LinkOk(Tree(img), refs[..], names[..], reachable[..], x) {
          assert LinksFine(x);
        }
      }
    }

    lemma PreparedNow()
      requires Valid() && KindsKnown() && CheckedBelow(true, |img.inodes|) && KindOf(img, ROOT) == DirKind
      ensures Prepared()
    {
      forall d: nat | IsDirIn(Tree(img), d) ensures d < |img.inodes| && Listed(d) {
        assert SizeRule(img.blocks, img.inodes[d]);
      }
      forall id | 0 <= id < kind.Length ensures kind[id] != BadKind {
        assert InodeRule(img, id);
      }
    }

    /** The whole check: no problem exactly when the image is consistent and can be followed. */
    method Run()
      requires Valid() && Blank() && problems == 0
      modifies this`problems, owner, kind, dirBlocks, refs, names, reachable
      ensures problems == 0 <==> Consistent(img) && forall id: nat :: InUse(img, id) ==> Mappable(img.inodes[id])
    {
      var readable := CheckSuperblock();
      if !readable {
        return;
      }
      ghost var block0 := problems == 0;
      CheckInodes();
      ghost var inodes := problems == 0;
      if inodes {
        PreparedNow();
      }
      CheckTree(0);
      ghost var tree := problems == 0;
      CheckDataBitmap();
      Verdict(img, owner[..], block0, inodes, tree, problems == 0);
    }
  }

  /** What the parts of the check find, one after another, comes to the rules of an image. */
  lemma Verdict(img: Image, owner: seq<nat>, block0: bool, inodes: bool, tree: bool, all: bool)
    requires Shaped(img) && |owner| == img.sb.totalBlocks && SuperblockOk(img.sb, |img.blocks|)
    requires block0 <==> forall k :: 0 <= k < |img.rest| ==> img.rest[k] == 0
    requires inodes <==> block0 && InodesOkBelow(img, |img.inodes|) && KindOf(img, ROOT) == DirKind
    requires inodes ==> OwnersBelow(img, |img.inodes|, owner)
    requires inodes ==> (tree <==> TreeOk(Tree(img)))
    requires tree ==> inodes
    requires tree ==>
               (all <==> forall b :: 0 <= b < |owner| ==>
                           (b in img.blockBits <==> b < img.sb.dataStart || owner[b] != 0))
    requires all ==> tree
    ensures all <==> Consistent(img) && forall id: nat :: InUse(img, id) ==> Mappable(img.inodes[id])
  {
    InodesAgree(img);
    if inodes {
      BitmapAgrees(img, owner);
    }
    if TreeOk(Tree(img)) {
      RootIsDir(img);
    }
  }

  lemma RootIsDir(img: Image)
    requires TreeOk(Tree(img))
    ensures KindOf(img, ROOT) == DirKind
  {
  }

  lemma BitmapAgrees(img: Image, owner: seq<nat>)
    requires Shaped(img) && |owner| == img.sb.totalBlocks
    requires InodesOkBelow(img, |img.inodes|) && OwnersBelow(img, |img.inodes|, owner)
    ensures BitmapRule(img) <==>
              forall b :: 0 <= b < |owner| ==> (b in img.blockBits <==> b < img.sb.dataStart || owner[b] != 0)
  {
    forall b: nat | b < |owner|
        ensures owner[b] != 0 <==> exists id: nat :: InUse(img, id) && Owns(img.blocks, img.inodes[id], b) {
    }
  }

  lemma InodesAgree(img: Image)
    ensures InodesOkBelow(img, |img.inodes|) <==>
              InodesOk(img) && forall id: nat :: InUse(img, id) ==> Mappable(img.inodes[id])
  {
  }

  lemma TreeInTable(img: Image)
    ensures forall x :: x in Tree(img) ==> 0 < x < |img.inodes|
  {
  }
}
