/** What the calls do to the image, each part on a directory or file already found and locked. */
module Calls {
  import opened Layout
  import opened Codec
  import opened NameTree
  import opened TreeOps
  import opened DiskImage
  import opened BlockTree
  import opened BlockMap
  import opened FileGrowth
  import opened DirSlots
  import opened ImageUpdate
  import opened ImageOps
  import opened Volume
  import opened FileData
  import opened Charges

  function NewInode(id: u32, mode: u16, links: u16, now: u64): Inode {
    ZERO_INODE.(id := id, mode := mode, links := links, mtime := now)
  }

  /** A file just made: nobody has written to it, and it has one name. */
  predicate IsNewFile(ino: Inode, id: nat, now: u64) {
    && ino.id == id && ino.mode == FILE_MODE && ino.links == 1 && ino.size == 0 && ino.mtime == now
    && ino.blockCount == 0 && ino.single == 0 && ino.double == 0
    && forall k :: 0 <= k < |ino.direct| ==> ino.direct[k] == 0
  }

  /** A directory just made: one block, for "." and "..", which with its name make two links. */
  predicate IsNewDir(ino: Inode, id: nat, now: u64) {
    && ino.id == id && ino.mode == DIR_MODE && ino.links == 2 && ino.size == BLOCK_SIZE && ino.mtime == now
    && ino.blockCount == 1 && ino.direct[0] != 0 && ino.single == 0 && ino.double == 0
    && forall k :: 1 <= k < |ino.direct| ==> ino.direct[k] == 0
  }

  lemma EmptyFile(blocks: seq<Block>, ino: Inode)
    requires ino.direct == ZERO_INODE.direct && ino.single == 0 && ino.double == 0 && ino.blockCount == 0
    requires ino.size == 0 && ino.mode == FILE_MODE
    ensures Owned(blocks, ino) == {} && SizeRule(blocks, ino)
    ensures forall lo, hi :: PointersOk(blocks, ino, lo, hi)
  {
    forall p | IsPlace(p) ensures PtrAt(blocks, ino, p) == 0 {
    }
    assert Owned(blocks, ino) == {};
  }

  /** With new bits taken, a directory is what it was. */
  lemma TakenDir(img: Image, d: nat, x: nat, own: set<nat>)
    requires Good(img) && InUse(img, d) && IsDir(img.inodes[d])
    ensures WholeDir(img.(inodeBits := img.inodeBits + {x}, blockBits := img.blockBits + own), img.inodes[d])
    ensures WholeDir(img, img.inodes[d])
  {
    GoodSound(img, d);
    RuleAt(img, d);
    var taken := img.(inodeBits := img.inodeBits + {x}, blockBits := img.blockBits + own);
    assert WholeDirIn(taken, img.inodes[d]) && WholeDirIn(img, img.inodes[d]);
  }

  /** No entry of d has this name. */
  predicate Unnamed(img: Image, d: nat, name: seq<Byte>)
    requires d < |img.inodes|
  {
    forall k :: 0 <= k < |Slots(img.blocks, img.inodes[d])| ==> !IsNamed(Slots(img.blocks, img.inodes[d])[k], name)
  }

  /** d's directory has got an entry for a new inode x, and all else in the tree is as it was. */
  ghost predicate HasNew(img: Image, img': Image, d: nat, x: nat, node: Node, name: seq<Byte>) {
    && x < |img'.inodes| && x !in Tree(img) && d in Tree(img) && Tree(img)[d].Dir?
    && exists slots', i, e ::
         && Inserted(Tree(img)[d].slots, slots', i, e) && e.inode == x && e.Name() == name
         && Tree(img') == Added(Tree(img), d, slots', x, node)
  }

  /** d's directory has got a new, empty directory x. */
  ghost predicate HasNewDir(img: Image, img': Image, d: nat, x: nat, name: seq<Byte>) {
    forall i :: i == img' ==> HasNewDirIn(img, i, d, x, name)
  }

  ghost predicate HasNewDirIn(img: Image, img': Image, d: nat, x: nat, name: seq<Byte>) {
    exists slots :: FreshDir(slots, x, d) && HasNew(img, img', d, x, Dir(2, slots), name)
  }

  lemma NewFileAdding(img: Image, d: nat, x: u32, mid: Image, dir1: Inode, now: u64)
    requires Good(img) && InUse(img, d) && IsDir(img.inodes[d]) && 0 < x < |img.inodes| && x !in img.inodeBits
    requires Extended(img.(inodeBits := img.inodeBits + {x}), img.inodes[d], mid, dir1) && WholeDir(mid, dir1)
    requires SameButSize(img.inodes[d], dir1)
    ensures Adding(img, d, x, {}, mid, dir1, mid.blocks, NewInode(x, FILE_MODE, 1, now), dir1.(mtime := now))
  {
    assert img.(inodeBits := img.inodeBits + {x}, blockBits := img.blockBits + {})
        == img.(inodeBits := img.inodeBits + {x});
    EmptyFile(mid.blocks, NewInode(x, FILE_MODE, 1, now));
    RuleAt(img, d);
  }

  lemma NewFileEntry(img: Image, d: nat, x: u32, name: seq<Byte>, node: Node)
    requires Good(img) && InUse(img, d) && IsDir(img.inodes[d]) && 0 < x < |img.inodes| && x !in img.inodeBits
    requires GoodName(name) && Unnamed(img, d, name) && node == File(1)
    ensures NewEntry(Tree(img), d, x, node, EntryFor(name, x, FT_FILE))
  {
    TreeAt(img, d);
    TreeAt(img, x);
    GoodTree(img);
    GoodMounted(img);
    NameIsNew(Tree(img), d, name);
    EntryForIs(name, x, FT_FILE);
  }

  /**
   Why an entry and `extra` blocks cannot be had: no inode is free, or no block, or the directory
   is full and cannot grow.
   */
  ghost predicate NoRoom(img: Image, d: nat, extra: nat, code: Code)
    requires d < |img.inodes|
  {
    var dir := img.inodes[d];
    var n := dir.size / BLOCK_SIZE;
    || (code == ENOSPC && forall id: nat :: id < |img.inodes| ==> id in img.inodeBits)
    || (code == ENOSPC && |Unused(img)| < extra)
    || ((forall i :: 0 <= i < |Slots(img.blocks, dir)| ==> Slots(img.blocks, dir)[i].inode != 0)
        && if n >= MAX_FILE_BLOCKS then code == EFBIG
           else code == ENOSPC && |Unused(img)| < Needed(img.blocks, dir, n) + extra)
  }

  function CreatedImage(mid: Image, d: nat, dir1: Inode, x: u32, now: u64): Image
    requires d < |mid.inodes| && x < |mid.inodes|
  {
    mid.(inodes := mid.inodes[x := NewInode(x, FILE_MODE, 1, now)][d := dir1.(mtime := now)])
  }

  lemma FileCreated(img: Image, d: nat, x: u32, mid: Image, dir1: Inode, name: seq<Byte>, now: u64)
    requires Good(img) && InUse(img, d) && IsDir(img.inodes[d]) && 0 < x < |img.inodes| && x !in img.inodeBits
    requires Extended(img.(inodeBits := img.inodeBits + {x}), img.inodes[d], mid, dir1) && WholeDir(mid, dir1)
    requires SameButSize(img.inodes[d], dir1)
    requires GoodName(name) && Unnamed(img, d, name)
    requires exists i :: Inserted(Slots(img.blocks, img.inodes[d]), Slots(mid.blocks, dir1), i,
             EntryFor(name, x, FT_FILE))
    ensures d < |mid.inodes| && x < |mid.inodes|
    ensures var img' := CreatedImage(mid, d, dir1, x, now);
            && Good(img') && HasNew(img, img', d, x, File(1), name) && Spared(img, img', {d, x})
            && InUse(img', x) && img'.inodes[x] == NewInode(x, FILE_MODE, 1, now)
  {
    var xino := NewInode(x, FILE_MODE, 1, now);
    NewFileAdding(img, d, x, mid, dir1, now);
    NewFileEntry(img, d, x, name, NodeOf(mid.blocks, xino));
    var e := EntryFor(name, x, FT_FILE);
    var i :| Inserted(Slots(img.blocks, img.inodes[d]), Slots(mid.blocks, dir1), i, e);
    AddedGood(img, d, x, {}, mid, dir1, mid.blocks, xino, dir1.(mtime := now), i, e);
    AddingNodes(img, d, x, {}, mid, dir1, mid.blocks, xino, dir1.(mtime := now));
    EntryForIs(name, x, FT_FILE);
    TreeAt(img, d);
    TreeAt(img, x);
  }

  /** A file called name in directory d, with its entry and both inodes; nothing if it fails. */
  method CreateFile(v: Volume, d: nat, name: seq<Byte>, now: u64) returns (r: Result<u32>)
    requires Good(v.img) && InUse(v.img, d) && IsDir(v.img.inodes[d]) && GoodName(name) && Unnamed(v.img, d, name)
    requires v.Covered()
    modifies v
    ensures v.Covered()
    ensures old(Tidy(v.img)) ==> Tidy(v.img)
    ensures Good(v.img) && Adds(old(v.wrote), v.wrote, 10)
    ensures r.Err? ==> v.img == old(v.img) && NoRoom(v.img, d, 0, r.code)
    ensures r.Ok? ==>
              && LowestFree(old(v.img.inodeBits), |old(v.img.inodes)|, r.value)
              && HasNew(old(v.img), v.img, d, r.value, File(1), name) && Spared(old(v.img), v.img, {d, r.value})
              && InUse(v.img, r.value) && v.img.inodes[r.value] == NewInode(r.value, FILE_MODE, 1, now)
              && IsNewFile(v.img.inodes[r.value], r.value, now)
              && d < |v.img.inodes| && v.img.inodes[d].mtime == now
  {
    GoodMounted(v.img);
    ghost var img := v.img;
    var dir := v.img.inodes[d];
    AddsNone(v.wrote, 10);
    var id := v.AllocInode();
    if id.Err? {
      return id;
    }
    var x := id.value;
    ghost var taken := v.wrote;
    AddsOne(old(v.wrote), InodeBitHome(img.sb, x));
    TakenDir(img, d, x, {});
    assert img.blockBits + {} == img.blockBits;
    var added, dir1 := v.DirAdd(dir, EntryFor(name, x, FT_FILE));
    AddsTwice(old(v.wrote), taken, v.wrote, 1, 6);
    if added.Err? {
      NoRoomFile(img, d, x, added.code);
      AddsMore(old(v.wrote), v.wrote, 7, InodeBitHome(img.sb, x));
      var freed := v.FreeInode(x);
      return Err(added.code);
    }
    ghost var entered := v.wrote;
    FinishFile(v, d, x, dir1, name, now, img);
    AddsTwice(old(v.wrote), entered, v.wrote, 7, 2);
    r := id;
  }

  /** The two inodes, once the new file's entry is in. */
  method FinishFile(v: Volume, d: nat, x: u32, dir1: Inode, name: seq<Byte>, now: u64, ghost img: Image)
    requires Good(img) && InUse(img, d) && IsDir(img.inodes[d]) && 0 < x < |img.inodes| && x !in img.inodeBits
    requires Extended(img.(inodeBits := img.inodeBits + {x}), img.inodes[d], v.img, dir1) && WholeDir(v.img, dir1)
    requires SameButSize(img.inodes[d], dir1)
    requires GoodName(name) && Unnamed(img, d, name)
    requires exists i :: Inserted(Slots(img.blocks, img.inodes[d]), Slots(v.img.blocks, dir1), i,
             EntryFor(name, x, FT_FILE))
    requires v.Covered()
    modifies v
    ensures v.Covered()
    ensures Good(v.img) && (Tidy(img) ==> Tidy(v.img)) && Adds(old(v.wrote), v.wrote, 2)
    ensures HasNew(img, v.img, d, x, File(1), name) && Spared(img, v.img, {d, x as nat}) && InUse(v.img, x)
    ensures v.img.inodes[x] == NewInode(x, FILE_MODE, 1, now) && IsNewFile(v.img.inodes[x], x, now)
    ensures d < |v.img.inodes| && v.img.inodes[d].mtime == now
  {
    FileCreated(img, d, x, v.img, dir1, name, now);
    TidyCreated(img, d, x, v.img, dir1, now);
    CreatedInodes(img, d, x, v.img, dir1, now);
    ghost var created := CreatedImage(v.img, d, dir1, x, now);
    AddsOne(v.wrote, InodeHome(v.img.sb, x));
    v.WriteInode(x, NewInode(x, FILE_MODE, 1, now));
    AddsMore(old(v.wrote), v.wrote, 1, InodeHome(v.img.sb, d));
    v.WriteInode(d, dir1.(mtime := now));
    assert v.img == created;
  }

  // --------------------------------------------------------------- mkdir

  function NewDir(id: u32, block: u32, now: u64): Inode {
    NewInode(id, DIR_MODE, 2, now).(size := BLOCK_SIZE, blockCount := 1, direct := ZERO_INODE.direct[0 := block])
  }

  lemma OneBlock(blocks: seq<Block>, x: u32, block: u32, now: u64)
    requires block != 0
    ensures Owned(blocks, NewDir(x, block, now)) == {block} && SizeRule(blocks, NewDir(x, block, now))
    ensures forall lo: nat, hi: nat :: lo <= block < hi ==> PointersOk(blocks, NewDir(x, block, now), lo, hi)
    ensures FileBlock(blocks, NewDir(x, block, now), 0) == Load(blocks, block)
  {
    var ino := NewDir(x, block, now);
    forall p | IsPlace(p) ensures PtrAt(blocks, ino, p) == if p == Data(0) then block else 0 {
    }
    assert PtrAt(blocks, ino, Data(0)) == block;
    assert Owns(blocks, ino, block);
    assert Owned(blocks, ino) == {block};
    forall k: nat ensures DataPtr(blocks, ino, k) == if k == 0 then block else 0 {
      if k < MAX_FILE_BLOCKS {
        assert PtrAt(blocks, ino, Data(k)) == DataPtr(blocks, ino, k);
      }
    }
  }

  lemma FreshSlots(blocks: seq<Block>, x: u32, d: u32, block: u32, now: u64)
    requires 0 < block < |blocks| && blocks[block] == FirstBlock(x, d)
    ensures FreshDir(Slots(blocks, NewDir(x, block, now)), x, d)
    ensures NodeOf(blocks, NewDir(x, block, now)) == Dir(2, Slots(blocks, NewDir(x, block, now)))
  {
    var ino := NewDir(x, block, now);
    OneBlock(blocks, x, block, now);
    FirstBlockIs(x, d);
    assert |Slots(blocks, ino)| == DIRENTS_PER_BLOCK;
    forall i: nat | i < DIRENTS_PER_BLOCK ensures Slots(blocks, ino)[i] == Slot(FirstBlock(x, d), i) {
      SlotsFrom(blocks, ino, i);
    }
  }

  lemma NewDirAdding(img: Image, d: u32, x: u32, block: u32, mid: Image, dir1: Inode, now: u64)
    requires Good(img) && InUse(img, d) && IsDir(img.inodes[d]) && 0 < x < |img.inodes| && x !in img.inodeBits
    requires img.sb.dataStart <= block < img.sb.totalBlocks && block !in img.blockBits
    requires Extended(img.(inodeBits := img.inodeBits + {x}, blockBits := img.blockBits + {block}), img.inodes[d], mid,
             dir1)
    requires WholeDir(mid, dir1) && SameButSize(img.inodes[d], dir1) && dir1.links < 0xFFFF
    ensures 0 < block < |mid.blocks|
    ensures Adding(img, d, x, {block}, mid, dir1, mid.blocks[block := FirstBlock(x, d)], NewDir(x, block, now),
                   dir1.(links := dir1.links + 1, mtime := now))
  {
    DiskShape(img);
    TakenShape(img, d, x, {block}, mid, dir1);
    OneBlock(mid.blocks[block := FirstBlock(x, d)], x, block, now);
  }

  lemma DiskShape(img: Image)
    requires Good(img)
    ensures |img.blocks| == img.sb.totalBlocks && 0 < img.sb.dataStart
  {
    GoodMounted(img);
  }

  lemma TakenShape(img: Image, d: nat, x: nat, own: set<nat>, mid: Image, dir1: Inode)
    requires InUse(img, d)
    requires Extended(img.(inodeBits := img.inodeBits + {x}, blockBits := img.blockBits + own), img.inodes[d], mid,
             dir1)
    ensures |mid.blocks| == |img.blocks| && |mid.inodes| == |img.inodes| && mid.sb == img.sb
  {
    assert ExtendedTo(img.(inodeBits := img.inodeBits + {x}, blockBits := img.blockBits + own), img.inodes[d], mid,
        dir1);
  }

  function MadeImage(mid: Image, d: u32, dir1: Inode, x: u32, block: u32, now: u64): Image
    requires d < |mid.inodes| && x < |mid.inodes| && block < |mid.blocks| && dir1.links < 0xFFFF
  {
    AddedImage(mid, mid.blocks[block := FirstBlock(x, d)], d, dir1.(links := dir1.links + 1, mtime := now), x,
        NewDir(x, block, now))
  }

  lemma DirMade(img: Image, d: u32, x: u32, block: u32, mid: Image, dir1: Inode, name: seq<Byte>, now: u64)
    requires Good(img) && InUse(img, d) && IsDir(img.inodes[d]) && 0 < x < |img.inodes| && x !in img.inodeBits
    requires img.sb.dataStart <= block < img.sb.totalBlocks && block !in img.blockBits
    requires Extended(img.(inodeBits := img.inodeBits + {x}, blockBits := img.blockBits + {block}), img.inodes[d], mid,
             dir1)
    requires WholeDir(mid, dir1) && SameButSize(img.inodes[d], dir1) && dir1.links < 0xFFFF
    requires GoodName(name) && Unnamed(img, d, name)
    requires exists i :: Inserted(Slots(img.blocks, img.inodes[d]), Slots(mid.blocks, dir1), i,
             EntryFor(name, x, FT_DIR))
    ensures d < |mid.inodes| && x < |mid.inodes| && block < |mid.blocks|
    ensures var img' := MadeImage(mid, d, dir1, x, block, now);
            && Good(img') && Spared(img, img', {d, x}) && InUse(img', x)
            && HasNewDir(img, img', d, x, name)
  {
    var i :| Inserted(Slots(img.blocks, img.inodes[d]), Slots(mid.blocks, dir1), i, EntryFor(name, x, FT_DIR));
    DirMadeAt(img, d, x, block, mid, dir1, name, now, i);
  }

  lemma DirMadeAt(img: Image, d: u32, x: u32, block: u32, mid: Image, dir1: Inode, name: seq<Byte>, now: u64, i: nat)
    requires Good(img) && InUse(img, d) && IsDir(img.inodes[d]) && 0 < x < |img.inodes| && x !in img.inodeBits
    requires img.sb.dataStart <= block < img.sb.totalBlocks && block !in img.blockBits
    requires Extended(img.(inodeBits := img.inodeBits + {x}, blockBits := img.blockBits + {block}), img.inodes[d], mid,
             dir1)
    requires WholeDir(mid, dir1) && SameButSize(img.inodes[d], dir1) && dir1.links < 0xFFFF
    requires GoodName(name) && Unnamed(img, d, name)
    requires Inserted(Slots(img.blocks, img.inodes[d]), Slots(mid.blocks, dir1), i, EntryFor(name, x, FT_DIR))
    ensures d < |mid.inodes| && x < |mid.inodes| && block < |mid.blocks|
    ensures var img' := MadeImage(mid, d, dir1, x, block, now);
            && Good(img') && Spared(img, img', {d, x}) && InUse(img', x)
            && HasNewDir(img, img', d, x, name)
  {
    DirMadeTree(img, d, x, block, mid, dir1, name, now, i);
    var node := NodeOf(mid.blocks[block := FirstBlock(x, d)], NewDir(x, block, now));
    NewDirAdding(img, d, x, block, mid, dir1, now);
    AddingNodes(img, d, x, {block}, mid, dir1, mid.blocks[block := FirstBlock(x, d)], NewDir(x, block, now),
                dir1.(links := dir1.links + 1, mtime := now));
    EntryForIs(name, x, FT_DIR);
    NewIs(img, MadeImage(mid, d, dir1, x, block, now), d, x, node, name, Slots(mid.blocks, dir1), i,
        EntryFor(name, x, FT_DIR));
  }

  lemma DirMadeTree(img: Image, d: u32, x: u32, block: u32, mid: Image, dir1: Inode, name: seq<Byte>, now: u64, i: nat)
    requires Good(img) && InUse(img, d) && IsDir(img.inodes[d]) && 0 < x < |img.inodes| && x !in img.inodeBits
    requires img.sb.dataStart <= block < img.sb.totalBlocks && block !in img.blockBits
    requires Extended(img.(inodeBits := img.inodeBits + {x}, blockBits := img.blockBits + {block}), img.inodes[d], mid,
             dir1)
    requires WholeDir(mid, dir1) && SameButSize(img.inodes[d], dir1) && dir1.links < 0xFFFF
    requires GoodName(name) && Unnamed(img, d, name)
    requires Inserted(Slots(img.blocks, img.inodes[d]), Slots(mid.blocks, dir1), i, EntryFor(name, x, FT_DIR))
    ensures d < |mid.inodes| && x < |mid.inodes| && block < |mid.blocks|
    ensures d in Tree(img) && Tree(img)[d].Dir?
    ensures var img' := MadeImage(mid, d, dir1, x, block, now);
            var node := NodeOf(mid.blocks[block := FirstBlock(x, d)], NewDir(x, block, now));
            && Good(img') && Spared(img, img', {d, x})
            && node.Dir? && node.links == 2 && FreshDir(node.slots, x, d)
            && Tree(img') == Added(Tree(img), d, Slots(mid.blocks, dir1), x, node)
  {
    var xino, e := NewDir(x, block, now), EntryFor(name, x, FT_DIR);
    NewDirAdding(img, d, x, block, mid, dir1, now);
    var blocks' := mid.blocks[block := FirstBlock(x, d)];
    FreshSlots(blocks', x, d, block, now);
    NewDirEntry(img, d, x, name, NodeOf(blocks', xino));
    var dir2 := dir1.(links := dir1.links + 1, mtime := now);
    AddedGood(img, d, x, {block}, mid, dir1, blocks', xino, dir2, i, e);
    TreeAt(img, d);
  }

  lemma NewIs(img: Image, img': Image, d: nat, x: nat, node: Node, name: seq<Byte>, slots': seq<Entry>, i: nat,
      e: Entry)
    requires InUse(img, d) && IsDir(img.inodes[d]) && !InUse(img, x) && x < |img'.inodes|
    requires Inserted(Slots(img.blocks, img.inodes[d]), slots', i, e) && e.inode == x && e.Name() == name
    requires d in Tree(img) && Tree(img)[d].Dir? && Tree(img') == Added(Tree(img), d, slots', x, node)
    ensures HasNew(img, img', d, x, node, name)
  {
    TreeAt(img, d);
    TreeAt(img, x);
  }

  lemma NewDirEntry(img: Image, d: u32, x: u32, name: seq<Byte>, node: Node)
    requires Good(img) && InUse(img, d) && IsDir(img.inodes[d]) && 0 < x < |img.inodes| && x !in img.inodeBits
    requires GoodName(name) && Unnamed(img, d, name) && node.Dir? && node.links == 2 && FreshDir(node.slots, x, d)
    ensures NewEntry(Tree(img), d, x, node, EntryFor(name, x, FT_DIR))
  {
    TreeAt(img, d);
    TreeAt(img, x);
    GoodTree(img);
    GoodMounted(img);
    NameIsNew(Tree(img), d, name);
    EntryForIs(name, x, FT_DIR);
  }

  /** The number and the block are got before the directory is touched; without room for the entry they go back. */
  method MakeDir(v: Volume, d: u32, name: seq<Byte>, now: u64) returns (r: Result<u32>)
    requires Good(v.img) && InUse(v.img, d) && IsDir(v.img.inodes[d]) && GoodName(name) && Unnamed(v.img, d, name)
    requires v.img.inodes[d].links < 0xFFFF
    requires v.Covered()
    modifies v
    ensures v.Covered()
    ensures old(Tidy(v.img)) ==> Tidy(v.img)
    ensures Good(v.img) && Adds(old(v.wrote), v.wrote, 12)
    ensures r.Err? ==> v.img == old(v.img) && NoRoom(v.img, d, 1, r.code)
    ensures r.Ok? ==>
              && LowestFree(old(v.img.inodeBits), |old(v.img.inodes)|, r.value)
              && Spared(old(v.img), v.img, {d, r.value}) && InUse(v.img, r.value)
              && HasNewDir(old(v.img), v.img, d, r.value, name)
              && IsNewDir(v.img.inodes[r.value], r.value, now)
              && d < |v.img.inodes| && v.img.inodes[d].mtime == now
              && v.img.inodes[d].links == old(v.img.inodes[d].links) + 1
  {
    GoodMounted(v.img);
    ghost var img := v.img;
    AddsNone(v.wrote, 12);
    var id := v.AllocInode();
    if id.Err? {
      return id;
    }
    var x := id.value;
    AddsMore(old(v.wrote), old(v.wrote), 0, InodeBitHome(img.sb, x));
    var block := v.AllocBlock();
    if block.Err? {
      NoBlock(img, d, x);
      AddsMore(old(v.wrote), v.wrote, 1, InodeBitHome(img.sb, x));
      var freed := v.FreeInode(x);
      return Err(block.code);
    }
    ghost var taken := v.wrote;
    AddsMore(old(v.wrote), old(v.wrote) + {InodeBitHome(img.sb, x)}, 1, BitHome(img.sb, block.value));
    BlockFree(img, x, block.value);
    var added, dir1 := AddOrUndo(v, d, x, block.value, EntryFor(name, x, FT_DIR), img);
    AddsTwice(old(v.wrote), taken, v.wrote, 2, if added.Ok? then 6 else 8);
    if added.Err? {
      return Err(added.code);
    }
    taken := v.wrote;
    FinishDir(v, d, x, block.value, dir1, name, now, img);
    AddsTwice(old(v.wrote), taken, v.wrote, 8, 3);
    r := id;
  }

  /** The new directory's block and the two inodes, once its entry is in. */
  method FinishDir(v: Volume, d: u32, x: u32, block: u32, dir1: Inode, name: seq<Byte>, now: u64, ghost img: Image)
    requires Good(img) && InUse(img, d) && IsDir(img.inodes[d]) && 0 < x < |img.inodes| && x !in img.inodeBits
    requires img.sb.dataStart <= block < img.sb.totalBlocks && block !in img.blockBits
    requires Extended(img.(inodeBits := img.inodeBits + {x}, blockBits := img.blockBits + {block}), img.inodes[d],
             v.img, dir1)
    requires WholeDir(v.img, dir1) && SameButSize(img.inodes[d], dir1) && dir1.links < 0xFFFF
    requires GoodName(name) && Unnamed(img, d, name)
    requires exists i :: Inserted(Slots(img.blocks, img.inodes[d]), Slots(v.img.blocks, dir1), i,
             EntryFor(name, x, FT_DIR))
    requires v.Covered()
    modifies v
    ensures v.Covered()
    ensures Good(v.img) && (Tidy(img) ==> Tidy(v.img)) && Spared(img, v.img, {d as nat, x as nat}) && InUse(v.img, x)
    ensures HasNewDir(img, v.img, d, x, name) && Adds(old(v.wrote), v.wrote, 3)
    ensures IsNewDir(v.img.inodes[x], x, now) && d < |v.img.inodes| && v.img.inodes[d].mtime == now
    ensures v.img.inodes[d].links == img.inodes[d].links + 1
  {
    AddsThree(v.wrote, block, InodeHome(img.sb, x), InodeHome(img.sb, d));
    DirMade(img, d, x, block, v.img, dir1, name, now);
    TidyMade(img, d, x, block, v.img, dir1, now);
    DiskShape(img);
    MadeInodes(img, d, x, block, v.img, dir1, now);
    ghost var made := MadeImage(v.img, d, dir1, x, block, now);
    v.DirInit(block, x, d);
    v.WriteInode(x, NewDir(x, block, now));
    v.WriteInode(d, dir1.(links := dir1.links + 1, mtime := now));
    assert v.img == made;
  }

  lemma MadeInodes(img: Image, d: u32, x: u32, block: u32, mid: Image, dir1: Inode, now: u64)
    requires InUse(img, d) && x !in img.inodeBits && 0 < block < |mid.blocks| && d < |mid.inodes| && x < |mid.inodes|
    requires SameButSize(img.inodes[d], dir1) && dir1.links < 0xFFFF
    ensures var img' := MadeImage(mid, d, dir1, x, block, now);
            && x < |img'.inodes| && d < |img'.inodes| && IsNewDir(img'.inodes[x], x, now)
            && img'.inodes[d].mtime == now && img'.inodes[d].links == img.inodes[d].links + 1
  {
  }

  lemma CreatedInodes(img: Image, d: nat, x: u32, mid: Image, dir1: Inode, now: u64)
    requires InUse(img, d) && x !in img.inodeBits && d < |mid.inodes| && x < |mid.inodes|
    ensures var img' := CreatedImage(mid, d, dir1, x, now);
            && x < |img'.inodes| && d < |img'.inodes| && IsNewFile(img'.inodes[x], x, now)
            && img'.inodes[d].mtime == now
  {
  }

  lemma NoBlock(img: Image, d: nat, x: nat)
    requires d < |img.inodes| && x !in img.inodeBits && Unused(img.(inodeBits := img.inodeBits + {x})) == {}
    ensures NoRoom(img, d, 1, ENOSPC) && img.inodeBits + {x} - {x} == img.inodeBits
  {
    assert Unused(img.(inodeBits := img.inodeBits + {x})) == Unused(img);
  }

  lemma BlockFree(img: Image, x: nat, b: nat)
    requires b < img.sb.totalBlocks && b !in img.blockBits
    ensures b in Unused(img)
  {
  }

  /** The entry is added, or the inode and the block taken for it go back. */
  method AddOrUndo(v: Volume, d: nat, x: u32, block: u32, e: Entry, ghost img: Image)
    returns (r: Result<()>, dir1: Inode)
    requires Good(img) && InUse(img, d) && IsDir(img.inodes[d]) && Mounted(v.img)
    requires 0 < x < |img.inodes| && x !in img.inodeBits && block in Unused(img) && img.sb.dataStart <= block
    requires v.img == img.(inodeBits := img.inodeBits + {x}, blockBits := img.blockBits + {block})
    requires v.Covered()
    modifies v
    ensures v.Covered()
    ensures Adds(old(v.wrote), v.wrote, if r.Ok? then 6 else 8)
    ensures r.Err? ==> v.img == img && NoRoom(img, d, 1, r.code)
    ensures r.Ok? ==>
              && Extended(old(v.img), img.inodes[d], v.img, dir1) && WholeDir(v.img, dir1)
                 && SameButSize(img.inodes[d], dir1)
              && exists i :: Inserted(Slots(img.blocks, img.inodes[d]), Slots(v.img.blocks, dir1), i, e)
  {
    TakenDir(img, d, x, {block});
    r, dir1 := v.DirAdd(v.img.inodes[d], e);
    if r.Err? {
      PutBack(img, x, block);
      StillNoRoom(img, d, x, block, r.code);
      AddsMore(old(v.wrote), v.wrote, 6, BitHome(img.sb, block));
      AddsMore(old(v.wrote), v.wrote + {BitHome(img.sb, block)}, 7, InodeBitHome(img.sb, x));
      assert BitHomes(img.sb, Members([block])) == {BitHome(img.sb, block)} by { OneMember([block]); }
      var freed := v.FreeBlocks([block]);
      freed := v.FreeInode(x);
    }
  }

  lemma NoRoomFile(img: Image, d: nat, x: nat, code: Code)
    requires d < |img.inodes| && x !in img.inodeBits
    requires var taken := img.(inodeBits := img.inodeBits + {x});
             var dir := img.inodes[d];
             var n := dir.size / BLOCK_SIZE;
             && (forall i :: 0 <= i < |Slots(img.blocks, dir)| ==> Slots(img.blocks, dir)[i].inode != 0)
             && if n >= MAX_FILE_BLOCKS then code == EFBIG
                else code == ENOSPC && |Unused(taken)| < Needed(img.blocks, dir, n)
    ensures NoRoom(img, d, 0, code) && img.inodeBits + {x} - {x} == img.inodeBits
  {
    assert Unused(img.(inodeBits := img.inodeBits + {x})) == Unused(img);
  }

  lemma PutBack(img: Image, x: nat, b: nat)
    requires x !in img.inodeBits && b !in img.blockBits && img.sb.dataStart <= b < img.sb.totalBlocks
    ensures img.inodeBits + {x} - {x} == img.inodeBits
    ensures img.blockBits + {b} - Members([b]) == img.blockBits
    ensures Freeable(img.(inodeBits := img.inodeBits + {x}, blockBits := img.blockBits + {b}), [b])
  {
    OneMember([b]);
  }

  lemma StillNoRoom(img: Image, d: nat, x: nat, b: nat, code: Code)
    requires d < |img.inodes| && b in Unused(img)
    requires var taken := img.(inodeBits := img.inodeBits + {x}, blockBits := img.blockBits + {b});
             var dir := img.inodes[d];
             var n := dir.size / BLOCK_SIZE;
             && (forall i :: 0 <= i < |Slots(img.blocks, dir)| ==> Slots(img.blocks, dir)[i].inode != 0)
             && if n >= MAX_FILE_BLOCKS then code == EFBIG
                else code == ENOSPC && |Unused(taken)| < Needed(img.blocks, dir, n)
    ensures NoRoom(img, d, 1, code)
  {
    OneFewer(img, b);
    assert Unused(img.(inodeBits := img.inodeBits + {x}, blockBits := img.blockBits + {b}))
        == Unused(img.(blockBits := img.blockBits + {b}));
  }

  lemma OneFewer(img: Image, b: nat)
    requires b in Unused(img)
    ensures |Unused(img.(blockBits := img.blockBits + {b}))| == |Unused(img)| - 1
  {
    assert Unused(img.(blockBits := img.blockBits + {b})) == Unused(img) - {b};
  }

  // -------------------------------------------------- unlink and rmdir

  /** The entry called name is gone from d, and with it the inode x and all its blocks. */
  ghost predicate HasLost(img: Image, img': Image, d: nat, x: nat, name: seq<Byte>) {
    && d in Tree(img) && Tree(img)[d].Dir? && x in Tree(img)
    && (Tree(img)[x].Dir? ==> Tree(img)[d].links >= 1)
    && exists i ::
         && 0 <= i < |Tree(img)[d].slots| && IsNamed(Tree(img)[d].slots[i], name) && Removable(Tree(img), d, i, x)
         && Tree(img') == Removed(Tree(img), d, i, x)
  }

  lemma EntryGone(img: Image, d: nat, x: nat, mid: Image, dir2: Inode, name: seq<Byte>, i: nat)
    requires Good(img) && InUse(img, d) && IsDir(img.inodes[d]) && GoodName(name)
    requires Extended(img, img.inodes[d], mid, img.inodes[d]) && WholeDir(mid, img.inodes[d])
    requires i < |Slots(img.blocks, img.inodes[d])| && IsNamed(Slots(img.blocks, img.inodes[d])[i], name)
    requires Slots(img.blocks, img.inodes[d])[i].inode == x < |img.inodes|
    requires Slots(mid.blocks, img.inodes[d]) == Slots(img.blocks, img.inodes[d])[i := ZERO_ENTRY]
    requires IsDir(img.inodes[x]) ==> forall k :: 2 <= k < |Slots(img.blocks, img.inodes[x])| ==>
             Slots(img.blocks, img.inodes[x])[k].inode == 0
    requires dir2 == img.inodes[d].(links := dir2.links, mtime := dir2.mtime)
    requires dir2.links == img.inodes[d].links - if IsDir(img.inodes[x]) then 1 else 0
    ensures d < |mid.inodes| && x < |mid.inodes| && 0 < x && Sound(mid, mid.inodes[x])
    ensures var img' := RemovedImage(mid, d, dir2, x, Owned(mid.blocks, mid.inodes[x]));
            Good(img') && Spared(img, img', {d, x}) && HasLost(img, img', d, x, name) && !InUse(img', x)
  {
    TreeAt(img, d);
    TreeAt(img, x);
    GoodTree(img);
    GoodMounted(img);
    NameIsThere(Tree(img), d, name, i);
    RemovedApart(Tree(img), d, i, x);
    LinksLeft(img, d, x, mid, dir2, i);
    RemovedGood(img, d, x, mid, dir2, i);
    RemovingApart(img, d, x, mid, dir2);
    GoodSound(img, x);
    SoundStays(img, d, x, mid, dir2);
  }

  lemma LinksLeft(img: Image, d: nat, x: nat, mid: Image, dir2: Inode, i: nat)
    requires Good(img) && InUse(img, d) && IsDir(img.inodes[d]) && InUse(img, x) && x != d
    requires Extended(img, img.inodes[d], mid, img.inodes[d]) && WholeDir(mid, img.inodes[d])
    requires dir2 == img.inodes[d].(links := dir2.links, mtime := dir2.mtime)
    requires dir2.links == img.inodes[d].links - if IsDir(img.inodes[x]) then 1 else 0
    requires Removable(Tree(img), d, i, x)
    ensures Removing(img, d, x, mid, dir2)
  {
    TreeAt(img, d);
    TreeAt(img, x);
    GoodTree(img);
    RuleAt(img, d);
    if IsDir(img.inodes[x]) {
      TwoLinks(Tree(img), d, i, x);
    }
  }

  lemma SoundStays(img: Image, d: nat, x: nat, mid: Image, dir2: Inode)
    requires Good(img) && Removing(img, d, x, mid, dir2) && InUse(img, x) && Sound(img, img.inodes[x])
    ensures Sound(mid, img.inodes[x])
  {
    RemovingApart(img, d, x, mid, dir2);
    SamePointersOk(img.blocks, mid.blocks, img.inodes[x], img.sb.dataStart, img.sb.totalBlocks);
  }

  /** Slot i is the first of d's with this name. */
  predicate FirstAt(blocks: seq<Block>, dir: Inode, name: seq<Byte>, i: nat) {
    && i < |Slots(blocks, dir)| && IsNamed(Slots(blocks, dir)[i], name)
    && forall j :: 0 <= j < i ==> !IsNamed(Slots(blocks, dir)[j], name)
  }

  /** The name leads to inode x, and that may be removed: a file, or an empty directory. */
  ghost predicate Leads(img: Image, d: nat, name: seq<Byte>, x: nat) {
    && InUse(img, d) && IsDir(img.inodes[d]) && GoodName(name) && x < |img.inodes|
    && (exists i: nat :: FirstAt(img.blocks, img.inodes[d], name, i) && Slots(img.blocks, img.inodes[d])[i].inode == x)
    && (IsDir(img.inodes[x]) ==>
          forall k :: 2 <= k < |Slots(img.blocks, img.inodes[x])| ==> Slots(img.blocks, img.inodes[x])[k].inode == 0)
  }

  lemma LeadsTo(img: Image, d: nat, name: seq<Byte>, x: nat) returns (i: nat)
    requires Good(img) && Leads(img, d, name, x)
    ensures FirstAt(img.blocks, img.inodes[d], name, i) && Slots(img.blocks, img.inodes[d])[i].inode == x
    ensures InUse(img, x) && x != d && (IsDir(img.inodes[x]) ==> img.inodes[d].links >= 2)
  {
    var n: nat :| FirstAt(img.blocks, img.inodes[d], name, n) && Slots(img.blocks, img.inodes[d])[n].inode == x;
    i := n;
    TreeAt(img, d);
    TreeAt(img, x);
    GoodTree(img);
    GoodMounted(img);
    NameIsThere(Tree(img), d, name, i);
    RemovedApart(Tree(img), d, i, x);
    if IsDir(img.inodes[x]) {
      TwoLinks(Tree(img), d, i, x);
    }
  }

  function WithoutEntry(dir: Inode, ino: Inode, now: u64): Inode
    requires IsDir(ino) ==> dir.links >= 1
  {
    dir.(links := if IsDir(ino) then dir.links - 1 else dir.links, mtime := now)
  }

  /** After the entry is zeroed, the rest of the removal leaves a consistent image. */
  lemma EntryRemoved(img: Image, d: nat, x: nat, mid: Image, name: seq<Byte>, now: u64)
    requires Good(img) && Leads(img, d, name, x)
    requires Extended(img, img.inodes[d], mid, img.inodes[d]) && WholeDir(mid, img.inodes[d])
    requires exists i: nat :: FirstAt(img.blocks, img.inodes[d], name, i)
                         && Slots(mid.blocks, img.inodes[d]) == Slots(img.blocks, img.inodes[d])[i := ZERO_ENTRY]
    ensures IsDir(img.inodes[x]) ==> img.inodes[d].links >= 1
    ensures d < |mid.inodes| && 0 < x < |mid.inodes| && mid.inodes[x] == img.inodes[x] && Sound(mid, mid.inodes[x])
    ensures x in mid.inodeBits && |mid.blocks| == |img.blocks| && mid.sb == img.sb
    ensures var img' := RemovedImage(mid, d, WithoutEntry(img.inodes[d], img.inodes[x], now), x,
            Owned(mid.blocks, mid.inodes[x]));
            Good(img') && Spared(img, img', {d, x}) && HasLost(img, img', d, x, name) && !InUse(img', x)
  {
    var i := LeadsTo(img, d, name, x);
    var k: nat :| FirstAt(img.blocks, img.inodes[d], name, k)
             && Slots(mid.blocks, img.inodes[d]) == Slots(img.blocks, img.inodes[d])[k := ZERO_ENTRY];
    assert k == i;
    EntryGone(img, d, x, mid, WithoutEntry(img.inodes[d], img.inodes[x], now), name, i);
    assert ExtendedTo(img, img.inodes[d], mid, img.inodes[d]);
  }

  /** The blocks of another inode are not the directory's: what it owns is unchanged. */
  lemma OwnedStays(img: Image, d: nat, x: nat, mid: Image)
    requires Good(img) && InUse(img, d) && InUse(img, x) && x != d
    requires Extended(img, img.inodes[d], mid, img.inodes[d])
    ensures Owned(mid.blocks, img.inodes[x]) == Owned(img.blocks, img.inodes[x]) && mid.sb == img.sb
  {
    assert ExtendedTo(img, img.inodes[d], mid, img.inodes[d]);
    GoodSound(img, x);
    ApartAt(img, d, x);
    var s := Owned(mid.blocks, img.inodes[d]);
    forall b | b in s ensures !Owns(img.blocks, img.inodes[x], b) {
      if Owns(img.blocks, img.inodes[x], b) {
        OwnedRange(img, x, b);
      }
    }
    SameFiles(img.blocks, mid.blocks, s, img.inodes[x]);
    SameFacts(img.blocks, mid.blocks, img.inodes[x]);
  }

  /** Takes the entry out, and frees the inode it named and all its blocks. */
  method RemoveEntry(v: Volume, d: nat, x: nat, name: seq<Byte>, now: u64)
    requires Good(v.img) && Leads(v.img, d, name, x)
    requires v.Covered()
    modifies v
    ensures v.Covered()
    ensures old(Tidy(v.img)) ==> Tidy(v.img)
    ensures Good(v.img) && Spared(old(v.img), v.img, {d, x}) && HasLost(old(v.img), v.img, d, x, name)
            && !InUse(v.img, x)
    ensures d < |v.img.inodes| && v.img.inodes[d].mtime == now
    ensures exists b: nat :: b >= v.img.sb.dataStart && v.wrote == old(v.wrote) + Removal(old(v.img), d, x, b)
  {
    GoodMounted(v.img);
    ghost var img := v.img;
    var dir, ino := v.img.inodes[d], v.img.inodes[x];
    TakenDir(img, d, 0, {});
    ghost var i := LeadsTo(img, d, name, x);
    var found := v.DirRemove(dir, name);
    EntryRemoved(img, d, x, v.img, name, now);
    TidyRemoved(img, d, x, v.img, now);
    OwnedStays(img, d, x, v.img);
    ghost var b: nat :| b >= img.sb.dataStart && v.wrote == old(v.wrote) + {b};
    var freed, empty := v.FreeAllBlocks(ino);
    v.WriteInode(x, ZERO_INODE);
    freed := v.FreeInode(x);
    v.WriteInode(d, WithoutEntry(dir, ino, now));
    RemovalIs(old(v.wrote), img, d, x, b);
  }

  /** What a removal writes: the entry's block, the bitmap blocks with the bits it clears, and the two inodes. */
  ghost function Removal(img: Image, d: nat, x: nat, b: nat): set<nat>
    requires x < |img.inodes|
  {
    BitHomes(img.sb, Owned(img.blocks, img.inodes[x]))
        + {b, InodeHome(img.sb, x), InodeBitHome(img.sb, x), InodeHome(img.sb, d)}
  }

  lemma RemovalIs(was: set<nat>, img: Image, d: nat, x: nat, b: nat)
    requires x < |img.inodes|
    ensures was + {b} + BitHomes(img.sb, Owned(img.blocks, img.inodes[x])) + {InodeHome(img.sb, x)}
            + {InodeBitHome(img.sb, x)}
              + {InodeHome(img.sb, d)} == was + Removal(img, d, x, b)
  {
  }

  /** d's entry called name holds inode number x. */
  ghost predicate NameOf(img: Image, d: nat, name: seq<Byte>, x: nat) {
    && InUse(img, d) && IsDir(img.inodes[d])
    && exists i: nat :: FirstAt(img.blocks, img.inodes[d], name, i) && Slots(img.blocks, img.inodes[d])[i].inode == x
  }

  /** What a lookup found is an inode in use, of the kind its entry says. */
  lemma FoundIs(img: Image, d: nat, name: seq<Byte>, x: nat, kind: u8)
    requires Good(img) && InUse(img, d) && IsDir(img.inodes[d]) && GoodName(name) && x != 0
    requires exists i: nat ::
               && FirstAt(img.blocks, img.inodes[d], name, i) && Slots(img.blocks, img.inodes[d])[i].inode == x
               && Slots(img.blocks, img.inodes[d])[i].kind == kind
    ensures NameOf(img, d, name, x) && InUse(img, x) && x in Tree(img)
            && Tree(img)[x] == NodeOf(img.blocks, img.inodes[x])
    ensures (kind == FT_DIR) == IsDir(img.inodes[x])
  {
    var i: nat :| FirstAt(img.blocks, img.inodes[d], name, i) && Slots(img.blocks, img.inodes[d])[i].inode == x
             && Slots(img.blocks, img.inodes[d])[i].kind == kind;
    TreeAt(img, d);
    TreeAt(img, x);
    GoodTree(img);
    GoodMounted(img);
    NameIsThere(Tree(img), d, name, i);
  }

  method Find(v: Volume, d: nat, name: seq<Byte>) returns (x: u32, kind: u8)
    requires Good(v.img) && InUse(v.img, d) && IsDir(v.img.inodes[d]) && GoodName(name)
    ensures x == 0 <==> Unnamed(v.img, d, name)
    ensures x != 0 ==>
              && NameOf(v.img, d, name, x) && InUse(v.img, x) && x in Tree(v.img)
              && Tree(v.img)[x] == NodeOf(v.img.blocks, v.img.inodes[x]) && (kind == FT_DIR) == IsDir(v.img.inodes[x])
  {
    GoodMounted(v.img);
    TakenDir(v.img, d, 0, {});
    x, kind := v.DirLookup(v.img.inodes[d], name);
    if x != 0 {
      ghost var i: nat :| i < |Slots(v.img.blocks, v.img.inodes[d])|
          && IsNamed(Slots(v.img.blocks, v.img.inodes[d])[i], name)
            && Slots(v.img.blocks, v.img.inodes[d])[i].inode == x
               && Slots(v.img.blocks, v.img.inodes[d])[i].kind == kind
            && forall j :: 0 <= j < i ==> !IsNamed(Slots(v.img.blocks, v.img.inodes[d])[j], name);
      assert FirstAt(v.img.blocks, v.img.inodes[d], name, i);
      FoundIs(v.img, d, name, x, kind);
    }
  }

  // -------------------------------------------------- truncating and opening

  function EmptyInode(ino: Inode, now: u64): Inode {
    NoBlocks(ino).(size := 0, mtime := now)
  }

  ghost function TruncatedImage(img: Image, f: nat, now: u64): Image
    requires f < |img.inodes|
  {
    img.(blockBits := img.blockBits - Owned(img.blocks, img.inodes[f]),
        inodes := img.inodes[f := EmptyInode(img.inodes[f], now)])
  }

  lemma TruncatedSettled(img: Image, f: nat, now: u64)
    requires Good(img) && InUse(img, f) && img.inodes[f].mode == FILE_MODE
    ensures Settled(img, TruncatedImage(img, f, now), {f}) && Shaped(TruncatedImage(img, f, now))
  {
    var img' := TruncatedImage(img, f, now);
    GoodMounted(img);
    GoodSound(img, f);
    RuleAt(img, f);
    EmptyFile(img.blocks, img'.inodes[f]);
    assert RulesAt(img', f);
    forall id: nat | id < |img.inodes| && id !in {f} ensures SparedAt(img, img', id) {
    }
    forall b: nat | b < img.sb.totalBlocks
      ensures OwnedBy(img', {f}, b) ==> OwnedBy(img, {f}, b) || b !in img.blockBits
      ensures b in img'.blockBits <==> (b in img.blockBits && !OwnedBy(img, {f}, b)) || OwnedBy(img', {f}, b)
    {
      OwnedByOne(img, f, b);
      OwnedByOne(img', f, b);
      OwnsIn(img, img.inodes[f], b);
      assert b !in Owned(img.blocks, img'.inodes[f]);
    }
  }

  /** A truncated file is empty, every block of it is free, and nothing else has changed. */
  lemma TruncatedGood(img: Image, f: nat, now: u64)
    requires Good(img) && InUse(img, f) && img.inodes[f].mode == FILE_MODE
    ensures var img' := TruncatedImage(img, f, now);
            && Good(img') && Tree(img') == Tree(img) && Spared(img, img', {f})
            && Contents(img'.blocks, img'.inodes[f]) == [] && ZeroTail(img'.blocks, img'.inodes[f])
  {
    var img' := TruncatedImage(img, f, now);
    TruncatedSettled(img, f, now);
    TreeChanges(img, img', {f});
    TreeAt(img, f);
    TreeAt(img', f);
    SameTrees(Tree(img), Tree(img'), f);
    GoodTree(img);
    SettledGood(img, img', {f});
    AllHoles(img'.blocks, img'.inodes[f]);
  }

  /** A file without pointers reads as zeros. */
  lemma AllHoles(blocks: seq<Block>, ino: Inode)
    requires ino.direct == ZERO_INODE.direct && ino.single == 0 && ino.double == 0
    ensures forall p: nat :: ByteAt(blocks, ino, p) == 0
  {
    forall k: nat ensures DataPtr(blocks, ino, k) == 0 {
    }
  }

  method Truncate(v: Volume, f: nat, now: u64)
    requires Good(v.img) && InUse(v.img, f) && v.img.inodes[f].mode == FILE_MODE && Tidy(v.img)
    requires v.Covered()
    modifies v
    ensures v.Covered()
    ensures Good(v.img) && Tree(v.img) == Tree(old(v.img)) && Spared(old(v.img), v.img, {f}) && InUse(v.img, f)
            && Tidy(v.img)
    ensures v.img.inodes[f].size == 0 && v.img.inodes[f].blockCount == 0 && v.img.inodes[f].mode == FILE_MODE
    ensures if old(v.img.inodes[f].size == 0 && v.img.inodes[f].blockCount == 0) then v.img == old(v.img)
            else v.img.inodes[f].mtime == now
    ensures var homes := BitHomes(v.img.sb, Owned(old(v.img.blocks), old(v.img.inodes[f])));
            Adds(old(v.wrote), v.wrote, |homes| + 1)
  {
    AddsNone(v.wrote, 0);
    ghost var homes := BitHomes(v.img.sb, Owned(v.img.blocks, v.img.inodes[f]));
    AddsSome(v.wrote, v.wrote, 0, homes);
    AddsMore(v.wrote, v.wrote + homes, |homes|, InodeHome(v.img.sb, f));
    AddsNone(v.wrote, |homes| + 1);
    GoodMounted(v.img);
    GoodSound(v.img, f);
    var ino := v.img.inodes[f];
    ghost var img := v.img;
    if ino.size != 0 || ino.blockCount != 0 {
      TruncatedGood(img, f, now);
      TidyKept(img, TruncatedImage(img, f, now), {f});
      var freed, empty := v.FreeAllBlocks(ino);
      v.WriteInode(f, empty.(size := 0, mtime := now));
    } else {
      SparedAll(img, {f});
    }
  }

  lemma SparedAll(img: Image, ids: set<nat>)
    ensures Spared(img, img, ids)
  {
    forall id: nat | id < |img.inodes| && id !in ids ensures SparedAt(img, img, id) {
    }
  }

  lemma TidyCreated(img: Image, d: nat, x: u32, mid: Image, dir1: Inode, now: u64)
    requires d < |mid.inodes| && x < |mid.inodes| && d != x && IsDir(dir1)
    requires Spared(img, CreatedImage(mid, d, dir1, x, now), {d, x})
    ensures Tidy(img) ==> Tidy(CreatedImage(mid, d, dir1, x, now))
  {
    if Tidy(img) {
      AllHoles(mid.blocks, NewInode(x, FILE_MODE, 1, now));
      TidyKept(img, CreatedImage(mid, d, dir1, x, now), {d, x});
    }
  }

  lemma TidyMade(img: Image, d: u32, x: u32, block: u32, mid: Image, dir1: Inode, now: u64)
    requires d < |mid.inodes| && x < |mid.inodes| && block < |mid.blocks| && dir1.links < 0xFFFF && IsDir(dir1)
             && d != x
    requires Spared(img, MadeImage(mid, d, dir1, x, block, now), {d, x})
    ensures Tidy(img) ==> Tidy(MadeImage(mid, d, dir1, x, block, now))
  {
    if Tidy(img) {
      TidyKept(img, MadeImage(mid, d, dir1, x, block, now), {d, x});
    }
  }

  lemma TidyRemoved(img: Image, d: nat, x: nat, mid: Image, now: u64)
    requires d < |mid.inodes| && x < |mid.inodes| && d < |img.inodes| && x < |img.inodes| && d != x
             && IsDir(img.inodes[d])
    requires IsDir(img.inodes[x]) ==> img.inodes[d].links >= 1
    requires Spared(img, RemovedImage(mid, d, WithoutEntry(img.inodes[d], img.inodes[x], now), x,
             Owned(mid.blocks, mid.inodes[x])), {d, x})
    ensures Tidy(img) ==>
              Tidy(RemovedImage(mid, d, WithoutEntry(img.inodes[d], img.inodes[x], now), x,
                  Owned(mid.blocks, mid.inodes[x])))
  {
    if Tidy(img) {
      TidyKept(img, RemovedImage(mid, d, WithoutEntry(img.inodes[d], img.inodes[x], now), x,
          Owned(mid.blocks, mid.inodes[x])), {d, x});
    }
  }

  /** The file x, emptied if asked, and nothing else changed. */
  ghost predicate Opened(img: Image, img': Image, x: nat, trunc: bool, now: u64) {
    && InUse(img, x) && InUse(img', x) && img'.inodes[x].mode == FILE_MODE && Tree(img') == Tree(img)
    && if !trunc || (img.inodes[x].size == 0 && img.inodes[x].blockCount == 0) then img' == img
       else && img'.inodes[x].size == 0 && img'.inodes[x].blockCount == 0 && img'.inodes[x].mtime == now
            && Spared(img, img', {x})
  }

  /** d is a directory without an entry of this name. */
  predicate LacksName(img: Image, d: nat, name: seq<Byte>) {
    d < |img.inodes| && IsDir(img.inodes[d]) && Unnamed(img, d, name)
  }
}
