/** When a removal stays within an operation's limit, and a file whose removal does not. */
module WideFile {
  import opened Layout
  import opened Codec
  import opened Superblocks
  import opened NameTree
  import opened DiskImage
  import opened FileGrowth
  import opened DirSlots
  import opened TreeOps
  import opened ImageUpdate
  import opened ImageOps
  import opened Charges
  import opened DiskFormat
  import opened OpLimit
  import opened Calls
  import opened Mkfs

  // ------------------------------------------------------- how much it writes

  /** The four things besides the bitmap blocks are in regions of their own. */
  lemma RemovalSize(img: Image, d: nat, x: nat, b: nat)
    requires Good(img) && InUse(img, d) && InUse(img, x) && b >= img.sb.dataStart
    ensures var homes := BitHomes(img.sb, Owned(img.blocks, img.inodes[x]));
            |Removal(img, d, x, b)| == |homes| + 2 + if InodeHome(img.sb, x) == InodeHome(img.sb, d) then 1 else 2
  {
    var homes := BitHomes(img.sb, Owned(img.blocks, img.inodes[x]));
    HomesWithin(img, x);
    Regions(img, d);
    Regions(img, x);
    var others := {b, InodeHome(img.sb, x), InodeBitHome(img.sb, x), InodeHome(img.sb, d)};
    assert homes !! others;
    assert Removal(img, d, x, b) == homes + others;
    FourOrThree(b, InodeHome(img.sb, x), InodeBitHome(img.sb, x), InodeHome(img.sb, d));
  }

  lemma FourOrThree(b: nat, t: nat, i: nat, u: nat)
    requires b != t && b != i && b != u && t != i && u != i
    ensures |{b, t, i, u}| == if t == u then 3 else 4
  {
    if t == u {
      assert {b, t, i, u} == {b, t, i};
    }
  }

  lemma Regions(img: Image, id: nat)
    requires Good(img) && InUse(img, id)
    ensures img.sb.inodeBitmapStart <= InodeBitHome(img.sb, id) < img.sb.dataBitmapStart
    ensures img.sb.inodeTableStart <= InodeHome(img.sb, id) < img.sb.dataStart
    ensures img.sb.dataBitmapStart < img.sb.inodeTableStart
  {
    Parts(img);
    RegionsFit(img.sb, |img.blocks|);
    var sb := img.sb;
    DividesBelow(id, BITS_PER_BLOCK, sb.dataBitmapStart - sb.inodeBitmapStart);
    DividesBelow(id, INODES_PER_BLOCK, sb.dataStart - sb.inodeTableStart);
  }

  lemma HomesWithin(img: Image, x: nat)
    requires Good(img) && InUse(img, x)
    ensures forall h :: h in BitHomes(img.sb, Owned(img.blocks, img.inodes[x])) ==>
              img.sb.dataBitmapStart <= h < img.sb.inodeTableStart
  {
    Parts(img);
    RegionsFit(img.sb, |img.blocks|);
    forall h | h in BitHomes(img.sb, Owned(img.blocks, img.inodes[x]))
      ensures img.sb.dataBitmapStart <= h < img.sb.inodeTableStart
    {
      var b :| b in Owned(img.blocks, img.inodes[x]) && h == BitHome(img.sb, b);
      OwnedRange(img, x, b);
      DividesBelow(b, BITS_PER_BLOCK, img.sb.inodeTableStart - img.sb.dataBitmapStart);
    }
  }

  /**
   A removal keeps to the limit exactly when the file's blocks have their bits in few enough bitmap blocks; so every
   removal does on a disk with 60 bitmap blocks or fewer.
   */
  lemma RemovalFits(img: Image, d: nat, x: nat, b: nat)
    requires Good(img) && InUse(img, d) && InUse(img, x) && b >= img.sb.dataStart
    ensures var same := InodeHome(img.sb, x) == InodeHome(img.sb, d);
            |Removal(img, d, x, b)| <= MAX_OP_BLOCKS <==>
              |BitHomes(img.sb, Owned(img.blocks, img.inodes[x]))| <= MAX_OP_BLOCKS - if same then 3 else 4
    ensures img.sb.inodeTableStart - img.sb.dataBitmapStart <= MAX_OP_BLOCKS - 4 ==>
            |Removal(img, d, x, b)| <= MAX_OP_BLOCKS
  {
    RemovalSize(img, d, x, b);
    HomesWithin(img, x);
    Parts(img);
    RegionsFit(img.sb, |img.blocks|);
    Between(BitHomes(img.sb, Owned(img.blocks, img.inodes[x])), img.sb.dataBitmapStart, img.sb.inodeTableStart);
  }

  lemma {:induction false} Between(s: set<nat>, lo: nat, hi: nat)
    requires lo <= hi && forall h :: h in s ==> lo <= h < hi
    ensures |s| <= hi - lo
    decreases hi - lo
  {
    if lo < hi {
      Between(s - {lo}, lo + 1, hi);
      assert s <= s - {lo} + {lo};
      SmallerUnion(s, s - {lo}, {lo});
    } else {
      assert s == {};
    }
  }

  // ----------------------------------------------------- a disk with a new file

  const BITMAPS: nat := 70
  const TOTAL: u32 := 2293760       // as many blocks as 70 bitmap blocks have bits for
  const START: nat := 73
  const FILE: u32 := 2
  const NAME: seq<Byte> := [119, 105, 100, 101]

  function SmallTable(): Superblock {
    Superblock(MAGIC, BLOCK_SIZE, TOTAL, 32, 1, 2, 72, START, 1, 1, 0)
  }

  lemma TableIs()
    ensures PlanLayout(TOTAL, 32) == Planned(SmallTable()) && SuperblockOk(SmallTable(), TOTAL)
  {
    assert InodesFor(TOTAL, 32) == 32;
    assert BitmapBlocks(TOTAL) == BITMAPS && BitmapBlocks(32) == 1;
    PlanPasses(TOTAL, 32);
  }

  function FreshDisk(): Image {
    Image(SmallTable(), Zeros(BLOCK_SIZE - SUPERBLOCK_SIZE), {0, ROOT}, UpTo(START + 1),
          seq(32, id => if id == ROOT then NewDir(ROOT_INODE, START, 0) else ZERO_INODE),
          ZeroDisk(TOTAL)[START := FirstBlock(ROOT_INODE, ROOT_INODE)])
  }

  function UpTo(n: nat): (r: set<nat>)
    ensures forall b: nat :: b in r <==> b < n
  {
    if n == 0 then {} else UpTo(n - 1) + {n - 1}
  }

  function ZeroDisk(n: nat): (r: seq<Block>)
    ensures |r| == n && forall b :: 0 <= b < n ==> r[b] == ZERO_BLOCK
  {
    if n == 0 then [] else ZeroDisk(n - 1) + [ZERO_BLOCK]
  }

  lemma FreshDiskGood()
    ensures Good(FreshDisk())
  {
    TableIs();
    FreshImage(FreshDisk(), 0);
  }

  lemma NoSuchName(slots: seq<Entry>)
    requires FreshDir(slots, ROOT, ROOT)
    ensures forall k :: 0 <= k < |slots| ==> !IsNamed(slots[k], NAME)
  {
  }

  /** A file with no blocks, made in the root: its entry goes into the first free slot of the one block there is. */
  function WithNew(img: Image, now: u64): Image
    requires ROOT < |img.inodes| && FILE < |img.inodes| && START < |img.blocks|
  {
    CreatedImage(Entered(img), ROOT, img.inodes[ROOT], FILE, now)
  }

  function Entered(img: Image): Image
    requires START < |img.blocks|
  {
    img.(inodeBits := img.inodeBits + {FILE as nat},
         blocks := img.blocks[START := PutSlot(img.blocks[START], 2, EntryFor(NAME, FILE, FT_FILE))])
  }

  lemma NewIsGood(img: Image, now: u64)
    requires Good(img) && InUse(img, ROOT) && IsDir(img.inodes[ROOT]) && FILE < |img.inodes| && FILE !in img.inodeBits
    requires Unnamed(img, ROOT, NAME) && |Slots(img.blocks, img.inodes[ROOT])| > 2
             && img.inodes[ROOT].size >= BLOCK_SIZE
    requires Slots(img.blocks, img.inodes[ROOT])[2].inode == 0 && DataPtr(img.blocks, img.inodes[ROOT], 0) == START
    ensures START < |img.blocks| && Good(WithNew(img, now)) && InUse(WithNew(img, now), FILE)
    ensures WithNew(img, now).inodes[FILE] == NewInode(FILE, FILE_MODE, 1, now)
  {
    var dir, e := img.inodes[ROOT], EntryFor(NAME, FILE, FT_FILE);
    var taken := img.(inodeBits := img.inodeBits + {FILE as nat});
    assert img.blockBits + {} == img.blockBits;
    TakenDir(img, ROOT, FILE, {});
    DiskShape(img);
    PutEntry(taken, dir, 0, 2, e);
    InPlace(Slots(img.blocks, dir), 2, e);
    FileCreated(img, ROOT, FILE, Entered(img), dir, NAME, now);
  }

  lemma FreshDiskFits()
    ensures var img := FreshDisk();
            && Good(img) && InUse(img, ROOT) && IsDir(img.inodes[ROOT]) && Unnamed(img, ROOT, NAME)
            && |Slots(img.blocks, img.inodes[ROOT])| > 2 && Slots(img.blocks, img.inodes[ROOT])[2].inode == 0
  {
    var img := FreshDisk();
    FreshDiskGood();
    FreshSlots(img.blocks, ROOT_INODE, ROOT_INODE, START, 0);
    NoSuchName(Slots(img.blocks, img.inodes[ROOT]));
  }

  function WithFile(): (img: Image)
    ensures img.sb == SmallTable() && img.blockBits == UpTo(START + 1) && |img.blocks| == TOTAL
  {
    WithNew(FreshDisk(), 0)
  }

  lemma WithFileGood()
    ensures Good(WithFile()) && InUse(WithFile(), FILE) && WithFile().inodes[FILE] == NewInode(FILE, FILE_MODE, 1, 0)
  {
    FreshDiskFits();
    NewIsGood(FreshDisk(), 0);
  }

  // -------------------------------------------------- its blocks far from one another

  const WIDE: nat := 65
  const TOP: u32 := 80

  /** One block in every bitmap block's stretch of the disk but the first. */
  function Far(k: nat): nat { (k + 1) * BITS_PER_BLOCK + 100 }

  /** An indirect block with the first n of them. */
  function Table(n: nat): Block
    requires n <= WIDE
  {
    if n == 0 then ZERO_BLOCK else PutWord(Table(n - 1), n - 1, Far(n - 1))
  }

  lemma {:induction false} TableAt(n: nat, i: nat)
    requires n <= WIDE && i < PTRS_PER_BLOCK
    ensures Word(Table(n), i) == if i < n then Far(i) else 0
  {
    if n == 0 {
      WordOfZero(i);
    } else {
      TableAt(n - 1, i);
      WordOfPut(Table(n - 1), n - 1, Far(n - 1), i);
    }
  }

  /** The indirect block and the first n. */
  function FarBlocks(n: nat): set<nat> {
    if n == 0 then {TOP as nat} else FarBlocks(n - 1) + {Far(n - 1)}
  }

  predicate IsFar(n: nat, b: nat) {
    b == TOP || exists k: nat :: k < n && Far(k) == b
  }

  lemma {:induction false} FarIn(n: nat, b: nat)
    ensures b in FarBlocks(n) <==> IsFar(n, b)
  {
    if n > 0 {
      FarIn(n - 1, b);
      if IsFar(n, b) && b != TOP {
        var k: nat :| k < n && Far(k) == b;
        assert k == n - 1 || IsFar(n - 1, b);
      }
    }
  }

  lemma FarHome(k: nat)
    ensures BitHome(SmallTable(), Far(k)) == 3 + k
    ensures BitHome(SmallTable(), TOP) == 2
  {
    assert Far(k) == (k + 1) * BITS_PER_BLOCK + 100;
    assert Far(k) / BITS_PER_BLOCK == k + 1;
  }

  lemma {:induction false} FarCount(n: nat)
    ensures |FarBlocks(n)| == n + 1 && |BitHomes(SmallTable(), FarBlocks(n))| == n + 1
    ensures forall h :: h in BitHomes(SmallTable(), FarBlocks(n)) ==> h < 3 + n
  {
    if n == 0 {
      FarHome(0);
      assert BitHomes(SmallTable(), {TOP as nat}) == {2};
    } else {
      FarCount(n - 1);
      FarHome(n - 1);
      var less := FarBlocks(n - 1);
      assert Far(n - 1) !in less by {
        assert Far(n - 1) in less ==> BitHome(SmallTable(), Far(n - 1)) in BitHomes(SmallTable(), less);
      }
      HomesMore(SmallTable(), less, Far(n - 1));
    }
  }

  function WideInode(ino: Inode, n: nat): Inode
    requires n <= WIDE
  {
    ino.(single := TOP, blockCount := n + 1, size := (DIRECT_PTRS + n) * BLOCK_SIZE)
  }

  function WithBlocks(img: Image, n: nat): Image
    requires TOP < |img.blocks| && n <= WIDE
  {
    img.(blocks := img.blocks[TOP := Table(n)], blockBits := img.blockBits + FarBlocks(n))
  }

  /** The file's pointers. */
  function WidePtr(p: Place, n: nat): nat {
    match p
    case Single => TOP
    case Data(i) => if DIRECT_PTRS <= i < DIRECT_PTRS + n then Far(i - DIRECT_PTRS) else 0
    case _ => 0
  }

  lemma WidePointer(blocks: seq<Block>, ino: Inode, p: Place, n: nat)
    requires n <= WIDE && TOP < |blocks| && blocks[TOP] == Table(n) && IsPlace(p)
    requires ino.direct == ZERO_INODE.direct && ino.single == TOP && ino.double == 0
    ensures PtrAt(blocks, ino, p) == WidePtr(p, n)
  {
    if p.Data? {
      WideData(blocks, ino, p.index, n);
    }
  }

  lemma WideData(blocks: seq<Block>, ino: Inode, i: nat, n: nat)
    requires n <= WIDE && TOP < |blocks| && blocks[TOP] == Table(n) && i < MAX_FILE_BLOCKS
    requires ino.direct == ZERO_INODE.direct && ino.single == TOP && ino.double == 0
    ensures DataPtr(blocks, ino, i) == WidePtr(Data(i), n)
  {
    if i < DIRECT_PTRS {
    } else if i < DIRECT_PTRS + PTRS_PER_BLOCK {
      TableAt(n, i - DIRECT_PTRS);
    } else {
      assert Entry32(blocks, ino.double, (i - DIRECT_PTRS - PTRS_PER_BLOCK) / PTRS_PER_BLOCK) == 0;
    }
  }

  lemma WidePlaces(p: Place, q: Place, n: nat)
    requires n <= WIDE && IsPlace(p) && IsPlace(q)
    ensures WidePtr(p, n) != 0 ==> START <= WidePtr(p, n) < TOTAL && IsFar(n, WidePtr(p, n))
    ensures WidePtr(p, n) == WidePtr(q, n) != 0 ==> p == q
  {
  }

  lemma WideOwned(blocks: seq<Block>, ino: Inode, n: nat)
    requires n <= WIDE && TOP < |blocks| && blocks[TOP] == Table(n)
    requires ino.direct == ZERO_INODE.direct && ino.single == TOP && ino.double == 0
    ensures Owned(blocks, ino) == FarBlocks(n) && PointersOk(blocks, ino, START, TOTAL)
  {
    forall p | IsPlace(p) ensures PtrAt(blocks, ino, p) == WidePtr(p, n) {
      WidePointer(blocks, ino, p, n);
    }
    forall p, q | IsPlace(p) && IsPlace(q)
      ensures WidePtr(p, n) != 0 ==> START <= WidePtr(p, n) < TOTAL
      ensures WidePtr(p, n) == WidePtr(q, n) != 0 ==> p == q
    {
      WidePlaces(p, q, n);
    }
    forall b: nat ensures Owns(blocks, ino, b) <==> b in FarBlocks(n) {
      WideOwns(blocks, ino, b, n);
    }
  }

  lemma WideOwns(blocks: seq<Block>, ino: Inode, b: nat, n: nat)
    requires n <= WIDE && forall p :: IsPlace(p) ==> PtrAt(blocks, ino, p) == WidePtr(p, n)
    ensures Owns(blocks, ino, b) <==> b in FarBlocks(n)
  {
    FarIn(n, b);
    if Owns(blocks, ino, b) {
      var p :| IsPlace(p) && PtrAt(blocks, ino, p) == b;
      WidePlaces(p, p, n);
    }
    if b == TOP {
      assert PtrAt(blocks, ino, Single) == b;
    }
    if IsFar(n, b) && b != TOP {
      var k: nat :| k < n && Far(k) == b;
      assert PtrAt(blocks, ino, Data(DIRECT_PTRS + k)) == b;
    }
  }

  lemma WideSize(img: Image, ino: Inode, n: nat)
    requires n <= WIDE && TOP < |img.blocks| && ino.direct == ZERO_INODE.direct && ino.double == 0 && !IsDir(ino)
    ensures SizeRule(WithBlocks(img, n).blocks, WideInode(ino, n))
  {
    WideOwned(WithBlocks(img, n).blocks, WideInode(ino, n), n);
    FarCount(n);
    forall k: nat | DataPtr(WithBlocks(img, n).blocks, WideInode(ino, n), k) != 0
      ensures k * BLOCK_SIZE < (DIRECT_PTRS + n) * BLOCK_SIZE
    {
      WidePointer(WithBlocks(img, n).blocks, WideInode(ino, n), Data(k), n);
    }
  }

  lemma ExtendsBy(img: Image, ino: Inode, img': Image, ino': Inode, added: set<nat>)
    requires img' == img.(blocks := img'.blocks, blockBits := img.blockBits + added) && |img'.blocks| == |img.blocks|
    requires Owned(img.blocks, ino) == {} && Owned(img'.blocks, ino') == added && added !! img.blockBits
    requires PointersOk(img'.blocks, ino', img.sb.dataStart, img.sb.totalBlocks) && ino'.blockCount == |added|
    requires forall b: nat :: b < |img.blocks| && b !in added ==> img'.blocks[b] == img.blocks[b]
    ensures Extended(img, ino, img', ino')
  {
    assert ExtendedTo(img, ino, img', ino');
  }

  lemma WideExtends(img: Image, ino: Inode, n: nat)
    requires n <= WIDE && (forall b :: b in img.blockBits ==> b <= START) && |img.blocks| == TOTAL
             && img.sb == SmallTable()
    requires ino.direct == ZERO_INODE.direct && ino.single == 0 && ino.double == 0 && Owned(img.blocks, ino) == {}
    ensures Extended(img, ino, WithBlocks(img, n), WideInode(ino, n))
  {
    WideOwned(WithBlocks(img, n).blocks, WideInode(ino, n), n);
    FarCount(n);
    forall b | b in FarBlocks(n) ensures b !in img.blockBits {
      FarIn(n, b);
    }
    FarIn(n, TOP);
    ExtendsBy(img, ino, WithBlocks(img, n), WideInode(ino, n), FarBlocks(n));
  }

  /** The image that is left when the file has been given its indirect block and n others. */
  lemma SpreadFile(n: nat) returns (img: Image)
    requires n <= WIDE
    ensures Good(img) && InUse(img, FILE) && img.inodes[FILE].mode == FILE_MODE
    ensures |BitHomes(img.sb, Owned(img.blocks, img.inodes[FILE]))| == n + 1
  {
    WithFileGood();
    var was := WithFile();
    var ino := was.inodes[FILE];
    EmptyFile(was.blocks, ino);
    WideExtends(was, ino, n);
    WideSize(was, ino, n);
    FileWritten(was, FILE, WithBlocks(was, n), WideInode(ino, n));
    img := WithInode(WithBlocks(was, n), FILE, WideInode(ino, n));
    WideOwned(img.blocks, img.inodes[FILE], n);
    FarCount(n);
  }

  /** A consistent image with a file whose removal, or truncation, does not keep to the limit. */
  lemma TooWide(d: nat, b: nat) returns (img: Image)
    ensures Good(img) && InUse(img, FILE) && img.inodes[FILE].mode == FILE_MODE
    ensures |BitHomes(img.sb, Owned(img.blocks, img.inodes[FILE]))| > MAX_OP_BLOCKS
    ensures InUse(img, d) && b >= img.sb.dataStart ==> |Removal(img, d, FILE, b)| > MAX_OP_BLOCKS
  {
    img := SpreadFile(WIDE);
    if InUse(img, d) && b >= img.sb.dataStart {
      RemovalSize(img, d, FILE, b);
    }
  }
}
