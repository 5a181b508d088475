/** Which blocks of the disk an operation writes, and how many one chunk of a write can. */
module Charges {
  import opened Layout
  import opened Codec
  import opened Superblocks
  import opened DiskImage
  import opened BlockTree

  const WRITE_CHUNK_BLOCKS: nat := 16

  /** Where a block's bit, an inode's bit and an inode itself are kept. */
  function BitHome(sb: Superblock, b: nat): nat { sb.dataBitmapStart + b / BITS_PER_BLOCK }

  function InodeBitHome(sb: Superblock, id: nat): nat { sb.inodeBitmapStart + id / BITS_PER_BLOCK }

  function InodeHome(sb: Superblock, id: nat): nat { sb.inodeTableStart + id / INODES_PER_BLOCK }

  function BitHomes(sb: Superblock, bs: set<nat>): set<nat> {
    set b | b in bs :: BitHome(sb, b)
  }

  /** At most n block numbers have joined those written. */
  ghost predicate Adds(was: set<nat>, wrote: set<nat>, n: nat) {
    was <= wrote && |wrote - was| <= n
  }

  lemma AddsTwice(was: set<nat>, mid: set<nat>, wrote: set<nat>, m: nat, n: nat)
    requires Adds(was, mid, m) && Adds(mid, wrote, n)
    ensures Adds(was, wrote, m + n)
  {
    SmallerUnion(wrote - was, mid - was, wrote - mid);
  }

  lemma AddsMore(was: set<nat>, wrote: set<nat>, n: nat, h: nat)
    requires Adds(was, wrote, n)
    ensures Adds(was, wrote + {h}, n + 1)
  {
    SmallerUnion(wrote + {h} - was, wrote - was, {h});
  }

  lemma AddsThree(was: set<nat>, a: nat, b: nat, c: nat)
    ensures Adds(was, was + {a} + {b} + {c}, 3)
  {
    Subset(was + {a} + {b} + {c} - was, {a, b, c});
  }

  lemma AddsSome(was: set<nat>, wrote: set<nat>, n: nat, hs: set<nat>)
    requires Adds(was, wrote, n)
    ensures Adds(was, wrote + hs, |hs| + n)
  {
    SmallerUnion(wrote + hs - was, wrote - was, hs);
  }

  lemma SmallerUnion(s: set<nat>, a: set<nat>, b: set<nat>)
    requires s <= a + b
    ensures |s| <= |a| + |b|
  {
    Subset(s, a + b);
    assert |a + b| <= |a| + |b|;
  }

  lemma {:induction false} Subset<T>(a: set<T>, b: set<T>)
    requires a <= b
    ensures |a| <= |b|
  {
    assert b - a + a == b;
  }

  lemma AddsNone(was: set<nat>, n: nat)
    ensures Adds(was, was, n)
  {
    assert was - was == {};
  }

  lemma AddsOne(was: set<nat>, h: nat)
    ensures Adds(was, was + {h}, 1)
  {
    Subset(was + {h} - was, {h});
  }

  // ------------------------------------------------- nothing changes unwritten

  /** Whatever of the image differs from `start` has its home among the blocks written. */
  ghost predicate Covers(start: Image, img: Image, wrote: set<nat>) {
    forall i :: i == img ==> CoversIn(start, i, wrote)
  }

  ghost predicate CoversIn(start: Image, img: Image, wrote: set<nat>) {
    && img.sb == start.sb && img.rest == start.rest
    && |img.inodes| == |start.inodes| && |img.blocks| == |start.blocks|
    && (forall b: nat :: (b in start.blockBits) != (b in img.blockBits) ==> BitHome(img.sb, b) in wrote)
    && (forall id: nat :: (id in start.inodeBits) != (id in img.inodeBits) ==> InodeBitHome(img.sb, id) in wrote)
    && (forall id: nat :: id < |img.inodes| && start.inodes[id] != img.inodes[id] ==> InodeHome(img.sb, id) in wrote)
    && (forall b: nat :: b < |img.blocks| && start.blocks[b] != img.blocks[b] ==> b in wrote)
  }

  lemma CoversMore(start: Image, img: Image, wrote: set<nat>, img': Image, wrote': set<nat>)
    requires Covers(start, img, wrote) && CoversIn(img, img', wrote') && wrote <= wrote'
    ensures Covers(start, img', wrote')
  {
    assert CoversIn(start, img, wrote);
    assert CoversIn(start, img', wrote');
  }

  // --------------------------------------------------- the way to a file block

  /** Where the walk to file block i passes: the places whose pointers it follows or fills. */
  function Path(i: nat): set<Place>
    requires i < MAX_FILE_BLOCKS
  {
    if i < DIRECT_PTRS then {Data(i)}
    else if i < DIRECT_PTRS + PTRS_PER_BLOCK then {Data(i), Single}
    else {Data(i), Double, Second((i - DIRECT_PTRS - PTRS_PER_BLOCK) / PTRS_PER_BLOCK)}
  }

  /** With the block itself there, so is everything on the way. */
  lemma PathFilled(blocks: seq<Block>, ino: Inode, i: nat)
    requires i < MAX_FILE_BLOCKS && DataPtr(blocks, ino, i) != 0
    ensures forall p :: p in Path(i) ==> IsPlace(p) && PtrAt(blocks, ino, p) != 0
  {
    if i >= DIRECT_PTRS + PTRS_PER_BLOCK {
      assert (i - DIRECT_PTRS - PTRS_PER_BLOCK) / PTRS_PER_BLOCK < PTRS_PER_BLOCK;
    }
  }

  /** All that was written are the blocks these places lead to, and the bitmap blocks with their bits. */
  ghost predicate Charged(was: set<nat>, wrote: set<nat>, img: Image, ino: Inode, places: set<Place>) {
    was <= wrote && forall i :: i == img ==> ChargedIn(was, wrote, i, ino, places)
  }

  ghost predicate ChargedIn(was: set<nat>, wrote: set<nat>, img: Image, ino: Inode, places: set<Place>) {
    && (forall p :: p in places ==> IsPlace(p) && PtrAt(img.blocks, ino, p) != 0)
    && (forall h :: h in wrote && h !in was ==> exists p :: p in places && Pays(img, ino, p, h))
  }

  ghost predicate Pays(img: Image, ino: Inode, p: Place, h: nat) {
    IsPlace(p) && (h == PtrAt(img.blocks, ino, p) || h == BitHome(img.sb, PtrAt(img.blocks, ino, p)))
  }

  lemma ChargedNothing(wrote: set<nat>, img: Image, ino: Inode)
    ensures Charged(wrote, wrote, img, ino, {})
  {
    assert ChargedIn(wrote, wrote, img, ino, {});
  }

  /** A charge still stands when more pointers are set. */
  lemma ChargedLater(was: set<nat>, wrote: set<nat>, img: Image, ino: Inode, places: set<Place>, img': Image,
      ino': Inode)
    requires Charged(was, wrote, img, ino, places) && img'.sb == img.sb && Kept(img.blocks, ino, img'.blocks, ino')
    ensures Charged(was, wrote, img', ino', places)
  {
    assert ChargedIn(was, wrote, img, ino, places) && KeptIn(img.blocks, ino, img'.blocks, ino');
    forall h | h in wrote && h !in was ensures exists p :: p in places && Pays(img', ino', p, h) {
      var p :| p in places && Pays(img, ino, p, h);
      assert Pays(img', ino', p, h);
    }
    assert ChargedIn(was, wrote, img', ino', places);
  }

  lemma ChargedMore(was: set<nat>, mid: set<nat>, wrote: set<nat>, img: Image, ino: Inode, places: set<Place>,
      more: set<Place>)
    requires Charged(was, mid, img, ino, places) && Charged(mid, wrote, img, ino, more)
    ensures Charged(was, wrote, img, ino, places + more)
  {
    assert ChargedIn(was, mid, img, ino, places) && ChargedIn(mid, wrote, img, ino, more);
    forall h | h in wrote && h !in was ensures exists p :: p in places + more && Pays(img, ino, p, h) {
      if h in mid {
        var p :| p in places && Pays(img, ino, p, h);
      } else {
        var p :| p in more && Pays(img, ino, p, h);
      }
    }
    assert ChargedIn(was, wrote, img, ino, places + more);
  }

  /** Two numbers for every place, at most. */
  lemma ChargedCount(was: set<nat>, wrote: set<nat>, img: Image, ino: Inode, places: set<Place>)
    requires Charged(was, wrote, img, ino, places)
    ensures Adds(was, wrote, 2 * |places|)
  {
    assert ChargedIn(was, wrote, img, ino, places);
    PaysCount(img, ino, places, wrote - was);
  }

  lemma {:induction false} PaysCount(img: Image, ino: Inode, places: set<Place>, hs: set<nat>)
    requires forall h :: h in hs ==> exists p :: p in places && Pays(img, ino, p, h)
    ensures |hs| <= 2 * |places|
    decreases |places|
  {
    if q :| q in places {
      var rest := set h | h in hs && !Pays(img, ino, q, h);
      forall h | h in rest ensures exists p :: p in places - {q} && Pays(img, ino, p, h) {
        var p :| p in places && Pays(img, ino, p, h);
        assert p in places - {q};
      }
      PaysCount(img, ino, places - {q}, rest);
      if IsPlace(q) {
        var two := {PtrAt(img.blocks, ino, q) as nat, BitHome(img.sb, PtrAt(img.blocks, ino, q))};
        assert hs <= rest + two;
        SmallerUnion(hs, rest, two);
      } else {
        assert hs == rest;
      }
    } else {
      if h :| h in hs {
        assert false;
      }
      assert hs == {};
    }
  }

  // ------------------------------------------------------- the way of a chunk

  /** Every place the walks to n blocks in a row pass. */
  ghost function Touched(first: nat, n: nat): (r: set<Place>)
    requires first + n <= MAX_FILE_BLOCKS
    decreases n
  {
    if n == 0 then {} else Touched(first, n - 1) + Path(first + n - 1)
  }

  function FirstSecond(first: nat): nat {
    if first < DIRECT_PTRS + PTRS_PER_BLOCK then 0 else (first - DIRECT_PTRS - PTRS_PER_BLOCK) / PTRS_PER_BLOCK
  }

  lemma {:induction false} TouchedCount(first: nat, n: nat, few: set<Place>)
    requires first + n <= MAX_FILE_BLOCKS
    requires forall i: nat :: first <= i < first + n ==> Path(i) <= few + {Data(i)}
    ensures |Touched(first, n) - few| <= n
  {
    if n > 0 {
      TouchedCount(first, n - 1, few);
      OneMore(Touched(first, n - 1), Path(first + n - 1), few, Data(first + n - 1));
    }
  }

  lemma OneMore(a: set<Place>, b: set<Place>, few: set<Place>, p: Place)
    requires b <= few + {p}
    ensures |a + b - few| <= |a - few| + 1
  {
    Subset(a + b - few, (a - few) + {p});
  }

  /** Sixteen blocks in a row hang under at most two second-level blocks. */
  lemma PathIs(first: nat, i: nat)
    requires first <= i < first + WRITE_CHUNK_BLOCKS && i < MAX_FILE_BLOCKS
    ensures Path(i) <= {Single, Double, Second(FirstSecond(first)), Second(FirstSecond(first) + 1)} + {Data(i)}
  {
    if i >= DIRECT_PTRS + PTRS_PER_BLOCK {
      SecondIs(first, i);
    }
  }

  lemma SecondIs(first: nat, i: nat)
    requires DIRECT_PTRS + PTRS_PER_BLOCK <= i && first <= i < first + WRITE_CHUNK_BLOCKS
    ensures FirstSecond(first) <= (i - DIRECT_PTRS - PTRS_PER_BLOCK) / PTRS_PER_BLOCK <= FirstSecond(first) + 1
  {
  }

  lemma ChunkPlaces(first: nat, n: nat)
    requires first + n <= MAX_FILE_BLOCKS && n <= WRITE_CHUNK_BLOCKS
    ensures |Touched(first, n)| <= WRITE_CHUNK_BLOCKS + 4
  {
    var few := {Single, Double, Second(FirstSecond(first)), Second(FirstSecond(first) + 1)};
    forall i: nat | first <= i < first + n ensures Path(i) <= few + {Data(i)} {
      PathIs(first, i);
    }
    TouchedCount(first, n, few);
    Subset(Touched(first, n), (Touched(first, n) - few) + few);
  }

  // --------------------------------------------- what one bmap_alloc may write

  lemma PathCharges(was: set<nat>, wrote: set<nat>, img: Image, ino: Inode, i: nat)
    requires was <= wrote && i < MAX_FILE_BLOCKS && DataPtr(img.blocks, ino, i) != 0
    requires forall h :: h in wrote && h !in was ==> exists p :: p in Path(i) && Pays(img, ino, p, h)
    ensures Charged(was, wrote, img, ino, Path(i))
  {
    PathFilled(img.blocks, ino, i);
    assert ChargedIn(was, wrote, img, ino, Path(i));
  }

  lemma DataCharge(was: set<nat>, wrote: set<nat>, img: Image, ino: Inode, i: nat, b: nat)
    requires i < MAX_FILE_BLOCKS && DataPtr(img.blocks, ino, i) == b != 0
    requires was <= wrote <= was + {b, BitHome(img.sb, b)}
    ensures Charged(was, wrote, img, ino, Path(i))
  {
    forall h | h in wrote && h !in was ensures exists p :: p in Path(i) && Pays(img, ino, p, h) {
      assert Data(i) in Path(i) && Pays(img, ino, Data(i), h);
    }
    PathCharges(was, wrote, img, ino, i);
  }

  lemma SingleCharge(was: set<nat>, wrote: set<nat>, img: Image, ino: Inode, k: nat, b: nat)
    requires k < PTRS_PER_BLOCK && DataPtr(img.blocks, ino, DIRECT_PTRS + k) == b != 0
    requires was <= wrote <= was + {ino.single as nat, BitHome(img.sb, ino.single), BitHome(img.sb, b)}
    ensures Charged(was, wrote, img, ino, Path(DIRECT_PTRS + k))
  {
    var i := DIRECT_PTRS + k;
    forall h | h in wrote && h !in was ensures exists p :: p in Path(i) && Pays(img, ino, p, h) {
      if h == BitHome(img.sb, b) {
        assert Data(i) in Path(i) && Pays(img, ino, Data(i), h);
      } else {
        assert Single in Path(i) && Pays(img, ino, Single, h);
      }
    }
    PathCharges(was, wrote, img, ino, i);
  }

  lemma DoubleCharge(was: set<nat>, wrote: set<nat>, img: Image, ino: Inode, j: nat, k: nat, second: nat, b: nat)
    requires j < PTRS_PER_BLOCK && k < PTRS_PER_BLOCK && DoubleIndex(j, k) < MAX_FILE_BLOCKS
    requires DataPtr(img.blocks, ino, DoubleIndex(j, k)) == b != 0 && Entry32(img.blocks, ino.double, j) == second
    requires was <= wrote
    requires wrote <= was
             + {ino.double as nat, second, BitHome(img.sb, ino.double), BitHome(img.sb, second), BitHome(img.sb, b)}
    ensures Charged(was, wrote, img, ino, Path(DoubleIndex(j, k)))
  {
    var i := DoubleIndex(j, k);
    SplitIndex(j, k);
    assert i - DIRECT_PTRS - PTRS_PER_BLOCK == j * PTRS_PER_BLOCK + k;
    assert Path(i) == {Data(i), Double, Second(j)};
    forall h | h in wrote && h !in was ensures exists p :: p in Path(i) && Pays(img, ino, p, h) {
      if h == BitHome(img.sb, b) {
        assert Pays(img, ino, Data(i), h);
      } else if h == ino.double || h == BitHome(img.sb, ino.double) {
        assert Pays(img, ino, Double, h);
      } else {
        assert Pays(img, ino, Second(j), h);
      }
    }
    PathCharges(was, wrote, img, ino, i);
  }

  /** The homes of a few blocks' bits are as few. */
  lemma {:induction false} HomesCount(sb: Superblock, bs: set<nat>)
    ensures |BitHomes(sb, bs)| <= |bs|
    decreases |bs|
  {
    if b :| b in bs {
      HomesCount(sb, bs - {b});
      assert BitHomes(sb, bs) == BitHomes(sb, bs - {b}) + {BitHome(sb, b)};
      SmallerUnion(BitHomes(sb, bs), BitHomes(sb, bs - {b}), {BitHome(sb, b)});
    } else {
      assert BitHomes(sb, bs) == {};
    }
  }

  lemma HomesMore(sb: Superblock, bs: set<nat>, b: nat)
    ensures BitHomes(sb, bs + {b}) == BitHomes(sb, bs) + {BitHome(sb, b)}
  {
  }

  lemma HomesAdd(was: set<nat>, wrote: set<nat>, sb: Superblock, bs: set<nat>, n: nat)
    requires |bs| <= n && was <= wrote <= was + BitHomes(sb, bs)
    ensures Adds(was, wrote, n)
  {
    HomesCount(sb, bs);
    Subset(wrote - was, BitHomes(sb, bs));
  }

  /** The data block itself may be written too: its place pays for it. */
  lemma ChargedData(was: set<nat>, wrote: set<nat>, img: Image, ino: Inode, i: nat, b: nat)
    requires i < MAX_FILE_BLOCKS && Charged(was, wrote, img, ino, Path(i)) && DataPtr(img.blocks, ino, i) == b != 0
    ensures Charged(was, wrote + {b}, img, ino, Path(i)) && Adds(was, wrote + {b}, 6)
  {
    assert ChargedIn(was, wrote, img, ino, Path(i));
    assert Data(i) in Path(i) && Pays(img, ino, Data(i), b);
    PathCharges(was, wrote + {b}, img, ino, i);
    ChargedCount(was, wrote + {b}, img, ino, Path(i));
  }

  /** A block of the file already there, written. */
  lemma ChargedOld(wrote: set<nat>, img: Image, ino: Inode, i: nat, b: nat)
    requires i < MAX_FILE_BLOCKS && DataPtr(img.blocks, ino, i) == b != 0
    ensures Charged(wrote, wrote + {b}, img, ino, Path(i))
  {
    DataCharge(wrote, wrote + {b}, img, ino, i, b);
  }

  // ------------------------------------------------------- blocks of a chunk

  /** How many blocks the bytes from pos up to `at` touch. */
  function BlocksIn(pos: nat, at: nat): nat
    requires pos <= at
  {
    if at == pos then 0 else (at - 1) / BLOCK_SIZE - pos / BLOCK_SIZE + 1
  }

  lemma NextBlockIs(pos: nat, at: nat, len: nat)
    requires pos <= at && (at == pos || at % BLOCK_SIZE == 0) && 0 < len <= BLOCK_SIZE - at % BLOCK_SIZE
    ensures at / BLOCK_SIZE == pos / BLOCK_SIZE + BlocksIn(pos, at)
    ensures BlocksIn(pos, at + len) == BlocksIn(pos, at) + 1
  {
    SameBlock(at, len - 1);
    if at > pos {
      assert at == at / BLOCK_SIZE * BLOCK_SIZE;
      assert (at - 1) / BLOCK_SIZE == at / BLOCK_SIZE - 1;
    }
  }

  lemma SameBlock(at: nat, d: nat)
    requires at % BLOCK_SIZE + d < BLOCK_SIZE
    ensures (at + d) / BLOCK_SIZE == at / BLOCK_SIZE
  {
  }

  lemma FewBlocks(pos: nat, at: nat, end: nat)
    requires pos <= at <= end <= (pos / BLOCK_SIZE + WRITE_CHUNK_BLOCKS) * BLOCK_SIZE
    requires end <= MAX_FILE_BLOCKS * BLOCK_SIZE && (end == pos ==> pos < MAX_FILE_BLOCKS * BLOCK_SIZE)
    ensures BlocksIn(pos, at) <= WRITE_CHUNK_BLOCKS && pos / BLOCK_SIZE + BlocksIn(pos, at) <= MAX_FILE_BLOCKS
  {
    if at > pos {
      var m := (at - 1) / BLOCK_SIZE;
      assert m * BLOCK_SIZE <= at - 1;
      assert m < pos / BLOCK_SIZE + WRITE_CHUNK_BLOCKS;
    }
  }

  /** A chunk that has got from pos to `at` has paid for the places on the way to its blocks. */
  ghost predicate Paid(was: set<nat>, wrote: set<nat>, img: Image, ino: Inode, pos: nat, at: nat) {
    forall i :: i == img ==> PaidIn(was, wrote, i, ino, pos, at)
  }

  ghost predicate PaidIn(was: set<nat>, wrote: set<nat>, img: Image, ino: Inode, pos: nat, at: nat) {
    && pos <= at && pos / BLOCK_SIZE + BlocksIn(pos, at) <= MAX_FILE_BLOCKS
    && Charged(was, wrote, img, ino, Touched(pos / BLOCK_SIZE, BlocksIn(pos, at)))
  }

  lemma PaidNothing(wrote: set<nat>, img: Image, ino: Inode, pos: nat)
    requires pos < MAX_FILE_BLOCKS * BLOCK_SIZE
    ensures Paid(wrote, wrote, img, ino, pos, pos)
  {
    ChargedNothing(wrote, img, ino);
    assert PaidIn(wrote, wrote, img, ino, pos, pos);
  }

  lemma PaidMore(was: set<nat>, mid: set<nat>, wrote: set<nat>, img1: Image, ino1: Inode, img2: Image, ino2: Inode,
                 pos: nat, at: nat, len: nat)
    requires Paid(was, mid, img1, ino1, pos, at) && at / BLOCK_SIZE < MAX_FILE_BLOCKS
    requires pos <= at && (at == pos || at % BLOCK_SIZE == 0) && 0 < len <= BLOCK_SIZE - at % BLOCK_SIZE
    requires img2.sb == img1.sb && Kept(img1.blocks, ino1, img2.blocks, ino2)
    requires Charged(mid, wrote, img2, ino2, Path(at / BLOCK_SIZE))
    ensures Paid(was, wrote, img2, ino2, pos, at + len)
  {
    assert PaidIn(was, mid, img1, ino1, pos, at);
    NextBlockIs(pos, at, len);
    var first, n := pos / BLOCK_SIZE, BlocksIn(pos, at);
    ChargedLater(was, mid, img1, ino1, Touched(first, n), img2, ino2);
    ChargedMore(was, mid, wrote, img2, ino2, Touched(first, n), Path(first + n));
    assert Touched(first, n + 1) == Touched(first, n) + Path(first + n);
    assert PaidIn(was, wrote, img2, ino2, pos, at + len);
  }

  lemma PaidCount(was: set<nat>, wrote: set<nat>, img: Image, ino: Inode, pos: nat, at: nat, end: nat)
    requires Paid(was, wrote, img, ino, pos, at) && pos < MAX_FILE_BLOCKS * BLOCK_SIZE
    requires pos <= at <= end <= (pos / BLOCK_SIZE + WRITE_CHUNK_BLOCKS) * BLOCK_SIZE
             && end <= MAX_FILE_BLOCKS * BLOCK_SIZE
    ensures Adds(was, wrote, 2 * (WRITE_CHUNK_BLOCKS + 4))
  {
    assert PaidIn(was, wrote, img, ino, pos, at);
    FewBlocks(pos, at, end);
    var first, n := pos / BLOCK_SIZE, BlocksIn(pos, at);
    ChargedCount(was, wrote, img, ino, Touched(first, n));
    ChunkPlaces(first, n);
  }
}
