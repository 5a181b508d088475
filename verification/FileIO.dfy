/** Reading and writing a file through its lock entry's copy of the inode. */
module FileIO {
  import opened Layout
  import opened Codec
  import opened DiskImage
  import opened BlockTree
  import opened BlockMap
  import opened FileGrowth
  import opened DirSlots
  import opened ImageUpdate
  import opened ImageOps
  import opened Volume
  import opened FileData
  import opened Charges
  import opened InodeLocks
  import opened OpLimit

  /** f is a file in use whose tail is zeros. */
  ghost predicate IsFile(img: Image, f: nat) {
    InUse(img, f) && forall i :: i == img ==> IsFileIn(i, f)
  }

  ghost predicate IsFileIn(img: Image, f: nat)
    requires InUse(img, f)
  {
    img.inodes[f].mode == FILE_MODE && ZeroTail(img.blocks, img.inodes[f])
  }

  /** The copy in the lock entry when there is one, else the stored inode. */
  method FileInode(v: Volume, e: LockEntry, f: nat) returns (ino: Inode)
    requires e.Faithful(v, f)
    ensures ino == v.img.inodes[f]
  {
    if e.inodeValid {
      return e.inode;
    }
    return v.img.inodes[f];
  }

  /** Bytes [pos, pos + n) of the file, or as many of them as it has. */
  method ReadRange(v: Volume, f: nat, ino: Inode, pos: nat, n: nat) returns (out: seq<Byte>)
    requires Good(v.img) && IsFile(v.img, f) && ino == v.img.inodes[f]
    ensures pos >= ino.size ==> out == []
    ensures pos < ino.size ==> out == Contents(v.img.blocks, ino)[pos..if pos + n < ino.size then pos + n else ino.size]
  {
    out := [];
    if pos >= ino.size {
      return;
    }
    var total := Min(ino.size - pos, n);
    RuleAt(v.img, f);
    out := ReadBytes(v, ino, pos, total);
    StretchIs(v.img.blocks, ino, pos, out);
  }

  lemma StretchIs(blocks: seq<Block>, ino: Inode, pos: nat, out: seq<Byte>)
    requires pos + |out| <= ino.size && Reads(blocks, ino, pos, out)
    ensures out == Contents(blocks, ino)[pos..pos + |out|]
  {
  }

  /** These are the file's bytes from pos on. */
  predicate Reads(blocks: seq<Block>, ino: Inode, pos: nat, out: seq<Byte>) {
    forall j :: 0 <= j < |out| ==> out[j] == ByteAt(blocks, ino, pos + j)
  }

  lemma ReadsMore(blocks: seq<Block>, ino: Inode, pos: nat, out: seq<Byte>, part: seq<Byte>)
    requires Reads(blocks, ino, pos, out) && Reads(blocks, ino, pos + |out|, part)
    ensures Reads(blocks, ino, pos, out + part)
  {
    forall j | 0 <= j < |out + part| ensures (out + part)[j] == ByteAt(blocks, ino, pos + j) {
      if j >= |out| {
        assert part[j - |out|] == ByteAt(blocks, ino, pos + |out| + (j - |out|));
      }
    }
  }

  method ReadBytes(v: Volume, ino: Inode, pos: nat, total: nat) returns (out: seq<Byte>)
    requires pos + total <= MAX_FILE_BYTES
    ensures |out| == total && Reads(v.img.blocks, ino, pos, out)
  {
    out := [];
    while |out| < total
      invariant |out| <= total && Reads(v.img.blocks, ino, pos, out)
      decreases total - |out|
    {
      var at := pos + |out|;
      var part := ReadPart(v, ino, at, total - |out|);
      ReadsMore(v.img.blocks, ino, pos, out, part);
      out := out + part;
    }
  }

  /** As many as `left` bytes at `at`, from one block. */
  method ReadPart(v: Volume, ino: Inode, at: nat, left: nat) returns (part: seq<Byte>)
    requires at + left <= MAX_FILE_BYTES && left > 0
    ensures 0 < |part| <= left && Reads(v.img.blocks, ino, at, part)
  {
    var index, off := at / BLOCK_SIZE, at % BLOCK_SIZE;
    var len := Min(BLOCK_SIZE - off, left);
    var block := v.BmapRead(ino, index);
    if block.value == 0 {
      part := Zeros(len);
    } else {
      part := Load(v.img.blocks, block.value)[off..off + len];
    }
    assert part == FileBlock(v.img.blocks, ino, index)[off..off + len];
    StretchOf(v.img.blocks, ino, at, len, part);
  }

  // ---------------------------------------------------------------- writing

  /** One block of the file mapped, if it was a hole, and written. */
  ghost predicate PutIn(img: Image, ino: Inode, img': Image, ino': Inode, index: nat, off: nat, data: seq<Byte>)
    requires off + |data| <= BLOCK_SIZE
  {
    && Extended(img, ino, img', ino') && Sound(img', ino') && SameButPointers(ino, ino')
    && img'.sb == img.sb && Kept(img.blocks, ino, img'.blocks, ino')
    && BlockPut(img.blocks, ino, img'.blocks, ino', index, off, data)
    && (forall k: nat :: k != index ==> (DataPtr(img'.blocks, ino', k) != 0 ==> DataPtr(img.blocks, ino, k) != 0))
  }

  lemma PutInNew(img: Image, ino: Inode, img1: Image, ino1: Inode, index: nat, b: nat, off: nat, data: seq<Byte>)
    requires Mounted(img) && Sound(img, ino) && off + |data| <= BLOCK_SIZE && DataPtr(img.blocks, ino, index) == 0
    requires Mapped(img, ino, img1, ino1, index, b)
    ensures b < |img1.blocks|
    ensures PutIn(img, ino, img1.(blocks := img1.blocks[b := Splice(ZERO_BLOCK, off, data)]), ino1, index, off, data)
  {
    MappedBlocks(img, ino, img1, ino1, index, b);
    WriteData(img1, ino1, index, Splice(ZERO_BLOCK, off, data));
    MappedValue(img, ino, img1, ino1, index, b);
    KeptTwice(img.blocks, ino, img1.blocks, ino1, img1.blocks[b := Splice(ZERO_BLOCK, off, data)], ino1);
    ExtendedTwice(img, ino, img1, ino1, img1.(blocks := img1.blocks[b := Splice(ZERO_BLOCK, off, data)]), ino1);
  }

  lemma PutInOld(img: Image, ino: Inode, index: nat, off: nat, data: seq<Byte>, whole: bool)
    requires Mounted(img) && Sound(img, ino) && off + |data| <= BLOCK_SIZE && DataPtr(img.blocks, ino, index) != 0
    requires whole ==> off == 0 && |data| == BLOCK_SIZE
    ensures DataPtr(img.blocks, ino, index) < |img.blocks|
    ensures var b := DataPtr(img.blocks, ino, index);
            PutIn(img, ino, img.(blocks :=
                img.blocks[b := Splice(if whole then ZERO_BLOCK else img.blocks[b], off, data)]), ino, index, off, data)
  {
    var b := DataPtr(img.blocks, ino, index);
    WriteData(img, ino, index, Splice(if whole then ZERO_BLOCK else Load(img.blocks, b), off, data));
  }

  /** One block of a chunk: mapped if it is a hole, and written. */
  method WriteBlock(v: Volume, ino: Inode, index: nat, off: nat, data: seq<Byte>)
    returns (r: Result<()>, ino': Inode, isNew: bool)
    requires Mounted(v.img) && Sound(v.img, ino) && off + |data| <= BLOCK_SIZE && index < MAX_FILE_BLOCKS
    requires v.Covered()
    modifies v
    ensures v.Covered()
    ensures Mounted(v.img)
    ensures r.Ok? ==> PutIn(old(v.img), ino, v.img, ino', index, off, data) && (!isNew ==> ino' == ino)
    ensures r.Ok? ==> Charged(old(v.wrote), v.wrote, v.img, ino', Path(index))
    ensures r.Err? ==>
              && Adds(old(v.wrote), v.wrote, 2)
              && r.code == ENOSPC && v.img == old(v.img) && ino' == ino && DataPtr(v.img.blocks, ino, index) == 0
              && |Unused(v.img)| < Needed(v.img.blocks, ino, index)
  {
    var block;
    block, ino', isNew := v.BmapAlloc(ino, index);
    if block.Err? {
      return Err(block.code), ino, false;
    }
    var whole := off == 0 && |data| == BLOCK_SIZE;
    if isNew {
      PutInNew(old(v.img), ino, v.img, ino', index, block.value, off, data);
    } else {
      PutInOld(v.img, ino, index, off, data, whole);
    }
    var b := block.value;
    PayData(old(v.wrote), v.wrote, old(v.img), ino, v.img, ino', index, b, isNew,
            Splice(if isNew || whole then ZERO_BLOCK else v.img.blocks[b], off, data));
    ghost var was, had := v.img, v.wrote;
    v.img := v.img.(blocks :=
        v.img.blocks[b := Splice(if isNew || whole then ZERO_BLOCK else v.img.blocks[b], off, data)]);
    v.wrote := v.wrote + {b as nat};
    CoversMore(v.start, was, had, v.img, v.wrote);
    ExtendedMounted(old(v.img), ino, v.img, ino');
    r := Ok(());
  }

  /** What writing the data block costs, after what mapping it did. */
  lemma PayData(was: set<nat>, wrote: set<nat>, img: Image, ino: Inode, img1: Image, ino1: Inode, index: nat, b: nat,
                isNew: bool, w: Block)
    requires Mounted(img) && Sound(img, ino) && Mounted(img1) && index < MAX_FILE_BLOCKS
    requires isNew ==> Mapped(img, ino, img1, ino1, index, b) && Charged(was, wrote, img1, ino1, Path(index))
    requires !isNew ==> img1 == img && ino1 == ino && b == DataPtr(img.blocks, ino, index) != 0 && was == wrote
    ensures b < |img1.blocks|
    ensures Charged(was, wrote + {b}, img1.(blocks := img1.blocks[b := w]), ino1, Path(index))
  {
    if isNew {
      MappedBlocks(img, ino, img1, ino1, index, b);
      MappedValue(img, ino, img1, ino1, index, b);
      ChargedData(was, wrote, img1, ino1, index, b);
    } else {
      ChargedOld(wrote, img1, ino1, index, b);
    }
    WriteData(img1, ino1, index, w);
    ChargedLater(was, wrote + {b}, img1, ino1, Path(index), img1.(blocks := img1.blocks[b := w]), ino1);
  }

  function Min(a: nat, b: nat): nat { if a < b then a else b }

  /** The file's size once d is written at pos. */
  function EndOf(ino: Inode, pos: nat, d: seq<Byte>): nat {
    if d != [] && pos + |d| > ino.size then pos + |d| else ino.size
  }

  /** How many of n bytes at pos one chunk takes: 16 blocks' worth, and none past the largest file. */
  function ChunkBytes(pos: nat, n: nat): (r: nat)
    requires pos < MAX_FILE_BYTES
    ensures r <= n && pos + r <= MAX_FILE_BYTES && (n > 0 ==> r > 0)
    ensures pos + r <= (pos / BLOCK_SIZE + WRITE_CHUNK_BLOCKS) * BLOCK_SIZE
  {
    Min(pos + n, Min((pos / BLOCK_SIZE + WRITE_CHUNK_BLOCKS) * BLOCK_SIZE, MAX_FILE_BYTES)) - pos
  }

  /** Part way through a chunk: `d` has been written at pos, with `ino` not yet stored. */
  ghost predicate SoFar(img: Image, start: Inode, img': Image, ino: Inode, pos: nat, d: seq<Byte>) {
    forall i :: i == img ==> SoFarIn(i, start, img', ino, pos, d)
  }

  ghost predicate SoFarIn(img: Image, start: Inode, img': Image, ino: Inode, pos: nat, d: seq<Byte>) {
    && Extended(img, start, img', ino) && Sound(img', ino) && SameButPointers(start, ino)
    && Wrote(img.blocks, start, img'.blocks, ino, pos, d)
    && (forall k: nat :: DataPtr(img'.blocks, ino, k) != 0 ==> k * BLOCK_SIZE < EndOf(start, pos, d))
  }

  lemma NothingYet(img: Image, f: nat, pos: nat)
    requires Good(img) && InUse(img, f)
    ensures SoFar(img, img.inodes[f], img, img.inodes[f], pos, [])
  {
    GoodSound(img, f);
    RuleAt(img, f);
    ExtendedNot(img, img.inodes[f]);
    assert WroteIn(img.blocks, img.inodes[f], img.blocks, img.inodes[f], pos, []);
  }

  lemma OneBlockMore(img: Image, start: Inode, img1: Image, ino1: Inode, img2: Image, ino2: Inode,
                     pos: nat, d: seq<Byte>, part: seq<Byte>)
    requires SoFar(img, start, img1, ino1, pos, d)
    requires (pos + |d|) % BLOCK_SIZE + |part| <= BLOCK_SIZE && part != []
    requires PutIn(img1, ino1, img2, ino2, (pos + |d|) / BLOCK_SIZE, (pos + |d|) % BLOCK_SIZE, part)
    ensures SoFar(img, start, img2, ino2, pos, d + part)
  {
    assert SoFarIn(img, start, img1, ino1, pos, d);
    var at := pos + |d|;
    ExtendedTwice(img, start, img1, ino1, img2, ino2);
    BlockWrote(img1.blocks, ino1, img2.blocks, ino2, at, part);
    WroteMore(img.blocks, start, img1.blocks, ino1, img2.blocks, ino2, pos, d, part);
    forall k: nat | DataPtr(img2.blocks, ino2, k) != 0 ensures k * BLOCK_SIZE < EndOf(start, pos, d + part) {
      if k != at / BLOCK_SIZE {
        assert DataPtr(img1.blocks, ino1, k) != 0;
      }
    }
  }

  /** The block for byte `at` is a hole, and there are too few free blocks to fill it. */
  ghost predicate Stuck(img: Image, ino: Inode, at: nat) {
    DataPtr(img.blocks, ino, at / BLOCK_SIZE) == 0 && |Unused(img)| < Needed(img.blocks, ino, at / BLOCK_SIZE)
  }

  /** Writing the inode back, with its pointers as they were, takes and frees no block. */
  lemma StuckStill(img: Image, f: nat, ino: Inode, ino': Inode, at: nat)
    requires f < |img.inodes| && Stuck(img, ino, at) && ino' == ino.(size := ino'.size, mtime := ino'.mtime)
    ensures Stuck(WithInode(img, f, ino'), ino', at) && |Unused(img)| < 3
  {
    assert Unused(WithInode(img, f, ino')) == Unused(img);
    PointersOnly(img.blocks, ino, ino');
  }

  /** The file f holds d at pos, the image is consistent, and nothing else in it has changed. */
  ghost predicate WrittenAt(img: Image, img': Image, f: nat, pos: nat, d: seq<Byte>) {
    forall i :: i == img' ==> WrittenIn(img, i, f, pos, d)
  }

  ghost predicate WrittenIn(img: Image, img': Image, f: nat, pos: nat, d: seq<Byte>) {
    && Good(img') && InUse(img, f) && IsFile(img', f) && Tree(img') == Tree(img) && Spared(img, img', {f})
    && Contents(img'.blocks, img'.inodes[f]) == Spliced(Contents(img.blocks, img.inodes[f]), pos, d)
  }

  lemma WrittenNothing(img: Image, f: nat, pos: nat)
    requires Good(img) && IsFile(img, f)
    ensures WrittenAt(img, img, f, pos, [])
  {
    SparedRefl(img, {f});
    assert Contents(img.blocks, img.inodes[f]) == Spliced(Contents(img.blocks, img.inodes[f]), pos, []);
  }

  /** The other files' tails are zeros still. */
  lemma WrittenTidy(img: Image, img': Image, f: nat, pos: nat, d: seq<Byte>)
    requires WrittenAt(img, img', f, pos, d) && Tidy(img)
    ensures Good(img') && Tidy(img')
  {
    assert WrittenIn(img, img', f, pos, d) && IsFileIn(img', f);
    TidyKept(img, img', {f});
  }

  lemma WrittenTwice(img: Image, mid: Image, img': Image, f: nat, pos: nat, d: seq<Byte>, e: seq<Byte>)
    requires WrittenAt(img, mid, f, pos, d) && WrittenAt(mid, img', f, pos + |d|, e)
    ensures WrittenAt(img, img', f, pos, d + e)
  {
    assert WrittenIn(img, mid, f, pos, d) && WrittenIn(mid, img', f, pos + |d|, e);
    SparedTwice(img, mid, img', {f});
    SplicedTwice(Contents(img.blocks, img.inodes[f]), pos, d, e);
  }

  /** The chunk's end: the size grown if need be, and the image consistent again. */
  lemma ChunkDone(img: Image, f: nat, img1: Image, ino1: Inode, pos: nat, d: seq<Byte>, ino2: Inode)
    requires Good(img) && IsFile(img, f) && SoFar(img, img.inodes[f], img1, ino1, pos, d) && pos + |d| <= MAX_FILE_BYTES
    requires ino2 == ino1.(size := ino2.size, mtime := ino2.mtime)
    requires ino2.size == EndOf(ino1, pos, d)
    ensures f < |img1.inodes|
    ensures var img' := WithInode(img1, f, ino2);
            img'.inodes[f] == ino2 && WrittenAt(img, img', f, pos, d)
  {
    var start := img.inodes[f];
    assert SoFarIn(img, start, img1, ino1, pos, d) && IsFileIn(img, f);
    ResizedExtends(img, start, img1, ino1, ino2);
    RuleAt(img, f);
    PointersOnly(img1.blocks, ino1, ino2);
    ChunkSize(img1, ino1, ino2, start, pos, d);
    assert Wrote(img.blocks, start, img1.blocks, ino2, pos, d) by {
      assert WroteIn(img.blocks, start, img1.blocks, ino1, pos, d);
      forall p: nat ensures ByteAt(img1.blocks, ino2, p) == ByteAt(img1.blocks, ino1, p) {
      }
    }
    WroteContents(img.blocks, start, img1.blocks, ino2, pos, d);
    FileWritten(img, f, img1, ino2);
    assert ExtendedTo(img, start, img1, ino2);
    assert WrittenIn(img, WithInode(img1, f, ino2), f, pos, d);
  }

  lemma ChunkSize(img1: Image, ino1: Inode, ino2: Inode, start: Inode, pos: nat, d: seq<Byte>)
    requires Sound(img1, ino2) && start.size <= MAX_FILE_BYTES && pos + |d| <= MAX_FILE_BYTES && !IsDir(ino2)
    requires start.size == ino1.size && ino2.size == EndOf(ino1, pos, d)
    requires forall k: nat :: DataPtr(img1.blocks, ino2, k) == DataPtr(img1.blocks, ino1, k)
    requires forall k: nat :: DataPtr(img1.blocks, ino1, k) != 0 ==> k * BLOCK_SIZE < EndOf(start, pos, d)
    ensures SizeRule(img1.blocks, ino2)
  {
  }

  /** One chunk, one transaction: blocks from pos on until the chunk ends or the disk is full. */
  method WriteChunk(v: Volume, e: LockEntry, f: nat, pos: nat, src: seq<Byte>, now: u64)
    returns (wrote: nat, full: bool)
    requires Good(v.img) && IsFile(v.img, f) && e.Faithful(v, f) && src != [] && pos < MAX_FILE_BYTES
    requires v.Covered()
    modifies v, e`inode, e`inodeValid
    ensures v.Covered()
    ensures e.Faithful(v, f) && e.inodeValid
    ensures wrote <= ChunkBytes(pos, |src|) && full == (wrote < ChunkBytes(pos, |src|))
    ensures full ==> |Unused(v.img)| < 3
    ensures WrittenAt(old(v.img), v.img, f, pos, src[..wrote]) && f < |v.img.inodes|
    ensures full ==> Stuck(v.img, v.img.inodes[f], pos + wrote)
    ensures v.img.inodes[f].mtime == if wrote > 0 then now else old(v.img.inodes[f].mtime)
    ensures Adds(old(v.wrote), v.wrote, MAX_OP_BLOCKS)
  {
    GoodMounted(v.img);
    ghost var img := v.img;
    var ino := FileInode(v, e, f);
    ghost var start := ino;
    e.inodeValid := false;
    var end := pos + ChunkBytes(pos, |src|);
    NothingYet(img, f, pos);
    GoodSound(img, f);
    var at, changed;
    at, ino, changed, full := WriteBlocks(v, ino, pos, end, src);
    wrote := at - pos;
    ghost var had, mid := v.wrote, v.img;
    StoreChunk(v, e, f, ino, pos, at, changed, now, img, src[..wrote]);
    SoFarTime(img, start, mid, ino, pos, src[..wrote]);
    if full {
      StuckStill(mid, f, ino, v.img.inodes[f], at);
    }
    AddsTwice(old(v.wrote), had, v.wrote, 2 * (WRITE_CHUNK_BLOCKS + 4) + 2, 1);
  }

  /** The end of a chunk: the inode is written back if anything in it changed, and kept in the entry. */
  method StoreChunk(v: Volume, e: LockEntry, f: nat, ino1: Inode, pos: nat, at: nat, changed1: bool, now: u64,
                    ghost img: Image, ghost d: seq<Byte>)
    requires Good(img) && IsFile(img, f) && SoFar(img, img.inodes[f], v.img, ino1, pos, d)
    requires at == pos + |d| && at <= MAX_FILE_BYTES && (!changed1 ==> ino1 == img.inodes[f])
    requires v.Covered()
    modifies v, e`inode, e`inodeValid
    ensures v.Covered()
    ensures WrittenAt(img, v.img, f, pos, d) && e.Faithful(v, f) && e.inodeValid
    ensures Adds(old(v.wrote), v.wrote, 1)
    ensures f < |old(v.img).inodes| && f < |v.img.inodes| && v.img == WithInode(old(v.img), f, v.img.inodes[f])
    ensures v.img.inodes[f] == ino1.(size := EndOf(ino1, pos, d), mtime := if d == [] then ino1.mtime else now)
  {
    var ino, changed := ino1, changed1;
    if at > pos {
      if at > ino.size {
        ino := ino.(size := at);
        changed := true;
      }
      if ino.mtime != now {
        ino := ino.(mtime := now);
        changed := true;
      }
    }
    Unwritten(img, f, v.img, ino1, pos, d);
    ChunkDone(img, f, v.img, ino1, pos, d, ino);
    AddsOne(v.wrote, InodeHome(v.img.sb, f));
    if changed {
      v.WriteInode(f, ino);
    }
    e.inode, e.inodeValid := ino, true;
  }

  /** The chunk's blocks, in order, until `end` or until one cannot be had. */
  method WriteBlocks(v: Volume, start: Inode, pos: nat, end: nat, src: seq<Byte>)
    returns (at: nat, ino: Inode, changed: bool, full: bool)
    requires Mounted(v.img) && Sound(v.img, start) && pos <= end <= MAX_FILE_BYTES && end - pos <= |src|
    requires SoFar(v.img, start, v.img, start, pos, [])
    requires end <= (pos / BLOCK_SIZE + WRITE_CHUNK_BLOCKS) * BLOCK_SIZE && pos < MAX_FILE_BYTES
    requires v.Covered()
    modifies v
    ensures v.Covered()
    ensures Adds(old(v.wrote), v.wrote, 2 * (WRITE_CHUNK_BLOCKS + 4) + 2)
    ensures Mounted(v.img) && pos <= at <= end && full == (at < end)
    ensures SoFar(old(v.img), start, v.img, ino, pos, src[..at - pos])
    ensures !changed ==> ino == start
    ensures full ==> Stuck(v.img, ino, at)
  {
    ghost var img := v.img;
    at, ino, changed, full := pos, start, false, false;
    assert src[..0] == [];
    PaidNothing(v.wrote, v.img, ino, pos);
    while at < end
      invariant pos <= at <= end && Mounted(v.img) && (at == pos || at == end || at % BLOCK_SIZE == 0)
      invariant Paid(old(v.wrote), v.wrote, v.img, ino, pos, at) && v.Covered()
      invariant SoFar(img, start, v.img, ino, pos, src[..at - pos])
      invariant !changed ==> ino == start
    {
      var len, isNew;
      ghost var mid := v.wrote;
      PaidCount(old(v.wrote), mid, v.img, ino, pos, at, end);
      len, ino, isNew := WriteNextBlock(v, ino, at, end, src, img, start, pos, old(v.wrote));
      if len == 0 {
        full := true;
        AddsTwice(old(v.wrote), mid, v.wrote, 2 * (WRITE_CHUNK_BLOCKS + 4), 2);
        return;
      }
      changed := changed || isNew;
      at := at + len;
    }
    PaidCount(old(v.wrote), v.wrote, v.img, ino, pos, at, end);
  }

  /** Until it is written back, the stored inode is the one the chunk started from. */
  lemma Unwritten(img: Image, f: nat, img1: Image, ino1: Inode, pos: nat, d: seq<Byte>)
    requires InUse(img, f) && SoFar(img, img.inodes[f], img1, ino1, pos, d)
    ensures f < |img1.inodes| && img1.inodes[f] == img.inodes[f] && WithInode(img1, f, img.inodes[f]) == img1
  {
    assert SoFarIn(img, img.inodes[f], img1, ino1, pos, d);
    assert ExtendedTo(img, img.inodes[f], img1, ino1);
  }

  /** One block's part of the bytes left; none if its block cannot be had. */
  method WriteNextBlock(v: Volume, ino1: Inode, at: nat, end: nat, src: seq<Byte>, ghost img: Image, ghost start: Inode,
                        pos: nat, ghost had: set<nat>)
    returns (len: nat, ino: Inode, isNew: bool)
    requires Mounted(v.img) && pos <= at < end <= MAX_FILE_BYTES && end - pos <= |src|
    requires SoFar(img, start, v.img, ino1, pos, src[..at - pos])
    requires at == pos || at % BLOCK_SIZE == 0
    requires Paid(had, v.wrote, v.img, ino1, pos, at)
    requires v.Covered()
    modifies v
    ensures v.Covered()
    ensures len > 0 ==> at + len == end || (at + len) % BLOCK_SIZE == 0
    ensures len > 0 ==> Paid(had, v.wrote, v.img, ino, pos, at + len)
    ensures len == 0 ==> Adds(old(v.wrote), v.wrote, 2)
    ensures Mounted(v.img) && at + len <= end && SoFar(img, start, v.img, ino, pos, src[..at + len - pos])
    ensures !isNew ==> ino == ino1
    ensures len == 0 ==> !isNew && Stuck(v.img, ino, at)
  {
    ghost var img1 := v.img;
    SoFarSound(img, start, v.img, ino1, pos, src[..at - pos]);
    len := Min(BLOCK_SIZE - at % BLOCK_SIZE, end - at);
    var part := src[at - pos..at - pos + len];
    var r;
    r, ino, isNew := WriteBlock(v, ino1, at / BLOCK_SIZE, at % BLOCK_SIZE, part);
    if r.Err? {
      return 0, ino1, false;
    }
    OneBlockMore(img, start, img1, ino1, v.img, ino, pos, src[..at - pos], part);
    PaidMore(had, old(v.wrote), v.wrote, img1, ino1, v.img, ino, pos, at, len);
    assert src[..at - pos] + part == src[..at + len - pos];
  }

  lemma SoFarTime(img: Image, start: Inode, img': Image, ino: Inode, pos: nat, d: seq<Byte>)
    requires SoFar(img, start, img', ino, pos, d)
    ensures ino.mtime == start.mtime
  {
    assert SoFarIn(img, start, img', ino, pos, d);
  }

  lemma SoFarSound(img: Image, start: Inode, img': Image, ino: Inode, pos: nat, d: seq<Byte>)
    requires SoFar(img, start, img', ino, pos, d)
    ensures Sound(img', ino)
  {
    assert SoFarIn(img, start, img', ino, pos, d);
  }

  /**
   What a write comes to. From the offset, or the end, on the file holds a prefix of what was to be written, all of it
   unless the disk is full there or the file as large as can be; the offset is after it, or where it was.
   */
  ghost predicate WriteDone(img: Image, img': Image, f: nat, offset: nat, append: bool, src: seq<Byte>, now: u64,
                            r: Result<nat>, offset': nat)
    requires f < |img.inodes|
  {
    var pos := if append then img.inodes[f].size else offset;
    var n := if r.Ok? then r.value else 0;
    && n <= |src| && (r.Ok? ==> n > 0 && offset' == pos + n)
    && f < |img'.inodes| && WrittenAt(img, img', f, pos, src[..n])
    && (n < |src| ==> pos + n >= MAX_FILE_BYTES || |Unused(img')| < 3)
    && (n < |src| && pos + n < MAX_FILE_BYTES ==> Stuck(img', img'.inodes[f], pos + n))
    && (r == Err(ENOSPC) ==> offset' == pos) && (r == Err(EFBIG) ==> offset' == offset)
    && img'.inodes[f].mtime == (if n > 0 then now else img.inodes[f].mtime)
    && (r == Err(EFBIG) <==> pos >= MAX_FILE_BYTES)
    && (r.Err? ==> r.code == EFBIG || r.code == ENOSPC)
  }

  /**
   vfs_write: chunk after chunk until all is written, the disk is full or the file can grow no
   more. The file then holds the old bytes with a prefix of the new ones at the position.
   */
  method Write(v: Volume, e: LockEntry, f: nat, offset: nat, append: bool, src: seq<Byte>, now: u64)
    returns (r: Result<nat>, offset': nat)
    requires Good(v.img) && IsFile(v.img, f) && e.Faithful(v, f) && src != []
    requires v.Covered()
    modifies v, e`inode, e`inodeValid
    ensures v.Covered()
    ensures e.Faithful(v, f)
    ensures WriteDone(old(v.img), v.img, f, offset, append, src, now, r, offset')
  {
    ghost var img := v.img;
    var pos, done, full := offset, 0, false;
    ghost var first := if append then img.inodes[f].size else offset;
    WrittenNothing(img, f, first);
    assert src[..0] == [];
    while done < |src| && !full
      invariant 0 <= done <= |src| && e.Faithful(v, f) && v.Covered()
      invariant WrittenAt(img, v.img, f, first, src[..done])
      invariant done > 0 || full || !append ==> pos == first + done
      invariant done > 0 || full ==> first < MAX_FILE_BYTES
      invariant f < |v.img.inodes| && (full ==> |Unused(v.img)| < 3)
      invariant full ==> Stuck(v.img, v.img.inodes[f], first + done)
      invariant v.img.inodes[f].mtime == if done > 0 then now else img.inodes[f].mtime
      decreases |src| - done + if full then 0 else 1
    {
      var wrote;
      pos, wrote, full := WriteNext(v, e, f, pos, append, src, done, now, img, first);
      if wrote == 0 && !full {
        if done == 0 {
          return Err(EFBIG), offset;
        }
        break;
      }
      done := done + wrote;
    }
    if done == 0 && full {
      return Err(ENOSPC), pos;
    }
    return Ok(done), pos;
  }

  /** One turn of the loop: nothing, with the disk not full, if the file can grow no more. */
  method WriteNext(v: Volume, e: LockEntry, f: nat, pos: nat, append: bool, src: seq<Byte>, done: nat, now: u64,
                   ghost img: Image, ghost first: nat)
    returns (pos': nat, wrote: nat, full: bool)
    requires done < |src| && f < |v.img.inodes| && e.Faithful(v, f) && Good(img) && IsFile(img, f)
    requires WrittenAt(img, v.img, f, first, src[..done])
    requires if append then first == img.inodes[f].size else pos == first + done
    requires v.Covered()
    modifies v, e`inode, e`inodeValid
    ensures v.Covered()
    ensures e.Faithful(v, f) && wrote <= |src| - done && pos' == first + done + wrote
    ensures WrittenAt(img, v.img, f, first, src[..done + wrote])
    ensures wrote == 0 && !full <==> first + done >= MAX_FILE_BYTES
    ensures full ==> |Unused(v.img)| < 3
    ensures f < |v.img.inodes| && (full ==> Stuck(v.img, v.img.inodes[f], first + done + wrote))
    ensures v.img.inodes[f].mtime == if wrote > 0 then now else old(v.img.inodes[f].mtime)
  {
    var ino := FileInode(v, e, f);
    e.inodeValid := false;
    pos' := pos;
    if append {
      AppendAt(img, v.img, f, src[..done]);
      pos' := ino.size;
    }
    if pos' >= MAX_FILE_BYTES {
      return pos', 0, false;
    }
    wrote, full := WriteMore(v, e, f, pos', src, done, now, img, first);
    pos' := pos' + wrote;
  }

  /** One chunk more, after src[..done]. */
  method WriteMore(v: Volume, e: LockEntry, f: nat, pos: nat, src: seq<Byte>, done: nat, now: u64, ghost img: Image,
                   ghost first: nat)
    returns (wrote: nat, full: bool)
    requires done < |src| && f < |v.img.inodes| && e.Faithful(v, f) && pos == first + done < MAX_FILE_BYTES
    requires WrittenAt(img, v.img, f, first, src[..done])
    requires v.Covered()
    modifies v, e`inode, e`inodeValid
    ensures v.Covered()
    ensures e.Faithful(v, f) && wrote <= |src| - done && (wrote > 0 || full)
    ensures WrittenAt(img, v.img, f, first, src[..done + wrote])
    ensures full ==> |Unused(v.img)| < 3
    ensures f < |v.img.inodes| && (full ==> Stuck(v.img, v.img.inodes[f], first + done + wrote))
    ensures v.img.inodes[f].mtime == if wrote > 0 then now else old(v.img.inodes[f].mtime)
  {
    assert WrittenIn(img, v.img, f, first, src[..done]);
    ghost var mid := v.img;
    wrote, full := WriteChunk(v, e, f, pos, src[done..], now);
    WrittenTwice(img, mid, v.img, f, first, src[..done], src[done..][..wrote]);
    assert src[..done] + src[done..][..wrote] == src[..done + wrote];
  }

  /** After a write at the end, the end is where it stopped. */
  lemma AppendAt(img: Image, img': Image, f: nat, d: seq<Byte>)
    requires InUse(img, f) && WrittenAt(img, img', f, img.inodes[f].size, d)
    ensures f < |img'.inodes| && img'.inodes[f].size == img.inodes[f].size + |d|
  {
    assert WrittenIn(img, img', f, img.inodes[f].size, d);
    assert |Contents(img'.blocks, img'.inodes[f])| == img'.inodes[f].size;
    assert |Contents(img.blocks, img.inodes[f])| == img.inodes[f].size;
  }

  lemma SparedRefl(img: Image, ids: set<nat>)
    ensures Spared(img, img, ids)
  {
    forall id: nat | id < |img.inodes| && id !in ids ensures SparedAt(img, img, id) {
    }
  }

  lemma SparedTwice(img: Image, mid: Image, img': Image, ids: set<nat>)
    requires Spared(img, mid, ids) && Spared(mid, img', ids)
    ensures Spared(img, img', ids)
  {
    forall id: nat | id < |img.inodes| && id !in ids ensures SparedAt(img, img', id) {
      assert SparedAt(img, mid, id) && SparedAt(mid, img', id);
    }
  }
}
