/** A file as a sequence of bytes: what its blocks hold, and what writing into one block does. */
module FileData {
  import opened Layout
  import opened Codec
  import opened DiskImage
  import opened ImageUpdate

  const MAX_FILE_BYTES: nat := MAX_FILE_BLOCKS * BLOCK_SIZE

  /** Byte p of the file, whatever its size says; holes are zeros. */
  function ByteAt(blocks: seq<Block>, ino: Inode, p: nat): Byte {
    FileBlock(blocks, ino, p / BLOCK_SIZE)[p % BLOCK_SIZE]
  }

  function Bytes(blocks: seq<Block>, ino: Inode, n: nat): (r: seq<Byte>)
    ensures |r| == n && forall p: nat :: p < n ==> r[p] == ByteAt(blocks, ino, p)
  {
    if n == 0 then [] else Bytes(blocks, ino, n - 1) + [ByteAt(blocks, ino, n - 1)]
  }

  /** What reading the whole file gives. */
  function Contents(blocks: seq<Block>, ino: Inode): seq<Byte> {
    Bytes(blocks, ino, ino.size)
  }

  /** Past its size, a file's blocks hold zeros: so that growing it shows no old bytes. */
  ghost predicate ZeroTail(blocks: seq<Block>, ino: Inode) {
    forall p: nat :: p >= ino.size ==> ByteAt(blocks, ino, p) == 0
  }

  /** c with d at pos: the gap, if pos is past the end, filled with zeros. */
  function Spliced(c: seq<Byte>, pos: nat, d: seq<Byte>): (r: seq<Byte>)
    ensures |r| == if d != [] && pos + |d| > |c| then pos + |d| else |c|
    ensures forall p: nat :: p < |r| ==>
            r[p] == if pos <= p < pos + |d| then d[p - pos] else if p < |c| then c[p] else 0
  {
    seq(if d != [] && pos + |d| > |c| then pos + |d| else |c|,
        p requires 0 <= p => if pos <= p < pos + |d| then d[p - pos] else if p < |c| then c[p] else 0)
  }

  /** What was written reads back; what was there before and after stays. */
  lemma ReadBack(c: seq<Byte>, pos: nat, d: seq<Byte>)
    requires d != []
    ensures pos + |d| <= |Spliced(c, pos, d)| && Spliced(c, pos, d)[pos..pos + |d|] == d
    ensures pos <= |c| ==> Spliced(c, pos, d)[..pos] == c[..pos]
    ensures pos + |d| <= |c| ==> Spliced(c, pos, d)[pos + |d|..] == c[pos + |d|..]
  {
  }

  /** Two writes, the second where the first stopped, are one. */
  lemma SplicedTwice(c: seq<Byte>, pos: nat, d: seq<Byte>, e: seq<Byte>)
    ensures Spliced(Spliced(c, pos, d), pos + |d|, e) == Spliced(c, pos, d + e)
  {
    var one, a, b := Spliced(c, pos, d), Spliced(Spliced(c, pos, d), pos + |d|, e), Spliced(c, pos, d + e);
    assert |a| == |b|;
    forall p: nat | p < |a| ensures a[p] == b[p] {
      assert p < |one| ==> one[p] == if pos <= p < pos + |d| then d[p - pos] else if p < |c| then c[p] else 0;
    }
  }

  /** The bytes [pos, pos + |d|) have been set to d, and no other byte has changed. */
  ghost predicate Wrote(blocks: seq<Block>, ino: Inode, blocks': seq<Block>, ino': Inode, pos: nat, d: seq<Byte>) {
    forall b :: b == blocks' ==> WroteIn(blocks, ino, b, ino', pos, d)
  }

  ghost predicate WroteIn(blocks: seq<Block>, ino: Inode, blocks': seq<Block>, ino': Inode, pos: nat, d: seq<Byte>) {
    forall p: nat :: ByteAt(blocks', ino', p) == if pos <= p < pos + |d| then d[p - pos] else ByteAt(blocks, ino, p)
  }

  /** With a size that covers it, a write is a splice, and the tail is still zeros. */
  lemma WroteContents(blocks: seq<Block>, ino: Inode, blocks': seq<Block>, ino': Inode, pos: nat, d: seq<Byte>)
    requires Wrote(blocks, ino, blocks', ino', pos, d) && ZeroTail(blocks, ino)
    requires ino'.size == if d != [] && pos + |d| > ino.size then pos + |d| else ino.size
    ensures Contents(blocks', ino') == Spliced(Contents(blocks, ino), pos, d) && ZeroTail(blocks', ino')
  {
    assert WroteIn(blocks, ino, blocks', ino', pos, d);
    var c, c' := Contents(blocks, ino), Contents(blocks', ino');
    forall p: nat | p < |c'| ensures c'[p] == Spliced(c, pos, d)[p] {
      assert ByteAt(blocks', ino', p) == if pos <= p < pos + |d| then d[p - pos] else ByteAt(blocks, ino, p);
    }
  }

  lemma WroteMore(blocks: seq<Block>, ino: Inode, blocks1: seq<Block>, ino1: Inode, blocks2: seq<Block>, ino2: Inode,
                  pos: nat, d: seq<Byte>, e: seq<Byte>)
    requires Wrote(blocks, ino, blocks1, ino1, pos, d) && Wrote(blocks1, ino1, blocks2, ino2, pos + |d|, e)
    ensures Wrote(blocks, ino, blocks2, ino2, pos, d + e)
  {
    assert WroteIn(blocks, ino, blocks1, ino1, pos, d) && WroteIn(blocks1, ino1, blocks2, ino2, pos + |d|, e);
    forall p: nat ensures ByteAt(blocks2, ino2, p) == if pos <= p < pos + |d + e| then (d + e)[p - pos]
        else ByteAt(blocks, ino, p) {
      assert ByteAt(blocks1, ino1, p) == if pos <= p < pos + |d| then d[p - pos] else ByteAt(blocks, ino, p);
    }
  }

  /** Block `index` has d at off, a hole's block starting from zeros; no other block has changed. */
  ghost predicate BlockPut(blocks: seq<Block>, ino: Inode, blocks': seq<Block>, ino': Inode, index: nat, off: nat,
      d: seq<Byte>)
    requires off + |d| <= BLOCK_SIZE
  {
    forall b :: b == blocks' ==> BlockPutIn(blocks, ino, b, ino', index, off, d)
  }

  ghost predicate BlockPutIn(blocks: seq<Block>, ino: Inode, blocks': seq<Block>, ino': Inode, index: nat, off: nat,
      d: seq<Byte>)
    requires off + |d| <= BLOCK_SIZE
  {
    forall k: nat :: FileBlock(blocks', ino', k)
                     == if k == index then Splice(FileBlock(blocks, ino, k), off, d) else FileBlock(blocks, ino, k)
  }

  /** That is the write of those bytes. */
  lemma BlockWrote(blocks: seq<Block>, ino: Inode, blocks': seq<Block>, ino': Inode, at: nat, d: seq<Byte>)
    requires at % BLOCK_SIZE + |d| <= BLOCK_SIZE
    requires BlockPut(blocks, ino, blocks', ino', at / BLOCK_SIZE, at % BLOCK_SIZE, d)
    ensures Wrote(blocks, ino, blocks', ino', at, d)
  {
    assert BlockPutIn(blocks, ino, blocks', ino', at / BLOCK_SIZE, at % BLOCK_SIZE, d);
    forall p: nat ensures ByteAt(blocks', ino', p) == if at <= p < at + |d| then d[p - at] else ByteAt(blocks, ino, p) {
      var k, off := at / BLOCK_SIZE, at % BLOCK_SIZE;
      if p / BLOCK_SIZE == k {
        assert p - at == p % BLOCK_SIZE - off;
      } else {
        assert !(at <= p < at + |d|);
      }
    }
    assert WroteIn(blocks, ino, blocks', ino', at, d);
  }

  /** A stretch inside one block is that stretch of the file. */
  lemma StretchOf(blocks: seq<Block>, ino: Inode, at: nat, len: nat, part: seq<Byte>)
    requires at % BLOCK_SIZE + len <= BLOCK_SIZE
    requires part == FileBlock(blocks, ino, at / BLOCK_SIZE)[at % BLOCK_SIZE..at % BLOCK_SIZE + len]
    ensures forall j :: 0 <= j < len ==> part[j] == ByteAt(blocks, ino, at + j)
  {
    forall j | 0 <= j < len ensures part[j] == ByteAt(blocks, ino, at + j) {
      assert (at + j) / BLOCK_SIZE == at / BLOCK_SIZE && (at + j) % BLOCK_SIZE == at % BLOCK_SIZE + j;
    }
  }

  /** Every file's tail is zeros. */
  ghost predicate Tidy(img: Image) {
    forall i :: i == img ==> TidyIn(i)
  }

  ghost predicate TidyIn(img: Image) {
    forall f: nat :: InUse(img, f) && img.inodes[f].mode == FILE_MODE ==> ZeroTail(img.blocks, img.inodes[f])
  }

  lemma TidyAt(img: Image, f: nat)
    requires Tidy(img) && InUse(img, f) && img.inodes[f].mode == FILE_MODE
    ensures ZeroTail(img.blocks, img.inodes[f])
  {
    assert TidyIn(img);
  }

  /** A change that spares the other files keeps their tails; the changed ones' must be shown. */
  lemma TidyKept(img: Image, img': Image, ids: set<nat>)
    requires Tidy(img) && Spared(img, img', ids)
    requires forall f :: f in ids && InUse(img', f) && img'.inodes[f].mode == FILE_MODE ==>
                 ZeroTail(img'.blocks, img'.inodes[f])
    ensures Tidy(img')
  {
    forall f: nat | InUse(img', f) && img'.inodes[f].mode == FILE_MODE ensures ZeroTail(img'.blocks, img'.inodes[f]) {
      if f !in ids {
        assert SparedAt(img, img', f);
        TidyAt(img, f);
        forall p: nat | p >= img'.inodes[f].size ensures ByteAt(img'.blocks, img'.inodes[f], p) == 0 {
          assert ByteAt(img.blocks, img.inodes[f], p) == 0;
        }
      }
    }
    assert TidyIn(img');
  }
}
