/** How one file's blocks may change while every other file's stay: growing it and writing into it. */
module FileGrowth {
  import opened Layout
  import opened DiskImage
  import opened BlockTree
  import opened BlockMap

  /** Blocks may have been added to the file and its blocks rewritten; nothing else has changed. */
  ghost predicate Extended(img: Image, ino: Inode, img': Image, ino': Inode) {
    forall i :: i == img ==> ExtendedTo(i, ino, img', ino')
  }

  ghost predicate ExtendedTo(img: Image, ino: Inode, img': Image, ino': Inode) {
    && img' == img.(blocks := img'.blocks, blockBits := img'.blockBits)
    && Sound(img', ino')
    && Owned(img.blocks, ino) <= Owned(img'.blocks, ino')
    && Owned(img'.blocks, ino') - Owned(img.blocks, ino) !! img.blockBits
    && img'.blockBits == img.blockBits + Owned(img'.blocks, ino')
    && |img'.blocks| == |img.blocks|
    && (forall b: nat :: b < |img.blocks| && b !in Owned(img'.blocks, ino') ==> img'.blocks[b] == img.blocks[b])
  }

  lemma ExtendedNot(img: Image, ino: Inode)
    requires Sound(img, ino)
    ensures Extended(img, ino, img, ino)
  {
  }

  lemma ExtendedTwice(img: Image, ino: Inode, mid: Image, ino1: Inode, img': Image, ino': Inode)
    requires Extended(img, ino, mid, ino1) && Extended(mid, ino1, img', ino')
    ensures Extended(img, ino, img', ino')
  {
    assert ExtendedTo(img, ino, mid, ino1) && ExtendedTo(mid, ino1, img', ino');
  }

  lemma ExtendedMounted(img: Image, ino: Inode, img': Image, ino': Inode)
    requires Mounted(img) && Extended(img, ino, img', ino')
    ensures Mounted(img') && Sound(img', ino') && img' == img.(blocks := img'.blocks, blockBits := img'.blockBits)
  {
    assert ExtendedTo(img, ino, img', ino');
    forall b | b in img'.blockBits ensures b < img.sb.totalBlocks {
      if b in Owned(img'.blocks, ino') {
        assert Owns(img'.blocks, ino', b);
      }
    }
  }

  lemma HeldIsOwned(blocks: seq<Block>, ino: Inode, b: nat)
    requires HoldsPtrs(blocks, ino, b)
    ensures Owns(blocks, ino, b)
  {
  }

  lemma MappedExtends(img: Image, ino: Inode, img': Image, ino': Inode, index: nat, value: nat)
    requires Sound(img, ino) && Mapped(img, ino, img', ino', index, value) && img.sb.totalBlocks == |img.blocks|
    ensures Extended(img, ino, img', ino')
  {
    assert MappedAt(img, ino, img', ino', index, value);
    forall b: nat | b < |img.blocks| && b !in Owned(img'.blocks, ino') ensures img'.blocks[b] == img.blocks[b] {
      if HoldsPtrs(img.blocks, ino, b) {
        HeldIsOwned(img.blocks, ino, b);
      }
    }
  }

  /** A data block of the file rewritten: the pointers stay, and so do its other blocks. */
  lemma WriteData(img: Image, ino: Inode, k: nat, w: Block)
    requires Sound(img, ino) && img.sb.totalBlocks == |img.blocks| && DataPtr(img.blocks, ino, k) != 0
    ensures k < MAX_FILE_BLOCKS && DataPtr(img.blocks, ino, k) < |img.blocks|
    ensures var img' := img.(blocks := img.blocks[DataPtr(img.blocks, ino, k) := w]);
            && Extended(img, ino, img', ino) && Sound(img', ino) && Kept(img.blocks, ino, img'.blocks, ino)
            && (forall j: nat :: DataPtr(img'.blocks, ino, j) == DataPtr(img.blocks, ino, j))
            && (forall j: nat :: FileBlock(img'.blocks, ino, j) == if j == k then w else FileBlock(img.blocks, ino, j))
            && Owned(img'.blocks, ino) == Owned(img.blocks, ino)
  {
    assert PtrAt(img.blocks, ino, Data(k)) == DataPtr(img.blocks, ino, k);
    var b := DataPtr(img.blocks, ino, k);
    var blocks' := img.blocks[b := w];
    assert !HoldsPtrs(img.blocks, ino, b);
    SamePointers(img.blocks, blocks', {b}, ino);
    SameOwned(img.blocks, blocks', ino);
    KeptSame(img.blocks, ino, blocks');
    forall j: nat
      ensures DataPtr(blocks', ino, j) == DataPtr(img.blocks, ino, j)
      ensures FileBlock(blocks', ino, j) == if j == k then w else FileBlock(img.blocks, ino, j)
    {
      if j < MAX_FILE_BLOCKS {
        assert PtrAt(blocks', ino, Data(j)) == PtrAt(img.blocks, ino, Data(j));
      }
    }
    assert Owns(img.blocks, ino, b);
    SamePointersOk(img.blocks, blocks', ino, img.sb.dataStart, img.sb.totalBlocks);
  }

  lemma SameOwned(blocks: seq<Block>, blocks': seq<Block>, ino: Inode)
    requires forall p :: IsPlace(p) ==> PtrAt(blocks', ino, p) == PtrAt(blocks, ino, p)
    ensures Owned(blocks', ino) == Owned(blocks, ino)
  {
    forall b: nat ensures Owns(blocks', ino, b) <==> Owns(blocks, ino, b) {
      if Owns(blocks', ino, b) {
        var p :| IsPlace(p) && PtrAt(blocks', ino, p) == b;
        assert PtrAt(blocks, ino, p) == b;
      }
      if Owns(blocks, ino, b) {
        var p :| IsPlace(p) && PtrAt(blocks, ino, p) == b;
        assert PtrAt(blocks', ino, p) == b;
      }
    }
  }

  lemma SamePointersOk(blocks: seq<Block>, blocks': seq<Block>, ino: Inode, lo: nat, hi: nat)
    requires forall p :: IsPlace(p) ==> PtrAt(blocks', ino, p) == PtrAt(blocks, ino, p)
    requires PointersOk(blocks, ino, lo, hi)
    ensures PointersOk(blocks', ino, lo, hi)
  {
  }
}
