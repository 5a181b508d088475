/** Making a file system: the image every run of the calls starts from. */
module Mkfs {
  import opened Layout
  import opened Codec
  import opened Superblocks
  import opened NameTree
  import opened TreeOps
  import opened DiskImage
  import opened DirSlots
  import opened ImageUpdate
  import opened Calls
  import opened FileData

  const SUPERBLOCK_SIZE: nat := 48

  datatype Made = Made(img: Image) | TooSmall

  /**
   The image on a device that held anything before: the inode table zeroed, the metadata and
   the root's block marked, the root directory, and the superblock.
   */
  method Mkfs(device: seq<Block>, inodeCount: u32, now: u64) returns (r: Made)
    requires |device| < 0x1_0000_0000
    ensures r.TooSmall? <==> PlanLayout(|device|, inodeCount).Refused?
    ensures r.Made? ==>
              && Good(r.img) && Tidy(r.img) && r.img.sb == PlanLayout(|device|, inodeCount).sb
              && Tree(r.img).Keys == {ROOT}
              && r.img.inodes[ROOT].mtime == now && r.img.inodes[ROOT].size == BLOCK_SIZE
              && r.img.inodes[ROOT].direct[0] == r.img.sb.dataStart
              && forall b: nat :: b in r.img.blockBits <==> b <= r.img.sb.dataStart
  {
    var plan := PlanLayout(|device|, inodeCount);
    if plan.Refused? {
      return TooSmall;
    }
    var sb := plan.sb;
    PlanPasses(|device|, inodeCount);
    RegionsFit(sb, |device|);
    var inodes := ZeroTable(sb.inodeCount);
    var bits := MarkUpTo(sb.dataStart);
    var rootBlock := sb.dataStart;
    bits := bits + {rootBlock};
    var blocks := device[rootBlock := FirstBlock(ROOT_INODE, ROOT_INODE)];
    inodes := inodes[ROOT_INODE := NewDir(ROOT_INODE, rootBlock, now)];
    var img := Image(sb, Zeros(BLOCK_SIZE - SUPERBLOCK_SIZE), {0, ROOT_INODE}, bits, inodes, blocks);
    FreshImage(img, now);
    r := Made(img);
  }

  /** No inode is left over from an earlier file system. */
  method ZeroTable(n: nat) returns (inodes: seq<Inode>)
    ensures |inodes| == n && forall id: nat :: id < n ==> inodes[id] == ZERO_INODE
  {
    inodes := [];
    while |inodes| < n
      invariant |inodes| <= n && forall id: nat :: id < |inodes| ==> inodes[id] == ZERO_INODE
      decreases n - |inodes|
    {
      inodes := inodes + [ZERO_INODE];
    }
  }

  method MarkUpTo(n: nat) returns (bits: set<nat>)
    ensures forall b: nat :: b in bits <==> b < n
  {
    bits := {};
    var b := 0;
    while b < n
      invariant b <= n && forall k: nat :: k in bits <==> k < b
    {
      bits := bits + {b};
      b := b + 1;
    }
  }

  /** The one directory is a tree by itself: its "." and ".." are its two links. */
  lemma RootAlone(slots: seq<Entry>)
    requires FreshDir(slots, ROOT, ROOT)
    ensures TreeOk(map[ROOT := Dir(2, slots)])
  {
    var t := map[ROOT := Dir(2, slots)];
    RefsAre(t, ROOT);
    forall s ensures s in Refs(t, ROOT) <==> s in {Spot(ROOT, 0), Spot(ROOT, 1)} {
    }
    assert Refs(t, ROOT) == {Spot(ROOT, 0), Spot(ROOT, 1)};
    assert ReachIn(t, ROOT, 0);
    forall s, x ensures !Names(t, s, x) {
    }
  }

  lemma FreshImage(img: Image, now: u64)
    requires SuperblockOk(img.sb, |img.blocks|) && img.rest == Zeros(BLOCK_SIZE - SUPERBLOCK_SIZE)
    requires |img.inodes| == img.sb.inodeCount && img.inodeBits == {0, ROOT}
    requires ROOT < |img.inodes| && img.inodes[ROOT] == NewDir(ROOT_INODE, img.sb.dataStart, now)
    requires forall id: nat :: id < |img.inodes| && id != ROOT ==> img.inodes[id] == ZERO_INODE
    requires forall b: nat :: b in img.blockBits <==> b <= img.sb.dataStart
    requires img.sb.dataStart < |img.blocks| && img.blocks[img.sb.dataStart] == FirstBlock(ROOT_INODE, ROOT_INODE)
    ensures Good(img) && Tidy(img) && Tree(img).Keys == {ROOT}
  {
    FreshShape(img);
    FreshInodes(img, now);
    FreshTree(img, now);
    FreshTidy(img, now);
    assert GoodIn(img);
  }

  lemma FreshShape(img: Image)
    requires SuperblockOk(img.sb, |img.blocks|) && |img.inodes| == img.sb.inodeCount && img.inodeBits == {0, ROOT}
    requires forall b: nat :: b in img.blockBits <==> b <= img.sb.dataStart
    ensures Shaped(img) && 0 < img.sb.dataStart < img.sb.totalBlocks
  {
    RegionsFit(img.sb, |img.blocks|);
  }

  lemma FreshTree(img: Image, now: u64)
    requires ROOT < |img.inodes| && img.inodeBits == {0, ROOT}
    requires img.inodes[ROOT] == NewDir(ROOT_INODE, img.sb.dataStart, now)
    requires 0 < img.sb.dataStart < |img.blocks| && img.blocks[img.sb.dataStart] == FirstBlock(ROOT_INODE, ROOT_INODE)
    ensures Tree(img).Keys == {ROOT} && TreeOk(Tree(img))
  {
    FreshSlots(img.blocks, ROOT_INODE, ROOT_INODE, img.sb.dataStart, now);
    var slots := Slots(img.blocks, img.inodes[ROOT]);
    assert Tree(img) == map[ROOT := Dir(2, slots)];
    RootAlone(slots);
  }

  lemma FreshTidy(img: Image, now: u64)
    requires img.inodeBits == {0, ROOT} && ROOT < |img.inodes|
             && img.inodes[ROOT] == NewDir(ROOT_INODE, img.sb.dataStart, now)
    ensures Tidy(img)
  {
    assert TidyIn(img);
  }

  lemma FreshInodes(img: Image, now: u64)
    requires |img.inodes| == img.sb.inodeCount && img.inodeBits == {0, ROOT}
    requires ROOT < |img.inodes| && img.inodes[ROOT] == NewDir(ROOT_INODE, img.sb.dataStart, now)
    requires forall id: nat :: id < |img.inodes| && id != ROOT ==> img.inodes[id] == ZERO_INODE
    requires forall b: nat :: b in img.blockBits <==> b <= img.sb.dataStart
    requires 0 < img.sb.dataStart < img.sb.totalBlocks
    ensures InodesOk(img) && BitmapRule(img)
  {
    var ino := img.inodes[ROOT];
    OneBlock(img.blocks, ROOT_INODE, img.sb.dataStart, now);
    RootRules(img, now);
    forall b: nat | b < img.sb.totalBlocks
      ensures b in img.blockBits <==>
                b < img.sb.dataStart || exists id: nat :: InUse(img, id) && Owns(img.blocks, img.inodes[id], b)
    {
      assert Owns(img.blocks, ino, b) <==> b in Owned(img.blocks, ino);
      assert InUse(img, ROOT);
      if InUse(img, ROOT) {
        forall id: nat | InUse(img, id) ensures id == ROOT {
        }
      }
    }
  }

  lemma RootRules(img: Image, now: u64)
    requires |img.inodes| == img.sb.inodeCount && img.inodeBits == {0, ROOT}
    requires ROOT < |img.inodes| && img.inodes[ROOT] == NewDir(ROOT_INODE, img.sb.dataStart, now)
    requires forall id: nat :: id < |img.inodes| && id != ROOT ==> img.inodes[id] == ZERO_INODE
    requires 0 < img.sb.dataStart < img.sb.totalBlocks
    ensures InodesOk(img)
  {
    RootPointers(img, now);
    forall id: nat | id < |img.inodes| ensures InodeRule(img, id) && (InUse(img, id) ==> id == ROOT) {
    }
  }

  lemma RootPointers(img: Image, now: u64)
    requires ROOT < |img.inodes| && img.inodes[ROOT] == NewDir(ROOT_INODE, img.sb.dataStart, now)
    requires 0 < img.sb.dataStart < img.sb.totalBlocks
    ensures PointerRule(img, ROOT) && SizeRule(img.blocks, img.inodes[ROOT])
  {
    OneBlock(img.blocks, ROOT_INODE, img.sb.dataStart, now);
  }
}
