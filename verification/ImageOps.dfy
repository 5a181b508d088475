/** Each kind of change an operation makes takes a consistent image to a consistent one. */
module ImageOps {
  import opened Layout
  import opened Codec
  import opened NameTree
  import opened TreeOps
  import opened DiskImage
  import opened BlockTree
  import opened FileGrowth
  import opened DirSlots
  import opened ImageUpdate

  // ------------------------------------------- one inode's file rewritten

  function WithInode(img: Image, f: nat, ino: Inode): Image
    requires f < |img.inodes|
  {
    img.(inodes := img.inodes[f := ino])
  }

  /** Blocks that are f's, or were free, are no other inode's. */
  lemma OthersSpared(img: Image, f: nat, touched: set<nat>, blocks': seq<Block>, id: nat)
    requires Good(img) && InUse(img, f) && InUse(img, id) && f != id
    requires Touches(img.blocks, blocks', touched)
    requires forall b :: b in touched ==> Owns(img.blocks, img.inodes[f], b) || b !in img.blockBits
    ensures SameFile(img.blocks, blocks', img.inodes[id])
  {
    forall b | b in touched ensures !Owns(img.blocks, img.inodes[id], b) {
      ApartAt(img, f, id);
      if Owns(img.blocks, img.inodes[id], b) {
        OwnedRange(img, id, b);
      }
    }
    SameFiles(img.blocks, blocks', touched, img.inodes[id]);
  }

  lemma OwnedByOne(img: Image, f: nat, b: nat)
    ensures OwnedBy(img, {f}, b) <==> InUse(img, f) && Owns(img.blocks, img.inodes[f], b)
  {
  }

  lemma OwnsIn(img: Image, ino: Inode, b: nat)
    requires Sound(img, ino)
    ensures b in Owned(img.blocks, ino) <==> Owns(img.blocks, ino, b)
  {
    if Owns(img.blocks, ino, b) {
      var p :| IsPlace(p) && PtrAt(img.blocks, ino, p) == b;
    }
  }

  /** A file or directory whose blocks were extended or written, and its inode put back. */
  lemma ExtendedSettled(img: Image, f: nat, img1: Image, ino1: Inode)
    requires Good(img) && InUse(img, f) && Extended(img, img.inodes[f], img1, ino1)
    requires ino1.id == f && ino1.mode == img.inodes[f].mode && ino1.links == img.inodes[f].links
    requires SizeRule(img1.blocks, ino1)
    ensures f < |img1.inodes| && |img1.blocks| == |img.blocks|
    ensures Settled(img, WithInode(img1, f, ino1), {f}) && Shaped(WithInode(img1, f, ino1))
  {
    assert ExtendedTo(img, img.inodes[f], img1, ino1);
    var img' := WithInode(img1, f, ino1);
    GoodMounted(img);
    GoodSound(img, f);
    ExtendedMounted(img, img.inodes[f], img1, ino1);
    ExtendedSpares(img, f, img1, ino1);
    ExtendedRules(img, f, img1, ino1);
    ExtendedBits(img, f, img1, ino1);
  }

  lemma ExtendedRules(img: Image, f: nat, img1: Image, ino1: Inode)
    requires Good(img) && InUse(img, f) && Extended(img, img.inodes[f], img1, ino1)
    requires ino1.id == f && ino1.mode == img.inodes[f].mode && ino1.links == img.inodes[f].links
    requires SizeRule(img1.blocks, ino1)
    ensures f < |img1.inodes| && RulesFor(WithInode(img1, f, ino1), {f})
  {
    assert ExtendedTo(img, img.inodes[f], img1, ino1);
    RuleAt(img, f);
    var img' := WithInode(img1, f, ino1);
    assert InodeRule(img', f) && PointerRule(img', f);
  }

  lemma ExtendedBits(img: Image, f: nat, img1: Image, ino1: Inode)
    requires InUse(img, f) && Sound(img, img.inodes[f]) && Extended(img, img.inodes[f], img1, ino1)
    ensures f < |img1.inodes| && BitsFor(img, WithInode(img1, f, ino1), {f})
  {
    assert ExtendedTo(img, img.inodes[f], img1, ino1);
    var img' := WithInode(img1, f, ino1);
    forall b: nat | b < img.sb.totalBlocks
      ensures OwnedBy(img', {f}, b) ==> OwnedBy(img, {f}, b) || b !in img.blockBits
      ensures b in img'.blockBits <==> (b in img.blockBits && !OwnedBy(img, {f}, b)) || OwnedBy(img', {f}, b)
    {
      OwnedByOne(img, f, b);
      OwnedByOne(img', f, b);
      OwnsIn(img, img.inodes[f], b);
      OwnsIn(img1, ino1, b);
    }
  }

  lemma ExtendedSpares(img: Image, f: nat, img1: Image, ino1: Inode)
    requires Good(img) && InUse(img, f) && Extended(img, img.inodes[f], img1, ino1)
    ensures f < |img1.inodes| && Spared(img, WithInode(img1, f, ino1), {f})
  {
    assert ExtendedTo(img, img.inodes[f], img1, ino1);
    var img' := WithInode(img1, f, ino1);
    var touched := Owned(img1.blocks, ino1);
    forall b | b in touched ensures Owns(img.blocks, img.inodes[f], b) || b !in img.blockBits {
      assert b !in Owned(img.blocks, img.inodes[f]) ==> b in touched - Owned(img.blocks, img.inodes[f]);
    }
    forall id: nat | id < |img.inodes| && id !in {f} ensures SparedAt(img, img', id) {
      if InUse(img, id) {
        OthersSpared(img, f, touched, img1.blocks, id);
      }
    }
  }

  /** A file's blocks extended or written: the tree is the same, and every rule holds. */
  lemma FileWritten(img: Image, f: nat, img1: Image, ino1: Inode)
    requires Good(img) && InUse(img, f) && img.inodes[f].mode == FILE_MODE && Extended(img, img.inodes[f], img1, ino1)
    requires ino1.id == f && ino1.mode == img.inodes[f].mode && ino1.links == img.inodes[f].links
    requires SizeRule(img1.blocks, ino1)
    ensures f < |img1.inodes|
    ensures var img' := WithInode(img1, f, ino1);
            Good(img') && Tree(img') == Tree(img) && Spared(img, img', {f})
  {
    ExtendedSettled(img, f, img1, ino1);
    var img' := WithInode(img1, f, ino1);
    ExtendedSpares(img, f, img1, ino1);
    assert InUse(img', f) by {
      assert ExtendedTo(img, img.inodes[f], img1, ino1);
    }
    TreeChanges(img, img', {f});
    TreeAt(img, f);
    TreeAt(img', f);
    SameTrees(Tree(img), Tree(img'), f);
    GoodTree(img);
    SettledGood(img, img', {f});
  }

  lemma TreeAt(img: Image, id: nat)
    ensures id in Tree(img) <==> InUse(img, id)
    ensures InUse(img, id) ==> Tree(img)[id] == NodeOf(img.blocks, img.inodes[id])
  {
  }

  lemma SameTrees(t: map<nat, Node>, t': map<nat, Node>, f: nat)
    requires forall y :: y !in {f} ==> (y in t' <==> y in t)
    requires forall y :: y !in {f} && y in t ==> t'[y] == t[y]
    requires f in t && f in t' && t[f] == t'[f]
    ensures t' == t
  {
    forall y ensures y in t' <==> y in t {
      if y != f {
        assert y !in {f};
      }
    }
  }

  // --------------------------------------------- an inode added to a directory

  /**
   A new inode x, which owns the blocks `own`, and an entry for it in directory d: first
   its bits are taken (`taken`), then d is extended (`mid`, with d's inode as `dir1`), and
   at last its blocks and both inodes are written.
   */
  ghost predicate Adding(img: Image, d: nat, x: nat, own: set<nat>, mid: Image, dir1: Inode,
                         blocks': seq<Block>, xino: Inode, dir2: Inode)
  {
    forall i :: i == img ==> AddingIn(i, d, x, own, mid, dir1, blocks', xino, dir2)
  }

  ghost predicate AddingIn(img: Image, d: nat, x: nat, own: set<nat>, mid: Image, dir1: Inode,
                           blocks': seq<Block>, xino: Inode, dir2: Inode)
  {
    var taken := img.(inodeBits := img.inodeBits + {x}, blockBits := img.blockBits + own);
    && InUse(img, d) && IsDir(img.inodes[d]) && 0 < x < |img.inodes| && x !in img.inodeBits
    && own !! img.blockBits && (forall b :: b in own ==> img.sb.dataStart <= b < img.sb.totalBlocks)
    && Extended(taken, img.inodes[d], mid, dir1) && WholeDir(mid, dir1)
    && Touches(mid.blocks, blocks', own)
    && Owned(blocks', xino) == own && PointersOk(blocks', xino, img.sb.dataStart, img.sb.totalBlocks)
       && SizeRule(blocks', xino)
    && xino.id == x && (xino.mode == FILE_MODE || IsDir(xino)) && xino.links >= 1
    && SameButSize(dir1, img.inodes[d].(direct := dir1.direct, single := dir1.single, double := dir1.double,
       blockCount := dir1.blockCount, size := dir1.size))
    && dir2 == dir1.(links := dir2.links, mtime := dir2.mtime) && dir2.links >= 1
  }

  function AddedImage(mid: Image, blocks': seq<Block>, d: nat, dir2: Inode, x: nat, xino: Inode): Image
    requires d < |mid.inodes| && x < |mid.inodes|
  {
    mid.(blocks := blocks', inodes := mid.inodes[x := xino][d := dir2])
  }

  lemma AddingApart(img: Image, d: nat, x: nat, own: set<nat>, mid: Image, dir1: Inode,
                    blocks': seq<Block>, xino: Inode, dir2: Inode)
    requires Good(img) && Adding(img, d, x, own, mid, dir1, blocks', xino, dir2)
    ensures |mid.inodes| == |img.inodes| && |mid.blocks| == |img.blocks| && mid.sb == img.sb && mid.rest == img.rest
    ensures InUse(img, d) && 0 < x < |img.inodes| && x !in img.inodeBits && d != x
    ensures |blocks'| == |img.blocks| && forall b :: b in own ==> b < img.sb.totalBlocks
    ensures mid.inodes == img.inodes && mid.inodeBits == img.inodeBits + {x}
    ensures mid.blockBits == img.blockBits + own + Owned(mid.blocks, dir1)
    ensures Sound(mid, dir1) && own !! Owned(mid.blocks, dir1)
    ensures forall b :: b in Owned(mid.blocks, dir1) ==> Owns(img.blocks, img.inodes[d], b) || b !in img.blockBits
    ensures Owned(img.blocks, img.inodes[d]) <= Owned(mid.blocks, dir1)
    ensures SameFile(mid.blocks, blocks', dir1)
    ensures forall b: nat :: b < |img.blocks| && b !in Owned(mid.blocks, dir1) ==> mid.blocks[b] == img.blocks[b]
  {
    assert AddingIn(img, d, x, own, mid, dir1, blocks', xino, dir2);
    var taken := img.(inodeBits := img.inodeBits + {x}, blockBits := img.blockBits + own);
    assert ExtendedTo(taken, img.inodes[d], mid, dir1);
    GoodSound(img, d);
    var new1 := Owned(mid.blocks, dir1) - Owned(img.blocks, img.inodes[d]);
    forall b | b in Owned(mid.blocks, dir1)
      ensures b !in own && (Owns(img.blocks, img.inodes[d], b) || b !in img.blockBits)
    {
      assert b !in Owned(img.blocks, img.inodes[d]) ==> b in new1;
    }
    forall b | b in own ensures !Owns(mid.blocks, dir1, b) {
      OwnsIn(mid, dir1, b);
    }
    SameFiles(mid.blocks, blocks', own, dir1);
  }

  lemma AddingSpares(img: Image, d: nat, x: nat, own: set<nat>, mid: Image, dir1: Inode,
                     blocks': seq<Block>, xino: Inode, dir2: Inode)
    requires Good(img) && Adding(img, d, x, own, mid, dir1, blocks', xino, dir2)
    ensures d < |mid.inodes| == |img.inodes| && x < |mid.inodes|
            && Spared(img, AddedImage(mid, blocks', d, dir2, x, xino), {d, x})
  {
    assert AddingIn(img, d, x, own, mid, dir1, blocks', xino, dir2);
    AddingApart(img, d, x, own, mid, dir1, blocks', xino, dir2);
    var img' := AddedImage(mid, blocks', d, dir2, x, xino);
    var touched := Owned(mid.blocks, dir1) + own;
    assert Touches(img.blocks, blocks', touched);
    forall id: nat | id < |img.inodes| && id !in {d, x} ensures SparedAt(img, img', id) {
      if InUse(img, id) {
        OthersSpared(img, d, touched, blocks', id);
      }
    }
  }

  lemma AddingRules(img: Image, d: nat, x: nat, own: set<nat>, mid: Image, dir1: Inode,
                    blocks': seq<Block>, xino: Inode, dir2: Inode)
    requires Good(img) && Adding(img, d, x, own, mid, dir1, blocks', xino, dir2)
    ensures d < |mid.inodes| == |img.inodes| && x < |mid.inodes|
            && RulesFor(AddedImage(mid, blocks', d, dir2, x, xino), {d, x})
  {
    AddingRuleD(img, d, x, own, mid, dir1, blocks', xino, dir2);
    AddingRuleX(img, d, x, own, mid, dir1, blocks', xino, dir2);
    AddingDisjoints(img, d, x, own, mid, dir1, blocks', xino, dir2);
    RulesForTwo(AddedImage(mid, blocks', d, dir2, x, xino), d, x);
  }

  lemma RulesForTwo(img: Image, d: nat, x: nat)
    requires d < |img.inodes| && x < |img.inodes| && RulesAt(img, d) && RulesAt(img, x)
    requires DisjointRule(img, d, x) && DisjointRule(img, x, d)
    ensures RulesFor(img, {d, x})
  {
  }

  lemma AddingRuleD(img: Image, d: nat, x: nat, own: set<nat>, mid: Image, dir1: Inode,
                    blocks': seq<Block>, xino: Inode, dir2: Inode)
    requires Good(img) && Adding(img, d, x, own, mid, dir1, blocks', xino, dir2)
    ensures d < |mid.inodes| == |img.inodes| && x < |mid.inodes|
            && RulesAt(AddedImage(mid, blocks', d, dir2, x, xino), d)
  {
    assert AddingIn(img, d, x, own, mid, dir1, blocks', xino, dir2);
    AddingApart(img, d, x, own, mid, dir1, blocks', xino, dir2);
    AddingDirRules(img, d, x, own, mid, dir1, blocks', xino, dir2);
  }

  lemma AddingRuleX(img: Image, d: nat, x: nat, own: set<nat>, mid: Image, dir1: Inode,
                    blocks': seq<Block>, xino: Inode, dir2: Inode)
    requires Good(img) && Adding(img, d, x, own, mid, dir1, blocks', xino, dir2)
    ensures d < |mid.inodes| == |img.inodes| && x < |mid.inodes| && d != x
            && RulesAt(AddedImage(mid, blocks', d, dir2, x, xino), x)
  {
    assert AddingIn(img, d, x, own, mid, dir1, blocks', xino, dir2);
    AddingApart(img, d, x, own, mid, dir1, blocks', xino, dir2);
  }

  lemma AddingDisjoints(img: Image, d: nat, x: nat, own: set<nat>, mid: Image, dir1: Inode,
                        blocks': seq<Block>, xino: Inode, dir2: Inode)
    requires Good(img) && Adding(img, d, x, own, mid, dir1, blocks', xino, dir2)
    ensures d < |mid.inodes| == |img.inodes| && x < |mid.inodes| && d != x
    ensures var img' := AddedImage(mid, blocks', d, dir2, x, xino); DisjointRule(img', d, x) && DisjointRule(img', x, d)
  {
    AddingApart(img, d, x, own, mid, dir1, blocks', xino, dir2);
    forall b: nat ensures !(Owns(blocks', xino, b) && Owns(blocks', dir2, b)) {
      AddingDisjoint(img, d, x, own, mid, dir1, blocks', xino, dir2, b);
    }
  }

  lemma AddingDirRules(img: Image, d: nat, x: nat, own: set<nat>, mid: Image, dir1: Inode,
                       blocks': seq<Block>, xino: Inode, dir2: Inode)
    requires Good(img) && Adding(img, d, x, own, mid, dir1, blocks', xino, dir2)
    ensures PointersOk(blocks', dir2, img.sb.dataStart, img.sb.totalBlocks) && SizeRule(blocks', dir2)
    ensures Owned(blocks', dir2) == Owned(mid.blocks, dir1) && Slots(blocks', dir2) == Slots(mid.blocks, dir1)
    ensures d != x && dir2.id == d && IsDir(dir2) && InUse(img, d) && IsDir(img.inodes[d])
  {
    assert AddingIn(img, d, x, own, mid, dir1, blocks', xino, dir2);
    AddingApart(img, d, x, own, mid, dir1, blocks', xino, dir2);
    SameFacts(mid.blocks, blocks', dir1);
    SamePointersOk(mid.blocks, blocks', dir1, img.sb.dataStart, img.sb.totalBlocks);
    SameSlots(mid.blocks, blocks', dir1);
    assert WholeDirIn(mid, dir1);
    RuleAt(img, d);
    OtherFields(blocks', dir1, dir2);
  }

  /** Links and times are no part of what a file's blocks are. */
  lemma OtherFields(blocks: seq<Block>, ino: Inode, ino': Inode)
    requires ino' == ino.(links := ino'.links, mtime := ino'.mtime)
    ensures SizeRule(blocks, ino') == SizeRule(blocks, ino) && Slots(blocks, ino') == Slots(blocks, ino)
    ensures Owned(blocks, ino') == Owned(blocks, ino)
    ensures forall p :: IsPlace(p) ==> PtrAt(blocks, ino', p) == PtrAt(blocks, ino, p)
  {
    PointersOnly(blocks, ino, ino');
  }

  lemma AddingDisjoint(img: Image, d: nat, x: nat, own: set<nat>, mid: Image, dir1: Inode,
                       blocks': seq<Block>, xino: Inode, dir2: Inode, b: nat)
    requires Good(img) && Adding(img, d, x, own, mid, dir1, blocks', xino, dir2)
    ensures Owns(blocks', xino, b) <==> b in own
    ensures Owns(blocks', dir2, b) <==> b in Owned(mid.blocks, dir1)
    ensures !(Owns(blocks', xino, b) && Owns(blocks', dir2, b))
  {
    assert AddingIn(img, d, x, own, mid, dir1, blocks', xino, dir2);
    AddingApart(img, d, x, own, mid, dir1, blocks', xino, dir2);
    AddingDirRules(img, d, x, own, mid, dir1, blocks', xino, dir2);
    OwnsBounded(blocks', xino, img.sb.dataStart, img.sb.totalBlocks, b);
    OwnsBounded(blocks', dir2, img.sb.dataStart, img.sb.totalBlocks, b);
  }

  lemma OwnsBounded(blocks: seq<Block>, ino: Inode, lo: nat, hi: u32, b: nat)
    requires PointersOk(blocks, ino, lo, hi)
    ensures Owns(blocks, ino, b) <==> b in Owned(blocks, ino)
    ensures Owns(blocks, ino, b) ==> lo <= b < hi
  {
    if Owns(blocks, ino, b) {
      var p :| IsPlace(p) && PtrAt(blocks, ino, p) == b;
    }
  }

  lemma AddingBits(img: Image, d: nat, x: nat, own: set<nat>, mid: Image, dir1: Inode,
                   blocks': seq<Block>, xino: Inode, dir2: Inode)
    requires Good(img) && Adding(img, d, x, own, mid, dir1, blocks', xino, dir2)
    ensures d < |mid.inodes| == |img.inodes| && x < |mid.inodes|
            && BitsFor(img, AddedImage(mid, blocks', d, dir2, x, xino), {d, x})
  {
    assert AddingIn(img, d, x, own, mid, dir1, blocks', xino, dir2);
    AddingApart(img, d, x, own, mid, dir1, blocks', xino, dir2);
    AddingDirRules(img, d, x, own, mid, dir1, blocks', xino, dir2);
    GoodSound(img, d);
    var img' := AddedImage(mid, blocks', d, dir2, x, xino);
    forall b: nat | b < img.sb.totalBlocks
      ensures OwnedBy(img', {d, x}, b) ==> OwnedBy(img, {d, x}, b) || b !in img.blockBits
      ensures b in img'.blockBits <==> (b in img.blockBits && !OwnedBy(img, {d, x}, b)) || OwnedBy(img', {d, x}, b)
    {
      AddingDisjoint(img, d, x, own, mid, dir1, blocks', xino, dir2, b);
      AddingOwners(img, d, x, img', b);
      OwnsIn(img, img.inodes[d], b);
    }
  }

  lemma AddingOwners(img: Image, d: nat, x: nat, img': Image, b: nat)
    requires InUse(img, d) && 0 < x < |img.inodes| && x !in img.inodeBits
    requires |img'.inodes| == |img.inodes| && img'.inodeBits == img.inodeBits + {x}
    ensures OwnedBy(img, {d, x}, b) <==> Owns(img.blocks, img.inodes[d], b)
    ensures OwnedBy(img', {d, x}, b) <==> Owns(img'.blocks, img'.inodes[d], b) || Owns(img'.blocks, img'.inodes[x], b)
  {
  }

  lemma AddingSettled(img: Image, d: nat, x: nat, own: set<nat>, mid: Image, dir1: Inode,
                      blocks': seq<Block>, xino: Inode, dir2: Inode)
    requires Good(img) && Adding(img, d, x, own, mid, dir1, blocks', xino, dir2)
    ensures d < |mid.inodes| == |img.inodes| && x < |mid.inodes| && |blocks'| == |img.blocks|
    ensures var img' := AddedImage(mid, blocks', d, dir2, x, xino); Settled(img, img', {d, x}) && Shaped(img')
  {
    AddingShape(img, d, x, own, mid, dir1, blocks', xino, dir2);
    AddingSpares(img, d, x, own, mid, dir1, blocks', xino, dir2);
    AddingRules(img, d, x, own, mid, dir1, blocks', xino, dir2);
    AddingBits(img, d, x, own, mid, dir1, blocks', xino, dir2);
  }

  lemma AddingShape(img: Image, d: nat, x: nat, own: set<nat>, mid: Image, dir1: Inode,
                    blocks': seq<Block>, xino: Inode, dir2: Inode)
    requires Good(img) && Adding(img, d, x, own, mid, dir1, blocks', xino, dir2)
    ensures d < |mid.inodes| == |img.inodes| && x < |mid.inodes| && |blocks'| == |img.blocks|
    ensures Shaped(AddedImage(mid, blocks', d, dir2, x, xino)) && mid.sb == img.sb && mid.rest == img.rest
  {
    AddingApart(img, d, x, own, mid, dir1, blocks', xino, dir2);
    GoodMounted(img);
    forall b | b in mid.blockBits ensures b < img.sb.totalBlocks {
      if b in Owned(mid.blocks, dir1) {
        OwnsBounded(mid.blocks, dir1, img.sb.dataStart, img.sb.totalBlocks, b);
      }
    }
  }

  lemma AddingNodes(img: Image, d: nat, x: nat, own: set<nat>, mid: Image, dir1: Inode,
                    blocks': seq<Block>, xino: Inode, dir2: Inode)
    requires Good(img) && Adding(img, d, x, own, mid, dir1, blocks', xino, dir2)
    ensures d < |mid.inodes| && x < |mid.inodes| && d < |img.inodes| && d != x
    ensures InUse(img, d) && IsDir(img.inodes[d]) && !InUse(img, x)
    ensures var img' := AddedImage(mid, blocks', d, dir2, x, xino);
            && InUse(img', d) && InUse(img', x)
            && NodeOf(blocks', dir2) == Dir(dir2.links, Slots(mid.blocks, dir1))
  {
    AddingApart(img, d, x, own, mid, dir1, blocks', xino, dir2);
    AddingDirRules(img, d, x, own, mid, dir1, blocks', xino, dir2);
  }

  lemma AddingTree(img: Image, d: nat, x: nat, own: set<nat>, mid: Image, dir1: Inode,
                   blocks': seq<Block>, xino: Inode, dir2: Inode)
    requires Good(img) && Adding(img, d, x, own, mid, dir1, blocks', xino, dir2)
    requires d < |img.inodes| && dir2.links == img.inodes[d].links + if IsDir(xino) then 1 else 0
    ensures d < |mid.inodes| && x < |mid.inodes| && d in Tree(img) && Tree(img)[d].Dir? && x !in Tree(img)
    ensures Tree(img)[d].slots == Slots(img.blocks, img.inodes[d])
    ensures Tree(AddedImage(mid, blocks', d, dir2, x, xino))
            == Added(Tree(img), d, Slots(mid.blocks, dir1), x, NodeOf(blocks', xino))
  {
    AddingNodes(img, d, x, own, mid, dir1, blocks', xino, dir2);
    AddingSettled(img, d, x, own, mid, dir1, blocks', xino, dir2);
    GrownTree(img, AddedImage(mid, blocks', d, dir2, x, xino), d, x, Slots(mid.blocks, dir1), NodeOf(blocks', xino));
  }

  lemma GrownTree(img: Image, img': Image, d: nat, x: nat, slots': seq<Entry>, node: Node)
    requires Good(img) && Settled(img, img', {d, x}) && d != x
    requires InUse(img, d) && IsDir(img.inodes[d]) && !InUse(img, x) && InUse(img', d) && InUse(img', x)
    requires NodeOf(img'.blocks, img'.inodes[d]) == Dir(img.inodes[d].links + if node.Dir? then 1 else 0, slots')
    requires NodeOf(img'.blocks, img'.inodes[x]) == node
    ensures d in Tree(img) && Tree(img)[d].Dir? && x !in Tree(img)
    ensures Tree(img)[d].slots == Slots(img.blocks, img.inodes[d])
    ensures Tree(img') == Added(Tree(img), d, slots', x, node)
  {
    TreeAt(img, d);
    TreeAt(img, x);
    TreeAt(img', d);
    TreeAt(img', x);
    TreeChanges(img, img', {d, x});
    AddedMaps(Tree(img), Tree(img'), d, slots', x, node);
  }

  lemma AddedMaps(t: map<nat, Node>, t': map<nat, Node>, d: nat, slots': seq<Entry>, x: nat, node: Node)
    requires d in t && t[d].Dir? && x !in t && d != x
    requires forall y :: y !in {d, x} ==> (y in t' <==> y in t)
    requires forall y :: y !in {d, x} && y in t ==> t'[y] == t[y]
    requires d in t' && x in t' && t'[x] == node && t'[d] == Dir(t[d].links + if node.Dir? then 1 else 0, slots')
    ensures t' == Added(t, d, slots', x, node)
  {
    var u := Added(t, d, slots', x, node);
    forall y ensures y in t' <==> y in u {
      if y != d && y != x {
        assert y !in {d, x};
      }
    }
  }

  /** Adding an inode and its entry keeps the image consistent. */
  lemma AddedGood(img: Image, d: nat, x: nat, own: set<nat>, mid: Image, dir1: Inode,
                  blocks': seq<Block>, xino: Inode, dir2: Inode, i: nat, e: Entry)
    requires Good(img) && Adding(img, d, x, own, mid, dir1, blocks', xino, dir2)
    requires d < |img.inodes| && dir2.links == img.inodes[d].links + if IsDir(xino) then 1 else 0
    requires Inserted(Slots(img.blocks, img.inodes[d]), Slots(mid.blocks, dir1), i, e)
    requires NewEntry(Tree(img), d, x, NodeOf(blocks', xino), e)
    ensures d < |mid.inodes| && x < |mid.inodes|
    ensures var img' := AddedImage(mid, blocks', d, dir2, x, xino);
            && Good(img') && Spared(img, img', {d, x})
            && Tree(img') == Added(Tree(img), d, Slots(mid.blocks, dir1), x, NodeOf(blocks', xino))
  {
    AddingTree(img, d, x, own, mid, dir1, blocks', xino, dir2);
    AddingSettled(img, d, x, own, mid, dir1, blocks', xino, dir2);
    var img' := AddedImage(mid, blocks', d, dir2, x, xino);
    GoodMounted(img);
    GoodTree(img);
    FreeSlot(Tree(img), d, Slots(mid.blocks, dir1), i, e);
    AddKeepsTree(Tree(img), d, Slots(mid.blocks, dir1), i, x, NodeOf(blocks', xino), e);
    SettledGood(img, img', {d, x});
  }

  lemma GoodTree(img: Image)
    requires Good(img)
    ensures TreeOk(Tree(img))
  {
    Parts(img);
  }

  // ------------------------------------------ an inode taken out of a directory

  /** The entry of x in directory d has been zeroed (`mid`); x goes, and its blocks with it. */
  ghost predicate Removing(img: Image, d: nat, x: nat, mid: Image, dir2: Inode) {
    forall i :: i == img ==> RemovingIn(i, d, x, mid, dir2)
  }

  ghost predicate RemovingIn(img: Image, d: nat, x: nat, mid: Image, dir2: Inode) {
    && InUse(img, d) && IsDir(img.inodes[d]) && InUse(img, x) && x != d
    && Extended(img, img.inodes[d], mid, img.inodes[d]) && WholeDir(mid, img.inodes[d])
    && dir2 == img.inodes[d].(links := dir2.links, mtime := dir2.mtime) && dir2.links >= 1
  }

  function RemovedImage(mid: Image, d: nat, dir2: Inode, x: nat, freed: set<nat>): Image
    requires d < |mid.inodes| && x < |mid.inodes|
  {
    mid.(blockBits := mid.blockBits - freed, inodeBits := mid.inodeBits - {x},
        inodes := mid.inodes[x := ZERO_INODE][d := dir2])
  }

  lemma RemovingApart(img: Image, d: nat, x: nat, mid: Image, dir2: Inode)
    requires Good(img) && Removing(img, d, x, mid, dir2)
    ensures InUse(img, d) && InUse(img, x) && x != d && IsDir(img.inodes[d])
    ensures mid == img.(blocks := mid.blocks, blockBits := mid.blockBits) && |mid.blocks| == |img.blocks|
    ensures Sound(mid, img.inodes[d]) && Sound(img, img.inodes[d])
    ensures mid.blockBits == img.blockBits + Owned(mid.blocks, img.inodes[d])
    ensures Owned(img.blocks, img.inodes[d]) <= Owned(mid.blocks, img.inodes[d])
    ensures forall b :: b in Owned(mid.blocks, img.inodes[d]) ==>
                Owns(img.blocks, img.inodes[d], b) || b !in img.blockBits
    ensures SameFile(img.blocks, mid.blocks, img.inodes[x])
    ensures Owned(mid.blocks, img.inodes[x]) == Owned(img.blocks, img.inodes[x])
    ensures Owned(mid.blocks, img.inodes[x]) !! Owned(mid.blocks, img.inodes[d])
  {
    assert RemovingIn(img, d, x, mid, dir2);
    var dir := img.inodes[d];
    assert ExtendedTo(img, dir, mid, dir);
    GoodSound(img, d);
    var touched := Owned(mid.blocks, dir);
    forall b | b in touched ensures Owns(img.blocks, dir, b) || b !in img.blockBits {
      assert b !in Owned(img.blocks, dir) ==> b in touched - Owned(img.blocks, dir);
    }
    OthersSpared(img, d, touched, mid.blocks, x);
    SameFacts(img.blocks, mid.blocks, img.inodes[x]);
    forall b | b in Owned(img.blocks, img.inodes[x]) ensures b !in touched {
      ApartAt(img, d, x);
      OwnedRange(img, x, b);
    }
  }

  lemma RemovingSpares(img: Image, d: nat, x: nat, mid: Image, dir2: Inode)
    requires Good(img) && Removing(img, d, x, mid, dir2)
    ensures d < |mid.inodes| == |img.inodes| && x < |mid.inodes|
    ensures Spared(img, RemovedImage(mid, d, dir2, x, Owned(mid.blocks, mid.inodes[x])), {d, x})
  {
    RemovingApart(img, d, x, mid, dir2);
    assert RemovingIn(img, d, x, mid, dir2);
    assert ExtendedTo(img, img.inodes[d], mid, img.inodes[d]);
    var img' := RemovedImage(mid, d, dir2, x, Owned(mid.blocks, mid.inodes[x]));
    forall id: nat | id < |img.inodes| && id !in {d, x} ensures SparedAt(img, img', id) {
      if InUse(img, id) {
        OthersSpared(img, d, Owned(mid.blocks, img.inodes[d]), mid.blocks, id);
      }
    }
  }

  lemma RemovingDirRules(img: Image, d: nat, x: nat, mid: Image, dir2: Inode)
    requires Good(img) && Removing(img, d, x, mid, dir2)
    ensures d < |mid.inodes| && x < |mid.inodes|
    ensures PointersOk(mid.blocks, dir2, img.sb.dataStart, img.sb.totalBlocks) && SizeRule(mid.blocks, dir2)
    ensures d < |img.inodes| && Owned(mid.blocks, dir2) == Owned(mid.blocks, img.inodes[d])
    ensures Slots(mid.blocks, dir2) == Slots(mid.blocks, img.inodes[d])
    ensures dir2.id == d && IsDir(dir2) && dir2.links >= 1
  {
    assert RemovingIn(img, d, x, mid, dir2);
    assert ExtendedTo(img, img.inodes[d], mid, img.inodes[d]);
    assert WholeDirIn(mid, img.inodes[d]);
    RuleAt(img, d);
    OtherFields(mid.blocks, img.inodes[d], dir2);
  }

  lemma RemovingRules(img: Image, d: nat, x: nat, mid: Image, dir2: Inode)
    requires Good(img) && Removing(img, d, x, mid, dir2)
    ensures d < |mid.inodes| && x < |mid.inodes|
    ensures RulesFor(RemovedImage(mid, d, dir2, x, Owned(mid.blocks, mid.inodes[x])), {d, x})
  {
    RemovingApart(img, d, x, mid, dir2);
    RemovingDirRules(img, d, x, mid, dir2);
    RemovingRuleD(img, d, x, mid, dir2);
    RulesForOne(RemovedImage(mid, d, dir2, x, Owned(mid.blocks, mid.inodes[x])), d, x);
  }

  lemma RemovingRuleD(img: Image, d: nat, x: nat, mid: Image, dir2: Inode)
    requires Good(img) && Removing(img, d, x, mid, dir2)
    ensures d < |mid.inodes| && x < |mid.inodes|
    ensures RulesAt(RemovedImage(mid, d, dir2, x, Owned(mid.blocks, mid.inodes[x])), d)
  {
    RemovingDirRules(img, d, x, mid, dir2);
    RemovingShape(img, d, x, mid, dir2);
    RemovingNodes(img, d, x, mid, dir2);
    DirRulesAt(RemovedImage(mid, d, dir2, x, Owned(mid.blocks, mid.inodes[x])), d);
  }

  lemma DirRulesAt(img: Image, d: nat)
    requires InUse(img, d) && img.inodes[d].id == d && IsDir(img.inodes[d]) && img.inodes[d].links >= 1
    requires PointersOk(img.blocks, img.inodes[d], img.sb.dataStart, img.sb.totalBlocks)
             && SizeRule(img.blocks, img.inodes[d])
    ensures RulesAt(img, d)
  {
  }

  lemma RulesForOne(img: Image, d: nat, x: nat)
    requires d < |img.inodes| && 0 < x < |img.inodes| && RulesAt(img, d)
    requires img.inodes[x] == ZERO_INODE && x !in img.inodeBits
    ensures RulesFor(img, {d, x})
  {
  }

  lemma RemovingBits(img: Image, d: nat, x: nat, mid: Image, dir2: Inode)
    requires Good(img) && Removing(img, d, x, mid, dir2)
    ensures d < |mid.inodes| && x < |mid.inodes|
    ensures BitsFor(img, RemovedImage(mid, d, dir2, x, Owned(mid.blocks, mid.inodes[x])), {d, x})
  {
    RemovingApart(img, d, x, mid, dir2);
    RemovingDirRules(img, d, x, mid, dir2);
    GoodSound(img, x);
    var img' := RemovedImage(mid, d, dir2, x, Owned(mid.blocks, mid.inodes[x]));
    forall b: nat | b < img.sb.totalBlocks
      ensures OwnedBy(img', {d, x}, b) ==> OwnedBy(img, {d, x}, b) || b !in img.blockBits
      ensures b in img'.blockBits <==> (b in img.blockBits && !OwnedBy(img, {d, x}, b)) || OwnedBy(img', {d, x}, b)
    {
      RemovingOwners(img, d, x, img', b);
      OwnsIn(img, img.inodes[d], b);
      OwnsIn(img, img.inodes[x], b);
      OwnsBounded(mid.blocks, dir2, img.sb.dataStart, img.sb.totalBlocks, b);
    }
  }

  lemma RemovingOwners(img: Image, d: nat, x: nat, img': Image, b: nat)
    requires InUse(img, d) && InUse(img, x) && d != x
    requires |img'.inodes| == |img.inodes| && img'.inodeBits == img.inodeBits - {x}
    ensures OwnedBy(img, {d, x}, b) <==> Owns(img.blocks, img.inodes[d], b) || Owns(img.blocks, img.inodes[x], b)
    ensures OwnedBy(img', {d, x}, b) <==> Owns(img'.blocks, img'.inodes[d], b)
  {
  }

  lemma RemovingSettled(img: Image, d: nat, x: nat, mid: Image, dir2: Inode)
    requires Good(img) && Removing(img, d, x, mid, dir2)
    ensures d < |mid.inodes| == |img.inodes| && x < |mid.inodes|
    ensures var img' := RemovedImage(mid, d, dir2, x, Owned(mid.blocks, mid.inodes[x]));
            Settled(img, img', {d, x}) && Shaped(img') && |img'.blocks| == |img.blocks|
  {
    RemovingSpares(img, d, x, mid, dir2);
    RemovingRules(img, d, x, mid, dir2);
    RemovingBits(img, d, x, mid, dir2);
    RemovingShape(img, d, x, mid, dir2);
  }

  lemma RemovingShape(img: Image, d: nat, x: nat, mid: Image, dir2: Inode)
    requires Good(img) && Removing(img, d, x, mid, dir2)
    ensures d < |mid.inodes| == |img.inodes| && x < |mid.inodes|
    ensures var img' := RemovedImage(mid, d, dir2, x, Owned(mid.blocks, mid.inodes[x]));
            Shaped(img') && |img'.blocks| == |img.blocks| && img'.sb == img.sb && img'.rest == img.rest
  {
    RemovingApart(img, d, x, mid, dir2);
    GoodMounted(img);
    forall b | b in mid.blockBits ensures b < img.sb.totalBlocks {
      if b in Owned(mid.blocks, img.inodes[d]) {
        OwnsBounded(mid.blocks, img.inodes[d], img.sb.dataStart, img.sb.totalBlocks, b);
      }
    }
  }

  lemma RemovingNodes(img: Image, d: nat, x: nat, mid: Image, dir2: Inode)
    requires Good(img) && Removing(img, d, x, mid, dir2)
    ensures d < |mid.inodes| && x < |mid.inodes| && d < |img.inodes| && d != x
    ensures var img' := RemovedImage(mid, d, dir2, x, Owned(mid.blocks, mid.inodes[x]));
            && InUse(img', d) && !InUse(img', x)
            && NodeOf(img'.blocks, img'.inodes[d]) == Dir(dir2.links, Slots(mid.blocks, img.inodes[d]))
  {
    RemovingApart(img, d, x, mid, dir2);
    RemovingDirRules(img, d, x, mid, dir2);
  }

  lemma RemovedTree(img: Image, d: nat, x: nat, mid: Image, dir2: Inode, i: nat)
    requires Good(img) && Removing(img, d, x, mid, dir2)
    requires d < |img.inodes| && x < |img.inodes| && i < |Slots(img.blocks, img.inodes[d])|
    requires Slots(mid.blocks, img.inodes[d]) == Slots(img.blocks, img.inodes[d])[i := ZERO_ENTRY]
    requires dir2.links == img.inodes[d].links - if IsDir(img.inodes[x]) then 1 else 0
    requires InUse(img, d) && InUse(img, x) && IsDir(img.inodes[d])
    requires Removable(Tree(img), d, i, x) && d != x
    ensures d < |mid.inodes| && x < |mid.inodes|
    ensures d in Tree(img) && Tree(img)[d].Dir? && x in Tree(img) && (Tree(img)[x].Dir? ==> Tree(img)[d].links >= 1)
    ensures Tree(RemovedImage(mid, d, dir2, x, Owned(mid.blocks, mid.inodes[x]))) == Removed(Tree(img), d, i, x)
  {
    RemovingNodes(img, d, x, mid, dir2);
    RemovingSettled(img, d, x, mid, dir2);
    var img' := RemovedImage(mid, d, dir2, x, Owned(mid.blocks, mid.inodes[x]));
    TreeChanges(img, img', {d, x});
    TreeAt(img, d);
    TreeAt(img, x);
    TreeAt(img', d);
    TreeAt(img', x);
    RemovedMaps(Tree(img), Tree(img'), d, i, x);
  }

  /** Removing an entry, and the inode it named, keeps the image consistent. */
  lemma RemovedGood(img: Image, d: nat, x: nat, mid: Image, dir2: Inode, i: nat)
    requires Good(img) && Removing(img, d, x, mid, dir2)
    requires d < |img.inodes| && x < |img.inodes| && i < |Slots(img.blocks, img.inodes[d])|
    requires Slots(mid.blocks, img.inodes[d]) == Slots(img.blocks, img.inodes[d])[i := ZERO_ENTRY]
    requires dir2.links == img.inodes[d].links - if IsDir(img.inodes[x]) then 1 else 0
    requires Removable(Tree(img), d, i, x)
    ensures d < |mid.inodes| && x < |mid.inodes| && (Tree(img)[x].Dir? ==> Tree(img)[d].links >= 1)
    ensures var img' := RemovedImage(mid, d, dir2, x, Owned(mid.blocks, mid.inodes[x]));
            && Good(img') && Spared(img, img', {d, x}) && Tree(img') == Removed(Tree(img), d, i, x)
  {
    assert RemovingIn(img, d, x, mid, dir2);
    RemovedTree(img, d, x, mid, dir2, i);
    RemovingSettled(img, d, x, mid, dir2);
    GoodMounted(img);
    GoodTree(img);
    RemoveKeepsTree(Tree(img), d, i, x);
    SettledGood(img, RemovedImage(mid, d, dir2, x, Owned(mid.blocks, mid.inodes[x])), {d, x});
  }

  lemma RemovedMaps(t: map<nat, Node>, t': map<nat, Node>, d: nat, i: nat, x: nat)
    requires Removable(t, d, i, x) && (t[x].Dir? ==> t[d].links >= 1) && d != x
    requires forall y :: y !in {d, x} ==> (y in t' <==> y in t)
    requires forall y :: y !in {d, x} && y in t ==> t'[y] == t[y]
    requires d in t' && x !in t'
             && t'[d] == Dir(if t[x].Dir? then t[d].links - 1 else t[d].links, t[d].slots[i := ZERO_ENTRY])
    ensures t' == Removed(t, d, i, x)
  {
    var u := Removed(t, d, i, x);
    forall y ensures y in t' <==> y in u {
      if y != d && y != x {
        assert y !in {d, x};
      }
    }
  }
}
