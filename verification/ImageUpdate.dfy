/** From what an operation did to one or two inodes to the rules of the whole image. */
module ImageUpdate {
  import opened Superblocks
  import opened NameTree
  import opened DiskImage
  import opened BlockTree
  import opened BlockMap

  /** A consistent image, as a fact that is unfolded on demand. */
  ghost predicate Good(img: Image) {
    forall i :: i == img ==> GoodIn(i)
  }

  ghost predicate GoodIn(img: Image) {
    Shaped(img) && Consistent(img)
  }

  lemma Parts(img: Image)
    requires Good(img)
    ensures Shaped(img) && SuperblockOk(img.sb, |img.blocks|) && (forall k :: 0 <= k < |img.rest| ==> img.rest[k] == 0)
    ensures InodesOk(img) && BitmapRule(img) && TreeOk(Tree(img))
  {
    assert GoodIn(img);
  }

  lemma GoodMounted(img: Image)
    requires Good(img)
    ensures Mounted(img) && ROOT < |img.inodes| && 0 !in Tree(img)
  {
    Parts(img);
    RegionsFit(img.sb, |img.blocks|);
    assert InodeRule(img, 0);
  }

  lemma RuleAt(img: Image, id: nat)
    requires Good(img) && id < |img.inodes|
    ensures InodeRule(img, id) && (InUse(img, id) ==> PointerRule(img, id) && SizeRule(img.blocks, img.inodes[id]))
  {
    Parts(img);
  }

  lemma ApartAt(img: Image, id: nat, other: nat)
    requires Good(img) && InUse(img, id) && InUse(img, other) && id != other
    ensures DisjointRule(img, id, other)
  {
    Parts(img);
  }

  lemma BitAt(img: Image, b: nat)
    requires Good(img) && b < img.sb.totalBlocks
    ensures b in img.blockBits <==> b < img.sb.dataStart || exists id: nat ::
                InUse(img, id) && Owns(img.blocks, img.inodes[id], b)
  {
    Parts(img);
  }

  lemma OwnedRange(img: Image, id: nat, b: nat)
    requires Good(img) && InUse(img, id) && Owns(img.blocks, img.inodes[id], b)
    ensures img.sb.dataStart <= b < img.sb.totalBlocks && b in img.blockBits && b in Owned(img.blocks, img.inodes[id])
  {
    RuleAt(img, id);
    var p :| IsPlace(p) && PtrAt(img.blocks, img.inodes[id], p) == b;
    BitAt(img, b);
  }

  lemma GoodSound(img: Image, id: nat)
    requires Good(img) && InUse(img, id)
    ensures Sound(img, img.inodes[id])
  {
    RuleAt(img, id);
    forall b | b in Owned(img.blocks, img.inodes[id]) ensures b in img.blockBits {
      OwnedRange(img, id, b);
    }
  }

  // -------------------------------------------------- inodes left alone

  /** The inodes outside `ids` are as they were, and so are their files. */
  ghost predicate Spared(img: Image, img': Image, ids: set<nat>) {
    |img'.inodes| == |img.inodes| && forall id: nat :: id < |img.inodes| && id !in ids ==> SparedAt(img, img', id)
  }

  ghost predicate SparedAt(img: Image, img': Image, id: nat)
    requires id < |img.inodes| == |img'.inodes|
  {
    && (id in img'.inodeBits <==> id in img.inodeBits) && img'.inodes[id] == img.inodes[id]
    && (InUse(img, id) ==> SameFile(img.blocks, img'.blocks, img.inodes[id]))
  }

  lemma SparedRules(img: Image, img': Image, id: nat)
    requires Good(img) && id < |img.inodes| == |img'.inodes| && SparedAt(img, img', id) && img'.sb == img.sb
    ensures InodeRule(img', id)
    ensures InUse(img', id) ==> PointerRule(img', id) && SizeRule(img'.blocks, img'.inodes[id])
    ensures InUse(img', id) ==> forall b :: Owns(img'.blocks, img'.inodes[id], b) <==>
            Owns(img.blocks, img.inodes[id], b)
    ensures InUse(img', id) ==> NodeOf(img'.blocks, img'.inodes[id]) == NodeOf(img.blocks, img.inodes[id])
  {
    RuleAt(img, id);
    if InUse(img, id) {
      SameFacts(img.blocks, img'.blocks, img.inodes[id]);
    }
  }

  // ------------------------------------------------------ inodes changed

  /** b is owned by one of these inodes. */
  ghost predicate OwnedBy(img: Image, ids: set<nat>, b: nat) {
    exists id :: id in ids && InUse(img, id) && Owns(img.blocks, img.inodes[id], b)
  }

  ghost predicate RulesAt(img: Image, id: nat)
    requires id < |img.inodes|
  {
    InodeRule(img, id) && (InUse(img, id) ==> PointerRule(img, id) && SizeRule(img.blocks, img.inodes[id]))
  }

  /** The inodes in `ids` keep their own rules and share no block. */
  ghost predicate RulesFor(img': Image, ids: set<nat>) {
    && (forall id :: id in ids && id < |img'.inodes| ==> RulesAt(img', id))
    && (forall id, other :: id in ids && other in ids && InUse(img', id) && InUse(img', other) && id != other ==>
          DisjointRule(img', id, other))
  }

  /** They take only blocks that were theirs or free, and the bitmap says so. */
  ghost predicate BitsFor(img: Image, img': Image, ids: set<nat>) {
    forall b: nat :: b < img.sb.totalBlocks ==>
      && (OwnedBy(img', ids, b) ==> OwnedBy(img, ids, b) || b !in img.blockBits)
      && (b in img'.blockBits <==> (b in img.blockBits && !OwnedBy(img, ids, b)) || OwnedBy(img', ids, b))
  }

  /** A change to the inodes in `ids` alone. */
  ghost predicate Settled(img: Image, img': Image, ids: set<nat>) {
    && img'.sb == img.sb && img'.rest == img.rest
    && Spared(img, img', ids) && RulesFor(img', ids) && BitsFor(img, img', ids)
  }

  /** A block that a spared inode owns is not one of the others'. */
  lemma SparedOwner(img: Image, img': Image, ids: set<nat>, id: nat, b: nat)
    requires Good(img) && Settled(img, img', ids) && id !in ids && InUse(img', id)
             && Owns(img'.blocks, img'.inodes[id], b)
    ensures !OwnedBy(img', ids, b) && b in img.blockBits && !OwnedBy(img, ids, b)
    ensures img.sb.dataStart <= b < img.sb.totalBlocks && InUse(img, id) && Owns(img.blocks, img.inodes[id], b)
  {
    assert SparedAt(img, img', id);
    SparedRules(img, img', id);
    OwnedRange(img, id, b);
    forall other | other in ids && InUse(img, other) ensures !Owns(img.blocks, img.inodes[other], b) {
      ApartAt(img, id, other);
    }
  }

  lemma Disjoint(img: Image, img': Image, ids: set<nat>, id: nat, other: nat)
    requires Good(img) && Settled(img, img', ids) && InUse(img', id) && InUse(img', other) && id != other
    ensures DisjointRule(img', id, other)
  {
    forall b | Owns(img'.blocks, img'.inodes[id], b) ensures !Owns(img'.blocks, img'.inodes[other], b) {
      if id !in ids {
        SparedOwner(img, img', ids, id, b);
        if other !in ids && Owns(img'.blocks, img'.inodes[other], b) {
          SparedOwner(img, img', ids, other, b);
          ApartAt(img, id, other);
        }
      } else if other !in ids && Owns(img'.blocks, img'.inodes[other], b) {
        SparedOwner(img, img', ids, other, b);
      } else if other in ids {
        assert DisjointRule(img', id, other);
      }
    }
  }

  lemma BitmapAt(img: Image, img': Image, ids: set<nat>, b: nat)
    requires Good(img) && Settled(img, img', ids) && b < img.sb.totalBlocks
    ensures b in img'.blockBits <==>
              b < img.sb.dataStart || exists id: nat :: InUse(img', id) && Owns(img'.blocks, img'.inodes[id], b)
  {
    BitAt(img, b);
    if b < img.sb.dataStart {
      MetadataFree(img, ids, b);
    } else if b in img'.blockBits && !OwnedBy(img', ids, b) {
      var id: nat :| InUse(img, id) && Owns(img.blocks, img.inodes[id], b);
      assert SparedAt(img, img', id);
      SparedRules(img, img', id);
      assert InUse(img', id) && Owns(img'.blocks, img'.inodes[id], b);
    } else if b !in img'.blockBits {
      forall id: nat | InUse(img', id) ensures !Owns(img'.blocks, img'.inodes[id], b) {
        if id !in ids && Owns(img'.blocks, img'.inodes[id], b) {
          SparedOwner(img, img', ids, id, b);
        }
      }
    }
  }

  lemma MetadataFree(img: Image, ids: set<nat>, b: nat)
    requires Good(img) && b < img.sb.dataStart
    ensures !OwnedBy(img, ids, b)
  {
    forall id | id in ids && InUse(img, id) ensures !Owns(img.blocks, img.inodes[id], b) {
      RuleAt(img, id);
    }
  }

  /** The rules about inodes and blocks hold again. */
  lemma BlocksKept(img: Image, img': Image, ids: set<nat>)
    requires Good(img) && Settled(img, img', ids)
    ensures InodesOk(img') && BitmapRule(img')
  {
    forall id: nat | id < |img'.inodes|
      ensures InodeRule(img', id)
      ensures InUse(img', id) ==> PointerRule(img', id) && SizeRule(img'.blocks, img'.inodes[id])
    {
      if id !in ids {
        assert SparedAt(img, img', id);
        SparedRules(img, img', id);
      } else {
        assert RulesAt(img', id);
      }
    }
    forall id: nat, other: nat | InUse(img', id) && InUse(img', other) && id != other
        ensures DisjointRule(img', id, other) {
      Disjoint(img, img', ids, id, other);
    }
    forall b: nat | b < img.sb.totalBlocks
      ensures b in img'.blockBits <==>
                b < img.sb.dataStart || exists id: nat :: InUse(img', id) && Owns(img'.blocks, img'.inodes[id], b)
    {
      BitmapAt(img, img', ids, b);
    }
  }

  /** Nothing but these inodes' nodes has changed in the tree. */
  lemma TreeChanges(img: Image, img': Image, ids: set<nat>)
    requires Good(img) && Settled(img, img', ids)
    ensures forall id: nat :: id !in ids ==> (id in Tree(img') <==> id in Tree(img))
    ensures forall id: nat :: id !in ids && id in Tree(img) ==> Tree(img')[id] == Tree(img)[id]
  {
    forall id: nat | id !in ids && id < |img.inodes|
      ensures id in Tree(img') <==> id in Tree(img)
      ensures id in Tree(img) ==> Tree(img')[id] == Tree(img)[id]
    {
      assert SparedAt(img, img', id);
      SparedRules(img, img', id);
    }
  }

  /** A settled change whose tree keeps its rules leaves the image consistent. */
  lemma SettledGood(img: Image, img': Image, ids: set<nat>)
    requires Good(img) && Settled(img, img', ids) && Shaped(img') && |img'.blocks| == |img.blocks| && TreeOk(Tree(img'))
    ensures Good(img')
  {
    Parts(img);
    BlocksKept(img, img', ids);
  }
}
