/** The block map's cases: what each kind of bmap_alloc comes to. */
module BlockMap {
  import opened Layout
  import opened Codec
  import opened DiskImage
  import opened BlockTree

  /** The set of a list of block numbers. */
  function Members(bs: seq<nat>): set<nat> {
    set k | 0 <= k < |bs| :: bs[k]
  }

  lemma MembersAdd(bs: seq<nat>, b: nat)
    ensures Members(bs + [b]) == Members(bs) + {b}
  {
    var more := bs + [b];
    forall x ensures x in Members(more) <==> x in Members(bs) + {b} {
      if x in Members(bs) {
        var k :| 0 <= k < |bs| && bs[k] == x;
        assert more[k] == x;
      }
      if x == b {
        assert more[|bs|] == x;
      }
    }
  }

  lemma {:induction false} MembersCount(bs: seq<nat>)
    ensures |Members(bs)| <= |bs|
    ensures Distinct(bs) ==> |Members(bs)| == |bs|
  {
    if bs != [] {
      var rest, last := bs[..|bs| - 1], bs[|bs| - 1];
      MembersCount(rest);
      MembersAdd(rest, last);
      assert bs == rest + [last];
    }
  }

  /** The blocks no bit is set for. */
  function Unused(img: Image): set<nat> {
    set b: nat | b < img.sb.totalBlocks && b !in img.blockBits
  }

  lemma SubsetCount<T>(a: set<T>, b: set<T>)
    requires a <= b
    ensures |a| <= |b|
  {
    assert |b - a| == |b| - |a|;
  }

  predicate Distinct(bs: seq<nat>) {
    forall i, k :: 0 <= i < k < |bs| ==> bs[i] != bs[k]
  }

  /** What free_blocks insists on: no block twice, each a data block in use. */
  predicate Freeable(img: Image, bs: seq<nat>) {
    Distinct(bs) && forall k :: 0 <= k < |bs| ==>
        img.sb.dataStart <= bs[k] < img.sb.totalBlocks && bs[k] in img.blockBits
  }

  /** b is the lowest number of those below n that is not in `used`. */
  predicate LowestFree(used: set<nat>, n: nat, b: nat) {
    b < n && b !in used && forall k :: 0 <= k < b ==> k in used
  }

  /** What a mounted image is like: a valid superblock, and the metadata marked in use. */
  ghost predicate Mounted(img: Image) {
    && Shaped(img) && |img.blocks| == img.sb.totalBlocks
    && 0 < img.sb.dataStart <= img.sb.totalBlocks
    && (forall b: nat :: b < img.sb.dataStart ==> b in img.blockBits)
    && 0 in img.inodeBits
  }

  // ----------------------------------------- the cases of the block map

  /** Blocks alloc_all has handed out. */
  ghost predicate TakenFor(img: Image, got: seq<nat>) {
    && Distinct(got) && Members(got) !! img.blockBits
    && forall n :: 0 <= n < |got| ==> img.sb.dataStart <= got[n] < img.sb.totalBlocks
  }

  /** Each was the lowest free block when its turn came. */
  ghost predicate InOrder(img: Image, got: seq<nat>) {
    forall g :: g == got ==> InOrderIn(img, g)
  }

  ghost predicate InOrderIn(img: Image, got: seq<nat>) {
    forall n :: 0 <= n < |got| ==> LowestFree(img.blockBits + Members(got[..n]), img.sb.totalBlocks, got[n])
  }

  lemma OneMoreInOrder(img: Image, got: seq<nat>, b: nat)
    requires InOrder(img, got) && LowestFree(img.blockBits + Members(got), img.sb.totalBlocks, b)
    ensures InOrder(img, got + [b])
  {
    assert InOrderIn(img, got);
    forall n | 0 <= n < |got + [b]|
        ensures LowestFree(img.blockBits + Members((got + [b])[..n]), img.sb.totalBlocks, (got + [b])[n]) {
      assert (got + [b])[..n] == got[..n];
      assert got[..|got|] == got;
    }
    assert InOrderIn(img, got + [b]);
  }

  lemma NoneInOrder(img: Image)
    ensures InOrder(img, [])
  {
    assert InOrderIn(img, []);
  }

  lemma TakenMore(img: Image, got: seq<nat>, b: nat)
    requires TakenFor(img, got) && b !in img.blockBits + Members(got) && img.sb.dataStart <= b < img.sb.totalBlocks
    ensures TakenFor(img, got + [b]) && Members(got + [b]) == Members(got) + {b}
  {
    MembersAdd(got, b);
    forall k | 0 <= k < |got| ensures got[k] != b {
      assert got[k] in Members(got);
    }
  }

  /** With these taken and none left, there were no more than these. */
  lemma NoMore(img: Image, got: seq<nat>)
    requires Unused(img.(blockBits := img.blockBits + Members(got))) == {}
    ensures |Unused(img)| <= |got|
  {
    forall b | b in Unused(img) ensures b in Members(got) {
      assert b !in Unused(img.(blockBits := img.blockBits + Members(got)));
    }
    SubsetCount(Unused(img), Members(got));
    MembersCount(got);
  }

  lemma GiveBack(img: Image, got: seq<nat>)
    requires TakenFor(img, got)
    ensures Freeable(img.(blockBits := img.blockBits + Members(got)), got)
    ensures img.blockBits + Members(got) - Members(got) == img.blockBits
  {
    forall k | 0 <= k < |got| ensures got[k] in Members(got) {
    }
  }

  lemma DirectMapped(img: Image, ino: Inode, i: nat, b: u32)
    requires Mounted(img) && Sound(img, ino) && i < DIRECT_PTRS && ino.direct[i] == 0
    requires img.sb.dataStart <= b < img.sb.totalBlocks && b !in img.blockBits && ino.blockCount + 1 < 0x1_0000_0000
    ensures Mapped(img, ino, img.(blockBits := img.blockBits + {b}),
                   ino.(direct := ino.direct[i := b], blockCount := ino.blockCount + 1), i, b)
  {
    PutDirect(img.blocks, ino, i, b, ino.blockCount + 1);
    var places := map[Place.Data(i) := b];
    ValuesOf1(Place.Data(i), b);
    MappedBy(img, ino, img.blocks, ino.(direct := ino.direct[i := b], blockCount := ino.blockCount + 1), i, b, places,
        {b}, {});
  }

  lemma SingleMapped(img: Image, ino: Inode, k: nat, b: u32)
    requires Mounted(img) && Sound(img, ino) && k < PTRS_PER_BLOCK && ino.single != 0
             && Entry32(img.blocks, ino.single, k) == 0
    requires img.sb.dataStart <= b < img.sb.totalBlocks && b !in img.blockBits && ino.blockCount + 1 < 0x1_0000_0000
    ensures ino.single < |img.blocks|
    ensures Mapped(img, ino,
                   img.(blocks := img.blocks[ino.single := PutWord(img.blocks[ino.single], k, b)],
                       blockBits := img.blockBits + {b}),
                   ino.(blockCount := ino.blockCount + 1), DIRECT_PTRS + k, b)
  {
    PutSingle(img.blocks, ino, img.sb.dataStart, k, b, ino.blockCount + 1);
    IndirectOwned(img.blocks, ino, img.sb.dataStart);
    SingleHolds(img.blocks, ino);
    var places := map[Place.Data(DIRECT_PTRS + k) := b];
    ValuesOf1(Place.Data(DIRECT_PTRS + k), b);
    MappedBy(img, ino, img.blocks[ino.single := PutWord(img.blocks[ino.single], k, b)],
        ino.(blockCount := ino.blockCount + 1),
             DIRECT_PTRS + k, b, places, {b}, {ino.single});
  }

  lemma NewSingleMapped(img: Image, ino: Inode, k: nat, got: seq<u32>)
    requires Mounted(img) && Sound(img, ino) && k < PTRS_PER_BLOCK && ino.single == 0
    requires |got| == 2 && TakenFor(img, got) && ino.blockCount + 2 < 0x1_0000_0000
    ensures Mapped(img, ino,
                   img.(blocks := img.blocks[got[0] := PutWord(ZERO_BLOCK, k, got[1])],
                       blockBits := img.blockBits + Members(got)),
                   ino.(single := got[0], blockCount := ino.blockCount + 2), DIRECT_PTRS + k, got[1])
  {
    TwoMembers(got);
    NotOwned(img, ino, got);
    NewSingle(img.blocks, ino, k, got[0], got[1], ino.blockCount + 2);
    var places := map[Single := got[0], Place.Data(DIRECT_PTRS + k) := got[1]];
    ValuesOf2(Single, got[0], Place.Data(DIRECT_PTRS + k), got[1]);
    MappedBy(img, ino, img.blocks[got[0] := PutWord(ZERO_BLOCK, k, got[1])],
        ino.(single := got[0], blockCount := ino.blockCount + 2),
             DIRECT_PTRS + k, got[1], places, Members(got), {got[0]});
  }

  lemma NewDoubleMapped(img: Image, ino: Inode, j: nat, k: nat, got: seq<u32>)
    requires Mounted(img) && Sound(img, ino) && j < PTRS_PER_BLOCK && k < PTRS_PER_BLOCK && ino.double == 0
    requires |got| == 3 && TakenFor(img, got) && ino.blockCount + 3 < 0x1_0000_0000
    ensures Mapped(img, ino,
                   img.(blocks := img.blocks[got[1] := PutWord(ZERO_BLOCK, k, got[2])][got[0] :=
                       PutWord(ZERO_BLOCK, j, got[1])],
                        blockBits := img.blockBits + Members(got)),
                   ino.(double := got[0], blockCount := ino.blockCount + 3), DoubleIndex(j, k), got[2])
  {
    ThreeMembers(got);
    NotOwned(img, ino, got);
    DoubleAt(img.blocks, ino, DoubleIndex(j, k), j, k);
    NewDouble(img.blocks, ino, j, k, got[0], got[1], got[2], ino.blockCount + 3);
    var places := map[Double := got[0], Second(j) := got[1], Place.Data(DoubleIndex(j, k)) := got[2]];
    ValuesOf3(Double, got[0], Second(j), got[1], Place.Data(DoubleIndex(j, k)), got[2]);
    MappedBy(img, ino, img.blocks[got[1] := PutWord(ZERO_BLOCK, k, got[2])][got[0] := PutWord(ZERO_BLOCK, j, got[1])],
             ino.(double := got[0], blockCount := ino.blockCount + 3), DoubleIndex(j, k), got[2], places, Members(got),
                 {got[0], got[1]});
  }

  lemma NewSecondMapped(img: Image, ino: Inode, j: nat, k: nat, got: seq<u32>)
    requires Mounted(img) && Sound(img, ino) && j < PTRS_PER_BLOCK && k < PTRS_PER_BLOCK
    requires ino.double != 0 && Entry32(img.blocks, ino.double, j) == 0
    requires |got| == 2 && TakenFor(img, got) && ino.blockCount + 2 < 0x1_0000_0000
    ensures ino.double < |img.blocks| && got[0] != ino.double
    ensures Mapped(img, ino,
                   img.(blocks := img.blocks[got[0] := PutWord(ZERO_BLOCK, k, got[1])][ino.double :=
                       PutWord(img.blocks[ino.double], j, got[0])],
                        blockBits := img.blockBits + Members(got)),
                   ino.(blockCount := ino.blockCount + 2), DoubleIndex(j, k), got[1])
  {
    TwoMembers(got);
    NotOwned(img, ino, got);
    IndirectOwned(img.blocks, ino, img.sb.dataStart);
    SingleHolds(img.blocks, ino);
    DoubleAt(img.blocks, ino, DoubleIndex(j, k), j, k);
    NewSecond(img.blocks, ino, img.sb.dataStart, j, k, got[0], got[1], ino.blockCount + 2);
    var places := map[Second(j) := got[0], Place.Data(DoubleIndex(j, k)) := got[1]];
    ValuesOf2(Second(j), got[0], Place.Data(DoubleIndex(j, k)), got[1]);
    MappedBy(img, ino, img.blocks[got[0] := PutWord(ZERO_BLOCK, k, got[1])][ino.double :=
        PutWord(img.blocks[ino.double], j, got[0])],
             ino.(blockCount := ino.blockCount + 2), DoubleIndex(j, k), got[1], places, Members(got),
                 {got[0], ino.double});
  }

  lemma SecondMapped(img: Image, ino: Inode, j: nat, k: nat, got: seq<u32>)
    requires Mounted(img) && Sound(img, ino) && j < PTRS_PER_BLOCK && k < PTRS_PER_BLOCK
    requires var second := Entry32(img.blocks, ino.double, j); second != 0 && Entry32(img.blocks, second, k) == 0
    requires |got| == 1 && TakenFor(img, got) && ino.blockCount + 1 < 0x1_0000_0000
    ensures Entry32(img.blocks, ino.double, j) < |img.blocks|
    ensures var second := Entry32(img.blocks, ino.double, j);
            Mapped(img, ino,
                   img.(blocks := img.blocks[second := PutWord(img.blocks[second], k, got[0])],
                       blockBits := img.blockBits + Members(got)),
                   ino.(blockCount := ino.blockCount + 1), DoubleIndex(j, k), got[0])
  {
    var second := Entry32(img.blocks, ino.double, j);
    OneMember(got);
    NotOwned(img, ino, got);
    DoubleAt(img.blocks, ino, DoubleIndex(j, k), j, k);
    PutSecond(img.blocks, ino, img.sb.dataStart, j, k, got[0], ino.blockCount + 1);
    assert PtrAt(img.blocks, ino, Second(j)) == second;
    var places := map[Place.Data(DoubleIndex(j, k)) := got[0]];
    ValuesOf1(Place.Data(DoubleIndex(j, k)), got[0]);
    MappedBy(img, ino, img.blocks[second := PutWord(img.blocks[second], k, got[0])],
        ino.(blockCount := ino.blockCount + 1),
             DoubleIndex(j, k), got[0], places, Members(got), {second});
  }

  lemma OneMember(bs: seq<nat>)
    requires |bs| == 1
    ensures Members(bs) == {bs[0]}
  {
    MembersAdd([], bs[0]);
    assert bs == [] + [bs[0]];
  }

  /** The two indirect blocks above a double-indirect entry are blocks of the disk. */
  lemma DoubleBlocks(img: Image, ino: Inode, j: nat, got: seq<nat>, top: nat, second: nat)
    requires Sound(img, ino) && |img.blocks| == img.sb.totalBlocks && j < PTRS_PER_BLOCK
    requires ino.double != 0 ==> top == ino.double
    requires Entry32(img.blocks, ino.double, j) != 0 ==> second == Entry32(img.blocks, ino.double, j)
    requires forall k :: 0 <= k < |got| ==> got[k] < img.sb.totalBlocks
    requires ino.double == 0 ==> top in got
    requires Entry32(img.blocks, ino.double, j) == 0 ==> second in got
    ensures top < |img.blocks| && second < |img.blocks|
    ensures ino.double != 0 ==> HoldsPtrs(img.blocks, ino, ino.double)
    ensures Entry32(img.blocks, ino.double, j) != 0 ==> HoldsPtrs(img.blocks, ino, second)
  {
    assert PtrAt(img.blocks, ino, Double) == ino.double;
    assert PtrAt(img.blocks, ino, Second(j)) == Entry32(img.blocks, ino.double, j);
  }

  lemma NotOwned(img: Image, ino: Inode, got: seq<nat>)
    requires Sound(img, ino) && TakenFor(img, got)
    ensures forall n :: 0 <= n < |got| ==> got[n] !in img.blockBits
    ensures forall n :: 0 <= n < |got| ==> !Owns(img.blocks, ino, got[n])
  {
    forall n | 0 <= n < |got| ensures got[n] !in img.blockBits && !Owns(img.blocks, ino, got[n]) {
      assert got[n] in Members(got);
    }
  }

  lemma SingleHolds(blocks: seq<Block>, ino: Inode)
    ensures ino.single != 0 ==> HoldsPtrs(blocks, ino, ino.single)
    ensures ino.double != 0 ==> HoldsPtrs(blocks, ino, ino.double)
  {
    assert PtrAt(blocks, ino, Single) == ino.single && PtrAt(blocks, ino, Double) == ino.double;
  }

  lemma TwoMembers(bs: seq<nat>)
    requires |bs| == 2 && Distinct(bs)
    ensures Members(bs) == {bs[0], bs[1]} && bs[0] != bs[1]
  {
    MembersAdd([], bs[0]);
    MembersAdd([bs[0]], bs[1]);
    assert bs == [] + [bs[0]] + [bs[1]];
  }

  lemma ThreeMembers(bs: seq<nat>)
    requires |bs| == 3 && Distinct(bs)
    ensures Members(bs) == {bs[0], bs[1], bs[2]} && bs[0] != bs[1] && bs[0] != bs[2] && bs[1] != bs[2]
  {
    TwoMembers(bs[..2]);
    MembersAdd(bs[..2], bs[2]);
    assert bs == bs[..2] + [bs[2]];
  }

  /** Room to count more blocks: there are fewer than 2^32 of them. */
  lemma CountFits(img: Image, ino: Inode, got: set<nat>)
    requires Sound(img, ino) && got !! img.blockBits && forall b :: b in got ==> b < img.sb.totalBlocks
    ensures ino.blockCount + |got| < 0x1_0000_0000
  {
    var all := Owned(img.blocks, ino) + got;
    Bounded(all, img.sb.totalBlocks);
    assert Owned(img.blocks, ino) !! got;
  }

  lemma {:induction false} Bounded(s: set<nat>, n: nat)
    requires forall b :: b in s ==> b < n
    ensures |s| <= n
  {
    if n > 0 {
      Bounded(s - {n - 1}, n - 1);
      assert n - 1 in s ==> |s - {n - 1}| == |s| - 1;
      assert n - 1 !in s ==> s - {n - 1} == s;
    } else {
      assert s == {};
    }
  }

  /** How many blocks file block `index`, a hole, takes: itself and the indirect blocks missing. */
  function Needed(blocks: seq<Block>, ino: Inode, index: nat): nat {
    if index < DIRECT_PTRS then 1
    else if index < DIRECT_PTRS + PTRS_PER_BLOCK then (if ino.single == 0 then 2 else 1)
    else if index < MAX_FILE_BLOCKS then
      1 + (if ino.double == 0 then 1 else 0)
        + (if Entry32(blocks, ino.double, (index - DIRECT_PTRS - PTRS_PER_BLOCK) / PTRS_PER_BLOCK) == 0 then 1 else 0)
    else 0
  }
}
