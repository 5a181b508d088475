/** How an inode's pointers change when blocks are written, and when they are not. */
module BlockTree {
  import opened Layout
  import opened Codec
  import opened DiskImage

  /** The blocks outside s are as they were. */
  ghost predicate Touches(blocks: seq<Block>, blocks': seq<Block>, s: set<nat>) {
    |blocks'| == |blocks| && forall b: nat :: b < |blocks| && b !in s ==> blocks'[b] == blocks[b]
  }

  /** ino's pointers, and its file blocks, are as they were. */
  ghost predicate SameFile(blocks: seq<Block>, blocks': seq<Block>, ino: Inode) {
    && (forall p :: IsPlace(p) ==> PtrAt(blocks', ino, p) == PtrAt(blocks, ino, p))
    && (forall k: nat :: FileBlock(blocks', ino, k) == FileBlock(blocks, ino, k))
  }

  /** An indirect block of ino's: one whose words are pointers. */
  ghost predicate HoldsPtrs(blocks: seq<Block>, ino: Inode, b: nat) {
    b != 0 && exists p :: IsPlace(p) && !p.Data? && PtrAt(blocks, ino, p) == b
  }

  lemma SamePointers(blocks: seq<Block>, blocks': seq<Block>, s: set<nat>, ino: Inode)
    requires Touches(blocks, blocks', s) && forall b :: b in s ==> !HoldsPtrs(blocks, ino, b)
    ensures forall p :: IsPlace(p) ==> PtrAt(blocks', ino, p) == PtrAt(blocks, ino, p)
  {
    SameIndirect(blocks, blocks', s, ino, Single);
    SameIndirect(blocks, blocks', s, ino, Double);
    forall j: nat | j < PTRS_PER_BLOCK
      ensures PtrAt(blocks', ino, Second(j)) == PtrAt(blocks, ino, Second(j))
      ensures var b := PtrAt(blocks, ino, Second(j)); b != 0 ==> Load(blocks', b) == Load(blocks, b)
    {
      SameIndirect(blocks, blocks', s, ino, Second(j));
    }
    forall p | IsPlace(p) ensures PtrAt(blocks', ino, p) == PtrAt(blocks, ino, p) {
      if p.Data? && p.index >= DIRECT_PTRS + PTRS_PER_BLOCK {
        var j := (p.index - DIRECT_PTRS - PTRS_PER_BLOCK) / PTRS_PER_BLOCK;
        assert PtrAt(blocks', ino, Second(j)) == PtrAt(blocks, ino, Second(j));
      }
    }
  }

  lemma SameIndirect(blocks: seq<Block>, blocks': seq<Block>, s: set<nat>, ino: Inode, p: Place)
    requires Touches(blocks, blocks', s) && forall b :: b in s ==> !HoldsPtrs(blocks, ino, b)
    requires IsPlace(p) && !p.Data?
    ensures var b := PtrAt(blocks, ino, p); b != 0 ==> b !in s && Load(blocks', b) == Load(blocks, b)
  {
    var b := PtrAt(blocks, ino, p);
    if b != 0 {
      assert HoldsPtrs(blocks, ino, b);
    }
  }

  lemma SameFiles(blocks: seq<Block>, blocks': seq<Block>, s: set<nat>, ino: Inode)
    requires Touches(blocks, blocks', s) && forall b :: b in s ==> !Owns(blocks, ino, b)
    ensures SameFile(blocks, blocks', ino)
  {
    SamePointers(blocks, blocks', s, ino);
    forall k: nat ensures FileBlock(blocks', ino, k) == FileBlock(blocks, ino, k) {
      if k < MAX_FILE_BLOCKS {
        assert PtrAt(blocks', ino, Data(k)) == PtrAt(blocks, ino, Data(k));
        assert DataPtr(blocks, ino, k) != 0 ==> Owns(blocks, ino, PtrAt(blocks, ino, Data(k)));
      }
    }
  }

  /** What depends on the pointers and the file blocks alone stays as it was. */
  lemma SameFacts(blocks: seq<Block>, blocks': seq<Block>, ino: Inode)
    requires SameFile(blocks, blocks', ino)
    ensures forall b :: Owns(blocks', ino, b) <==> Owns(blocks, ino, b)
    ensures Owned(blocks', ino) == Owned(blocks, ino)
    ensures forall k: nat :: DataPtr(blocks', ino, k) == DataPtr(blocks, ino, k)
    ensures NodeOf(blocks', ino) == NodeOf(blocks, ino)
    ensures SizeRule(blocks', ino) == SizeRule(blocks, ino)
  {
    forall k: nat ensures DataPtr(blocks', ino, k) == DataPtr(blocks, ino, k) {
      if k < MAX_FILE_BLOCKS {
        assert PtrAt(blocks', ino, Data(k)) == PtrAt(blocks, ino, Data(k));
      }
    }
    forall b ensures Owns(blocks', ino, b) <==> Owns(blocks, ino, b) {
      if Owns(blocks', ino, b) {
        var p :| IsPlace(p) && PtrAt(blocks', ino, p) == b;
        assert PtrAt(blocks, ino, p) == b;
      }
      if Owns(blocks, ino, b) {
        var p :| IsPlace(p) && PtrAt(blocks, ino, p) == b;
        assert PtrAt(blocks', ino, p) == b;
      }
    }
    SameSlots(blocks, blocks', ino);
  }

  lemma SameSlots(blocks: seq<Block>, blocks': seq<Block>, ino: Inode)
    requires forall k: nat :: FileBlock(blocks', ino, k) == FileBlock(blocks, ino, k)
    ensures Slots(blocks', ino) == Slots(blocks, ino)
  {
  }

  // -------------------------------------------------------- adding pointers

  /** The pointers in `places`, holes before, have been set, and no other has changed. */
  ghost predicate Grew(blocks: seq<Block>, ino: Inode, blocks': seq<Block>, ino': Inode, places: map<Place, nat>) {
    && (forall p :: p in places ==> IsPlace(p) && PtrAt(blocks, ino, p) == 0 && places[p] != 0)
    && (forall p, q :: p in places && q in places && places[p] == places[q] ==> p == q)
    && (forall p :: IsPlace(p) ==> PtrAt(blocks', ino', p) == if p in places then places[p] else PtrAt(blocks, ino, p))
  }

  /** Whatever was a pointer still is, to the same block: holes may have been filled. */
  ghost predicate Kept(blocks: seq<Block>, ino: Inode, blocks': seq<Block>, ino': Inode) {
    forall b :: b == blocks ==> KeptIn(b, ino, blocks', ino')
  }

  ghost predicate KeptIn(blocks: seq<Block>, ino: Inode, blocks': seq<Block>, ino': Inode) {
    forall p :: IsPlace(p) && PtrAt(blocks, ino, p) != 0 ==> PtrAt(blocks', ino', p) == PtrAt(blocks, ino, p)
  }

  lemma KeptTwice(a: seq<Block>, i: Inode, b: seq<Block>, j: Inode, c: seq<Block>, k: Inode)
    requires Kept(a, i, b, j) && Kept(b, j, c, k)
    ensures Kept(a, i, c, k)
  {
    assert KeptIn(a, i, b, j) && KeptIn(b, j, c, k);
    assert KeptIn(a, i, c, k);
  }

  lemma KeptSame(blocks: seq<Block>, ino: Inode, blocks': seq<Block>)
    requires forall p :: IsPlace(p) ==> PtrAt(blocks', ino, p) == PtrAt(blocks, ino, p)
    ensures Kept(blocks, ino, blocks', ino)
  {
    assert KeptIn(blocks, ino, blocks', ino);
  }

  lemma KeptGrown(blocks: seq<Block>, ino: Inode, blocks': seq<Block>, ino': Inode, places: map<Place, nat>)
    requires Grew(blocks, ino, blocks', ino', places)
    ensures Kept(blocks, ino, blocks', ino')
  {
    assert KeptIn(blocks, ino, blocks', ino');
  }

  function DoubleIndex(j: nat, k: nat): nat {
    DIRECT_PTRS + PTRS_PER_BLOCK + j * PTRS_PER_BLOCK + k
  }

  lemma PutDirect(blocks: seq<Block>, ino: Inode, i: nat, b: u32, count: u32)
    requires i < DIRECT_PTRS && ino.direct[i] == 0 && b != 0
    ensures Grew(blocks, ino, blocks, ino.(direct := ino.direct[i := b], blockCount := count), map[Data(i) := b])
  {
  }

  lemma PutSingle(blocks: seq<Block>, ino: Inode, lo: nat, k: nat, b: u32, count: u32)
    requires PointersOk(blocks, ino, lo, |blocks|) && k < PTRS_PER_BLOCK && b != 0
    requires ino.single != 0 && Entry32(blocks, ino.single, k) == 0
    ensures ino.single < |blocks|
    ensures Grew(blocks, ino, blocks[ino.single := PutWord(blocks[ino.single], k, b)], ino.(blockCount := count),
                 map[Data(DIRECT_PTRS + k) := b])
  {
    assert PtrAt(blocks, ino, Single) == ino.single;
    var blocks' := blocks[ino.single := PutWord(blocks[ino.single], k, b)];
    forall p | IsPlace(p) && !p.Data? ensures PtrAt(blocks', ino, p) == PtrAt(blocks, ino, p) {
      assert PtrAt(blocks, ino, Double) == ino.double;
    }
    forall i: nat | i < MAX_FILE_BLOCKS
      ensures DataPtr(blocks', ino, i) == if i == DIRECT_PTRS + k then b else DataPtr(blocks, ino, i)
    {
      if DIRECT_PTRS <= i < DIRECT_PTRS + PTRS_PER_BLOCK {
        WordOfPut(blocks[ino.single], k, b, i - DIRECT_PTRS);
      } else if i >= DIRECT_PTRS {
        var j := (i - DIRECT_PTRS - PTRS_PER_BLOCK) / PTRS_PER_BLOCK;
        assert PtrAt(blocks', ino, Second(j)) == PtrAt(blocks, ino, Second(j));
        assert PtrAt(blocks, ino, Second(j)) == 0 || PtrAt(blocks, ino, Second(j)) != ino.single;
      }
    }
    SameButData(blocks, ino, blocks', ino.(blockCount := count), DIRECT_PTRS + k, b);
  }

  /** One data pointer set, and nothing else. */
  lemma SameButData(blocks: seq<Block>, ino: Inode, blocks': seq<Block>, ino': Inode, index: nat, b: u32)
    requires index < MAX_FILE_BLOCKS && b != 0 && DataPtr(blocks, ino, index) == 0
    requires ino'.direct == ino.direct && ino'.single == ino.single && ino'.double == ino.double
    requires forall p :: IsPlace(p) && !p.Data? ==> PtrAt(blocks', ino, p) == PtrAt(blocks, ino, p)
    requires forall i: nat :: i < MAX_FILE_BLOCKS ==>
               DataPtr(blocks', ino, i) == if i == index then b else DataPtr(blocks, ino, i)
    ensures Grew(blocks, ino, blocks', ino', map[Data(index) := b])
  {
    forall p | IsPlace(p)
      ensures PtrAt(blocks', ino', p) == if p == Data(index) then b else PtrAt(blocks, ino, p)
    {
      assert PtrAt(blocks', ino', p) == PtrAt(blocks', ino, p);
    }
  }

  /** The pointers to indirect blocks stay when second-level block j gets a new entry. */
  lemma PutSecondIndirect(blocks: seq<Block>, ino: Inode, lo: nat, j: nat, k: nat, b: u32)
    requires PointersOk(blocks, ino, lo, |blocks|) && j < PTRS_PER_BLOCK && k < PTRS_PER_BLOCK
    requires Entry32(blocks, ino.double, j) != 0
    ensures Entry32(blocks, ino.double, j) < |blocks| && ino.single != Entry32(blocks, ino.double, j)
    ensures var second := Entry32(blocks, ino.double, j);
            var blocks' := blocks[second := PutWord(blocks[second], k, b)];
            forall p :: IsPlace(p) && !p.Data? ==> PtrAt(blocks', ino, p) == PtrAt(blocks, ino, p)
  {
    assert PtrAt(blocks, ino, Second(j)) == Entry32(blocks, ino.double, j);
    assert PtrAt(blocks, ino, Double) == ino.double && PtrAt(blocks, ino, Single) == ino.single;
  }

  lemma PutSecondAt(blocks: seq<Block>, ino: Inode, lo: nat, j: nat, k: nat, b: u32, i: nat)
    requires PointersOk(blocks, ino, lo, |blocks|) && j < PTRS_PER_BLOCK && k < PTRS_PER_BLOCK
    requires Entry32(blocks, ino.double, j) != 0 && Entry32(blocks, ino.double, j) < |blocks| && i < MAX_FILE_BLOCKS
    requires var second := Entry32(blocks, ino.double, j);
             var blocks' := blocks[second := PutWord(blocks[second], k, b)];
             forall p :: IsPlace(p) && !p.Data? ==> PtrAt(blocks', ino, p) == PtrAt(blocks, ino, p)
    requires ino.single != Entry32(blocks, ino.double, j)
    ensures var second := Entry32(blocks, ino.double, j);
            var blocks' := blocks[second := PutWord(blocks[second], k, b)];
            DataPtr(blocks', ino, i) == if i == DoubleIndex(j, k) then b else DataPtr(blocks, ino, i)
  {
    var second := Entry32(blocks, ino.double, j);
    var blocks' := blocks[second := PutWord(blocks[second], k, b)];
    if i >= DIRECT_PTRS + PTRS_PER_BLOCK {
      var j', k' := DoubleParts(i);
      DoubleAt(blocks, ino, i, j', k');
      DoubleAt(blocks', ino, i, j', k');
      assert PtrAt(blocks, ino, Second(j')) == PtrAt(blocks, ino, Second(j)) == second ==> j' == j;
      assert PtrAt(blocks', ino, Second(j')) == PtrAt(blocks, ino, Second(j'));
      WordOfPut(blocks[second], k, b, k');
    }
  }

  lemma PutSecond(blocks: seq<Block>, ino: Inode, lo: nat, j: nat, k: nat, b: u32, count: u32)
    requires PointersOk(blocks, ino, lo, |blocks|) && j < PTRS_PER_BLOCK && k < PTRS_PER_BLOCK && b != 0
    requires var second := Entry32(blocks, ino.double, j); second != 0 && Entry32(blocks, second, k) == 0
    ensures Entry32(blocks, ino.double, j) < |blocks|
    ensures var second := Entry32(blocks, ino.double, j);
            Grew(blocks, ino, blocks[second := PutWord(blocks[second], k, b)], ino.(blockCount := count),
                 map[Data(DoubleIndex(j, k)) := b])
  {
    var second := Entry32(blocks, ino.double, j);
    PutSecondIndirect(blocks, ino, lo, j, k, b);
    var blocks' := blocks[second := PutWord(blocks[second], k, b)];
    forall i: nat | i < MAX_FILE_BLOCKS
      ensures DataPtr(blocks', ino, i) == if i == DoubleIndex(j, k) then b else DataPtr(blocks, ino, i)
    {
      PutSecondAt(blocks, ino, lo, j, k, b, i);
    }
    DoubleAt(blocks, ino, DoubleIndex(j, k), j, k);
    SameButData(blocks, ino, blocks', ino.(blockCount := count), DoubleIndex(j, k), b);
  }

  // ------------------------------------------------- adding indirect blocks

  /** A fresh indirect block holding one pointer. */
  lemma FreshWord(k: nat, b: u32, i: nat)
    requires k < PTRS_PER_BLOCK && i < PTRS_PER_BLOCK
    ensures Word(PutWord(ZERO_BLOCK, k, b), i) == if i == k then b else 0
  {
    WordOfPut(ZERO_BLOCK, k, b, i);
    WordOfZero(i);
  }

  lemma NewSingle(blocks: seq<Block>, ino: Inode, k: nat, g: u32, b: u32, count: u32)
    requires k < PTRS_PER_BLOCK && b != 0 && g != 0 && b != g && g < |blocks|
    requires ino.single == 0 && !Owns(blocks, ino, g)
    ensures Grew(blocks, ino, blocks[g := PutWord(ZERO_BLOCK, k, b)], ino.(single := g, blockCount := count),
                 map[Single := g, Data(DIRECT_PTRS + k) := b])
  {
    var blocks', ino' := blocks[g := PutWord(ZERO_BLOCK, k, b)], ino.(single := g, blockCount := count);
    SamePointers(blocks, blocks', {g}, ino);
    forall p | IsPlace(p)
      ensures PtrAt(blocks', ino', p)
              == if p == Single then g else if p == Data(DIRECT_PTRS + k) then b else PtrAt(blocks, ino, p)
    {
      if p.Data? && DIRECT_PTRS <= p.index < DIRECT_PTRS + PTRS_PER_BLOCK {
        FreshWord(k, b, p.index - DIRECT_PTRS);
      } else if p.Data? && p.index >= DIRECT_PTRS + PTRS_PER_BLOCK {
        var j', k' := DoubleParts(p.index);
        DoubleAt(blocks', ino', p.index, j', k');
        DoubleAt(blocks', ino, p.index, j', k');
      } else if p != Single {
        assert PtrAt(blocks', ino', p) == PtrAt(blocks', ino, p);
      }
    }
  }

  lemma NewSecond(blocks: seq<Block>, ino: Inode, lo: nat, j: nat, k: nat, g: u32, b: u32, count: u32)
    requires PointersOk(blocks, ino, lo, |blocks|) && j < PTRS_PER_BLOCK && k < PTRS_PER_BLOCK
    requires b != 0 && g != 0 && b != g && g < |blocks| && !Owns(blocks, ino, g)
    requires ino.double != 0 && Entry32(blocks, ino.double, j) == 0
    ensures ino.double < |blocks|
    ensures Grew(blocks, ino, blocks[g := PutWord(ZERO_BLOCK, k, b)][ino.double := PutWord(blocks[ino.double], j, g)],
                 ino.(blockCount := count), map[Second(j) := g, Data(DoubleIndex(j, k)) := b])
  {
    IndirectOwned(blocks, ino, lo);
    var mid := blocks[g := PutWord(ZERO_BLOCK, k, b)];
    var blocks', ino' := mid[ino.double := PutWord(blocks[ino.double], j, g)], ino.(blockCount := count);
    SamePointers(blocks, mid, {g}, ino);
    forall p | IsPlace(p)
      ensures PtrAt(blocks', ino', p)
              == if p == Second(j) then g else if p == Data(DoubleIndex(j, k)) then b else PtrAt(blocks, ino, p)
    {
      NewSecondAt(blocks, mid, ino, lo, j, k, g, b, blocks', ino', p);
    }
    GrewSecond(blocks, ino, blocks', ino', j, k, g, b);
  }

  lemma IndirectOwned(blocks: seq<Block>, ino: Inode, lo: nat)
    requires PointersOk(blocks, ino, lo, |blocks|)
    ensures ino.double != 0 ==> ino.double < |blocks| && Owns(blocks, ino, ino.double)
    ensures ino.single != 0 ==> ino.single < |blocks| && Owns(blocks, ino, ino.single)
  {
    assert PtrAt(blocks, ino, Double) == ino.double && PtrAt(blocks, ino, Single) == ino.single;
  }

  lemma GrewSecond(blocks: seq<Block>, ino: Inode, blocks': seq<Block>, ino': Inode, j: nat, k: nat, g: u32, b: u32)
    requires j < PTRS_PER_BLOCK && k < PTRS_PER_BLOCK && b != 0 && g != 0 && b != g
    requires Entry32(blocks, ino.double, j) == 0
    requires forall p :: IsPlace(p) ==>
               PtrAt(blocks', ino', p) == if p == Second(j) then g else if p == Data(DoubleIndex(j, k)) then b
                   else PtrAt(blocks, ino, p)
    ensures Grew(blocks, ino, blocks', ino', map[Second(j) := g, Data(DoubleIndex(j, k)) := b])
  {
    DoubleAt(blocks, ino, DoubleIndex(j, k), j, k);
  }

  lemma NewSecondAt(blocks: seq<Block>, mid: seq<Block>, ino: Inode, lo: nat, j: nat, k: nat, g: u32, b: u32,
                    blocks': seq<Block>, ino': Inode, p: Place)
    requires PointersOk(blocks, ino, lo, |blocks|) && j < PTRS_PER_BLOCK && k < PTRS_PER_BLOCK
    requires b != 0 && g != 0 && g < |blocks| && g != ino.double && IsPlace(p) && g != ino.single
    requires 0 < ino.double < |blocks| && Entry32(blocks, ino.double, j) == 0
    requires mid == blocks[g := PutWord(ZERO_BLOCK, k, b)]
    requires blocks' == mid[ino.double := PutWord(blocks[ino.double], j, g)]
             && ino' == ino.(blockCount := ino'.blockCount)
    requires forall q :: IsPlace(q) ==> PtrAt(mid, ino, q) == PtrAt(blocks, ino, q)
    ensures PtrAt(blocks', ino', p)
            == if p == Second(j) then g else if p == Data(DoubleIndex(j, k)) then b else PtrAt(blocks, ino, p)
  {
    assert PtrAt(blocks, ino, Double) == ino.double && PtrAt(blocks, ino, Single) == ino.single;
    if p.Second? {
      WordOfPut(blocks[ino.double], j, g, p.j);
    } else if p.Data? && p.index >= DIRECT_PTRS + PTRS_PER_BLOCK {
      var j', k' := DoubleParts(p.index);
      DoubleAt(blocks', ino', p.index, j', k');
      DoubleAt(blocks, ino, p.index, j', k');
      DoubleAt(mid, ino, p.index, j', k');
      NewSecondEntry(blocks, mid, ino, lo, j, k, g, b, blocks', j', k');
      assert PtrAt(mid, ino, p) == PtrAt(blocks, ino, p);
    } else if p.Data? {
      assert PtrAt(mid, ino, p) == PtrAt(blocks, ino, p);
    }
  }

  lemma NewSecondEntry(blocks: seq<Block>, mid: seq<Block>, ino: Inode, lo: nat, j: nat, k: nat, g: u32, b: u32,
                       blocks': seq<Block>, j': nat, k': nat)
    requires PointersOk(blocks, ino, lo, |blocks|) && j < PTRS_PER_BLOCK && k < PTRS_PER_BLOCK
    requires j' < PTRS_PER_BLOCK && k' < PTRS_PER_BLOCK
    requires b != 0 && g != 0 && g < |blocks| && g != ino.double
    requires 0 < ino.double < |blocks| && Entry32(blocks, ino.double, j) == 0
    requires mid == blocks[g := PutWord(ZERO_BLOCK, k, b)]
    requires blocks' == mid[ino.double := PutWord(blocks[ino.double], j, g)]
    ensures Entry32(blocks', Entry32(blocks', ino.double, j'), k')
            == if j' == j then (if k' == k then b else 0) else Entry32(mid, Entry32(mid, ino.double, j'), k')
  {
    WordOfPut(blocks[ino.double], j, g, j');
    FreshWord(k, b, k');
    assert PtrAt(blocks, ino, Double) == ino.double
        && PtrAt(blocks, ino, Second(j')) == Entry32(blocks, ino.double, j');
  }

  /** A file block past the single-indirect ones, by its two entries. */
  lemma DoubleParts(index: nat) returns (j: nat, k: nat)
    requires DIRECT_PTRS + PTRS_PER_BLOCK <= index < MAX_FILE_BLOCKS
    ensures j < PTRS_PER_BLOCK && k < PTRS_PER_BLOCK && index == DoubleIndex(j, k)
  {
    var i := index - DIRECT_PTRS - PTRS_PER_BLOCK;
    j, k := i / PTRS_PER_BLOCK, i % PTRS_PER_BLOCK;
  }

  lemma DoubleAt(blocks: seq<Block>, ino: Inode, index: nat, j: nat, k: nat)
    requires j < PTRS_PER_BLOCK && k < PTRS_PER_BLOCK && index == DoubleIndex(j, k)
    ensures index < MAX_FILE_BLOCKS && DataPtr(blocks, ino, index) == Entry32(blocks, Entry32(blocks, ino.double, j), k)
  {
    SplitIndex(j, k);
    assert index - DIRECT_PTRS - PTRS_PER_BLOCK == j * PTRS_PER_BLOCK + k;
  }

  lemma NewDouble(blocks: seq<Block>, ino: Inode, j: nat, k: nat, g: u32, h: u32, b: u32, count: u32)
    requires j < PTRS_PER_BLOCK && k < PTRS_PER_BLOCK && b != 0 && g != 0 && h != 0 && b != g && b != h && g != h
    requires g < |blocks| && h < |blocks| && !Owns(blocks, ino, g) && !Owns(blocks, ino, h)
    requires ino.double == 0
    ensures Grew(blocks, ino, blocks[h := PutWord(ZERO_BLOCK, k, b)][g := PutWord(ZERO_BLOCK, j, h)],
                 ino.(double := g, blockCount := count),
                 map[Double := g, Second(j) := h, Data(DoubleIndex(j, k)) := b])
  {
    var blocks' := blocks[h := PutWord(ZERO_BLOCK, k, b)][g := PutWord(ZERO_BLOCK, j, h)];
    var ino' := ino.(double := g, blockCount := count);
    SamePointers(blocks, blocks', {g, h}, ino);
    forall p | IsPlace(p)
      ensures PtrAt(blocks', ino', p)
              == if p == Double then g else if p == Second(j) then h
                 else if p == Data(DoubleIndex(j, k)) then b else PtrAt(blocks, ino, p)
    {
      if p.Second? {
        FreshWord(j, h, p.j);
      } else if p.Data? && p.index >= DIRECT_PTRS + PTRS_PER_BLOCK {
        var j', k' := DoubleParts(p.index);
        DoubleAt(blocks', ino', p.index, j', k');
        DoubleAt(blocks, ino, p.index, j', k');
        FreshWord(j, h, j');
        FreshWord(k, b, k');
      } else if p != Double {
        assert PtrAt(blocks', ino', p) == PtrAt(blocks', ino, p);
      }
    }
    DoubleAt(blocks, ino, DoubleIndex(j, k), j, k);
  }

  // -------------------------------------------------- what growing comes to

  lemma GrewPointersOk(blocks: seq<Block>, ino: Inode, blocks': seq<Block>, ino': Inode, places: map<Place, nat>,
      lo: nat, hi: nat)
    requires PointersOk(blocks, ino, lo, hi) && Grew(blocks, ino, blocks', ino', places)
    requires forall p :: p in places ==> lo <= places[p] < hi && !Owns(blocks, ino, places[p])
    ensures PointersOk(blocks', ino', lo, hi)
  {
    forall p, q | p in places && IsPlace(q) ensures PtrAt(blocks, ino, q) != places[p] {
      var v := places[p];
      assert PtrAt(blocks, ino, q) == v ==> Owns(blocks, ino, v);
    }
  }

  lemma GrewOwned(blocks: seq<Block>, ino: Inode, blocks': seq<Block>, ino': Inode, places: map<Place, nat>)
    requires Grew(blocks, ino, blocks', ino', places)
    ensures forall b: nat :: Owns(blocks', ino', b) <==> Owns(blocks, ino, b) || b in places.Values
  {
    forall b: nat ensures Owns(blocks', ino', b) <==> Owns(blocks, ino, b) || b in places.Values {
      if Owns(blocks', ino', b) {
        var p :| IsPlace(p) && PtrAt(blocks', ino', p) == b;
        assert p !in places ==> PtrAt(blocks, ino, p) == b;
      }
      if Owns(blocks, ino, b) {
        var p :| IsPlace(p) && PtrAt(blocks, ino, p) == b;
        assert p !in places;
        assert PtrAt(blocks', ino', p) == b;
      }
      if b in places.Values {
        var p :| p in places && places[p] == b;
        assert PtrAt(blocks', ino', p) == b;
      }
    }
  }

  /** The pointers added are exactly the blocks owned now that were not before. */
  lemma GrewCount(blocks: seq<Block>, ino: Inode, blocks': seq<Block>, ino': Inode, places: map<Place, nat>)
    requires Grew(blocks, ino, blocks', ino', places)
    requires forall p :: p in places ==> places[p] < 0x1_0000_0000 && !Owns(blocks, ino, places[p])
    ensures Owned(blocks', ino') == Owned(blocks, ino) + places.Values
    ensures |Owned(blocks', ino')| == |Owned(blocks, ino)| + |places.Values|
  {
    GrewOwned(blocks, ino, blocks', ino', places);
    assert Owned(blocks, ino) !! places.Values;
  }

  // ------------------------------------------------------ one bmap_alloc

  /** The pointers are good, the bitmap has every block owned, and they are counted. */
  ghost predicate Sound(img: Image, ino: Inode) {
    && PointersOk(img.blocks, ino, img.sb.dataStart, img.sb.totalBlocks)
    && Owned(img.blocks, ino) <= img.blockBits
    && ino.blockCount == |Owned(img.blocks, ino)|
  }

  /** Only the pointers, and the count of them, differ. */
  predicate SameButPointers(ino: Inode, ino': Inode) {
    ino' == ino.(direct := ino'.direct, single := ino'.single, double := ino'.double, blockCount := ino'.blockCount)
  }

  /** File block `index`, a hole before, has a block of its own; all else is as it was. */
  ghost predicate Mapped(img: Image, ino: Inode, img': Image, ino': Inode, index: nat, value: nat) {
    forall i :: i == index ==> MappedAt(img, ino, img', ino', i, value)
  }

  ghost predicate MappedAt(img: Image, ino: Inode, img': Image, ino': Inode, index: nat, value: nat) {
    var added := Owned(img'.blocks, ino') - Owned(img.blocks, ino);
    && img' == img.(blocks := img'.blocks, blockBits := img'.blockBits) && SameButPointers(ino, ino')
    && Sound(img', ino')
    && Owned(img.blocks, ino) <= Owned(img'.blocks, ino')
    && added !! img.blockBits && img'.blockBits == img.blockBits + added
    && value in added && DataPtr(img'.blocks, ino', index) == value
    && (forall k: nat :: k != index ==> DataPtr(img'.blocks, ino', k) == DataPtr(img.blocks, ino, k))
    && (forall k: nat :: k != index ==> FileBlock(img'.blocks, ino', k) == FileBlock(img.blocks, ino, k))
    && |img'.blocks| == |img.blocks| && Kept(img.blocks, ino, img'.blocks, ino')
    && (forall b: nat :: b < |img.blocks| && b !in added && !HoldsPtrs(img.blocks, ino, b) ==>
           img'.blocks[b] == img.blocks[b])
  }

  lemma MappedBy(img: Image, ino: Inode, blocks': seq<Block>, ino': Inode, index: nat, value: nat,
                 places: map<Place, nat>, got: set<nat>, touched: set<nat>)
    requires Sound(img, ino) && Grew(img.blocks, ino, blocks', ino', places) && SameButPointers(ino, ino')
    requires |img.blocks| == img.sb.totalBlocks && index < MAX_FILE_BLOCKS
    requires places.Values == got && got !! img.blockBits
    requires forall b :: b in got ==> img.sb.dataStart <= b < img.sb.totalBlocks
    requires forall p :: p in places && p.Data? ==> p.index == index
    requires Data(index) in places && places[Data(index)] == value
    requires ino'.blockCount == ino.blockCount + |got|
    requires Touches(img.blocks, blocks', touched) && value !in touched
    requires forall b :: b in touched ==> b in got || HoldsPtrs(img.blocks, ino, b)
    ensures Mapped(img, ino, img.(blocks := blocks', blockBits := img.blockBits + got), ino', index, value)
  {
    MappedSound(img, ino, blocks', ino', places, got);
    KeptGrown(img.blocks, ino, blocks', ino', places);
    assert Owned(blocks', ino') - Owned(img.blocks, ino) == got;
    forall k: nat | k != index
      ensures DataPtr(blocks', ino', k) == DataPtr(img.blocks, ino, k)
      ensures FileBlock(blocks', ino', k) == FileBlock(img.blocks, ino, k)
    {
      MappedKeeps(img, ino, blocks', ino', index, places, got, touched, k);
    }
    assert PtrAt(blocks', ino', Data(index)) == value;
    assert value in places.Values;
  }

  lemma MappedSound(img: Image, ino: Inode, blocks': seq<Block>, ino': Inode, places: map<Place, nat>, got: set<nat>)
    requires Sound(img, ino) && Grew(img.blocks, ino, blocks', ino', places)
    requires places.Values == got && got !! img.blockBits
    requires forall b :: b in got ==> img.sb.dataStart <= b < img.sb.totalBlocks
    requires ino'.blockCount == ino.blockCount + |got|
    ensures Sound(img.(blocks := blocks', blockBits := img.blockBits + got), ino')
    ensures Owned(blocks', ino') == Owned(img.blocks, ino) + got && got !! Owned(img.blocks, ino)
    ensures forall b :: b in got ==> !Owns(img.blocks, ino, b)
  {
    forall p | p in places ensures places[p] in got && !Owns(img.blocks, ino, places[p]) {
      assert places[p] in places.Values;
    }
    GrewPointersOk(img.blocks, ino, blocks', ino', places, img.sb.dataStart, img.sb.totalBlocks);
    GrewCount(img.blocks, ino, blocks', ino', places);
  }

  lemma ValuesOf1(p: Place, b: nat)
    ensures map[p := b].Values == {b}
  {
    assert map[p := b][p] == b;
  }

  lemma ValuesOf2(p: Place, b: nat, q: Place, c: nat)
    requires p != q
    ensures map[p := b, q := c].Values == {b, c}
  {
    var m := map[p := b, q := c];
    assert m[p] == b && m[q] == c;
  }

  lemma ValuesOf3(p: Place, b: nat, q: Place, c: nat, r: Place, d: nat)
    requires p != q && p != r && q != r
    ensures map[p := b, q := c, r := d].Values == {b, c, d}
  {
    var m := map[p := b, q := c, r := d];
    assert m[p] == b && m[q] == c && m[r] == d;
  }

  lemma MappedKeeps(img: Image, ino: Inode, blocks': seq<Block>, ino': Inode, index: nat,
                    places: map<Place, nat>, got: set<nat>, touched: set<nat>, k: nat)
    requires PointersOk(img.blocks, ino, img.sb.dataStart, |img.blocks|)
    requires Grew(img.blocks, ino, blocks', ino', places)
    requires forall b :: b in got ==> !Owns(img.blocks, ino, b)
    requires forall p :: p in places && p.Data? ==> p.index == index
    requires Touches(img.blocks, blocks', touched) && k != index
    requires forall b :: b in touched ==> b in got || HoldsPtrs(img.blocks, ino, b)
    ensures DataPtr(blocks', ino', k) == DataPtr(img.blocks, ino, k)
    ensures FileBlock(blocks', ino', k) == FileBlock(img.blocks, ino, k)
  {
    if k < MAX_FILE_BLOCKS {
      assert PtrAt(blocks', ino', Data(k)) == PtrAt(img.blocks, ino, Data(k));
      var b := DataPtr(img.blocks, ino, k);
      if b != 0 {
        assert Owns(img.blocks, ino, PtrAt(img.blocks, ino, Data(k)));
        assert !HoldsPtrs(img.blocks, ino, b);
      }
    }
  }
}
