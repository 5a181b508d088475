/** The list free_all_blocks makes: every block an inode owns, each once. */
module BlockList {
  import opened Layout
  import opened Codec
  import opened DiskImage
  import opened BlockTree
  import opened BlockMap

  /** `list` is the pointers at the places in `seen`, each of them not a hole. */
  ghost predicate Collected(blocks: seq<Block>, ino: Inode, list: seq<nat>, seen: set<Place>) {
    forall b :: b == blocks ==> CollectedIn(b, ino, list, seen)
  }

  ghost predicate CollectedIn(blocks: seq<Block>, ino: Inode, list: seq<nat>, seen: set<Place>) {
    && Distinct(list)
    && (forall p :: p in seen ==> IsPlace(p) && PtrAt(blocks, ino, p) != 0 && PtrAt(blocks, ino, p) in list)
    && (forall k :: 0 <= k < |list| ==> exists p :: p in seen && PtrAt(blocks, ino, p) == list[k])
  }

  lemma CollectOne(blocks: seq<Block>, ino: Inode, lo: nat, hi: nat, list: seq<nat>, seen: set<Place>, p: Place)
    requires PointersOk(blocks, ino, lo, hi) && Collected(blocks, ino, list, seen)
    requires IsPlace(p) && p !in seen && PtrAt(blocks, ino, p) != 0
    ensures Collected(blocks, ino, list + [PtrAt(blocks, ino, p)], seen + {p})
  {
    assert CollectedIn(blocks, ino, list, seen);
    var b := PtrAt(blocks, ino, p);
    var list', seen' := list + [b], seen + {p};
    forall k | 0 <= k < |list'| ensures exists q :: q in seen' && PtrAt(blocks, ino, q) == list'[k] {
      if k < |list| {
        var q :| q in seen && PtrAt(blocks, ino, q) == list[k];
        assert q in seen';
      } else {
        assert p in seen';
      }
    }
    assert b !in list;
    assert CollectedIn(blocks, ino, list', seen');
  }

  /** The words that are not holes, in order. */
  function NonZero(ws: seq<u32>): seq<u32> {
    if ws == [] then []
    else NonZero(ws[..|ws| - 1]) + if ws[|ws| - 1] != 0 then [ws[|ws| - 1]] else []
  }

  /** The places of file blocks [base, base + |ws|) that are not holes. */
  function DataPlaces(base: nat, ws: seq<u32>): set<Place> {
    set k: nat | k < |ws| && ws[k] != 0 :: Data(base + k)
  }

  lemma DataPlacesStep(base: nat, ws: seq<u32>)
    requires ws != []
    ensures var n := |ws| - 1;
            DataPlaces(base, ws) == DataPlaces(base, ws[..n]) + if ws[n] != 0 then {Data(base + n)} else {}
    ensures Data(base + |ws| - 1) !in DataPlaces(base, ws[..|ws| - 1])
  {
  }

  lemma CollectNext(blocks: seq<Block>, ino: Inode, lo: nat, hi: nat, list: seq<nat>, seen: set<Place>, index: nat,
      w: u32)
    requires PointersOk(blocks, ino, lo, hi) && Collected(blocks, ino, list, seen)
    requires index < MAX_FILE_BLOCKS && Data(index) !in seen && w == DataPtr(blocks, ino, index)
    ensures Collected(blocks, ino, list + (if w != 0 then [w] else []), seen + if w != 0 then {Data(index)} else {})
  {
    if w != 0 {
      assert PtrAt(blocks, ino, Data(index)) == w;
      CollectOne(blocks, ino, lo, hi, list, seen, Data(index));
    } else {
      assert list + [] == list && seen + {} == seen;
    }
  }

  /** These words are the pointers of file blocks base onwards. */
  ghost predicate DataWords(blocks: seq<Block>, ino: Inode, base: nat, ws: seq<u32>) {
    forall b :: b == blocks ==> DataWordsIn(b, ino, base, ws)
  }

  ghost predicate DataWordsIn(blocks: seq<Block>, ino: Inode, base: nat, ws: seq<u32>) {
    base + |ws| <= MAX_FILE_BLOCKS && forall k: nat :: k < |ws| ==> ws[k] == DataPtr(blocks, ino, base + k)
  }

  predicate SeenBelow(seen: set<Place>, base: nat) {
    forall p :: p in seen ==> !p.Data? || p.index < base
  }

  lemma FewerWords(blocks: seq<Block>, ino: Inode, base: nat, ws: seq<u32>)
    requires DataWords(blocks, ino, base, ws) && ws != []
    ensures DataWords(blocks, ino, base, ws[..|ws| - 1])
    ensures base + |ws| <= MAX_FILE_BLOCKS && ws[|ws| - 1] == DataPtr(blocks, ino, base + (|ws| - 1))
  {
    assert DataWordsIn(blocks, ino, base, ws);
  }

  lemma {:induction false} CollectRun(blocks: seq<Block>, ino: Inode, lo: nat, hi: nat, list: seq<nat>,
      seen: set<Place>,
                                      base: nat, ws: seq<u32>)
    requires PointersOk(blocks, ino, lo, hi) && Collected(blocks, ino, list, seen) && DataWords(blocks, ino, base, ws)
    requires SeenBelow(seen, base)
    ensures Collected(blocks, ino, list + NonZero(ws), seen + DataPlaces(base, ws))
  {
    if ws == [] {
      assert list + NonZero(ws) == list && seen + DataPlaces(base, ws) == seen;
    } else {
      var n := |ws| - 1;
      var init, more := ws[..n], if ws[n] != 0 then [ws[n]] else [];
      FewerWords(blocks, ino, base, ws);
      CollectRun(blocks, ino, lo, hi, list, seen, base, init);
      DataPlacesStep(base, ws);
      CollectNext(blocks, ino, lo, hi, list + NonZero(init), seen + DataPlaces(base, init), base + n, ws[n]);
      Regroup(list, NonZero(init), more);
      RegroupSets(seen, DataPlaces(base, init), if ws[n] != 0 then {Data(base + n)} else {});
    }
  }

  lemma Regroup<T>(a: seq<T>, b: seq<T>, c: seq<T>)
    ensures a + (b + c) == a + b + c
  {
  }

  lemma RegroupSets<T>(a: set<T>, b: set<T>, c: set<T>)
    ensures a + (b + c) == a + b + c
  {
  }

  lemma AllCollected(blocks: seq<Block>, ino: Inode, lo: nat, hi: nat, list: seq<nat>, seen: set<Place>)
    requires PointersOk(blocks, ino, lo, hi) && hi <= 0x1_0000_0000 && Collected(blocks, ino, list, seen)
    requires forall p :: IsPlace(p) && PtrAt(blocks, ino, p) != 0 ==> p in seen
    ensures Members(list) == Owned(blocks, ino)
  {
    assert CollectedIn(blocks, ino, list, seen);
    forall b: nat ensures b in Members(list) <==> b in Owned(blocks, ino) {
      if b in Owned(blocks, ino) {
        var p :| IsPlace(p) && PtrAt(blocks, ino, p) == b;
        assert b in list;
      }
      if b in Members(list) {
        var k :| 0 <= k < |list| && list[k] == b;
        var p :| p in seen && PtrAt(blocks, ino, p) == list[k];
        assert IsPlace(p) && PtrAt(blocks, ino, p) == b != 0;
        assert Owns(blocks, ino, b);
      }
    }
  }

  // ------------------------------------------------------- stage by stage

  /** Listed before entry j of the double-indirect block. */
  predicate Before(p: Place, j: nat) {
    match p
    case Data(index) => index < DoubleIndex(j, 0)
    case Single => true
    case Double => false
    case Second(k) => k < j
  }

  /** Everything before entry j that is not a hole has been listed, and nothing else. */
  ghost predicate ListedTo(blocks: seq<Block>, ino: Inode, list: seq<nat>, seen: set<Place>, j: nat) {
    && Collected(blocks, ino, list, seen)
    && forall p :: IsPlace(p) && PtrAt(blocks, ino, p) != 0 ==> (p in seen <==> Before(p, j))
  }

  lemma ListDirect(blocks: seq<Block>, ino: Inode, lo: nat, hi: nat)
    requires PointersOk(blocks, ino, lo, hi)
    ensures Collected(blocks, ino, NonZero(ino.direct), DataPlaces(0, ino.direct))
  {
    CollectRun(blocks, ino, lo, hi, [], {}, 0, ino.direct);
    assert [] + NonZero(ino.direct) == NonZero(ino.direct);
    assert {} + DataPlaces(0, ino.direct) == DataPlaces(0, ino.direct);
  }

  lemma ListNoSingle(blocks: seq<Block>, ino: Inode, list: seq<nat>)
    requires Collected(blocks, ino, list, DataPlaces(0, ino.direct)) && ino.single == 0
    ensures ListedTo(blocks, ino, list, DataPlaces(0, ino.direct), 0)
  {
  }

  lemma ListSingle(blocks: seq<Block>, ino: Inode, lo: nat, hi: nat, list: seq<nat>) returns (seen: set<Place>)
    requires PointersOk(blocks, ino, lo, hi)
    requires Collected(blocks, ino, list, DataPlaces(0, ino.direct)) && ino.single != 0
    ensures ListedTo(blocks, ino, list + NonZero(PointersIn(Load(blocks, ino.single))) + [ino.single], seen, 0)
  {
    var ws := PointersIn(Load(blocks, ino.single));
    var direct := DataPlaces(0, ino.direct);
    CollectRun(blocks, ino, lo, hi, list, direct, DIRECT_PTRS, ws);
    CollectOne(blocks, ino, lo, hi, list + NonZero(ws), direct + DataPlaces(DIRECT_PTRS, ws), Single);
    seen := direct + DataPlaces(DIRECT_PTRS, ws) + {Single};
    SingleListed(blocks, ino, seen);
  }

  lemma SingleListed(blocks: seq<Block>, ino: Inode, seen: set<Place>)
    requires ino.single != 0
    requires seen == DataPlaces(0, ino.direct) + DataPlaces(DIRECT_PTRS, PointersIn(Load(blocks, ino.single)))
             + {Single}
    ensures forall p :: IsPlace(p) && PtrAt(blocks, ino, p) != 0 ==> (p in seen <==> Before(p, 0))
  {
    forall i: nat | i < DIRECT_PTRS + PTRS_PER_BLOCK && DataPtr(blocks, ino, i) != 0 ensures Data(i) in seen {
      if i < DIRECT_PTRS {
        assert Data(0 + i) in DataPlaces(0, ino.direct);
      } else {
        assert Data(DIRECT_PTRS + (i - DIRECT_PTRS)) in DataPlaces(DIRECT_PTRS, PointersIn(Load(blocks, ino.single)));
      }
    }
  }

  lemma ListNoSecond(blocks: seq<Block>, ino: Inode, list: seq<nat>, seen: set<Place>, j: nat)
    requires ListedTo(blocks, ino, list, seen, j) && j < PTRS_PER_BLOCK && Entry32(blocks, ino.double, j) == 0
    ensures ListedTo(blocks, ino, list, seen, j + 1)
  {
    forall p | IsPlace(p) && Before(p, j + 1) && !Before(p, j) ensures PtrAt(blocks, ino, p) == 0 {
      if p.Data? {
        DoubleAt(blocks, ino, p.index, j, p.index - DoubleIndex(j, 0));
      }
    }
  }

  lemma ListSecond(blocks: seq<Block>, ino: Inode, lo: nat, hi: nat, list: seq<nat>, seen: set<Place>, j: nat)
    returns (seen': set<Place>)
    requires PointersOk(blocks, ino, lo, hi) && ListedTo(blocks, ino, list, seen, j) && j < PTRS_PER_BLOCK
    requires Entry32(blocks, ino.double, j) != 0
    ensures var second := Entry32(blocks, ino.double, j);
            ListedTo(blocks, ino, list + NonZero(PointersIn(Load(blocks, second))) + [second], seen', j + 1)
  {
    var second := Entry32(blocks, ino.double, j);
    var ws, base := PointersIn(Load(blocks, second)), DoubleIndex(j, 0);
    assert CollectedIn(blocks, ino, list, seen);
    SecondWords(blocks, ino, j);
    CollectRun(blocks, ino, lo, hi, list, seen, base, ws);
    assert PtrAt(blocks, ino, Second(j)) == second;
    CollectOne(blocks, ino, lo, hi, list + NonZero(ws), seen + DataPlaces(base, ws), Second(j));
    seen' := seen + DataPlaces(base, ws) + {Second(j)};
    SecondListed(blocks, ino, seen, j, ws, seen');
  }

  lemma SecondWords(blocks: seq<Block>, ino: Inode, j: nat)
    requires j < PTRS_PER_BLOCK && Entry32(blocks, ino.double, j) != 0
    ensures var ws := PointersIn(Load(blocks, Entry32(blocks, ino.double, j)));
            forall k: nat :: k < PTRS_PER_BLOCK ==> ws[k] == DataPtr(blocks, ino, DoubleIndex(j, 0) + k)
  {
    var ws := PointersIn(Load(blocks, Entry32(blocks, ino.double, j)));
    forall k: nat | k < PTRS_PER_BLOCK ensures ws[k] == DataPtr(blocks, ino, DoubleIndex(j, 0) + k) {
      DoubleAt(blocks, ino, DoubleIndex(j, 0) + k, j, k);
    }
  }

  lemma SecondListed(blocks: seq<Block>, ino: Inode, seen: set<Place>, j: nat, ws: seq<u32>, seen': set<Place>)
    requires j < PTRS_PER_BLOCK && Entry32(blocks, ino.double, j) != 0
             && ws == PointersIn(Load(blocks, Entry32(blocks, ino.double, j)))
    requires forall p :: IsPlace(p) && PtrAt(blocks, ino, p) != 0 ==> (p in seen <==> Before(p, j))
    requires seen' == seen + DataPlaces(DoubleIndex(j, 0), ws) + {Second(j)}
    ensures forall p :: IsPlace(p) && PtrAt(blocks, ino, p) != 0 ==> (p in seen' <==> Before(p, j + 1))
  {
    var added := DataPlaces(DoubleIndex(j, 0), ws);
    forall p | p in added ensures Before(p, j + 1) && !Before(p, j) {
    }
    forall p | IsPlace(p) && PtrAt(blocks, ino, p) != 0 && Before(p, j + 1) && !Before(p, j) ensures p in seen' {
      if p.Data? {
        SecondHolds(blocks, ino, j, ws, p.index);
      }
    }
  }

  lemma SecondHolds(blocks: seq<Block>, ino: Inode, j: nat, ws: seq<u32>, index: nat)
    requires j < PTRS_PER_BLOCK && Entry32(blocks, ino.double, j) != 0
             && ws == PointersIn(Load(blocks, Entry32(blocks, ino.double, j)))
    requires DoubleIndex(j, 0) <= index < DoubleIndex(j + 1, 0) && DataPtr(blocks, ino, index) != 0
    ensures Data(index) in DataPlaces(DoubleIndex(j, 0), ws)
  {
    var k := index - DoubleIndex(j, 0);
    DoubleAt(blocks, ino, index, j, k);
    assert ws[k] != 0;
    assert Data(DoubleIndex(j, 0) + k) in DataPlaces(DoubleIndex(j, 0), ws);
  }

  /** The last block listed is the top of the tree. */
  lemma ListDouble(blocks: seq<Block>, ino: Inode, lo: nat, hi: nat, list: seq<nat>, seen: set<Place>)
    requires PointersOk(blocks, ino, lo, hi) && hi <= 0x1_0000_0000 && ListedTo(blocks, ino, list, seen, PTRS_PER_BLOCK)
    requires ino.double != 0
    ensures Distinct(list + [ino.double]) && Members(list + [ino.double]) == Owned(blocks, ino)
  {
    assert PtrAt(blocks, ino, Double) == ino.double;
    CollectOne(blocks, ino, lo, hi, list, seen, Double);
    assert CollectedIn(blocks, ino, list + [ino.double], seen + {Double});
    AllCollected(blocks, ino, lo, hi, list + [ino.double], seen + {Double});
  }

  lemma ListNoDouble(blocks: seq<Block>, ino: Inode, lo: nat, hi: nat, list: seq<nat>, seen: set<Place>)
    requires PointersOk(blocks, ino, lo, hi) && hi <= 0x1_0000_0000 && ListedTo(blocks, ino, list, seen, 0)
    requires ino.double == 0
    ensures Distinct(list) && Members(list) == Owned(blocks, ino)
  {
    forall p | IsPlace(p) && PtrAt(blocks, ino, p) != 0 ensures p in seen {
    }
    assert CollectedIn(blocks, ino, list, seen);
    AllCollected(blocks, ino, lo, hi, list, seen);
  }
}
