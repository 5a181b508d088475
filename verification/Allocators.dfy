/** The allocator: a bitmap in memory and the same bitmap on disk, changed together. */
module Allocators {
  import opened Layout
  import opened Codec
  import opened Bits
  import opened BlockMap
  import opened Bitmaps

  datatype Grant = Granted(number: nat) | NoSpace | Damaged

  /** The bits of one region agree with a bitmap in memory. */
  ghost predicate Agrees(m: Bitmap, region: array<Byte>)
    reads m, m.words, region
  {
    && m.Valid() && m.nbits <= 8 * region.Length && region as object != m.words as object
    && RegionBits(region[..], m.nbits) == m.Denotes()
  }

  /** Sets or clears one bit of the bitmap on disk: byte i / 8, bit i % 8. */
  method Flip(region: array<Byte>, i: nat, on: bool)
    requires i < 8 * region.Length
    modifies region
    ensures forall k: nat :: k < 8 * region.Length ==>
            (RegionBit(region[..], k) <==> if k == i then on else old(RegionBit(region[..], k)))
  {
    ghost var was := region[..];
    var b := region[i / 8] as nat;
    Pow2Eight();
    WithBitFits(b, i % 8, on, 8);
    region[i / 8] := AsByte(WithBit(b, i % 8, on));
    AsByteIs(WithBit(b, i % 8, on));
    forall k: nat | k < 8 * region.Length
        ensures RegionBit(region[..], k) <==> if k == i then on else RegionBit(was, k) {
      WithBitIs(b, i % 8, on, k % 8);
      assert k / 8 == i / 8 && k % 8 == i % 8 ==> k == i;
    }
  }

  /** One bitmap of the two, and what is on disk for it. */
  class Allocator {
    const bitmap: Bitmap
    const region: array<Byte>
    const lowest: nat    // dataStart for blocks, 1 for inodes

    ghost predicate Valid()
      reads this, bitmap, bitmap.words, region
    {
      Agrees(bitmap, region)
    }

    ghost function InUse(): set<nat>
      reads this, bitmap, bitmap.words, region
      requires Valid()
    {
      bitmap.Denotes()
    }

    /** Loaded from disk at mount. */
    constructor (nbits: nat, lowest: nat, region: array<Byte>)
      requires region.Length == 8 * BlocksFor(nbits) * WORDS_PER_BLOCK
      ensures Valid() && this.region == region && bitmap.nbits == nbits && this.lowest == lowest
      ensures fresh(bitmap) && fresh(bitmap.words)
    {
      var m := new Bitmap(nbits);
      this.lowest, this.region := lowest, region;
      m.Load(region[..]);
      bitmap := m;
    }

    /** alloc_block and alloc_inode: the lowest free number, in both bitmaps. */
    method Alloc() returns (r: Grant)
      requires Valid()
      modifies bitmap.words, region
      ensures Valid()
      ensures r.Granted? ==>
                && LowestFree(old(InUse()), bitmap.nbits, r.number) && r.number >= lowest
                && InUse() == old(InUse()) + {r.number}
      ensures !r.Granted? ==> InUse() == old(InUse()) && region[..] == old(region[..])
      ensures r.NoSpace? <==> forall i: nat :: i < bitmap.nbits ==> i in old(InUse())
    {
      var free := bitmap.FindFirstFree();
      if free.NotFound? {
        return NoSpace;
      }
      if free.index < lowest {
        return Damaged;
      }
      Put(free.index, true);
      return Granted(free.index);
    }

    /** free_inode: false, and nothing changed, for a number that is reserved, out of range or free. */
    method FreeOne(i: nat) returns (ok: bool)
      requires Valid()
      modifies bitmap.words, region
      ensures Valid()
      ensures ok <==> lowest <= i < bitmap.nbits && i in old(InUse())
      ensures InUse() == if ok then old(InUse()) - {i} else old(InUse())
      ensures !ok ==> region[..] == old(region[..])
    {
      if i < lowest || i >= bitmap.nbits {
        return false;
      }
      var inRange, on := bitmap.IsSet(i);
      if !on {
        return false;
      }
      Put(i, false);
      return true;
    }

    /** One number marked, in memory and on disk. */
    method Put(i: nat, on: bool)
      requires Valid() && i < bitmap.nbits
      modifies bitmap.words, region
      ensures Valid()
      ensures InUse() == if on then old(InUse()) + {i} else old(InUse()) - {i}
    {
      ghost var was := RegionBits(region[..], bitmap.nbits);
      bitmap.Change(i, on);
      Flip(region, i, on);
      assert RegionBits(region[..], bitmap.nbits) == if on then was + {i} else was - {i};
    }

    /** free_blocks: all of them, or, for a bad or a repeated number, none. */
    method Free(list: seq<nat>) returns (ok: bool)
      requires Valid()
      modifies bitmap.words, region
      ensures Valid()
      ensures ok <==> Distinct(list) && forall b :: b in list ==> lowest <= b < bitmap.nbits && b in old(InUse())
      ensures InUse() == if ok then old(InUse()) - Members(list) else old(InUse())
      ensures !ok ==> region[..] == old(region[..])
    {
      var sorted := Sort(list);
      SortedMembers(list, sorted);
      ok := CheckAll(sorted);
      if ok {
        ClearAll(sorted);
      }
    }

    method CheckAll(sorted: seq<nat>) returns (ok: bool)
      requires Valid() && Ordered(sorted)
      ensures ok <==> Distinct(sorted) && forall b :: b in sorted ==> lowest <= b < bitmap.nbits && b in InUse()
    {
      var k := 0;
      while k < |sorted|
        invariant 0 <= k <= |sorted|
        invariant Distinct(sorted[..k]) && forall j :: 0 <= j < k ==>
                      lowest <= sorted[j] < bitmap.nbits && sorted[j] in InUse()
      {
        var b := sorted[k];
        assert b in sorted;
        var duplicate := k > 0 && sorted[k - 1] == b;
        assert duplicate ==> !Distinct(sorted);
        if duplicate || b < lowest || b >= bitmap.nbits {
          return false;
        }
        var inRange, on := bitmap.IsSet(b);
        if !on {
          return false;
        }
        k := k + 1;
      }
      assert sorted[..|sorted|] == sorted;
      return true;
    }

    /** Bits in the same bitmap block go together, in a single write. */
    method ClearAll(sorted: seq<nat>)
      requires Valid() && Ordered(sorted)
      requires forall b :: b in sorted ==> b < bitmap.nbits
      modifies bitmap.words, region
      ensures Valid() && InUse() == old(InUse()) - Members(sorted)
    {
      var first := 0;
      assert old(InUse()) - Members(sorted[..0]) == old(InUse());
      while first < |sorted|
        invariant 0 <= first <= |sorted| && Valid()
        invariant InUse() == old(InUse()) - Members(sorted[..first])
      {
        var mapBlock := sorted[first] / Bitmaps.BITS_PER_BLOCK;
        var end := first;
        while end < |sorted| && sorted[end] / Bitmaps.BITS_PER_BLOCK == mapBlock
          invariant first <= end <= |sorted| && Valid() && (end == first ==> end < |sorted|)
          invariant end == first ==> sorted[end] / Bitmaps.BITS_PER_BLOCK == mapBlock
          invariant InUse() == old(InUse()) - Members(sorted[..end])
        {
          assert sorted[end] in sorted;
          Put(sorted[end], false);
          MembersAdd(sorted[..end], sorted[end]);
          assert sorted[..end + 1] == sorted[..end] + [sorted[end]];
          end := end + 1;
        }
        first := end;
      }
      assert sorted[..|sorted|] == sorted;
    }
  }

  predicate Ordered(s: seq<nat>) {
    forall i, k :: 0 <= i < k < |s| ==> s[i] <= s[k]
  }

  method Sort(list: seq<nat>) returns (sorted: seq<nat>)
    ensures Ordered(sorted) && multiset(sorted) == multiset(list)
  {
    sorted := [];
    var n := 0;
    while n < |list|
      invariant 0 <= n <= |list| && Ordered(sorted) && multiset(sorted) == multiset(list[..n])
    {
      sorted := Insert(sorted, list[n]);
      assert list[..n + 1] == list[..n] + [list[n]];
      n := n + 1;
    }
    assert list[..|list|] == list;
  }

  /** x in its place in an ordered list. */
  method Insert(sorted: seq<nat>, x: nat) returns (more: seq<nat>)
    requires Ordered(sorted)
    ensures Ordered(more) && multiset(more) == multiset(sorted) + multiset{x}
  {
    var k := |sorted|;
    while k > 0 && sorted[k - 1] > x
      invariant 0 <= k <= |sorted|
      invariant forall i :: k <= i < |sorted| ==> sorted[i] > x
    {
      k := k - 1;
    }
    more := sorted[..k] + [x] + sorted[k..];
    InsertedOrdered(sorted, k, x);
    OneMore(sorted, k, x);
  }

  lemma OneMore(sorted: seq<nat>, k: nat, x: nat)
    requires k <= |sorted|
    ensures multiset(sorted[..k] + [x] + sorted[k..]) == multiset(sorted) + multiset{x}
  {
    assert sorted == sorted[..k] + sorted[k..];
  }

  lemma InsertedOrdered(sorted: seq<nat>, k: nat, x: nat)
    requires Ordered(sorted) && k <= |sorted|
    requires forall i :: k <= i < |sorted| ==> sorted[i] > x
    requires k > 0 ==> sorted[k - 1] <= x
    ensures Ordered(sorted[..k] + [x] + sorted[k..])
  {
    var more := sorted[..k] + [x] + sorted[k..];
    forall i, j | 0 <= i < j < |more| ensures more[i] <= more[j] {
      assert more[i] == if i < k then sorted[i] else if i == k then x else sorted[i - 1];
      assert more[j] == if j < k then sorted[j] else if j == k then x else sorted[j - 1];
    }
  }

  /** The order of a list is no part of which numbers are in it, or how often. */
  lemma SortedMembers(list: seq<nat>, sorted: seq<nat>)
    requires multiset(sorted) == multiset(list)
    ensures Members(sorted) == Members(list) && (Distinct(sorted) <==> Distinct(list))
    ensures forall b :: b in sorted <==> b in list
  {
    forall b: nat ensures (b in Members(sorted) <==> b in Members(list)) && (b in sorted <==> b in list) {
      assert b in multiset(sorted) <==> b in multiset(list);
      assert b in sorted <==> b in multiset(sorted);
      assert b in list <==> b in multiset(list);
    }
    OnceEach(list);
    OnceEach(sorted);
  }

  lemma OnceEach(s: seq<nat>)
    ensures Distinct(s) <==> forall b :: multiset(s)[b] <= 1
  {
    if Distinct(s) {
      DistinctOnce(s);
    }
    if forall b :: multiset(s)[b] <= 1 {
      OnceDistinct(s);
    }
  }

  lemma SplitLast(s: seq<nat>)
    requires s != []
    ensures multiset(s) == multiset(s[..|s| - 1]) + multiset{s[|s| - 1]}
  {
    assert s == s[..|s| - 1] + [s[|s| - 1]];
  }

  lemma {:induction false} DistinctOnce(s: seq<nat>)
    requires Distinct(s)
    ensures forall b :: multiset(s)[b] <= 1
  {
    if s != [] {
      var rest, last := s[..|s| - 1], s[|s| - 1];
      SplitLast(s);
      DistinctOnce(rest);
      assert last !in rest;
      assert last !in multiset(rest);
    }
  }

  lemma {:induction false} OnceDistinct(s: seq<nat>)
    requires forall b :: multiset(s)[b] <= 1
    ensures Distinct(s)
  {
    if s != [] {
      var rest, last := s[..|s| - 1], s[|s| - 1];
      SplitLast(s);
      forall b ensures multiset(rest)[b] <= 1 {
        assert multiset(s)[b] <= 1;
      }
      OnceDistinct(rest);
      assert multiset(s)[last] <= 1;
      assert last !in multiset(rest);
    }
  }
}
