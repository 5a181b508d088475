/** One bit per thing, in 64-bit words in memory and in bytes on disk. */
module Bitmaps {
  import opened Layout
  import opened Codec
  import opened Bits
  import opened BlockMap

  const WORD_BITS: nat := 64
  const WORDS_PER_BLOCK: nat := 512
  const BITS_PER_BLOCK: nat := 32768
  const FULL: nat := 0xFFFF_FFFF_FFFF_FFFF

  datatype Found = Found(index: nat) | NotFound

  function BlocksFor(nbits: nat): nat {
    (nbits + BITS_PER_BLOCK - 1) / BITS_PER_BLOCK
  }

  /** Bit i of a region of bytes: in byte i / 8, at i % 8. */
  predicate RegionBit(region: seq<Byte>, i: nat)
    requires i < 8 * |region|
  {
    Bit(region[i / 8] as nat, i % 8)
  }

  /** The numbers below n whose bits are set on disk. */
  function RegionBits(region: seq<Byte>, n: nat): set<nat>
    requires n <= 8 * |region|
  {
    set i: nat | i < n && RegionBit(region, i)
  }

  /** Bit i of a sequence of words. */
  predicate WordBit(words: seq<nat>, i: nat)
    requires i < WORD_BITS * |words|
  {
    Bit(words[i / WORD_BITS], i % WORD_BITS)
  }

  lemma WordBitAt(words: seq<nat>, w: nat, k: nat)
    requires w < |words| && k < WORD_BITS
    ensures WORD_BITS * w + k < WORD_BITS * |words|
    ensures WordBit(words, WORD_BITS * w + k) <==> Bit(words[w], k)
  {
    assert (WORD_BITS * w + k) / WORD_BITS == w && (WORD_BITS * w + k) % WORD_BITS == k;
  }

  /** Setting or clearing one bit of one word. */
  lemma WordChanged(words: seq<nat>, i: nat, on: bool, k: nat)
    requires i < WORD_BITS * |words| && k < WORD_BITS * |words|
    ensures var words' := words[i / WORD_BITS := WithBit(words[i / WORD_BITS], i % WORD_BITS, on)];
            WordBit(words', k) <==> if k == i then on else WordBit(words, k)
  {
    WithBitIs(words[i / WORD_BITS], i % WORD_BITS, on, k % WORD_BITS);
    assert k / WORD_BITS == i / WORD_BITS && k % WORD_BITS == i % WORD_BITS ==> k == i;
  }

  lemma Pow2Word()
    ensures Pow2(64) == FULL + 1
  {
    assert Pow2(8) == 0x100;
    assert Pow2(16) == 0x1_0000;
    assert Pow2(24) == 0x100_0000;
    assert Pow2(32) == 0x1_0000_0000;
    assert Pow2(40) == 0x100_0000_0000;
    assert Pow2(48) == 0x1_0000_0000_0000;
    assert Pow2(56) == 0x100_0000_0000_0000;
  }

  class Bitmap {
    const nbits: nat
    const words: array<nat>

    ghost predicate Valid()
      reads this, words
    {
      && words.Length == BlocksFor(nbits) * WORDS_PER_BLOCK
      && (forall w :: 0 <= w < words.Length ==> words[w] <= FULL)
      && (forall i: nat :: nbits <= i < WORD_BITS * words.Length ==> !WordBit(words[..], i))
    }

    /** The numbers whose bits are set. */
    ghost function Denotes(): set<nat>
      reads this, words
      requires Valid()
    {
      set i: nat | i < nbits && WordBit(words[..], i)
    }

    constructor (nbits: nat)
      ensures Valid() && fresh(words) && this.nbits == nbits && Denotes() == {}
    {
      this.nbits := nbits;
      words := new nat[BlocksFor(nbits) * WORDS_PER_BLOCK](_ => 0);
      new;
      forall i: nat | i < WORD_BITS * words.Length ensures !WordBit(words[..], i) {
        ZeroBits(i % WORD_BITS);
      }
    }

    method IsSet(i: nat) returns (inRange: bool, on: bool)
      requires Valid()
      ensures inRange <==> i < nbits
      ensures inRange ==> (on <==> i in Denotes())
    {
      if i >= nbits {
        return false, false;
      }
      return true, Bit(words[i / WORD_BITS], i % WORD_BITS);
    }

    method Set(i: nat) returns (inRange: bool)
      requires Valid()
      modifies words
      ensures Valid() && (inRange <==> i < nbits)
      ensures Denotes() == if inRange then old(Denotes()) + {i} else old(Denotes())
    {
      inRange := i < nbits;
      if inRange {
        Change(i, true);
      }
    }

    method Clear(i: nat) returns (inRange: bool)
      requires Valid()
      modifies words
      ensures Valid() && (inRange <==> i < nbits)
      ensures Denotes() == if inRange then old(Denotes()) - {i} else old(Denotes())
    {
      inRange := i < nbits;
      if inRange {
        Change(i, false);
      }
    }

    method Change(i: nat, on: bool)
      requires Valid() && i < nbits
      modifies words
      ensures Valid()
      ensures Denotes() == if on then old(Denotes()) + {i} else old(Denotes()) - {i}
    {
      ghost var was := words[..];
      var w, k := i / WORD_BITS, i % WORD_BITS;
      Pow2Word();
      WithBitFits(words[w], k, on, 64);
      words[w] := WithBit(words[w], k, on);
      assert words[..] == was[w := WithBit(was[w], k, on)];
      forall j: nat | j < WORD_BITS * words.Length
          ensures WordBit(words[..], j) <==> if j == i then on else WordBit(was, j) {
        WordChanged(was, i, on, j);
      }
    }

    /** The lowest clear bit, a whole word at a time. */
    method FindFirstFree() returns (r: Found)
      requires Valid()
      ensures r.Found? ==> LowestFree(Denotes(), nbits, r.index)
      ensures r.NotFound? ==> forall i: nat :: i < nbits ==> i in Denotes()
    {
      var w := 0;
      while w < words.Length
        invariant 0 <= w <= words.Length
        invariant forall i: nat :: i < WORD_BITS * w ==> WordBit(words[..], i)
      {
        if words[w] != FULL {
          var k := LowestClear(words[w]);
          var i := w * WORD_BITS + k;
          WordBitAt(words[..], w, k);
          forall j: nat | j < i ensures WordBit(words[..], j) {
            if j >= WORD_BITS * w {
              WordBitAt(words[..], w, j - WORD_BITS * w);
            }
          }
          if i >= nbits {
            return NotFound;
          }
          return Found(i);
        }
        forall k: nat | k < WORD_BITS ensures Bit(words[w], k) {
          Pow2Word();
          AllSet(words[w], 64, k);
        }
        forall j: nat | j < WORD_BITS * (w + 1) ensures WordBit(words[..], j) {
          if j >= WORD_BITS * w {
            WordBitAt(words[..], w, j - WORD_BITS * w);
          }
        }
        w := w + 1;
      }
      return NotFound;
    }

    /** The words copied from disk; what the disk says past the last bit is dropped. */
    method Load(region: seq<Byte>)
      requires Valid() && |region| == 8 * words.Length && nbits <= 8 * |region|
      modifies words
      ensures Valid() && Denotes() == RegionBits(region, nbits)
    {
      var w := 0;
      while w < words.Length
        invariant 0 <= w <= words.Length
        invariant forall u :: 0 <= u < w ==> words[u] == FromLE(region[8 * u..8 * u + 8])
      {
        words[w] := FromLE(region[8 * w..8 * w + 8]);
        w := w + 1;
      }
      ghost var copied := words[..];
      CopiedBits(region, copied);
      DropSpare();
      forall i: nat | i < nbits ensures WordBit(words[..], i) <==> RegionBit(region, i) {
        assert WordBit(copied, i) <==> RegionBit(region, i);
      }
    }

    /** Clears the bits past the last one. */
    method DropSpare()
      requires words.Length == BlocksFor(nbits) * WORDS_PER_BLOCK
      requires forall w :: 0 <= w < words.Length ==> words[w] <= FULL
      modifies words
      ensures Valid()
      ensures forall i: nat :: i < nbits && i < WORD_BITS * words.Length ==>
                  (WordBit(words[..], i) <==> WordBit(old(words[..]), i))
    {
      ghost var was := words[..];
      if nbits % WORD_BITS != 0 {
        words[nbits / WORD_BITS] := LowBits(words[nbits / WORD_BITS], nbits % WORD_BITS);
        LowBitsAre(was[nbits / WORD_BITS], nbits % WORD_BITS, 0);
      }
      ghost var cut := words[..];
      var w := (nbits + WORD_BITS - 1) / WORD_BITS;
      ghost var first := w;
      while w < words.Length
        invariant first <= w && (first <= words.Length ==> w <= words.Length)
        invariant forall u :: 0 <= u < words.Length ==> words[u] == if first <= u < w then 0 else cut[u]
      {
        words[w] := 0;
        w := w + 1;
      }
      forall i: nat | i < WORD_BITS * words.Length
        ensures WordBit(words[..], i) <==> WordBit(was, i) && i < nbits
      {
        SpareDropped(was, nbits, words[..], i);
      }
    }

    /** The words copied to disk. */
    method Store() returns (region: seq<Byte>)
      requires Valid()
      ensures |region| == 8 * words.Length && RegionBits(region, nbits) == Denotes()
      ensures forall i: nat :: nbits <= i < 8 * |region| ==> !RegionBit(region, i)
    {
      region := [];
      var w := 0;
      while w < words.Length
        invariant 0 <= w <= words.Length && |region| == 8 * w
        invariant forall u :: 0 <= u < w ==> region[8 * u..8 * u + 8] == ToLE(words[u], 8)
      {
        ghost var before := region;
        region := region + ToLE(words[w], 8);
        assert region[8 * w..8 * w + 8] == ToLE(words[w], 8);
        forall u | 0 <= u < w ensures region[8 * u..8 * u + 8] == ToLE(words[u], 8) {
          assert region[8 * u..8 * u + 8] == before[8 * u..8 * u + 8];
        }
        w := w + 1;
      }
      forall u | 0 <= u < words.Length ensures FromLE(region[8 * u..8 * u + 8]) == words[u] {
        Pow256Eight();
        LERoundTrip(words[u], 8);
      }
      CopiedBits(region, words[..]);
    }
  }

  lemma Pow256Eight()
    ensures Pow256(8) == FULL + 1
  {
    assert Pow256(2) == 0x1_0000;
    assert Pow256(4) == 0x1_0000_0000;
    assert Pow256(6) == 0x1_0000_0000_0000;
  }

  /** Bytes and words hold the same bits in the same order. */
  lemma CopiedBits(region: seq<Byte>, words: seq<nat>)
    requires |region| == 8 * |words|
    requires forall u :: 0 <= u < |words| ==> words[u] == FromLE(region[8 * u..8 * u + 8])
    ensures forall i: nat :: i < 8 * |region| ==> (WordBit(words, i) <==> RegionBit(region, i))
    ensures forall u :: 0 <= u < |words| ==> words[u] <= FULL
  {
    Pow256Eight();
    forall i: nat | i < 8 * |region| ensures WordBit(words, i) <==> RegionBit(region, i) {
      var u, k := i / WORD_BITS, i % WORD_BITS;
      BytesBits(region[8 * u..8 * u + 8], k);
      assert region[8 * u..8 * u + 8][k / 8] == region[i / 8] && k % 8 == i % 8;
    }
  }

  lemma SpareDropped(was: seq<nat>, nbits: nat, words: seq<nat>, i: nat)
    requires |words| == |was| && i < WORD_BITS * |words|
    requires forall u :: 0 <= u < |words| ==>
               words[u] == if u >= (nbits + WORD_BITS - 1) / WORD_BITS then 0
                           else if u == nbits / WORD_BITS
                               && nbits % WORD_BITS != 0 then LowBits(was[u], nbits % WORD_BITS) else was[u]
    ensures WordBit(words, i) <==> WordBit(was, i) && i < nbits
  {
    var u, k := i / WORD_BITS, i % WORD_BITS;
    ZeroBits(k);
    LowBitsAre(was[u], nbits % WORD_BITS, k);
  }

  /** The number of trailing ones: ctz of the complement. */
  method LowestClear(w: nat) returns (k: nat)
    requires w < FULL
    ensures k < WORD_BITS && !Bit(w, k) && forall j: nat :: j < k ==> Bit(w, j)
  {
    Pow2Word();
    ghost var some := SomeClear(w, 64);
    k := 0;
    while Bit(w, k)
      invariant k <= some && forall j: nat :: j < k ==> Bit(w, j)
      decreases some - k
    {
      k := k + 1;
    }
  }
}
