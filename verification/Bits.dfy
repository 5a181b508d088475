/** The binary digits of a number, lowest first: what the words and bytes of a bitmap hold. */
module Bits {
  import opened Layout
  import opened Codec

  function Pow2(n: nat): (p: nat)
    ensures p > 0
  {
    if n == 0 then 1 else 2 * Pow2(n - 1)
  }

  /** w & (1 << i) is not zero. */
  predicate Bit(w: nat, i: nat) {
    if i == 0 then w % 2 == 1 else Bit(w / 2, i - 1)
  }

  /** w | (1 << i), or w & ~(1 << i). */
  function WithBit(w: nat, i: nat, on: bool): nat {
    if i == 0 then w / 2 * 2 + (if on then 1 else 0) else WithBit(w / 2, i - 1, on) * 2 + w % 2
  }

  lemma {:induction false} WithBitIs(w: nat, i: nat, on: bool, k: nat)
    ensures Bit(WithBit(w, i, on), k) <==> if k == i then on else Bit(w, k)
  {
    var v := WithBit(w, i, on);
    if i > 0 && k > 0 {
      assert v / 2 == WithBit(w / 2, i - 1, on);
      WithBitIs(w / 2, i - 1, on, k - 1);
    }
  }

  lemma {:induction false} WithBitFits(w: nat, i: nat, on: bool, n: nat)
    requires w < Pow2(n) && i < n
    ensures WithBit(w, i, on) < Pow2(n)
  {
    if i > 0 {
      WithBitFits(w / 2, i - 1, on, n - 1);
    }
  }

  lemma {:induction false} ZeroBits(k: nat)
    ensures !Bit(0, k)
  {
    if k > 0 {
      ZeroBits(k - 1);
    }
  }

  /** w & ((1 << r) - 1). */
  function LowBits(w: nat, r: nat): nat {
    if r == 0 then 0 else LowBits(w / 2, r - 1) * 2 + w % 2
  }

  lemma {:induction false} LowBitsAre(w: nat, r: nat, k: nat)
    ensures Bit(LowBits(w, r), k) <==> Bit(w, k) && k < r
    ensures LowBits(w, r) <= w
  {
    if r == 0 {
      ZeroBits(k);
    } else {
      LowBitsAre(w / 2, r - 1, if k > 0 then k - 1 else 0);
      assert LowBits(w, r) / 2 == LowBits(w / 2, r - 1);
    }
  }

  /** A number with n bits, all of them set. */
  lemma {:induction false} AllSet(w: nat, n: nat, k: nat)
    requires w == Pow2(n) - 1 && k < n
    ensures Bit(w, k)
  {
    var q := Pow2(n - 1);
    assert w == 2 * q - 1;
    assert w / 2 == q - 1 && w % 2 == 1;
    if k > 0 {
      AllSet(w / 2, n - 1, k - 1);
    }
  }

  /** A number with n bits, not all of them set, has a lowest clear one. */
  lemma {:induction false} SomeClear(w: nat, n: nat) returns (k: nat)
    requires w < Pow2(n) && w != Pow2(n) - 1
    ensures k < n && !Bit(w, k)
  {
    if w % 2 == 0 {
      k := 0;
    } else {
      k := SomeClear(w / 2, n - 1);
      k := k + 1;
    }
  }

  /** Two numbers side by side: the low one's n bits, then the high one's. */
  lemma {:induction false} BitsBeside(low: nat, high: nat, n: nat, k: nat)
    requires low < Pow2(n)
    ensures Bit(low + Pow2(n) * high, k) <==> if k < n then Bit(low, k) else Bit(high, k - n)
  {
    if n > 0 {
      var w, rest := low + Pow2(n) * high, Pow2(n - 1) * high;
      assert Pow2(n) * high == 2 * rest;
      assert w == low + 2 * rest;
      assert w / 2 == low / 2 + rest && w % 2 == low % 2;
      if k > 0 {
        BitsBeside(low / 2, high, n - 1, k - 1);
      }
    }
  }

  lemma Pow2Eight()
    ensures Pow2(8) == 0x100
  {
    assert Pow2(4) == 16;
    assert Pow2(6) == 64;
  }

  /** A word copied from eight bytes holds the bytes' bits in order. */
  lemma {:induction false} BytesBits(s: seq<Byte>, k: nat)
    requires k < 8 * |s|
    ensures Bit(FromLE(s), k) <==> Bit(s[k / 8] as nat, k % 8)
  {
    Pow2Eight();
    BitsBeside(s[0] as nat, FromLE(s[1..]), 8, k);
    if k >= 8 {
      BytesBits(s[1..], k - 8);
      assert s[1..][(k - 8) / 8] == s[k / 8] && (k - 8) % 8 == k % 8;
    }
  }
}
