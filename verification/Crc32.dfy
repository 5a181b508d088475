/**
 CRC-32 as in section 8 of RFC 1952: one table lookup for every eight bit steps. A register
 is a number below 2^32, and exclusive or works on its binary digits.
 */
module Crc32 {
  import Bits
  import opened Layout
  import opened Codec

  const POLY: nat := 0xEDB8_8320
  const ONES: nat := 0xFFFF_FFFF

  function Xor(a: nat, b: nat): (r: nat)
    decreases a + b
  {
    if a == 0 then b else if b == 0 then a
    else 2 * Xor(a / 2, b / 2) + (a + b) % 2
  }

  /** One bit of the division. */
  function BitStep(c: nat): nat {
    if c % 2 == 1 then Xor(POLY, c / 2) else c / 2
  }

  function BitSteps(c: nat, n: nat): nat {
    if n == 0 then c else BitStep(BitSteps(c, n - 1))
  }

  /** One byte of the message, bit by bit. */
  function ByteStep(c: nat, b: u8): nat {
    BitSteps(Xor(c, b), 8)
  }

  /** The register after a message. */
  function Register(c: nat, s: seq<Byte>): nat {
    if s == [] then c else ByteStep(Register(c, s[..|s| - 1]), s[|s| - 1] as nat)
  }

  /** crc32(data, n, crc), bit by bit. */
  function Crc(s: seq<Byte>, crc: nat): nat {
    Xor(Register(Xor(crc, ONES), s), ONES)
  }

  // ------------------------------------------------------- the polynomial itself

  /** The digit that stands for x^k in a register: the highest powers come last. */
  function Term(k: nat): nat
    requires k < 32
  {
    Bits.Pow2(31 - k)
  }

  /** The polynomial's terms below x^32, as section 8 of RFC 1952 lists them. */
  lemma Terms()
    ensures POLY == Term(26) + Term(23) + Term(22) + Term(16) + Term(12) + Term(11) + Term(10) + Term(8) + Term(7)
                    + Term(5) + Term(4) + Term(2) + Term(1) + Term(0)
  {
    Pow2Is();
    assert Bits.Pow2(5) == 0x20 && Bits.Pow2(9) == 0x200 && Bits.Pow2(15) == 0x8000 && Bits.Pow2(19) == 0x8_0000;
    assert Bits.Pow2(20) == 0x10_0000 && Bits.Pow2(21) == 0x20_0000 && Bits.Pow2(23) == 0x80_0000;
    assert Bits.Pow2(24) == 0x100_0000 && Bits.Pow2(26) == 0x400_0000 && Bits.Pow2(27) == 0x800_0000;
    assert Bits.Pow2(29) == 0x2000_0000 && Bits.Pow2(30) == 0x4000_0000;
  }

  /** The CRC of the one byte 255: the register starts with ones, and is inverted in the end. */
  lemma OneByteOfOnes()
    ensures Crc([0xFF], 0) == 0xFF00_0000
  {
    RegisterLast(ONES, [], 0xFF);
    assert [] + [0xFF as Byte] == [0xFF];
    OnesPassed();
    OnesInverted();
  }

  lemma OnesPassed()
    ensures ByteStep(ONES, 0xFF) == 0xFF_FFFF
  {
    Pow2Is();
    WithoutLow(0xFF, 0xFF_FFFF, 8);
    StepsDown(0xFF_FFFF, 8, 8);
  }

  lemma OnesInverted()
    ensures Xor(0xFF_FFFF, ONES) == 0xFF00_0000
  {
    Pow2Is();
    WithoutLow(0xFF_FFFF, 0xFF, 24);
    XorComm(ONES, 0xFF_FFFF);
  }

  lemma WithoutLow(low: nat, high: nat, n: nat)
    requires low < Bits.Pow2(n)
    ensures Xor(low + Bits.Pow2(n) * high, low) == Bits.Pow2(n) * high
  {
    XorBeside(low, high, n);
    XorComm(low, Bits.Pow2(n) * high);
    XorCancel(Bits.Pow2(n) * high, low);
  }

  // ------------------------------------------------------- exclusive or

  lemma XorParts(a: nat, b: nat)
    ensures Xor(a, b) / 2 == Xor(a / 2, b / 2) && Xor(a, b) % 2 == (a + b) % 2
  {
  }

  lemma {:induction false} XorComm(a: nat, b: nat)
    ensures Xor(a, b) == Xor(b, a)
    decreases a + b
  {
    if a != 0 && b != 0 {
      XorComm(a / 2, b / 2);
    }
  }

  lemma {:induction false} XorSelf(a: nat)
    ensures Xor(a, a) == 0
  {
    if a != 0 {
      XorSelf(a / 2);
    }
  }

  lemma Halves(x: nat, y: nat)
    requires x / 2 == y / 2 && x % 2 == y % 2
    ensures x == y
  {
  }

  lemma ParityAssoc(a: nat, b: nat, c: nat)
    ensures ((a + b) % 2 + c) % 2 == (a + (b + c) % 2) % 2
  {
  }

  lemma {:induction false} XorAssoc(a: nat, b: nat, c: nat)
    ensures Xor(Xor(a, b), c) == Xor(a, Xor(b, c))
    decreases a + b + c
  {
    if a != 0 && b != 0 && c != 0 {
      XorAssoc(a / 2, b / 2, c / 2);
      var ab, bc := Xor(a, b), Xor(b, c);
      XorParts(a, b);
      XorParts(b, c);
      XorParts(ab, c);
      XorParts(a, bc);
      ParityAssoc(a, b, c);
      SameParity(ab, a + b, c);
      SameParity(bc, b + c, a);
      Halves(Xor(ab, c), Xor(a, bc));
    }
  }

  lemma SameParity(x: nat, y: nat, z: nat)
    requires x % 2 == y % 2
    ensures (x + z) % 2 == (y % 2 + z) % 2 == (z + y % 2) % 2 && (z + x) % 2 == (x + z) % 2
  {
  }

  lemma XorCancel(a: nat, b: nat)
    ensures Xor(Xor(a, b), b) == a
  {
    XorAssoc(a, b, b);
    XorSelf(b);
  }

  lemma XorInjective(a: nat, b: nat, c: nat)
    requires Xor(a, c) == Xor(b, c)
    ensures a == b
  {
    XorCancel(a, c);
    XorCancel(b, c);
  }

  /** Two pairs, regrouped. */
  lemma XorPairs(a: nat, b: nat, c: nat, d: nat)
    ensures Xor(Xor(a, b), Xor(c, d)) == Xor(Xor(a, c), Xor(b, d))
  {
    XorAssoc(a, b, Xor(c, d));
    XorAssoc(b, c, d);
    XorComm(b, c);
    XorAssoc(c, b, d);
    XorAssoc(a, c, Xor(b, d));
  }

  lemma {:induction false} XorBelow(a: nat, b: nat, n: nat)
    requires a < Bits.Pow2(n) && b < Bits.Pow2(n)
    ensures Xor(a, b) < Bits.Pow2(n)
  {
    if n > 0 && a != 0 && b != 0 {
      XorBelow(a / 2, b / 2, n - 1);
    }
  }

  lemma Pow2Is()
    ensures Bits.Pow2(8) == 0x100 && Bits.Pow2(24) == 0x100_0000
    ensures Bits.Pow2(31) == 0x8000_0000 && Bits.Pow2(32) == 0x1_0000_0000
  {
    assert Bits.Pow2(4) == 16;
    assert Bits.Pow2(12) == 0x1000;
    assert Bits.Pow2(16) == 0x1_0000;
    assert Bits.Pow2(20) == 0x10_0000;
    assert Bits.Pow2(24) == 0x100_0000;
    assert Bits.Pow2(28) == 0x1000_0000;
  }

  /** A number below 2^n beside one above: no digits meet. */
  lemma {:induction false} XorBeside(low: nat, high: nat, n: nat)
    requires low < Bits.Pow2(n)
    ensures Xor(low, Bits.Pow2(n) * high) == low + Bits.Pow2(n) * high
    decreases n
  {
    if n > 0 && low != 0 && high != 0 {
      var rest := Bits.Pow2(n - 1) * high;
      assert Bits.Pow2(n) * high == 2 * rest;
      XorBeside(low / 2, high, n - 1);
      XorParts(low, 2 * rest);
      Halves(Xor(low, 2 * rest), low + 2 * rest);
    }
  }

  // --------------------------------------------- the division is linear

  function Pick(p: nat, bit: nat): nat {
    if bit == 1 then p else 0
  }

  /** What a step adds for the digit it drops, with polynomial p. */
  function Feedback(p: nat, c: nat): nat { Pick(p, c % 2) }

  lemma StepIs(c: nat)
    ensures BitStep(c) == Xor(Feedback(POLY, c), c / 2)
  {
  }

  lemma PickXor(p: nat, i: nat, j: nat, k: nat)
    requires i < 2 && j < 2 && k == (i + j) % 2
    ensures Pick(p, k) == Xor(Pick(p, i), Pick(p, j))
  {
    XorSelf(p);
  }

  lemma XorParity(a: nat, b: nat)
    ensures Xor(a, b) % 2 == (a % 2 + b % 2) % 2
  {
  }

  lemma FeedbackXor(p: nat, a: nat, b: nat)
    ensures Feedback(p, Xor(a, b)) == Xor(Feedback(p, a), Feedback(p, b))
  {
    XorParity(a, b);
    PickXor(p, a % 2, b % 2, Xor(a, b) % 2);
  }

  lemma StepXor(a: nat, b: nat)
    ensures BitStep(Xor(a, b)) == Xor(BitStep(a), BitStep(b))
  {
    StepIs(a);
    StepIs(b);
    StepIs(Xor(a, b));
    FeedbackXor(POLY, a, b);
    XorParts(a, b);
    XorPairs(Feedback(POLY, a), Feedback(POLY, b), a / 2, b / 2);
  }

  lemma {:induction false} StepsXor(a: nat, b: nat, n: nat)
    ensures BitSteps(Xor(a, b), n) == Xor(BitSteps(a, n), BitSteps(b, n))
  {
    if n > 0 {
      StepsXor(a, b, n - 1);
      StepXor(BitSteps(a, n - 1), BitSteps(b, n - 1));
    }
  }

  /** n steps move what lies above the n lowest digits down n places. */
  lemma {:induction false} StepsDown(high: nat, m: nat, n: nat)
    requires n <= m
    ensures BitSteps(Bits.Pow2(m) * high, n) == Bits.Pow2(m - n) * high
  {
    if n > 0 {
      StepsDown(high, m, n - 1);
      assert Bits.Pow2(m - n + 1) == 2 * Bits.Pow2(m - n);
      assert Bits.Pow2(m - n + 1) * high == 2 * (Bits.Pow2(m - n) * high);
    }
  }

  // ------------------------------------------------------- the table

  function Down(c: nat, n: nat): nat {
    if n == 0 then c else Down(c / 2, n - 1)
  }

  lemma {:induction false} DownSum(c: nat, m: nat, n: nat)
    ensures Down(Down(c, m), n) == Down(c, m + n)
  {
    if m > 0 {
      DownSum(c / 2, m - 1, n);
    }
  }

  lemma DownTwo(c: nat)
    ensures Down(c, 2) == c / 4
  {
    assert Down(c, 2) == Down(c / 2, 1) == Down(c / 2 / 2, 0);
  }

  lemma DownFour(c: nat)
    ensures Down(c, 4) == c / 16
  {
    DownTwo(c);
    DownTwo(c / 4);
    DownSum(c, 2, 2);
  }

  lemma DownEight(c: nat)
    ensures Down(c, 8) == c / 0x100
  {
    DownFour(c);
    DownFour(c / 16);
    DownSum(c, 4, 4);
  }

  /** A byte changes nothing above its own eight digits. */
  lemma {:induction false} ByteAway(c: nat, b: nat, n: nat)
    requires b < Bits.Pow2(n)
    ensures Down(Xor(c, b), n) == Down(c, n)
  {
    if n > 0 {
      ByteAway(c / 2, b / 2, n - 1);
      XorParts(c, b);
    }
  }

  /** n steps divide the n lowest digits and move the rest down. */
  lemma StepsSplit(low: nat, high: nat, n: nat)
    requires low < Bits.Pow2(n)
    ensures BitSteps(low + Bits.Pow2(n) * high, n) == Xor(BitSteps(low, n), high)
  {
    XorBeside(low, high, n);
    StepsXor(low, Bits.Pow2(n) * high, n);
    StepsDown(high, n, n);
    assert Bits.Pow2(n - n) * high == high;
  }

  lemma EightSteps(x: nat)
    ensures BitSteps(x, 8) == Xor(BitSteps(x % 0x100, 8), x / 0x100)
  {
    Pow2Is();
    StepsSplit(x % 0x100, x / 0x100, 8);
    assert x == x % 0x100 + Bits.Pow2(8) * (x / 0x100);
  }

  /** The table's step is eight bit steps, whatever is in the register. */
  lemma TableStep(c: nat, b: u8)
    ensures Xor(BitSteps(Xor(c, b) % 0x100, 8), c / 0x100) == ByteStep(c, b)
  {
    EightSteps(Xor(c, b));
    Pow2Is();
    ByteAway(c, b, 8);
    DownEight(c);
    DownEight(Xor(c, b));
  }

  /** What dividing each byte by the polynomial leaves behind. */
  method MakeTable() returns (table: seq<nat>)
    ensures |table| == 0x100 && forall i: nat :: i < 0x100 ==> table[i] == BitSteps(i, 8)
  {
    table := [];
    while |table| < 0x100
      invariant |table| <= 0x100 && forall i: nat :: i < |table| ==> table[i] == BitSteps(i, 8)
      decreases 0x100 - |table|
    {
      var c, bit := |table|, 0;
      while bit < 8
        invariant 0 <= bit <= 8 && c == BitSteps(|table|, bit)
      {
        c := if c % 2 == 1 then Xor(POLY, c / 2) else c / 2;
        bit := bit + 1;
      }
      table := table + [c];
    }
  }

  /** crc32, a byte at a time. */
  method Crc32(data: seq<Byte>, crc: nat) returns (r: nat)
    ensures r == Crc(data, crc)
  {
    var table := MakeTable();
    var c, i := Xor(crc, ONES), 0;
    while i < |data|
      invariant 0 <= i <= |data| && c == Register(Xor(crc, ONES), data[..i])
    {
      var b := data[i] as nat;
      TableStep(c, b);
      c := Xor(table[Xor(c, b) % 0x100], c / 0x100);
      assert data[..i + 1][..i] == data[..i];
      i := i + 1;
    }
    assert data[..|data|] == data;
    r := Xor(c, ONES);
  }

  // ------------------------------------------------- what it promises

  lemma RegisterLast(c: nat, s: seq<Byte>, b: Byte)
    ensures Register(c, s + [b]) == ByteStep(Register(c, s), b as nat)
  {
    assert (s + [b])[..|s + [b]| - 1] == s;
  }

  lemma {:induction false} RegisterAppend(c: nat, s: seq<Byte>, t: seq<Byte>)
    ensures Register(c, s + t) == Register(Register(c, s), t)
  {
    if t == [] {
      assert s + t == s;
    } else {
      var init, last := t[..|t| - 1], t[|t| - 1];
      RegisterAppend(c, s, init);
      RegisterLast(c, s + init, last);
      RegisterLast(Register(c, s), init, last);
      assert t == init + [last] && s + t == s + init + [last];
    }
  }

  /** Feeding the second part to the first part's CRC is the CRC of both. */
  lemma CrcAppend(s: seq<Byte>, t: seq<Byte>, crc: nat)
    ensures Crc(t, Crc(s, crc)) == Crc(s + t, crc)
  {
    XorCancel(Register(Xor(crc, ONES), s), ONES);
    RegisterAppend(Xor(crc, ONES), s, t);
  }

  /** The polynomial's top digit tells whether a step saw a 1, so no two registers step to one. */
  lemma StepInjective(a: nat, b: nat)
    requires a < 0x1_0000_0000 && b < 0x1_0000_0000 && BitStep(a) == BitStep(b)
    ensures a == b
  {
    TopDigit(a);
    TopDigit(b);
    if a % 2 == 1 {
      XorComm(POLY, a / 2);
      XorComm(POLY, b / 2);
      XorInjective(a / 2, b / 2, POLY);
    }
    Halves(a, b);
  }

  lemma TopDigit(a: nat)
    requires a < 0x1_0000_0000
    ensures BitStep(a) < 0x1_0000_0000 && (BitStep(a) >= 0x8000_0000 <==> a % 2 == 1)
  {
    Pow2Is();
    if a % 2 == 1 {
      XorBelow(POLY, a / 2, 32);
      var low := POLY - 0x8000_0000;
      XorBelow(low, a / 2, 31);
      XorBeside(low, 1, 31);
      XorAssoc(Bits.Pow2(31), low, a / 2);
      XorComm(low, Bits.Pow2(31));
      XorBeside(Xor(low, a / 2), 1, 31);
      XorComm(Xor(low, a / 2), Bits.Pow2(31));
    }
  }

  lemma {:induction false} StepsInjective(a: nat, b: nat, n: nat)
    requires a < 0x1_0000_0000 && b < 0x1_0000_0000 && BitSteps(a, n) == BitSteps(b, n)
    ensures a == b
  {
    if n > 0 {
      StepsBelow(a, n - 1);
      StepsBelow(b, n - 1);
      StepInjective(BitSteps(a, n - 1), BitSteps(b, n - 1));
      StepsInjective(a, b, n - 1);
    }
  }

  lemma {:induction false} StepsBelow(a: nat, n: nat)
    requires a < 0x1_0000_0000
    ensures BitSteps(a, n) < 0x1_0000_0000
  {
    if n > 0 {
      StepsBelow(a, n - 1);
      TopDigit(BitSteps(a, n - 1));
    }
  }

  lemma {:induction false} RegisterBelow(c: nat, s: seq<Byte>)
    requires c < 0x1_0000_0000
    ensures Register(c, s) < 0x1_0000_0000
  {
    if s != [] {
      RegisterBelow(c, s[..|s| - 1]);
      Pow2Is();
      var r, b := Register(c, s[..|s| - 1]), s[|s| - 1] as nat;
      XorBelow(r, b, 32);
      StepsBelow(Xor(r, b), 8);
    }
  }

  /** Once two registers differ, the same bytes keep them different. */
  lemma {:induction false} RegisterInjective(c: nat, d: nat, s: seq<Byte>)
    requires c < 0x1_0000_0000 && d < 0x1_0000_0000 && Register(c, s) == Register(d, s)
    ensures c == d
  {
    if s != [] {
      var t, b := s[..|s| - 1], s[|s| - 1] as nat;
      RegisterBelow(c, t);
      RegisterBelow(d, t);
      Pow2Is();
      XorBelow(Register(c, t), b, 32);
      XorBelow(Register(d, t), b, 32);
      StepsInjective(Xor(Register(c, t), b), Xor(Register(d, t), b), 8);
      XorInjective(Register(c, t), Register(d, t), b);
      RegisterInjective(c, d, t);
    }
  }

  /** Two messages that differ in exactly one byte never have the same CRC. */
  lemma OneByteShows(s: seq<Byte>, a: Byte, b: Byte, t: seq<Byte>, crc: nat)
    requires crc < 0x1_0000_0000 && a != b
    ensures Crc(s + [a] + t, crc) != Crc(s + [b] + t, crc)
  {
    Pow2Is();
    XorBelow(crc, ONES, 32);
    var c := Xor(crc, ONES);
    RegisterAppend(c, s + [a], t);
    RegisterAppend(c, s + [b], t);
    RegisterAppend(c, s, [a]);
    RegisterAppend(c, s, [b]);
    RegisterBelow(c, s);
    RegisterBelow(c, s + [a]);
    RegisterBelow(c, s + [b]);
    var r := Register(c, s);
    OneByte(r, a);
    OneByte(r, b);
    if Crc(s + [a] + t, crc) == Crc(s + [b] + t, crc) {
      XorInjective(Register(c, s + [a] + t), Register(c, s + [b] + t), ONES);
      RegisterInjective(Register(c, s + [a]), Register(c, s + [b]), t);
      BytesDiffer(r, a, b);
    }
  }

  lemma OneByte(r: nat, a: Byte)
    ensures Register(r, [a]) == ByteStep(r, a as nat)
  {
    assert [a][..0] == [];
  }

  lemma BytesDiffer(r: nat, a: Byte, b: Byte)
    requires r < 0x1_0000_0000 && a != b
    ensures ByteStep(r, a as nat) != ByteStep(r, b as nat)
  {
    ByteOf(a);
    ByteOf(b);
    NumbersDiffer(r, a as nat, b as nat);
  }

  lemma NumbersDiffer(r: nat, m: u8, n: u8)
    requires r < 0x1_0000_0000 && m != n
    ensures ByteStep(r, m) != ByteStep(r, n)
  {
    Pow2Is();
    XorBelow(r, m, 32);
    XorBelow(r, n, 32);
    if ByteStep(r, m) == ByteStep(r, n) {
      StepsInjective(Xor(r, m), Xor(r, n), 8);
      XorComm(r, m);
      XorComm(r, n);
      XorInjective(m, n, r);
    }
  }
}
