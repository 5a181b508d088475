/** How numbers and directory entries sit in a block's bytes, lowest byte first. */
module Codec {
  import opened Layout

  type u8 = x: nat | x < 0x100
  type u16 = x: nat | x < 0x1_0000
  type u32 = x: nat | x < 0x1_0000_0000
  type u64 = x: nat | x < 0x1_0000_0000_0000_0000

  const PTRS_PER_BLOCK: nat := 1024
  const DIRENT_SIZE: nat := 64
  const DIRENTS_PER_BLOCK: nat := 64
  const MAX_NAME_LEN: nat := 58

  // -------------------------------------------------------------- numbers

  function Pow256(n: nat): nat {
    if n == 0 then 1 else 0x100 * Pow256(n - 1)
  }

  function FromLE(s: seq<Byte>): (r: nat)
    ensures r < Pow256(|s|)
  {
    if s == [] then 0 else s[0] as nat + 0x100 * FromLE(s[1..])
  }

  function ToLE(v: nat, n: nat): (r: seq<Byte>)
    ensures |r| == n
  {
    if n == 0 then [] else [AsByte(v % 0x100)] + ToLE(v / 0x100, n - 1)
  }

  function AsByte(d: u8): Byte {
    d as Byte
  }

  lemma {:induction false} SomeByte(d: nat) returns (b: Byte)
    requires d < 0x100
    ensures b as nat == d
  {
    b := 0;
    if d > 0 {
      var c := SomeByte(d - 1);
      NextByte(c);
      b := c + 1;
    }
  }

  lemma NextByte(b: Byte)
    requires b != 0xFF
    ensures (b + 1) as nat == b as nat + 1
  {
  }

  lemma ByteOf(b: Byte)
    ensures (b as nat) as Byte == b
  {
  }

  lemma AsByteIs(d: u8)
    ensures AsByte(d) as nat == d
  {
    var b := SomeByte(d);
    ByteOf(b);
  }

  lemma {:induction false} LERoundTrip(v: nat, n: nat)
    requires v < Pow256(n)
    ensures FromLE(ToLE(v, n)) == v
  {
    if n > 0 {
      LERoundTrip(v / 0x100, n - 1);
      var r := ToLE(v, n);
      AsByteIs(v % 0x100);
      assert r[1..] == ToLE(v / 0x100, n - 1);
    }
  }

  lemma Pow256Four()
    ensures Pow256(4) == 0x1_0000_0000
  {
    assert Pow256(1) == 0x100 && Pow256(2) == 0x1_0000 && Pow256(3) == 0x100_0000;
  }

  // -------------------------------------------------------- parts of a block

  /** memcpy of s into b at offset at. */
  function Splice(b: Block, at: nat, s: seq<Byte>): (r: Block)
    requires at + |s| <= BLOCK_SIZE
  {
    b[..at] + s + b[at + |s|..]
  }

  lemma SpliceAt(b: Block, at: nat, s: seq<Byte>, from: nat, to: nat)
    requires at + |s| <= BLOCK_SIZE && from <= to <= BLOCK_SIZE
    ensures from == at && to == at + |s| ==> Splice(b, at, s)[from..to] == s
    ensures to <= at || at + |s| <= from ==> Splice(b, at, s)[from..to] == b[from..to]
  {
  }

  // ------------------------------------------------------- pointers in blocks

  function Word(b: Block, i: nat): (w: u32)
    requires i < PTRS_PER_BLOCK
  {
    Pow256Four();
    FromLE(b[4 * i..4 * i + 4])
  }

  function PutWord(b: Block, i: nat, w: u32): Block
    requires i < PTRS_PER_BLOCK
  {
    Splice(b, 4 * i, ToLE(w, 4))
  }

  lemma WordOfPut(b: Block, i: nat, w: u32, k: nat)
    requires i < PTRS_PER_BLOCK && k < PTRS_PER_BLOCK
    ensures Word(PutWord(b, i, w), k) == if k == i then w else Word(b, k)
  {
    Pow256Four();
    LERoundTrip(w, 4);
    SpliceAt(b, 4 * i, ToLE(w, 4), 4 * k, 4 * k + 4);
  }

  lemma {:induction false} FromZeros(n: nat)
    ensures FromLE(Zeros(n)) == 0
  {
    if n > 0 {
      FromZeros(n - 1);
      assert (Zeros(n))[1..] == Zeros(n - 1);
    }
  }

  lemma WordOfZero(i: nat)
    requires i < PTRS_PER_BLOCK
    ensures Word(ZERO_BLOCK, i) == 0
  {
    FromZeros(4);
    assert ZERO_BLOCK[4 * i..4 * i + 4] == Zeros(4);
  }

  // -------------------------------------------------------- directory entries

  /** A name field: 58 bytes, of which the entry's length says how many count. */
  type NameField = s: seq<Byte> | |s| == MAX_NAME_LEN witness Zeros(MAX_NAME_LEN)

  datatype Entry = Entry(inode: u32, len: u8, kind: u8, field: NameField) {
    /** The bytes that count. */
    function Name(): seq<Byte> {
      field[..if len <= MAX_NAME_LEN then len else MAX_NAME_LEN]
    }
  }

  const NO_NAME: NameField := Zeros(MAX_NAME_LEN)
  const ZERO_ENTRY: Entry := Entry(0, 0, 0, NO_NAME)

  function Slot(b: Block, i: nat): Entry
    requires i < DIRENTS_PER_BLOCK
  {
    var at := i * DIRENT_SIZE;
    Pow256Four();
    Entry(FromLE(b[at..at + 4]), b[at + 4] as nat, b[at + 5] as nat, b[at + 6..at + DIRENT_SIZE])
  }

  function EntryBytes(e: Entry): (r: seq<Byte>)
    ensures |r| == DIRENT_SIZE
  {
    ToLE(e.inode, 4) + [AsByte(e.len), AsByte(e.kind)] + e.field
  }

  function PutSlot(b: Block, i: nat, e: Entry): Block
    requires i < DIRENTS_PER_BLOCK
  {
    Splice(b, i * DIRENT_SIZE, EntryBytes(e))
  }

  lemma SlotOfPut(b: Block, i: nat, e: Entry, k: nat)
    requires i < DIRENTS_PER_BLOCK && k < DIRENTS_PER_BLOCK
    ensures Slot(PutSlot(b, i, e), k) == if k == i then e else Slot(b, k)
  {
    var w := PutSlot(b, i, e);
    var at := k * DIRENT_SIZE;
    SpliceAt(b, i * DIRENT_SIZE, EntryBytes(e), at, at + DIRENT_SIZE);
    if k == i {
      Pow256Four();
      LERoundTrip(e.inode, 4);
      AsByteIs(e.len);
      AsByteIs(e.kind);
      assert w[at..at + DIRENT_SIZE] == EntryBytes(e);
      assert w[at..at + 4] == EntryBytes(e)[..4] == ToLE(e.inode, 4);
      assert w[at + 6..at + DIRENT_SIZE] == EntryBytes(e)[6..] == e.field;
      assert w[at + 4] == EntryBytes(e)[4] && w[at + 5] == EntryBytes(e)[5];
    } else {
      assert w[at..at + DIRENT_SIZE] == b[at..at + DIRENT_SIZE];
      assert w[at..at + 4] == w[at..at + DIRENT_SIZE][..4] == b[at..at + 4];
      assert w[at + 6..at + DIRENT_SIZE] == w[at..at + DIRENT_SIZE][6..] == b[at + 6..at + DIRENT_SIZE];
      assert w[at + 4] == w[at..at + DIRENT_SIZE][4] && w[at + 5] == w[at..at + DIRENT_SIZE][5];
    }
  }

  lemma SlotOfZero(i: nat)
    requires i < DIRENTS_PER_BLOCK
    ensures Slot(ZERO_BLOCK, i) == ZERO_ENTRY
  {
    FromZeros(4);
    var at := i * DIRENT_SIZE;
    assert ZERO_BLOCK[at..at + 4] == Zeros(4);
    assert ZERO_BLOCK[at + 6..at + DIRENT_SIZE] == Zeros(MAX_NAME_LEN);
  }
}
