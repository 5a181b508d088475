/** The bytes on the disk: sizes, constants and the block type. */
module Layout {
  type Byte = bv8

  const BLOCK_SIZE: nat := 4096

  /** One block's worth of bytes. */
  type Block = b: seq<Byte> | |b| == BLOCK_SIZE witness Zeros(BLOCK_SIZE)

  const ZERO_BLOCK: Block := Zeros(BLOCK_SIZE)

  function Zeros(n: nat): (r: seq<Byte>)
    ensures |r| == n && forall k :: 0 <= k < n ==> r[k] == 0
  {
    seq(n, _ => 0)
  }

  /** The two fields of block 0 that change after mkfs. */
  datatype Mark = Mark(clean: bool, ckpt: nat)
}
