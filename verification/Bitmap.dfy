/** The free-block bitmap kept in the blocks from `bmapstart` on, and what
    `balloc` and `bfree` do to the disk. */
module Bitmap {
  import opened Blocks

  /** Bitmap bits in a block, `BSIZE * 8`. */
  const BPB := 8192

  type Disk = seq<Block>

  /** `size` blocks in all; those below `datastart` hold the boot block, the
      superblock, the log, the inodes and the bitmap. */
  datatype Super = Super(size: nat, bmapstart: nat, datastart: nat)

  ghost predicate Geometry(sb: Super, disk: Disk) {
    && |disk| == sb.size < 0x8000_0000
    && 0 < sb.bmapstart
    && sb.bmapstart + (sb.size + BPB - 1) / BPB <= sb.datastart <= sb.size
  }

  /** The bitmap block that holds the bit of block `b`. */
  function BBlock(sb: Super, b: nat): nat {
    b / BPB + sb.bmapstart
  }

  lemma BBlockInRange(sb: Super, disk: Disk, b: nat)
    requires Geometry(sb, disk) && b < sb.size
    ensures sb.bmapstart <= BBlock(sb, b) < sb.datastart
  {
  }

  predicate Used(sb: Super, disk: Disk, b: nat)
    requires Geometry(sb, disk) && b < sb.size
  {
    BBlockInRange(sb, disk, b);
    HasBit(disk[BBlock(sb, b)][b % BPB / 8], b % BPB % 8)
  }

  function MarkUsed(sb: Super, disk: Disk, b: nat): (disk': Disk)
    requires Geometry(sb, disk) && b < sb.size
    ensures Geometry(sb, disk')
  {
    BBlockInRange(sb, disk, b);
    var data := disk[BBlock(sb, b)];
    disk[BBlock(sb, b) := data[b % BPB / 8 := SetBit(data[b % BPB / 8], b % BPB % 8)]]
  }

  function MarkFree(sb: Super, disk: Disk, b: nat): (disk': Disk)
    requires Geometry(sb, disk) && b < sb.size
    ensures Geometry(sb, disk')
  {
    BBlockInRange(sb, disk, b);
    var data := disk[BBlock(sb, b)];
    disk[BBlock(sb, b) := data[b % BPB / 8 := ClearBit(data[b % BPB / 8], b % BPB % 8)]]
  }

  lemma BitPosition(b: nat, x: nat)
    ensures b == x <==> b / BPB == x / BPB && b % BPB / 8 == x % BPB / 8 && b % BPB % 8 == x % BPB % 8
  {
  }

  lemma UsedAfterMark(sb: Super, disk: Disk, b: nat, x: nat)
    requires Geometry(sb, disk) && b < sb.size && x < sb.size
    ensures Used(sb, MarkUsed(sb, disk, b), x) <==> x == b || Used(sb, disk, x)
    ensures Used(sb, MarkFree(sb, disk, b), x) <==> x != b && Used(sb, disk, x)
  {
    BitPosition(b, x);
    BBlockInRange(sb, disk, b);
    BBlockInRange(sb, disk, x);
  }

  // ---- the abstract view ----

  /** The blocks the bitmap marks as used. */
  function UsedSet(sb: Super, disk: Disk): (u: set<nat>)
    requires Geometry(sb, disk)
  {
    set b: nat | b < sb.size && Used(sb, disk, b)
  }

  function DataBlock(sb: Super, disk: Disk, b: nat): Block
    requires b < |disk|
  {
    if b < sb.datastart then ZeroBlock() else disk[b]
  }

  /** The disk with its metadata blocked out. */
  function DataOnly(sb: Super, disk: Disk): (d: Disk)
    ensures |d| == |disk|
  {
    seq(|disk|, b requires 0 <= b < |disk| => DataBlock(sb, disk, b))
  }

  /** All metadata blocks, block 0 among them, are marked used. */
  ghost predicate Reserved(sb: Super, disk: Disk)
    requires Geometry(sb, disk)
  {
    forall b: nat | b < sb.datastart :: Used(sb, disk, b)
  }

  /** Setting the bit of a block and zeroing it adds it to the used blocks. */
  lemma MarkUsedView(sb: Super, disk: Disk, b: nat)
    requires Geometry(sb, disk) && sb.datastart <= b < sb.size
    ensures var disk' := MarkUsed(sb, disk, b)[b := ZeroBlock()];
            && Geometry(sb, disk')
            && UsedSet(sb, disk') == UsedSet(sb, disk) + {b}
            && DataOnly(sb, disk') == DataOnly(sb, disk)[b := ZeroBlock()]
  {
    hide HasBit, SetBit;
    BBlockInRange(sb, disk, b);
    var marked := MarkUsed(sb, disk, b);
    forall x: nat | x < sb.size ensures Used(sb, marked[b := ZeroBlock()], x) <==> x == b || Used(sb, disk, x) {
      UsedAfterMark(sb, disk, b, x);
      BBlockInRange(sb, disk, x);
    }
  }

  /** Clearing the bit of a block takes it out of the used blocks. */
  lemma MarkFreeView(sb: Super, disk: Disk, b: nat)
    requires Geometry(sb, disk) && b < sb.size
    ensures UsedSet(sb, MarkFree(sb, disk, b)) == UsedSet(sb, disk) - {b}
    ensures DataOnly(sb, MarkFree(sb, disk, b)) == DataOnly(sb, disk)
  {
    hide HasBit, ClearBit;
    BBlockInRange(sb, disk, b);
    forall x: nat | x < sb.size ensures Used(sb, MarkFree(sb, disk, b), x) <==> x != b && Used(sb, disk, x) {
      UsedAfterMark(sb, disk, b, x);
    }
  }

  /** Writing a data block leaves the bitmap alone. */
  lemma DataWriteView(sb: Super, disk: Disk, b: nat, data: Block)
    requires Geometry(sb, disk) && sb.datastart <= b < sb.size
    ensures Geometry(sb, disk[b := data])
    ensures UsedSet(sb, disk[b := data]) == UsedSet(sb, disk)
    ensures DataOnly(sb, disk[b := data]) == DataOnly(sb, disk)[b := data]
  {
    hide HasBit;
    forall x: nat | x < sb.size ensures Used(sb, disk[b := data], x) == Used(sb, disk, x) {
      BBlockInRange(sb, disk, x);
    }
  }

  /** The bit tested for block `b + bi` when `b` starts a bitmap block. */
  lemma BitOfBlock(sb: Super, disk: Disk, b: nat, bi: nat)
    requires Geometry(sb, disk) && b % BPB == 0 && bi < BPB && b + bi < sb.size
    ensures BBlock(sb, b + bi) == BBlock(sb, b) < |disk|
    ensures Used(sb, disk, b + bi) == HasBit(disk[BBlock(sb, b)][bi / 8], bi % 8)
    ensures MarkUsed(sb, disk, b + bi) ==
              disk[BBlock(sb, b) := disk[BBlock(sb, b)][bi / 8 := SetBit(disk[BBlock(sb, b)][bi / 8], bi % 8)]]
  {
    assert (b + bi) % BPB == bi && (b + bi) / BPB == b / BPB;
    BBlockInRange(sb, disk, b + bi);
  }

  /** The bitmap blocks hold one run of bits: that of block `b` is bit `b % 8` of byte
      `b / 8`, counted from the start of block `bmapstart`. */
  lemma BitmapIsFlat(sb: Super, disk: Disk, b: nat)
    requires Geometry(sb, disk) && b < sb.size
    ensures var byteNo := b / 8;
            && sb.bmapstart + byteNo / BSIZE < |disk|
            && Used(sb, disk, b) == HasBit(disk[sb.bmapstart + byteNo / BSIZE][byteNo % BSIZE], b % 8)
  {
    hide HasBit;
    BBlockInRange(sb, disk, b);
    assert b / BPB == b / 8 / BSIZE && b % BPB / 8 == b / 8 % BSIZE && b % BPB % 8 == b % 8;
  }
}
