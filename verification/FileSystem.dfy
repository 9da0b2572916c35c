/** The file system of lab 5 as it runs: bitmap bytes, index blocks, inodes and
    file bytes changed in place. Each method is proved against the function of
    the same operation on abstract states. */
module FileSystem {
  import opened Blocks
  import Bitmap
  import opened Tree
  import opened BlockMap
  import opened Itrunc
  import opened Content
  import opened Write
  import Reclaim

  class Fs {
    const sb: Bitmap.Super
    const layout: Layout
    var disk: seq<Block>
    var inodes: seq<Inode>
    var dinodes: seq<Inode>
    ghost var own: Owner

    ghost predicate Formatted()
      reads this
    {
      && Bitmap.Geometry(sb, disk) && |inodes| == |dinodes|
      && Bitmap.Reserved(sb, disk)
    }

    /** The abstract state. */
    ghost function View(): (st: State)
      requires Formatted()
      reads this
      ensures Shape(st)
    {
      State(|disk|, sb.datastart, layout, Bitmap.UsedSet(sb, disk), Bitmap.DataOnly(sb, disk), inodes, dinodes)
    }

    ghost predicate Valid()
      reads this
    {
      Formatted() && Own(View(), own)
    }

    // ---- blocks ----

    method Balloc() returns (addr: uint)
      requires Formatted()
      modifies this`disk
      ensures Formatted()
      ensures Got(View(), addr) == Alloc(old(View()))
    {
      hide Bitmap.Used, Bitmap.MarkUsed, Bitmap.UsedSet, Bitmap.DataOnly, HasBit;
      var b := 0;
      while b < sb.size
        invariant disk == old(disk) && b % Bitmap.BPB == 0
        invariant forall x: nat | x < b && x < sb.size :: Bitmap.Used(sb, disk, x)
        decreases sb.size - b
      {
        var bi := 0;
        while bi < Bitmap.BPB && b + bi < sb.size
          invariant disk == old(disk) && 0 <= bi <= Bitmap.BPB
          invariant forall x: nat | x < b + bi && x < sb.size :: Bitmap.Used(sb, disk, x)
        {
          Bitmap.BitOfBlock(sb, disk, b, bi);
          var bp := Bitmap.BBlock(sb, b);
          if !HasBit(disk[bp][bi / 8], bi % 8) {
            LowestFree(sb, disk, b + bi);
            TakeBlock(bp, b, bi);
            return b + bi;
          }
          bi := bi + 1;
        }
        b := b + Bitmap.BPB;
      }
      LowestFree(sb, disk, |disk|);
      return 0;
    }

    /** Set the bit found for block `b + bi` and zero the block. */
    method TakeBlock(bp: nat, b: nat, bi: nat)
      requires Formatted() && b % Bitmap.BPB == 0 && bi < Bitmap.BPB && sb.datastart <= b + bi < sb.size
      requires bp == Bitmap.BBlock(sb, b)
      modifies this`disk
      ensures Formatted()
      ensures var st := old(View());
              View() == st.(used := st.used + {b + bi}, disk := st.disk[b + bi := ZeroBlock()])
    {
      hide Bitmap.Used, Bitmap.MarkUsed, Bitmap.UsedSet, Bitmap.DataOnly, HasBit;
      Bitmap.BitOfBlock(sb, disk, b, bi);
      Bitmap.MarkUsedView(sb, disk, b + bi);
      disk := disk[bp := disk[bp][bi / 8 := SetBit(disk[bp][bi / 8], bi % 8)]];
      disk := disk[b + bi := ZeroBlock()];
      KeepsReserved(sb, old(disk), disk);
    }

    /** `bfree` of any block. Only for a data block the metadata stay marked. */
    method Bfree(b: nat) returns (panicked: bool)
      requires Formatted() && b < sb.size
      modifies this`disk
      ensures Bitmap.Geometry(sb, disk)
      ensures panicked <==> b !in Bitmap.UsedSet(sb, old(disk))
      ensures panicked ==> disk == old(disk)
      ensures Bitmap.UsedSet(sb, disk) == Bitmap.UsedSet(sb, old(disk)) - {b}
      ensures Bitmap.DataOnly(sb, disk) == Bitmap.DataOnly(sb, old(disk))
      ensures sb.datastart <= b ==>
                Formatted() && (if panicked then None else Some(View())) == Free(old(View()), b)
    {
      hide Bitmap.Used, HasBit;
      Bitmap.BitOfBlock(sb, disk, b - b % Bitmap.BPB, b % Bitmap.BPB);
      var bp := Bitmap.BBlock(sb, b);
      var bi := b % Bitmap.BPB;
      if !HasBit(disk[bp][bi / 8], bi % 8) {
        assert Bitmap.UsedSet(sb, disk) == Bitmap.UsedSet(sb, disk) - {b};
        return true;
      }
      Bitmap.MarkFreeView(sb, disk, b);
      disk := disk[bp := disk[bp][bi / 8 := ClearBit(disk[bp][bi / 8], bi % 8)]];
      if sb.datastart <= b {
        KeepsReserved(sb, old(disk), disk);
      }
      return false;
    }

    /** `log_write` of a changed data block. */
    method WriteBlock(a: nat, data: Block)
      requires Formatted() && sb.datastart <= a < sb.size
      modifies this`disk
      ensures Formatted() && disk == old(disk)[a := data]
      ensures View() == old(View()).(disk := old(View()).disk[a := data])
    {
      hide Bitmap.Used;
      Bitmap.DataWriteView(sb, disk, a, data);
      disk := disk[a := data];
      KeepsReserved(sb, old(disk), disk);
    }

    // ---- bmap ----

    /** `addrs[s]`, allocated when it is 0 and `alloc`. */
    method GetSlot(i: nat, s: nat, alloc: bool) returns (addr: uint)
      requires Valid() && i < |inodes| && s < SlotCount(layout)
      modifies this
      ensures Valid()
      ensures Got(View(), addr) == SlotGet(old(View()), i, s, alloc)
      ensures Addr(View(), i, P0(s)) == addr
    {
      hide Placed, Rooted, Addr, Alloc;
      SlotIsRoot(View(), i, s);
      addr := inodes[i].addrs[s];
      if addr == 0 && alloc {
        ghost var own' := SlotGrows(View(), own, i, s);
        addr := Balloc();
        if addr != 0 {
          inodes := inodes[i := inodes[i].(addrs := inodes[i].addrs[s := addr])];
        }
        own := own';
      }
    }

    /** Entry `j` of index block `x`, allocated when it is 0 and `alloc`. The
        block hangs at the parent of place `c` of inode `i`. */
    method GetEntry(ghost i: nat, ghost c: Path, x: uint, j: nat, alloc: bool) returns (addr: uint)
      requires Valid() && i < |inodes| && PathOk(layout, c) && !c.P0? && j == LastIndex(c) && j < NINDIRECT
      requires PathOk(layout, Parent(c)) && Addr(View(), i, Parent(c)) == x != 0
      modifies this
      ensures Valid() && |inodes| == old(|inodes|)
      ensures Got(View(), addr) == EntryGet(old(View()), x, j, alloc)
      ensures Addr(View(), i, c) == addr
    {
      hide Addr, Alloc, Word, SetWord, Own, PathOk;
      ghost var st := View();
      AddrStep(st, i, c);
      AddrInRange(st, own, i, Parent(c));
      addr := Word(disk[x], j);
      if addr == 0 && alloc {
        ghost var own' := EntryGrows(st, own, i, c);
        addr := Balloc();
        if addr != 0 {
          WriteBlock(x, SetWord(disk[x], j, addr));
        }
        own := own';
      }
    }

    /** The single-indirect level; slot `s` names the index block. */
    method SingleGet(i: nat, s: nat, n: nat, alloc: bool) returns (addr: uint)
      requires Valid() && i < |inodes| && s < SlotCount(layout) && Depth(layout, s) == 1 && n < NINDIRECT
      modifies this
      ensures Valid()
      ensures Got(View(), addr) == Walk(old(View()), i, P1(s, n), alloc)
    {
      hide Addr, Own, SlotGet, EntryGet;
      addr := GetSlot(i, s, alloc);
      assert Got(View(), addr) == Walk(old(View()), i, P0(s), alloc);
      if addr == 0 {
        return 0;
      }
      addr := GetEntry(i, P1(s, n), addr, n, alloc);
    }

    /** lab5/fs.c */
    method BmapClassic(i: nat, bn: nat) returns (addr: uint, panicked: bool)
      requires Valid() && i < |inodes| && layout.Classic?
      modifies this
      ensures Valid() && Mapped(View(), addr, panicked) == Bmap(old(View()), i, bn, true)
    {
      hide Addr, Own, SlotGet, EntryGet;
      if bn < 12 {
        addr := GetSlot(i, bn, true);
        return addr, false;
      }
      var n := bn - 12;
      if n < NINDIRECT {
        addr := SingleGet(i, 12, n, true);
        return addr, false;
      }
      return 0, true;
    }

    /** The double-indirect level of the bigfile variants, whose master block is
        named by slot `s`. */
    method MasterGet(i: nat, s: nat, n: nat, alloc: bool) returns (addr: uint)
      requires Valid() && i < |inodes| && s < SlotCount(layout) && Depth(layout, s) == 2 && n < NINDIRECT * NINDIRECT
      modifies this
      ensures Valid()
      ensures Got(View(), addr) == Walk(old(View()), i, P2(s, n / NINDIRECT, n % NINDIRECT), alloc)
    {
      hide Addr, Own, SlotGet, EntryGet;
      var index1 := n / NINDIRECT;
      var index2 := n % NINDIRECT;
      addr := GetSlot(i, s, alloc);
      assert Got(View(), addr) == Walk(old(View()), i, P0(s), alloc);
      if addr == 0 {
        return 0;
      }
      addr := GetEntry(i, P1(s, index1), addr, index1, alloc);
      assert Got(View(), addr) == Walk(old(View()), i, P1(s, index1), alloc);
      if addr == 0 {
        return 0;
      }
      addr := GetEntry(i, P2(s, index1, index2), addr, index2, alloc);
    }

    /** lab5/bigfile template/bmap-gem.c */
    method BmapTemplate(i: nat, bn: nat) returns (addr: uint, panicked: bool)
      requires Valid() && i < |inodes| && layout.Template?
      modifies this
      ensures Valid() && Mapped(View(), addr, panicked) == Bmap(old(View()), i, bn, true)
    {
      hide Addr, Own, SlotGet, EntryGet;
      if bn >= HARD_CAP {
        return 0, false;
      }
      if bn < 11 {
        addr := GetSlot(i, bn, true);
        return addr, false;
      }
      var n := bn - 11;
      if n < NINDIRECT {
        addr := SingleGet(i, 11, n, true);
        return addr, false;
      }
      n := n - NINDIRECT;
      // Below the cap the range test always succeeds: the panic is dead code.
      assert n < NINDIRECT * NINDIRECT;
      addr := MasterGet(i, 12, n, true);
      return addr, false;
    }

    /** lab5/bigfile (Inverted Inode)/fs.c */
    method BmapInverted(i: nat, bn: nat) returns (addr: uint, panicked: bool)
      requires Valid() && i < |inodes| && layout.Inverted?
      modifies this
      ensures Valid() && Mapped(View(), addr, panicked) == Bmap(old(View()), i, bn, true)
    {
      hide Addr, Own, SlotGet, EntryGet;
      if bn < 11 {
        addr := GetSlot(i, bn + 2, true);
        return addr, false;
      }
      var n := bn - 11;
      if n < NINDIRECT {
        addr := SingleGet(i, 1, n, true);
        return addr, false;
      }
      n := n - NINDIRECT;
      if n < NINDIRECT * NINDIRECT {
        addr := MasterGet(i, 0, n, true);
        return addr, false;
      }
      return 0, true;
    }

    /** lab5/bigfile (no single indirect)/fs.c */
    method BmapNoSingle(i: nat, bn: nat) returns (addr: uint, panicked: bool)
      requires Valid() && i < |inodes| && layout.NoSingle?
      modifies this
      ensures Valid() && Mapped(View(), addr, panicked) == Bmap(old(View()), i, bn, true)
    {
      hide Addr, Own, SlotGet, EntryGet;
      if bn < 11 {
        addr := GetSlot(i, bn, true);
        return addr, false;
      }
      var n := bn - 11;
      if n < NINDIRECT * NINDIRECT {
        addr := MasterGet(i, 11, n, true);
        return addr, false;
      }
      return 0, true;
    }

    /** lab5/bigfile (sparse files)/fs.c */
    method BmapSparse(i: nat, bn: nat, alloc: bool) returns (addr: uint, panicked: bool)
      requires Valid() && i < |inodes| && layout.Sparse?
      modifies this
      ensures Valid() && Mapped(View(), addr, panicked) == Bmap(old(View()), i, bn, alloc)
    {
      hide Addr, Own, SlotGet, EntryGet;
      if bn < 11 {
        addr := GetSlot(i, bn, alloc);
        return addr, false;
      }
      var n := bn - 11;
      if n < NINDIRECT {
        addr := SingleGet(i, 11, n, alloc);
        return addr, false;
      }
      n := n - NINDIRECT;
      if n < NINDIRECT * NINDIRECT {
        addr := MasterGet(i, 12, n, alloc);
        return addr, false;
      }
      return 0, true;
    }

    /** Whichever `bmap` this file system was built with. */
    method MapBlock(i: nat, bn: nat, alloc: bool) returns (addr: uint, panicked: bool)
      requires Valid() && i < |inodes|
      modifies this
      ensures Valid() && Mapped(View(), addr, panicked) == Bmap(old(View()), i, bn, alloc)
    {
      hide Addr, Own, Walk;
      match layout
      case Classic => addr, panicked := BmapClassic(i, bn);
      case Template => addr, panicked := BmapTemplate(i, bn);
      case Inverted => addr, panicked := BmapInverted(i, bn);
      case NoSingle => addr, panicked := BmapNoSingle(i, bn);
      case Sparse => addr, panicked := BmapSparse(i, bn, alloc);
    }

    // ---- itrunc ----

    /** Free what index block `x` names, then `x`. */
    method FreeIndexBlock(ghost st0: State, ghost i: nat, ghost q: Path, x: uint) returns (panicked: bool)
      requires Formatted()
      requires Own(st0, own) && i < |st0.inodes| && PathOk(st0.layout, q) && Level(q) + 1 == Depth(st0.layout, q.s)
      requires st0.layout == layout && st0.datastart == sb.datastart && st0.size == sb.size
      requires Addr(st0, i, q) == x != 0 && View().disk == st0.disk
      modifies this`disk
      ensures Formatted() && (!panicked ==> View().disk == st0.disk)
      ensures (if panicked then None else Some(View())) == FreeIndex(old(View()), x)
    {
      hide Addr, Own, Free, Word, FreeEntries, FreeIndex;
      AddrInRange(st0, own, i, q);
      IndexIs(View(), x);
      var a := disk[x];
      var j := 0;
      while j < NINDIRECT
        invariant 0 <= j <= NINDIRECT && Formatted() && View().disk == st0.disk
        invariant FreeEntries(View(), a, j) == FreeEntries(old(View()), a, 0)
      {
        EntriesTurn(View(), a, j);
        if Word(a, j) != 0 {
          KidInRange(st0, own, i, q, j);
          panicked := Bfree(Word(a, j));
          if panicked {
            return;
          }
        }
        j := j + 1;
      }
      EntriesTurn(View(), a, j);
      panicked := Bfree(x);
    }

    /** Free what master block `x` names, then `x`. */
    method FreeMasterBlock(ghost st0: State, ghost i: nat, ghost q: Path, x: uint) returns (panicked: bool)
      requires Formatted()
      requires Own(st0, own) && i < |st0.inodes| && PathOk(st0.layout, q) && q.P0? && Depth(st0.layout, q.s) == 2
      requires st0.layout == layout && st0.datastart == sb.datastart && st0.size == sb.size
      requires Addr(st0, i, q) == x != 0 && View().disk == st0.disk
      modifies this`disk
      ensures Formatted() && (!panicked ==> View().disk == st0.disk)
      ensures (if panicked then None else Some(View())) == FreeTree(old(View()), 2, x)
    {
      hide Addr, Own, Free, Word, FreeIndex;
      AddrInRange(st0, own, i, q);
      var a1 := disk[x];
      var j := 0;
      while j < NINDIRECT
        invariant 0 <= j <= NINDIRECT && Formatted() && View().disk == st0.disk
        invariant FreeIndexes(View(), a1, j) == FreeIndexes(old(View()), a1, 0)
      {
        if Word(a1, j) != 0 {
          KidInRange(st0, own, i, q, j);
          panicked := FreeIndexBlock(st0, i, Kid(q, j), Word(a1, j));
          if panicked {
            return;
          }
        }
        j := j + 1;
      }
      panicked := Bfree(x);
    }

    /** Free the tree in the slot visited `t`th, and clear the slot. */
    method FreeSlot(ghost st0: State, i: nat, t: nat) returns (panicked: bool)
      requires Formatted() && i < |inodes| && t < SlotCount(layout)
      requires Own(st0, own) && st0.layout == layout && st0.datastart == sb.datastart && st0.size == sb.size
      requires |st0.inodes| == |inodes| && View().disk == st0.disk
      requires inodes[i].addrs[SlotOrder(layout, t)] == st0.inodes[i].addrs[SlotOrder(layout, t)]
      modifies this`disk, this`inodes
      ensures !panicked ==> Formatted() && View().disk == st0.disk && |inodes| == old(|inodes|)
      ensures !panicked ==> FreeSlots(View(), i, t + 1) == FreeSlots(old(View()), i, t)
      ensures panicked ==> FreeSlots(old(View()), i, t) == None
      ensures !panicked ==> forall s: nat | s < NSLOTS && s != SlotOrder(layout, t) ::
                inodes[i].addrs[s] == old(inodes[i].addrs[s])
    {
      hide Addr, Own, FreeIndex, FreeIndexes;
      ghost var st := View();
      var s := SlotOrder(layout, t);
      var addr := inodes[i].addrs[s];
      panicked := false;
      if addr != 0 {
        SlotIsRoot(st0, i, s);
        if Depth(layout, s) == 0 {
          AddrInRange(st0, own, i, P0(s));
          panicked := Bfree(addr);
        } else if Depth(layout, s) == 1 {
          panicked := FreeIndexBlock(st0, i, P0(s), addr);
        } else {
          panicked := FreeMasterBlock(st0, i, P0(s), addr);
        }
        if !panicked {
          ghost var freed := View();
          assert FreeTree(st, Depth(layout, s), addr) == Some(freed);
          inodes := inodes[i := inodes[i].(addrs := inodes[i].addrs[s := 0])];
          assert View() == SetSlot(freed, i, s, 0);
        }
      }
    }

    /** `itrunc`: the slots, then the size, in memory and on the disk. */
    method Itrunc(i: nat) returns (panicked: bool)
      requires Valid() && i < |inodes|
      modifies this
      ensures Valid() && !panicked && Truncate(old(View()), i) == Some(View())
    {
      hide Addr, Own, FreeSlots, Truncate;
      ghost var st0 := View();
      ghost var own' := TruncateFreesExactlyTheTree(st0, own, i);
      TruncateIs(st0, i);
      panicked := FreeAllSlots(i);
      ClearSize(i);
      own := own';
    }

    /** The direct slots in a loop, then the single and the double indirect slot,
        which is the order of `SlotOrder`. */
    method FreeAllSlots(i: nat) returns (panicked: bool)
      requires Valid() && i < |inodes| && FreeSlots(View(), i, 0).Some?
      modifies this`disk, this`inodes
      ensures Formatted() && !panicked && |inodes| == old(|inodes|) && FreeSlots(old(View()), i, 0) == Some(View())
    {
      hide Addr, Own, FreeSlots, SlotOrder;
      ghost var st0 := View();
      DistinctSlots(layout);
      panicked := false;
      var t := 0;
      while t < SlotCount(layout)
        invariant 0 <= t <= SlotCount(layout) && Formatted() && !panicked
        invariant View().disk == st0.disk && |inodes| == |st0.inodes|
        invariant forall u: nat | t <= u < SlotCount(layout) ::
                    inodes[i].addrs[SlotOrder(layout, u)] == st0.inodes[i].addrs[SlotOrder(layout, u)]
        invariant FreeSlots(View(), i, t) == FreeSlots(st0, i, 0)
      {
        panicked := FreeSlot(st0, i, t);
        assert !panicked;
        t := t + 1;
      }
      FreeSlotsEnd(View(), i);
    }

    /** The end of `itrunc`: the size becomes 0, and `iupdate`. */
    method ClearSize(i: nat)
      requires Formatted() && i < |inodes|
      modifies this`inodes, this`dinodes
      ensures Formatted() && View() == Iupdate(SetSize(old(View()), i, 0), i)
    {
      inodes := inodes[i := inodes[i].(size := 0)];
      dinodes := dinodes[i := inodes[i]];
    }

    // ---- readi and writei ----

    /** `readi`: the bytes copied out, and the answer. The first `ok` copies to
        the caller succeed. */
    method Readi(i: nat, off: uint, n: uint, ok: nat) returns (data: seq<byte>, ret: int, panicked: bool)
      requires Valid() && i < |inodes|
      modifies this
      ensures Valid()
      ensures ReadResult(View(), data, ret, panicked) == Content.Readi(old(View()), i, off, n, ok)
    {
      hide Addr, Own, Bmap, ReadLoop;
      data, ret, panicked := [], 0, false;
      if off > inodes[i].size || Wraps(off, n) {
        return;
      }
      var rest: nat := if off + n > inodes[i].size then inodes[i].size - off else n;
      var at: nat := off;
      var copies := ok;
      while rest > 0
        invariant Valid() && |inodes| == old(|inodes|) && ret == |data| && !panicked
        invariant ReadLoop(View(), i, at / BSIZE, at % BSIZE, rest, data, copies)
               == ReadLoop(old(View()), i, off / BSIZE, off % BSIZE, Min(n, old(inodes[i].size) - off), [], ok)
        decreases rest
      {
        ghost var st := View();
        BlockInRange(View(), own, i, at / BSIZE, false);
        var addr, stop := MapBlock(i, at / BSIZE, false);
        ReadTurn(st, i, at, rest, data, copies);
        if stop {
          panicked := true;
          return;
        }
        if addr == 0 {
          return;
        }
        if copies == 0 {
          ret := -1;
          return;
        }
        var m := Min(rest, BSIZE - at % BSIZE);
        data := data + disk[addr][at % BSIZE..at % BSIZE + m];
        copies, rest, at, ret := copies - 1, rest - m, at + m, ret + m;
      }
      ReadEnd(View(), i, at / BSIZE, at % BSIZE, data, copies);
    }

    /** `writei`: the answer. The first `ok` copies from the caller succeed. */
    method Writei(i: nat, off: uint, src: seq<byte>, ok: nat) returns (ret: int, panicked: bool)
      requires Valid() && i < |inodes| && |src| < UINT_LIMIT
      modifies this
      ensures Valid()
      ensures WriteResult(View(), ret, panicked) == Write.Writei(old(View()), i, off, src, ok)
    {
      hide Addr, Own, WriteLoop;
      if off > inodes[i].size || Wraps(off, |src|) || off + |src| > MaxFile(layout) * BSIZE {
        return -1, false;
      }
      var tot;
      tot, panicked := WriteChunks(i, off, src, ok);
      if panicked {
        return tot, true;
      }
      GrowSize(i, off + tot);
      ret := tot;
    }

    /** The loop of `writei`. */
    method WriteChunks(i: nat, off: nat, src: seq<byte>, ok: nat) returns (tot: nat, panicked: bool)
      requires Valid() && i < |inodes|
      modifies this
      ensures Valid() && |inodes| == old(|inodes|)
      ensures WriteResult(View(), tot, panicked) == WriteLoop(old(View()), i, off / BSIZE, off % BSIZE, src, 0, ok)
    {
      hide Addr, Own, Bmap, WriteLoop;
      tot, panicked := 0, false;
      var at: nat := off;
      var copies := ok;
      while tot < |src|
        invariant Valid() && |inodes| == old(|inodes|) && 0 <= tot <= |src| && at == off + tot && !panicked
        invariant WriteLoop(View(), i, at / BSIZE, at % BSIZE, src[tot..], tot, copies)
               == WriteLoop(old(View()), i, off / BSIZE, off % BSIZE, src, 0, ok)
        decreases |src| - tot
      {
        ghost var st := View();
        BlockInRange(View(), own, i, at / BSIZE, true);
        var addr, stop := MapBlock(i, at / BSIZE, true);
        WriteTurn(st, i, at, src, tot, copies);
        if stop {
          return tot, true;
        }
        if addr == 0 || copies == 0 {
          return;
        }
        var m := Min(|src| - tot, BSIZE - at % BSIZE);
        PutKeepsOwn(View(), own, i, at / BSIZE, at % BSIZE, src[tot..tot + m]);
        WriteBlock(addr, Splice(disk[addr], at % BSIZE, src[tot..tot + m]));
        copies, tot, at := copies - 1, tot + m, at + m;
      }
      assert src[tot..] == [];
      WriteEnd(View(), i, at / BSIZE, at % BSIZE, tot, copies);
    }

    /** The end of `writei`: the size grows to `off`, and `iupdate`. */
    method GrowSize(i: nat, off: nat)
      requires Valid() && i < |inodes|
      modifies this`inodes, this`dinodes
      ensures Valid() && View() == Iupdate(Grow(old(View()), i, off), i)
    {
      hide Addr, Own;
      ghost var st := View();
      SizeKeepsTree(st, own, i, Max(inodes[i].size, off));
      if off > inodes[i].size {
        inodes := inodes[i := inodes[i].(size := off)];
      }
      dinodes := dinodes[i := inodes[i]];
      assert View() == Iupdate(Grow(st, i, off), i) == Iupdate(SetSize(st, i, Max(st.inodes[i].size, off)), i);
    }

    // ---- iput's freeing branch and ireclaim ----

    /** The branch of `iput` that frees an inode without links. */
    method FreeInode(i: nat) returns (panicked: bool)
      requires Valid() && i < |inodes|
      modifies this
      ensures Valid() && !panicked && Reclaim.FreeInode(old(View()), i) == Some(View())
    {
      hide Addr, Own, Truncate;
      panicked := Itrunc(i);
      ghost var st := View();
      Reclaim.TypeKeepsTree(st, own, i);
      inodes := inodes[i := inodes[i].(typ := 0)];
      dinodes := dinodes[i := inodes[i]];
      assert View() == Iupdate(st.(inodes := st.inodes[i := st.inodes[i].(typ := 0)]), i);
    }

    /** `ireclaim`, at boot, when no inode in memory differs from the disk. */
    method Ireclaim() returns (panicked: bool)
      requires Valid() && inodes == dinodes && |inodes| > 0
      modifies this
      ensures Valid() && !panicked && Reclaim.ReclaimFrom(old(View()), 1) == Some(View())
    {
      hide Addr, Own, Reclaim.FreeInode;
      ghost var st0 := View();
      panicked := false;
      var inum := 1;
      while inum < |inodes|
        invariant 1 <= inum <= |inodes| && Valid() && inodes == dinodes && !panicked
        invariant Reclaim.ReclaimFrom(View(), inum) == Reclaim.ReclaimFrom(st0, 1)
        decreases |inodes| - inum
      {
        if dinodes[inum].typ != 0 && dinodes[inum].nlink == 0 {
          ghost var st := View();
          ghost var own' := Reclaim.InodeFreed(st, own, inum);
          assert st.inodes[inum := st.dinodes[inum]] == st.inodes;
          inodes := inodes[inum := dinodes[inum]];
          assert View() == st;
          panicked := FreeInode(inum);
        }
        inum := inum + 1;
      }
    }
  }

  lemma AddrInRange(st: State, own: Owner, i: nat, q: Path)
    requires Own(st, own) && i < |st.inodes| && PathOk(st.layout, q) && Addr(st, i, q) != 0
    ensures st.datastart <= Addr(st, i, q) < st.size
  {
    OwnedAt(st, own, i, q);
  }

  lemma KidInRange(st: State, own: Owner, i: nat, q: Path, j: nat)
    requires Own(st, own) && i < |st.inodes| && PathOk(st.layout, q) && Level(q) < Depth(st.layout, q.s)
    requires Addr(st, i, q) != 0 && j < NINDIRECT && Word(Read(st.disk, Addr(st, i, q)), j) != 0
    ensures st.datastart <= Word(Read(st.disk, Addr(st, i, q)), j) < st.size
    ensures PathOk(st.layout, Kid(q, j)) && Addr(st, i, Kid(q, j)) == Word(Read(st.disk, Addr(st, i, q)), j)
  {
    KidAddr(st, i, q, j);
    AddrInRange(st, own, i, Kid(q, j));
  }

  lemma BlockInRange(st: State, own: Owner, i: nat, bn: nat, alloc: bool)
    requires Own(st, own) && i < |st.inodes|
    ensures var r := Bmap(st, i, bn, alloc);
            r.addr != 0 ==> st.datastart <= r.addr < st.size && IsMapped(r.st, i, bn) && FileAddr(r.st, i, bn) == r.addr
  {
    hide Addr;
    var own' := BmapIsPartialMap(st, own, i, bn, alloc);
    var r := Bmap(st, i, bn, alloc);
    if r.addr != 0 {
      AddrInRange(r.st, own', i, PathOf(st.layout, bn));
    }
  }

  /** One turn of the loop of `readi`, at an absolute position. */
  lemma ReadTurn(st: State, i: nat, at: nat, rest: nat, data: seq<byte>, ok: nat)
    requires Shape(st) && i < |st.inodes| && rest > 0
    ensures var r := Bmap(st, i, at / BSIZE, false);
            var m := Min(rest, BSIZE - at % BSIZE);
            ReadLoop(st, i, at / BSIZE, at % BSIZE, rest, data, ok) ==
              if r.panics then ReadResult(r.st, data, |data|, true)
              else if r.addr == 0 then ReadResult(r.st, data, |data|, false)
              else if ok == 0 then ReadResult(r.st, data, -1, false)
              else ReadLoop(r.st, i, (at + m) / BSIZE, (at + m) % BSIZE, rest - m,
                            data + Read(r.st.disk, r.addr)[at % BSIZE..at % BSIZE + m], ok - 1)
  {
    hide Bmap;
    var m := Min(rest, BSIZE - at % BSIZE);
    if m < rest {
      assert (at + m) / BSIZE == at / BSIZE + 1 && (at + m) % BSIZE == 0;
    }
  }

  lemma ReadEnd(st: State, i: nat, bn: nat, o: nat, data: seq<byte>, ok: nat)
    requires Shape(st) && i < |st.inodes| && o < BSIZE
    ensures ReadLoop(st, i, bn, o, 0, data, ok) == ReadResult(st, data, |data|, false)
  {
  }

  lemma WriteEnd(st: State, i: nat, bn: nat, o: nat, tot: nat, ok: nat)
    requires Shape(st) && i < |st.inodes| && o < BSIZE
    ensures WriteLoop(st, i, bn, o, [], tot, ok) == WriteResult(st, tot, false)
  {
  }

  /** One turn of the loop of `writei`, at an absolute position. */
  lemma WriteTurn(st: State, i: nat, at: nat, src: seq<byte>, tot: nat, ok: nat)
    requires Shape(st) && i < |st.inodes| && tot < |src|
    ensures var r := Bmap(st, i, at / BSIZE, true);
            var m := Min(|src| - tot, BSIZE - at % BSIZE);
            WriteLoop(st, i, at / BSIZE, at % BSIZE, src[tot..], tot, ok) ==
              if r.panics then WriteResult(r.st, tot, true)
              else if r.addr == 0 || ok == 0 then WriteResult(r.st, tot, false)
              else WriteLoop(PutBytes(r.st, r.addr, at % BSIZE, src[tot..tot + m]), i,
                             (at + m) / BSIZE, (at + m) % BSIZE, src[tot + m..], tot + m, ok - 1)
  {
    hide Bmap, PutBytes;
    var m := Min(|src| - tot, BSIZE - at % BSIZE);
    assert src[tot..][..m] == src[tot..tot + m] && src[tot..][m..] == src[tot + m..];
    if m < |src| - tot {
      assert (at + m) / BSIZE == at / BSIZE + 1 && (at + m) % BSIZE == 0;
    }
  }

  lemma PutKeepsOwn(st: State, own: Owner, i: nat, bn: nat, o: nat, bytes: seq<byte>)
    requires Own(st, own) && i < |st.inodes| && IsMapped(st, i, bn) && o + |bytes| <= BSIZE
    ensures Own(PutBytes(st, FileAddr(st, i, bn), o, bytes), own)
  {
    hide Addr, Own;
    PutWrites(st, own, i, bn, o, bytes);
  }

  lemma LowestFree(sb: Bitmap.Super, disk: Bitmap.Disk, b: nat)
    requires Bitmap.Geometry(sb, disk) && Bitmap.Reserved(sb, disk) && b <= sb.size
    requires forall x: nat | x < b :: Bitmap.Used(sb, disk, x)
    requires b < sb.size ==> !Bitmap.Used(sb, disk, b)
    ensures FirstFree(Bitmap.UsedSet(sb, disk), sb.size, 0) == b >= sb.datastart
  {
    hide Bitmap.Used;
    FirstFreeIs(Bitmap.UsedSet(sb, disk), sb.size, 0, b);
    assert b < sb.size ==> b !in Bitmap.UsedSet(sb, disk);
  }

  /** One turn of the loop over an index block. */
  lemma EntriesTurn(st: State, a: Block, j: nat)
    requires Shape(st) && j <= NINDIRECT
    ensures FreeEntries(st, a, j) ==
              if j == NINDIRECT then Some(st)
              else if Word(a, j) == 0 then FreeEntries(st, a, j + 1)
              else match Free(st, Word(a, j)) case None => None case Some(st1) => FreeEntries(st1, a, j + 1)
  {
  }

  lemma IndexIs(st: State, x: nat)
    requires Shape(st)
    ensures FreeIndex(st, x) ==
              match FreeEntries(st, Read(st.disk, x), 0) case None => None case Some(st1) => Free(st1, x)
  {
    hide FreeEntries;
  }

  lemma DistinctSlots(l: Layout)
    ensures forall t: nat, u: nat | t < u < SlotCount(l) :: SlotOrder(l, t) != SlotOrder(l, u)
  {
  }

  lemma TruncateIs(st: State, i: nat)
    requires Shape(st) && i < |st.inodes|
    ensures Truncate(st, i) ==
              match FreeSlots(st, i, 0)
              case None => None
              case Some(st1) => Some(Iupdate(SetSize(st1, i, 0), i))
  {
  }

  lemma FreeSlotsEnd(st: State, i: nat)
    requires Shape(st) && i < |st.inodes|
    ensures FreeSlots(st, i, SlotCount(st.layout)) == Some(st)
  {
  }

  lemma SlotIsRoot(st: State, i: nat, s: nat)
    requires i < |st.inodes| && s < SlotCount(st.layout)
    ensures Addr(st, i, P0(s)) == st.inodes[i].addrs[s]
  {
  }

  lemma KeepsReserved(sb: Bitmap.Super, disk: Bitmap.Disk, disk': Bitmap.Disk)
    requires Bitmap.Geometry(sb, disk) && Bitmap.Geometry(sb, disk') && Bitmap.Reserved(sb, disk)
    requires forall b: nat | b < sb.datastart && b in Bitmap.UsedSet(sb, disk) :: b in Bitmap.UsedSet(sb, disk')
    ensures Bitmap.Reserved(sb, disk')
  {
    forall b: nat | b < sb.datastart ensures Bitmap.Used(sb, disk', b) {
      assert b in Bitmap.UsedSet(sb, disk);
      assert b in Bitmap.UsedSet(sb, disk');
    }
  }
}
