/** `writei` splices bytes into one file and leaves all others alone. */
module Write {
  import opened Blocks
  import opened Tree
  import opened BlockMap
  import opened Itrunc
  import opened Content

  /** Copy bytes into disk block `a` at offset `o`. */
  function PutBytes(st: State, a: nat, o: nat, bytes: seq<byte>): (st': State)
    requires Shape(st) && o + |bytes| <= BSIZE
    ensures SameFrame(st, st')
  {
    if a < st.size then st.(disk := st.disk[a := Splice(st.disk[a], o, bytes)]) else st
  }

  function Splice(b: Block, o: nat, bytes: seq<byte>): (b': Block)
    requires o + |bytes| <= BSIZE
    ensures forall k | 0 <= k < BSIZE :: b'[k] == if o <= k < o + |bytes| then bytes[k - o] else b[k]
  {
    b[..o] + bytes + b[o + |bytes|..]
  }

  datatype WriteResult = WriteResult(st: State, ret: int, panics: bool)

  /** The loop of `writei` with the bytes `src` to go, from offset `o` of block
      `bn` on, after `tot` bytes; `ok` further copies succeed. */
  function WriteLoop(st: State, i: nat, bn: nat, o: nat, src: seq<byte>, tot: nat, ok: nat): (r: WriteResult)
    requires Shape(st) && i < |st.inodes| && o < BSIZE
    ensures SameFrame(st, r.st) && r.ret >= tot
    decreases |src|
  {
    if |src| == 0 then WriteResult(st, tot, false) else
    var r := Bmap(st, i, bn, true);
    if r.panics then WriteResult(r.st, tot, true)
    else if r.addr == 0 || ok == 0 then WriteResult(r.st, tot, false)
    else
      var m := Min(|src|, BSIZE - o);
      WriteLoop(PutBytes(r.st, r.addr, o, src[..m]), i, bn + 1, 0, src[m..], tot + m, ok - 1)
  }

  function Grow(st: State, i: nat, end: nat): State
    requires i < |st.inodes|
  {
    if end > st.inodes[i].size then SetSize(st, i, end) else st
  }

  function Writei(st: State, i: nat, off: uint, src: seq<byte>, ok: nat): (r: WriteResult)
    requires Shape(st) && i < |st.inodes| && |src| < UINT_LIMIT
    ensures Shape(r.st)
  {
    if off > st.inodes[i].size || Wraps(off, |src|) || off + |src| > MaxFile(st.layout) * BSIZE then
      WriteResult(st, -1, false)
    else
      var w := WriteLoop(st, i, off / BSIZE, off % BSIZE, src, 0, ok);
      if w.panics then w else WriteResult(Iupdate(Grow(w.st, i, off + w.ret), i), w.ret, false)
  }

  // ---- what is kept and what is written ----

  /** Byte `k` of content block `n` of inode `j`. */
  function Cell(st: State, j: nat, n: nat, k: nat): byte
    requires j < |st.inodes| && k < BSIZE
  {
    if IsMapped(st, j, n) then Read(st.disk, FileAddr(st, j, n))[k] else 0
  }

  /** From `st` to `st'` inode `i` received the bytes `src` from position `lo` on.
      Mapped blocks stay mapped where they were, and every byte outside the
      written range keeps its value, in this file and in all others. */
  ghost predicate Wrote(st: State, st': State, i: nat, lo: nat, src: seq<byte>) {
    && SameFrame(st, st') && i < |st.inodes|
    && (forall j: nat | j < |st.inodes| && j != i :: st'.inodes[j] == st.inodes[j])
    && st'.inodes[i] == st.inodes[i].(addrs := st'.inodes[i].addrs)
    && (forall j: nat, n: nat | j < |st.inodes| && IsMapped(st, j, n) :: IsMapped(st', j, n))
    && (forall j: nat, n: nat, k: nat | j < |st.inodes| && j != i && k < BSIZE :: Cell(st', j, n, k) == Cell(st, j, n, k))
    && (forall n: nat | Touches(n, lo, |src|) :: IsMapped(st', i, n))
    && (forall n: nat, k: nat | k < BSIZE && lo <= n * BSIZE + k < lo + |src| ::
          Cell(st', i, n, k) == src[n * BSIZE + k - lo])
    && (forall n: nat, k: nat | k < BSIZE && IsMapped(st, i, n) && !(lo <= n * BSIZE + k < lo + |src|) ::
          Cell(st', i, n, k) == Cell(st, i, n, k))
  }

  /** Block `n` holds one of the `len` positions from `lo` on. */
  predicate Touches(n: nat, lo: nat, len: nat) {
    n * BSIZE < lo + len && lo < n * BSIZE + BSIZE && len > 0
  }

  lemma WroteNothing(st: State, i: nat, lo: nat)
    requires Shape(st) && i < |st.inodes|
    ensures Wrote(st, st, i, lo, [])
  {
  }

  lemma WroteThenWrote(st: State, st1: State, st2: State, i: nat, lo: nat, a: seq<byte>, b: seq<byte>)
    requires Wrote(st, st1, i, lo, a) && Wrote(st1, st2, i, lo + |a|, b)
    ensures Wrote(st, st2, i, lo, a + b)
  {
    hide IsMapped, Cell;
    forall n: nat | Touches(n, lo, |a + b|) ensures IsMapped(st2, i, n) {
      assert Touches(n, lo, |a|) || Touches(n, lo + |a|, |b|);
    }
    forall n: nat, k: nat | k < BSIZE && lo <= n * BSIZE + k < lo + |a + b|
      ensures Cell(st2, i, n, k) == (a + b)[n * BSIZE + k - lo]
    {
      if n * BSIZE + k < lo + |a| {
        assert Touches(n, lo, |a|);
        assert Cell(st1, i, n, k) == a[n * BSIZE + k - lo];
      }
    }
    forall n: nat, k: nat | k < BSIZE && IsMapped(st, i, n) && !(lo <= n * BSIZE + k < lo + |a + b|)
      ensures Cell(st2, i, n, k) == Cell(st, i, n, k)
    {
      assert Cell(st1, i, n, k) == Cell(st, i, n, k);
    }
  }

  lemma BmapWritesNothing(st: State, own: Owner, i: nat, bn: nat, lo: nat) returns (own': Owner)
    requires Own(st, own) && i < |st.inodes| && Mappable(st.layout, bn)
    ensures var r := Bmap(st, i, bn, true);
            && Own(r.st, own') && Wrote(st, r.st, i, lo, []) && !r.panics
            && (r.addr != 0 ==> r.addr == FileAddr(r.st, i, bn))
            && (r.addr == 0 ==> Full(r.st))
            && (IsMapped(st, i, bn) ==> r.st == st && r.addr != 0)
  {
    own' := BmapIsPartialMap(st, own, i, bn, true);
    var r := Bmap(st, i, bn, true);
    forall j: nat, n: nat, k: nat | j < |st.inodes| && k < BSIZE && (j != i || n != bn || IsMapped(st, i, n))
      ensures Cell(r.st, j, n, k) == Cell(st, j, n, k)
      ensures IsMapped(st, j, n) ==> IsMapped(r.st, j, n)
    {
      if IsMapped(st, j, n) {
        var a := FileAddr(st, j, n);
        assert own[a] == (j, PathOf(st.layout, n));
      }
    }
  }

  lemma PutWrites(st: State, own: Owner, i: nat, bn: nat, o: nat, bytes: seq<byte>)
    requires Own(st, own) && i < |st.inodes| && IsMapped(st, i, bn) && o + |bytes| <= BSIZE
    ensures var st' := PutBytes(st, FileAddr(st, i, bn), o, bytes);
            Own(st', own) && Wrote(st, st', i, bn * BSIZE + o, bytes)
  {
    var a := FileAddr(st, i, bn);
    var p := PathOf(st.layout, bn);
    var st' := PutBytes(st, a, o, bytes);
    assert own[a] == (i, p);
    forall j: nat, q | j < |st.inodes| && PathOk(st.layout, q)
      ensures Addr(st', j, q) == Addr(st, j, q)
    {
      if !q.P0? {
        AncestorsOwned(st, own, j, q);
      }
      AddrFrame(st, st', j, q);
    }
    OwnKept(st, own, st');
    assert forall j: nat, n: nat | j < |st.inodes| :: IsMapped(st', j, n) == IsMapped(st, j, n);
    forall j: nat, n: nat, k: nat | j < |st.inodes| && k < BSIZE
      ensures Cell(st', j, n, k) == if j == i && n == bn && o <= k < o + |bytes| then bytes[k - o] else Cell(st, j, n, k)
    {
      if IsMapped(st, j, n) && FileAddr(st, j, n) == a {
        assert own[a] == (j, PathOf(st.layout, n));
        PathOfIsBijection(st.layout);
        assert IndexOf(st.layout, PathOf(st.layout, n)) == n && IndexOf(st.layout, p) == bn;
      }
    }
    CellsWritten(st, st', i, bn, o, bytes);
  }

  lemma OneBlock(bn: nat, o: nat, len: nat, n: nat, k: nat)
    requires o + len <= BSIZE && k < BSIZE
    ensures bn * BSIZE + o <= n * BSIZE + k < bn * BSIZE + o + len <==> n == bn && o <= k < o + len
  {
  }

  lemma CellsWritten(st: State, st': State, i: nat, bn: nat, o: nat, bytes: seq<byte>)
    requires SameFrame(st, st') && st'.inodes == st.inodes && i < |st.inodes| && o + |bytes| <= BSIZE
    requires IsMapped(st, i, bn)
    requires forall j: nat, n: nat | j < |st.inodes| :: IsMapped(st', j, n) == IsMapped(st, j, n)
    requires forall j: nat, n: nat, k: nat | j < |st.inodes| && k < BSIZE ::
               Cell(st', j, n, k) == if j == i && n == bn && o <= k < o + |bytes| then bytes[k - o] else Cell(st, j, n, k)
    ensures Wrote(st, st', i, bn * BSIZE + o, bytes)
  {
    hide IsMapped, Cell;
    var lo := bn * BSIZE + o;
    forall n: nat | Touches(n, lo, |bytes|) ensures IsMapped(st', i, n) {
      assert n == bn;
    }
    forall n: nat, k: nat | k < BSIZE && lo <= n * BSIZE + k < lo + |bytes|
      ensures Cell(st', i, n, k) == bytes[n * BSIZE + k - lo]
    {
      OneBlock(bn, o, |bytes|, n, k);
    }
    forall n: nat, k: nat | k < BSIZE && IsMapped(st, i, n) && !(lo <= n * BSIZE + k < lo + |bytes|)
      ensures Cell(st', i, n, k) == Cell(st, i, n, k)
    {
      OneBlock(bn, o, |bytes|, n, k);
    }
  }

  lemma OwnKept(st: State, own: Owner, st': State)
    requires Own(st, own) && SameFrame(st, st') && st'.used == st.used
    requires forall j: nat, q | j < |st.inodes| && PathOk(st.layout, q) :: Addr(st', j, q) == Addr(st, j, q)
    ensures Own(st', own)
  {
    forall b | b in own ensures RootedAt(st', own[b].0, own[b].1, b) {
      assert RootedAt(st, own[b].0, own[b].1, b);
    }
  }

  /** One turn of the loop of `writei`: a block is found or allocated for the
      next piece of `src`, and the piece is copied into it. */
  lemma ChunkWrites(st: State, own: Owner, i: nat, bn: nat, o: nat, piece: seq<byte>) returns (own': Owner, st': State)
    requires Own(st, own) && i < |st.inodes| && Mappable(st.layout, bn) && o + |piece| <= BSIZE
    requires Bmap(st, i, bn, true).addr != 0
    ensures st' == PutBytes(Bmap(st, i, bn, true).st, Bmap(st, i, bn, true).addr, o, piece)
    ensures Own(st', own') && SameFrame(st, st') && Wrote(st, st', i, bn * BSIZE + o, piece)
    ensures IsMapped(st, i, bn) ==> st'.used == st.used && st'.inodes == st.inodes
  {
    hide Bmap, IsMapped, Cell, FileAddr, Placed, Rooted, Full, Wrote;
    var r := Bmap(st, i, bn, true);
    own' := BmapWritesNothing(st, own, i, bn, bn * BSIZE + o);
    PutWrites(r.st, own', i, bn, o, piece);
    st' := PutBytes(r.st, r.addr, o, piece);
    assert [] + piece == piece;
    WroteThenWrote(st, r.st, st', i, bn * BSIZE + o, [], piece);
  }

  lemma {:induction false} WriteLoopWrites(st: State, own: Owner, i: nat, bn: nat, o: nat, src: seq<byte>, tot: nat, ok: nat)
    returns (own': Owner, r: WriteResult)
    requires Own(st, own) && i < |st.inodes| && o < BSIZE
    requires bn * BSIZE + o + |src| <= MaxFile(st.layout) * BSIZE
    ensures r == WriteLoop(st, i, bn, o, src, tot, ok)
    ensures Own(r.st, own') && !r.panics && tot <= r.ret <= tot + |src|
    ensures Wrote(st, r.st, i, bn * BSIZE + o, src[..r.ret - tot])
    ensures r.ret < tot + |src| ==> ok < Chunks(o, |src|) || Full(r.st)
    decreases |src|
  {
    hide Bmap, IsMapped, Cell, FileAddr, Placed, Rooted, Full, Wrote;
    if |src| == 0 {
      own', r := own, WriteResult(st, tot, false);
      WroteNothing(st, i, bn * BSIZE + o);
    } else {
      assert Mappable(st.layout, bn);
      own' := BmapWritesNothing(st, own, i, bn, bn * BSIZE + o);
      var got := Bmap(st, i, bn, true);
      if got.addr == 0 || ok == 0 {
        r := WriteResult(got.st, tot, false);
      } else {
        var m := Min(|src|, BSIZE - o);
        var own1, st1 := ChunkWrites(st, own, i, bn, o, src[..m]);
        own', r := WriteLoopWrites(st1, own1, i, bn + 1, 0, src[m..], tot + m, ok - 1);
        PiecesJoin(st, st1, r.st, i, bn, o, src, m, r.ret - tot);
      }
    }
  }

  lemma PiecesJoin(st: State, st1: State, st2: State, i: nat, bn: nat, o: nat, src: seq<byte>, m: nat, t: nat)
    requires o < BSIZE && |src| > 0 && m == Min(|src|, BSIZE - o) && m <= t <= |src|
    requires Wrote(st, st1, i, bn * BSIZE + o, src[..m])
    requires Wrote(st1, st2, i, (bn + 1) * BSIZE, src[m..][..t - m])
    ensures Wrote(st, st2, i, bn * BSIZE + o, src[..t])
  {
    hide IsMapped, Cell;
    assert src[..m] + src[m..][..t - m] == src[..t];
    if t == m {
      assert Wrote(st1, st2, i, bn * BSIZE + o + m, []);
    }
    WroteThenWrote(st, st1, st2, i, bn * BSIZE + o, src[..m], src[m..][..t - m]);
  }

  /** Writing over blocks that are all mapped allocates nothing and stops early
      only when a copy fails. */
  lemma {:induction false} WriteLoopInPlace(st: State, own: Owner, i: nat, bn: nat, o: nat, src: seq<byte>, tot: nat, ok: nat)
    requires Own(st, own) && i < |st.inodes| && o < BSIZE
    requires bn * BSIZE + o + |src| <= MaxFile(st.layout) * BSIZE
    requires forall n: nat | Touches(n, bn * BSIZE + o, |src|) :: IsMapped(st, i, n)
    ensures var r := WriteLoop(st, i, bn, o, src, tot, ok);
            && r.st.used == st.used && r.st.inodes == st.inodes
            && (ok >= Chunks(o, |src|) ==> r.ret == tot + |src|)
    decreases |src|
  {
    hide Bmap, IsMapped, Cell, FileAddr, Placed, Rooted, Full;
    if |src| > 0 {
      assert Mappable(st.layout, bn) && Touches(bn, bn * BSIZE + o, |src|);
      var own0 := BmapWritesNothing(st, own, i, bn, bn * BSIZE + o);
      if ok > 0 {
        var m := Min(|src|, BSIZE - o);
        var own1, st1 := ChunkWrites(st, own, i, bn, o, src[..m]);
        forall n: nat | Touches(n, (bn + 1) * BSIZE, |src[m..]|) ensures IsMapped(st1, i, n) {
          assert Touches(n, bn * BSIZE + o, |src|);
        }
        WriteLoopInPlace(st1, own1, i, bn + 1, 0, src[m..], tot + m, ok - 1);
      }
    }
  }

  // ---- the content ----

  /** `src` written into `c` at `off`, extending it when it reaches past the end. */
  function Spliced(c: seq<byte>, off: nat, src: seq<byte>): seq<byte>
    requires off <= |c|
  {
    c[..off] + src + (if off + |src| <= |c| then c[off + |src|..] else [])
  }

  lemma BytesAreCells(st: State, j: nat, x: nat)
    requires j < |st.inodes| && x < st.inodes[j].size
    ensures Bytes(st, j)[x] == Cell(st, j, x / BSIZE, x % BSIZE)
  {
  }

  lemma SizeKeepsTree(st: State, own: Owner, i: nat, size: nat)
    requires Own(st, own) && i < |st.inodes|
    ensures var st' := Iupdate(SetSize(st, i, size), i);
            && Own(st', own)
            && (forall j: nat, n: nat | j < |st.inodes| :: IsMapped(st', j, n) == IsMapped(st, j, n))
            && (forall j: nat, n: nat, k: nat | j < |st.inodes| && k < BSIZE :: Cell(st', j, n, k) == Cell(st, j, n, k))
  {
    var st' := Iupdate(SetSize(st, i, size), i);
    forall j: nat, q | j < |st.inodes| && PathOk(st.layout, q) ensures Addr(st', j, q) == Addr(st, j, q) {
    }
    forall b | b in own ensures RootedAt(st', own[b].0, own[b].1, b) {
      assert RootedAt(st, own[b].0, own[b].1, b);
    }
  }

  /** The content of file `i` after bytes have been written, and of every other. */
  lemma ContentWritten(st: State, st1: State, st2: State, i: nat, off: nat, src: seq<byte>)
    requires Shape(st) && NoHoles(st) && Wrote(st, st1, i, off, src) && off <= st.inodes[i].size
    requires |st2.inodes| == |st.inodes| && st2.layout == st.layout
    requires st2.inodes[i] == st1.inodes[i].(size := Max(st.inodes[i].size, off + |src|))
    requires forall j: nat | j < |st.inodes| && j != i :: st2.inodes[j] == st1.inodes[j]
    requires forall j: nat, n: nat, k: nat | j < |st.inodes| && k < BSIZE :: Cell(st2, j, n, k) == Cell(st1, j, n, k)
    ensures Bytes(st2, i) == Spliced(Bytes(st, i), off, src)
    ensures forall j: nat | j < |st.inodes| && j != i :: Bytes(st2, j) == Bytes(st, j)
  {
    hide Cell;
    forall j: nat, x: nat | j < |st.inodes| && x < st2.inodes[j].size
      ensures Bytes(st2, j)[x] == NewByte(st, i, off, src, j, x)
    {
      BytesAreCells(st2, j, x);
      var n, k := x / BSIZE, x % BSIZE;
      assert x == n * BSIZE + k && Cell(st2, j, n, k) == Cell(st1, j, n, k);
      if x < st.inodes[j].size {
        BytesAreCells(st, j, x);
        assert n * BSIZE < st.inodes[j].size && IsMapped(st, j, n);
      }
    }
    forall x: nat | x < st2.inodes[i].size ensures Bytes(st2, i)[x] == Spliced(Bytes(st, i), off, src)[x] {
      assert Bytes(st2, i)[x] == NewByte(st, i, off, src, i, x);
    }
    forall j: nat | j < |st.inodes| && j != i ensures Bytes(st2, j) == Bytes(st, j) {
      forall x: nat | x < st2.inodes[j].size ensures Bytes(st2, j)[x] == Bytes(st, j)[x] {
        assert Bytes(st2, j)[x] == NewByte(st, i, off, src, j, x);
      }
    }
  }

  function NewByte(st: State, i: nat, off: nat, src: seq<byte>, j: nat, x: nat): byte
    requires j < |st.inodes|
  {
    if j == i && off <= x < off + |src| then src[x - off]
    else if x < st.inodes[j].size then Bytes(st, j)[x] else 0
  }

  function Max(a: nat, b: nat): nat {
    if a < b then b else a
  }

  lemma NoHolesAfter(st: State, st1: State, st2: State, i: nat, off: nat, src: seq<byte>)
    requires Shape(st) && NoHoles(st) && Wrote(st, st1, i, off, src) && off <= st.inodes[i].size
    requires off + |src| <= MaxFile(st.layout) * BSIZE
    requires |st2.inodes| == |st.inodes| && st2.layout == st.layout
    requires st2.inodes[i] == st1.inodes[i].(size := Max(st.inodes[i].size, off + |src|))
    requires forall j: nat | j < |st.inodes| && j != i :: st2.inodes[j] == st1.inodes[j]
    requires forall j: nat, n: nat | j < |st.inodes| :: IsMapped(st2, j, n) == IsMapped(st1, j, n)
    ensures NoHoles(st2)
  {
    forall j: nat, n: nat | j < |st2.inodes| && n * BSIZE < st2.inodes[j].size ensures IsMapped(st2, j, n) {
      if n * BSIZE < st.inodes[j].size {
        assert IsMapped(st, j, n);
      } else {
        assert Touches(n, off, |src|);
      }
    }
    forall j: nat | j < |st2.inodes| ensures st2.inodes[j].size <= MaxFile(st.layout) * BSIZE {
      assert st.inodes[j].size <= MaxFile(st.layout) * BSIZE;
    }
  }

  /** `writei` refuses exactly an offset past the end, a range that wraps around,
      and one past the largest file; then nothing changes. Otherwise it never
      panics, and if it answers `ret`, the file's content is the old one with the
      first `ret` bytes of the source spliced in at `off`, every other file is
      untouched, ownership and the absence of holes are kept, and the inode has
      been written to the disk. It stops short of the whole source only when a
      copy fails or the disk is full; within the old content it needs no block. */
  lemma WriteiSplices(st: State, own: Owner, i: nat, off: uint, src: seq<byte>, ok: nat) returns (own': Owner)
    requires Own(st, own) && NoHoles(st) && i < |st.inodes| && |src| < UINT_LIMIT
    ensures var r := Writei(st, i, off, src, ok);
            var c := Bytes(st, i);
            var st' := r.st;
            && Own(st', own') && NoHoles(st') && !r.panics
            && st'.layout == st.layout && st'.size == st.size && st'.datastart == st.datastart && |st'.inodes| == |st.inodes|
            && (r.ret == -1 <==> off > |c| || off + |src| >= UINT_LIMIT || off + |src| > MaxFile(st.layout) * BSIZE)
            && (r.ret == -1 ==> st' == st)
            && (r.ret != -1 ==>
                 && 0 <= r.ret <= |src|
                 && Bytes(st', i) == Spliced(c, off, src[..r.ret])
                 && (forall j: nat | j < |st.inodes| && j != i :: Bytes(st', j) == Bytes(st, j) && st'.inodes[j] == st.inodes[j])
                 && st'.inodes[i].typ == st.inodes[i].typ && st'.inodes[i].nlink == st.inodes[i].nlink
                 && st'.dinodes == st.dinodes[i := st'.inodes[i]]
                 && (r.ret < |src| ==> ok < Chunks(off % BSIZE, |src|) || Full(st'))
                 && (off + |src| <= |c| ==> st'.used == st.used && (ok >= Chunks(off % BSIZE, |src|) ==> r.ret == |src|)))
  {
    hide Bmap, Placed, Rooted, Cell, IsMapped, FileAddr, WriteLoop, ByteAt, Chunks;
    own' := own;
    if !(off > st.inodes[i].size || Wraps(off, |src|) || off + |src| > MaxFile(st.layout) * BSIZE) {
      var w;
      own', w := WriteLoopWrites(st, own, i, off / BSIZE, off % BSIZE, src, 0, ok);
      var size := Max(st.inodes[i].size, off + w.ret);
      SizeKeepsTree(w.st, own', i, size);
      var st' := Writei(st, i, off, src, ok).st;
      assert st' == Iupdate(SetSize(w.st, i, size), i);
      ContentWritten(st, w.st, st', i, off, src[..w.ret]);
      NoHolesAfter(st, w.st, st', i, off, src[..w.ret]);
      if off + |src| <= st.inodes[i].size {
        InPlace(st, own, i, off, src, ok);
      }
    }
  }

  lemma InPlace(st: State, own: Owner, i: nat, off: nat, src: seq<byte>, ok: nat)
    requires Own(st, own) && NoHoles(st) && i < |st.inodes| && off + |src| <= st.inodes[i].size
    ensures var r := WriteLoop(st, i, off / BSIZE, off % BSIZE, src, 0, ok);
            && r.st.used == st.used && r.st.inodes == st.inodes
            && (ok >= Chunks(off % BSIZE, |src|) ==> r.ret == |src|)
  {
    forall n: nat | Touches(n, off, |src|) ensures IsMapped(st, i, n) {
      assert n * BSIZE < st.inodes[i].size;
    }
    WriteLoopInPlace(st, own, i, off / BSIZE, off % BSIZE, src, 0, ok);
  }

  /** In the two variants whose header the size limit comes from, it is just what
      `bmap` can map. */
  lemma MaxFileIsMappable(l: Layout, bn: nat)
    ensures l.Classic? || l.Template? ==> (bn < MaxFile(l) <==> Mappable(l, bn))
    ensures !l.Classic? ==> (bn < MaxFile(l) <==> bn < 10000)
  {
  }

  /** Within the file and without wrapping around, a write is refused exactly when it
      has a last block and `bmap` cannot map it, or, in the other variants, when that
      block is number 10000 or later. */
  lemma WriteiRefuses(st: State, own: Owner, i: nat, off: uint, src: seq<byte>, ok: nat)
    requires Own(st, own) && NoHoles(st) && i < |st.inodes| && off <= st.inodes[i].size && off + |src| < UINT_LIMIT
    ensures var last := (off + |src| - 1) / BSIZE;
            Writei(st, i, off, src, ok).ret == -1 <==>
              src != [] && if st.layout.Classic? || st.layout.Template? then !Mappable(st.layout, last) else last >= 10000
  {
    hide Mappable, Writei, Own;
    var own' := WriteiSplices(st, own, i, off, src, ok);
    if src != [] {
      var last := (off + |src| - 1) / BSIZE;
      MaxFileIsMappable(st.layout, last);
      assert last < MaxFile(st.layout) <==> off + |src| <= MaxFile(st.layout) * BSIZE;
    }
  }

  /** How many of `left` bytes the first `ok` pieces hold that start at offset `o` of a
      block. */
  function PieceBytes(o: nat, left: nat, ok: nat): nat
    requires o < BSIZE
  {
    if ok == 0 then 0 else Min(left, ok * BSIZE - o)
  }

  /** The loop goes no further than the copies that succeed, and as far, unless the disk
      fills up. */
  lemma {:induction false} WriteLoopStops(st: State, own: Owner, i: nat, bn: nat, o: nat, src: seq<byte>, tot: nat, ok: nat)
    requires Own(st, own) && i < |st.inodes| && o < BSIZE
    requires bn * BSIZE + o + |src| <= MaxFile(st.layout) * BSIZE
    ensures var r := WriteLoop(st, i, bn, o, src, tot, ok);
            && r.ret <= tot + PieceBytes(o, |src|, ok)
            && (r.ret < tot + PieceBytes(o, |src|, ok) ==> Full(r.st))
    decreases |src|
  {
    hide Bmap, Placed, Rooted, Addr, Wrote;
    if |src| > 0 {
      var own1 := BmapWritesNothing(st, own, i, bn, 0);
      var m := Min(|src|, BSIZE - o);
      if Bmap(st, i, bn, true).addr != 0 && ok > 0 {
        var own2, st1 := ChunkWrites(st, own, i, bn, o, src[..m]);
        WriteLoopStops(st1, own2, i, bn + 1, 0, src[m..], tot + m, ok - 1);
        assert PieceBytes(o, |src|, ok) == m + PieceBytes(0, |src| - m, ok - 1);
      }
    }
  }

  /** A write that is not refused writes just the pieces before the first copy that
      fails, unless the disk fills up. */
  lemma WriteiStops(st: State, own: Owner, i: nat, off: uint, src: seq<byte>, ok: nat)
    requires Own(st, own) && NoHoles(st) && i < |st.inodes| && |src| < UINT_LIMIT && Writei(st, i, off, src, ok).ret != -1
    ensures var r, most := Writei(st, i, off, src, ok), (if ok == 0 then 0 else Min(|src|, ok * BSIZE - off % BSIZE));
            r.ret <= most && (r.ret < most ==> Full(r.st))
  {
    hide WriteLoop, Own;
    WriteLoopStops(st, own, i, off / BSIZE, off % BSIZE, src, 0, ok);
    var own', w := WriteLoopWrites(st, own, i, off / BSIZE, off % BSIZE, src, 0, ok);
  }
}
