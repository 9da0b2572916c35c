/** `readi` and `writei`: an inode's content is a sequence of bytes. */
module Content {
  import opened Blocks
  import opened Tree
  import opened BlockMap

  /** `MAXFILE`, the size limit of a file in blocks. */
  function MaxFile(l: Layout): (m: nat)
    ensures forall bn: nat | bn < m :: Mappable(l, bn)
  {
    if l.Classic? then 12 + NINDIRECT else HARD_CAP
  }

  function Min(a: nat, b: nat): nat {
    if a < b then a else b
  }

  predicate IsMapped(st: State, j: nat, n: nat)
    requires j < |st.inodes|
  {
    n < Capacity(st.layout) && FileAddr(st, j, n) != 0
  }

  /** Byte `o` of inode `i`, wherever the block that holds it lies. */
  function ByteAt(st: State, i: nat, o: nat): byte
    requires i < |st.inodes|
  {
    if o / BSIZE >= Capacity(st.layout) || FileAddr(st, i, o / BSIZE) == 0 then 0
    else Read(st.disk, FileAddr(st, i, o / BSIZE))[o % BSIZE]
  }

  function Bytes(st: State, i: nat): (c: seq<byte>)
    requires i < |st.inodes|
    ensures |c| == st.inodes[i].size
  {
    seq(st.inodes[i].size, o requires o >= 0 => ByteAt(st, i, o))
  }

  /** Every block below the size of its file is mapped. */
  ghost predicate NoHoles(st: State) {
    forall i: nat | i < |st.inodes| ::
      && st.inodes[i].size <= MaxFile(st.layout) * BSIZE
      && forall bn: nat | bn * BSIZE < st.inodes[i].size :: IsMapped(st, i, bn)
  }

  /** `off + n` does not fit in an `uint`. */
  predicate Wraps(off: nat, n: nat) {
    (off + n) % UINT_LIMIT < off
  }

  /** How many pieces `left` bytes come in that start at offset `o` of a block. */
  function Chunks(o: nat, left: nat): nat
    requires o < BSIZE
    decreases left
  {
    if left == 0 then 0 else 1 + Chunks(0, left - Min(left, BSIZE - o))
  }

  /** One piece for every block touched. */
  lemma {:induction false} ChunksCount(o: nat, left: nat)
    requires o < BSIZE
    ensures Chunks(o, left) == if left == 0 then 0 else (o + left - 1) / BSIZE + 1
    decreases left
  {
    if left > 0 {
      ChunksCount(0, left - Min(left, BSIZE - o));
    }
  }

  // ---- readi ----

  datatype ReadResult = ReadResult(st: State, data: seq<byte>, ret: int, panics: bool)

  /** The loop of `readi` with `left` bytes to go, from offset `o` of block `bn`
      on. `data` is what has been copied out so far; the first `ok` further
      copies succeed and the one after them fails. */
  function ReadLoop(st: State, i: nat, bn: nat, o: nat, left: nat, data: seq<byte>, ok: nat): (r: ReadResult)
    requires Shape(st) && i < |st.inodes| && o < BSIZE
    ensures SameFrame(st, r.st)
    decreases left
  {
    if left == 0 then ReadResult(st, data, |data|, false) else
    var r := Bmap(st, i, bn, false);
    if r.panics then ReadResult(r.st, data, |data|, true)
    else if r.addr == 0 then ReadResult(r.st, data, |data|, false)
    else if ok == 0 then ReadResult(r.st, data, -1, false)
    else
      var m := Min(left, BSIZE - o);
      ReadLoop(r.st, i, bn + 1, 0, left - m, data + Read(r.st.disk, r.addr)[o..o + m], ok - 1)
  }

  function Readi(st: State, i: nat, off: uint, n: uint, ok: nat): (r: ReadResult)
    requires Shape(st) && i < |st.inodes|
    ensures SameFrame(st, r.st)
  {
    var size := st.inodes[i].size;
    if off > size || Wraps(off, n) then ReadResult(st, [], 0, false)
    else ReadLoop(st, i, off / BSIZE, off % BSIZE, Min(n, size - off), [], ok)
  }

  /** Below the size of the file `bmap` only looks up, with or without `alloc`. */
  lemma LookupBelowSize(st: State, own: Owner, i: nat, at: nat, alloc: bool)
    requires Own(st, own) && NoHoles(st) && i < |st.inodes| && at < st.inodes[i].size
    ensures at / BSIZE < Capacity(st.layout) && FileAddr(st, i, at / BSIZE) != 0
    ensures Bmap(st, i, at / BSIZE, alloc) == Mapped(st, FileAddr(st, i, at / BSIZE), false)
  {
    var bn := at / BSIZE;
    assert bn * BSIZE < st.inodes[i].size && IsMapped(st, i, bn);
    assert bn < MaxFile(st.layout);
    LookupAgrees(st, own, i, PathOf(st.layout, bn));
  }

  /** `bmap` finds every block below the size of file `i` without changing anything. */
  ghost predicate Backed(st: State, i: nat)
    requires Shape(st) && i < |st.inodes|
  {
    forall bn: nat | bn * BSIZE < st.inodes[i].size :: LooksUp(st, i, bn)
  }

  ghost predicate LooksUp(st: State, i: nat, bn: nat)
    requires Shape(st) && i < |st.inodes|
  {
    && bn < Capacity(st.layout)
    && FileAddr(st, i, bn) != 0
    && Bmap(st, i, bn, false) == Bmap(st, i, bn, true) == Mapped(st, FileAddr(st, i, bn), false)
  }

  lemma NoHolesBacked(st: State, own: Owner, i: nat)
    requires Own(st, own) && NoHoles(st) && i < |st.inodes|
    ensures Backed(st, i)
  {
    forall bn: nat | bn * BSIZE < st.inodes[i].size ensures LooksUp(st, i, bn) {
      LookupBelowSize(st, own, i, bn * BSIZE, false);
      LookupBelowSize(st, own, i, bn * BSIZE, true);
    }
  }

  lemma PieceOfFile(st: State, i: nat, bn: nat, o: nat, m: nat)
    requires i < |st.inodes| && bn * BSIZE + o + m <= st.inodes[i].size && o + m <= BSIZE
    requires bn < Capacity(st.layout) && FileAddr(st, i, bn) != 0
    ensures Read(st.disk, FileAddr(st, i, bn))[o..o + m] == Bytes(st, i)[bn * BSIZE + o..bn * BSIZE + o + m]
  {
    hide FileAddr, Bytes;
    var piece, at := Read(st.disk, FileAddr(st, i, bn))[o..o + m], bn * BSIZE + o;
    forall k | 0 <= k < m ensures piece[k] == Bytes(st, i)[at + k] {
      ByteOfBlock(st, i, bn, o + k);
    }
    IsSlice(piece, Bytes(st, i), at);
  }

  lemma IsSlice<T>(piece: seq<T>, c: seq<T>, at: nat)
    requires at + |piece| <= |c| && forall k | 0 <= k < |piece| :: piece[k] == c[at + k]
    ensures piece == c[at..at + |piece|]
  {
  }

  lemma ByteOfBlock(st: State, i: nat, bn: nat, k: nat)
    requires i < |st.inodes| && bn * BSIZE + k < st.inodes[i].size && k < BSIZE
    requires bn < Capacity(st.layout) && FileAddr(st, i, bn) != 0
    ensures Bytes(st, i)[bn * BSIZE + k] == Read(st.disk, FileAddr(st, i, bn))[k]
  {
    hide FileAddr;
    assert (bn * BSIZE + k) / BSIZE == bn && (bn * BSIZE + k) % BSIZE == k;
  }

  lemma SlicesJoin<T>(c: seq<T>, a: nat, b: nat, d: nat)
    requires a <= b <= d <= |c|
    ensures c[a..b] + c[b..d] == c[a..d]
  {
  }

  /** One turn of the loop of `readi` below the end of file `c`. */
  lemma ReadLoopStep(st: State, i: nat, c: seq<byte>, bn: nat, o: nat, left: nat, data: seq<byte>, ok: nat)
    requires Shape(st) && i < |st.inodes| && Backed(st, i) && c == Bytes(st, i)
    requires o < BSIZE && 0 < left && bn * BSIZE + o + left <= |c|
    ensures var m := Min(left, BSIZE - o);
            ReadLoop(st, i, bn, o, left, data, ok) ==
              if ok == 0 then ReadResult(st, data, -1, false)
              else ReadLoop(st, i, bn + 1, 0, left - m, data + c[bn * BSIZE + o..bn * BSIZE + o + m], ok - 1)
  {
    assert LooksUp(st, i, bn);
    PieceOfFile(st, i, bn, o, Min(left, BSIZE - o));
  }

  /** Result `r` hands out the bytes of `c` from `off` up to `end` when `whole`,
      and otherwise a proper prefix of them with the answer -1. */
  ghost predicate ReadsSlice(st: State, c: seq<byte>, off: nat, end: nat, whole: bool, r: ReadResult) {
    && r.st == st && !r.panics
    && off + |r.data| <= end <= |c| && r.data == c[off..off + |r.data|]
    && (if whole then r.ret == |r.data| == end - off else r.ret == -1 && off + |r.data| < end)
  }

  lemma OneChunkMore(st: State, c: seq<byte>, off: nat, o: nat, left: nat, data: seq<byte>, ok: nat) returns (more: seq<byte>)
    requires o < BSIZE && 0 < left && 0 < ok
    requires off + |data| + left <= |c| && data == c[off..off + |data|]
    ensures var m := Min(left, BSIZE - o);
            && more == data + c[off + |data|..off + |data| + m]
            && off + |more| + (left - m) == off + |data| + left
            && more == c[off..off + |more|]
            && (Chunks(0, left - m) <= ok - 1 <==> Chunks(o, left) <= ok)
  {
    var m := Min(left, BSIZE - o);
    SlicesJoin(c, off, off + |data|, off + |data| + m);
    more := data + c[off + |data|..off + |data| + m];
  }

  lemma {:induction false} ReadLoopReads(st: State, i: nat, c: seq<byte>, off: nat, bn: nat, o: nat, left: nat,
                                         data: seq<byte>, ok: nat) returns (r: ReadResult)
    requires Shape(st) && i < |st.inodes| && Backed(st, i) && c == Bytes(st, i)
    requires o < BSIZE && off + |data| + left <= |c|
    requires left > 0 ==> off + |data| == bn * BSIZE + o
    requires data == c[off..off + |data|]
    ensures r == ReadLoop(st, i, bn, o, left, data, ok)
    ensures ReadsSlice(st, c, off, off + |data| + left, Chunks(o, left) <= ok, r)
    decreases left
  {
    hide Bmap, FileAddr, ByteAt, LooksUp, Placed, Rooted;
    if left > 0 {
      ReadLoopStep(st, i, c, bn, o, left, data, ok);
    }
    if left == 0 {
      r := ReadResult(st, data, |data|, false);
    } else if ok == 0 {
      r := ReadResult(st, data, -1, false);
    } else {
      var more := OneChunkMore(st, c, off, o, left, data, ok);
      r := ReadLoopReads(st, i, c, off, bn + 1, 0, left - Min(left, BSIZE - o), more, ok - 1);
      assert r == ReadLoop(st, i, bn, o, left, data, ok);
    }
  }

  /** In a state without holes `readi` never panics, never changes anything, and
      hands out exactly the bytes of the file from `off` on, up to `n` of them or
      the end of the file. It answers -1 exactly when a copy to the caller fails,
      having handed out a proper prefix of them. */
  lemma ReadiReadsContent(st: State, own: Owner, i: nat, off: uint, n: uint, ok: nat)
    requires Own(st, own) && NoHoles(st) && i < |st.inodes|
    ensures var r := Readi(st, i, off, n, ok);
            var c := Bytes(st, i);
            && (off > |c| || off + n >= UINT_LIMIT ==> r == ReadResult(st, [], 0, false))
            && (off <= |c| && off + n < UINT_LIMIT ==>
                 var end := Min(off + n, |c|);
                 ReadsSlice(st, c, off, end, Chunks(off % BSIZE, end - off) <= ok, r))
  {
    hide Bmap, FileAddr, ByteAt, LooksUp, Placed, Rooted;
    var size := st.inodes[i].size;
    if off <= size && !Wraps(off, n) {
      NoHolesBacked(st, own, i);
      var r := ReadLoopReads(st, i, Bytes(st, i), off, off / BSIZE, off % BSIZE, Min(n, size - off), [], ok);
    }
  }
}
