/** Every run of reads, writes, truncations and frees from a freshly made file
    system. */
module Runs {
  import opened Blocks
  import opened Tree
  import opened BlockMap
  import opened Itrunc
  import opened Content
  import opened Write
  import Reclaim

  datatype Op =
    | MapOp(i: nat, bn: nat, alloc: bool)
    | ReadOp(i: nat, off: uint, n: uint, ok: nat)
    | WriteOp(i: nat, off: uint, src: seq<byte>, ok: nat)
    | TruncOp(i: nat)
    | FreeOp(i: nat)

  /** What the callers of the operations respect: the inode exists, and `bmap`
      is called by `readi` and `writei`, whose block indices stay below MAXFILE. */
  predicate OpOk(st: State, op: Op) {
    && op.i < |st.inodes|
    && (op.MapOp? ==> op.bn < MaxFile(st.layout))
    && (op.WriteOp? ==> |op.src| < UINT_LIMIT)
  }

  /** The state after an operation and its answer; `None` is a panic. */
  function Do(st: State, op: Op): (r: Option<(State, int)>)
    requires Shape(st) && OpOk(st, op)
    ensures r.Some? ==> Shape(r.value.0)
  {
    match op
    case MapOp(i, bn, alloc) =>
      var r := Bmap(st, i, bn, alloc);
      if r.panics then None else Some((r.st, r.addr))
    case ReadOp(i, off, n, ok) =>
      var r := Readi(st, i, off, n, ok);
      if r.panics then None else Some((r.st, r.ret))
    case WriteOp(i, off, src, ok) =>
      var r := Writei(st, i, off, src, ok);
      if r.panics then None else Some((r.st, r.ret))
    case TruncOp(i) =>
      (match Truncate(st, i) case None => None case Some(st') => Some((st', 0)))
    case FreeOp(i) =>
      (match Reclaim.FreeInode(st, i) case None => None case Some(st') => Some((st', 0)))
  }

  /** A state every operation may start from. */
  ghost predicate Good(st: State) {
    NoHoles(st) && exists own :: Own(st, own)
  }

  /** The inodes in memory are those on the disk. */
  predicate Settled(st: State) {
    st.inodes == st.dinodes
  }

  /** All contents, file by file. */
  function Files(st: State): (f: seq<seq<byte>>)
    ensures |f| == |st.inodes|
  {
    seq(|st.inodes|, i requires 0 <= i < |st.inodes| => Bytes(st, i))
  }

  /** What an operation with this answer does to the contents. */
  function Effect(files: seq<seq<byte>>, op: Op, answer: int): seq<seq<byte>>
    requires op.i < |files|
    requires op.WriteOp? && answer >= 0 ==> op.off <= |files[op.i]| && answer <= |op.src|
  {
    if op.WriteOp? && answer >= 0 then files[op.i := Spliced(files[op.i], op.off, op.src[..answer])]
    else if op.TruncOp? || op.FreeOp? then files[op.i := []]
    else files
  }

  lemma TruncateEmpties(st: State, own: Owner, i: nat) returns (own': Owner)
    requires Own(st, own) && NoHoles(st) && i < |st.inodes|
    ensures Truncate(st, i).Some?
    ensures var st' := Truncate(st, i).value;
            Own(st', own') && NoHoles(st') && Files(st') == Files(st)[i := []]
  {
    hide Truncate, Addr;
    own' := TruncateFreesExactlyTheTree(st, own, i);
    var st' := Truncate(st, i).value;
    Reclaim.StillNoHoles(st, st');
    forall j: nat | j < |st.inodes| ensures Files(st')[j] == Files(st)[i := []][j] {
      if j != i {
        Reclaim.UntouchedFile(st, st', j);
      }
    }
  }

  lemma MapKeepsFiles(st: State, own: Owner, i: nat, bn: nat, alloc: bool) returns (own': Owner)
    requires Own(st, own) && NoHoles(st) && i < |st.inodes| && bn < MaxFile(st.layout)
    ensures var r := Bmap(st, i, bn, alloc);
            !r.panics && Own(r.st, own') && NoHoles(r.st) && Files(r.st) == Files(st)
  {
    hide Bmap, Addr;
    own' := BmapIsPartialMap(st, own, i, bn, alloc);
    if alloc || !st.layout.Sparse? {
      BmapAllocates(st, i, bn, alloc);
      own' := BmapWritesNothing(st, own, i, bn, 0);
      var st' := Bmap(st, i, bn, true).st;
      forall j: nat | j < |st.inodes| ensures Files(st')[j] == Files(st)[j] {
        forall o: nat | o < st.inodes[j].size ensures Bytes(st', j)[o] == Bytes(st, j)[o] {
          BytesAreCells(st, j, o);
          BytesAreCells(st', j, o);
          assert IsMapped(st, j, o / BSIZE);
        }
      }
    } else {
      assert Mappable(st.layout, bn);
    }
  }

  lemma BmapAllocates(st: State, i: nat, bn: nat, alloc: bool)
    requires Shape(st) && i < |st.inodes| && (alloc || !st.layout.Sparse?)
    ensures Bmap(st, i, bn, alloc) == Bmap(st, i, bn, true)
  {
  }

  lemma FreeEmpties(st: State, own: Owner, i: nat) returns (own': Owner)
    requires Own(st, own) && NoHoles(st) && i < |st.inodes|
    ensures Reclaim.FreeInode(st, i).Some?
    ensures var st' := Reclaim.FreeInode(st, i).value;
            Own(st', own') && NoHoles(st') && Files(st') == Files(st)[i := []]
  {
    own' := Reclaim.InodeFreed(st, own, i);
    var st' := Reclaim.FreeInode(st, i).value;
    forall j: nat | j < |st.inodes| ensures Files(st')[j] == Files(st)[i := []][j] {
      if j != i {
        Reclaim.UntouchedFile(st, st', j);
      }
    }
  }

  /** Every operation that changes an inode in memory writes it to the disk, but for
      `bmap`, which leaves that to its caller. */
  lemma StaysSettled(st: State, op: Op)
    requires Good(st) && Shape(st) && OpOk(st, op) && Settled(st) && !op.MapOp?
    ensures Do(st, op).Some? ==> Settled(Do(st, op).value.0)
  {
    hide Placed, Rooted, NoHoles, Addr, Bmap, ReadLoop;
    var own :| Own(st, own);
    match op
    case ReadOp(i, off, n, ok) => ReadiReadsContent(st, own, i, off, n, ok);
    case WriteOp(i, off, src, ok) => WriteiSettles(st, own, i, off, src, ok);
    case TruncOp(i) => var own' := TruncateFreesExactlyTheTree(st, own, i);
    case FreeOp(i) => var own' := Reclaim.InodeFreed(st, own, i);
  }

  lemma WriteiSettles(st: State, own: Owner, i: nat, off: uint, src: seq<byte>, ok: nat)
    requires Own(st, own) && NoHoles(st) && i < |st.inodes| && |src| < UINT_LIMIT && Settled(st)
    ensures Settled(Writei(st, i, off, src, ok).st)
  {
    hide WriteLoop, Addr, Own;
    if !(off > st.inodes[i].size || Wraps(off, |src|) || off + |src| > MaxFile(st.layout) * BSIZE) {
      var own', r := WriteLoopWrites(st, own, i, off / BSIZE, off % BSIZE, src, 0, ok);
    }
  }

  /** From a good state no operation panics; it leads to a good state again, and
      the contents change exactly as its answer says. */
  lemma StepIsGood(st: State, op: Op)
    requires Good(st) && Shape(st) && OpOk(st, op)
    ensures Do(st, op).Some?
    ensures var (st', answer) := Do(st, op).value;
            && Shape(st') && Good(st') && st'.layout == st.layout && |st'.inodes| == |st.inodes|
            && (op.WriteOp? && answer >= 0 ==> op.off <= |Files(st)[op.i]| && answer <= |op.src|)
            && Files(st') == Effect(Files(st), op, answer)
  {
    hide Bmap, Addr, Readi, Writei, Truncate, Reclaim.FreeInode, Placed, Rooted;
    var own :| Own(st, own);
    match op
    case MapOp(i, bn, alloc) => var own' := MapKeepsFiles(st, own, i, bn, alloc);
    case ReadOp(i, off, n, ok) => ReadiReadsContent(st, own, i, off, n, ok);
    case WriteOp(i, off, src, ok) =>
      var own' := WriteiSplices(st, own, i, off, src, ok);
    case TruncOp(i) => var own' := TruncateEmpties(st, own, i);
    case FreeOp(i) => var own' := FreeEmpties(st, own, i);
  }

  // ---- whole runs ----

  predicate OpsOk(st: State, ops: seq<Op>) {
    forall k | 0 <= k < |ops| :: OpOk(st, ops[k])
  }

  predicate NoMaps(ops: seq<Op>) {
    forall k | 0 <= k < |ops| :: !ops[k].MapOp?
  }

  /** The state after a run and all answers; `None` when some operation panics. */
  function Run(st: State, ops: seq<Op>): Option<(State, seq<int>)>
    requires Shape(st)
    decreases |ops|
  {
    if |ops| == 0 then Some((st, []))
    else if !OpOk(st, ops[0]) then None
    else match Do(st, ops[0])
      case None => None
      case Some((st1, answer)) =>
        match Run(st1, ops[1..])
        case None => None
        case Some((st', answers)) => Some((st', [answer] + answers))
  }

  /** The contents after a run, computed from the answers alone. */
  ghost predicate Explains(files: seq<seq<byte>>, ops: seq<Op>, answers: seq<int>, files': seq<seq<byte>>)
    decreases |ops|
  {
    if |ops| == 0 then answers == [] && files' == files
    else
      && |answers| == |ops|
      && ops[0].i < |files|
      && (ops[0].WriteOp? && answers[0] >= 0 ==> ops[0].off <= |files[ops[0].i]| && answers[0] <= |ops[0].src|)
      && Explains(Effect(files, ops[0], answers[0]), ops[1..], answers[1..], files')
  }

  /** No run from a good state panics. It ends in a good state, so that at every
      moment no block is shared or leaked, and its contents are those that the
      answers explain by splices and truncations, file by file. Unless `bmap` is
      called on its own the inodes in memory remain those on the disk. */
  lemma {:induction false} RunRefinesFiles(st: State, ops: seq<Op>)
    requires Shape(st) && Good(st) && OpsOk(st, ops)
    ensures Run(st, ops).Some?
    ensures var (st', answers) := Run(st, ops).value;
            && Good(st') && Explains(Files(st), ops, answers, Files(st'))
            && (Settled(st) && NoMaps(ops) ==> Settled(st'))
    decreases |ops|
  {
    hide Do, Good, Files, Settled;
    if |ops| > 0 {
      assert OpOk(st, ops[0]);
      StepIsGood(st, ops[0]);
      if Settled(st) && NoMaps(ops) {
        assert !ops[0].MapOp?;
        StaysSettled(st, ops[0]);
      }
      var (st1, answer) := Do(st, ops[0]).value;
      assert OpsOk(st1, ops[1..]);
      RunRefinesFiles(st1, ops[1..]);
    }
  }

  function Upto(n: nat): (s: set<nat>)
    ensures forall b: nat :: b in s <==> b < n
  {
    if n == 0 then {} else Upto(n - 1) + {n - 1}
  }

  /** A file system as made: only metadata in use, all inodes empty. */
  function Fresh(l: Layout, size: nat, datastart: nat, ninodes: nat): State {
    var ip := Inode(0, 0, 0, seq(NSLOTS, _ => 0));
    State(size, datastart, l, Upto(datastart), seq(size, _ => ZeroBlock()),
          seq(ninodes, _ => ip), seq(ninodes, _ => ip))
  }

  lemma FreshIsGood(l: Layout, size: nat, datastart: nat, ninodes: nat)
    requires 0 < datastart <= size < 0x8000_0000
    ensures Shape(Fresh(l, size, datastart, ninodes)) && Good(Fresh(l, size, datastart, ninodes))
    ensures Files(Fresh(l, size, datastart, ninodes)) == seq(ninodes, _ => [])
  {
    var st := Fresh(l, size, datastart, ninodes);
    assert Own(st, map[]);
    forall i: nat | i < ninodes ensures Files(st)[i] == [] {
    }
  }

  /** Booting after any run: reclamation does not panic, leaves no orphan, and its
      state is one that any further run may start from. */
  lemma ReclaimAfterRun(st: State, ops: seq<Op>)
    requires Shape(st) && Good(st) && Settled(st) && OpsOk(st, ops) && NoMaps(ops) && |st.inodes| > 0
    ensures Run(st, ops).Some? && Shape(Run(st, ops).value.0)
    ensures var (st1, _) := Run(st, ops).value;
            |st1.inodes| > 0 && Reclaim.ReclaimFrom(st1, 1).Some? &&
            var st2 := Reclaim.ReclaimFrom(st1, 1).value;
            && Shape(st2) && Good(st2) && Settled(st2)
            && forall j | 1 <= j < |st2.dinodes| :: !Reclaim.Orphan(st2.dinodes[j])
  {
    hide Do, Own, NoHoles, Files, Explains;
    RunRefinesFiles(st, ops);
    var (st1, _) := Run(st, ops).value;
    SameNumber(st, ops);
    var own :| Own(st1, own);
    var own' := Reclaim.ReclaimFreesOrphans(st1, own, 1);
  }

  lemma {:induction false} SameNumber(st: State, ops: seq<Op>)
    requires Shape(st) && Good(st) && OpsOk(st, ops) && Run(st, ops).Some?
    ensures Shape(Run(st, ops).value.0) && |Run(st, ops).value.0.inodes| == |st.inodes|
    decreases |ops|
  {
    hide Do, Good, Files;
    if |ops| > 0 {
      assert OpOk(st, ops[0]);
      StepIsGood(st, ops[0]);
      assert OpsOk(Do(st, ops[0]).value.0, ops[1..]);
      SameNumber(Do(st, ops[0]).value.0, ops[1..]);
    }
  }
}
