/** `itrunc`: give every block of an inode's tree back to the allocator. */
module Itrunc {
  import opened Blocks
  import opened Tree

  // ---- what the freeing loops do; `None` is the panic of `bfree` ----

  /** Free the blocks named by entries `j`, `j+1`, ... of an index block. */
  function FreeEntries(st: State, a: Block, j: nat): (r: Option<State>)
    requires Shape(st) && j <= NINDIRECT
    ensures r.Some? ==> SameFrame(st, r.value) && r.value == st.(used := r.value.used)
    decreases NINDIRECT - j
  {
    if j == NINDIRECT then Some(st)
    else if Word(a, j) == 0 then FreeEntries(st, a, j + 1)
    else match Free(st, Word(a, j)) case None => None case Some(st1) => FreeEntries(st1, a, j + 1)
  }

  /** Free the blocks named by index block `x`, then `x` itself. */
  function FreeIndex(st: State, x: nat): (r: Option<State>)
    requires Shape(st)
    ensures r.Some? ==> SameFrame(st, r.value) && r.value == st.(used := r.value.used)
  {
    match FreeEntries(st, Read(st.disk, x), 0) case None => None case Some(st1) => Free(st1, x)
  }

  /** Free the index blocks named by entries `j`, `j+1`, ... of a master block. */
  function FreeIndexes(st: State, a: Block, j: nat): (r: Option<State>)
    requires Shape(st) && j <= NINDIRECT
    ensures r.Some? ==> SameFrame(st, r.value) && r.value == st.(used := r.value.used)
    decreases NINDIRECT - j
  {
    if j == NINDIRECT then Some(st)
    else if Word(a, j) == 0 then FreeIndexes(st, a, j + 1)
    else match FreeIndex(st, Word(a, j)) case None => None case Some(st1) => FreeIndexes(st1, a, j + 1)
  }

  /** Free a tree of the given depth rooted at block `x`. */
  function FreeTree(st: State, depth: nat, x: nat): (r: Option<State>)
    requires Shape(st)
    ensures r.Some? ==> SameFrame(st, r.value) && r.value == st.(used := r.value.used)
  {
    if depth == 0 then Free(st, x)
    else if depth == 1 then FreeIndex(st, x)
    else match FreeIndexes(st, Read(st.disk, x), 0) case None => None case Some(st1) => Free(st1, x)
  }

  /** The `t`th slot that `itrunc` visits. */
  function SlotOrder(l: Layout, t: nat): (s: nat)
    requires t < SlotCount(l)
    ensures s < SlotCount(l)
  {
    if !l.Inverted? then t else if t < 11 then t + 2 else 12 - t
  }

  /** Free the trees in the slots visited from the `t`th on and clear the slots. */
  function FreeSlots(st: State, i: nat, t: nat): (r: Option<State>)
    requires Shape(st) && i < |st.inodes| && t <= SlotCount(st.layout)
    ensures r.Some? ==> SameFrame(st, r.value)
    decreases SlotCount(st.layout) - t
  {
    if t == SlotCount(st.layout) then Some(st) else
    var s := SlotOrder(st.layout, t);
    var addr := st.inodes[i].addrs[s];
    if addr == 0 then FreeSlots(st, i, t + 1)
    else match FreeTree(st, Depth(st.layout, s), addr)
      case None => None
      case Some(st1) => FreeSlots(SetSlot(st1, i, s, 0), i, t + 1)
  }

  /** `iupdate`: copy the in-memory inode to the disk. */
  function Iupdate(st: State, i: nat): State
    requires i < |st.inodes| == |st.dinodes|
  {
    st.(dinodes := st.dinodes[i := st.inodes[i]])
  }

  function SetSize(st: State, i: nat, size: nat): State
    requires i < |st.inodes|
  {
    st.(inodes := st.inodes[i := st.inodes[i].(size := size)])
  }

  function Truncate(st: State, i: nat): (r: Option<State>)
    requires Shape(st) && i < |st.inodes|
    ensures r.Some? ==> Shape(r.value) && r.value.layout == st.layout && |r.value.inodes| == |st.inodes|
  {
    match FreeSlots(st, i, 0) case None => None case Some(st1) => Some(Iupdate(SetSize(st1, i, 0), i))
  }

  // ---- which blocks that is ----

  /** The blocks hanging below place `q` of inode `i`, at entries from `j` on. */
  ghost function Below(own: Owner, i: nat, q: Path, j: nat): set<nat> {
    set b | b in own && own[b].0 == i && StrictlyBelow(q, own[b].1, j)
  }

  /** The entry of the block at `q` through which the way to `p` leads. */
  function EntryBelow(q: Path, p: Path): nat {
    match p
    case P0(_) => 0
    case P1(_, j) => j
    case P2(_, j, k) => if q.P0? then j else k
  }

  predicate StrictlyBelow(q: Path, p: Path, j: nat) {
    p != q && Above(q, p) && EntryBelow(q, p) >= j
  }

  ghost function Subtree(own: Owner, i: nat, q: Path): set<nat> {
    set b | b in own && own[b].0 == i && Above(q, own[b].1)
  }

  ghost function OwnedBy(own: Owner, i: nat): set<nat> {
    set b | b in own && own[b].0 == i
  }

  /** `st` is `st0` after giving back some blocks, none of them in `kept`. */
  ghost predicate Freed(st0: State, st: State, kept: set<nat>) {
    && Shape(st)
    && st.layout == st0.layout && st.disk == st0.disk && st.used <= st0.used
    && forall b | b in kept :: b in st.used
  }

  function Kid(q: Path, j: nat): Path
    requires !q.P2?
  {
    if q.P0? then P1(q.s, j) else P2(q.s, q.j, j)
  }

  lemma FilledAbove(st: State, i: nat, q: Path, p: Path)
    requires i < |st.inodes| && PathOk(st.layout, p) && Above(q, p)
    ensures PathOk(st.layout, q)
    ensures Addr(st, i, p) != 0 ==> Addr(st, i, q) != 0
  {
  }

  lemma EmptySubtree(st: State, own: Owner, i: nat, q: Path)
    requires Own(st, own) && i < |st.inodes| && PathOk(st.layout, q) && Addr(st, i, q) == 0
    ensures Subtree(own, i, q) == {}
  {
    forall b | b in own && own[b].0 == i ensures !Above(q, own[b].1) {
      assert RootedAt(st, i, own[b].1, b);
      if Above(q, own[b].1) {
        FilledAbove(st, i, q, own[b].1);
      }
    }
  }

  lemma KidAddr(st: State, i: nat, q: Path, j: nat)
    requires i < |st.inodes| && PathOk(st.layout, q) && Level(q) < Depth(st.layout, q.s) && j < NINDIRECT
    ensures PathOk(st.layout, Kid(q, j)) && Addr(st, i, Kid(q, j)) == Child(st.disk, Addr(st, i, q), j)
  {
    AddrStep(st, i, Kid(q, j));
    assert Parent(Kid(q, j)) == q;
  }

  lemma PathSplits(q: Path, p: Path, j: nat)
    requires !q.P2?
    ensures StrictlyBelow(q, p, j) <==> Above(Kid(q, j), p) || StrictlyBelow(q, p, j + 1)
    ensures !(Above(Kid(q, j), p) && StrictlyBelow(q, p, j + 1))
  {
  }

  lemma BelowSplits(own: Owner, i: nat, q: Path, j: nat)
    requires !q.P2?
    ensures Below(own, i, q, j) == Subtree(own, i, Kid(q, j)) + Below(own, i, q, j + 1)
    ensures Subtree(own, i, Kid(q, j)) !! Below(own, i, q, j + 1)
  {
    forall b | b in own
      ensures StrictlyBelow(q, own[b].1, j) <==> Above(Kid(q, j), own[b].1) || StrictlyBelow(q, own[b].1, j + 1)
      ensures !(Above(Kid(q, j), own[b].1) && StrictlyBelow(q, own[b].1, j + 1))
    {
      PathSplits(q, own[b].1, j);
    }
  }

  lemma BelowEnds(st: State, own: Owner, i: nat, q: Path)
    requires Own(st, own)
    ensures Below(own, i, q, NINDIRECT) == {}
    ensures q.P2? ==> Below(own, i, q, 0) == {}
  {
    forall b | b in own ensures PathOk(st.layout, own[b].1) {
      assert RootedAt(st, own[b].0, own[b].1, b);
    }
  }

  lemma OwnedAt(st: State, own: Owner, i: nat, q: Path)
    requires Own(st, own) && i < |st.inodes| && PathOk(st.layout, q) && Addr(st, i, q) != 0
    ensures Addr(st, i, q) in own && own[Addr(st, i, q)] == (i, q)
    ensures forall b | b in own && own[b] == (i, q) :: b == Addr(st, i, q)
  {
    forall b | b in own && own[b] == (i, q) ensures b == Addr(st, i, q) {
      assert RootedAt(st, i, q, b);
    }
  }

  /** A subtree is its root block and the subtrees below it. */
  lemma SubtreeIsRootAndBelow(st: State, own: Owner, i: nat, q: Path)
    requires Own(st, own) && i < |st.inodes| && PathOk(st.layout, q) && Addr(st, i, q) != 0
    ensures Subtree(own, i, q) == Below(own, i, q, 0) + {Addr(st, i, q)}
    ensures Addr(st, i, q) !in Below(own, i, q, 0)
  {
    OwnedAt(st, own, i, q);
  }

  lemma BelowStep(st: State, own: Owner, i: nat, q: Path, j: nat)
    requires Own(st, own) && i < |st.inodes| && PathOk(st.layout, q) && Level(q) < Depth(st.layout, q.s)
    requires Addr(st, i, q) != 0 && j < NINDIRECT
    ensures var w := Word(Read(st.disk, Addr(st, i, q)), j);
            && PathOk(st.layout, Kid(q, j)) && w == Addr(st, i, Kid(q, j))
            && (w == 0 ==> Below(own, i, q, j) == Below(own, i, q, j + 1))
            && Below(own, i, q, j) == Subtree(own, i, Kid(q, j)) + Below(own, i, q, j + 1)
            && Subtree(own, i, Kid(q, j)) !! Below(own, i, q, j + 1)
  {
    hide Addr, Below, Subtree, Placed, Rooted;
    KidAddr(st, i, q, j);
    BelowSplits(own, i, q, j);
    if Addr(st, i, Kid(q, j)) == 0 {
      EmptySubtree(st, own, i, Kid(q, j));
    }
  }

  // ---- the loops free exactly that ----

  lemma {:induction false} EntriesFreed(st0: State, own: Owner, i: nat, q: Path, st: State, j: nat)
    requires Own(st0, own) && i < |st0.inodes| && PathOk(st0.layout, q) && Level(q) + 1 == Depth(st0.layout, q.s)
    requires Addr(st0, i, q) != 0 && j <= NINDIRECT
    requires Freed(st0, st, Below(own, i, q, j))
    ensures FreeEntries(st, Read(st0.disk, Addr(st0, i, q)), j) == Some(st.(used := st.used - Below(own, i, q, j)))
    decreases NINDIRECT - j
  {
    hide Placed, Rooted, Below, Subtree, Addr;
    if j == NINDIRECT {
      BelowEnds(st0, own, i, q);
      assert st.used - Below(own, i, q, j) == st.used;
    } else {
      var kid := Kid(q, j);
      BelowStep(st0, own, i, q, j);
      if Addr(st0, i, kid) == 0 {
        EntriesFreed(st0, own, i, q, st, j + 1);
      } else {
        LeafSubtree(st0, own, i, kid);
        var st1 := Free(st, Addr(st0, i, kid)).value;
        EntriesFreed(st0, own, i, q, st1, j + 1);
        assert st1.used - Below(own, i, q, j + 1) == st.used - Below(own, i, q, j);
      }
    }
  }

  lemma LeafSubtree(st: State, own: Owner, i: nat, q: Path)
    requires Own(st, own) && i < |st.inodes| && IsLeaf(st.layout, q) && Addr(st, i, q) != 0
    ensures Subtree(own, i, q) == {Addr(st, i, q)}
  {
    SubtreeIsRootAndBelow(st, own, i, q);
    forall b | b in own && own[b].0 == i ensures !StrictlyBelow(q, own[b].1, 0) {
      assert RootedAt(st, i, own[b].1, b);
    }
  }

  lemma IndexFreed(st0: State, own: Owner, i: nat, q: Path, st: State)
    requires Own(st0, own) && i < |st0.inodes| && PathOk(st0.layout, q) && Level(q) + 1 == Depth(st0.layout, q.s)
    requires Addr(st0, i, q) != 0
    requires Freed(st0, st, Subtree(own, i, q))
    ensures FreeIndex(st, Addr(st0, i, q)) == Some(st.(used := st.used - Subtree(own, i, q)))
  {
    hide Placed, Rooted, FreeEntries;
    SubtreeIsRootAndBelow(st0, own, i, q);
    EntriesFreed(st0, own, i, q, st, 0);
    assert st.used - Subtree(own, i, q) == st.used - Below(own, i, q, 0) - {Addr(st0, i, q)};
  }

  lemma {:induction false} IndexesFreed(st0: State, own: Owner, i: nat, q: Path, st: State, j: nat)
    requires Own(st0, own) && i < |st0.inodes| && PathOk(st0.layout, q) && q.P0? && Depth(st0.layout, q.s) == 2
    requires Addr(st0, i, q) != 0 && j <= NINDIRECT
    requires Freed(st0, st, Below(own, i, q, j))
    ensures FreeIndexes(st, Read(st0.disk, Addr(st0, i, q)), j) == Some(st.(used := st.used - Below(own, i, q, j)))
    decreases NINDIRECT - j
  {
    hide Placed, Rooted, Below, Subtree, Addr, FreeIndex, FreeEntries;
    if j == NINDIRECT {
      BelowEnds(st0, own, i, q);
      assert st.used - Below(own, i, q, j) == st.used;
    } else {
      var kid := Kid(q, j);
      BelowStep(st0, own, i, q, j);
      if Addr(st0, i, kid) == 0 {
        IndexesFreed(st0, own, i, q, st, j + 1);
      } else {
        IndexFreed(st0, own, i, kid, st);
        var st1 := FreeIndex(st, Addr(st0, i, kid)).value;
        IndexesFreed(st0, own, i, q, st1, j + 1);
        assert st1.used - Below(own, i, q, j + 1) == st.used - Below(own, i, q, j);
      }
    }
  }

  lemma TreeFreed(st0: State, own: Owner, i: nat, s: nat, st: State)
    requires Own(st0, own) && i < |st0.inodes| && s < SlotCount(st0.layout)
    requires st0.inodes[i].addrs[s] != 0
    requires Freed(st0, st, Subtree(own, i, P0(s)))
    ensures FreeTree(st, Depth(st0.layout, s), st0.inodes[i].addrs[s]) == Some(st.(used := st.used - Subtree(own, i, P0(s))))
  {
    hide Placed, Rooted, FreeIndexes, FreeEntries;
    var q := P0(s);
    if Depth(st0.layout, s) == 0 {
      LeafSubtree(st0, own, i, q);
    } else if Depth(st0.layout, s) == 1 {
      IndexFreed(st0, own, i, q, st);
    } else {
      SubtreeIsRootAndBelow(st0, own, i, q);
      IndexesFreed(st0, own, i, q, st, 0);
      assert st.used - Subtree(own, i, q) == st.used - Below(own, i, q, 0) - {Addr(st0, i, q)};
    }
  }

  // ---- the whole inode ----

  /** When slot `s` is visited: the inverse of `SlotOrder`. */
  function Rank(l: Layout, s: nat): int {
    if !l.Inverted? then s else if s >= 2 then s - 2 else 12 - s
  }

  /** Blocks of inode `i` in the slots visited from the `t`th on. */
  ghost function Rest(own: Owner, i: nat, l: Layout, t: nat): set<nat> {
    set b | b in own && own[b].0 == i && Rank(l, own[b].1.s) >= t
  }

  lemma RestSplits(st: State, own: Owner, i: nat, t: nat)
    requires Own(st, own) && t < SlotCount(st.layout)
    ensures var q := P0(SlotOrder(st.layout, t));
            && Rest(own, i, st.layout, t) == Subtree(own, i, q) + Rest(own, i, st.layout, t + 1)
            && Subtree(own, i, q) !! Rest(own, i, st.layout, t + 1)
  {
    hide Placed, Addr, Rank, SlotOrder, Above;
    var s := SlotOrder(st.layout, t);
    forall b | b in own
      ensures (Above(P0(s), own[b].1) <==> own[b].1.s == s) && (Rank(st.layout, own[b].1.s) == t <==> own[b].1.s == s)
    {
      assert RootedAt(st, own[b].0, own[b].1, b);
      RankIsOrder(st.layout, own[b].1.s, t);
      AboveRoot(s, own[b].1);
    }
  }

  lemma RankIsOrder(l: Layout, s: nat, t: nat)
    requires s < SlotCount(l) && t < SlotCount(l)
    ensures Rank(l, s) == t <==> s == SlotOrder(l, t)
  {
  }

  lemma AboveRoot(s: nat, p: Path)
    ensures Above(P0(s), p) <==> p.s == s
  {
  }

  lemma RestEnds(st: State, own: Owner, i: nat)
    requires Own(st, own)
    ensures Rest(own, i, st.layout, SlotCount(st.layout)) == {}
    ensures Rest(own, i, st.layout, 0) == OwnedBy(own, i)
  {
    forall b | b in own ensures 0 <= Rank(st.layout, own[b].1.s) < SlotCount(st.layout) {
      assert RootedAt(st, own[b].0, own[b].1, b);
    }
  }

  /** The address slots once those visited from the `t`th on are cleared. */
  function Cleared(l: Layout, addrs: Addrs, t: nat): Addrs {
    seq(NSLOTS, s requires 0 <= s < NSLOTS => if s < SlotCount(l) && Rank(l, s) >= t then 0 else addrs[s])
  }

  ghost function Emptied(st: State, own: Owner, i: nat, t: nat): State
    requires i < |st.inodes|
  {
    var ip := st.inodes[i];
    st.(used := st.used - Rest(own, i, st.layout, t),
        inodes := st.inodes[i := ip.(addrs := Cleared(st.layout, ip.addrs, t))])
  }

  /** The slots still to be visited name the blocks they named at the start. */
  ghost predicate SlotsLeft(st0: State, st: State, i: nat, t: nat)
    requires i < |st0.inodes| == |st.inodes|
  {
    forall s: nat | s < SlotCount(st0.layout) && Rank(st0.layout, s) >= t :: st.inodes[i].addrs[s] == st0.inodes[i].addrs[s]
  }

  lemma NoSlotsFreed(st0: State, own: Owner, i: nat, st: State)
    requires Own(st0, own) && i < |st.inodes| && st.layout == st0.layout
    ensures Emptied(st, own, i, SlotCount(st0.layout)) == st
  {
    var l := st.layout;
    RestEnds(st0, own, i);
    assert Cleared(l, st.inodes[i].addrs, SlotCount(l)) == st.inodes[i].addrs;
    assert Emptied(st, own, i, SlotCount(l)).used == st.used && Emptied(st, own, i, SlotCount(l)).inodes == st.inodes;
  }

  /** A slot that is 0 is passed over. */
  lemma EmptySlotFreed(st0: State, own: Owner, i: nat, st: State, t: nat)
    requires Own(st0, own) && i < |st0.inodes| == |st.inodes| && t < SlotCount(st0.layout) && st.layout == st0.layout
    requires SlotsLeft(st0, st, i, t) && st.inodes[i].addrs[SlotOrder(st0.layout, t)] == 0
    ensures Rest(own, i, st0.layout, t) == Rest(own, i, st0.layout, t + 1)
    ensures Emptied(st, own, i, t) == Emptied(st, own, i, t + 1)
  {
    var l := st0.layout;
    var s := SlotOrder(l, t);
    RestSplits(st0, own, i, t);
    assert Rank(l, s) == t && forall s': nat | s' < SlotCount(l) && Rank(l, s') == t :: s' == s;
    EmptySubtree(st0, own, i, P0(s));
    assert Cleared(l, st.inodes[i].addrs, t) == Cleared(l, st.inodes[i].addrs, t + 1);
  }

  /** The tree in another slot is freed, and the slot cleared. */
  lemma FullSlotFreed(st0: State, own: Owner, i: nat, st: State, t: nat) returns (st1: State)
    requires Own(st0, own) && i < |st0.inodes| == |st.inodes| && t < SlotCount(st0.layout)
    requires Freed(st0, st, Rest(own, i, st0.layout, t))
    requires SlotsLeft(st0, st, i, t) && st.inodes[i].addrs[SlotOrder(st0.layout, t)] != 0
    ensures |st1.inodes| == |st.inodes| && Freed(st0, st1, Rest(own, i, st0.layout, t + 1)) && SlotsLeft(st0, st1, i, t + 1)
    ensures FreeSlots(st, i, t) == FreeSlots(st1, i, t + 1)
    ensures Emptied(st, own, i, t) == Emptied(st1, own, i, t + 1)
  {
    hide Placed, Rooted, Addr, FreeTree, FreeIndexes, FreeIndex, FreeEntries, Rest, Subtree;
    var l := st0.layout;
    var s := SlotOrder(l, t);
    RestSplits(st0, own, i, t);
    assert Rank(l, s) == t && forall s': nat | s' < SlotCount(l) && Rank(l, s') == t :: s' == s;
    TreeFreed(st0, own, i, s, st);
    st1 := SetSlot(FreeTree(st, Depth(l, s), st.inodes[i].addrs[s]).value, i, s, 0);
    assert Emptied(st, own, i, t) == Emptied(st1, own, i, t + 1) by {
      assert st1.used - Rest(own, i, l, t + 1) == st.used - Rest(own, i, l, t);
      assert Cleared(l, st.inodes[i].addrs, t) == Cleared(l, st1.inodes[i].addrs, t + 1);
      assert Emptied(st, own, i, t).inodes == Emptied(st1, own, i, t + 1).inodes;
    }
  }

  lemma {:induction false} SlotsFreed(st0: State, own: Owner, i: nat, st: State, t: nat)
    requires Own(st0, own) && i < |st0.inodes| == |st.inodes| && t <= SlotCount(st0.layout)
    requires Freed(st0, st, Rest(own, i, st0.layout, t)) && SlotsLeft(st0, st, i, t)
    ensures FreeSlots(st, i, t) == Some(Emptied(st, own, i, t))
    decreases SlotCount(st0.layout) - t
  {
    hide Placed, Rooted, Rest, Emptied, FreeTree, Addr;
    if t == SlotCount(st0.layout) {
      NoSlotsFreed(st0, own, i, st);
    } else if st.inodes[i].addrs[SlotOrder(st0.layout, t)] == 0 {
      EmptySlotFreed(st0, own, i, st, t);
      SlotsFreed(st0, own, i, st, t + 1);
    } else {
      var st1 := FullSlotFreed(st0, own, i, st, t);
      SlotsFreed(st0, own, i, st1, t + 1);
    }
  }

  /** An inode whose slots are all 0 has no tree; other trees do not depend on it. */
  lemma TreeGone(st: State, st': State, i: nat)
    requires i < |st.inodes| == |st'.inodes| && st'.layout == st.layout && st'.disk == st.disk
    requires forall s: nat | s < SlotCount(st.layout) :: st'.inodes[i].addrs[s] == 0
    requires forall j: nat | j < |st.inodes| && j != i :: st'.inodes[j] == st.inodes[j]
    ensures forall j: nat, p | j < |st.inodes| && PathOk(st.layout, p) ::
              Addr(st', j, p) == if j == i then 0 else Addr(st, j, p)
  {
    forall j: nat, p | j < |st.inodes| && PathOk(st.layout, p)
      ensures Addr(st', j, p) == if j == i then 0 else Addr(st, j, p)
    {
      if j == i {
        assert PathOk(st.layout, P0(p.s)) && st'.inodes[i].addrs[p.s] == 0;
      }
    }
  }

  /** `itrunc` never reaches "freeing free block". It frees every block of the
      inode's tree, data and index blocks alike, and no other; all the inode's
      slots and its size become 0 and are written to the disk; every other inode
      keeps its tree. */
  lemma TruncateFreesExactlyTheTree(st: State, own: Owner, i: nat) returns (own': Owner)
    requires Own(st, own) && i < |st.inodes|
    ensures Truncate(st, i).Some?
    ensures own' == own - OwnedBy(own, i)
    ensures var st' := Truncate(st, i).value;
            && Own(st', own')
            && st'.used == st.used - OwnedBy(own, i)
            && (forall s: nat | s < SlotCount(st.layout) :: st'.inodes[i].addrs[s] == 0)
            && st'.inodes == st.inodes[i := st.inodes[i].(size := 0, addrs := st'.inodes[i].addrs)]
            && st'.dinodes == st.dinodes[i := st'.inodes[i]]
            && st' == st.(used := st'.used, inodes := st'.inodes, dinodes := st'.dinodes)
            && (forall j: nat, p | j < |st.inodes| && j != i && PathOk(st.layout, p) :: Addr(st', j, p) == Addr(st, j, p))
            && |st'.used| == |st.used| - |OwnedBy(own, i)|
  {
    hide FreeTree, FreeSlots;
    own' := own - OwnedBy(own, i);
    RestEnds(st, own, i);
    SlotsFreed(st, own, i, st, 0);
    var st' := Truncate(st, i).value;
    assert st'.used == st.used - OwnedBy(own, i);
    assert OwnedBy(own, i) <= st.used;
    TreeGone(st, st', i);
    hide Addr;
    forall b | b in own' ensures RootedAt(st', own'[b].0, own'[b].1, b) {
      assert RootedAt(st, own[b].0, own[b].1, b);
    }
  }

  /** What ownership means without the ghost map: no block hangs at two places,
      and the used data blocks are exactly those that hang somewhere, so that
      nothing is shared and nothing is leaked. */
  lemma NoSharingNoLeaks(st: State, own: Owner)
    requires Own(st, own)
    ensures forall i: nat, p, j: nat, q | i < |st.inodes| && PathOk(st.layout, p) && j < |st.inodes| && PathOk(st.layout, q) ::
              Addr(st, i, p) == Addr(st, j, q) != 0 ==> i == j && p == q
    ensures forall b: nat | st.datastart <= b ::
              b in st.used <==> exists i: nat, p :: i < |st.inodes| && PathOk(st.layout, p) && Addr(st, i, p) == b
  {
    forall b: nat | st.datastart <= b && b in st.used
      ensures exists i: nat, p :: i < |st.inodes| && PathOk(st.layout, p) && Addr(st, i, p) == b
    {
      assert RootedAt(st, own[b].0, own[b].1, b);
    }
  }
}
