/** `bmap`: the block of an inode that holds its `bn`th piece of content, in
    each of the five layouts. */
module BlockMap {
  import opened Blocks
  import opened Tree

  function NDirect(l: Layout): nat {
    if l.Classic? then 12 else 11
  }

  /** How many content blocks the tree can hold. */
  function Capacity(l: Layout): nat {
    match l
    case Classic => 12 + NINDIRECT
    case NoSingle => 11 + NINDIRECT * NINDIRECT
    case _ => 11 + NINDIRECT + NINDIRECT * NINDIRECT
  }

  const HARD_CAP := 10000

  /** Block indices for which the code answers 0 before looking at the tree. */
  predicate Capped(l: Layout, bn: nat) {
    l.Template? && bn >= HARD_CAP
  }

  predicate Mappable(l: Layout, bn: nat) {
    bn < Capacity(l) && !Capped(l, bn)
  }

  /** The place in the tree where block `bn` of the content hangs. */
  function PathOf(l: Layout, bn: nat): (p: Path)
    requires bn < Capacity(l)
    ensures IsLeaf(l, p)
  {
    var rest := bn - NDirect(l);
    var rest2 := rest - NINDIRECT;
    match l
    case Classic => if bn < 12 then P0(bn) else P1(12, rest)
    case Inverted =>
      if bn < 11 then P0(bn + 2)
      else if rest < NINDIRECT then P1(1, rest)
      else P2(0, rest2 / NINDIRECT, rest2 % NINDIRECT)
    case NoSingle =>
      if bn < 11 then P0(bn) else P2(11, rest / NINDIRECT, rest % NINDIRECT)
    case _ =>
      if bn < 11 then P0(bn)
      else if rest < NINDIRECT then P1(11, rest)
      else P2(12, rest2 / NINDIRECT, rest2 % NINDIRECT)
  }

  /** The content index of a leaf: the inverse of `PathOf`. */
  function IndexOf(l: Layout, p: Path): (bn: nat)
    requires IsLeaf(l, p)
    ensures bn < Capacity(l)
  {
    match p
    case P0(s) => if l.Inverted? then s - 2 else s
    case P1(_, j) => NDirect(l) + j
    case P2(_, j, k) => NDirect(l) + (if l.NoSingle? then 0 else NINDIRECT) + j * NINDIRECT + k
  }

  /** Splitting a block index into slots is a bijection between the indices the
      tree can hold and the leaves of the tree. */
  lemma PathOfIsBijection(l: Layout)
    ensures forall bn: nat | bn < Capacity(l) :: IndexOf(l, PathOf(l, bn)) == bn
    ensures forall p | IsLeaf(l, p) :: PathOf(l, IndexOf(l, p)) == p
  {
    forall p | IsLeaf(l, p) ensures PathOf(l, IndexOf(l, p)) == p {
      if p.P2? {
        DivMod(p.j, p.k);
      }
    }
  }

  lemma DivMod(j: nat, k: nat)
    requires k < NINDIRECT
    ensures (j * NINDIRECT + k) / NINDIRECT == j && (j * NINDIRECT + k) % NINDIRECT == k
  {
  }

  /** Block address of content block `bn` of inode `i`, 0 when it has none. */
  function FileAddr(st: State, i: nat, bn: nat): uint
    requires i < |st.inodes| && bn < Capacity(st.layout)
  {
    Addr(st, i, PathOf(st.layout, bn))
  }

  datatype Mapped = Mapped(st: State, addr: uint, panics: bool)

  /** What `bmap(ip, bn)` does; in the sparse variant, `bmap(ip, bn, alloc)`.
      The other variants have no `alloc` argument and always allocate.
      `panics` is "bmap: out of range". */
  function Bmap(st: State, i: nat, bn: nat, alloc: bool): (r: Mapped)
    requires Shape(st) && i < |st.inodes|
    ensures SameFrame(st, r.st)
  {
    if Capped(st.layout, bn) then Mapped(st, 0, false)
    else if bn >= Capacity(st.layout) then Mapped(st, 0, true)
    else
      var got := Walk(st, i, PathOf(st.layout, bn), alloc || !st.layout.Sparse?);
      Mapped(got.st, got.addr, false)
  }

  lemma {:induction false} FullDiskStaysPut(st: State, i: nat, p: Path, alloc: bool)
    requires Shape(st) && i < |st.inodes| && PathOk(st.layout, p) && Full(st)
    ensures Walk(st, i, p, alloc).st == st
    decreases Level(p)
  {
    assert Alloc(st) == Got(st, 0);
    if !p.P0? {
      FullDiskStaysPut(st, i, Parent(p), alloc);
    }
  }

  lemma OtherLeavesKept(st: State, own: Owner, st': State, own': Owner, i: nat, p: Path, j: nat, q: Path)
    requires Own(st, own) && Own(st', own') && Grown(st, own, st', own', i, p)
    requires j < |st.inodes| && IsLeaf(st.layout, p) && IsLeaf(st.layout, q) && (j, q) != (i, p)
    ensures Addr(st', j, q) == Addr(st, j, q)
  {
    var a := Addr(st, j, q);
    var a' := Addr(st', j, q);
    if a != 0 {
      assert own[a] == (j, q) && own'[a] == (j, q);
      assert RootedAt(st', j, q, a);
    }
  }

  /** `bmap` as a partial map from (inode, block index) to disk blocks. The call
      panics exactly beyond the tree's capacity. Otherwise it answers with the
      address now mapped at `bn`; it changes nothing when `bn` was mapped; a
      newly mapped block was free before and reads as zeros; it answers 0 only
      beyond the hard cap, in a lookup, or on a full disk; no other index of any
      inode is remapped; and the same call again gives the same answer and
      changes nothing. */
  lemma BmapIsPartialMap(st: State, own: Owner, i: nat, bn: nat, alloc: bool) returns (own': Owner)
    requires Own(st, own) && i < |st.inodes|
    ensures var r := Bmap(st, i, bn, alloc);
            var l := st.layout;
            var allocating := alloc || !l.Sparse?;
            && Own(r.st, own')
            && Grown(st, own, r.st, own', i, if Mappable(l, bn) then PathOf(l, bn) else P0(0))
            && (r.panics <==> bn >= Capacity(l) && !Capped(l, bn))
            && (!Mappable(l, bn) ==> r.addr == 0 && r.st == st)
            && (Mappable(l, bn) ==>
                 && r.addr == FileAddr(r.st, i, bn)
                 && (FileAddr(st, i, bn) != 0 || !allocating ==> r.st == st && own' == own)
                 && (FileAddr(st, i, bn) == 0 && r.addr != 0 ==> r.addr !in st.used && Read(r.st.disk, r.addr) == ZeroBlock())
                 && (r.addr == 0 && allocating ==> Full(r.st)))
            && (forall j: nat, n: nat | j < |st.inodes| && n < Capacity(l) && (j, n) != (i, bn) ::
                 FileAddr(r.st, j, n) == FileAddr(st, j, n))
            && Bmap(r.st, i, bn, alloc) == r
  {
    var r := Bmap(st, i, bn, alloc);
    var l := st.layout;
    own' := own;
    if Mappable(l, bn) {
      var p := PathOf(l, bn);
      var allocating := alloc || !l.Sparse?;
      own' := WalkGrows(st, own, i, p, allocating);
      forall j: nat, n: nat | j < |st.inodes| && n < Capacity(l) && (j, n) != (i, bn)
        ensures FileAddr(r.st, j, n) == FileAddr(st, j, n)
      {
        PathOfIsBijection(l);
        assert IndexOf(l, PathOf(l, n)) == n && IndexOf(l, p) == bn;
        OtherLeavesKept(st, own, r.st, own', i, p, j, PathOf(l, n));
      }
      BmapAgain(st, own, own', i, bn, alloc);
    } else {
      GrownRefl(st, own, i, P0(0));
    }
  }

  lemma BmapAgain(st: State, own: Owner, own': Owner, i: nat, bn: nat, alloc: bool)
    requires Own(st, own) && i < |st.inodes| && Mappable(st.layout, bn)
    requires Own(Bmap(st, i, bn, alloc).st, own')
    requires Bmap(st, i, bn, alloc).addr == FileAddr(Bmap(st, i, bn, alloc).st, i, bn)
    requires Bmap(st, i, bn, alloc).addr == 0 && (alloc || !st.layout.Sparse?) ==> Full(Bmap(st, i, bn, alloc).st)
    requires !(alloc || !st.layout.Sparse?) ==> Bmap(st, i, bn, alloc).st == st
    ensures Bmap(Bmap(st, i, bn, alloc).st, i, bn, alloc) == Bmap(st, i, bn, alloc)
  {
    var r := Bmap(st, i, bn, alloc);
    var p := PathOf(st.layout, bn);
    var own'' := WalkGrows(r.st, own', i, p, alloc || !st.layout.Sparse?);
    if Full(r.st) {
      FullDiskStaysPut(r.st, i, p, alloc || !st.layout.Sparse?);
    }
  }

  /** Looking up without allocating never changes anything, and agrees with the
      allocating call wherever the index is mapped. */
  lemma LookupAgrees(st: State, own: Owner, i: nat, p: Path)
    requires Own(st, own) && i < |st.inodes| && PathOk(st.layout, p)
    ensures Walk(st, i, p, false) == Got(st, Addr(st, i, p))
    ensures Addr(st, i, p) != 0 ==> Walk(st, i, p, true) == Walk(st, i, p, false)
  {
    var own1 := WalkGrows(st, own, i, p, false);
    var own2 := WalkGrows(st, own, i, p, true);
  }

  // ---- the layouts, slot by slot ----

  /** Where each variant keeps the address of block `bn`: in a slot, in an entry of the
      block a slot names, or in an entry of a block named by an entry. */
  lemma FileAddrIs(st: State, i: nat, bn: nat)
    requires i < |st.inodes| && bn < Capacity(st.layout)
    ensures var a, disk := st.inodes[i].addrs, st.disk;
            FileAddr(st, i, bn) ==
              match st.layout
              case Classic => if bn < 12 then a[bn] else Child(disk, a[12], bn - 12)
              case Template =>
                if bn < 11 then a[bn]
                else if bn < 267 then Child(disk, a[11], bn - 11)
                else Child(disk, Child(disk, a[12], (bn - 267) / 256), (bn - 267) % 256)
              case Sparse =>
                if bn < 11 then a[bn]
                else if bn < 267 then Child(disk, a[11], bn - 11)
                else Child(disk, Child(disk, a[12], (bn - 267) / 256), (bn - 267) % 256)
              case Inverted =>
                if bn < 11 then a[bn + 2]
                else if bn < 267 then Child(disk, a[1], bn - 11)
                else Child(disk, Child(disk, a[0], (bn - 267) / 256), (bn - 267) % 256)
              case NoSingle =>
                if bn < 11 then a[bn] else Child(disk, Child(disk, a[11], (bn - 11) / 256), (bn - 11) % 256)
  {
    hide Child;
  }

  /** Which indices each variant maps, and what it does with the others: the template
      answers 0 from 10000 on, the others panic. */
  lemma RangeOfBmap(st: State, i: nat, bn: nat, alloc: bool)
    requires Shape(st) && i < |st.inodes|
    ensures var r := Bmap(st, i, bn, alloc);
            var limit := match st.layout
                         case Classic => 268
                         case Template => 10000
                         case NoSingle => 65547
                         case _ => 65803;
            && (Mappable(st.layout, bn) <==> bn < limit)
            && (bn >= limit ==> r == Mapped(st, 0, st.layout != Template))
            && (bn < limit ==> !r.panics)
  {
    hide Walk;
  }
}
