/** Each inode's `addrs[]` and its index blocks form a tree of block addresses.
    Five versions of the code arrange that tree differently; a path names a
    place in it, whatever the arrangement. */
module Tree {
  import opened Blocks

  const NSLOTS := 13

  /** Classic: lab5/fs.c. Template, Inverted, NoSingle and Sparse: the bigfile
      variants. */
  datatype Layout = Classic | Template | Inverted | NoSingle | Sparse

  type Addrs = a: seq<uint> | |a| == NSLOTS witness seq(NSLOTS, _ => 0)

  datatype Inode = Inode(typ: nat, nlink: nat, size: nat, addrs: Addrs)

  /** A disk of `size` blocks, of which those below `datastart` are metadata.
      `used` is what the bitmap says; `disk` holds the data blocks; `inodes` are
      the in-memory inodes and `dinodes` the on-disk ones. */
  datatype State = State(size: nat, datastart: nat, layout: Layout, used: set<nat>, disk: seq<Block>,
                         inodes: seq<Inode>, dinodes: seq<Inode>)

  ghost predicate Shape(st: State) {
    && |st.disk| == st.size < 0x8000_0000
    && 0 < st.datastart <= st.size
    && (forall b | b in st.used :: b < st.size)
    && |st.inodes| == |st.dinodes|
  }

  // ---- the allocator ----

  /** The first free block from `from` on, or `size` when there is none. */
  function FirstFree(used: set<nat>, size: nat, from: nat): (b: nat)
    requires from <= size
    ensures from <= b <= size
    ensures forall x: nat | from <= x < b :: x in used
    ensures b < size ==> b !in used
    decreases size - from
  {
    if from == size || from !in used then from else FirstFree(used, size, from + 1)
  }

  lemma {:induction false} FirstFreeIs(used: set<nat>, size: nat, from: nat, b: nat)
    requires from <= b <= size && forall x: nat | from <= x < b :: x in used
    requires b == size || b !in used
    ensures FirstFree(used, size, from) == b
    decreases b - from
  {
    if from < b {
      FirstFreeIs(used, size, from + 1, b);
    }
  }

  datatype Got = Got(st: State, addr: uint)

  ghost predicate SameFrame(st: State, st': State) {
    && Shape(st')
    && st'.size == st.size && st'.datastart == st.datastart && st'.layout == st.layout
    && st'.dinodes == st.dinodes && |st'.inodes| == |st.inodes|
  }

  /** `balloc`: take the first free block and zero it, or answer 0. */
  function Alloc(st: State): (r: Got)
    requires Shape(st)
    ensures SameFrame(st, r.st) && r.st.inodes == st.inodes
  {
    var b := FirstFree(st.used, st.size, 0);
    if b == st.size then Got(st, 0) else Got(st.(used := st.used + {b}, disk := st.disk[b := ZeroBlock()]), b)
  }

  /** `bfree`; `None` is its panic "freeing free block". */
  function Free(st: State, b: nat): (r: Option<State>)
    requires Shape(st)
    ensures r.Some? ==> SameFrame(st, r.value) && r.value == st.(used := r.value.used)
  {
    if b in st.used then Some(st.(used := st.used - {b})) else None
  }

  // ---- paths ----

  /** Slot `s` of `addrs[]`; entry `j` of the block it names; entry `k` of the
      block that entry names. */
  datatype Path = P0(s: nat) | P1(s: nat, j: nat) | P2(s: nat, j: nat, k: nat)

  /** Address slots in use. */
  function SlotCount(l: Layout): nat {
    if l.NoSingle? then 12 else 13
  }

  /** How many levels of index blocks hang below a slot. */
  function Depth(l: Layout, s: nat): nat {
    match l
    case Classic => if s == 12 then 1 else 0
    case Template => if s == 11 then 1 else if s == 12 then 2 else 0
    case Sparse => if s == 11 then 1 else if s == 12 then 2 else 0
    case Inverted => if s == 0 then 2 else if s == 1 then 1 else 0
    case NoSingle => if s == 11 then 2 else 0
  }

  function Level(p: Path): nat {
    match p case P0(_) => 0 case P1(_, _) => 1 case P2(_, _, _) => 2
  }

  predicate PathOk(l: Layout, p: Path) {
    && p.s < SlotCount(l)
    && Level(p) <= Depth(l, p.s)
    && (p.P1? ==> p.j < NINDIRECT)
    && (p.P2? ==> p.j < NINDIRECT && p.k < NINDIRECT)
  }

  /** The path leads to a data block rather than to an index block. */
  predicate IsLeaf(l: Layout, p: Path) {
    PathOk(l, p) && Level(p) == Depth(l, p.s)
  }

  function Parent(p: Path): Path
    requires !p.P0?
  {
    if p.P1? then P0(p.s) else P1(p.s, p.j)
  }

  function LastIndex(p: Path): nat
    requires !p.P0?
  {
    if p.P1? then p.j else p.k
  }

  predicate Above(q: Path, p: Path) {
    q == p || (!p.P0? && (q == Parent(p) || q == P0(p.s)))
  }

  // ---- addresses ----

  function Read(disk: seq<Block>, a: nat): Block {
    if a < |disk| then disk[a] else ZeroBlock()
  }

  function Child(disk: seq<Block>, a: uint, j: nat): uint
    requires j < NINDIRECT
  {
    if a == 0 then 0 else Word(Read(disk, a), j)
  }

  /** The block address stored at a path of inode `i`, 0 for none. */
  function Addr(st: State, i: nat, p: Path): uint
    requires i < |st.inodes| && PathOk(st.layout, p)
  {
    var root := st.inodes[i].addrs[p.s];
    match p
    case P0(_) => root
    case P1(_, j) => Child(st.disk, root, j)
    case P2(_, j, k) => Child(st.disk, Child(st.disk, root, j), k)
  }

  type Owner = map<nat, (nat, Path)>

  /** Block ownership. `own` tells for each block in a tree whose it is and
      where it hangs. Every address met in a tree is a data block owned at that
      very place, so no block is met twice; and the used blocks are exactly the
      reserved ones and the owned ones. */
  ghost predicate Own(st: State, own: Owner) {
    && Shape(st)
    && Placed(st, own)
    && Rooted(st, own)
    && (forall b: nat :: b in st.used <==> b < st.datastart || b in own)
  }

  ghost predicate Placed(st: State, own: Owner) {
    forall i: nat, p | i < |st.inodes| && PathOk(st.layout, p) && Addr(st, i, p) != 0 ::
      Addr(st, i, p) in own && own[Addr(st, i, p)] == (i, p)
  }

  ghost predicate Rooted(st: State, own: Owner) {
    forall b | b in own :: st.datastart <= b < st.size && RootedAt(st, own[b].0, own[b].1, b)
  }

  ghost predicate RootedAt(st: State, i: nat, p: Path, b: nat) {
    i < |st.inodes| && PathOk(st.layout, p) && Addr(st, i, p) == b
  }

  // ---- what one level of bmap does ----

  function SetSlot(st: State, i: nat, s: nat, b: uint): State
    requires i < |st.inodes| && s < NSLOTS
  {
    var ip := st.inodes[i];
    st.(inodes := st.inodes[i := ip.(addrs := ip.addrs[s := b])])
  }

  /** Read `addrs[s]`, filling it with a fresh block when it is 0 and `alloc`. */
  function SlotGet(st: State, i: nat, s: nat, alloc: bool): (r: Got)
    requires Shape(st) && i < |st.inodes| && s < NSLOTS
    ensures SameFrame(st, r.st)
  {
    var addr := st.inodes[i].addrs[s];
    if addr != 0 || !alloc then Got(st, addr) else
    var r := Alloc(st);
    if r.addr == 0 then r else Got(SetSlot(r.st, i, s, r.addr), r.addr)
  }

  function PutEntry(st: State, x: nat, j: nat, b: uint): State
    requires j < NINDIRECT
  {
    if x < |st.disk| then st.(disk := st.disk[x := SetWord(st.disk[x], j, b)]) else st
  }

  /** Read entry `j` of index block `x`, filling it likewise. */
  function EntryGet(st: State, x: uint, j: nat, alloc: bool): (r: Got)
    requires Shape(st) && j < NINDIRECT
    ensures SameFrame(st, r.st)
  {
    var addr := Word(Read(st.disk, x), j);
    if addr != 0 || !alloc then Got(st, addr) else
    var r := Alloc(st);
    if r.addr == 0 then r else Got(PutEntry(r.st, x, j, r.addr), r.addr)
  }

  /** Follow a path from the inode down, filling missing places when `alloc`. */
  function Walk(st: State, i: nat, p: Path, alloc: bool): (r: Got)
    requires Shape(st) && i < |st.inodes| && PathOk(st.layout, p)
    ensures SameFrame(st, r.st)
    decreases Level(p)
  {
    if p.P0? then SlotGet(st, i, p.s, alloc) else
    var up := Walk(st, i, Parent(p), alloc);
    if up.addr == 0 then up else EntryGet(up.st, up.addr, LastIndex(p), alloc)
  }

  // ---- ownership is kept ----

  /** From `st` the tree of inode `i` has only grown, at places on the way to
      `p`, by fresh blocks; blocks that were owned keep their owner, data blocks
      keep their bytes, and a fresh data block is all zero. */
  ghost predicate Grown(st: State, own: Owner, st': State, own': Owner, i: nat, p: Path) {
    && SameFrame(st, st')
    && i < |st.inodes|
    && (forall b | b in own :: b in own' && own'[b] == own[b])
    && (forall b | b in own' && b !in own :: own'[b].0 == i && Above(own'[b].1, p))
    && (forall b | b in own && IsLeaf(st.layout, own[b].1) :: Read(st'.disk, b) == Read(st.disk, b))
    && (forall b | b in own' && b !in own && IsLeaf(st.layout, own'[b].1)     :: Read(st'.disk, b) == ZeroBlock())
    && (forall j: nat | j < |st.inodes| && j != i :: st'.inodes[j] == st.inodes[j])
    && st'.inodes[i] == st.inodes[i].(addrs := st'.inodes[i].addrs)
  }

  lemma GrownTrans(st: State, own: Owner, st1: State, own1: Owner, st2: State, own2: Owner, i: nat, q: Path, p: Path)
    requires Grown(st, own, st1, own1, i, q) && Grown(st1, own1, st2, own2, i, p)
    requires Above(q, p) && PathOk(st.layout, p)
    requires q != p
    ensures Grown(st, own, st2, own2, i, p)
  {
  }

  lemma GrownRefl(st: State, own: Owner, i: nat, p: Path)
    requires Own(st, own) && i < |st.inodes|
    ensures Grown(st, own, st, own, i, p)
  {
  }

  ghost predicate Full(st: State) {
    forall b: nat | b < st.size :: b in st.used
  }

  lemma AllocTakesFirstFree(st: State, own: Owner)
    requires Own(st, own)
    ensures var r := Alloc(st);
            && (r.addr == 0 <==> Full(st))
            && (r.addr == 0 ==> r.st == st)
            && (r.addr != 0 ==>
                 && st.datastart <= r.addr < st.size && r.addr !in st.used && r.addr !in own
                 && r.st == st.(used := st.used + {r.addr}, disk := st.disk[r.addr := ZeroBlock()])
                 && forall x: nat | x < r.addr :: x in st.used)
  {
  }

  /** A tree in which one place has been filled with a fresh block, and
      nothing else moved, is again properly owned. */
  lemma OwnOneMore(st: State, own: Owner, st': State, i: nat, c: Path, b: uint)
    requires Own(st, own) && SameFrame(st, st')
    requires i < |st.inodes| && PathOk(st.layout, c) && Addr(st, i, c) == 0
    requires st.datastart <= b < st.size && b !in own && b != 0
    requires st'.used == st.used + {b}
    requires forall j: nat, q | j < |st.inodes| && PathOk(st.layout, q) ::
               Addr(st', j, q) == if j == i && q == c then b else Addr(st, j, q)
    ensures Own(st', own[b := (i, c)])
  {
    var own' := own[b := (i, c)];
    forall j: nat, q | j < |st'.inodes| && PathOk(st'.layout, q) && Addr(st', j, q) != 0
      ensures Addr(st', j, q) in own' && own'[Addr(st', j, q)] == (j, q)
    {
      assert Addr(st', j, q) == if j == i && q == c then b else Addr(st, j, q);
    }
    assert Rooted(st', own') by {
      forall x | x in own' ensures st.datastart <= x < st.size && RootedAt(st', own'[x].0, own'[x].1, x) {
        if x != b {
          assert RootedAt(st, own[x].0, own[x].1, x);
        }
      }
    }
  }

  lemma GrownOneMore(st: State, own: Owner, st': State, i: nat, c: Path, b: uint, x: nat)
    requires SameFrame(st, st') && i < |st.inodes| && b !in own
    requires Read(st'.disk, b) == ZeroBlock()
    requires forall y | y in own && y != x :: Read(st'.disk, y) == Read(st.disk, y)
    requires x in own ==> !IsLeaf(st.layout, own[x].1)
    requires forall j: nat | j < |st.inodes| && j != i :: st'.inodes[j] == st.inodes[j]
    requires st'.inodes[i] == st.inodes[i].(addrs := st'.inodes[i].addrs)
    ensures Grown(st, own, st', own[b := (i, c)], i, c)
  {
  }

  /** An address depends only on the inode's slot and on the index blocks above. */
  lemma AddrFrame(st: State, st': State, j: nat, q: Path)
    requires j < |st.inodes| && j < |st'.inodes| && st'.layout == st.layout && PathOk(st.layout, q)
    requires st'.inodes[j].addrs[q.s] == st.inodes[j].addrs[q.s]
    requires !q.P0? ==> var a := Addr(st, j, P0(q.s)); a != 0 ==> Read(st'.disk, a) == Read(st.disk, a)
    requires !q.P0? ==> var a := Addr(st, j, Parent(q)); a != 0 ==> Read(st'.disk, a) == Read(st.disk, a)
    ensures Addr(st', j, q) == Addr(st, j, q)
  {
  }

  lemma AncestorsOwned(st: State, own: Owner, j: nat, q: Path)
    requires Own(st, own) && j < |st.inodes| && PathOk(st.layout, q) && !q.P0?
    ensures PathOk(st.layout, P0(q.s)) && PathOk(st.layout, Parent(q))
    ensures var a := Addr(st, j, P0(q.s)); a != 0 ==> a in own && own[a] == (j, P0(q.s)) && st.datastart <= a < st.size
    ensures var a := Addr(st, j, Parent(q)); a != 0 ==> a in own && own[a] == (j, Parent(q)) && st.datastart <= a < st.size
  {
  }

  lemma SlotGrows(st: State, own: Owner, i: nat, s: nat) returns (own': Owner)
    requires Own(st, own) && i < |st.inodes| && s < SlotCount(st.layout)
    requires st.inodes[i].addrs[s] == 0
    ensures var r := SlotGet(st, i, s, true);
            && Own(r.st, own')
            && Grown(st, own, r.st, own', i, P0(s))
            && Addr(r.st, i, P0(s)) == r.addr
            && (r.addr == 0 <==> Full(st))
            && (r.addr == 0 ==> r.st == st && own' == own)
  {
    AllocTakesFirstFree(st, own);
    var r := SlotGet(st, i, s, true);
    var b := r.addr;
    own' := own;
    if b != 0 {
      own' := own[b := (i, P0(s))];
      assert Grown(st, own, r.st, own', i, P0(s)) by {
        GrownOneMore(st, own, r.st, i, P0(s), b, 0);
      }
      assert Own(r.st, own') by {
        forall j: nat, q | j < |st.inodes| && PathOk(st.layout, q)
          ensures Addr(r.st, j, q) == if j == i && q == P0(s) then b else Addr(st, j, q)
        {
          SlotKeepsOthers(st, own, i, s, r.st, b, j, q);
        }
        OwnOneMore(st, own, r.st, i, P0(s), b);
      }
    }
  }

  lemma SlotKeepsOthers(st: State, own: Owner, i: nat, s: nat, st': State, b: uint, j: nat, q: Path)
    requires Own(st, own) && i < |st.inodes| && s < SlotCount(st.layout)
    requires st.inodes[i].addrs[s] == 0
    requires SameFrame(st, st') && st'.inodes == SetSlot(st, i, s, b).inodes
    requires 0 != b < st.size && b !in own && st'.disk[b] == ZeroBlock()
    requires forall x: nat | st.datastart <= x < st.size && x != b :: st'.disk[x] == st.disk[x]
    requires j < |st.inodes| && PathOk(st.layout, q)
    ensures Addr(st', j, q) == if j == i && q == P0(s) then b else Addr(st, j, q)
  {
    if j == i && q.s == s {
      if !q.P0? {
        WordOfZero(q.j);
      }
    } else {
      if !q.P0? {
        AncestorsOwned(st, own, j, q);
      }
      AddrFrame(st, st', j, q);
    }
  }

  lemma {:induction false} EntryKeepsOthers(st: State, own: Owner, i: nat, c: Path, st': State, b: uint, j: nat, q: Path)
    requires Own(st, own) && i < |st.inodes| && PathOk(st.layout, c) && !c.P0?
    requires PathOk(st.layout, Parent(c))
    requires Addr(st, i, Parent(c)) != 0 && Addr(st, i, c) == 0
    requires SameFrame(st, st') && st'.inodes == st.inodes
    requires 0 != b < st.size && b !in own && st'.disk[b] == ZeroBlock()
    requires var x := Addr(st, i, Parent(c)); x < st.size && st'.disk[x] == SetWord(st.disk[x], LastIndex(c), b)
    requires forall y: nat | y < st.size && y != b && y != Addr(st, i, Parent(c)) :: st'.disk[y] == st.disk[y]
    requires j < |st.inodes| && PathOk(st.layout, q)
    ensures Addr(st', j, q) == if j == i && q == c then b else Addr(st, j, q)
    decreases Level(q)
  {
    var x := Addr(st, i, Parent(c));
    assert x in own && own[x] == (i, Parent(c));
    if !q.P0? {
      var up := Parent(q);
      EntryKeepsOthers(st, own, i, c, st', b, j, up);
      AddrStep(st, j, q);
      AddrStep(st', j, q);
      if j == i && up == c {
        WordOfZero(LastIndex(q));
      } else if Addr(st, j, up) == x {
        WordAfterSet(st.disk[x], LastIndex(c), b, LastIndex(q));
        AddrStep(st, i, c);
      }
    }
  }

  lemma AddrStep(st: State, j: nat, q: Path)
    requires j < |st.inodes| && PathOk(st.layout, q) && !q.P0?
    ensures PathOk(st.layout, Parent(q))
    ensures Addr(st, j, q) == Child(st.disk, Addr(st, j, Parent(q)), LastIndex(q))
  {
  }

  lemma EntryGrows(st: State, own: Owner, i: nat, c: Path) returns (own': Owner)
    requires Own(st, own) && i < |st.inodes| && PathOk(st.layout, c) && !c.P0?
    requires PathOk(st.layout, Parent(c)) && Addr(st, i, Parent(c)) != 0 && Addr(st, i, c) == 0
    ensures var r := EntryGet(st, Addr(st, i, Parent(c)), LastIndex(c), true);
            && Own(r.st, own')
            && Grown(st, own, r.st, own', i, c)
            && Addr(r.st, i, c) == r.addr
            && (r.addr == 0 <==> Full(st))
            && (r.addr == 0 ==> r.st == st && own' == own)
  {
    hide Addr;
    AllocTakesFirstFree(st, own);
    AddrStep(st, i, c);
    var x := Addr(st, i, Parent(c));
    assert x in own && own[x] == (i, Parent(c)) && x < st.size;
    var r := EntryGet(st, x, LastIndex(c), true);
    var b := r.addr;
    own' := own;
    if b != 0 {
      own' := own[b := (i, c)];
      EntryKeepsOthers(st, own, i, c, r.st, b, i, c);
      assert Grown(st, own, r.st, own', i, c) by {
        GrownOneMore(st, own, r.st, i, c, b, x);
      }
      assert Own(r.st, own') by {
        forall j: nat, q | j < |st.inodes| && PathOk(st.layout, q)
          ensures Addr(r.st, j, q) == if j == i && q == c then b else Addr(st, j, q)
        {
          EntryKeepsOthers(st, own, i, c, r.st, b, j, q);
        }
        OwnOneMore(st, own, r.st, i, c, b);
      }
    }
  }

  /** `bmap` keeps ownership, and answers with the block that is now at the
      path. A place already filled is just read; an unfilled one is filled by a
      fresh zeroed block, or, when the disk runs out on any of the levels, stays
      empty while what was allocated on the way stays owned. */
  lemma {:induction false} WalkGrows(st: State, own: Owner, i: nat, p: Path, alloc: bool) returns (own': Owner)
    requires Own(st, own) && i < |st.inodes| && PathOk(st.layout, p)
    ensures var r := Walk(st, i, p, alloc);
            && Own(r.st, own')
            && Grown(st, own, r.st, own', i, p)
            && Addr(r.st, i, p) == r.addr
            && (Addr(st, i, p) != 0 || !alloc ==> r.st == st && own' == own)
            && (r.addr == 0 && alloc ==> Full(r.st))
    decreases Level(p)
  {
    GrownRefl(st, own, i, p);
    if p.P0? {
      own' := own;
      if alloc && st.inodes[i].addrs[p.s] == 0 {
        own' := SlotGrows(st, own, i, p.s);
      }
    } else {
      AddrStep(st, i, p);
      var own1 := WalkGrows(st, own, i, Parent(p), alloc);
      var up := Walk(st, i, Parent(p), alloc);
      own' := own1;
      AddrStep(up.st, i, p);
      GrownRefl(up.st, own1, i, p);
      if up.addr != 0 && alloc && Addr(up.st, i, p) == 0 {
        own' := EntryGrows(up.st, own1, i, p);
      }
      GrownTrans(st, own, up.st, own1, Walk(st, i, p, alloc).st, own', i, Parent(p), p);
    }
  }
}
