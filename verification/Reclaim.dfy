/** `ireclaim`: at boot, free every inode that is allocated but has no links. */
module Reclaim {
  import opened Blocks
  import opened Tree
  import opened Itrunc
  import opened Content

  predicate Orphan(ip: Inode) {
    ip.typ != 0 && ip.nlink == 0
  }

  /** The freeing branch of `iput`: truncate, clear the type, write to the disk. */
  function FreeInode(st: State, i: nat): (r: Option<State>)
    requires Shape(st) && i < |st.inodes|
    ensures r.Some? ==> Shape(r.value) && |r.value.inodes| == |st.inodes| && r.value.layout == st.layout
  {
    match Truncate(st, i)
    case None => None
    case Some(st1) => Some(Iupdate(st1.(inodes := st1.inodes[i := st1.inodes[i].(typ := 0)]), i))
  }

  /** Visit the inodes from number `i` on. `ilock` loads the on-disk inode. */
  function ReclaimFrom(st: State, i: nat): (r: Option<State>)
    requires Shape(st) && i <= |st.inodes|
    decreases |st.inodes| - i
  {
    if i == |st.inodes| then Some(st)
    else if !Orphan(st.dinodes[i]) then ReclaimFrom(st, i + 1)
    else match FreeInode(st.(inodes := st.inodes[i := st.dinodes[i]]), i)
      case None => None
      case Some(st1) => ReclaimFrom(st1, i + 1)
  }

  /** Blocks owned by orphans numbered `i` or higher. */
  ghost function OrphanBlocks(dinodes: seq<Inode>, own: Owner, i: nat): set<nat> {
    set b | b in own && i <= own[b].0 < |dinodes| && Orphan(dinodes[own[b].0])
  }

  lemma OrphansSplit(dinodes: seq<Inode>, own: Owner, i: nat, ip: Inode)
    requires i < |dinodes|
    ensures !Orphan(dinodes[i]) ==> OrphanBlocks(dinodes, own, i) == OrphanBlocks(dinodes, own, i + 1)
    ensures Orphan(dinodes[i]) ==>
      var rest := OrphanBlocks(dinodes[i := ip], own - OwnedBy(own, i), i + 1);
      OrphanBlocks(dinodes, own, i) == OwnedBy(own, i) + rest && OwnedBy(own, i) !! rest
  {
  }

  lemma OrphansEnd(dinodes: seq<Inode>, own: Owner)
    ensures OrphanBlocks(dinodes, own, |dinodes|) == {}
  {
  }

  /** A state whose inodes are those of another, but for some that are empty, and
      whose blocks are the same, has no holes if that one has none. */
  lemma StillNoHoles(st: State, st': State)
    requires NoHoles(st) && |st'.inodes| == |st.inodes| && st'.disk == st.disk && st'.layout == st.layout
    requires forall j | 0 <= j < |st.inodes| :: st'.inodes[j] == st.inodes[j] || st'.inodes[j].size == 0
    ensures NoHoles(st')
  {
    forall j: nat, bn: nat | j < |st.inodes| && bn * BSIZE < st'.inodes[j].size ensures IsMapped(st', j, bn) {
      assert IsMapped(st, j, bn);
    }
  }

  lemma InodeFreed(st: State, own: Owner, i: nat) returns (own': Owner)
    requires Own(st, own) && i < |st.inodes|
    ensures FreeInode(st, i).Some? && (NoHoles(st) ==> NoHoles(FreeInode(st, i).value))
    ensures FreeInode(st, i).Some? && own' == own - OwnedBy(own, i)
    ensures var st' := FreeInode(st, i).value;
            && Own(st', own')
            && st'.used == st.used - OwnedBy(own, i) && |st'.used| == |st.used| - |OwnedBy(own, i)|
            && st'.disk == st.disk && st'.layout == st.layout && st'.size == st.size && st'.datastart == st.datastart
            && (forall s: nat | s < SlotCount(st.layout) :: st'.inodes[i].addrs[s] == 0)
            && st'.inodes[i].typ == 0 && st'.inodes[i].size == 0 && !Orphan(st'.inodes[i])
            && st'.inodes == st.inodes[i := st'.inodes[i]]
            && st'.dinodes == st.dinodes[i := st'.inodes[i]]
  {
    hide Addr;
    own' := TruncateFreesExactlyTheTree(st, own, i);
    var st1 := Truncate(st, i).value;
    TypeKeepsTree(st1, own', i);
    if NoHoles(st) {
      StillNoHoles(st, FreeInode(st, i).value);
    }
  }

  lemma TypeKeepsTree(st: State, own: Owner, i: nat)
    requires Own(st, own) && i < |st.inodes|
    ensures Own(Iupdate(st.(inodes := st.inodes[i := st.inodes[i].(typ := 0)]), i), own)
  {
    var st' := Iupdate(st.(inodes := st.inodes[i := st.inodes[i].(typ := 0)]), i);
    forall j: nat, q | j < |st.inodes| && PathOk(st.layout, q) ensures Addr(st', j, q) == Addr(st, j, q) {
    }
    forall b | b in own ensures RootedAt(st', own[b].0, own[b].1, b) {
      assert RootedAt(st, own[b].0, own[b].1, b);
    }
  }

  /** `ireclaim` from inode `i` on never panics; afterwards no inode from `i` on
      is an orphan; it gives back exactly the blocks the orphans owned; an inode
      that was no orphan is untouched, on the disk and in its blocks; and there are
      no holes if there were none. */
  lemma {:induction false} ReclaimFreesOrphans(st: State, own: Owner, i: nat) returns (own': Owner)
    requires Shape(st) && Own(st, own) && st.inodes == st.dinodes && i <= |st.inodes|
    ensures ReclaimFrom(st, i).Some?
    ensures var st' := ReclaimFrom(st, i).value;
            && Shape(st') && Own(st', own') && st'.inodes == st'.dinodes && |st'.inodes| == |st.inodes|
            && (forall j | i <= j < |st.inodes| :: !Orphan(st'.dinodes[j]))
            && (forall j | 0 <= j < |st.inodes| && (j < i || !Orphan(st.dinodes[j])) :: st'.inodes[j] == st.inodes[j])
            && st'.used == st.used - OrphanBlocks(st.dinodes, own, i)
            && |st'.used| == |st.used| - |OrphanBlocks(st.dinodes, own, i)|
            && st'.disk == st.disk && st'.layout == st.layout
            && (NoHoles(st) ==> NoHoles(st'))
    decreases |st.inodes| - i
  {
    hide NoHoles, Addr, Own, Orphan, OrphanBlocks, OwnedBy, FreeInode;
    OrphansEnd(st.dinodes, own);
    if i == |st.inodes| {
      own' := own;
    } else if !Orphan(st.dinodes[i]) {
      own' := ReclaimFreesOrphans(st, own, i + 1);
      OrphansSplit(st.dinodes, own, i, st.dinodes[i]);
    } else {
      assert st.inodes[i := st.dinodes[i]] == st.inodes;
      var own1 := InodeFreed(st, own, i);
      var st1 := FreeInode(st, i).value;
      own' := ReclaimFreesOrphans(st1, own1, i + 1);
      OrphansSplit(st.dinodes, own, i, st1.inodes[i]);
    }
  }

  /** A file whose inode and whose disk are unchanged keeps its bytes. */
  lemma UntouchedFile(st: State, st': State, j: nat)
    requires j < |st.inodes| && j < |st'.inodes| && st'.inodes[j] == st.inodes[j]
    requires st'.disk == st.disk && st'.layout == st.layout
    ensures Bytes(st', j) == Bytes(st, j)
  {
    forall p | PathOk(st.layout, p) ensures Addr(st', j, p) == Addr(st, j, p) {
    }
    forall o: nat ensures ByteAt(st', j, o) == ByteAt(st, j, o) {
    }
  }

  /** `ireclaim`, on the fields it looks at. Afterwards no inode from 1 on has a type
      and no links. An inode without a type, or with a link, keeps its inode and its
      bytes. The blocks given back are those of inodes with a type and no links. */
  lemma ReclaimOnFields(st: State, own: Owner)
    requires Shape(st) && Own(st, own) && st.inodes == st.dinodes && |st.inodes| >= 1
    ensures ReclaimFrom(st, 1).Some?
    ensures var st' := ReclaimFrom(st, 1).value;
            && |st'.dinodes| == |st'.inodes| == |st.inodes|
            && (forall j | 1 <= j < |st.inodes| :: st'.dinodes[j].typ == 0 || st'.dinodes[j].nlink >= 1)
            && (forall j: nat | j < |st.inodes| && (j == 0 || st.dinodes[j].typ == 0 || st.dinodes[j].nlink >= 1) ::
                 st'.inodes[j] == st.inodes[j] && st'.dinodes[j] == st.dinodes[j] && Bytes(st', j) == Bytes(st, j))
            && (forall j | 1 <= j < |st.inodes| && st.dinodes[j].typ != 0 && st.dinodes[j].nlink == 0 :: st'.dinodes[j].typ == 0)
            && forall b: nat :: b in st'.used <==>
                 b in st.used &&
                 !(b in own && 1 <= own[b].0 && st.dinodes[own[b].0].typ != 0 && st.dinodes[own[b].0].nlink == 0)
  {
    hide Addr;
    assert forall b | b in own :: RootedAt(st, own[b].0, own[b].1, b);
    var own' := ReclaimFreesOrphans(st, own, 1);
    var st' := ReclaimFrom(st, 1).value;
    OrphansLoseType(st, own, 1);
    forall j: nat | j < |st.inodes| && (j == 0 || st.dinodes[j].typ == 0 || st.dinodes[j].nlink >= 1)
      ensures Bytes(st', j) == Bytes(st, j)
    {
      UntouchedFile(st, st', j);
    }
  }

  lemma {:induction false} OrphansLoseType(st: State, own: Owner, i: nat)
    requires Shape(st) && Own(st, own) && st.inodes == st.dinodes && i <= |st.inodes|
    ensures var r := ReclaimFrom(st, i);
            r.Some? && |r.value.dinodes| == |st.dinodes| &&
            forall j | i <= j < |st.dinodes| && Orphan(st.dinodes[j]) :: r.value.dinodes[j].typ == 0
    decreases |st.inodes| - i
  {
    hide Addr, Own, Orphan, FreeInode;
    var own' := ReclaimFreesOrphans(st, own, i);
    if i < |st.inodes| {
      if !Orphan(st.dinodes[i]) {
        OrphansLoseType(st, own, i + 1);
      } else {
        assert st.inodes[i := st.dinodes[i]] == st.inodes;
        var own1 := InodeFreed(st, own, i);
        var st1 := FreeInode(st, i).value;
        OrphansLoseType(st1, own1, i + 1);
        var own2 := ReclaimFreesOrphans(st1, own1, i + 1);
      }
    }
  }

  /** With a link for every inode that has a type, booting changes nothing. */
  lemma {:induction false} NothingToReclaim(st: State, i: nat)
    requires Shape(st) && i <= |st.inodes|
    requires forall j | i <= j < |st.dinodes| && st.dinodes[j].typ != 0 :: st.dinodes[j].nlink >= 1
    ensures ReclaimFrom(st, i) == Some(st)
    decreases |st.inodes| - i
  {
    if i < |st.inodes| {
      NothingToReclaim(st, i + 1);
    }
  }
}
