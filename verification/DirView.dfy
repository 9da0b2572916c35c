/** What the inodes and directory files of a file system stand for: the inodes with
    link counts and maps of names over which `create`, `sys_link` and `sys_unlink` are
    described. Call by call, the code on the disk does what is described there. */
module DirView {
  import opened Blocks
  import opened Tree
  import opened Content
  import Itrunc
  import Reclaim
  import opened Directory
  import opened DirectoryOps
  import opened FileSystem
  import N = Namex
  import L = Links

  /** Inode `i` stands for a node: same kind, same count, and a directory's file for
      its map. */
  ghost predicate ShowsNode(st: State, i: nat, node: N.Node)
    requires i < |st.inodes|
  {
    && node.nlink == st.inodes[i].nlink
    && (node.DirNode? <==> st.inodes[i].typ == T_DIR)
    && (node.DirNode? ==> DirOk(Bytes(st, i)) && DirMap(Bytes(st, i)) == node.ents)
  }

  /** A free inode has no content. */
  predicate FreeAreEmpty(st: State) {
    forall i | 0 <= i < |st.inodes| && st.inodes[i].typ == 0 ::
      st.inodes[i].size == 0 && forall s: nat | s < SlotCount(st.layout) :: st.inodes[i].addrs[s] == 0
  }

  ghost predicate ShowsAll(st: State, nodes: N.Nodes) {
    && st.inodes == st.dinodes && NoHoles(st) && FreeAreEmpty(st)
    && (forall i: nat :: i in nodes <==> i < |st.inodes| && st.inodes[i].typ != 0)
    && (forall i: nat | i in nodes :: ShowsNode(st, i, nodes[i]))
  }

  /** The file system stands for these nodes. */
  ghost predicate Shows(fs: Fs, nodes: N.Nodes)
    reads fs
  {
    fs.Valid() && ShowsAll(fs.View(), nodes)
  }

  lemma ShownDir(fs: Fs, nodes: N.Nodes, d: nat)
    requires Shows(fs, nodes) && d in nodes && nodes[d].DirNode?
    ensures Ready(fs, d) && fs.inodes[d].typ == T_DIR && DirMap(Bytes(fs.View(), d)) == nodes[d].ents
  {
    assert ShowsNode(fs.View(), d, nodes[d]);
  }

  /** When only the content of directory `d` changes, only its map changes. */
  lemma OnlyMap(st: State, st': State, nodes: N.Nodes, d: nat, ents: map<Name, nat>)
    requires ShowsAll(st, nodes) && d in nodes && nodes[d].DirNode? && OnlyContent(st, st', d) && NoHoles(st')
    requires DirOk(Bytes(st', d)) && DirMap(Bytes(st', d)) == ents
    ensures ShowsAll(st', nodes[d := nodes[d].(ents := ents)])
  {
    hide NoHoles, Bytes, DirOk, DirMap;
    var nodes' := nodes[d := nodes[d].(ents := ents)];
    forall i: nat | i in nodes' ensures ShowsNode(st', i, nodes'[i]) {
      assert ShowsNode(st, i, nodes[i]);
    }
  }

  lemma SameContent(st: State, st': State, nodes: N.Nodes, d: nat)
    requires ShowsAll(st, nodes) && d in nodes && OnlyContent(st, st', d) && NoHoles(st') && Bytes(st', d) == Bytes(st, d)
    ensures ShowsAll(st', nodes)
  {
    hide NoHoles, Bytes, DirOk, DirMap;
    forall i: nat | i in nodes ensures ShowsNode(st', i, nodes[i]) {
      assert ShowsNode(st, i, nodes[i]);
    }
  }

  // ---- call by call ----

  method Lookup(fs: Fs, ghost nodes: N.Nodes, d: nat, name: seq<byte>) returns (inum: nat, off: nat)
    requires Shows(fs, nodes) && d in nodes && nodes[d].DirNode?
    modifies fs
    ensures Shows(fs, nodes) && fs.View() == old(fs.View())
    ensures if Canon(name) in nodes[d].ents then inum == nodes[d].ents[Canon(name)] != 0 else inum == 0
    ensures inum != 0 ==> var c := Bytes(fs.View(), d); Find(c, name, 0) < Count(c) && off == Find(c, name, 0) * DIRENT
  {
    hide NoHoles, Bytes, DirOk, DirMap, Find;
    ShownDir(fs, nodes, d);
    var panicked;
    inum, off, panicked := Dirlookup(fs, d, name);
  }

  /** The effect of `dirlink` on the nodes, and the meaning of `room`: when an entry
      cannot be written the disk is full or the directory at its largest. */
  method Link(fs: Fs, ghost nodes: N.Nodes, d: nat, name: seq<byte>, inum: nat) returns (ret: int, ghost room: bool)
    requires Shows(fs, nodes) && d in nodes && nodes[d].DirNode? && 0 < inum < 0x1_0000
    modifies fs
    ensures ret == if Canon(name) !in nodes[d].ents && room then 0 else -1
    ensures Shows(fs, if ret == 0 then L.WithEnt(nodes, d, Canon(name), inum) else nodes)
    ensures !room ==> NoRoom(fs.View(), d)
    ensures OnlyContent(old(fs.View()), fs.View(), d)
    ensures old(DotsInFront(Bytes(fs.View(), d))) ==> DotsInFront(Bytes(fs.View(), d))
  {
    hide NoHoles, Bytes, DirMap, Canon, DotsInFront, Directory.PutEntry;
    ShownDir(fs, nodes, d);
    ghost var st := fs.View();
    ghost var c := Bytes(st, d);
    var panicked;
    ret, panicked := Dirlink(fs, d, name, inum);
    room := ret == 0 || Canon(name) in nodes[d].ents;
    if ret == 0 {
      OnlyMap(st, fs.View(), nodes, d, nodes[d].ents[Canon(name) := inum]);
      if DotsInFront(c) {
        LinkKeepsDots(c, MakeEntry(inum, name));
      }
    } else {
      SameContent(st, fs.View(), nodes, d);
    }
  }

  /** The clearing write of `sys_unlink`. */
  method Clear(fs: Fs, ghost nodes: N.Nodes, d: nat, ghost name: seq<byte>, off: nat)
    requires Shows(fs, nodes) && d in nodes && nodes[d].DirNode?
    requires var c := Bytes(fs.View(), d); Find(c, name, 0) < Count(c) && off == Find(c, name, 0) * DIRENT
    modifies fs
    ensures Shows(fs, L.WithoutEnt(nodes, d, Canon(name)))
    ensures OnlyContent(old(fs.View()), fs.View(), d)
    ensures Proper(Canon(name)) && old(DotsInFront(Bytes(fs.View(), d))) ==> DotsInFront(Bytes(fs.View(), d))
  {
    hide NoHoles, Bytes, DirMap, Canon, DotsInFront, Directory.PutEntry, Find;
    ShownDir(fs, nodes, d);
    ghost var st := fs.View();
    ghost var c := Bytes(st, d);
    var panicked := ClearEntry(fs, d, name, off);
    OnlyMap(st, fs.View(), nodes, d, nodes[d].ents - {Canon(name)});
    if Proper(Canon(name)) && DotsInFront(c) {
      ClearKeepsDots(c, name, Zeros());
    }
  }

  /** The scan of `isdirempty` decides whether the directory may be removed. */
  method IsEmpty(fs: Fs, ghost nodes: N.Nodes, d: nat) returns (empty: bool)
    requires Shows(fs, nodes) && d in nodes && nodes[d].DirNode? && DotsInFront(Bytes(fs.View(), d))
    modifies fs
    ensures Shows(fs, nodes) && fs.View() == old(fs.View())
    ensures empty == L.Removable(nodes, d)
  {
    hide NoHoles, Bytes, DirMap, DotsInFront, NoEntryFrom;
    ShownDir(fs, nodes, d);
    IsDirEmptyProper(Bytes(fs.View(), d));
    var panicked;
    empty, panicked := Isdirempty(fs, d);
  }

  /** Writing an inode's type or count keeps all trees and all contents. */
  lemma CountKeepsContent(st: State, own: Owner, i: nat, k: nat)
    requires Own(st, own) && NoHoles(st) && i < |st.inodes|
    ensures var st' := Itrunc.Iupdate(st.(inodes := st.inodes[i := st.inodes[i].(nlink := k)]), i);
            Own(st', own) && NoHoles(st') && forall j: nat | j < |st.inodes| :: Bytes(st', j) == Bytes(st, j)
  {
    var st' := Itrunc.Iupdate(st.(inodes := st.inodes[i := st.inodes[i].(nlink := k)]), i);
    forall j: nat, q | j < |st.inodes| && PathOk(st.layout, q) ensures Addr(st', j, q) == Addr(st, j, q) {
    }
    forall b | b in own ensures RootedAt(st', own[b].0, own[b].1, b) {
      assert RootedAt(st, own[b].0, own[b].1, b);
    }
    forall j: nat, o: nat | j < |st.inodes| ensures ByteAt(st', j, o) == ByteAt(st, j, o) {
    }
    forall j: nat, bn: nat | j < |st.inodes| && bn * BSIZE < st'.inodes[j].size ensures IsMapped(st', j, bn) {
      assert IsMapped(st, j, bn);
    }
  }

  lemma CountShown(st: State, own: Owner, nodes: N.Nodes, i: nat, k: nat)
    requires Own(st, own) && ShowsAll(st, nodes) && i in nodes
    ensures i < |st.inodes|
    ensures var st' := Itrunc.Iupdate(st.(inodes := st.inodes[i := st.inodes[i].(nlink := k)]), i);
            && Own(st', own) && ShowsAll(st', L.WithLinks(nodes, i, k))
            && forall j: nat | j < |st.inodes| :: Bytes(st', j) == Bytes(st, j)
  {
    hide Own, NoHoles, Bytes, DirOk, DirMap;
    CountKeepsContent(st, own, i, k);
    var st' := Itrunc.Iupdate(st.(inodes := st.inodes[i := st.inodes[i].(nlink := k)]), i);
    forall j: nat | j in nodes ensures ShowsNode(st', j, L.WithLinks(nodes, i, k)[j]) {
      assert ShowsNode(st, j, nodes[j]);
    }
  }

  /** Setting `ip->nlink`, and `iupdate`. */
  method SetLinks(fs: Fs, ghost nodes: N.Nodes, i: nat, k: nat)
    requires Shows(fs, nodes) && i in nodes
    modifies fs
    ensures Shows(fs, L.WithLinks(nodes, i, k)) && |fs.inodes| == old(|fs.inodes|)
    ensures forall j: nat | j < |fs.inodes| :: Bytes(fs.View(), j) == old(Bytes(fs.View(), j))
  {
    hide Own, ShowsAll;
    ghost var st := fs.View();
    CountShown(st, fs.own, nodes, i, k);
    fs.inodes := fs.inodes[i := fs.inodes[i].(nlink := k)];
    fs.dinodes := fs.dinodes[i := fs.inodes[i]];
    assert fs.View() == Itrunc.Iupdate(st.(inodes := st.inodes[i := st.inodes[i].(nlink := k)]), i);
  }

  /** The freeing branch of `iput`: the node is gone, and all others are as before. */
  method Free(fs: Fs, ghost nodes: N.Nodes, i: nat)
    requires Shows(fs, nodes) && i in nodes
    modifies fs
    ensures Shows(fs, nodes - {i}) && |fs.inodes| == old(|fs.inodes|) && Bytes(fs.View(), i) == []
    ensures forall j: nat | j < |fs.inodes| && j != i :: Bytes(fs.View(), j) == old(Bytes(fs.View(), j))
  {
    hide ShowsAll, Reclaim.FreeInode;
    FreeShown(fs.View(), fs.own, nodes, i);
    var panicked := fs.FreeInode(i);
  }

  lemma FreeShown(st: State, own: Owner, nodes: N.Nodes, i: nat)
    requires Own(st, own) && ShowsAll(st, nodes) && i in nodes
    ensures i < |st.inodes| && Reclaim.FreeInode(st, i).Some?
    ensures var st' := Reclaim.FreeInode(st, i).value;
            && ShowsAll(st', nodes - {i}) && |st'.inodes| == |st.inodes| && Bytes(st', i) == []
            && forall j: nat | j < |st.inodes| && j != i :: Bytes(st', j) == Bytes(st, j)
  {
    hide NoHoles, Placed, Rooted, Bytes, DirOk, DirMap, Reclaim.FreeInode;
    var own' := Reclaim.InodeFreed(st, own, i);
    var st' := Reclaim.FreeInode(st, i).value;
    forall j: nat | j < |st.inodes| && j != i ensures Bytes(st', j) == Bytes(st, j) {
      Reclaim.UntouchedFile(st, st', j);
    }
    forall j: nat | j in nodes && j != i ensures ShowsNode(st', j, nodes[j]) {
      assert ShowsNode(st, j, nodes[j]);
    }
  }

  // ---- ialloc ----

  function Cleared(typ: nat): Inode {
    Inode(typ, 0, 0, seq(NSLOTS, _ => 0))
  }

  lemma ClaimKeepsContent(st: State, own: Owner, i: nat, typ: nat)
    requires Own(st, own) && NoHoles(st) && FreeAreEmpty(st) && i < |st.inodes| && st.inodes[i].typ == 0 && st.inodes == st.dinodes
    ensures var st' := Itrunc.Iupdate(st.(inodes := st.inodes[i := Cleared(typ)]), i);
            Own(st', own) && NoHoles(st') && forall j: nat | j < |st.inodes| :: Bytes(st', j) == Bytes(st, j)
  {
    var st' := Itrunc.Iupdate(st.(inodes := st.inodes[i := Cleared(typ)]), i);
    forall j: nat, q | j < |st.inodes| && PathOk(st.layout, q) ensures Addr(st', j, q) == Addr(st, j, q) {
    }
    forall b | b in own ensures RootedAt(st', own[b].0, own[b].1, b) {
      assert RootedAt(st, own[b].0, own[b].1, b);
    }
    forall j: nat, o: nat | j < |st.inodes| ensures ByteAt(st', j, o) == ByteAt(st, j, o) {
    }
    forall j: nat, bn: nat | j < |st.inodes| && bn * BSIZE < st'.inodes[j].size ensures IsMapped(st', j, bn) {
      assert IsMapped(st, j, bn);
    }
  }

  lemma ClaimShown(st: State, own: Owner, nodes: N.Nodes, i: nat, typ: nat)
    requires Own(st, own) && ShowsAll(st, nodes) && i < |st.inodes| && st.inodes[i].typ == 0 && typ != 0
    ensures var st' := Itrunc.Iupdate(st.(inodes := st.inodes[i := Cleared(typ)]), i);
            Own(st', own) && i !in nodes
            && ShowsAll(st', nodes[i := if typ == T_DIR then N.DirNode(0, map[]) else N.FileNode(0)])
            && forall j: nat | j < |st.inodes| :: Bytes(st', j) == Bytes(st, j)
  {
    hide Own, NoHoles, DirOk;
    ClaimKeepsContent(st, own, i, typ);
    var st' := Itrunc.Iupdate(st.(inodes := st.inodes[i := Cleared(typ)]), i);
    var nodes' := nodes[i := if typ == T_DIR then N.DirNode(0, map[]) else N.FileNode(0)];
    EmptyDir();
    assert Bytes(st', i) == [];
    forall j: nat | j in nodes' ensures ShowsNode(st', j, nodes'[j]) {
      if j != i {
        assert ShowsNode(st, j, nodes[j]);
      }
    }
  }

  lemma EmptyDir()
    ensures DirOk([]) && DirMap([]) == map[]
  {
  }

  /** `ialloc`: the first free inode from number 1 on, all zero but for its type; none
      when every number below `|dinodes|` is taken. */
  method Allocate(fs: Fs, ghost nodes: N.Nodes, typ: nat) returns (inum: Option<nat>)
    requires Shows(fs, nodes) && typ != 0
    modifies fs
    ensures Shows(fs, if inum.None? then nodes
                      else nodes[inum.value := if typ == T_DIR then N.DirNode(0, map[]) else N.FileNode(0)])
    ensures |fs.inodes| == old(|fs.inodes|) && (inum.Some? ==> inum.value < |fs.inodes| && fs.inodes[inum.value].typ == typ)
    ensures forall j: nat | j < |fs.inodes| :: Bytes(fs.View(), j) == old(Bytes(fs.View(), j))
    ensures inum.None? ==> fs.View() == old(fs.View()) && forall i | 1 <= i < |fs.inodes| :: i in nodes
    ensures inum.Some? ==> 1 <= inum.value && inum.value !in nodes && forall i | 1 <= i < inum.value :: i in nodes
  {
    hide Own, NoHoles, FreeAreEmpty, ShowsNode;
    inum := None;
    var i := 1;
    while i < |fs.dinodes|
      invariant 1 <= i && fs.View() == old(fs.View()) && Shows(fs, nodes) && inum == None
      invariant forall j | 1 <= j < i && j < |fs.inodes| :: j in nodes
    {
      if fs.dinodes[i].typ == 0 {
        ghost var st := fs.View();
        ClaimShown(st, fs.own, nodes, i, typ);
        fs.dinodes := fs.dinodes[i := Cleared(typ)];
        fs.inodes := fs.inodes[i := fs.dinodes[i]];
        assert fs.View() == Itrunc.Iupdate(st.(inodes := st.inodes[i := Cleared(typ)]), i);
        return Some(i);
      }
      i := i + 1;
    }
  }
}
