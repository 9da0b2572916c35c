/** `create`, `sys_link` and `sys_unlink`, step by step with their failure paths,
    over the inode table. */
module LinkOps {
  import opened Blocks
  import opened Directory
  import opened Paths
  import opened Namex
  import opened Links

  ghost predicate Ready(t: Table)
    reads t
  {
    t.Valid() && t.locked == {} && Sound(t.nodes, t.refs, t.root)
  }

  function Start(t: Table, path: Path): nat
    reads t
  {
    if path != [] && path[0] == SLASH then t.root else t.cwd
  }

  // ---- pieces ----

  /** The first free inode number from 1 on. */
  predicate LowestFree(nodes: Nodes, ip: nat, ninodes: nat) {
    1 <= ip < ninodes && ip !in nodes && forall i | 1 <= i < ip :: i in nodes
  }

  /** `ialloc`: the first free inode number, with a reference; no links yet. */
  method Ialloc(t: Table, ninodes: nat, node: Node) returns (ip: Option<nat>, panicked: bool)
    requires t.Valid() && node.nlink == 0
    modifies t`nodes, t`refs
    ensures panicked ==> |old(t.refs)| >= NINODE
    ensures !panicked && ip.None? ==>
              t.nodes == old(t.nodes) && t.refs == old(t.refs) && forall i | 1 <= i < ninodes :: i in t.nodes
    ensures !panicked && ip.Some? ==>
              && LowestFree(old(t.nodes), ip.value, ninodes)
              && t.nodes == old(t.nodes)[ip.value := node] && t.refs == Get(old(t.refs), ip.value)
  {
    ip, panicked := None, false;
    var inum := 1;
    while inum < ninodes
      invariant 1 <= inum && t.nodes == old(t.nodes) && t.refs == old(t.refs)
      invariant forall i | 1 <= i < inum :: i in t.nodes
    {
      if inum !in t.nodes {
        t.nodes := t.nodes[inum := node];
        panicked := t.Iget(inum);
        return Some(inum), panicked;
      }
      inum := inum + 1;
    }
  }

  /** `dirlookup` with the reference it takes. */
  method Dirlookup(t: Table, dp: nat, name: Name) returns (ip: Option<nat>, panicked: bool)
    requires dp in t.nodes && t.nodes[dp].DirNode?
    modifies t`refs
    ensures panicked ==> name in t.nodes[dp].ents && |old(t.refs)| >= NINODE
    ensures ip == if name in t.nodes[dp].ents then Some(t.nodes[dp].ents[name]) else None
    ensures !panicked ==> t.refs == if ip.Some? then Get(old(t.refs), ip.value) else old(t.refs)
  {
    ip, panicked := None, false;
    if name in t.nodes[dp].ents {
      ip := Some(t.nodes[dp].ents[name]);
      panicked := t.Iget(ip.value);
    }
  }

  /** `dirlink`: `room` says whether the write of the entry succeeds. */
  method Dirlink(t: Table, dp: nat, name: Name, inum: nat, room: bool) returns (ret: int, panicked: bool)
    requires dp in t.nodes && t.nodes[dp].DirNode? && Counts(t.refs)
    requires name in t.nodes[dp].ents ==> Linked(t.nodes, t.nodes[dp].ents[name])
    modifies t`refs, t`nodes
    ensures panicked ==> name in old(t.nodes)[dp].ents && |old(t.refs)| >= NINODE
    ensures !panicked ==>
              && t.refs == old(t.refs)
              && ret == (if name !in old(t.nodes)[dp].ents && room then 0 else -1)
              && t.nodes == if ret == 0 then WithEnt(old(t.nodes), dp, name, inum) else old(t.nodes)
  {
    hide Get, Put;
    ret := -1;
    var ip;
    ip, panicked := Dirlookup(t, dp, name);
    if panicked {
      return;
    }
    if ip.Some? {
      GetKeeps(old(t.refs), ip.value);
      LinkedStays(t.nodes, t.refs, ip.value);
      t.Iput(ip.value);
      return;
    }
    if room {
      t.nodes := WithEnt(t.nodes, dp, name, inum);
      ret := 0;
    }
  }

  // ---- what counts do not change ----

  ghost predicate SameDirs(nodes: Nodes, nodes': Nodes) {
    forall d: nat :: (d in nodes && nodes[d].DirNode? <==> d in nodes' && nodes'[d].DirNode?) &&
                     (d in nodes && nodes[d].DirNode? ==> nodes[d].ents == nodes'[d].ents)
  }

  lemma {:induction false} SameFollow(nodes: Nodes, nodes': Nodes, d: nat, names: seq<Name>)
    requires SameDirs(nodes, nodes')
    ensures Follow(nodes, d, names) == Follow(nodes', d, names)
    decreases |names|
  {
    if names != [] && d in nodes && nodes[d].DirNode? && names[0] in nodes[d].ents {
      SameFollow(nodes, nodes', nodes[d].ents[names[0]], names[1..]);
    }
  }

  lemma SameAnswer(nodes: Nodes, nodes': Nodes, start: nat, p: Path, parent: bool)
    requires SameDirs(nodes, nodes')
    ensures Answer(nodes, start, p, parent) == Answer(nodes', start, p, parent)
  {
    var names := Components(p);
    SameFollow(nodes, nodes', start, names);
    if names != [] {
      SameFollow(nodes, nodes', start, names[..|names| - 1]);
    }
  }

  lemma ParentIsDir(nodes: Nodes, start: nat, p: Path)
    ensures var a := Answer(nodes, start, p, true);
            a.Some? ==> a.value.0 in nodes && nodes[a.value.0].DirNode?
  {
  }

  lemma OneMore(nodes: Nodes, i: nat)
    requires i in nodes && nodes[i].FileNode? && Closed(nodes)
    ensures var nodes' := WithLinks(nodes, i, nodes[i].nlink + 1);
            && Closed(nodes') && SameDirs(nodes, nodes') && (forall d | Linked(nodes, d) :: Linked(nodes', d))
            && (forall d: nat :: LiveDir(nodes', d) <==> LiveDir(nodes, d))
            && (forall d: nat | LiveDir(nodes, d) :: nodes'[d] == nodes[d])
            && i in nodes' && nodes'[i] == FileNode(nodes[i].nlink + 1) && WithLinks(nodes', i, nodes[i].nlink) == nodes
  {
    var nodes' := WithLinks(nodes, i, nodes[i].nlink + 1);
    assert forall d: nat :: Linked(nodes, d) ==> Linked(nodes', d);
  }

  // ---- sys_link ----

  /** The label "bad" of `sys_link`: take the link back. */
  method TakeBack(t: Table, ip: nat) returns (panicked: bool)
    requires ip in t.refs && t.refs[ip] >= 1 && ip !in t.locked && ip in t.nodes && t.nodes[ip].nlink >= 2
    modifies t`nodes, t`refs, t`locked
    ensures !panicked
    ensures t.nodes == WithLinks(old(t.nodes), ip, old(t.nodes)[ip].nlink - 1)
    ensures t.refs == Put(old(t.refs), ip) && t.locked == old(t.locked)
  {
    hide Get, Put;
    panicked := t.Ilock(ip);
    t.nodes := WithLinks(t.nodes, ip, t.nodes[ip].nlink - 1);
    LinkedStays(t.nodes, t.refs, ip);
    t.Iunlockput(ip);
  }

  /** `sys_link` after it has counted the link: find the new parent, write the
      entry, or take the link back. */
  method NameIt(t: Table, ip: nat, dst: Path, room: bool) returns (ret: int, panicked: bool)
    requires t.Valid() && t.locked == {} && ip in t.refs && t.refs[ip] >= 1
    requires ip in t.nodes && t.nodes[ip].FileNode? && t.nodes[ip].nlink >= 2
    modifies t`nodes, t`refs, t`locked
    ensures panicked ==> |old(t.refs)| + 1 >= NINODE
    ensures !panicked ==> t.refs == Put(old(t.refs), ip) && t.locked == {} && (ret == 0 || ret == -1)
    ensures !panicked ==>
              var at := old(Answer(t.nodes, Start(t, dst), dst, true));
              && (at.Some? ==> LiveDir(old(t.nodes), at.value.0))
              && (ret == 0 <==> room && at.Some? && at.value.1 !in old(t.nodes)[at.value.0].ents)
              && t.nodes == if ret == 0 then WithEnt(old(t.nodes), at.value.0, at.value.1, ip)
                            else WithLinks(old(t.nodes), ip, old(t.nodes)[ip].nlink - 1)
  {
    hide Get, Put, Counts, Dropped, Closed, Answer;
    ret := -1;
    var found, name;
    found, name, panicked := t.Namex(dst, true);
    if panicked {
      return;
    }
    if found.None? {
      panicked := TakeBack(t, ip);
      return;
    }
    var dp := found.value;
    GetKeeps(old(t.refs), dp);
    ParentIsDir(t.nodes, Start(t, dst), dst);
    panicked := t.Ilock(dp);
    if name in t.nodes[dp].ents {
      NamesLinked(t.nodes, dp, name);
    }
    ret, panicked := Dirlink(t, dp, name, ip, room);
    if panicked {
      return;
    }
    LinkedStays(t.nodes, t.refs, dp);
    t.Iunlockput(dp);
    assert t.locked == {};
    if ret < 0 {
      panicked := TakeBack(t, ip);
      return;
    }
    LinkedStays(t.nodes, t.refs, ip);
    t.Iput(ip);
  }

  /** `sys_link` succeeds exactly when the old path names a file, the new one a
      name that is free in an existing directory, and the entry can be written;
      then it adds that name and one link. When it fails nothing has changed. */
  method SysLink(t: Table, src: Path, dst: Path, room: bool) returns (ret: int, panicked: bool)
    requires Ready(t)
    modifies t`nodes, t`refs, t`locked
    ensures panicked ==> |old(t.refs)| + 2 >= NINODE
    ensures !panicked ==> Ready(t) && t.refs == old(t.refs) && (ret == 0 || ret == -1)
    ensures !panicked ==>
              var ip := old(Answer(t.nodes, Start(t, src), src, false));
              var at := old(Answer(t.nodes, Start(t, dst), dst, true));
              && (ret == 0 <==> room && ip.Some? && at.Some? && Allowed(old(t.nodes), Link(at.value.0, at.value.1, ip.value.0)))
              && t.nodes == if ret == 0 then Changed(old(t.nodes), Link(at.value.0, at.value.1, ip.value.0)) else old(t.nodes)
  {
    hide Get, Put, Counts, Dropped, Closed, Answer, Sound, SameDirs, Changed, Allowed, WithEnt, WithLinks;
    ghost var nodes0, refs0 := t.nodes, t.refs;
    ret := -1;
    var found, name;
    found, name, panicked := t.Namex(src, false);
    if panicked || found.None? {
      return;
    }
    var ip := found.value;
    GetKeeps(refs0, ip);
    panicked := t.Ilock(ip);
    ghost var at := Answer(nodes0, Start(t, dst), dst, true);
    if t.nodes[ip].DirNode? {
      if at.Some? {
        OnlyFiles(nodes0, at.value.0, at.value.1, ip);
      }
      LinkedStays(t.nodes, t.refs, ip);
      t.Iunlockput(ip);
      return;
    }
    OneMore(nodes0, ip);
    t.nodes := WithLinks(t.nodes, ip, t.nodes[ip].nlink + 1);
    SameAnswer(nodes0, t.nodes, Start(t, dst), dst, true);
    t.Iunlock(ip);
    ret, panicked := NameIt(t, ip, dst, room);
    if !panicked && at.Some? {
      ghost var c := Link(at.value.0, at.value.1, ip);
      LinkIs(nodes0, c);
      if ret == 0 {
        LinkDone(nodes0, refs0, t.root, c);
      }
    } else if !panicked && at.None? {
      SoundIsClosed(nodes0, refs0, t.root);
    }
  }

  lemma LinkIs(nodes: Nodes, c: Change)
    requires c.Link? && LiveDir(nodes, c.dp) && Linked(nodes, c.ip)
    ensures Allowed(nodes, c) <==> nodes[c.ip].FileNode? && c.name !in nodes[c.dp].ents
    ensures Allowed(nodes, c) ==>
              Changed(nodes, c) == WithEnt(WithLinks(nodes, c.ip, nodes[c.ip].nlink + 1), c.dp, c.name, c.ip)
  {
  }

  lemma LinkDone(nodes: Nodes, refs: Refs, root: nat, c: Change)
    requires Sound(nodes, refs, root) && Allowed(nodes, c) && c.Link?
    ensures Sound(Changed(nodes, c), refs, root) && Closed(Changed(nodes, c))
    ensures forall d: nat | Linked(nodes, d) :: Linked(Changed(nodes, c), d)
  {
    hide Sound, Closed;
    EventKeepsSound(nodes, refs, root, Make(c));
    SoundIsClosed(Changed(nodes, c), refs, root);
  }

  lemma OnlyFiles(nodes: Nodes, dp: nat, name: Name, ip: nat)
    requires ip in nodes && nodes[ip].DirNode?
    ensures !Allowed(nodes, Link(dp, name, ip))
  {
  }

  lemma SoundIsClosed(nodes: Nodes, refs: Refs, root: nat)
    requires Sound(nodes, refs, root)
    ensures Closed(nodes) && LiveDir(nodes, root)
  {
  }

  // ---- sys_unlink ----

  /** The changes of an unlink, one after another. */
  lemma UnlinkIs(nodes: Nodes, dp: nat, name: Name)
    requires var c := Unlink(dp, name); Allowed(nodes, c) && Fits(nodes, c)
    ensures dp in nodes && nodes[dp].DirNode? && name in nodes[dp].ents
    ensures var ip := nodes[dp].ents[name];
            var cut := WithoutEnt(nodes, dp, name);
            && ip != dp && ip in nodes && dp in cut && ip in cut && cut[ip] == nodes[ip]
            && var less := if cut[ip].DirNode? then WithLinks(cut, dp, Less(cut[dp].nlink)) else cut;
               && (cut[ip].DirNode? ==> Less(cut[dp].nlink) == cut[dp].nlink - 1)
               && Linked(less, dp) && ip in less && Less(less[ip].nlink) == less[ip].nlink - 1
               && Changed(nodes, Unlink(dp, name)) == WithLinks(less, ip, Less(less[ip].nlink))
  {
  }

  /** `sys_unlink` after its checks, with both inodes locked. */
  method Remove(t: Table, dp: nat, name: Name, ip: nat, ghost refs0: Refs)
    requires var c := Unlink(dp, name);
             Allowed(t.nodes, c) && Fits(t.nodes, c) && ip == t.nodes[dp].ents[name]
    requires Counts(refs0) && t.refs == Get(Get(refs0, dp), ip) && t.locked == {dp, ip}
    modifies t`nodes, t`refs, t`locked
    ensures t.nodes == Dropped(Changed(old(t.nodes), Unlink(dp, name)), Get(refs0, ip), ip)
    ensures t.refs == refs0 && t.locked == {}
  {
    hide Get, Put, Counts, Dropped, Changed, Fits, WithoutEnt, WithLinks, Allowed;
    ghost var nodes0 := t.nodes;
    UnlinkIs(nodes0, dp, name);
    Moves(refs0, dp, ip);
    GetKeeps(refs0, ip);
    t.nodes := WithoutEnt(t.nodes, dp, name);
    if t.nodes[ip].DirNode? {
      t.nodes := WithLinks(t.nodes, dp, t.nodes[dp].nlink - 1);
    }
    LinkedStays(t.nodes, t.refs, dp);
    t.Iunlockput(dp);
    assert t.locked == {ip};
    t.nodes := WithLinks(t.nodes, ip, t.nodes[ip].nlink - 1);
    assert t.nodes == Changed(nodes0, Unlink(dp, name));
    t.Iunlockput(ip);
  }

  /** `sys_unlink` succeeds exactly when the path names, in an existing directory
      and by a name other than "." and "..", a file or an empty directory; then
      that name and that link are gone, and so is the inode if it was the last one
      and nobody holds it. When it fails nothing has changed. Removing the current
      directory leaves it without links. */
  method SysUnlink(t: Table, path: Path) returns (ret: int, panicked: bool)
    requires Ready(t)
    modifies t`nodes, t`refs, t`locked
    ensures panicked ==> |old(t.refs)| + 1 >= NINODE
    ensures !panicked ==> t.refs == old(t.refs) && t.locked == {} && (ret == 0 || ret == -1)
    ensures !panicked ==>
              var at := old(Answer(t.nodes, Start(t, path), path, true));
              && (ret == 0 <==> at.Some? && Allowed(old(t.nodes), Unlink(at.value.0, at.value.1)))
              && t.nodes == if ret == 0 then AfterUnlink(old(t.nodes), old(t.refs), Unlink(at.value.0, at.value.1)) else old(t.nodes)
    ensures !panicked ==> Sound(t.nodes, t.refs, t.root) && (Linked(t.nodes, t.cwd) ==> Ready(t))
  {
    hide Get, Put, Counts, Dropped, Closed, Answer, Sound, Changed, Fits;
    ghost var nodes0, refs0 := t.nodes, t.refs;
    ret := -1;
    var found, name;
    found, name, panicked := t.Namex(path, true);
    if panicked || found.None? {
      return;
    }
    var dp := found.value;
    GetKeeps(refs0, dp);
    ParentIsDir(nodes0, Start(t, path), path);
    panicked := t.Ilock(dp);
    if name == Dot() || name == DotDot() {
      LinkedStays(t.nodes, t.refs, dp);
      t.Iunlockput(dp);
      return;
    }
    var entry;
    entry, panicked := Dirlookup(t, dp, name);
    if panicked {
      return;
    }
    if entry.None? {
      LinkedStays(t.nodes, t.refs, dp);
      t.Iunlockput(dp);
      return;
    }
    var ip := entry.value;
    NamesLinked(nodes0, dp, name);
    Apart(nodes0, refs0, t.root, dp, name);
    Moves(refs0, dp, ip);
    GetKeeps(Get(refs0, dp), ip);
    panicked := t.Ilock(ip);
    if t.nodes[ip].nlink < 1 {
      panicked := true;
      return;
    }
    if t.nodes[ip].DirNode? && !Removable(t.nodes, ip) {
      LinkedStays(t.nodes, t.refs, ip);
      t.Iunlockput(ip);
      assert t.locked == {dp};
      LinkedStays(t.nodes, t.refs, dp);
      t.Iunlockput(dp);
      return;
    }
    UnlinkDone(nodes0, refs0, t.root, Unlink(dp, name));
    Remove(t, dp, name, ip, refs0);
    ret := 0;
  }

  function AfterUnlink(nodes: Nodes, refs: Refs, c: Change): Nodes
    requires c.Unlink? && Allowed(nodes, c)
  {
    var ip := nodes[c.dp].ents[c.name];
    Dropped(Changed(nodes, c), Get(refs, ip), ip)
  }

  lemma Apart(nodes: Nodes, refs: Refs, root: nat, dp: nat, name: Name)
    requires Sound(nodes, refs, root) && LiveDir(nodes, dp) && name in nodes[dp].ents && Proper(name)
    ensures nodes[dp].ents[name] != dp
  {
    hide Counted, Referenced, Closed, Homes, DeadAreEmpty;
    var spots :| Tree(nodes, root, spots);
    if nodes[dp].ents[name] == dp {
      ParentOf(nodes, root, spots, dp, name, dp);
    }
  }

  lemma UnlinkDone(nodes: Nodes, refs: Refs, root: nat, c: Change)
    requires Sound(nodes, refs, root) && Allowed(nodes, c) && c.Unlink?
    ensures Fits(nodes, c) && Sound(AfterUnlink(nodes, refs, c), refs, root)
    ensures Closed(AfterUnlink(nodes, refs, c)) && LiveDir(AfterUnlink(nodes, refs, c), root)
  {
    hide Sound, Fits, Changed, Get, Put, Counts, Dropped;
    var ip := nodes[c.dp].ents[c.name];
    NameIsLinked(nodes, refs, root, c.dp, c.name);
    GetKeeps(refs, ip);
    EventKeepsSound(nodes, refs, root, Hold(ip));
    EventKeepsSound(nodes, Get(refs, ip), root, Make(c));
    EventKeepsSound(Changed(nodes, c), Get(refs, ip), root, Drop(ip));
    SoundIsClosed(AfterUnlink(nodes, refs, c), refs, root);
  }

  lemma NameIsLinked(nodes: Nodes, refs: Refs, root: nat, d: nat, n: Name)
    requires Sound(nodes, refs, root) && LiveDir(nodes, d) && n in nodes[d].ents
    ensures Linked(nodes, nodes[d].ents[n]) && Counts(refs)
  {
    SoundIsClosed(nodes, refs, root);
  }

  // ---- create ----

  datatype Kind = T_FILE | T_DEVICE | T_DIR

  /** What `ialloc` and `create` write for a new inode, before any entry. */
  function Blank(kind: Kind, nlink: nat): Node {
    if kind.T_DIR? then DirNode(nlink, map[]) else FileNode(nlink)
  }

  function Creation(kind: Kind, dp: nat, name: Name, ip: nat): Change {
    if kind.T_DIR? then NewDir(dp, name, ip) else NewFile(dp, name, ip)
  }

  /** Whether each `dirlink` can write its entry: ".", "..", and the name. */
  datatype Room = Room(dot: bool, dotdot: bool, name: bool)

  predicate Suffices(room: Room, kind: Kind) {
    room.name && (kind.T_DIR? ==> room.dot && room.dotdot)
  }

  /** The entries "." and ".." of a new directory. */
  method Dots(t: Table, ip: nat, dp: nat, room: Room) returns (ok: bool)
    requires ip in t.nodes && t.nodes[ip] == DirNode(1, map[]) && Counts(t.refs)
    modifies t`nodes, t`refs
    ensures ok <==> room.dot && room.dotdot
    ensures ip in t.nodes && t.nodes == old(t.nodes)[ip := t.nodes[ip]] && t.nodes[ip].DirNode?
    ensures ok ==> t.nodes[ip] == DirNode(1, map[Dot() := ip, DotDot() := dp])
    ensures t.refs == old(t.refs)
  {
    hide Counts;
    var ret, panicked;
    ret, panicked := Dirlink(t, ip, Dot(), ip, room.dot);
    if ret < 0 {
      return false;
    }
    ret, panicked := Dirlink(t, ip, DotDot(), dp, room.dotdot);
    return ret == 0;
  }

  /** `create` from the first write to the new inode on, up to the label "fail". */
  method Fill(t: Table, ghost nodes0: Nodes, dp: nat, name: Name, ip: nat, kind: Kind, room: Room) returns (ok: bool)
    requires LiveDir(nodes0, dp) && name !in nodes0[dp].ents && ip !in nodes0
    requires t.nodes == nodes0[ip := Blank(kind, 0)] && Counts(t.refs)
    modifies t`nodes, t`refs
    ensures ok <==> Suffices(room, kind)
    ensures ok ==> t.nodes == Changed(nodes0, Creation(kind, dp, name, ip))
    ensures !ok ==> ip in t.nodes && t.nodes == nodes0[ip := t.nodes[ip]] && t.nodes[ip].nlink == 0
    ensures t.refs == old(t.refs)
  {
    hide Counts, Changed;
    t.nodes := t.nodes[ip := Blank(kind, 1)];
    if kind.T_DIR? {
      ok := Dots(t, ip, dp, room);
      if !ok {
        t.nodes := WithLinks(t.nodes, ip, 0);
        return;
      }
    }
    ghost var made := t.nodes[ip];
    assert t.nodes == nodes0[ip := made];
    var ret, panicked := Dirlink(t, dp, name, ip, room.name);
    if ret < 0 {
      t.nodes := WithLinks(t.nodes, ip, 0);
      return false;
    }
    if kind.T_DIR? {
      t.nodes := WithLinks(t.nodes, dp, t.nodes[dp].nlink + 1);
    }
    CreationIs(nodes0, kind, dp, name, ip);
    return true;
  }

  lemma CreationIs(nodes: Nodes, kind: Kind, dp: nat, name: Name, ip: nat)
    requires LiveDir(nodes, dp) && name !in nodes[dp].ents && ip !in nodes
    ensures var c := Creation(kind, dp, name, ip);
            && Allowed(nodes, c)
            && Changed(nodes, c) ==
                 if kind.T_DIR?
                 then WithLinks(WithEnt(nodes[ip := DirNode(1, map[Dot() := ip, DotDot() := dp])], dp, name, ip), dp, nodes[dp].nlink + 1)
                 else WithEnt(nodes[ip := FileNode(1)], dp, name, ip)
  {
  }

  /** The outcome of `create` when the path leads to a directory and a name in it. */
  ghost predicate Created(nodes: Nodes, dp: nat, name: Name, kind: Kind, ninodes: nat, room: Room, nodes': Nodes, res: Option<nat>)
    requires LiveDir(nodes, dp)
  {
    if name in nodes[dp].ents then
      var there := nodes[dp].ents[name];
      nodes' == nodes && res == if kind.T_FILE? && there in nodes && nodes[there].FileNode? then Some(there) else None
    else if Suffices(room, kind) && exists i | 1 <= i < ninodes :: i !in nodes then
      && res.Some? && LowestFree(nodes, res.value, ninodes) && Allowed(nodes, Creation(kind, dp, name, res.value))
      && nodes' == Changed(nodes, Creation(kind, dp, name, res.value))
    else nodes' == nodes && res == None
  }

  /** When `create` makes something: some number is free, and every entry it needs can
      be written. The result is the inode, with one link and the name. */
  lemma CreatedWhen(nodes: Nodes, dp: nat, name: Name, kind: Kind, ninodes: nat, room: Room, nodes': Nodes, res: Option<nat>)
    requires LiveDir(nodes, dp) && name !in nodes[dp].ents
    requires Created(nodes, dp, name, kind, ninodes, room, nodes', res)
    ensures res.Some? <==>
              (exists i :: 1 <= i < ninodes && i !in nodes) &&
              room.name && (kind == T_DIR ==> room.dot && room.dotdot)
    ensures match res
            case None => nodes' == nodes
            case Some(ip) =>
              && 1 <= ip < ninodes && ip !in nodes && (forall i | 1 <= i < ip :: i in nodes) && nodes'.Keys == nodes.Keys + {ip}
              && nodes'[ip] == (if kind == T_DIR then DirNode(1, map[Dot() := ip, DotDot() := dp]) else FileNode(1))
              && nodes'[dp] == DirNode(nodes[dp].nlink + (if kind == T_DIR then 1 else 0), nodes[dp].ents[name := ip])
              && forall i | i in nodes && i != dp :: nodes'[i] == nodes[i]
  {
    if exists i :: 1 <= i < ninodes && i !in nodes {
      var i :| 1 <= i < ninodes && i !in nodes;
    }
  }

  /** Creating what exists: a file or a device is opened as a file, by its inode; a
      directory is not, and nothing can be made a directory or a device again. */
  lemma CreateAgain(nodes: Nodes, dp: nat, name: Name, kind: Kind, ninodes: nat, room: Room, nodes': Nodes, res: Option<nat>,
                    kind2: Kind, room2: Room, nodes2: Nodes, res2: Option<nat>)
    requires LiveDir(nodes, dp) && name !in nodes[dp].ents
    requires Created(nodes, dp, name, kind, ninodes, room, nodes', res) && res.Some?
    requires LiveDir(nodes', dp) && Created(nodes', dp, name, kind2, ninodes, room2, nodes2, res2)
    ensures nodes2 == nodes' && res2 == if kind != T_DIR && kind2 == T_FILE then res else None
  {
    CreatedWhen(nodes, dp, name, kind, ninodes, room, nodes', res);
  }

  /** `create` when the name exists already. */
  method Existing(t: Table, dp: nat, ip: nat, kind: Kind, ghost refs0: Refs) returns (res: Option<nat>)
    requires Counts(refs0) && t.refs == Get(Get(refs0, dp), ip) && t.locked == {dp}
    requires Linked(t.nodes, dp) && Linked(t.nodes, ip)
    modifies t`nodes, t`refs, t`locked
    ensures res == if kind.T_FILE? && old(t.nodes)[ip].FileNode? then Some(ip) else None
    ensures t.nodes == old(t.nodes)
    ensures t.refs == if res.Some? then Get(refs0, ip) else refs0
    ensures t.locked == if res.Some? then {ip} else {}
  {
    hide Get, Put, Counts, Dropped;
    Moves(refs0, dp, ip);
    GetKeeps(refs0, ip);
    LinkedStays(t.nodes, t.refs, dp);
    t.Iunlockput(dp);
    assert t.locked == {};
    var panicked := t.Ilock(ip);
    if kind.T_FILE? && t.nodes[ip].FileNode? {
      return Some(ip);
    }
    LinkedStays(t.nodes, t.refs, ip);
    t.Iunlockput(ip);
    return None;
  }

  /** The label "fail" of `create`: both inodes are put, and the new one is freed. */
  method GiveUp(t: Table, ghost nodes0: Nodes, ghost refs0: Refs, dp: nat, ip: nat)
    requires Counts(refs0) && t.refs == Get(Get(refs0, dp), ip) && t.locked == {dp, ip}
    requires ip in t.nodes && t.nodes[ip].nlink == 0 && t.nodes == nodes0[ip := t.nodes[ip]]
    requires ip !in nodes0 && ip !in refs0 && ip != dp && Linked(nodes0, dp)
    modifies t`nodes, t`refs, t`locked
    ensures t.nodes == nodes0 && t.refs == refs0 && t.locked == {}
  {
    hide Get, Put, Counts, Dropped;
    Moves(refs0, dp, ip);
    GetKeeps(refs0, dp);
    GetKeeps(Get(refs0, dp), ip);
    SoleRef(t.nodes, nodes0, refs0, dp, ip);
    t.Iunlockput(ip);
    assert t.locked == {dp};
    LinkedStays(t.nodes, t.refs, dp);
    t.Iunlockput(dp);
  }

  /** `create` when the name is free. */
  method Fresh(t: Table, dp: nat, name: Name, kind: Kind, ninodes: nat, room: Room, ghost refs0: Refs)
    returns (res: Option<nat>, panicked: bool)
    requires t.Valid() && Counts(refs0) && t.refs == Get(refs0, dp) && t.locked == {dp}
    requires LiveDir(t.nodes, dp) && name !in t.nodes[dp].ents && forall i | i in refs0 :: i in t.nodes
    modifies t`nodes, t`refs, t`locked
    ensures panicked ==> |old(t.refs)| >= NINODE
    ensures !panicked ==> Created(old(t.nodes), dp, name, kind, ninodes, room, t.nodes, res)
    ensures !panicked ==> t.refs == if res.Some? then Get(refs0, res.value) else refs0
    ensures !panicked ==> t.locked == if res.Some? then {res.value} else {}
  {
    hide Get, Put, Counts, Dropped, Changed, Allowed, Closed, Created, Suffices, LowestFree, Creation;
    ghost var nodes0 := t.nodes;
    var got;
    got, panicked := Ialloc(t, ninodes, Blank(kind, 0));
    if panicked {
      return None, true;
    }
    if got.None? {
      NotCreated(nodes0, dp, name, kind, ninodes, room);
      GetKeeps(refs0, dp);
      LinkedStays(t.nodes, t.refs, dp);
      t.Iunlockput(dp);
      return None, false;
    }
    var ip := got.value;
    IsNew(nodes0, ip, ninodes);
    Moves(refs0, dp, ip);
    GetKeeps(refs0, ip);
    GetKeeps(refs0, dp);
    GetKeeps(Get(refs0, dp), ip);
    panicked := t.Ilock(ip);
    var ok := Fill(t, nodes0, dp, name, ip, kind, room);
    if !ok {
      NotCreated(nodes0, dp, name, kind, ninodes, room);
      GiveUp(t, nodes0, refs0, dp, ip);
      return None, false;
    }
    IsCreated(nodes0, dp, name, kind, ninodes, room, ip);
    ParentLinked(nodes0, kind, dp, name, ip);
    LinkedStays(t.nodes, t.refs, dp);
    t.Iunlockput(dp);
    return Some(ip), false;
  }

  lemma ParentLinked(nodes: Nodes, kind: Kind, dp: nat, name: Name, ip: nat)
    requires LiveDir(nodes, dp) && name !in nodes[dp].ents && ip !in nodes
    ensures Linked(Changed(nodes, Creation(kind, dp, name, ip)), dp)
  {
  }

  lemma IsNew(nodes: Nodes, ip: nat, ninodes: nat)
    requires LowestFree(nodes, ip, ninodes)
    ensures ip !in nodes
  {
  }

  lemma NotCreated(nodes: Nodes, dp: nat, name: Name, kind: Kind, ninodes: nat, room: Room)
    requires LiveDir(nodes, dp) && name !in nodes[dp].ents
    requires !Suffices(room, kind) || forall i | 1 <= i < ninodes :: i in nodes
    ensures Created(nodes, dp, name, kind, ninodes, room, nodes, None)
  {
  }

  lemma IsCreated(nodes: Nodes, dp: nat, name: Name, kind: Kind, ninodes: nat, room: Room, ip: nat)
    requires LiveDir(nodes, dp) && name !in nodes[dp].ents && Suffices(room, kind) && LowestFree(nodes, ip, ninodes)
    ensures Allowed(nodes, Creation(kind, dp, name, ip))
    ensures Created(nodes, dp, name, kind, ninodes, room, Changed(nodes, Creation(kind, dp, name, ip)), Some(ip))
  {
  }

  /** A new inode given up right away is freed. */
  lemma SoleRef(nodes: Nodes, nodes0: Nodes, refs0: Refs, dp: nat, ip: nat)
    requires ip in nodes && nodes[ip].nlink == 0 && nodes == nodes0[ip := nodes[ip]] && ip !in nodes0 && ip != dp && ip !in refs0
    ensures ip in Get(Get(refs0, dp), ip) && Dropped(nodes, Get(Get(refs0, dp), ip), ip) == nodes0
  {
  }

  /** `create`. Whatever fails on the way, it ends with the counts right: either
      nothing has changed, or the new inode has its name, its one link and, if it
      is a directory, its parent one link more. On success the inode is returned
      locked and with one reference; nothing else is held. */
  method Create(t: Table, path: Path, kind: Kind, ninodes: nat, room: Room) returns (res: Option<nat>, panicked: bool)
    requires Ready(t)
    modifies t`nodes, t`refs, t`locked
    ensures panicked ==> |old(t.refs)| + 1 >= NINODE
    ensures !panicked ==> t.Valid() && Sound(t.nodes, t.refs, t.root)
    ensures !panicked ==> t.refs == if res.Some? then Get(old(t.refs), res.value) else old(t.refs)
    ensures !panicked ==> t.locked == if res.Some? then {res.value} else {}
    ensures !panicked ==>
              match old(Answer(t.nodes, Start(t, path), path, true))
              case None => res == None && t.nodes == old(t.nodes)
              case Some((dp, name)) =>
                LiveDir(old(t.nodes), dp) && Created(old(t.nodes), dp, name, kind, ninodes, room, t.nodes, res)
  {
    hide Get, Put, Counts, Dropped, Closed, Answer, Sound, Created;
    ghost var nodes0, refs0 := t.nodes, t.refs;
    res := None;
    var found, name;
    found, name, panicked := t.Namex(path, true);
    if panicked || found.None? {
      return;
    }
    var dp := found.value;
    GetKeeps(refs0, dp);
    ParentIsDir(nodes0, Start(t, path), path);
    panicked := t.Ilock(dp);
    var entry;
    entry, panicked := Dirlookup(t, dp, name);
    if panicked {
      return;
    }
    if entry.Some? {
      NamesLinked(nodes0, dp, name);
      res := Existing(t, dp, entry.value, kind, refs0);
      ExistingIs(nodes0, dp, name, kind, ninodes, room, res);
    } else {
      RefsExist(nodes0, refs0, t.root);
      res, panicked := Fresh(t, dp, name, kind, ninodes, room, refs0);
      if panicked {
        return;
      }
    }
    if res.Some? {
      GetKeeps(refs0, res.value);
    }
    CreateDone(nodes0, refs0, t.root, t.cwd, dp, name, kind, ninodes, room, t.nodes, res);
  }

  lemma ExistingIs(nodes: Nodes, dp: nat, name: Name, kind: Kind, ninodes: nat, room: Room, res: Option<nat>)
    requires LiveDir(nodes, dp) && name in nodes[dp].ents && Linked(nodes, nodes[dp].ents[name])
    requires var ip := nodes[dp].ents[name]; res == if kind.T_FILE? && nodes[ip].FileNode? then Some(ip) else None
    ensures Created(nodes, dp, name, kind, ninodes, room, nodes, res)
  {
  }

  lemma RefsExist(nodes: Nodes, refs: Refs, root: nat)
    requires Sound(nodes, refs, root)
    ensures forall i | i in refs :: i in nodes
  {
  }

  lemma CreateDone(nodes: Nodes, refs: Refs, root: nat, cwd: nat, dp: nat, name: Name, kind: Kind, ninodes: nat, room: Room,
                   nodes': Nodes, res: Option<nat>)
    requires Sound(nodes, refs, root) && LiveDir(nodes, dp) && Created(nodes, dp, name, kind, ninodes, room, nodes', res)
    requires Linked(nodes, cwd)
    ensures Sound(nodes', if res.Some? then Get(refs, res.value) else refs, root)
    ensures Closed(nodes') && Linked(nodes', root) && Linked(nodes', cwd)
  {
    hide Sound, Changed, Get, Closed;
    var refs' := if res.Some? then Get(refs, res.value) else refs;
    if name in nodes[dp].ents {
      NameIsLinked(nodes, refs, root, dp, name);
      if res.Some? {
        EventKeepsSound(nodes, refs, root, Hold(res.value));
      }
    } else if res.Some? {
      var c := Creation(kind, dp, name, res.value);
      EventKeepsSound(nodes, refs, root, Make(c));
      CreationIs(nodes, kind, dp, name, res.value);
    }
    SoundIsClosed(nodes', refs', root);
  }
}
