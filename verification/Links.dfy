/** Link counts: what `create`, `sys_link`, `sys_unlink` and `iput` keep true of
    all inodes together at every system-call boundary. */
module Links {
  import opened Directory
  import opened Namex

  predicate LiveDir(nodes: Nodes, d: nat) {
    d in nodes && nodes[d].DirNode? && nodes[d].nlink >= 1
  }

  /** Live directory `d` has an entry that names `i`. */
  predicate Naming(nodes: Nodes, d: nat, n: Name, i: nat) {
    LiveDir(nodes, d) && n in nodes[d].ents && nodes[d].ents[n] == i
  }

  /** The entries that count as links to `i`: all but "." in live directories. */
  ghost function LinksTo(nodes: Nodes, i: nat): set<(nat, Name)> {
    set d, n | d in nodes && nodes[d].DirNode? && n in nodes[d].ents && n != Dot() && Naming(nodes, d, n, i) :: (d, n)
  }

  ghost predicate Counted(nodes: Nodes) {
    forall i {:trigger LinksTo(nodes, i)} | i in nodes :: nodes[i].nlink == |LinksTo(nodes, i)|
  }

  /** Where a live directory stands in the tree. */
  datatype Spot = Spot(up: nat, name: Name, depth: nat)

  type Spots = map<nat, Spot>

  /** Live directory `d` names itself by "." and its parent by "..", is named by
      its parent, and is farther from the root than its parent. */
  ghost predicate Home(nodes: Nodes, root: nat, spots: Spots, d: nat) {
    && d in spots && Naming(nodes, d, Dot(), d) && Naming(nodes, d, DotDot(), spots[d].up) && LiveDir(nodes, spots[d].up)
    && spots[d].up in spots
    && if d == root then spots[d].up == root
       else spots[spots[d].up].depth < spots[d].depth && Proper(spots[d].name) && Naming(nodes, spots[d].up, spots[d].name, d)
  }

  ghost predicate Homes(nodes: Nodes, root: nat, spots: Spots) {
    forall d: nat {:trigger Home(nodes, root, spots, d)} | LiveDir(nodes, d) :: Home(nodes, root, spots, d)
  }

  /** A live directory has only one proper name, the one in its parent. */
  ghost predicate OneName(nodes: Nodes, root: nat, spots: Spots) {
    forall d: nat, n: Name, e: nat | Proper(n) && Naming(nodes, d, n, e) && LiveDir(nodes, e) ::
      e != root && e in spots && spots[e].up == d && spots[e].name == n
  }

  /** A directory that has lost its links holds nothing but "." and "..". */
  ghost predicate DeadAreEmpty(nodes: Nodes) {
    forall d: nat | d in nodes && !LiveDir(nodes, d) :: Removable(nodes, d)
  }

  ghost predicate Tree(nodes: Nodes, root: nat, spots: Spots) {
    LiveDir(nodes, root) && Closed(nodes) && Homes(nodes, root, spots) && OneName(nodes, root, spots) && DeadAreEmpty(nodes)
  }

  /** Inodes without links exist only as long as someone refers to them. */
  ghost predicate Referenced(nodes: Nodes, refs: Refs) {
    && Counts(refs)
    && (forall i | i in refs :: i in nodes)
    && (forall i | i in nodes && nodes[i].nlink == 0 :: i in refs)
  }

  /** What holds of all inodes and all references at every system-call boundary. */
  ghost predicate Sound(nodes: Nodes, refs: Refs, root: nat) {
    && Counted(nodes) && Referenced(nodes, refs)
    && exists spots :: Tree(nodes, root, spots)
  }

  // ---- the changes system calls make ----

  function WithEnt(nodes: Nodes, d: nat, n: Name, i: nat): Nodes
    requires d in nodes && nodes[d].DirNode?
  {
    nodes[d := nodes[d].(ents := nodes[d].ents[n := i])]
  }

  function WithoutEnt(nodes: Nodes, d: nat, n: Name): Nodes
    requires d in nodes && nodes[d].DirNode?
  {
    nodes[d := nodes[d].(ents := nodes[d].ents - {n})]
  }

  function WithLinks(nodes: Nodes, i: nat, k: nat): Nodes
    requires i in nodes
  {
    nodes[i := nodes[i].(nlink := k)]
  }

  datatype Change =
    | Link(dp: nat, name: Name, ip: nat)
    | NewFile(dp: nat, name: Name, ip: nat)
    | NewDir(dp: nat, name: Name, ip: nat)
    | Unlink(dp: nat, name: Name)

  /** What the code has checked before it makes the change. */
  predicate Allowed(nodes: Nodes, c: Change) {
    && LiveDir(nodes, c.dp)
    && match c
       case Link(dp, name, ip) => name !in nodes[dp].ents && ip in nodes && nodes[ip].FileNode? && nodes[ip].nlink >= 1
       case NewFile(dp, name, ip) => name !in nodes[dp].ents && ip !in nodes
       case NewDir(dp, name, ip) => name !in nodes[dp].ents && ip !in nodes
       case Unlink(dp, name) =>
         Proper(name) && name in nodes[dp].ents && Removable(nodes, nodes[dp].ents[name])
  }

  /** A file, or a directory with no entries but "." and "..". */
  predicate Removable(nodes: Nodes, i: nat) {
    i in nodes && (nodes[i].DirNode? ==> forall n | n in nodes[i].ents :: !Proper(n))
  }

  /** What makes an unlink safe, and is never checked except by a panic: what goes
      away has a link left to take, is not its own parent, and a directory has its
      one name here and is not all that its parent is linked by. */
  predicate Fits(nodes: Nodes, c: Change)
    requires Allowed(nodes, c)
  {
    c.Unlink? ==>
      var ip := nodes[c.dp].ents[c.name];
      && ip != c.dp && nodes[ip].nlink >= 1
      && (nodes[ip].DirNode? ==> nodes[ip].nlink == 1 && nodes[c.dp].nlink >= 2 && Naming(nodes, ip, DotDot(), c.dp))
  }

  /** A link less; there is always one, see `AllowedFits`. */
  function Less(k: nat): nat {
    if k == 0 then 0 else k - 1
  }

  /** The inodes after a change that succeeds. */
  function Changed(nodes: Nodes, c: Change): Nodes
    requires Allowed(nodes, c)
  {
    match c
    case Link(dp, name, ip) => WithEnt(WithLinks(nodes, ip, nodes[ip].nlink + 1), dp, name, ip)
    case NewFile(dp, name, ip) => WithEnt(nodes[ip := FileNode(1)], dp, name, ip)
    case NewDir(dp, name, ip) =>
      var made := nodes[ip := DirNode(1, map[Dot() := ip, DotDot() := dp])];
      WithLinks(WithEnt(made, dp, name, ip), dp, nodes[dp].nlink + 1)
    case Unlink(dp, name) =>
      var ip := nodes[dp].ents[name];
      var cut := WithoutEnt(nodes, dp, name);
      var less := if nodes[ip].DirNode? then WithLinks(cut, dp, Less(nodes[dp].nlink)) else cut;
      WithLinks(less, ip, Less(nodes[ip].nlink))
  }

  /** When an unlink is allowed: the name is not "." or "..", it is bound, and what it
      names is a file, whatever its count, or a directory that binds only those two. */
  lemma UnlinkAllowed(nodes: Nodes, dp: nat, name: Name)
    requires LiveDir(nodes, dp) && Closed(nodes)
    ensures Allowed(nodes, Unlink(dp, name)) <==>
              && name != [46] && name != [46, 46] && name in nodes[dp].ents
              && var node := nodes[nodes[dp].ents[name]];
                 node.FileNode? || forall n: Name | n in node.ents :: n == [46] || n == [46, 46]
  {
    assert Linked(nodes, dp);
    if name in nodes[dp].ents {
      var i := nodes[dp].ents[name];
      assert Linked(nodes, i);
    }
  }

  /** What an unlink changes, field by field. */
  lemma UnlinkEffect(nodes: Nodes, dp: nat, name: Name)
    requires Allowed(nodes, Unlink(dp, name)) && Fits(nodes, Unlink(dp, name))
    ensures var ip, nodes' := nodes[dp].ents[name], Changed(nodes, Unlink(dp, name));
            && nodes'.Keys == nodes.Keys
            && nodes'[dp] == DirNode(nodes[dp].nlink - (if nodes[ip].DirNode? then 1 else 0), nodes[dp].ents - {name})
            && nodes'[ip] == nodes[ip].(nlink := nodes[ip].nlink - 1)
            && forall i | i in nodes && i != dp && i != ip :: nodes'[i] == nodes[i]
  {
  }

  /** Unlinking a name just linked is allowed, and takes everything back. */
  lemma LinkThenUnlink(nodes: Nodes, dp: nat, name: Name, ip: nat)
    requires Allowed(nodes, Link(dp, name, ip)) && Proper(name)
    ensures var linked := Changed(nodes, Link(dp, name, ip));
            && Allowed(linked, Unlink(dp, name)) && linked[dp].ents[name] == ip
            && Changed(linked, Unlink(dp, name)) == nodes
  {
    assert nodes[dp].ents[name := ip] - {name} == nodes[dp].ents;
  }

  /** Linking a name just unlinked takes the unlink back, if it was not the last link. */
  lemma UnlinkThenLink(nodes: Nodes, dp: nat, name: Name)
    requires Allowed(nodes, Unlink(dp, name)) && Fits(nodes, Unlink(dp, name))
    requires var ip := nodes[dp].ents[name]; nodes[ip].FileNode? && nodes[ip].nlink >= 2
    ensures var ip, cut := nodes[dp].ents[name], Changed(nodes, Unlink(dp, name));
            Allowed(cut, Link(dp, name, ip)) && Changed(cut, Link(dp, name, ip)) == nodes
  {
    var ip := nodes[dp].ents[name];
    assert (nodes[dp].ents - {name})[name := ip] == nodes[dp].ents;
  }

  /** Removing a file or directory just made is allowed; its inode is then without
      links and all else is as before. */
  lemma MakeThenUnlink(nodes: Nodes, c: Change)
    requires Allowed(nodes, c) && (c.NewFile? || c.NewDir?) && Proper(c.name)
    ensures var made := Changed(nodes, c);
            && Allowed(made, Unlink(c.dp, c.name)) && made[c.dp].ents[c.name] == c.ip
            && var after := Changed(made, Unlink(c.dp, c.name));
               c.ip in after && after[c.ip].nlink == 0 && after - {c.ip} == nodes
  {
    assert nodes[c.dp].ents[c.name := c.ip] - {c.name} == nodes[c.dp].ents;
  }

  // ---- counting ----

  lemma NamedIsLinked(nodes: Nodes, d: nat, n: Name, i: nat)
    requires Counted(nodes) && i in nodes && n != Dot() && Naming(nodes, d, n, i)
    ensures nodes[i].nlink >= 1
  {
    assert (d, n) in LinksTo(nodes, i);
  }

  lemma InLinks(nodes: Nodes, i: nat)
    ensures forall p: (nat, Name) :: p in LinksTo(nodes, i) <==> p.1 != Dot() && Naming(nodes, p.0, p.1, i)
  {
  }

  /** The naming entries after a change are those before and one more. */
  ghost predicate Gains(nodes: Nodes, nodes': Nodes, d: nat, n: Name, i: nat) {
    && Naming(nodes', d, n, i)
    && (forall j: nat :: !Naming(nodes, d, n, j))
    && (forall e: nat, m: Name, j: nat | m != Dot() ::
          Naming(nodes', e, m, j) <==> Naming(nodes, e, m, j) || (e == d && m == n && j == i))
  }

  /** An entry added for an inode is one more link to it, and to no other. */
  lemma LinksGrow(nodes: Nodes, nodes': Nodes, d: nat, n: Name, i: nat, j: nat)
    requires n != Dot() && Gains(nodes, nodes', d, n, i)
    ensures |LinksTo(nodes', j)| == |LinksTo(nodes, j)| + (if j == i then 1 else 0)
  {
    hide LinksTo, Naming;
    InLinks(nodes, j);
    InLinks(nodes', j);
    assert LinksTo(nodes', j) == LinksTo(nodes, j) + (if j == i then {(d, n)} else {});
    assert (d, n) !in LinksTo(nodes, j);
  }

  lemma LinkCounts(nodes: Nodes, c: Change)
    requires Counted(nodes) && Closed(nodes) && Allowed(nodes, c) && (c.Link? || c.NewFile?) && c.name != Dot()
    ensures Counted(Changed(nodes, c))
  {
    hide LinksTo, Closed;
    var nodes' := Changed(nodes, c);
    forall j: nat ensures |LinksTo(nodes', j)| == |LinksTo(nodes, j)| + (if j == c.ip then 1 else 0) {
      LinksGrow(nodes, nodes', c.dp, c.name, c.ip, j);
    }
    if c.NewFile? {
      NotNamedYet(nodes, c.ip);
    }
  }

  lemma NotNamedYet(nodes: Nodes, i: nat)
    requires Closed(nodes) && i !in nodes
    ensures LinksTo(nodes, i) == {}
  {
  }

  lemma NewDirCounts(nodes: Nodes, c: Change)
    requires Counted(nodes) && Closed(nodes) && Allowed(nodes, c) && c.NewDir? && c.name != Dot()
    ensures Counted(Changed(nodes, c))
  {
    hide LinksTo, Closed;
    var nodes' := Changed(nodes, c);
    var made := nodes[c.ip := DirNode(1, map[Dot() := c.ip, DotDot() := c.dp])];
    NotNamedYet(nodes, c.ip);
    forall j: nat ensures |LinksTo(nodes', j)| == |LinksTo(nodes, j)| + (if j == c.dp then 1 else 0) + (if j == c.ip then 1 else 0) {
      LinksGrow(nodes, made, c.ip, DotDot(), c.dp, j);
      LinksGrow(made, nodes', c.dp, c.name, c.ip, j);
    }
  }

  lemma OneTarget(nodes: Nodes, d: nat, n: Name)
    ensures forall i: nat, j: nat | Naming(nodes, d, n, i) && Naming(nodes, d, n, j) :: i == j
  {
  }

  lemma ParentOf(nodes: Nodes, root: nat, spots: Spots, d: nat, n: Name, e: nat)
    requires Tree(nodes, root, spots) && Naming(nodes, d, n, e) && LiveDir(nodes, e) && Proper(n)
    ensures e != root && e != d && spots[e] == Spot(d, n, spots[e].depth) && Naming(nodes, e, DotDot(), d)
  {
    hide LinksTo, Closed, Naming, LiveDir;
    assert Home(nodes, root, spots, e);
  }

  lemma Childless(nodes: Nodes, root: nat, spots: Spots, ip: nat, d: nat)
    requires Homes(nodes, root, spots) && ip != root && LiveDir(nodes, ip) && Removable(nodes, ip)
    ensures !Naming(nodes, d, DotDot(), ip)
  {
    if LiveDir(nodes, d) {
      assert Home(nodes, root, spots, d);
    }
  }

  /** An empty directory is linked by its one name and nothing else, for it is no
      one's parent. */
  lemma OneLink(nodes: Nodes, root: nat, spots: Spots, dp: nat, name: Name, ip: nat)
    requires Counted(nodes) && Tree(nodes, root, spots)
    requires Proper(name) && Naming(nodes, dp, name, ip) && LiveDir(nodes, ip) && Removable(nodes, ip)
    ensures nodes[ip].nlink == 1
  {
    hide LinksTo, Closed, DeadAreEmpty, OneName;
    InLinks(nodes, ip);
    ParentOf(nodes, root, spots, dp, name, ip);
    forall p: (nat, Name) | p in LinksTo(nodes, ip) ensures p == (dp, name) {
      Childless(nodes, root, spots, ip, p.0);
      if p.1 != DotDot() {
        ParentOf(nodes, root, spots, p.0, p.1, ip);
      }
    }
    assert (dp, name) in LinksTo(nodes, ip);
    assert LinksTo(nodes, ip) == {(dp, name)};
  }

  /** The parent of a directory has a link of its own besides the child's "..". */
  lemma TwoLinks(nodes: Nodes, root: nat, spots: Spots, dp: nat, ip: nat)
    requires Counted(nodes) && Tree(nodes, root, spots)
    requires LiveDir(nodes, dp) && ip != root && ip != dp && Naming(nodes, ip, DotDot(), dp)
    ensures nodes[dp].nlink >= 2
  {
    hide LinksTo, Closed, DeadAreEmpty, OneName, Naming;
    InLinks(nodes, dp);
    assert Home(nodes, root, spots, dp);
    var two := {if dp == root then (dp, DotDot()) else (spots[dp].up, spots[dp].name), (ip, DotDot())};
    assert two <= LinksTo(nodes, dp);
    Smaller(two, LinksTo(nodes, dp));
  }

  lemma Smaller<T>(a: set<T>, b: set<T>)
    requires a <= b
    ensures |a| <= |b|
  {
    assert b == a + (b - a);
  }

  /** "unlink: nlink < 1" is never reached, and the count of a parent directory
      never falls to 0 when a child is removed. */
  lemma AllowedFits(nodes: Nodes, root: nat, spots: Spots, c: Change)
    requires Counted(nodes) && Tree(nodes, root, spots) && Allowed(nodes, c)
    ensures Fits(nodes, c)
  {
    hide LinksTo, Closed, Home;
    if c.Unlink? {
      var ip := nodes[c.dp].ents[c.name];
      assert Naming(nodes, c.dp, c.name, ip);
      NamedIsLinked(nodes, c.dp, c.name, ip);
      if nodes[ip].DirNode? {
        ParentOf(nodes, root, spots, c.dp, c.name, ip);
        OneLink(nodes, root, spots, c.dp, c.name, ip);
        TwoLinks(nodes, root, spots, c.dp, ip);
      } else {
        assert ip != c.dp;
      }
    }
  }

  lemma UnlinkCounts(nodes: Nodes, c: Change)
    requires Counted(nodes) && Allowed(nodes, c) && c.Unlink? && Fits(nodes, c)
    ensures Counted(Changed(nodes, c))
  {
    hide LinksTo;
    var nodes' := Changed(nodes, c);
    var ip := nodes[c.dp].ents[c.name];
    var cut := WithoutEnt(nodes, c.dp, c.name);
    forall j: nat
      ensures |LinksTo(nodes, j)| ==
              |LinksTo(nodes', j)| + (if j == ip then 1 else 0) + (if nodes[ip].DirNode? && j == c.dp then 1 else 0)
    {
      LinksGrow(cut, nodes, c.dp, c.name, ip, j);
      if nodes[ip].DirNode? {
        LinksGrow(nodes', cut, ip, DotDot(), c.dp, j);
      } else {
        SameLinks(cut, nodes', j);
      }
    }
  }

  lemma SameLinks(nodes: Nodes, nodes': Nodes, j: nat)
    requires forall e: nat, m: Name :: Naming(nodes', e, m, j) <==> Naming(nodes, e, m, j)
    ensures LinksTo(nodes, j) == LinksTo(nodes', j)
  {
    hide LinksTo, Naming;
    InLinks(nodes, j);
    InLinks(nodes', j);
  }

  // ---- the tree ----

  /** One more name, for something that is no live directory. */
  lemma TreeWithName(nodes: Nodes, nodes': Nodes, root: nat, spots: Spots, d: nat, n: Name, i: nat)
    requires LiveDir(nodes, root) && Homes(nodes, root, spots) && OneName(nodes, root, spots)
    requires Proper(n) && !LiveDir(nodes, i) && Gains(nodes, nodes', d, n, i)
    requires forall e: nat :: LiveDir(nodes', e) <==> LiveDir(nodes, e)
    requires forall e: nat | LiveDir(nodes, e) :: Naming(nodes', e, Dot(), e) <==> Naming(nodes, e, Dot(), e)
    ensures LiveDir(nodes', root) && Homes(nodes', root, spots) && OneName(nodes', root, spots)
  {
    hide Naming, LiveDir;
    assert forall e: nat | LiveDir(nodes', e) :: Home(nodes, root, spots, e);
  }

  /** A name for a new file, or one more for an old one. */
  lemma FileKeepsTree(nodes: Nodes, root: nat, spots: Spots, c: Change)
    requires Tree(nodes, root, spots) && Allowed(nodes, c) && (c.Link? || c.NewFile?)
    ensures Tree(Changed(nodes, c), root, spots)
  {
    hide Closed, DeadAreEmpty, Homes, OneName;
    FileClosed(nodes, c);
    assert Proper(c.name) by {
      DotsTaken(nodes, root, spots, c.dp);
    }
    TreeWithName(nodes, Changed(nodes, c), root, spots, c.dp, c.name, c.ip);
  }

  lemma DotsTaken(nodes: Nodes, root: nat, spots: Spots, d: nat)
    requires Homes(nodes, root, spots) && LiveDir(nodes, d)
    ensures Dot() in nodes[d].ents && DotDot() in nodes[d].ents
  {
    assert Home(nodes, root, spots, d);
  }

  lemma FileClosed(nodes: Nodes, c: Change)
    requires Closed(nodes) && DeadAreEmpty(nodes) && Allowed(nodes, c) && (c.Link? || c.NewFile?)
    ensures Closed(Changed(nodes, c)) && DeadAreEmpty(Changed(nodes, c))
  {
    var nodes' := Changed(nodes, c);
    assert forall d: nat :: Linked(nodes, d) ==> Linked(nodes', d);
    assert Linked(nodes', c.ip);
  }

  /** The naming entries when directory `i` is new below `d`, under the name `n`. */
  ghost predicate GainsDir(nodes: Nodes, nodes': Nodes, d: nat, n: Name, i: nat) {
    && Proper(n) && LiveDir(nodes, d) && !LiveDir(nodes, i)
    && (forall e: nat, m: Name :: !Naming(nodes, e, m, i))
    && (forall e: nat :: LiveDir(nodes', e) <==> LiveDir(nodes, e) || e == i)
    && (forall e: nat, m: Name, j: nat | Naming(nodes, e, m, j) :: Naming(nodes', e, m, j))
    && Naming(nodes', d, n, i) && Naming(nodes', i, Dot(), i) && Naming(nodes', i, DotDot(), d)
    && (forall e: nat, m: Name, j: nat | Naming(nodes', e, m, j) && Proper(m) :: Naming(nodes, e, m, j) || (e == d && m == n && j == i))
  }

  lemma HomesWithDir(nodes: Nodes, nodes': Nodes, root: nat, spots: Spots, d: nat, n: Name, i: nat)
    requires LiveDir(nodes, root) && Homes(nodes, root, spots) && GainsDir(nodes, nodes', d, n, i) && d in spots
    ensures Homes(nodes', root, spots[i := Spot(d, n, spots[d].depth + 1)])
  {
    hide Naming, LiveDir, Proper, Dot, DotDot;
    var spots' := spots[i := Spot(d, n, spots[d].depth + 1)];
    forall e: nat | LiveDir(nodes', e) ensures Home(nodes', root, spots', e) {
      if e != i {
        assert Home(nodes, root, spots, e);
      }
    }
  }

  lemma NamesWithDir(nodes: Nodes, nodes': Nodes, root: nat, spots: Spots, d: nat, n: Name, i: nat)
    requires LiveDir(nodes, root) && OneName(nodes, root, spots) && GainsDir(nodes, nodes', d, n, i) && d in spots
    ensures OneName(nodes', root, spots[i := Spot(d, n, spots[d].depth + 1)])
  {
    hide Naming, LiveDir, Proper, Dot, DotDot;
  }

  lemma GainsNewDir(nodes: Nodes, c: Change)
    requires Closed(nodes) && Allowed(nodes, c) && c.NewDir? && Proper(c.name)
    ensures GainsDir(nodes, Changed(nodes, c), c.dp, c.name, c.ip)
  {
    forall e: nat, m: Name ensures !Naming(nodes, e, m, c.ip) {
      if LiveDir(nodes, e) && m in nodes[e].ents {
        assert Linked(nodes, nodes[e].ents[m]);
      }
    }
  }

  lemma NewDirKeepsTree(nodes: Nodes, root: nat, spots: Spots, c: Change)
    requires Tree(nodes, root, spots) && Allowed(nodes, c) && c.NewDir?
    ensures c.dp in spots && Tree(Changed(nodes, c), root, spots[c.ip := Spot(c.dp, c.name, spots[c.dp].depth + 1)])
  {
    hide Homes, OneName;
    var nodes' := Changed(nodes, c);
    assert Proper(c.name) && c.dp in spots by {
      DotsTaken(nodes, root, spots, c.dp);
      Placed(nodes, root, spots, c.dp);
    }
    assert Closed(nodes') && DeadAreEmpty(nodes') by {
      assert forall e: nat :: Linked(nodes, e) ==> Linked(nodes', e);
      assert Linked(nodes', c.ip);
    }
    GainsNewDir(nodes, c);
    HomesWithDir(nodes, nodes', root, spots, c.dp, c.name, c.ip);
    NamesWithDir(nodes, nodes', root, spots, c.dp, c.name, c.ip);
  }

  lemma Placed(nodes: Nodes, root: nat, spots: Spots, d: nat)
    requires Homes(nodes, root, spots) && LiveDir(nodes, d)
    ensures d in spots
  {
    assert Home(nodes, root, spots, d);
  }

  /** A name removed, together with what it named if that was a directory. */
  lemma TreeWithout(nodes: Nodes, nodes': Nodes, root: nat, spots: Spots, d: nat, n: Name, i: nat)
    requires LiveDir(nodes, root) && Homes(nodes, root, spots) && OneName(nodes, root, spots)
    requires Proper(n) && Naming(nodes, d, n, i) && i != root && (forall e: nat | e != i :: !Naming(nodes, e, DotDot(), i))
    requires forall e: nat :: LiveDir(nodes', e) <==> LiveDir(nodes, e) && e != i
    requires forall e: nat, m: Name, j: nat :: Naming(nodes', e, m, j) <==>
      Naming(nodes, e, m, j) && e != i && !(e == d && m == n)
    ensures LiveDir(nodes', root) && Homes(nodes', root, spots) && OneName(nodes', root, spots)
  {
    forall e: nat | LiveDir(nodes', e) ensures Home(nodes', root, spots, e) {
      assert Home(nodes, root, spots, e);
      OneTarget(nodes, d, n);
    }
  }

  lemma UnlinkKeepsTree(nodes: Nodes, root: nat, spots: Spots, c: Change)
    requires Counted(nodes) && Tree(nodes, root, spots) && Allowed(nodes, c) && Fits(nodes, c) && c.Unlink?
    ensures Tree(Changed(nodes, c), root, spots)
  {
    hide Homes, OneName, Closed, DeadAreEmpty, LinksTo;
    var nodes' := Changed(nodes, c);
    var ip := nodes[c.dp].ents[c.name];
    assert Naming(nodes, c.dp, c.name, ip);
    forall e: nat | e != ip ensures !Naming(nodes, e, DotDot(), ip) {
      NoChild(nodes, root, spots, c.dp, c.name, ip, e);
    }
    UnlinkCounts(nodes, c);
    assert DeadAreEmpty(nodes') by {
      EmptyOnes(nodes, c);
    }
    NotRoot(nodes, root, spots, c.dp, c.name, ip);
    TreeWithout(nodes, nodes', root, spots, c.dp, c.name, ip);
    NamedExist(nodes, c);
    CountedIsClosed(nodes', root, spots);
  }

  lemma NotRoot(nodes: Nodes, root: nat, spots: Spots, d: nat, n: Name, i: nat)
    requires Tree(nodes, root, spots) && Proper(n) && Naming(nodes, d, n, i)
    ensures i != root
  {
    hide Naming;
  }

  /** What is being removed is no one's parent. */
  lemma NoChild(nodes: Nodes, root: nat, spots: Spots, d: nat, n: Name, i: nat, e: nat)
    requires Tree(nodes, root, spots) && Proper(n) && Naming(nodes, d, n, i) && Removable(nodes, i) && e != i
    ensures !Naming(nodes, e, DotDot(), i)
  {
    hide Closed, DeadAreEmpty;
    NotRoot(nodes, root, spots, d, n, i);
    if LiveDir(nodes, i) {
      Childless(nodes, root, spots, i, e);
    } else if LiveDir(nodes, e) {
      assert Home(nodes, root, spots, e);
    }
  }

  lemma NamedExist(nodes: Nodes, c: Change)
    requires Closed(nodes) && Allowed(nodes, c) && Fits(nodes, c) && c.Unlink?
    ensures forall d: nat, n: Name, i: nat | Naming(Changed(nodes, c), d, n, i) :: i in Changed(nodes, c)
  {
    forall d: nat, n: Name, i: nat | Naming(Changed(nodes, c), d, n, i) ensures i in nodes {
      assert Naming(nodes, d, n, i) && Linked(nodes, d);
    }
  }

  lemma EmptyOnes(nodes: Nodes, c: Change)
    requires DeadAreEmpty(nodes) && Allowed(nodes, c) && Fits(nodes, c) && c.Unlink?
    ensures DeadAreEmpty(Changed(nodes, c))
  {
    var nodes' := Changed(nodes, c);
    forall d: nat | d in nodes' && !LiveDir(nodes', d) ensures Removable(nodes', d) {
      assert d != c.dp;
      assert Removable(nodes, d);
    }
  }

  /** What live directories name has links, by the count. */
  lemma CountedIsClosed(nodes: Nodes, root: nat, spots: Spots)
    requires Counted(nodes) && Homes(nodes, root, spots)
    requires forall d: nat, n: Name, i: nat | Naming(nodes, d, n, i) :: i in nodes
    ensures Closed(nodes)
  {
    hide LinksTo, Homes;
    forall d: nat, n | LiveDir(nodes, d) && n in nodes[d].ents ensures Linked(nodes, nodes[d].ents[n]) {
      var i := nodes[d].ents[n];
      assert Naming(nodes, d, n, i);
      if n != Dot() {
        NamedIsLinked(nodes, d, n, i);
      } else {
        DotIsSelf(nodes, root, spots, d);
      }
    }
  }

  lemma DotIsSelf(nodes: Nodes, root: nat, spots: Spots, d: nat)
    requires Homes(nodes, root, spots) && LiveDir(nodes, d)
    ensures Dot() in nodes[d].ents && nodes[d].ents[Dot()] == d
  {
    assert Home(nodes, root, spots, d);
  }

  // ---- whole runs ----

  lemma ChangeKeepsTree(nodes: Nodes, root: nat, spots: Spots, c: Change) returns (spots': Spots)
    requires Counted(nodes) && Tree(nodes, root, spots) && Allowed(nodes, c)
    ensures Fits(nodes, c) && Counted(Changed(nodes, c)) && Tree(Changed(nodes, c), root, spots')
  {
    hide LinksTo, Homes, OneName, Closed, DeadAreEmpty, Changed;
    AllowedFits(nodes, root, spots, c);
    spots' := spots;
    if !c.Unlink? {
      DotsTaken(nodes, root, spots, c.dp);
    }
    match c {
      case Link(_, _, _) => LinkCounts(nodes, c); FileKeepsTree(nodes, root, spots, c);
      case NewFile(_, _, _) => LinkCounts(nodes, c); FileKeepsTree(nodes, root, spots, c);
      case NewDir(_, _, _) =>
        NewDirCounts(nodes, c);
        NewDirKeepsTree(nodes, root, spots, c);
        spots' := spots[c.ip := Spot(c.dp, c.name, spots[c.dp].depth + 1)];
      case Unlink(_, _) => UnlinkCounts(nodes, c); UnlinkKeepsTree(nodes, root, spots, c);
    }
  }

  /** What system calls are made of: changes, and taking and dropping references,
      the last of which frees an inode without links. */
  datatype Event = Make(c: Change) | Hold(i: nat) | Drop(i: nat)

  /** A new inode is returned with a reference; an unlinked one is held by the
      lookup that found it; a reference is copied or found by a path. */
  ghost predicate Possible(nodes: Nodes, refs: Refs, e: Event) {
    match e
    case Make(c) => Allowed(nodes, c) && (c.Unlink? ==> nodes[c.dp].ents[c.name] in refs)
    case Hold(i) => Linked(nodes, i) || i in refs
    case Drop(i) => i in refs && refs[i] >= 1
  }

  function NodesAfter(nodes: Nodes, refs: Refs, e: Event): Nodes
    requires Possible(nodes, refs, e)
  {
    match e
    case Make(c) => Changed(nodes, c)
    case Hold(i) => nodes
    case Drop(i) => Dropped(nodes, refs, i)
  }

  function RefsAfter(nodes: Nodes, refs: Refs, e: Event): Refs
    requires Possible(nodes, refs, e)
  {
    match e
    case Make(c) => if c.NewFile? || c.NewDir? then Get(refs, c.ip) else refs
    case Hold(i) => Get(refs, i)
    case Drop(i) => Put(refs, i)
  }

  lemma FreeIsQuiet(nodes: Nodes, i: nat)
    requires i in nodes && nodes[i].nlink == 0
    ensures forall d: nat :: LiveDir(nodes - {i}, d) <==> LiveDir(nodes, d)
    ensures forall d: nat :: Linked(nodes - {i}, d) <==> Linked(nodes, d)
    ensures forall d: nat, n: Name, j: nat :: Naming(nodes - {i}, d, n, j) <==> Naming(nodes, d, n, j)
  {
  }

  lemma FreeKeepsLinked(nodes: Nodes, i: nat)
    requires Closed(nodes) && DeadAreEmpty(nodes) && i in nodes && nodes[i].nlink == 0
    ensures Closed(nodes - {i}) && DeadAreEmpty(nodes - {i})
  {
    FreeIsQuiet(nodes, i);
    forall d: nat | d in nodes - {i} && !LiveDir(nodes - {i}, d) ensures Removable(nodes - {i}, d) {
      assert Removable(nodes, d);
    }
  }

  /** Freeing an inode without links disturbs no count and no directory. */
  lemma FreeKeeps(nodes: Nodes, root: nat, spots: Spots, i: nat)
    requires Counted(nodes) && Tree(nodes, root, spots) && i in nodes && nodes[i].nlink == 0
    ensures Counted(nodes - {i}) && Tree(nodes - {i}, root, spots)
  {
    hide LinksTo, Homes, OneName, Closed, DeadAreEmpty, Naming, LiveDir;
    FreeIsQuiet(nodes, i);
    forall j | j in nodes - {i} ensures nodes[j].nlink == |LinksTo(nodes - {i}, j)| {
      SameLinks(nodes, nodes - {i}, j);
    }
    SameTree(nodes, nodes - {i}, root, spots);
    FreeKeepsLinked(nodes, i);
  }

  lemma SameTree(nodes: Nodes, nodes': Nodes, root: nat, spots: Spots)
    requires Homes(nodes, root, spots) && OneName(nodes, root, spots)
    requires forall d: nat :: LiveDir(nodes', d) <==> LiveDir(nodes, d)
    requires forall d: nat, n: Name, j: nat :: Naming(nodes', d, n, j) <==> Naming(nodes, d, n, j)
    ensures Homes(nodes', root, spots) && OneName(nodes', root, spots)
  {
    hide Naming, LiveDir;
    assert forall e: nat | LiveDir(nodes', e) :: Home(nodes, root, spots, e);
  }

  lemma RefsStay(nodes: Nodes, refs: Refs, e: Event)
    requires Referenced(nodes, refs) && Possible(nodes, refs, e) && (e.Make? ==> Fits(nodes, e.c))
    ensures Referenced(NodesAfter(nodes, refs, e), RefsAfter(nodes, refs, e))
  {
  }

  /** Every event of every system call keeps the counts and the tree, and no inode
      is left allocated without a link or a reference. */
  lemma EventKeepsSound(nodes: Nodes, refs: Refs, root: nat, e: Event)
    requires Sound(nodes, refs, root) && Possible(nodes, refs, e)
    ensures e.Make? ==> Fits(nodes, e.c)
    ensures Sound(NodesAfter(nodes, refs, e), RefsAfter(nodes, refs, e), root)
  {
    hide Counted, Tree, Referenced, Changed, Allowed, Fits;
    var spots :| Tree(nodes, root, spots);
    if e.Make? {
      var spots' := ChangeKeepsTree(nodes, root, spots, e.c);
    }
    RefsStay(nodes, refs, e);
    if e.Drop? && NodesAfter(nodes, refs, e) != nodes {
      FreeKeeps(nodes, root, spots, e.i);
    }
  }

  ghost predicate RunTo(nodes: Nodes, refs: Refs, es: seq<Event>, nodes': Nodes, refs': Refs)
    decreases |es|
  {
    if es == [] then nodes' == nodes && refs' == refs
    else Possible(nodes, refs, es[0]) &&
         RunTo(NodesAfter(nodes, refs, es[0]), RefsAfter(nodes, refs, es[0]), es[1..], nodes', refs')
  }

  lemma Unheld(nodes: Nodes, refs: Refs, root: nat)
    requires Sound(nodes, refs, root)
    ensures refs == map[] ==> forall i | i in nodes :: nodes[i].nlink >= 1 && nodes[i].nlink == |LinksTo(nodes, i)|
  {
    hide LinksTo, Tree;
  }

  /** Over every run: each inode's `nlink` is the number of names it has in live
      directories, the live directories form a tree, and once nothing is held any
      more every allocated inode has a link. */
  lemma {:induction false} RunKeepsSound(nodes: Nodes, refs: Refs, root: nat, es: seq<Event>, nodes': Nodes, refs': Refs)
    requires Sound(nodes, refs, root) && RunTo(nodes, refs, es, nodes', refs')
    ensures Sound(nodes', refs', root)
    ensures refs' == map[] ==> forall i | i in nodes' :: nodes'[i].nlink >= 1 && nodes'[i].nlink == |LinksTo(nodes', i)|
    decreases |es|
  {
    hide Sound, Possible, NodesAfter, RefsAfter, LinksTo;
    if es == [] {
      Unheld(nodes, refs, root);
    } else {
      EventKeepsSound(nodes, refs, root, es[0]);
      RunKeepsSound(NodesAfter(nodes, refs, es[0]), RefsAfter(nodes, refs, es[0]), root, es[1..], nodes', refs');
    }
  }

  /** The file system as made: a root directory that is its own parent. */
  lemma MadeSound(root: nat)
    ensures Sound(map[root := DirNode(1, map[Dot() := root, DotDot() := root])], map[], root)
  {
    var nodes := map[root := DirNode(1, map[Dot() := root, DotDot() := root])];
    assert LinksTo(nodes, root) == {(root, DotDot())} by {
      InLinks(nodes, root);
    }
    assert Tree(nodes, root, map[root := Spot(root, [], 0)]);
  }
}
