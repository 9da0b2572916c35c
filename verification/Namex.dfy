/** `namex`: path resolution over the inode table, with its references and locks. */
module Namex {
  import opened Blocks
  import opened Directory
  import opened Paths

  const NINODE := 50

  /** What a lookup needs of an allocated inode. */
  datatype Node = FileNode(nlink: nat) | DirNode(nlink: nat, ents: map<Name, nat>)

  type Nodes = map<nat, Node>

  // ---- the meaning of a path ----

  /** Follow names from inode `d`; `None` when a name is missing or a step starts
      at something that is no directory. */
  function Follow(nodes: Nodes, d: nat, names: seq<Name>): Option<nat>
    decreases |names|
  {
    if names == [] then Some(d)
    else if d in nodes && nodes[d].DirNode? && names[0] in nodes[d].ents
      then Follow(nodes, nodes[d].ents[names[0]], names[1..])
    else None
  }

  /** What `namei` should answer. */
  function Resolve(nodes: Nodes, start: nat, p: Path): Option<nat> {
    Follow(nodes, start, Components(p))
  }

  /** What `nameiparent` should answer: the directory and the last name. */
  function ResolveParent(nodes: Nodes, start: nat, p: Path): Option<(nat, Name)> {
    var names := Components(p);
    if names == [] then None else
    match Follow(nodes, start, names[..|names| - 1])
    case None => None
    case Some(d) => if d in nodes && nodes[d].DirNode? then Some((d, names[|names| - 1])) else None
  }

  lemma {:induction false} FollowLast(nodes: Nodes, d: nat, names: seq<Name>)
    requires names != []
    ensures var last := names[|names| - 1];
            Follow(nodes, d, names) ==
              match Follow(nodes, d, names[..|names| - 1])
              case None => None
              case Some(x) =>
                if x in nodes && nodes[x].DirNode? && last in nodes[x].ents then Some(nodes[x].ents[last]) else None
    decreases |names|
  {
    if |names| > 1 && d in nodes && nodes[d].DirNode? && names[0] in nodes[d].ents {
      assert names[..|names| - 1][1..] == names[1..][..|names| - 2];
      FollowLast(nodes, nodes[d].ents[names[0]], names[1..]);
    }
  }

  /** Resolving a path is looking up its last name in its parent directory. */
  lemma ResolveIsLookupInParent(nodes: Nodes, start: nat, p: Path)
    requires Components(p) != []
    ensures Resolve(nodes, start, p) ==
              match ResolveParent(nodes, start, p)
              case None => None
              case Some((d, name)) => if name in nodes[d].ents then Some(nodes[d].ents[name]) else None
  {
    FollowLast(nodes, start, Components(p));
  }

  /** What `namex` should answer, the last name only for `nameiparent`. */
  function Answer(nodes: Nodes, start: nat, p: Path, parent: bool): Option<(nat, Name)> {
    if parent then ResolveParent(nodes, start, p)
    else match Resolve(nodes, start, p) case None => None case Some(d) => Some((d, []))
  }

  /** A path without names. */
  lemma NoElement(nodes: Nodes, d: nat, p: Path, parent: bool)
    requires Skipelem(p).None?
    ensures Answer(nodes, d, p, parent) == if parent then None else Some((d, []))
  {
    ElementsAreComponents(p);
  }

  /** Taking one name off a path, by the cases `namex` tells apart. */
  lemma OneElement(nodes: Nodes, d: nat, p: Path, parent: bool)
    requires Skipelem(p).Some?
    ensures var (rest, name) := Skipelem(p).value;
            Answer(nodes, d, p, parent) ==
              if d !in nodes || nodes[d].FileNode? then None
              else if parent && rest == [] then Some((d, name))
              else if name !in nodes[d].ents then None
              else Answer(nodes, nodes[d].ents[name], rest, parent)
  {
    hide Skipelem, Components;
    RestEmptyIffLast(p);
    var (rest, name) := Skipelem(p).value;
    var names := Components(p);
    assert names[1..] == Components(rest);
    if rest != [] {
      assert names[..|names| - 1][1..] == Components(rest)[..|names| - 2];
    } else {
      assert names[..|names| - 1] == [];
    }
  }

  // ---- the inode table seen by one system call ----

  ghost predicate Linked(nodes: Nodes, d: nat) {
    d in nodes && nodes[d].nlink >= 1
  }

  ghost predicate Closed(nodes: Nodes) {
    forall d | Linked(nodes, d) && nodes[d].DirNode? :: forall n | n in nodes[d].ents :: Linked(nodes, nodes[d].ents[n])
  }

  /** `ip->ref` of the entries in use. */
  type Refs = map<nat, nat>

  ghost predicate Counts(refs: Refs) {
    forall i | i in refs :: refs[i] >= 1
  }

  /** One more reference to `i`. */
  function Get(refs: Refs, i: nat): Refs {
    refs[i := if i in refs then refs[i] + 1 else 1]
  }

  /** One reference to `i` less; an entry without references is not in use. */
  function Put(refs: Refs, i: nat): Refs
    requires i in refs && refs[i] >= 1
  {
    if refs[i] == 1 then refs - {i} else refs[i := refs[i] - 1]
  }

  /** The inodes after the put: the last reference to an unlinked inode frees it. */
  function Dropped(nodes: Nodes, refs: Refs, i: nat): Nodes
    requires i in refs
  {
    if refs[i] == 1 && i in nodes && nodes[i].nlink == 0 then nodes - {i} else nodes
  }

  lemma LinkedStays(nodes: Nodes, refs: Refs, i: nat)
    requires i in refs && Linked(nodes, i)
    ensures Dropped(nodes, refs, i) == nodes
  {
  }

  lemma GetKeeps(refs: Refs, i: nat)
    requires Counts(refs)
    ensures var r := Get(refs, i);
            Counts(r) && refs.Keys <= r.Keys && |r| <= |refs| + 1 && i in r && r[i] >= 1 && Put(r, i) == refs
  {
    var r := Get(refs, i);
    assert |r.Keys| <= |refs.Keys| + 1 by {
      assert r.Keys == refs.Keys + {i};
    }
    GetPut(refs, i);
  }

  lemma GetPut(refs: Refs, i: nat)
    requires Counts(refs)
    ensures Put(Get(refs, i), i) == refs
  {
    assert i !in refs ==> Put(Get(refs, i), i).Keys == refs.Keys;
  }

  /** Taking a reference to `j` before giving back one to `i`. */
  lemma Moves(refs: Refs, i: nat, j: nat)
    requires Counts(refs)
    ensures var r := Get(Get(refs, i), j);
            i in r && r[i] >= 1 && Put(r, i) == Get(refs, j)
  {
  }

  lemma NamesLinked(nodes: Nodes, d: nat, n: Name)
    requires Closed(nodes) && Linked(nodes, d) && nodes[d].DirNode? && n in nodes[d].ents
    ensures Linked(nodes, nodes[d].ents[n])
  {
  }

  class Table {
    const root: nat
    var nodes: Nodes
    var refs: Refs
    var locked: set<nat>
    var cwd: nat

    /** Every inode an entry of a linked directory names is allocated and linked,
        and so are the root and the current directory. */
    ghost predicate Valid()
      reads this
    {
      && Linked(nodes, root) && Linked(nodes, cwd) && Closed(nodes)
      && Counts(refs) && cwd in refs
    }

    /** `iget`: `panicked` is "iget: no inodes". */
    method Iget(inum: nat) returns (panicked: bool)
      modifies this`refs
      ensures panicked <==> inum !in old(refs) && |old(refs)| >= NINODE
      ensures refs == if panicked then old(refs) else Get(old(refs), inum)
    {
      if inum in refs {
        refs := refs[inum := refs[inum] + 1];
        return false;
      }
      if |refs| >= NINODE {
        return true;
      }
      refs := refs[inum := 1];
      return false;
    }

    method Idup(inum: nat)
      requires inum in refs
      modifies this`refs
      ensures refs == Get(old(refs), inum)
    {
      refs := refs[inum := refs[inum] + 1];
    }

    /** `ilock`: `panicked` is "ilock" or "ilock: no type". */
    method Ilock(inum: nat) returns (panicked: bool)
      requires inum !in locked
      modifies this`locked
      ensures panicked <==> inum !in refs || inum !in nodes
      ensures !panicked ==> locked == old(locked) + {inum}
    {
      if inum !in refs || inum !in nodes {
        return true;
      }
      locked := locked + {inum};
      return false;
    }

    method Iunlock(inum: nat)
      requires inum in locked
      modifies this`locked
      ensures locked == old(locked) - {inum}
    {
      locked := locked - {inum};
    }

    /** `iput`: the last reference to an unlinked inode frees it. */
    method Iput(inum: nat)
      requires inum in refs && refs[inum] >= 1
      modifies this`refs, this`nodes
      ensures refs == Put(old(refs), inum)
      ensures nodes == Dropped(old(nodes), old(refs), inum)
    {
      if refs[inum] == 1 && inum in nodes && nodes[inum].nlink == 0 {
        nodes := nodes - {inum};
      }
      refs := if refs[inum] == 1 then refs - {inum} else refs[inum := refs[inum] - 1];
    }

    method Iunlockput(inum: nat)
      requires inum in locked && inum in refs && refs[inum] >= 1
      modifies this`refs, this`nodes, this`locked
      ensures refs == Put(old(refs), inum) && locked == old(locked) - {inum}
      ensures nodes == Dropped(old(nodes), old(refs), inum)
    {
      Iunlock(inum);
      Iput(inum);
    }

    /** The tail of a round of `namex`: `dirlookup` in the locked directory, then
        `iunlockput` of it, so that the reference moves on to what was found. */
    method Enter(dir: nat, name: Name, ghost refs0: Refs) returns (next: Option<nat>, panicked: bool)
      requires Valid() && locked == {dir} && Linked(nodes, dir) && nodes[dir].DirNode?
      requires Counts(refs0) && cwd in refs0 && refs == Get(refs0, dir)
      modifies this`refs, this`locked, this`nodes
      ensures panicked ==> |old(refs)| >= NINODE
      ensures !panicked ==>
                && nodes == old(nodes) && locked == {} && Valid()
                && next == (if name in nodes[dir].ents then Some(nodes[dir].ents[name]) else None)
                && refs == (if next.Some? then Get(refs0, next.value) else refs0)
                && (next.Some? ==> Linked(nodes, next.value))
    {
      hide Dropped, Get, Put, Counts, Closed;
      GetKeeps(refs0, dir);
      next, panicked := None, false;
      if name in nodes[dir].ents {
        next := Some(nodes[dir].ents[name]);
        NamesLinked(nodes, dir, name);
        GetKeeps(refs0, next.value);
        Moves(refs0, dir, next.value);
        panicked := Iget(next.value);
        if panicked {
          return;
        }
      }
      LinkedStays(nodes, refs, dir);
      Iunlockput(dir);
    }

    /** `namex`. `ip` is the answer, 0 for none; with `parent` the last element
        is in `name`. On success exactly one reference is held that was not held
        before, on the answer; on failure none; no lock is held that was not held
        before, and no inode has changed. It panics only when the inode table has
        no room for two more inodes. */
    method Namex(path: Path, parent: bool) returns (ip: Option<nat>, name: Name, panicked: bool)
      requires Valid() && locked == {}
      modifies this`refs, this`locked, this`nodes
      ensures !panicked ==> Valid() && nodes == old(nodes) && locked == {}
      ensures panicked ==> |old(refs)| + 1 >= NINODE
      ensures var start := if path != [] && path[0] == SLASH then root else cwd;
              !panicked ==>
                match Answer(nodes, start, path, parent)
                case None => ip == None
                case Some((d, last)) => ip == Some(d) && (parent ==> name == last)
      ensures !panicked ==>
                refs == if ip.Some? then Get(old(refs), ip.value) else old(refs)
      ensures !panicked && ip.Some? ==> Linked(nodes, ip.value)
    {
      hide Dropped, Skipelem, Get, Put, Counts, Closed, Answer;
      ghost var refs0, nodes0 := refs, nodes;
      var p := path;
      name := [];
      var cur;
      if path != [] && path[0] == SLASH {
        cur := root;
        panicked := Iget(root);
        if panicked {
          return None, name, true;
        }
      } else {
        cur := cwd;
        Idup(cwd);
      }
      GetKeeps(refs0, cur);
      ghost var start := cur;
      while true
        invariant Valid() && nodes == nodes0 && locked == {}
        invariant Linked(nodes, cur) && refs == Get(refs0, cur)
        invariant Answer(nodes, cur, p, parent) == Answer(nodes, start, path, parent)
        decreases |p|
      {
        GetKeeps(refs0, cur);
        LinkedStays(nodes, refs, cur);
        var elem := Skipelem(p);
        if elem.None? {
          NoElement(nodes, cur, p, parent);
          break;
        }
        OneElement(nodes, cur, p, parent);
        SkipelemShortens(p);
        var rest := elem.value.0;
        name := elem.value.1;
        panicked := Ilock(cur);
        if nodes[cur].FileNode? {
          Iunlockput(cur);
          return None, name, false;
        }
        if parent && rest == [] {
          Iunlock(cur);
          return Some(cur), name, false;
        }
        var next;
        next, panicked := Enter(cur, name, refs0);
        if panicked || next.None? {
          return None, name, panicked;
        }
        cur := next.value;
        p := rest;
      }
      if parent {
        Iput(cur);
        return None, name, false;
      }
      return Some(cur), name, false;
    }
  }
}
