/** The inverted layout and the template layout are the same machine up to the
    order of the address slots. */
module Simulation {
  import opened Blocks
  import opened Tree
  import opened BlockMap
  import opened Itrunc

  /** The template slot whose role slot `s` plays in the inverted layout. */
  function Role(s: nat): nat
    requires s < NSLOTS
  {
    if s >= 2 then s - 2 else 12 - s
  }

  function InvertAddrs(a: Addrs): Addrs {
    seq(NSLOTS, s requires 0 <= s < NSLOTS => a[Role(s)])
  }

  function InvertInode(ip: Inode): Inode {
    ip.(addrs := InvertAddrs(ip.addrs))
  }

  function InvertAll(inodes: seq<Inode>): (r: seq<Inode>)
    ensures |r| == |inodes| && forall i | 0 <= i < |r| :: r[i] == InvertInode(inodes[i])
  {
    seq(|inodes|, i requires 0 <= i < |inodes| => InvertInode(inodes[i]))
  }

  /** The inverted twin of a state of the template layout. */
  function Invert(st: State): State {
    st.(layout := Inverted, inodes := InvertAll(st.inodes), dinodes := InvertAll(st.dinodes))
  }

  /** The slot of the inverted layout that plays the role of template slot `s`. */
  function Twin(s: nat): nat
    requires s < NSLOTS
  {
    if s < 11 then s + 2 else 12 - s
  }

  function InvertPath(p: Path): Path
    requires p.s < NSLOTS
  {
    match p case P0(s) => P0(Twin(s)) case P1(s, j) => P1(Twin(s), j) case P2(s, j, k) => P2(Twin(s), j, k)
  }

  lemma RolesPermute(s: nat)
    requires s < NSLOTS
    ensures Role(Twin(s)) == s && Twin(Role(s)) == s
    ensures Depth(Inverted, s) == Depth(Template, Role(s))
  {
  }

  lemma SetSlotInverts(st: State, i: nat, s: nat, b: uint)
    requires i < |st.inodes| && s < NSLOTS
    ensures SetSlot(Invert(st), i, Twin(s), b) == Invert(SetSlot(st, i, s, b))
  {
    var t := Twin(s);
    var a := st.inodes[i].addrs;
    assert InvertAddrs(a[s := b]) == InvertAddrs(a)[t := b] by {
      forall x: nat | x < NSLOTS ensures a[s := b][Role(x)] == if x == t then b else a[Role(x)] {
        RolesPermute(x);
      }
    }
    assert InvertAll(SetSlot(st, i, s, b).inodes) == SetSlot(Invert(st), i, t, b).inodes;
  }

  /** The slot level. */
  lemma SlotInverts(st: State, i: nat, s: nat, alloc: bool)
    requires Shape(st) && st.layout == Template && i < |st.inodes| && s < NSLOTS
    ensures Twin(s) < NSLOTS
    ensures var r := SlotGet(st, i, s, alloc);
            SlotGet(Invert(st), i, Twin(s), alloc) == Got(Invert(r.st), r.addr)
  {
    RolesPermute(s);
    RolesPermute(Twin(s));
    assert Invert(st).inodes[i].addrs[Twin(s)] == st.inodes[i].addrs[s];
    SetSlotInverts(Alloc(st).st, i, s, Alloc(st).addr);
  }

  /** A level below: index blocks are the same in both layouts. */
  lemma EntryInverts(st: State, x: uint, j: nat, alloc: bool)
    requires Shape(st) && st.layout == Template && j < NINDIRECT
    ensures var r := EntryGet(st, x, j, alloc);
            EntryGet(Invert(st), x, j, alloc) == Got(Invert(r.st), r.addr)
  {
  }

  lemma PathInverts(p: Path)
    requires PathOk(Template, p)
    ensures PathOk(Inverted, InvertPath(p)) && Level(InvertPath(p)) == Level(p) && InvertPath(p).s == Twin(p.s)
    ensures !p.P0? ==> InvertPath(Parent(p)) == Parent(InvertPath(p)) && LastIndex(InvertPath(p)) == LastIndex(p)
  {
    RolesPermute(p.s);
    RolesPermute(Twin(p.s));
  }

  lemma {:induction false} WalkInverts(st: State, i: nat, p: Path, alloc: bool)
    requires Shape(st) && st.layout == Template && i < |st.inodes| && PathOk(Template, p)
    ensures PathOk(Inverted, InvertPath(p))
    ensures var r := Walk(st, i, p, alloc);
            Walk(Invert(st), i, InvertPath(p), alloc) == Got(Invert(r.st), r.addr)
    decreases Level(p)
  {
    hide SlotGet, EntryGet, Role, Twin, InvertPath, InvertAll;
    PathInverts(p);
    if p.P0? {
      SlotInverts(st, i, p.s, alloc);
    } else {
      WalkInverts(st, i, Parent(p), alloc);
      var r := Walk(st, i, Parent(p), alloc);
      if r.addr != 0 {
        EntryInverts(r.st, r.addr, LastIndex(p), alloc);
      }
    }
  }

  /** Below the hard cap `bmap` of the inverted variant answers like that of the
      template, makes the same allocations and ends in the twin state. */
  lemma BmapInverts(st: State, i: nat, bn: nat, alloc: bool)
    requires Shape(st) && st.layout == Template && i < |st.inodes| && bn < HARD_CAP
    ensures var r := Bmap(st, i, bn, alloc);
            Bmap(Invert(st), i, bn, alloc) == Mapped(Invert(r.st), r.addr, r.panics)
  {
    hide Walk, InvertAll;
    WalkInverts(st, i, PathOf(Template, bn), true);
    PathsInvert(bn);
  }

  lemma PathsInvert(bn: nat)
    requires bn < HARD_CAP
    ensures bn < Capacity(Template) == Capacity(Inverted)
    ensures InvertPath(PathOf(Template, bn)) == PathOf(Inverted, bn)
  {
  }

  lemma {:induction false} FreeEntriesInverts(st: State, a: Block, j: nat)
    requires Shape(st) && st.layout == Template && j <= NINDIRECT
    ensures FreeEntries(Invert(st), a, j) == InvertOption(FreeEntries(st, a, j))
    decreases NINDIRECT - j
  {
    if j < NINDIRECT {
      if Word(a, j) == 0 {
        FreeEntriesInverts(st, a, j + 1);
      } else if Free(st, Word(a, j)).Some? {
        FreeEntriesInverts(Free(st, Word(a, j)).value, a, j + 1);
      }
    }
  }

  function InvertOption(o: Option<State>): Option<State> {
    match o case None => None case Some(st) => Some(Invert(st))
  }

  lemma FreeIndexInverts(st: State, x: nat)
    requires Shape(st) && st.layout == Template
    ensures FreeIndex(Invert(st), x) == InvertOption(FreeIndex(st, x))
  {
    hide FreeEntries, InvertAll;
    FreeEntriesInverts(st, Read(st.disk, x), 0);
  }

  lemma {:induction false} FreeIndexesInverts(st: State, a: Block, j: nat)
    requires Shape(st) && st.layout == Template && j <= NINDIRECT
    ensures FreeIndexes(Invert(st), a, j) == InvertOption(FreeIndexes(st, a, j))
    decreases NINDIRECT - j
  {
    hide FreeIndex, InvertAll;
    if j < NINDIRECT {
      if Word(a, j) == 0 {
        FreeIndexesInverts(st, a, j + 1);
      } else {
        FreeIndexInverts(st, Word(a, j));
        if FreeIndex(st, Word(a, j)).Some? {
          FreeIndexesInverts(FreeIndex(st, Word(a, j)).value, a, j + 1);
        }
      }
    }
  }

  lemma FreeTreeInverts(st: State, depth: nat, x: nat)
    requires Shape(st) && st.layout == Template
    ensures FreeTree(Invert(st), depth, x) == InvertOption(FreeTree(st, depth, x))
  {
    hide FreeIndex, FreeIndexes, InvertAll;
    FreeIndexInverts(st, x);
    FreeIndexesInverts(st, Read(st.disk, x), 0);
  }

  lemma {:induction false} FreeSlotsInverts(st: State, i: nat, t: nat)
    requires Shape(st) && st.layout == Template && i < |st.inodes| && t <= NSLOTS
    ensures FreeSlots(Invert(st), i, t) == InvertOption(FreeSlots(st, i, t))
    decreases NSLOTS - t
  {
    if t < NSLOTS {
      var addr := st.inodes[i].addrs[t];
      RolesPermute(t);
      assert Invert(st).inodes[i].addrs[SlotOrder(Inverted, t)] == addr;
      if addr == 0 {
        FreeSlotsInverts(st, i, t + 1);
      } else {
        FreeTreeInverts(st, Depth(Template, t), addr);
        RolesPermute(SlotOrder(Inverted, t));
        var freed := FreeTree(st, Depth(Template, t), addr);
        if freed.Some? {
          SetSlotInverts(freed.value, i, t, 0);
          FreeSlotsInverts(SetSlot(freed.value, i, t, 0), i, t + 1);
        }
      }
    }
  }

  /** `itrunc` of the inverted variant frees what that of the template frees. */
  lemma TruncateInverts(st: State, i: nat)
    requires Shape(st) && st.layout == Template && i < |st.inodes|
    ensures Truncate(Invert(st), i) == InvertOption(Truncate(st, i))
  {
    FreeSlotsInverts(st, i, 0);
    var o := FreeSlots(st, i, 0);
    if o.Some? {
      var st1 := SetSize(o.value, i, 0);
      assert InvertAll(st1.inodes) == SetSize(Invert(o.value), i, 0).inodes;
      assert InvertAll(Iupdate(st1, i).dinodes) == Iupdate(SetSize(Invert(o.value), i, 0), i).dinodes;
    }
  }

  // ---- any sequence of calls ----

  datatype Call = BmapCall(i: nat, bn: nat) | TruncateCall(i: nat)

  ghost predicate CallsOk(ninodes: nat, cs: seq<Call>) {
    forall k | 0 <= k < |cs| :: cs[k].i < ninodes && (cs[k].BmapCall? ==> cs[k].bn < HARD_CAP)
  }

  /** Run the calls, collecting the addresses answered; `None` after a panic. */
  function Calls(st: State, cs: seq<Call>): (r: (Option<State>, seq<uint>))
    requires Shape(st) && CallsOk(|st.inodes|, cs)
    decreases |cs|
  {
    if |cs| == 0 then (Some(st), [])
    else match cs[0]
      case BmapCall(i, bn) =>
        var r := Bmap(st, i, bn, true);
        if r.panics then (None, []) else
        var (st', answers) := Calls(r.st, cs[1..]);
        (st', [r.addr] + answers)
      case TruncateCall(i) =>
        match Truncate(st, i)
        case None => (None, [])
        case Some(st1) => Calls(st1, cs[1..])
  }

  /** Every sequence of `bmap` calls below the cap and `itrunc` calls gives the
      same answers in both layouts and ends in twin states. */
  lemma {:induction false} CallsInvert(st: State, cs: seq<Call>)
    requires Shape(st) && st.layout == Template && CallsOk(|st.inodes|, cs)
    ensures Calls(Invert(st), cs) == (InvertOption(Calls(st, cs).0), Calls(st, cs).1)
    decreases |cs|
  {
    if |cs| > 0 {
      assert cs[0].i < |st.inodes|;
      match cs[0]
      case BmapCall(i, bn) =>
        BmapInverts(st, i, bn, true);
        var r := Bmap(st, i, bn, true);
        if !r.panics {
          CallsInvert(r.st, cs[1..]);
        }
      case TruncateCall(i) =>
        TruncateInverts(st, i);
        if Truncate(st, i).Some? {
          CallsInvert(Truncate(st, i).value, cs[1..]);
        }
    }
  }
}
