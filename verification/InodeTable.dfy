/** The inode table as a protocol among any number of processes. A step is what one
    process does between two lock operations. */
module InodeTable {
  import opened Blocks

  type Proc = nat

  /** `holders` is ghost bookkeeping: which processes hold the `ref` references. */
  datatype Entry = Entry(inum: nat, ref: nat, valid: bool, typ: nat, nlink: nat, lock: Option<Proc>, holders: multiset<Proc>)

  datatype Dinode = Dinode(typ: nat, nlink: nat)

  /** Where a process stands inside `ialloc`, `ilock` or `iput`. */
  datatype Stage =
    | Idle
    | Claimed(inum: nat)  // ialloc has marked the inode, iget comes next
    | Loading(e: nat)     // ilock has the sleep lock
    | Freeing(e: nat)     // iput has released the table lock to free the inode
    | Freed(e: nat)       // type 0 is on the disk
    | Invalid(e: nat)     // valid is 0
    | Released(e: nat)    // the sleep lock is released, the reference still counts

  /** `linked`: the inode numbers that directories name. */
  datatype State = State(entries: seq<Entry>, disk: seq<Dinode>, pc: seq<Stage>, linked: set<nat>)

  datatype Step =
    | Iget(p: Proc, inum: nat)
    | Idup(p: Proc, q: Proc, e: nat)
    | Lock(p: Proc, e: nat)
    | Load(p: Proc)
    | Unlock(p: Proc, e: nat)
    | SetLinks(p: Proc, e: nat, k: nat)
    | AddName(inum: nat)
    | DropName(inum: nat)
    | Iput(p: Proc, e: nat)
    | FreeDisk(p: Proc)
    | Invalidate(p: Proc)
    | Release(p: Proc)
    | Finish(p: Proc)
    | Ialloc(p: Proc, inum: nat, typ: nat)

  // ---- the table search of iget ----

  predicate Serves(en: Entry, inum: nat) {
    en.ref > 0 && en.inum == inum
  }

  /** The live entry for an inode number, else the first unused one, else none. */
  predicate SlotIs(es: seq<Entry>, inum: nat, slot: Option<nat>) {
    if exists k :: 0 <= k < |es| && Serves(es[k], inum)
    then slot.Some? && slot.value < |es| && Serves(es[slot.value], inum)
    else match slot
      case None => forall k | 0 <= k < |es| :: es[k].ref > 0
      case Some(e) => e < |es| && es[e].ref == 0 && forall k | 0 <= k < e :: es[k].ref > 0
  }

  function Slot(es: seq<Entry>, inum: nat, k: nat, empty: Option<nat>): Option<nat>
    requires k <= |es|
    decreases |es| - k
  {
    if k == |es| then empty
    else if Serves(es[k], inum) then Some(k)
    else Slot(es, inum, k + 1, if empty.None? && es[k].ref == 0 then Some(k) else empty)
  }

  lemma {:induction false} SlotFound(es: seq<Entry>, inum: nat, k: nat, empty: Option<nat>)
    requires k <= |es| && forall j | 0 <= j < k :: !Serves(es[j], inum)
    requires match empty
             case None => forall j | 0 <= j < k :: es[j].ref > 0
             case Some(e) => e < k && es[e].ref == 0 && forall j | 0 <= j < e :: es[j].ref > 0
    ensures SlotIs(es, inum, Slot(es, inum, k, empty))
    decreases |es| - k
  {
    if k < |es| && !Serves(es[k], inum) {
      SlotFound(es, inum, k + 1, if empty.None? && es[k].ref == 0 then Some(k) else empty);
    }
  }

  function Got(en: Entry, p: Proc): Entry {
    en.(ref := en.ref + 1, holders := en.holders + multiset{p})
  }

  function Recycled(inum: nat, en: Entry, p: Proc): Entry {
    en.(inum := inum, ref := 1, valid := false, holders := multiset{p})
  }

  function Put(en: Entry, p: Proc): Entry {
    en.(ref := if en.ref == 0 then 0 else en.ref - 1, holders := en.holders - multiset{p})
  }

  // ---- steps ----

  predicate Proceeds(s: State, p: Proc) {
    p < |s.pc| && s.pc[p].Idle?
  }

  predicate Holds(s: State, p: Proc, e: nat) {
    e < |s.entries| && p in s.entries[e].holders
  }

  /** What callers respect: they pass `iget` only numbers that a directory names or
      that `ialloc` just gave them, lock, unlock and put only what they hold, do
      not put what they have locked, change an inode only under its lock, name only
      inodes with links, and drop the last link only of what is not named. */
  predicate Enabled(s: State, st: Step) {
    match st
    case Iget(p, inum) =>
      p < |s.pc| && (s.pc[p] == Claimed(inum) || (s.pc[p].Idle? && inum in s.linked)) && Slot(s.entries, inum, 0, None).Some?
    case Idup(p, q, e) => p < |s.pc| && Proceeds(s, q) && Holds(s, q, e)
    case Lock(p, e) => Proceeds(s, p) && Holds(s, p, e) && s.entries[e].lock.None?
    case Load(p) => p < |s.pc| && s.pc[p].Loading? && s.pc[p].e < |s.entries| && s.entries[s.pc[p].e].inum < |s.disk|
    case Unlock(p, e) => Proceeds(s, p) && e < |s.entries| && s.entries[e].lock == Some(p)
    case SetLinks(p, e, k) =>
      && Proceeds(s, p) && e < |s.entries| && s.entries[e].lock == Some(p) && s.entries[e].inum < |s.disk|
      && (k == 0 ==> s.entries[e].inum !in s.linked)
    case AddName(inum) => inum < |s.disk| && s.disk[inum].typ != 0 && s.disk[inum].nlink >= 1
    case DropName(inum) => true
    case Iput(p, e) => Proceeds(s, p) && Holds(s, p, e) && s.entries[e].lock != Some(p)
    case FreeDisk(p) => p < |s.pc| && s.pc[p].Freeing? && s.pc[p].e < |s.entries| && s.entries[s.pc[p].e].inum < |s.disk|
    case Invalidate(p) => p < |s.pc| && s.pc[p].Freed? && s.pc[p].e < |s.entries|
    case Release(p) => p < |s.pc| && s.pc[p].Invalid? && s.pc[p].e < |s.entries|
    case Finish(p) => p < |s.pc| && s.pc[p].Released? && s.pc[p].e < |s.entries|
    case Ialloc(p, inum, typ) => Proceeds(s, p) && inum < |s.disk| && s.disk[inum].typ == 0 && typ != 0
  }

  /** The test of `iput` that sends it into freeing. */
  predicate LastOfUnlinked(en: Entry) {
    en.ref == 1 && en.valid && en.nlink == 0
  }

  function SetEntry(s: State, e: nat, en: Entry): State
    requires e < |s.entries|
  {
    s.(entries := s.entries[e := en])
  }

  function Goto(s: State, p: Proc, stage: Stage): State
    requires p < |s.pc|
  {
    s.(pc := s.pc[p := stage])
  }

  function After(s: State, st: Step): State
    requires Enabled(s, st)
  {
    match st
    case Iget(p, inum) =>
      SlotFound(s.entries, inum, 0, None);
      var e := Slot(s.entries, inum, 0, None).value;
      var en := s.entries[e];
      Goto(SetEntry(s, e, if Serves(en, inum) then Got(en, p) else Recycled(inum, en, p)), p, Idle)
    case Idup(p, q, e) => SetEntry(s, e, Got(s.entries[e], p))
    case Lock(p, e) => Goto(SetEntry(s, e, s.entries[e].(lock := Some(p))), p, Loading(e))
    case Load(p) =>
      var e := s.pc[p].e;
      var en := s.entries[e];
      var d := s.disk[en.inum];
      Goto(SetEntry(s, e, if en.valid then en else en.(valid := true, typ := d.typ, nlink := d.nlink)), p, Idle)
    case Unlock(p, e) => SetEntry(s, e, s.entries[e].(lock := None))
    case SetLinks(p, e, k) =>
      var en := s.entries[e].(nlink := k);
      SetEntry(s, e, en).(disk := s.disk[en.inum := Dinode(en.typ, k)])
    case AddName(inum) => s.(linked := s.linked + {inum})
    case DropName(inum) => s.(linked := s.linked - {inum})
    case Iput(p, e) =>
      if LastOfUnlinked(s.entries[e]) then Goto(SetEntry(s, e, s.entries[e].(lock := Some(p))), p, Freeing(e))
      else SetEntry(s, e, Put(s.entries[e], p))
    case FreeDisk(p) =>
      var e := s.pc[p].e;
      var en := s.entries[e].(typ := 0);
      Goto(SetEntry(s, e, en).(disk := s.disk[en.inum := Dinode(0, en.nlink)]), p, Freed(e))
    case Invalidate(p) => Goto(SetEntry(s, s.pc[p].e, s.entries[s.pc[p].e].(valid := false)), p, Invalid(s.pc[p].e))
    case Release(p) => Goto(SetEntry(s, s.pc[p].e, s.entries[s.pc[p].e].(lock := None)), p, Released(s.pc[p].e))
    case Finish(p) => Goto(SetEntry(s, s.pc[p].e, Put(s.entries[s.pc[p].e], p)), p, Idle)
    case Ialloc(p, inum, typ) => Goto(s.(disk := s.disk[inum := Dinode(typ, 0)]), p, Claimed(inum))
  }

  // ---- the invariant ----

  /** What a process that has freed an inode may rely on: nobody else refers to the
      entry, and nobody will use what it caches. */
  predicate Leaving(s: State, p: Proc, e: nat)
    requires e < |s.entries|
  {
    p < |s.pc| &&
    if s.pc[p] == Freed(e) then s.entries[e].lock == Some(p)
    else (s.pc[p] == Invalid(e) || s.pc[p] == Released(e)) && !s.entries[e].valid
  }

  /** An entry whose inode is free on the disk, or claimed again: on its way out. */
  ghost predicate Dying(s: State, e: nat)
    requires e < |s.entries|
  {
    s.entries[e].ref == 1 && forall p | p in s.entries[e].holders :: Leaving(s, p, e)
  }

  /** An entry in use caches what is on the disk, unless it is just being freed. */
  ghost predicate Fresh(s: State, e: nat)
    requires e < |s.entries|
  {
    var en := s.entries[e];
    && en.inum < |s.disk|
    && (s.disk[en.inum].typ == 0 ==> Dying(s, e))
    && (forall p: nat | p < |s.pc| && s.pc[p] == Claimed(en.inum) :: Dying(s, e))
    && (en.valid ==> Dinode(en.typ, en.nlink) == s.disk[en.inum] || Emptied(s, e))
  }

  predicate Emptied(s: State, e: nat)
    requires e < |s.entries|
  {
    var l := s.entries[e].lock;
    l.Some? && l.value < |s.pc| && s.pc[l.value] == Freed(e)
  }

  /** The holder of a sleep lock holds a reference and has loaded the inode. */
  ghost predicate LockOk(s: State, e: nat)
    requires e < |s.entries| && s.entries[e].lock.Some?
  {
    var p := s.entries[e].lock.value;
    && p in s.entries[e].holders && p < |s.pc|
    && (s.entries[e].valid || s.pc[p] == Loading(e) || s.pc[p] == Invalid(e))
  }

  ghost predicate StageOk(s: State, p: Proc)
    requires p < |s.pc|
  {
    match s.pc[p]
    case Idle => true
    case Claimed(inum) =>
      && inum < |s.disk| && s.disk[inum].typ != 0 && s.disk[inum].nlink == 0
      && forall q: nat | q < |s.pc| && s.pc[q] == Claimed(inum) :: q == p
    case Loading(e) => Holds(s, p, e) && s.entries[e].lock == Some(p)
    case Freeing(e) =>
      && Holds(s, p, e) && s.entries[e].lock == Some(p) && s.entries[e].ref == 1
      && s.entries[e].valid && s.entries[e].nlink == 0
    case Freed(e) => Holds(s, p, e) && s.entries[e].lock == Some(p)
    case Invalid(e) => Holds(s, p, e) && s.entries[e].lock == Some(p) && !s.entries[e].valid
    case Released(e) => Holds(s, p, e) && s.entries[e].lock != Some(p)
  }

  ghost predicate EntryOk(s: State, e: nat)
    requires e < |s.entries|
  {
    && s.entries[e].ref == |s.entries[e].holders|
    && (s.entries[e].lock.Some? ==> LockOk(s, e))
    && (s.entries[e].ref > 0 ==> Fresh(s, e))
  }

  /** No two entries in use serve the same inode. */
  predicate Distinct(s: State) {
    forall e: nat, f: nat | e < f < |s.entries| && s.entries[e].ref > 0 && s.entries[f].ref > 0 ::
      s.entries[e].inum != s.entries[f].inum
  }

  ghost predicate LinkedOk(s: State) {
    forall inum | inum in s.linked :: inum < |s.disk| && s.disk[inum].typ != 0 && s.disk[inum].nlink >= 1
  }

  ghost predicate Inv(s: State) {
    && (forall e: nat | e < |s.entries| :: EntryOk(s, e))
    && (forall p: nat | p < |s.pc| :: StageOk(s, p))
    && Distinct(s) && LinkedOk(s)
  }

  // ---- what a step leaves alone ----

  lemma Alone(m: multiset<Proc>, p: Proc, q: Proc)
    requires p in m && q in m
    ensures |m| == 1 ==> p == q
  {
    assert |m| == 1 ==> |m - multiset{p}| == 0;
    assert p != q ==> q in m - multiset{p};
  }

  /** A stage that concerns no entry but `e`. */
  predicate About(stage: Stage, e: nat) {
    stage.Idle? || stage.Claimed? || stage.e == e
  }

  /** `s'` differs from `s` in entry `e`, in where process `p` stands, and on the
      disk at most in the inode of that entry. */
  predicate Only(s: State, s': State, e: nat, p: Proc) {
    && e < |s.entries| && p < |s.pc|
    && |s'.entries| == |s.entries| && s'.entries == s.entries[e := s'.entries[e]]
    && |s'.pc| == |s.pc| && s'.pc == s.pc[p := s'.pc[p]]
    && About(s.pc[p], e) && About(s'.pc[p], e) && (s'.pc[p].Claimed? ==> s'.pc[p] == s.pc[p])
    && s'.linked == s.linked
    && (s'.disk == s.disk ||
        (s.entries[e].ref > 0 && s.entries[e].inum < |s.disk| == |s'.disk| &&
         s'.disk == s.disk[s.entries[e].inum := s'.disk[s.entries[e].inum]]))
  }

  lemma EntryElsewhere(s: State, s': State, e: nat, p: Proc, f: nat)
    requires Only(s, s', e, p) && Distinct(s) && f < |s.entries| && f != e && EntryOk(s, f)
    ensures EntryOk(s', f)
  {
    var en := s.entries[f];
    assert s'.entries[f] == en;
    if en.ref > 0 {
      assert s'.disk[en.inum] == s.disk[en.inum];
      assert Dying(s, f) ==> Dying(s', f);
    }
  }

  lemma StageElsewhere(s: State, s': State, e: nat, p: Proc, q: Proc)
    requires Only(s, s', e, p) && q < |s.pc| && q != p && StageOk(s, q)
    requires s.pc[q].Claimed? ==> s'.disk == s.disk || s.pc[q].inum != s.entries[e].inum
    requires !s.pc[q].Idle? && !s.pc[q].Claimed? ==> s.pc[q].e != e
    ensures StageOk(s', q)
  {
    assert s'.pc[q] == s.pc[q];
  }

  lemma StagesKeep(s: State, s': State, e: nat, p: Proc)
    requires Inv(s) && Only(s, s', e, p)
    requires StageOk(s', p)
    requires forall q: nat | q < |s.pc| && q != p && s.pc[q].Claimed? :: s'.disk == s.disk || s.pc[q].inum != s.entries[e].inum
    requires forall q: nat | q < |s.pc| && q != p && !About(s.pc[q], |s.entries|) && s.pc[q].e == e :: StageOk(s', q)
    ensures forall q: nat | q < |s.pc| :: StageOk(s', q)
  {
    forall q: nat | q < |s.pc| && q != p ensures StageOk(s', q) {
      assert StageOk(s, q);
      if About(s.pc[q], |s.entries|) || s.pc[q].e != e {
        StageElsewhere(s, s', e, p, q);
      }
    }
  }

  lemma EntriesKeep(s: State, s': State, e: nat, p: Proc)
    requires Inv(s) && Only(s, s', e, p) && EntryOk(s', e)
    ensures forall f: nat | f < |s.entries| :: EntryOk(s', f)
  {
    forall f: nat | f < |s.entries| && f != e ensures EntryOk(s', f) {
      EntryElsewhere(s, s', e, p, f);
    }
  }

  // ---- every step keeps the invariant ----

  lemma IdupKeeps(s: State, st: Step)
    requires Inv(s) && Enabled(s, st) && st.Idup?
    ensures Inv(After(s, st))
  {
    var s', e, p := After(s, st), st.e, st.q;
    assert EntryOk(s, e) && StageOk(s, p);
    assert EntryOk(s', e);
    forall q: nat | q < |s.pc| && q != p && !About(s.pc[q], |s.entries|) && s.pc[q].e == e ensures StageOk(s', q) {
      assert StageOk(s, q);
      Alone(s.entries[e].holders, p, q);
    }
    EntriesKeep(s, s', e, p);
    StagesKeep(s, s', e, p);
  }

  lemma LockKeeps(s: State, st: Step)
    requires Inv(s) && Enabled(s, st) && st.Lock?
    ensures Inv(After(s, st))
  {
    var s', e, p := After(s, st), st.e, st.p;
    assert EntryOk(s, e) && StageOk(s, p);
    assert EntryOk(s', e);
    forall q: nat | q < |s.pc| && q != p && !About(s.pc[q], |s.entries|) && s.pc[q].e == e ensures StageOk(s', q) {
      assert StageOk(s, q);
    }
    EntriesKeep(s, s', e, p);
    StagesKeep(s, s', e, p);
  }

  lemma LoadKeeps(s: State, st: Step)
    requires Inv(s) && Enabled(s, st) && st.Load?
    ensures Inv(After(s, st))
  {
    var s', e, p := After(s, st), s.pc[st.p].e, st.p;
    assert EntryOk(s, e) && StageOk(s, p);
    assert EntryOk(s', e);
    forall q: nat | q < |s.pc| && q != p && !About(s.pc[q], |s.entries|) && s.pc[q].e == e ensures StageOk(s', q) {
      assert StageOk(s, q);
    }
    EntriesKeep(s, s', e, p);
    StagesKeep(s, s', e, p);
  }

  lemma UnlockKeeps(s: State, st: Step)
    requires Inv(s) && Enabled(s, st) && st.Unlock?
    ensures Inv(After(s, st))
  {
    var s', e, p := After(s, st), st.e, st.p;
    assert EntryOk(s, e) && StageOk(s, p);
    assert EntryOk(s', e);
    forall q: nat | q < |s.pc| && q != p && !About(s.pc[q], |s.entries|) && s.pc[q].e == e ensures StageOk(s', q) {
      assert StageOk(s, q);
    }
    EntriesKeep(s, s', e, p);
    StagesKeep(s, s', e, p);
  }

  lemma IputKeeps(s: State, st: Step)
    requires Inv(s) && Enabled(s, st) && st.Iput?
    ensures Inv(After(s, st))
  {
    var s', e, p := After(s, st), st.e, st.p;
    assert EntryOk(s, e) && StageOk(s, p);
    assert EntryOk(s', e);
    forall q: nat | q < |s.pc| && q != p && !About(s.pc[q], |s.entries|) && s.pc[q].e == e ensures StageOk(s', q) {
      assert StageOk(s, q);
      Alone(s.entries[e].holders, p, q);
    }
    EntriesKeep(s, s', e, p);
    StagesKeep(s, s', e, p);
  }

  lemma InvalidateKeeps(s: State, st: Step)
    requires Inv(s) && Enabled(s, st) && st.Invalidate?
    ensures Inv(After(s, st))
  {
    var s', e, p := After(s, st), s.pc[st.p].e, st.p;
    assert EntryOk(s, e) && StageOk(s, p);
    assert EntryOk(s', e);
    forall q: nat | q < |s.pc| && q != p && !About(s.pc[q], |s.entries|) && s.pc[q].e == e ensures StageOk(s', q) {
      assert StageOk(s, q);
    }
    EntriesKeep(s, s', e, p);
    StagesKeep(s, s', e, p);
  }

  lemma ReleaseKeeps(s: State, st: Step)
    requires Inv(s) && Enabled(s, st) && st.Release?
    ensures Inv(After(s, st))
  {
    var s', e, p := After(s, st), s.pc[st.p].e, st.p;
    assert EntryOk(s, e) && StageOk(s, p);
    assert EntryOk(s', e);
    forall q: nat | q < |s.pc| && q != p && !About(s.pc[q], |s.entries|) && s.pc[q].e == e ensures StageOk(s', q) {
      assert StageOk(s, q);
    }
    EntriesKeep(s, s', e, p);
    StagesKeep(s, s', e, p);
  }

  lemma FinishKeeps(s: State, st: Step)
    requires Inv(s) && Enabled(s, st) && st.Finish?
    ensures Inv(After(s, st))
  {
    var s', e, p := After(s, st), s.pc[st.p].e, st.p;
    assert EntryOk(s, e) && StageOk(s, p);
    assert EntryOk(s', e);
    forall q: nat | q < |s.pc| && q != p && !About(s.pc[q], |s.entries|) && s.pc[q].e == e ensures StageOk(s', q) {
      assert StageOk(s, q);
      Alone(s.entries[e].holders, p, q);
    }
    EntriesKeep(s, s', e, p);
    StagesKeep(s, s', e, p);
  }

  lemma FreeDiskKeeps(s: State, st: Step)
    requires Inv(s) && Enabled(s, st) && st.FreeDisk?
    ensures Inv(After(s, st))
  {
    var s', e, p := After(s, st), s.pc[st.p].e, st.p;
    assert EntryOk(s, e) && StageOk(s, p);
    forall q | q in s.entries[e].holders ensures q == p {
      Alone(s.entries[e].holders, p, q);
    }
    assert EntryOk(s', e);
    forall q: nat | q < |s.pc| && q != p && !About(s.pc[q], |s.entries|) ensures s.pc[q].e != e {
      assert StageOk(s, q);
    }
    EntriesKeep(s, s', e, p);
    StagesKeep(s, s', e, p);
  }

  lemma SetLinksKeeps(s: State, st: Step)
    requires Inv(s) && Enabled(s, st) && st.SetLinks?
    ensures Inv(After(s, st))
  {
    var s', e, p := After(s, st), st.e, st.p;
    assert EntryOk(s, e) && StageOk(s, p);
    assert EntryOk(s', e);
    forall q: nat | q < |s.pc| && q != p && !About(s.pc[q], |s.entries|) && s.pc[q].e == e ensures StageOk(s', q) {
      assert StageOk(s, q);
    }
    EntriesKeep(s, s', e, p);
    StagesKeep(s, s', e, p);
  }

  lemma NamesKeep(s: State, st: Step)
    requires Inv(s) && Enabled(s, st) && (st.AddName? || st.DropName?)
    ensures Inv(After(s, st))
  {
    var s' := After(s, st);
    forall f: nat | f < |s.entries| ensures EntryOk(s', f) {
      assert EntryOk(s, f);
      assert Dying(s, f) ==> Dying(s', f);
    }
    forall q: nat | q < |s.pc| ensures StageOk(s', q) {
      assert StageOk(s, q);
    }
  }

  lemma IallocKeeps(s: State, st: Step)
    requires Inv(s) && Enabled(s, st) && st.Ialloc?
    ensures Inv(After(s, st))
  {
    var s' := After(s, st);
    forall q: nat | q < |s.pc| && s.pc[q].Claimed? ensures s.pc[q].inum != st.inum {
      assert StageOk(s, q);
    }
    forall f: nat | f < |s.entries| ensures EntryOk(s', f) {
      assert EntryOk(s, f);
      assert Dying(s, f) ==> Dying(s', f);
    }
    forall q: nat | q < |s.pc| ensures StageOk(s', q) {
      assert StageOk(s, q);
    }
  }

  /** The inode `iget` is asked for is allocated, and nobody else has claimed it. */
  lemma IgetAllocated(s: State, p: Proc, inum: nat)
    requires Inv(s) && p < |s.pc| && (s.pc[p] == Claimed(inum) || (s.pc[p].Idle? && inum in s.linked))
    ensures inum < |s.disk| && s.disk[inum].typ != 0
    ensures forall q: nat | q < |s.pc| && s.pc[q] == Claimed(inum) :: q == p
    ensures s.disk[inum].nlink == 0 ==> s.pc[p] == Claimed(inum)
  {
    forall q: nat | q < |s.pc| && s.pc[q] == Claimed(inum) ensures q == p {
      assert StageOk(s, q);
    }
    assert StageOk(s, p);
  }

  /** A shared entry whose inode is claimed is one that its last holder has freed. */
  lemma Joined(s: State, p: Proc, e: nat)
    requires Inv(s) && e < |s.entries| && s.entries[e].ref > 0 && p < |s.pc|
    requires s.pc[p] == Claimed(s.entries[e].inum) || (s.pc[p].Idle? && s.entries[e].inum in s.linked)
    ensures s.entries[e].inum < |s.disk|
    ensures s.entries[e].valid ==> Dinode(s.entries[e].typ, s.entries[e].nlink) == s.disk[s.entries[e].inum] || Emptied(s, e)
    ensures forall q: nat | q < |s.pc| :: s.pc[q] != Freeing(e)
  {
    var en := s.entries[e];
    assert EntryOk(s, e);
    IgetAllocated(s, p, en.inum);
    forall q: nat | q < |s.pc| ensures s.pc[q] != Freeing(e) {
      assert StageOk(s, q);
    }
  }

  lemma IgetShared(s: State, p: Proc, e: nat)
    requires Inv(s) && e < |s.entries| && s.entries[e].ref > 0 && p < |s.pc|
    requires s.pc[p] == Claimed(s.entries[e].inum) || (s.pc[p].Idle? && s.entries[e].inum in s.linked)
    ensures Inv(Goto(SetEntry(s, e, Got(s.entries[e], p)), p, Idle))
  {
    var s' := Goto(SetEntry(s, e, Got(s.entries[e], p)), p, Idle);
    assert EntryOk(s, e);
    IgetAllocated(s, p, s.entries[e].inum);
    Joined(s, p, e);
    assert EntryOk(s', e) by {
      assert Fresh(s, e);
    }
    forall q: nat | q < |s.pc| && q != p && !About(s.pc[q], |s.entries|) && s.pc[q].e == e ensures StageOk(s', q) {
      assert StageOk(s, q);
    }
    EntriesKeep(s, s', e, p);
    StagesKeep(s, s', e, p);
  }

  lemma IgetRecycled(s: State, p: Proc, e: nat, inum: nat)
    requires Inv(s) && e < |s.entries| && s.entries[e].ref == 0 && p < |s.pc|
    requires s.pc[p] == Claimed(inum) || (s.pc[p].Idle? && inum in s.linked)
    requires forall f: nat | f < |s.entries| :: !Serves(s.entries[f], inum)
    ensures Inv(Goto(SetEntry(s, e, Recycled(inum, s.entries[e], p)), p, Idle))
  {
    var s' := Goto(SetEntry(s, e, Recycled(inum, s.entries[e], p)), p, Idle);
    assert EntryOk(s, e);
    assert s.entries[e].holders == multiset{};
    IgetAllocated(s, p, inum);
    assert EntryOk(s', e);
    forall q: nat | q < |s.pc| && q != p && !About(s.pc[q], |s.entries|) ensures s.pc[q].e != e {
      assert StageOk(s, q);
    }
    EntriesKeep(s, s', e, p);
    StagesKeep(s, s', e, p);
    forall f: nat | f < |s.entries| && f != e && s.entries[f].ref > 0 ensures s.entries[f].inum != inum {
      assert !Serves(s.entries[f], inum);
    }
  }

  lemma IgetKeeps(s: State, st: Step)
    requires Inv(s) && Enabled(s, st) && st.Iget?
    ensures Inv(After(s, st))
  {
    hide Inv;
    SlotFound(s.entries, st.inum, 0, None);
    var e := Slot(s.entries, st.inum, 0, None).value;
    if Serves(s.entries[e], st.inum) {
      IgetShared(s, st.p, e);
    } else {
      IgetRecycled(s, st.p, e, st.inum);
    }
  }

  lemma StepKeeps(s: State, st: Step)
    requires Inv(s) && Enabled(s, st)
    ensures Inv(After(s, st))
  {
    hide Inv, Enabled, After;
    match st {
      case Iget(_, _) => IgetKeeps(s, st);
      case Idup(_, _, _) => IdupKeeps(s, st);
      case Lock(_, _) => LockKeeps(s, st);
      case Load(_) => LoadKeeps(s, st);
      case Unlock(_, _) => UnlockKeeps(s, st);
      case SetLinks(_, _, _) => SetLinksKeeps(s, st);
      case AddName(_) => NamesKeep(s, st);
      case DropName(_) => NamesKeep(s, st);
      case Iput(_, _) => IputKeeps(s, st);
      case FreeDisk(_) => FreeDiskKeeps(s, st);
      case Invalidate(_) => InvalidateKeeps(s, st);
      case Release(_) => ReleaseKeeps(s, st);
      case Finish(_) => FinishKeeps(s, st);
      case Ialloc(_, _, _) => IallocKeeps(s, st);
    }
  }

  // ---- whole runs ----

  /** Nobody is inside an operation and the table is unused. */
  ghost predicate Start(s: State) {
    && (forall e: nat | e < |s.entries| :: s.entries[e].ref == 0 && s.entries[e].lock.None? && s.entries[e].holders == multiset{})
    && (forall p: nat | p < |s.pc| :: s.pc[p].Idle?)
    && LinkedOk(s)
  }

  ghost predicate Reachable(s: State, sts: seq<Step>, s': State)
    decreases |sts|
  {
    if sts == [] then s' == s else Enabled(s, sts[0]) && Reachable(After(s, sts[0]), sts[1..], s')
  }

  lemma {:induction false} InvKept(s: State, sts: seq<Step>, s': State)
    requires Inv(s) && Reachable(s, sts, s')
    ensures Inv(s')
    decreases |sts|
  {
    hide Inv, Enabled, After;
    if sts != [] {
      StepKeeps(s, sts[0]);
      InvKept(After(s, sts[0]), sts[1..], s');
    }
  }

  /** What every interleaving of every number of processes guarantees: entries in
      use serve different inodes and count their references; "ilock: no type" never
      fires, and what `ilock` leaves in the entry is what is on the disk; the
      `acquiresleep` inside `iput` never waits. */
  lemma EveryRunIsSafe(s0: State, sts: seq<Step>, s: State)
    requires Start(s0) && Reachable(s0, sts, s)
    ensures Distinct(s) && forall e: nat | e < |s.entries| :: s.entries[e].ref == |s.entries[e].holders|
    ensures forall p: nat | p < |s.pc| && s.pc[p].Loading? ::
              Enabled(s, Load(p)) && LoadsAllocated(s, p)
    ensures forall p: nat, e: nat | e < |s.entries| && Enabled(s, Iput(p, e)) && LastOfUnlinked(s.entries[e]) :: s.entries[e].lock.None?
  {
    hide After, Enabled;
    InitInv(s0);
    InvKept(s0, sts, s);
    forall e: nat | e < |s.entries| ensures s.entries[e].ref == |s.entries[e].holders| {
      assert EntryOk(s, e);
    }
    forall p: nat | p < |s.pc| && s.pc[p].Loading? ensures Enabled(s, Load(p)) && LoadsAllocated(s, p) {
      LoadIsFresh(s, p);
    }
    forall p: nat, e: nat | e < |s.entries| && Enabled(s, Iput(p, e)) && LastOfUnlinked(s.entries[e]) ensures s.entries[e].lock.None? {
      IputNeverWaits(s, p, e);
    }
  }

  lemma InitInv(s: State)
    requires Start(s)
    ensures Inv(s)
  {
    forall e: nat | e < |s.entries| ensures EntryOk(s, e) {
    }
    forall p: nat | p < |s.pc| ensures StageOk(s, p) {
    }
  }

  /** After the load of `ilock` the entry agrees with an allocated inode on the disk. */
  predicate LoadsAllocated(s: State, p: Proc)
    requires Enabled(s, Load(p))
  {
    var en := After(s, Load(p)).entries[s.pc[p].e];
    en.valid && en.typ != 0 && Dinode(en.typ, en.nlink) == s.disk[en.inum]
  }

  lemma LoadIsFresh(s: State, p: Proc)
    requires Inv(s) && p < |s.pc| && s.pc[p].Loading?
    ensures Enabled(s, Load(p)) && LoadsAllocated(s, p)
  {
    assert StageOk(s, p);
    var e := s.pc[p].e;
    assert EntryOk(s, e);
    assert s.entries[e].holders != multiset{} && !Leaving(s, p, e);
  }

  lemma IputNeverWaits(s: State, p: Proc, e: nat)
    requires Inv(s) && Enabled(s, Iput(p, e)) && LastOfUnlinked(s.entries[e])
    ensures s.entries[e].lock.None?
  {
    assert EntryOk(s, e);
    if s.entries[e].lock.Some? {
      Alone(s.entries[e].holders, p, s.entries[e].lock.value);
    }
  }

  // ---- an inode keeps the type it was allocated with ----

  /** A claimed inode stays as it was claimed until the claimer's `iget`. */
  lemma ClaimStays(s: State, st: Step, p: Proc)
    requires Inv(s) && Enabled(s, st) && p < |s.pc| && s.pc[p].Claimed?
    ensures var s', inum := After(s, st), s.pc[p].inum;
            && inum < |s.disk| == |s'.disk| && s'.disk[inum] == s.disk[inum]
            && |s'.pc| == |s.pc| && (st != Iget(p, inum) ==> s'.pc[p] == s.pc[p])
  {
    var inum := s.pc[p].inum;
    assert StageOk(s, p);
    match st {
      case Iget(q, i) => SlotFound(s.entries, i, 0, None);
      case SetLinks(q, e, _) =>
        LockHolds(s, e);
        NotClaimed(s, q, e, p);
      case FreeDisk(q) =>
        StageHolds(s, q);
        NotClaimed(s, q, s.pc[q].e, p);
      case _ =>
    }
  }

  lemma NotClaimed(s: State, q: Proc, e: nat, p: Proc)
    requires Inv(s) && Holds(s, q, e) && q < |s.pc| && p < |s.pc| && s.pc[p].Claimed? && !Leaving(s, q, e)
    ensures s.entries[e].inum != s.pc[p].inum
  {
    HeldServes(s, q, e);
    assert EntryOk(s, e);
  }

  /** A step that writes another inode's number to the disk does not touch one held. */
  lemma SetsNoType(s: State, q: Proc, f: nat, k: nat, e: nat)
    requires Inv(s) && Enabled(s, SetLinks(q, f, k)) && e < |s.entries| && s.entries[e].ref > 0
    requires s.entries[e].inum < |s.disk| && s.entries[f].inum == s.entries[e].inum
    ensures s.entries[f].typ == s.disk[s.entries[e].inum].typ
  {
    assert EntryOk(s, f);
    LockHolds(s, f);
    HeldServes(s, q, f);
  }

  lemma FreesAnother(s: State, q: Proc, p: Proc, e: nat)
    requires Inv(s) && Enabled(s, FreeDisk(q)) && Holds(s, p, e) && p < |s.pc| && !Freer(s.pc[p])
    ensures s.entries[s.pc[q].e].inum != s.entries[e].inum
  {
    var f := s.pc[q].e;
    assert StageOk(s, q) && EntryOk(s, f);
    HeldServes(s, q, f);
    HeldServes(s, p, e);
    if f == e {
      Alone(s.entries[f].holders, q, p);
    }
  }

  /** What a process holds and is not freeing is allocated on the disk. */
  lemma HeldIsAllocated(s: State, p: Proc, e: nat)
    requires Inv(s) && Holds(s, p, e) && p < |s.pc| && !Freer(s.pc[p])
    ensures s.entries[e].ref > 0 && s.entries[e].inum < |s.disk| && s.disk[s.entries[e].inum].typ != 0
  {
    HeldServes(s, p, e);
    assert EntryOk(s, e);
    assert !Leaving(s, p, e);
  }

  /** As long as a process holds an inode and is not freeing it, its type on the disk
      stays. */
  lemma TypeStays(s: State, st: Step, p: Proc, e: nat)
    requires Inv(s) && Enabled(s, st) && Holds(s, p, e) && p < |s.pc| && !Freer(s.pc[p])
    ensures var s', inum := After(s, st), s.entries[e].inum;
            && e < |s'.entries| && s'.entries[e].inum == inum < |s.disk| == |s'.disk|
            && s'.disk[inum].typ == s.disk[inum].typ
  {
    hide Inv;
    HeldIsAllocated(s, p, e);
    match st {
      case Iget(q, i) => SlotFound(s.entries, i, 0, None);
      case SetLinks(q, f, k) =>
        if s.entries[f].inum == s.entries[e].inum {
          SetsNoType(s, q, f, k, e);
        }
      case FreeDisk(q) => FreesAnother(s, q, p, e);
      case _ =>
    }
  }

  /** Process `p` does not call `iget` in the run. */
  predicate NoIget(sts: seq<Step>, p: Proc) {
    forall k | 0 <= k < |sts| :: !(sts[k].Iget? && sts[k].p == p)
  }

  /** Process `p` holds entry `e`, and is not freeing it, at every moment of the run. */
  ghost predicate HoldsOn(s: State, sts: seq<Step>, p: Proc, e: nat)
    decreases |sts|
  {
    && Holds(s, p, e) && p < |s.pc| && !Freer(s.pc[p])
    && (sts != [] && Enabled(s, sts[0]) ==> HoldsOn(After(s, sts[0]), sts[1..], p, e))
  }

  lemma {:induction false} ClaimStaysOverRun(s: State, sts: seq<Step>, s': State, p: Proc, inum: nat)
    requires Inv(s) && Reachable(s, sts, s') && p < |s.pc| && s.pc[p] == Claimed(inum) && NoIget(sts, p)
    ensures Inv(s') && p < |s'.pc| && s'.pc[p] == Claimed(inum)
    ensures inum < |s.disk| == |s'.disk| && s'.disk[inum] == s.disk[inum]
    decreases |sts|
  {
    hide Inv, Enabled, After;
    if sts != [] {
      StepKeeps(s, sts[0]);
      ClaimStays(s, sts[0], p);
      ClaimStaysOverRun(After(s, sts[0]), sts[1..], s', p, inum);
    } else {
      IgetAllocated(s, p, inum);
    }
  }

  lemma {:induction false} TypeStaysOverRun(s: State, sts: seq<Step>, s': State, p: Proc, e: nat)
    requires Inv(s) && Reachable(s, sts, s') && HoldsOn(s, sts, p, e)
    ensures Inv(s') && Holds(s', p, e) && s'.entries[e].inum == s.entries[e].inum < |s.disk| == |s'.disk|
    ensures s'.disk[s.entries[e].inum].typ == s.disk[s.entries[e].inum].typ
    decreases |sts|
  {
    hide Inv, Enabled, After;
    if sts != [] {
      StepKeeps(s, sts[0]);
      TypeStays(s, sts[0], p, e);
      TypeStaysOverRun(After(s, sts[0]), sts[1..], s', p, e);
    } else {
      HeldInRange(s, p, e);
    }
  }

  lemma HeldInRange(s: State, p: Proc, e: nat)
    requires Inv(s) && Holds(s, p, e)
    ensures s.entries[e].inum < |s.disk|
  {
    HeldServes(s, p, e);
    assert EntryOk(s, e);
  }

  /** A process that allocates an inode finds, when it has locked it, the type it asked
      for: whatever others do before its `iget`, and after it as long as it holds the
      inode, also when the entry still belonged to the inode that had the number before. */
  lemma AllocatedAsAsked(s: State, p: Proc, inum: nat, typ: nat, sts1: seq<Step>, s1: State, sts2: seq<Step>, s2: State)
    requires Inv(s) && Enabled(s, Ialloc(p, inum, typ))
    requires Reachable(After(s, Ialloc(p, inum, typ)), sts1, s1) && NoIget(sts1, p)
    requires Enabled(s1, Iget(p, inum)) && Reachable(After(s1, Iget(p, inum)), sts2, s2)
    requires var e := Slot(s1.entries, inum, 0, None).value;
             HoldsOn(After(s1, Iget(p, inum)), sts2, p, e) && p < |s2.pc| && s2.pc[p] == Loading(e)
    ensures var e := Slot(s1.entries, inum, 0, None).value;
            && Enabled(s2, Load(p)) && e < |After(s2, Load(p)).entries|
            && After(s2, Load(p)).entries[e].inum == inum && After(s2, Load(p)).entries[e].typ == typ
  {
    hide Inv;
    var s0 := After(s, Ialloc(p, inum, typ));
    StepKeeps(s, Ialloc(p, inum, typ));
    ClaimStaysOverRun(s0, sts1, s1, p, inum);
    StepKeeps(s1, Iget(p, inum));
    SlotFound(s1.entries, inum, 0, None);
    var e := Slot(s1.entries, inum, 0, None).value;
    TypeStaysOverRun(After(s1, Iget(p, inum)), sts2, s2, p, e);
    LoadIsFresh(s2, p);
  }

  // ---- nobody inside an operation is ever stuck ----

  /** Every process inside `ialloc`, `ilock` or `iput` can take its next step, unless
      `iget` finds the table full. */
  lemma StageProceeds(s: State, p: Proc)
    requires Inv(s) && p < |s.pc|
    ensures match s.pc[p]
            case Idle => true
            case Claimed(inum) => Slot(s.entries, inum, 0, None).Some? ==> Enabled(s, Iget(p, inum))
            case Loading(_) => Enabled(s, Load(p))
            case Freeing(_) => Enabled(s, FreeDisk(p))
            case Freed(_) => Enabled(s, Invalidate(p))
            case Invalid(_) => Enabled(s, Release(p))
            case Released(_) => Enabled(s, Finish(p))
  {
    assert StageOk(s, p);
    if s.pc[p].Loading? || s.pc[p].Freeing? {
      HeldInRange(s, p, s.pc[p].e);
    }
  }

  /** A sleep lock is held by a process that can give it up: it is between calls, or can
      take a next step. */
  lemma LockHolderProceeds(s: State, e: nat)
    requires Inv(s) && e < |s.entries| && s.entries[e].lock.Some?
    ensures var p := s.entries[e].lock.value;
            && p < |s.pc| && Holds(s, p, e)
            && (s.pc[p].Idle? ==> Enabled(s, Unlock(p, e)))
  {
    assert EntryOk(s, e);
  }

  // ---- references are conserved ----

  /** How many references process `p` holds. */
  function HeldBy(es: seq<Entry>, p: Proc): nat {
    if es == [] then 0 else HeldBy(es[..|es| - 1], p) + es[|es| - 1].holders[p]
  }

  lemma {:induction false} HeldSet(es: seq<Entry>, e: nat, en: Entry, p: Proc)
    requires e < |es|
    ensures HeldBy(es[e := en], p) == HeldBy(es, p) - es[e].holders[p] + en.holders[p]
    decreases |es|
  {
    var last := |es| - 1;
    if e < last {
      HeldSet(es[..last], e, en, p);
      assert es[e := en][..last] == es[..last][e := en];
    } else {
      assert es[e := en][..last] == es[..last];
    }
  }

  /** The step is a return of `iget` or `idup` to process `p`. */
  predicate Takes(st: Step, p: Proc) {
    (st.Iget? || st.Idup?) && st.p == p
  }

  /** The step is the end of an `iput` by process `p`. */
  predicate GivesBack(s: State, st: Step, p: Proc)
    requires Enabled(s, st)
  {
    (st.Finish? && st.p == p) || (st.Iput? && st.p == p && !LastOfUnlinked(s.entries[st.e]))
  }

  /** The entry a step may change. */
  function Touched(s: State, st: Step): Option<nat>
    requires Enabled(s, st)
  {
    match st
    case Iget(_, inum) => Slot(s.entries, inum, 0, None)
    case Idup(_, _, e) => Some(e)
    case Lock(_, e) => Some(e)
    case Unlock(_, e) => Some(e)
    case SetLinks(_, e, _) => Some(e)
    case Iput(_, e) => Some(e)
    case Load(p) => Some(s.pc[p].e)
    case FreeDisk(p) => Some(s.pc[p].e)
    case Invalidate(p) => Some(s.pc[p].e)
    case Release(p) => Some(s.pc[p].e)
    case Finish(p) => Some(s.pc[p].e)
    case _ => None
  }

  lemma TouchesOne(s: State, st: Step)
    requires Enabled(s, st)
    ensures match Touched(s, st)
            case None => After(s, st).entries == s.entries && !st.Iget? && !st.Idup? && !st.Iput? && !st.Finish?
            case Some(e) => e < |s.entries| == |After(s, st).entries| && After(s, st).entries == s.entries[e := After(s, st).entries[e]]
  {
    if st.Iget? {
      SlotFound(s.entries, st.inum, 0, None);
    }
  }

  lemma IgetHolders(s: State, q: Proc, inum: nat, p: Proc)
    requires Inv(s) && Enabled(s, Iget(q, inum))
    ensures var e, s' := Slot(s.entries, inum, 0, None).value, After(s, Iget(q, inum));
            e < |s.entries| == |s'.entries| && s'.entries[e].holders[p] == s.entries[e].holders[p] + if q == p then 1 else 0
  {
    hide Inv;
    SlotFound(s.entries, inum, 0, None);
    UnusedUnheld(s, Slot(s.entries, inum, 0, None).value);
  }

  lemma FinishHolders(s: State, q: Proc, p: Proc)
    requires Inv(s) && Enabled(s, Finish(q))
    ensures var e, s' := s.pc[q].e, After(s, Finish(q));
            e < |s.entries| == |s'.entries| && s'.entries[e].holders[p] + (if q == p then 1 else 0) == s.entries[e].holders[p]
  {
    hide Inv;
    StageHolds(s, q);
  }

  lemma TouchedHolders(s: State, st: Step, p: Proc)
    requires Inv(s) && Enabled(s, st) && Touched(s, st).Some?
    ensures var e := Touched(s, st).value;
            e < |s.entries| == |After(s, st).entries| &&
            After(s, st).entries[e].holders[p] + (if GivesBack(s, st, p) then 1 else 0) ==
            s.entries[e].holders[p] + (if Takes(st, p) then 1 else 0)
  {
    if st.Iget? {
      IgetHolders(s, st.p, st.inum, p);
    } else if st.Finish? {
      FinishHolders(s, st.p, p);
    } else {
      hide Inv;
    }
  }

  lemma UnusedUnheld(s: State, e: nat)
    requires Inv(s) && e < |s.entries|
    ensures s.entries[e].ref == 0 ==> s.entries[e].holders == multiset{}
  {
    assert EntryOk(s, e);
  }

  lemma StepConserves(s: State, st: Step, p: Proc)
    requires Inv(s) && Enabled(s, st)
    ensures HeldBy(After(s, st).entries, p) + (if GivesBack(s, st, p) then 1 else 0) ==
            HeldBy(s.entries, p) + (if Takes(st, p) then 1 else 0)
  {
    hide Inv, Enabled, After, HeldBy;
    TouchesOne(s, st);
    if Touched(s, st).Some? {
      var e := Touched(s, st).value;
      TouchedHolders(s, st, p);
      HeldSet(s.entries, e, After(s, st).entries[e], p);
    }
  }

  /** How many times process `p` takes and gives back a reference in a run. */
  ghost function Taken(sts: seq<Step>, p: Proc): nat {
    if sts == [] then 0 else (if Takes(sts[0], p) then 1 else 0) + Taken(sts[1..], p)
  }

  ghost function Given(s: State, sts: seq<Step>, p: Proc): nat
    decreases |sts|
  {
    if sts == [] || !Enabled(s, sts[0]) then 0
    else (if GivesBack(s, sts[0], p) then 1 else 0) + Given(After(s, sts[0]), sts[1..], p)
  }

  /** Over every run the references a process holds are those it took less those
      it gave back. */
  lemma {:induction false} ReferencesConserved(s: State, sts: seq<Step>, s': State, p: Proc)
    requires Inv(s) && Reachable(s, sts, s')
    ensures HeldBy(s'.entries, p) + Given(s, sts, p) == HeldBy(s.entries, p) + Taken(sts, p)
    decreases |sts|
  {
    hide Inv, Enabled, After, HeldBy, Takes, GivesBack;
    if sts != [] {
      StepKeeps(s, sts[0]);
      StepConserves(s, sts[0], p);
      ReferencesConserved(After(s, sts[0]), sts[1..], s', p);
    }
  }

  // ---- inodes that are freed too late ----

  /** Allocated on the disk, without links, and nobody is left to free it: only
      `ireclaim` at the next boot will. */
  ghost predicate Stranded(s: State, inum: nat) {
    && inum < |s.disk| && s.disk[inum].typ != 0 && s.disk[inum].nlink == 0
    && (forall p: nat | p < |s.pc| :: s.pc[p] != Claimed(inum))
    && (forall e: nat | e < |s.entries| :: !Serves(s.entries[e], inum))
  }

  /** Where a process has freed the inode of entry `e` and will count its reference
      down without looking again. */
  predicate InWindow(stage: Stage, e: nat) {
    stage == Freed(e) || stage == Invalid(e) || stage == Released(e)
  }

  /** Allocated, without links, claimed by nobody, and the entry that serves it, if
      there is one, is held once, by a process that will not look again. */
  ghost predicate Doomed(s: State, inum: nat) {
    && inum < |s.disk| && s.disk[inum].typ != 0 && s.disk[inum].nlink == 0
    && (forall p: nat | p < |s.pc| :: s.pc[p] != Claimed(inum))
    && (forall e: nat | e < |s.entries| && Serves(s.entries[e], inum) :: LastLeaves(s, e))
  }

  ghost predicate LastLeaves(s: State, e: nat)
    requires e < |s.entries|
  {
    s.entries[e].ref == 1 && forall p | p in s.entries[e].holders :: p < |s.pc| && InWindow(s.pc[p], e)
  }

  /** The put that is to blame: of an inode that has no links on the disk, and either
      it is the last put and the entry was never loaded, or one other reference is
      left, of a process in its window. */
  ghost predicate Dooms(s: State, st: Step, inum: nat)
    requires Enabled(s, st)
  {
    st.Iput? &&
    var en := s.entries[st.e];
    && en.inum == inum < |s.disk| && s.disk[inum].typ != 0 && s.disk[inum].nlink == 0
    && ((en.ref == 1 && !en.valid) ||
        (en.ref == 2 && forall q | q in en.holders - multiset{st.p} :: q < |s.pc| && InWindow(s.pc[q], st.e)))
  }

  predicate Freer(stage: Stage) {
    stage.Freeing? || stage.Freed? || stage.Invalid? || stage.Released?
  }

  /** At most one process is freeing the inode of an entry. */
  predicate OneFreer(s: State) {
    forall p: nat, q: nat | p < |s.pc| && q < |s.pc| && p != q && Freer(s.pc[p]) && Freer(s.pc[q]) :: s.pc[p].e != s.pc[q].e
  }

  lemma FreersKeep(s: State, st: Step)
    requires Inv(s) && OneFreer(s) && Enabled(s, st)
    ensures OneFreer(After(s, st))
  {
    hide Inv;
    if st.Iput? && LastOfUnlinked(s.entries[st.e]) {
      forall q: nat | q < |s.pc| && q != st.p && Freer(s.pc[q]) ensures s.pc[q].e != st.e {
        SoleHolder(s, st.p, st.e, q);
      }
    } else if st.Iget? {
      SlotFound(s.entries, st.inum, 0, None);
    }
  }

  /** Nobody is freeing the inode of an entry that another process alone refers to. */
  lemma SoleHolder(s: State, p: Proc, e: nat, q: Proc)
    requires Inv(s) && Holds(s, p, e) && s.entries[e].ref == 1 && q < |s.pc| && q != p
    ensures Freer(s.pc[q]) ==> s.pc[q].e != e
  {
    assert StageOk(s, q) && EntryOk(s, e);
    if Holds(s, q, e) {
      Alone(s.entries[e].holders, p, q);
    }
  }

  lemma SameSizes(s: State, st: Step)
    requires Enabled(s, st)
    ensures var s' := After(s, st); |s'.entries| == |s.entries| && |s'.pc| == |s.pc| && |s'.disk| == |s.disk|
  {
    if st.Iget? {
      SlotFound(s.entries, st.inum, 0, None);
    }
  }

  lemma HeldServes(s: State, p: Proc, e: nat)
    requires Inv(s) && Holds(s, p, e)
    ensures Serves(s.entries[e], s.entries[e].inum)
  {
    assert EntryOk(s, e);
    assert s.entries[e].holders == (s.entries[e].holders - multiset{p}) + multiset{p};
  }

  /** No step but the end of a window, or an `iget` of something else, touches what
      is doomed. */
  lemma DoomedUntouched(s: State, st: Step, inum: nat)
    requires Inv(s) && Enabled(s, st) && Doomed(s, inum)
    ensures st.Iget? || st.Ialloc? ==> st.inum != inum
    ensures st.Idup? || st.Lock? || st.Unlock? || st.SetLinks? || st.Iput? ==>
              s.entries[st.e].inum != inum
    ensures st.Load? || st.FreeDisk? ==> s.entries[s.pc[st.p].e].inum != inum
  {
    hide Inv;
    match st {
      case Iget(p, i) => IgetAllocated(s, p, i);
      case SetLinks(p, e, _) => LockHolds(s, e); NotLeaving(s, p, e, inum);
      case Unlock(p, e) => LockHolds(s, e); NotLeaving(s, p, e, inum);
      case FreeDisk(p) => StageHolds(s, p); NotLeaving(s, p, s.pc[p].e, inum);
      case Load(p) => StageHolds(s, p); NotLeaving(s, p, s.pc[p].e, inum);
      case Idup(_, q, e) => NotLeaving(s, q, e, inum);
      case Lock(p, e) => NotLeaving(s, p, e, inum);
      case Iput(p, e) => NotLeaving(s, p, e, inum);
      case _ =>
    }
  }

  lemma NotLeaving(s: State, p: Proc, e: nat, inum: nat)
    requires Inv(s) && Doomed(s, inum) && Holds(s, p, e) && p < |s.pc| && !InWindow(s.pc[p], e)
    ensures s.entries[e].inum != inum
  {
    HeldServes(s, p, e);
  }

  lemma LockHolds(s: State, e: nat)
    requires Inv(s) && e < |s.entries| && s.entries[e].lock.Some?
    ensures Holds(s, s.entries[e].lock.value, e)
  {
    assert EntryOk(s, e);
  }

  lemma StageHolds(s: State, p: Proc)
    requires Inv(s) && p < |s.pc| && (Freer(s.pc[p]) || s.pc[p].Loading?)
    ensures Holds(s, p, s.pc[p].e)
  {
    assert StageOk(s, p);
  }

  lemma StaysDoomed(s: State, st: Step, inum: nat)
    requires Inv(s) && Enabled(s, st) && Doomed(s, inum)
    ensures Doomed(After(s, st), inum)
  {
    hide Inv;
    var s' := After(s, st);
    SameSizes(s, st);
    DoomedUntouched(s, st, inum);
    if st.Iget? {
      SlotFound(s.entries, st.inum, 0, None);
    }
    forall e: nat | e < |s.entries| && Serves(s'.entries[e], inum) ensures LastLeaves(s', e) {
      assert Serves(s.entries[e], inum);
      assert LastLeaves(s, e);
    }
  }

  lemma BecomesDoomed(s: State, st: Step, inum: nat)
    requires Inv(s) && Enabled(s, st) && Dooms(s, st, inum)
    ensures Doomed(After(s, st), inum)
  {
    var s' := After(s, st);
    var e := st.e;
    assert EntryOk(s, e);
    assert !Leaving(s, st.p, e);
    forall f: nat | f < |s.entries| && Serves(s'.entries[f], inum) ensures LastLeaves(s', f) {
      assert f == e;
    }
  }

  /** An entry that stops serving its inode has lost its last reference. */
  lemma StopsServing(s: State, st: Step, e: nat, inum: nat)
    requires Enabled(s, st) && e < |s.entries| && |After(s, st).entries| == |s.entries|
    requires Serves(s.entries[e], inum) && !Serves(After(s, st).entries[e], inum)
    ensures s.entries[e].ref == 1
    ensures (st.Iput? && st.e == e && !LastOfUnlinked(s.entries[e])) || (st.Finish? && s.pc[st.p].e == e)
  {
    if st.Iget? {
      SlotFound(s.entries, st.inum, 0, None);
    }
  }

  lemma UnloadedIput(s: State, p: Proc, e: nat)
    requires Inv(s) && Enabled(s, Iput(p, e)) && s.entries[e].ref == 1 && !LastOfUnlinked(s.entries[e])
    requires s.entries[e].inum < |s.disk| && s.disk[s.entries[e].inum].nlink == 0
    ensures !s.entries[e].valid
  {
    assert EntryOk(s, e);
    if s.entries[e].lock.Some? {
      Alone(s.entries[e].holders, p, s.entries[e].lock.value);
    }
  }

  /** A last reference that ends its window was leaving already. */
  lemma FinishWasLeaving(s: State, p: Proc)
    requires Inv(s) && Enabled(s, Finish(p)) && s.entries[s.pc[p].e].ref == 1
    ensures LastLeaves(s, s.pc[p].e)
  {
    var e := s.pc[p].e;
    assert EntryOk(s, e) && StageOk(s, p);
    forall q | q in s.entries[e].holders ensures q == p {
      Alone(s.entries[e].holders, p, q);
    }
  }

  /** The end of a window does not leave another window behind. */
  lemma FinishLeavesNone(s: State, p: Proc)
    requires Inv(s) && OneFreer(s) && Enabled(s, Finish(p))
    ensures !LastLeaves(After(s, Finish(p)), s.pc[p].e)
  {
    var e := s.pc[p].e;
    var s' := After(s, Finish(p));
    assert EntryOk(s, e) && StageOk(s, p);
    if s'.entries[e].ref == 1 {
      var q :| q in s'.entries[e].holders;
      assert q < |s.pc| && InWindow(s'.pc[q], e) ==> q != p && Freer(s.pc[q]);
    }
  }

  /** Some process refers to the entry and is in none of the stages after freeing. */
  predicate Staying(s: State, p: Proc, e: nat) {
    Holds(s, p, e) && (p >= |s.pc| || !InWindow(s.pc[p], e))
  }

  lemma StayingStays(s: State, p: Proc, e: nat)
    requires Staying(s, p, e)
    ensures !LastLeaves(s, e)
  {
  }

  /** Steps that neither take, give nor free. */
  predicate Quiet(st: Step) {
    st.Load? || st.Unlock? || st.SetLinks? || st.AddName? || st.DropName? || st.Invalidate? || st.Release? || st.Ialloc?
  }

  lemma QuietlyLeaving(s: State, st: Step, e: nat)
    requires Enabled(s, st) && Quiet(st) && e < |s.entries| == |After(s, st).entries| && LastLeaves(After(s, st), e)
    ensures LastLeaves(s, e)
  {
  }

  /** A step that makes a process hold or use an entry leaves it held by one that stays;
      other entries it does not change. */
  lemma TakingIsNotLeaving(s: State, st: Step, e: nat)
    requires Enabled(s, st) && (st.Iget? || st.Idup? || st.Lock?) && e < |s.entries| == |After(s, st).entries|
    requires LastLeaves(After(s, st), e) && s.entries[e].ref > 0
    ensures LastLeaves(s, e)
  {
    var s' := After(s, st);
    match st {
      case Idup(p, q, f) =>
        if f == e {
          StayingStays(s', q, e);
        }
      case Lock(p, f) =>
        if f == e {
          StayingStays(s', p, e);
        }
      case _ =>
    }
  }

  lemma TakesOrGives(s: State, st: Step, e: nat)
    requires Inv(s) && OneFreer(s) && Enabled(s, st) && !Quiet(st) && e < |s.entries| == |After(s, st).entries|
    requires s.entries[e].ref > 0 && After(s, st).entries[e].inum == s.entries[e].inum
    requires !LastLeaves(s, e) && LastLeaves(After(s, st), e)
    ensures (st.Iput? && st.e == e && s.entries[e].ref == 2 && s.pc == After(s, st).pc) ||
            (st.FreeDisk? && s.pc[st.p].e == e)
  {
    if st.Iget? || st.Idup? || st.Lock? {
      hide Inv, OneFreer, Enabled, After, LastLeaves;
      TakingIsNotLeaving(s, st, e);
    } else {
      hide Inv, OneFreer;
      if st.Finish? && s.pc[st.p].e == e {
        FinishLeavesNone(s, st.p);
      }
    }
  }

  /** How the entry of an inode can come to be held by a leaving process alone. */
  lemma ComesToLeave(s: State, st: Step, e: nat)
    requires Inv(s) && OneFreer(s) && Enabled(s, st) && e < |s.entries| == |After(s, st).entries|
    requires s.entries[e].ref > 0 && After(s, st).entries[e].inum == s.entries[e].inum
    requires !LastLeaves(s, e) && LastLeaves(After(s, st), e)
    ensures (st.Iput? && st.e == e && s.entries[e].ref == 2 && s.pc == After(s, st).pc) ||
            (st.FreeDisk? && s.pc[st.p].e == e)
  {
    hide Inv, OneFreer, After, LastLeaves;
    if Quiet(st) {
      QuietlyLeaving(s, st, e);
    } else {
      TakesOrGives(s, st, e);
    }
  }

  /** What was served, and not by a leaving process alone, is doomed by a put only. */
  lemma ServedThenDoomed(s: State, st: Step, e: nat, inum: nat)
    requires Inv(s) && OneFreer(s) && Enabled(s, st) && Doomed(After(s, st), inum)
    requires e < |s.entries| && Serves(s.entries[e], inum) && !LastLeaves(s, e)
    ensures Dooms(s, st, inum)
  {
    var s' := After(s, st);
    SameSizes(s, st);
    assert EntryOk(s, e);
    if Serves(s'.entries[e], inum) {
      assert LastLeaves(s', e);
      ComesToLeave(s, st, e);
    } else {
      StopsServing(s, st, e, inum);
      if st.Finish? {
        FinishWasLeaving(s, st.p);
      } else {
        UnloadedIput(s, st.p, e);
      }
    }
  }

  /** A claimed inode stays claimed until its `iget` makes an entry serve it, for a
      process that stays. */
  lemma ClaimUsed(s: State, st: Step, p: Proc)
    requires Enabled(s, st) && p < |s.pc| && s.pc[p].Claimed?
    ensures var s' := After(s, st);
            var inum := s.pc[p].inum;
            |s'.pc| == |s.pc| &&
            (s'.pc[p] == Claimed(inum) ||
             exists e: nat :: e < |s'.entries| && Serves(s'.entries[e], inum) && !LastLeaves(s', e))
  {
    var s' := After(s, st);
    if st == Iget(p, s.pc[p].inum) {
      SlotFound(s.entries, st.inum, 0, None);
      var e := Slot(s.entries, st.inum, 0, None).value;
      StayingStays(s', p, e);
      assert Serves(s'.entries[e], st.inum);
    }
  }

  /** A step that changes an inode on the disk either claims it or is taken by a
      process that holds its entry. */
  lemma DiskWrites(s: State, st: Step, inum: nat)
    requires Inv(s) && Enabled(s, st) && inum < |s.disk| == |After(s, st).disk| && After(s, st).disk[inum] != s.disk[inum]
    ensures (st.Ialloc? && st.p < |After(s, st).pc| && After(s, st).pc[st.p] == Claimed(inum)) ||
            (st.FreeDisk? && After(s, st).disk[inum].typ == 0) ||
            (st.SetLinks? && st.e < |s.entries| && s.entries[st.e].inum == inum && Serves(s.entries[st.e], inum) && !LastLeaves(s, st.e))
  {
    match st {
      case SetLinks(p, e, _) =>
        assert EntryOk(s, e);
        HeldServes(s, p, e);
        StayingStays(s, p, e);
      case _ =>
    }
  }

  lemma OnlyThenDoomed(s: State, st: Step, inum: nat)
    requires Inv(s) && OneFreer(s) && Enabled(s, st) && !Doomed(s, inum) && Doomed(After(s, st), inum)
    ensures Dooms(s, st, inum)
  {
    hide Inv, LastLeaves, Dooms, Enabled;
    var s' := After(s, st);
    SameSizes(s, st);
    if e: nat :| e < |s.entries| && Serves(s.entries[e], inum) && !LastLeaves(s, e) {
      ServedThenDoomed(s, st, e, inum);
    } else {
      if s'.disk[inum] != s.disk[inum] {
        DiskWrites(s, st, inum);
      }
      if p: nat :| p < |s.pc| && s.pc[p] == Claimed(inum) {
        ClaimUsed(s, st, p);
      }
    }
  }

  /** In every reachable state, an inode is doomed exactly if it was, or if the step is
      a put to blame for it. */
  lemma DoomedExactly(s: State, st: Step, inum: nat)
    requires Inv(s) && OneFreer(s) && Enabled(s, st)
    ensures Doomed(After(s, st), inum) <==> Doomed(s, inum) || Dooms(s, st, inum)
  {
    hide Inv, OneFreer, Enabled, After, Doomed, Dooms;
    if Doomed(s, inum) {
      StaysDoomed(s, st, inum);
    } else if Dooms(s, st, inum) {
      BecomesDoomed(s, st, inum);
    } else if Doomed(After(s, st), inum) {
      OnlyThenDoomed(s, st, inum);
    }
  }

  /** Some step of the run is a put to blame for the inode. */
  ghost predicate DoomedIn(s: State, sts: seq<Step>, inum: nat)
    decreases |sts|
  {
    sts != [] && Enabled(s, sts[0]) && (Dooms(s, sts[0], inum) || DoomedIn(After(s, sts[0]), sts[1..], inum))
  }

  lemma {:induction false} DoomedOverRuns(s: State, sts: seq<Step>, s': State, inum: nat)
    requires Inv(s) && OneFreer(s) && Reachable(s, sts, s')
    ensures Inv(s') && OneFreer(s')
    ensures Doomed(s', inum) <==> Doomed(s, inum) || DoomedIn(s, sts, inum)
    decreases |sts|
  {
    hide Inv, OneFreer, Enabled, After, Doomed, Dooms;
    if sts != [] {
      StepKeeps(s, sts[0]);
      FreersKeep(s, sts[0]);
      DoomedExactly(s, sts[0], inum);
      DoomedOverRuns(After(s, sts[0]), sts[1..], s', inum);
    }
  }

  /** Stranded is doomed; and doomed is stranded once nobody is in its window. */
  lemma StrandedIsDoomed(s: State, inum: nat)
    requires Inv(s)
    ensures Stranded(s, inum) ==> Doomed(s, inum)
    ensures (forall p: nat, e: nat | p < |s.pc| :: !InWindow(s.pc[p], e)) ==> (Stranded(s, inum) <==> Doomed(s, inum))
  {
    forall e: nat | e < |s.entries| && LastLeaves(s, e) ensures exists p: nat :: p < |s.pc| && InWindow(s.pc[p], e) {
      assert EntryOk(s, e);
      LeavingIsInWindow(s, e);
    }
  }

  lemma LeavingIsInWindow(s: State, e: nat)
    requires e < |s.entries| && EntryOk(s, e) && LastLeaves(s, e)
    ensures exists p: nat :: p < |s.pc| && InWindow(s.pc[p], e)
  {
    assert s.entries[e].holders != multiset{};
    var p :| p in s.entries[e].holders;
    assert InWindow(s.pc[p], e);
  }

  /** Over every run from a table not in use and a disk without orphans: no inode is
      ever stranded unless some put of the run is to blame, and whenever nobody is in
      a window, an inode is stranded exactly if one is. Otherwise `iput` misses no
      unlinked inode. */
  lemma StrandedOverRuns(s0: State, sts: seq<Step>, s: State, inum: nat)
    requires Start(s0) && Reachable(s0, sts, s) && !Stranded(s0, inum)
    ensures Stranded(s, inum) ==> DoomedIn(s0, sts, inum)
    ensures (forall p: nat, e: nat | p < |s.pc| :: !InWindow(s.pc[p], e)) ==>
              (Stranded(s, inum) <==> DoomedIn(s0, sts, inum))
  {
    hide Reachable, Stranded, Doomed, DoomedIn;
    InitInv(s0);
    StrandedIsDoomed(s0, inum);
    DoomedOverRuns(s0, sts, s, inum);
    StrandedIsDoomed(s, inum);
  }

  function One(en: Entry, d: Dinode, p0: Stage, p1: Stage, linked: set<nat>): State {
    State([en], [d], [p0, p1], linked)
  }

  lemma {:induction false} Append(s: State, sts: seq<Step>, m: State, st: Step) returns (sts': seq<Step>, s': State)
    requires Reachable(s, sts, m) && Enabled(m, st)
    ensures sts' == sts + [st] && s' == After(m, st) && Reachable(s, sts', s')
    decreases |sts|
  {
    sts', s' := sts + [st], After(m, st);
    if sts == [] {
      assert Reachable(s', [], s');
    } else {
      var tail, _ := Append(After(s, sts[0]), sts[1..], m, st);
      assert (sts + [st])[1..] == sts[1..] + [st];
    }
  }

  lemma TwoHolders()
    ensures multiset{0 as nat} + multiset{1} == multiset{0, 1}
    ensures multiset{0 as nat, 1} - multiset{1} == multiset{0}
  {
  }

  /** Part 1: an inode is looked up, locked and unlinked. */
  lemma Stranding1(s: State, sts: seq<Step>) returns (sts': seq<Step>)
    requires Reachable(s, sts, One(Entry(0, 0, false, 0, 0, None, multiset{}), Dinode(2, 1), Idle, Idle, {0}))
    ensures Reachable(s, sts', One(Entry(0, 1, true, 2, 1, Some(0), multiset{0}), Dinode(2, 1), Idle, Idle, {}))
  {
    hide Reachable;
    TwoHolders();
    var m := One(Entry(0, 0, false, 0, 0, None, multiset{}), Dinode(2, 1), Idle, Idle, {0});
    sts' := sts;
    sts', m := Append(s, sts', m, Iget(0, 0));
    sts', m := Append(s, sts', m, Lock(0, 0));
    sts', m := Append(s, sts', m, Load(0));
    sts', m := Append(s, sts', m, DropName(0));
    assert m == One(Entry(0, 1, true, 2, 1, Some(0), multiset{0}), Dinode(2, 1), Idle, Idle, {});
  }

  /** Part 2: its last reference is put, and it is free on the disk. */
  lemma Stranding2(s: State, sts: seq<Step>) returns (sts': seq<Step>)
    requires Reachable(s, sts, One(Entry(0, 1, true, 2, 1, Some(0), multiset{0}), Dinode(2, 1), Idle, Idle, {}))
    ensures Reachable(s, sts', One(Entry(0, 1, true, 0, 0, Some(0), multiset{0}), Dinode(0, 0), Freed(0), Idle, {}))
  {
    hide Reachable;
    TwoHolders();
    var m := One(Entry(0, 1, true, 2, 1, Some(0), multiset{0}), Dinode(2, 1), Idle, Idle, {});
    sts' := sts;
    sts', m := Append(s, sts', m, SetLinks(0, 0, 0));
    sts', m := Append(s, sts', m, Unlock(0, 0));
    sts', m := Append(s, sts', m, Iput(0, 0));
    sts', m := Append(s, sts', m, FreeDisk(0));
    assert m == One(Entry(0, 1, true, 0, 0, Some(0), multiset{0}), Dinode(0, 0), Freed(0), Idle, {});
  }

  /** Part 3: the number is given out again while that `iput` is under way. */
  lemma Stranding3(s: State, sts: seq<Step>) returns (sts': seq<Step>)
    requires Reachable(s, sts, One(Entry(0, 1, true, 0, 0, Some(0), multiset{0}), Dinode(0, 0), Freed(0), Idle, {}))
    ensures Reachable(s, sts', One(Entry(0, 2, false, 0, 0, None, multiset{0, 1}), Dinode(2, 0), Released(0), Idle, {}))
  {
    hide Reachable;
    TwoHolders();
    var m := One(Entry(0, 1, true, 0, 0, Some(0), multiset{0}), Dinode(0, 0), Freed(0), Idle, {});
    sts' := sts;
    sts', m := Append(s, sts', m, Ialloc(1, 0, 2));
    sts', m := Append(s, sts', m, Iget(1, 0));
    sts', m := Append(s, sts', m, Invalidate(0));
    sts', m := Append(s, sts', m, Release(0));
    assert m == One(Entry(0, 2, false, 0, 0, None, multiset{0, 1}), Dinode(2, 0), Released(0), Idle, {});
  }

  /** Part 4: `create` sets the link count of the new inode and takes it back. */
  lemma Stranding4(s: State, sts: seq<Step>) returns (sts': seq<Step>)
    requires Reachable(s, sts, One(Entry(0, 2, false, 0, 0, None, multiset{0, 1}), Dinode(2, 0), Released(0), Idle, {}))
    ensures Reachable(s, sts', One(Entry(0, 2, true, 2, 0, Some(1), multiset{0, 1}), Dinode(2, 0), Released(0), Idle, {}))
  {
    hide Reachable;
    TwoHolders();
    var m := One(Entry(0, 2, false, 0, 0, None, multiset{0, 1}), Dinode(2, 0), Released(0), Idle, {});
    sts' := sts;
    sts', m := Append(s, sts', m, Lock(1, 0));
    sts', m := Append(s, sts', m, Load(1));
    sts', m := Append(s, sts', m, SetLinks(1, 0, 1));
    sts', m := Append(s, sts', m, SetLinks(1, 0, 0));
    assert m == One(Entry(0, 2, true, 2, 0, Some(1), multiset{0, 1}), Dinode(2, 0), Released(0), Idle, {});
  }

  /** Part 5: both let go. */
  lemma Stranding5(s: State, sts: seq<Step>) returns (sts': seq<Step>)
    requires Reachable(s, sts, One(Entry(0, 2, true, 2, 0, Some(1), multiset{0, 1}), Dinode(2, 0), Released(0), Idle, {}))
    ensures Reachable(s, sts', One(Entry(0, 0, true, 2, 0, None, multiset{}), Dinode(2, 0), Idle, Idle, {}))
  {
    hide Reachable;
    TwoHolders();
    var m := One(Entry(0, 2, true, 2, 0, Some(1), multiset{0, 1}), Dinode(2, 0), Released(0), Idle, {});
    sts' := sts;
    sts', m := Append(s, sts', m, Unlock(1, 0));
    sts', m := Append(s, sts', m, Iput(1, 0));
    sts', m := Append(s, sts', m, Finish(0));
    assert m == One(Entry(0, 0, true, 2, 0, None, multiset{}), Dinode(2, 0), Idle, Idle, {});
  }

  lemma StandsStill(s: State)
    ensures Reachable(s, [], s)
  {
  }

  /** The first way does happen. Process 0 puts the last reference to an unlinked
      inode; while it is between zeroing the type and counting its reference down,
      process 1 is given the same inode by `ialloc`, takes a second reference to the
      same entry, fails in `create`, and puts it when the count is still 2. Process 0
      then counts down to 0 without looking again. */
  lemma StrandingRun() returns (s: State, sts: seq<Step>, s': State)
    ensures Start(s) && Reachable(s, sts, s') && !Stranded(s, 0) && Stranded(s', 0)
  {
    s := One(Entry(0, 0, false, 0, 0, None, multiset{}), Dinode(2, 1), Idle, Idle, {0});
    s' := One(Entry(0, 0, true, 2, 0, None, multiset{}), Dinode(2, 0), Idle, Idle, {});
    sts := [];
    StandsStill(s);
    hide Reachable, Enabled, After;
    sts := Stranding1(s, sts);
    sts := Stranding2(s, sts);
    sts := Stranding3(s, sts);
    sts := Stranding4(s, sts);
    sts := Stranding5(s, sts);
  }

  // ---- the critical sections in place ----

  class Itable {
    var entries: seq<Entry>
    var disk: seq<Dinode>
    var pc: seq<Stage>
    var linked: set<nat>

    function View(): State
      reads this
    {
      State(entries, disk, pc, linked)
    }

    /** `iget` under the table lock; no slot is the panic "iget: no inodes". */
    method Iget(p: Proc, inum: nat) returns (slot: Option<nat>)
      requires p < |pc| && (pc[p] == Claimed(inum) || (pc[p].Idle? && inum in linked))
      modifies this
      ensures slot == Slot(old(entries), inum, 0, None)
      ensures if slot.None? then View() == old(View())
              else Enabled(old(View()), Step.Iget(p, inum)) && View() == After(old(View()), Step.Iget(p, inum))
    {
      hide Inv;
      SlotFound(entries, inum, 0, None);
      slot := None;
      var k := 0;
      while k < |entries|
        invariant k <= |entries| && View() == old(View())
        invariant slot.Some? ==> slot.value < k && entries[slot.value].ref == 0
        invariant Slot(entries, inum, k, slot) == Slot(entries, inum, 0, None)
      {
        if entries[k].ref > 0 && entries[k].inum == inum {
          slot := Some(k);
          entries := entries[k := entries[k].(ref := entries[k].ref + 1, holders := entries[k].holders + multiset{p})];
          pc := pc[p := Idle];
          return;
        }
        if slot.None? && entries[k].ref == 0 {
          slot := Some(k);
        }
        k := k + 1;
      }
      if slot.Some? {
        var e := slot.value;
        assert !Serves(entries[e], inum);
        entries := entries[e := entries[e].(inum := inum, ref := 1, valid := false, holders := multiset{p})];
        pc := pc[p := Idle];
      }
    }

    /** The part of `ilock` after `acquiresleep`; `panicked` is "ilock: no type". */
    method Load(p: Proc) returns (panicked: bool)
      requires Enabled(View(), Step.Load(p))
      modifies this
      ensures View() == After(old(View()), Step.Load(p))
      ensures Inv(old(View())) ==> !panicked
    {
      var e := pc[p].e;
      panicked := false;
      if Inv(View()) {
        LoadIsFresh(View(), p);
      }
      if !entries[e].valid {
        var d := disk[entries[e].inum];
        entries := entries[e := entries[e].(typ := d.typ, nlink := d.nlink, valid := true)];
        panicked := entries[e].typ == 0;
      }
      pc := pc[p := Idle];
    }

    /** `iput` up to its first release of the table lock. It either counts the
        reference down or goes on to free the inode, with the sleep lock, which in a
        reachable state it gets without waiting. */
    method Iput(p: Proc, e: nat) returns (frees: bool, waits: bool)
      requires Enabled(View(), Step.Iput(p, e))
      modifies this
      ensures View() == After(old(View()), Step.Iput(p, e))
      ensures frees == LastOfUnlinked(old(entries)[e])
      ensures Inv(old(View())) ==> !waits
    {
      frees, waits := false, false;
      if Inv(View()) && LastOfUnlinked(entries[e]) {
        IputNeverWaits(View(), p, e);
      }
      if entries[e].ref == 1 && entries[e].valid && entries[e].nlink == 0 {
        waits := entries[e].lock.Some?;
        frees := true;
        entries := entries[e := entries[e].(lock := Some(p))];
        pc := pc[p := Freeing(e)];
      } else {
        entries := entries[e := Put(entries[e], p)];
      }
    }
  }
}
