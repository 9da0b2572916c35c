/** `sys_mmap` and `sys_munmap`: which addresses a process has mapped to which
    places of which files. */
module Mmap {
  import opened Blocks

  const PGSIZE := 4096
  const MMAP_BASE := 0x4000_0000

  /** Addresses and lengths are unbounded, and `sys_munmap` can drive both below 0;
      a negative address stands for one that has wrapped around. */
  datatype Vma = Vma(valid: bool, addr: int, length: int, file: nat, offset: int)

  /** The slots, and the references to files that `filedup` and `fileclose` count. */
  datatype State = State(vmas: seq<Vma>, held: multiset<nat>)

  function PgRoundUp(x: int): (r: int)
    ensures x <= r < x + PGSIZE && r % PGSIZE == 0
  {
    (x + PGSIZE - 1) / PGSIZE * PGSIZE
  }

  function End(v: Vma): int {
    v.addr + v.length
  }

  predicate Covers(v: Vma, a: nat) {
    v.valid && v.addr <= a < End(v)
  }

  // ---- searches ----

  function FreeSlot(vmas: seq<Vma>, i: nat): (r: nat)
    requires i <= |vmas|
    ensures i <= r <= |vmas|
    ensures r < |vmas| ==> !vmas[r].valid
    ensures forall j | i <= j < r :: vmas[j].valid
    decreases |vmas| - i
  {
    if i == |vmas| || !vmas[i].valid then i else FreeSlot(vmas, i + 1)
  }

  /** The loop that moves the base past every mapping it meets. */
  function Base(vmas: seq<Vma>, i: nat, base: nat): (r: nat)
    requires i <= |vmas|
    ensures r >= base
    ensures base % PGSIZE == 0 ==> r % PGSIZE == 0
    ensures forall j | i <= j < |vmas| && vmas[j].valid :: End(vmas[j]) <= r
    decreases |vmas| - i
  {
    if i == |vmas| then base
    else Base(vmas, i + 1, if vmas[i].valid && End(vmas[i]) > base then PgRoundUp(End(vmas[i])) else base)
  }

  function FindVma(vmas: seq<Vma>, a: nat, i: nat): (r: nat)
    requires i <= |vmas|
    ensures i <= r <= |vmas|
    ensures r < |vmas| ==> Covers(vmas[r], a)
    ensures forall j | i <= j < r :: !Covers(vmas[j], a)
    decreases |vmas| - i
  {
    if i == |vmas| || Covers(vmas[i], a) then i else FindVma(vmas, a, i + 1)
  }

  // ---- the calls ----

  datatype Call =
    | MmapCall(length: int, shared: bool, write: bool, writable: bool,
               file: nat, offset: int)
    | MunmapCall(addr: nat, length: int)

  datatype Outcome = Outcome(s: State, ret: int)

  function After(s: State, c: Call): Outcome {
    match c
    case MmapCall(length, shared, write, writable, file, offset) =>
      var i := FreeSlot(s.vmas, 0);
      if (shared && write && !writable) || i == |s.vmas| then Outcome(s, -1)
      else
        var base := Base(s.vmas, 0, MMAP_BASE);
        Outcome(State(s.vmas[i := Vma(true, base, PgRoundUp(length), file, offset)], s.held + multiset{file}), base)
    case MunmapCall(addr, length) =>
      var i := FindVma(s.vmas, addr, 0);
      if i == |s.vmas| then Outcome(s, -1)
      else
        var v := s.vmas[i];
        if addr == v.addr && length == v.length then
          Outcome(State(s.vmas[i := v.(valid := false)], s.held - multiset{v.file}), 0)
        else if addr == v.addr then
          Outcome(s.(vmas := s.vmas[i := v.(addr := v.addr + length, offset := v.offset + length, length := v.length - length)]), 0)
        else Outcome(s.(vmas := s.vmas[i := v.(length := v.length - length)]), 0)
  }

  // ---- what is mapped ----

  /** The place in a file that address `a` is mapped to. */
  function Mapping(vmas: seq<Vma>, a: nat): Option<(nat, int)> {
    var i := FindVma(vmas, a, 0);
    if i == |vmas| then None else Some((vmas[i].file, vmas[i].offset + (a - vmas[i].addr)))
  }

  predicate RangeOk(v: Vma) {
    v.length > 0 && v.addr >= 0 && v.addr % PGSIZE == 0 && v.length % PGSIZE == 0
  }

  predicate Apart(v: Vma, w: Vma) {
    End(v) <= w.addr || End(w) <= v.addr
  }

  function Held(v: Vma): multiset<nat> {
    if v.valid then multiset{v.file} else multiset{}
  }

  function Files(vmas: seq<Vma>): multiset<nat> {
    if vmas == [] then multiset{} else Files(vmas[..|vmas| - 1]) + Held(vmas[|vmas| - 1])
  }

  /** Live ranges are not empty, page-aligned and disjoint, and each holds one
      reference to its file. */
  ghost predicate Inv(s: State) {
    && (forall i | 0 <= i < |s.vmas| && s.vmas[i].valid :: RangeOk(s.vmas[i]))
    && (forall i, j | 0 <= i < j < |s.vmas| && s.vmas[i].valid && s.vmas[j].valid :: Apart(s.vmas[i], s.vmas[j]))
    && s.held == Files(s.vmas)
  }

  lemma AddBoth(a: multiset<nat>, b: multiset<nat>, x: multiset<nat>, y: multiset<nat>, l: multiset<nat>)
    requires a + x == b + y
    ensures (a + l) + x == (b + l) + y
  {
    assert (a + l) + x == (a + x) + l;
    assert (b + l) + y == (b + y) + l;
  }

  /** Replacing a slot exchanges its reference. */
  lemma {:induction false} FilesSet(vmas: seq<Vma>, i: nat, v: Vma)
    requires i < |vmas|
    ensures Files(vmas[i := v]) + Held(vmas[i]) == Files(vmas) + Held(v)
    decreases |vmas|
  {
    hide Held;
    var last := |vmas| - 1;
    var rest := vmas[..last];
    if i < last {
      FilesSet(rest, i, v);
      assert vmas[i := v][..last] == rest[i := v];
      AddBoth(Files(rest[i := v]), Files(rest), Held(vmas[i]), Held(v), Held(vmas[last]));
    } else {
      assert vmas[i := v][..last] == rest;
      AddBoth(Files(rest), Files(rest), multiset{}, multiset{}, Held(v));
    }
  }

  /** With disjoint ranges the covering slot is the only one. */
  lemma MappingIs(s: State, a: nat, i: nat)
    requires Inv(s) && i < |s.vmas| && Covers(s.vmas[i], a)
    ensures FindVma(s.vmas, a, 0) == i
  {
    var k := FindVma(s.vmas, a, 0);
    assert k < i ==> Apart(s.vmas[k], s.vmas[i]);
  }

  lemma SoleCover(s: State, a: nat, i: nat)
    requires Inv(s) && i < |s.vmas| && Covers(s.vmas[i], a)
    ensures forall k | 0 <= k < |s.vmas| && Covers(s.vmas[k], a) :: k == i
  {
    forall k | 0 <= k < |s.vmas| && Covers(s.vmas[k], a) ensures k == i {
      MappingIs(s, a, k);
      MappingIs(s, a, i);
    }
  }

  lemma {:induction false} SameFind(vmas: seq<Vma>, vmas': seq<Vma>, a: nat, i: nat)
    requires |vmas'| == |vmas| && i <= |vmas|
    requires forall j | 0 <= j < |vmas| :: Covers(vmas'[j], a) <==> Covers(vmas[j], a)
    ensures FindVma(vmas', a, i) == FindVma(vmas, a, i)
    decreases |vmas| - i
  {
    if i < |vmas| {
      SameFind(vmas, vmas', a, i + 1);
    }
  }

  /** Slots that differ in slot `i` only, where neither covers `a`, map it alike. */
  lemma Unaffected(vmas: seq<Vma>, vmas': seq<Vma>, i: nat, a: nat)
    requires i < |vmas| && |vmas'| == |vmas| && vmas' == vmas[i := vmas'[i]]
    requires !Covers(vmas[i], a) && !Covers(vmas'[i], a)
    ensures Mapping(vmas', a) == Mapping(vmas, a)
  {
    SameFind(vmas, vmas', a, 0);
  }

  lemma MmapKeepsInv(s: State, c: Call)
    requires Inv(s) && c.MmapCall? && After(s, c).ret >= 0 && c.length > 0
    ensures Inv(After(s, c).s)
  {
    var i := FreeSlot(s.vmas, 0);
    FilesSet(s.vmas, i, After(s, c).s.vmas[i]);
  }

  /** A successful `sys_mmap` maps a range that nothing was mapped in, whole pages
      long, to consecutive places of the file, and changes no other address. */
  lemma MmapMaps(s: State, c: Call, a: nat)
    requires Inv(s) && c.MmapCall? && After(s, c).ret >= 0 && c.length > 0
    ensures var Outcome(s', base) := After(s, c);
            if base <= a < base + PgRoundUp(c.length)
            then Mapping(s.vmas, a) == None && Mapping(s'.vmas, a) == Some((c.file, c.offset + (a - base)))
            else Mapping(s'.vmas, a) == Mapping(s.vmas, a)
  {
    var Outcome(s', base) := After(s, c);
    var i := FreeSlot(s.vmas, 0);
    MmapKeepsInv(s, c);
    if base <= a < base + PgRoundUp(c.length) {
      MappingIs(s', a, i);
    } else {
      Unaffected(s.vmas, s'.vmas, i, a);
    }
  }

  /** A length that is not positive makes a range that is empty, or ends before it
      begins. */
  lemma MmapNeedsLength(s: State, c: Call)
    requires Inv(s) && c.MmapCall? && After(s, c).ret >= 0
    ensures Inv(After(s, c).s) <==> c.length > 0
  {
    if c.length > 0 {
      MmapKeepsInv(s, c);
    } else {
      var i := FreeSlot(s.vmas, 0);
      assert After(s, c).s.vmas[i].length <= 0;
    }
  }

  /** `sys_mmap` fails exactly for a shared writable mapping of a file that is not open
      for writing, or when every slot is in use; then nothing changes. */
  lemma MmapRefused(s: State, c: Call)
    requires c.MmapCall?
    ensures After(s, c).ret == -1 <==>
              (c.shared && c.write && !c.writable) || forall v | v in s.vmas :: v.valid
    ensures After(s, c).ret == -1 ==> After(s, c).s == s
    ensures After(s, c).ret != -1 ==> After(s, c).ret >= 0x4000_0000
  {
    var i := FreeSlot(s.vmas, 0);
    if i < |s.vmas| {
      assert s.vmas[i] in s.vmas;
    }
  }

  /** A mapping is placed at 0x40000000, or right after the live range that ends last. */
  lemma MmapPlace(s: State, c: Call)
    requires Inv(s) && c.MmapCall? && After(s, c).ret >= 0
    ensures After(s, c).ret == 0x4000_0000 || exists v :: v in s.vmas && v.valid && After(s, c).ret == End(v)
    ensures forall v | v in s.vmas && v.valid :: End(v) <= After(s, c).ret
  {
    BaseIsEnd(s.vmas, 0, MMAP_BASE);
    forall v | v in s.vmas && v.valid ensures End(v) <= After(s, c).ret {
      var j :| 0 <= j < |s.vmas| && s.vmas[j] == v;
    }
  }

  lemma {:induction false} BaseIsEnd(vmas: seq<Vma>, i: nat, base: nat)
    requires i <= |vmas| && forall j | 0 <= j < |vmas| && vmas[j].valid :: RangeOk(vmas[j])
    ensures Base(vmas, i, base) == base || exists v :: v in vmas && v.valid && Base(vmas, i, base) == End(v)
    decreases |vmas| - i
  {
    if i < |vmas| {
      var v := vmas[i];
      if v.valid && End(v) > base {
        EndIsRound(v);
        assert v in vmas;
        BaseIsEnd(vmas, i + 1, PgRoundUp(End(v)));
      } else {
        BaseIsEnd(vmas, i + 1, base);
      }
    }
  }

  lemma EndIsRound(v: Vma)
    requires RangeOk(v)
    ensures PgRoundUp(End(v)) == End(v)
  {
  }

  // ---- munmap ----

  /** `sys_munmap` fails exactly when no mapping holds the first address; then nothing
      changes. */
  lemma MunmapRefused(s: State, addr: nat, length: int)
    ensures var r := After(s, MunmapCall(addr, length));
            && (r.ret == -1 || r.ret == 0)
            && (r.ret == -1 <==> forall v | v in s.vmas && v.valid :: !(v.addr <= addr < v.addr + v.length))
            && (r.ret == -1 ==> r.s == s)
  {
    var i := FindVma(s.vmas, addr, 0);
    if i < |s.vmas| {
      assert s.vmas[i] in s.vmas;
    } else {
      forall v | v in s.vmas && v.valid ensures !(v.addr <= addr < v.addr + v.length) {
        var j :| 0 <= j < |s.vmas| && s.vmas[j] == v;
        assert !Covers(s.vmas[j], addr);
      }
    }
  }

  /** Nothing is asked for, or whole pages that are all of the mapping that holds the
      first address, or a beginning or an end of it. */
  predicate Fits(v: Vma, addr: nat, length: int) {
    length == 0 ||
    (length > 0 && length % PGSIZE == 0 && (addr + length == End(v) || (addr == v.addr && length < v.length)))
  }

  /** What `munmap` promises: just the range is unmapped. */
  ghost predicate UnmapsRange(s: State, s': State, addr: nat, length: int) {
    Inv(s') && forall a: nat :: Mapping(s'.vmas, a) == if addr <= a < addr + length then None else Mapping(s.vmas, a)
  }

  lemma Aligned(x: int, y: int)
    requires x % PGSIZE == 0 && y % PGSIZE == 0
    ensures (x + y) % PGSIZE == 0 && (x - y) % PGSIZE == 0
  {
  }

  lemma HeldAfter(vmas: seq<Vma>, i: nat, v: Vma)
    requires i < |vmas| && vmas[i].valid && (v.valid ==> v.file == vmas[i].file)
    ensures Files(vmas[i := v]) == if v.valid then Files(vmas) else Files(vmas) - multiset{vmas[i].file}
  {
    hide Files;
    FilesSet(vmas, i, v);
    var m := multiset{vmas[i].file};
    assert (Files(vmas[i := v]) + m) - m == Files(vmas[i := v]);
    assert (Files(vmas) + m) - m == Files(vmas);
  }

  /** A live range that shrinks, or goes away with its reference, keeps the rest. */
  lemma Shrunk(s: State, i: nat, v: Vma)
    requires Inv(s) && i < |s.vmas| && s.vmas[i].valid
    requires v.valid ==> RangeOk(v) && v.file == s.vmas[i].file && s.vmas[i].addr <= v.addr && End(v) <= End(s.vmas[i])
    ensures Inv(State(s.vmas[i := v], if v.valid then s.held else s.held - multiset{s.vmas[i].file}))
  {
    hide Files;
    HeldAfter(s.vmas, i, v);
    var vmas := s.vmas[i := v];
    forall j, k | 0 <= j < k < |vmas| && vmas[j].valid && vmas[k].valid ensures Apart(vmas[j], vmas[k]) {
      assert Apart(s.vmas[j], s.vmas[k]);
    }
  }

  lemma MunmapKeepsInv(s: State, addr: nat, length: int)
    requires Inv(s)
    requires var i := FindVma(s.vmas, addr, 0); i < |s.vmas| && Fits(s.vmas[i], addr, length)
    ensures Inv(After(s, MunmapCall(addr, length)).s)
  {
    hide FindVma, Files;
    var s' := After(s, MunmapCall(addr, length)).s;
    var i := FindVma(s.vmas, addr, 0);
    Aligned(s.vmas[i].addr, length);
    Aligned(s.vmas[i].length, length);
    Shrunk(s, i, s'.vmas[i]);
  }

  lemma MunmapRemoves(s: State, addr: nat, length: int, a: nat)
    requires Inv(s)
    requires var i := FindVma(s.vmas, addr, 0); i < |s.vmas| && Fits(s.vmas[i], addr, length)
    ensures var s' := After(s, MunmapCall(addr, length)).s;
            Mapping(s'.vmas, a) == if addr <= a < addr + length then None else Mapping(s.vmas, a)
  {
    hide FindVma, Inv;
    var s' := After(s, MunmapCall(addr, length)).s;
    var i := FindVma(s.vmas, addr, 0);
    RangeIs(s, addr);
    MunmapKeepsInv(s, addr, length);
    if Covers(s'.vmas[i], a) {
      MappingIs(s', a, i);
      MappingIs(s, a, i);
    } else if Covers(s.vmas[i], a) {
      SoleCover(s, a, i);
      assert forall k | 0 <= k < |s.vmas| :: !Covers(s'.vmas[k], a);
    } else {
      Unaffected(s.vmas, s'.vmas, i, a);
    }
  }

  /** What goes wrong otherwise. A length that is no number of pages, or more than
      there is from the start on, or that takes the start below 0, leaves a range
      that is no range; another negative one maps an address nobody had asked for;
      in the middle of a mapping the first page stays mapped; and past its end the
      byte before the range goes as well. */
  lemma MunmapWrong(s: State, addr: nat, length: int)
    requires Inv(s)
    requires var i := FindVma(s.vmas, addr, 0); i < |s.vmas| && !Fits(s.vmas[i], addr, length)
    ensures var i := FindVma(s.vmas, addr, 0);
            var v := s.vmas[i];
            var s' := After(s, MunmapCall(addr, length)).s;
            && s'.vmas == s.vmas[i := s'.vmas[i]] && s'.vmas[i].valid
            && if length % PGSIZE != 0 || (addr == v.addr && (length > v.length || addr + length < 0)) then !RangeOk(s'.vmas[i])
               else if length < 0 then
                 var extra := if addr == v.addr then addr - 1 else End(v);
                 extra >= 0 && Covers(s'.vmas[i], extra) && !Covers(v, extra)
               else if addr + length < End(v) then Covers(s'.vmas[i], addr)
               else !Covers(s'.vmas[i], addr - 1) && Covers(v, addr - 1)
  {
    hide Inv;
    RangeIs(s, addr);
    var v := s.vmas[FindVma(s.vmas, addr, 0)];
    if length % PGSIZE != 0 {
      Unaligned(v.length, length);
    } else {
      assert length == 0 || length >= PGSIZE || length <= -PGSIZE;
    }
  }

  lemma RangeIs(s: State, addr: nat)
    requires Inv(s) && FindVma(s.vmas, addr, 0) < |s.vmas|
    ensures RangeOk(s.vmas[FindVma(s.vmas, addr, 0)])
  {
  }

  lemma Unaligned(x: int, y: int)
    requires x % PGSIZE == 0 && y % PGSIZE != 0
    ensures (x - y) % PGSIZE != 0 && x != y
  {
  }

  /** A slot that changes where it covers an address breaks the promise there, as
      long as the ranges are disjoint. */
  lemma ShowsAt(s: State, s': State, i: nat, a: nat)
    requires Inv(s) && Inv(s') && i < |s.vmas| && |s'.vmas| == |s.vmas| && s'.vmas == s.vmas[i := s'.vmas[i]]
    requires Covers(s.vmas[i], a) != Covers(s'.vmas[i], a)
    ensures Mapping(s.vmas, a).Some? <==> Covers(s.vmas[i], a)
    ensures Mapping(s'.vmas, a).Some? <==> Covers(s'.vmas[i], a)
  {
    if Covers(s.vmas[i], a) {
      SoleCover(s, a, i);
      assert forall k | 0 <= k < |s.vmas| :: !Covers(s'.vmas[k], a);
    } else {
      SoleCover(s', a, i);
      forall k | 0 <= k < |s.vmas| ensures !Covers(s.vmas[k], a) {
        assert Covers(s'.vmas[k], a) ==> k == i;
      }
    }
  }

  /** The call does what it promises exactly when the range fits, whatever the
      length. */
  lemma MunmapExactly(s: State, addr: nat, length: int)
    requires Inv(s) && FindVma(s.vmas, addr, 0) < |s.vmas|
    ensures UnmapsRange(s, After(s, MunmapCall(addr, length)).s, addr, length) <==>
            Fits(s.vmas[FindVma(s.vmas, addr, 0)], addr, length)
  {
    hide After, FindVma, Mapping;
    var i := FindVma(s.vmas, addr, 0);
    var s' := After(s, MunmapCall(addr, length)).s;
    if Fits(s.vmas[i], addr, length) {
      MunmapKeepsInv(s, addr, length);
      forall a: nat ensures Mapping(s'.vmas, a) == if addr <= a < addr + length then None else Mapping(s.vmas, a) {
        MunmapRemoves(s, addr, length, a);
      }
    } else {
      MunmapFails(s, addr, length);
    }
  }

  lemma MunmapFails(s: State, addr: nat, length: int)
    requires Inv(s)
    requires var i := FindVma(s.vmas, addr, 0); i < |s.vmas| && !Fits(s.vmas[i], addr, length)
    ensures !UnmapsRange(s, After(s, MunmapCall(addr, length)).s, addr, length)
  {
    hide After, Mapping, FindVma;
    var i := FindVma(s.vmas, addr, 0);
    var v := s.vmas[i];
    var s' := After(s, MunmapCall(addr, length)).s;
    MunmapWrong(s, addr, length);
    RangeIs(s, addr);
    assert Covers(v, addr);
    if Inv(s') {
      assert RangeOk(s'.vmas[i]);
      var a := if length < 0 then (if addr == v.addr then addr - 1 else End(v)) else if addr + length < End(v) then addr else addr - 1;
      assert a >= 0;
      if Covers(v, a) != Covers(s'.vmas[i], a) {
        ShowsAt(s, s', i, a);
      } else {
        MappingIs(s', a, i);
        StillMapped(s', a);
      }
    }
  }

  lemma StillMapped(s: State, a: nat)
    requires FindVma(s.vmas, a, 0) < |s.vmas|
    ensures Mapping(s.vmas, a).Some?
  {
  }

  /** Unmapping the middle page of three: that page stays mapped, the last one goes. */
  lemma MiddleUnmap()
    ensures exists s: State, s': State, addr: nat ::
              && Inv(s) && s' == After(s, MunmapCall(addr, PGSIZE)).s
              && Mapping(s'.vmas, addr).Some? && Mapping(s.vmas, addr + PGSIZE).Some? && Mapping(s'.vmas, addr + PGSIZE) == None
  {
    var v := Vma(true, MMAP_BASE, 3 * PGSIZE, 7, 0);
    var s := State([v], multiset{7});
    var addr := MMAP_BASE + PGSIZE;
    var s' := After(s, MunmapCall(addr, PGSIZE)).s;
    assert Files([v]) == multiset{7} by {
      assert [v][..0] == [];
    }
    assert s'.vmas == [v.(length := 2 * PGSIZE)];
    assert Inv(s) && Mapping(s'.vmas, addr).Some? && Mapping(s.vmas, addr + PGSIZE).Some? && Mapping(s'.vmas, addr + PGSIZE) == None;
  }

  /** A negative length at the start of the second of two adjoining mappings makes
      them overlap. */
  lemma OverlappingUnmap() returns (s: State, s': State, addr: nat)
    ensures Inv(s) && s' == After(s, MunmapCall(addr, -PGSIZE)).s
    ensures |s'.vmas| == 2 && s'.vmas[0].valid && s'.vmas[1].valid && !Apart(s'.vmas[0], s'.vmas[1])
  {
    var v, w := Vma(true, MMAP_BASE, PGSIZE, 7, 0), Vma(true, MMAP_BASE + PGSIZE, PGSIZE, 8, 0);
    addr := MMAP_BASE + PGSIZE;
    s := State([v, w], multiset{7, 8});
    s' := After(s, MunmapCall(addr, -PGSIZE)).s;
    assert Files([v]) == multiset{7} by {
      assert [v][..0] == [];
    }
    assert [v, w][..1] == [v];
    assert FindVma(s.vmas, addr, 1) == 1;
    assert s'.vmas == [v, Vma(true, MMAP_BASE, 2 * PGSIZE, 8, -PGSIZE)];
  }

  /** At the start of the only mapping it maps an address below. */
  lemma MappingUnmap() returns (s: State, s': State, addr: nat)
    ensures Inv(s) && s' == After(s, MunmapCall(addr, -PGSIZE)).s && addr >= PGSIZE
    ensures Mapping(s.vmas, addr - PGSIZE) == None && Mapping(s'.vmas, addr - PGSIZE).Some?
  {
    var v := Vma(true, MMAP_BASE, PGSIZE, 7, 0);
    addr := MMAP_BASE;
    s := State([v], multiset{7});
    s' := After(s, MunmapCall(addr, -PGSIZE)).s;
    assert Files([v]) == multiset{7} by {
      assert [v][..0] == [];
    }
    assert s'.vmas == [Vma(true, MMAP_BASE - PGSIZE, 2 * PGSIZE, 7, -PGSIZE)];
  }

  // ---- whole runs ----

  /** A positive length for `mmap`; a range that fits for `munmap`. */
  predicate CallOk(s: State, c: Call) {
    match c
    case MmapCall(length, _, _, _, _, _) => length > 0
    case MunmapCall(addr, length) =>
      var i := FindVma(s.vmas, addr, 0);
      i < |s.vmas| ==> Fits(s.vmas[i], addr, length)
  }

  ghost predicate Runs(s: State, cs: seq<Call>, s': State)
    decreases |cs|
  {
    if cs == [] then s' == s else CallOk(s, cs[0]) && Runs(After(s, cs[0]).s, cs[1..], s')
  }

  /** What the calls and their answers say about one address. */
  function Told(before: Option<(nat, int)>, s: State, cs: seq<Call>, a: nat): Option<(nat, int)>
    decreases |cs|
  {
    if cs == [] then before
    else Told(ToldOnce(before, cs[0], After(s, cs[0]).ret, a), After(s, cs[0]).s, cs[1..], a)
  }

  function ToldOnce(before: Option<(nat, int)>, c: Call, ret: int, a: nat): Option<(nat, int)> {
    match c
    case MmapCall(length, _, _, _, file, offset) =>
      if ret >= 0 && ret <= a < ret + PgRoundUp(length) then Some((file, offset + (a - ret))) else before
    case MunmapCall(addr, length) => if ret >= 0 && addr <= a < addr + length then None else before
  }

  lemma CallKeeps(s: State, c: Call, a: nat)
    requires Inv(s) && CallOk(s, c)
    ensures Inv(After(s, c).s)
    ensures Mapping(After(s, c).s.vmas, a) == ToldOnce(Mapping(s.vmas, a), c, After(s, c).ret, a)
  {
    hide Inv, Mapping, Fits;
    if After(s, c).ret < 0 {
      assert After(s, c).s == s;
    } else if c.MmapCall? {
      MmapKeepsInv(s, c);
      MmapMaps(s, c, a);
    } else {
      MunmapKeepsInv(s, c.addr, c.length);
      MunmapRemoves(s, c.addr, c.length, a);
    }
  }

  /** Over every run: live ranges stay not empty, page-aligned and disjoint, each
      with one reference to its file; and every address is mapped to what the last
      call about it said, so that what stays mapped keeps its place in the file. */
  lemma {:induction false} RunKeepsMappings(s: State, cs: seq<Call>, s': State, a: nat)
    requires Inv(s) && Runs(s, cs, s')
    ensures Inv(s') && Mapping(s'.vmas, a) == Told(Mapping(s.vmas, a), s, cs, a)
    decreases |cs|
  {
    hide Inv, Mapping, After, ToldOnce;
    if cs != [] {
      CallKeeps(s, cs[0], a);
      RunKeepsMappings(After(s, cs[0]).s, cs[1..], s', a);
    }
  }

  lemma NoMappingsYet(vmas: seq<Vma>)
    requires forall v | v in vmas :: !v.valid
    ensures Inv(State(vmas, multiset{}))
    decreases |vmas|
  {
    if vmas != [] {
      NoMappingsYet(vmas[..|vmas| - 1]);
    }
  }

  // ---- the calls in place ----

  class Proc {
    var vmas: seq<Vma>
    var held: multiset<nat>

    function View(): State
      reads this
    {
      State(vmas, held)
    }

    method SysMmap(length: int, shared: bool, write: bool, writable: bool, file: nat, offset: int) returns (ret: int)
      modifies this
      ensures Outcome(View(), ret) == After(old(View()), MmapCall(length, shared, write, writable, file, offset))
    {
      if shared && write && !writable {
        return -1;
      }
      var rounded := PgRoundUp(length);
      var nv := 0;
      while nv < |vmas|
        invariant 0 <= nv <= |vmas| && View() == old(View()) && FreeSlot(vmas, nv) == FreeSlot(vmas, 0)
      {
        if !vmas[nv].valid {
          break;
        }
        nv := nv + 1;
      }
      if nv == |vmas| {
        return -1;
      }
      var base: nat := MMAP_BASE;
      var i := 0;
      while i < |vmas|
        invariant 0 <= i <= |vmas| && View() == old(View()) && Base(vmas, i, base) == Base(vmas, 0, MMAP_BASE)
      {
        if vmas[i].valid && End(vmas[i]) > base {
          base := PgRoundUp(End(vmas[i]));
        }
        i := i + 1;
      }
      vmas := vmas[nv := Vma(true, base, rounded, file, offset)];
      held := held + multiset{file};
      return base;
    }

    method SysMunmap(addr: nat, length: int) returns (ret: int)
      modifies this
      ensures Outcome(View(), ret) == After(old(View()), MunmapCall(addr, length))
    {
      var k := 0;
      while k < |vmas|
        invariant 0 <= k <= |vmas| && View() == old(View()) && FindVma(vmas, addr, k) == FindVma(vmas, addr, 0)
      {
        if Covers(vmas[k], addr) {
          break;
        }
        k := k + 1;
      }
      if k == |vmas| {
        return -1;
      }
      var v := vmas[k];
      if addr == v.addr && length == v.length {
        held := held - multiset{v.file};
        vmas := vmas[k := v.(valid := false)];
      } else if addr == v.addr {
        vmas := vmas[k := v.(addr := v.addr + length, offset := v.offset + length, length := v.length - length)];
      } else {
        vmas := vmas[k := v.(length := v.length - length)];
      }
      return 0;
    }
  }
}
