/** A directory is a file of 16-byte entries, and stands for a finite map from
    names of at most 14 bytes to inode numbers. */
module Directory {
  import opened Blocks
  import opened Write

  const DIRSIZ := 14
  /** `sizeof(struct dirent)` */
  const DIRENT := 16

  type Name = seq<byte>

  // ---- names ----

  /** Character `k` of a C string that ends where the sequence ends. */
  function CharAt(s: seq<byte>, k: nat): byte {
    if k < |s| then s[k] else 0
  }

  /** `strncmp(s, t, DIRSIZ) == 0`, from character `k` on. */
  predicate SameFrom(s: seq<byte>, t: seq<byte>, k: nat)
    requires k <= DIRSIZ
    decreases DIRSIZ - k
  {
    k == DIRSIZ || (CharAt(s, k) == CharAt(t, k) && (CharAt(s, k) == 0 || SameFrom(s, t, k + 1)))
  }

  predicate Namecmp(s: seq<byte>, t: seq<byte>) {
    SameFrom(s, t, 0)
  }

  /** Length of the name in `s`: up to a NUL or the first 14 characters. */
  function NameLen(s: seq<byte>, k: nat): (n: nat)
    requires k <= DIRSIZ
    ensures k <= n <= DIRSIZ
    ensures n == k || n <= |s|
    ensures forall x: nat | k <= x < n :: CharAt(s, x) != 0
    ensures n < DIRSIZ ==> CharAt(s, n) == 0
    decreases DIRSIZ - k
  {
    if k == DIRSIZ || CharAt(s, k) == 0 then k else NameLen(s, k + 1)
  }

  /** The name a buffer or string stands for. */
  function Canon(s: seq<byte>): (n: Name)
    ensures |n| <= DIRSIZ
  {
    s[..NameLen(s, 0)]
  }

  lemma NameLenIs(s: seq<byte>, n: nat)
    requires n <= DIRSIZ && forall x: nat | x < n :: CharAt(s, x) != 0
    requires n < DIRSIZ ==> CharAt(s, n) == 0
    ensures NameLen(s, 0) == n
  {
  }

  /** The characters of a name, and what ends it. */
  lemma NameChars(s: seq<byte>, k: nat)
    requires k < DIRSIZ && forall x: nat | x < k :: CharAt(s, x) != 0
    ensures k <= |Canon(s)|
    ensures CharAt(s, k) == if k < |Canon(s)| then Canon(s)[k] else 0
  {
    NameLenFrom(s, 0, k);
  }

  lemma {:induction false} NameLenFrom(s: seq<byte>, j: nat, k: nat)
    requires j <= k <= DIRSIZ && forall x: nat | x < k :: CharAt(s, x) != 0
    ensures NameLen(s, j) == NameLen(s, k)
    decreases k - j
  {
    if j < k {
      NameLenFrom(s, j + 1, k);
    }
  }

  lemma CanonChars(s: seq<byte>, t: seq<byte>, k: nat)
    requires Canon(s) == Canon(t) && k < DIRSIZ && forall x: nat | x < k :: CharAt(s, x) != 0
    requires forall x: nat | x < k :: CharAt(t, x) != 0
    ensures CharAt(s, k) == CharAt(t, k)
  {
    hide Canon, NameLen;
    NameChars(s, k);
    NameChars(t, k);
  }

  lemma CanonsMeet(s: seq<byte>, t: seq<byte>, k: nat)
    requires k <= DIRSIZ && forall x: nat | x < k :: CharAt(s, x) == CharAt(t, x) != 0
    requires k < DIRSIZ ==> CharAt(s, k) == 0 && CharAt(t, k) == 0
    ensures Canon(s) == Canon(t)
  {
    hide NameLen;
    NameLenIs(s, k);
    NameLenIs(t, k);
    forall x: nat | x < k ensures s[x] == t[x] {
      assert CharAt(s, x) == CharAt(t, x);
    }
  }

  lemma {:induction false} SameFromIsEqual(s: seq<byte>, t: seq<byte>, k: nat)
    requires k <= DIRSIZ && forall x: nat | x < k :: CharAt(s, x) == CharAt(t, x) != 0
    ensures SameFrom(s, t, k) <==> Canon(s) == Canon(t)
    decreases DIRSIZ - k
  {
    hide Canon, NameLen;
    if k == DIRSIZ || (CharAt(s, k) == 0 && CharAt(t, k) == 0) {
      CanonsMeet(s, t, k);
    } else if CharAt(s, k) != CharAt(t, k) {
      if Canon(s) == Canon(t) {
        CanonChars(s, t, k);
      }
    } else {
      SameFromIsEqual(s, t, k + 1);
    }
  }

  /** The kernel's comparison accepts exactly equal names. */
  lemma NamecmpIsEquality(s: seq<byte>, t: seq<byte>)
    ensures Namecmp(s, t) <==> Canon(s) == Canon(t)
  {
    SameFromIsEqual(s, t, 0);
  }

  /** `strncpy` into a name field. */
  function Field(name: seq<byte>): (f: seq<byte>)
    ensures |f| == DIRSIZ
  {
    Canon(name) + seq(DIRSIZ - |Canon(name)|, _ => 0 as byte)
  }

  lemma FieldHoldsName(name: seq<byte>)
    ensures Canon(Field(name)) == Canon(name)
  {
    hide NameLen;
    var n := Canon(name);
    var f := Field(name);
    assert forall x: nat | x < |n| :: CharAt(f, x) == n[x] == CharAt(name, x);
    assert |n| < DIRSIZ ==> CharAt(f, |n|) == 0;
    NameLenIs(f, |n|);
  }

  function Dot(): Name {
    [46]
  }

  function DotDot(): Name {
    [46, 46]
  }

  /** A name other than "." and "..". */
  predicate Proper(n: Name) {
    n != Dot() && n != DotDot()
  }

  // ---- entries ----

  predicate Whole(c: seq<byte>) {
    |c| % DIRENT == 0
  }

  function Count(c: seq<byte>): nat {
    |c| / DIRENT
  }

  function Entry(c: seq<byte>, k: nat): (e: seq<byte>)
    requires k < Count(c)
    ensures |e| == DIRENT
  {
    c[k * DIRENT..k * DIRENT + DIRENT]
  }

  function InumOf(e: seq<byte>): (inum: nat)
    requires |e| == DIRENT
  {
    ByteVal(e[0]) + 0x100 * ByteVal(e[1])
  }

  function NameOf(e: seq<byte>): Name
    requires |e| == DIRENT
  {
    Canon(e[2..])
  }

  function MakeEntry(inum: nat, name: seq<byte>): (e: seq<byte>)
    requires inum < 0x1_0000
    ensures |e| == DIRENT && InumOf(e) == inum && NameOf(e) == Canon(name)
  {
    FieldHoldsName(name);
    ByteOf(inum % 0x100);
    ByteOf(inum / 0x100);
    var e := [ToByte(inum % 0x100), ToByte(inum / 0x100)] + Field(name);
    assert e[2..] == Field(name);
    e
  }

  predicate Live(c: seq<byte>, k: nat)
    requires k < Count(c)
  {
    InumOf(Entry(c, k)) != 0
  }

  /** Names of live entries are unique. */
  ghost predicate Unique(c: seq<byte>) {
    forall j: nat, k: nat | j < k < Count(c) && Live(c, j) && Live(c, k) :: NameOf(Entry(c, j)) != NameOf(Entry(c, k))
  }

  ghost predicate DirOk(c: seq<byte>) {
    Whole(c) && Unique(c)
  }

  /** The map a directory stands for. */
  function Bindings(c: seq<byte>, k: nat): map<Name, nat>
    requires k <= Count(c)
    decreases Count(c) - k
  {
    if k == Count(c) then map[]
    else if Live(c, k) then Bindings(c, k + 1)[NameOf(Entry(c, k)) := InumOf(Entry(c, k))]
    else Bindings(c, k + 1)
  }

  function DirMap(c: seq<byte>): map<Name, nat> {
    Bindings(c, 0)
  }

  /** The loop of `dirlookup`: the first live entry from `k` on with that name. */
  function Find(c: seq<byte>, name: seq<byte>, k: nat): (r: nat)
    requires k <= Count(c)
    ensures k <= r <= Count(c)
    ensures r < Count(c) ==> Live(c, r) && NameOf(Entry(c, r)) == Canon(name)
    decreases Count(c) - k
  {
    if k == Count(c) || (Live(c, k) && NameOf(Entry(c, k)) == Canon(name)) then k else Find(c, name, k + 1)
  }

  lemma {:induction false} FindIsFirst(c: seq<byte>, name: seq<byte>, k: nat)
    requires k <= Count(c)
    ensures forall x: nat | k <= x < Find(c, name, k) :: !(Live(c, x) && NameOf(Entry(c, x)) == Canon(name))
    decreases Count(c) - k
  {
    hide Entry, InumOf, NameOf, Canon;
    if k < Count(c) && !(Live(c, k) && NameOf(Entry(c, k)) == Canon(name)) {
      FindIsFirst(c, name, k + 1);
    }
  }

  /** `dirlookup` finds exactly what the map binds. */
  lemma {:induction false} FindsBinding(c: seq<byte>, name: seq<byte>, k: nat)
    requires k <= Count(c)
    ensures var r := Find(c, name, k);
            && (Canon(name) in Bindings(c, k) <==> r < Count(c))
            && (r < Count(c) ==> Bindings(c, k)[Canon(name)] == InumOf(Entry(c, r)))
    decreases Count(c) - k
  {
    hide Entry, InumOf, NameOf, PutEntry;
    if k < Count(c) {
      FindsBinding(c, name, k + 1);
    }
  }

  /** The entry `dirlink` writes: the first free one, or a new one at the end. */
  function FirstDead(c: seq<byte>, k: nat): (r: nat)
    requires k <= Count(c)
    ensures k <= r <= Count(c)
    ensures r < Count(c) ==> !Live(c, r)
    decreases Count(c) - k
  {
    if k == Count(c) || !Live(c, k) then k else FirstDead(c, k + 1)
  }

  /** It is the first free entry: a link takes new space only when there is none. */
  lemma {:induction false} FirstDeadIsFirst(c: seq<byte>, k: nat)
    requires k <= Count(c)
    ensures forall x: nat | k <= x < FirstDead(c, k) :: Live(c, x)
    decreases Count(c) - k
  {
    hide Entry, InumOf;
    if k < Count(c) && Live(c, k) {
      FirstDeadIsFirst(c, k + 1);
    }
  }

  /** A name of at most 14 characters stands for itself, a longer one for its first 14. */
  lemma CanonIs(name: seq<byte>)
    requires 0 !in name
    ensures Canon(name) == if |name| <= 14 then name else name[..14]
  {
    hide NameLen;
    assert forall x: nat | x < |name| :: CharAt(name, x) == name[x] && name[x] in name;
    NameLenIs(name, if |name| <= 14 then |name| else 14);
    assert name[..|name|] == name;
  }

  /** Where an entry keeps its number and its name. */
  lemma EntryBytes(inum: nat, name: seq<byte>)
    requires inum < 0x1_0000 && 0 !in name && |name| <= 14
    ensures var e := MakeEntry(inum, name);
            && |e| == 16 && inum == ByteVal(e[0]) + 256 * ByteVal(e[1])
            && e[2..2 + |name|] == name && forall k | 2 + |name| <= k < 16 :: e[k] == 0
  {
    CanonIs(name);
    ByteOf(inum % 0x100);
    ByteOf(inum / 0x100);
  }

  /** Entry `k` of a directory file lies at byte `16 * k`. */
  lemma EntryAt(c: seq<byte>, k: nat)
    requires Whole(c) && 16 * k + 16 <= |c|
    ensures k < Count(c) && Entry(c, k) == c[16 * k..16 * k + 16]
    ensures Live(c, k) <==> ByteVal(c[16 * k]) + 256 * ByteVal(c[16 * k + 1]) != 0
  {
    hide ByteVal;
  }

  function PutEntry(c: seq<byte>, k: nat, e: seq<byte>): seq<byte>
    requires Whole(c) && k <= Count(c) && |e| == DIRENT
  {
    Spliced(c, k * DIRENT, e)
  }

  lemma EntryAfterPut(c: seq<byte>, k: nat, e: seq<byte>)
    requires Whole(c) && k <= Count(c) && |e| == DIRENT
    ensures var c' := PutEntry(c, k, e);
            && Whole(c') && Count(c') == (if k == Count(c) then k + 1 else Count(c))
            && Entry(c', k) == e
            && (forall x: nat | x < Count(c) && x != k :: Entry(c', x) == Entry(c, x))
  {
    var c' := PutEntry(c, k, e);
    assert Entry(c', k) == e;
    forall x: nat | x < Count(c) && x != k ensures Entry(c', x) == Entry(c, x) {
      assert x * DIRENT + DIRENT <= k * DIRENT || k * DIRENT + DIRENT <= x * DIRENT;
    }
  }

  lemma {:induction false} BindingsAfterPut(c: seq<byte>, k: nat, e: seq<byte>, x: nat)
    requires Whole(c) && k <= Count(c) && |e| == DIRENT && x <= Count(PutEntry(c, k, e))
    requires Count(PutEntry(c, k, e)) == (if k == Count(c) then k + 1 else Count(c))
    requires x <= Count(c) || k < x
    requires forall y: nat | y < Count(c) && Live(c, y) && (k == Count(c) || y != k) :: NameOf(Entry(c, y)) != NameOf(e)
    requires k < Count(c) ==> !Live(c, k)
    requires InumOf(e) != 0
    ensures var c' := PutEntry(c, k, e);
            Bindings(c', x) == if x <= k then Bindings(c, x)[NameOf(e) := InumOf(e)]
                               else Bindings(c, if x <= Count(c) then x else Count(c))
    decreases Count(PutEntry(c, k, e)) - x
  {
    hide Entry, InumOf, NameOf, PutEntry;
    EntryAfterPut(c, k, e);
    var c' := PutEntry(c, k, e);
    if x < Count(c') {
      BindingsAfterPut(c, k, e, x + 1);
      if x < Count(c) && x != k {
        assert Entry(c', x) == Entry(c, x);
      }
    }
  }

  /** Linking a new name adds exactly that binding and keeps the directory
      well formed. */
  lemma LinkAddsBinding(c: seq<byte>, name: seq<byte>, inum: nat)
    requires DirOk(c) && 0 < inum < 0x1_0000 && Canon(name) !in DirMap(c)
    ensures var c' := PutEntry(c, FirstDead(c, 0), MakeEntry(inum, name));
            DirOk(c') && DirMap(c') == DirMap(c)[Canon(name) := inum]
  {
    hide Entry, InumOf, NameOf, Canon, PutEntry;
    FindIsFirst(c, name, 0);
    var k := FirstDead(c, 0);
    var e := MakeEntry(inum, name);
    EntryAfterPut(c, k, e);
    FindsBinding(c, name, 0);
    BindingsAfterPut(c, k, e, 0);
    var c' := PutEntry(c, k, e);
    forall i: nat, j: nat | i < j < Count(c') && Live(c', i) && Live(c', j)
      ensures NameOf(Entry(c', i)) != NameOf(Entry(c', j))
    {
      assert i != k ==> Entry(c', i) == Entry(c, i) && Live(c, i);
      assert j != k ==> Entry(c', j) == Entry(c, j) && Live(c, j);
    }
  }

  lemma {:induction false} BindingsAfterClear(c: seq<byte>, k: nat, e: seq<byte>, x: nat)
    requires Whole(c) && k < Count(c) && |e| == DIRENT && InumOf(e) == 0 && x <= Count(c)
    requires Unique(c) && Live(c, k)
    ensures Count(PutEntry(c, k, e)) == Count(c)
    ensures Bindings(PutEntry(c, k, e), x) == Bindings(c, x) - {NameOf(Entry(c, k))}
    decreases Count(c) - x
  {
    hide Entry, InumOf, NameOf, PutEntry;
    EntryAfterPut(c, k, e);
    if x < Count(c) {
      BindingsAfterClear(c, k, e, x + 1);
      if x != k {
        assert Entry(PutEntry(c, k, e), x) == Entry(c, x);
        assert Live(c, x) ==> NameOf(Entry(c, x)) != NameOf(Entry(c, k));
      }
    }
  }

  /** Zeroing the entry of a name removes exactly that binding. */
  lemma ClearRemovesBinding(c: seq<byte>, name: seq<byte>, e: seq<byte>)
    requires DirOk(c) && Find(c, name, 0) < Count(c) && |e| == DIRENT && InumOf(e) == 0
    ensures var c' := PutEntry(c, Find(c, name, 0), e);
            DirOk(c') && DirMap(c') == DirMap(c) - {Canon(name)}
  {
    hide Entry, InumOf, NameOf, Canon, PutEntry;
    var k := Find(c, name, 0);
    EntryAfterPut(c, k, e);
    BindingsAfterClear(c, k, e, 0);
    var c' := PutEntry(c, k, e);
    forall i: nat, j: nat | i < j < Count(c') && Live(c', i) && Live(c', j)
      ensures NameOf(Entry(c', i)) != NameOf(Entry(c', j))
    {
      assert Entry(c', i) == Entry(c, i) && Entry(c', j) == Entry(c, j);
    }
  }

  /** What `isdirempty` looks at: no live entry after the first two. */
  predicate NoEntryFrom(c: seq<byte>, k: nat)
    decreases Count(c) - k
  {
    k >= Count(c) || (!Live(c, k) && NoEntryFrom(c, k + 1))
  }

  lemma {:induction false} NoBindingsFrom(c: seq<byte>, k: nat)
    requires k <= Count(c)
    ensures NoEntryFrom(c, k) <==> Bindings(c, k) == map[]
    decreases Count(c) - k
  {
    hide Entry, InumOf, NameOf;
    if k < Count(c) {
      NoBindingsFrom(c, k + 1);
      if Live(c, k) {
        assert NameOf(Entry(c, k)) in Bindings(c, k);
      }
    }
  }

  lemma {:induction false} BindingsAreEntries(c: seq<byte>, k: nat, n: Name)
    requires k <= Count(c) && n in Bindings(c, k)
    ensures exists x: nat :: k <= x < Count(c) && Live(c, x) && NameOf(Entry(c, x)) == n
    decreases Count(c) - k
  {
    hide Entry, InumOf, NameOf;
    if !(Live(c, k) && NameOf(Entry(c, k)) == n) {
      BindingsAreEntries(c, k + 1, n);
    }
  }

  /** In a directory that starts with live entries for "." and "..", `isdirempty`
      says yes exactly when the map binds no other name. */
  lemma IsDirEmptyMeans(c: seq<byte>)
    requires DirOk(c) && Count(c) >= 2 && Live(c, 0) && Live(c, 1)
    ensures NoEntryFrom(c, 2) <==> DirMap(c).Keys == {NameOf(Entry(c, 0)), NameOf(Entry(c, 1))}
  {
    hide Entry, InumOf, NameOf;
    NoBindingsFrom(c, 2);
    var two := {NameOf(Entry(c, 0)), NameOf(Entry(c, 1))};
    var rest := Bindings(c, 2);
    assert Bindings(c, 0) == Bindings(c, 1)[NameOf(Entry(c, 0)) := InumOf(Entry(c, 0))];
    assert Bindings(c, 1) == rest[NameOf(Entry(c, 1)) := InumOf(Entry(c, 1))];
    assert DirMap(c).Keys == two + rest.Keys;
    forall n | n in rest ensures n !in two {
      BindingsAreEntries(c, 2, n);
    }
    assert rest == map[] <==> rest.Keys == {};
  }

  // ---- "." and ".." in front ----

  /** The first two entries are live and named "." and "..". */
  predicate DotsInFront(c: seq<byte>) {
    Count(c) >= 2 && Live(c, 0) && Live(c, 1) && NameOf(Entry(c, 0)) == Dot() && NameOf(Entry(c, 1)) == DotDot()
  }

  lemma DeadAfterTwo(c: seq<byte>)
    requires DotsInFront(c)
    ensures FirstDead(c, 0) >= 2
  {
    hide Entry, InumOf, NameOf;
    assert FirstDead(c, 0) == FirstDead(c, 1) == FirstDead(c, 2);
  }

  /** `dirlink` leaves the first two entries of a directory alone. */
  lemma LinkKeepsDots(c: seq<byte>, e: seq<byte>)
    requires DirOk(c) && DotsInFront(c) && |e| == DIRENT
    ensures DotsInFront(PutEntry(c, FirstDead(c, 0), e))
  {
    hide Entry, InumOf, NameOf, PutEntry;
    DeadAfterTwo(c);
    EntryAfterPut(c, FirstDead(c, 0), e);
  }

  /** So does clearing the entry of a name other than "." and "..". */
  lemma ClearKeepsDots(c: seq<byte>, name: seq<byte>, e: seq<byte>)
    requires DirOk(c) && DotsInFront(c) && Proper(Canon(name)) && Find(c, name, 0) < Count(c) && |e| == DIRENT
    ensures DotsInFront(PutEntry(c, Find(c, name, 0), e))
  {
    hide Entry, InumOf, NameOf, PutEntry, Canon;
    EntryAfterPut(c, Find(c, name, 0), e);
  }

  lemma CanonOfDots()
    ensures Canon(Dot()) == Dot() && Canon(DotDot()) == DotDot()
  {
    hide NameLen;
    NameLenIs(Dot(), 1);
    NameLenIs(DotDot(), 2);
  }

  function WithLink(c: seq<byte>, name: seq<byte>, inum: nat): seq<byte>
    requires Whole(c) && inum < 0x1_0000
  {
    PutEntry(c, FirstDead(c, 0), MakeEntry(inum, name))
  }

  function Zeros(): (e: seq<byte>)
    ensures |e| == DIRENT && InumOf(e) == 0
  {
    var e := seq(DIRENT, _ => 0 as byte);
    ZeroIsFree(e);
    e
  }

  lemma ZeroIsFree(e: seq<byte>)
    requires |e| == DIRENT && e[0] == 0 && e[1] == 0
    ensures InumOf(e) == 0
  {
  }

  function WithoutLink(c: seq<byte>, name: seq<byte>): seq<byte>
    requires Whole(c) && Find(c, name, 0) < Count(c)
  {
    PutEntry(c, Find(c, name, 0), Zeros())
  }

  /** A directory as `create` makes it: "." and then "..", in an empty file. */
  lemma DotsMade(inum: nat, parent: nat)
    requires 0 < inum < 0x1_0000 && 0 < parent < 0x1_0000
    ensures DirOk([]) && Whole(WithLink([], Dot(), inum))
    ensures var c := WithLink(WithLink([], Dot(), inum), DotDot(), parent);
            DirOk(c) && DotsInFront(c) && DirMap(c) == map[Dot() := inum, DotDot() := parent]
  {
    hide Entry, InumOf, NameOf, PutEntry, Canon;
    CanonOfDots();
    LinkAddsBinding([], Dot(), inum);
    EntryAfterPut([], 0, MakeEntry(inum, Dot()));
    var c := WithLink([], Dot(), inum);
    LinkAddsBinding(c, DotDot(), parent);
    assert FirstDead(c, 0) == FirstDead(c, 1) == 1;
    EntryAfterPut(c, 1, MakeEntry(parent, DotDot()));
  }

  /** As long as they are in front, `isdirempty` says yes exactly when no name other
      than those two is bound. */
  lemma IsDirEmptyProper(c: seq<byte>)
    requires DirOk(c) && DotsInFront(c)
    ensures NoEntryFrom(c, 2) <==> forall n | n in DirMap(c) :: !Proper(n)
  {
    hide Entry, InumOf, NameOf, Bindings, NoEntryFrom;
    IsDirEmptyMeans(c);
    FrontIsBound(c);
    assert forall n | n in DirMap(c) :: n in DirMap(c).Keys;
  }

  lemma FrontIsBound(c: seq<byte>)
    requires DirOk(c) && DotsInFront(c)
    ensures Dot() in DirMap(c) && DotDot() in DirMap(c)
  {
    hide Entry, InumOf, NameOf;
    assert Bindings(c, 0) == Bindings(c, 1)[NameOf(Entry(c, 0)) := InumOf(Entry(c, 0))];
    assert Bindings(c, 1) == Bindings(c, 2)[NameOf(Entry(c, 1)) := InumOf(Entry(c, 1))];
  }

  // ---- any sequence of lookups, links and unlinks ----

  datatype NameCall = LookupName(name: seq<byte>) | LinkName(name: seq<byte>, inum: nat) | UnlinkName(name: seq<byte>)

  /** The map after a call with this answer. */
  function MapAfter(m: map<Name, nat>, call: NameCall, answer: int): map<Name, nat> {
    match call
    case LookupName(_) => m
    case LinkName(name, inum) => if answer == 0 then m[Canon(name) := inum] else m
    case UnlinkName(name) => if answer == 0 then m - {Canon(name)} else m
  }

  /** What a call answers: a lookup the number bound to the name or 0; a link 0 exactly
      for a new name when there is room for an entry; an unlink 0 exactly for a name
      that is bound; and -1 otherwise. */
  predicate RightAnswer(m: map<Name, nat>, call: NameCall, answer: int, room: bool) {
    match call
    case LookupName(name) => answer == if Canon(name) in m then m[Canon(name)] else 0
    case LinkName(name, _) => answer == if Canon(name) !in m && room then 0 else -1
    case UnlinkName(name) => answer == if Canon(name) in m then 0 else -1
  }

  /** The map after all calls: what was linked and not unlinked since. */
  function MapAfterAll(m: map<Name, nat>, calls: seq<NameCall>, answers: seq<int>): map<Name, nat>
    requires |answers| == |calls|
  {
    if calls == [] then m
    else
      var k := |calls| - 1;
      MapAfter(MapAfterAll(m, calls[..k], answers[..k]), calls[k], answers[k])
  }

  predicate RightAnswers(m: map<Name, nat>, calls: seq<NameCall>, answers: seq<int>, rooms: seq<bool>)
    requires |answers| == |rooms| == |calls|
  {
    calls == [] ||
    var k := |calls| - 1;
    RightAnswers(m, calls[..k], answers[..k], rooms[..k]) &&
    RightAnswer(MapAfterAll(m, calls[..k], answers[..k]), calls[k], answers[k], rooms[k])
  }

  lemma OneCallMore(m: map<Name, nat>, calls: seq<NameCall>, answers: seq<int>, rooms: seq<bool>,
                    call: NameCall, answer: int, room: bool)
    requires |answers| == |rooms| == |calls|
    ensures MapAfterAll(m, calls + [call], answers + [answer]) == MapAfter(MapAfterAll(m, calls, answers), call, answer)
    ensures RightAnswers(m, calls + [call], answers + [answer], rooms + [room]) <==>
              RightAnswers(m, calls, answers, rooms) && RightAnswer(MapAfterAll(m, calls, answers), call, answer, room)
  {
    hide MapAfter, RightAnswer;
    assert (calls + [call])[..|calls|] == calls && (answers + [answer])[..|calls|] == answers;
    assert (rooms + [room])[..|calls|] == rooms;
  }
}
