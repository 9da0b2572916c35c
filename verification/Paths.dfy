/** `skipelem` and the path names it takes apart. */
module Paths {
  import opened Blocks
  import opened Directory

  const SLASH: byte := 47

  type Path = seq<byte>

  // ---- what skipelem does ----

  function SkipSlashes(p: Path): (r: Path)
    ensures |r| <= |p| && (r != [] ==> r[0] != SLASH)
  {
    if p != [] && p[0] == SLASH then SkipSlashes(p[1..]) else p
  }

  /** Length of the element a path starts with. */
  function ElemLen(p: Path): (n: nat)
    ensures n <= |p|
    ensures forall k | 0 <= k < n :: p[k] != SLASH
    ensures n < |p| ==> p[n] == SLASH
  {
    if p == [] || p[0] == SLASH then 0 else 1 + ElemLen(p[1..])
  }

  /** The name buffer keeps at most 14 characters of an element. */
  function Cut(e: seq<byte>): Name {
    if |e| >= DIRSIZ then e[..DIRSIZ] else e
  }

  /** The rest of the path and the element taken off it; `None` is the null result. */
  function Skipelem(p: Path): Option<(Path, Name)> {
    var q := SkipSlashes(p);
    if q == [] then None
    else Some((SkipSlashes(q[ElemLen(q)..]), Cut(q[..ElemLen(q)])))
  }

  lemma SkipelemShortens(p: Path)
    ensures Skipelem(p).Some? ==> |Skipelem(p).value.0| < |p|
  {
  }

  /** The names that repeated calls of `skipelem` produce. */
  function Elements(p: Path): seq<Name>
    decreases |p|
  {
    SkipelemShortens(p);
    match Skipelem(p)
    case None => []
    case Some((rest, name)) => [name] + Elements(rest)
  }

  // ---- what a path means ----

  /** The pieces between slashes, empty ones included. */
  function Fields(p: Path): (f: seq<seq<byte>>)
    ensures |f| > 0
    decreases |p|
  {
    if p == [] then [[]]
    else
      var rest := Fields(p[1..]);
      if p[0] == SLASH then [[]] + rest else [[p[0]] + rest[0]] + rest[1..]
  }

  function CutNonempty(f: seq<seq<byte>>): seq<Name> {
    if f == [] then [] else (if f[0] == [] then [] else [Cut(f[0])]) + CutNonempty(f[1..])
  }

  /** The non-empty slash-separated components, each cut to 14 bytes. */
  function Components(p: Path): seq<Name> {
    CutNonempty(Fields(p))
  }

  lemma {:induction false} SlashesAreEmpty(p: Path)
    ensures Components(SkipSlashes(p)) == Components(p)
    decreases |p|
  {
    if p != [] && p[0] == SLASH {
      SlashesAreEmpty(p[1..]);
      assert Fields(p)[1..] == Fields(p[1..]);
    }
  }

  lemma {:induction false} FirstField(p: Path)
    ensures Fields(p)[0] == p[..ElemLen(p)]
    ensures ElemLen(p) == |p| ==> Fields(p) == [p]
    ensures ElemLen(p) < |p| ==> Fields(p)[1..] == Fields(p[ElemLen(p) + 1..])
    decreases |p|
  {
    if p != [] {
      FirstField(p[1..]);
      if p[0] != SLASH {
        var n := ElemLen(p[1..]);
        assert ElemLen(p) == n + 1;
        hide ElemLen;
        assert p[..n + 1] == [p[0]] + p[1..][..n];
        assert n == |p| - 1 ==> [p[0]] + p[1..] == p;
        assert n + 1 < |p| ==> p[n + 2..] == p[1..][n + 1..];
      }
    }
  }

  /** Iterating `skipelem` yields exactly the components of the path. */
  lemma {:induction false} ElementsAreComponents(p: Path)
    ensures Elements(p) == Components(p)
    decreases |p|
  {
    SlashesAreEmpty(p);
    var q := SkipSlashes(p);
    if q != [] {
      var n := ElemLen(q);
      FirstField(q);
      SkipelemShortens(p);
      var rest := SkipSlashes(q[n..]);
      ElementsAreComponents(rest);
      SlashesAreEmpty(q[n..]);
      if n < |q| {
        SlashesAreEmpty(q[n..]);
        assert q[n..][1..] == q[n + 1..];
        assert Fields(q[n..])[1..] == Fields(q[n + 1..]) && Fields(q[n..])[0] == [];
        assert Components(q[n..]) == Components(q[n + 1..]);
      } else {
        assert q[n..] == [];
        assert q[..n] == q;
      }
      assert Components(q) == [Cut(q[..n])] + Components(q[n..]);
    } else {
      assert Fields(q) == [[]];
    }
  }

  /** What is left after `skipelem` is empty exactly when the name was the last
      component, which is what `namex` tests. */
  lemma RestEmptyIffLast(p: Path)
    requires Skipelem(p).Some?
    ensures var (rest, name) := Skipelem(p).value;
            Components(p) == [name] + Components(rest) && (rest == [] <==> Components(rest) == [])
  {
    var (rest, name) := Skipelem(p).value;
    SkipelemShortens(p);
    ElementsAreComponents(p);
    ElementsAreComponents(rest);
    assert Elements(p) == [name] + Elements(rest);
    if rest != [] {
      assert SkipSlashes(rest) == rest;
    }
  }

  // ---- names put together and taken apart ----

  /** A name without slashes. */
  predicate Plain(e: seq<byte>) {
    e != [] && SLASH !in e
  }

  lemma {:induction false} PlainElement(e: seq<byte>, q: Path)
    requires SLASH !in e && (q != [] ==> q[0] == SLASH)
    ensures ElemLen(e + q) == |e|
    decreases |e|
  {
    if e != [] {
      assert (e + q)[1..] == e[1..] + q;
      PlainElement(e[1..], q);
    } else {
      assert e + q == q;
    }
  }

  lemma PlainFields(e: seq<byte>, q: Path)
    requires Plain(e)
    ensures Components(e) == [Cut(e)]
    ensures Components(e + [SLASH] + q) == [Cut(e)] + Components(q)
  {
    PlainElement(e, []);
    assert e + [] == e;
    FirstField(e);
    assert Fields(e) == [e] && Fields(e)[1..] == [];
    assert CutNonempty(Fields(e)) == [Cut(e)] + CutNonempty([]);
    var p := e + [SLASH] + q;
    PlainElement(e, [SLASH] + q);
    assert p == e + ([SLASH] + q);
    FirstField(p);
    assert p[..|e|] == e && p[|e| + 1..] == q;
  }

  /** A path that is one name stands for that name, cut after 14 bytes. */
  lemma SingleName(e: seq<byte>)
    requires Plain(e)
    ensures Elements(e) == [if |e| <= 14 then e else e[..14]]
  {
    ElementsAreComponents(e);
    PlainFields(e, []);
    assert |e| == 14 ==> e[..14] == e;
  }

  function Join(names: seq<seq<byte>>): Path {
    if names == [] then [] else if |names| == 1 then names[0] else names[0] + [SLASH] + Join(names[1..])
  }

  lemma {:induction false} JoinedComponents(names: seq<seq<byte>>)
    requires forall e | e in names :: Plain(e)
    ensures Components(Join(names)) == seq(|names|, k requires 0 <= k < |names| => Cut(names[k]))
    decreases |names|
  {
    if names == [] {
      assert Fields([]) == [[]];
    } else {
      PlainFields(names[0], Join(names[1..]));
      if |names| > 1 {
        JoinedComponents(names[1..]);
      }
    }
  }

  /** Names of at most 14 bytes joined by slashes are taken apart again. */
  lemma JoinedApart(names: seq<seq<byte>>)
    requires forall e | e in names :: Plain(e) && |e| <= 14
    ensures Elements(Join(names)) == names
  {
    ElementsAreComponents(Join(names));
    JoinedComponents(names);
    forall k | 0 <= k < |names| ensures Cut(names[k]) == names[k] {
      assert names[k] in names;
      assert |names[k]| == 14 ==> names[k][..14] == names[k];
    }
  }

  /** To a directory the name taken off a path is the component: they compare equal. */
  lemma CutIsSameName(e: seq<byte>)
    ensures Canon(Cut(e)) == Canon(e) && Namecmp(Cut(e), e)
  {
    NamecmpIsEquality(Cut(e), e);
    CutLen(e, 0);
  }

  lemma {:induction false} CutLen(e: seq<byte>, k: nat)
    requires k <= DIRSIZ
    ensures NameLen(Cut(e), k) == NameLen(e, k)
    decreases DIRSIZ - k
  {
    if k < DIRSIZ {
      assert CharAt(Cut(e), k) == CharAt(e, k);
      CutLen(e, k + 1);
    }
  }
}
