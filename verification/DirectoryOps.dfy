/** `dirlookup`, `dirlink` and the clearing write of `sys_unlink`, running on the
    file system through `readi` and `writei`. */
module DirectoryOps {
  import opened Blocks
  import opened Tree
  import opened BlockMap
  import opened Content
  import opened Write
  import opened Directory
  import opened FileSystem

  const T_DIR := 1

  lemma ReadsEntry(st: State, own: Owner, i: nat, k: nat)
    requires Own(st, own) && NoHoles(st) && i < |st.inodes| && Whole(Bytes(st, i)) && k < Count(Bytes(st, i))
    ensures k * DIRENT < UINT_LIMIT
    ensures Content.Readi(st, i, k * DIRENT, DIRENT, 1) == ReadResult(st, Entry(Bytes(st, i), k), DIRENT, false)
  {
    hide Addr, Own, Content.Readi, FileAddr, ByteAt;
    var c := Bytes(st, i);
    assert k * DIRENT + DIRENT <= |c| <= MaxFile(st.layout) * BSIZE;
    ReadiReadsContent(st, own, i, k * DIRENT, DIRENT, 1);
    ChunksCount(k * DIRENT % BSIZE, DIRENT);
    assert k * DIRENT % BSIZE + DIRENT <= BSIZE;
  }

  lemma OneChunk(st: State, i: nat, bn: nat, o: nat, src: seq<byte>, ok: nat)
    requires Shape(st) && i < |st.inodes| && 0 < |src| && o + |src| <= BSIZE
    ensures WriteLoop(st, i, bn, o, src, 0, ok).panics || WriteLoop(st, i, bn, o, src, 0, ok).ret in {0, |src|}
  {
    hide Bmap;
  }

  /** Nothing but the content of file `i` differs, and inodes in memory agree with
      those on the disk if they did. */
  ghost predicate OnlyContent(st: State, st': State, i: nat)
    requires i < |st.inodes|
  {
    && |st'.inodes| == |st.inodes| && st'.layout == st.layout
    && (forall j: nat | j < |st.inodes| && j != i :: st'.inodes[j] == st.inodes[j] && Bytes(st', j) == Bytes(st, j))
    && st'.inodes[i].typ == st.inodes[i].typ && st'.inodes[i].nlink == st.inodes[i].nlink
    && (st.inodes == st.dinodes ==> st'.inodes == st'.dinodes)
  }

  /** Writing one entry does all of it or nothing; over an old entry it cannot
      fail. */
  lemma WritesEntry(st: State, own: Owner, i: nat, k: nat, e: seq<byte>) returns (own': Owner)
    requires Own(st, own) && NoHoles(st) && i < |st.inodes| && Whole(Bytes(st, i)) && k <= Count(Bytes(st, i))
    requires |e| == DIRENT
    ensures k * DIRENT < UINT_LIMIT
    ensures var r := Write.Writei(st, i, k * DIRENT, e, 1);
            && Own(r.st, own') && NoHoles(r.st) && !r.panics && OnlyContent(st, r.st, i)
            && (if r.ret == DIRENT then Bytes(r.st, i) == Directory.PutEntry(Bytes(st, i), k, e)
                else r.ret <= 0 && Bytes(r.st, i) == Bytes(st, i)
                     && k == Count(Bytes(st, i))
                     && (Full(r.st) || k * DIRENT + DIRENT > MaxFile(st.layout) * BSIZE))
  {
    hide Addr, FileAddr, ByteAt, WriteLoop, Placed, Rooted;
    var c := Bytes(st, i);
    assert k * DIRENT <= |c| <= MaxFile(st.layout) * BSIZE;
    own' := WriteiSplices(st, own, i, k * DIRENT, e, 1);
    ChunksCount(k * DIRENT % BSIZE, DIRENT);
    assert k * DIRENT % BSIZE + DIRENT <= BSIZE;
    OneChunk(st, i, k * DIRENT / BSIZE, k * DIRENT % BSIZE, e, 1);
    assert e[..DIRENT] == e;
    assert Spliced(c, k * DIRENT, e[..0]) == c;
  }

  /** What the directory operations may start from. */
  ghost predicate Ready(fs: Fs, i: nat)
    reads fs
  {
    fs.Valid() && i < |fs.inodes| && NoHoles(fs.View()) && DirOk(Bytes(fs.View(), i))
  }

  /** Read entry `k`; the caller panics when the answer is not 16. */
  method ReadEntry(fs: Fs, i: nat, k: nat) returns (de: seq<byte>, short: bool)
    requires Ready(fs, i) && k < Count(Bytes(fs.View(), i))
    modifies fs
    ensures fs.Valid() && fs.View() == old(fs.View())
    ensures !short && |de| == DIRENT && de == Entry(Bytes(fs.View(), i), k)
  {
    hide Addr, Own, Content.Readi, ByteAt;
    ReadsEntry(fs.View(), fs.own, i, k);
    var ret, panicked;
    de, ret, panicked := fs.Readi(i, k * DIRENT, DIRENT, 1);
    short := panicked || ret != DIRENT;
  }

  /** `dirlookup`: the inode number bound to the name, 0 when there is none, and
      the position of its entry. The panic "dirlookup read" is never reached. */
  method Dirlookup(fs: Fs, i: nat, name: seq<byte>) returns (inum: nat, off: nat, panicked: bool)
    requires Ready(fs, i)
    modifies fs
    ensures fs.Valid() && fs.View() == old(fs.View())
    ensures panicked <==> old(fs.inodes[i].typ) != T_DIR
    ensures var c := old(Bytes(fs.View(), i));
            !panicked ==>
              && (inum != 0 <==> Canon(name) in DirMap(c))
              && (inum != 0 ==> inum == DirMap(c)[Canon(name)] && off == Find(c, name, 0) * DIRENT && Find(c, name, 0) < Count(c))
  {
    hide Addr, Own, ByteAt, Entry, InumOf, NameOf;
    inum, off, panicked := 0, 0, false;
    if fs.inodes[i].typ != T_DIR {
      return 0, 0, true;
    }
    ghost var c := Bytes(fs.View(), i);
    FindsBinding(c, name, 0);
    var k := 0;
    off := 0;
    while off < fs.inodes[i].size
      invariant fs.Valid() && fs.View() == old(fs.View()) && inum == 0 && !panicked
      invariant off == k * DIRENT && 0 <= k <= Count(c) && Find(c, name, k) == Find(c, name, 0)
      decreases |c| - off
    {
      var de, short := ReadEntry(fs, i, k);
      if short {
        panicked := true;
        return;
      }
      if InumOf(de) != 0 {
        NamecmpIsEquality(name, de[2..]);
        NameField(de);
        if Namecmp(name, de[2..]) {
          return InumOf(de), off, false;
        }
      }
      k := k + 1;
      off := off + DIRENT;
    }
  }

  lemma NameField(e: seq<byte>)
    requires |e| == DIRENT
    ensures NameOf(e) == Canon(e[2..])
  {
  }

  /** `dirlink`: on success exactly one binding is added; on failure nothing in
      any file changes, and the name was taken, or no entry is free and the disk is
      full or the directory has reached the largest size. */
  method Dirlink(fs: Fs, i: nat, name: seq<byte>, inum: nat) returns (ret: int, panicked: bool)
    requires Ready(fs, i) && 0 < inum < 0x1_0000 && fs.inodes[i].typ == T_DIR
    modifies fs
    ensures Ready(fs, i) && !panicked && OnlyContent(old(fs.View()), fs.View(), i)
    ensures var c0 := old(Bytes(fs.View(), i));
            var m, c := DirMap(c0), Bytes(fs.View(), i);
            if ret == 0 then Canon(name) !in m && c == WithLink(c0, name, inum) && DirMap(c) == m[Canon(name) := inum]
            else ret == -1 && c == c0 &&
                 (Canon(name) in m ||
                  (FirstDead(c0, 0) == Count(c0) && (Full(fs.View()) || |c| + DIRENT > MaxFile(fs.layout) * BSIZE)))
  {
    hide Addr, Own, ByteAt, Entry, InumOf, NameOf, DirMap, Directory.PutEntry, Write.Writei, FirstDead, Canon;
    var found, pos, stop := Dirlookup(fs, i, name);
    if stop {
      return -1, true;
    }
    if found != 0 {
      return -1, false;
    }
    ghost var st := fs.View();
    ghost var c := Bytes(st, i);
    var k := 0;
    var off := 0;
    while off < fs.inodes[i].size
      invariant fs.Valid() && fs.View() == st
      invariant off == k * DIRENT && 0 <= k <= Count(c) && FirstDead(c, k) == FirstDead(c, 0)
      decreases |c| - off
    {
      var de, short := ReadEntry(fs, i, k);
      if short {
        return -1, true;
      }
      FirstDeadStep(c, k);
      if InumOf(de) == 0 {
        break;
      }
      k := k + 1;
      off := off + DIRENT;
    }
    FirstDeadStep(c, k);
    var e := MakeEntry(inum, name);
    ghost var own' := WritesEntry(st, fs.own, i, k, e);
    LinkAddsBinding(c, name, inum);
    ret, stop := fs.Writei(i, off, e, 1);
    if ret != DIRENT {
      return -1, false;
    }
    return 0, false;
  }

  lemma FirstDeadStep(c: seq<byte>, k: nat)
    requires k <= Count(c)
    ensures k == Count(c) || InumOf(Entry(c, k)) == 0 ==> FirstDead(c, k) == k
    ensures k < Count(c) && InumOf(Entry(c, k)) != 0 ==> FirstDead(c, k) == FirstDead(c, k + 1)
  {
  }

  /** The write of `sys_unlink` that clears the entry found by `dirlookup`. It
      never falls short, so "unlink: writei" is never reached; the binding is gone. */
  method ClearEntry(fs: Fs, i: nat, ghost name: seq<byte>, off: nat) returns (panicked: bool)
    requires Ready(fs, i)
    requires var c := Bytes(fs.View(), i); Find(c, name, 0) < Count(c) && off == Find(c, name, 0) * DIRENT
    modifies fs
    ensures Ready(fs, i) && !panicked && OnlyContent(old(fs.View()), fs.View(), i)
    ensures Bytes(fs.View(), i) == old(WithoutLink(Bytes(fs.View(), i), name))
    ensures DirMap(Bytes(fs.View(), i)) == old(DirMap(Bytes(fs.View(), i))) - {Canon(name)}
  {
    hide Addr, Own, ByteAt, DirMap, Directory.PutEntry, Write.Writei, Canon;
    var zeros := Zeros();
    ghost var st := fs.View();
    ghost var own' := WritesEntry(st, fs.own, i, Find(Bytes(st, i), name, 0), zeros);
    ClearRemovesBinding(Bytes(st, i), name, zeros);
    var ret, stop := fs.Writei(i, off, zeros, 1);
    panicked := stop || ret != DIRENT;
  }

  /** `isdirempty` */
  method Isdirempty(fs: Fs, i: nat) returns (empty: bool, panicked: bool)
    requires Ready(fs, i)
    modifies fs
    ensures fs.Valid() && fs.View() == old(fs.View()) && !panicked
    ensures empty == NoEntryFrom(Bytes(fs.View(), i), 2)
  {
    hide Addr, Own, ByteAt, Entry, InumOf, NameOf;
    ghost var c := Bytes(fs.View(), i);
    var k := 2;
    var off := 2 * DIRENT;
    while off < fs.inodes[i].size
      invariant fs.Valid() && fs.View() == old(fs.View())
      invariant off == k * DIRENT && 2 <= k && (k <= Count(c) || k == 2) && NoEntryFrom(c, k) == NoEntryFrom(c, 2)
      decreases |c| - off
    {
      var de, short := ReadEntry(fs, i, k);
      if short {
        return false, true;
      }
      if InumOf(de) != 0 {
        return false, false;
      }
      k := k + 1;
      off := off + DIRENT;
    }
    return true, false;
  }

  /** No entry can be added: none is free, and the disk is full or the directory at its
      largest. */
  ghost predicate NoRoom(st: State, i: nat)
    requires i < |st.inodes|
  {
    var c := Bytes(st, i);
    FirstDead(c, 0) == Count(c) && (Full(st) || |c| + DIRENT > MaxFile(st.layout) * BSIZE)
  }

  /** One lookup, link or unlink in directory `i`. */
  method DoCall(fs: Fs, i: nat, call: NameCall) returns (answer: int, ghost room: bool)
    requires Ready(fs, i) && fs.inodes[i].typ == T_DIR && (call.LinkName? ==> 0 < call.inum < 0x1_0000)
    modifies fs
    ensures Ready(fs, i) && OnlyContent(old(fs.View()), fs.View(), i) && (!room ==> NoRoom(fs.View(), i))
    ensures var m := old(DirMap(Bytes(fs.View(), i)));
            RightAnswer(m, call, answer, room) && DirMap(Bytes(fs.View(), i)) == MapAfter(m, call, answer)
  {
    hide Own, NoHoles, Bytes, DirOk, DirMap, Find, Canon;
    room := true;
    match call {
      case LookupName(name) =>
        var inum, off, panicked := Dirlookup(fs, i, name);
        answer := inum;
      case LinkName(name, inum) =>
        room := Canon(name) in DirMap(Bytes(fs.View(), i));
        var panicked;
        answer, panicked := Dirlink(fs, i, name, inum);
        room := room || answer == 0;
      case UnlinkName(name) =>
        var inum, off, panicked := Dirlookup(fs, i, name);
        if inum == 0 {
          return -1, true;
        }
        panicked := ClearEntry(fs, i, name, off);
        answer := 0;
    }
  }

  /** Any sequence of lookups, links and unlinks on the disk: every answer is right, so
      that a lookup finds exactly what was linked and not unlinked since, and no other
      file changes. `states` are the states after the calls; a link fails for want of
      room only in one that has none. */
  method DoCalls(fs: Fs, i: nat, calls: seq<NameCall>)
    returns (answers: seq<int>, ghost rooms: seq<bool>, ghost states: seq<State>)
    requires Ready(fs, i) && fs.inodes[i].typ == T_DIR
    requires forall k | 0 <= k < |calls| && calls[k].LinkName? :: 0 < calls[k].inum < 0x1_0000
    modifies fs
    ensures Ready(fs, i) && |answers| == |rooms| == |states| == |calls| && |fs.inodes| == old(|fs.inodes|)
    ensures forall j: nat | j < |fs.inodes| && j != i :: Bytes(fs.View(), j) == old(Bytes(fs.View(), j))
    ensures var m := old(DirMap(Bytes(fs.View(), i)));
            && RightAnswers(m, calls, answers, rooms) && DirMap(Bytes(fs.View(), i)) == MapAfterAll(m, calls, answers)
            && forall k | 0 <= k < |calls| ::
                 && i < |states[k].inodes| && DirMap(Bytes(states[k], i)) == MapAfterAll(m, calls[..k + 1], answers[..k + 1])
                 && (!rooms[k] ==> NoRoom(states[k], i))
  {
    hide Own, NoHoles, Bytes, DirOk, DirMap, RightAnswer, MapAfter, NoRoom, MapAfterAll, RightAnswers;
    ghost var m := DirMap(Bytes(fs.View(), i));
    answers, rooms, states := [], [], [];
    NoCalls(m);
    var k := 0;
    while k < |calls|
      invariant 0 <= k <= |calls| && |answers| == |rooms| == |states| == k && Ready(fs, i) && fs.inodes[i].typ == T_DIR
      invariant |fs.inodes| == old(|fs.inodes|)
      invariant forall j: nat | j < |fs.inodes| && j != i :: Bytes(fs.View(), j) == old(Bytes(fs.View(), j))
      invariant RightAnswers(m, calls[..k], answers, rooms)
      invariant DirMap(Bytes(fs.View(), i)) == MapAfterAll(m, calls[..k], answers)
      invariant forall x | 0 <= x < k ::
                  && i < |states[x].inodes| && DirMap(Bytes(states[x], i)) == MapAfterAll(m, calls[..x + 1], answers[..x + 1])
                  && (!rooms[x] ==> NoRoom(states[x], i))
    {
      ghost var answers0 := answers;
      var answer;
      ghost var room;
      answer, room := DoCall(fs, i, calls[k]);
      OneCallMore(m, calls[..k], answers, rooms, calls[k], answer, room);
      assert calls[..k] + [calls[k]] == calls[..k + 1];
      answers := answers + [answer];
      rooms, states := rooms + [room], states + [fs.View()];
      forall x | 0 <= x < k ensures DirMap(Bytes(states[x], i)) == MapAfterAll(m, calls[..x + 1], answers[..x + 1]) {
        assert answers[..x + 1] == answers0[..x + 1];
      }
      assert answers[..k + 1] == answers;
      k := k + 1;
    }
    assert calls[..k] == calls;
  }

  lemma NoCalls(m: map<Name, nat>)
    ensures RightAnswers(m, [], [], []) && MapAfterAll(m, [], []) == m
  {
  }
}
