/** The prime sieve: a growing chain of processes joined by pipes, correct under
    every schedule. */
module Sieve {
  /** `Writing`: a number that the prime does not divide has been read, and the
      successor exists. `Waiting`: end of input was seen and the pipe is closed. */
  datatype Pc = Starting | Reading | Writing(data: nat) | Waiting | Exited

  /** `got` is all that was ever written to the stage's pipe, of which `pos` numbers
      have been read; `eof`: the write end is closed. */
  datatype Stage = Stage(prime: nat, child: bool, pc: Pc, got: seq<nat>, pos: nat, eof: bool)

  datatype State = State(stages: seq<Stage>, printed: seq<nat>)

  // ---- steps ----

  predicate CanStep(s: State, k: nat) {
    && k < |s.stages| && s.stages[k].prime > 0
    && match s.stages[k].pc
       case Starting => true
       case Reading => s.stages[k].pos < |s.stages[k].got| || (s.stages[k].eof && (s.stages[k].child ==> k + 1 < |s.stages|))
       case Writing(_) => k + 1 < |s.stages|
       case Waiting => s.stages[k].child ==> k + 1 < |s.stages| && s.stages[k + 1].pc.Exited?
       case Exited => false
  }

  function SetStage(s: State, k: nat, st: Stage): State
    requires k < |s.stages|
  {
    s.(stages := s.stages[k := st])
  }

  /** A stage prints its prime, reads a number, passes it on, or ends. When it meets
      the first number its prime does not divide it forks its successor, and goes on
      to write that number too. (The successor's own write at that point goes to a
      closed descriptor and has no effect.) */
  function Next(s: State, k: nat): State
    requires CanStep(s, k)
  {
    var st := s.stages[k];
    match st.pc
    case Starting => SetStage(s, k, st.(pc := Reading)).(printed := s.printed + [st.prime])
    case Reading =>
      if st.pos < |st.got| then
        var data := st.got[st.pos];
        var read := st.(pos := st.pos + 1);
        if data % st.prime == 0 then SetStage(s, k, read)
        else if st.child then SetStage(s, k, read.(pc := Writing(data)))
        else
          var s1 := SetStage(s, k, read.(pc := Writing(data), child := true));
          s1.(stages := s1.stages + [Stage(data, false, Starting, [], 0, false)])
      else
        var s1 := SetStage(s, k, st.(pc := Waiting));
        if st.child then SetStage(s1, k + 1, s1.stages[k + 1].(eof := true)) else s1
    case Writing(data) =>
      var s1 := SetStage(s, k, st.(pc := Reading));
      SetStage(s1, k + 1, s1.stages[k + 1].(got := s1.stages[k + 1].got + [data]))
    case Waiting => SetStage(s, k, st.(pc := Exited))
  }

  /** The numbers from `lo` to `hi`. */
  function Numbers(lo: nat, hi: nat): seq<nat>
    decreases hi + 1 - lo
  {
    if lo > hi then [] else [lo] + Numbers(lo + 1, hi)
  }

  /** The first process, when it has written 2 to `n` to its own pipe. */
  function Init(n: nat): State {
    State([Stage(2, false, Starting, Numbers(2, n), 0, true)], [])
  }

  // ---- the invariant ----

  /** The numbers that `p` does not divide. */
  function Filter(s: seq<nat>, p: nat): seq<nat>
    requires p > 0
  {
    if s == [] then []
    else Filter(s[..|s| - 1], p) + if s[|s| - 1] % p != 0 then [s[|s| - 1]] else []
  }

  function Pending(st: Stage): seq<nat> {
    if st.pc.Writing? then [st.pc.data] else []
  }

  function Passed(st: Stage): seq<nat>
    requires st.prime > 0 && st.pos <= |st.got|
  {
    Filter(st.got[..st.pos], st.prime)
  }

  predicate Ended(st: Stage) {
    st.pc.Waiting? || st.pc.Exited?
  }

  predicate StageOk(s: State, k: nat)
    requires k < |s.stages|
  {
    var st := s.stages[k];
    && st.prime > 0 && st.pos <= |st.got|
    && (st.child <==> k + 1 < |s.stages|)
    && (st.pc.Starting? ==> st.pos == 0 && !st.child)
    && (st.pc.Writing? ==> st.child)
    && (Ended(st) ==> st.pos == |st.got| && st.eof)
    && if k + 1 < |s.stages| then
         && Passed(st) == s.stages[k + 1].got + Pending(st)
         && Passed(st) != [] && Passed(st)[0] == s.stages[k + 1].prime
         && (s.stages[k + 1].eof <==> Ended(st))
         && (st.pc.Exited? ==> s.stages[k + 1].pc.Exited?)
       else Passed(st) == []
  }

  function Primes(s: State): (ps: seq<nat>)
    ensures |ps| == |s.stages|
  {
    seq(|s.stages|, k requires 0 <= k < |s.stages| => s.stages[k].prime)
  }

  ghost predicate Inv(s: State, n: nat) {
    && |s.stages| >= 1
    && s.stages[0].prime == 2 && s.stages[0].got == Numbers(2, n) && s.stages[0].eof
    && (forall k: nat | k < |s.stages| :: StageOk(s, k))
    && s.printed == if s.stages[|s.stages| - 1].pc.Starting? then Primes(s)[..|s.stages| - 1] else Primes(s)
  }

  lemma ReadOne(st: Stage, st': Stage)
    requires st.prime > 0 && st.pos < |st.got|
    requires st'.prime == st.prime && st'.got == st.got && st'.pos == st.pos + 1
    ensures Passed(st') ==
              Passed(st) + if st.got[st.pos] % st.prime != 0 then [st.got[st.pos]] else []
  {
    var s := st.got[..st.pos + 1];
    assert s[..|s| - 1] == st.got[..st.pos];
  }

  lemma NothingRead(st: Stage)
    requires st.prime > 0 && st.pos == 0
    ensures Passed(st) == []
  {
  }

  predicate StagesOk(s: State) {
    forall k: nat | k < |s.stages| :: StageOk(s, k)
  }

  lemma SelfStays(s: State, k: nat)
    requires StagesOk(s) && CanStep(s, k) && k < |Next(s, k).stages|
    ensures StageOk(Next(s, k), k)
  {
    hide Filter, Passed;
    var s' := Next(s, k);
    assert StageOk(s, k);
    if s'.stages[k].pos != s.stages[k].pos {
      ReadOne(s.stages[k], s'.stages[k]);
    } else {
      SamePassed(s.stages[k], s'.stages[k]);
    }
  }

  lemma OtherStays(s: State, k: nat, j: nat)
    requires StagesOk(s) && CanStep(s, k) && j < |Next(s, k).stages| && j != k
    ensures StageOk(Next(s, k), j)
  {
    hide Filter, Passed;
    var s' := Next(s, k);
    assert StageOk(s, k);
    if j == |s.stages| {
      NothingRead(s'.stages[j]);
    } else {
      assert StageOk(s, j);
      SamePassed(s.stages[j], s'.stages[j]);
    }
  }

  lemma SamePassed(st: Stage, st': Stage)
    requires st.prime > 0 && st'.prime == st.prime && st.pos <= |st.got| && st'.pos <= |st'.got|
    ensures st'.pos == st.pos && st.got <= st'.got ==> Passed(st') == Passed(st)
  {
    if st'.pos == st.pos && st.got <= st'.got {
      assert st'.got[..st.pos] == st.got[..st.pos];
    }
  }

  lemma PrintedStays(s: State, n: nat, k: nat)
    requires Inv(s, n) && CanStep(s, k)
    ensures var s' := Next(s, k);
            s'.printed == if s'.stages[|s'.stages| - 1].pc.Starting? then Primes(s')[..|s'.stages| - 1] else Primes(s')
  {
    hide Filter, Numbers;
    assert StageOk(s, k);
  }

  lemma StepKeeps(s: State, n: nat, k: nat)
    requires Inv(s, n) && CanStep(s, k)
    ensures Inv(Next(s, k), n)
  {
    hide StageOk, Primes, Numbers;
    var s' := Next(s, k);
    forall j: nat | j < |s'.stages| ensures StageOk(s', j) {
      if j == k {
        SelfStays(s, k);
      } else {
        OtherStays(s, k, j);
      }
    }
    PrintedStays(s, n, k);
    FirstStays(s, n, k);
  }

  lemma FirstStays(s: State, n: nat, k: nat)
    requires Inv(s, n) && CanStep(s, k)
    ensures var s' := Next(s, k);
            |s'.stages| >= 1 && s'.stages[0].prime == 2 && s'.stages[0].got == Numbers(2, n) && s'.stages[0].eof
  {
    hide Numbers, StageOk, Primes;
  }

  // ---- sieving ----

  predicate Positive(ps: seq<nat>) {
    forall j | 0 <= j < |ps| :: ps[j] > 0
  }

  /** The numbers from 2 to `n` that the first `k` of the numbers `ps` do not divide. */
  function Sieved(n: nat, ps: seq<nat>, k: nat): seq<nat>
    requires k <= |ps| && Positive(ps)
  {
    if k == 0 then Numbers(2, n) else Filter(Sieved(n, ps, k - 1), ps[k - 1])
  }

  predicate Increasing(s: seq<nat>) {
    forall i, j | 0 <= i < j < |s| :: s[i] < s[j]
  }

  lemma {:induction false} NumbersAre(lo: nat, hi: nat)
    ensures forall x: nat :: x in Numbers(lo, hi) <==> lo <= x <= hi
    ensures Increasing(Numbers(lo, hi))
    decreases hi + 1 - lo
  {
    if lo <= hi {
      NumbersAre(lo + 1, hi);
      var rest := Numbers(lo + 1, hi);
      forall j | 0 <= j < |rest| ensures lo < rest[j] {
        assert rest[j] in rest;
      }
    }
  }

  lemma {:induction false} FilterKeeps(s: seq<nat>, p: nat)
    requires p > 0
    ensures forall x: nat :: x in Filter(s, p) <==> x in s && x % p != 0
    ensures Increasing(s) ==> Increasing(Filter(s, p))
  {
    if s != [] {
      var rest, last := s[..|s| - 1], s[|s| - 1];
      FilterKeeps(rest, p);
      assert s == rest + [last];
      if Increasing(s) {
        forall i | 0 <= i < |Filter(rest, p)| ensures Filter(rest, p)[i] < last {
          assert Filter(rest, p)[i] in rest;
        }
      }
    }
  }

  lemma {:induction false} SievedAre(n: nat, ps: seq<nat>, k: nat)
    requires k <= |ps| && Positive(ps)
    ensures forall x: nat :: x in Sieved(n, ps, k) <==> 2 <= x <= n && forall j | 0 <= j < k :: x % ps[j] != 0
    ensures Increasing(Sieved(n, ps, k))
  {
    hide Numbers, Filter;
    if k == 0 {
      NumbersAre(2, n);
    } else {
      SievedAre(n, ps, k - 1);
      FilterKeeps(Sieved(n, ps, k - 1), ps[k - 1]);
    }
  }

  predicate IsPrime(p: nat) {
    p >= 2 && forall d: nat | 2 <= d < p :: p % d != 0
  }

  lemma DividesThrough(h: nat, d: nat, p: nat)
    requires d > 0 && p > 0 && h % d == 0 && d % p == 0
    ensures h % p == 0
  {
    var q, r := h / d, d / p;
    assert h == d * q && d == p * r;
    assert h == p * (r * q);
    MultipleMod(p, r * q);
  }

  lemma MultipleMod(p: nat, q: nat)
    requires p > 0
    ensures (p * q) % p == 0
  {
    var x := p * q;
    var d := q - x / p;
    assert p * d == x % p;
    assert d >= 1 ==> p * d >= p;
    assert d <= -1 ==> p * d + p <= 0;
  }

  predicate HeadAt(n: nat, ps: seq<nat>, k: nat)
    requires k < |ps| && Positive(ps)
  {
    Sieved(n, ps, k) != [] && Sieved(n, ps, k)[0] == ps[k]
  }

  /** Each number of `ps` is the first one left by those before it. */
  predicate Heads(n: nat, ps: seq<nat>) {
    Positive(ps) && forall k | 0 <= k < |ps| :: HeadAt(n, ps, k)
  }

  lemma LeastLeft(n: nat, ps: seq<nat>, k: nat, x: nat)
    requires Heads(n, ps) && k < |ps| && x in Sieved(n, ps, k)
    ensures ps[k] in Sieved(n, ps, k) && ps[k] <= x
  {
    hide Sieved;
    assert HeadAt(n, ps, k);
    SievedAre(n, ps, k);
  }

  lemma HeadIsPrime(n: nat, ps: seq<nat>, k: nat)
    requires Heads(n, ps) && k < |ps|
    ensures IsPrime(ps[k]) && ps[k] <= n
  {
    hide Sieved;
    SievedAre(n, ps, k);
    var h := ps[k];
    assert HeadAt(n, ps, k);
    LeastLeft(n, ps, k, Sieved(n, ps, k)[0]);
    forall d: nat | 2 <= d < h ensures h % d != 0 {
      if h % d == 0 {
        if d in Sieved(n, ps, k) {
          LeastLeft(n, ps, k, d);
        }
        var j :| 0 <= j < k && d % ps[j] == 0;
        DividesThrough(h, d, ps[j]);
      }
    }
  }

  lemma HeadsIncrease(n: nat, ps: seq<nat>, k: nat)
    requires Heads(n, ps) && k + 1 < |ps|
    ensures ps[k] < ps[k + 1]
  {
    hide Sieved;
    SievedAre(n, ps, k);
    SievedAre(n, ps, k + 1);
    assert HeadAt(n, ps, k + 1);
    LeastLeft(n, ps, k + 1, Sieved(n, ps, k + 1)[0]);
    LeastLeft(n, ps, k, ps[k + 1]);
    assert ps[k] % ps[k] == 0;
  }

  lemma {:induction false} HeadsSorted(n: nat, ps: seq<nat>, i: nat, j: nat)
    requires Heads(n, ps) && i < j < |ps|
    ensures ps[i] < ps[j]
    decreases j
  {
    hide Heads;
    HeadsIncrease(n, ps, j - 1);
    if i < j - 1 {
      HeadsSorted(n, ps, i, j - 1);
    }
  }

  /** A prime up to `n` is among the heads once nothing is left. */
  lemma HeadsCover(n: nat, ps: seq<nat>, q: nat)
    requires Heads(n, ps) && Sieved(n, ps, |ps|) == [] && IsPrime(q) && q <= n
    ensures q in ps
  {
    hide Sieved;
    SievedAre(n, ps, |ps|);
    assert q !in Sieved(n, ps, |ps|);
    var j :| 0 <= j < |ps| && q % ps[j] == 0;
    HeadIsPrime(n, ps, j);
    assert ps[j] <= q;
  }

  // ---- what the stages have read ----

  lemma {:induction false} FilterPrefix(a: seq<nat>, b: seq<nat>, p: nat)
    requires p > 0 && a <= b
    ensures Filter(a, p) <= Filter(b, p)
    decreases |b|
  {
    if a != b {
      FilterPrefix(a, b[..|b| - 1], p);
    }
  }

  lemma StagesPositive(s: State)
    requires StagesOk(s)
    ensures Positive(Primes(s))
  {
    forall k | 0 <= k < |s.stages| ensures Primes(s)[k] > 0 {
      assert StageOk(s, k);
    }
  }

  /** At every moment a stage has been given a beginning of the numbers from 2 to
      `n` that the primes before it do not divide, and its prime is the first. */
  lemma {:induction false} GotIsPrefix(s: State, n: nat, k: nat)
    requires Inv(s, n) && n >= 2 && k < |s.stages| && Positive(Primes(s))
    ensures s.stages[k].got <= Sieved(n, Primes(s), k)
    ensures Sieved(n, Primes(s), k) != [] && Sieved(n, Primes(s), k)[0] == s.stages[k].prime
  {
    hide Filter, Primes;
    if k > 0 {
      GotIsPrefix(s, n, k - 1);
      var st := s.stages[k - 1];
      assert StageOk(s, k - 1);
      assert Primes(s)[k - 1] == st.prime by {
        PrimeAt(s, k - 1);
      }
      FilterPrefix(st.got[..st.pos], Sieved(n, Primes(s), k - 1), st.prime);
    }
  }

  lemma PrimeAt(s: State, k: nat)
    requires k < |s.stages|
    ensures Primes(s)[k] == s.stages[k].prime
  {
  }

  lemma PrimesAreHeads(s: State, n: nat)
    requires Inv(s, n) && n >= 2
    ensures Heads(n, Primes(s))
  {
    hide Sieved;
    StagesPositive(s);
    forall k | 0 <= k < |s.stages| ensures HeadAt(n, Primes(s), k) {
      GotIsPrefix(s, n, k);
    }
  }

  predicate AllEnded(s: State) {
    forall k: nat | k < |s.stages| :: Ended(s.stages[k])
  }

  lemma {:induction false} GotAll(s: State, n: nat, k: nat)
    requires Inv(s, n) && AllEnded(s) && k < |s.stages| && Positive(Primes(s))
    ensures s.stages[k].got == Sieved(n, Primes(s), k)
  {
    hide Filter;
    if k > 0 {
      GotAll(s, n, k - 1);
      assert StageOk(s, k - 1);
      assert s.stages[k - 1].got[..s.stages[k - 1].pos] == s.stages[k - 1].got;
    }
  }

  lemma NothingLeft(s: State, n: nat)
    requires Inv(s, n) && AllEnded(s) && Positive(Primes(s))
    ensures Sieved(n, Primes(s), |s.stages|) == []
  {
    hide Filter;
    var k := |s.stages| - 1;
    GotAll(s, n, k);
    assert StageOk(s, k);
    assert s.stages[k].got[..s.stages[k].pos] == s.stages[k].got;
  }

  // ---- whole runs ----

  ghost predicate Runs(s: State, schedule: seq<nat>, s': State)
    decreases |schedule|
  {
    if schedule == [] then s' == s
    else CanStep(s, schedule[0]) && Runs(Next(s, schedule[0]), schedule[1..], s')
  }

  lemma InitInv(n: nat)
    ensures Inv(Init(n), n)
  {
    assert StageOk(Init(n), 0);
  }

  lemma {:induction false} RunKeeps(s: State, n: nat, schedule: seq<nat>, s': State)
    requires Inv(s, n) && Runs(s, schedule, s')
    ensures Inv(s', n)
    decreases |schedule|
  {
    hide Inv, CanStep, Next;
    if schedule != [] {
      StepKeeps(s, n, schedule[0]);
      RunKeeps(Next(s, schedule[0]), n, schedule[1..], s');
    }
  }

  /** At every moment, under every schedule: what was printed are the first primes,
      in order, and each stage was given a beginning of the numbers up to `n` that
      the primes before it do not divide. */
  lemma EveryMoment(n: nat, schedule: seq<nat>, s: State)
    requires n >= 2 && Runs(Init(n), schedule, s)
    ensures s.printed <= Primes(s) && Heads(n, Primes(s)) && Increasing(Primes(s))
    ensures forall p | p in s.printed :: IsPrime(p) && p <= n
    ensures forall k: nat | k < |s.stages| :: s.stages[k].got <= Sieved(n, Primes(s), k)
  {
    hide Sieved, IsPrime, Numbers;
    InitInv(n);
    RunKeeps(Init(n), n, schedule, s);
    PrimesAreHeads(s, n);
    var ps := Primes(s);
    forall k: nat | k < |s.stages| ensures s.stages[k].got <= Sieved(n, ps, k) {
      GotIsPrefix(s, n, k);
    }
    forall i, j | 0 <= i < j < |ps| ensures ps[i] < ps[j] {
      HeadsSorted(n, ps, i, j);
    }
    forall p | p in s.printed ensures IsPrime(p) && p <= n {
      var i :| 0 <= i < |s.printed| && s.printed[i] == p;
      HeadIsPrime(n, ps, i);
    }
  }

  lemma {:induction false} ExitedSpreads(s: State, n: nat, k: nat)
    requires Inv(s, n) && s.stages[0].pc.Exited? && k < |s.stages|
    ensures s.stages[k].pc.Exited?
  {
    if k > 0 {
      ExitedSpreads(s, n, k - 1);
      assert StageOk(s, k - 1);
    }
  }

  /** When the first process has exited, so have all others, and the printed values
      are exactly the primes up to `n`, each once and in order. */
  lemma ExactlyThePrimes(n: nat, schedule: seq<nat>, s: State)
    requires n >= 2 && Runs(Init(n), schedule, s) && |s.stages| > 0 && s.stages[0].pc.Exited?
    ensures Increasing(s.printed) && forall p: nat :: p in s.printed <==> IsPrime(p) && p <= n
  {
    hide Sieved, IsPrime, Numbers, StagesOk;
    InitInv(n);
    RunKeeps(Init(n), n, schedule, s);
    EveryMoment(n, schedule, s);
    forall k: nat | k < |s.stages| ensures s.stages[k].pc.Exited? {
      ExitedSpreads(s, n, k);
    }
    NothingLeft(s, n);
    forall p: nat | IsPrime(p) && p <= n ensures p in s.printed {
      HeadsCover(n, Primes(s), p);
    }
  }

  // ---- no schedule gets stuck or runs for ever ----

  /** As long as the first process has not exited, some process can go on. */
  lemma NeverStuck(s: State, n: nat) returns (k: nat)
    requires Inv(s, n) && !s.stages[0].pc.Exited?
    ensures CanStep(s, k)
  {
    if AllEnded(s) {
      k := LastRunning(s, n, 0);
    } else {
      k := FirstBusy(s, n, 0);
    }
  }

  /** The first stage that has not seen its end of input has something to do. */
  lemma {:induction false} FirstBusy(s: State, n: nat, i: nat) returns (k: nat)
    requires Inv(s, n) && !AllEnded(s) && i < |s.stages| && forall j: nat | j < i :: Ended(s.stages[j])
    ensures CanStep(s, k)
    decreases |s.stages| - i
  {
    assert StageOk(s, i);
    if !Ended(s.stages[i]) {
      k := i;
      if i > 0 {
        assert StageOk(s, i - 1);
      }
    } else {
      k := FirstBusy(s, n, i + 1);
    }
  }

  /** When all wait, the last one that has not exited may. */
  lemma {:induction false} LastRunning(s: State, n: nat, i: nat) returns (k: nat)
    requires Inv(s, n) && AllEnded(s) && i < |s.stages| && !s.stages[i].pc.Exited?
    ensures CanStep(s, k)
    decreases |s.stages| - i
  {
    assert StageOk(s, i);
    if i + 1 < |s.stages| && !s.stages[i + 1].pc.Exited? {
      k := LastRunning(s, n, i + 1);
    } else {
      k := i;
    }
  }

  /** How many steps a stage can still take, when at most `n` numbers come to it. */
  function Left(st: Stage, n: nat): int {
    2 * (n - st.pos) +
    match st.pc
    case Starting => 3
    case Reading => 2
    case Writing(_) => 3
    case Waiting => 1
    case Exited => 0
  }

  /** All stages from `k` on, up to the `n`-th, also those that do not exist yet. */
  function Work(s: State, n: nat, k: nat): int
    decreases n - k
  {
    if k >= n then 0
    else (if k < |s.stages| then Left(s.stages[k], n) else 2 * n + 3) + Work(s, n, k + 1)
  }

  lemma {:induction false} FilterShorter(s: seq<nat>, p: nat)
    requires p > 0
    ensures |Filter(s, p)| <= |s|
  {
    if s != [] {
      FilterShorter(s[..|s| - 1], p);
    }
  }

  lemma {:induction false} NumbersLength(lo: nat, hi: nat)
    requires lo <= hi + 1
    ensures |Numbers(lo, hi)| == hi + 1 - lo
    decreases hi + 1 - lo
  {
    if lo <= hi {
      NumbersLength(lo + 1, hi);
    }
  }

  lemma {:induction false} SievedLength(n: nat, ps: seq<nat>, k: nat)
    requires n >= 2 && k <= |ps| && Positive(ps)
    ensures |Sieved(n, ps, k)| < n
  {
    hide Filter, Numbers;
    if k == 0 {
      NumbersLength(2, n);
    } else {
      SievedLength(n, ps, k - 1);
      FilterShorter(Sieved(n, ps, k - 1), ps[k - 1]);
    }
  }

  lemma {:induction false} HeadsAreLarge(n: nat, ps: seq<nat>, k: nat)
    requires Heads(n, ps) && k < |ps|
    ensures ps[k] >= k + 2
  {
    hide Heads;
    HeadIsPrime(n, ps, k);
    if k > 0 {
      HeadsAreLarge(n, ps, k - 1);
      HeadsIncrease(n, ps, k - 1);
    }
  }

  /** There are fewer stages than numbers, and none is given more than those. */
  lemma Bounded(s: State, n: nat)
    requires Inv(s, n) && n >= 2
    ensures |s.stages| < n && forall k: nat | k < |s.stages| :: s.stages[k].pos < n
  {
    hide Sieved, Filter;
    PrimesAreHeads(s, n);
    var ps := Primes(s);
    HeadsAreLarge(n, ps, |ps| - 1);
    HeadIsPrime(n, ps, |ps| - 1);
    forall k: nat | k < |s.stages| ensures s.stages[k].pos < n {
      GotIsPrefix(s, n, k);
      SievedLength(n, ps, k);
      assert StageOk(s, k);
    }
  }

  lemma {:induction false} WorkShrinks(s: State, n: nat, k: nat, j: nat)
    requires CanStep(s, k) && |Next(s, k).stages| <= n && j <= n
    ensures Work(Next(s, k), n, j) <= Work(s, n, j) - if j <= k then 1 else 0
    decreases n - j
  {
    if j < n {
      WorkShrinks(s, n, k, j + 1);
    }
  }

  lemma {:induction false} WorkIsNatural(s: State, n: nat, k: nat)
    requires forall j: nat | j < |s.stages| :: s.stages[j].pos <= n
    ensures Work(s, n, k) >= 0
    decreases n - k
  {
    if k < n {
      WorkIsNatural(s, n, k + 1);
    }
  }

  lemma {:induction false} WorkOfInit(n: nat, k: nat)
    requires k <= n
    ensures Work(Init(n), n, k) == (n - k) * (2 * n + 3)
    decreases n - k
  {
    if k < n {
      WorkOfInit(n, k + 1);
      assert (n - k) * (2 * n + 3) == (n - k - 1) * (2 * n + 3) + (2 * n + 3);
    }
  }

  lemma {:induction false} RunCosts(s: State, n: nat, schedule: seq<nat>, s': State)
    requires n >= 2 && Inv(s, n) && Runs(s, schedule, s')
    ensures |schedule| <= Work(s, n, 0)
    decreases |schedule|
  {
    hide Inv, CanStep, Next, Work;
    Bounded(s, n);
    WorkIsNatural(s, n, 0);
    if schedule != [] {
      var k := schedule[0];
      StepKeeps(s, n, k);
      Bounded(Next(s, k), n);
      StepIsOfStage(s, k);
      WorkShrinks(s, n, k, 0);
      RunCosts(Next(s, k), n, schedule[1..], s');
    }
  }

  lemma StepIsOfStage(s: State, k: nat)
    requires CanStep(s, k)
    ensures k < |s.stages|
  {
  }

  /** Every schedule comes to an end. */
  lemma EveryRunEnds(n: nat, schedule: seq<nat>, s: State)
    requires n >= 2 && Runs(Init(n), schedule, s)
    ensures |schedule| <= n * (2 * n + 3)
  {
    InitInv(n);
    RunCosts(Init(n), n, schedule, s);
    WorkOfInit(n, 0);
  }

  /** A run that cannot go on has printed exactly the primes. */
  lemma MaximalRun(n: nat, schedule: seq<nat>, s: State)
    requires n >= 2 && Runs(Init(n), schedule, s) && forall k: nat :: !CanStep(s, k)
    ensures Increasing(s.printed) && forall p: nat :: p in s.printed <==> IsPrime(p) && p <= n
  {
    hide IsPrime, CanStep, Runs;
    InitInv(n);
    RunKeeps(Init(n), n, schedule, s);
    if !s.stages[0].pc.Exited? {
      var k := NeverStuck(s, n);
    }
    ExactlyThePrimes(n, schedule, s);
  }

  // ---- the loop of one process ----

  /** The read loop of a process whose input is complete: what it writes to its
      successor, if it forks one, and the prime that one starts with. */
  method ReadLoop(prime: nat, input: seq<nat>) returns (forked: bool, next: nat, written: seq<nat>)
    requires prime > 0
    ensures written == Filter(input, prime)
    ensures forked <==> written != []
    ensures forked ==> next == written[0]
  {
    forked, next, written := false, 0, [];
    var i := 0;
    while i < |input|
      invariant 0 <= i <= |input| && written == Filter(input[..i], prime)
      invariant forked <==> written != []
      invariant forked ==> next == written[0]
    {
      var data := input[i];
      assert input[..i + 1][..i] == input[..i];
      if data % prime != 0 {
        if !forked {
          forked, next := true, data;
        }
        written := written + [data];
      }
      i := i + 1;
    }
    assert input[..i] == input;
  }
}
