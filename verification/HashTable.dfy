/** A hash table with one lock for each bucket, filled by several threads. */
module HashTable {
  import opened Blocks

  const NBUCKET := 5

  datatype Node = Node(key: nat, value: nat, next: Option<nat>)

  /** Where a thread stands in its current `put`. */
  datatype Stage = Ready | Locked | Walking(e: Option<nat>) | Linking(made: nat) | Unlocking

  /** `next` is the index of the key being put; the thread stops before `end`. */
  datatype Thread = Thread(next: nat, end: nat, stage: Stage)

  /** `log` records the puts in the order in which they took effect. */
  datatype State = State(heap: seq<Node>, table: seq<Option<nat>>, locks: seq<Option<nat>>,
                         threads: seq<Thread>, log: seq<(nat, nat)>)

  function Bucket(key: nat): (b: nat)
    ensures b < NBUCKET
  {
    key % NBUCKET
  }

  // ---- chains ----

  /** The first entry with the key in the chain that starts at `p`. */
  function Find(heap: seq<Node>, p: Option<nat>, key: nat): (r: Option<nat>)
    ensures r.Some? ==> r.value < |heap| && heap[r.value].key == key
    decreases if p.Some? then p.value + 1 else 0
  {
    if p.None? || p.value >= |heap| then None
    else if heap[p.value].key == key then p
    else if heap[p.value].next.Some? && heap[p.value].next.value < p.value then Find(heap, heap[p.value].next, key)
    else None
  }

  /** A chain that ends, whose keys are distinct and belong to bucket `b`. */
  predicate Chain(heap: seq<Node>, p: Option<nat>, b: nat)
    decreases if p.Some? then p.value + 1 else 0
  {
    p.Some? ==>
      && p.value < |heap| && Bucket(heap[p.value].key) == b
      && (heap[p.value].next.Some? ==> heap[p.value].next.value < p.value && Chain(heap, heap[p.value].next, b))
      && Find(heap, heap[p.value].next, heap[p.value].key) == None
  }

  /** The two heaps have the same links and keys, up to entries added at the end. */
  predicate SameLinks(heap: seq<Node>, heap': seq<Node>) {
    |heap| <= |heap'| && forall e | 0 <= e < |heap| :: heap'[e].key == heap[e].key && heap'[e].next == heap[e].next
  }

  lemma {:induction false} SameFind(heap: seq<Node>, heap': seq<Node>, p: Option<nat>, b: nat, key: nat)
    requires SameLinks(heap, heap') && Chain(heap, p, b)
    ensures Find(heap', p, key) == Find(heap, p, key)
    decreases if p.Some? then p.value + 1 else 0
  {
    if p.Some? && heap[p.value].next.Some? {
      SameFind(heap, heap', heap[p.value].next, b, key);
    }
  }

  lemma {:induction false} SameChain(heap: seq<Node>, heap': seq<Node>, p: Option<nat>, b: nat)
    requires SameLinks(heap, heap') && Chain(heap, p, b)
    ensures Chain(heap', p, b)
    decreases if p.Some? then p.value + 1 else 0
  {
    if p.Some? {
      if heap[p.value].next.Some? {
        SameChain(heap, heap', heap[p.value].next, b);
        SameFind(heap, heap', heap[p.value].next, b, heap[p.value].key);
      }
    }
  }

  /** What `get` finds. */
  function Lookup(heap: seq<Node>, table: seq<Option<nat>>, key: nat): Option<nat>
    requires |table| == NBUCKET
  {
    match Find(heap, table[Bucket(key)], key)
    case None => None
    case Some(e) => Some(heap[e].value)
  }

  predicate Chains(heap: seq<Node>, table: seq<Option<nat>>) {
    |table| == NBUCKET && forall b | 0 <= b < NBUCKET :: Chain(heap, table[b], b)
  }

  /** Changing the value of the entry of a key updates that key only. */
  lemma UpdateIsPut(heap: seq<Node>, table: seq<Option<nat>>, key: nat, e: nat, value: nat)
    requires Chains(heap, table) && Find(heap, table[Bucket(key)], key) == Some(e)
    ensures var heap' := heap[e := heap[e].(value := value)];
            && Chains(heap', table) && SameLinks(heap, heap')
            && forall k: nat :: Lookup(heap', table, k) == if k == key then Some(value) else Lookup(heap, table, k)
  {
    var heap' := heap[e := heap[e].(value := value)];
    forall b | 0 <= b < NBUCKET ensures Chain(heap', table[b], b) {
      SameChain(heap, heap', table[b], b);
    }
    forall k: nat ensures Lookup(heap', table, k) == if k == key then Some(value) else Lookup(heap, table, k) {
      SameFind(heap, heap', table[Bucket(k)], Bucket(k), k);
    }
  }

  lemma AllocKeeps(heap: seq<Node>, table: seq<Option<nat>>, n: Node)
    requires Chains(heap, table)
    ensures Chains(heap + [n], table) && forall k: nat :: Lookup(heap + [n], table, k) == Lookup(heap, table, k)
    ensures forall k: nat :: Find(heap + [n], table[Bucket(k)], k) == Find(heap, table[Bucket(k)], k)
  {
    forall b | 0 <= b < NBUCKET ensures Chain(heap + [n], table[b], b) {
      SameChain(heap, heap + [n], table[b], b);
    }
    forall k: nat ensures Find(heap + [n], table[Bucket(k)], k) == Find(heap, table[Bucket(k)], k) {
      SameFind(heap, heap + [n], table[Bucket(k)], Bucket(k), k);
    }
  }

  /** Linking a new entry in front of its bucket adds its key only. */
  lemma LinkIsPut(heap: seq<Node>, table: seq<Option<nat>>, e: nat)
    requires Chains(heap, table) && e < |heap|
    requires var b := Bucket(heap[e].key);
             heap[e].next == table[b] && (table[b].Some? ==> table[b].value < e) && Find(heap, table[b], heap[e].key) == None
    ensures var table' := table[Bucket(heap[e].key) := Some(e)];
            && Chains(heap, table')
            && forall k: nat :: Lookup(heap, table', k) == if k == heap[e].key then Some(heap[e].value) else Lookup(heap, table, k)
  {
    var b := Bucket(heap[e].key);
    assert Chain(heap, table[b], b);
  }

  // ---- threads ----

  predicate CanStep(keys: seq<nat>, s: State, t: nat) {
    && t < |s.threads| && |s.locks| == |s.table| == NBUCKET
    && var th := s.threads[t];
       && th.next < th.end <= |keys|
       && (th.stage.Ready? ==> s.locks[Bucket(keys[th.next])].None?)
       && (th.stage.Walking? && th.stage.e.Some? ==> th.stage.e.value < |s.heap|)
  }

  function Goto(s: State, t: nat, stage: Stage): State
    requires t < |s.threads|
  {
    s.(threads := s.threads[t := s.threads[t].(stage := stage)])
  }

  /** One step of thread `t` inside `put_thread`: take the lock, read the head, look
      at one entry, update it, or allocate an entry, link it; release the lock. */
  function Next(keys: seq<nat>, s: State, t: nat): State
    requires CanStep(keys, s, t)
  {
    var th := s.threads[t];
    var key := keys[th.next];
    var b := Bucket(key);
    match th.stage
    case Ready => Goto(s.(locks := s.locks[b := Some(t)]), t, Locked)
    case Locked => Goto(s, t, Walking(s.table[b]))
    case Walking(None) => Goto(s.(heap := s.heap + [Node(key, t, s.table[b])]), t, Linking(|s.heap|))
    case Walking(Some(e)) =>
      if s.heap[e].key == key then
        Goto(s.(heap := s.heap[e := s.heap[e].(value := t)], log := s.log + [(key, t)]), t, Unlocking)
      else Goto(s, t, Walking(s.heap[e].next))
    case Linking(made) => Goto(s.(table := s.table[b := Some(made)], log := s.log + [(key, t)]), t, Unlocking)
    case Unlocking => s.(locks := s.locks[b := None], threads := s.threads[t := Thread(th.next + 1, th.end, Ready)])
  }

  // ---- the invariant ----

  /** The last value put for a key, in the order of the log. */
  function LastPut(log: seq<(nat, nat)>, key: nat): Option<nat> {
    if log == [] then None
    else if log[|log| - 1].0 == key then Some(log[|log| - 1].1)
    else LastPut(log[..|log| - 1], key)
  }

  /** The keys thread `t` has put, in order. */
  function PutsOf(log: seq<(nat, nat)>, t: nat): seq<nat> {
    if log == [] then []
    else if log[|log| - 1].1 == t then PutsOf(log[..|log| - 1], t) + [log[|log| - 1].0]
    else PutsOf(log[..|log| - 1], t)
  }

  function Done(th: Thread): nat {
    if th.stage.Unlocking? then th.next + 1 else th.next
  }

  predicate ThreadOk(keys: seq<nat>, s: State, t: nat, start: nat)
    requires t < |s.threads| && |s.table| == |s.locks| == NBUCKET
  {
    var th := s.threads[t];
    && start <= th.next <= th.end <= |keys|
    && (!th.stage.Ready? ==>
          && th.next < th.end
          && var b := Bucket(keys[th.next]);
             && s.locks[b] == Some(t)
             && (th.stage.Walking? ==>
                   && (th.stage.e.Some? ==> th.stage.e.value < |s.heap|)
                   && Chain(s.heap, th.stage.e, b)
                   && Find(s.heap, th.stage.e, keys[th.next]) == Find(s.heap, s.table[b], keys[th.next]))
             && (th.stage.Linking? ==>
                   && th.stage.made < |s.heap| && s.heap[th.stage.made] == Node(keys[th.next], t, s.table[b])
                   && (s.table[b].Some? ==> s.table[b].value < th.stage.made)
                   && Find(s.heap, s.table[b], keys[th.next]) == None))
    && PutsOf(s.log, t) == keys[start..Done(th)]
  }

  ghost predicate Inv(keys: seq<nat>, starts: seq<nat>, s: State) {
    && Chains(s.heap, s.table) && |s.locks| == NBUCKET && |starts| == |s.threads|
    && (forall t: nat | t < |s.threads| :: ThreadOk(keys, s, t, starts[t]))
    && (forall b | 0 <= b < NBUCKET && s.locks[b].Some? ::
          s.locks[b].value < |s.threads| && !s.threads[s.locks[b].value].stage.Ready? &&
          s.threads[s.locks[b].value].next < |keys| && Bucket(keys[s.threads[s.locks[b].value].next]) == b)
    && (forall k: nat :: Lookup(s.heap, s.table, k) == LastPut(s.log, k))
  }

  /** A step of another thread leaves a thread's part of the invariant alone. */
  lemma OtherThread(keys: seq<nat>, s: State, s': State, t: nat, u: nat, start: nat)
    requires u < |s.threads| == |s'.threads| && u != t && s'.threads[u] == s.threads[u]
    requires |s.table| == |s.locks| == |s'.table| == |s'.locks| == NBUCKET
    requires ThreadOk(keys, s, u, start) && SameLinks(s.heap, s'.heap) && Chains(s.heap, s.table)
    requires forall b | 0 <= b < NBUCKET && s.locks[b] == Some(u) :: s'.locks[b] == Some(u) && s'.table[b] == s.table[b]
    requires forall e | 0 <= e < |s.heap| && s.locks[Bucket(s.heap[e].key)] == Some(u) :: s'.heap[e] == s.heap[e]
    requires PutsOf(s'.log, u) == PutsOf(s.log, u)
    ensures ThreadOk(keys, s', u, start)
  {
    var th := s.threads[u];
    if !th.stage.Ready? {
      var key := keys[th.next];
      SameFind(s.heap, s'.heap, s.table[Bucket(key)], Bucket(key), key);
      if th.stage.Walking? {
        SameChain(s.heap, s'.heap, th.stage.e, Bucket(key));
        SameFind(s.heap, s'.heap, th.stage.e, Bucket(key), key);
      }
    }
  }

  lemma PutLogged(log: seq<(nat, nat)>, key: nat, t: nat)
    ensures var log' := log + [(key, t)];
            && (forall k: nat :: LastPut(log', k) == if k == key then Some(t) else LastPut(log, k))
            && (forall u: nat :: PutsOf(log', u) == if u == t then PutsOf(log, u) + [key] else PutsOf(log, u))
  {
    assert (log + [(key, t)])[..|log|] == log;
  }

  /** The chains and the map after a step: a put takes effect in one step, the one
      that logs it, and no other step changes what any `get` would find. */
  lemma StepOnMap(keys: seq<nat>, starts: seq<nat>, s: State, t: nat)
    requires Inv(keys, starts, s) && CanStep(keys, s, t)
    ensures var s' := Next(keys, s, t);
            && Chains(s'.heap, s'.table) && SameLinks(s.heap, s'.heap)
            && (s'.log == s.log || s'.log == s.log + [(keys[s.threads[t].next], t)])
            && (forall k: nat :: Lookup(s'.heap, s'.table, k) ==
                  if s'.log != s.log && k == keys[s.threads[t].next] then Some(t) else Lookup(s.heap, s.table, k))
  {
    assert ThreadOk(keys, s, t, starts[t]);
    var th := s.threads[t];
    var key := keys[th.next];
    match th.stage {
      case Walking(None) => AllocKeeps(s.heap, s.table, Node(key, t, s.table[Bucket(key)]));
      case Walking(Some(e)) =>
        if s.heap[e].key == key {
          UpdateIsPut(s.heap, s.table, key, e, t);
        }
      case Linking(e) => LinkIsPut(s.heap, s.table, e);
      case _ =>
    }
  }

  /** A walk that has not met the key yet may go on to the next entry. */
  lemma WalkOn(heap: seq<Node>, p: Option<nat>, b: nat, key: nat)
    requires Chain(heap, p, b)
    ensures if p.None? then Find(heap, p, key) == None else p.value < |heap|
    ensures p.Some? && heap[p.value].key != key ==>
              Chain(heap, heap[p.value].next, b) && Find(heap, heap[p.value].next, key) == Find(heap, p, key)
    ensures p.Some? && heap[p.value].next.Some? ==> heap[p.value].next.value < |heap|
  {
  }

  lemma StepOnSelf(keys: seq<nat>, starts: seq<nat>, s: State, t: nat)
    requires Inv(keys, starts, s) && CanStep(keys, s, t)
    ensures ThreadOk(keys, Next(keys, s, t), t, starts[t])
  {
    hide Find, Chain, Lookup, LastPut, PutsOf;
    var th := s.threads[t];
    var key := keys[th.next];
    var b := Bucket(key);
    assert ThreadOk(keys, s, t, starts[t]);
    WalkOn(s.heap, s.table[b], b, key);
    match th.stage {
      case Walking(p) =>
        WalkOn(s.heap, p, b, key);
        AllocKeeps(s.heap, s.table, Node(key, t, s.table[b]));
      case _ =>
    }
    if Next(keys, s, t).log != s.log {
      PutLogged(s.log, key, t);
      assert keys[starts[t]..th.next] + [key] == keys[starts[t]..th.next + 1];
    }
  }

  /** A step changes the table, the locks and the entries only of the bucket whose
      lock the thread holds or takes, and only its own part of the log. */
  lemma StepIsLocal(keys: seq<nat>, s: State, t: nat, u: nat, start: nat)
    requires CanStep(keys, s, t) && ThreadOk(keys, s, t, start) && u < |s.threads| && u != t
    ensures var s' := Next(keys, s, t);
            && |s'.threads| == |s.threads| && s'.threads[u] == s.threads[u] && |s'.table| == |s'.locks| == NBUCKET
            && (forall b | 0 <= b < NBUCKET && s.locks[b] == Some(u) :: s'.locks[b] == Some(u) && s'.table[b] == s.table[b])
            && |s.heap| <= |s'.heap|
            && (forall e | 0 <= e < |s.heap| && s.locks[Bucket(s.heap[e].key)] == Some(u) :: s'.heap[e] == s.heap[e])
  {
    hide Find, Chain, PutsOf, Bucket;
  }

  lemma StepOnOther(keys: seq<nat>, starts: seq<nat>, s: State, t: nat, u: nat)
    requires Inv(keys, starts, s) && CanStep(keys, s, t) && u < |s.threads| && u != t
    ensures ThreadOk(keys, Next(keys, s, t), u, starts[u])
  {
    hide Next, ThreadOk, Find, Lookup, LastPut, Bucket;
    StepOnMap(keys, starts, s, t);
    var s' := Next(keys, s, t);
    var key := keys[s.threads[t].next];
    assert ThreadOk(keys, s, t, starts[t]) && ThreadOk(keys, s, u, starts[u]);
    StepIsLocal(keys, s, t, u, starts[t]);
    PutLogged(s.log, key, t);
    OtherThread(keys, s, s', t, u, starts[u]);
  }

  lemma StepKeeps(keys: seq<nat>, starts: seq<nat>, s: State, t: nat)
    requires Inv(keys, starts, s) && CanStep(keys, s, t)
    ensures Inv(keys, starts, Next(keys, s, t))
  {
    var s' := Next(keys, s, t);
    StepOnMap(keys, starts, s, t);
    PutLogged(s.log, keys[s.threads[t].next], t);
    forall u: nat | u < |s'.threads| ensures ThreadOk(keys, s', u, starts[u]) {
      if u == t {
        StepOnSelf(keys, starts, s, t);
      } else {
        StepOnOther(keys, starts, s, t, u);
      }
    }
    LocksKeep(keys, starts, s, t);
  }

  lemma LocksKeep(keys: seq<nat>, starts: seq<nat>, s: State, t: nat)
    requires Inv(keys, starts, s) && CanStep(keys, s, t)
    ensures var s' := Next(keys, s, t);
            forall b | 0 <= b < NBUCKET && s'.locks[b].Some? ::
              s'.locks[b].value < |s'.threads| && !s'.threads[s'.locks[b].value].stage.Ready? &&
              s'.threads[s'.locks[b].value].next < |keys| && Bucket(keys[s'.threads[s'.locks[b].value].next]) == b
  {
    assert ThreadOk(keys, s, t, starts[t]);
  }

  // ---- whole runs ----

  /** Thread `n` of `nthread` puts the keys from `b * n` on, `b` of them. */
  function Share(nkeys: nat, nthread: nat, n: nat): nat
    requires nthread > 0
  {
    nkeys / nthread * n
  }

  lemma Times(b: nat, x: nat, y: nat)
    requires x <= y
    ensures b * x <= b * y
  {
  }

  lemma Quotient(x: nat, y: nat)
    requires y > 0
    ensures x / y * y <= x
  {
  }

  lemma ShareBounds(nkeys: nat, nthread: nat, n: nat)
    requires nthread > 0 && n < nthread
    ensures Share(nkeys, nthread, n) <= Share(nkeys, nthread, n + 1) <= nkeys
  {
    var b := nkeys / nthread;
    Times(b, n + 1, nthread);
    assert b * (n + 1) == b * n + b;
    Quotient(nkeys, nthread);
  }

  function Starts(nkeys: nat, nthread: nat): (r: seq<nat>)
    requires nthread > 0
    ensures |r| == nthread
  {
    seq(nthread, n requires 0 <= n < nthread => Share(nkeys, nthread, n))
  }

  function Init(nkeys: nat, nthread: nat): State
    requires nthread > 0
  {
    State([], seq(NBUCKET, _ => None), seq(NBUCKET, _ => None),
          seq(nthread, n requires 0 <= n < nthread => Thread(Share(nkeys, nthread, n), Share(nkeys, nthread, n + 1), Ready)), [])
  }

  lemma InitInv(keys: seq<nat>, nthread: nat)
    requires nthread > 0
    ensures Inv(keys, Starts(|keys|, nthread), Init(|keys|, nthread))
  {
    var s := Init(|keys|, nthread);
    forall t: nat | t < nthread ensures ThreadOk(keys, s, t, Starts(|keys|, nthread)[t]) {
      ShareBounds(|keys|, nthread, t);
    }
  }

  /** A run: the threads take steps in the order of the schedule. */
  ghost predicate Runs(keys: seq<nat>, s: State, schedule: seq<nat>, s': State)
    decreases |schedule|
  {
    if schedule == [] then s' == s
    else CanStep(keys, s, schedule[0]) && Runs(keys, Next(keys, s, schedule[0]), schedule[1..], s')
  }

  /** An entry found in the chain of a bucket has a key of that bucket. */
  lemma {:induction false} FoundInBucket(heap: seq<Node>, p: Option<nat>, b: nat, key: nat)
    requires Chain(heap, p, b) && Find(heap, p, key).Some?
    ensures key % 5 == b
    decreases if p.Some? then p.value + 1 else 0
  {
    if heap[p.value].key != key {
      FoundInBucket(heap, heap[p.value].next, b, key);
    }
  }

  lemma NextEnds(keys: seq<nat>, s: State, t: nat)
    requires CanStep(keys, s, t)
    ensures var s' := Next(keys, s, t);
            |s'.threads| == |s.threads| && forall u | 0 <= u < |s.threads| :: s'.threads[u].end == s.threads[u].end
  {
  }

  lemma {:induction false} RunKeeps(keys: seq<nat>, starts: seq<nat>, s: State, schedule: seq<nat>, s': State)
    requires Inv(keys, starts, s) && Runs(keys, s, schedule, s')
    ensures Inv(keys, starts, s')
    ensures |s'.threads| == |s.threads| && forall u | 0 <= u < |s.threads| :: s'.threads[u].end == s.threads[u].end
    decreases |schedule|
  {
    hide Inv, CanStep, Next;
    if schedule != [] {
      StepKeeps(keys, starts, s, schedule[0]);
      NextEnds(keys, s, schedule[0]);
      RunKeeps(keys, starts, Next(keys, s, schedule[0]), schedule[1..], s');
    }
  }

  /** At any moment of any run the chains are well formed, the table holds what the
      logged puts, one after another, would leave in a map, and each thread has put
      the first keys of its share, in order. */
  lemma EveryRunIsALinearRun(keys: seq<nat>, nthread: nat, schedule: seq<nat>, s: State)
    requires nthread > 0 && Runs(keys, Init(|keys|, nthread), schedule, s)
    ensures |s.threads| == nthread && Chains(s.heap, s.table)
    ensures forall k: nat :: Lookup(s.heap, s.table, k) == LastPut(s.log, k)
    ensures forall t: nat | t < nthread ::
              var start := Share(|keys|, nthread, t);
              start <= Done(s.threads[t]) <= |keys| && PutsOf(s.log, t) == keys[start..Done(s.threads[t])]
  {
    InitInv(keys, nthread);
    RunKeeps(keys, Starts(|keys|, nthread), Init(|keys|, nthread), schedule, s);
    forall t: nat | t < nthread ensures
        var start := Share(|keys|, nthread, t);
        start <= Done(s.threads[t]) <= |keys| && PutsOf(s.log, t) == keys[start..Done(s.threads[t])]
    {
      assert ThreadOk(keys, s, t, Starts(|keys|, nthread)[t]);
    }
  }

  predicate AllDone(s: State) {
    forall t: nat | t < |s.threads| :: s.threads[t].next >= s.threads[t].end
  }

  /** Which thread's share an index belongs to. */
  lemma ShareOf(nkeys: nat, nthread: nat, i: nat) returns (n: nat)
    requires nthread > 0 && nkeys % nthread == 0 && i < nkeys
    ensures n < nthread && Share(nkeys, nthread, n) <= i < Share(nkeys, nthread, n + 1)
  {
    var b := nkeys / nthread;
    assert b * nthread == nkeys;
    n := i / b;
    assert b * n <= i < b * n + b == b * (n + 1);
    assert n >= nthread ==> b * n >= b * nthread;
  }

  lemma {:induction false} PutIsLast(log: seq<(nat, nat)>, t: nat, key: nat)
    requires key in PutsOf(log, t)
    ensures LastPut(log, key).Some?
    decreases |log|
  {
    if log[|log| - 1].0 != key {
      PutIsLast(log[..|log| - 1], t, key);
    }
  }

  /** When all threads have finished, no key is missing. */
  lemma NoneMissing(keys: seq<nat>, nthread: nat, schedule: seq<nat>, s: State, i: nat)
    requires nthread > 0 && |keys| % nthread == 0 && Runs(keys, Init(|keys|, nthread), schedule, s) && AllDone(s)
    requires i < |keys|
    ensures |s.table| == NBUCKET && Lookup(s.heap, s.table, keys[i]).Some?
  {
    hide Lookup, Chains, Share, PutsOf, LastPut, Inv, Runs;
    EveryRunIsALinearRun(keys, nthread, schedule, s);
    InitInv(keys, nthread);
    RunKeeps(keys, Starts(|keys|, nthread), Init(|keys|, nthread), schedule, s);
    var n := ShareOf(|keys|, nthread, i);
    InShare(keys, Share(|keys|, nthread, n), Done(s.threads[n]), i);
    PutIsLast(s.log, n, keys[i]);
  }

  lemma InShare(keys: seq<nat>, start: nat, end: nat, i: nat)
    requires start <= i < end <= |keys|
    ensures keys[i] in keys[start..end]
  {
    assert keys[start..end][i - start] == keys[i];
  }

  /** As long as some thread has keys left, some thread can take a step. */
  lemma NoDeadlock(keys: seq<nat>, starts: seq<nat>, s: State) returns (t: nat)
    requires Inv(keys, starts, s) && !AllDone(s)
    ensures CanStep(keys, s, t)
  {
    t :| t < |s.threads| && s.threads[t].next < s.threads[t].end;
    assert ThreadOk(keys, s, t, starts[t]);
    if s.threads[t].stage.Ready? {
      var l := s.locks[Bucket(keys[s.threads[t].next])];
      if l.Some? {
        t := l.value;
        assert ThreadOk(keys, s, t, starts[t]);
      }
    }
  }

  // ---- every schedule ends ----

  function Sum(xs: seq<int>): int {
    if xs == [] then 0 else Sum(xs[..|xs| - 1]) + xs[|xs| - 1]
  }

  lemma {:induction false} SumSet(xs: seq<int>, t: nat, x: int)
    requires t < |xs|
    ensures Sum(xs[t := x]) == Sum(xs) - xs[t] + x
    decreases |xs|
  {
    var last := |xs| - 1;
    if t < last {
      SumSet(xs[..last], t, x);
      assert xs[t := x][..last] == xs[..last][t := x];
    } else {
      assert xs[t := x][..last] == xs[..last];
    }
  }

  lemma {:induction false} SumOfSame(xs: seq<int>, x: int)
    requires forall i | 0 <= i < |xs| :: xs[i] == x
    ensures Sum(xs) == |xs| * x
    decreases |xs|
  {
    if xs != [] {
      SumOfSame(xs[..|xs| - 1], x);
      assert |xs| * x == (|xs| - 1) * x + x;
    }
  }

  lemma {:induction false} SumNonNegative(xs: seq<int>)
    requires forall i | 0 <= i < |xs| :: xs[i] >= 0
    ensures Sum(xs) >= 0
    decreases |xs|
  {
    if xs != [] {
      SumNonNegative(xs[..|xs| - 1]);
    }
  }

  /** The entries a thread may still allocate. */
  function MayAllocate(th: Thread): int {
    th.end - th.next - if th.stage.Linking? || th.stage.Unlocking? then 1 else 0
  }

  /** The steps a put may still take when no entry has an index of `n` or more. */
  function StageSteps(stage: Stage, n: nat): nat {
    match stage
    case Ready => n + 5
    case Locked => n + 4
    case Walking(Some(e)) => e + 4
    case Walking(None) => 3
    case Linking(_) => 2
    case Unlocking => 1
  }

  function MayStep(th: Thread, n: nat): int {
    if th.next >= th.end then 0 else (th.end - th.next - 1) * (n + 5) + StageSteps(th.stage, n)
  }

  function Allocations(threads: seq<Thread>): (r: seq<int>)
    ensures |r| == |threads|
  {
    seq(|threads|, t requires 0 <= t < |threads| => MayAllocate(threads[t]))
  }

  function Steps(threads: seq<Thread>, n: nat): (r: seq<int>)
    ensures |r| == |threads|
  {
    seq(|threads|, t requires 0 <= t < |threads| => MayStep(threads[t], n))
  }

  /** There are never more entries than keys. */
  ghost predicate Roomy(s: State, n: nat) {
    |s.heap| + Sum(Allocations(s.threads)) <= n
  }

  lemma OneThreadSteps(keys: seq<nat>, s: State, t: nat)
    requires CanStep(keys, s, t)
    ensures var s' := Next(keys, s, t);
            |s'.threads| == |s.threads| && s'.threads == s.threads[t := s'.threads[t]] &&
            |s'.heap| + MayAllocate(s'.threads[t]) <= |s.heap| + MayAllocate(s.threads[t])
  {
  }

  lemma StepKeepsRoomy(keys: seq<nat>, s: State, t: nat)
    requires CanStep(keys, s, t) && Roomy(s, |keys|)
    ensures Roomy(Next(keys, s, t), |keys|)
  {
    hide CanStep, Next, Sum, MayAllocate;
    OneThreadSteps(keys, s, t);
    var s' := Next(keys, s, t);
    assert t < |s.threads| by {
      IsThread(keys, s, t);
    }
    SumSet(Allocations(s.threads), t, MayAllocate(s'.threads[t]));
    assert Allocations(s'.threads) == Allocations(s.threads)[t := MayAllocate(s'.threads[t])];
  }

  lemma IsThread(keys: seq<nat>, s: State, t: nat)
    requires CanStep(keys, s, t)
    ensures t < |s.threads|
  {
  }

  lemma HeapBound(keys: seq<nat>, starts: seq<nat>, s: State)
    requires Inv(keys, starts, s) && Roomy(s, |keys|)
    ensures |s.heap| <= |keys|
  {
    forall t | 0 <= t < |s.threads| ensures Allocations(s.threads)[t] >= 0 {
      assert ThreadOk(keys, s, t, starts[t]);
    }
    SumNonNegative(Allocations(s.threads));
  }

  lemma OneThreadNearer(keys: seq<nat>, starts: seq<nat>, s: State, t: nat)
    requires Inv(keys, starts, s) && CanStep(keys, s, t) && |s.heap| <= |keys|
    ensures var s' := Next(keys, s, t);
            |s'.threads| == |s.threads| && MayStep(s'.threads[t], |keys|) < MayStep(s.threads[t], |keys|)
  {
    hide Find, Lookup, LastPut, PutsOf;
    var s' := Next(keys, s, t);
    var th, th' := s.threads[t], s'.threads[t];
    var n := |keys|;
    assert ThreadOk(keys, s, t, starts[t]);
    var b := Bucket(keys[th.next]);
    assert Chain(s.heap, s.table[b], b);
    if th.stage.Unlocking? {
      assert (th.end - th.next - 1) * (n + 5) == (th.end - th'.next - 1) * (n + 5) + (n + 5);
    }
  }

  lemma StepNearer(keys: seq<nat>, starts: seq<nat>, s: State, t: nat)
    requires Inv(keys, starts, s) && CanStep(keys, s, t) && Roomy(s, |keys|)
    ensures Sum(Steps(Next(keys, s, t).threads, |keys|)) < Sum(Steps(s.threads, |keys|))
  {
    hide Inv, CanStep, Next, Sum, MayStep, MayAllocate, Roomy;
    var s' := Next(keys, s, t);
    HeapBound(keys, starts, s);
    OneThreadNearer(keys, starts, s, t);
    OneThreadSteps(keys, s, t);
    IsThread(keys, s, t);
    SumSet(Steps(s.threads, |keys|), t, MayStep(s'.threads[t], |keys|));
    assert Steps(s'.threads, |keys|) == Steps(s.threads, |keys|)[t := MayStep(s'.threads[t], |keys|)];
  }

  lemma StepsLeft(keys: seq<nat>, starts: seq<nat>, s: State)
    requires Inv(keys, starts, s)
    ensures Sum(Steps(s.threads, |keys|)) >= 0
  {
    hide MayStep, Find, Chain, Lookup, LastPut, PutsOf;
    forall t | 0 <= t < |s.threads| ensures Steps(s.threads, |keys|)[t] >= 0 {
      assert ThreadOk(keys, s, t, starts[t]);
      MayStepIsNatural(s.threads[t], |keys|);
    }
    SumNonNegative(Steps(s.threads, |keys|));
  }

  lemma MayStepIsNatural(th: Thread, n: nat)
    requires th.next <= th.end
    ensures MayStep(th, n) >= 0
  {
    if th.next < th.end {
      Times(n + 5, 0, th.end - th.next - 1);
    }
  }

  lemma ThreadAtStart(n: nat, nthread: nat, t: nat)
    requires nthread > 0 && t < nthread
    ensures var b := n / nthread;
            var th := Thread(Share(n, nthread, t), Share(n, nthread, t + 1), Ready);
            MayAllocate(th) == b && MayStep(th, n) == b * (n + 5)
  {
    var b := n / nthread;
    assert Share(n, nthread, t + 1) == Share(n, nthread, t) + b by {
      assert b * (t + 1) == b * t + b;
    }
    hide Share;
    assert b > 0 ==> (b - 1) * (n + 5) + (n + 5) == b * (n + 5);
  }

  lemma {:induction false} RunCosts(keys: seq<nat>, starts: seq<nat>, s: State, schedule: seq<nat>, s': State)
    requires Inv(keys, starts, s) && Roomy(s, |keys|) && Runs(keys, s, schedule, s')
    ensures |schedule| <= Sum(Steps(s.threads, |keys|))
    decreases |schedule|
  {
    hide Inv, CanStep, Next, Roomy, Sum, Steps;
    StepsLeft(keys, starts, s);
    if schedule != [] {
      StepKeeps(keys, starts, s, schedule[0]);
      StepKeepsRoomy(keys, s, schedule[0]);
      StepNearer(keys, starts, s, schedule[0]);
      RunCosts(keys, starts, Next(keys, s, schedule[0]), schedule[1..], s');
    }
  }

  /** Every schedule comes to an end. */
  lemma EveryRunEnds(keys: seq<nat>, nthread: nat, schedule: seq<nat>, s: State)
    requires nthread > 0 && Runs(keys, Init(|keys|, nthread), schedule, s)
    ensures |schedule| <= |keys| * (|keys| + 5)
  {
    hide Runs, Inv, Share, MayAllocate, MayStep, Sum;
    var n, b := |keys|, |keys| / nthread;
    var s0 := Init(n, nthread);
    InitInv(keys, nthread);
    forall t | 0 <= t < nthread ensures Allocations(s0.threads)[t] == b && Steps(s0.threads, n)[t] == b * (n + 5) {
      ThreadAtStart(n, nthread, t);
    }
    SumOfSame(Allocations(s0.threads), b);
    SumOfSame(Steps(s0.threads, n), b * (n + 5));
    AllShares(n, nthread);
    RunCosts(keys, Starts(n, nthread), s0, schedule, s);
  }

  lemma AllShares(n: nat, nthread: nat)
    requires nthread > 0
    ensures nthread * (n / nthread) <= n && nthread * ((n / nthread) * (n + 5)) <= n * (n + 5)
  {
    var b := n / nthread;
    assert nthread * (b * (n + 5)) == (n + 5) * (b * nthread);
    Quotient(n, nthread);
    Times(n + 5, b * nthread, n);
  }

  /** A run that cannot go on has left every key in the table. */
  lemma MaximalRun(keys: seq<nat>, nthread: nat, schedule: seq<nat>, s: State)
    requires nthread > 0 && |keys| % nthread == 0 && Runs(keys, Init(|keys|, nthread), schedule, s)
    requires forall t: nat :: !CanStep(keys, s, t)
    ensures AllDone(s) && Chains(s.heap, s.table) && Missing(s.heap, s.table, keys) == 0
  {
    hide CanStep, Runs, Inv, Missing;
    InitInv(keys, nthread);
    RunKeeps(keys, Starts(|keys|, nthread), Init(|keys|, nthread), schedule, s);
    if !AllDone(s) {
      var t := NoDeadlock(keys, Starts(|keys|, nthread), s);
    }
    NoKeysMissing(keys, nthread, schedule, s);
  }

  // ---- the functions in place ----

  class Table {
    var heap: seq<Node>
    var table: seq<Option<nat>>

    ghost predicate Valid()
      reads this
    {
      Chains(heap, table)
    }

    /** `insert` with `p` the head of bucket `i` and `n` its entry. */
    method Insert(key: nat, value: nat, i: nat, n: Option<nat>)
      requires Valid() && i == Bucket(key) && n == table[i] && Find(heap, n, key) == None
      modifies this
      ensures Valid()
      ensures forall k: nat :: Lookup(heap, table, k) == if k == key then Some(value) else old(Lookup(heap, table, k))
    {
      var e := |heap|;
      AllocKeeps(heap, table, Node(key, value, n));
      WalkOn(heap, n, i, key);
      heap := heap + [Node(key, value, n)];
      LinkIsPut(heap, table, e);
      table := table[i := Some(e)];
    }

    /** The critical section of `put` is one update of the map. */
    method Put(key: nat, value: nat)
      requires Valid()
      modifies this
      ensures Valid()
      ensures forall k: nat :: Lookup(heap, table, k) == if k == key then Some(value) else old(Lookup(heap, table, k))
    {
      var i := key % NBUCKET;
      var e: Option<nat> := table[i];
      while e.Some?
        invariant Valid() && heap == old(heap) && table == old(table)
        invariant Chain(heap, e, i) && Find(heap, e, key) == Find(heap, table[i], key)
        decreases if e.Some? then e.value + 1 else 0
      {
        if heap[e.value].key == key {
          break;
        }
        e := heap[e.value].next;
      }
      if e.Some? {
        UpdateIsPut(heap, table, key, e.value, value);
        heap := heap[e.value := heap[e.value].(value := value)];
      } else {
        Insert(key, value, i, table[i]);
      }
    }

    method Get(key: nat) returns (e: Option<nat>)
      requires Valid()
      ensures e == Find(heap, table[Bucket(key)], key)
    {
      var i := key % NBUCKET;
      var p: Option<nat> := table[i];
      while p.Some?
        invariant Chain(heap, p, i) && Find(heap, p, key) == Find(heap, table[i], key)
        decreases if p.Some? then p.value + 1 else 0
      {
        if heap[p.value].key == key {
          break;
        }
        p := heap[p.value].next;
      }
      e := p;
    }

    /** `get_thread` counts the keys that no put has left in the table. */
    method GetThread(keys: seq<nat>) returns (missing: nat)
      requires Valid()
      ensures missing == Missing(heap, table, keys)
    {
      missing := 0;
      var i := 0;
      while i < |keys|
        invariant 0 <= i <= |keys| && missing == Missing(heap, table, keys[..i])
      {
        var e := Get(keys[i]);
        assert keys[..i + 1][..i] == keys[..i];
        if e.None? {
          missing := missing + 1;
        }
        i := i + 1;
      }
      assert keys[..i] == keys;
    }
  }

  function Missing(heap: seq<Node>, table: seq<Option<nat>>, keys: seq<nat>): nat
    requires |table| == NBUCKET
  {
    if keys == [] then 0
    else Missing(heap, table, keys[..|keys| - 1]) + if Lookup(heap, table, keys[|keys| - 1]).None? then 1 else 0
  }

  lemma {:induction false} AllFound(heap: seq<Node>, table: seq<Option<nat>>, keys: seq<nat>)
    requires |table| == NBUCKET && forall i | 0 <= i < |keys| :: Lookup(heap, table, keys[i]).Some?
    ensures Missing(heap, table, keys) == 0
    decreases |keys|
  {
    hide Lookup;
    if keys != [] {
      AllFound(heap, table, keys[..|keys| - 1]);
    }
  }

  /** `get_thread` counts the positions of the keys without an entry. */
  lemma {:induction false} MissingCounts(heap: seq<Node>, table: seq<Option<nat>>, keys: seq<nat>)
    requires |table| == NBUCKET
    ensures Missing(heap, table, keys) == |set i | 0 <= i < |keys| && Lookup(heap, table, keys[i]).None?|
    decreases |keys|
  {
    hide Lookup;
    if keys != [] {
      var k := |keys| - 1;
      var init := keys[..k];
      MissingCounts(heap, table, init);
      var before := set i | 0 <= i < k && Lookup(heap, table, init[i]).None?;
      var all := set i | 0 <= i < |keys| && Lookup(heap, table, keys[i]).None?;
      assert all == before + if Lookup(heap, table, keys[k]).None? then {k} else {};
    }
  }

  /** Whatever the number of threads and the schedule, after all of them have
      finished `get_thread` reports 0 keys missing. */
  lemma NoKeysMissing(keys: seq<nat>, nthread: nat, schedule: seq<nat>, s: State)
    requires nthread > 0 && |keys| % nthread == 0 && Runs(keys, Init(|keys|, nthread), schedule, s) && AllDone(s)
    ensures Chains(s.heap, s.table) && Missing(s.heap, s.table, keys) == 0
  {
    hide Lookup, Runs;
    EveryRunIsALinearRun(keys, nthread, schedule, s);
    forall i | 0 <= i < |keys| ensures Lookup(s.heap, s.table, keys[i]).Some? {
      NoneMissing(keys, nthread, schedule, s, i);
    }
    AllFound(s.heap, s.table, keys);
  }
}
