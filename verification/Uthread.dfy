/** User-level threads: the round-robin scheduler and the register switch. */
module Uthread {
  import opened Blocks

  const STACK_SIZE := 8192
  /** Words of a saved context. */
  const NREGS := 14

  datatype TState = Free | Running | Runnable

  /** The registers that a switch must preserve. */
  datatype Regs = Regs(ra: nat, sp: nat, s0: nat, s1: nat, s2: nat, s3: nat, s4: nat, s5: nat,
                       s6: nat, s7: nat, s8: nat, s9: nat, s10: nat, s11: nat)

  /** The slots' states and saved contexts, the slot that runs, and the processor's
      registers. `stack(t)` is the top of the stack of slot `t`. */
  datatype State = State(states: seq<TState>, contexts: seq<Regs>, cur: nat, regs: Regs)

  predicate Shape(s: State) {
    |s.contexts| == |s.states| && s.cur < |s.states|
  }

  // ---- which thread is next ----

  /** The loop of `thread_schedule` after `i` rounds, at slot `t`. */
  function Scan(states: seq<TState>, t: nat, i: nat): (r: Option<nat>)
    requires i <= |states|
    ensures r.Some? ==> r.value < |states| && states[r.value].Runnable?
    decreases |states| - i
  {
    if i == |states| then None
    else
      var u := if t >= |states| then 0 else t;
      if states[u].Runnable? then Some(u) else Scan(states, u + 1, i + 1)
  }

  function Pick(states: seq<TState>, cur: nat): Option<nat> {
    Scan(states, cur + 1, 0)
  }

  /** How many slots the search passes before it comes to `t`. */
  function Distance(m: nat, cur: nat, t: nat): nat
    requires cur < m && t < m
  {
    if t > cur then t - cur - 1 else t + m - cur - 1
  }

  lemma {:induction false} ScanIsNearest(states: seq<TState>, cur: nat, t: nat, i: nat)
    requires cur < |states| && i <= |states| && t <= |states|
    requires i < |states| ==> Distance(|states|, cur, if t == |states| then 0 else t) == i
    requires forall u: nat | u < |states| && Distance(|states|, cur, u) < i :: !states[u].Runnable?
    ensures match Scan(states, t, i)
            case None => forall u: nat | u < |states| :: !states[u].Runnable?
            case Some(n) => forall u: nat | u < |states| && states[u].Runnable? ::
                              Distance(|states|, cur, n) <= Distance(|states|, cur, u)
    decreases |states| - i
  {
    if i < |states| {
      var u := if t == |states| then 0 else t;
      if !states[u].Runnable? {
        ScanIsNearest(states, cur, u + 1, i + 1);
      }
    }
  }

  /** The scheduler picks the runnable slot that comes first in cyclic order after
      the current one, which itself comes last. */
  lemma PickIsNearest(states: seq<TState>, cur: nat)
    requires cur < |states|
    ensures match Pick(states, cur)
            case None => forall u: nat | u < |states| :: !states[u].Runnable?
            case Some(n) => n < |states| && states[n].Runnable? &&
                            forall u: nat | u < |states| && states[u].Runnable? ::
                              Distance(|states|, cur, n) <= Distance(|states|, cur, u)
  {
    ScanIsNearest(states, cur, cur + 1, 0);
  }

  // ---- what the operations do ----

  /** `thread_switch` from slot `s.cur` to slot `n`. */
  function SwitchTo(s: State, n: nat): State
    requires Shape(s) && n < |s.states|
  {
    State(s.states[n := Running], s.contexts[s.cur := s.regs], n, s.contexts[n])
  }

  /** `thread_schedule`; `None` is its exit when no thread is runnable. A thread that
      is picked while it is current keeps the state it has. */
  function Scheduled(s: State): (r: Option<State>)
    requires Shape(s)
    ensures r.Some? ==> Shape(r.value)
  {
    match Pick(s.states, s.cur)
    case None => None
    case Some(n) => if n == s.cur then Some(s) else Some(SwitchTo(s, n))
  }

  datatype Event = Compute(regs: Regs) | Create(func: nat) | Yield | Exit

  function FirstFree(states: seq<TState>, t: nat): (r: nat)
    requires t <= |states|
    ensures t <= r <= |states|
    ensures r < |states| ==> states[r].Free?
    ensures forall u | t <= u < r :: !states[u].Free?
    decreases |states| - t
  {
    if t == |states| || states[t].Free? then t else FirstFree(states, t + 1)
  }

  function Blank(func: nat, sp: nat): Regs {
    Regs(func, sp, 0, 0, 0, 0, 0, 0, 0, 0, 0, 0, 0, 0)
  }

  /** Address of the top of the stack of slot `t`. */
  function StackTop(base: nat, size: nat, t: nat): nat {
    base + t * size + STACK_SIZE
  }

  datatype Layout = Layout(base: nat, size: nat)

  /** The state after an event of the current thread; `None` when the program exits,
      or for a thread created when there is no free slot, which the code writes past
      the end of the array. */
  function After(l: Layout, s: State, e: Event): (r: Option<State>)
    requires Shape(s)
    ensures r.Some? ==> Shape(r.value)
  {
    match e
    case Compute(regs) => Some(s.(regs := regs))
    case Create(func) =>
      var t := FirstFree(s.states, 0);
      if t == |s.states| then None
      else Some(s.(states := s.states[t := Runnable], contexts := s.contexts[t := Blank(func, StackTop(l.base, l.size, t))]))
    case Yield => Scheduled(s.(states := s.states[s.cur := Runnable]))
    case Exit => Scheduled(s.(states := s.states[s.cur := Free]))
  }

  /** No thread but the current one is running, and the current one is not free. */
  predicate Inv(s: State) {
    Shape(s) && !s.states[s.cur].Free? && forall t: nat | t < |s.states| && t != s.cur :: !s.states[t].Running?
  }

  lemma StepKeeps(l: Layout, s: State, e: Event)
    requires Inv(s) && After(l, s, e).Some?
    ensures Inv(After(l, s, e).value) && |After(l, s, e).value.states| == |s.states|
  {
  }

  /** `thread_create` stays within the array exactly when some slot is free. */
  lemma CreateNeedsFree(l: Layout, s: State, func: nat)
    requires Shape(s)
    ensures After(l, s, Create(func)).Some? <==> exists t: nat :: t < |s.states| && s.states[t].Free?
  {
    if t: nat :| t < |s.states| && s.states[t].Free? {
      assert FirstFree(s.states, 0) <= t;
    }
  }

  /** From any state some number of creations fills every slot, and the next one
      overruns the array. */
  lemma {:induction false} CreatesFill(l: Layout, s: State, func: nat) returns (es: seq<Event>, s': State)
    requires Inv(s)
    ensures (forall e | e in es :: e == Create(func)) && Runs(l, s, es, s') && Inv(s')
    ensures (forall t: nat | t < |s'.states| :: !s'.states[t].Free?) && After(l, s', Create(func)) == None
    decreases |s.states| - FirstFree(s.states, 0)
  {
    var t := FirstFree(s.states, 0);
    if t == |s.states| {
      es, s' := [], s;
      CreateNeedsFree(l, s, func);
    } else {
      var s1 := After(l, s, Create(func)).value;
      StepKeeps(l, s, Create(func));
      assert FirstFree(s1.states, 0) > t;
      var rest;
      rest, s' := CreatesFill(l, s1, func);
      es := [Create(func)] + rest;
      assert es[1..] == rest;
    }
  }

  /** After a yield some slot runs, in state RUNNING exactly when another thread was
      runnable; otherwise the thread goes on in state RUNNABLE. */
  lemma YieldRuns(l: Layout, s: State)
    requires Inv(s)
    ensures After(l, s, Yield).Some?
    ensures var s' := After(l, s, Yield).value;
            && (s'.states[s'.cur].Running? <==> exists t: nat :: t < |s.states| && t != s.cur && s.states[t].Runnable?)
            && (!s'.states[s'.cur].Running? ==> s' == s.(states := s.states[s.cur := Runnable]))
  {
    var states := s.states[s.cur := Runnable];
    PickIsNearest(states, s.cur);
    assert states[s.cur].Runnable?;
    if t: nat :| t < |s.states| && t != s.cur && s.states[t].Runnable? {
      assert states[t].Runnable? && Distance(|states|, s.cur, t) < Distance(|states|, s.cur, s.cur);
    }
  }

  /** One thread alone: nothing is RUNNING after it has yielded. */
  lemma LoneYield(l: Layout, regs: Regs) returns (s: State, s': State)
    ensures Inv(s) && s.states == [Running] && After(l, s, Yield) == Some(s') && s'.states == [Runnable]
  {
    s := State([Running], [regs], 0, regs);
    YieldRuns(l, s);
    s' := After(l, s, Yield).value;
  }

  /** A thread that ends gives its slot back, and the next one runs; nothing else
      changes. */
  lemma ExitFrees(l: Layout, s: State)
    requires Inv(s) && After(l, s, Exit).Some?
    ensures var s' := After(l, s, Exit).value;
            && s'.cur != s.cur && s'.states[s.cur].Free? && s'.states[s'.cur].Running? && s.states[s'.cur].Runnable?
            && forall t: nat | t < |s.states| && t != s.cur && t != s'.cur :: s'.states[t] == s.states[t]
  {
    PickIsNearest(s.states[s.cur := Free], s.cur);
  }

  /** Stacks of different slots do not overlap as long as a slot holds a stack. */
  lemma StacksApart(l: Layout, t: nat, u: nat)
    requires l.size >= 8192 && t < u
    ensures StackTop(l.base, l.size, t) <= StackTop(l.base, l.size, u) - 8192
    ensures l.base + t * l.size <= StackTop(l.base, l.size, t) - 8192
  {
    LaterSlot(t, u, l.size);
  }

  lemma {:induction false} LaterSlot(t: nat, u: nat, size: nat)
    requires t < u
    ensures t * size + size <= u * size
    decreases u
  {
    assert u * size == (u - 1) * size + size;
    if t < u - 1 {
      LaterSlot(t, u - 1, size);
    }
  }

  // ---- context integrity ----

  ghost predicate Runs(l: Layout, s: State, es: seq<Event>, s': State)
    requires Shape(s)
    decreases |es|
  {
    if es == [] then s' == s
    else match After(l, s, es[0])
      case None => false
      case Some(s1) => Runs(l, s1, es[1..], s')
  }

  /** What slot `t` must be resumed with after an event, if it had to be resumed with
      `owed` before: its registers when it is switched out, its function and its own
      stack when it is created. */
  function OwedAfter(l: Layout, s: State, e: Event, t: nat, owed: Regs): Regs
    requires Shape(s) && After(l, s, e).Some?
  {
    var s' := After(l, s, e).value;
    if e.Create? && t == FirstFree(s.states, 0) then Blank(e.func, StackTop(l.base, l.size, t))
    else if (e.Yield? || e.Exit?) && s.cur == t && s'.cur != t then s.regs
    else owed
  }

  function Owed(l: Layout, s: State, es: seq<Event>, t: nat, owed: Regs): Regs
    requires Shape(s)
    decreases |es|
  {
    if es == [] then owed
    else match After(l, s, es[0])
      case None => owed
      case Some(s1) => Owed(l, s1, es[1..], t, OwedAfter(l, s, es[0], t, owed))
  }

  lemma {:induction false} ContextsHold(l: Layout, s: State, es: seq<Event>, s': State, t: nat)
    requires Inv(s) && t < |s.states| && Runs(l, s, es, s')
    ensures Inv(s') && |s'.states| == |s.states|
    ensures s'.contexts[t] == Owed(l, s, es, t, s.contexts[t])
    decreases |es|
  {
    if es != [] {
      StepKeeps(l, s, es[0]);
      ContextsHold(l, After(l, s, es[0]).value, es[1..], s', t);
    }
  }

  /** Whatever the threads do in between: when a thread is switched in, its registers
      are exactly those of its last switch-out, or its function and its own stack top
      if it was created since. */
  lemma ResumedAsLeft(l: Layout, s: State, es: seq<Event>, s1: State, e: Event)
    requires Inv(s) && Runs(l, s, es, s1) && Shape(s1) && After(l, s1, e).Some?
    requires |s1.states| == |s.states| && After(l, s1, e).value.cur != s1.cur
    ensures var s2 := After(l, s1, e).value;
            s2.regs == Owed(l, s, es, s2.cur, s.contexts[s2.cur])
  {
    var t := After(l, s1, e).value.cur;
    ContextsHold(l, s, es, s1, t);
  }

  /** What a thread starts with: its function, the top of its own stack, and zeros. */
  predicate StartsAt(r: Regs, func: nat, sp: nat) {
    && r.ra == func && r.sp == sp
    && r.s0 == r.s1 == r.s2 == r.s3 == r.s4 == r.s5 == 0
    && r.s6 == r.s7 == r.s8 == r.s9 == r.s10 == r.s11 == 0
  }

  /** Slot `t` is never current in the run. */
  ghost predicate NeverRuns(l: Layout, s: State, es: seq<Event>, t: nat)
    requires Shape(s)
    decreases |es|
  {
    s.cur != t && (es != [] && After(l, s, es[0]).Some? ==> NeverRuns(l, After(l, s, es[0]).value, es[1..], t))
  }

  lemma {:induction false} WaitsUnchanged(l: Layout, s: State, es: seq<Event>, s': State, t: nat)
    requires Inv(s) && t < |s.states| && s.states[t].Runnable? && Runs(l, s, es, s') && NeverRuns(l, s, es, t)
    ensures Inv(s') && |s'.states| == |s.states| && s'.states[t].Runnable? && s'.cur != t && s'.contexts[t] == s.contexts[t]
    decreases |es|
  {
    if es != [] {
      StepKeeps(l, s, es[0]);
      WaitShrinks(l, s, es[0], t);
      WaitsUnchanged(l, After(l, s, es[0]).value, es[1..], s', t);
    }
  }

  /** A thread is created in the first free slot, and whatever happens until it is first
      switched in, it then starts at its function, at the top of its own stack, with
      all other registers 0. */
  lemma FirstRun(l: Layout, s: State, func: nat, es: seq<Event>, s1: State, e: Event)
    requires Inv(s) && After(l, s, Create(func)).Some?
    requires var s0, t := After(l, s, Create(func)).value, FirstFree(s.states, 0);
             Runs(l, s0, es, s1) && NeverRuns(l, s0, es, t) && Shape(s1) && After(l, s1, e).Some? && After(l, s1, e).value.cur == t
    ensures var t, regs := FirstFree(s.states, 0), After(l, s1, e).value.regs;
            regs == Regs(func, l.base + t * l.size + 8192, 0, 0, 0, 0, 0, 0, 0, 0, 0, 0, 0, 0)
  {
    var s0, t := After(l, s, Create(func)).value, FirstFree(s.states, 0);
    StepKeeps(l, s, Create(func));
    WaitsUnchanged(l, s0, es, s1, t);
  }

  // ---- bounded waiting ----

  /** A waiting thread that is not picked comes closer, and goes on waiting. */
  lemma WaitShrinks(l: Layout, s: State, e: Event, t: nat)
    requires Inv(s) && t < |s.states| && t != s.cur && s.states[t].Runnable? && After(l, s, e).Some?
    ensures var s' := After(l, s, e).value;
            var m := |s.states|;
            |s'.states| == m &&
            if e.Yield? || e.Exit? then
              s'.cur == t || (s'.states[t].Runnable? && Distance(m, s'.cur, t) < Distance(m, s.cur, t))
            else s'.cur == s.cur && s'.states[t].Runnable?
  {
    if e.Yield? {
      PickIsNearest(s.states[s.cur := Runnable], s.cur);
    } else if e.Exit? {
      PickIsNearest(s.states[s.cur := Free], s.cur);
    }
  }

  function Schedules(es: seq<Event>): nat {
    if es == [] then 0 else (if es[0].Yield? || es[0].Exit? then 1 else 0) + Schedules(es[1..])
  }

  /** A waiting thread runs before as many schedules have passed as there are other
      slots, whatever those do: a run with more than `Distance` of them goes through
      a moment when it is current. */
  lemma {:induction false} BoundedWaiting(l: Layout, s: State, es: seq<Event>, s': State, t: nat) returns (k: nat, s1: State)
    requires Inv(s) && t < |s.states| && t != s.cur && s.states[t].Runnable? && Runs(l, s, es, s')
    requires Schedules(es) > Distance(|s.states|, s.cur, t)
    ensures Distance(|s.states|, s.cur, t) <= |s.states| - 2
    ensures k <= |es| && Runs(l, s, es[..k], s1) && Shape(s1) && s1.cur == t
    ensures Schedules(es[..k]) <= Distance(|s.states|, s.cur, t) + 1
    decreases |es|
  {
    var e, s0 := es[0], After(l, s, es[0]).value;
    WaitShrinks(l, s, e, t);
    StepKeeps(l, s, e);
    if s0.cur == t {
      k, s1 := 1, s0;
      assert es[..1][1..] == [];
      assert Runs(l, s0, [], s0);
    } else {
      k, s1 := BoundedWaiting(l, s0, es[1..], s', t);
      k := k + 1;
      assert es[..k][1..] == es[1..][..k - 1];
    }
  }

  // ---- the threads a, b and c ----

  /** Where `thread_a`, `thread_b` or `thread_c` stands when it is switched in: at its
      beginning, in the loop that waits for the others to start, or after the `i`-th
      yield of its counting loop. */
  datatype Phase = AtStart | Waiting | Looping(i: nat)

  /** Threads a, b and c have slots 1 to 3 and indices 0 to 2 here. */
  datatype Program = Program(states: seq<TState>, cur: nat, phases: seq<Phase>, started: seq<bool>, n: seq<nat>, ended: bool)

  predicate ProgramOk(p: Program) {
    |p.states| >= 4 && 1 <= p.cur <= 3 && |p.phases| == |p.started| == |p.n| == 3
  }

  /** `thread_schedule` as far as states are concerned. */
  function Rescheduled(p: Program): (r: Program)
    requires ProgramOk(p)
    ensures |r.states| == |p.states| && r.phases == p.phases && r.started == p.started && r.n == p.n
  {
    match Pick(p.states, p.cur)
    case None => p.(ended := true)
    case Some(n) => if n == p.cur then p else p.(states := p.states[n := Running], cur := n)
  }

  predicate OthersStarted(started: seq<bool>, t: nat)
    requires |started| == 3
  {
    (t == 0 || started[0]) && (t == 1 || started[1]) && (t == 2 || started[2])
  }

  /** What the current thread does up to its next `thread_schedule`, which follows;
      `bound` is the number of rounds of the counting loop. */
  function Turn(p: Program, bound: nat): Program
    requires ProgramOk(p)
  {
    var t := p.cur - 1;
    var started := if p.phases[t].AtStart? then p.started[t := true] else p.started;
    var yielding := p.(started := started, states := p.states[p.cur := Runnable]);
    if !p.phases[t].Looping? && !OthersStarted(started, t) then
      Rescheduled(yielding.(phases := p.phases[t := Waiting]))
    else
      var i := if p.phases[t].Looping? then p.phases[t].i else 0;
      if i < bound then Rescheduled(yielding.(phases := p.phases[t := Looping(i + 1)], n := p.n[t := p.n[t] + 1]))
      else Rescheduled(p.(started := started, states := p.states[p.cur := Free]))
  }

  function Turns(p: Program, bound: nat, j: nat): Program
    requires ProgramOk(p)
  {
    if j == 0 then p
    else
      var q := Turns(p, bound, j - 1);
      if q.ended || !ProgramOk(q) then q else Turn(q, bound)
  }

  function States(m: nat, a: TState, b: TState, c: TState): (r: seq<TState>)
    requires m >= 4
    ensures |r| == m
  {
    seq(m, u => if u == 1 then a else if u == 2 then b else if u == 3 then c else Free)
  }

  /** After `main` has created the threads, freed its slot and scheduled. */
  function Begun(m: nat): Program
    requires m >= 4
  {
    Program(States(m, Running, Runnable, Runnable), 1, [AtStart, AtStart, AtStart], [false, false, false], [0, 0, 0], false)
  }

  /** The phase of a thread that has counted to `i`. */
  function At(i: nat, before: Phase): Phase {
    if i == 0 then before else Looping(i)
  }

  function AllStarted(): seq<bool> {
    [true, true, true]
  }

  /** After the first turn of a. */
  function SecondTurn(m: nat): Program
    requires m >= 4
  {
    Program(States(m, Runnable, Running, Runnable), 2, [Waiting, AtStart, AtStart], [true, false, false], [0, 0, 0], false)
  }

  /** All have counted to `r`, and it is the turn of c. */
  function TurnOfC(m: nat, r: nat): Program
    requires m >= 4
  {
    Program(States(m, Runnable, Runnable, Running), 3, [At(r, Waiting), At(r, Waiting), At(r, AtStart)],
            if r == 0 then [true, true, false] else AllStarted(), [r, r, r], false)
  }

  function TurnOfA(m: nat, r: nat): Program
    requires m >= 4
  {
    Program(States(m, Running, Runnable, Runnable), 1, [At(r, Waiting), At(r, Waiting), Looping(r + 1)],
            AllStarted(), [r, r, r + 1], false)
  }

  function TurnOfB(m: nat, r: nat): Program
    requires m >= 4
  {
    Program(States(m, Runnable, Running, Runnable), 2, [Looping(r + 1), At(r, Waiting), Looping(r + 1)],
            AllStarted(), [r + 1, r, r + 1], false)
  }

  /** c, then a, then b have exited after `r` rounds. */
  function Leaving(m: nat, r: nat, gone: nat): Program
    requires m >= 4 && 1 <= gone <= 3
  {
    Program(if gone == 1 then States(m, Running, Runnable, Free) else if gone == 2 then States(m, Free, Running, Free)
            else States(m, Free, Free, Free),
            if gone == 1 then 1 else 2, [At(r, Waiting), At(r, Waiting), At(r, AtStart)], AllStarted(), [r, r, r], gone == 3)
  }

  /** The current thread has done its rounds when it is switched in. */
  predicate Leaves(p: Program, bound: nat)
    requires ProgramOk(p)
  {
    var t := p.cur - 1;
    if p.phases[t].Looping? then p.phases[t].i >= bound
    else bound == 0 && OthersStarted(if p.phases[t].AtStart? then p.started[t := true] else p.started, t)
  }

  /** A turn ends in `thread_yield` or in the exit of the thread, with the scheduler's
      choice and the scheduler's states. */
  lemma TurnIsEvent(l: Layout, s: State, p: Program, bound: nat)
    requires ProgramOk(p) && !p.ended && Shape(s) && s.states == p.states && s.cur == p.cur
    ensures match After(l, s, if Leaves(p, bound) then Exit else Yield)
            case None => Turn(p, bound).ended
            case Some(s') => !Turn(p, bound).ended && s'.states == Turn(p, bound).states && s'.cur == Turn(p, bound).cur
  {
  }

  /** `main`: `thread_init`, three creations and an exit lead to the first turn of a,
      which starts at the beginning of its function on its own stack. */
  lemma MainBegins(l: Layout, s: State, a: nat, b: nat, c: nat) returns (s': State)
    requires Shape(s) && |s.states| >= 4 && s.cur == 0
    requires s.states[0].Running? && forall t | 0 < t < |s.states| :: s.states[t].Free?
    ensures Runs(l, s, [Create(a), Create(b), Create(c), Exit], s') && Inv(s')
    ensures s'.states == Begun(|s.states|).states && s'.cur == Begun(|s.states|).cur
    ensures StartsAt(s'.regs, a, l.base + l.size + 8192)
    ensures StartsAt(s'.contexts[2], b, l.base + 2 * l.size + 8192) && StartsAt(s'.contexts[3], c, l.base + 3 * l.size + 8192)
  {
    hide Scan;
    var m := |s.states|;
    FreeFrom(s.states, 0, 1);
    var s1 := After(l, s, Create(a)).value;
    assert s1.states == s.states[1 := Runnable];
    FreeFrom(s1.states, 0, 2);
    var s2 := After(l, s1, Create(b)).value;
    FreeFrom(s2.states, 0, 3);
    var s3 := After(l, s2, Create(c)).value;
    assert s3.states == s.states[1 := Runnable][2 := Runnable][3 := Runnable];
    var left := s3.states[0 := Free];
    PickOne(left, 0, 1);
    s' := After(l, s3, Exit).value;
    assert s'.states == Begun(m).states;
    var es := [Create(a), Create(b), Create(c), Exit];
    assert es[1..][1..][1..] == [Exit] && es[1..][1..][0] == Create(c) && es[1..][0] == Create(b);
    assert Runs(l, s', [], s') && [Exit][1..] == [];
    assert Runs(l, s3, [Exit], s');
    assert Runs(l, s2, es[1..][1..], s');
    assert Runs(l, s1, es[1..], s');
  }

  lemma {:induction false} FreeFrom(states: seq<TState>, k: nat, t: nat)
    requires k <= t < |states| && states[t].Free? && forall u | k <= u < t :: !states[u].Free?
    ensures FirstFree(states, k) == t
    decreases t - k
  {
    if k < t {
      FreeFrom(states, k + 1, t);
    }
  }

  lemma PickOne(states: seq<TState>, cur: nat, n: nat)
    requires cur < |states| && n < |states| && states[n].Runnable?
    requires forall u: nat | u < |states| && states[u].Runnable? :: Distance(|states|, cur, n) <= Distance(|states|, cur, u)
    ensures Pick(states, cur) == Some(n)
  {
    PickIsNearest(states, cur);
  }

  lemma PickNone(states: seq<TState>, cur: nat)
    requires cur < |states| && forall u: nat | u < |states| :: !states[u].Runnable?
    ensures Pick(states, cur) == None
  {
    PickIsNearest(states, cur);
  }

  /** `thread_schedule` from slot `p.cur` to slot `n`. */
  lemma Switches(p: Program, n: nat, states: seq<TState>)
    requires ProgramOk(p) && 1 <= n <= 3 && n != p.cur && p.states[n].Runnable?
    requires forall u: nat | u < |p.states| && p.states[u].Runnable? :: 1 <= u <= 3
    requires forall u: nat | 1 <= u <= 3 && p.states[u].Runnable? :: Distance(|p.states|, p.cur, n) <= Distance(|p.states|, p.cur, u)
    requires |states| == |p.states| && forall u | 0 <= u < |states| :: states[u] == if u == n then Running else p.states[u]
    ensures Rescheduled(p) == p.(states := states, cur := n)
  {
    PickOne(p.states, p.cur, n);
    assert p.states[n := Running] == states;
  }

  lemma FirstStarts(m: nat, bound: nat)
    requires m >= 4
    ensures Turn(Begun(m), bound) == SecondTurn(m)
  {
    hide Rescheduled;
    var p, q := Begun(m), SecondTurn(m);
    assert p.started[0 := true] == [true, false, false] && p.phases[0 := Waiting] == [Waiting, AtStart, AtStart];
    assert !p.started[0 := true][1];
    Switches(p.(started := [true, false, false], states := p.states[1 := Runnable], phases := [Waiting, AtStart, AtStart]), 2, q.states);
  }

  lemma SecondStarts(m: nat, bound: nat)
    requires m >= 4
    ensures Turn(SecondTurn(m), bound) == TurnOfC(m, 0)
  {
    hide Rescheduled;
    var p, q := SecondTurn(m), TurnOfC(m, 0);
    assert p.started[1 := true] == [true, true, false] && p.phases[1 := Waiting] == [Waiting, Waiting, AtStart];
    assert !p.started[1 := true][2];
    Switches(p.(started := [true, true, false], states := p.states[2 := Runnable], phases := [Waiting, Waiting, AtStart]), 3, q.states);
  }

  lemma RoundC(m: nat, bound: nat, r: nat)
    requires m >= 4 && r <= bound
    ensures Turn(TurnOfC(m, r), bound) == if r < bound then TurnOfA(m, r) else Leaving(m, r, 1)
  {
    hide Rescheduled;
    var p := TurnOfC(m, r);
    var q := if r < bound then TurnOfA(m, r) else Leaving(m, r, 1);
    assert p.started[2 := true] == AllStarted() && (p.started == AllStarted() || r == 0);
    assert r < bound ==> p.phases[2 := Looping(r + 1)] == q.phases && p.n[2 := p.n[2] + 1] == q.n;
    Switches(p.(started := AllStarted(), states := p.states[3 := if r < bound then Runnable else Free], phases := q.phases, n := q.n),
             1, q.states);
  }

  lemma RoundA(m: nat, bound: nat, r: nat)
    requires m >= 4 && r < bound
    ensures Turn(TurnOfA(m, r), bound) == TurnOfB(m, r)
  {
    hide Rescheduled;
    var p, q := TurnOfA(m, r), TurnOfB(m, r);
    assert p.phases[0 := Looping(r + 1)] == q.phases && p.n[0 := p.n[0] + 1] == q.n;
    Switches(p.(states := p.states[1 := Runnable], phases := q.phases, n := q.n), 2, q.states);
  }

  lemma RoundB(m: nat, bound: nat, r: nat)
    requires m >= 4 && r < bound
    ensures Turn(TurnOfB(m, r), bound) == TurnOfC(m, r + 1)
  {
    hide Rescheduled;
    var p, q := TurnOfB(m, r), TurnOfC(m, r + 1);
    assert p.phases[1 := Looping(r + 1)] == q.phases && p.n[1 := p.n[1] + 1] == q.n;
    Switches(p.(states := p.states[2 := Runnable], phases := q.phases, n := q.n), 3, q.states);
  }

  lemma LeaveA(m: nat, bound: nat)
    requires m >= 4
    ensures Turn(Leaving(m, bound, 1), bound) == Leaving(m, bound, 2)
  {
    hide Rescheduled;
    var p, q := Leaving(m, bound, 1), Leaving(m, bound, 2);
    Switches(p.(states := p.states[1 := Free]), 2, q.states);
  }

  lemma LeaveB(m: nat, bound: nat)
    requires m >= 4
    ensures Turn(Leaving(m, bound, 2), bound) == Leaving(m, bound, 3)
  {
    var p := Leaving(m, bound, 2);
    PickNone(p.states[2 := Free], 2);
    assert p.states[2 := Free] == States(m, Free, Free, Free);
  }

  lemma TurnOnce(p: Program, bound: nat, j: nat)
    requires ProgramOk(p) && j > 0
    ensures var q := Turns(p, bound, j - 1); !q.ended && ProgramOk(q) ==> Turns(p, bound, j) == Turn(q, bound)
  {
  }

  /** After the start and `r` rounds it is the turn of c, and all have counted to `r`. */
  lemma {:induction false} AfterRounds(m: nat, bound: nat, r: nat)
    requires m >= 4 && r <= bound
    ensures Turns(Begun(m), bound, 2 + 3 * r) == TurnOfC(m, r)
    ensures r < bound ==> Turns(Begun(m), bound, 3 + 3 * r) == TurnOfA(m, r) && Turns(Begun(m), bound, 4 + 3 * r) == TurnOfB(m, r)
  {
    hide Turn, Turns, States;
    var p := Begun(m);
    if r == 0 {
      FirstTurns(m, bound);
    } else {
      AfterRounds(m, bound, r - 1);
      TurnOnce(p, bound, 2 + 3 * r);
      RoundB(m, bound, r - 1);
    }
    TurnOnce(p, bound, 3 + 3 * r);
    RoundC(m, bound, r);
    if r < bound {
      TurnOnce(p, bound, 4 + 3 * r);
      RoundA(m, bound, r);
    }
  }

  lemma FirstTurns(m: nat, bound: nat)
    requires m >= 4
    ensures Turns(Begun(m), bound, 0) == Begun(m) && Turns(Begun(m), bound, 1) == SecondTurn(m)
    ensures Turns(Begun(m), bound, 2) == TurnOfC(m, 0)
  {
    hide Turn;
    FirstStarts(m, bound);
    SecondStarts(m, bound);
    TurnOnce(Begun(m), bound, 1);
    TurnOnce(Begun(m), bound, 2);
  }

  lemma LastTurns(m: nat, bound: nat, k: nat)
    requires m >= 4 && 1 <= k <= 3
    ensures Turns(Begun(m), bound, 2 + 3 * bound + k) == Leaving(m, bound, k)
  {
    hide Turn, Turns, States;
    AfterRounds(m, bound, bound);
    TurnOnce(Begun(m), bound, 3 + 3 * bound);
    RoundC(m, bound, bound);
    TurnOnce(Begun(m), bound, 4 + 3 * bound);
    LeaveA(m, bound);
    TurnOnce(Begun(m), bound, 5 + 3 * bound);
    LeaveB(m, bound);
  }

  /** For every loop bound in place of 100 and every number of slots: at every switch
      `c_n >= a_n >= b_n >= c_n - 1`, and after finitely many the program ends with
      all three counters equal to the bound. */
  lemma CountersInStep(m: nat, bound: nat, j: nat)
    requires m >= 4
    ensures var n := Turns(Begun(m), bound, j).n;
            |n| == 3 && n[2] >= n[0] >= n[1] && n[1] + 1 >= n[2]
    ensures j >= 3 * bound + 5 ==> Turns(Begun(m), bound, j).ended && Turns(Begun(m), bound, j).n == [bound, bound, bound]
    ensures j < 3 * bound + 5 ==> !Turns(Begun(m), bound, j).ended
    decreases j
  {
    hide Turn, Turns, States;
    if j < 2 {
      FirstTurns(m, bound);
    } else if j <= 3 * bound + 4 && (j - 2) / 3 < bound {
      AfterRounds(m, bound, (j - 2) / 3);
    } else if j == 3 * bound + 2 {
      AfterRounds(m, bound, bound);
    } else if j <= 3 * bound + 5 {
      LastTurns(m, bound, j - 2 - 3 * bound);
    } else {
      CountersInStep(m, bound, j - 1);
      StaysEnded(m, bound, j);
    }
  }

  lemma StaysEnded(m: nat, bound: nat, j: nat)
    requires m >= 4 && j > 0 && Turns(Begun(m), bound, j - 1).ended
    ensures Turns(Begun(m), bound, j) == Turns(Begun(m), bound, j - 1)
  {
  }

  // ---- the code in place ----

  /** The context stored in the words from `a` on. */
  function Saved(w: seq<nat>, a: nat): Regs
    requires a + NREGS <= |w|
  {
    Regs(w[a], w[a + 1], w[a + 2], w[a + 3], w[a + 4], w[a + 5], w[a + 6], w[a + 7],
         w[a + 8], w[a + 9], w[a + 10], w[a + 11], w[a + 12], w[a + 13])
  }

  function Contexts(w: seq<nat>, m: nat): (r: seq<Regs>)
    requires |w| == NREGS * m
    ensures |r| == m
  {
    seq(m, t requires 0 <= t < m => Saved(w, NREGS * t))
  }

  class Threads {
    const layout: Layout
    /** The contexts of all slots, one word for each register. */
    const mem: array<nat>
    var states: seq<TState>
    var current: nat
    var regs: Regs

    ghost predicate Valid()
      reads this, mem
    {
      mem.Length == NREGS * |states| && Inv(View())
    }

    ghost predicate Sized()
      reads this, mem
    {
      mem.Length == NREGS * |states| && current < |states|
    }

    ghost function View(): (s: State)
      requires mem.Length == NREGS * |states|
      reads this, mem
    {
      State(states, Contexts(mem[..], |states|), current, regs)
    }

    /** `thread_init` on `m` zeroed slots. */
    constructor (m: nat, l: Layout, cpu: Regs)
      requires m > 0
      ensures Valid() && fresh(mem) && layout == l && |states| == m && current == 0 && regs == cpu
      ensures states[0] == Running && forall t | 0 < t < m :: states[t] == Free
    {
      layout, regs := l, cpu;
      mem := new nat[NREGS * m](_ => 0);
      current := 0;
      states := seq(m, t => if t == 0 then Running else Free);
    }

    /** The fourteen stores of `thread_switch`. */
    method Store(a0: nat)
      requires a0 + NREGS <= mem.Length
      modifies mem
      ensures Saved(mem[..], a0) == regs
      ensures mem[a0] == regs.ra && mem[a0 + 1] == regs.sp && mem[a0 + 2] == regs.s0 && mem[a0 + 3] == regs.s1
      ensures mem[a0 + 4] == regs.s2 && mem[a0 + 5] == regs.s3 && mem[a0 + 6] == regs.s4 && mem[a0 + 7] == regs.s5
      ensures mem[a0 + 8] == regs.s6 && mem[a0 + 9] == regs.s7 && mem[a0 + 10] == regs.s8 && mem[a0 + 11] == regs.s9
      ensures mem[a0 + 12] == regs.s10 && mem[a0 + 13] == regs.s11
      ensures forall k | 0 <= k < mem.Length && !(a0 <= k < a0 + NREGS) :: mem[k] == old(mem[k])
    {
      mem[a0] := regs.ra;
      mem[a0 + 1] := regs.sp;
      mem[a0 + 2] := regs.s0;
      mem[a0 + 3] := regs.s1;
      mem[a0 + 4] := regs.s2;
      mem[a0 + 5] := regs.s3;
      mem[a0 + 6] := regs.s4;
      mem[a0 + 7] := regs.s5;
      mem[a0 + 8] := regs.s6;
      mem[a0 + 9] := regs.s7;
      mem[a0 + 10] := regs.s8;
      mem[a0 + 11] := regs.s9;
      mem[a0 + 12] := regs.s10;
      mem[a0 + 13] := regs.s11;
    }

    /** The fourteen loads of `thread_switch`. */
    method Load(a1: nat)
      requires a1 + NREGS <= mem.Length
      modifies this`regs
      ensures regs == Saved(mem[..], a1)
    {
      regs := regs.(ra := mem[a1]);
      regs := regs.(sp := mem[a1 + 1]);
      regs := regs.(s0 := mem[a1 + 2]);
      regs := regs.(s1 := mem[a1 + 3]);
      regs := regs.(s2 := mem[a1 + 4]);
      regs := regs.(s3 := mem[a1 + 5]);
      regs := regs.(s4 := mem[a1 + 6]);
      regs := regs.(s5 := mem[a1 + 7]);
      regs := regs.(s6 := mem[a1 + 8]);
      regs := regs.(s7 := mem[a1 + 9]);
      regs := regs.(s8 := mem[a1 + 10]);
      regs := regs.(s9 := mem[a1 + 11]);
      regs := regs.(s10 := mem[a1 + 12]);
      regs := regs.(s11 := mem[a1 + 13]);
    }

    method ThreadSwitch(a0: nat, a1: nat)
      requires a0 + NREGS <= mem.Length && a1 + NREGS <= mem.Length && (a0 + NREGS <= a1 || a1 + NREGS <= a0)
      modifies this`regs, mem
      ensures Saved(mem[..], a0) == old(regs)
      ensures regs == old(Saved(mem[..], a1))
      ensures forall k | 0 <= k < mem.Length && !(a0 <= k < a0 + NREGS) :: mem[k] == old(mem[k])
    {
      Store(a0);
      Load(a1);
    }

    /** `thread_schedule`; `exits` when no thread is runnable. */
    method ThreadSchedule() returns (exits: bool)
      requires Sized()
      modifies this`states, this`current, this`regs, mem
      ensures Sized() && |states| == old(|states|)
      ensures exits <==> old(Scheduled(View())).None?
      ensures if exits then View() == old(View()) else View() == old(Scheduled(View())).value
    {
      var m := |states|;
      var found, next: nat := false, 0;
      var t: nat := current + 1;
      var i := 0;
      while i < m
        invariant 0 <= i <= m && !found && next == 0 && View() == old(View()) && |states| == m
        invariant Scan(states, t, i) == Pick(states, current)
      {
        if t >= m {
          t := 0;
        }
        if states[t] == Runnable {
          found, next := true, t;
          break;
        }
        t := t + 1;
        i := i + 1;
      }
      if !found {
        return true;
      }
      assert Pick(states, current) == Some(next);
      if current != next {
        ghost var s := View();
        states := states[next := Running];
        t := current;
        current := next;
        ghost var w := mem[..];
        ThreadSwitch(NREGS * t, NREGS * next);
        OneContext(w, mem[..], |states|, t);
        assert View() == SwitchTo(s, next);
      }
      return false;
    }

      /** `thread_create`; `overruns` when no slot is free and the code writes past the
        end of the array instead. */
    method ThreadCreate(func: nat) returns (overruns: bool)
      requires Valid()
      modifies this`states, mem
      ensures Valid()
      ensures overruns <==> forall t | 0 <= t < |old(states)| :: !old(states)[t].Free?
      ensures if overruns then View() == old(View()) else Some(View()) == old(After(layout, View(), Create(func)))
      ensures !overruns ==>
                var t := old(FirstFree(states, 0));
                && t < old(|states|) && old(states[t]).Free? && states == old(states)[t := Runnable]
                && mem[NREGS * t] == func && mem[NREGS * t + 1] == layout.base + t * layout.size + 8192
                && forall k | NREGS * t + 2 <= k < NREGS * t + NREGS :: mem[k] == 0
    {
      var t := 0;
      while t < |states|
        invariant 0 <= t <= |states| && FirstFree(states, t) == FirstFree(states, 0)
        invariant Valid() && View() == old(View())
      {
        if states[t] == Free {
          break;
        }
        t := t + 1;
      }
      if t == |states| {
        return true;
      }
      ghost var s, w := View(), mem[..];
      states := states[t := Runnable];
      ClearContext(NREGS * t);
      mem[NREGS * t] := func;
      mem[NREGS * t + 1] := layout.base + t * layout.size + STACK_SIZE;
      OneContext(w, mem[..], |states|, t);
      assert Saved(mem[..], NREGS * t) == Blank(func, StackTop(layout.base, layout.size, t));
      StepKeeps(layout, s, Create(func));
      return false;
    }

    /** The `memset` of `thread_create`. */
    method ClearContext(a: nat)
      requires a + NREGS <= mem.Length
      modifies mem
      ensures forall j | a <= j < a + NREGS :: mem[j] == 0
      ensures forall j | 0 <= j < mem.Length && !(a <= j < a + NREGS) :: mem[j] == old(mem[j])
    {
      var k := 0;
      while k < NREGS
        invariant 0 <= k <= NREGS
        invariant forall j | a <= j < a + k :: mem[j] == 0
        invariant forall j | 0 <= j < mem.Length && !(a <= j < a + NREGS) :: mem[j] == old(mem[j])
      {
        mem[a + k] := 0;
        k := k + 1;
      }
    }

    method ThreadYield() returns (exits: bool)
      requires Valid()
      modifies this`states, this`current, this`regs, mem
      ensures !exits && Valid() && Some(View()) == old(After(layout, View(), Yield))
    {
      ghost var s := View();
      states := states[current := Runnable];
      assert View() == s.(states := s.states[s.cur := Runnable]) && states[current].Runnable?;
      PickIsNearest(states, current);
      exits := ThreadSchedule();
      StepKeeps(layout, s, Yield);
    }

    /** The end of a thread: its slot is freed and another thread scheduled. */
    method ThreadExit() returns (exits: bool)
      requires Valid()
      modifies this`states, this`current, this`regs, mem
      ensures exits <==> forall t | 0 <= t < old(|states|) && t != old(current) :: !old(states)[t].Runnable?
      ensures !exits ==> Valid() && Some(View()) == old(After(layout, View(), Exit))
    {
      ghost var s := View();
      states := states[current := Free];
      assert View() == s.(states := s.states[s.cur := Free]);
      assert forall t: nat | t < |states| :: states[t].Runnable? <==> t != current && s.states[t].Runnable?;
      PickIsNearest(states, current);
      exits := ThreadSchedule();
      if !exits {
        StepKeeps(layout, s, Exit);
      }
    }
  }

  lemma OneContext(w: seq<nat>, w': seq<nat>, m: nat, t: nat)
    requires |w| == |w'| == NREGS * m && t < m
    requires forall k | 0 <= k < |w| && !(NREGS * t <= k < NREGS * t + NREGS) :: w'[k] == w[k]
    ensures Contexts(w', m) == Contexts(w, m)[t := Saved(w', NREGS * t)]
  {
    forall u: nat | u < m && u != t ensures Contexts(w', m)[u] == Contexts(w, m)[u] {
      assert u < t ==> NREGS * u + NREGS <= NREGS * t;
      assert u > t ==> NREGS * t + NREGS <= NREGS * u;
    }
  }
}
