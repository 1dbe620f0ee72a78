/** Who owns an inline hook when threads hook and unhook at will (api/hook.cpp). */
module HookOwnership {
  /** Where a thread is in inlineHook or inlineUnhook; the lock-protected blocks and the backend calls are the steps. */
  datatype Local =
    | Idle
    | Claiming(target: nat)
    | Claimed(target: nat)
    | HookFailed(target: nat)
    | Looking(target: nat)
    | Found(target: nat)
    | Unhooked(target: nat)

  /** `hooked` is g_hooked; `backend` are the addresses whose code really is hooked. */
  datatype State = State(hooked: set<nat>, backend: set<nat>, threads: seq<Local>)

  /** What a thread did to an address, or what kept it from doing it. */
  datatype Event =
    | Took(thread: nat, target: nat)
    | Busy(thread: nat, target: nat)
    | HookSucceeded(thread: nat, target: nat)
    | HookRefused(thread: nat, target: nat)
    | NotFound(thread: nat, target: nat)
    | UnhookSucceeded(thread: nat, target: nat)
    | UnhookRefused(thread: nat, target: nat)
    | Gone(thread: nat, target: nat)
    | GaveBack(thread: nat, target: nat)

  /** `ok` is the answer of a backend call; the other steps do not look at it. */
  datatype Step =
    | CallHook(thread: nat, target: nat, addr: nat)
    | CallUnhook(thread: nat, target: nat)
    | Go(thread: nat, ok: bool)

  datatype Run = Run(state: State, trace: seq<Event>)

  function At(s: State, i: nat, l: Local): State
    requires i < |s.threads|
  {
    s.(threads := s.threads[i := l])
  }

  /**
   The next step of a thread. A null argument is refused at once. The backend refuses to unhook what is not hooked;
   otherwise its answers are arbitrary.
   */
  function Next(r: Run, step: Step): Run
    requires step.thread < |r.state.threads|
  {
    var s, i := r.state, step.thread;
    match (s.threads[i], step)
    case (Idle, CallHook(_, target, addr)) =>
      if target == 0 || addr == 0 then r else r.(state := At(s, i, Claiming(target)))
    case (Idle, CallUnhook(_, target)) => if target == 0 then r else r.(state := At(s, i, Looking(target)))
    case (Claiming(t), Go(_, _)) =>
      if t in s.hooked then Run(At(s, i, Idle), r.trace + [Busy(i, t)])
      else Run(At(s, i, Claimed(t)).(hooked := s.hooked + {t}), r.trace + [Took(i, t)])
    case (Claimed(t), Go(_, ok)) =>
      if ok then Run(At(s, i, Idle).(backend := s.backend + {t}), r.trace + [HookSucceeded(i, t)])
      else Run(At(s, i, HookFailed(t)), r.trace + [HookRefused(i, t)])
    case (HookFailed(t), Go(_, _)) => Run(At(s, i, Idle).(hooked := s.hooked - {t}), r.trace + [GaveBack(i, t)])
    case (Looking(t), Go(_, _)) =>
      if t in s.hooked then r.(state := At(s, i, Found(t))) else Run(At(s, i, Idle), r.trace + [NotFound(i, t)])
    case (Found(t), Go(_, ok)) =>
      if !ok then Run(At(s, i, Idle), r.trace + [UnhookRefused(i, t)])
      else if t !in s.backend then Run(At(s, i, Idle), r.trace + [Gone(i, t)])
      else Run(At(s, i, Unhooked(t)).(backend := s.backend - {t}), r.trace + [UnhookSucceeded(i, t)])
    case (Unhooked(t), Go(_, _)) => Run(At(s, i, Idle).(hooked := s.hooked - {t}), r.trace + [GaveBack(i, t)])
    case _ => r
  }

  /** A thread that is responsible for the address's place in the table. */
  predicate Holds(l: Local, t: nat) { (l.Claimed? || l.HookFailed? || l.Unhooked?) && l.target == t }

  function Holders(threads: seq<Local>, t: nat): nat {
    if threads == [] then 0
    else Holders(threads[..|threads| - 1], t) + (if Holds(threads[|threads| - 1], t) then 1 else 0)
  }

  /** Everything that accounts for an address: a hook in place, or a thread between two of its steps. */
  function Tokens(s: State, t: nat): nat { (if t in s.backend then 1 else 0) + Holders(s.threads, t) }

  /** An address is in the table exactly when one token exists for it, and there never is a second one. */
  ghost predicate Owned(s: State) {
    forall t :: Tokens(s, t) == if t in s.hooked then 1 else 0
  }

  lemma {:induction false} HoldersAfter(threads: seq<Local>, i: nat, l: Local, t: nat)
    requires i < |threads|
    ensures Holders(threads[i := l], t) + (if Holds(threads[i], t) then 1 else 0)
            == Holders(threads, t) + (if Holds(l, t) then 1 else 0)
  {
    var last := |threads| - 1;
    if i == last {
      assert threads[i := l][..last] == threads[..last];
    } else {
      assert threads[i := l][..last] == threads[..last][i := l];
      HoldersAfter(threads[..last], i, l, t);
    }
  }

  lemma {:induction false} HoldersAtLeast(threads: seq<Local>, i: nat, t: nat)
    requires i < |threads| && Holds(threads[i], t)
    ensures Holders(threads, t) >= 1
  {
    if i == |threads| - 1 {
    } else {
      HoldersAtLeast(threads[..|threads| - 1], i, t);
    }
  }

  /** Every step of every thread keeps the accounts. */
  lemma StepKeepsOwned(r: Run, step: Step)
    requires Owned(r.state) && step.thread < |r.state.threads|
    ensures Owned(Next(r, step).state)
  {
    hide Holders;
    var s, v := r.state, Next(r, step).state;
    forall t ensures Tokens(v, t) == if t in v.hooked then 1 else 0 {
      assert Tokens(s, t) == if t in s.hooked then 1 else 0;
      HoldersAfter(s.threads, step.thread, v.threads[step.thread], t);
      assert v.threads == s.threads[step.thread := v.threads[step.thread]];
      if Holds(s.threads[step.thread], t) { HoldersAtLeast(s.threads, step.thread, t); }
    }
  }

  /** A claim goes through exactly when nothing accounts for the address. */
  lemma ClaimOnlyWhenFree(r: Run, i: nat, t: nat, ok: bool)
    requires Owned(r.state) && i < |r.state.threads| && r.state.threads[i] == Claiming(t)
    ensures Next(r, Go(i, ok)).state.threads[i].Claimed? <==> Tokens(r.state, t) == 0
  {
  }

  /** A thread about to hook an address finds it not hooked. */
  lemma ClaimedIsNotHooked(s: State, i: nat, t: nat)
    requires Owned(s) && i < |s.threads| && Holds(s.threads[i], t)
    ensures t !in s.backend && t in s.hooked
    ensures forall j :: 0 <= j < |s.threads| && j != i ==> !Holds(s.threads[j], t)
  {
    HoldersAtLeast(s.threads, i, t);
    assert Tokens(s, t) <= 1;
    forall j | 0 <= j < |s.threads| && j != i ensures !Holds(s.threads[j], t) {
      if Holds(s.threads[j], t) {
        HoldersAfter(s.threads, i, Idle, t);
        HoldersAtLeast(s.threads[i := Idle], j, t);
      }
    }
  }

  // ---- hooks and unhooks in a run ----

  /** Of the hooks and unhooks of the address, the last was a hook. */
  predicate Armed(trace: seq<Event>, t: nat) {
    trace != []
    && (var e := trace[|trace| - 1];
        if e.target == t && (e.HookSucceeded? || e.UnhookSucceeded?) then e.HookSucceeded?
        else Armed(trace[..|trace| - 1], t))
  }

  /** The last thread that took the address has not given it back. */
  predicate InUse(trace: seq<Event>, t: nat) {
    trace != []
    && (var e := trace[|trace| - 1];
        if e.target == t && (e.Took? || e.GaveBack?) then e.Took? else InUse(trace[..|trace| - 1], t))
  }

  /** What may happen to an address after `before`: in particular, when a thread may be turned away. */
  predicate Allowed(before: seq<Event>, e: Event) {
    match e
    case Took(_, t) => !InUse(before, t)
    case Busy(_, t) => InUse(before, t)
    case HookSucceeded(_, t) => InUse(before, t) && !Armed(before, t)
    case HookRefused(_, t) => InUse(before, t) && !Armed(before, t)
    case NotFound(_, t) => !InUse(before, t)
    case UnhookSucceeded(_, t) => Armed(before, t)
    case UnhookRefused(_, t) => true
    case Gone(_, t) => !Armed(before, t)
    case GaveBack(_, t) => InUse(before, t) && !Armed(before, t)
  }

  ghost predicate Lawful(trace: seq<Event>) {
    forall k :: 0 <= k < |trace| ==> Allowed(trace[..k], trace[k])
  }

  predicate Unhooks(e: Event, t: nat) { e.UnhookSucceeded? && e.target == t }

  ghost predicate UnhookBetween(trace: seq<Event>, i: nat, j: nat, t: nat) {
    exists k :: i < k < j && k < |trace| && Unhooks(trace[k], t)
  }

  /** Two successful hooks of an address have a successful unhook of it between them. */
  ghost predicate Separated(trace: seq<Event>) {
    forall i: nat, j: nat ::
      i < j < |trace| && trace[i].HookSucceeded? && trace[j].HookSucceeded? && trace[j].target == trace[i].target ==>
        UnhookBetween(trace, i, j, trace[i].target)
  }

  ghost predicate RunOk(r: Run) {
    Owned(r.state) && Separated(r.trace) && Lawful(r.trace)
    && (forall t :: Armed(r.trace, t) <==> t in r.state.backend)
    && (forall t :: InUse(r.trace, t) <==> t in r.state.hooked)
  }

  lemma {:induction false} DisarmedByUnhook(trace: seq<Event>, i: nat, t: nat)
    requires i < |trace| && trace[i].HookSucceeded? && trace[i].target == t && !Armed(trace, t)
    ensures UnhookBetween(trace, i, |trace|, t)
  {
    var last := |trace| - 1;
    if trace[last].target == t && (trace[last].HookSucceeded? || trace[last].UnhookSucceeded?) {
      assert Unhooks(trace[last], t);
    } else {
      DisarmedByUnhook(trace[..last], i, t);
      var k :| i < k < last && Unhooks(trace[..last][k], t);
      assert Unhooks(trace[k], t);
    }
  }

  lemma SeparatedMore(trace: seq<Event>, e: Event)
    requires Separated(trace) && (e.HookSucceeded? ==> !Armed(trace, e.target))
    ensures Separated(trace + [e])
  {
    var more := trace + [e];
    forall i: nat, j: nat
      | i < j < |more| && more[i].HookSucceeded? && more[j].HookSucceeded? && more[j].target == more[i].target
      ensures UnhookBetween(more, i, j, more[i].target)
    {
      var t := more[i].target;
      if j == |trace| { DisarmedByUnhook(trace, i, t); }
      assert UnhookBetween(trace, i, j, t);
      var k :| i < k < j && k < |trace| && Unhooks(trace[k], t);
      assert Unhooks(more[k], t);
    }
  }

  lemma OneMoreEvent(trace: seq<Event>, e: Event, t: nat)
    ensures Armed(trace + [e], t) ==
            if e.target == t && (e.HookSucceeded? || e.UnhookSucceeded?) then e.HookSucceeded? else Armed(trace, t)
    ensures InUse(trace + [e], t) ==
            if e.target == t && (e.Took? || e.GaveBack?) then e.Took? else InUse(trace, t)
  {
    assert (trace + [e])[..|trace|] == trace;
  }

  lemma LawfulMore(trace: seq<Event>, e: Event)
    requires Lawful(trace) && Allowed(trace, e)
    ensures Lawful(trace + [e])
  {
    hide Allowed;
    var more := trace + [e];
    forall k | 0 <= k < |more| ensures Allowed(more[..k], more[k]) {
      assert more[..k] == if k < |trace| then trace[..k] else trace;
    }
  }

  /** Every step of every thread keeps the accounts, and a thread is turned away only when it has to be. */
  lemma StepKeepsRun(r: Run, step: Step)
    requires RunOk(r) && step.thread < |r.state.threads|
    ensures RunOk(Next(r, step)) && |Next(r, step).state.threads| == |r.state.threads|
  {
    hide Armed, InUse, Separated, Lawful, Holders;
    var s, v := r.state, Next(r, step);
    StepKeepsOwned(r, step);
    if |v.trace| > |r.trace| {
      var e := v.trace[|r.trace|];
      assert v.trace == r.trace + [e];
      if Holds(s.threads[step.thread], e.target) { ClaimedIsNotHooked(s, step.thread, e.target); }
      assert Armed(r.trace, e.target) <==> e.target in s.backend;
      assert InUse(r.trace, e.target) <==> e.target in s.hooked;
      SeparatedMore(r.trace, e);
      LawfulMore(r.trace, e);
      forall t ensures (Armed(v.trace, t) <==> t in v.state.backend) && (InUse(v.trace, t) <==> t in v.state.hooked) {
        OneMoreEvent(r.trace, e, t);
        assert Armed(r.trace, t) <==> t in s.backend;
        assert InUse(r.trace, t) <==> t in s.hooked;
      }
    }
  }

  /** The run after some steps; a step of a thread that does not exist is none. */
  function After(r: Run, steps: seq<Step>): Run {
    if steps == [] then r
    else
      var before := After(r, steps[..|steps| - 1]);
      if steps[|steps| - 1].thread < |before.state.threads| then Next(before, steps[|steps| - 1]) else before
  }

  function Start(threads: nat): Run { Run(State({}, {}, seq(threads, _ => Idle)), []) }

  lemma {:induction false} NobodyHolds(threads: seq<Local>, t: nat)
    requires forall i :: 0 <= i < |threads| ==> threads[i] == Idle
    ensures Holders(threads, t) == 0
  {
    if threads == [] {
    } else {
      NobodyHolds(threads[..|threads| - 1], t);
    }
  }

  lemma StartIsOk(threads: nat)
    ensures RunOk(Start(threads))
  {
    forall t ensures Tokens(Start(threads).state, t) == 0 { NobodyHolds(Start(threads).state.threads, t); }
  }

  /**
   Over every interleaving of any number of threads: the table holds an address exactly when one token exists for
   it, and two successful hooks of one address always have a successful unhook between them.
   */
  lemma {:induction false} HooksAreOwned(threads: nat, steps: seq<Step>)
    ensures RunOk(After(Start(threads), steps))
  {
    if steps == [] {
      StartIsOk(threads);
    } else {
      HooksAreOwned(threads, steps[..|steps| - 1]);
      var before := After(Start(threads), steps[..|steps| - 1]);
      if steps[|steps| - 1].thread < |before.state.threads| { StepKeepsRun(before, steps[|steps| - 1]); }
    }
  }

  /** The events of one thread. */
  function By(trace: seq<Event>, i: nat): seq<Event> {
    if trace == [] then []
    else By(trace[..|trace| - 1], i) + (if trace[|trace| - 1].thread == i then [trace[|trace| - 1]] else [])
  }

  lemma ByMore(trace: seq<Event>, mark: nat, e: Event, i: nat)
    requires mark <= |trace|
    ensures By((trace + [e])[mark..], i) == By(trace[mark..], i) + (if e.thread == i then [e] else [])
  {
    var more := (trace + [e])[mark..];
    assert more[..|more| - 1] == trace[mark..];
  }

  lemma NothingYet(trace: seq<Event>, i: nat)
    ensures By(trace[|trace|..], i) == []
  {
  }

  /** A step leaves the other threads where they are, and is in the trace under its own thread. */
  lemma OneThreadMoves(r: Run, step: Step, i: nat)
    requires step.thread < |r.state.threads| && i < |r.state.threads| && i != step.thread
    ensures var v := Next(r, step);
            |v.state.threads| == |r.state.threads| && v.state.threads[i] == r.state.threads[i]
            && (v.trace == r.trace || (|v.trace| == |r.trace| + 1 && v.trace[|r.trace|].thread == step.thread
                                       && v.trace == r.trace + [v.trace[|r.trace|]]))
  {
  }

  /** Nobody takes an address away from the thread that accounts for it. */
  lemma Held(r: Run, i: nat, t: nat)
    requires RunOk(r) && i < |r.state.threads| && Holds(r.state.threads[i], t)
    ensures t in r.state.hooked && t !in r.state.backend
  {
    ClaimedIsNotHooked(r.state, i, t);
  }

  // ---- one thread alone ----

  lemma SameThreads(r: Run, step: Step)
    requires step.thread < |r.state.threads|
    ensures |Next(r, step).state.threads| == |r.state.threads|
  {
  }

  lemma AfterMore(r: Run, steps: seq<Step>, step: Step)
    requires step.thread < |After(r, steps).state.threads|
    ensures After(r, steps + [step]) == Next(After(r, steps), step)
  {
    hide Next;
    assert (steps + [step])[..|steps|] == steps;
  }

  lemma AfterThree(r: Run, a: Step, b: Step, c: Step)
    requires a.thread == b.thread == c.thread < |r.state.threads|
    ensures After(r, [a, b, c]) == Next(Next(Next(r, a), b), c)
  {
    hide Next;
    SameThreads(r, a);
    SameThreads(Next(r, a), b);
    assert After(r, []) == r;
    hide After;
    AfterMore(r, [], a);
    assert [] + [a] == [a];
    AfterMore(r, [a], b);
    assert [a] + [b] == [a, b];
    AfterMore(r, [a, b], c);
    assert [a, b] + [c] == [a, b, c];
  }

  lemma AfterFour(r: Run, a: Step, b: Step, c: Step, d: Step)
    requires a.thread == b.thread == c.thread == d.thread < |r.state.threads|
    ensures After(r, [a, b, c, d]) == Next(Next(Next(Next(r, a), b), c), d)
  {
    hide Next, After;
    AfterThree(r, a, b, c);
    SameThreads(r, a);
    SameThreads(Next(r, a), b);
    SameThreads(Next(Next(r, a), b), c);
    AfterMore(r, [a, b, c], d);
    assert [a, b, c] + [d] == [a, b, c, d];
  }

  /** A thread that hooks a free address gets it when the backend says yes, and nothing else changes. */
  lemma FreeAddressIsHooked(r: Run, i: nat, t: nat, addr: nat)
    requires RunOk(r) && i < |r.state.threads| && r.state.threads[i] == Idle
    requires t != 0 && addr != 0 && t !in r.state.hooked
    ensures var v := After(r, [CallHook(i, t, addr), Go(i, true), Go(i, true)]);
            v.state == r.state.(hooked := r.state.hooked + {t}, backend := r.state.backend + {t})
            && v.trace == r.trace + [Took(i, t), HookSucceeded(i, t)] && t !in r.state.backend
  {
    hide RunOk, After;
    AfterThree(r, CallHook(i, t, addr), Go(i, true), Go(i, true));
    NotInBackend(r, t);
    var v := After(r, [CallHook(i, t, addr), Go(i, true), Go(i, true)]);
    assert v.state.threads == r.state.threads;
  }

  lemma NotInBackend(r: Run, t: nat)
    requires RunOk(r) && t !in r.state.hooked
    ensures t !in r.state.backend
  {
    assert Tokens(r.state, t) == 0;
  }

  /** When the backend says no, everything is as it was. */
  lemma RefusedHookChangesNothing(r: Run, i: nat, t: nat, addr: nat)
    requires i < |r.state.threads| && r.state.threads[i] == Idle && t != 0 && addr != 0 && t !in r.state.hooked
    ensures var v := After(r, [CallHook(i, t, addr), Go(i, true), Go(i, false), Go(i, true)]);
            v.state == r.state && v.trace == r.trace + [Took(i, t), HookRefused(i, t), GaveBack(i, t)]
  {
    hide After;
    AfterFour(r, CallHook(i, t, addr), Go(i, true), Go(i, false), Go(i, true));
    var v := After(r, [CallHook(i, t, addr), Go(i, true), Go(i, false), Go(i, true)]);
    assert v.state.threads == r.state.threads;
    assert v.state.hooked == r.state.hooked;
  }

  /** Unhooking takes a hooked address out of the table and out of the backend. */
  lemma HookedAddressIsUnhooked(r: Run, i: nat, t: nat)
    requires i < |r.state.threads| && r.state.threads[i] == Idle
    requires t != 0 && t in r.state.hooked && t in r.state.backend
    ensures var v := After(r, [CallUnhook(i, t), Go(i, true), Go(i, true), Go(i, true)]);
            v.state == r.state.(hooked := r.state.hooked - {t}, backend := r.state.backend - {t})
            && v.trace == r.trace + [UnhookSucceeded(i, t), GaveBack(i, t)]
  {
    hide After;
    AfterFour(r, CallUnhook(i, t), Go(i, true), Go(i, true), Go(i, true));
    var v := After(r, [CallUnhook(i, t), Go(i, true), Go(i, true), Go(i, true)]);
    assert v.state.threads == r.state.threads;
  }

  /** Hooking and unhooking undo each other. */
  lemma UnhookUndoesHook(r: Run, i: nat, t: nat, addr: nat)
    requires RunOk(r) && i < |r.state.threads| && r.state.threads[i] == Idle
    requires t != 0 && addr != 0 && t !in r.state.hooked
    ensures var v := After(r, [CallHook(i, t, addr), Go(i, true), Go(i, true)]);
            After(v, [CallUnhook(i, t), Go(i, true), Go(i, true), Go(i, true)]).state == r.state
  {
    hide RunOk, After, Next;
    FreeAddressIsHooked(r, i, t, addr);
    var v := After(r, [CallHook(i, t, addr), Go(i, true), Go(i, true)]);
    HookedAddressIsUnhooked(v, i, t);
    assert v.state.hooked - {t} == r.state.hooked && v.state.backend - {t} == r.state.backend;
  }

  // ---- the two functions, with other threads running between their steps ----

  /** What a call of inlineHook does. */
  function HookEvents(i: nat, target: nat, addr: nat, free: bool, answer: bool): seq<Event> {
    if target == 0 || addr == 0 then []
    else if !free then [Busy(i, target)]
    else if answer then [Took(i, target), HookSucceeded(i, target)]
    else [Took(i, target), HookRefused(i, target), GaveBack(i, target)]
  }

  /** What a call of inlineUnhook does. */
  function UnhookEvents(i: nat, target: nat, found: bool, answer: bool, there: bool): seq<Event> {
    if target == 0 then []
    else if !found then [NotFound(i, target)]
    else if !answer then [UnhookRefused(i, target)]
    else if !there then [Gone(i, target)]
    else [UnhookSucceeded(i, target), GaveBack(i, target)]
  }

  /** g_hooked and the backend, with the places of all threads. */
  class HookTable {
    var hooked: set<nat>
    var backend: set<nat>
    var threads: seq<Local>
    var trace: seq<Event>

    constructor (n: nat)
      ensures Now() == Start(n) && RunOk(Now())
    {
      hooked, backend, threads, trace := {}, {}, seq(n, _ => Idle), [];
      new;
      StartIsOk(n);
    }

    function Now(): Run
      reads this
    {
      Run(State(hooked, backend, threads), trace)
    }

    /** Any number of steps of threads other than `i`. */
    method OthersRun(i: nat, ghost mark: nat)
      requires RunOk(Now()) && i < |threads| && mark <= |trace|
      modifies this
      ensures mark <= |trace| && By(trace[mark..], i) == By(old(trace)[mark..], i)
      ensures RunOk(Now()) && |threads| == old(|threads|) && threads[i] == old(threads[i]) && old(trace) <= trace
    {
      hide RunOk, By, Next;
      var n: nat := *;
      while n > 0
        invariant RunOk(Now()) && |threads| == old(|threads|) && threads[i] == old(threads[i]) && old(trace) <= trace
        invariant mark <= |trace| && By(trace[mark..], i) == By(old(trace)[mark..], i)
      {
        var step: Step := *;
        if step.thread < |threads| && step.thread != i {
          OneThreadMoves(Now(), step, i);
          StepKeepsRun(Now(), step);
          var next := Next(Now(), step);
          if |next.trace| > |trace| { ByMore(trace, mark, next.trace[|trace|], i); }
          hooked, backend, threads, trace := next.state.hooked, next.state.backend, next.state.threads, next.trace;
        }
        n := n - 1;
      }
    }

    /** What thread `i` did since the trace had `mark` entries is exactly `es`. */
    ghost predicate DidSince(mark: nat, i: nat, es: seq<Event>)
      reads this
    {
      mark <= |trace| && By(trace[mark..], i) == es
    }

    /** What thread `i` has just done goes into the trace. */
    method Record(ghost mark: nat, e: Event)
      requires mark <= |trace|
      modifies `trace
      ensures trace == old(trace) + [e] && mark <= |trace|
      ensures By(trace[mark..], e.thread) == By(old(trace)[mark..], e.thread) + [e]
    {
      ByMore(trace, mark, e, e.thread);
      trace := trace + [e];
    }

    /** The last locked block of both functions: the address leaves the table. */
    method Erase(i: nat, target: nat, ghost mark: nat)
      requires RunOk(Now()) && i < |threads| && mark <= |trace|
      requires threads[i] == HookFailed(target) || threads[i] == Unhooked(target)
      modifies this
      ensures mark <= |trace| && By(trace[mark..], i) == By(old(trace)[mark..], i) + [GaveBack(i, target)]
      ensures RunOk(Now()) && |threads| == old(|threads|) && threads[i] == Idle && old(trace) <= trace
      ensures target !in hooked && target !in backend
    {
      hide RunOk, By;
      OthersRun(i, mark);
      Held(Now(), i, target);
      StepKeepsRun(Now(), Go(i, true));
      hooked := hooked - {target};
      threads := threads[i := Idle];
      Record(mark, GaveBack(i, target));
    }

    /** The first locked block of inlineHook: the address is claimed if it is free. */
    method Claim(i: nat, target: nat, ghost mark: nat) returns (free: bool)
      requires RunOk(Now()) && i < |threads| && threads[i] == Claiming(target) && mark <= |trace|
      modifies `hooked, `threads, `trace
      ensures RunOk(Now()) && |threads| == old(|threads|) && old(trace) <= trace && mark <= |trace|
      ensures free == (target !in old(hooked)) && threads[i] == if free then Claimed(target) else Idle
      ensures By(trace[mark..], i) ==
              By(old(trace)[mark..], i) + [if free then Took(i, target) else Busy(i, target)]
    {
      hide RunOk, By;
      StepKeepsRun(Now(), Go(i, true));
      free := target !in hooked;
      threads := threads[i := if free then Claimed(target) else Idle];
      if free { hooked := hooked + {target}; }
      Record(mark, if free then Took(i, target) else Busy(i, target));
    }

    /** The backend is asked to hook a claimed address. */
    method HookClaimed(i: nat, target: nat, answer: bool, ghost mark: nat)
      requires RunOk(Now()) && i < |threads| && threads[i] == Claimed(target) && mark <= |trace|
      modifies `backend, `threads, `trace
      ensures RunOk(Now()) && |threads| == old(|threads|) && old(trace) <= trace && mark <= |trace|
      ensures target in hooked && (target in backend <==> answer)
      ensures threads[i] == if answer then Idle else HookFailed(target)
      ensures By(trace[mark..], i) ==
              By(old(trace)[mark..], i) + [if answer then HookSucceeded(i, target) else HookRefused(i, target)]
    {
      hide RunOk, By;
      Held(Now(), i, target);
      StepKeepsRun(Now(), Go(i, answer));
      threads := threads[i := if answer then Idle else HookFailed(target)];
      if answer { backend := backend + {target}; }
      Record(mark, if answer then HookSucceeded(i, target) else HookRefused(i, target));
    }

    /** The first locked block of inlineUnhook: is the address in the table? */
    method Look(i: nat, target: nat, ghost mark: nat) returns (found: bool)
      requires RunOk(Now()) && i < |threads| && threads[i] == Looking(target) && mark <= |trace|
      modifies `threads, `trace
      ensures RunOk(Now()) && |threads| == old(|threads|) && old(trace) <= trace && mark <= |trace|
      ensures found == (target in hooked) && threads[i] == if found then Found(target) else Idle
      ensures By(trace[mark..], i) == By(old(trace)[mark..], i) + if found then [] else [NotFound(i, target)]
    {
      hide RunOk, By;
      StepKeepsRun(Now(), Go(i, true));
      found := target in hooked;
      threads := threads[i := if found then Found(target) else Idle];
      if !found { Record(mark, NotFound(i, target)); }
    }

    /** The backend is asked to unhook an address that was in the table. */
    method UnhookFound(i: nat, target: nat, answer: bool, ghost mark: nat) returns (done: bool)
      requires RunOk(Now()) && i < |threads| && threads[i] == Found(target) && mark <= |trace|
      modifies `backend, `threads, `trace
      ensures RunOk(Now()) && |threads| == old(|threads|) && old(trace) <= trace && mark <= |trace|
      ensures done == (answer && target in old(backend)) && threads[i] == if done then Unhooked(target) else Idle
      ensures By(trace[mark..], i) == By(old(trace)[mark..], i)
              + [if done then UnhookSucceeded(i, target) else if answer then Gone(i, target)
                else UnhookRefused(i, target)]
    {
      hide RunOk, By;
      StepKeepsRun(Now(), Go(i, answer));
      done := answer && target in backend;
      threads := threads[i := if done then Unhooked(target) else Idle];
      if done { backend := backend - {target}; }
      Record(mark, if done then UnhookSucceeded(i, target)
                   else if answer then Gone(i, target) else UnhookRefused(i, target));
    }

    /**
     inlineHook, with the backend's answer as a parameter. It succeeds exactly when the arguments are there, the
     address was free when it was claimed, and the backend says yes; `free` is which, and a trace that obeys the law
     says of an address that was not free that another thread had it.
     */
    method InlineHook(i: nat, target: nat, addr: nat, answer: bool) returns (ok: bool, ghost free: bool)
      requires RunOk(Now()) && i < |threads| && threads[i] == Idle
      modifies this
      ensures RunOk(Now()) && |threads| == old(|threads|) && threads[i] == Idle && old(trace) <= trace
      ensures ok <==> target != 0 && addr != 0 && free && answer
      ensures DidSince(old(|trace|), i, HookEvents(i, target, addr, free, answer))
      ensures ok ==> target in hooked && target in backend
      ensures target != 0 && addr != 0 && free && !answer ==> target !in hooked && target !in backend
    {
      hide RunOk, By;
      ghost var mark := |trace|;
      NothingYet(trace, i);
      free := false;
      if target == 0 || addr == 0 { return false, false; }
      StepKeepsRun(Now(), CallHook(i, target, addr));
      threads := threads[i := Claiming(target)];
      OthersRun(i, mark);
      var claimed := Claim(i, target, mark);
      free := claimed;
      if !claimed { return false, false; }
      OthersRun(i, mark);
      HookClaimed(i, target, answer, mark);
      if !answer {
        Erase(i, target, mark);
        return false, true;
      }
      ok := true;
    }

    /**
     inlineUnhook. It succeeds exactly when the argument is there, the address is in the table when it is looked up
     (`found`), the backend says yes and the address is still hooked then (`there`).
     */
    method InlineUnhook(i: nat, target: nat, answer: bool) returns (ok: bool, ghost found: bool, ghost there: bool)
      requires RunOk(Now()) && i < |threads| && threads[i] == Idle
      modifies this
      ensures RunOk(Now()) && |threads| == old(|threads|) && threads[i] == Idle && old(trace) <= trace
      ensures ok <==> target != 0 && found && answer && there
      ensures DidSince(old(|trace|), i, UnhookEvents(i, target, found, answer, there))
      ensures ok ==> target !in hooked && target !in backend
    {
      hide RunOk, By;
      ghost var mark := |trace|;
      NothingYet(trace, i);
      ok, found, there := false, false, false;
      if target == 0 { return; }
      StepKeepsRun(Now(), CallUnhook(i, target));
      threads := threads[i := Looking(target)];
      OthersRun(i, mark);
      var present := Look(i, target, mark);
      found := present;
      if !present { return; }
      OthersRun(i, mark);
      there := target in backend;
      var done := UnhookFound(i, target, answer, mark);
      if !done { return; }
      Erase(i, target, mark);
      ok := true;
    }
  }
}
