/** Which processes the daemon still has to look at, and that it takes each at most once (mode.rs, kernel.rs). */
module Targeting {
  import opened Bits

  const HOLD_TIMEOUT_MS := 5000
  const LATE_DEFER_MS := 10_000
  const RECHECK_TIMEOUT_MS := 150
  const RESCAN_LIMIT := 15000

  datatype Seizure = Seized | Retry | GiveUp
  datatype Tracking = Ptrace | Proc | Kernel | Late
  datatype EventKind = Exec | Fork | Exit
  datatype Candidate = Candidate(exe: string, targetSince: int)
  datatype KernelEvent = KernelEvent(kind: EventKind, pid: int, filename: Option<string>, preExec: bool)

  /** What happened to processes: an attempt to seize one, a surrender without one, or the end of the bookkeeping. */
  datatype Entry =
    | Attempt(pid: int, outcome: Seizure)
    | Abandoned(pid: int)
    | Expired(pid: int)
    | Freed(pids: set<int>)

  // ---- the property ----

  predicate Decides(e: Entry, p: int) { e.Attempt? && e.pid == p && e.outcome != Retry }

  /** The daemon will not try the process again. */
  predicate Settles(e: Entry, p: int) { Decides(e, p) || ((e.Abandoned? || e.Expired?) && e.pid == p) }

  predicate Frees(e: Entry, p: int) { e.Freed? && p in e.pids }

  ghost predicate FreedBetween(log: seq<Entry>, i: int, j: int, p: int) {
    exists k :: i < k < j && 0 <= k < |log| && Frees(log[k], p)
  }

  /** Once its case is settled a process is not tried again before the daemon has let go of its number. */
  ghost predicate AtMostOnce(log: seq<Entry>) {
    forall i: nat, j: nat :: i < j < |log| && log[j].Attempt? && Settles(log[i], log[j].pid) ==>
      FreedBetween(log, i, j, log[j].pid)
  }

  /** The case of the process is settled. */
  predicate Settled(log: seq<Entry>, p: int) {
    log != []
    && (Settles(log[|log| - 1], p) || (!Frees(log[|log| - 1], p) && Settled(log[..|log| - 1], p)))
  }

  lemma {:induction false} UnsettledWasFreed(log: seq<Entry>, i: nat, p: int)
    requires i < |log| && Settles(log[i], p) && !Settled(log, p)
    ensures FreedBetween(log, i, |log|, p)
  {
    var last := |log| - 1;
    assert i < last;
    if Frees(log[last], p) {
    } else {
      UnsettledWasFreed(log[..last], i, p);
      var k :| i < k < last && Frees(log[..last][k], p);
      assert Frees(log[k], p);
    }
  }

  lemma OneMoreEntry(log: seq<Entry>, e: Entry)
    requires AtMostOnce(log) && (e.Attempt? ==> !Settled(log, e.pid))
    ensures AtMostOnce(log + [e])
    ensures forall p :: Settled(log + [e], p) <==> Settles(e, p) || (!Frees(e, p) && Settled(log, p))
  {
    var more := log + [e];
    assert more[..|log|] == log;
    forall i: nat, j: nat | i < j < |more| && more[j].Attempt? && Settles(more[i], more[j].pid)
      ensures FreedBetween(more, i, j, more[j].pid)
    {
      var p := more[j].pid;
      if j == |log| { UnsettledWasFreed(log, i, p); }
      assert FreedBetween(log, i, j, p);
      var k :| i < k < j && 0 <= k < |log| && Frees(log[k], p);
      assert Frees(more[k], p);
    }
  }

  /** What settled the case of a process: the last such entry, with no letting go since. */
  lemma {:induction false} SettledByEntry(log: seq<Entry>, p: int) returns (i: nat)
    requires Settled(log, p)
    ensures i < |log| && Settles(log[i], p) && forall k :: i < k < |log| ==> !Frees(log[k], p)
  {
    var last := |log| - 1;
    if Settles(log[last], p) {
      i := last;
    } else {
      i := SettledByEntry(log[..last], p);
    }
  }

  /** How often a process was decided on. */
  function Decisions(log: seq<Entry>, p: int): nat {
    if log == [] then 0 else Decisions(log[..|log| - 1], p) + (if Decides(log[|log| - 1], p) then 1 else 0)
  }

  lemma {:induction false} NoDecision(log: seq<Entry>, p: int)
    requires forall i :: 0 <= i < |log| ==> !Decides(log[i], p)
    ensures Decisions(log, p) == 0
  {
    if log == [] {
    } else {
      NoDecision(log[..|log| - 1], p);
    }
  }

  /** In a stretch in which the daemon does not let go of the process there is at most one seizure or surrender. */
  lemma {:induction false} OneDecisionPerLife(log: seq<Entry>, a: nat, b: nat, p: int)
    requires AtMostOnce(log) && a <= b <= |log| && forall k :: a <= k < b ==> !Frees(log[k], p)
    ensures Decisions(log[a..b], p) <= 1
    decreases b
  {
    if a == b {
    } else {
      OneDecisionPerLife(log, a, b - 1, p);
      assert log[a..b][..b - a - 1] == log[a..b - 1];
      if Decides(log[b - 1], p) {
        var front := log[a..b - 1];
        forall i: nat | i < |front| ensures !Decides(front[i], p) {
          assert front[i] == log[a + i];
          assert Settles(log[a + i], p) ==> FreedBetween(log, a + i, b - 1, p);
        }
        NoDecision(front, p);
      }
    }
  }

  /** The keys of a hash map in the order in which it happens to list them. */
  predicate Lists<T>(keys: seq<int>, m: map<int, T>) {
    (forall p :: p in keys ==> p in m) && (forall p :: p in m ==> p in keys)
    && forall i, j :: 0 <= i < j < |keys| ==> keys[i] != keys[j]
  }

  function Get<T>(m: map<int, T>, p: int): Option<T> { if p in m then Some(m[p]) else None }

  function Without<T>(m: map<int, T>, p: int): map<int, T> { m - {p} }

  /** HashMap::entry(..).or_insert(..) */
  function OrInsert<T>(m: map<int, T>, p: int, v: T): map<int, T> { if p in m then m else m[p := v] }

  /** What was in a log stays in it. */
  lemma Suffix(before: seq<Entry>, log: seq<Entry>, start: nat)
    requires before <= log && start <= |before|
    ensures forall e :: e in before[start..] ==> e in log[start..]
    ensures |log| > |before| ==> log[|before|] in log[start..]
  {
    assert log[start..][..|before| - start] == before[start..];
    if |log| > |before| { assert log[start..][|before| - start] == log[|before|]; }
  }

  // ---- what the system answers ----

  /**
   What /proc, the clock and ptrace answer about one process while the daemon looks at it. `holder` is the foreign
   tracer when the daemon asks before an attempt, `tracer` when the attempt itself asks.
   */
  datatype Facts = Facts(exe: string, isTarget: bool, pathIsTarget: bool, preExecFork: bool, gone: bool, alive: bool,
                         now: int, holder: Option<int>, tracer: Option<int>, usable: bool, seizes: bool, denied: bool,
                         stops: bool, pastEntry: bool, singleThreaded: bool, young: bool, arms: bool, begins: bool)

  /** Nothing stands in the way of injecting into the process. */
  predicate Injectable(f: Facts, late: bool) {
    f.tracer.None? && f.usable && f.seizes && f.stops && f.arms
    && (f.pastEntry ==> late && (f.singleThreaded || f.young) && f.begins)
  }

  /** Somebody else has the process, for now. */
  predicate Contested(f: Facts) { f.tracer.Some? || (f.usable && !f.seizes && f.denied) }

  /** What an attempt comes to. */
  function Verdict(f: Facts, late: bool): Seizure {
    if Injectable(f, late) then Seized else if Contested(f) then Retry else GiveUp
  }

  /** Everything the daemon has on one process. */
  datatype Page = Page(traced: bool, done: bool, ignored: bool, candidate: Option<Candidate>, deferred: Option<int>,
                       recheck: Option<int>)

  /** The path of an exec event names a target. */
  predicate NamesTarget(path: Option<string>, f: Facts) { path.Some? && path.value != "" && f.pathIsTarget }

  /** What a process whose exec is in flight is written down as. */
  function Rechecked(page: Page, path: Option<string>, f: Facts): Page {
    if path.Some? && path.value != "" && !f.pathIsTarget then page.(ignored := true)
    else if page.recheck.Some? then page
    else page.(recheck := Some(f.now + RECHECK_TIMEOUT_MS))
  }

  /** A target that has been held for too long to be tried in proc mode. */
  predicate Overdue(c: Option<Candidate>, f: Facts, late: bool) {
    c.Some? && c.value.exe == f.exe && !late && f.now - c.value.targetSince > HOLD_TIMEOUT_MS
  }

  predicate OpenPage(page: Page) { !page.traced && !page.done && !page.ignored }

  /** An open target that nobody holds and that was not held for too long: it is due an attempt. */
  predicate Due(p: int, page: Page, f: Facts, late: bool) {
    p > 1 && OpenPage(page) && f.exe != "" && f.isTarget && !(late && f.holder.Some?)
    && !Overdue(page.candidate, f, late)
  }

  // ---- the daemon ----

  class Daemon {
    var mode: Tracking
    var tracees: set<int>
    var done: set<int>
    var ignored: set<int>
    var yielded: set<int>
    var candidates: map<int, Candidate>
    var deferred: map<int, int>
    var recheck: map<int, int>
    var lastAllocatedPid: Option<int>
    var procScanActive: bool
    var ignoredRescans: nat

    ghost var log: seq<Entry>

    constructor (mode: Tracking)
      ensures Orderly() && log == []
    {
      this.mode := mode;
      tracees, done, ignored, yielded, candidates, deferred, recheck := {}, {}, {}, {}, map[], map[], map[];
      lastAllocatedPid, procScanActive, ignoredRescans := None, false, 0;
      log := [];
    }

    /** Nothing was taken twice, and `done` holds exactly the processes whose case is settled. */
    ghost predicate Orderly()
      reads `log, `done
    {
      AtMostOnce(log) && forall p :: Settled(log, p) <==> p in done
    }

    /** The daemon neither holds the process nor has settled its case. */
    predicate Open(p: int)
      reads `tracees, `done, `ignored
    {
      p !in tracees && p !in done && p !in ignored
    }

    function PageOf(p: int): Page
      reads `tracees, `done, `ignored, `candidates, `deferred, `recheck
    {
      Page(p in tracees, p in done, p in ignored, Get(candidates, p), Get(deferred, p), Get(recheck, p))
    }

    /** Everything the daemon has on other processes is as it was. */
    twostate predicate OthersStay(p: int)
      reads this
    {
      mode == old(mode) && forall q :: q != p ==> PageOf(q) == old(PageOf(q))
    }

    /** Nothing was attempted or settled, and nothing let go. */
    twostate predicate Quiet()
      reads this
    {
      log == old(log) && tracees == old(tracees) && done == old(done)
    }

    /** The process was attempted, with the outcome that the facts ask for. */
    twostate predicate Attempted(p: int, f: Facts, late: bool)
      reads this
    {
      var v := Verdict(f, late);
      log == old(log) + [Attempt(p, v)]
      && tracees == (if v.Seized? then old(tracees) + {p} else old(tracees))
      && done == (if v.Retry? then old(done) else old(done) + {p})
    }

    /** The process was given up without an attempt. */
    twostate predicate GivenUp(p: int)
      reads this
    {
      log == old(log) + [Abandoned(p)] && tracees == old(tracees) && done == old(done) + {p}
    }

    /** A target was looked at: attempted, or in late mode left to the tracer that holds it. */
    twostate predicate Observed(p: int, f: Facts)
      reads this
    {
      if mode == Late && f.holder.Some? then Quiet() && p in deferred else Attempted(p, f, mode == Late)
    }

    /** One more entry of the log. */
    ghost method Note(e: Entry)
      requires Orderly() && (e.Attempt? ==> e.pid !in done)
      modifies `log
      ensures log == old(log) + [e] && AtMostOnce(log)
      ensures forall p :: Settled(log, p) <==> Settles(e, p) || (p in done && !Frees(e, p))
    {
      OneMoreEntry(log, e);
      log := log + [e];
    }

    /**
     seize_and_stop. Its callers must have made sure that the process is open. Some(outcome) ends the attempt, None
     means that the process is stopped and ours.
     */
    method SeizeAndStop(pid: int, f: Facts) returns (end: Option<Seizure>)
      requires Open(pid)
      modifies `yielded
      ensures end == if Contested(f) then Some(Retry)
                     else if f.usable && f.seizes && f.stops then None else Some(GiveUp)
      ensures yielded == if f.tracer.Some? then old(yielded) + {f.tracer.value} else old(yielded)
    {
      if f.tracer.Some? {
        yielded := yielded + {f.tracer.value};
        return Some(Retry);
      }
      if !f.usable { return Some(GiveUp); }
      if !f.seizes { return Some(if f.denied then Retry else GiveUp); }
      if !f.stops { return Some(GiveUp); }
      return None;
    }

    /** arm_entry_injection */
    method ArmEntryInjection(pid: int, f: Facts) returns (outcome: Seizure)
      modifies `tracees
      ensures outcome == if f.arms then Seized else GiveUp
      ensures tracees == if f.arms then old(tracees) + {pid} else old(tracees)
    {
      if !f.arms { return GiveUp; }
      tracees := tracees + {pid};
      return Seized;
    }

    /** seize_target: seized exactly when nothing stands in the way, and recorded exactly then. */
    method SeizeTarget(pid: int, f: Facts) returns (outcome: Seizure)
      requires Open(pid)
      modifies `tracees, `yielded
      ensures outcome == Verdict(f, false)
      ensures tracees == if outcome.Seized? then old(tracees) + {pid} else old(tracees)
    {
      var end := SeizeAndStop(pid, f);
      if end.Some? { return end.value; }
      if f.pastEntry { return GiveUp; }
      outcome := ArmEntryInjection(pid, f);
    }

    /** seize_late_target: the same, also past its entry. */
    method SeizeLateTarget(pid: int, f: Facts) returns (outcome: Seizure)
      requires Open(pid)
      modifies `tracees, `yielded
      ensures outcome == Verdict(f, true)
      ensures tracees == if outcome.Seized? then old(tracees) + {pid} else old(tracees)
    {
      var end := SeizeAndStop(pid, f);
      if end.Some? { return end.value; }
      if !f.pastEntry {
        outcome := ArmEntryInjection(pid, f);
        return;
      }
      if !f.singleThreaded && !f.young { return GiveUp; }
      if !f.arms { return GiveUp; }
      if !f.begins { return GiveUp; }
      tracees := tracees + {pid};
      return Seized;
    }

    /** observe_target: a decision is remembered, a retry is not. */
    method ObserveTarget(pid: int, f: Facts)
      requires Orderly() && Open(pid)
      modifies this
      ensures Orderly() && OthersStay(pid) && Observed(pid, f)
      ensures ignored == old(ignored) && recheck == old(recheck)
      ensures mode != Late ==> deferred == old(deferred)
      ensures candidates == if pid in done then Without(old(candidates), pid) else old(candidates)
    {
      hide Orderly;
      if mode == Late {
        ObserveLateTarget(pid, f);
        return;
      }
      var outcome := SeizeTarget(pid, f);
      File(pid, outcome);
    }

    /** What an attempt comes to: a seizure or a surrender settles the case. */
    method File(pid: int, outcome: Seizure)
      requires Orderly() && pid !in done
      modifies `log, `done, `candidates
      ensures Orderly() && log == old(log) + [Attempt(pid, outcome)]
      ensures done == if outcome == Retry then old(done) else old(done) + {pid}
      ensures candidates == if outcome == Retry then old(candidates) else Without(old(candidates), pid)
    {
      hide AtMostOnce, Settled;
      Note(Attempt(pid, outcome));
      if outcome != Retry {
        done := done + {pid};
        candidates := Without(candidates, pid);
      }
    }

    /** observe_late_target: the same, but a target that another tracer holds is only put off. */
    method ObserveLateTarget(pid: int, f: Facts)
      requires Orderly() && Open(pid)
      modifies this
      ensures Orderly() && OthersStay(pid) && ignored == old(ignored) && recheck == old(recheck)
      ensures if f.holder.Some? then Quiet() else Attempted(pid, f, true)
      ensures candidates == if pid in done then Without(old(candidates), pid) else old(candidates)
      ensures deferred == if pid in done then Without(old(deferred), pid)
                          else OrInsert(old(deferred), pid, f.now + LATE_DEFER_MS)
    {
      hide Orderly;
      if f.holder.Some? {
        deferred := OrInsert(deferred, pid, f.now + LATE_DEFER_MS);
        return;
      }
      var outcome := SeizeLateTarget(pid, f);
      File(pid, outcome);
      if outcome == Retry {
        deferred := OrInsert(deferred, pid, f.now + LATE_DEFER_MS);
      } else {
        deferred := Without(deferred, pid);
      }
    }

    /** abandon */
    method Abandon(pid: int)
      requires Orderly()
      modifies `done, `candidates, `log
      ensures Orderly() && GivenUp(pid) && candidates == Without(old(candidates), pid)
    {
      hide AtMostOnce, Settled;
      Note(Abandoned(pid));
      done := done + {pid};
      candidates := Without(candidates, pid);
    }

    /** The daemon lets go of processes that are gone. */
    method Free(gone: set<int>)
      requires Orderly()
      modifies `done, `log
      ensures Orderly() && done == old(done) - gone && log == old(log) + [Freed(old(done) * gone)]
    {
      hide AtMostOnce, Settled;
      Note(Freed(done * gone));
      done := done - gone;
    }

    /**
     The body of the scan of poll_processes for one entry of /proc; it says whether the process is a target. An open
     target is attempted, or given up when it was held too long; another program is ignored unless it may still
     become something else.
     */
    method ConsiderProcess(pid: int, f: Facts) returns (active: bool)
      requires Orderly()
      modifies this
      ensures Orderly() && OthersStay(pid) && recheck == old(recheck) && old(log) <= log
      ensures active == (old(Open(pid)) && f.exe != "" && f.isTarget)
      ensures !active ==> Quiet() && deferred == old(deferred)
      ensures active ==>
                if Overdue(old(Get(candidates, pid)), f, mode == Late) then GivenUp(pid) && deferred == old(deferred)
                else Observed(pid, f)
      ensures ignored == old(ignored) || ignored == old(ignored) + {pid}
      ensures pid in ignored <==>
                pid in old(ignored)
                || (old(Open(pid)) && f.exe != "" && !f.isTarget
                    && match old(Get(candidates, pid)) case None => !f.preExecFork case Some(c) => c.exe != f.exe)
      ensures Get(candidates, pid) ==
              if !old(Open(pid)) || f.exe == "" then old(Get(candidates, pid))
              else if pid in done || pid in ignored then None
              else if old(Get(candidates, pid)).Some? && old(Get(candidates, pid)).value.exe == f.exe
                then old(Get(candidates, pid))
              else Some(Candidate(f.exe, if f.isTarget then f.now else 0))
    {
      hide Orderly;
      if pid in tracees || pid in done || pid in ignored { return false; }
      if f.exe == "" { return false; }
      active := f.isTarget;
      if pid !in candidates {
        if f.isTarget {
          candidates := candidates[pid := Candidate(f.exe, f.now)];
          ObserveTarget(pid, f);
        } else if f.preExecFork {
          candidates := candidates[pid := Candidate(f.exe, 0)];
        } else {
          ignored := ignored + {pid};
        }
        return;
      }
      var candidate := candidates[pid];
      if f.exe == candidate.exe {
        if f.isTarget {
          if mode != Late && f.now - candidate.targetSince > HOLD_TIMEOUT_MS {
            Abandon(pid);
          } else {
            ObserveTarget(pid, f);
          }
        }
        return;
      }
      candidates := candidates[pid := Candidate(f.exe, if f.isTarget then f.now else 0)];
      if f.isTarget {
        ObserveTarget(pid, f);
      } else {
        candidates := Without(candidates, pid);
        ignored := ignored + {pid};
      }
    }

    /** Every target that was due has been attempted. */
    ghost predicate DueTried(listed: seq<int>, facts: seq<Facts>, n: nat, due: set<int>, news: seq<Entry>)
      requires n <= |listed| == |facts|
      reads `mode
    {
      forall k :: 0 <= k < n && listed[k] !in listed[..k] && k in due ==>
        Attempt(listed[k], Verdict(facts[k], mode == Late)) in news
    }

    /** The entries whose process is due. */
    ghost function DueAt(listed: seq<int>, facts: seq<Facts>): set<int>
      requires |listed| == |facts|
      reads `tracees, `done, `ignored, `candidates, `deferred, `recheck, `mode
    {
      set k | 0 <= k < |listed| && Due(listed[k], PageOf(listed[k]), facts[k], mode == Late)
    }

    lemma OneMoreTried(listed: seq<int>, facts: seq<Facts>, i: nat, due: set<int>, before: seq<Entry>, news: seq<Entry>)
      requires i < |listed| == |facts| && DueTried(listed, facts, i, due, before)
      requires forall e :: e in before ==> e in news
      requires listed[i] !in listed[..i] && i in due ==> Attempt(listed[i], Verdict(facts[i], mode == Late)) in news
      ensures DueTried(listed, facts, i + 1, due, news)
    {
    }

    lemma DueAtIs(listed: seq<int>, facts: seq<Facts>)
      requires |listed| == |facts|
      ensures forall k :: k in DueAt(listed, facts) <==>
                0 <= k < |listed| && Due(listed[k], PageOf(listed[k]), facts[k], mode == Late)
      ensures forall k :: k in DueAt(listed, facts) ==> listed[k] > 1
    {
    }

    lemma StillTried(listed: seq<int>, facts: seq<Facts>, due: set<int>, before: seq<Entry>, news: seq<Entry>)
      requires |listed| == |facts| && DueTried(listed, facts, |listed|, due, before)
      requires forall e :: e in before ==> e in news
      ensures DueTried(listed, facts, |listed|, due, news)
    {
    }

    lemma StartTried(listed: seq<int>, facts: seq<Facts>, due: set<int>, news: seq<Entry>)
      requires |listed| == |facts|
      ensures DueTried(listed, facts, 0, due, news)
    {
    }

    /** One entry of the listing; only processes are considered. */
    method ScanEntry(pid: int, f: Facts, ghost start: nat) returns (active: bool)
      requires Orderly() && start <= |log|
      modifies this
      ensures Orderly() && OthersStay(pid) && recheck == old(recheck) && old(log) <= log
      ensures forall e :: e in old(log[start..]) ==> e in log[start..]
      ensures Due(pid, old(PageOf(pid)), f, mode == Late) ==> Attempt(pid, Verdict(f, mode == Late)) in log[start..]
    {
      active := false;
      hide Orderly, Verdict;
      ghost var before := log;
      if pid > 1 { active := ConsiderProcess(pid, f); }
      Suffix(before, log, start);
    }

    /** The loop of poll_processes over the listing of /proc. */
    method Scan(listed: seq<int>, facts: seq<Facts>, ghost due: set<int>) returns (active: bool, seen: set<int>)
      requires Orderly() && |facts| == |listed| && due == DueAt(listed, facts)
      modifies this
      ensures Orderly() && old(log) <= log && mode == old(mode) && recheck == old(recheck)
      ensures forall p :: p in seen <==> p > 1 && p in listed
      ensures DueTried(listed, facts, |listed|, due, log[|old(log)|..])
    {
      hide AtMostOnce, Settled, Orderly, Verdict, DueTried, PageOf, Due, Attempted, Observed, GivenUp, Overdue;
      ghost var start := |log|;
      DueAtIs(listed, facts);
      hide DueAt;
      StartTried(listed, facts, due, log[start..]);
      active, seen := false, {};
      var i := 0;
      while i < |listed|
        invariant i <= |listed| && Orderly() && old(log) <= log && mode == old(mode) && recheck == old(recheck)
        invariant forall p :: p in seen <==> p > 1 && p in listed[..i]
        invariant forall p :: p !in listed[..i] ==> PageOf(p) == old(PageOf(p))
        invariant DueTried(listed, facts, i, due, log[start..])
      {
        var pid := listed[i];
        ghost var before := log[start..];
        assert listed[..i + 1] == listed[..i] + [pid];
        if pid !in listed[..i] { assert PageOf(pid) == old(PageOf(pid)); }
        if pid > 1 { seen := seen + {pid}; }
        var target := ScanEntry(pid, facts[i], start);
        active := active || target;
        OneMoreTried(listed, facts, i, due, before, log[start..]);
        i := i + 1;
      }
      assert listed[..i] == listed;
    }

    /** What the scan has not seen is forgotten. */
    method Retain(seen: set<int>)
      requires Orderly()
      modifies `candidates, `ignored, `done, `yielded, `log
      ensures Orderly() && old(log) <= log
      ensures done == old(done) * seen && ignored == old(ignored) * seen && yielded == old(yielded) * seen
      ensures candidates == map p | p in old(candidates) && p in seen :: old(candidates)[p]
    {
      hide Orderly;
      candidates := map p | p in candidates && p in seen :: candidates[p];
      ignored := ignored * seen;
      Free(done - seen);
      yielded := yielded * seen;
    }

    /** poll_processes; `entries` is the listing of /proc, if it can be read, with what is found about each entry. */
    method PollProcesses(lastPid: Option<int>, entries: Option<seq<int>>, facts: seq<Facts>)
        returns (ghost scanned: bool)
      requires Orderly() && (entries.Some? ==> |facts| == |entries.value|)
      modifies this
      ensures Orderly() && old(log) <= log && mode == old(mode) && recheck == old(recheck)
      ensures scanned <==>
                entries.Some? && !(lastPid.Some? && lastPid == old(lastAllocatedPid) && old(candidates) == map[])
      ensures scanned ==> forall p :: p in done || p in ignored || p in candidates || p in yielded ==>
                p > 1 && p in entries.value
      ensures scanned ==>
                DueTried(entries.value, facts, |facts|, old(DueAt(entries.value, facts)), log[|old(log)|..])
      ensures !scanned ==>
                Quiet() && ignored == old(ignored) && candidates == old(candidates) && deferred == old(deferred)
    {
      hide AtMostOnce, Settled, Orderly, Verdict, DueAt, DueTried, PageOf;
      scanned := false;
      if lastPid.Some? && lastPid == lastAllocatedPid && candidates == map[] {
        procScanActive := false;
        return;
      }
      lastAllocatedPid := lastPid;
      if entries.None? { return; }
      var active, seen := Scan(entries.value, facts, DueAt(entries.value, facts));
      ghost var before := log;
      Retain(seen);
      Suffix(before, log, |old(log)|);
      StillTried(entries.value, facts, old(DueAt(entries.value, facts)), before[|old(log)|..], log[|old(log)|..]);
      scanned := true;
      procScanActive := active;
      ignoredRescans := ignoredRescans + 1;
      if ignoredRescans >= RESCAN_LIMIT {
        ignoredRescans := 0;
        ignored := {};
      }
    }

    /** consider_kernel_event: an exec of an open target is an attempt, or a recheck when it has not happened yet. */
    method ConsiderKernelEvent(event: KernelEvent, f: Facts)
      requires Orderly()
      modifies this
      ensures Orderly() && OthersStay(event.pid) && old(log) <= log
      ensures event.pid > 1 && event.kind.Exit? ==>
                PageOf(event.pid) == old(PageOf(event.pid)).(done := false, ignored := false, candidate := None,
                                                             deferred := None, recheck := None)
      ensures event.pid <= 1 || event.kind.Fork? || (event.kind.Exec? && !old(Open(event.pid))) ==>
                Quiet() && PageOf(event.pid) == old(PageOf(event.pid))
      ensures event.pid > 1 && event.kind.Exec? && old(Open(event.pid)) && event.preExec ==>
                Quiet() && PageOf(event.pid) ==
                if f.holder.Some? then old(PageOf(event.pid)) else Rechecked(old(PageOf(event.pid)), event.filename, f)
      ensures event.pid > 1 && event.kind.Exec? && old(Open(event.pid)) && !event.preExec ==>
                if f.exe != "" && (f.isTarget || NamesTarget(event.filename, f)) then Observed(event.pid, f)
                else Quiet() && PageOf(event.pid) == old(PageOf(event.pid)).(ignored := f.exe != "" || f.gone)
    {
      hide AtMostOnce, Settled, Orderly, Verdict;
      var pid := event.pid;
      if pid <= 1 || event.kind == Fork { return; }
      if event.kind == Exit {
        candidates := Without(candidates, pid);
        Free({pid});
        ignored := ignored - {pid};
        deferred := Without(deferred, pid);
        recheck := Without(recheck, pid);
        return;
      }
      if pid in tracees || pid in done || pid in ignored { return; }
      if event.preExec {
        if f.holder.None? { DeferRecheck(pid, event.filename, f); }
        return;
      }
      if f.exe == "" {
        if f.gone { ignored := ignored + {pid}; }
        return;
      }
      if !(f.isTarget || (event.filename.Some? && event.filename.value != "" && f.pathIsTarget)) {
        ignored := ignored + {pid};
        return;
      }
      ObserveTarget(pid, f);
    }

    /** defer_recheck: the first deadline of a process stands. */
    method DeferRecheck(pid: int, execPath: Option<string>, f: Facts)
      requires Open(pid)
      modifies `ignored, `recheck
      ensures OthersStay(pid) && PageOf(pid) == Rechecked(old(PageOf(pid)), execPath, f)
    {
      if execPath.Some? && execPath.value != "" {
        if !f.pathIsTarget {
          ignored := ignored + {pid};
          return;
        }
      }
      if pid in recheck { return; }
      recheck := recheck[pid := f.now + RECHECK_TIMEOUT_MS];
    }

    /** A process waiting for a recheck is due: its exec has shown a target in time. */
    predicate Ripe(p: int, now: nat, f: Facts)
      reads `tracees, `done, `ignored, `recheck
    {
      p in recheck && now < recheck[p] && f.alive && Open(p) && f.exe != "" && f.isTarget
    }

    /**
     recheck_pending: afterwards only unexpired entries are left, with the deadlines they had, and every process that
     was due has been attempted.
     */
    method RecheckPending(now: nat, pending: seq<int>, facts: seq<Facts>)
      requires Orderly() && Lists(pending, recheck) && |facts| == |pending|
      modifies this
      ensures Orderly() && old(log) <= log && mode == old(mode)
      ensures forall p :: p in recheck ==> p in old(recheck) && recheck[p] == old(recheck[p]) && now < recheck[p]
      ensures forall i :: 0 <= i < |pending| && old(Ripe(pending[i], now, facts[i])) ==>
                pending[i] !in recheck
                && (!(mode == Late && facts[i].holder.Some?) ==>
                      Attempt(pending[i], Verdict(facts[i], mode == Late)) in log[|old(log)|..])
    {
      hide AtMostOnce, Settled, Orderly, Verdict;
      ghost var start := |log|;
      var i := 0;
      while i < |pending|
        invariant i <= |pending| && Orderly() && old(log) <= log && mode == old(mode)
        invariant forall p :: p !in pending[..i] ==> PageOf(p) == old(PageOf(p))
        invariant forall p :: p in recheck ==> p in old(recheck) && recheck[p] == old(recheck[p])
        invariant forall k :: 0 <= k < i && pending[k] in recheck ==> now < recheck[pending[k]]
        invariant forall k :: 0 <= k < i && old(Ripe(pending[k], now, facts[k])) ==>
                    pending[k] !in recheck
                    && (!(mode == Late && facts[k].holder.Some?) ==>
                          Attempt(pending[k], Verdict(facts[k], mode == Late)) in log[start..])
      {
        ghost var before := log;
        assert pending[..i + 1] == pending[..i] + [pending[i]];
        assert PageOf(pending[i]) == old(PageOf(pending[i]));
        RecheckOne(pending[i], now, facts[i]);
        Suffix(before, log, start);
        i := i + 1;
      }
    }

    /** The body of that loop. */
    method RecheckOne(pid: int, now: nat, f: Facts)
      requires Orderly()
      modifies this
      ensures Orderly() && OthersStay(pid) && old(log) <= log
      ensures recheck == old(recheck) || recheck == Without(old(recheck), pid)
      ensures pid in recheck ==> now < recheck[pid] && Open(pid)
      ensures pid in old(recheck) && pid !in recheck <==>
                pid in old(recheck)
                && (now >= old(recheck[pid]) || !f.alive || !old(Open(pid)) || (f.exe != "" && f.isTarget))
      ensures if old(Ripe(pid, now, f)) then Observed(pid, f)
              else Quiet() && PageOf(pid).(recheck := None) == old(PageOf(pid)).(recheck := None)
    {
      hide AtMostOnce, Settled, Orderly, Verdict;
      var deadline := if pid in recheck then recheck[pid] else 0;
      if now >= deadline || !f.alive || pid in tracees || pid in done || pid in ignored {
        recheck := Without(recheck, pid);
        return;
      }
      if f.exe == "" || !f.isTarget { return; }
      recheck := Without(recheck, pid);
      ObserveTarget(pid, f);
    }

    /** retry_deferred; `holders` are the foreign tracers it asks for first. */
    method RetryDeferred(now: int, pending: seq<int>, holders: seq<Option<int>>, facts: seq<Facts>)
      requires Orderly() && Lists(pending, deferred) && |facts| == |holders| == |pending|
      modifies this
      ensures Orderly() && old(log) <= log && mode == old(mode) && recheck == old(recheck)
      ensures forall p :: p in deferred ==> p in old(deferred)
      ensures forall i ::
                0 <= i < |pending| && old(Released(pending[i], holders[i], facts[i])) && facts[i].holder.None? ==>
                  Attempt(pending[i], Verdict(facts[i], true)) in log[|old(log)|..]
      ensures forall i :: 0 <= i < |pending| && holders[i].Some? && now >= old(deferred[pending[i]]) ==>
                Abandoned(pending[i]) in log[|old(log)|..]
    {
      hide AtMostOnce, Settled, Orderly, Verdict;
      ghost var start := |log|;
      var i := 0;
      while i < |pending|
        invariant i <= |pending| && Orderly() && old(log) <= log && mode == old(mode) && recheck == old(recheck)
        invariant forall p :: p !in pending[..i] ==> PageOf(p) == old(PageOf(p))
        invariant forall p :: p in deferred ==> p in old(deferred)
        invariant forall k :: 0 <= k < i && old(Released(pending[k], holders[k], facts[k])) && facts[k].holder.None? ==>
                    Attempt(pending[k], Verdict(facts[k], true)) in log[start..]
        invariant forall k :: 0 <= k < i && holders[k].Some? && now >= old(deferred[pending[k]]) ==>
                    Abandoned(pending[k]) in log[start..]
      {
        ghost var before := log;
        assert pending[..i + 1] == pending[..i] + [pending[i]];
        assert PageOf(pending[i]) == old(PageOf(pending[i]));
        assert pending[i] in old(deferred);
        label Before:
        RetryOne(pending[i], now, holders[i], facts[i]);
        forall p | p in deferred ensures p in old(deferred) {
          if p != pending[i] { assert PageOf(p) == old@Before(PageOf(p)); }
        }
        Suffix(before, log, start);
        i := i + 1;
      }
    }

    /** A deferred process is free to be tried: its tracer went away and it still is an open target. */
    predicate Released(p: int, holder: Option<int>, f: Facts)
      reads `tracees, `done, `ignored
    {
      holder.None? && f.alive && Open(p) && f.exe != "" && f.isTarget
    }

    /** The body of that loop; `holder` is the other tracer that still holds the process. */
    method RetryOne(pid: int, now: int, holder: Option<int>, f: Facts)
      requires Orderly() && pid in deferred
      modifies this
      ensures Orderly() && OthersStay(pid) && old(log) <= log && recheck == old(recheck)
      ensures holder.Some? && now < old(deferred[pid]) ==> Quiet() && PageOf(pid) == old(PageOf(pid))
      ensures holder.Some? && now >= old(deferred[pid]) ==>
                GivenUp(pid) && PageOf(pid) == old(PageOf(pid)).(done := true, deferred := None)
      ensures holder.None? && !old(Released(pid, holder, f)) ==>
                Quiet() && PageOf(pid) == old(PageOf(pid)).(deferred := None)
      ensures old(Released(pid, holder, f)) ==>
                (if f.holder.Some? then Quiet() else Attempted(pid, f, true))
                && (pid in deferred <==> pid !in done) && (pid in deferred ==> deferred[pid] == f.now + LATE_DEFER_MS)
    {
      hide AtMostOnce, Settled, Orderly, Verdict;
      var deadline := deferred[pid];
      if holder.None? {
        deferred := Without(deferred, pid);
        if !f.alive || pid in tracees || pid in done || pid in ignored { return; }
        if f.exe == "" || !f.isTarget { return; }
        ObserveLateTarget(pid, f);
        return;
      }
      if now < deadline { return; }
      deferred := Without(deferred, pid);
      GiveUpHeld(pid);
    }

    /** The end of retry_deferred: a process that is still held is settled. */
    method GiveUpHeld(pid: int)
      requires Orderly()
      modifies `done, `log
      ensures Orderly() && GivenUp(pid)
    {
      hide AtMostOnce, Settled;
      Note(Abandoned(pid));
      done := done + {pid};
    }

    /** prune_kernel_bookkeeping: `alive` are the processes still there when it asks. */
    method PruneKernelBookkeeping(alive: set<int>)
      requires Orderly()
      modifies `done, `ignored, `candidates, `log
      ensures Orderly() && old(log) <= log && done == old(done) * alive && ignored == old(ignored) * alive
      ensures candidates == map p | p in old(candidates) && p in alive :: old(candidates)[p]
    {
      Free(done - alive);
      ignored := ignored * alive;
      candidates := map p | p in candidates && p in alive :: candidates[p];
    }

    /** prune_deferred */
    method PruneDeferred(alive: set<int>)
      requires Orderly()
      modifies `deferred
      ensures Orderly() && deferred == map p | p in old(deferred) && p in alive :: old(deferred)[p]
    {
      deferred := map p | p in deferred && p in alive :: deferred[p];
    }

    /** The main loop's pruning of processes waiting for a recheck. */
    method PruneRecheck(alive: set<int>)
      requires Orderly()
      modifies `recheck
      ensures Orderly() && recheck == map p | p in old(recheck) && p in alive :: old(recheck)[p]
    {
      recheck := map p | p in recheck && p in alive :: recheck[p];
    }

    /** expire_pending for one armed tracee: it stops and is let go, or is kept for a later try. */
    method ExpireTracee(pid: int, stops: bool)
      requires Orderly() && pid in tracees
      modifies `tracees, `done, `log
      ensures Orderly()
      ensures if stops then log == old(log) + [Expired(pid)] && tracees == old(tracees) - {pid}
              && done == old(done) + {pid}
              else Quiet()
    {
      hide AtMostOnce, Settled;
      tracees := tracees - {pid};
      if !stops {
        tracees := tracees + {pid};
        return;
      }
      Note(Expired(pid));
      done := done + {pid};
    }

    /** Children of traced processes join the tracees, and exited ones leave them. */
    method TraceeEvent(pid: int, born: bool)
      requires Orderly()
      modifies `tracees
      ensures Orderly() && tracees == if born then old(tracees) + {pid} else old(tracees) - {pid}
    {
      tracees := if born then tracees + {pid} else tracees - {pid};
    }

    /** One thing the main loop may do next, in any mode, with any answers of the system. */
    method AnyStep()
      requires Orderly()
      modifies this
      ensures Orderly() && old(log) <= log
    {
      var choice: nat := *;
      var pid: int, now: nat := *, *;
      var flag: bool := *;
      var alive: set<int> := *;
      var pending: seq<int>, facts: seq<Facts> := *, *;
      match choice {
        case 0 =>
          var lastPid: Option<int>, entries: Option<seq<int>> := *, *;
          if entries.Some? ==> |facts| == |entries.value| {
            ghost var scanned := PollProcesses(lastPid, entries, facts);
          }
        case 1 =>
          var event: KernelEvent := *;
          if facts != [] { ConsiderKernelEvent(event, facts[0]); }
        case 2 =>
          if Lists(pending, recheck) && |facts| == |pending| { RecheckPending(now, pending, facts); }
        case 3 =>
          var holders: seq<Option<int>> := *;
          if Lists(pending, deferred) && |facts| == |holders| == |pending| {
            RetryDeferred(now, pending, holders, facts);
          }
        case 4 => PruneKernelBookkeeping(alive);
        case 5 => if pid in tracees { ExpireTracee(pid, flag); }
        case 6 => TraceeEvent(pid, flag);
        case 7 => PruneDeferred(alive);
        case 8 => PruneRecheck(alive);
        case _ => mode := *;
      }
    }

    /**
     Over every run: once its case is settled a process is not tried again before it was let go, and `done` holds
     exactly the processes that were seized, given up or expired and not let go since.
     */
    method AnyRun(steps: nat)
      requires Orderly()
      modifies this
      ensures AtMostOnce(log) && old(log) <= log && forall p :: p in done <==> Settled(log, p)
    {
      var i := 0;
      while i < steps
        invariant Orderly() && old(log) <= log
      {
        AnyStep();
        i := i + 1;
      }
    }
  }
}
