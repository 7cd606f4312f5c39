/**
 * The lock directory around one owner's read-modify-write (withLock and register in
 * src/project/project-registry.js), run by any number of processes.
 *
 * Every file-system call is one atomic step: mkdir, stat, the confirming stat, the removal of a
 * stale lock, load, save and release. Processes interleave freely, may crash, and time passes.
 */
module RegistryLock {
  import opened Strings
  import opened ProjectRegistry

  const LOCK_RETRY_MAX: nat := 200
  const LOCK_STALE_MS: int := 30_000

  type Pid = nat

  /** The lock directory: when it was made, and its inode. */
  datatype Lock = Lock(mtime: int, inode: nat)

  /** Where a process is. Judged and Stealing belong to the theft of a stale lock; a failed save ends in Aborted. */
  datatype Pc =
    | Trying(attempt: nat)
    | Busy(attempt: nat)
    | Judged(attempt: nat, seen: Lock)
    | Stealing(attempt: nat)
    | Entered
    | Loaded(records: seq<Project>)
    | Leaving(saved: bool)
    | Done | Aborted | GaveUp | Crashed

  datatype Process = Process(pc: Pc, record: Project)

  /** saved lists the records whose save succeeded, in order: the specification of the file. */
  datatype System = System(lock: Option<Lock>, file: seq<Project>, procs: map<Pid, Process>, now: int, nextInode: nat,
                           initial: seq<Project>, saved: seq<Project>)

  /** What happens next: a process starts registering a record, takes its next step, or dies; or time passes. */
  datatype Event =
    | Begin(newPid: Pid, record: Project) | Next(pid: Pid, saveOk: bool) | Crash(victim: Pid) | Tick(ms: nat)

  predicate InSection(pc: Pc) {
    pc == Entered || pc.Loaded? || pc.Leaving?
  }

  function SetPc(s: System, p: Pid, pc: Pc): System
    requires p in s.procs
  {
    s.(procs := s.procs[p := s.procs[p].(pc := pc)])
  }

  /** One step of withLock(register) by a process. */
  function Advance(s: System, p: Pid, saveOk: bool): System
    requires p in s.procs
  {
    match s.procs[p].pc
    case Trying(n) =>
      if n >= LOCK_RETRY_MAX then SetPc(s, p, GaveUp)
      else if s.lock.None? then
        SetPc(s, p, Entered).(lock := Some(Lock(s.now, s.nextInode)), nextInode := s.nextInode + 1)
      else SetPc(s, p, Busy(n))
    case Busy(n) =>
      if s.lock.None? then SetPc(s, p, Trying(n + 1))
      else if s.now - s.lock.value.mtime > LOCK_STALE_MS then SetPc(s, p, Judged(n, s.lock.value))
      else SetPc(s, p, Trying(n + 1))
    case Judged(n, seen) =>
      if s.lock == Some(seen) then SetPc(s, p, Stealing(n)) else SetPc(s, p, Trying(n + 1))
    case Stealing(n) => SetPc(s, p, Trying(n + 1)).(lock := None)
    case Entered => SetPc(s, p, Loaded(s.file))
    case Loaded(records) =>
      if saveOk
      then
        SetPc(s, p, Leaving(true)).(file := Upsert(records, s.procs[p].record),
                                    saved := s.saved + [s.procs[p].record])
      else SetPc(s, p, Leaving(false))
    case Leaving(saved) => SetPc(s, p, if saved then Done else Aborted).(lock := None)
    case _ => s
  }

  function Step(s: System, e: Event): System {
    match e
    case Begin(p, record) => if p in s.procs then s else s.(procs := s.procs[p := Process(Trying(0), record)])
    case Next(p, saveOk) => if p in s.procs then Advance(s, p, saveOk) else s
    case Crash(p) => if p in s.procs then SetPc(s, p, Crashed) else s
    case Tick(ms) => s.(now := s.now + ms)
  }

  function UpsertAll(records: seq<Project>, saved: seq<Project>): seq<Project> {
    if saved == [] then records else Upsert(UpsertAll(records, saved[..|saved| - 1]), saved[|saved| - 1])
  }

  /** The timing assumption: no lock is ever older than LOCK_STALE_MS, so no holder outlives it. */
  predicate Timely(s: System) {
    s.lock.Some? ==> s.now - s.lock.value.mtime <= LOCK_STALE_MS
  }

  ghost predicate Inv(s: System) {
    // At most one process is in its critical section, and then the lock is there.
    && (forall p, q :: p in s.procs && q in s.procs && InSection(s.procs[p].pc) && InSection(s.procs[q].pc) ==> p == q)
    && (forall p :: p in s.procs && InSection(s.procs[p].pc) ==> s.lock.Some?)
    // Nobody has found a stale lock.
    && (forall p :: p in s.procs ==> !s.procs[p].pc.Judged? && !s.procs[p].pc.Stealing?)
    // What the process in the section has loaded is still what the file holds.
    && (forall p :: p in s.procs && s.procs[p].pc.Loaded? ==> s.procs[p].pc.records == s.file)
    && s.file == UpsertAll(s.initial, s.saved)
  }

  lemma {:induction false} AdvanceKeeps(s: System, p: Pid, saveOk: bool)
    requires Inv(s) && Timely(s) && p in s.procs
    ensures Inv(Advance(s, p, saveOk))
  {
    var t := Advance(s, p, saveOk);
    if s.procs[p].pc.Loaded? && saveOk {
      assert t.saved[..|t.saved| - 1] == s.saved;
    }
  }

  lemma StepKeeps(s: System, e: Event)
    requires Inv(s) && Timely(s)
    ensures Inv(Step(s, e))
  {
    match e
    case Next(p, saveOk) => if p in s.procs { AdvanceKeeps(s, p, saveOk); }
    case _ =>
  }

  function Run(s: System, events: seq<Event>): System
    decreases events
  {
    if events == [] then s else Run(Step(s, events[0]), events[1..])
  }

  /** The run never lets a lock grow stale. */
  predicate TimelyRun(s: System, events: seq<Event>)
    decreases events
  {
    Timely(s) && (events == [] || TimelyRun(Step(s, events[0]), events[1..]))
  }

  lemma {:induction false} RunKeeps(s: System, events: seq<Event>)
    requires Inv(s) && TimelyRun(s, events)
    ensures Inv(Run(s, events))
    decreases events
  {
    if events != [] {
      StepKeeps(s, events[0]);
      RunKeeps(Step(s, events[0]), events[1..]);
    }
  }

  function Boot(file: seq<Project>): System {
    System(None, file, map[], 0, 0, file, [])
  }

  /** Under the timing assumption, whatever the interleaving, two processes are never in the section together. */
  lemma MutualExclusion(file: seq<Project>, events: seq<Event>, p: Pid, q: Pid)
    requires TimelyRun(Boot(file), events)
    requires var s := Run(Boot(file), events);
             p in s.procs && q in s.procs && InSection(s.procs[p].pc) && InSection(s.procs[q].pc)
    ensures p == q
  {
    RunKeeps(Boot(file), events);
  }

  lemma {:induction false} UpsertAllFinds(records: seq<Project>, saved: seq<Project>, i: nat)
    requires i < |saved| && forall j :: i < j < |saved| ==> saved[j].id != saved[i].id
    ensures Find(UpsertAll(records, saved), saved[i].id) == Some(saved[i])
  {
    var front, last := saved[..|saved| - 1], saved[|saved| - 1];
    UpsertFinds(UpsertAll(records, front), last, saved[i].id);
    if i < |front| { UpsertAllFinds(records, front, i); }
  }

  /**
   * No lost update: a record once saved is in the file until a later save replaces it, in every state of every
   * timely run.
   */
  lemma NoRecordIsLost(file: seq<Project>, events: seq<Event>, i: nat)
    requires TimelyRun(Boot(file), events)
    requires var saved := Run(Boot(file), events).saved;
             i < |saved| && forall j :: i < j < |saved| ==> saved[j].id != saved[i].id
    ensures var s := Run(Boot(file), events); Find(s.file, s.saved[i].id) == Some(s.saved[i])
  {
    RunKeeps(Boot(file), events);
    var s := Run(Boot(file), events);
    InitialIsFixed(Boot(file), events);
    UpsertAllFinds(s.initial, s.saved, i);
  }

  lemma {:induction false} InitialIsFixed(s: System, events: seq<Event>)
    ensures Run(s, events).initial == s.initial
    decreases events
  {
    if events != [] { InitialIsFixed(Step(s, events[0]), events[1..]); }
  }

  /** A process whose register returned has its record among the saved ones. */
  predicate Counted(s: System, p: Pid) {
    p in s.procs && s.procs[p].pc in {Leaving(true), Done} ==> s.procs[p].record in s.saved
  }

  lemma {:induction false} CountedStays(s: System, events: seq<Event>, p: Pid)
    requires Counted(s, p)
    ensures Counted(Run(s, events), p)
    decreases events
  {
    if events != [] { CountedStays(Step(s, events[0]), events[1..], p); }
  }

  /** In every run, timely or not and whatever saves fail, a process whose register returned did save its record. */
  lemma FinishedIsSaved(file: seq<Project>, events: seq<Event>, p: Pid)
    requires var s := Run(Boot(file), events); p in s.procs && s.procs[p].pc == Done
    ensures var s := Run(Boot(file), events); s.procs[p].record in s.saved
  {
    CountedStays(Boot(file), events, p);
  }

  /** Every saved record is that of a process. */
  ghost predicate SavedByProcesses(s: System) {
    forall r :: r in s.saved ==> exists q :: q in s.procs && s.procs[q].record == r
  }

  lemma {:induction false} SavedByProcessesStays(s: System, events: seq<Event>)
    requires SavedByProcesses(s)
    ensures SavedByProcesses(Run(s, events))
    decreases events
  {
    if events != [] {
      var t := Step(s, events[0]);
      forall r | r in t.saved ensures exists q :: q in t.procs && t.procs[q].record == r {
        if r in s.saved {
          var q :| q in s.procs && s.procs[q].record == r;
          assert q in t.procs && t.procs[q].record == r;
        } else {
          assert events[0].pid in t.procs && t.procs[events[0].pid].record == r;
        }
      }
      SavedByProcessesStays(t, events[1..]);
    }
  }

  lemma {:induction false} UpsertAllHolds(records: seq<Project>, saved: seq<Project>, r: Project)
    requires r in saved && forall x :: x in saved && x.id == r.id ==> x == r
    ensures Find(UpsertAll(records, saved), r.id) == Some(r)
  {
    var front, last := saved[..|saved| - 1], saved[|saved| - 1];
    assert saved == front + [last];
    UpsertFinds(UpsertAll(records, front), last, r.id);
    if last != r { UpsertAllHolds(records, front, r); }
  }

  /**
   * No registered record is lost: after every timely run, the record of each process whose register
   * returned is in the file, unless another process registered the same id.
   */
  lemma RegisteredIsFound(file: seq<Project>, events: seq<Event>, p: Pid)
    requires TimelyRun(Boot(file), events)
    requires var procs := Run(Boot(file), events).procs;
             && p in procs && procs[p].pc == Done
             && forall q :: q in procs && q != p ==> procs[q].record.id != procs[p].record.id
    ensures var s := Run(Boot(file), events); Find(s.file, s.procs[p].record.id) == Some(s.procs[p].record)
  {
    var s := Run(Boot(file), events);
    RunKeeps(Boot(file), events);
    FinishedIsSaved(file, events, p);
    SavedByProcessesStays(Boot(file), events);
    UpsertAllHolds(s.initial, s.saved, s.procs[p].record);
  }

  /**
   * Without the timing assumption exclusion does fail: from any state with a stale lock and two
   * processes about to retry, this schedule puts both into the section, because a removal is not
   * atomic with the check that confirmed it.
   */
  lemma {:induction false} StaleLockAdmitsTwo(s: System, p: Pid, q: Pid, n: nat, m: nat)
    requires s.lock.Some? && !Timely(s) && p != q && p in s.procs && q in s.procs
    requires s.procs[p].pc == Trying(n) && s.procs[q].pc == Trying(m) && n + 1 < LOCK_RETRY_MAX
             && m + 1 < LOCK_RETRY_MAX
    ensures var a, b := Next(p, true), Next(q, true);
            var t := Run(s, [a, b, a, b, a, b, a, a, b, b]);
            p in t.procs && q in t.procs && t.procs[p].pc == Entered && t.procs[q].pc == Entered
  {
    var a, b := Next(p, true), Next(q, true);
    var s1 := s.(procs := s.procs[p := s.procs[p].(pc := Stealing(n))][q := s.procs[q].(pc := Stealing(m))]);
    assert Run(s, [a, b, a, b, a, b]) == s1 by {
      var l := s.lock.value;
      var t1 := SetPc(SetPc(s, p, Busy(n)), q, Busy(m));
      var t2 := SetPc(SetPc(t1, p, Judged(n, l)), q, Judged(m, l));
      TwoSteps(s, a, b, t1, [a, b, a, b]);
      TwoSteps(t1, a, b, t2, [a, b]);
      TwoSteps(t2, a, b, SetPc(SetPc(t2, p, Stealing(n)), q, Stealing(m)), []);
    }
    assert [a, b, a, b, a, b, a, a, b, b] == [a, b, a, b, a, b] + [a, a, b, b];
    RunConcat(s, [a, b, a, b, a, b], [a, a, b, b]);
    var s2 := Step(Step(s1, a), a);
    TwoSteps(s1, a, a, s2, [b, b]);
    TwoSteps(s2, b, b, Step(Step(s2, b), b), []);
  }

  lemma TwoSteps(s: System, a: Event, b: Event, t: System, rest: seq<Event>)
    requires Step(Step(s, a), b) == t
    ensures Run(s, [a, b] + rest) == Run(t, rest)
  {
    var events := [a, b] + rest;
    assert events[1..][1..] == rest;
  }

  lemma {:induction false} RunConcat(s: System, a: seq<Event>, b: seq<Event>)
    ensures Run(s, a + b) == Run(Run(s, a), b)
    decreases a
  {
    if a == [] {
      assert a + b == b;
    } else {
      assert (a + b)[1..] == a[1..] + b;
      RunConcat(Step(s, a[0]), a[1..], b);
    }
  }

  // ---------------------------------------------------------------- a register that gets through

  lemma FourSteps(s: System, e: Event)
    ensures Run(s, [e, e, e, e]) == Step(Step(Step(Step(s, e), e), e), e)
  {
    TwoSteps(s, e, e, Step(Step(s, e), e), [e, e]);
    TwoSteps(Step(Step(s, e), e), e, e, Step(Step(Step(Step(s, e), e), e), e), []);
    assert [e, e] + [e, e] == [e, e, e, e] && [e, e] + [] == [e, e];
  }

  /**
   * With the lock free and attempts left, four steps of a process register its record: the file holds it, the
   * lock is free again and the process is done. If the save fails the file is as it was, and the lock is free.
   */
  lemma FreeLockRegisters(s: System, p: Pid, n: nat, saveOk: bool)
    requires p in s.procs && s.procs[p].pc == Trying(n) && n < 200 && s.lock.None?
    ensures var e := Next(p, saveOk);
            var t := Run(s, [e, e, e, e]);
            && p in t.procs && t.procs[p].pc == (if saveOk then Done else Aborted) && t.lock.None?
            && t.file == (if saveOk then Upsert(s.file, s.procs[p].record) else s.file)
            && (saveOk ==> Find(t.file, s.procs[p].record.id) == Some(s.procs[p].record))
            && forall q :: q in s.procs && q != p ==> q in t.procs && t.procs[q] == s.procs[q]
  {
    var e := Next(p, saveOk);
    FourSteps(s, e);
    UpsertFinds(s.file, s.procs[p].record, s.procs[p].record.id);
  }

  /**
   * A taken lock makes a process wait, and after 200 attempts give up; a lock no older than 30 seconds is not
   * touched.
   */
  lemma FreshLockIsRespected(s: System, p: Pid, n: nat, saveOk: bool)
    requires p in s.procs && s.procs[p].pc in {Trying(n), Busy(n)}
    requires s.lock.Some? && s.now - s.lock.value.mtime <= 30_000
    ensures var t := Step(s, Next(p, saveOk));
            && p in t.procs && t.lock == s.lock && t.file == s.file
            && (t.procs[p].pc == GaveUp <==> s.procs[p].pc == Trying(n) && n >= 200)
            && (s.procs[p].pc == Busy(n) ==> t.procs[p].pc == Trying(n + 1))
  {
  }

  /** A process alone with a stale lock steals it in four steps and then finds it free. */
  lemma {:induction false} StaleLockIsStolen(s: System, p: Pid, n: nat)
    requires p in s.procs && s.procs[p].pc == Trying(n) && n < 200
    requires s.lock.Some? && s.now - s.lock.value.mtime > 30_000
    ensures var e := Next(p, true);
            var t := Run(s, [e, e, e, e]);
            && p in t.procs && t.procs[p] == Process(Trying(n + 1), s.procs[p].record) && t.lock.None?
            && t.file == s.file
  {
    FourSteps(s, Next(p, true));
  }
}
