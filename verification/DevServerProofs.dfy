/** What holds in every reachable state of the dev-server manager, over all interleavings. */
module DevServerProofs {
  import opened DevServer

  function Initial(low: int, high: int): Server {
    Server(low, high, map[], [], {}, map[], 0)
  }

  /** Each current record is known, belongs to its project and was not stopped. */
  ghost predicate CurrentOk(s: Server) {
    forall p :: p in s.current ==>
      s.current[p] < |s.all| && s.all[s.current[p]].project == p && s.all[s.current[p]].teardown == NotStopped
  }

  /** What each record's own fields always satisfy. */
  predicate RecordOk(s: Server, r: Record) {
    && s.low <= r.hostPort <= s.high
    && (r.portHeld <==> r.freed == NotFreed)
    && r.frees == (if r.portHeld then 0 else 1)
    && (r.phase == Stopped <==> r.teardown != NotStopped)
    && (IsLive(r) ==> r.portHeld)
    && (r.launch in {AwaitStart, AwaitProbe, AwaitStatus, AwaitSleep} ==> r.phase in {Starting, Stopped})
    && (r.phase == Starting ==> r.launch in {AwaitStart, AwaitProbe, AwaitStatus, AwaitSleep})
    && (r.launch in {FailLogs, FailRemove} ==> r.phase in {Failed, Stopped})
    && (r.teardown == AwaitRemoval || r.teardown.TornDown? ==> r.launch == Settled)
    && (r.freed == ByStop ==> r.teardown.TornDown?)
    && (r.teardown.TornDown? ==> !r.portHeld)
    && (r.freed == ByFailure ==> r.launch in {FailLogs, FailRemove, Settled})
    && (r.launch == AwaitStart ==> r.container == Absent)
    && (r.teardown == TornDown(true) ==> r.container != Up)
  }

  /** The pool holds exactly the ports of the records that hold theirs, one owner each. */
  ghost predicate PoolOk(s: Server) {
    && (forall i :: 0 <= i < |s.all| && s.all[i].portHeld ==> s.all[i].hostPort in s.held)
    && (forall p :: p in s.held ==> exists i :: 0 <= i < |s.all| && s.all[i].portHeld && s.all[i].hostPort == p)
    && (forall i, j :: 0 <= i < j < |s.all| && s.all[i].portHeld && s.all[j].portHeld ==>
          s.all[i].hostPort != s.all[j].hostPort)
  }

  ghost predicate ChecksOk(s: Server) {
    forall c :: c in s.checks ==>
      && c < s.nextCheck && s.checks[c].record < |s.all|
      && (s.checks[c].wait in {FailLogs, FailRemove} ==> s.all[s.checks[c].record].phase in {Failed, Stopped})
      && s.all[s.checks[c].record].phase != Starting && s.all[s.checks[c].record].launch == Settled
  }

  /** A failed record that still holds its port has a task on its way to free it. */
  ghost predicate NoLeak(s: Server) {
    forall i :: 0 <= i < |s.all| && s.all[i].phase == Failed && s.all[i].portHeld ==>
      s.all[i].launch == FailLogs || exists c :: c in s.checks && s.checks[c] == Check(i, FailLogs)
  }

  ghost predicate RecordsOk(s: Server) {
    forall i :: 0 <= i < |s.all| ==> RecordOk(s, s.all[i])
  }

  ghost predicate Inv(s: Server) {
    CurrentOk(s) && PoolOk(s) && ChecksOk(s) && NoLeak(s) && RecordsOk(s)
  }

  // ---------------------------------------------------------------- preservation

  function ContainerRank(c: Container): nat {
    match c case Absent => 0 case Up => 1 case Gone => 2
  }

  /** What a step may do to a record: keep its identity, move forward, and let go of the port at most. */
  predicate Forward(r: Record, t: Record) {
    && t.project == r.project && t.hostPort == r.hostPort
    && Rank(r.phase) <= Rank(t.phase)
    && (t.portHeld ==> r.portHeld)
    && (!r.portHeld ==> t.freed == r.freed && t.frees == r.frees)
    && ContainerRank(r.container) <= ContainerRank(t.container)
    && (r.teardown.TornDown? ==> t.(container := r.container) == r)
    && (r.launch == Settled ==> t.launch == Settled)
  }

  /** The failed record has its own way to the release, or one of the checks has. */
  ghost predicate OnItsWay(r: Record, id: RecordId, checks: map<nat, Check>) {
    r.phase == Failed && r.portHeld ==>
      r.launch == FailLogs || exists c :: c in checks && checks[c] == Check(id, FailLogs)
  }

  lemma {:induction false} PutKeepsPool(s: Server, id: RecordId, r: Record)
    requires PoolOk(s) && id < |s.all| && r.hostPort == s.all[id].hostPort && (r.portHeld ==> s.all[id].portHeld)
    ensures PoolOk(Put(s, id, r))
  {
    var t := Put(s, id, r);
    forall p | p in t.held ensures exists i :: 0 <= i < |t.all| && t.all[i].portHeld && t.all[i].hostPort == p {
      var i :| 0 <= i < |s.all| && s.all[i].portHeld && s.all[i].hostPort == p;
      assert t.all[i].portHeld && t.all[i].hostPort == p;
    }
  }

  lemma PutKeepsLeak(s: Server, id: RecordId, r: Record, checks: map<nat, Check>)
    requires NoLeak(s) && id < |s.all| && OnItsWay(r, id, checks)
    requires forall c :: c in s.checks && s.checks[c].record != id ==> c in checks && checks[c] == s.checks[c]
    ensures NoLeak(Put(s, id, r).(checks := checks))
  {
    var t := Put(s, id, r).(checks := checks);
    forall i | 0 <= i < |t.all| && t.all[i].phase == Failed && t.all[i].portHeld
      ensures t.all[i].launch == FailLogs || exists c :: c in t.checks && t.checks[c] == Check(i, FailLogs)
    {
      if i != id && s.all[i].launch != FailLogs {
        var c :| c in s.checks && s.checks[c] == Check(i, FailLogs);
        assert c in t.checks && t.checks[c] == Check(i, FailLogs);
      }
    }
  }

  /** Every step but a start changes one record and perhaps the checks. */
  lemma {:induction false} PutKeeps(s: Server, id: RecordId, r: Record, checks: map<nat, Check>)
    requires Inv(s) && id < |s.all| && RecordOk(s, r) && Forward(s.all[id], r) && OnItsWay(r, id, checks)
    requires r.teardown == NotStopped || s.all[id].teardown != NotStopped
    requires forall c :: c in s.checks && s.checks[c].record != id ==> c in checks && checks[c] == s.checks[c]
    requires forall c :: c in checks ==> c in s.checks && checks[c].record == s.checks[c].record
    requires forall c :: c in checks && checks[c] != s.checks[c] ==>
               checks[c].record == id && r.phase in {Failed, Stopped}
    ensures Inv(Put(s, id, r).(checks := checks))
  {
    PutKeepsPool(s, id, r);
    PutKeepsLeak(s, id, r, checks);
    PutKeepsCurrent(s, id, r);
    PutKeepsChecks(s, id, r, checks);
    PutKeepsRecords(s, id, r);
    SameRecords(Put(s, id, r), Put(s, id, r).(checks := checks));
  }

  lemma PutKeepsRecords(s: Server, id: RecordId, r: Record)
    requires RecordsOk(s) && id < |s.all| && RecordOk(s, r)
    ensures RecordsOk(Put(s, id, r))
  {
    var t := Put(s, id, r);
    assert forall i :: 0 <= i < |t.all| ==> t.all[i] == (if i == id then r else s.all[i]);
  }

  lemma SameRecords(s: Server, t: Server)
    requires RecordsOk(s) && t.all == s.all && t.low == s.low && t.high == s.high
    ensures RecordsOk(t)
  {
  }

  lemma PutKeepsCurrent(s: Server, id: RecordId, r: Record)
    requires CurrentOk(s) && id < |s.all| && r.project == s.all[id].project
    requires r.teardown == NotStopped || s.all[id].teardown != NotStopped
    ensures CurrentOk(Put(s, id, r))
  {
  }

  lemma {:induction false} PutKeepsChecks(s: Server, id: RecordId, r: Record, checks: map<nat, Check>)
    requires ChecksOk(s) && id < |s.all| && Rank(s.all[id].phase) <= Rank(r.phase)
    requires s.all[id].launch == Settled ==> r.launch == Settled
    requires forall c :: c in checks ==> c in s.checks && checks[c].record == s.checks[c].record
    requires forall c :: c in checks && checks[c] != s.checks[c] ==>
               checks[c].record == id && r.phase in {Failed, Stopped}
    ensures ChecksOk(Put(s, id, r).(checks := checks))
  {
  }

  lemma LaunchedOk(s: Server, r: Record, answer: Answer, up: bool)
    requires RecordOk(s, r)
    ensures var t := Launched(r, answer, up);
            && RecordOk(s, t) && Forward(r, t) && t.teardown == r.teardown
            && (t.phase == Failed && t.portHeld ==>
                  t.launch == FailLogs || (r.phase == Failed && r.portHeld && r.launch != FailLogs))
  {
  }

  lemma TornOk(s: Server, r: Record, up: bool)
    requires RecordOk(s, r)
    ensures var t := Torn(r, up);
            && RecordOk(s, t) && Forward(r, t)
            && t.phase == r.phase && (t.teardown == NotStopped <==> r.teardown == NotStopped)
  {
  }

  function Begun(s: Server, project: ProjectId, port: int): Server {
    s.(held := s.held + {port},
       all := s.all + [Record(project, Starting, port, true, AwaitStart, NotStopped, NotFreed, 0, Absent)],
       current := s.current[project := |s.all|])
  }

  lemma BegunPool(s: Server, project: ProjectId, port: int)
    requires PoolOk(s) && port !in s.held
    ensures PoolOk(Begun(s, project, port))
  {
    var t := Begun(s, project, port);
    forall p | p in t.held ensures exists i :: 0 <= i < |t.all| && t.all[i].portHeld && t.all[i].hostPort == p {
      if p in s.held {
        var i :| 0 <= i < |s.all| && s.all[i].portHeld && s.all[i].hostPort == p;
        assert t.all[i] == s.all[i];
      } else {
        assert t.all[|s.all|].hostPort == p;
      }
    }
  }

  lemma BegunLeak(s: Server, project: ProjectId, port: int)
    requires NoLeak(s)
    ensures NoLeak(Begun(s, project, port))
  {
    var t := Begun(s, project, port);
    forall i | 0 <= i < |t.all| && t.all[i].phase == Failed && t.all[i].portHeld
      ensures t.all[i].launch == FailLogs || exists c :: c in t.checks && t.checks[c] == Check(i, FailLogs)
    {
      assert t.all[i] == s.all[i];
    }
  }

  lemma {:induction false} StartKeeps(s: Server, project: ProjectId, startable: bool)
    requires Inv(s)
    ensures Inv(AfterStart(s, project, startable))
  {
    var port := LeastFree(s.held, s.low, s.high);
    if port.Some? {
      BegunPool(s, project, port.value);
      BegunLeak(s, project, port.value);
    }
  }

  lemma {:induction false} StopKeeps(s: Server, project: ProjectId)
    requires Inv(s)
    ensures Inv(AfterStop(s, project))
  {
    if project in s.current {
      var id := s.current[project];
      var r := s.all[id].(phase := Stopped, teardown := AwaitLaunch);
      StoppedOk(s, s.all[id]);
      PutKeepsPool(s, id, r);
      PutKeepsLeak(s, id, r, s.checks);
      PutKeepsRecords(s, id, r);
      SameRecords(Put(s, id, r), AfterStop(s, project));
      StopKeepsCurrent(s, project);
      assert Put(s, id, r).(checks := s.checks) == Put(s, id, r);
      StopKeepsChecks(s, project);
    }
  }

  lemma StoppedOk(s: Server, r: Record)
    requires RecordOk(s, r) && r.teardown == NotStopped
    ensures RecordOk(s, r.(phase := Stopped, teardown := AwaitLaunch))
  {
  }

  lemma {:induction false} StopKeepsCurrent(s: Server, project: ProjectId)
    requires CurrentOk(s) && project in s.current
    ensures CurrentOk(AfterStop(s, project))
  {
    var t := AfterStop(s, project);
    forall p | p in t.current
      ensures t.current[p] < |t.all| && t.all[t.current[p]].project == p && t.all[t.current[p]].teardown == NotStopped
    {
      assert s.current[p] != s.current[project];
    }
  }

  lemma StopKeepsChecks(s: Server, project: ProjectId)
    requires CurrentOk(s) && ChecksOk(s) && project in s.current
    ensures ChecksOk(AfterStop(s, project))
  {
  }

  lemma {:induction false} LaunchStepKeeps(s: Server, id: RecordId, answer: Answer, up: bool)
    requires Inv(s) && id < |s.all|
    ensures Inv(AfterLaunchStep(s, id, answer, up))
  {
    LaunchedOk(s, s.all[id], answer, up);
    PutKeeps(s, id, Launched(s.all[id], answer, up), s.checks);
  }

  lemma {:induction false} TeardownStepKeeps(s: Server, id: RecordId, up: bool)
    requires Inv(s) && id < |s.all|
    ensures Inv(AfterTeardownStep(s, id, up))
  {
    TornOk(s, s.all[id], up);
    PutKeeps(s, id, Torn(s.all[id], up), s.checks);
  }

  lemma {:induction false} CheckStepKeeps(s: Server, check: nat, status: Answer, up: bool)
    requires Inv(s) && check in s.checks
    ensures Inv(AfterCheckStep(s, check, status, up))
  {
    var id, wait := s.checks[check].record, s.checks[check].wait;
    if wait == FailRemove {
      CheckRemoves(s, check, up);
    } else if wait == AwaitStatus && status == Bad && s.all[id].phase != Stopped {
      CheckFails(s, check);
    } else if wait == FailLogs && s.all[id].phase != Stopped {
      CheckReleases(s, check, status, up);
    } else {
      EndCheckKeeps(s, check);
    }
  }

  lemma {:induction false} CheckRemoves(s: Server, check: nat, up: bool)
    requires Inv(s) && check in s.checks && s.checks[check].wait == FailRemove
    ensures Inv(EndCheck(Put(s, s.checks[check].record, AfterRemoval(s.all[s.checks[check].record], up)), check))
  {
    var id := s.checks[check].record;
    var r := AfterRemoval(s.all[id], up);
    assert RecordOk(s, s.all[id]);
    EndCheckKeepsLeak(s, check);
    PutKeeps(s, id, r, s.checks - {check});
  }

  lemma {:induction false} EndCheckKeeps(s: Server, check: nat)
    requires Inv(s) && check in s.checks
    requires s.checks[check].wait == FailLogs ==> s.all[s.checks[check].record].phase == Stopped
    ensures Inv(EndCheck(s, check))
  {
    EndCheckKeepsLeak(s, check);
  }

  lemma {:induction false} CheckFails(s: Server, check: nat)
    requires Inv(s) && check in s.checks && s.all[s.checks[check].record].phase != Stopped
    requires s.checks[check].wait != FailLogs
    ensures var id := s.checks[check].record;
            Inv(Put(s, id, s.all[id].(phase := Failed)).(checks := s.checks[check := Check(id, FailLogs)]))
  {
    var id := s.checks[check].record;
    var checks := s.checks[check := Check(id, FailLogs)];
    FailedOk(s, s.all[id]);
    assert checks[check] == Check(id, FailLogs);
    PutKeeps(s, id, s.all[id].(phase := Failed), checks);
  }

  lemma FailedOk(s: Server, r: Record)
    requires RecordOk(s, r) && r.launch == Settled && r.phase != Stopped
    ensures RecordOk(s, r.(phase := Failed)) && Forward(r, r.(phase := Failed))
  {
  }

  lemma {:induction false} CheckReleases(s: Server, check: nat, status: Answer, up: bool)
    requires Inv(s) && check in s.checks && s.checks[check].wait == FailLogs
    requires s.all[s.checks[check].record].phase != Stopped
    ensures Inv(AfterCheckStep(s, check, status, up))
  {
    var id := s.checks[check].record;
    assert RecordOk(s, s.all[id]);
    PutKeeps(s, id, Freeing(s.all[id], ByFailure), s.checks[check := Check(id, FailRemove)]);
  }

  lemma EndCheckKeepsLeak(s: Server, check: nat)
    requires NoLeak(s) && check in s.checks && s.checks[check].record < |s.all|
    requires s.checks[check].wait == FailLogs ==> s.all[s.checks[check].record].phase == Stopped
    ensures NoLeak(EndCheck(s, check))
  {
    var t := EndCheck(s, check);
    forall i | 0 <= i < |t.all| && t.all[i].phase == Failed && t.all[i].portHeld
      ensures t.all[i].launch == FailLogs || exists c :: c in t.checks && t.checks[c] == Check(i, FailLogs)
    {
      if s.all[i].launch != FailLogs {
        var c :| c in s.checks && s.checks[c] == Check(i, FailLogs);
        assert c in t.checks && t.checks[c] == Check(i, FailLogs);
      }
    }
  }

  lemma {:induction false} CheckLivenessKeeps(s: Server, project: ProjectId)
    requires Inv(s)
    ensures Inv(AfterCheckLiveness(s, project))
  {
    if project in s.current && s.all[s.current[project]].phase == Running {
      assert RecordOk(s, s.all[s.current[project]]);
      NewCheckKeepsLeak(s, Check(s.current[project], AwaitStatus));
      SameRecords(s, AfterCheckLiveness(s, project));
    }
  }

  lemma NewCheckKeepsLeak(s: Server, check: Check)
    requires NoLeak(s) && s.nextCheck !in s.checks
    ensures NoLeak(s.(checks := s.checks[s.nextCheck := check], nextCheck := s.nextCheck + 1))
  {
    var t := s.(checks := s.checks[s.nextCheck := check], nextCheck := s.nextCheck + 1);
    forall i | 0 <= i < |t.all| && t.all[i].phase == Failed && t.all[i].portHeld
      ensures t.all[i].launch == FailLogs || exists c :: c in t.checks && t.checks[c] == Check(i, FailLogs)
    {
      if s.all[i].launch != FailLogs {
        var c :| c in s.checks && s.checks[c] == Check(i, FailLogs);
        assert c in t.checks && t.checks[c] == Check(i, FailLogs);
      }
    }
  }

  lemma {:induction false} StepKeeps(s: Server, e: Event)
    requires Inv(s)
    ensures Inv(Step(s, e))
  {
    match e
    case Start(project, startable) => StartKeeps(s, project, startable);
    case Stop(project) => StopKeeps(s, project);
    case LaunchStep(id, answer, up) => if id < |s.all| { LaunchStepKeeps(s, id, answer, up); }
    case CheckLiveness(project) => CheckLivenessKeeps(s, project);
    case CheckStep(check, status, up) => if check in s.checks { CheckStepKeeps(s, check, status, up); }
    case TeardownStep(id, up) => if id < |s.all| { TeardownStepKeeps(s, id, up); }
  }

  // ---------------------------------------------------------------- runs

  /** Continues from a state; the events may interleave the tasks of all projects in any way. */
  ghost function RunFrom(s: Server, events: seq<Event>): (t: Server)
    requires Inv(s)
    ensures CurrentOk(t)
    decreases events
  {
    if events == [] then s
    else
      StepKeeps(s, events[0]);
      RunFrom(Step(s, events[0]), events[1..])
  }

  /** The state after a run of a new manager. */
  ghost function Run(low: int, high: int, events: seq<Event>): (s: Server)
    ensures CurrentOk(s)
  {
    RunFrom(Initial(low, high), events)
  }

  /** The invariant holds after every run. */
  lemma {:induction false} RunKeeps(s: Server, events: seq<Event>)
    requires Inv(s)
    ensures Inv(RunFrom(s, events))
    decreases events
  {
    if events != [] {
      StepKeeps(s, events[0]);
      RunKeeps(Step(s, events[0]), events[1..]);
    }
  }

  function Rank(p: Phase): nat {
    match p case Starting => 0 case Running => 1 case Failed => 2 case Stopped => 3
  }

  lemma PutMovesForward(s: Server, id: RecordId, r: Record, i: nat)
    requires id < |s.all| && i < |s.all| && Forward(s.all[id], r)
    ensures Forward(s.all[i], Put(s, id, r).all[i])
  {
  }

  lemma {:induction false} CheckMovesForward(s: Server, check: nat, status: Answer, up: bool, i: nat)
    requires Inv(s) && check in s.checks && i < |s.all|
    ensures var t := AfterCheckStep(s, check, status, up); |t.all| == |s.all| && Forward(s.all[i], t.all[i])
  {
    var id, wait := s.checks[check].record, s.checks[check].wait;
    assert RecordOk(s, s.all[id]);
    if wait == AwaitStatus && status == Bad && s.all[id].phase != Stopped {
      PutMovesForward(s, id, s.all[id].(phase := Failed), i);
    } else if wait == FailLogs && s.all[id].phase != Stopped {
      PutMovesForward(s, id, Freeing(s.all[id], ByFailure), i);
    } else if wait == FailRemove {
      PutMovesForward(s, id, AfterRemoval(s.all[id], up), i);
    }
  }

  /** One step only moves a record forward, and never gives a port back to a record. */
  lemma {:induction false} StepMovesForward(s: Server, e: Event, i: nat)
    requires Inv(s) && i < |s.all|
    ensures i < |Step(s, e).all| && Forward(s.all[i], Step(s, e).all[i])
  {
    match e {
      case Start(_, _) =>
      case Stop(project) =>
        if project in s.current {
          var id := s.current[project];
          assert RecordOk(s, s.all[id]);
          PutMovesForward(s, id, s.all[id].(phase := Stopped, teardown := AwaitLaunch), i);
        }
      case LaunchStep(id, answer, up) =>
        if id < |s.all| {
          LaunchedOk(s, s.all[id], answer, up);
          PutMovesForward(s, id, Launched(s.all[id], answer, up), i);
        }
      case CheckLiveness(_) =>
      case CheckStep(check, status, up) => if check in s.checks { CheckMovesForward(s, check, status, up, i); }
      case TeardownStep(id, up) =>
        if id < |s.all| {
          TornOk(s, s.all[id], up);
          PutMovesForward(s, id, Torn(s.all[id], up), i);
        }
    }
  }

  /**
   * Over any run, from any reachable state, a record's phase only moves forward and its port is never claimed
   * again.
   */
  lemma {:induction false} RunMovesForward(s: Server, events: seq<Event>, i: nat)
    requires Inv(s) && i < |s.all|
    ensures i < |RunFrom(s, events).all| && Forward(s.all[i], RunFrom(s, events).all[i])
    decreases events
  {
    if events != [] {
      StepKeeps(s, events[0]);
      StepMovesForward(s, events[0], i);
      RunMovesForward(Step(s, events[0]), events[1..], i);
    }
  }

  function TotalFrees(all: seq<Record>): nat {
    if all == [] then 0 else TotalFrees(all[..|all| - 1]) + all[|all| - 1].frees
  }

  /** The ports of the first n records that hold theirs. */
  function HeldPorts(all: seq<Record>, n: nat): set<int>
    requires n <= |all|
  {
    set i | 0 <= i < n && all[i].portHeld :: all[i].hostPort
  }

  lemma {:induction false} PortsBalance(s: Server, n: nat)
    requires Inv(s) && n <= |s.all|
    ensures |HeldPorts(s.all, n)| + TotalFrees(s.all[..n]) == n
  {
    if n == 0 {
      assert HeldPorts(s.all, 0) == {};
    } else {
      var r := s.all[n - 1];
      PortsBalance(s, n - 1);
      assert RecordOk(s, r);
      assert s.all[..n][..n - 1] == s.all[..n - 1];
      if r.portHeld {
        assert HeldPorts(s.all, n) == HeldPorts(s.all, n - 1) + {r.hostPort};
        assert forall i :: 0 <= i < n - 1 && s.all[i].portHeld ==> s.all[i].hostPort != r.hostPort;
      } else {
        assert HeldPorts(s.all, n) == HeldPorts(s.all, n - 1);
      }
    }
  }

  /**
   * Ports are conserved over every interleaving: a claim is given back at most once, exactly once if the
   * record no longer holds it, and the claims not given back are exactly the ports in the pool.
   */
  lemma {:induction false} PortsAreConserved(low: int, high: int, events: seq<Event>)
    ensures var s := Run(low, high, events);
            && |s.held| + TotalFrees(s.all) == |s.all|
            && forall i :: 0 <= i < |s.all| ==>
                 && s.all[i].frees == (if s.all[i].portHeld then 0 else 1)
                 && (s.all[i].portHeld ==> s.all[i].hostPort in s.held)
  {
    RunKeeps(Initial(low, high), events);
    var s := Run(low, high, events);
    PortsBalance(s, |s.all|);
    assert s.all[..|s.all|] == s.all;
    forall p ensures p in HeldPorts(s.all, |s.all|) <==> p in s.held {
    }
    assert HeldPorts(s.all, |s.all|) == s.held;
    assert forall i :: 0 <= i < |s.all| ==> RecordOk(s, s.all[i]);
  }

  /** In every reachable state every live preview holds a port of the range that no other record holds. */
  lemma {:induction false} LivePreviewOwnsItsPort(low: int, high: int, events: seq<Event>, i: nat, j: nat)
    requires var s := Run(low, high, events);
             i < |s.all| && j < |s.all| && i != j && IsLive(s.all[i]) && s.all[j].portHeld
    ensures var s := Run(low, high, events);
            s.all[i].hostPort in s.held && s.all[i].hostPort != s.all[j].hostPort
  {
    RunKeeps(Initial(low, high), events);
    var s := Run(low, high, events);
    assert RecordOk(s, s.all[i]);
  }

  /**
   * Whenever a port has passed from one record to another, no container of the first can still come up,
   * and one that is still up was given up on: the port was freed on the failure path, or the removal
   * that its stop had waited for did not remove it.
   */
  lemma {:induction false} ReusedPortIsSafe(low: int, high: int, events: seq<Event>, i: nat, j: nat)
    requires var s := Run(low, high, events);
             i < |s.all| && j < |s.all| && i != j && s.all[j].portHeld && s.all[i].hostPort == s.all[j].hostPort
    ensures var r := Run(low, high, events).all[i];
            && !r.portHeld && r.launch != AwaitStart
            && (r.container == Up ==> r.freed == ByFailure || r.teardown == TornDown(false))
  {
    RunKeeps(Initial(low, high), events);
    var s := Run(low, high, events);
    assert RecordOk(s, s.all[i]);
  }

  /**
   * Both exceptions are real. From any reachable state in which a stop awaits its removal, the next two
   * steps free the port and hand it to another project, and the old container is then still up exactly
   * when it was up and the removal left it: the port is freed whatever the removal answered.
   */
  lemma StopReusesWhileUpIff(s: Server, i: nat, up: bool, project: ProjectId)
    requires Inv(s) && i < |s.all| && s.all[i].teardown == AwaitRemoval && s.all[i].portHeld
    requires forall p :: s.low <= p < s.all[i].hostPort ==> p in s.held
    requires project !in s.current
    ensures var t := AfterStart(AfterTeardownStep(s, i, up), project, true);
            && |t.all| == |s.all| + 1 && t.all[i].freed == ByStop
            && t.all[|s.all|].portHeld && t.all[|s.all|].hostPort == t.all[i].hostPort
            && (t.all[i].container == Up <==> s.all[i].container == Up && up)
  {
    assert RecordOk(s, s.all[i]);
    var u := AfterTeardownStep(s, i, up);
    var port := s.all[i].hostPort;
    assert port !in u.held;
    assert forall p :: s.low <= p < port ==> p in u.held;
  }

  /** Once nothing is left to run for a record that is not live, its port is back in the pool. */
  lemma {:induction false} NoPortLeaks(low: int, high: int, events: seq<Event>, i: nat)
    requires var s := Run(low, high, events);
             && i < |s.all| && !IsLive(s.all[i]) && s.all[i].launch == Settled
             && (s.all[i].teardown == NotStopped || s.all[i].teardown.TornDown?)
             && forall c :: c in s.checks ==> s.checks[c].record != i
    ensures !Run(low, high, events).all[i].portHeld
  {
    RunKeeps(Initial(low, high), events);
    var s := Run(low, high, events);
    assert RecordOk(s, s.all[i]);
  }

  /** start refuses for want of a port only when the whole range is held, and otherwise takes the least free one. */
  lemma StartTakesLeastFreePort(low: int, high: int, events: seq<Event>, project: ProjectId)
    requires var s := Run(low, high, events); project in s.current ==> !IsLive(s.all[s.current[project]])
    ensures var s, t := Run(low, high, events), AfterStart(Run(low, high, events), project, true);
            if t == s then forall p :: low <= p <= high ==> p in s.held
            else && |t.all| == |s.all| + 1 && t.all[|s.all|].hostPort !in s.held
                 && forall p :: low <= p < t.all[|s.all|].hostPort ==> p in s.held
  {
    RunKeeps(Initial(low, high), events);
    RangeIsFixed(Initial(low, high), events);
  }

  lemma {:induction false} RangeIsFixed(s: Server, events: seq<Event>)
    requires Inv(s)
    ensures RunFrom(s, events).low == s.low && RunFrom(s, events).high == s.high
    decreases events
  {
    if events != [] {
      StepKeeps(s, events[0]);
      StepKeepsRange(s, events[0]);
      RangeIsFixed(Step(s, events[0]), events[1..]);
    }
  }

  lemma StepKeepsRange(s: Server, e: Event)
    requires CurrentOk(s)
    ensures Step(s, e).low == s.low && Step(s, e).high == s.high
  {
  }

  /**
   * On the failure path: from any reachable state in which a launch has failed and awaits its logs, the
   * next two steps free its port and can hand it to another project while the failed container, as it
   * was, is still to be removed.
   */
  lemma {:induction false} FailurePathReusesEarly(s: Server, i: nat, up: bool, project: ProjectId)
    requires Inv(s) && i < |s.all| && s.all[i].launch == FailLogs && s.all[i].phase == Failed && s.all[i].portHeld
    requires forall p :: s.low <= p < s.all[i].hostPort ==> p in s.held
    requires project in s.current ==> s.all[s.current[project]].phase == Failed
    ensures var t := AfterStart(AfterLaunchStep(s, i, Neutral, up), project, true);
            && |t.all| == |s.all| + 1 && t.all[i].launch == FailRemove && t.all[i].freed == ByFailure
            && t.all[i].container == s.all[i].container
            && t.all[|s.all|].phase == Starting && t.all[|s.all|].portHeld
               && t.all[|s.all|].hostPort == t.all[i].hostPort
  {
    assert RecordOk(s, s.all[i]);
    var u := AfterLaunchStep(s, i, Neutral, up);
    var port := s.all[i].hostPort;
    assert port !in u.held;
    assert forall p :: s.low <= p < port ==> p in u.held;
  }
}
