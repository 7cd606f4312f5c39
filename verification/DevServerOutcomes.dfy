/**
 * What each answer of the container runtime and the probe does to a preview: which one makes it run, which
 * make it fail, and what stops it and frees its port. Single steps first, then whole runs.
 */
module DevServerOutcomes {
  import opened Strings
  import opened DevServer
  import opened DevServerProofs

  /** A step on record i leaves all other records, and what projects point to, as they were. */
  ghost predicate OthersStay(s: Server, t: Server, i: nat) {
    && |t.all| == |s.all| && t.current == s.current
    && forall j :: 0 <= j < |s.all| && j != i ==> t.all[j] == s.all[j]
  }

  // ---------------------------------------------------------------- launching

  /**
   * A launch that is under way makes its preview run exactly when the probe answers, and fail exactly on a
   * fatal answer at any of its waits or a start that did not succeed. Any other answer leaves it starting,
   * at the next wait. In every case it still holds its port.
   */
  lemma LaunchOutcome(s: Server, i: nat, answer: Answer, leftUp: bool)
    requires Inv(s) && i < |s.all| && s.all[i].phase == Starting
    ensures var r, t := s.all[i], Step(s, LaunchStep(i, answer, leftUp));
            && OthersStay(s, t, i) && t.checks == s.checks && t.held == s.held
            && t.all[i].portHeld && t.all[i].hostPort == r.hostPort && t.all[i].hostPort in t.held
            && (t.all[i].phase == Running <==> r.launch == AwaitProbe && answer == Good)
            && (t.all[i].phase == Failed <==> answer == Bad || (r.launch == AwaitStart && answer == Neutral))
            && (t.all[i].phase == Running ==> t.all[i].launch == Settled)
            && (t.all[i].phase == Failed ==> t.all[i].launch == FailLogs)
            && (t.all[i].phase == Starting ==> t.all[i].launch == NextWait(r.launch))
            && t.all[i].phase != Stopped
    ensures var r, t := s.all[i], Step(s, LaunchStep(i, answer, leftUp));
            t.all[i].container == if r.launch == AwaitStart && (answer == Good || leftUp) then Up else r.container
  {
    assert RecordOk(s, s.all[i]);
  }

  /** After the start the launch goes round: probe, status, sleep, and the probe again. */
  function NextWait(wait: Wait): Wait {
    match wait
    case AwaitStart => AwaitProbe
    case AwaitProbe => AwaitStatus
    case AwaitStatus => AwaitSleep
    case AwaitSleep => AwaitProbe
    case _ => Settled
  }

  /** A stopped preview stays stopped whatever its launch still hears, and the launch settles in two steps at most. */
  lemma {:induction false} StoppedLaunchSettles(s: Server, i: nat, first: Answer, second: Answer, up: bool)
    requires Inv(s) && i < |s.all| && s.all[i].phase == Stopped
    ensures var t := Step(s, LaunchStep(i, first, up));
            && t.all[i].phase == Stopped && t.held == s.held && OthersStay(s, t, i)
            && (s.all[i].launch != AwaitStatus && (s.all[i].launch != AwaitSleep || first != Bad) ==>
                  t.all[i].launch == Settled)
    ensures var t := Launched(Launched(s.all[i], first, up), second, up);
            t.phase == Stopped && t.launch == Settled
  {
    assert RecordOk(s, s.all[i]);
  }

  /** A failed launch gives its port back when it has its logs, and is over once its container's removal settles. */
  lemma FailedLaunchFrees(s: Server, i: nat, answer: Answer, up: bool)
    requires Inv(s) && i < |s.all| && s.all[i].phase == Failed && s.all[i].launch in {FailLogs, FailRemove}
    ensures var t := Step(s, LaunchStep(i, answer, up));
            && OthersStay(s, t, i) && t.all[i].phase == Failed
            && (s.all[i].launch == FailLogs ==>
                  && t.all[i].launch == FailRemove && !t.all[i].portHeld
                  && (s.all[i].portHeld ==> s.all[i].hostPort !in t.held))
            && (s.all[i].launch == FailRemove ==>
                  && t.all[i].launch == Settled && t.held == s.held
                  && t.all[i].container == if up then s.all[i].container else Gone)
  {
    assert RecordOk(s, s.all[i]);
  }

  // ---------------------------------------------------------------- liveness checks

  /** A check begins exactly for a project whose preview runs, and awaits the status of that preview. */
  lemma CheckBegins(s: Server, project: ProjectId)
    requires Inv(s)
    ensures var t := Step(s, CheckLiveness(project));
            && t.all == s.all && t.held == s.held && t.current == s.current
            && t.checks == if project in s.current && s.all[s.current[project]].phase == Running
                           then s.checks[s.nextCheck := Check(s.current[project], AwaitStatus)] else s.checks
  {
  }

  /** A running preview fails exactly on a fatal status; any other one ends the check and changes nothing else. */
  lemma CheckOutcome(s: Server, c: nat, status: Answer, up: bool)
    requires Inv(s) && c in s.checks && s.checks[c].wait == AwaitStatus
    requires s.all[s.checks[c].record].phase == Running
    ensures var i, t := s.checks[c].record, Step(s, CheckStep(c, status, up));
            && OthersStay(s, t, i) && t.held == s.held && t.all[i].portHeld
            && (t.all[i].phase == Failed <==> status == Bad) && (t.all[i].phase == Running <==> status != Bad)
            && (status == Bad ==> t.checks == s.checks[c := Check(i, FailLogs)])
            && (status != Bad ==> t.checks == s.checks - {c} && t.all == s.all)
  {
    assert RecordOk(s, s.all[s.checks[c].record]);
  }

  /** A check that found its preview dead gives the port back when it has the logs, then awaits the removal and ends. */
  lemma FailedCheckFrees(s: Server, c: nat, status: Answer, up: bool)
    requires Inv(s) && c in s.checks && s.checks[c].wait in {FailLogs, FailRemove}
    requires s.all[s.checks[c].record].phase == Failed
    ensures var i, t := s.checks[c].record, Step(s, CheckStep(c, status, up));
            && OthersStay(s, t, i) && t.all[i].phase == Failed
            && (s.checks[c].wait == FailLogs ==>
                  t.checks == s.checks[c := Check(i, FailRemove)] && !t.all[i].portHeld
                  && (s.all[i].portHeld ==> s.all[i].hostPort !in t.held))
            && (s.checks[c].wait == FailRemove ==>
                  t.checks == s.checks - {c} && t.held == s.held
                  && t.all[i].container == if up then s.all[i].container else Gone)
  {
    assert RecordOk(s, s.all[s.checks[c].record]);
  }

  // ---------------------------------------------------------------- starting and stopping

  ghost predicate HasLivePreview(s: Server, project: ProjectId)
    requires CurrentOk(s)
  {
    project in s.current && s.all[s.current[project]].phase in {Starting, Running}
  }

  /** A start begins a new preview exactly if there is none that lives, it can be prepared and some port is free. */
  lemma StartOutcome(s: Server, project: ProjectId, startable: bool)
    requires Inv(s)
    ensures var t := Step(s, Start(project, startable));
            && (t != s <==> !HasLivePreview(s, project) && startable
                            && exists p :: s.low <= p <= s.high && p !in s.held)
            && (t != s ==>
                  && |t.all| == |s.all| + 1 && t.all[..|s.all|] == s.all && t.checks == s.checks
                  && t.current == s.current[project := |s.all|]
                  && t.all[|s.all|].project == project && t.all[|s.all|].phase == Starting
                  && t.all[|s.all|].launch == AwaitStart && t.all[|s.all|].portHeld
                  && t.held == s.held + {t.all[|s.all|].hostPort} && t.all[|s.all|].hostPort !in s.held)
  {
    var t := Step(s, Start(project, startable));
    if t != s { assert t.all[..|s.all|] == s.all; }
  }

  /** A stop ends the project's preview, whatever its phase, and keeps the port until the teardown is through. */
  lemma StopOutcome(s: Server, project: ProjectId)
    requires Inv(s)
    ensures var t := Step(s, Stop(project));
            && |t.all| == |s.all| && t.held == s.held && t.checks == s.checks && t.current == s.current - {project}
            && (project !in s.current ==> t == s)
            && (project in s.current ==>
                  var i := s.current[project];
                  t.all == s.all[i := s.all[i].(phase := Stopped, teardown := AwaitLaunch)])
  {
    if project !in s.current { assert s.current - {project} == s.current; }
  }

  /** The teardown awaits the launch, then the removal, and then the port is free, whatever the removal did. */
  lemma TeardownOutcome(s: Server, i: nat, up: bool)
    requires Inv(s) && i < |s.all| && s.all[i].phase == Stopped
    ensures var r, t := s.all[i], Step(s, TeardownStep(i, up));
            && OthersStay(s, t, i)
            && (r.teardown == AwaitLaunch ==>
                  && t.held == s.held
                  && t.all[i].teardown == if r.launch == Settled then AwaitRemoval else AwaitLaunch)
            && (r.teardown == AwaitRemoval ==>
                  && t.all[i].teardown == TornDown(!up) && !t.all[i].portHeld
                  && (r.portHeld ==> r.hostPort !in t.held)
                  && t.all[i].container == if up then r.container else Gone)
  {
    assert RecordOk(s, s.all[i]);
  }

  // ---------------------------------------------------------------- whole runs

  /** Record i is still to be started, or is starting. */
  predicate NotYet(s: Server, i: nat) {
    i < |s.all| ==> s.all[i].phase == Starting
  }

  /** The step is the answer of the probe that record i awaits. */
  predicate Probed(s: Server, e: Event, i: nat) {
    && e.LaunchStep? && e.launched == i && e.answer == Good
    && i < |s.all| && s.all[i].phase == Starting && s.all[i].launch == AwaitProbe
  }

  lemma StopOutcomeAt(s: Server, project: ProjectId, i: nat)
    requires Inv(s) && i < |Step(s, Stop(project)).all|
    ensures i < |s.all| && Step(s, Stop(project)).all[i].phase in {s.all[i].phase, Stopped}
  {
    StopOutcome(s, project);
  }

  /** A step of a check fails a record at most, and only the running one it checks and finds dead. */
  lemma CheckTouches(s: Server, c: nat, status: Answer, up: bool, i: nat)
    requires c in s.checks && s.checks[c].record < |s.all| && i < |AfterCheckStep(s, c, status, up).all|
    ensures var t := AfterCheckStep(s, c, status, up);
            && i < |s.all|
            && (t.all[i].phase == s.all[i].phase
                || (t.all[i].phase == Failed && s.checks[c] == Check(i, AwaitStatus) && status == Bad))
  {
  }

  lemma {:induction false} StepToRunning(s: Server, e: Event, i: nat)
    requires Inv(s) && NotYet(s, i) && i < |Step(s, e).all|
    ensures Step(s, e).all[i].phase == Running ==> Probed(s, e, i)
  {
    match e {
      case Start(_, _) =>
      case Stop(_) => StopOutcomeAt(s, e.stopped, i);
      case LaunchStep(id, answer, up) => if id == i < |s.all| { LaunchOutcome(s, i, answer, up); }
      case CheckLiveness(project) => CheckBegins(s, project);
      case CheckStep(c, status, up) => if c in s.checks { CheckTouches(s, c, status, up, i); }
      case TeardownStep(_, _) =>
    }
  }

  /** Over every run: a preview runs only if the run holds an answer of the probe that it was awaiting. */
  lemma {:induction false} RunningWasProbed(s: Server, events: seq<Event>, i: nat) returns (k: nat)
    requires Inv(s) && NotYet(s, i) && i < |RunFrom(s, events).all| && RunFrom(s, events).all[i].phase == Running
    ensures k < |events| && Probed(RunFrom(s, events[..k]), events[k], i)
    decreases events
  {
    var next := Step(s, events[0]);
    StepKeeps(s, events[0]);
    if i < |next.all| { RunMovesForward(next, events[1..], i); }
    if i < |next.all| && next.all[i].phase == Running {
      StepToRunning(s, events[0], i);
      assert events[..0] == [];
      k := 0;
    } else {
      var j := RunningWasProbed(next, events[1..], i);
      assert events[..j + 1][1..] == events[1..][..j] && events[..j + 1][0] == events[0];
      k := j + 1;
    }
  }

  /** The step gives record i a fatal answer: to its launch, its start or a check of it. */
  predicate Fatal(s: Server, e: Event, i: nat) {
    && i < |s.all|
    && (|| (e.LaunchStep? && e.launched == i && s.all[i].phase == Starting
            && (e.answer == Bad || (s.all[i].launch == AwaitStart && e.answer != Good)))
        || (e.CheckStep? && e.check in s.checks && s.checks[e.check] == Check(i, AwaitStatus)
            && s.all[i].phase == Running && e.status == Bad))
  }

  predicate NotFailedYet(s: Server, i: nat) {
    i < |s.all| ==> s.all[i].phase in {Starting, Running}
  }

  lemma {:induction false} StepToFailed(s: Server, e: Event, i: nat)
    requires Inv(s) && NotFailedYet(s, i) && i < |Step(s, e).all|
    ensures Step(s, e).all[i].phase == Failed ==> Fatal(s, e, i)
  {
    match e {
      case Start(_, _) =>
      case Stop(_) => StopOutcomeAt(s, e.stopped, i);
      case LaunchStep(id, answer, up) =>
        if id == i < |s.all| && s.all[i].phase == Starting { LaunchOutcome(s, i, answer, up); }
        if id == i < |s.all| { assert RecordOk(s, s.all[i]); }
      case CheckLiveness(project) => CheckBegins(s, project);
      case CheckStep(c, status, up) => if c in s.checks { CheckTouches(s, c, status, up, i); }
      case TeardownStep(_, _) =>
    }
  }

  /** Over every run: a preview has failed only if the run holds a fatal answer it got while it lived. */
  lemma {:induction false} FailedHadCause(s: Server, events: seq<Event>, i: nat) returns (k: nat)
    requires Inv(s) && NotFailedYet(s, i) && i < |RunFrom(s, events).all| && RunFrom(s, events).all[i].phase == Failed
    ensures k < |events| && Fatal(RunFrom(s, events[..k]), events[k], i)
    decreases events
  {
    var next := Step(s, events[0]);
    StepKeeps(s, events[0]);
    if i < |next.all| { RunMovesForward(next, events[1..], i); }
    if i < |next.all| && next.all[i].phase == Failed {
      StepToFailed(s, events[0], i);
      assert events[..0] == [];
      k := 0;
    } else {
      var j := FailedHadCause(next, events[1..], i);
      assert events[..j + 1][1..] == events[1..][..j] && events[..j + 1][0] == events[0];
      k := j + 1;
    }
  }
}
