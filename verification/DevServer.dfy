/**
 * Dev-server previews around one shared pool of host ports
 * (src/project/container-dev-server.js).
 *
 * Every await is a step boundary: a launch, a liveness check and a teardown are tasks with
 * a program counter, and any task may take the next step. What the container runtime, the
 * probe and the clock answer is an input of the step, and so is whether a call that starts
 * or removes a container really left it up, which its answer need not tell.
 */
module DevServer {
  import opened Strings

  type ProjectId = string
  type RecordId = nat

  datatype Phase = Starting | Running | Failed | Stopped

  /** Where an asynchronous task waits. The Await states belong to launch(), the Fail states to markFailed(). */
  datatype Wait = AwaitStart | AwaitProbe | AwaitStatus | AwaitSleep | FailLogs | FailRemove | Settled

  /** The teardown ends when its removal settles, whether that removed the container or not. */
  datatype Teardown = NotStopped | AwaitLaunch | AwaitRemoval | TornDown(removed: bool)

  /** Who gave the port back. */
  datatype Freed = NotFreed | ByFailure | ByStop

  /** A container that is up may publish its port. */
  datatype Container = Absent | Up | Gone

  /** One start. portHeld is the source's flag; freed and frees record the releases, container the runtime's side. */
  datatype Record = Record(project: ProjectId, phase: Phase, hostPort: int, portHeld: bool,
                           launch: Wait, teardown: Teardown, freed: Freed, frees: nat, container: Container)

  datatype Check = Check(record: RecordId, wait: Wait)

  /** All records ever started, and the one each project currently has. */
  datatype Server = Server(low: int, high: int, current: map<ProjectId, RecordId>, all: seq<Record>, held: set<int>,
                           checks: map<nat, Check>, nextCheck: nat)

  /** What an awaited call answers: the hoped-for answer, a fatal one, or neither. */
  datatype Answer = Good | Bad | Neutral

  datatype Event =
    | Start(project: ProjectId, startable: bool)
    | Stop(stopped: ProjectId)
    | LaunchStep(launched: RecordId, answer: Answer, leftUp: bool)
    | CheckLiveness(checked: ProjectId)
    | CheckStep(check: nat, status: Answer, staysUp: bool)
    | TeardownStep(torn: RecordId, survives: bool)

  predicate IsLive(r: Record) {
    r.phase == Starting || r.phase == Running
  }

  // ---------------------------------------------------------------- ports

  /** The least port of the range not held. */
  function LeastFree(held: set<int>, low: int, high: int): (port: Option<int>)
    ensures port.None? <==> forall p :: low <= p <= high ==> p in held
    ensures port.Some? ==> low <= port.value <= high && port.value !in held
                           && (forall p :: low <= p < port.value ==> p in held)
    decreases high - low
  {
    if low > high then None
    else if low !in held then Some(low)
    else LeastFree(held, low + 1, high)
  }

  /** releasePort: once per record. */
  function Freeing(r: Record, how: Freed): Record {
    if r.portHeld then r.(portHeld := false, freed := how, frees := r.frees + 1) else r
  }

  /** Replaces one record; a port it lets go returns to the pool. */
  function Put(s: Server, id: RecordId, r: Record): Server
    requires id < |s.all|
  {
    s.(all := s.all[id := r],
       held := if s.all[id].portHeld && !r.portHeld then s.held - {s.all[id].hostPort} else s.held)
  }

  // ---------------------------------------------------------------- one step of a record

  /** markFailed up to its first await, as the launch task runs it. */
  function FailedLaunch(r: Record): Record {
    if r.phase == Stopped then r.(launch := Settled) else r.(phase := Failed, launch := FailLogs)
  }

  function Polling(r: Record): Record {
    r.(launch := if r.phase == Stopped then Settled else AwaitProbe)
  }

  /** The container after a call that removes it: still as it was, or gone. */
  function AfterRemoval(r: Record, up: bool): Record {
    if up then r else r.(container := Gone)
  }

  /** The container after startService: up if that succeeds, and perhaps up although it reports a failure. */
  function AfterRun(r: Record, answer: Answer, up: bool): Record {
    if answer == Good || up then r.(container := Up) else r
  }

  /** The launch task resumes. */
  function Launched(r: Record, answer: Answer, up: bool): Record {
    match r.launch
    case AwaitStart =>
      if answer == Good then Polling(AfterRun(r, answer, up)) else FailedLaunch(AfterRun(r, answer, up))
    case AwaitProbe =>
      if r.phase == Stopped then r.(launch := Settled)
      else if answer == Good then r.(phase := Running, launch := Settled)
      else if answer == Bad then FailedLaunch(r)
      else r.(launch := AwaitStatus)
    case AwaitStatus => if answer == Bad then FailedLaunch(r) else r.(launch := AwaitSleep)
    case AwaitSleep => if answer == Bad then FailedLaunch(r) else Polling(r)
    case FailLogs =>
      if r.phase == Stopped then r.(launch := Settled) else Freeing(r, ByFailure).(launch := FailRemove)
    case FailRemove => AfterRemoval(r, up).(launch := Settled)
    case Settled => r
  }

  /** stop() waits for the launch to settle, then for the removal to settle either way, and only then frees the port. */
  function Torn(r: Record, up: bool): Record {
    match r.teardown
    case AwaitLaunch => if r.launch == Settled then r.(teardown := AwaitRemoval) else r
    case AwaitRemoval => AfterRemoval(Freeing(r, ByStop), up).(teardown := TornDown(!up))
    case _ => r
  }

  // ---------------------------------------------------------------- one step of the server

  function AfterStart(s: Server, project: ProjectId, startable: bool): Server
    requires forall p :: p in s.current ==> s.current[p] < |s.all|
  {
    if project in s.current && IsLive(s.all[s.current[project]]) then s
    else if !startable then s
    else
      match LeastFree(s.held, s.low, s.high)
      case None => s
      case Some(port) =>
        s.(held := s.held + {port},
           all := s.all + [Record(project, Starting, port, true, AwaitStart, NotStopped, NotFreed, 0, Absent)],
           current := s.current[project := |s.all|])
  }

  function AfterStop(s: Server, project: ProjectId): Server
    requires forall p :: p in s.current ==> s.current[p] < |s.all|
  {
    if project !in s.current then s
    else
      var id := s.current[project];
      Put(s, id, s.all[id].(phase := Stopped, teardown := AwaitLaunch)).(current := s.current - {project})
  }

  function AfterLaunchStep(s: Server, id: RecordId, answer: Answer, up: bool): Server {
    if id < |s.all| then Put(s, id, Launched(s.all[id], answer, up)) else s
  }

  function AfterCheckLiveness(s: Server, project: ProjectId): Server
    requires forall p :: p in s.current ==> s.current[p] < |s.all|
  {
    if project !in s.current || s.all[s.current[project]].phase != Running then s
    else s.(checks := s.checks[s.nextCheck := Check(s.current[project], AwaitStatus)], nextCheck := s.nextCheck + 1)
  }

  function EndCheck(s: Server, check: nat): Server {
    s.(checks := s.checks - {check})
  }

  function AfterCheckStep(s: Server, check: nat, status: Answer, up: bool): Server {
    if check !in s.checks || s.checks[check].record >= |s.all| then s else
    var id := s.checks[check].record;
    match s.checks[check].wait
    case AwaitStatus =>
      if status != Bad || s.all[id].phase == Stopped then EndCheck(s, check)
      else Put(s, id, s.all[id].(phase := Failed)).(checks := s.checks[check := Check(id, FailLogs)])
    case FailLogs =>
      if s.all[id].phase == Stopped then EndCheck(s, check)
      else Put(s, id, Freeing(s.all[id], ByFailure)).(checks := s.checks[check := Check(id, FailRemove)])
    case FailRemove => EndCheck(Put(s, id, AfterRemoval(s.all[id], up)), check)
    case _ => EndCheck(s, check)
  }

  function AfterTeardownStep(s: Server, id: RecordId, up: bool): Server {
    if id < |s.all| then Put(s, id, Torn(s.all[id], up)) else s
  }

  function Step(s: Server, e: Event): Server
    requires forall p :: p in s.current ==> s.current[p] < |s.all|
  {
    match e
    case Start(project, startable) => AfterStart(s, project, startable)
    case Stop(project) => AfterStop(s, project)
    case LaunchStep(id, answer, up) => AfterLaunchStep(s, id, answer, up)
    case CheckLiveness(project) => AfterCheckLiveness(s, project)
    case CheckStep(check, status, up) => AfterCheckStep(s, check, status, up)
    case TeardownStep(id, up) => AfterTeardownStep(s, id, up)
  }

  // ---------------------------------------------------------------- the server object

  class Manager {
    const low: int
    const high: int
    var current: map<ProjectId, RecordId>
    var all: seq<Record>
    var held: set<int>
    var checks: map<nat, Check>
    var nextCheck: nat

    ghost function State(): Server
      reads this
    {
      Server(low, high, current, all, held, checks, nextCheck)
    }

    ghost predicate Known()
      reads this
    {
      forall p :: p in current ==> current[p] < |all|
    }

    constructor (low: int, high: int)
      requires 1 <= low <= high <= 65_535
      ensures State() == Server(low, high, map[], [], {}, map[], 0)
    {
      this.low, this.high := low, high;
      current, all, held, checks, nextCheck := map[], [], {}, map[], 0;
    }

    method ClaimPort() returns (port: Option<int>)
      modifies this`held
      ensures port == LeastFree(old(held), low, high)
      ensures held == if port.Some? then old(held) + {port.value} else old(held)
    {
      var p := low;
      while p <= high
        invariant LeastFree(held, low, high) == LeastFree(held, p, high)
        decreases high - p
      {
        if p !in held {
          held := held + {p};
          return Some(p);
        }
        p := p + 1;
      }
      return None;
    }

    method ReleasePort(id: RecordId, how: Freed)
      requires id < |all|
      modifies this`held, this`all
      ensures State() == Put(old(State()), id, Freeing(old(all[id]), how))
    {
      var r := all[id];
      if r.portHeld {
        held := held - {r.hostPort};
        all := all[id := r.(portHeld := false, freed := how, frees := r.frees + 1)];
      }
    }

    method StartProject(project: ProjectId, startable: bool) returns (port: Option<int>)
      requires Known()
      modifies this
      ensures Known() && State() == AfterStart(old(State()), project, startable)
      ensures port.Some? ==>
                && project in current && IsLive(all[current[project]])
                && all[current[project]].hostPort == port.value
    {
      if project in current && IsLive(all[current[project]]) { return Some(all[current[project]].hostPort); }
      if !startable { return None; }
      port := ClaimPort();
      if port.None? { return None; }
      current := current[project := |all|];
      all := all + [Record(project, Starting, port.value, true, AwaitStart, NotStopped, NotFreed, 0, Absent)];
    }

    method StopProject(project: ProjectId) returns (wasLive: bool)
      requires Known()
      modifies this
      ensures Known() && State() == AfterStop(old(State()), project)
    {
      if project !in current { return false; }
      var id := current[project];
      wasLive := IsLive(all[id]);
      all := all[id := all[id].(phase := Stopped, teardown := AwaitLaunch)];
      current := current - {project};
    }

    /** markFailed, first part; true when it goes on to await the logs. */
    method MarkFailed(id: RecordId) returns (goesOn: bool)
      requires id < |all|
      modifies this`all
      ensures goesOn == (old(all[id].phase) != Stopped)
      ensures all == if goesOn then old(all)[id := old(all[id]).(phase := Failed)] else old(all)
    {
      if all[id].phase == Stopped { return false; }
      all := all[id := all[id].(phase := Failed)];
      return true;
    }

    /** The launch task resumes after an await. */
    method ResumeLaunch(id: RecordId, answer: Answer, up: bool)
      requires id < |all|
      modifies this
      ensures State() == AfterLaunchStep(old(State()), id, answer, up)
    {
      var fails, next := false, Settled;
      match all[id].launch {
        case AwaitStart =>
          all := all[id := AfterRun(all[id], answer, up)];
          fails := answer != Good;
          next := if all[id].phase == Stopped then Settled else AwaitProbe;
        case AwaitProbe =>
          if all[id].phase != Stopped {
            if answer == Good {
              all := all[id := all[id].(phase := Running)];
            } else if answer == Bad {
              fails := true;
            } else {
              next := AwaitStatus;
            }
          }
        case AwaitStatus =>
          fails, next := answer == Bad, AwaitSleep;
        case AwaitSleep =>
          fails := answer == Bad;
          next := if all[id].phase == Stopped then Settled else AwaitProbe;
        case FailLogs =>
          if all[id].phase != Stopped {
            ReleasePort(id, ByFailure);
            next := FailRemove;
          }
        case FailRemove =>
          all := all[id := AfterRemoval(all[id], up)];
        case Settled =>
      }
      if fails {
        var goesOn := MarkFailed(id);
        next := if goesOn then FailLogs else Settled;
      }
      all := all[id := all[id].(launch := next)];
    }

    method BeginCheck(project: ProjectId)
      requires Known()
      modifies this
      ensures State() == AfterCheckLiveness(old(State()), project)
    {
      if project !in current || all[current[project]].phase != Running { return; }
      checks := checks[nextCheck := Check(current[project], AwaitStatus)];
      nextCheck := nextCheck + 1;
    }

    /** A liveness check resumes after an await. */
    method ResumeCheck(check: nat, status: Answer, up: bool)
      requires check in checks && checks[check].record < |all|
      modifies this
      ensures State() == AfterCheckStep(old(State()), check, status, up)
    {
      var id := checks[check].record;
      match checks[check].wait {
        case AwaitStatus =>
          if status == Bad {
            var goesOn := MarkFailed(id);
            if goesOn {
              checks := checks[check := Check(id, FailLogs)];
              return;
            }
          }
        case FailLogs =>
          if all[id].phase != Stopped {
            ReleasePort(id, ByFailure);
            checks := checks[check := Check(id, FailRemove)];
            return;
          }
        case FailRemove =>
          all := all[id := AfterRemoval(all[id], up)];
        case _ =>
      }
      checks := checks - {check};
    }

    /** The teardown chain of a stop resumes: the launch settled, or the removal did, one way or the other. */
    method ResumeTeardown(id: RecordId, up: bool)
      requires id < |all|
      modifies this
      ensures State() == AfterTeardownStep(old(State()), id, up)
    {
      match all[id].teardown {
        case AwaitLaunch =>
          if all[id].launch == Settled {
            all := all[id := all[id].(teardown := AwaitRemoval)];
          }
        case AwaitRemoval =>
          all := all[id := AfterRemoval(all[id], up).(teardown := TornDown(!up))];
          ReleasePort(id, ByStop);
        case _ =>
      }
    }
  }
}
