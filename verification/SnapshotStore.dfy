/**
 * Snapshots as Git commits with an out-of-tree registry (src/persistence/snapshot-store.js).
 *
 * Git is a commit map, a branch and a working tree. Every Git or file-system call that can
 * fail does so on demand: the faults of each operation are an input. A commit id is
 * content-addressed, so a repeated id stands for the same tree and parent.
 */
module SnapshotStore {
  import opened Strings
  import opened TreeCodec
  import opened PersistenceStore

  type Sha = string

  datatype Trigger = TurnPass | Explicit
  datatype Commit = Commit(tree: Tree, parent: Option<Sha>)
  datatype Repo = Repo(commits: map<Sha, Commit>, head: Option<Sha>)
  datatype Snapshot = Snapshot(id: Sha, parentId: Option<Sha>, trigger: Trigger)

  /** One project: its repository if there is one, its working tree, its registry. */
  datatype State = State(repo: Option<Repo>, work: Tree, registry: seq<Snapshot>)

  /**
   * What goes wrong during a commit: creating the repository; reading HEAD before; staging and
   * committing, which may report a failure although the commit landed and HEAD moved; reading HEAD
   * after; appending to the registry; the Git step that rolls HEAD back. `residue` is the working
   * tree a failure leaves.
   */
  datatype CommitFaults = CommitFaults(initOk: bool, headBeforeOk: bool, commitOk: bool, commitLanded: bool,
                                       headAfterOk: bool, registryOk: bool, rollbackOk: bool, residue: Tree)

  datatype RestoreFaults = RestoreFaults(objectOk: bool, resetOk: bool, headMoved: bool, cleanOk: bool, residue: Tree)

  datatype CommitResult = Committed(snapshot: Snapshot) | SnapshotFailure | RegistryFailure(rolledBackTo: Option<Sha>)
  datatype RestoreResult = Restored(tree: map<Path, Contents>) | RestoreMissing | RestoreUnreadable | ResumeEmpty

  function Head(s: State): Option<Sha> {
    if s.repo.Some? then s.repo.value.head else None
  }

  predicate Registered(registry: seq<Snapshot>, id: Sha) {
    exists i :: 0 <= i < |registry| && registry[i].id == id
  }

  /** The tree Git records for these entries; nothing of Git's own is ever tracked. */
  function Tracked(entries: Entries): Tree {
    Visible(TreeOf(entries))
  }

  // ---------------------------------------------------------------- operations on a state

  function EnsuredRepo(s: State): Repo {
    if s.repo.Some? then s.repo.value else Repo(map[], None)
  }

  function CommitTo(repo: Repo, sha: Sha, tree: Tree): Repo {
    Repo(repo.commits[sha := Commit(tree, repo.head)], Some(sha))
  }

  function RolledBack(repo: Repo, tree: Tree, parent: Option<Sha>, f: CommitFaults): (Repo, Tree) {
    if !f.rollbackOk then (repo, f.residue)
    else if parent.Some? && parent.value in repo.commits then (repo.(head := parent), repo.commits[parent.value].tree)
    else (repo.(head := None), f.residue)
  }

  function AfterCommit(s: State, entries: Entries, trigger: Trigger, sha: Sha, f: CommitFaults): (State, CommitResult) {
    if !f.initOk then (s.(work := f.residue), SnapshotFailure)
    else
      var repo := EnsuredRepo(s);
      var parent := if f.headBeforeOk then repo.head else None;
      var tree := Tracked(entries);
      var landed := CommitTo(repo, sha, tree);
      if !f.commitOk then
        (s.(repo := Some(if f.commitLanded then landed else repo), work := f.residue), SnapshotFailure)
      else if !f.headAfterOk then (s.(repo := Some(landed), work := tree), SnapshotFailure)
      else if f.registryOk then
        var record := Snapshot(sha, parent, trigger);
        (State(Some(landed), tree, s.registry + [record]), Committed(record))
      else
        var (rolled, work) := RolledBack(landed, tree, parent, f);
        (s.(repo := Some(rolled), work := work), RegistryFailure(parent))
  }

  function AfterRestore(s: State, id: Sha, f: RestoreFaults): (State, RestoreResult) {
    if !Registered(s.registry, id) then (s, RestoreMissing)
    else if s.repo.None? then (s, RestoreUnreadable)
    else if !f.objectOk || id !in s.repo.value.commits then (s, RestoreUnreadable)
    else
      var reset := s.repo.value.(head := Some(id));
      if !f.resetOk then
        (s.(repo := Some(if f.headMoved then reset else s.repo.value), work := f.residue), RestoreUnreadable)
      else if !f.cleanOk then (s.(repo := Some(reset), work := f.residue), RestoreUnreadable)
      else
        var tree := s.repo.value.commits[id].tree;
        (s.(repo := Some(reset), work := tree), Restored(ReadBack(Visible(tree))))
  }

  /** deleteSnapshots: the registry first, then the repository; either removal may throw. */
  function AfterDelete(s: State, registryOk: bool, repoOk: bool): State {
    if !registryOk then s else State(if repoOk then None else s.repo, s.work, [])
  }

  // ---------------------------------------------------------------- the store object

  class Store {
    var repo: Option<Repo>
    var work: Tree
    var registry: seq<Snapshot>

    ghost function Now(): State
      reads this
    {
      State(repo, work, registry)
    }

    constructor ()
      ensures Now() == State(None, map[], [])
    {
      repo, work, registry := None, map[], [];
    }

    /** materializeTree: everything but .git goes, then the entries are written. */
    method MaterializeTree(entries: Entries)
      modifies this`work
      ensures work == TreeOf(entries)
    {
      work := map[];
      assert entries[..0] == [];
      for i := 0 to |entries|
        invariant work == TreeOf(entries[..i])
      {
        assert entries[..i + 1][..i] == entries[..i];
        work := work[entries[i].0 := FileBytes(entries[i].1)];
      }
      assert entries[..|entries|] == entries;
    }

    method RollbackHead(parent: Option<Sha>, f: CommitFaults)
      requires repo.Some?
      modifies this`repo, this`work
      ensures repo.Some? && (repo.value, work) == RolledBack(old(repo.value), old(work), parent, f)
    {
      if !f.rollbackOk {
        work := f.residue;
        return;
      }
      if parent.Some? && parent.value in repo.value.commits {
        work := repo.value.commits[parent.value].tree;
        repo := Some(repo.value.(head := parent));
      } else {
        repo := Some(repo.value.(head := None));
        work := f.residue;
      }
    }

    method CommitSnapshot(entries: Entries, trigger: Trigger, sha: Sha, f: CommitFaults) returns (r: CommitResult)
      modifies this
      ensures (Now(), r) == AfterCommit(old(Now()), entries, trigger, sha, f)
      ensures !r.Committed? ==> registry == old(registry)
    {
      if !f.initOk {
        work := f.residue;
        return SnapshotFailure;
      }
      if repo.None? { repo := Some(Repo(map[], None)); }
      var parent := if f.headBeforeOk then repo.value.head else None;
      MaterializeTree(entries);
      work := Visible(work);
      if f.commitOk || f.commitLanded {
        repo := Some(Repo(repo.value.commits[sha := Commit(work, repo.value.head)], Some(sha)));
      }
      if !f.commitOk {
        work := f.residue;
        return SnapshotFailure;
      }
      if !f.headAfterOk { return SnapshotFailure; }
      if !f.registryOk {
        RollbackHead(parent, f);
        return RegistryFailure(parent);
      }
      var record := Snapshot(sha, parent, trigger);
      registry := registry + [record];
      return Committed(record);
    }

    method Restore(id: Sha, f: RestoreFaults) returns (r: RestoreResult)
      modifies this`repo, this`work
      ensures (Now(), r) == AfterRestore(old(Now()), id, f)
    {
      var found := false;
      for i := 0 to |registry|
        invariant found <==> exists j :: 0 <= j < i && registry[j].id == id
      {
        if registry[i].id == id { found := true; }
      }
      if !found { return RestoreMissing; }
      if repo.None? { return RestoreUnreadable; }
      if !f.objectOk || id !in repo.value.commits { return RestoreUnreadable; }
      if !f.resetOk {
        if f.headMoved { repo := Some(repo.value.(head := Some(id))); }
        work := f.residue;
        return RestoreUnreadable;
      }
      var tree := repo.value.commits[id].tree;
      repo := Some(repo.value.(head := Some(id)));
      if !f.cleanOk {
        work := f.residue;
        return RestoreUnreadable;
      }
      work := tree;
      r := Restored(ReadBack(Visible(work)));
    }

    /** resume: the latest snapshot if there is one, else what the persistence store reads. */
    method Resume(persisted: Option<map<Path, Contents>>, f: RestoreFaults) returns (r: RestoreResult)
      modifies this`repo, this`work
      ensures registry != [] ==> (Now(), r) == AfterRestore(old(Now()), registry[|registry| - 1].id, f)
      ensures registry == [] ==>
                Now() == old(Now()) && r == if persisted.Some? then Restored(persisted.value) else ResumeEmpty
    {
      if registry != [] {
        r := Restore(registry[|registry| - 1].id, f);
        return;
      }
      return if persisted.Some? then Restored(persisted.value) else ResumeEmpty;
    }

    /** onTurnComplete: a snapshot on a PASS verdict and only then. */
    method OnTurnComplete(entries: Entries, verdict: string, sha: Sha, f: CommitFaults)
      returns (r: Option<CommitResult>)
      modifies this
      ensures verdict != "PASS" ==> r.None? && Now() == old(Now())
      ensures verdict == "PASS" ==> r.Some? && (Now(), r.value) == AfterCommit(old(Now()), entries, TurnPass, sha, f)
    {
      if verdict != "PASS" { return None; }
      var committed := CommitSnapshot(entries, TurnPass, sha, f);
      return Some(committed);
    }

    method DeleteSnapshots(registryOk: bool, repoOk: bool)
      modifies this
      ensures Now() == AfterDelete(old(Now()), registryOk, repoOk)
    {
      if !registryOk { return; }
      registry := [];
      if repoOk { repo := None; }
    }
  }

  // ---------------------------------------------------------------- agreement

  /** A state together with the tree each registered snapshot was committed with. */
  datatype World = World(state: State, saved: map<Sha, Tree>)

  datatype Op =
    | CommitOp(entries: Entries, trigger: Trigger, sha: Sha, faults: CommitFaults)
    | RestoreOp(id: Sha, how: RestoreFaults)
    | DeleteOp(registryOk: bool, repoOk: bool)

  /** Parents: the first record has none, every other names an earlier one. */
  ghost predicate Chained(registry: seq<Snapshot>) {
    forall i :: 0 <= i < |registry| ==>
      if i == 0 then registry[i].parentId == None
      else registry[i].parentId.Some? && Registered(registry[..i], registry[i].parentId.value)
  }

  /** Git and the registry agree. */
  ghost predicate Agree(s: State) {
    && (s.registry != [] <==> Head(s).Some?)
    && (Head(s).Some? ==> Registered(s.registry, Head(s).value))
    && (forall i :: 0 <= i < |s.registry| ==> s.registry[i].id in EnsuredRepo(s).commits)
    && Chained(s.registry)
  }

  /** Every registered commit still holds the tree it was given. */
  ghost predicate TreesKept(w: World) {
    forall i :: 0 <= i < |w.state.registry| ==>
      var id := w.state.registry[i].id;
      id in w.saved && id in EnsuredRepo(w.state).commits && EnsuredRepo(w.state).commits[id].tree == w.saved[id]
  }

  /** Content addressing: an id Git already has stands for the same tree and parent. */
  predicate Addressed(s: State, op: Op) {
    op.CommitOp? && op.sha in EnsuredRepo(s).commits ==>
      EnsuredRepo(s).commits[op.sha] == Commit(Tracked(op.entries), EnsuredRepo(s).head)
  }

  /** Whatever the commit command reports, HEAD is on the new commit. */
  predicate Lands(f: CommitFaults) {
    f.initOk && (f.commitOk || f.commitLanded)
  }

  /** The commit is reported, read back, and either registered or rolled back. */
  predicate Followed(f: CommitFaults) {
    f.commitOk && f.headAfterOk && (f.registryOk || f.rollbackOk)
  }

  /**
   * The faults the code does not cover: HEAD unreadable just before or just after a commit that
   * lands, a commit that lands and is reported as failed, a registry failure whose rollback fails
   * too, and a deletion that stops half way.
   */
  predicate Uncovered(s: State, op: Op) {
    match op
    case CommitOp(_, _, sha, f) =>
      Lands(f) &&
      if Followed(f)
      then !f.headBeforeOk && Head(s).Some?
      else !Registered(s.registry, sha)
    case RestoreOp(_, _) => false
    case DeleteOp(registryOk, repoOk) => registryOk && !repoOk && Head(s).Some?
  }

  function Step(w: World, op: Op): World {
    match op
    case CommitOp(entries, trigger, sha, f) =>
      var (state, result) := AfterCommit(w.state, entries, trigger, sha, f);
      World(state, if result.Committed? then w.saved[sha := Tracked(entries)] else w.saved)
    case RestoreOp(id, f) => w.(state := AfterRestore(w.state, id, f).0)
    case DeleteOp(registryOk, repoOk) => w.(state := AfterDelete(w.state, registryOk, repoOk))
  }

  lemma RegisteredGrows(registry: seq<Snapshot>, record: Snapshot, id: Sha)
    ensures Registered(registry + [record], id) <==> Registered(registry, id) || id == record.id
  {
    var all := registry + [record];
    if Registered(registry, id) {
      var i :| 0 <= i < |registry| && registry[i].id == id;
      assert all[i].id == id;
    }
    if id == record.id { assert all[|registry|].id == id; }
  }

  lemma ChainedGrows(registry: seq<Snapshot>, record: Snapshot)
    requires Chained(registry)
    ensures Chained(registry + [record]) <==>
            if registry == [] then record.parentId == None
            else record.parentId.Some? && Registered(registry, record.parentId.value)
  {
    var all := registry + [record];
    assert all[..|registry|] == registry;
    assert all[|registry|] == record;
    forall i | 0 <= i < |registry| ensures all[i] == registry[i] && all[..i] == registry[..i] {
    }
  }

  /** A commit that lands and is registered. */
  lemma CommittedAgrees(w: World, op: Op)
    requires Agree(w.state) && TreesKept(w) && Addressed(w.state, op)
    requires op.CommitOp? && op.faults.initOk && op.faults.commitOk && op.faults.headAfterOk && op.faults.registryOk
    ensures TreesKept(Step(w, op))
    ensures Agree(Step(w, op).state) <==> op.faults.headBeforeOk || Head(w.state).None?
  {
    var s, t := w.state, Step(w, op).state;
    var record := t.registry[|s.registry|];
    assert t.registry == s.registry + [record];
    RegisteredGrows(s.registry, record, record.id);
    ChainedGrows(s.registry, record);
    CommittedTreesKept(w, op);
  }

  lemma CommittedTreesKept(w: World, op: Op)
    requires TreesKept(w) && Addressed(w.state, op)
    requires op.CommitOp? && op.faults.initOk && op.faults.commitOk && op.faults.headAfterOk && op.faults.registryOk
    ensures TreesKept(Step(w, op))
  {
  }

  /** A commit that lands but is not registered, and whether HEAD stays on it. */
  lemma UnregisteredAgrees(w: World, op: Op)
    requires Agree(w.state) && TreesKept(w) && Addressed(w.state, op)
    requires op.CommitOp? && Lands(op.faults) && !(op.faults.commitOk && op.faults.headAfterOk && op.faults.registryOk)
    ensures TreesKept(Step(w, op))
    ensures Agree(Step(w, op).state) <==> !Uncovered(w.state, op)
  {
  }

  /** One operation keeps Git and the registry in agreement exactly when its faults are covered. */
  lemma StepAgreesIff(w: World, op: Op)
    requires Agree(w.state) && TreesKept(w) && Addressed(w.state, op)
    ensures Agree(Step(w, op).state) <==> !Uncovered(w.state, op)
    ensures TreesKept(Step(w, op))
  {
    if op.CommitOp? && Lands(op.faults) {
      if op.faults.commitOk && op.faults.headAfterOk && op.faults.registryOk {
        CommittedAgrees(w, op);
      } else {
        UnregisteredAgrees(w, op);
      }
    } else if op.RestoreOp? {
      RestoreAgrees(w, op.id, op.how);
    }
  }

  lemma RestoreAgrees(w: World, id: Sha, f: RestoreFaults)
    requires Agree(w.state) && TreesKept(w)
    ensures Agree(AfterRestore(w.state, id, f).0) && TreesKept(w.(state := AfterRestore(w.state, id, f).0))
  {
  }

  // ---------------------------------------------------------------- runs

  function Run(w: World, ops: seq<Op>): World
    decreases ops
  {
    if ops == [] then w else Run(Step(w, ops[0]), ops[1..])
  }

  predicate CoveredRun(w: World, ops: seq<Op>)
    decreases ops
  {
    ops == [] || (Addressed(w.state, ops[0]) && !Uncovered(w.state, ops[0]) && CoveredRun(Step(w, ops[0]), ops[1..]))
  }

  function Empty(): World {
    World(State(None, map[], []), map[])
  }

  /** Over every run with covered faults: HEAD, commits, registry and parents agree, and no registered tree changes. */
  lemma {:induction false} RunAgrees(w: World, ops: seq<Op>)
    requires Agree(w.state) && TreesKept(w) && CoveredRun(w, ops)
    ensures Agree(Run(w, ops).state) && TreesKept(Run(w, ops))
    decreases ops
  {
    if ops != [] {
      StepAgreesIff(w, ops[0]);
      RunAgrees(Step(w, ops[0]), ops[1..]);
    }
  }

  function NoFaults(): RestoreFaults {
    RestoreFaults(true, true, true, true, map[])
  }

  /**
   * After any covered run, restoring a registered id yields exactly the tree committed under it,
   * whatever the working tree holds, and restoring it again changes nothing and yields it again.
   */
  lemma {:induction false} RestoreIsExact(ops: seq<Op>, id: Sha, work: Tree)
    requires CoveredRun(Empty(), ops) && Registered(Run(Empty(), ops).state.registry, id)
    ensures var w := Run(Empty(), ops);
            var (once, r) := AfterRestore(w.state.(work := work), id, NoFaults());
            && id in w.saved && r == Restored(ReadBack(Visible(w.saved[id]))) && once.work == w.saved[id]
            && AfterRestore(once, id, NoFaults()) == (once, r)
  {
    RunAgrees(Empty(), ops);
    var w := Run(Empty(), ops);
    var i :| 0 <= i < |w.state.registry| && w.state.registry[i].id == id;
  }

  /** What a commit registers is the tree it was given, and the restored text files are the committed ones. */
  lemma CommitThenRestore(ops: seq<Op>, entries: Entries, trigger: Trigger, sha: Sha, f: CommitFaults)
    requires var op := CommitOp(entries, trigger, sha, f);
             CoveredRun(Empty(), ops) && Addressed(Run(Empty(), ops).state, op)
                 && !Uncovered(Run(Empty(), ops).state, op)
    requires AfterCommit(Run(Empty(), ops).state, entries, trigger, sha, f).1.Committed?
    ensures var s := AfterCommit(Run(Empty(), ops).state, entries, trigger, sha, f).0;
            AfterRestore(s, sha, NoFaults()).1 == Restored(ReadBack(Tracked(entries)))
  {
    RunAgrees(Empty(), ops);
    var w := Run(Empty(), ops);
    var s := AfterCommit(w.state, entries, trigger, sha, f).0;
    RegisteredGrows(w.state.registry, s.registry[|s.registry| - 1], sha);
    assert Visible(Tracked(entries)) == Tracked(entries);
  }

  /** A commit attempt that fails, however it fails, leaves the registry and every registered tree as they were. */
  lemma FailedCommitKeepsSnapshots(w: World, op: Op, i: nat)
    requires Agree(w.state) && TreesKept(w) && Addressed(w.state, op) && op.CommitOp?
    requires !AfterCommit(w.state, op.entries, op.trigger, op.sha, op.faults).1.Committed? && i < |w.state.registry|
    ensures var after := Step(w, op).state; var id := w.state.registry[i].id;
            after.registry == w.state.registry
            && AfterRestore(after, id, NoFaults()).1 == AfterRestore(w.state, id, NoFaults()).1
  {
    StepAgreesIff(w, op);
    var id := w.state.registry[i].id;
    assert Registered(w.state.registry, id);
    assert TreesKept(Step(w, op));
    assert Step(w, op).state.registry[i].id == id;
  }

  // ---------------------------------------------------------------- what each operation answers and leaves

  /** The commit was made, read back and registered. */
  predicate Through(f: CommitFaults) {
    f.initOk && f.commitOk && f.headAfterOk && f.registryOk
  }

  /**
   * A commit succeeds if and only if every call but the reading of HEAD before it does. It then registers the
   * new id with the HEAD before as its parent, and HEAD, the working tree and Git all hold the given tree.
   */
  lemma CommitOutcome(s: State, entries: Entries, trigger: Trigger, sha: Sha, f: CommitFaults)
    ensures var (t, r) := AfterCommit(s, entries, trigger, sha, f);
            && (r.Committed? <==> Through(f))
            && (r.RegistryFailure? <==> f.initOk && f.commitOk && f.headAfterOk && !f.registryOk)
            && (r.Committed? ==>
                  && r.snapshot.id == sha && r.snapshot.trigger == trigger
                  && r.snapshot.parentId == (if f.headBeforeOk then Head(s) else None)
                  && t.registry == s.registry + [r.snapshot] && Head(t) == Some(sha)
                  && t.work == t.repo.value.commits[sha].tree && t.repo.value.commits[sha].parent == Head(s))
            && (!r.Committed? ==> t.registry == s.registry)
    ensures Through(f) ==>
              forall p :: p in AfterCommit(s, entries, trigger, sha, f).0.work <==> p in TreeOf(entries) && ".git" !in p
    ensures Through(f) ==>
              forall p :: p in AfterCommit(s, entries, trigger, sha, f).0.work ==>
                AfterCommit(s, entries, trigger, sha, f).0.work[p] == TreeOf(entries)[p]
  {
  }

  /** No commit, however it ends, loses another commit. */
  lemma CommitKeepsOthers(s: State, entries: Entries, trigger: Trigger, sha: Sha, f: CommitFaults, id: Sha)
    requires id in EnsuredRepo(s).commits && id != sha
    ensures var t := AfterCommit(s, entries, trigger, sha, f).0;
            id in EnsuredRepo(t).commits && EnsuredRepo(t).commits[id] == EnsuredRepo(s).commits[id]
  {
  }

  /** When the registry refuses the record, HEAD and the working tree go back to the snapshot before. */
  lemma RefusedRecordRollsBack(s: State, entries: Entries, trigger: Trigger, sha: Sha, f: CommitFaults)
    requires f.initOk && f.headBeforeOk && f.commitOk && f.headAfterOk && !f.registryOk && f.rollbackOk
    requires Head(s).Some? ==> Head(s).value in s.repo.value.commits && Head(s).value != sha
    ensures var t := AfterCommit(s, entries, trigger, sha, f).0;
            && Head(t) == Head(s)
            && (Head(s).Some? ==> t.work == s.repo.value.commits[Head(s).value].tree)
  {
  }

  /**
   * A restore is refused for an id that is not registered, fails exactly if the repository or the object is
   * missing or a Git step fails, and else leaves HEAD on the id and its tree in the working tree. It
   * touches nothing before its checks are through, and never the registry or a commit.
   */
  lemma RestoreOutcome(s: State, id: Sha, f: RestoreFaults)
    ensures var (t, r) := AfterRestore(s, id, f);
            var known := Registered(s.registry, id);
            var found := known && s.repo.Some? && f.objectOk && id in s.repo.value.commits;
            && (r == RestoreMissing <==> !known)
            && (r == RestoreUnreadable <==> known && !(found && f.resetOk && f.cleanOk))
            && (r.Restored? <==> found && f.resetOk && f.cleanOk)
            && (!found ==> t == s)
            && (r.Restored? ==>
                  && Head(t) == Some(id) && t.work == s.repo.value.commits[id].tree
                  && r.tree == ReadBack(Visible(s.repo.value.commits[id].tree)))
            && t.registry == s.registry && EnsuredRepo(t).commits == EnsuredRepo(s).commits
  {
  }

  /** After a deletion that got through the registry no id can be restored; one that did not changes nothing. */
  lemma DeleteOutcome(s: State, registryOk: bool, repoOk: bool, id: Sha, f: RestoreFaults)
    ensures var t := AfterDelete(s, registryOk, repoOk);
            && (registryOk ==> t.registry == [] && AfterRestore(t, id, f) == (t, RestoreMissing))
            && (registryOk && repoOk ==> t.repo == None)
            && (!registryOk ==> t == s)
            && t.work == s.work
  {
  }
}
