/**
 * The debounced persistence store (src/persistence/persistence-store.js).
 *
 * persist() queues a full tree that replaces everything, persistPartial() queues an
 * overlay; both wait in one buffer per project until a flush or a timer writes them.
 * Every file-system fault is an input: a write may stop after any prefix of its files and
 * leave the temporary copy of the next one in the tree, and the removal of any stale file
 * may fail.
 */
module PersistenceStore {
  import opened Strings
  import opened TreeCodec

  type ProjectId = string
  /** A relative path, as its components. */
  type Path = seq<string>
  type Tree = map<Path, Bytes>
  type Entries = seq<(Path, Contents)>

  /** The write waiting for one project. */
  datatype Pending = Pending(entries: Entries, prune: bool, deadline: int, timer: Option<nat>)

  /** One project: what is on disk, and what waits to be written. */
  datatype Project = Project(disk: Tree, pending: Option<Pending>)

  /** What is left of a file whose writing threw: the random end of its temporary name, and the bytes written so far. */
  datatype Temp = Temp(tag: string, bytes: Bytes)

  /**
   * How one writeTree call ends: it throws with `after` files in place, perhaps leaving the temporary
   * copy of the next, or it finishes with some removals failed.
   */
  datatype WriteOutcome = Failed(after: nat, temp: Option<Temp>) | Wrote(stuck: set<Path>)

  const MAX_DEBOUNCE_MS: int := 2000

  // ---------------------------------------------------------------- trees

  /** Inside a directory named .git: never pruned. */
  predicate InGitDir(p: Path) {
    exists i :: 0 <= i < |p| - 1 && p[i] == ".git"
  }

  /** Never read back: some component is .git. */
  predicate Hidden(p: Path) {
    ".git" in p
  }

  function Visible(t: Tree): Tree {
    map p | p in t && !Hidden(p) :: t[p]
  }

  /** The tree after the entries have been written over it, in order. */
  function Overlay(t: Tree, entries: Entries): Tree {
    if entries == [] then t else
      var (p, c) := entries[|entries| - 1];
      Overlay(t, entries[..|entries| - 1])[p := FileBytes(c)]
  }

  /** The entries as a tree of their own. */
  function TreeOf(entries: Entries): Tree {
    Overlay(map[], entries)
  }

  /** Map.set: a known path keeps its place, a new one goes last. */
  function Put(entries: Entries, p: Path, c: Contents): Entries {
    if entries == [] then [(p, c)]
    else if entries[0].0 == p then [(p, c)] + entries[1..]
    else [entries[0]] + Put(entries[1..], p, c)
  }

  function PutAll(entries: Entries, more: Entries): Entries {
    if more == [] then entries else
      var (p, c) := more[|more| - 1];
      Put(PutAll(entries, more[..|more| - 1]), p, c)
  }

  /** What pruning leaves of a tree: the files just written, Git's own, and those that would not go. */
  function Pruned(t: Tree, keep: set<Path>, stuck: set<Path>): Tree {
    map p | p in t && (p in keep || InGitDir(p) || p in stuck) :: t[p]
  }

  // ---------------------------------------------------------------- the store, one project at a time

  /** A file is written beside its destination first, under the destination's name and a suffix. */
  function TempPath(dest: Path, tag: string): Path {
    if dest == [] then [".tmp-" + tag]
    else dest[..|dest| - 1] + [dest[|dest| - 1] + ".tmp-" + tag]
  }

  /** The temporary copy a failed write leaves in the tree, if it does. */
  function Litter(entries: Entries, outcome: WriteOutcome): Tree {
    if outcome.Failed? && outcome.temp.Some? && outcome.after < |entries|
    then map[TempPath(entries[outcome.after].0, outcome.temp.value.tag) := outcome.temp.value.bytes]
    else map[]
  }

  function AfterWrite(disk: Tree, entries: Entries, prune: bool, outcome: WriteOutcome): Tree {
    match outcome
    case Failed(after, _) =>
      Overlay(disk, if after <= |entries| then entries[..after] else entries) + Litter(entries, outcome)
    case Wrote(stuck) =>
      if prune then Pruned(Overlay(disk, entries), TreeOf(entries).Keys, stuck) else Overlay(disk, entries)
  }

  function AfterPersistNow(s: Project, outcome: WriteOutcome): Project {
    match s.pending
    case None => s
    case Some(w) =>
      Project(AfterWrite(s.disk, w.entries, w.prune, outcome),
              if outcome.Failed? then Some(w.(timer := None)) else None)
  }

  function Queued(s: Project, entries: Entries, prune: bool, deadline: int, timer: Option<nat>): Project {
    var all := if prune || s.pending.None? then entries else PutAll(PutAll([], s.pending.value.entries), entries);
    s.(pending := Some(Pending(all, prune, deadline, timer)))
  }

  function AfterForcedFlush(s: Project, prune: bool, forced: WriteOutcome): Project {
    if s.pending.Some? && s.pending.value.prune != prune then AfterPersistNow(s, forced) else s
  }

  function AfterSchedule(s: Project, entries: Entries, prune: bool, deadline: int, timer: Option<nat>,
                         forced: WriteOutcome, immediate: WriteOutcome): Project
  {
    var queued := Queued(AfterForcedFlush(s, prune, forced), entries, prune, deadline, timer);
    if timer.None? then AfterPersistNow(queued, immediate) else queued
  }

  /** persistPartial flushes a queued full write first; schedule flushes it again when that failed. */
  function AfterPartial(s: Project, entries: Entries, deadline: int, timer: Option<nat>,
                        first: WriteOutcome, second: WriteOutcome, immediate: WriteOutcome): Project
  {
    AfterSchedule(AfterForcedFlush(s, false, first), entries, false, deadline, timer, second, immediate)
  }

  // ---------------------------------------------------------------- the imperative store

  /** The armed timers are exactly those the pending writes hold. */
  ghost predicate TimersMatch(pending: map<ProjectId, Pending>, armed: map<nat, ProjectId>, nextHandle: nat) {
    && (forall h :: h in armed ==>
          h < nextHandle && armed[h] in pending && pending[armed[h]].timer == Some(h))
    && (forall p :: p in pending && pending[p].timer.Some? ==>
          pending[p].timer.value in armed && armed[pending[p].timer.value] == p)
  }

  lemma ArmingMatches(pending: map<ProjectId, Pending>, armed: map<nat, ProjectId>, next: nat, project: ProjectId,
                      w: Pending)
    requires TimersMatch(pending, armed, next) && (project in pending ==> pending[project].timer.None?)
    ensures w.timer.None? ==> TimersMatch(pending[project := w], armed, next)
    ensures w.timer == Some(next) ==> TimersMatch(pending[project := w], armed[next := project], next + 1)
  {
  }

  class Store {
    const debounceMs: int
    var disks: map<ProjectId, Tree>
    var pending: map<ProjectId, Pending>
    /** Armed timers, by handle. */
    var armed: map<nat, ProjectId>
    var nextHandle: nat

    ghost predicate Valid()
      reads this
    {
      0 <= debounceMs <= MAX_DEBOUNCE_MS && TimersMatch(pending, armed, nextHandle)
    }

    ghost function Of(p: ProjectId): Project
      reads this
    {
      Project(if p in disks then disks[p] else map[], if p in pending then Some(pending[p]) else None)
    }

    constructor (debounceMs: int)
      requires 0 <= debounceMs <= MAX_DEBOUNCE_MS
      ensures Valid() && this.debounceMs == debounceMs
      ensures forall p :: Of(p) == Project(map[], None)
    {
      this.debounceMs := debounceMs;
      disks, pending, armed, nextHandle := map[], map[], map[], 0;
    }

    /** defaultWriteTree and pruneStale on one project's tree. */
    method WriteTree(project: ProjectId, entries: Entries, prune: bool, outcome: WriteOutcome) returns (ok: bool)
      modifies this`disks
      ensures ok == outcome.Wrote?
      ensures Of(project).disk == AfterWrite(old(Of(project).disk), entries, prune, outcome)
      ensures forall q :: q != project ==> Of(q).disk == old(Of(q).disk)
    {
      var tree, written := WriteFiles(if project in disks then disks[project] else map[], entries, outcome);
      if prune && outcome.Wrote? {
        tree := PruneStale(tree, written, outcome.stuck);
      }
      disks := disks[project := tree];
      return outcome.Wrote?;
    }

    /** clearTimer on the handle the project's pending write holds, if any. */
    method ClearTimer(project: ProjectId)
      requires Valid() && project in pending
      modifies this`pending, this`armed
      ensures Valid()
      ensures pending == old(pending)[project := old(pending[project]).(timer := None)]
      ensures forall h :: h in armed <==> h in old(armed) && old(armed[h]) != project
      ensures forall h :: h in armed ==> armed[h] == old(armed[h])
    {
      var state := pending[project];
      if state.timer.Some? {
        armed := armed - {state.timer.value};
        pending := pending[project := state.(timer := None)];
      }
    }

    /** Force the pending write of one project now. */
    method PersistNow(project: ProjectId, outcome: WriteOutcome) returns (ok: bool, wrote: bool)
      requires Valid()
      modifies this
      ensures Valid()
      ensures Of(project) == AfterPersistNow(old(Of(project)), outcome)
      ensures forall q :: q != project ==> Of(q) == old(Of(q))
      ensures wrote == (ok && old(project in pending))
      ensures !ok <==> old(project in pending) && outcome.Failed?
      ensures forall h :: h in armed ==> h in old(armed) && armed[h] == old(armed[h]) && armed[h] != project
    {
      if project !in pending { return true, false; }
      ClearTimer(project);
      var state := pending[project];
      ok := WriteTree(project, state.entries, state.prune, outcome);
      assert forall q :: q != project ==> (q in pending <==> q in old(pending)) && Of(q).disk == old(Of(q).disk);
      if !ok { return false, false; }
      pending := pending - {project};
      return true, true;
    }

    /** Flush a queued write of the other kind, so that the two never blend. */
    method ForceOtherKind(project: ProjectId, prune: bool, outcome: WriteOutcome)
      requires Valid()
      modifies this
      ensures Valid()
      ensures Of(project) == AfterForcedFlush(old(Of(project)), prune, outcome)
      ensures forall q :: q != project ==> Of(q) == old(Of(q))
    {
      if project in pending && pending[project].prune != prune {
        var _, _ := PersistNow(project, outcome);
      }
    }

    method Schedule(project: ProjectId, entries: Entries, prune: bool, now: int,
                    forced: WriteOutcome, immediate: WriteOutcome)
      returns (ok: bool, ghost timer: Option<nat>)
      requires Valid()
      modifies this
      ensures Valid()
      ensures timer.None? <==> debounceMs == 0
      ensures Of(project)
           == AfterSchedule(old(Of(project)), entries, prune, now + debounceMs, timer, forced, immediate)
      ensures forall q :: q != project ==> Of(q) == old(Of(q))
      ensures ok <==> debounceMs > 0 || immediate.Wrote?
    {
      ForceOtherKind(project, prune, forced);
      var all := entries;
      if !prune && project in pending {
        all := MergeEntries(pending[project].entries, entries);
      }
      timer := Enqueue(project, all, prune, now + debounceMs);
      ok := true;
      if debounceMs == 0 {
        var stored, _ := PersistNow(project, immediate);
        ok := stored;
      }
    }

    /** Replaces the pending write of the project, and its timer with a fresh one if there is a window to wait. */
    method Enqueue(project: ProjectId, entries: Entries, prune: bool, deadline: int)
      returns (ghost timer: Option<nat>)
      requires Valid()
      modifies this`pending, this`armed, this`nextHandle
      ensures Valid()
      ensures timer.None? <==> debounceMs == 0
      ensures pending == old(pending)[project := Pending(entries, prune, deadline, timer)]
    {
      if project in pending { ClearTimer(project); }
      timer := if debounceMs == 0 then None else Some(nextHandle);
      ArmingMatches(pending, armed, nextHandle, project, Pending(entries, prune, deadline, timer));
      if debounceMs == 0 {
        pending := pending[project := Pending(entries, prune, deadline, None)];
      } else {
        pending := pending[project := Pending(entries, prune, deadline, Some(nextHandle))];
        armed := armed[nextHandle := project];
        nextHandle := nextHandle + 1;
      }
    }

    /** persist: a full tree, authoritative. */
    method Persist(project: ProjectId, tree: Entries, now: int, forced: WriteOutcome, immediate: WriteOutcome)
      returns (ok: bool, ghost timer: Option<nat>)
      requires Valid()
      modifies this
      ensures Valid()
      ensures timer.None? <==> debounceMs == 0
      ensures Of(project)
           == AfterSchedule(old(Of(project)), tree, true, now + debounceMs, timer, forced, immediate)
      ensures forall q :: q != project ==> Of(q) == old(Of(q))
    {
      ok, timer := Schedule(project, tree, true, now, forced, immediate);
    }

    /** persistPartial: only the named files. */
    method PersistPartial(project: ProjectId, changed: Entries, now: int,
                          first: WriteOutcome, second: WriteOutcome, immediate: WriteOutcome)
      returns (ok: bool, ghost timer: Option<nat>)
      requires Valid()
      modifies this
      ensures Valid()
      ensures timer.None? <==> debounceMs == 0
      ensures Of(project)
           == AfterPartial(old(Of(project)), changed, now + debounceMs, timer, first, second, immediate)
      ensures forall q :: q != project ==> Of(q) == old(Of(q))
    {
      ForceOtherKind(project, false, first);
      ok, timer := Schedule(project, changed, false, now, second, immediate);
    }

    /** The debounce timer: only an armed one can go off, and it writes what its project still has queued. */
    method Fire(handle: nat, outcome: WriteOutcome)
      requires Valid() && handle in armed
      modifies this
      ensures Valid() && handle !in armed
      ensures Of(old(armed[handle])) == AfterPersistNow(old(Of(armed[handle])), outcome)
      ensures forall q :: q != old(armed[handle]) ==> Of(q) == old(Of(q))
    {
      var _, _ := PersistNow(armed[handle], outcome);
    }

    /** flush with no argument: every pending project, each with its own outcome. */
    method FlushAll(outcomes: ProjectId -> WriteOutcome)
      requires Valid()
      modifies this
      ensures Valid()
      ensures forall p :: Of(p) == AfterPersistNow(old(Of(p)), outcomes(p))
    {
      var todo := pending.Keys;
      while todo != {}
        invariant Valid() && todo <= old(pending.Keys)
        invariant forall p :: p in todo || p !in old(pending) ==> Of(p) == old(Of(p))
        invariant forall p :: p !in todo && p in old(pending) ==> Of(p) == AfterPersistNow(old(Of(p)), outcomes(p))
        decreases |todo|
      {
        var id :| id in todo;
        var _, _ := PersistNow(id, outcomes(id));
        todo := todo - {id};
      }
    }

    /** deleteProjectTree; `survivors` is what a failing removal leaves behind. */
    method DeleteProjectTree(project: ProjectId, survivors: set<Path>) returns (removed: bool)
      requires Valid()
      modifies this
      ensures Valid()
      ensures var before := old(Of(project).disk);
              Of(project) == Project(map p | p in before && p in survivors :: before[p], None)
      ensures forall h :: h in armed ==> armed[h] != project
      ensures forall q :: q != project ==> Of(q) == old(Of(q))
      ensures removed == (project in old(disks))
    {
      if project in pending { ClearTimer(project); }
      pending := pending - {project};
      removed := project in disks;
      if removed {
        var tree := disks[project];
        disks := disks[project := map p | p in tree && p in survivors :: tree[p]];
      }
    }

    /** readPersistedTree: text where the bytes are text, never anything of Git's. */
    method ReadPersistedTree(project: ProjectId) returns (tree: map<Path, Contents>)
      ensures tree == ReadBack(Visible(Of(project).disk))
    {
      var disk := if project in disks then disks[project] else map[];
      tree := map p | p in disk && !Hidden(p) :: DecodeTreeEntry(disk[p]);
    }
  }

  function ReadBack(t: Tree): map<Path, Contents> {
    map p | p in t :: DecodeTreeEntry(t[p])
  }

  /** The loop that writes file after file, each beside its destination first, until one throws. */
  method WriteFiles(disk: Tree, entries: Entries, outcome: WriteOutcome) returns (tree: Tree, written: set<Path>)
    ensures outcome.Wrote? ==> tree == Overlay(disk, entries) && written == TreeOf(entries).Keys
    ensures outcome.Failed? ==> tree == AfterWrite(disk, entries, false, outcome)
  {
    tree, written := disk, {};
    assert entries[..0] == [];
    for i := 0 to |entries|
      invariant tree == Overlay(disk, entries[..i])
      invariant written == TreeOf(entries[..i]).Keys
      invariant outcome.Failed? ==> i <= outcome.after
    {
      var (p, c) := entries[i];
      if outcome.Failed? && outcome.after == i {
        if outcome.temp.Some? {
          tree := tree[TempPath(p, outcome.temp.value.tag) := outcome.temp.value.bytes];
        }
        return;
      }
      assert entries[..i + 1][..i] == entries[..i];
      tree := tree[p := FileBytes(c)];
      written := written + {p};
    }
    assert entries[..|entries|] == entries;
  }

  /** The walk that deletes every stale file it can. */
  method PruneStale(tree: Tree, keep: set<Path>, stuck: set<Path>) returns (left: Tree)
    ensures left == Pruned(tree, keep, stuck)
  {
    left := tree;
    var todo := tree.Keys;
    while todo != {}
      invariant todo <= tree.Keys && todo <= left.Keys
      invariant forall p :: p in left ==> p in tree && left[p] == tree[p]
      invariant forall p :: p in tree && p !in todo ==> (p in left <==> p in keep || InGitDir(p) || p in stuck)
      decreases |todo|
    {
      var p :| p in todo;
      todo := todo - {p};
      if !InGitDir(p) && p !in keep && p !in stuck {
        left := left - {p};
      }
    }
  }

  /** The merge loop of schedule: later partial entries win, path by path. */
  method MergeEntries(existing: Entries, entries: Entries) returns (merged: Entries)
    ensures merged == PutAll(PutAll([], existing), entries)
  {
    merged := [];
    assert existing[..0] == [];
    for i := 0 to |existing|
      invariant merged == PutAll([], existing[..i])
    {
      assert existing[..i + 1][..i] == existing[..i];
      merged := Put(merged, existing[i].0, existing[i].1);
    }
    assert existing[..|existing|] == existing;
    assert entries[..0] == [];
    for i := 0 to |entries|
      invariant merged == PutAll(PutAll([], existing), entries[..i])
    {
      assert entries[..i + 1][..i] == entries[..i];
      merged := Put(merged, entries[i].0, entries[i].1);
    }
    assert entries[..|entries|] == entries;
  }
}
