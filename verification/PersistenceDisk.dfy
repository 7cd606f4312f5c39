/**
 * What the persistence store does to the disk itself: which files a write leaves, Git's own among them,
 * and when what is queued reaches the disk.
 */
module PersistenceDisk {
  import opened Strings
  import opened TreeCodec
  import opened PersistenceStore
  import opened PersistenceRefinement

  /** The two trees agree on p. */
  predicate SameAt(a: Tree, b: Tree, p: Path) {
    (p in a <==> p in b) && (p in a && p in b ==> a[p] == b[p])
  }

  /** A file below a directory named .git, at the root of the tree or anywhere in it. */
  function GitFile(dir: Path, rest: Path): Path {
    dir + [".git"] + rest
  }

  lemma GitFileIsGits(dir: Path, rest: Path)
    requires rest != []
    ensures InGitDir(GitFile(dir, rest))
  {
    assert GitFile(dir, rest)[|dir|] == ".git";
  }

  // ---------------------------------------------------------------- one write

  lemma WriteChangesNamedOnly(s: Project, outcome: WriteOutcome, p: Path)
    requires s.pending.Some? && InGitDir(p)
    requires p !in TreeOf(s.pending.value.entries) && p !in Litter(s.pending.value.entries, outcome)
    ensures SameAt(AfterPersistNow(s, outcome).disk, s.disk, p)
  {
    var entries := s.pending.value.entries;
    OverlayIsUnion(s.disk, entries);
    if outcome.Failed? {
      var k := if outcome.after <= |entries| then outcome.after else |entries|;
      assert entries[..|entries|] == entries;
      OverlayIsUnion(s.disk, entries[..k]);
      PrefixIsAbsorbed(entries, k);
    }
  }

  /** No write, whatever its outcome, touches a file below a .git directory that no entry or temporary copy names. */
  lemma GitFilesStay(s: Project, outcome: WriteOutcome, dir: Path, rest: Path)
    requires rest != []
    requires var p := dir + [".git"] + rest;
             s.pending.Some? ==>
               p !in TreeOf(s.pending.value.entries) && p !in Litter(s.pending.value.entries, outcome)
    ensures SameAt(AfterPersistNow(s, outcome).disk, s.disk, dir + [".git"] + rest)
  {
    GitFileIsGits(dir, rest);
    if s.pending.Some? { WriteChangesNamedOnly(s, outcome, dir + [".git"] + rest); }
  }

  /** The converse: a full write that finishes leaves no other file, unless its removal failed. */
  lemma StaleIsGone(s: Project, stuck: set<Path>, p: Path)
    requires s.pending.Some? && s.pending.value.prune && p !in TreeOf(s.pending.value.entries)
    requires p !in stuck && forall i :: 0 <= i < |p| - 1 ==> p[i] != ".git"
    ensures p !in AfterPersistNow(s, Wrote(stuck)).disk
  {
  }

  lemma {:induction false} EntriesName(entries: Entries, p: Path)
    ensures p in TreeOf(entries) <==> exists i :: 0 <= i < |entries| && entries[i].0 == p
  {
    if entries != [] {
      var front := entries[..|entries| - 1];
      EntriesName(front, p);
      if i :| 0 <= i < |entries| && entries[i].0 == p { assert i < |front| ==> front[i].0 == p; }
      if i :| 0 <= i < |front| && front[i].0 == p { assert entries[i].0 == p; }
      assert entries[|entries| - 1].0 == p ==> p in TreeOf(entries);
    }
  }

  lemma {:induction false} LastEntryWins(entries: Entries, i: nat)
    requires i < |entries| && forall j :: i < j < |entries| ==> entries[j].0 != entries[i].0
    ensures entries[i].0 in TreeOf(entries) && TreeOf(entries)[entries[i].0] == FileBytes(entries[i].1)
  {
    if i < |entries| - 1 { LastEntryWins(entries[..|entries| - 1], i); }
  }

  /** Entry i is the last one that names p. */
  predicate LastNamed(entries: Entries, i: int, p: Path) {
    0 <= i < |entries| && entries[i].0 == p && forall j :: i < j < |entries| ==> entries[j].0 != p
  }

  /**
   * A write that finishes puts every queued file on disk with the bytes of its last entry; an overlay
   * leaves all other files as they were.
   */
  lemma FinishedWriteIsOnDisk(s: Project, stuck: set<Path>, p: Path)
    requires s.pending.Some?
    ensures var entries, disk := s.pending.value.entries, AfterPersistNow(s, Wrote(stuck)).disk;
            && (forall i :: LastNamed(entries, i, p) ==> p in disk && disk[p] == FileBytes(entries[i].1))
            && (s.pending.value.prune || (exists i :: 0 <= i < |entries| && entries[i].0 == p)
               || SameAt(disk, s.disk, p))
  {
    var entries := s.pending.value.entries;
    OverlayIsUnion(s.disk, entries);
    EntriesName(entries, p);
    forall i | LastNamed(entries, i, p)
      ensures p in TreeOf(entries) && TreeOf(entries)[p] == FileBytes(entries[i].1)
    {
      LastEntryWins(entries, i);
    }
  }

  /**
   * A write that fails has written the entries before the failure, each path with the bytes of its last one,
   * and perhaps left a temporary copy beside the next file, under its name and a suffix; nothing is removed.
   */
  lemma FailedWriteLeavesPrefix(s: Project, after: nat, temp: Option<Temp>, p: Path)
    requires s.pending.Some? && after <= |s.pending.value.entries|
    ensures var entries := s.pending.value.entries;
            var disk := AfterPersistNow(s, Failed(after, temp)).disk;
            if temp.Some? && after < |entries| && BesideIt(entries[after].0, temp.value.tag, p)
            then p in disk && disk[p] == temp.value.bytes
            else && (forall i :: LastNamed(entries[..after], i, p) ==> p in disk && disk[p] == FileBytes(entries[i].1))
                 && ((forall i :: 0 <= i < after ==> entries[i].0 != p) ==> SameAt(disk, s.disk, p))
  {
    var entries := s.pending.value.entries;
    var prefix := entries[..after];
    OverlayIsUnion(s.disk, prefix);
    EntriesName(prefix, p);
    forall i | LastNamed(prefix, i, p)
      ensures p in TreeOf(prefix) && TreeOf(prefix)[p] == FileBytes(entries[i].1)
    {
      LastEntryWins(prefix, i);
    }
    assert entries[..|entries|] == entries;
    assert after < |entries| && temp.Some? ==>
        (BesideIt(entries[after].0, temp.value.tag, p) <==> p == TempPath(entries[after].0, temp.value.tag));
  }

  /** p is the temporary name for dest: in its directory, its name with .tmp- and the tag behind it. */
  predicate BesideIt(dest: Path, tag: string, p: Path) {
    if dest == [] then p == [".tmp-" + tag]
    else |p| == |dest| && p[..|p| - 1] == dest[..|dest| - 1] && p[|p| - 1] == dest[|dest| - 1] + ".tmp-" + tag
  }

  /** A reader sees exactly the files with no component .git, each through the content codec. */
  lemma ReaderSees(disk: Tree, p: Path)
    ensures p in ReadBack(Visible(disk)) <==> p in disk && forall i :: 0 <= i < |p| ==> p[i] != ".git"
    ensures p in ReadBack(Visible(disk)) ==> ReadBack(Visible(disk))[p] == DecodeTreeEntry(disk[p])
  {
    assert ".git" in p <==> exists i :: 0 <= i < |p| && p[i] == ".git";
  }

  // ---------------------------------------------------------------- whole runs

  /** Neither an entry nor a temporary copy of one can be the file p. */
  ghost predicate Spares(entries: Entries, p: Path) {
    forall i :: 0 <= i < |entries| ==> Aside(entries[i].0, p)
  }

  ghost predicate Aside(q: Path, p: Path) {
    q != p && forall tag :: TempPath(q, tag) != p
  }

  ghost predicate QueueSpares(s: Project, p: Path) {
    s.pending.Some? ==> Spares(s.pending.value.entries, p)
  }

  ghost predicate OpSpares(op: Op, p: Path) {
    match op
    case Persist(tree, _, _, _, _) => Spares(tree, p)
    case PersistPartial(changed, _, _, _, _, _) => Spares(changed, p)
    case WriteNow(_) => true
    case Delete(_) => false
  }

  lemma {:induction false} PutSpares(entries: Entries, q: Path, c: Contents, p: Path)
    requires Spares(entries, p) && Aside(q, p)
    ensures Spares(Put(entries, q, c), p)
  {
    if entries != [] && entries[0].0 != q {
      forall i | 0 <= i < |entries[1..]| ensures Aside(entries[1..][i].0, p) {
        assert Aside(entries[i + 1].0, p);
      }
      PutSpares(entries[1..], q, c, p);
      var put := Put(entries, q, c);
      forall i | 0 <= i < |put| ensures Aside(put[i].0, p) {
        if i == 0 {
          assert Aside(entries[0].0, p);
        } else {
          assert Aside(Put(entries[1..], q, c)[i - 1].0, p);
        }
      }
    }
  }

  lemma {:induction false} PutAllSpares(entries: Entries, more: Entries, p: Path)
    requires Spares(entries, p) && Spares(more, p)
    ensures Spares(PutAll(entries, more), p)
  {
    if more != [] {
      var front, last := more[..|more| - 1], more[|more| - 1];
      forall i | 0 <= i < |front| ensures Aside(front[i].0, p) {
        assert Aside(more[i].0, p);
      }
      assert Aside(more[|more| - 1].0, p);
      PutAllSpares(entries, front, p);
      PutSpares(PutAll(entries, front), last.0, last.1, p);
    }
  }

  lemma WriteSpares(s: Project, outcome: WriteOutcome, p: Path)
    requires QueueSpares(s, p) && InGitDir(p)
    ensures SameAt(AfterPersistNow(s, outcome).disk, s.disk, p) && QueueSpares(AfterPersistNow(s, outcome), p)
  {
    if s.pending.Some? {
      var entries := s.pending.value.entries;
      EntriesName(entries, p);
      forall i | 0 <= i < |entries| ensures entries[i].0 != p && forall tag :: TempPath(entries[i].0, tag) != p {
        assert Aside(entries[i].0, p);
      }
      WriteChangesNamedOnly(s, outcome, p);
    }
  }

  lemma ScheduleSpares(s: Project, entries: Entries, prune: bool, deadline: int, timer: Option<nat>,
                       forced: WriteOutcome, immediate: WriteOutcome, p: Path)
    requires QueueSpares(s, p) && Spares(entries, p) && InGitDir(p)
    ensures var t := AfterSchedule(s, entries, prune, deadline, timer, forced, immediate);
            SameAt(t.disk, s.disk, p) && QueueSpares(t, p)
  {
    WriteSpares(s, forced, p);
    var flushed := AfterForcedFlush(s, prune, forced);
    if flushed.pending.Some? {
      PutAllSpares([], flushed.pending.value.entries, p);
      PutAllSpares(PutAll([], flushed.pending.value.entries), entries, p);
    }
    WriteSpares(Queued(flushed, entries, prune, deadline, timer), immediate, p);
  }

  lemma StepSpares(s: Project, op: Op, p: Path)
    requires QueueSpares(s, p) && OpSpares(op, p) && InGitDir(p)
    ensures SameAt(Step(s, op).disk, s.disk, p) && QueueSpares(Step(s, op), p)
  {
    match op
    case Persist(tree, deadline, timer, forced, immediate) =>
      ScheduleSpares(s, tree, true, deadline, timer, forced, immediate, p);
    case PersistPartial(changed, deadline, timer, first, second, immediate) =>
      WriteSpares(s, first, p);
      ScheduleSpares(AfterForcedFlush(s, false, first), changed, false, deadline, timer, second, immediate, p);
    case WriteNow(outcome) => WriteSpares(s, outcome, p);
  }

  lemma {:induction false} RunSpares(s: Project, ops: seq<Op>, p: Path)
    requires QueueSpares(s, p) && InGitDir(p) && forall i :: 0 <= i < |ops| ==> OpSpares(ops[i], p)
    ensures SameAt(Run(s, ops).disk, s.disk, p)
    decreases ops
  {
    if ops != [] {
      assert OpSpares(ops[0], p);
      StepSpares(s, ops[0], p);
      RunSpares(Step(s, ops[0]), ops[1..], p);
    }
  }

  /**
   * Over every run without a deletion, whatever is persisted and whatever fails, Git's own files stay as
   * they are: every file below a .git directory that nothing persisted names.
   */
  lemma {:induction false} GitSurvivesEveryRun(s: Project, ops: seq<Op>, dir: Path, rest: Path)
    requires rest != [] && QueueSpares(s, dir + [".git"] + rest)
    requires forall i :: 0 <= i < |ops| ==> OpSpares(ops[i], dir + [".git"] + rest)
    ensures SameAt(Run(s, ops).disk, s.disk, dir + [".git"] + rest)
  {
    GitFileIsGits(dir, rest);
    RunSpares(s, ops, dir + [".git"] + rest);
  }

  // ---------------------------------------------------------------- what is queued, and when it lands

  /** With no window to wait, a call that gets through is on disk when it returns, and nothing stays queued. */
  lemma ImmediateCallLands(s: Project, entries: Entries, prune: bool, deadline: int, forced: WriteOutcome,
                           stuck: set<Path>)
    requires s.pending.None?
    ensures var t := AfterSchedule(s, entries, prune, deadline, None, forced, Wrote(stuck));
            && t.pending.None?
            && (forall p :: p in TreeOf(entries) ==> p in t.disk && t.disk[p] == TreeOf(entries)[p])
            && (!prune ==> t.disk == s.disk + TreeOf(entries))
  {
    OverlayIsUnion(s.disk, entries);
  }

  /**
   * With a window, a call writes nothing of its own: a queued write of the other kind is written out first,
   * else it is kept or merged.
   */
  lemma ScheduledCallQueues(s: Project, entries: Entries, prune: bool, deadline: int, handle: nat,
                            forced: WriteOutcome, immediate: WriteOutcome)
    ensures var t := AfterSchedule(s, entries, prune, deadline, Some(handle), forced, immediate);
            && t.pending.Some? && t.pending.value.prune == prune && t.pending.value.timer == Some(handle)
            && (s.pending.None? || s.pending.value.prune == prune ==> t.disk == s.disk)
            && (s.pending.None? || (s.pending.value.prune == prune && prune) ==>
                  TreeOf(t.pending.value.entries) == TreeOf(entries))
    ensures s.pending.Some? && !s.pending.value.prune && !prune ==>
              var t := AfterSchedule(s, entries, prune, deadline, Some(handle), forced, immediate);
              TreeOf(t.pending.value.entries) == TreeOf(s.pending.value.entries) + TreeOf(entries)
    ensures s.pending.Some? && s.pending.value.prune != prune ==>
              var t := AfterSchedule(s, entries, prune, deadline, Some(handle), forced, immediate);
              && t.disk == AfterWrite(s.disk, s.pending.value.entries, s.pending.value.prune, forced)
              && (forced.Wrote? ==> t.pending.value.entries == entries)
  {
    if s.pending.Some? && s.pending.value.prune == prune { CoalescedOverlays(s.pending.value.entries, entries); }
  }

  /** A failed write keeps what was queued, for the next attempt; a finished one empties the queue. */
  lemma QueueOutlivesFailure(s: Project, outcome: WriteOutcome)
    requires s.pending.Some?
    ensures outcome.Wrote? <==> AfterPersistNow(s, outcome).pending.None?
    ensures outcome.Failed? ==>
              AfterPersistNow(s, outcome).pending
              == Some(Pending(s.pending.value.entries, s.pending.value.prune, s.pending.value.deadline, None))
  {
  }
}
