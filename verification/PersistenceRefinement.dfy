/**
 * The buffered store refines the store that applies every call at once.
 *
 * The abstract tree of a project is what a reader would find if the queued write
 * landed now. Each call changes it exactly as the call says, and flushes and timers do
 * not change it, except in the cases stated here as the negation of Clean.
 */
module PersistenceRefinement {
  import opened Strings
  import opened TreeCodec
  import opened PersistenceStore

  function View(s: Project): Tree {
    match s.pending
    case None => Visible(s.disk)
    case Some(w) => Visible(if w.prune then TreeOf(w.entries) else s.disk + TreeOf(w.entries))
  }

  // ---------------------------------------------------------------- trees of entries

  lemma {:induction false} OverlayIsUnion(t: Tree, entries: Entries)
    ensures Overlay(t, entries) == t + TreeOf(entries)
  {
    if entries != [] {
      OverlayIsUnion(t, entries[..|entries| - 1]);
    }
  }

  lemma {:induction false} OverlayConcat(t: Tree, a: Entries, b: Entries)
    ensures Overlay(t, a + b) == Overlay(Overlay(t, a), b)
  {
    if b == [] {
      assert a + b == a;
    } else {
      assert (a + b)[..|a + b| - 1] == a + b[..|b| - 1];
      OverlayConcat(t, a, b[..|b| - 1]);
    }
  }

  lemma TreeOfConcat(a: Entries, b: Entries)
    ensures TreeOf(a + b) == TreeOf(a) + TreeOf(b)
  {
    OverlayConcat(map[], a, b);
    OverlayIsUnion(TreeOf(a), b);
  }

  lemma TreeOfOne(p: Path, c: Contents)
    ensures TreeOf([(p, c)]) == map[p := FileBytes(c)]
  {
    var one := [(p, c)];
    assert one[..0] == [];
    assert Overlay(map[], one) == Overlay(map[], one[..0])[p := FileBytes(c)];
  }

  /** No path twice. */
  predicate Distinct(entries: Entries) {
    entries == [] || (entries[0].0 !in TreeOf(entries[1..]) && Distinct(entries[1..]))
  }

  lemma {:induction false} ConsTree(head: (Path, Contents), rest: Entries)
    ensures TreeOf([head] + rest) == map[head.0 := FileBytes(head.1)] + TreeOf(rest)
    ensures Distinct([head] + rest) <==> head.0 !in TreeOf(rest) && Distinct(rest)
  {
    TreeOfConcat([head], rest);
    TreeOfOne(head.0, head.1);
    assert ([head] + rest)[1..] == rest;
  }

  /** Map.set on the queued entries is an update of their tree. */
  lemma {:induction false} PutUpdates(entries: Entries, p: Path, c: Contents)
    requires Distinct(entries)
    ensures Distinct(Put(entries, p, c))
    ensures TreeOf(Put(entries, p, c)) == TreeOf(entries)[p := FileBytes(c)]
  {
    if entries == [] {
      ConsTree((p, c), []);
      assert [(p, c)] + [] == [(p, c)];
    } else if entries[0].0 == p {
      PutReplaces(entries, p, c);
    } else {
      assert entries == [entries[0]] + entries[1..];
      ConsTree(entries[0], entries[1..]);
      PutUpdates(entries[1..], p, c);
      PutBehind(entries[0], TreeOf(entries[1..]), Put(entries[1..], p, c), p, c);
    }
  }

  lemma PutReplaces(entries: Entries, p: Path, c: Contents)
    requires Distinct(entries) && entries != [] && entries[0].0 == p
    ensures Distinct(Put(entries, p, c))
    ensures TreeOf(Put(entries, p, c)) == TreeOf(entries)[p := FileBytes(c)]
  {
    assert entries == [entries[0]] + entries[1..];
    ConsTree(entries[0], entries[1..]);
    ConsTree((p, c), entries[1..]);
  }

  lemma PutBehind(head: (Path, Contents), tree: Tree, put: Entries, p: Path, c: Contents)
    requires head.0 != p && head.0 !in tree
    requires Distinct(put) && TreeOf(put) == tree[p := FileBytes(c)]
    ensures Distinct([head] + put)
    ensures TreeOf([head] + put) == (map[head.0 := FileBytes(head.1)] + tree)[p := FileBytes(c)]
  {
    ConsTree(head, put);
  }

  lemma UpdateUnion(a: Tree, b: Tree, p: Path, bytes: Bytes)
    ensures (a + b)[p := bytes] == a + b[p := bytes]
  {
  }

  lemma {:induction false} PutOneMore(queued: Entries, tree: Tree, p: Path, c: Contents)
    requires Distinct(queued) && TreeOf(queued) == tree
    ensures Distinct(Put(queued, p, c)) && TreeOf(Put(queued, p, c)) == tree[p := FileBytes(c)]
  {
    PutUpdates(queued, p, c);
  }

  lemma {:induction false} PutAllOverlays(entries: Entries, more: Entries)
    requires Distinct(entries)
    ensures Distinct(PutAll(entries, more))
    ensures TreeOf(PutAll(entries, more)) == TreeOf(entries) + TreeOf(more)
  {
    if more != [] {
      var front := more[..|more| - 1];
      var last := more[|more| - 1];
      PutAllOverlays(entries, front);
      PutOneMore(PutAll(entries, front), TreeOf(entries) + TreeOf(front), last.0, last.1);
      UpdateUnion(TreeOf(entries), TreeOf(front), last.0, FileBytes(last.1));
    }
  }

  /** Coalesced overlays keep every file of both, the later call winning. */
  lemma CoalescedOverlays(existing: Entries, entries: Entries)
    ensures TreeOf(PutAll(PutAll([], existing), entries)) == TreeOf(existing) + TreeOf(entries)
  {
    PutAllOverlays([], existing);
    PutAllOverlays(PutAll([], existing), entries);
  }

  lemma PrefixIsAbsorbed(entries: Entries, k: nat)
    requires k <= |entries|
    ensures TreeOf(entries[..k]) + TreeOf(entries) == TreeOf(entries)
    ensures TreeOf(entries[..k]).Keys <= TreeOf(entries).Keys
  {
    assert entries == entries[..k] + entries[k..];
    TreeOfConcat(entries[..k], entries[k..]);
  }

  // ---------------------------------------------------------------- writing the queue out

  /** Visible files that a full write should have removed and did not. */
  function LeftOver(s: Project, outcome: WriteOutcome): set<Path> {
    if s.pending.Some? && s.pending.value.prune && outcome.Wrote? then
      set p | p in outcome.stuck && p in s.disk && p !in TreeOf(s.pending.value.entries) && !Hidden(p)
    else {}
  }

  lemma GitDirIsHidden(p: Path)
    ensures InGitDir(p) ==> Hidden(p)
  {
  }

  /** The tree `after` is `expected` with extra files. */
  predicate Grown(after: Tree, expected: Tree, extra: set<Path>) {
    after.Keys == expected.Keys + extra && forall p :: p in expected ==> after[p] == expected[p]
  }

  lemma GrownMap(after: Tree, expected: Tree, extra: set<Path>)
    requires Grown(after, expected, extra)
    ensures after == expected <==> extra <= expected.Keys
  {
    if extra <= expected.Keys {
      assert after.Keys == expected.Keys;
    }
  }

  lemma {:induction false} PrunedView(disk: Tree, entries: Entries, stuck: set<Path>)
    ensures Grown(Visible(Pruned(Overlay(disk, entries), TreeOf(entries).Keys, stuck)), Visible(TreeOf(entries)),
                  set p | p in stuck && p in disk && p !in TreeOf(entries) && !Hidden(p))
  {
    OverlayIsUnion(disk, entries);
    forall p: Path { GitDirIsHidden(p); }
  }

  /** The part of some litter that shows: not hidden, not overwritten by the queue, and not there already. */
  function Showing(disk: Tree, litter: Tree, queue: Tree): Tree {
    map p | p in litter && p !in queue && !Hidden(p) && !(p in disk && disk[p] == litter[p]) :: litter[p]
  }

  /** What a failed overlay adds to the tree a reader sees. */
  function Spilled(s: Project, outcome: WriteOutcome): Tree {
    if s.pending.Some? && !s.pending.value.prune
    then Showing(s.disk, Litter(s.pending.value.entries, outcome), TreeOf(s.pending.value.entries))
    else map[]
  }

  lemma LitterShows(disk: Tree, litter: Tree, queue: Tree)
    ensures Visible(disk + litter + queue) == Visible(disk + queue) + Showing(disk, litter, queue)
  {
  }

  lemma ShowingIsNew(disk: Tree, litter: Tree, queue: Tree)
    ensures var seen, showing := Visible(disk + queue), Showing(disk, litter, queue);
            seen + showing == seen <==> showing == map[]
  {
    var seen, showing := Visible(disk + queue), Showing(disk, litter, queue);
    if showing != map[] {
      var p :| p in showing;
      assert p in seen + showing && (seen + showing)[p] == showing[p];
      assert p in seen ==> seen[p] == disk[p];
    }
  }

  /** Files written on the way to a tree do not show in it, whatever was left between them. */
  lemma Absorbed(disk: Tree, part: Tree, litter: Tree, whole: Tree)
    requires part.Keys <= whole.Keys
    ensures disk + part + litter + whole == disk + litter + whole
  {
  }

  lemma FailedWriteDisk(s: Project, outcome: WriteOutcome)
    requires s.pending.Some? && outcome.Failed?
    ensures var entries := s.pending.value.entries;
            AfterPersistNow(s, outcome).disk + TreeOf(entries) == s.disk + Litter(entries, outcome) + TreeOf(entries)
    ensures var entries := s.pending.value.entries;
            forall p :: p !in TreeOf(entries) ==>
              (p in AfterPersistNow(s, outcome).disk <==> p in s.disk + Litter(entries, outcome))
  {
    var entries := s.pending.value.entries;
    var k := if outcome.after <= |entries| then outcome.after else |entries|;
    assert entries[..|entries|] == entries;
    OverlayIsUnion(s.disk, entries[..k]);
    PrefixIsAbsorbed(entries, k);
    Absorbed(s.disk, TreeOf(entries[..k]), Litter(entries, outcome), TreeOf(entries));
  }

  /** A failed overlay shows exactly what it spills. */
  lemma FailedOverlayView(s: Project, outcome: WriteOutcome)
    requires s.pending.Some? && !s.pending.value.prune && outcome.Failed?
    ensures View(AfterPersistNow(s, outcome)) == View(s) + Spilled(s, outcome)
    ensures View(s) + Spilled(s, outcome) == View(s) <==> Spilled(s, outcome) == map[]
  {
    var litter, queue := Litter(s.pending.value.entries, outcome), TreeOf(s.pending.value.entries);
    FailedWriteDisk(s, outcome);
    LitterShows(s.disk, litter, queue);
    ShowingIsNew(s.disk, litter, queue);
  }

  /**
   * A flush or timer, whether it succeeds or fails after any prefix of the files, leaves the abstract
   * tree alone exactly when no visible stale file refused to go and no temporary copy shows.
   */
  lemma WriteKeepsViewIff(s: Project, outcome: WriteOutcome)
    ensures View(AfterPersistNow(s, outcome)) == View(s) <==> LeftOver(s, outcome) == {} && Spilled(s, outcome) == map[]
  {
    if s.pending.Some? {
      var w := s.pending.value;
      if outcome.Failed? {
        if !w.prune { FailedOverlayView(s, outcome); }
      } else if w.prune {
        PrunedView(s.disk, w.entries, outcome.stuck);
        var after := View(AfterPersistNow(s, outcome));
        assert after.Keys == View(s).Keys + LeftOver(s, outcome);
        assert View(s).Keys !! LeftOver(s, outcome);
      } else {
        OverlayIsUnion(s.disk, w.entries);
      }
    }
  }

  /** A write that finishes empties the queue. */
  lemma FlushLands(s: Project, stuck: set<Path>)
    requires LeftOver(s, Wrote(stuck)) == {}
    ensures AfterPersistNow(s, Wrote(stuck)) == Project(AfterPersistNow(s, Wrote(stuck)).disk, None)
    ensures Visible(AfterPersistNow(s, Wrote(stuck)).disk) == View(s)
  {
    WriteKeepsViewIff(s, Wrote(stuck));
  }

  // ---------------------------------------------------------------- queueing

  lemma VisibleUnion(a: Tree, b: Tree)
    ensures Visible(a + b) == Visible(a) + Visible(b)
  {
  }

  lemma QueuedFullView(s: Project, entries: Entries, deadline: int, timer: Option<nat>)
    ensures View(Queued(s, entries, true, deadline, timer)) == Visible(TreeOf(entries))
  {
  }

  /** Queueing an overlay on top of nothing, or of another overlay. */
  lemma QueuedPartialView(s: Project, entries: Entries, deadline: int, timer: Option<nat>)
    requires s.pending.Some? ==> !s.pending.value.prune
    ensures View(Queued(s, entries, false, deadline, timer)) == View(s) + Visible(TreeOf(entries))
  {
    if s.pending.Some? {
      var w := s.pending.value;
      CoalescedOverlays(w.entries, entries);
      assert s.disk + (TreeOf(w.entries) + TreeOf(entries)) == (s.disk + TreeOf(w.entries)) + TreeOf(entries);
      VisibleUnion(s.disk + TreeOf(w.entries), TreeOf(entries));
    } else {
      VisibleUnion(s.disk, TreeOf(entries));
    }
  }

  /** The disk with the temporary copies that the flushes forced by a partial write left. */
  function Littered(s: Project, first: WriteOutcome, second: WriteOutcome): Tree {
    if s.pending.None? then s.disk
    else
      s.disk + Litter(s.pending.value.entries, first)
      + (if first.Failed? then Litter(s.pending.value.entries, second) else map[])
  }

  /** Visible stale files, temporary copies among them, still there after the flushes forced by a partial write. */
  function LeftBehind(s: Project, first: WriteOutcome, second: WriteOutcome): set<Path> {
    if s.pending.Some? && s.pending.value.prune then
      set p | p in Littered(s, first, second) && p !in TreeOf(s.pending.value.entries) && !Hidden(p)
              && (if first.Wrote? then p in first.stuck else if second.Wrote? then p in second.stuck else true)
    else {}
  }

  lemma FailedTwice(s: Project, first: WriteOutcome, second: WriteOutcome) returns (disk: Tree)
    requires s.pending.Some? && s.pending.value.prune && first.Failed? && second.Failed?
    ensures AfterForcedFlush(AfterForcedFlush(s, false, first), false, second)
            == Project(disk, Some(s.pending.value.(timer := None)))
    ensures disk + TreeOf(s.pending.value.entries) == Littered(s, first, second) + TreeOf(s.pending.value.entries)
  {
    var once := AfterForcedFlush(s, false, first);
    FailedWriteDisk(s, first);
    FailedWriteDisk(once, second);
    disk := AfterPersistNow(once, second).disk;
    var all, litter := TreeOf(s.pending.value.entries), Litter(s.pending.value.entries, second);
    LitterOnTop(once.disk, s.disk + Litter(s.pending.value.entries, first), litter, all);
  }

  lemma LitterOnTop(a: Tree, b: Tree, litter: Tree, all: Tree)
    requires a + all == b + all
    ensures a + litter + all == b + litter + all
  {
    forall p | p in a && p !in all ensures p in b && a[p] == b[p] {
      assert p in a + all && (a + all)[p] == a[p];
    }
    forall p | p in b && p !in all ensures p in a {
      assert p in b + all;
    }
  }

  /** Both forced flushes failed: the full write becomes an overlay, and its pruning is lost. */
  lemma PruneLostView(s: Project, entries: Entries, deadline: int, timer: Option<nat>, first: WriteOutcome,
                      second: WriteOutcome)
    requires s.pending.Some? && s.pending.value.prune && first.Failed? && second.Failed?
    ensures var flushed := AfterForcedFlush(AfterForcedFlush(s, false, first), false, second);
            Grown(View(Queued(flushed, entries, false, deadline, timer)), View(s) + Visible(TreeOf(entries)),
                  LeftBehind(s, first, second))
  {
    var w := s.pending.value;
    var disk := FailedTwice(s, first, second);
    CoalescedOverlays(w.entries, entries);
    StaleSurvive(disk, Littered(s, first, second), TreeOf(w.entries), TreeOf(entries));
  }

  lemma UnionRegroups(disk: Tree, before: Tree, full: Tree, more: Tree)
    requires disk + full == before + full
    ensures disk + (full + more) == before + full + more
  {
    assert disk + (full + more) == disk + full + more;
  }

  lemma StaleSurvive(disk: Tree, before: Tree, full: Tree, more: Tree)
    requires disk + full == before + full
    ensures Grown(Visible(disk + (full + more)), Visible(full) + Visible(more),
                  set p | p in before && p !in full && !Hidden(p))
  {
    UnionRegroups(disk, before, full, more);
    VisibleUnion(before + full, more);
    VisibleUnion(before, full);
    var stale := set p | p in before && p !in full && !Hidden(p);
    assert (Visible(before) + Visible(full)).Keys == Visible(full).Keys + stale;
  }

  /** The project once a partial write is queued. */
  function QueuedPartial(s: Project, entries: Entries, deadline: int, timer: Option<nat>,
                         first: WriteOutcome, second: WriteOutcome): Project
  {
    Queued(AfterForcedFlush(AfterForcedFlush(s, false, first), false, second), entries, false, deadline, timer)
  }

  lemma QueuedPartialGrows(s: Project, entries: Entries, deadline: int, timer: Option<nat>,
                           first: WriteOutcome, second: WriteOutcome)
    ensures Grown(View(QueuedPartial(s, entries, deadline, timer, first, second)), View(s) + Visible(TreeOf(entries)),
                  LeftBehind(s, first, second))
    ensures LeftBehind(s, first, second) <= (View(s) + Visible(TreeOf(entries))).Keys
            <==> LeftBehind(s, first, second) <= TreeOf(entries).Keys
  {
    var s2 := AfterForcedFlush(AfterForcedFlush(s, false, first), false, second);
    if s.pending.Some? && s.pending.value.prune {
      if first.Wrote? || second.Wrote? {
        var stuck := if first.Wrote? then first.stuck else second.stuck;
        FlushedThenQueued(s, s2, entries, deadline, timer, first, second, stuck);
      } else {
        PruneLostView(s, entries, deadline, timer, first, second);
      }
      assert forall p :: p in LeftBehind(s, first, second) ==> p !in TreeOf(s.pending.value.entries) && !Hidden(p);
    } else {
      QueuedPartialView(s2, entries, deadline, timer);
    }
  }

  lemma OverlayKeepsPaths(s: Project, outcome: WriteOutcome)
    requires s.pending.Some? && !s.pending.value.prune
    ensures View(s).Keys <= View(AfterPersistNow(s, outcome)).Keys
  {
    if outcome.Failed? { FailedOverlayView(s, outcome); } else { WriteKeepsViewIff(s, outcome); }
  }

  /**
   * The exact side condition of persistPartial: it overlays the abstract tree unless a stale file that a
   * queued full write was to remove, or a temporary copy of a failed write, shows and is not overwritten.
   */
  lemma PartialOverlaysIff(s: Project, entries: Entries, deadline: int, timer: Option<nat>,
                           first: WriteOutcome, second: WriteOutcome, immediate: WriteOutcome)
    ensures View(AfterPartial(s, entries, deadline, timer, first, second, immediate))
            == View(s) + Visible(TreeOf(entries))
            <==> LeftBehind(s, first, second) <= TreeOf(entries).Keys
                 && (timer.None? ==>
                       Spilled(QueuedPartial(s, entries, deadline, timer, first, second), immediate) == map[])
  {
    var queued := QueuedPartial(s, entries, deadline, timer, first, second);
    QueuedPartialGrows(s, entries, deadline, timer, first, second);
    GrownMap(View(queued), View(s) + Visible(TreeOf(entries)), LeftBehind(s, first, second));
    WriteKeepsViewIff(queued, immediate);
    OverlayKeepsPaths(queued, immediate);
  }

  lemma FlushedThenQueued(s: Project, s2: Project, entries: Entries, deadline: int, timer: Option<nat>,
                          first: WriteOutcome, second: WriteOutcome, stuck: set<Path>)
    requires s.pending.Some? && s.pending.value.prune && (first.Wrote? || second.Wrote?)
    requires stuck == if first.Wrote? then first.stuck else second.stuck
    requires s2 == AfterForcedFlush(AfterForcedFlush(s, false, first), false, second)
    ensures Grown(View(Queued(s2, entries, false, deadline, timer)), View(s) + Visible(TreeOf(entries)),
                  LeftBehind(s, first, second))
  {
    QueuedPartialView(s2, entries, deadline, timer);
    FlushedView(s, s2, first, second, stuck);
  }

  lemma FlushedView(s: Project, s2: Project, first: WriteOutcome, second: WriteOutcome, stuck: set<Path>)
    requires s.pending.Some? && s.pending.value.prune && (first.Wrote? || second.Wrote?)
    requires stuck == if first.Wrote? then first.stuck else second.stuck
    requires s2 == AfterForcedFlush(AfterForcedFlush(s, false, first), false, second)
    ensures s2.pending.None? && Grown(Visible(s2.disk), View(s), LeftBehind(s, first, second))
  {
    var w := s.pending.value;
    if first.Wrote? {
      PrunedView(s.disk, w.entries, stuck);
    } else {
      FailedWriteDisk(s, first);
      PrunedView(AfterPersistNow(s, first).disk, w.entries, stuck);
    }
  }

  // ---------------------------------------------------------------- whole runs

  /** One event of a project's life. WriteNow is persistNow, flush and a timer going off. */
  datatype Op =
    | Persist(tree: Entries, deadline: int, timer: Option<nat>, forced: WriteOutcome, immediate: WriteOutcome)
    | PersistPartial(changed: Entries, deadline: int, timer: Option<nat>,
                     first: WriteOutcome, second: WriteOutcome, immediate: WriteOutcome)
    | WriteNow(outcome: WriteOutcome)
    | Delete(survivors: set<Path>)

  function Step(s: Project, op: Op): Project {
    match op
    case Persist(tree, deadline, timer, forced, immediate) =>
      AfterSchedule(s, tree, true, deadline, timer, forced, immediate)
    case PersistPartial(changed, deadline, timer, first, second, immediate) =>
      AfterPartial(s, changed, deadline, timer, first, second, immediate)
    case WriteNow(outcome) => AfterPersistNow(s, outcome)
    case Delete(survivors) => Project(map p | p in s.disk && p in survivors :: s.disk[p], None)
  }

  /** The store with no buffer. */
  function Immediate(t: Tree, op: Op): Tree {
    match op
    case Persist(tree, _, _, _, _) => Visible(TreeOf(tree))
    case PersistPartial(changed, _, _, _, _, _) => t + Visible(TreeOf(changed))
    case WriteNow(_) => t
    case Delete(_) => map[]
  }

  predicate Clean(s: Project, op: Op) {
    match op
    case Persist(tree, deadline, timer, forced, immediate) =>
      timer.Some? || LeftOver(Queued(AfterForcedFlush(s, true, forced), tree, true, deadline, timer), immediate) == {}
    case PersistPartial(changed, deadline, timer, first, second, immediate) =>
      && LeftBehind(s, first, second) <= TreeOf(changed).Keys
      && (timer.None? ==> Spilled(QueuedPartial(s, changed, deadline, timer, first, second), immediate) == map[])
    case WriteNow(outcome) => LeftOver(s, outcome) == {} && Spilled(s, outcome) == map[]
    case Delete(survivors) => forall p :: p in s.disk && p in survivors ==> Hidden(p)
  }

  /** One event of the buffered store does to the abstract tree what the unbuffered store does, exactly when Clean. */
  lemma StepRefinesIff(s: Project, op: Op)
    ensures View(Step(s, op)) == Immediate(View(s), op) <==> Clean(s, op)
  {
    match op
    case Persist(tree, deadline, timer, forced, immediate) =>
      var flushed := AfterForcedFlush(s, true, forced);
      QueuedFullView(flushed, tree, deadline, timer);
      WriteKeepsViewIff(Queued(flushed, tree, true, deadline, timer), immediate);
    case PersistPartial(changed, deadline, timer, first, second, immediate) =>
      PartialOverlaysIff(s, changed, deadline, timer, first, second, immediate);
    case WriteNow(outcome) => WriteKeepsViewIff(s, outcome);
    case Delete(survivors) =>
      var after := View(Step(s, op));
      assert forall p :: p in after <==> p in s.disk && p in survivors && !Hidden(p);
      assert after == map[] <==> forall p :: p !in after;
  }

  function Run(s: Project, ops: seq<Op>): Project
    decreases ops
  {
    if ops == [] then s else Run(Step(s, ops[0]), ops[1..])
  }

  function ImmediateRun(t: Tree, ops: seq<Op>): Tree
    decreases ops
  {
    if ops == [] then t else ImmediateRun(Immediate(t, ops[0]), ops[1..])
  }

  predicate CleanRun(s: Project, ops: seq<Op>)
    decreases ops
  {
    ops == [] || (Clean(s, ops[0]) && CleanRun(Step(s, ops[0]), ops[1..]))
  }

  lemma {:induction false} RunRefines(s: Project, ops: seq<Op>)
    requires CleanRun(s, ops)
    ensures View(Run(s, ops)) == ImmediateRun(View(s), ops)
    decreases ops
  {
    if ops != [] {
      StepRefinesIff(s, ops[0]);
      RunRefines(Step(s, ops[0]), ops[1..]);
    }
  }

  /** After any clean run, one successful flush makes a reader see exactly what the unbuffered store holds. */
  lemma FlushedRunIsExact(s: Project, ops: seq<Op>, stuck: set<Path>)
    requires CleanRun(s, ops) && LeftOver(Run(s, ops), Wrote(stuck)) == {}
    ensures var final := AfterPersistNow(Run(s, ops), Wrote(stuck));
            final.pending == None && ReadBack(Visible(final.disk)) == ReadBack(ImmediateRun(View(s), ops))
  {
    RunRefines(s, ops);
    FlushLands(Run(s, ops), stuck);
  }

  /** No temporary copy is left behind. */
  predicate Tidy(outcome: WriteOutcome) {
    outcome.Failed? ==> outcome.temp.None?
  }

  /**
   * Faults that never matter: writes of full trees that fail, overlays that fail and leave no temporary
   * copy, as long as removals work and a flush forced by a partial write gets through.
   */
  predicate Benign(s: Project, op: Op) {
    match op
    case Persist(_, _, _, forced, immediate) => immediate.Wrote? ==> immediate.stuck == {}
    case PersistPartial(_, _, timer, first, second, immediate) =>
      && (first.Wrote? ==> first.stuck == {})
      && (second.Wrote? ==> second.stuck == {})
      && (s.pending.Some? && s.pending.value.prune ==> first.Wrote? || second.Wrote?)
      && (timer.None? ==> Tidy(immediate))
    case WriteNow(outcome) =>
      if outcome.Wrote? then outcome.stuck == {} else s.pending.Some? && !s.pending.value.prune ==> Tidy(outcome)
    case Delete(survivors) => survivors == {}
  }

  lemma BenignIsClean(s: Project, op: Op)
    requires Benign(s, op)
    ensures Clean(s, op)
  {
  }

  /**
   * A failed overlay that leaves its temporary copy shows it for good: after the next write succeeds, a
   * reader finds a file that no caller ever wrote.
   */
  lemma TempIsServed(s: Project, failed: WriteOutcome)
    requires s.pending.Some? && !s.pending.value.prune && failed.Failed? && Spilled(s, failed) != map[]
    ensures var ops := [WriteNow(failed), WriteNow(Wrote({}))];
            forall p :: p in Spilled(s, failed) ==>
              p in Visible(Run(s, ops).disk) && Visible(Run(s, ops).disk)[p] == Spilled(s, failed)[p]
              && (p !in ImmediateRun(View(s), ops) || ImmediateRun(View(s), ops)[p] != Spilled(s, failed)[p])
  {
    RunTwo(s, WriteNow(failed), WriteNow(Wrote({})));
    FailedOverlayView(s, failed);
    FlushLands(Step(s, WriteNow(failed)), {});
  }

  /** Whatever came before, a full write that gets through with every removal shows exactly its own tree. */
  lemma FullWriteRestores(s: Project, ops: seq<Op>, tree: Entries, deadline: int, forced: WriteOutcome,
                          immediate: WriteOutcome)
    requires immediate == Wrote({})
    ensures Visible(Step(Run(s, ops), Persist(tree, deadline, None, forced, immediate)).disk) == Visible(TreeOf(tree))
  {
    var queued := Queued(AfterForcedFlush(Run(s, ops), true, forced), tree, true, deadline, None);
    QueuedFullView(AfterForcedFlush(Run(s, ops), true, forced), tree, deadline, None);
    FlushLands(queued, {});
  }

  /**
   * The case that must be excluded: both flushes forced by an overlay fail, and a file the queued
   * full write had dropped is back in the abstract tree, to stay there when the queue is written.
   */
  lemma PruneIsLost(s: Project, changed: Entries, deadline: int, timer: Option<nat>,
                    first: WriteOutcome, second: WriteOutcome, p: Path)
    requires s.pending.Some? && s.pending.value.prune && timer.Some? && first.Failed? && second.Failed?
    requires p in s.disk && !Hidden(p) && p !in TreeOf(s.pending.value.entries) && p !in TreeOf(changed)
    ensures var op := PersistPartial(changed, deadline, timer, first, second, Wrote({}));
            var ops := [op, WriteNow(Wrote({}))];
            p in Visible(Run(s, ops).disk) && p !in ImmediateRun(View(s), ops)
  {
    var op := PersistPartial(changed, deadline, timer, first, second, Wrote({}));
    RunTwo(s, op, WriteNow(Wrote({})));
    PruneLostView(s, changed, deadline, timer, first, second);
    FlushLands(Step(s, op), {});
  }

  lemma RunTwo(s: Project, a: Op, b: Op)
    ensures Run(s, [a, b]) == Step(Step(s, a), b)
    ensures forall t :: ImmediateRun(t, [a, b]) == Immediate(Immediate(t, a), b)
  {
    assert [a, b][1..] == [b] && [b][1..] == [];
    assert Run(Step(s, a), [b]) == Run(Step(Step(s, a), b), []);
    forall t ensures ImmediateRun(t, [a, b]) == Immediate(Immediate(t, a), b) {
      assert ImmediateRun(Immediate(t, a), [b]) == ImmediateRun(Immediate(Immediate(t, a), b), []);
    }
  }
}
