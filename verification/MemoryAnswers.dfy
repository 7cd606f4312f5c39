/**
 * When an add to the memory store is stored, and for each refusal its exact cause.
 */
module MemoryAnswers {
  import opened Strings
  import opened MemoryStore
  import opened MemoryProofs

  // ---------------------------------------------------------------- caps and sizes

  /** An override wins if it is positive, then the environment if positive, then the default. */
  lemma CapsResolved(capBytes: Option<int>, capEntries: Option<int>, keepRecent: Option<int>,
                     envBytes: Option<int>, envEntries: Option<int>)
    ensures var caps := ResolveCaps(capBytes, capEntries, keepRecent, envBytes, envEntries);
            && Resolves(caps.capBytes, capBytes, envBytes, 65536)
            && Resolves(caps.capEntries, capEntries, envEntries, 200)
            && (keepRecent.Some? && 0 <= keepRecent.value < caps.capEntries ==> caps.keepRecent == keepRecent.value)
            && (keepRecent.Some? && keepRecent.value >= caps.capEntries ==> caps.keepRecent == caps.capEntries - 1)
            && (keepRecent.None? || keepRecent.value < 0 ==>
                  caps.keepRecent == if caps.capEntries > 20 then 20 else caps.capEntries - 1)
  {
  }

  predicate Resolves(n: int, given: Option<int>, env: Option<int>, default: int) {
    if given.Some? && given.value > 0 then n == given.value
    else if env.Some? && env.value > 0 then n == env.value
    else n == default
  }

  /** An empty document is its frame and two brackets; each entry adds its own bytes, the line breaks and a comma. */
  lemma BytesGrow(config: Config, mode: Mode, entries: seq<Entry>, e: Entry)
    ensures DocumentBytes(config, mode, []) == config.frameBytes(mode) + 2
    ensures DocumentBytes(config, mode, entries + [e])
            == DocumentBytes(config, mode, entries) + config.entryBytes(e) + if entries == [] then 4 else 2
  {
    assert (entries + [e])[..|entries|] == entries;
  }

  /** At most so many entries, and at most so many bytes. */
  predicate FitsBoth(config: Config, mode: Mode, entries: seq<Entry>) {
    |entries| <= config.capEntries && DocumentBytes(config, mode, entries) <= config.capBytes
  }

  // ---------------------------------------------------------------- automatic adds

  function NewEntry(input: Input, stamp: Stamp): Entry
    requires input.kind.Given?
  {
    Entry(stamp.entryId, input.kind.kind, input.text, stamp.at, FromAgent)
  }

  /** The entries with the new one behind them, and the same oldest first. */
  function Candidate(doc: Document, input: Input, stamp: Stamp): seq<Entry>
    requires input.kind.Given?
  {
    doc.entries + [NewEntry(input, stamp)]
  }

  function Ordered(doc: Document, input: Input, stamp: Stamp): (r: seq<Entry>)
    requires input.kind.Given?
    ensures |r| == |doc.entries| + 1
  {
    OldestFirstLength(Candidate(doc, input, stamp));
    OldestFirst(Candidate(doc, input, stamp))
  }

  /** The text that stands for all but the newest k entries; none if there is nothing to fold. */
  function Digest(config: Config, ordered: seq<Entry>, k: nat): Option<string>
    requires k <= |ordered|
  {
    if k == |ordered| then None
    else
      match config.summarize(ordered[..|ordered| - k])
      case None => Some("")
      case Some(text) => Some(Trim(text))
  }

  /** What keeping the newest k entries would store: one summary of the others in front of them. */
  function Shrunk(config: Config, ordered: seq<Entry>, k: nat, stamp: Stamp): seq<Entry>
    requires k <= |ordered|
  {
    var digest := Digest(config, ordered, k);
    if digest.None? then ordered
    else [Entry(stamp.summaryId, Summary, digest.value, stamp.at, FromAgent)] + ordered[|ordered| - k..]
  }

  lemma ShrunkIsFolded(config: Config, ordered: seq<Entry>, k: nat, stamp: Stamp)
    requires k <= |ordered|
    ensures Shrunk(config, ordered, k, stamp) == Folded(config, ordered, k, stamp.summaryId, stamp.at)
    ensures Usable(config, ordered, k) <==> Digest(config, ordered, k) != Some("")
  {
    if k == |ordered| {
      FoldNothing(config, ordered, stamp.summaryId, stamp.at);
    } else {
      assert Overflow(ordered, k) != [];
    }
  }

  /** Tails of the newest entries are tried from the longest, of at most keepRecent entries, down. */
  predicate Tried(config: Config, ordered: seq<Entry>, k: int) {
    0 <= k <= config.keepRecent && k <= |ordered|
  }

  predicate TailFits(config: Config, mode: Mode, ordered: seq<Entry>, k: int, stamp: Stamp) {
    Tried(config, ordered, k) && FitsBoth(config, mode, Shrunk(config, ordered, k, stamp))
  }

  predicate TailHasDigest(config: Config, ordered: seq<Entry>, k: int) {
    Tried(config, ordered, k) && Digest(config, ordered, k) != Some("")
  }

  /** A tail that fits, with a digest for it and for every longer one. */
  ghost predicate SomeTailWorks(config: Config, mode: Mode, ordered: seq<Entry>, stamp: Stamp) {
    exists k :: TailFits(config, mode, ordered, k, stamp)
                && forall j :: k <= j && Tried(config, ordered, j) ==> TailHasDigest(config, ordered, j)
  }

  /** A tail without a digest, and no longer one fits or lacks a digest. */
  ghost predicate SomeTailFails(config: Config, mode: Mode, ordered: seq<Entry>, stamp: Stamp) {
    exists k :: Tried(config, ordered, k) && !TailHasDigest(config, ordered, k)
                && forall j :: k < j && Tried(config, ordered, j) ==>
                     TailHasDigest(config, ordered, j) && !TailFits(config, mode, ordered, j, stamp)
  }

  /** Every tail has a digest and none fits. */
  ghost predicate NoTailFits(config: Config, mode: Mode, ordered: seq<Entry>, stamp: Stamp) {
    forall k :: Tried(config, ordered, k) ==>
      TailHasDigest(config, ordered, k) && !TailFits(config, mode, ordered, k, stamp)
  }

  /** Of the three, at most one holds. */
  lemma OneVerdict(config: Config, mode: Mode, ordered: seq<Entry>, stamp: Stamp)
    ensures !(SomeTailWorks(config, mode, ordered, stamp) && SomeTailFails(config, mode, ordered, stamp))
    ensures !(SomeTailWorks(config, mode, ordered, stamp) && NoTailFits(config, mode, ordered, stamp))
    ensures !(SomeTailFails(config, mode, ordered, stamp) && NoTailFits(config, mode, ordered, stamp))
  {
  }

  lemma TailsMatch(config: Config, mode: Mode, ordered: seq<Entry>, stamp: Stamp)
    ensures forall k: nat :: Tried(config, ordered, k) ==>
              && (TailHasDigest(config, ordered, k) <==> Usable(config, ordered, k))
              && (TailFits(config, mode, ordered, k, stamp) <==>
                  Fits(config, mode, ordered, k, stamp.summaryId, stamp.at))
  {
    forall k: nat | Tried(config, ordered, k)
      ensures TailHasDigest(config, ordered, k) <==> Usable(config, ordered, k)
      ensures TailFits(config, mode, ordered, k, stamp) <==>
              Fits(config, mode, ordered, k, stamp.summaryId, stamp.at)
    {
      ShrunkIsFolded(config, ordered, k, stamp);
    }
  }

  lemma DecidedVerdict(config: Config, mode: Mode, ordered: seq<Entry>, r: Eviction, first: nat, keep: nat,
                       stamp: Stamp)
    requires keep <= first <= |ordered| && first == if config.keepRecent <= |ordered| then config.keepRecent
             else |ordered|
    requires TriedAbove(config, mode, ordered, keep, first, stamp.summaryId, stamp.at)
    requires Decides(config, mode, ordered, r, keep, stamp.summaryId, stamp.at)
    ensures r.Fit? ==> SomeTailWorks(config, mode, ordered, stamp)
    ensures r.SummaryFailed? ==> SomeTailFails(config, mode, ordered, stamp)
    ensures r.CapUnsatisfiable? ==> NoTailFits(config, mode, ordered, stamp)
    ensures r.Fit? ==> Stands(config, mode, ordered, r, stamp)
  {
    TailsMatch(config, mode, ordered, stamp);
    ShrunkIsFolded(config, ordered, keep, stamp);
    assert Tried(config, ordered, keep);
  }

  /** The eviction kept a tail that fits, behind the summary of the rest. */
  predicate Stands(config: Config, mode: Mode, ordered: seq<Entry>, r: Eviction, stamp: Stamp)
    requires r.Fit?
  {
    TailFits(config, mode, ordered, r.kept, stamp) && r.entries == Shrunk(config, ordered, r.kept, stamp)
  }

  /** What the eviction of an over-full candidate answers, in terms of the tails alone. */
  lemma EvictionIff(config: Config, doc: Document, input: Input, stamp: Stamp)
    requires input.kind.Given?
    ensures var ordered := Ordered(doc, input, stamp);
            var r := EvictCandidate(config, doc.mode, Candidate(doc, input, stamp), stamp.summaryId, stamp.at);
            && (r.Fit? <==> SomeTailWorks(config, doc.mode, ordered, stamp))
            && (r.SummaryFailed? <==> SomeTailFails(config, doc.mode, ordered, stamp))
            && (r.CapUnsatisfiable? <==> NoTailFits(config, doc.mode, ordered, stamp))
            && (r.Fit? ==> Stands(config, doc.mode, ordered, r, stamp))
  {
    var ordered := Ordered(doc, input, stamp);
    var first := FirstKeep(config, Candidate(doc, input, stamp));
    var keep := EvictMeaning(config, doc.mode, ordered, first, stamp.summaryId, stamp.at);
    var r := EvictCandidate(config, doc.mode, Candidate(doc, input, stamp), stamp.summaryId, stamp.at);
    DecidedVerdict(config, doc.mode, ordered, r, first, keep, stamp);
    OneVerdict(config, doc.mode, ordered, stamp);
  }

  /** An automatic add is stored if and only if memory is on, its kind is valid, and it fits or can be made to fit. */
  lemma AutoAddStoredIff(config: Config, doc: Document, input: Input, stamp: Stamp)
    ensures Stored(AutoAdd(config, doc, input, stamp).1) <==>
            && doc.mode != Off && input.kind.Given?
            && (|| FitsBoth(config, doc.mode, Candidate(doc, input, stamp))
                || (&& doc.mode == Auto
                    && DocumentBytes(config, Auto, [NewEntry(input, stamp)]) <= config.capBytes
                    && SomeTailWorks(config, Auto, Ordered(doc, input, stamp), stamp)))
  {
    if input.kind.Given? { EvictionIff(config, doc, input, stamp); }
  }

  /** What is stored: the entry behind the others if that fits, else the summary and the newest entries. */
  lemma AutoAddStores(config: Config, doc: Document, input: Input, stamp: Stamp)
    requires Stored(AutoAdd(config, doc, input, stamp).1)
    ensures input.kind.Given?
    ensures var (next, r) := AutoAdd(config, doc, input, stamp);
            && next.mode == doc.mode
            && (r.Added? <==> FitsBoth(config, doc.mode, Candidate(doc, input, stamp)))
            && (r.Added? ==>
                  next.entries == doc.entries + [NewEntry(input, stamp)] && r == Added(NewEntry(input, stamp)))
            && (!r.Added? ==> SomeTailIs(config, doc.mode, Ordered(doc, input, stamp), stamp, next.entries))
            && (r.AddedEvicting? && r.kept.Some? ==> r.kept.value == NewEntry(input, stamp))
  {
    EvictionIff(config, doc, input, stamp);
    var r := EvictCandidate(config, doc.mode, Candidate(doc, input, stamp), stamp.summaryId, stamp.at);
    assert r.Fit? ==> Stands(config, doc.mode, Ordered(doc, input, stamp), r, stamp);
  }

  /** The entries are what a tail that fits leaves. */
  ghost predicate SomeTailIs(config: Config, mode: Mode, ordered: seq<Entry>, stamp: Stamp, entries: seq<Entry>) {
    exists k :: TailFits(config, mode, ordered, k, stamp) && entries == Shrunk(config, ordered, k, stamp)
  }

  /** Each refusal of an automatic add, with its exact cause; a refusal leaves the document alone. */
  lemma AutoAddRefusedIff(config: Config, doc: Document, input: Input, stamp: Stamp)
    ensures var (next, r) := AutoAdd(config, doc, input, stamp);
            && (r.RefusedOff? <==> doc.mode == Off)
            && (r.RefusedInvalid? <==> doc.mode != Off && !input.kind.Given?)
            && (!Stored(r) ==> next == doc)
    ensures input.kind.Given? && doc.mode != Off ==>
              var r := AutoAdd(config, doc, input, stamp).1;
              var over := !FitsBoth(config, doc.mode, Candidate(doc, input, stamp));
              var tooLarge := DocumentBytes(config, doc.mode, [NewEntry(input, stamp)]) > config.capBytes;
              && (r.RefusedFull? <==> over && doc.mode == Manual)
              && (r.RefusedTooLarge? <==> over && doc.mode == Auto && tooLarge)
              && (r.RefusedSummary? <==> over && doc.mode == Auto && !tooLarge
                                         && SomeTailFails(config, Auto, Ordered(doc, input, stamp), stamp))
              && (r.RefusedCaps? <==> over && doc.mode == Auto && !tooLarge
                                      && NoTailFits(config, Auto, Ordered(doc, input, stamp), stamp))
  {
    if input.kind.Given? { EvictionIff(config, doc, input, stamp); }
  }

  // ---------------------------------------------------------------- the user's adds, and whole runs

  /** A user's add is stored unless its kind is invalid, whatever the mode and the caps; its kind defaults to user. */
  lemma UserAddStoredIff(config: Config, doc: Document, input: Input, stamp: Stamp)
    ensures var (next, r) := UserAdd(config, doc, input, stamp);
            && (Stored(r) <==> !input.kind.Invalid?) && (!Stored(r) ==> next == doc && r == RefusedInvalid)
            && (Stored(r) ==>
                  var kind := if input.kind.Missing? then User else input.kind.kind;
                  var entry := Entry(stamp.entryId, kind, input.text, stamp.at, FromUser);
                  && next == Document(doc.mode, doc.entries + [entry])
                  && r == AddedByUser(entry, !FitsBoth(config, doc.mode, doc.entries + [entry])))
  {
  }

  /** A write that fails leaves the file and its texts as they were. */
  lemma FailedWriteKeeps(config: Config, h: History, op: Op)
    requires !op.writeOk
    ensures Step(config, h, op) == h
  {
  }

  /** The operation is an automatic add that reads the file. */
  predicate ReadsAndAdds(op: Op) {
    op.AutoOp? && op.readOk
  }

  /** An automatic add that reads the mode as off changes neither the file nor what is recorded. */
  lemma OffStepIsFrozen(config: Config, h: History, op: Op)
    requires op.AutoOp? && Seen(h.file, op.readOk).mode == Off
    ensures Step(config, h, op) == h
  {
    AutoAddRefusedIff(config, Seen(h.file, op.readOk), op.input, op.stamp);
  }

  /** While memory is off no run of automatic adds changes the file, or records a text. */
  lemma {:induction false} OffIsFrozen(config: Config, h: History, ops: seq<Op>)
    requires h.file.Some? && h.file.value.mode == Off && forall i :: 0 <= i < |ops| ==> ReadsAndAdds(ops[i])
    ensures Run(config, h, ops) == h
    decreases ops
  {
    if ops != [] {
      assert ReadsAndAdds(ops[0]);
      OffStepIsFrozen(config, h, ops[0]);
      OffIsFrozen(config, h, ops[1..]);
    }
  }

  // ---------------------------------------------------------------- entries of the same time

  function AtTime(entries: seq<Entry>, at: int): seq<Entry> {
    if entries == [] then []
    else
      var last := entries[|entries| - 1];
      AtTime(entries[..|entries| - 1], at) + if last.createdAt == at then [last] else []
  }

  lemma AtTimeSnoc(entries: seq<Entry>, e: Entry, at: int)
    ensures AtTime(entries + [e], at) == AtTime(entries, at) + if e.createdAt == at then [e] else []
  {
    assert (entries + [e])[..|entries|] == entries;
  }

  lemma {:induction false} InsertGoesLast(sorted: seq<Entry>, e: Entry, at: int)
    ensures AtTime(Insert(sorted, e), at) == AtTime(sorted, at) + if e.createdAt == at then [e] else []
  {
    if sorted == [] || sorted[|sorted| - 1].createdAt <= e.createdAt {
      AtTimeSnoc(sorted, e, at);
    } else {
      var front, last := sorted[..|sorted| - 1], sorted[|sorted| - 1];
      InsertGoesLast(front, e, at);
      AtTimeSnoc(Insert(front, e), last, at);
    }
  }

  /** Entries of the same time keep the order they were stored in. */
  lemma {:induction false} OldestFirstIsStable(entries: seq<Entry>, at: int)
    ensures AtTime(OldestFirst(entries), at) == AtTime(entries, at)
  {
    if entries != [] {
      OldestFirstIsStable(entries[..|entries| - 1], at);
      InsertGoesLast(OldestFirst(entries[..|entries| - 1]), entries[|entries| - 1], at);
    }
  }
}
