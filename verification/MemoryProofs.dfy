/**
 * What eviction guarantees: the exact shape and maximality of the result, and that with
 * the default summarizer no stored text is ever lost, however often it is summarized.
 */
module MemoryProofs {
  import opened Strings
  import opened MemoryStore

  // ---------------------------------------------------------------- sorting

  lemma {:induction false} InsertKeeps(config: Config, sorted: seq<Entry>, e: Entry)
    ensures multiset(Insert(sorted, e)) == multiset(sorted) + multiset{e}
    ensures SumBytes(config, Insert(sorted, e)) == SumBytes(config, sorted) + config.entryBytes(e)
  {
    if sorted == [] || sorted[|sorted| - 1].createdAt <= e.createdAt {
      assert (sorted + [e])[..|sorted + [e]| - 1] == sorted;
    } else {
      var front, last := sorted[..|sorted| - 1], sorted[|sorted| - 1];
      assert sorted == front + [last];
      InsertKeeps(config, front, e);
      var all := Insert(front, e) + [last];
      assert all[..|all| - 1] == Insert(front, e);
    }
  }

  /** Sorting permutes the entries, so it does not change their size. */
  lemma {:induction false} OldestFirstKeeps(config: Config, entries: seq<Entry>)
    ensures multiset(OldestFirst(entries)) == multiset(entries)
    ensures SumBytes(config, OldestFirst(entries)) == SumBytes(config, entries)
  {
    if entries != [] {
      var front, last := entries[..|entries| - 1], entries[|entries| - 1];
      assert entries == front + [last];
      OldestFirstKeeps(config, front);
      InsertKeeps(config, OldestFirst(front), last);
    }
  }

  lemma {:induction false} InsertSorts(sorted: seq<Entry>, e: Entry)
    requires Sorted(sorted)
    ensures Sorted(Insert(sorted, e))
    ensures forall i :: 0 <= i < |Insert(sorted, e)| ==> Insert(sorted, e)[i] == e || Insert(sorted, e)[i] in sorted
  {
    if !(sorted == [] || sorted[|sorted| - 1].createdAt <= e.createdAt) {
      InsertSorts(sorted[..|sorted| - 1], e);
      var rest := Insert(sorted[..|sorted| - 1], e);
      forall i | 0 <= i < |rest| ensures rest[i].createdAt <= sorted[|sorted| - 1].createdAt {
        if rest[i] != e {
          var j :| 0 <= j < |sorted| - 1 && sorted[j] == rest[i];
        }
      }
    }
  }

  lemma {:induction false} OldestFirstSorts(entries: seq<Entry>)
    ensures Sorted(OldestFirst(entries))
  {
    if entries != [] {
      OldestFirstSorts(entries[..|entries| - 1]);
      InsertSorts(OldestFirst(entries[..|entries| - 1]), entries[|entries| - 1]);
    }
  }

  // ---------------------------------------------------------------- eviction

  /** Folding down to `keep` verbatim entries has a gist for whatever it folds. */
  predicate Usable(config: Config, ordered: seq<Entry>, keep: nat)
    requires keep <= |ordered|
  {
    Overflow(ordered, keep) == [] || Gist(config, Overflow(ordered, keep)) != ""
  }

  predicate Fits(config: Config, mode: Mode, ordered: seq<Entry>, keep: nat, id: string, at: int)
    requires keep <= |ordered|
  {
    WithinCaps(config, mode, Folded(config, ordered, keep, id, at))
  }

  /** Every larger tail up to `first` was tried, had a gist and did not fit. */
  predicate TriedAbove(config: Config, mode: Mode, ordered: seq<Entry>, keep: int, first: nat, id: string, at: int)
    requires first <= |ordered|
  {
    forall k :: 0 <= k <= first && keep < k ==> Usable(config, ordered, k) && !Fits(config, mode, ordered, k, id, at)
  }

  lemma TriedOneMore(config: Config, mode: Mode, ordered: seq<Entry>, keep: int, first: nat, id: string, at: int)
    requires 0 < first <= |ordered|
    requires Usable(config, ordered, first) && !Fits(config, mode, ordered, first, id, at)
    requires TriedAbove(config, mode, ordered, keep, first - 1, id, at)
    ensures TriedAbove(config, mode, ordered, keep, first, id, at)
  {
  }

  /** The tail that decides the outcome. */
  predicate Decides(config: Config, mode: Mode, ordered: seq<Entry>, r: Eviction, keep: nat, id: string, at: int)
    requires keep <= |ordered|
  {
    match r
    case Fit(entries, kept) =>
      kept == keep && entries == Folded(config, ordered, keep, id, at)
      && Usable(config, ordered, keep) && Fits(config, mode, ordered, keep, id, at)
    case SummaryFailed => !Usable(config, ordered, keep)
    case CapUnsatisfiable => keep == 0 && Usable(config, ordered, 0) && !Fits(config, mode, ordered, 0, id, at)
  }

  /** The loop stops at the first tail that fits or has no gist, or gives up when none is left. */
  lemma {:induction false} EvictMeaning(config: Config, mode: Mode, ordered: seq<Entry>, first: nat, id: string,
                                        at: int)
    returns (keep: nat)
    requires first <= |ordered|
    ensures keep <= first && TriedAbove(config, mode, ordered, keep, first, id, at)
    ensures Decides(config, mode, ordered, Evict(config, mode, ordered, first, id, at), keep, id, at)
    decreases first
  {
    if !Usable(config, ordered, first) || Fits(config, mode, ordered, first, id, at) || first == 0 {
      keep := first;
    } else {
      keep := EvictMeaning(config, mode, ordered, first - 1, id, at);
      TriedOneMore(config, mode, ordered, keep, first, id, at);
    }
  }

  /** The entries before folding, oldest first: a permutation of the same size. */
  lemma OrderedCandidate(config: Config, candidate: seq<Entry>)
    ensures var ordered := OldestFirst(candidate);
            && Sorted(ordered) && multiset(ordered) == multiset(candidate) && |ordered| == |candidate|
            && forall mode :: WithinCaps(config, mode, ordered) == WithinCaps(config, mode, candidate)
  {
    OldestFirstLength(candidate);
    OldestFirstKeeps(config, candidate);
    OldestFirstSorts(candidate);
  }

  /** Over-full entries cannot be kept verbatim as a whole, so a success always folds something. */
  lemma SuccessFolds(config: Config, mode: Mode, ordered: seq<Entry>, keep: nat, id: string, at: int)
    requires keep <= |ordered| && !WithinCaps(config, mode, ordered)
    ensures Fits(config, mode, ordered, keep, id, at) ==> keep < |ordered|
  {
    FoldNothing(config, ordered, id, at);
  }

  lemma FoldNothing(config: Config, ordered: seq<Entry>, id: string, at: int)
    ensures Folded(config, ordered, |ordered|, id, at) == ordered
  {
    assert Overflow(ordered, |ordered|) == [];
  }

  lemma SuccessIsDecided(config: Config, mode: Mode, candidate: seq<Entry>, id: string, at: int) returns (keep: nat)
    requires !WithinCaps(config, mode, candidate) && EvictCandidate(config, mode, candidate, id, at).Fit?
    ensures keep <= FirstKeep(config, candidate) && keep < |OldestFirst(candidate)| == |candidate|
    ensures EvictCandidate(config, mode, candidate, id, at)
            == Fit(Folded(config, OldestFirst(candidate), keep, id, at), keep)
    ensures Usable(config, OldestFirst(candidate), keep) && Fits(config, mode, OldestFirst(candidate), keep, id, at)
    ensures TriedAbove(config, mode, OldestFirst(candidate), keep, FirstKeep(config, candidate), id, at)
  {
    OldestFirstLength(candidate);
    keep := EvictMeaning(config, mode, OldestFirst(candidate), FirstKeep(config, candidate), id, at);
    OrderedCandidate(config, candidate);
    SuccessFolds(config, mode, OldestFirst(candidate), keep, id, at);
  }

  /**
   * A successful eviction: one new summary of exactly the oldest entries, then the newest `kept`
   * entries verbatim, within both caps.
   */
  lemma EvictionShape(config: Config, mode: Mode, candidate: seq<Entry>, id: string, at: int)
    requires !WithinCaps(config, mode, candidate) && EvictCandidate(config, mode, candidate, id, at).Fit?
    ensures var ordered, r := OldestFirst(candidate), EvictCandidate(config, mode, candidate, id, at);
            && Sorted(ordered) && multiset(ordered) == multiset(candidate)
            && r.kept < |ordered| && r.kept <= config.keepRecent && WithinCaps(config, mode, r.entries)
            && SummaryThenTail(config, ordered, r, id, at)
  {
    OrderedCandidate(config, candidate);
    var keep := SuccessIsDecided(config, mode, candidate, id, at);
    ShapeOfFold(config, OldestFirst(candidate), keep, id, at);
  }

  lemma ShapeOfFold(config: Config, ordered: seq<Entry>, keep: nat, id: string, at: int)
    requires keep < |ordered| && Usable(config, ordered, keep)
    ensures SummaryThenTail(config, ordered, Fit(Folded(config, ordered, keep, id, at), keep), id, at)
  {
    assert |Overflow(ordered, keep)| == |ordered| - keep;
  }

  predicate SummaryThenTail(config: Config, ordered: seq<Entry>, r: Eviction, id: string, at: int)
    requires r.Fit? && r.kept <= |ordered|
  {
    var folded := ordered[..|ordered| - r.kept];
    var gist := Gist(config, folded);
    folded != [] && gist != "" && r.entries == [SummaryEntry(id, at, gist)] + ordered[|ordered| - r.kept..]
  }

  /** No larger verbatim tail, up to keepRecent, would have fitted. */
  lemma {:induction false} EvictionKeepsMost(config: Config, mode: Mode, candidate: seq<Entry>, id: string, at: int,
                                             k: nat)
    requires !WithinCaps(config, mode, candidate) && EvictCandidate(config, mode, candidate, id, at).Fit?
    requires EvictCandidate(config, mode, candidate, id, at).kept < k <= FirstKeep(config, candidate)
    ensures k <= |OldestFirst(candidate)| && !Fits(config, mode, OldestFirst(candidate), k, id, at)
  {
    var keep := SuccessIsDecided(config, mode, candidate, id, at);
  }

  /** Eviction gives up on the caps only when every tail was tried: none up to keepRecent fits. */
  lemma RefusalIsJustified(config: Config, mode: Mode, candidate: seq<Entry>, id: string, at: int)
    requires EvictCandidate(config, mode, candidate, id, at).CapUnsatisfiable?
    ensures |OldestFirst(candidate)| == |candidate|
    ensures forall k: nat :: k <= FirstKeep(config, candidate) ==>
              !Fits(config, mode, OldestFirst(candidate), k, id, at)
  {
    OrderedCandidate(config, candidate);
    var keep := EvictMeaning(config, mode, OldestFirst(candidate), FirstKeep(config, candidate), id, at);
  }

  // ---------------------------------------------------------------- trimming

  predicate IsTrimmed(t: string) {
    t != "" && !IsSpace(t[0]) && !IsSpace(t[|t| - 1])
  }

  lemma {:induction false} TrimStartShape(s: string)
    ensures TrimStart(s) == "" || !IsSpace(TrimStart(s)[0])
  {
    if s != "" && IsSpace(s[0]) { TrimStartShape(s[1..]); }
  }

  lemma {:induction false} TrimEndShape(s: string)
    requires s == "" || !IsSpace(s[0])
    ensures TrimEnd(s) == "" || IsTrimmed(TrimEnd(s))
  {
    if s != "" && IsSpace(s[|s| - 1]) { TrimEndShape(s[..|s| - 1]); }
  }

  lemma TrimShape(s: string)
    ensures Trim(s) == "" || IsTrimmed(Trim(s))
  {
    TrimStartShape(s);
    TrimEndShape(TrimStart(s));
  }

  lemma {:induction false} TrimStartOccurs(t: string, s: string, i: nat)
    requires IsTrimmed(t) && OccursAt(t, s, i)
    ensures Occurs(t, TrimStart(s))
    decreases |s|
  {
    if s != "" && IsSpace(s[0]) {
      assert s[i..i + |t|][0] == s[i];
      assert s[1..][i - 1..i - 1 + |t|] == s[i..i + |t|];
      TrimStartOccurs(t, s[1..], i - 1);
    }
  }

  lemma {:induction false} TrimEndOccurs(t: string, s: string, i: nat)
    requires IsTrimmed(t) && OccursAt(t, s, i)
    ensures Occurs(t, TrimEnd(s))
    decreases |s|
  {
    if s != "" && IsSpace(s[|s| - 1]) {
      assert s[i..i + |t|][|t| - 1] == s[i + |t| - 1];
      assert s[..|s| - 1][i..i + |t|] == s[i..i + |t|];
      TrimEndOccurs(t, s[..|s| - 1], i);
    }
  }

  /** Trimming never cuts into a text that neither starts nor ends with space. */
  lemma TrimKeeps(t: string, s: string)
    requires IsTrimmed(t) && Occurs(t, s)
    ensures Occurs(t, Trim(s))
  {
    var i: nat :| OccursAt(t, s, i);
    TrimStartOccurs(t, s, i);
    var j: nat :| OccursAt(t, TrimStart(s), j);
    TrimEndOccurs(t, TrimStart(s), j);
  }

  lemma {:induction false} TrimEndPrefix(s: string)
    ensures |TrimEnd(s)| <= |s| && TrimEnd(s) == s[..|TrimEnd(s)|]
  {
    if s != "" && IsSpace(s[|s| - 1]) { TrimEndPrefix(s[..|s| - 1]); }
  }

  lemma {:induction false} TrimStartSuffix(s: string)
    ensures |TrimStart(s)| <= |s| && TrimStart(s) == s[|s| - |TrimStart(s)|..]
  {
    if s != "" && IsSpace(s[0]) { TrimStartSuffix(s[1..]); }
  }

  lemma TrimmedOccurs(s: string)
    ensures Occurs(Trim(s), s)
  {
    TrimStartSuffix(s);
    TrimEndPrefix(TrimStart(s));
    var i := |s| - |TrimStart(s)|;
    assert s[i..i + |Trim(s)|] == TrimStart(s)[..|Trim(s)|];
    assert OccursAt(Trim(s), s, i);
  }

  // ---------------------------------------------------------------- the default summary

  lemma {:induction false} TextIsListed(entries: seq<Entry>, kinds: set<Kind>, i: nat)
    requires i < |entries| && entries[i].kind in kinds && Trim(entries[i].text) != ""
    ensures Trim(entries[i].text) in Texts(entries, kinds)
  {
    if i > 0 { TextIsListed(entries[1..], kinds, i - 1); }
  }

  lemma {:induction false} BulletHoldsText(texts: seq<string>, t: string)
    requires t in texts
    ensures Occurs(t, Bullets(texts))
  {
    assert OccursAt(t, t, 0);
    if texts[0] == t {
      if |texts| == 1 {
        OccursInContext(t, "- ", t, "");
        assert "- " + t + "" == "- " + t;
      } else {
        OccursInContext(t, "- ", t, "\n" + Bullets(texts[1..]));
        assert "- " + t + ("\n" + Bullets(texts[1..])) == Bullets(texts);
      }
    } else {
      BulletHoldsText(texts[1..], t);
      var pre := "- " + texts[0] + "\n";
      OccursInContext(t, pre, Bullets(texts[1..]), "");
      assert pre + Bullets(texts[1..]) + "" == Bullets(texts);
    }
  }

  lemma {:induction false} ParagraphHoldsText(sections: seq<string>, i: nat, t: string)
    requires i < |sections| && Occurs(t, sections[i])
    ensures Occurs(t, Paragraphs(sections))
  {
    if |sections| == 1 {
    } else if i == 0 {
      var post := "\n\n" + Paragraphs(sections[1..]);
      OccursInContext(t, "", sections[0], post);
      assert "" + sections[0] + post == Paragraphs(sections);
    } else {
      ParagraphHoldsText(sections[1..], i - 1, t);
      var pre := sections[0] + "\n\n";
      OccursInContext(t, pre, Paragraphs(sections[1..]), "");
      assert pre + Paragraphs(sections[1..]) + "" == Paragraphs(sections);
    }
  }

  lemma SectionHoldsText(heading: string, texts: seq<string>, t: string)
    requires t in texts
    ensures |Section(heading, texts)| == 1 && Occurs(t, Section(heading, texts)[0])
  {
    BulletHoldsText(texts, t);
    var pre := heading + ":\n";
    OccursInContext(t, pre, Bullets(texts), "");
    assert pre + Bullets(texts) + "" == Section(heading, texts)[0];
  }

  lemma {:induction false} FourSections(a: seq<string>, b: seq<string>, c: seq<string>, d: seq<string>, t: string)
    requires (a != [] && Occurs(t, a[0])) || (b != [] && Occurs(t, b[0])) || (c != [] && Occurs(t, c[0]))
             || (d != [] && Occurs(t, d[0]))
    ensures Occurs(t, Paragraphs(a + b + c + d))
  {
    var all := a + b + c + d;
    var i := if a != [] && Occurs(t, a[0]) then 0
             else if b != [] && Occurs(t, b[0]) then |a|
             else if c != [] && Occurs(t, c[0]) then |a + b| else |a + b + c|;
    assert Occurs(t, all[i]);
    ParagraphHoldsText(all, i, t);
  }

  /** The default summary holds every trimmed, non-blank text it summarizes. */
  lemma SummaryHoldsText(entries: seq<Entry>, i: nat)
    requires i < |entries| && Trim(entries[i].text) != ""
    ensures Occurs(Trim(entries[i].text), DefaultSummarize(entries).value)
  {
    var t := Trim(entries[i].text);
    match entries[i].kind {
      case Preference =>
        TextIsListed(entries, {Preference}, i);
        SectionHoldsText("PREFERENCES", Texts(entries, {Preference}), t);
      case Convention =>
        TextIsListed(entries, {Convention}, i);
        SectionHoldsText("CONVENTIONS", Texts(entries, {Convention}), t);
      case Correction =>
        TextIsListed(entries, {Correction}, i);
        SectionHoldsText("CORRECTIONS", Texts(entries, {Correction}), t);
      case _ =>
        TextIsListed(entries, {Decision, Summary, User}, i);
        SectionHoldsText("DECISIONS", Texts(entries, {Decision, Summary, User}), t);
    }
    FourSections(Section("DECISIONS", Texts(entries, {Decision, Summary, User})),
                 Section("PREFERENCES", Texts(entries, {Preference})),
                 Section("CONVENTIONS", Texts(entries, {Convention})),
                 Section("CORRECTIONS", Texts(entries, {Correction})), t);
  }

  /** A trimmed text inside an overflow entry is inside the gist of the overflow. */
  lemma GistHoldsText(config: Config, overflow: seq<Entry>, i: nat, t: string)
    requires config.summarize == DefaultSummarize
    requires i < |overflow| && IsTrimmed(t) && Occurs(t, overflow[i].text)
    ensures Occurs(t, Gist(config, overflow))
  {
    TrimKeeps(t, overflow[i].text);
    var whole := Trim(overflow[i].text);
    assert whole != "";
    SummaryHoldsText(overflow, i);
    OccursTransitive(t, whole, DefaultSummarize(overflow).value);
    TrimKeeps(t, DefaultSummarize(overflow).value);
  }

  // ---------------------------------------------------------------- whole runs

  ghost predicate Held(t: string, entries: seq<Entry>) {
    exists i :: 0 <= i < |entries| && Occurs(t, entries[i].text)
  }

  lemma {:induction false} HeldAfterSort(t: string, config: Config, entries: seq<Entry>)
    requires Held(t, entries)
    ensures Held(t, OldestFirst(entries))
  {
    var i :| 0 <= i < |entries| && Occurs(t, entries[i].text);
    OldestFirstKeeps(config, entries);
    assert entries[i] in multiset(OldestFirst(entries));
    var j :| 0 <= j < |OldestFirst(entries)| && OldestFirst(entries)[j] == entries[i];
  }

  lemma HeldAfterFold(t: string, config: Config, ordered: seq<Entry>, keep: nat, id: string, at: int)
    requires config.summarize == DefaultSummarize && IsTrimmed(t) && keep <= |ordered| && Held(t, ordered)
    ensures Held(t, Folded(config, ordered, keep, id, at))
  {
    var i :| 0 <= i < |ordered| && Occurs(t, ordered[i].text);
    if i < |ordered| - keep {
      FoldedInSummary(t, config, ordered, keep, id, at, i);
    } else {
      KeptInTail(config, ordered, keep, id, at, i);
      var folded := Folded(config, ordered, keep, id, at);
      var j :| 0 <= j < |folded| && folded[j] == ordered[i];
    }
  }

  lemma FoldedInSummary(t: string, config: Config, ordered: seq<Entry>, keep: nat, id: string, at: int, i: nat)
    requires config.summarize == DefaultSummarize && IsTrimmed(t) && keep <= |ordered|
    requires i < |ordered| - keep && Occurs(t, ordered[i].text)
    ensures Held(t, Folded(config, ordered, keep, id, at))
  {
    GistHoldsText(config, Overflow(ordered, keep), i, t);
    assert Folded(config, ordered, keep, id, at)[0].text == Gist(config, Overflow(ordered, keep));
  }

  lemma KeptInTail(config: Config, ordered: seq<Entry>, keep: nat, id: string, at: int, i: nat)
    requires |ordered| - keep <= i < |ordered| && keep <= |ordered|
    ensures ordered[i] in Folded(config, ordered, keep, id, at)
  {
    assert Tail(ordered, keep)[i - (|ordered| - keep)] == ordered[i];
  }

  /** An automatic add or a user add or a mode change. */
  datatype Op =
    | AutoOp(input: Input, stamp: Stamp, readOk: bool, writeOk: bool)
    | UserOp(input: Input, stamp: Stamp, readOk: bool, writeOk: bool)
    | ModeOp(mode: Mode, readOk: bool, writeOk: bool)

  /** The file, and the trimmed non-blank texts that adds have stored so far. */
  datatype History = History(file: Option<Document>, texts: set<string>)

  /** The document an operation would store, and the answer to its add; a mode change has none. */
  function Offered(config: Config, h: History, op: Op): (Document, Option<AddResult>) {
    var doc := Seen(h.file, op.readOk);
    match op
    case ModeOp(mode, _, _) => (Document(mode, doc.entries), None)
    case AutoOp(input, stamp, _, _) => var (next, r) := AutoAdd(config, doc, input, stamp); (next, Some(r))
    case UserOp(input, stamp, _, _) => var (next, r) := UserAdd(config, doc, input, stamp); (next, Some(r))
  }

  /** The operation replaces the file. */
  predicate Writes(config: Config, h: History, op: Op) {
    op.writeOk && (op.ModeOp? || Stored(Offered(config, h, op).1.value))
  }

  function Step(config: Config, h: History, op: Op): History {
    if op.ModeOp? then
      h.(file := if op.writeOk then Some(Document(op.mode, Seen(h.file, op.readOk).entries)) else h.file)
    else
      var (next, r) := Offered(config, h, op);
      Recorded(h, Committed(h.file, (next, r.value), op.writeOk), op.input)
  }

  function Recorded(h: History, outcome: (Option<Document>, AddResult), input: Input): History {
    History(outcome.0, if Stored(outcome.1) && Trim(input.text) != "" then h.texts + {Trim(input.text)} else h.texts)
  }

  function Run(config: Config, h: History, ops: seq<Op>): History
    decreases ops
  {
    if ops == [] then h else Run(config, Step(config, h, ops[0]), ops[1..])
  }

  ghost predicate NothingLost(h: History) {
    forall t :: t in h.texts ==> IsTrimmed(t) && Held(t, Current(h.file).entries)
  }

  lemma HeldAfterAppend(t: string, entries: seq<Entry>, e: Entry)
    requires Held(t, entries) || Occurs(t, e.text)
    ensures Held(t, entries + [e])
  {
    if Held(t, entries) {
      var i :| 0 <= i < |entries| && Occurs(t, entries[i].text);
      assert (entries + [e])[i] == entries[i];
    } else {
      assert (entries + [e])[|entries|] == e;
    }
  }

  lemma EvictionHolds(config: Config, mode: Mode, candidate: seq<Entry>, id: string, at: int, t: string)
    requires config.summarize == DefaultSummarize && IsTrimmed(t) && Held(t, candidate)
    requires EvictCandidate(config, mode, candidate, id, at).Fit?
    ensures Held(t, EvictCandidate(config, mode, candidate, id, at).entries)
  {
    OldestFirstLength(candidate);
    HeldAfterSort(t, config, candidate);
    var keep := EvictMeaning(config, mode, OldestFirst(candidate), FirstKeep(config, candidate), id, at);
    HeldAfterFold(t, config, OldestFirst(candidate), keep, id, at);
  }

  /** What an automatic add stores holds every text the document held and the new one. */
  lemma AutoAddHolds(config: Config, doc: Document, input: Input, stamp: Stamp, t: string)
    requires config.summarize == DefaultSummarize && IsTrimmed(t)
    requires Stored(AutoAdd(config, doc, input, stamp).1)
    requires Held(t, doc.entries) || Occurs(t, input.text)
    ensures Held(t, AutoAdd(config, doc, input, stamp).0.entries)
  {
    var entry := Entry(stamp.entryId, input.kind.kind, input.text, stamp.at, FromAgent);
    var candidate := doc.entries + [entry];
    HeldAfterAppend(t, doc.entries, entry);
    if !WithinCaps(config, doc.mode, candidate) {
      EvictionHolds(config, doc.mode, candidate, stamp.summaryId, stamp.at, t);
    }
  }

  /** Whatever mode the store is in, an automatic add never leaves a document over its caps. */
  lemma AutoAddStaysWithinCaps(config: Config, doc: Document, input: Input, stamp: Stamp)
    requires Stored(AutoAdd(config, doc, input, stamp).1)
    ensures WithinCaps(config, doc.mode, AutoAdd(config, doc, input, stamp).0.entries)
  {
    var entry := Entry(stamp.entryId, input.kind.kind, input.text, stamp.at, FromAgent);
    var candidate := doc.entries + [entry];
    if !WithinCaps(config, doc.mode, candidate) {
      var keep := SuccessIsDecided(config, doc.mode, candidate, stamp.summaryId, stamp.at);
    }
  }

  /** The operation replaces a file that is there but could not be read. */
  predicate Forgets(config: Config, h: History, op: Op) {
    h.file.Some? && !op.readOk && Writes(config, h, op)
  }

  /** A step that read the file it replaces loses no text. */
  lemma StepLosesNothing(config: Config, h: History, op: Op)
    requires config.summarize == DefaultSummarize && NothingLost(h) && !Forgets(config, h, op)
    ensures NothingLost(Step(config, h, op))
  {
    var after := Step(config, h, op);
    if Writes(config, h, op) {
      assert Seen(h.file, op.readOk) == Current(h.file);
      forall t | t in after.texts ensures IsTrimmed(t) && Held(t, Current(after.file).entries) {
        if !op.ModeOp? { AddHolds(config, h, op, t); }
      }
    }
  }

  lemma AddHolds(config: Config, h: History, op: Op, t: string)
    requires config.summarize == DefaultSummarize && NothingLost(h) && !op.ModeOp?
    requires Writes(config, h, op) && Seen(h.file, op.readOk) == Current(h.file)
    requires t in Step(config, h, op).texts
    ensures IsTrimmed(t) && Held(t, Offered(config, h, op).0.entries)
  {
    var doc := Current(h.file);
    TrimShape(op.input.text);
    TrimmedOccurs(op.input.text);
    if op.AutoOp? {
      AutoAddHolds(config, doc, op.input, op.stamp, t);
    } else {
      var kind := if op.input.kind.Given? then op.input.kind.kind else User;
      HeldAfterAppend(t, doc.entries, Entry(op.stamp.entryId, kind, op.input.text, op.stamp.at, FromUser));
    }
  }

  /** After a failed read all that is left is what the operation itself brings, and the mode is back to automatic. */
  lemma {:induction false} FailedReadForgets(config: Config, h: History, op: Op)
    requires config.capEntries > 0 && Forgets(config, h, op)
    ensures var doc := Current(Step(config, h, op).file);
            if op.ModeOp? then doc == Document(op.mode, [])
            else doc.mode == Auto && |doc.entries| == 1 && doc.entries[0].text == op.input.text
  {
    if op.AutoOp? {
      var entry := Entry(op.stamp.entryId, op.input.kind.kind, op.input.text, op.stamp.at, FromAgent);
      assert [] + [entry] == [entry];
    }
  }

  /**
   * Exactly when a step loses text: it replaces a file it could not read, and some text stored before is not in
   * what it brings.
   */
  lemma StepLosesNothingIff(config: Config, h: History, op: Op)
    requires config.summarize == DefaultSummarize && config.capEntries > 0 && NothingLost(h)
    ensures NothingLost(Step(config, h, op)) <==>
            Forgets(config, h, op) ==> forall t :: t in h.texts ==> !op.ModeOp? && Occurs(t, op.input.text)
  {
    if Forgets(config, h, op) { ForgetfulStepIff(config, h, op); } else { StepLosesNothing(config, h, op); }
  }

  lemma OneEntryHolds(entries: seq<Entry>, t: string)
    ensures entries == [] ==> !Held(t, entries)
    ensures |entries| == 1 ==> (Held(t, entries) <==> Occurs(t, entries[0].text))
  {
  }

  lemma ForgetfulStepIff(config: Config, h: History, op: Op)
    requires config.capEntries > 0 && NothingLost(h) && Forgets(config, h, op)
    ensures NothingLost(Step(config, h, op)) <==> forall t :: t in h.texts ==> !op.ModeOp? && Occurs(t, op.input.text)
  {
    var after := Step(config, h, op);
    var left := Current(after.file).entries;
    FailedReadForgets(config, h, op);
    if !op.ModeOp? {
      TrimShape(op.input.text);
      TrimmedOccurs(op.input.text);
    }
    forall t ensures Held(t, left) <==> !op.ModeOp? && Occurs(t, op.input.text) {
      OneEntryHolds(left, t);
    }
  }

  /** Every operation that replaces the file has read it. */
  predicate ReadsBeforeWrites(config: Config, h: History, ops: seq<Op>)
    decreases ops
  {
    ops == [] || (!Forgets(config, h, ops[0]) && ReadsBeforeWrites(config, Step(config, h, ops[0]), ops[1..]))
  }

  /**
   * Over every run of adds and mode changes with the default summarizer in which each operation that
   * replaces the file has read it, each trimmed text ever stored is still a contiguous substring of
   * some entry, through any number of summarizations.
   */
  lemma {:induction false} RunLosesNothing(config: Config, h: History, ops: seq<Op>)
    requires config.summarize == DefaultSummarize && NothingLost(h) && ReadsBeforeWrites(config, h, ops)
    ensures NothingLost(Run(config, h, ops))
    decreases ops
  {
    if ops != [] {
      StepLosesNothing(config, h, ops[0]);
      RunLosesNothing(config, Step(config, h, ops[0]), ops[1..]);
    }
  }

  // ---------------------------------------------------------------- resolved caps

  /** With resolved caps no verbatim tail is too long: every summarized document fits the entry cap. */
  lemma FoldedFitsTheEntryCap(config: Config, candidate: seq<Entry>, keep: nat, id: string, at: int)
    requires config.keepRecent < config.capEntries && keep <= FirstKeep(config, candidate)
    ensures keep <= |OldestFirst(candidate)|
    ensures |Folded(config, OldestFirst(candidate), keep, id, at)| <= config.capEntries
  {
    OldestFirstLength(candidate);
  }

  /** A store with resolved caps therefore gives up only for want of bytes, or of a gist. */
  lemma OnlyBytesAreUnsatisfiable(caps: Caps, capBytes: Option<int>, capEntries: Option<int>, keepRecent: Option<int>,
                                  envBytes: Option<int>, envEntries: Option<int>, summarize: Summarizer,
                                  entryBytes: Entry -> nat, frameBytes: Mode -> nat,
                                  mode: Mode, candidate: seq<Entry>, id: string, at: int)
    requires caps == ResolveCaps(capBytes, capEntries, keepRecent, envBytes, envEntries)
    requires var config := Configured(caps, summarize, entryBytes, frameBytes);
             EvictCandidate(config, mode, candidate, id, at).CapUnsatisfiable?
    ensures var config := Configured(caps, summarize, entryBytes, frameBytes);
            && |OldestFirst(candidate)| == |candidate|
            && forall k: nat :: k <= FirstKeep(config, candidate) ==>
                 DocumentBytes(config, mode, Folded(config, OldestFirst(candidate), k, id, at)) > config.capBytes
  {
    var config := Configured(caps, summarize, entryBytes, frameBytes);
    RefusalIsJustified(config, mode, candidate, id, at);
    forall k: nat | k <= FirstKeep(config, candidate)
      ensures DocumentBytes(config, mode, Folded(config, OldestFirst(candidate), k, id, at)) > config.capBytes
    {
      FoldedFitsTheEntryCap(config, candidate, k, id, at);
      assert !Fits(config, mode, OldestFirst(candidate), k, id, at);
    }
  }
}
