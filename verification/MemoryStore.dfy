/**
 * The bounded memory store (src/memory/store.js): entries are kept in one document within
 * a byte cap and an entry cap; in mode 'auto' an add that would exceed a cap summarizes
 * and evicts the oldest entries.
 *
 * The document's size is that of its pretty-printed JSON text: the frame, the entries one
 * by one, and the separators. Timestamps are integers; the clock, fresh ids and whether the
 * disk can be read and written are inputs.
 */
module MemoryStore {
  import opened Strings

  datatype Kind = Decision | Preference | Convention | Correction | Summary | User
  datatype Origin = FromAgent | FromUser
  datatype Mode = Off | Manual | Auto
  datatype Entry = Entry(id: string, kind: Kind, text: string, createdAt: int, origin: Origin)
  datatype Document = Document(mode: Mode, entries: seq<Entry>)

  type Summarizer = seq<Entry> -> Option<string>

  /** A store's caps, its summarizer (None when it throws or returns no string) and its size measures. */
  datatype Config = Config(capBytes: nat, capEntries: nat, keepRecent: nat, summarize: Summarizer,
                           entryBytes: Entry -> nat, frameBytes: Mode -> nat)

  const DEFAULT_CAP_BYTES: nat := 65536
  const DEFAULT_CAP_ENTRIES: nat := 200
  const DEFAULT_KEEP_RECENT: nat := 20

  // ---------------------------------------------------------------- caps

  datatype Caps = Caps(capBytes: nat, capEntries: nat, keepRecent: nat)

  function FirstPositive(override: Option<int>, env: Option<int>, default: nat): (n: nat)
    requires default > 0
    ensures n > 0
  {
    if override.Some? && override.value > 0 then override.value
    else if env.Some? && env.value > 0 then env.value
    else default
  }

  /** resolveCaps: overrides win over the environment, and keepRecent is clamped below the entry cap. */
  function ResolveCaps(capBytes: Option<int>, capEntries: Option<int>, keepRecent: Option<int>,
                       envBytes: Option<int>, envEntries: Option<int>): (caps: Caps)
    ensures caps.capBytes > 0 && caps.keepRecent < caps.capEntries
  {
    var bytes := FirstPositive(capBytes, envBytes, DEFAULT_CAP_BYTES);
    var entries := FirstPositive(capEntries, envEntries, DEFAULT_CAP_ENTRIES);
    var requested: nat := if keepRecent.Some? && keepRecent.value >= 0 then keepRecent.value else DEFAULT_KEEP_RECENT;
    Caps(bytes, entries, if requested <= entries - 1 then requested else entries - 1)
  }

  /** The configuration of a store whose caps were resolved. */
  function Configured(caps: Caps, summarize: Summarizer, entryBytes: Entry -> nat, frameBytes: Mode -> nat): Config {
    Config(caps.capBytes, caps.capEntries, caps.keepRecent, summarize, entryBytes, frameBytes)
  }

  // ---------------------------------------------------------------- sizes

  function SumBytes(config: Config, entries: seq<Entry>): nat {
    if entries == [] then 0 else
      SumBytes(config, entries[..|entries| - 1]) + config.entryBytes(entries[|entries| - 1])
  }

  function DocumentBytes(config: Config, mode: Mode, entries: seq<Entry>): nat {
    config.frameBytes(mode)
    + if entries == [] then 2 else 6 + SumBytes(config, entries) + 2 * (|entries| - 1)
  }

  predicate WithinCaps(config: Config, mode: Mode, entries: seq<Entry>) {
    |entries| <= config.capEntries && DocumentBytes(config, mode, entries) <= config.capBytes
  }

  // ---------------------------------------------------------------- order

  predicate Sorted(entries: seq<Entry>) {
    forall i, j :: 0 <= i < j < |entries| ==> entries[i].createdAt <= entries[j].createdAt
  }

  /** Puts e behind every entry that is not newer. */
  function Insert(sorted: seq<Entry>, e: Entry): seq<Entry> {
    if sorted == [] || sorted[|sorted| - 1].createdAt <= e.createdAt then sorted + [e]
    else Insert(sorted[..|sorted| - 1], e) + [sorted[|sorted| - 1]]
  }

  /** sortedOldestFirst: by time, then by original position. */
  function OldestFirst(entries: seq<Entry>): seq<Entry> {
    if entries == [] then [] else Insert(OldestFirst(entries[..|entries| - 1]), entries[|entries| - 1])
  }

  // ---------------------------------------------------------------- trimming

  function TrimStart(s: string): string {
    if s != "" && IsSpace(s[0]) then TrimStart(s[1..]) else s
  }

  function TrimEnd(s: string): string {
    if s != "" && IsSpace(s[|s| - 1]) then TrimEnd(s[..|s| - 1]) else s
  }

  function Trim(s: string): string {
    TrimEnd(TrimStart(s))
  }

  // ---------------------------------------------------------------- summarize and evict

  datatype Eviction = Fit(entries: seq<Entry>, kept: nat) | SummaryFailed | CapUnsatisfiable

  function Overflow(ordered: seq<Entry>, keep: nat): seq<Entry>
    requires keep <= |ordered|
  {
    ordered[..|ordered| - keep]
  }

  function Tail(ordered: seq<Entry>, keep: nat): seq<Entry>
    requires keep <= |ordered|
  {
    ordered[|ordered| - keep..]
  }

  function Gist(config: Config, overflow: seq<Entry>): string {
    if overflow == [] || config.summarize(overflow).None? then "" else Trim(config.summarize(overflow).value)
  }

  function SummaryEntry(id: string, at: int, gist: string): Entry {
    Entry(id, Summary, gist, at, FromAgent)
  }

  /** The entries that keeping `keep` of them verbatim would leave. */
  function Folded(config: Config, ordered: seq<Entry>, keep: nat, id: string, at: int): seq<Entry>
    requires keep <= |ordered|
  {
    var overflow := Overflow(ordered, keep);
    (if overflow == [] then [] else [SummaryEntry(id, at, Gist(config, overflow))]) + Tail(ordered, keep)
  }

  function Evict(config: Config, mode: Mode, ordered: seq<Entry>, keep: nat, id: string, at: int): Eviction
    requires keep <= |ordered|
    decreases keep
  {
    if Overflow(ordered, keep) != [] && Gist(config, Overflow(ordered, keep)) == "" then SummaryFailed
    else if WithinCaps(config, mode, Folded(config, ordered, keep, id, at))
    then Fit(Folded(config, ordered, keep, id, at), keep)
    else if keep == 0 then CapUnsatisfiable
    else Evict(config, mode, ordered, keep - 1, id, at)
  }

  function FirstKeep(config: Config, candidate: seq<Entry>): nat {
    if config.keepRecent <= |candidate| then config.keepRecent else |candidate|
  }

  lemma {:induction false} OldestFirstLength(entries: seq<Entry>)
    ensures |OldestFirst(entries)| == |entries|
  {
    if entries != [] {
      OldestFirstLength(entries[..|entries| - 1]);
      InsertLength(OldestFirst(entries[..|entries| - 1]), entries[|entries| - 1]);
    }
  }

  lemma {:induction false} InsertLength(sorted: seq<Entry>, e: Entry)
    ensures |Insert(sorted, e)| == |sorted| + 1
  {
    if !(sorted == [] || sorted[|sorted| - 1].createdAt <= e.createdAt) {
      InsertLength(sorted[..|sorted| - 1], e);
    }
  }

  /** The eviction of a candidate list, as summarizeAndEvict runs it. */
  function EvictCandidate(config: Config, mode: Mode, candidate: seq<Entry>, id: string, at: int): Eviction {
    OldestFirstLength(candidate);
    Evict(config, mode, OldestFirst(candidate), FirstKeep(config, candidate), id, at)
  }

  // ---------------------------------------------------------------- adding

  /** What a caller passes to an add. */
  datatype KindArgument = Given(kind: Kind) | Missing | Invalid
  datatype Input = Input(kind: KindArgument, text: string)

  /** The id and time of the new entry, and the id of a summary entry. */
  datatype Stamp = Stamp(entryId: string, summaryId: string, at: int)

  datatype AddResult =
    | Added(entry: Entry)
    | AddedEvicting(kept: Option<Entry>)
    | AddedByUser(entry: Entry, overCap: bool)
    | RefusedOff | RefusedInvalid | RefusedFull | RefusedTooLarge | RefusedSummary | RefusedCaps
    | WriteFailed

  predicate Stored(r: AddResult) {
    r.Added? || r.AddedEvicting? || r.AddedByUser?
  }

  function Current(file: Option<Document>): Document {
    if file.Some? then file.value else Document(Auto, [])
  }

  /** readDocument: a file that cannot be read counts as no file at all. */
  function Seen(file: Option<Document>, readOk: bool): Document {
    Current(if readOk then file else None)
  }

  /** addAuto up to the write: the document to store, and what to answer if the write succeeds. */
  function AutoAdd(config: Config, doc: Document, input: Input, stamp: Stamp): (Document, AddResult) {
    if doc.mode == Off then (doc, RefusedOff)
    else if !input.kind.Given? then (doc, RefusedInvalid)
    else
      var entry := Entry(stamp.entryId, input.kind.kind, input.text, stamp.at, FromAgent);
      var candidate := doc.entries + [entry];
      if WithinCaps(config, doc.mode, candidate) then (Document(doc.mode, candidate), Added(entry))
      else if doc.mode == Manual then (doc, RefusedFull)
      else if DocumentBytes(config, doc.mode, [entry]) > config.capBytes then (doc, RefusedTooLarge)
      else
        match EvictCandidate(config, doc.mode, candidate, stamp.summaryId, stamp.at)
        case SummaryFailed => (doc, RefusedSummary)
        case CapUnsatisfiable => (doc, RefusedCaps)
        case Fit(entries, _) =>
          (Document(doc.mode, entries),
           AddedEvicting(if exists i :: 0 <= i < |entries| && entries[i].id == entry.id then Some(entry) else None))
  }

  function UserAdd(config: Config, doc: Document, input: Input, stamp: Stamp): (Document, AddResult) {
    if input.kind.Invalid? then (doc, RefusedInvalid) else
    var kind := if input.kind.Given? then input.kind.kind else User;
    var entry := Entry(stamp.entryId, kind, input.text, stamp.at, FromUser);
    var entries := doc.entries + [entry];
    (Document(doc.mode, entries), AddedByUser(entry, !WithinCaps(config, doc.mode, entries)))
  }

  /** The file and the answer after the write: it is atomic, so it happens or it does not. */
  function Committed(file: Option<Document>, next: (Document, AddResult), writeOk: bool)
    : (Option<Document>, AddResult)
  {
    if !Stored(next.1) then (file, next.1)
    else if writeOk then (Some(next.0), next.1)
    else (file, WriteFailed)
  }

  /** One memory file, at one address. */
  class Handle {
    const config: Config
    var file: Option<Document>

    constructor (config: Config)
      ensures this.config == config && file == None
    {
      this.config, file := config, None;
    }

    /** The loop that shrinks the verbatim tail until the document fits. */
    method SummarizeAndEvict(mode: Mode, candidate: seq<Entry>, id: string, at: int) returns (r: Eviction)
      ensures r == EvictCandidate(config, mode, candidate, id, at)
    {
      var ordered := OldestFirst(candidate);
      OldestFirstLength(candidate);
      var keep := FirstKeep(config, candidate);
      ghost var answer := Evict(config, mode, ordered, keep, id, at);
      while true
        invariant 0 <= keep <= |ordered|
        invariant Evict(config, mode, ordered, keep, id, at) == answer
        decreases keep
      {
        var recentTail, overflow := Tail(ordered, keep), Overflow(ordered, keep);
        var gist := Gist(config, overflow);
        if overflow != [] && gist == "" { return SummaryFailed; }
        var next := (if overflow == [] then [] else [SummaryEntry(id, at, gist)]) + recentTail;
        if WithinCaps(config, mode, next) { return Fit(next, keep); }
        if keep == 0 { return CapUnsatisfiable; }
        keep := keep - 1;
      }
    }

    method ReadDocument(readOk: bool) returns (doc: Document)
      ensures doc == Seen(file, readOk)
    {
      if !readOk || file.None? { return Document(Auto, []); }
      return file.value;
    }

    method Write(next: Document, ok: bool) returns (written: bool)
      modifies this
      ensures written == ok
      ensures file == if ok then Some(next) else old(file)
    {
      if ok { file := Some(next); }
      return ok;
    }

    method AddAuto(input: Input, stamp: Stamp, readOk: bool, writeOk: bool) returns (r: AddResult)
      modifies this
      ensures (file, r) == Committed(old(file), AutoAdd(config, Seen(old(file), readOk), input, stamp), writeOk)
      ensures !Stored(r) ==> file == old(file)
    {
      var doc := ReadDocument(readOk);
      if doc.mode == Off { return RefusedOff; }
      if !input.kind.Given? { return RefusedInvalid; }
      var entry := Entry(stamp.entryId, input.kind.kind, input.text, stamp.at, FromAgent);
      var candidate := doc.entries + [entry];
      if WithinCaps(config, doc.mode, candidate) {
        var written := Write(Document(doc.mode, candidate), writeOk);
        return if written then Added(entry) else WriteFailed;
      }
      if doc.mode == Manual { return RefusedFull; }
      if DocumentBytes(config, doc.mode, [entry]) > config.capBytes { return RefusedTooLarge; }
      var result := SummarizeAndEvict(doc.mode, candidate, stamp.summaryId, stamp.at);
      if result.SummaryFailed? { return RefusedSummary; }
      if result.CapUnsatisfiable? { return RefusedCaps; }
      var written := Write(Document(doc.mode, result.entries), writeOk);
      if !written { return WriteFailed; }
      var kept := exists i :: 0 <= i < |result.entries| && result.entries[i].id == entry.id;
      return AddedEvicting(if kept then Some(entry) else None);
    }

    method AddUser(input: Input, stamp: Stamp, readOk: bool, writeOk: bool) returns (r: AddResult)
      modifies this
      ensures (file, r) == Committed(old(file), UserAdd(config, Seen(old(file), readOk), input, stamp), writeOk)
    {
      var doc := ReadDocument(readOk);
      if input.kind.Invalid? { return RefusedInvalid; }
      var kind := if input.kind.Given? then input.kind.kind else User;
      var entry := Entry(stamp.entryId, kind, input.text, stamp.at, FromUser);
      var entries := doc.entries + [entry];
      var written := Write(Document(doc.mode, entries), writeOk);
      return if written then AddedByUser(entry, !WithinCaps(config, doc.mode, entries)) else WriteFailed;
    }

    method SetMode(mode: Mode, readOk: bool, writeOk: bool) returns (ok: bool)
      modifies this
      ensures ok == writeOk
      ensures file == if ok then Some(Document(mode, Seen(old(file), readOk).entries)) else old(file)
    {
      var doc := ReadDocument(readOk);
      ok := Write(Document(mode, doc.entries), writeOk);
    }
  }

  // ---------------------------------------------------------------- the default summarizer

  /** The trimmed, non-blank texts of the entries of the given kinds, in order. */
  function Texts(entries: seq<Entry>, kinds: set<Kind>): seq<string> {
    if entries == [] then [] else
      var e := entries[0];
      (if e.kind in kinds && Trim(e.text) != "" then [Trim(e.text)] else []) + Texts(entries[1..], kinds)
  }

  function Bullets(texts: seq<string>): string {
    if texts == [] then ""
    else if |texts| == 1 then "- " + texts[0]
    else "- " + texts[0] + "\n" + Bullets(texts[1..])
  }

  function Section(heading: string, texts: seq<string>): seq<string> {
    if texts == [] then [] else [heading + ":\n" + Bullets(texts)]
  }

  function Paragraphs(sections: seq<string>): string {
    if sections == [] then ""
    else if |sections| == 1 then sections[0]
    else sections[0] + "\n\n" + Paragraphs(sections[1..])
  }

  function SectionsOf(entries: seq<Entry>): seq<string> {
    Section("DECISIONS", Texts(entries, {Decision, Summary, User}))
    + Section("PREFERENCES", Texts(entries, {Preference}))
    + Section("CONVENTIONS", Texts(entries, {Convention}))
    + Section("CORRECTIONS", Texts(entries, {Correction}))
  }

  /** defaultStructuredSummarize. */
  function DefaultSummarize(entries: seq<Entry>): Option<string> {
    Some(Paragraphs(SectionsOf(entries)))
  }
}
