/** What a published site serves, over single deploys and over runs. */
module PublishProofs {
  import opened Strings
  import opened TreeCodec
  import opened ArtifactBundle
  import opened SelfHostedDeploy

  // ---------------------------------------------------------------- request paths

  /** The request paths that name rel: itself, and its directory when it is an index page. */
  predicate Asks(key: string, rel: string) {
    || key == "/" + rel
    || (rel == INDEX && key == "/")
    || (EndsWith(rel, "/" + INDEX) && var dir := rel[..|rel| - |INDEX| - 1]; key == "/" + dir || key == "/" + dir + "/")
  }

  /** The segments of a path end with a name exactly when its text does. */
  lemma DirectoryOfMeans(rel: string, name: string)
    requires '/' !in name
    ensures DirectoryOf(rel, name) ==
            if rel == name then Some("")
            else if EndsWith(rel, ['/'] + name) then Some(rel[..|rel| - |name| - 1])
            else None
  {
    LastPieceIs(rel, '/', name);
    SplitWhole(name, '/');
    if rel != name && EndsWith(rel, ['/'] + name) {
      var dir := rel[..|rel| - |name| - 1];
      JoinSplit(dir, '/');
      assert Split(rel, '/')[..|Split(dir, '/')|] == Split(dir, '/');
    }
  }

  lemma IndexDirectoryMeans(rel: string)
    ensures IndexDirectory(rel) ==
            if rel == INDEX then Some("")
            else if EndsWith(rel, "/" + INDEX) then Some(rel[..|rel| - |INDEX| - 1])
            else None
  {
    DirectoryOfMeans(rel, INDEX);
  }

  /** No accepted path begins or ends with a separator or has two in a row. */
  lemma SafeEdges(a: string, b: string)
    requires IsSafeRelativePath(a + ['/'] + b)
    ensures a != "" && b != "" && a[|a| - 1] != '/'
  {
    var left, parts := Split(a, '/'), Split(a + ['/'] + b, '/');
    SplitAppend(a, '/', b);
    assert PlainPart(parts[|left| - 1]) && PlainPart(parts[|left|]);
    LastPieceEmptyIff(a, '/');
  }

  lemma NoTrailingSlash(p: string)
    requires IsSafeRelativePath(p)
    ensures p[|p| - 1] != '/'
  {
    var parts := Split(p, '/');
    assert PlainPart(parts[|parts| - 1]);
    LastPieceEmptyIff(p, '/');
  }

  lemma IndexDirectoryIsPlain(p: string)
    requires IsSafeRelativePath(p) && EndsWith(p, "/" + INDEX)
    ensures var dir := p[..|p| - |INDEX| - 1];
            p == dir + "/" + INDEX && dir != "" && dir[|dir| - 1] != '/' && Under(dir, p)
  {
    var dir := p[..|p| - |INDEX| - 1];
    assert p == dir + ['/'] + INDEX;
    SafeEdges(dir, INDEX);
    assert p[..|dir| + 1] == dir + "/";
  }

  lemma KeyTail(key: string, rel: string)
    requires key == "/" + rel
    ensures key[1..] == rel
  {
  }

  /** A request path names at most one file, as long as neither file stands where the other needs a directory. */
  lemma AsksOnce(key: string, p: string, q: string)
    requires IsSafeRelativePath(p) && IsSafeRelativePath(q) && Asks(key, p) && Asks(key, q)
    ensures p == q || Under(p, q) || Under(q, p)
  {
    NoTrailingSlash(p);
    NoTrailingSlash(q);
    if EndsWith(p, "/" + INDEX) { IndexDirectoryIsPlain(p); }
    if EndsWith(q, "/" + INDEX) { IndexDirectoryIsPlain(q); }
    Named(key, p);
    Named(key, q);
  }

  /** What the text after the leading slash says about the file asked for. */
  lemma Named(key: string, p: string)
    requires IsSafeRelativePath(p) && Asks(key, p)
    ensures |key| > 0
    ensures var t := key[1..];
            || t == p
            || (t == "" && p == INDEX)
            || (t != "" && t[|t| - 1] != '/' && p == t + "/" + INDEX)
            || (t != "" && t[|t| - 1] == '/' && p == t + INDEX)
  {
    if EndsWith(p, "/" + INDEX) {
      IndexDirectoryIsPlain(p);
      var dir := p[..|p| - |INDEX| - 1];
      if key == "/" + dir + "/" {
        assert key[1..] == dir + "/";
        assert p == dir + "/" + INDEX;
      } else if key == "/" + dir {
        assert key[1..] == dir;
      }
    }
    if key == "/" + p { KeyTail(key, p); }
  }

  // ---------------------------------------------------------------- the manifest

  predicate Holds(files: seq<File>, p: string) {
    exists i :: 0 <= i < |files| && files[i].path == p
  }

  predicate PathsSafe(files: seq<File>) {
    forall i :: 0 <= i < |files| ==> IsSafeRelativePath(files[i].path)
  }

  lemma AddEntriesMeans(entries: map<string, string>, rel: string, key: string)
    requires IsSafeRelativePath(rel)
    ensures key in AddEntries(entries, rel) <==> key in entries || Asks(key, rel)
    ensures key in AddEntries(entries, rel) ==>
              AddEntries(entries, rel)[key] == if Asks(key, rel) then rel else entries[key]
  {
    IndexDirectoryMeans(rel);
    if EndsWith(rel, "/" + INDEX) { IndexDirectoryIsPlain(rel); }
  }

  /** The manifest lists exactly the request paths of the files, each under a file that it names. */
  lemma {:induction false} EntriesMean(files: seq<File>, key: string)
    requires PathsSafe(files)
    ensures key in Entries(files) <==> exists i :: 0 <= i < |files| && Asks(key, files[i].path)
    ensures key in Entries(files) ==> Asks(key, Entries(files)[key]) && Holds(files, Entries(files)[key])
  {
    if files != [] {
      var init, rel := files[..|files| - 1], files[|files| - 1].path;
      EntriesMean(init, key);
      AddEntriesMeans(Entries(init), rel, key);
      if key in Entries(init) {
        var i :| 0 <= i < |init| && Asks(key, init[i].path);
        assert files[i] == init[i];
        var j :| 0 <= j < |init| && init[j].path == Entries(init)[key];
        assert files[j] == init[j];
      }
      if exists i :: 0 <= i < |files| && Asks(key, files[i].path) {
        var i :| 0 <= i < |files| && Asks(key, files[i].path);
        assert i < |init| ==> init[i] == files[i];
      }
    }
  }

  lemma KeysAreRequests(key: string, p: string)
    requires IsSafeRelativePath(p) && Asks(key, p)
    ensures key != "" && '\0' !in key
  {
    if EndsWith(p, "/" + INDEX) {
      var dir := p[..|p| - |INDEX| - 1];
      assert forall c :: c in dir ==> c in p;
    }
  }

  // ---------------------------------------------------------------- staged releases

  /** The bytes written last under a path. */
  function Last(files: seq<File>, p: string): Option<Bytes> {
    if files == [] then None
    else
      var later := Last(files[1..], p);
      if later.Some? then later else if files[0].path == p then Some(files[0].bytes) else None
  }

  lemma {:induction false} LastIff(files: seq<File>, p: string)
    ensures Last(files, p).Some? <==> Holds(files, p)
  {
    if files != [] {
      LastIff(files[1..], p);
      if Holds(files[1..], p) {
        var i :| 0 <= i < |files[1..]| && files[1..][i].path == p;
        assert files[i + 1].path == p;
      }
      if Holds(files, p) {
        var i :| 0 <= i < |files| && files[i].path == p;
        assert i > 0 ==> files[1..][i - 1].path == p;
      }
    }
  }

  /** A release holds the last bytes written under each path, and nothing else has changed. */
  lemma {:induction false} WriteAllWrites(release: Release, files: seq<File>, step: nat, broken: set<nat>, p: string)
    requires WriteAll(release, files, step, broken).Some?
    ensures var r := WriteAll(release, files, step, broken).value;
            && (p in r <==> Last(files, p).Some? || p in release)
            && (p in r ==> r[p] == if Last(files, p).Some? then Artifact(Last(files, p).value) else release[p])
    decreases files
  {
    if files != [] {
      WriteAllWrites(release[files[0].path := Artifact(files[0].bytes)], files[1..], step + 1, broken, p);
    }
  }

  /** Every path written is free of two leading dots and of files where it needs directories. */
  lemma {:induction false} WriteAllIsFree(release: Release, files: seq<File>, step: nat, broken: set<nat>, p: string)
    requires WriteAll(release, files, step, broken).Some? && Last(files, p).Some?
    ensures !StartsWith(p, "..") && Free(WriteAll(release, files, step, broken).value, p)
    decreases files
  {
    var next := release[files[0].path := Artifact(files[0].bytes)];
    var r := WriteAll(release, files, step, broken).value;
    if Last(files[1..], p).Some? {
      WriteAllIsFree(next, files[1..], step + 1, broken, p);
    } else {
      forall q | q in r ensures !Under(q, p) && !Under(p, q) {
        WriteAllWrites(next, files[1..], step + 1, broken, q);
        if Last(files[1..], q).Some? {
          WriteAllIsFree(next, files[1..], step + 1, broken, q);
          WriteAllWrites(next, files[1..], step + 1, broken, p);
        }
      }
    }
  }

  predicate NoDots(files: seq<File>) {
    forall i :: 0 <= i < |files| ==> !StartsWith(files[i].path, "..")
  }

  predicate AllFree(release: Release, files: seq<File>) {
    forall i :: 0 <= i < |files| ==> Free(release, files[i].path)
  }

  /** No file stands where another needs a directory. */
  predicate Apart(files: seq<File>) {
    forall i, j :: 0 <= i < |files| && 0 <= j < |files| ==> !Under(files[i].path, files[j].path)
  }

  lemma {:induction false} WriteAllSucceedsIff(release: Release, files: seq<File>, step: nat)
    ensures WriteAll(release, files, step, {}).Some? <==> NoDots(files) && AllFree(release, files) && Apart(files)
    decreases files
  {
    if files != [] {
      var first, rest := files[0], files[1..];
      WriteAllSucceedsIff(release[first.path := Artifact(first.bytes)], rest, step + 1);
      forall i | 0 <= i < |rest| {
        FreeGrows(release, first.path, Artifact(first.bytes), rest[i].path);
      }
      assert forall i :: 0 < i < |files| ==> files[i] == rest[i - 1];
    }
  }

  lemma FreeGrows(release: Release, p: string, content: Content, q: string)
    ensures Free(release[p := content], q) <==> Free(release, q) && !Under(p, q) && !Under(q, p)
  {
    var next := release[p := content];
    assert p in next;
    assert forall x :: x in release ==> x in next;
  }

  // ---------------------------------------------------------------- what is served

  /** What a published path answers with: its own last bytes, except that the release manifest stands in its place. */
  function BodyOf(id: ReleaseId, files: seq<File>, p: string): Content
    requires Last(files, p).Some?
  {
    if p == MANIFEST_FILE then Manifest(id, Entries(files)) else Artifact(Last(files, p).value)
  }

  lemma StagedHolds(start: Release, id: ReleaseId, files: seq<File>, f: Faults, p: string)
    requires Staged(start, id, files, f).Some? && Last(files, p).Some?
    ensures var r := Staged(start, id, files, f).value;
            p in r && r[p] == BodyOf(id, files, p) && !StartsWith(p, "..")
  {
    WriteAllWrites(start, files, 0, f.broken, p);
    WriteAllIsFree(start, files, 0, f.broken, p);
  }

  lemma StagedPathsAreApart(start: Release, id: ReleaseId, files: seq<File>, f: Faults, p: string, q: string)
    requires Staged(start, id, files, f).Some? && Holds(files, p) && Holds(files, q)
    ensures !Under(p, q)
  {
    LastIff(files, p);
    LastIff(files, q);
    WriteAllWrites(start, files, 0, f.broken, p);
    WriteAllIsFree(start, files, 0, f.broken, q);
  }

  lemma PublishedIsComplete(site: Site, id: ReleaseId, files: seq<File>, kept: int, f: Faults)
    requires AfterPublish(site, id, files, kept, f).1.Published?
    ensures var after := AfterPublish(site, id, files, kept, f).0;
            && Complete(after) && after.current == Some(id)
            && after.releases[id] == Staged(Start(site, id), id, files, f).value
  {
    PruneKeepsTheLive(site.releases[id := Staged(Start(site, id), id, files, f).value], id, kept, f);
  }

  /** In a published release the manifest sends a request path to the one file it names. */
  lemma EntryIsTheFileAskedFor(start: Release, id: ReleaseId, files: seq<File>, f: Faults, key: string, p: string)
    requires PathsSafe(files) && Staged(start, id, files, f).Some?
    ensures (key in Entries(files) && Entries(files)[key] == p) <==> Holds(files, p) && Asks(key, p)
  {
    EntriesMean(files, key);
    if Holds(files, p) && Asks(key, p) {
      var i :| 0 <= i < |files| && files[i].path == p;
      var q := Entries(files)[key];
      AsksOnce(key, p, q);
      StagedPathsAreApart(start, id, files, f, p, q);
      StagedPathsAreApart(start, id, files, f, q, p);
    }
  }

  /** A listed request path is answered with the file the manifest sends it to. */
  lemma ListedIsServed(site: Site, id: ReleaseId, files: seq<File>, kept: int, f: Faults, key: string)
    requires PathsSafe(files) && AfterPublish(site, id, files, kept, f).1.Published? && key in Entries(files)
    ensures var after, q := AfterPublish(site, id, files, kept, f).0, Entries(files)[key];
            Complete(after) && Last(files, q).Some? && LookupIn(after, key) == Served(BodyOf(id, files, q), id, q)
  {
    var q := Entries(files)[key];
    PublishedIsComplete(site, id, files, kept, f);
    EntriesMean(files, key);
    var i :| 0 <= i < |files| && files[i].path == q;
    LastIff(files, q);
    StagedHolds(Start(site, id), id, files, f, q);
    KeysAreRequests(key, q);
  }

  lemma UnlistedIsMissed(site: Site, id: ReleaseId, files: seq<File>, kept: int, f: Faults, key: string)
    requires AfterPublish(site, id, files, kept, f).1.Published? && key !in Entries(files)
    ensures var after := AfterPublish(site, id, files, kept, f).0; Complete(after) && LookupIn(after, key) == Miss
  {
    PublishedIsComplete(site, id, files, kept, f);
  }

  /**
   * After a successful deploy a request path is answered with file p exactly when p is one of the
   * artifact's files and the path names it; the answer is that file's own bytes, and nothing else is served.
   */
  lemma ServedIff(site: Site, id: ReleaseId, files: seq<File>, kept: int, f: Faults, key: string, p: string)
    requires PathsSafe(files) && AfterPublish(site, id, files, kept, f).1.Published?
    ensures Complete(AfterPublish(site, id, files, kept, f).0)
    ensures var answer := LookupIn(AfterPublish(site, id, files, kept, f).0, key);
            && (answer.Served? && answer.path == p <==> Holds(files, p) && Asks(key, p))
            && (answer.Served? ==> Last(files, answer.path).Some? && answer.releaseId == id
                                   && answer.body == BodyOf(id, files, answer.path))
  {
    EntryIsTheFileAskedFor(Start(site, id), id, files, f, key, p);
    if key in Entries(files) {
      ListedIsServed(site, id, files, kept, f, key);
    } else {
      UnlistedIsMissed(site, id, files, kept, f, key);
    }
  }

  lemma ManifestIsFreeIff(release: Release, files: seq<File>)
    requires forall p :: p in release <==> Holds(files, p)
    ensures Free(release, MANIFEST_FILE) <==> forall i :: 0 <= i < |files| ==> !Under(MANIFEST_FILE, files[i].path)
  {
    forall p ensures !Under(p, MANIFEST_FILE) {
      NothingUnder(p, MANIFEST_FILE);
    }
    assert forall i :: 0 <= i < |files| ==> Holds(files, files[i].path);
  }

  /** Without faults and under an unused id, the artifacts that can be published are exactly these. */
  lemma PublishableIff(site: Site, id: ReleaseId, files: seq<File>, kept: int, f: Faults)
    requires PathsSafe(files) && id !in site.releases && f.mkdirOk && f.broken == {} && f.swapOk
    ensures AfterPublish(site, id, files, kept, f).1.Published? <==>
            && Holds(files, INDEX) && NoDots(files) && Apart(files)
            && forall i :: 0 <= i < |files| ==> !Under(MANIFEST_FILE, files[i].path)
  {
    WriteAllSucceedsIff(map[], files, 0);
    RootIff(files);
    var written := WriteAll(map[], files, 0, {});
    if written.Some? {
      forall p ensures p in written.value <==> Holds(files, p) {
        WriteAllWrites(map[], files, 0, {}, p);
        LastIff(files, p);
      }
      ManifestIsFreeIff(written.value, files);
    }
  }

  lemma NothingUnder(d: string, name: string)
    requires '/' !in name
    ensures !Under(d, name)
  {
    if |name| > |d| { assert name[..|d| + 1][|d|] == name[|d|]; }
  }

  lemma RootIff(files: seq<File>)
    requires PathsSafe(files)
    ensures "/" in Entries(files) <==> Holds(files, INDEX)
  {
    EntriesMean(files, "/");
    if "/" in Entries(files) {
      var i :| 0 <= i < |files| && Asks("/", files[i].path);
      Named("/", files[i].path);
    }
    if Holds(files, INDEX) {
      var i :| 0 <= i < |files| && files[i].path == INDEX;
      assert Asks("/", files[i].path);
    }
  }

  // ---------------------------------------------------------------- failures

  /** The flip took effect, reported a failure, and its release was cleaned up behind it. */
  ghost predicate FlipLost(sites: map<SiteKey, Site>, owners: map<string, string>, kept: int, q: Request, f: Faults) {
    AfterDeploy(sites, owners, kept, q, f).1 == PublishSwapFailed && f.swapLanded
  }

  /**
   * A deploy that does not publish leaves every lookup as it was, unless its id is the live release's own
   * or its flip took effect although it reported a failure.
   */
  lemma FailureIsInvisible(sites: map<SiteKey, Site>, owners: map<string, string>, kept: int, q: Request, f: Faults,
                           project: string, target: string, signature: Signature, requestPath: string)
    requires !AfterDeploy(sites, owners, kept, q, f).1.Published? && !FlipLost(sites, owners, kept, q, f)
    requires q.project in owners ==> SiteAt(sites, KeyOf(owners, q.project, q.target)).current != Some(q.releaseId)
    ensures Looked(AfterDeploy(sites, owners, kept, q, f).0, owners, project, target, signature, requestPath)
            == Looked(sites, owners, project, target, signature, requestPath)
  {
  }

  /** In that last case the clean-up removes the release that is live by then, and its site answers nothing. */
  lemma LostFlipServesNothing(sites: map<SiteKey, Site>, owners: map<string, string>, kept: int, q: Request, f: Faults,
                              signature: Signature, requestPath: string)
    requires FlipLost(sites, owners, kept, q, f) && f.leftover.None?
    ensures Looked(AfterDeploy(sites, owners, kept, q, f).0, owners, q.project, q.target, signature, requestPath) ==
              Miss
  {
  }

  // ---------------------------------------------------------------- runs

  datatype Op = Op(request: Request, faults: Faults)
  datatype Live = Live(id: ReleaseId, files: seq<File>)

  /** The sites, and per site the last artifact published. */
  datatype World = World(sites: map<SiteKey, Site>, live: map<SiteKey, Live>)

  ghost function Step(w: World, owners: map<string, string>, kept: int, op: Op): World {
    var (sites, outcome) := AfterDeploy(w.sites, owners, kept, op.request, op.faults);
    if !outcome.Published? then World(sites, w.live)
    else World(sites, w.live[KeyOf(owners, op.request.project, op.request.target) :=
                             Live(op.request.releaseId, Screened(owners, op.request).1)])
  }

  ghost function Run(w: World, owners: map<string, string>, kept: int, ops: seq<Op>): World
    decreases ops
  {
    if ops == [] then w else Run(Step(w, owners, kept, ops[0]), owners, kept, ops[1..])
  }

  /** No deploy draws the id of the release that is live on its site, and no flip is lost. */
  ghost predicate FreshRun(w: World, owners: map<string, string>, kept: int, ops: seq<Op>)
    decreases ops
  {
    ops == [] ||
    (var q := ops[0].request;
     && (q.project in owners ==> SiteAt(w.sites, KeyOf(owners, q.project, q.target)).current != Some(q.releaseId))
     && !FlipLost(w.sites, owners, kept, q, ops[0].faults)
     && FreshRun(Step(w, owners, kept, ops[0]), owners, kept, ops[1..]))
  }

  ghost predicate AnswersAt(site: Site, live: Option<Live>, key: string, p: string) {
    var answer := LookupIn(site, key);
    if live.Some? && Holds(live.value.files, p) && Asks(key, p)
    then Last(live.value.files, p).Some?
         && answer == Served(BodyOf(live.value.id, live.value.files, p), live.value.id, p)
    else answer.Served? ==> answer.path != p
  }

  /** A site answers with the files of its last published artifact, or misses when there is none. */
  ghost predicate Answers(site: Site, live: Option<Live>) {
    forall key, p :: AnswersAt(site, live, key, p)
  }

  function LiveAt(live: map<SiteKey, Live>, key: SiteKey): Option<Live> {
    if key in live then Some(live[key]) else None
  }

  ghost predicate Faithful(w: World) {
    forall key :: Answers(SiteAt(w.sites, key), LiveAt(w.live, key))
  }

  lemma ScreenedIsSafe(owners: map<string, string>, q: Request)
    ensures PathsSafe(Screened(owners, q).1)
  {
    if q.artifact.Some? && q.artifact.value.Bundle? { DecodedIsSafe(q.artifact.value.entries); }
  }

  lemma {:induction false} DecodedIsSafe(entries: seq<Entry>)
    ensures DecodeEntries(entries).Files? ==> PathsSafe(DecodeEntries(entries).files)
  {
    if entries != [] && Objection(entries[0]).None? { DecodedIsSafe(entries[1..]); }
  }

  lemma PublishedAnswers(site: Site, id: ReleaseId, files: seq<File>, kept: int, f: Faults)
    requires PathsSafe(files) && AfterPublish(site, id, files, kept, f).1.Published?
    ensures Answers(AfterPublish(site, id, files, kept, f).0, Some(Live(id, files)))
  {
    PublishedIsComplete(site, id, files, kept, f);
    var after := AfterPublish(site, id, files, kept, f).0;
    forall key, p ensures AnswersAt(after, Some(Live(id, files)), key, p) {
      ServedIff(site, id, files, kept, f, key, p);
    }
  }

  lemma StepIsFaithful(w: World, owners: map<string, string>, kept: int, op: Op)
    requires Faithful(w)
    requires op.request.project in owners ==>
             SiteAt(w.sites, KeyOf(owners, op.request.project, op.request.target)).current != Some(op.request.releaseId)
    requires !FlipLost(w.sites, owners, kept, op.request, op.faults)
    ensures Faithful(Step(w, owners, kept, op))
  {
    var q, f := op.request, op.faults;
    var (refusal, files) := Screened(owners, q);
    if refusal.None? {
      var own := KeyOf(owners, q.project, q.target);
      var site := SiteAt(w.sites, own);
      var (after, outcome) := AfterPublish(site, q.releaseId, files, kept, f);
      var next := Step(w, owners, kept, op);
      assert Answers(site, LiveAt(w.live, own));
      if outcome.Published? {
        ScreenedIsSafe(owners, q);
        PublishedAnswers(site, q.releaseId, files, kept, f);
      } else {
        DiscardedAnswers(site, q.releaseId, f, LiveAt(w.live, own));
      }
      forall key ensures Answers(SiteAt(next.sites, key), LiveAt(next.live, key)) {
        assert Answers(SiteAt(w.sites, key), LiveAt(w.live, key));
      }
    }
  }

  lemma DiscardedAnswers(site: Site, id: ReleaseId, f: Faults, live: Option<Live>)
    requires Answers(site, live) && site.current != Some(id)
    ensures Answers(Discarded(site, id, f), live)
  {
    forall key, p ensures AnswersAt(Discarded(site, id, f), live, key, p) {
      assert AnswersAt(site, live, key, p);
      assert LookupIn(Discarded(site, id, f), key) == LookupIn(site, key);
    }
  }

  lemma {:induction false} RunIsFaithful(w: World, owners: map<string, string>, kept: int, ops: seq<Op>)
    requires Faithful(w) && FreshRun(w, owners, kept, ops)
    ensures Faithful(Run(w, owners, kept, ops))
    decreases ops
  {
    if ops != [] {
      StepIsFaithful(w, owners, kept, ops[0]);
      RunIsFaithful(Step(w, owners, kept, ops[0]), owners, kept, ops[1..]);
    }
  }

  /**
   * Over every run of deploys on every site, whatever fails: a signed request is answered with file p
   * exactly when p belongs to the artifact last published there and the request names it.
   */
  lemma {:induction false} LastPublishedIsServed(owners: map<string, string>, kept: int, ops: seq<Op>,
                                                 project: string, target: string,
                              requestPath: string, p: string)
    requires FreshRun(World(map[], map[]), owners, kept, ops)
    requires ServableId(project) && target in PUBLISHABLE && project in owners && owners[project] != ""
    ensures var w := Run(World(map[], map[]), owners, kept, ops);
            var key := KeyOf(owners, project, target);
            var answer := Looked(w.sites, owners, project, target, Signed(key), requestPath);
            if key in w.live && Holds(w.live[key].files, p) && Asks(requestPath, p)
            then Last(w.live[key].files, p).Some?
                 && answer == Served(BodyOf(w.live[key].id, w.live[key].files, p), w.live[key].id, p)
            else answer.Served? ==> answer.path != p
  {
    var none := World(map[], map[]);
    forall key ensures Answers(SiteAt(none.sites, key), LiveAt(none.live, key)) {
      NothingAnswers();
    }
    RunIsFaithful(none, owners, kept, ops);
    var w := Run(none, owners, kept, ops);
    var own := KeyOf(owners, project, target);
    assert Answers(SiteAt(w.sites, own), LiveAt(w.live, own));
    assert AnswersAt(SiteAt(w.sites, own), LiveAt(w.live, own), requestPath, p);
  }

  lemma NothingAnswers()
    ensures Answers(Site(map[], None), None)
  {
  }

  // ---------------------------------------------------------------- which requests get through

  /** A name of 1 to 128 letters, digits, dots, underscores and hyphens, other than one or two dots. */
  predicate PlainId(project: string) {
    && 1 <= |project| <= 128 && project != "." && project != ".."
    && forall c :: c in project ==>
         'A' <= c <= 'Z' || 'a' <= c <= 'z' || '0' <= c <= '9' || c == '.' || c == '_' || c == '-'
  }

  lemma PlainIdIff(project: string)
    ensures ServableId(project) <==> PlainId(project)
  {
    assert forall i :: 0 <= i < |project| ==> project[i] in project;
  }

  /**
   * A request is let through to the site of its owner, project and target if and only if the project's name is
   * plain, the target is published, the project has an owner and the signature is the one for exactly that site.
   * Any other request, one with a forged signature among them, misses.
   */
  lemma LookupIsGuarded(sites: map<SiteKey, Site>, owners: map<string, string>, project: string, target: string,
                        signature: Signature, requestPath: string)
    ensures var through := && PlainId(project) && (target == "web" || target == "shared")
                           && project in owners && owners[project] != ""
                           && signature == Signed(SiteKey(owners[project], project, target));
            Looked(sites, owners, project, target, signature, requestPath)
            == if through then LookupIn(SiteAt(sites, SiteKey(owners[project], project, target)), requestPath) else Miss
    ensures signature == Forged ==> Looked(sites, owners, project, target, signature, requestPath) == Miss
  {
    PlainIdIff(project);
  }

  /** Each refusal before anything is written, in terms of the request. */
  lemma ScreenedIff(owners: map<string, string>, q: Request)
    ensures var refusal := Screened(owners, q).0;
            var elsewhere := q.destination.Some? && q.destination.value !in ["self-hosted", "self", "platform"];
            var target := q.target in ["web", "backend", "mobile", "shared"];
            var published := !elsewhere && (q.target == "web" || q.target == "shared");
            var owned := published && q.project in owners && owners[q.project] != "";
            && (refusal == Some(UnsupportedDestination) <==> elsewhere)
            && (refusal == Some(InvalidArtifact) <==> !elsewhere && !target)
            && (refusal == Some(TargetNotPublishable) <==> !elsewhere && target && !published)
            && (refusal == Some(NoOwner) <==> published && !owned)
            && (refusal == Some(ArtifactUnreadable) <==> owned && q.artifact.None?)
            && (forall code :: refusal == Some(ArtifactRefused(code)) <==>
                  owned && q.artifact.Some? && DecodeBundle(q.artifact.value) == Refused(code))
            && (refusal == Some(ArtifactEmpty) <==>
                owned && q.artifact.Some? && DecodeBundle(q.artifact.value) == Files([]))
            && (refusal.None? <==>
                owned && q.artifact.Some? && DecodeBundle(q.artifact.value).Files?
                && DecodeBundle(q.artifact.value).files != [])
  {
  }

  // ---------------------------------------------------------------- which deploys publish, and what failed ones leave

  /** A write that throws fails the staging; without one the faults do not matter. */
  lemma {:induction false} WriteAllMeetsFault(release: Release, files: seq<File>, step: nat, broken: set<nat>)
    ensures WriteAll(release, files, step, broken)
            == if exists k :: step <= k < step + |files| && k in broken then None
                else WriteAll(release, files, step, {})
    decreases files
  {
    if files != [] {
      WriteAllMeetsFault(release[files[0].path := Artifact(files[0].bytes)], files[1..], step + 1, broken);
    }
  }

  function NoWriteFails(f: Faults): Faults {
    f.(mkdirOk := true, broken := {})
  }

  /** A release is staged exactly if it could be without faults, its directory was made and no write to it threw. */
  lemma StagedIff(start: Release, id: ReleaseId, files: seq<File>, f: Faults)
    ensures Staged(start, id, files, f)
            == if f.mkdirOk && forall k :: k in f.broken ==> k > |files|
               then Staged(start, id, files, NoWriteFails(f)) else None
  {
    WriteAllMeetsFault(start, files, 0, f.broken);
    if f.mkdirOk && exists k :: k in f.broken && k <= |files| {
      var k :| k in f.broken && k <= |files|;
      assert k < |files| ==> 0 <= k < 0 + |files| && k in f.broken;
    }
  }

  /**
   * A deploy publishes if and only if its release was staged and the flip succeeded. A failed one names what
   * failed, leaves every other release alone and the live one as it was, unless its own flip took effect, and
   * removes its own release, or leaves of it what the clean-up left.
   */
  lemma PublishOutcome(site: Site, id: ReleaseId, files: seq<File>, kept: int, f: Faults)
    ensures var (t, r) := AfterPublish(site, id, files, kept, f);
            var staged := Staged(Start(site, id), id, files, f).Some?;
            && (r == Published(id) <==> staged && f.swapOk) && (r == PublishFailed <==> !staged)
            && (r == PublishSwapFailed <==> staged && !f.swapOk)
            && (r == Published(id) ==> t.current == Some(id))
            && (r != Published(id) ==>
                  && t.current == (if staged && f.swapLanded then Some(id) else site.current)
                  && (id in t.releases <==> f.leftover.Some?)
                  && (id in t.releases ==> t.releases[id] == f.leftover.value)
                  && forall other :: other != id ==>
                       && (other in t.releases <==> other in site.releases)
                       && (other in t.releases ==> t.releases[other] == site.releases[other]))
  {
  }

  /**
   * Whatever a site holds, an empty request path or one with a NUL misses, and what is served is a safe path of
   * the live release.
   */
  lemma ServedIsInside(site: Site, requestPath: string)
    ensures requestPath == "" || '\0' in requestPath ==> LookupIn(site, requestPath) == Miss
    ensures var answer := LookupIn(site, requestPath);
            answer.Served? ==>
              && site.current.Some? && site.current.value in site.releases
              && IsSafeRelativePath(answer.path) && !StartsWith(answer.path, "..")
              && answer.path in site.releases[site.current.value]
              && answer.body == site.releases[site.current.value][answer.path]
  {
  }

  /** A release id used before starts from what its directory holds: files the artifact does not name stay in it. */
  lemma ReusedIdKeepsFiles(site: Site, id: ReleaseId, files: seq<File>, kept: int, f: Faults, p: string)
    requires AfterPublish(site, id, files, kept, f).1.Published? && id in site.releases
    requires p in site.releases[id] && !Holds(files, p) && p != MANIFEST_FILE
    ensures var t := AfterPublish(site, id, files, kept, f).0;
            id in t.releases && p in t.releases[id] && t.releases[id][p] == site.releases[id][p]
  {
    PublishedIsComplete(site, id, files, kept, f);
    WriteAllWrites(Start(site, id), files, 0, f.broken, p);
    LastIff(files, p);
  }
}
