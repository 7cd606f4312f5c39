/**
 * Publishing an artifact and serving it (src/project/self-hosted-deploy.js).
 *
 * A release directory is a map from relative path to content. Every file-system step can fail
 * on demand, and a removal that fails leaves whatever it leaves. The URL signature is modelled
 * as the triple it is derived from.
 */
module SelfHostedDeploy {
  import opened Strings
  import opened TreeCodec
  import opened ArtifactBundle

  type ReleaseId = string

  const MANIFEST_FILE := "manifest.json"
  const INDEX := "index.html"

  /** What a file of a release holds: bytes of the artifact, or the manifest document. */
  datatype Content = Artifact(bytes: Bytes) | Manifest(releaseId: ReleaseId, entries: map<string, string>)

  type Release = map<string, Content>

  datatype Site = Site(releases: map<ReleaseId, Release>, current: Option<ReleaseId>)
  datatype SiteKey = SiteKey(owner: string, project: string, target: string)
  datatype Signature = Signed(key: SiteKey) | Forged

  datatype Outcome =
    | Published(releaseId: ReleaseId)
    | UnsupportedDestination | InvalidArtifact | TargetNotPublishable | NoOwner
    | ArtifactUnreadable | ArtifactRefused(code: Code) | ArtifactEmpty
    | PublishFailed | PublishSwapFailed

  datatype Answer = Miss | Served(body: Content, releaseId: ReleaseId, path: string)

  /** A destination is given trimmed and lower-cased; unreadable artifact bytes are None. */
  datatype Request = Request(project: string, destination: Option<string>, target: string, artifact: Option<Parsed>,
                             releaseId: ReleaseId)

  /**
   * What goes wrong: creating the release directory; which writes throw, the manifest being the
   * last; the flip, which may take effect although it reports a failure; the clean-up of a failed
   * release and what it leaves; reading the release list; which removals fail while pruning and
   * what they leave.
   */
  datatype Faults = Faults(mkdirOk: bool, broken: set<nat>, swapOk: bool, swapLanded: bool,
                           leftover: Option<Release>, listOk: bool, stuck: map<ReleaseId, Release>)

  // ---------------------------------------------------------------- paths on disk

  predicate StartsWith(s: string, prefix: string) {
    |s| >= |prefix| && s[..|prefix|] == prefix
  }

  /** p lies below the directory d. */
  predicate Under(d: string, p: string) {
    StartsWith(p, d + "/")
  }

  /** path.relative of two locations does not start with two dots. */
  predicate Contained(root: Location, candidate: Location) {
    candidate == root || (root < candidate && !StartsWith(Join(candidate[|root|..], '/'), ".."))
  }

  /** An accepted path is refused by the containment check exactly when its text starts with two dots. */
  lemma ContainedIff(root: Location, rel: string)
    requires IsSafeRelativePath(rel)
    ensures Contained(root, Resolve(root, rel)) <==> !StartsWith(rel, "..")
  {
    SafeIff(root, rel);
    JoinSplit(rel, '/');
    assert (root + Split(rel, '/'))[|root|..] == Split(rel, '/');
  }

  /** No file stands where p needs a directory, and no directory where p is to be written. */
  predicate Free(release: Release, p: string) {
    forall q :: q in release ==> !Under(q, p) && !Under(p, q)
  }

  // ---------------------------------------------------------------- the manifest

  /** The directory of a file with this name, or None for another file. */
  function DirectoryOf(rel: string, name: string): Option<string> {
    var segments := Split(rel, '/');
    if segments[|segments| - 1] != name then None
    else if |segments| == 1 then Some("")
    else Some(Join(segments[..|segments| - 1], '/'))
  }

  function IndexDirectory(rel: string): Option<string> {
    DirectoryOf(rel, INDEX)
  }

  function AddEntries(entries: map<string, string>, rel: string): map<string, string> {
    if !IsSafeRelativePath(rel) then entries
    else
      var own := entries["/" + rel := rel];
      match IndexDirectory(rel)
      case None => own
      case Some(dir) => if dir == "" then own["/" := rel] else own["/" + dir + "/" := rel]["/" + dir := rel]
  }

  function Entries(files: seq<File>): map<string, string> {
    if files == [] then map[] else AddEntries(Entries(files[..|files| - 1]), files[|files| - 1].path)
  }

  method ManifestEntriesFor(files: seq<File>) returns (entries: map<string, string>)
    ensures entries == Entries(files)
  {
    entries := map[];
    assert files[..0] == [];
    for i := 0 to |files|
      invariant entries == Entries(files[..i])
    {
      var rel := files[i].path;
      assert files[..i + 1][..i] == files[..i];
      if !IsSafeRelativePath(rel) { continue; }
      entries := entries["/" + rel := rel];
      var segments := Split(rel, '/');
      if segments[|segments| - 1] == INDEX {
        var dir := if |segments| == 1 then "" else Join(segments[..|segments| - 1], '/');
        if dir == "" {
          entries := entries["/" := rel];
        } else {
          entries := entries["/" + dir + "/" := rel];
          entries := entries["/" + dir := rel];
        }
      }
    }
    assert files[..|files|] == files;
  }

  // ---------------------------------------------------------------- staging

  function WriteAll(release: Release, files: seq<File>, step: nat, broken: set<nat>): Option<Release>
    decreases files
  {
    if files == [] then Some(release)
    else if step in broken || StartsWith(files[0].path, "..") || !Free(release, files[0].path) then None
    else WriteAll(release[files[0].path := Artifact(files[0].bytes)], files[1..], step + 1, broken)
  }

  function Staged(start: Release, id: ReleaseId, files: seq<File>, f: Faults): Option<Release> {
    if !f.mkdirOk then None
    else
      var written := WriteAll(start, files, 0, f.broken);
      if written.None? || "/" !in Entries(files) || |files| in f.broken || !Free(written.value, MANIFEST_FILE) then None
      else Some(written.value[MANIFEST_FILE := Manifest(id, Entries(files))])
  }

  method StageRelease(dir: Location, start: Release, id: ReleaseId, files: seq<File>, f: Faults)
    returns (r: Option<Release>)
    requires forall i :: 0 <= i < |files| ==> IsSafeRelativePath(files[i].path)
    ensures r == Staged(start, id, files, f)
  {
    if !f.mkdirOk { return None; }
    var release := start;
    for i := 0 to |files|
      invariant WriteAll(start, files, 0, f.broken) == WriteAll(release, files[i..], i, f.broken)
    {
      assert files[i..][0] == files[i] && files[i..][1..] == files[i + 1..];
      ContainedIff(dir, files[i].path);
      if !Contained(dir, Resolve(dir, files[i].path)) { return None; }
      if i in f.broken || !Free(release, files[i].path) { return None; }
      release := release[files[i].path := Artifact(files[i].bytes)];
    }
    var entries := ManifestEntriesFor(files);
    if "/" !in entries { return None; }
    if |files| in f.broken || !Free(release, MANIFEST_FILE) { return None; }
    return Some(release[MANIFEST_FILE := Manifest(id, entries)]);
  }

  // ---------------------------------------------------------------- pruning

  predicate Ordered(names: seq<string>) {
    |names| < 2 || (Less(names[0], names[1]) && Ordered(names[1..]))
  }

  function InsertName(n: string, names: seq<string>): seq<string> {
    if names == [] || Less(n, names[0]) then [n] + names else [names[0]] + InsertName(n, names[1..])
  }

  /** The names of a directory, sorted; the order they are read in is arbitrary. */
  ghost function SortedNames(s: set<string>): seq<string> {
    if s == {} then [] else var n :| n in s; InsertName(n, SortedNames(s - {n}))
  }

  function Without(names: seq<string>, n: string): seq<string> {
    if names == [] then []
    else if names[0] == n then Without(names[1..], n)
    else [names[0]] + Without(names[1..], n)
  }

  function Cut(names: seq<string>, count: int): seq<string> {
    if count <= 0 then [] else if count > |names| then names else names[..count]
  }

  /** The releases pruned: all but keepId in name order, as many as exceed `kept`. */
  ghost function Doomed(all: set<ReleaseId>, keepId: ReleaseId, kept: int): seq<ReleaseId> {
    Cut(Without(SortedNames(all), keepId), |SortedNames(all)| - kept)
  }

  function Removed(releases: map<ReleaseId, Release>, doomed: seq<ReleaseId>, stuck: map<ReleaseId, Release>)
    : map<ReleaseId, Release>
  {
    map r | r in releases && (r in doomed ==> r in stuck) :: if r in doomed then stuck[r] else releases[r]
  }

  ghost function Pruned(releases: map<ReleaseId, Release>, keepId: ReleaseId, kept: int, f: Faults)
    : map<ReleaseId, Release>
  {
    if !f.listOk then releases else Removed(releases, Doomed(releases.Keys, keepId, kept), f.stuck)
  }

  lemma {:induction false} InsertNameKeeps(n: string, names: seq<string>)
    requires Ordered(names) && n !in names
    ensures Ordered(InsertName(n, names)) && |InsertName(n, names)| == |names| + 1
    ensures forall x :: x in InsertName(n, names) <==> x == n || x in names
  {
    if names != [] {
      assert names == [names[0]] + names[1..];
      LessIsTotal(n, names[0]);
      if !Less(n, names[0]) {
        InsertNameKeeps(n, names[1..]);
        assert InsertName(n, names)[1..] == InsertName(n, names[1..]);
      } else {
        assert InsertName(n, names)[1..] == names;
      }
    }
  }

  lemma {:induction false} SortedNamesShape(s: set<string>)
    ensures Ordered(SortedNames(s)) && |SortedNames(s)| == |s|
    ensures forall x :: x in SortedNames(s) <==> x in s
  {
    if s != {} {
      var n :| n in s && SortedNames(s) == InsertName(n, SortedNames(s - {n}));
      SortedNamesShape(s - {n});
      InsertNameKeeps(n, SortedNames(s - {n}));
    }
  }

  lemma {:induction false} FirstIsLeast(names: seq<string>, i: nat)
    requires Ordered(names) && 0 < i < |names|
    ensures Less(names[0], names[i])
  {
    if i > 1 {
      FirstIsLeast(names[1..], i - 1);
      LessIsTransitive(names[0], names[1], names[i]);
    }
  }

  lemma {:induction false} OrderedAt(names: seq<string>, i: nat, j: nat)
    requires Ordered(names) && i < j < |names|
    ensures Less(names[i], names[j])
  {
    if i == 0 { FirstIsLeast(names, j); } else { OrderedAt(names[1..], i - 1, j - 1); }
  }

  lemma HeadsAgree(a: seq<string>, b: seq<string>)
    requires Ordered(a) && Ordered(b) && a != [] && b != [] && a[0] in b && b[0] in a
    ensures a[0] == b[0]
  {
    var i :| 0 <= i < |b| && b[i] == a[0];
    var j :| 0 <= j < |a| && a[j] == b[0];
    if i > 0 { FirstIsLeast(b, i); }
    if j > 0 { FirstIsLeast(a, j); }
    LessIsTotal(a[0], b[0]);
  }

  lemma HeadIsNew(names: seq<string>)
    requires Ordered(names) && names != []
    ensures names[0] !in names[1..]
  {
    forall i | 0 <= i < |names[1..]| ensures names[1..][i] != names[0] {
      FirstIsLeast(names, i + 1);
      LessIsTotal(names[0], names[i + 1]);
    }
  }

  lemma EmptyMeans(names: seq<string>)
    ensures names == [] <==> forall x :: x !in names
  {
    if names != [] { assert names[0] in names; }
  }

  /** Sorted names are determined by the set of them. */
  lemma {:induction false} OrderedIsUnique(a: seq<string>, b: seq<string>)
    requires Ordered(a) && Ordered(b) && forall x :: x in a <==> x in b
    ensures a == b
  {
    EmptyMeans(a);
    EmptyMeans(b);
    if a != [] && b != [] {
      assert a[0] in b && b[0] in a;
      HeadsAgree(a, b);
      HeadIsNew(a);
      HeadIsNew(b);
      assert a == [a[0]] + a[1..] && b == [b[0]] + b[1..];
      forall x ensures x in a[1..] <==> x in b[1..] {
        assert x in a <==> x == a[0] || x in a[1..];
        assert x in b <==> x == b[0] || x in b[1..];
      }
      OrderedIsUnique(a[1..], b[1..]);
    }
  }

  lemma {:induction false} WithoutShape(names: seq<string>, n: string)
    requires Ordered(names)
    ensures forall x :: x in Without(names, n) <==> x in names && x != n
    ensures |Without(names, n)| == if n in names then |names| - 1 else |names|
    ensures Ordered(Without(names, n))
  {
    if names != [] {
      WithoutShape(names[1..], n);
      HeadIsNew(names);
      var rest := Without(names[1..], n);
      assert names == [names[0]] + names[1..];
      if names[0] != n && rest != [] {
        assert rest[0] in rest;
        var i :| 0 <= i < |names[1..]| && names[1..][i] == rest[0];
        FirstIsLeast(names, i + 1);
        assert Without(names, n)[1..] == rest;
      }
    }
  }

  /**
   * What pruning dooms: never the live release, all but max(1, kept) of the releases, and only
   * names that come before every other release left.
   */
  lemma DoomedShape(all: set<ReleaseId>, keepId: ReleaseId, kept: int)
    requires keepId in all
    ensures var doomed := Doomed(all, keepId, kept);
            && Ordered(doomed) && keepId !in doomed && (forall d :: d in doomed ==> d in all)
            && |doomed| == (var left := if kept < 1 then 1 else kept; if |all| <= left then 0 else |all| - left)
            && (forall d, x :: d in doomed && x in all && x !in doomed && x != keepId ==> Less(d, x))
  {
    var others := Without(SortedNames(all), keepId);
    var doomed := Doomed(all, keepId, kept);
    SortedNamesShape(all);
    WithoutShape(SortedNames(all), keepId);
    OrderedPrefix(others, |doomed|);
    assert doomed == others[..|doomed|];
    forall d, x | d in doomed && x in all && x !in doomed && x != keepId ensures Less(d, x) {
      EarlierIsLess(others, |doomed|, d, x);
    }
  }

  lemma {:induction false} EarlierIsLess(names: seq<string>, n: nat, d: string, x: string)
    requires Ordered(names) && n <= |names| && d in names[..n] && x in names && x !in names[..n]
    ensures Less(d, x)
  {
    assert names == names[..n] + names[n..];
    var i :| 0 <= i < n && names[..n][i] == d;
    var j :| 0 <= j < |names[n..]| && names[n..][j] == x;
    OrderedAt(names, i, n + j);
  }

  lemma {:induction false} OrderedPrefix(names: seq<string>, n: nat)
    requires Ordered(names) && n <= |names|
    ensures Ordered(names[..n])
  {
    if n > 1 {
      OrderedPrefix(names[1..], n - 1);
      assert names[..n][1..] == names[1..][..n - 1];
    }
  }

  lemma {:induction false} DistinctCount(names: seq<string>)
    requires Ordered(names)
    ensures |set x | x in names| == |names|
  {
    if names != [] {
      HeadIsNew(names);
      DistinctCount(names[1..]);
      assert names == [names[0]] + names[1..];
      assert (set x | x in names) == {names[0]} + (set x | x in names[1..]);
    }
  }

  lemma RemoveOne(releases: map<ReleaseId, Release>, gone: seq<ReleaseId>, name: ReleaseId,
                  stuck: map<ReleaseId, Release>)
    requires name in releases
    ensures var left, after := Removed(releases, gone, stuck), Removed(releases, gone + [name], stuck);
            after == if name in stuck then left[name := stuck[name]] else left - {name}
  {
    forall x ensures x in gone + [name] <==> x in gone || x == name {
    }
    var left, after := Removed(releases, gone, stuck), Removed(releases, gone + [name], stuck);
    if name in stuck {
      assert after.Keys == left[name := stuck[name]].Keys;
    } else {
      assert after.Keys == left.Keys - {name};
    }
  }

  /** Pruning keeps the live release as it is and, when every removal succeeds, exactly min(all, max(1, kept)). */
  lemma PruneKeepsTheLive(releases: map<ReleaseId, Release>, keepId: ReleaseId, kept: int, f: Faults)
    requires keepId in releases
    ensures var left := Pruned(releases, keepId, kept, f);
            && keepId in left && left[keepId] == releases[keepId] && left.Keys <= releases.Keys
            && (f.listOk && f.stuck == map[] ==>
                  var most := if kept < 1 then 1 else kept;
                  |left| == if |releases| <= most then |releases| else most)
  {
    DoomedShape(releases.Keys, keepId, kept);
    var doomed := Doomed(releases.Keys, keepId, kept);
    var gone := set x | x in doomed;
    DistinctCount(doomed);
    if f.listOk && f.stuck == map[] {
      var left := Pruned(releases, keepId, kept, f);
      assert left.Keys == releases.Keys - gone;
      assert gone <= releases.Keys;
    }
  }

  // ---------------------------------------------------------------- deploying

  function SiteAt(sites: map<SiteKey, Site>, key: SiteKey): Site {
    if key in sites then sites[key] else Site(map[], None)
  }

  const DESTINATIONS: set<string> := {"self-hosted", "self", "platform"}
  const TARGETS: set<string> := {"web", "backend", "mobile", "shared"}
  const PUBLISHABLE: set<string> := {"web", "shared"}

  /** The files a request is to publish, or why it is refused before anything is written. */
  function Screened(owners: map<string, string>, q: Request): (r: (Option<Outcome>, seq<File>)) {
    if q.destination.Some? && q.destination.value !in DESTINATIONS then (Some(UnsupportedDestination), [])
    else if q.target !in TARGETS then (Some(InvalidArtifact), [])
    else if q.target !in PUBLISHABLE then (Some(TargetNotPublishable), [])
    else if q.project !in owners || owners[q.project] == "" then (Some(NoOwner), [])
    else if q.artifact.None? then (Some(ArtifactUnreadable), [])
    else
      match DecodeBundle(q.artifact.value)
      case Refused(code) => (Some(ArtifactRefused(code)), [])
      case Files(files) => (if files == [] then Some(ArtifactEmpty) else None, files)
  }

  function Start(site: Site, id: ReleaseId): Release {
    if id in site.releases then site.releases[id] else map[]
  }

  /** The clean-up of a release that failed. */
  function Discarded(site: Site, id: ReleaseId, f: Faults): Site {
    Site(if f.leftover.Some? then site.releases[id := f.leftover.value] else site.releases - {id}, site.current)
  }

  /** A flip that reports a failure may have taken effect all the same. */
  function Flipped(site: Site, id: ReleaseId, f: Faults): Site {
    if f.swapLanded then site.(current := Some(id)) else site
  }

  ghost function AfterPublish(site: Site, id: ReleaseId, files: seq<File>, kept: int, f: Faults): (Site, Outcome) {
    var staged := Staged(Start(site, id), id, files, f);
    if staged.None? then (Discarded(site, id, f), PublishFailed)
    else if !f.swapOk then (Discarded(Flipped(site, id, f), id, f), PublishSwapFailed)
    else (Site(Pruned(site.releases[id := staged.value], id, kept, f), Some(id)), Published(id))
  }

  function KeyOf(owners: map<string, string>, project: string, target: string): SiteKey
    requires project in owners
  {
    SiteKey(owners[project], project, target)
  }

  ghost function AfterDeploy(sites: map<SiteKey, Site>, owners: map<string, string>, kept: int, q: Request, f: Faults)
    : (map<SiteKey, Site>, Outcome)
  {
    var (refusal, files) := Screened(owners, q);
    if refusal.Some? then (sites, refusal.value)
    else
      var key := KeyOf(owners, q.project, q.target);
      var (site, outcome) := AfterPublish(SiteAt(sites, key), q.releaseId, files, kept, f);
      (sites[key := site], outcome)
  }

  // ---------------------------------------------------------------- serving

  /** The live release is there and holds its manifest. */
  predicate Complete(site: Site) {
    site.current.Some? ==>
      && site.current.value in site.releases
      && MANIFEST_FILE in site.releases[site.current.value]
      && site.releases[site.current.value][MANIFEST_FILE].Manifest?
  }

  /** A live release that is gone, or has no manifest, misses; so does bytes of an artifact in the manifest's place. */
  function LookupIn(site: Site, requestPath: string): Answer {
    if requestPath == "" || '\0' in requestPath || site.current.None? || !Complete(site) then Miss
    else
      var release := site.releases[site.current.value];
      var manifest := release[MANIFEST_FILE];
      if requestPath !in manifest.entries then Miss
      else
        var rel := manifest.entries[requestPath];
        if !IsSafeRelativePath(rel) || StartsWith(rel, "..") || rel !in release then Miss
        else Served(release[rel], manifest.releaseId, rel)
  }

  predicate IdCharacter(c: char) {
    'A' <= c <= 'Z' || 'a' <= c <= 'z' || '0' <= c <= '9' || c == '.' || c == '_' || c == '-'
  }

  predicate ServableId(project: string) {
    && 1 <= |project| <= 128 && project != "." && project != ".."
    && forall i :: 0 <= i < |project| ==> IdCharacter(project[i])
  }

  function Looked(sites: map<SiteKey, Site>, owners: map<string, string>, project: string, target: string,
                  signature: Signature, requestPath: string): Answer
  {
    if !ServableId(project) || target !in PUBLISHABLE || project !in owners || owners[project] == "" then Miss
    else if signature != Signed(KeyOf(owners, project, target)) then Miss
    else LookupIn(SiteAt(sites, KeyOf(owners, project, target)), requestPath)
  }

  // ---------------------------------------------------------------- the boundary object

  class Publisher {
    const owners: map<string, string>
    const kept: int
    var sites: map<SiteKey, Site>

    constructor (owners: map<string, string>, kept: int)
      ensures this.owners == owners && this.kept == kept && sites == map[]
    {
      this.owners, this.kept, sites := owners, kept, map[];
    }

    /** The names read in any order and sorted. */
    method ReadNames(releases: map<ReleaseId, Release>) returns (all: seq<ReleaseId>)
      ensures all == SortedNames(releases.Keys)
    {
      all := [];
      var unread := releases.Keys;
      while unread != {}
        invariant unread <= releases.Keys && Ordered(all)
        invariant forall x :: x in all <==> x in releases && x !in unread
      {
        var name :| name in unread;
        InsertNameKeeps(name, all);
        all := InsertName(name, all);
        unread := unread - {name};
      }
      SortedNamesShape(releases.Keys);
      OrderedIsUnique(all, SortedNames(releases.Keys));
    }

    /** pruneReleases: the oldest go one by one; a removal that fails is passed over. */
    method PruneReleases(releases: map<ReleaseId, Release>, keepId: ReleaseId, f: Faults)
      returns (left: map<ReleaseId, Release>)
      requires keepId in releases
      ensures left == Pruned(releases, keepId, kept, f)
    {
      if !f.listOk { return releases; }
      var all := ReadNames(releases);
      var doomed := Cut(Without(all, keepId), |all| - kept);
      DoomedShape(releases.Keys, keepId, kept);
      left := releases;
      assert left == Removed(releases, doomed[..0], f.stuck);
      for i := 0 to |doomed|
        invariant left == Removed(releases, doomed[..i], f.stuck)
      {
        RemoveOne(releases, doomed[..i], doomed[i], f.stuck);
        assert doomed[..i + 1] == doomed[..i] + [doomed[i]];
        left := if doomed[i] in f.stuck then left[doomed[i] := f.stuck[doomed[i]]] else left - {doomed[i]};
      }
      assert doomed[..|doomed|] == doomed;
    }

    method Deploy(q: Request, f: Faults) returns (outcome: Outcome)
      modifies this`sites
      ensures (sites, outcome) == AfterDeploy(old(sites), owners, kept, q, f)
    {
      if q.destination.Some? && q.destination.value !in DESTINATIONS { return UnsupportedDestination; }
      if q.target !in TARGETS { return InvalidArtifact; }
      if q.target !in PUBLISHABLE { return TargetNotPublishable; }
      if q.project !in owners || owners[q.project] == "" { return NoOwner; }
      if q.artifact.None? { return ArtifactUnreadable; }
      var decoded := DecodeArtifactBundle(q.artifact.value);
      if decoded.Refused? { return ArtifactRefused(decoded.code); }
      if decoded.files == [] { return ArtifactEmpty; }

      var key := KeyOf(owners, q.project, q.target);
      var site := SiteAt(sites, key);
      var dir := [key.owner, key.project, key.target, "releases", q.releaseId];
      var staged := StageRelease(dir, Start(site, q.releaseId), q.releaseId, decoded.files, f);
      if staged.None? {
        sites := sites[key := Discarded(site, q.releaseId, f)];
        return PublishFailed;
      }
      if !f.swapOk {
        sites := sites[key := Discarded(Flipped(site, q.releaseId, f), q.releaseId, f)];
        return PublishSwapFailed;
      }
      var left := PruneReleases(site.releases[q.releaseId := staged.value], q.releaseId, f);
      sites := sites[key := Site(left, Some(q.releaseId))];
      return Published(q.releaseId);
    }

    method Lookup(project: string, target: string, signature: Signature, requestPath: string) returns (answer: Answer)
      ensures answer == Looked(sites, owners, project, target, signature, requestPath)
    {
      if !ServableId(project) || target !in PUBLISHABLE || requestPath == "" || '\0' in requestPath { return Miss; }
      if project !in owners || owners[project] == "" { return Miss; }
      var key := KeyOf(owners, project, target);
      if signature != Signed(key) { return Miss; }
      var site := SiteAt(sites, key);
      if site.current.None? || !Complete(site) { return Miss; }
      var release := site.releases[site.current.value];
      var manifest := release[MANIFEST_FILE];
      if requestPath !in manifest.entries { return Miss; }
      var rel := manifest.entries[requestPath];
      if !IsSafeRelativePath(rel) { return Miss; }
      var dir := [key.owner, key.project, key.target, "releases", site.current.value];
      ContainedIff(dir, rel);
      if !Contained(dir, Resolve(dir, rel)) || rel !in release { return Miss; }
      return Served(release[rel], manifest.releaseId, rel);
    }
  }
}
