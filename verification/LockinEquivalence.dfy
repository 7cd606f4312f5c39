/**
 * Any chain of incremental re-audits reports what one full audit of the final tree
 * reports: the same multiset of findings and the same multiset of unverified surfaces.
 *
 * Findings are compared by counting: how often a finding is reported is a function of
 * the file it names, whatever order the files come in.
 */
module LockinEquivalence {
  import opened Strings
  import opened LockinAudit

  ghost function Times(findings: seq<Finding>, f: Finding): nat {
    multiset(findings)[f]
  }

  ghost predicate SameFindings(a: seq<Finding>, b: seq<Finding>) {
    forall f :: Times(a, f) == Times(b, f)
  }

  ghost predicate SameSurfaces(a: seq<Surface>, b: seq<Surface>) {
    forall s :: multiset(a)[s] == multiset(b)[s]
  }

  lemma TimesConcat(a: seq<Finding>, b: seq<Finding>, f: Finding)
    ensures Times(a + b, f) == Times(a, f) + Times(b, f)
  {
  }

  lemma TimesPositive(a: seq<Finding>, f: Finding)
    ensures Times(a, f) > 0 <==> f in a
  {
  }

  // ---------------------------------------------------------------- counting

  /** How often scanning one file of the tree reports f. */
  ghost function ReportsOn(scan: Scanner, name: string, content: Option<Content>, f: Finding): nat {
    if content.Some? && content.value.TextFile? && !IsExcluded(name)
    then Times(scan(name, content.value.body), f) else 0
  }

  lemma {:induction false} LookupOther(tree: Tree, name: string)
    requires forall i :: 0 <= i < |tree| ==> tree[i].name != name
    ensures Lookup(tree, name) == None
  {
    if tree != [] { LookupOther(tree[..|tree| - 1], name); }
  }

  lemma TextOfScan(scan: Scanner, file: File, f: Finding)
    requires ScansPerFile(scan)
    ensures Times(ScanAll(scan, TextOf(file)), f)
            == if file.name == f.file then ReportsOn(scan, file.name, Some(file.content), f) else 0
  {
    var texts := TextOf(file);
    if texts != [] {
      assert texts[..|texts| - 1] == [];
      assert ScanAll(scan, texts) == [] + scan(texts[0].name, texts[0].body);
      TimesPositive(scan(file.name, file.content.body), f);
    }
  }

  lemma {:induction false} ScanAllConcat(scan: Scanner, a: seq<Text>, b: seq<Text>)
    ensures ScanAll(scan, a + b) == ScanAll(scan, a) + ScanAll(scan, b)
  {
    if b == [] {
      assert a + b == a;
    } else {
      assert (a + b)[..|a + b| - 1] == a + b[..|b| - 1];
      ScanAllConcat(scan, a, b[..|b| - 1]);
    }
  }

  /** A scan reports f just as often as scanning the file f names does. */
  lemma {:induction false} ScanCount(scan: Scanner, tree: Tree, f: Finding)
    requires ScansPerFile(scan) && DistinctNames(tree)
    ensures Times(ScanAll(scan, TextFiles(tree)), f) == ReportsOn(scan, f.file, Lookup(tree, f.file), f)
  {
    if tree != [] {
      var front, last := tree[..|tree| - 1], tree[|tree| - 1];
      ScanCount(scan, front, f);
      ScanAllConcat(scan, TextFiles(front), TextOf(last));
      TextOfScan(scan, last, f);
      if last.name == f.file { LookupOther(front, f.file); }
    }
  }

  lemma {:induction false} UnusedLinesShape(rel: string, lines: seq<string>, index: set<string>, f: Finding)
    requires f in UnusedLines(rel, lines, index)
    ensures f.signal == UNUSED_ENV && f.file == rel && !f.platformGenerated
    ensures f.evidence !in index
    ensures exists i :: 0 <= i < |lines| && Declared(lines[i]) == Some(f.evidence)
  {
    var k := |lines| - 1;
    if f in UnusedLines(rel, lines[..k], index) {
      UnusedLinesShape(rel, lines[..k], index, f);
      var i :| 0 <= i < k && Declared(lines[..k][i]) == Some(f.evidence);
      assert Declared(lines[i]) == Some(f.evidence);
    } else {
      assert Declared(lines[k]) == Some(f.evidence);
    }
  }

  /** Every unused-env finding is a name that some template declares and nobody reads. */
  lemma {:induction false} UnusedEnvShape(texts: seq<Text>, index: set<string>, f: Finding)
    requires f in UnusedEnv(texts, index)
    ensures f.signal == UNUSED_ENV && !f.platformGenerated && f.evidence !in index
  {
    var front, last := texts[..|texts| - 1], texts[|texts| - 1];
    if f in UnusedEnv(front, index) {
      UnusedEnvShape(front, index, f);
    } else {
      UnusedLinesShape(last.name, Split(last.body, '\n'), index, f);
    }
  }

  lemma {:induction false} UnusedEnvCount(texts: seq<Text>, index: set<string>, f: Finding)
    requires f.signal != UNUSED_ENV || f.platformGenerated
    ensures Times(UnusedEnv(texts, index), f) == 0
  {
    TimesPositive(UnusedEnv(texts, index), f);
    if f in UnusedEnv(texts, index) { UnusedEnvShape(texts, index, f); }
  }

  lemma {:induction false} CarriedCount(findings: seq<Finding>, changed: seq<string>, f: Finding)
    ensures Times(Carried(findings, changed), f)
            == if f.file !in changed && f.signal != UNUSED_ENV then Times(findings, f) else 0
  {
    if findings != [] {
      var front, last := findings[..|findings| - 1], findings[|findings| - 1];
      assert findings == front + [last];
      CarriedCount(front, changed, f);
    }
  }

  lemma {:induction false} ChangedLookup(tree: Tree, changed: seq<string>, name: string)
    ensures Lookup(ChangedTree(tree, changed), name) == if name in changed then Lookup(tree, name) else None
    ensures DistinctNames(ChangedTree(tree, changed))
    ensures forall i :: 0 <= i < |ChangedTree(tree, changed)| ==> ChangedTree(tree, changed)[i].name in changed
  {
    if changed != [] {
      var rel, before := changed[|changed| - 1], changed[..|changed| - 1];
      assert changed == before + [rel];
      ChangedLookup(tree, before, name);
      var sub := ChangedTree(tree, before);
      var all := ChangedTree(tree, changed);
      if rel !in before && Lookup(tree, rel).Some? {
        assert all == sub + [File(rel, Lookup(tree, rel).value)];
        assert all[..|all| - 1] == sub;
      } else {
        assert all == sub;
      }
    }
  }

  /** Every added, edited or removed path is listed. */
  ghost predicate Covers(before: Tree, after: Tree, changed: seq<string>) {
    forall name :: name !in changed ==> Lookup(before, name) == Lookup(after, name)
  }

  /** Carry-forward, rescan and whole-tree recompute together report f as often as a full scan. */
  lemma RawCount(scan: Scanner, before: Tree, after: Tree, changed: seq<string>, f: Finding)
    requires ScansPerFile(scan) && DistinctNames(before) && DistinctNames(after) && Covers(before, after, changed)
    ensures var full := TextFiles(after);
            Times(Carried(FullFindings(scan, before), changed), f)
            + Times(PerFileOnly(Detected(scan, ChangedTree(after, changed), full)), f)
            + Times(UnusedEnv(full, ReadNames(full)), f)
            == Times(FullFindings(scan, after), f)
  {
    var sub := ChangedTree(after, changed);
    CarriedCount(FullFindings(scan, before), changed, f);
    CarriedCount(Detected(scan, sub, TextFiles(after)), [], f);
    ScanCount(scan, before, f);
    ScanCount(scan, after, f);
    ChangedLookup(after, changed, f.file);
    ScanCount(scan, sub, f);
    if f.signal != UNUSED_ENV {
      UnusedEnvCount(TextFiles(before), ReadNames(TextFiles(before)), f);
      UnusedEnvCount(TextFiles(sub), ReadNames(TextFiles(after)), f);
    } else {
      ScanNeverUnused(scan, after, f);
    }
  }

  lemma ScanNeverUnused(scan: Scanner, tree: Tree, f: Finding)
    requires ScansPerFile(scan) && DistinctNames(tree) && (f.signal == UNUSED_ENV || f.platformGenerated)
    ensures Times(ScanAll(scan, TextFiles(tree)), f) == 0
  {
    ScanCount(scan, tree, f);
    var content := Lookup(tree, f.file);
    if content.Some? && content.value.TextFile? { TimesPositive(scan(f.file, content.value.body), f); }
  }

  // ---------------------------------------------------------------- the platformGenerated mark

  function Unmark(f: Finding): Finding {
    f.(platformGenerated := false)
  }

  lemma {:induction false} FlaggedCount(findings: seq<Finding>, f: Finding)
    ensures Times(Flagged(findings), f)
            == if f.platformGenerated then Times(findings, f) + Times(findings, Unmark(f)) else 0
  {
    if findings != [] {
      var front, last := findings[..|findings| - 1], findings[|findings| - 1];
      assert findings == front + [last];
      FlaggedCount(front, f);
    }
  }

  lemma FullIsRaw(scan: Scanner, tree: Tree, f: Finding)
    requires ScansPerFile(scan) && DistinctNames(tree) && f.platformGenerated
    ensures Times(FullFindings(scan, tree), f) == 0
  {
    ScanNeverUnused(scan, tree, f);
    UnusedEnvCount(TextFiles(tree), ReadNames(TextFiles(tree)), f);
  }

  /** The carried part of a result that is, up to order, a full audit of `before`. */
  lemma {:induction false} CarriedFromPrior(scan: Scanner, before: Tree, prior: seq<Finding>, mark: bool,
                                            changed: seq<string>, f: Finding)
    requires ScansPerFile(scan) && DistinctNames(before)
    requires SameFindings(prior, Marked(FullFindings(scan, before), mark))
    ensures var carried := Carried(FullFindings(scan, before), changed);
            Times(Carried(prior, changed), f)
            == if mark then (if f.platformGenerated then Times(carried, Unmark(f)) else 0) else Times(carried, f)
  {
    var full := FullFindings(scan, before);
    CarriedCount(prior, changed, f);
    CarriedCount(full, changed, f);
    CarriedCount(full, changed, Unmark(f));
    FlaggedCount(full, f);
    if f.platformGenerated { FullIsRaw(scan, before, f); }
  }

  /** The incremental findings before marking. */
  function Combined(scan: Scanner, after: Tree, prior: seq<Finding>, changed: seq<string>): seq<Finding> {
    var full := TextFiles(after);
    Carried(prior, changed) + PerFileOnly(Detected(scan, ChangedTree(after, changed), full))
    + UnusedEnv(full, ReadNames(full))
  }

  /** How often the unmarked incremental findings hold f, against the full scan. */
  lemma CombinedCount(scan: Scanner, before: Tree, after: Tree, changed: seq<string>, prior: seq<Finding>,
                      priorMark: bool, f: Finding)
    requires ScansPerFile(scan) && DistinctNames(before) && DistinctNames(after) && Covers(before, after, changed)
    requires SameFindings(prior, Marked(FullFindings(scan, before), priorMark))
    ensures !priorMark ==> Times(Combined(scan, after, prior, changed), f) == Times(FullFindings(scan, after), f)
    ensures priorMark && f.platformGenerated ==>
              Times(Combined(scan, after, prior, changed), f)
              == Times(Carried(FullFindings(scan, before), changed), Unmark(f))
    ensures priorMark && !f.platformGenerated ==>
              Times(Combined(scan, after, prior, changed), f) + Times(Carried(FullFindings(scan, before), changed), f)
              == Times(FullFindings(scan, after), f)
  {
    var full := TextFiles(after);
    var rescanned := PerFileOnly(Detected(scan, ChangedTree(after, changed), full));
    var crossFile := UnusedEnv(full, ReadNames(full));
    TimesConcat(Carried(prior, changed) + rescanned, crossFile, f);
    TimesConcat(Carried(prior, changed), rescanned, f);
    RawCount(scan, before, after, changed, f);
    CarriedFromPrior(scan, before, prior, priorMark, changed, f);
    if f.platformGenerated { FullIsRaw(scan, after, f); }
  }

  lemma MarkedAgree(scan: Scanner, before: Tree, after: Tree, changed: seq<string>, prior: seq<Finding>,
                    priorMark: bool)
    requires ScansPerFile(scan) && DistinctNames(before) && DistinctNames(after) && Covers(before, after, changed)
    requires SameFindings(prior, Marked(FullFindings(scan, before), priorMark))
    ensures SameFindings(Flagged(Combined(scan, after, prior, changed)), Flagged(FullFindings(scan, after)))
  {
    var all, raw := Combined(scan, after, prior, changed), FullFindings(scan, after);
    forall f ensures Times(Flagged(all), f) == Times(Flagged(raw), f) {
      FlaggedCount(all, f);
      FlaggedCount(raw, f);
      if f.platformGenerated {
        FullIsRaw(scan, after, f);
        CombinedCount(scan, before, after, changed, prior, priorMark, f);
        CombinedCount(scan, before, after, changed, prior, priorMark, Unmark(f));
      }
    }
  }

  /**
   * An incremental re-audit reports what a full audit of the same tree reports, exactly unless a
   * mark from the prior result is carried into a re-audit that is not itself marked.
   */
  lemma FindingsAgreeIff(scan: Scanner, before: Tree, after: Tree, changed: seq<string>, prior: Result, mark: bool)
    requires ScansPerFile(scan) && DistinctNames(before) && DistinctNames(after) && Covers(before, after, changed)
    requires prior.Audited? && SameFindings(prior.findings, Marked(FullFindings(scan, before), prior.platformGenerated))
    ensures SameFindings(IncrementalAudit(scan, after, mark, prior, changed).findings,
                         FullAudit(scan, after, mark).findings)
            <==> (prior.platformGenerated ==> mark || Carried(prior.findings, changed) == [])
  {
    var all, raw := Combined(scan, after, prior.findings, changed), FullFindings(scan, after);
    var carried := Carried(prior.findings, changed);
    if mark {
      MarkedAgree(scan, before, after, changed, prior.findings, prior.platformGenerated);
    } else if !prior.platformGenerated {
      forall f ensures Times(all, f) == Times(raw, f) {
        CombinedCount(scan, before, after, changed, prior.findings, false, f);
      }
    } else if carried == [] {
      forall f ensures Times(all, f) == Times(raw, f) {
        CombinedCount(scan, before, after, changed, prior.findings, true, f);
        NothingCarried(scan, before, prior.findings, changed, f);
        if f.platformGenerated {
          NothingCarried(scan, before, prior.findings, changed, Unmark(f));
          FullIsRaw(scan, after, f);
        }
      }
    } else {
      MarkIsCarried(scan, before, after, changed, prior.findings);
    }
  }

  lemma {:induction false} MarkIsCarried(scan: Scanner, before: Tree, after: Tree, changed: seq<string>,
                                         prior: seq<Finding>)
    requires ScansPerFile(scan) && DistinctNames(before) && DistinctNames(after) && Covers(before, after, changed)
    requires SameFindings(prior, Flagged(FullFindings(scan, before))) && Carried(prior, changed) != []
    ensures !SameFindings(Combined(scan, after, prior, changed), FullFindings(scan, after))
  {
    var f := Carried(prior, changed)[0];
    TimesPositive(Carried(prior, changed), f);
    CarriedFromPrior(scan, before, prior, true, changed, f);
    CombinedCount(scan, before, after, changed, prior, true, f);
    FullIsRaw(scan, after, f);
  }

  lemma NothingCarried(scan: Scanner, before: Tree, prior: seq<Finding>, changed: seq<string>, f: Finding)
    requires ScansPerFile(scan) && DistinctNames(before)
    requires SameFindings(prior, Flagged(FullFindings(scan, before))) && Carried(prior, changed) == []
    ensures Times(Carried(FullFindings(scan, before), changed), f) == 0
  {
    if f.platformGenerated {
      CarriedCount(FullFindings(scan, before), changed, f);
      FullIsRaw(scan, before, f);
    } else {
      CarriedFromPrior(scan, before, prior, true, changed, f.(platformGenerated := true));
    }
  }

  // ---------------------------------------------------------------- surfaces

  lemma {:induction false} SurfaceCount(tree: Tree, s: Surface)
    requires DistinctNames(tree)
    ensures multiset(Surfaces(tree))[s]
            == var c := Lookup(tree, s.file); if c.Some? && SurfaceOf(File(s.file, c.value)) == [s] then 1 else 0
  {
    if tree != [] {
      var front, last := tree[..|tree| - 1], tree[|tree| - 1];
      assert multiset(Surfaces(tree)) == multiset(Surfaces(front)) + multiset(SurfaceOf(last));
      SurfaceCount(front, s);
      if last.name == s.file { LookupOther(front, s.file); }
    }
  }

  lemma {:induction false} CarriedSurfaceCount(surfaces: seq<Surface>, changed: seq<string>, s: Surface)
    ensures multiset(CarriedSurfaces(surfaces, changed))[s] == if s.file !in changed then multiset(surfaces)[s] else 0
  {
    if surfaces != [] {
      var front, last := surfaces[..|surfaces| - 1], surfaces[|surfaces| - 1];
      assert surfaces == front + [last];
      CarriedSurfaceCount(front, changed, s);
    }
  }

  lemma SurfacesAgree(scan: Scanner, before: Tree, after: Tree, changed: seq<string>, prior: Result, mark: bool)
    requires DistinctNames(before) && DistinctNames(after) && Covers(before, after, changed)
    requires prior.Audited? && SameSurfaces(prior.surfaces, Surfaces(before))
    ensures SameSurfaces(IncrementalAudit(scan, after, mark, prior, changed).surfaces, Surfaces(after))
  {
    forall s
      ensures multiset(IncrementalAudit(scan, after, mark, prior, changed).surfaces)[s] == multiset(Surfaces(after))[s]
    {
      CarriedSurfaceCount(prior.surfaces, changed, s);
      SurfaceCount(before, s);
      SurfaceCount(after, s);
      ChangedLookup(after, changed, s.file);
      SurfaceCount(ChangedTree(after, changed), s);
    }
  }

  // ---------------------------------------------------------------- chains

  /** A re-audit request: the tree as it is now, and the paths said to have changed since the last one. */
  datatype Edit = Edit(tree: Tree, changed: seq<string>)

  ghost predicate SameReport(a: Result, b: Result) {
    && a.Audited? && b.Audited? && a.platformGenerated == b.platformGenerated
    && SameFindings(a.findings, b.findings) && SameSurfaces(a.surfaces, b.surfaces)
  }

  /** A full audit of the first tree, then one incremental re-audit per edit, each on the result before it. */
  function Chain(scan: Scanner, first: Tree, edits: seq<Edit>, mark: bool): (r: Result)
    ensures r.Audited?
  {
    if edits == [] then FullAudit(scan, first, mark)
    else
      var last := edits[|edits| - 1];
      IncrementalAudit(scan, last.tree, mark, Chain(scan, first, edits[..|edits| - 1], mark), last.changed)
  }

  function FinalTree(first: Tree, edits: seq<Edit>): Tree {
    if edits == [] then first else edits[|edits| - 1].tree
  }

  ghost predicate CoveredEdits(first: Tree, edits: seq<Edit>) {
    && DistinctNames(first)
    && forall i :: 0 <= i < |edits| ==>
         DistinctNames(edits[i].tree) && Covers(FinalTree(first, edits[..i]), edits[i].tree, edits[i].changed)
  }

  lemma {:induction false} ChainEqualsFullAudit(scan: Scanner, first: Tree, edits: seq<Edit>, mark: bool)
    requires ScansPerFile(scan) && CoveredEdits(first, edits)
    ensures SameReport(Chain(scan, first, edits, mark), FullAudit(scan, FinalTree(first, edits), mark))
  {
    if edits != [] {
      var front, last := edits[..|edits| - 1], edits[|edits| - 1];
      forall i | 0 <= i < |front|
        ensures DistinctNames(front[i].tree) && Covers(FinalTree(first, front[..i]), front[i].tree, front[i].changed)
      {
        assert front[..i] == edits[..i];
      }
      ChainEqualsFullAudit(scan, first, front, mark);
      var before, prior := FinalTree(first, front), Chain(scan, first, front, mark);
      FindingsAgreeIff(scan, before, last.tree, last.changed, prior, mark);
      SurfacesAgree(scan, before, last.tree, last.changed, prior, mark);
    }
  }

  // ---------------------------------------------------------------- what unused-env means

  lemma {:induction false} RunLengthIs(s: string, n: nat)
    requires n <= |s| && (forall i :: 0 <= i < n ==> IsNameChar(s[i])) && (n < |s| ==> !IsNameChar(s[n]))
    ensures RunLength(s) == n
  {
    if n > 0 { RunLengthIs(s[1..], n - 1); }
  }

  lemma {:induction false} RunStops(s: string, k: nat)
    requires k < |s| && !IsNameChar(s[k])
    ensures RunLength(s) <= k
  {
    if k > 0 && IsNameChar(s[0]) { RunStops(s[1..], k - 1); }
  }

  /** How far the search for names moves on. */
  function Advance(s: string): (n: nat)
    requires s != ""
  {
    var n := 1 + RunLength(s[1..]);
    if IsUpper(s[0]) && n >= 3 then n else 1
  }

  lemma NamesGrow(s: string)
    requires s != ""
    ensures Names(s[Advance(s)..]) <= Names(s)
  {
  }

  lemma NamesHead(s: string)
    requires s != "" && Advance(s) >= 3
    ensures s[..Advance(s)] in Names(s)
  {
  }

  lemma AdvanceTakes(name: string, y: string)
    requires |name| >= 3 && IsUpper(name[0]) && RunLength(name) == |name|
    requires y != "" ==> !IsNameChar(y[0])
    ensures Advance(name + y) == |name|
  {
    var s := name + y;
    assert s[1..] == name[1..] + y;
    assert y != "" ==> s[1..][|name| - 1] == y[0];
    RunLengthIs(s[1..], |name| - 1);
  }

  lemma NameAtFront(name: string, y: string)
    requires |name| >= 3 && IsUpper(name[0]) && RunLength(name) == |name|
    requires y != "" ==> !IsNameChar(y[0])
    ensures name in Names(name + y)
  {
    AdvanceTakes(name, y);
    NamesHead(name + y);
    assert (name + y)[..|name|] == name;
  }

  /** No search under way at the end of x: the name characters it ends with have no upper-case letter. */
  predicate Quiet(x: string) {
    x == "" || !IsNameChar(x[|x| - 1]) || (!IsUpper(x[|x| - 1]) && Quiet(x[..|x| - 1]))
  }

  /** A text the search can find as a whole: three name characters or more, the first an upper-case letter. */
  predicate IsName(name: string) {
    |name| >= 3 && IsUpper(name[0]) && RunLength(name) == |name|
  }

  lemma {:induction false} QuietSuffix(x: string, k: nat)
    requires Quiet(x) && k <= |x|
    ensures Quiet(x[k..])
  {
    if k < |x| && IsNameChar(x[|x| - 1]) {
      QuietSuffix(x[..|x| - 1], k);
      assert x[k..][..|x| - k - 1] == x[..|x| - 1][k..];
    }
  }

  lemma {:induction false} QuietEnds(x: string) returns (k: nat)
    requires Quiet(x) && x != "" && IsUpper(x[0])
    ensures 0 < k < |x| && !IsNameChar(x[k])
  {
    k := |x| - 1;
    if IsNameChar(x[|x| - 1]) { k := QuietEnds(x[..|x| - 1]); }
  }

  lemma {:induction false} QuietBehind(p: string, x: string, j: nat)
    requires Quiet(x) && j < |x| && !IsNameChar(x[j])
    ensures Quiet(p + x)
  {
    if IsNameChar(x[|x| - 1]) {
      QuietBehind(p, x[..|x| - 1], j);
      assert (p + x)[..|p + x| - 1] == p + x[..|x| - 1];
    }
  }

  lemma {:induction false} QuietCons(c: char, x: string)
    requires Quiet(x) && !IsUpper(c)
    ensures Quiet([c] + x)
  {
    if x == "" {
      assert ([c] + x)[..0] == "";
    } else if IsNameChar(x[|x| - 1]) {
      QuietCons(c, x[..|x| - 1]);
      assert ([c] + x)[..|x|] == [c] + x[..|x| - 1];
    }
  }

  lemma {:induction false} RunAtLeast(s: string, k: nat)
    requires k <= |s| && forall i :: 0 <= i < k ==> IsNameChar(s[i])
    ensures RunLength(s) >= k
  {
    if k > 0 { RunAtLeast(s[1..], k - 1); }
  }

  /** The search never moves past a quiet text into a name behind it. */
  lemma {:induction false} AdvanceStops(x: string, rest: string)
    requires x != "" && Quiet(x)
    ensures Advance(x + rest) <= |x|
  {
    var s := x + rest;
    if IsUpper(x[0]) {
      var k := QuietEnds(x);
      assert s[1..][k - 1] == x[k];
      RunStops(s[1..], k - 1);
    }
  }

  /** Where the search moves on and a run of three or more name characters is next, it came over a single character. */
  lemma RunBehindAdvance(s: string, end: nat)
    requires s != "" && Advance(s) + 3 <= end <= |s|
    requires forall j :: Advance(s) <= j < end ==> IsNameChar(s[j])
    ensures Advance(s) == 1 && !IsUpper(s[0])
  {
    var n, rest := 1 + RunLength(s[1..]), s[1..];
    assert IsNameChar(s[Advance(s)]);
    assert n < |s| ==> rest[n - 1] == s[n];
    if Advance(s) == 1 {
      forall j | 0 <= j < end - 1 ensures IsNameChar(rest[j]) {
        assert rest[j] == s[j + 1];
      }
      RunAtLeast(rest, end - 1);
    }
  }

  lemma AdvanceIsQuiet(s: string, x: string, name: string, y: string)
    requires s != "" && s[Advance(s)..] == x + name + y && Quiet(x) && IsName(name)
    ensures Quiet(s[..Advance(s)] + x)
  {
    var n := Advance(s);
    if j :| 0 <= j < |x| && !IsNameChar(x[j]) {
      QuietBehind(s[..n], x, j);
    } else {
      forall j | n <= j < n + |x| + |name| ensures IsNameChar(s[j]) {
        assert s[j] == s[n..][j - n] == (x + name)[j - n];
      }
      RunBehindAdvance(s, n + |x| + |name|);
      QuietCons(s[0], x);
      assert s[..1] + x == [s[0]] + x;
    }
  }

  /** A name that stands behind a quiet text and before no name character is found. */
  lemma {:induction false} MentionIsFound(x: string, name: string, y: string)
    requires IsName(name) && Quiet(x) && (y != "" ==> !IsNameChar(y[0]))
    ensures name in Names(x + name + y)
    decreases |x|
  {
    if x == "" {
      NameAtFront(name, y);
      assert x + name + y == name + y;
    } else {
      var s := x + (name + y);
      AdvanceStops(x, name + y);
      var n := Advance(s);
      assert x + name + y == s && s[n..] == x[n..] + name + y;
      QuietSuffix(x, n);
      MentionIsFound(x[n..], name, y);
      NamesGrow(s);
    }
  }

  /** The name stands in s at index i, behind a quiet text and before no name character. */
  predicate MentionedAt(s: string, name: string, i: nat) {
    OccursAt(name, s, i) && Quiet(s[..i]) && (i + |name| < |s| ==> !IsNameChar(s[i + |name|]))
  }

  ghost predicate Mentions(s: string, name: string) {
    exists i: nat :: MentionedAt(s, name, i)
  }

  lemma FoundAtFront(s: string)
    requires s != "" && Advance(s) >= 3
    ensures MentionedAt(s, s[..Advance(s)], 0)
  {
    var n := Advance(s);
    assert n < |s| ==> s[1..][n - 1] == s[n];
  }

  lemma FoundBehind(s: string, name: string, i: nat)
    requires s != "" && IsName(name) && MentionedAt(s[Advance(s)..], name, i)
    ensures MentionedAt(s, name, Advance(s) + i)
  {
    var n := Advance(s);
    var rest := s[n..];
    assert rest == rest[..i] + name + rest[i + |name|..];
    AdvanceIsQuiet(s, rest[..i], name, rest[i + |name|..]);
    assert s[..n + i] == s[..n] + rest[..i];
    assert s[n + i..n + i + |name|] == rest[i..i + |name|];
  }

  lemma NamesStep(s: string, name: string)
    requires s != "" && name in Names(s)
    ensures (Advance(s) >= 3 && name == s[..Advance(s)]) || name in Names(s[Advance(s)..])
  {
  }

  lemma {:induction false} FoundIsMentioned(s: string, name: string) returns (i: nat)
    requires name in Names(s) && IsName(name)
    ensures MentionedAt(s, name, i)
    decreases |s|
  {
    NamesStep(s, name);
    if Advance(s) >= 3 && name == s[..Advance(s)] {
      FoundAtFront(s);
      return 0;
    }
    var k := FoundIsMentioned(s[Advance(s)..], name);
    FoundBehind(s, name, k);
    return Advance(s) + k;
  }

  /** The names a text is found to read are exactly those it mentions. */
  lemma NamesIff(s: string, name: string)
    requires IsName(name)
    ensures name in Names(s) <==> Mentions(s, name)
  {
    if name in Names(s) { var i := FoundIsMentioned(s, name); }
    if i: nat :| MentionedAt(s, name, i) {
      var y := s[i + |name|..];
      assert s == s[..i] + name + y;
      assert y != "" ==> y[0] == s[i + |name|];
      MentionIsFound(s[..i], name, y);
    }
  }

  /** The text is no template and mentions the name. */
  ghost predicate Reads(t: Text, name: string) {
    Basename(t.name) !in ENV_TEMPLATES && Mentions(t.body, name)
  }

  ghost predicate ReadSomewhere(texts: seq<Text>, name: string) {
    exists i :: 0 <= i < |texts| && Reads(texts[i], name)
  }

  /** Some template declares the name on line i + 1. */
  predicate DeclaresAt(t: Text, i: int, name: string) {
    && Basename(t.name) in ENV_TEMPLATES
    && 0 <= i < |Split(t.body, '\n')| && Declared(Split(t.body, '\n')[i]) == Some(name)
  }

  lemma ReadSomewhereGrows(front: seq<Text>, last: Text, name: string)
    ensures ReadSomewhere(front + [last], name) <==> ReadSomewhere(front, name) || Reads(last, name)
  {
    var texts := front + [last];
    assert texts[|front|] == last;
    if i :| 0 <= i < |front| && Reads(front[i], name) { assert texts[i] == front[i]; }
    if i :| 0 <= i < |texts| && Reads(texts[i], name) { assert i < |front| ==> front[i] == texts[i]; }
  }

  lemma {:induction false} IndexedIff(texts: seq<Text>, name: string)
    requires IsName(name)
    ensures name in ReadNames(texts) <==> ReadSomewhere(texts, name)
  {
    if texts != [] {
      var front, last := texts[..|texts| - 1], texts[|texts| - 1];
      IndexedIff(front, name);
      NamesIff(last.body, name);
      ReadSomewhereGrows(front, last, name);
      assert texts == front + [last];
    }
  }

  lemma DeclaredName(line: string, name: string)
    requires Declared(line) == Some(name) && |name| >= 3
    ensures IsName(name)
  {
    forall j | 0 <= j < |name| ensures IsNameChar(name[j]) {
      assert name[j] == line[j];
      assert j > 0 ==> line[1..][j - 1] == line[j];
    }
    RunAtLeast(name, |name|);
  }

  lemma {:induction false} ReportedByTemplate(texts: seq<Text>, index: set<string>, k: nat, f: Finding)
    requires k < |texts| && Basename(texts[k].name) in ENV_TEMPLATES
    requires f in UnusedLines(texts[k].name, Split(texts[k].body, '\n'), index)
    ensures f in UnusedEnv(texts, index)
  {
    if k < |texts| - 1 { ReportedByTemplate(texts[..|texts| - 1], index, k, f); }
  }

  /**
   * A declared variable of three or more characters is reported unused exactly when no in-scope,
   * non-template text file of the tree mentions it.
   */
  lemma {:induction false} DeclaredIsUnusedIff(tree: Tree, k: nat, i: nat, name: string)
    requires var texts := TextFiles(tree); k < |texts| && DeclaresAt(texts[k], i, name)
    requires |name| >= 3
    ensures var texts := TextFiles(tree);
            (exists f :: f in UnusedEnv(texts, ReadNames(texts)) && f.evidence == name) <==> !ReadSomewhere(texts, name)
  {
    var texts := TextFiles(tree);
    var index := ReadNames(texts);
    var lines := Split(texts[k].body, '\n');
    DeclaredName(lines[i], name);
    IndexedIff(texts, name);
    if name !in index {
      var f := Finding(UNUSED_ENV, "medium", texts[k].name, i + 1, name, false);
      DeclaredIsReported(texts[k].name, lines, index, i, name);
      ReportedByTemplate(texts, index, k, f);
    }
    forall f | f in UnusedEnv(texts, index) ensures f.evidence !in index {
      UnusedEnvShape(texts, index, f);
    }
  }

  /** A variable that any in-scope, non-template text file of the tree mentions on its own is never reported unused. */
  lemma {:induction false} ReadVariableIsNotReported(scan: Scanner, tree: Tree, i: nat, x: string, name: string,
                                                     y: string, f: Finding)
    requires ScansPerFile(scan)
    requires i < |TextFiles(tree)| && Basename(TextFiles(tree)[i].name) !in ENV_TEMPLATES
    requires TextFiles(tree)[i].body == x + name + y
    requires |name| >= 3 && IsUpper(name[0]) && RunLength(name) == |name|
    requires (x != "" ==> !IsNameChar(x[|x| - 1])) && (y != "" ==> !IsNameChar(y[0]))
    requires f in UnusedEnv(TextFiles(tree), ReadNames(TextFiles(tree)))
    ensures f.evidence != name
  {
    var body := TextFiles(tree)[i].body;
    MentionIsFound(x, name, y);
    NamesIff(body, name);
    assert Reads(TextFiles(tree)[i], name);
    IndexedIff(TextFiles(tree), name);
    UnusedEnvShape(TextFiles(tree), ReadNames(TextFiles(tree)), f);
  }

  lemma {:induction false} NamesAreLong(s: string, name: string)
    requires name in Names(s)
    ensures |name| >= 3
    decreases |s|
  {
    var n := 1 + RunLength(s[1..]);
    if IsUpper(s[0]) && n >= 3 {
      if name != s[..n] { NamesAreLong(s[n..], name); }
    } else {
      NamesAreLong(s[1..], name);
    }
  }

  lemma {:induction false} IndexedAreLong(texts: seq<Text>, name: string)
    requires name in ReadNames(texts)
    ensures |name| >= 3
  {
    var front, last := texts[..|texts| - 1], texts[|texts| - 1];
    if name in ReadNames(front) { IndexedAreLong(front, name); } else { NamesAreLong(last.body, name); }
  }

  lemma {:induction false} DeclaredIsReported(rel: string, lines: seq<string>, index: set<string>, i: nat, name: string)
    requires i < |lines| && Declared(lines[i]) == Some(name) && name !in index
    ensures Finding(UNUSED_ENV, "medium", rel, i + 1, name, false) in UnusedLines(rel, lines, index)
  {
    if i < |lines| - 1 {
      DeclaredIsReported(rel, lines[..|lines| - 1], index, i, name);
    }
  }

  /**
   * Where the code falls short of its promise: a declared name of one or two characters is
   * reported unused however often it is read, because the read index has no names that short.
   */
  lemma ShortNameIsAlwaysReported(texts: seq<Text>, rel: string, lines: seq<string>, i: nat, name: string)
    requires i < |lines| && Declared(lines[i]) == Some(name) && |name| < 3
    ensures Finding(UNUSED_ENV, "medium", rel, i + 1, name, false) in UnusedLines(rel, lines, ReadNames(texts))
  {
    if name in ReadNames(texts) { IndexedAreLong(texts, name); }
    DeclaredIsReported(rel, lines, ReadNames(texts), i, name);
  }
}
