/**
 * The lock-in audit (src/portability/lockin-audit.js): a full scan of a project tree,
 * and an incremental re-audit that carries findings over and rescans only what changed.
 *
 * The per-file detectors are a parameter: any function of a file's path and body whose
 * findings name that path. The one cross-file detector, unused-env, is modelled.
 */
module LockinAudit {
  import opened Strings

  datatype Content = TextFile(body: string) | BinaryFile | OtherEntry
  datatype File = File(name: string, content: Content)
  /** A { relPath: contents } map in its iteration order. */
  type Tree = seq<File>
  datatype Text = Text(name: string, body: string)

  datatype Finding = Finding(signal: string, severity: string, file: string, line: nat, evidence: string,
                             platformGenerated: bool)
  datatype Surface = Surface(file: string, reason: string)

  type Scanner = (string, string) -> seq<Finding>

  datatype Result =
    | Audited(findings: seq<Finding>, surfaces: seq<Surface>, platformGenerated: bool)
    | FileCountExceeded(count: nat, limit: nat)
    | TimedOut
    | Rejected

  const UNUSED_ENV: string := "unused-env"

  predicate DistinctNames(tree: Tree) {
    forall i, j :: 0 <= i < j < |tree| ==> tree[i].name != tree[j].name
  }

  /** What the detectors promise: findings about this file alone, raw, and none of the cross-file signal. */
  ghost predicate ScansPerFile(scan: Scanner) {
    forall rel, body, f :: f in scan(rel, body) ==>
      f.file == rel && f.signal != UNUSED_ENV && !f.platformGenerated
  }

  // ---------------------------------------------------------------- scope

  const EXCLUDED_DIRS: set<string> := {"node_modules", ".git", "dist", "build", ".next", ".expo", "coverage"}
  const LOCKFILES: set<string> :=
    {"package-lock.json", "yarn.lock", "pnpm-lock.yaml", "bun.lock", "Cargo.lock", "poetry.lock", "go.sum"}
  const ENV_TEMPLATES: set<string> := {".env.template", ".env.example", ".env.sample"}

  predicate IsExcluded(rel: string) {
    var pieces := Split(rel, '/');
    || (exists i :: 0 <= i < |pieces| - 1 && pieces[i] in EXCLUDED_DIRS)
    || EndsWith(rel, ".lock")
    || Basename(rel) in LOCKFILES
  }

  function TextOf(file: File): seq<Text> {
    if file.content.TextFile? && !IsExcluded(file.name) then [Text(file.name, file.content.body)] else []
  }

  function SurfaceOf(file: File): seq<Surface> {
    if IsExcluded(file.name) || file.content.TextFile? then []
    else if file.content.BinaryFile? then [Surface(file.name, "binary")]
    else [Surface(file.name, "unreadable")]
  }

  function TextFiles(tree: Tree): seq<Text> {
    if tree == [] then [] else TextFiles(tree[..|tree| - 1]) + TextOf(tree[|tree| - 1])
  }

  function Surfaces(tree: Tree): seq<Surface> {
    if tree == [] then [] else Surfaces(tree[..|tree| - 1]) + SurfaceOf(tree[|tree| - 1])
  }

  // ---------------------------------------------------------------- environment names

  predicate IsUpper(c: char) { 'A' <= c <= 'Z' }
  predicate IsNameChar(c: char) { 'A' <= c <= 'Z' || '0' <= c <= '9' || c == '_' }

  /** Length of the longest prefix of name characters. */
  function RunLength(s: string): (n: nat)
    ensures n <= |s|
    ensures forall i :: 0 <= i < n ==> IsNameChar(s[i])
    ensures n < |s| ==> !IsNameChar(s[n])
  {
    if s == "" || !IsNameChar(s[0]) then 0 else 1 + RunLength(s[1..])
  }

  /** All matches of an upper-case letter followed by two or more name characters, leftmost and greedy. */
  function Names(s: string): set<string>
    decreases |s|
  {
    if s == "" then {}
    else
      var n := 1 + RunLength(s[1..]);
      if IsUpper(s[0]) && n >= 3 then {s[..n]} + Names(s[n..]) else Names(s[1..])
  }

  /** The name a template line declares. */
  function Declared(line: string): Option<string> {
    if line == "" || !IsUpper(line[0]) then None
    else
      var n := 1 + RunLength(line[1..]);
      if n < |line| && line[n] == '=' then Some(line[..n]) else None
  }

  function ReadNames(texts: seq<Text>): set<string> {
    if texts == [] then {} else
      var last := texts[|texts| - 1];
      ReadNames(texts[..|texts| - 1]) + (if Basename(last.name) in ENV_TEMPLATES then {} else Names(last.body))
  }

  function UnusedLines(rel: string, lines: seq<string>, index: set<string>): seq<Finding> {
    if lines == [] then [] else
      var i := |lines| - 1;
      var name := Declared(lines[i]);
      UnusedLines(rel, lines[..i], index)
      + (if name.Some? && name.value !in index
         then [Finding(UNUSED_ENV, "medium", rel, i + 1, name.value, false)] else [])
  }

  function UnusedEnv(texts: seq<Text>, index: set<string>): seq<Finding> {
    if texts == [] then [] else
      var last := texts[|texts| - 1];
      UnusedEnv(texts[..|texts| - 1], index)
      + (if Basename(last.name) in ENV_TEMPLATES then UnusedLines(last.name, Split(last.body, '\n'), index) else [])
  }

  function ScanAll(scan: Scanner, texts: seq<Text>): seq<Finding> {
    if texts == [] then [] else
      ScanAll(scan, texts[..|texts| - 1]) + scan(texts[|texts| - 1].name, texts[|texts| - 1].body)
  }

  // ---------------------------------------------------------------- the two audits

  function FullFindings(scan: Scanner, tree: Tree): seq<Finding> {
    var texts := TextFiles(tree);
    ScanAll(scan, texts) + UnusedEnv(texts, ReadNames(texts))
  }

  function Lookup(tree: Tree, name: string): Option<Content> {
    if tree == [] then None
    else if tree[|tree| - 1].name == name then Some(tree[|tree| - 1].content)
    else Lookup(tree[..|tree| - 1], name)
  }

  /** The changed files still present, one entry each. */
  function ChangedTree(tree: Tree, changed: seq<string>): Tree {
    if changed == [] then [] else
      var rel := changed[|changed| - 1];
      var before := changed[..|changed| - 1];
      ChangedTree(tree, before)
      + (if rel !in before && Lookup(tree, rel).Some? then [File(rel, Lookup(tree, rel).value)] else [])
  }

  function Carried(findings: seq<Finding>, changed: seq<string>): seq<Finding> {
    if findings == [] then [] else
      var f := findings[|findings| - 1];
      Carried(findings[..|findings| - 1], changed)
      + (if f.file !in changed && f.signal != UNUSED_ENV then [f] else [])
  }

  function CarriedSurfaces(surfaces: seq<Surface>, changed: seq<string>): seq<Surface> {
    if surfaces == [] then [] else
      var s := surfaces[|surfaces| - 1];
      CarriedSurfaces(surfaces[..|surfaces| - 1], changed) + (if s.file !in changed then [s] else [])
  }

  function PerFileOnly(findings: seq<Finding>): seq<Finding> {
    Carried(findings, [])
  }

  function Flagged(findings: seq<Finding>): seq<Finding> {
    if findings == [] then [] else
      Flagged(findings[..|findings| - 1]) + [findings[|findings| - 1].(platformGenerated := true)]
  }

  function Marked(findings: seq<Finding>, platformGenerated: bool): seq<Finding> {
    if platformGenerated then Flagged(findings) else findings
  }

  function FullAudit(scan: Scanner, tree: Tree, platformGenerated: bool): Result {
    Audited(Marked(FullFindings(scan, tree), platformGenerated), Surfaces(tree), platformGenerated)
  }

  function Detected(scan: Scanner, tree: Tree, full: seq<Text>): seq<Finding> {
    ScanAll(scan, TextFiles(tree)) + UnusedEnv(TextFiles(tree), ReadNames(full))
  }

  function IncrementalAudit(scan: Scanner, tree: Tree, platformGenerated: bool, prior: Result, changed: seq<string>)
    : Result
    requires prior.Audited?
  {
    var full := TextFiles(tree);
    var changedTree := ChangedTree(tree, changed);
    Audited(Marked(Carried(prior.findings, changed)
                   + PerFileOnly(Detected(scan, changedTree, full))
                   + UnusedEnv(full, ReadNames(full)), platformGenerated),
            CarriedSurfaces(prior.surfaces, changed) + Surfaces(changedTree), platformGenerated)
  }

  function AuditResult(scan: Scanner, limit: nat, budgetMs: int, tree: Tree, platformGenerated: bool,
                       prior: Option<Result>, changed: Option<seq<string>>, elapsedMs: int): Result
  {
    if |tree| > limit then FileCountExceeded(|tree|, limit)
    else if prior.Some? && changed.Some? && !prior.value.Audited? then Rejected
    else
      var result := if prior.Some? && changed.Some?
                    then IncrementalAudit(scan, tree, platformGenerated, prior.value, changed.value)
                    else FullAudit(scan, tree, platformGenerated);
      if elapsedMs > budgetMs then TimedOut else result
  }

  // ---------------------------------------------------------------- the auditor

  class Auditor {
    const scan: Scanner
    const fileCountLimit: nat
    const auditTimeoutMs: int

    constructor (scan: Scanner, fileCountLimit: nat, auditTimeoutMs: int)
      ensures this.scan == scan && this.fileCountLimit == fileCountLimit && this.auditTimeoutMs == auditTimeoutMs
    {
      this.scan, this.fileCountLimit, this.auditTimeoutMs := scan, fileCountLimit, auditTimeoutMs;
    }

    method Partition(tree: Tree) returns (texts: seq<Text>, surfaces: seq<Surface>)
      ensures texts == TextFiles(tree) && surfaces == Surfaces(tree)
    {
      texts, surfaces := [], [];
      for i := 0 to |tree|
        invariant texts == TextFiles(tree[..i]) && surfaces == Surfaces(tree[..i])
      {
        assert tree[..i + 1][..i] == tree[..i];
        var file := tree[i];
        if IsExcluded(file.name) { continue; }
        match file.content {
          case TextFile(body) => texts := texts + [Text(file.name, body)];
          case BinaryFile => surfaces := surfaces + [Surface(file.name, "binary")];
          case OtherEntry => surfaces := surfaces + [Surface(file.name, "unreadable")];
        }
      }
      assert tree[..|tree|] == tree;
    }

    method BuildEnvReadIndex(texts: seq<Text>) returns (index: set<string>)
      ensures index == ReadNames(texts)
    {
      index := {};
      for i := 0 to |texts|
        invariant index == ReadNames(texts[..i])
      {
        assert texts[..i + 1][..i] == texts[..i];
        if Basename(texts[i].name) in ENV_TEMPLATES { continue; }
        index := index + Names(texts[i].body);
      }
      assert texts[..|texts|] == texts;
    }

    method ScanUnusedEnv(texts: seq<Text>, index: set<string>) returns (findings: seq<Finding>)
      ensures findings == UnusedEnv(texts, index)
    {
      findings := [];
      for i := 0 to |texts|
        invariant findings == UnusedEnv(texts[..i], index)
      {
        assert texts[..i + 1][..i] == texts[..i];
        if Basename(texts[i].name) !in ENV_TEMPLATES { continue; }
        var lines := Split(texts[i].body, '\n');
        var before := findings;
        assert lines[..0] == [];
        for k := 0 to |lines|
          invariant findings == before + UnusedLines(texts[i].name, lines[..k], index)
        {
          assert lines[..k + 1][..k] == lines[..k];
          var name := Declared(lines[k]);
          if name.Some? && name.value !in index {
            findings := findings + [Finding(UNUSED_ENV, "medium", texts[i].name, k + 1, name.value, false)];
          }
        }
        assert lines[..|lines|] == lines;
      }
      assert texts[..|texts|] == texts;
    }

    /** detect: the per-file detectors on `tree`, and unused-env answered against the full text files. */
    method Detect(tree: Tree, full: Option<seq<Text>>) returns (findings: seq<Finding>, surfaces: seq<Surface>)
      ensures findings == Detected(scan, tree, if full.Some? then full.value else TextFiles(tree))
      ensures surfaces == Surfaces(tree)
    {
      var texts;
      texts, surfaces := Partition(tree);
      findings := [];
      for i := 0 to |texts|
        invariant findings == ScanAll(scan, texts[..i])
      {
        assert texts[..i + 1][..i] == texts[..i];
        findings := findings + scan(texts[i].name, texts[i].body);
      }
      assert texts[..|texts|] == texts;
      var index := BuildEnvReadIndex(if full.Some? then full.value else texts);
      var unused := ScanUnusedEnv(texts, index);
      findings := findings + unused;
    }

    method Audit(tree: Tree, platformGenerated: bool, prior: Option<Result>, changed: Option<seq<string>>,
                 elapsedMs: int)
      returns (result: Result)
      ensures result
           == AuditResult(scan, fileCountLimit, auditTimeoutMs, tree, platformGenerated, prior, changed, elapsedMs)
    {
      if |tree| > fileCountLimit { return FileCountExceeded(|tree|, fileCountLimit); }
      var findings, surfaces;
      if prior.Some? && changed.Some? {
        if !prior.value.Audited? { return Rejected; }
        var changedTree: Tree := [];
        assert changed.value[..0] == [];
        for i := 0 to |changed.value|
          invariant changedTree == ChangedTree(tree, changed.value[..i])
        {
          assert changed.value[..i + 1][..i] == changed.value[..i];
          var rel := changed.value[i];
          if rel !in changed.value[..i] && Lookup(tree, rel).Some? {
            changedTree := changedTree + [File(rel, Lookup(tree, rel).value)];
          }
        }
        assert changed.value[..|changed.value|] == changed.value;
        var full, _ := Partition(tree);
        var rescanned, rescannedSurfaces := Detect(changedTree, Some(full));
        var index := BuildEnvReadIndex(full);
        var crossFile := ScanUnusedEnv(full, index);
        findings := Carried(prior.value.findings, changed.value) + PerFileOnly(rescanned) + crossFile;
        surfaces := CarriedSurfaces(prior.value.surfaces, changed.value) + rescannedSurfaces;
      } else {
        findings, surfaces := Detect(tree, None);
      }
      if elapsedMs > auditTimeoutMs { return TimedOut; }
      return Audited(Marked(findings, platformGenerated), surfaces, platformGenerated);
    }
  }
}
