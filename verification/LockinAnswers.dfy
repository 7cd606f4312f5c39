/**
 * What the audit operation answers: which answer it gives, that a re-audit of a covered edit gives
 * the answer of a full audit, and what that answer says about each file of the tree.
 */
module LockinAnswers {
  import opened Strings
  import opened LockinAudit
  import opened LockinEquivalence

  // ---------------------------------------------------------------- which answer

  /** Each answer, in terms of the arguments alone. */
  lemma AnswerIff(scan: Scanner, limit: nat, budgetMs: int, tree: Tree, mark: bool, prior: Option<Result>,
                  changed: Option<seq<string>>, elapsedMs: int)
    ensures var r := AuditResult(scan, limit, budgetMs, tree, mark, prior, changed, elapsedMs);
            var unusable := prior.Some? && changed.Some? && !prior.value.Audited?;
            && (r.FileCountExceeded? <==> |tree| > limit)
            && (r.FileCountExceeded? ==> r == FileCountExceeded(|tree|, limit))
            && (r.Rejected? <==> |tree| <= limit && unusable)
            && (r.TimedOut? <==> |tree| <= limit && !unusable && elapsedMs > budgetMs)
            && (r.Audited? <==> |tree| <= limit && !unusable && elapsedMs <= budgetMs)
            && (r.Audited? ==> r.platformGenerated == mark)
  {
  }

  /** A prior result without a list of changes, or a list without a prior result, is ignored. */
  lemma HalfARequestIsFull(scan: Scanner, limit: nat, budgetMs: int, tree: Tree, mark: bool, prior: Option<Result>,
                           changed: Option<seq<string>>, elapsedMs: int)
    requires prior.None? || changed.None?
    ensures AuditResult(scan, limit, budgetMs, tree, mark, prior, changed, elapsedMs)
            == AuditResult(scan, limit, budgetMs, tree, mark, None, None, elapsedMs)
  {
  }

  // ---------------------------------------------------------------- a re-audit answers like a full audit

  lemma {:induction false} NothingCarriedIff(findings: seq<Finding>, changed: seq<string>)
    ensures Carried(findings, changed) == [] <==>
            forall i :: 0 <= i < |findings| ==> findings[i].file in changed || findings[i].signal == "unused-env"
  {
    if findings != [] {
      var front, last := findings[..|findings| - 1], findings[|findings| - 1];
      NothingCarriedIff(front, changed);
      assert forall i :: 0 <= i < |front| ==> findings[i] == front[i];
    }
  }

  /**
   * The audit operation on a covered edit: within the file limit and the budget a re-audit reports what
   * a full audit of the same tree reports, exactly unless it drops the mark of a finding it carries.
   */
  lemma ReauditAnswersLikeFull(scan: Scanner, limit: nat, budgetMs: int, before: Tree, after: Tree,
                               changed: seq<string>, prior: Result, priorMark: bool, mark: bool,
                               t0: int, t1: int, t2: int)
    requires ScansPerFile(scan) && DistinctNames(before) && DistinctNames(after) && Covers(before, after, changed)
    requires SameReport(prior, AuditResult(scan, limit, budgetMs, before, priorMark, None, None, t0))
    requires |after| <= limit && t1 <= budgetMs && t2 <= budgetMs
    ensures SameReport(AuditResult(scan, limit, budgetMs, after, mark, Some(prior), Some(changed), t1),
                       AuditResult(scan, limit, budgetMs, after, mark, None, None, t2))
            <==> !priorMark || mark || forall i :: 0 <= i < |prior.findings| ==>
                   prior.findings[i].file in changed || prior.findings[i].signal == "unused-env"
  {
    assert AuditResult(scan, limit, budgetMs, before, priorMark, None, None, t0) == FullAudit(scan, before, priorMark);
    FindingsAgreeIff(scan, before, after, changed, prior, mark);
    SurfacesAgree(scan, before, after, changed, prior, mark);
    NothingCarriedIff(prior.findings, changed);
  }

  /** One call of the operation on an edited tree, and the time it took. */
  datatype Call = Call(edit: Edit, elapsedMs: int)

  /** A first audit, then re-audits, each given the answer of the call before it. */
  function Answers(scan: Scanner, limit: nat, budgetMs: int, first: Tree, t0: int, calls: seq<Call>, mark: bool)
    : Result
  {
    if calls == [] then AuditResult(scan, limit, budgetMs, first, mark, None, None, t0)
    else
      var last := calls[|calls| - 1];
      var prior := Answers(scan, limit, budgetMs, first, t0, calls[..|calls| - 1], mark);
      AuditResult(scan, limit, budgetMs, last.edit.tree, mark, Some(prior), Some(last.edit.changed), last.elapsedMs)
  }

  function Edits(calls: seq<Call>): (edits: seq<Edit>)
    ensures |edits| == |calls| && forall i :: 0 <= i < |calls| ==> edits[i] == calls[i].edit
  {
    seq(|calls|, i requires 0 <= i < |calls| => calls[i].edit)
  }

  lemma FrontAnswers(scan: Scanner, limit: nat, budgetMs: int, first: Tree, t0: int, calls: seq<Call>, mark: bool)
    requires calls != []
    ensures var last := calls[|calls| - 1];
            Answers(scan, limit, budgetMs, first, t0, calls, mark)
            == AuditResult(scan, limit, budgetMs, last.edit.tree, mark,
                           Some(Answers(scan, limit, budgetMs, first, t0, calls[..|calls| - 1], mark)),
                           Some(last.edit.changed), last.elapsedMs)
  {
  }

  lemma FrontAudited(scan: Scanner, limit: nat, budgetMs: int, first: Tree, t0: int, calls: seq<Call>, mark: bool)
    requires calls != []
    ensures var last := calls[|calls| - 1];
            Answers(scan, limit, budgetMs, first, t0, calls, mark).Audited? <==>
            && Answers(scan, limit, budgetMs, first, t0, calls[..|calls| - 1], mark).Audited?
            && |last.edit.tree| <= limit && last.elapsedMs <= budgetMs
  {
    var last := calls[|calls| - 1];
    FrontAnswers(scan, limit, budgetMs, first, t0, calls, mark);
    AnswerIff(scan, limit, budgetMs, last.edit.tree, mark,
              Some(Answers(scan, limit, budgetMs, first, t0, calls[..|calls| - 1], mark)),
              Some(last.edit.changed), last.elapsedMs);
  }

  /** Every call is within the file limit and the budget. */
  predicate AllTimely(limit: nat, budgetMs: int, calls: seq<Call>) {
    forall i :: 0 <= i < |calls| ==> |calls[i].edit.tree| <= limit && calls[i].elapsedMs <= budgetMs
  }

  lemma TimelyFront(limit: nat, budgetMs: int, calls: seq<Call>)
    requires calls != []
    ensures var last := calls[|calls| - 1];
            AllTimely(limit, budgetMs, calls) <==>
            AllTimely(limit, budgetMs, calls[..|calls| - 1]) && |last.edit.tree| <= limit && last.elapsedMs <= budgetMs
  {
    var front := calls[..|calls| - 1];
    assert forall i :: 0 <= i < |front| ==> front[i] == calls[i];
  }

  /** A chain of audits answers with a report if and only if every call in it is within the limit and the budget. */
  lemma {:induction false} ChainAnswersIff(scan: Scanner, limit: nat, budgetMs: int, first: Tree, t0: int,
                                           calls: seq<Call>, mark: bool)
    ensures Answers(scan, limit, budgetMs, first, t0, calls, mark).Audited? <==>
            |first| <= limit && t0 <= budgetMs && AllTimely(limit, budgetMs, calls)
  {
    if calls != [] {
      ChainAnswersIff(scan, limit, budgetMs, first, t0, calls[..|calls| - 1], mark);
      FrontAudited(scan, limit, budgetMs, first, t0, calls, mark);
      TimelyFront(limit, budgetMs, calls);
    }
  }

  /** The answer is no report, or the report of one full audit of the tree. */
  ghost predicate LikeFull(r: Result, scan: Scanner, limit: nat, budgetMs: int, tree: Tree, mark: bool, t: int) {
    r.Audited? ==> SameReport(r, AuditResult(scan, limit, budgetMs, tree, mark, None, None, t))
  }

  /** Whatever report a chain of audits of covered edits answers with is that of one full audit of the final tree. */
  lemma {:induction false} ChainAnswersLikeFull(scan: Scanner, limit: nat, budgetMs: int, first: Tree, t0: int,
                                                calls: seq<Call>, mark: bool, t: int)
    requires ScansPerFile(scan) && CoveredEdits(first, Edits(calls)) && t <= budgetMs
    ensures LikeFull(Answers(scan, limit, budgetMs, first, t0, calls, mark),
                     scan, limit, budgetMs, FinalTree(first, Edits(calls)), mark, t)
  {
    if calls != [] {
      var front, last := calls[..|calls| - 1], calls[|calls| - 1];
      FrontIsCovered(first, calls);
      ChainAnswersLikeFull(scan, limit, budgetMs, first, t0, front, mark, t);
      FrontAnswers(scan, limit, budgetMs, first, t0, calls, mark);
      NextAnswer(scan, limit, budgetMs, FinalTree(first, Edits(front)), last,
                 Answers(scan, limit, budgetMs, first, t0, front, mark), mark, t);
    }
  }

  lemma NextAnswer(scan: Scanner, limit: nat, budgetMs: int, before: Tree, call: Call, prior: Result, mark: bool,
                   t: int)
    requires ScansPerFile(scan) && DistinctNames(before) && DistinctNames(call.edit.tree)
    requires Covers(before, call.edit.tree, call.edit.changed) && t <= budgetMs
    requires LikeFull(prior, scan, limit, budgetMs, before, mark, t)
    ensures LikeFull(AuditResult(scan, limit, budgetMs, call.edit.tree, mark, Some(prior), Some(call.edit.changed),
                                 call.elapsedMs), scan, limit, budgetMs, call.edit.tree, mark, t)
  {
    if prior.Audited? && |call.edit.tree| <= limit && call.elapsedMs <= budgetMs {
      ReauditAnswersLikeFull(scan, limit, budgetMs, before, call.edit.tree, call.edit.changed, prior, mark, mark,
                             t, call.elapsedMs, t);
    }
  }

  lemma FrontIsCovered(first: Tree, calls: seq<Call>)
    requires calls != [] && CoveredEdits(first, Edits(calls))
    ensures var front, last := calls[..|calls| - 1], calls[|calls| - 1].edit;
            && CoveredEdits(first, Edits(front)) && DistinctNames(FinalTree(first, Edits(front)))
            && DistinctNames(last.tree) && Covers(FinalTree(first, Edits(front)), last.tree, last.changed)
  {
    var front, edits := calls[..|calls| - 1], Edits(calls);
    assert edits[..|front|] == Edits(front);
    forall i | 0 <= i < |front|
      ensures DistinctNames(Edits(front)[i].tree)
              && Covers(FinalTree(first, Edits(front)[..i]), Edits(front)[i].tree, Edits(front)[i].changed)
    {
      assert Edits(front)[..i] == edits[..i];
    }
  }

  // ---------------------------------------------------------------- paths in scope

  /** The path goes through a directory of that name. */
  ghost predicate Through(rel: string, dir: string) {
    exists k: nat :: ThroughAt(rel, dir, k)
  }

  predicate ThroughAt(rel: string, dir: string, k: nat) {
    OccursAt(dir + "/", rel, k) && (k == 0 || rel[k - 1] == '/')
  }

  /** The path is that name, or ends with it as its last component. */
  predicate Named(rel: string, name: string) {
    rel == name || EndsWith(rel, "/" + name)
  }

  lemma ThroughHasPiece(rel: string, dir: string, k: nat) returns (i: nat)
    requires '/' !in dir && ThroughAt(rel, dir, k)
    ensures i < |Split(rel, '/')| - 1 && Split(rel, '/')[i] == dir
  {
    var post := rel[k + |dir| + 1..];
    SplitWhole(dir, '/');
    SplitAppend(dir, '/', post);
    if k == 0 {
      assert rel == dir + ['/'] + post;
      i := 0;
    } else {
      var pre := rel[..k - 1];
      assert rel[k..] == rel[k..k + |dir| + 1] + post == dir + ['/'] + post;
      assert rel == rel[..k - 1] + [rel[k - 1]] + rel[k..];
      assert rel == pre + ['/'] + (dir + ['/'] + post);
      SplitAppend(pre, '/', dir + ['/'] + post);
      i := |Split(pre, '/')|;
    }
  }

  lemma SliceBehind(head: string, rest: string, at: nat, n: nat)
    requires at + n <= |rest|
    ensures (head + rest)[|head| + at..|head| + at + n] == rest[at..at + n]
  {
  }

  lemma {:induction false} PieceIsThrough(pieces: seq<string>, i: nat) returns (k: nat)
    requires i < |pieces| - 1
    ensures ThroughAt(Join(pieces, '/'), pieces[i], k)
  {
    var rel, head := Join(pieces, '/'), pieces[0] + "/";
    assert rel == head + Join(pieces[1..], '/');
    if i == 0 {
      assert rel[..|head|] == head;
      k := 0;
    } else {
      var at := PieceIsThrough(pieces[1..], i - 1);
      SliceBehind(head, Join(pieces[1..], '/'), at, |pieces[i]| + 1);
      assert at > 0 ==> rel[|head| + at - 1] == Join(pieces[1..], '/')[at - 1];
      k := |head| + at;
    }
  }

  /** The path goes through a directory exactly when one of its components but the last is its name. */
  lemma ThroughIff(rel: string, dir: string)
    requires '/' !in dir
    ensures (exists i :: 0 <= i < |Split(rel, '/')| - 1 && Split(rel, '/')[i] == dir) <==> Through(rel, dir)
  {
    JoinSplit(rel, '/');
    if i :| 0 <= i < |Split(rel, '/')| - 1 && Split(rel, '/')[i] == dir {
      var k := PieceIsThrough(Split(rel, '/'), i);
    }
    if k: nat :| ThroughAt(rel, dir, k) {
      var i := ThroughHasPiece(rel, dir, k);
    }
  }

  predicate IsOutputDir(name: string) {
    name in ["node_modules", ".git", "dist", "build", ".next", ".expo", "coverage"]
  }

  predicate IsLockfile(name: string) {
    name in ["package-lock.json", "yarn.lock", "pnpm-lock.yaml", "bun.lock", "Cargo.lock", "poetry.lock", "go.sum"]
  }

  /** A path the audit leaves out: build output and dependencies, lock files by suffix and by name. */
  ghost predicate OutOfScope(rel: string) {
    ThroughOutput(rel) || EndsWith(rel, ".lock") || NamesLockfile(rel)
  }

  ghost predicate ThroughOutput(rel: string) {
    exists dir :: IsOutputDir(dir) && Through(rel, dir)
  }

  ghost predicate NamesLockfile(rel: string) {
    exists name :: IsLockfile(name) && Named(rel, name)
  }

  predicate IsTemplate(rel: string) {
    Named(rel, ".env.template") || Named(rel, ".env.example") || Named(rel, ".env.sample")
  }

  lemma NamedIff(rel: string, name: string)
    requires '/' !in name
    ensures Basename(rel) == name <==> Named(rel, name)
  {
    LastPieceIs(rel, '/', name);
  }

  lemma TemplateIff(rel: string)
    ensures Basename(rel) in ENV_TEMPLATES <==> IsTemplate(rel)
  {
    NamedIff(rel, ".env.template");
    NamedIff(rel, ".env.example");
    NamedIff(rel, ".env.sample");
  }

  /** A component but the last is a directory left out. */
  ghost predicate HasOutputPiece(rel: string) {
    var pieces := Split(rel, '/'); exists i :: 0 <= i < |pieces| - 1 && pieces[i] in EXCLUDED_DIRS
  }

  lemma OutputPieceIff(rel: string)
    ensures HasOutputPiece(rel) <==> ThroughOutput(rel)
  {
    var pieces := Split(rel, '/');
    if i :| 0 <= i < |pieces| - 1 && pieces[i] in EXCLUDED_DIRS {
      OutputDirs(pieces[i]);
      JoinSplit(rel, '/');
      var k := PieceIsThrough(pieces, i);
      assert Through(rel, pieces[i]);
    }
    if dir :| IsOutputDir(dir) && Through(rel, dir) {
      OutputDirs(dir);
      ThroughIff(rel, dir);
      var i :| 0 <= i < |pieces| - 1 && pieces[i] == dir;
    }
  }

  lemma OutputDirs(dir: string)
    ensures IsOutputDir(dir) <==> dir in EXCLUDED_DIRS
    ensures IsOutputDir(dir) ==> '/' !in dir
  {
  }

  lemma LockfilesIff(rel: string)
    ensures Basename(rel) in LOCKFILES <==> NamesLockfile(rel)
  {
    if Basename(rel) in LOCKFILES {
      Lockfiles(Basename(rel));
      NamedIff(rel, Basename(rel));
    }
    if name :| IsLockfile(name) && Named(rel, name) {
      Lockfiles(name);
      NamedIff(rel, name);
    }
  }

  lemma Lockfiles(name: string)
    ensures IsLockfile(name) <==> name in LOCKFILES
    ensures IsLockfile(name) ==> '/' !in name
  {
  }

  lemma ExcludedIff(rel: string)
    ensures IsExcluded(rel) <==> OutOfScope(rel)
  {
    OutputPieceIff(rel);
    LockfilesIff(rel);
  }

  // ---------------------------------------------------------------- what the answer says

  lemma {:induction false} LookupAt(tree: Tree, i: nat)
    requires DistinctNames(tree) && i < |tree|
    ensures Lookup(tree, tree[i].name) == Some(tree[i].content)
  {
    if i < |tree| - 1 { LookupAt(tree[..|tree| - 1], i); }
  }

  /** The file is a text in scope. */
  ghost predicate Scanned(file: File) {
    file.content.TextFile? && !OutOfScope(file.name)
  }

  /** File i is in scope and has this text. */
  ghost predicate HasText(tree: Tree, i: int, t: Text) {
    0 <= i < |tree| && Scanned(tree[i]) && Text(tree[i].name, tree[i].content.body) == t
  }

  lemma TextOfIff(file: File, t: Text)
    ensures t in TextOf(file) <==> Scanned(file) && Text(file.name, file.content.body) == t
  {
    ExcludedIff(file.name);
  }

  lemma {:induction false} TextsIff(tree: Tree, t: Text)
    ensures t in TextFiles(tree) <==> exists i :: HasText(tree, i, t)
  {
    if tree != [] {
      var front, last := tree[..|tree| - 1], tree[|tree| - 1];
      TextsIff(front, t);
      TextOfIff(last, t);
      if t in TextOf(last) { assert HasText(tree, |front|, t); }
      if i :| HasText(front, i, t) {
        assert front[i] == tree[i];
        assert HasText(tree, i, t);
      }
      if i :| HasText(tree, i, t) {
        if i < |front| {
          assert front[i] == tree[i];
          assert HasText(front, i, t);
        }
      }
      assert t in TextFiles(tree) <==> t in TextFiles(front) || t in TextOf(last);
    }
  }

  /** Some text in scope that is no template mentions the name. */
  ghost predicate ReadIn(tree: Tree, name: string) {
    exists i :: 0 <= i < |tree| && Scanned(tree[i]) && !IsTemplate(tree[i].name) && Mentions(tree[i].content.body, name)
  }

  lemma {:induction false} ReadInIff(tree: Tree, name: string)
    ensures ReadSomewhere(TextFiles(tree), name) <==> ReadIn(tree, name)
  {
    var texts := TextFiles(tree);
    if k :| 0 <= k < |texts| && Reads(texts[k], name) {
      TextsIff(tree, texts[k]);
      var i :| HasText(tree, i, texts[k]);
      TemplateIff(tree[i].name);
    }
    if i :| 0 <= i < |tree| && Scanned(tree[i]) && !IsTemplate(tree[i].name) && Mentions(tree[i].content.body, name) {
      var t := Text(tree[i].name, tree[i].content.body);
      assert HasText(tree, i, t);
      TextsIff(tree, t);
      TemplateIff(tree[i].name);
      var k :| 0 <= k < |texts| && texts[k] == t;
      assert Reads(texts[k], name);
    }
  }

  /** The line declares the name: it starts with it and an equals sign follows. */
  predicate DeclaresName(line: string, name: string) {
    && name + "=" <= line && name != "" && 'A' <= name[0] <= 'Z'
    && forall i :: 0 <= i < |name| ==> 'A' <= name[i] <= 'Z' || '0' <= name[i] <= '9' || name[i] == '_'
  }

  lemma DeclaredIff(line: string, name: string)
    ensures Declared(line) == Some(name) <==> DeclaresName(line, name)
  {
    if DeclaresName(line, name) {
      assert line[..|name| + 1] == name + "=";
      assert line[|name|] == '=';
      assert forall i :: 0 <= i < |name| ==> line[i] == name[i];
      RunLengthIs(line[1..], |name| - 1);
      assert line[..|name|] == name;
    }
    if Declared(line) == Some(name) { DeclaredDeclares(line, name); }
  }

  lemma DeclaredDeclares(line: string, name: string)
    requires Declared(line) == Some(name)
    ensures DeclaresName(line, name)
  {
    var n := 1 + RunLength(line[1..]);
    assert name == line[..n] && line[..n + 1] == name + "=";
    forall i | 0 <= i < |name| ensures IsNameChar(name[i]) {
      assert i > 0 ==> name[i] == line[1..][i - 1];
    }
  }

  lemma {:induction false} UnusedLinesCount(rel: string, lines: seq<string>, index: set<string>, f: Finding)
    ensures Times(UnusedLines(rel, lines, index), f)
            == if && 1 <= f.line <= |lines| && DeclaresName(lines[f.line - 1], f.evidence) && f.evidence !in index
                  && f == Finding("unused-env", "medium", rel, f.line, f.evidence, false) then 1 else 0
  {
    if lines != [] {
      var i := |lines| - 1;
      UnusedLinesCount(rel, lines[..i], index, f);
      DeclaredIff(lines[i], f.evidence);
      TimesConcat(UnusedLines(rel, lines[..i], index),
                  if Declared(lines[i]).Some? && Declared(lines[i]).value !in index
                  then [Finding(UNUSED_ENV, "medium", rel, i + 1, Declared(lines[i]).value, false)] else [], f);
    }
  }

  lemma UnusedSnoc(texts: seq<Text>, last: Text, index: set<string>)
    ensures UnusedEnv(texts + [last], index) == UnusedEnv(texts, index) + UnusedEnv([last], index)
  {
    assert (texts + [last])[..|texts|] == texts;
    assert [last][..0] == [];
  }

  lemma {:induction false} UnusedConcat(texts: seq<Text>, file: File, index: set<string>)
    ensures UnusedEnv(texts + TextOf(file), index) == UnusedEnv(texts, index) + UnusedEnv(TextOf(file), index)
  {
    if TextOf(file) == [] {
      assert texts + [] == texts;
    } else {
      UnusedSnoc(texts, TextOf(file)[0], index);
    }
  }

  /** The file is a template in scope and declares the name on that line. */
  ghost predicate DeclaresOn(file: File, line: nat, name: string) {
    && Scanned(file) && IsTemplate(file.name)
    && 1 <= line <= |Split(file.content.body, '\n')| && DeclaresName(Split(file.content.body, '\n')[line - 1], name)
  }

  /** Whether unused-env reports f for this file of a tree whose read index is given. */
  ghost predicate ReportsUnused(file: File, index: set<string>, f: Finding) {
    && DeclaresOn(file, f.line, f.evidence) && f.evidence !in index
    && f == Finding("unused-env", "medium", file.name, f.line, f.evidence, false)
  }

  lemma UnusedInFile(file: File, index: set<string>, f: Finding)
    ensures Times(UnusedEnv(TextOf(file), index), f) == if ReportsUnused(file, index, f) then 1 else 0
  {
    ExcludedIff(file.name);
    TemplateIff(file.name);
    var texts := TextOf(file);
    if texts != [] {
      assert texts[..|texts| - 1] == [];
      UnusedLinesCount(file.name, Split(file.content.body, '\n'), index, f);
    }
  }

  lemma {:induction false} UnusedCount(tree: Tree, index: set<string>, f: Finding)
    requires DistinctNames(tree)
    ensures Times(UnusedEnv(TextFiles(tree), index), f)
            == var c := Lookup(tree, f.file); if c.Some? && ReportsUnused(File(f.file, c.value), index, f) then 1 else 0
  {
    if tree != [] {
      var front, last := tree[..|tree| - 1], tree[|tree| - 1];
      UnusedCount(front, index, f);
      UnusedConcat(TextFiles(front), last, index);
      UnusedInFile(last, index, f);
      TimesConcat(UnusedEnv(TextFiles(front), index), UnusedEnv(TextOf(last), index), f);
      if last.name == f.file { LookupOther(front, f.file); }
    }
  }

  /** No text in scope reads the name, or it has fewer than the three characters that the search looks for. */
  ghost predicate Unread(tree: Tree, name: string) {
    |name| < 3 || !ReadIn(tree, name)
  }

  lemma UnreadIff(tree: Tree, name: string, line: string)
    requires DeclaresName(line, name)
    ensures name !in ReadNames(TextFiles(tree)) <==> Unread(tree, name)
  {
    if |name| < 3 {
      if name in ReadNames(TextFiles(tree)) { IndexedAreLong(TextFiles(tree), name); }
    } else {
      DeclaredIff(line, name);
      DeclaredName(line, name);
      IndexedIff(TextFiles(tree), name);
      ReadInIff(tree, name);
    }
  }

  /** How often an audit is to report f about this file: as often as its scan does, or once for an unread name. */
  ghost function Expected(scan: Scanner, tree: Tree, file: File, mark: bool, f: Finding): nat {
    var raw := f.(platformGenerated := false);
    if f.platformGenerated != mark || f.file != file.name then 0
    else if f.signal == "unused-env" then
      if f.severity == "medium" && DeclaresOn(file, f.line, f.evidence) && Unread(tree, f.evidence) then 1 else 0
    else if Scanned(file) then multiset(scan(file.name, file.content.body))[raw]
    else 0
  }

  lemma ReportsUnusedIff(tree: Tree, file: File, f: Finding)
    requires f.file == file.name && !f.platformGenerated && f.signal == "unused-env"
    ensures ReportsUnused(file, ReadNames(TextFiles(tree)), f) <==>
            f.severity == "medium" && DeclaresOn(file, f.line, f.evidence) && Unread(tree, f.evidence)
  {
    if DeclaresOn(file, f.line, f.evidence) {
      UnreadIff(tree, f.evidence, Split(file.content.body, '\n')[f.line - 1]);
    }
  }

  lemma {:induction false} UnusedCountInFile(tree: Tree, i: nat, f: Finding)
    requires DistinctNames(tree) && i < |tree| && f.file == tree[i].name
    requires !f.platformGenerated && f.signal == "unused-env"
    ensures Times(UnusedEnv(TextFiles(tree), ReadNames(TextFiles(tree))), f)
            == if f.severity == "medium" && DeclaresOn(tree[i], f.line, f.evidence) && Unread(tree, f.evidence)
                then 1 else 0
  {
    LookupAt(tree, i);
    UnusedCount(tree, ReadNames(TextFiles(tree)), f);
    assert File(f.file, tree[i].content) == tree[i];
    ReportsUnusedIff(tree, tree[i], f);
  }

  lemma {:induction false} ScanCountInFile(scan: Scanner, tree: Tree, i: nat, f: Finding)
    requires ScansPerFile(scan) && DistinctNames(tree) && i < |tree| && f.file == tree[i].name
    ensures Times(ScanAll(scan, TextFiles(tree)), f)
            == if Scanned(tree[i]) then multiset(scan(tree[i].name, tree[i].content.body))[f] else 0
  {
    ScanCount(scan, tree, f);
    LookupAt(tree, i);
    ExcludedIff(tree[i].name);
  }

  lemma FullCountInFile(scan: Scanner, tree: Tree, i: nat, f: Finding)
    requires ScansPerFile(scan) && DistinctNames(tree) && i < |tree| && f.file == tree[i].name
    requires !f.platformGenerated
    ensures Times(FullFindings(scan, tree), f) == Expected(scan, tree, tree[i], false, f)
  {
    var texts := TextFiles(tree);
    TimesConcat(ScanAll(scan, texts), UnusedEnv(texts, ReadNames(texts)), f);
    if f.signal == "unused-env" {
      ScanNeverUnused(scan, tree, f);
      UnusedCountInFile(tree, i, f);
    } else {
      ScanCountInFile(scan, tree, i, f);
      UnusedEnvCount(texts, ReadNames(texts), f);
    }
  }

  lemma FullAnswerCount(scan: Scanner, tree: Tree, mark: bool, i: nat, f: Finding)
    requires ScansPerFile(scan) && DistinctNames(tree) && i < |tree| && f.file == tree[i].name
    ensures Times(FullAudit(scan, tree, mark).findings, f) == Expected(scan, tree, tree[i], mark, f)
  {
    FullCountInFile(scan, tree, i, f.(platformGenerated := false));
    if f.platformGenerated { FullIsRaw(scan, tree, f); }
    FlaggedCount(FullFindings(scan, tree), f);
  }

  /** The audit's answer about a file of the tree: these findings so often, and a surface exactly if it has no text. */
  lemma {:induction false} AnswerOnFile(scan: Scanner, limit: nat, budgetMs: int, tree: Tree, mark: bool, t: int,
                                        i: nat, f: Finding,
                     s: Surface)
    requires ScansPerFile(scan) && DistinctNames(tree) && |tree| <= limit && t <= budgetMs
    requires i < |tree| && f.file == tree[i].name == s.file
    ensures var r := AuditResult(scan, limit, budgetMs, tree, mark, None, None, t);
            && r.Audited?
            && multiset(r.findings)[f] == Expected(scan, tree, tree[i], mark, f)
            && multiset(r.surfaces)[s] == if && !OutOfScope(tree[i].name) && !tree[i].content.TextFile?
                                            && s.reason == (if tree[i].content.BinaryFile? then "binary"
                                               else "unreadable")
                                         then 1 else 0
  {
    FullAnswerCount(scan, tree, mark, i, f);
    SurfaceCount(tree, s);
    LookupAt(tree, i);
    ExcludedIff(tree[i].name);
  }

  /** The audit's answer is about files of the tree only. */
  lemma AnswerIsAboutTheTree(scan: Scanner, limit: nat, budgetMs: int, tree: Tree, mark: bool, t: int, f: Finding,
                             s: Surface)
    requires ScansPerFile(scan) && DistinctNames(tree) && |tree| <= limit && t <= budgetMs
    requires forall i :: 0 <= i < |tree| ==> tree[i].name != f.file && tree[i].name != s.file
    ensures var r := AuditResult(scan, limit, budgetMs, tree, mark, None, None, t);
            f !in r.findings && s !in r.surfaces
  {
    var raw := f.(platformGenerated := false);
    LookupOther(tree, f.file);
    LookupOther(tree, s.file);
    SurfaceCount(tree, s);
    ScanCount(scan, tree, f);
    ScanCount(scan, tree, raw);
    UnusedCount(tree, ReadNames(TextFiles(tree)), f);
    UnusedCount(tree, ReadNames(TextFiles(tree)), raw);
    FlaggedCount(FullFindings(scan, tree), f);
    TimesPositive(FullAudit(scan, tree, mark).findings, f);
  }
}
