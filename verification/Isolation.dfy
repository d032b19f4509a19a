// requiresIsolation: does a test file reach, through its local imports, a module that
// uses an API which needs an isolated worker? The search shares a memo between files and
// treats a file it is already visiting as a "no".

module Isolation {
  import opened Wrappers
  import opened Graphs

  type SourceFile = string
  type Memo = map<SourceFile, bool>

  // The files of a package: the resolved local imports of each, in source order, and
  // those whose own text uses such an API.
  datatype Project = Project(imports: Graph, direct: set<SourceFile>) {
    ghost predicate Valid() {
      forall f | f in imports :: forall t | t in imports[f] :: t in imports
    }
  }

  // From f one of the targets can be reached without meeting a file to avoid.
  ghost predicate Reaches(g: Project, f: SourceFile, targets: set<SourceFile>, avoid: set<SourceFile>) {
    exists d | d in targets :: Reachable(g.imports, f, d, avoid)
  }

  ghost predicate NeedsIsolation(g: Project, f: SourceFile) {
    Reaches(g, f, g.direct, {})
  }

  function Yes(memo: Memo): set<SourceFile> {
    set n | n in memo && memo[n]
  }

  function No(memo: Memo): set<SourceFile> {
    set n | n in memo && !memo[n]
  }

  // The search as a function of the memo and of the files on the current path.
  ghost function Visit(g: Project, f: SourceFile, memo: Memo, visiting: set<SourceFile>): (r: (bool, Memo))
    requires g.Valid() && f in g.imports
    decreases g.imports.Keys - visiting, 1, 0
  {
    if f in memo then (memo[f], memo)
    else if f in visiting then (false, memo)
    else if f in g.direct then (true, memo[f := true])
    else
      var (result, memo') := VisitImports(g, g.imports[f], memo, visiting + {f});
      (result, memo'[f := result])
  }

  ghost function VisitImports(g: Project, targets: seq<SourceFile>, memo: Memo, visiting: set<SourceFile>): (r: (bool, Memo))
    requires g.Valid() && forall t | t in targets :: t in g.imports
    decreases g.imports.Keys - visiting, 2, |targets|
  {
    if targets == [] then (false, memo)
    else
      var (result, memo') := Visit(g, targets[0], memo, visiting);
      if result then (true, memo') else VisitImports(g, targets[1..], memo', visiting)
  }

  class IsolationScan {
    const project: Project
    var memo: Memo
    var visiting: set<SourceFile>

    constructor (project: Project)
      ensures this.project == project && memo == map[] && visiting == {}
    {
      this.project, memo, visiting := project, map[], {};
    }

    method RequiresIsolation(file: SourceFile) returns (result: bool)
      requires project.Valid() && file in project.imports
      modifies this
      ensures (result, memo) == Visit(project, file, old(memo), old(visiting))
      ensures visiting == old(visiting)
      decreases project.imports.Keys - visiting
    {
      if file in memo {
        return memo[file];
      }
      if file in visiting {
        return false;
      }
      visiting := visiting + {file};
      result := file in project.direct;
      if !result {
        var targets := project.imports[file];
        ghost var memo0 := memo;
        var i := 0;
        while i < |targets| && !result
          invariant 0 <= i <= |targets|
          invariant visiting == old(visiting) + {file}
          invariant VisitImports(project, targets, memo0, visiting) ==
                    if result then (true, memo) else VisitImports(project, targets[i..], memo, visiting)
        {
          result := RequiresIsolation(targets[i]);
          i := i + 1;
        }
      }
      visiting := visiting - {file};
      memo := memo[file := result];
    }
  }

  // An answer, once in the memo, is never changed.
  lemma {:induction false} VisitKeepsAnswers(g: Project, f: SourceFile, memo: Memo, visiting: set<SourceFile>)
    requires g.Valid() && f in g.imports
    ensures var (result, memo') := Visit(g, f, memo, visiting);
            && (forall n | n in memo :: n in memo' && memo'[n] == memo[n])
            && (forall n | n in memo' :: n in memo || n in g.imports)
            && (forall n | n in visiting && n !in memo :: n !in memo')
            && (f !in visiting ==> f in memo' && memo'[f] == result)
    decreases g.imports.Keys - visiting, 1, 0
  {
    if f !in memo && f !in visiting && f !in g.direct {
      VisitImportsKeepsAnswers(g, g.imports[f], memo, visiting + {f});
    }
  }

  lemma {:induction false} VisitImportsKeepsAnswers(g: Project, targets: seq<SourceFile>, memo: Memo, visiting: set<SourceFile>)
    requires g.Valid() && forall t | t in targets :: t in g.imports
    ensures var (result, memo') := VisitImports(g, targets, memo, visiting);
            && (forall n | n in memo :: n in memo' && memo'[n] == memo[n])
            && (forall n | n in memo' :: n in memo || n in g.imports)
            && (forall n | n in visiting && n !in memo :: n !in memo')
    decreases g.imports.Keys - visiting, 2, |targets|
  {
    if targets != [] {
      VisitKeepsAnswers(g, targets[0], memo, visiting);
      var (result, memo') := Visit(g, targets[0], memo, visiting);
      if !result {
        VisitImportsKeepsAnswers(g, targets[1..], memo', visiting);
      }
    }
  }

  // The files the memo does not have a "yes" for.
  ghost function NotYes(g: Project, memo: Memo): set<SourceFile> {
    g.imports.Keys + memo.Keys - Yes(memo)
  }

  // Every "yes" leads to one of the targets through files that are "yes" themselves.
  ghost predicate YesLeadsTo(g: Project, memo: Memo, targets: set<SourceFile>) {
    forall f | f in Yes(memo) :: Reaches(g, f, targets, NotYes(g, memo))
  }

  lemma ReachesAvoidingLess(g: Project, f: SourceFile, targets: set<SourceFile>, avoid: set<SourceFile>, avoid': set<SourceFile>)
    requires Reaches(g, f, targets, avoid) && avoid' <= avoid
    ensures Reaches(g, f, targets, avoid')
  {
    var d :| d in targets && Reachable(g.imports, f, d, avoid);
    ReachAvoidingLess(g.imports, f, d, avoid, avoid');
  }

  lemma YesLeadsToStill(g: Project, memo: Memo, memo': Memo, targets: set<SourceFile>)
    requires YesLeadsTo(g, memo, targets) && NotYes(g, memo') <= NotYes(g, memo)
    ensures forall f | f in Yes(memo) :: Reaches(g, f, targets, NotYes(g, memo'))
  {
    forall f | f in Yes(memo) ensures Reaches(g, f, targets, NotYes(g, memo')) {
      ReachesAvoidingLess(g, f, targets, NotYes(g, memo), NotYes(g, memo'));
    }
  }

  lemma {:induction false} VisitFinds(g: Project, f: SourceFile, memo: Memo, visiting: set<SourceFile>, targets: set<SourceFile>)
    requires g.Valid() && f in g.imports && g.direct <= targets && YesLeadsTo(g, memo, targets)
    ensures var (result, memo') := Visit(g, f, memo, visiting);
            YesLeadsTo(g, memo', targets) && (result ==> f in Yes(memo'))
    decreases g.imports.Keys - visiting, 1, 0
  {
    if f !in memo && f !in visiting {
      var (result, memo') := Visit(g, f, memo, visiting);
      if f in g.direct {
        YesLeadsToStill(g, memo, memo', targets);
        ReachSelf(g.imports, f, NotYes(g, memo'));
      } else {
        VisitImportsFinds(g, g.imports[f], memo, visiting + {f}, targets);
        VisitImportsKeepsAnswers(g, g.imports[f], memo, visiting + {f});
        var memo1 := VisitImports(g, g.imports[f], memo, visiting + {f}).1;
        YesLeadsToStill(g, memo1, memo', targets);
        if result {
          var t :| t in g.imports[f] && t in Yes(memo1);
          var d :| d in targets && Reachable(g.imports, t, d, NotYes(g, memo'));
          ReachFirst(g.imports, f, t, d, NotYes(g, memo'));
        }
      }
    }
  }

  lemma {:induction false} VisitImportsFinds(g: Project, imports: seq<SourceFile>, memo: Memo, visiting: set<SourceFile>, targets: set<SourceFile>)
    requires g.Valid() && (forall t | t in imports :: t in g.imports) && g.direct <= targets && YesLeadsTo(g, memo, targets)
    ensures var (result, memo') := VisitImports(g, imports, memo, visiting);
            YesLeadsTo(g, memo', targets) && (result ==> exists t | t in imports :: t in Yes(memo'))
    decreases g.imports.Keys - visiting, 2, |imports|
  {
    if imports != [] {
      VisitFinds(g, imports[0], memo, visiting, targets);
      var (result, memo') := Visit(g, imports[0], memo, visiting);
      if !result {
        VisitImportsFinds(g, imports[1..], memo', visiting, targets);
      }
    }
  }

  // Every "no" in the memo that was not there before was fully explored: its imports are
  // "no" too, or still being visited.
  ghost predicate NoIsExplored(g: Project, memo: Memo, visiting: set<SourceFile>, before: set<SourceFile>) {
    forall f | f in No(memo) && f !in before ::
      f !in g.direct && forall t | t in Next(g.imports, f) :: t in visiting || t in No(memo)
  }

  // A search that answers "no" leaves every "no" explored.
  lemma {:induction false} VisitExplores(g: Project, f: SourceFile, memo: Memo, visiting: set<SourceFile>, before: set<SourceFile>)
    requires g.Valid() && f in g.imports && NoIsExplored(g, memo, visiting, before)
    ensures var (result, memo') := Visit(g, f, memo, visiting);
            !result ==> NoIsExplored(g, memo', visiting, before) && (f in visiting || f in No(memo')) && No(memo) <= No(memo')
    decreases g.imports.Keys - visiting, 1, 0
  {
    if f !in memo && f !in visiting && f !in g.direct {
      VisitImportsExplores(g, g.imports[f], memo, visiting + {f}, before);
      VisitImportsKeepsAnswers(g, g.imports[f], memo, visiting + {f});
    }
  }

  lemma {:induction false} VisitImportsExplores(g: Project, imports: seq<SourceFile>, memo: Memo, visiting: set<SourceFile>, before: set<SourceFile>)
    requires g.Valid() && (forall t | t in imports :: t in g.imports) && NoIsExplored(g, memo, visiting, before)
    ensures var (result, memo') := VisitImports(g, imports, memo, visiting);
            !result ==>
              && NoIsExplored(g, memo', visiting, before) && (forall t | t in imports :: t in visiting || t in No(memo'))
              && No(memo) <= No(memo')
    decreases g.imports.Keys - visiting, 2, |imports|
  {
    if imports != [] {
      VisitExplores(g, imports[0], memo, visiting, before);
      var (result, memo') := Visit(g, imports[0], memo, visiting);
      if !result {
        VisitImportsExplores(g, imports[1..], memo', visiting, before);
      }
    }
  }

  // What a file is answered, on any graph and with any memo: "yes" exactly when a module
  // that uses such an API, or a file with a "yes", is reached without meeting a "no".
  lemma AnswerIsExact(g: Project, f: SourceFile, memo: Memo)
    requires g.Valid() && f in g.imports
    ensures Visit(g, f, memo, {}).0 <==> Reaches(g, f, g.direct + Yes(memo), No(memo))
  {
    var targets := g.direct + Yes(memo);
    var (result, memo') := Visit(g, f, memo, {});
    VisitKeepsAnswers(g, f, memo, {});
    if result {
      forall n | n in Yes(memo) ensures Reaches(g, n, targets, NotYes(g, memo)) {
        ReachSelf(g.imports, n, NotYes(g, memo));
      }
      VisitFinds(g, f, memo, {}, targets);
      ReachesAvoidingLess(g, f, targets, NotYes(g, memo'), No(memo));
    } else if Reaches(g, f, targets, No(memo)) {
      var d :| d in targets && Reachable(g.imports, f, d, No(memo));
      VisitExplores(g, f, memo, {}, No(memo));
      ClosedContainsReachable(g.imports, No(memo') - No(memo), No(memo), f, d);
    }
  }

  // The memo a scan has: every "yes" leads to such a module through files that are "yes".
  // Every search keeps it so, and then only the "no"s can mislead.
  lemma AnswerOfAScan(g: Project, f: SourceFile, memo: Memo)
    requires g.Valid() && f in g.imports && YesLeadsTo(g, memo, g.direct)
    ensures YesLeadsTo(g, Visit(g, f, memo, {}).1, g.direct)
    ensures Visit(g, f, memo, {}).0 <==> Reaches(g, f, g.direct, No(memo))
  {
    VisitFinds(g, f, memo, {}, g.direct);
    AnswerIsExact(g, f, memo);
    VisitKeepsAnswers(g, f, memo, {});
    var (result, memo') := Visit(g, f, memo, {});
    if result {
      ReachesAvoidingLess(g, f, g.direct, NotYes(g, memo'), No(memo));
    }
  }

  // Every "yes" in the memo is right.
  ghost predicate YesIsSound(g: Project, memo: Memo) {
    forall f | f in Yes(memo) :: NeedsIsolation(g, f)
  }

  lemma VisitIsSound(g: Project, f: SourceFile, memo: Memo, visiting: set<SourceFile>)
    requires g.Valid() && f in g.imports && YesIsSound(g, memo)
    ensures var (result, memo') := Visit(g, f, memo, visiting);
            YesIsSound(g, memo') && (result ==> NeedsIsolation(g, f))
  {
    var targets := g.direct + Yes(memo);
    forall n | n in Yes(memo) ensures Reaches(g, n, targets, NotYes(g, memo)) {
      ReachSelf(g.imports, n, NotYes(g, memo));
    }
    VisitFinds(g, f, memo, visiting, targets);
    var memo' := Visit(g, f, memo, visiting).1;
    forall n | n in Yes(memo') ensures NeedsIsolation(g, n) {
      ReachesAvoidingLess(g, n, targets, NotYes(g, memo'), {});
      var d :| d in targets && Reachable(g.imports, n, d, {});
      if d in Yes(memo) {
        var e :| e in g.direct && Reachable(g.imports, d, e, {});
        ReachThrough(g.imports, n, d, e, {});
      }
    }
  }

  // While every "no" was explored - in particular as long as no answer was "yes" - the
  // answer is right on every graph, cyclic or not.
  lemma AnswerIsRight(g: Project, f: SourceFile, memo: Memo)
    requires g.Valid() && f in g.imports && YesIsSound(g, memo) && NoIsExplored(g, memo, {}, {})
    ensures Visit(g, f, memo, {}).0 <==> NeedsIsolation(g, f)
    ensures !Visit(g, f, memo, {}).0 ==> NoIsExplored(g, Visit(g, f, memo, {}).1, {}, {})
  {
    VisitIsSound(g, f, memo, {});
    if !Visit(g, f, memo, {}).0 {
      VisitExplores(g, f, memo, {}, {});
      if NeedsIsolation(g, f) {
        var d :| d in g.direct && Reachable(g.imports, f, d, {});
        ClosedContainsReachable(g.imports, No(Visit(g, f, memo, {}).1), {}, f, d);
      }
    }
  }

  // On an acyclic graph, given by a rank that every import lowers, every answer in the
  // memo stays exact.
  ghost predicate Acyclic(g: Project, rank: map<SourceFile, nat>) {
    && (forall f | f in g.imports :: f in rank)
    && (forall f | f in g.imports :: forall t | t in g.imports[f] :: t in rank && rank[t] < rank[f])
  }

  ghost predicate MemoIsExact(g: Project, memo: Memo) {
    forall f | f in memo :: memo[f] <==> NeedsIsolation(g, f)
  }

  lemma {:induction false} AcyclicVisit(g: Project, rank: map<SourceFile, nat>, f: SourceFile, memo: Memo, visiting: set<SourceFile>)
    requires g.Valid() && Acyclic(g, rank) && f in g.imports && MemoIsExact(g, memo)
    requires forall v | v in visiting :: v in rank && rank[f] < rank[v]
    ensures var (result, memo') := Visit(g, f, memo, visiting);
            MemoIsExact(g, memo') && (result <==> NeedsIsolation(g, f))
    decreases g.imports.Keys - visiting, 1, 0
  {
    if f !in memo {
      if f in g.direct {
        ReachSelf(g.imports, f, {});
      } else {
        AcyclicVisitImports(g, rank, f, 0, memo, visiting + {f});
        NeedsThroughImport(g, f);
      }
    }
  }

  lemma {:induction false} AcyclicVisitImports(g: Project, rank: map<SourceFile, nat>, f: SourceFile, i: nat, memo: Memo, visiting: set<SourceFile>)
    requires g.Valid() && Acyclic(g, rank) && f in g.imports && i <= |g.imports[f]| && MemoIsExact(g, memo)
    requires forall v | v in visiting :: v in rank && rank[f] <= rank[v]
    ensures var (result, memo') := VisitImports(g, g.imports[f][i..], memo, visiting);
            MemoIsExact(g, memo') && (result <==> exists t | t in g.imports[f][i..] :: NeedsIsolation(g, t))
    decreases g.imports.Keys - visiting, 2, |g.imports[f]| - i
  {
    var targets := g.imports[f][i..];
    if targets != [] {
      assert targets[0] in g.imports[f];
      AcyclicVisit(g, rank, targets[0], memo, visiting);
      var (result, memo') := Visit(g, targets[0], memo, visiting);
      if !result {
        AcyclicVisitImports(g, rank, f, i + 1, memo', visiting);
        assert targets[1..] == g.imports[f][i + 1..];
        assert forall t :: t in targets <==> t == targets[0] || t in targets[1..];
      }
    }
  }

  lemma NeedsThroughImport(g: Project, f: SourceFile)
    requires f in g.imports && f !in g.direct
    ensures NeedsIsolation(g, f) <==> exists t | t in g.imports[f] :: NeedsIsolation(g, t)
  {
    if NeedsIsolation(g, f) {
      var d :| d in g.direct && Reachable(g.imports, f, d, {});
      var p :| IsPath(g.imports, p) && p[0] == f && p[|p| - 1] == d;
      assert p[0 + 1] in Next(g.imports, p[0]);
      var q := p[1..];
      forall k | 0 <= k < |q| - 1 ensures q[k + 1] in Next(g.imports, q[k]) {
        assert p[k + 1 + 1] in Next(g.imports, p[k + 1]);
      }
      assert IsPath(g.imports, q) && q[0] == p[1] && q[|q| - 1] == d;
      assert Reachable(g.imports, p[1], d, {});
    }
    if t :| t in g.imports[f] && NeedsIsolation(g, t) {
      var d :| d in g.direct && Reachable(g.imports, t, d, {});
      ReachFirst(g.imports, f, t, d, {});
    }
  }

  // On a cycle a "no" can be wrong for a later file: "b" only imports "a", which is still
  // being visited when "b" is asked, and "a" turns out to need isolation through "c".
  lemma StaleNo()
    ensures var g := Project(map["a" := ["b", "c"], "b" := ["a"], "c" := []], {"c"});
            && g.Valid()
            && Visit(g, "a", map[], {}).0
            && !Visit(g, "b", Visit(g, "a", map[], {}).1, {}).0
            && NeedsIsolation(g, "b")
  {
    var g := Project(map["a" := ["b", "c"], "b" := ["a"], "c" := []], {"c"});
    assert VisitImports(g, ["a"], map[], {"a", "b"}) == (false, map[]) by {
      assert Visit(g, "a", map[], {"a", "b"}) == (false, map[]);
      assert ["a"][1..] == [];
    }
    assert {"a"} + {"b"} == {"a", "b"} && {} + {"a"} == {"a"};
    assert Visit(g, "b", map[], {"a"}) == (false, map["b" := false]);
    assert VisitImports(g, ["b", "c"], map[], {"a"}) == (true, map["b" := false, "c" := true]) by {
      assert ["b", "c"][1..] == ["c"];
      assert Visit(g, "c", map["b" := false], {"a"}) == (true, map["b" := false, "c" := true]);
    }
    assert Visit(g, "a", map[], {}) == (true, map["b" := false, "c" := true, "a" := true]);
    ReachSelf(g.imports, "c", {});
    ReachFirst(g.imports, "a", "c", "c", {});
    ReachFirst(g.imports, "b", "a", "c", {});
  }

  // A test file as the walk finds it, with the environment its docblock names.
  datatype TestFile = TestFile(path: SourceFile, environment: Option<string>)

  predicate IsolatedEnvironment(file: TestFile, defaultEnvironment: string) {
    (if file.environment.Some? then file.environment.value else defaultEnvironment) in {"jsdom", "happy-dom"}
  }

  // The environment of a file, its own or the default, is one that is never shared.
  ghost predicate NamesOwnWorker(file: TestFile, defaultEnvironment: string) {
    match file.environment
    case Some(own) => own == "jsdom" || own == "happy-dom"
    case None => defaultEnvironment == "jsdom" || defaultEnvironment == "happy-dom"
  }

  ghost predicate InGroup(shared: map<Option<string>, set<SourceFile>>, environment: Option<string>, path: SourceFile) {
    environment in shared && path in shared[environment]
  }

  method NeedsOwnWorker(scan: IsolationScan, file: TestFile, defaultEnvironment: string) returns (needs: bool)
    requires scan.project.Valid() && file.path in scan.project.imports && scan.visiting == {}
    requires YesLeadsTo(scan.project, scan.memo, scan.project.direct)
    modifies scan
    ensures scan.visiting == {} && YesLeadsTo(scan.project, scan.memo, scan.project.direct)
    ensures scan.memo == MemoWith(scan.project, file, defaultEnvironment, old(scan.memo))
    ensures needs <==> NamesOwnWorker(file, defaultEnvironment) || Reaches(scan.project, file.path, scan.project.direct, No(old(scan.memo)))
    ensures needs <==> Isolated(file, defaultEnvironment, scan.memo)
    ensures NamesOwnWorker(file, defaultEnvironment) || file.path in scan.memo
  {
    needs := IsolatedEnvironment(file, defaultEnvironment);
    if !needs {
      AnswerOfAScan(scan.project, file.path, scan.memo);
      VisitKeepsAnswers(scan.project, file.path, scan.memo, {});
      needs := scan.RequiresIsolation(file.path);
    }
  }

  ghost predicate Isolated(file: TestFile, defaultEnvironment: string, memo: Memo) {
    NamesOwnWorker(file, defaultEnvironment) || file.path in Yes(memo)
  }

  // The memo after one file, and after the first n files.
  ghost function MemoWith(g: Project, file: TestFile, defaultEnvironment: string, memo: Memo): Memo
    requires g.Valid() && file.path in g.imports
  {
    if NamesOwnWorker(file, defaultEnvironment) then memo else Visit(g, file.path, memo, {}).1
  }

  ghost function MemoAfter(g: Project, files: seq<TestFile>, defaultEnvironment: string, n: nat): Memo
    requires g.Valid() && (forall f | f in files :: f.path in g.imports) && n <= |files|
  {
    if n == 0 then map[] else MemoWith(g, files[n - 1], defaultEnvironment, MemoAfter(g, files, defaultEnvironment, n - 1))
  }

  // Whether the file at j, when it is asked, is to be isolated.
  ghost predicate ToIsolate(g: Project, files: seq<TestFile>, defaultEnvironment: string, j: nat)
    requires g.Valid() && (forall f | f in files :: f.path in g.imports) && j < |files|
  {
    || NamesOwnWorker(files[j], defaultEnvironment)
    || Reaches(g, files[j].path, g.direct, No(MemoAfter(g, files, defaultEnvironment, j)))
  }

  lemma OneMoreAnswered(g: Project, file: TestFile, defaultEnvironment: string, memo: Memo)
    requires g.Valid() && file.path in g.imports && YesLeadsTo(g, memo, g.direct)
    ensures var memo' := MemoWith(g, file, defaultEnvironment, memo);
            && YesLeadsTo(g, memo', g.direct)
            && (forall n | n in memo :: n in memo' && memo'[n] == memo[n])
            && (NamesOwnWorker(file, defaultEnvironment) || file.path in memo')
            && (Isolated(file, defaultEnvironment, memo') <==>
                  NamesOwnWorker(file, defaultEnvironment) || Reaches(g, file.path, g.direct, No(memo)))
  {
    VisitKeepsAnswers(g, file.path, memo, {});
    AnswerOfAScan(g, file.path, memo);
  }

  lemma {:induction false} ScanLeads(g: Project, files: seq<TestFile>, defaultEnvironment: string, n: nat)
    requires g.Valid() && (forall f | f in files :: f.path in g.imports) && n <= |files|
    ensures YesLeadsTo(g, MemoAfter(g, files, defaultEnvironment, n), g.direct)
  {
    if n > 0 {
      ScanLeads(g, files, defaultEnvironment, n - 1);
      OneMoreAnswered(g, files[n - 1], defaultEnvironment, MemoAfter(g, files, defaultEnvironment, n - 1));
    }
  }

  // What a file was answered is what the memo says ever after.
  lemma {:induction false} AnswerStays(g: Project, files: seq<TestFile>, defaultEnvironment: string, j: nat, n: nat)
    requires g.Valid() && (forall f | f in files :: f.path in g.imports) && j < n <= |files|
    ensures var memo := MemoAfter(g, files, defaultEnvironment, n);
            && (Isolated(files[j], defaultEnvironment, memo) <==> ToIsolate(g, files, defaultEnvironment, j))
            && (NamesOwnWorker(files[j], defaultEnvironment) || files[j].path in memo)
  {
    ScanLeads(g, files, defaultEnvironment, n - 1);
    OneMoreAnswered(g, files[n - 1], defaultEnvironment, MemoAfter(g, files, defaultEnvironment, n - 1));
    if j < n - 1 {
      AnswerStays(g, files, defaultEnvironment, j, n - 1);
    }
  }

  // The groups and the isolated files, when those a file list asks for are in them.
  ghost predicate Divided(files: seq<TestFile>, defaultEnvironment: string, memo: Memo,
                          shared: map<Option<string>, set<SourceFile>>, isolated: set<SourceFile>) {
    && (forall p :: p in isolated <==> exists f | f in files :: f.path == p && Isolated(f, defaultEnvironment, memo))
    && (forall e, p :: InGroup(shared, e, p) <==>
          exists f | f in files :: f.path == p && f.environment == e && !Isolated(f, defaultEnvironment, memo))
  }

  // The walk may meet a file twice, when one root contains another. Every file ends up
  // isolated or in the one group of its environment. A file whose environment does not
  // decide is shared exactly when every way to a module that uses such an API meets a file
  // that had a "no" when it was asked.
  method PartitionTestFiles(project: Project, files: seq<TestFile>, defaultEnvironment: string)
    returns (shared: map<Option<string>, set<SourceFile>>, isolated: set<SourceFile>)
    requires project.Valid() && forall f | f in files :: f.path in project.imports
    requires forall f, f' | f in files && f' in files && f.path == f'.path :: f == f'
    ensures forall f | f in files :: f.path in isolated <==> !InGroup(shared, f.environment, f.path)
    ensures forall f, environment | f in files && InGroup(shared, environment, f.path) :: environment == f.environment
    ensures forall j | 0 <= j < |files| :: files[j].path in isolated <==> ToIsolate(project, files, defaultEnvironment, j)
  {
    var scan := new IsolationScan(project);
    shared, isolated := map[], {};
    ghost var memo := MemoAfter(project, files, defaultEnvironment, |files|);
    for i := 0 to |files|
      invariant scan.project == project && scan.visiting == {} && fresh(scan)
      invariant scan.memo == MemoAfter(project, files, defaultEnvironment, i) && YesLeadsTo(project, scan.memo, project.direct)
      invariant Divided(files[..i], defaultEnvironment, memo, shared, isolated)
    {
      AnswerStays(project, files, defaultEnvironment, i, |files|);
      var needs := NeedsOwnWorker(scan, files[i], defaultEnvironment);
      shared, isolated := Place(files[..i], files[i], needs, defaultEnvironment, memo, shared, isolated);
      assert files[..i] + [files[i]] == files[..i + 1];
    }
    assert files[..|files|] == files;
    EachIsPlaced(project, files, defaultEnvironment, shared, isolated);
  }

  // What the groups and the isolated files say about each file.
  lemma EachIsPlaced(g: Project, files: seq<TestFile>, defaultEnvironment: string,
                     shared: map<Option<string>, set<SourceFile>>, isolated: set<SourceFile>)
    requires g.Valid() && forall f | f in files :: f.path in g.imports
    requires forall f, f' | f in files && f' in files && f.path == f'.path :: f == f'
    requires Divided(files, defaultEnvironment, MemoAfter(g, files, defaultEnvironment, |files|), shared, isolated)
    ensures forall f | f in files :: f.path in isolated <==> !InGroup(shared, f.environment, f.path)
    ensures forall f, environment | f in files && InGroup(shared, environment, f.path) :: environment == f.environment
    ensures forall j | 0 <= j < |files| :: files[j].path in isolated <==> ToIsolate(g, files, defaultEnvironment, j)
  {
    forall j | 0 <= j < |files|
      ensures files[j].path in isolated <==> ToIsolate(g, files, defaultEnvironment, j)
    {
      AnswerStays(g, files, defaultEnvironment, j, |files|);
      assert files[j] in files;
    }
  }

  method Place(ghost done: seq<TestFile>, file: TestFile, needs: bool, defaultEnvironment: string, ghost memo: Memo,
               shared: map<Option<string>, set<SourceFile>>, isolated: set<SourceFile>)
    returns (shared': map<Option<string>, set<SourceFile>>, isolated': set<SourceFile>)
    requires Divided(done, defaultEnvironment, memo, shared, isolated) && (needs <==> Isolated(file, defaultEnvironment, memo))
    ensures Divided(done + [file], defaultEnvironment, memo, shared', isolated')
  {
    shared', isolated' := shared, isolated;
    if needs {
      isolated' := isolated + {file.path};
    } else {
      var group := if file.environment in shared then shared[file.environment] else {};
      shared' := shared[file.environment := group + {file.path}];
      assert forall e, p :: InGroup(shared', e, p) <==> InGroup(shared, e, p) || (e == file.environment && p == file.path);
    }
  }

  // So nothing is isolated without reason, and on an acyclic graph exactly the right files
  // are: no "no" a scan meets there is wrong.
  lemma NothingIsolatedInVain(g: Project, files: seq<TestFile>, defaultEnvironment: string, j: nat)
    requires g.Valid() && (forall f | f in files :: f.path in g.imports) && j < |files|
    requires ToIsolate(g, files, defaultEnvironment, j)
    ensures NamesOwnWorker(files[j], defaultEnvironment) || NeedsIsolation(g, files[j].path)
  {
    if !NamesOwnWorker(files[j], defaultEnvironment) {
      ReachesAvoidingLess(g, files[j].path, g.direct, No(MemoAfter(g, files, defaultEnvironment, j)), {});
    }
  }

  lemma {:induction false} AcyclicMemoIsExact(g: Project, files: seq<TestFile>, defaultEnvironment: string, n: nat, rank: map<SourceFile, nat>)
    requires g.Valid() && (forall f | f in files :: f.path in g.imports) && n <= |files| && Acyclic(g, rank)
    ensures MemoIsExact(g, MemoAfter(g, files, defaultEnvironment, n))
  {
    if n > 0 {
      AcyclicMemoIsExact(g, files, defaultEnvironment, n - 1, rank);
      AcyclicVisit(g, rank, files[n - 1].path, MemoAfter(g, files, defaultEnvironment, n - 1), {});
    }
  }

  lemma AcyclicPartitionIsRight(g: Project, files: seq<TestFile>, defaultEnvironment: string, j: nat, rank: map<SourceFile, nat>)
    requires g.Valid() && (forall f | f in files :: f.path in g.imports) && j < |files| && Acyclic(g, rank)
    ensures ToIsolate(g, files, defaultEnvironment, j) <==>
            NamesOwnWorker(files[j], defaultEnvironment) || NeedsIsolation(g, files[j].path)
  {
    var memo := MemoAfter(g, files, defaultEnvironment, j);
    AcyclicMemoIsExact(g, files, defaultEnvironment, j, rank);
    AcyclicVisit(g, rank, files[j].path, memo, {});
    ScanLeads(g, files, defaultEnvironment, j);
    AnswerOfAScan(g, files[j].path, memo);
  }

  // Not so on a cycle: after "a", the walk shares "b".
  lemma CyclicFileIsShared()
    ensures var g := Project(map["a" := ["b", "c"], "b" := ["a"], "c" := []], {"c"});
            var files := [TestFile("a", None), TestFile("b", None)];
            g.Valid() && !ToIsolate(g, files, "node", 1) && NeedsIsolation(g, "b")
  {
    var g := Project(map["a" := ["b", "c"], "b" := ["a"], "c" := []], {"c"});
    var files := [TestFile("a", None), TestFile("b", None)];
    StaleNo();
    ScanLeads(g, files, "node", 1);
    assert MemoAfter(g, files, "node", 0) == map[];
    AnswerOfAScan(g, "b", MemoAfter(g, files, "node", 1));
  }
}
