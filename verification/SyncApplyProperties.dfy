// What a request that syncApply accepts does to the vault as a whole.

module SyncApplyProperties {
  import opened Wrappers
  import opened Paths
  import opened FileStore
  import opened TreeCheck
  import opened SyncRequest
  import opened SyncApply

  // After a request, what the listing showed or the request named, and the parents it
  // implies, which the check does not look at.

  ghost function SeenFiles(req: Request, files0: Files): set<Path> {
    ListedFiles(files0).Keys - DeletePaths(req) - OldDirs(req) + WritePaths(req)
  }

  ghost function SeenDirs(req: Request, dirs0: set<Path>): set<Path> {
    ListedDirs(dirs0) - OldDirs(req) + NewDirs(req)
  }

  ghost function ImpliedParents(req: Request): set<Path> {
    ParentsOf(NewDirs(req)) + ParentsOf(WritePaths(req)) - OldDirs(req)
  }

  // No implied parent differs in case only from a name that is there.
  ghost predicate ParentsFit(req: Request, files0: Files, dirs0: set<Path>) {
    var parents := ImpliedParents(req);
    forall a, p | a in parents && p in SeenFiles(req, files0) + SeenDirs(req, dirs0) + parents && Lower(a) == Lower(p) :: a == p
  }

  // The entries the check looks at form a valid tree after the request. The vault does,
  // with the implied parents, exactly when these fit what the listing showed.
  lemma AppliedVaultIsValid(req: Request, files0: Files, dirs0: set<Path>, files: Files, dirs: set<Path>)
    requires Acceptable(req, ListedFiles(files0).Keys, ListedDirs(dirs0)) && Performed(req, files0, dirs0, files, dirs)
    ensures SeenFiles(req, files0) == set p | p in files && (Listed(p) || p in WritePaths(req))
    ensures SeenDirs(req, dirs0) + ImpliedParents(req) == set d | d in dirs && (Listed(d) || d in NewDirs(req) || d in ImpliedParents(req))
    ensures ValidSets(SeenFiles(req, files0), SeenDirs(req, dirs0))
    ensures ValidSets(SeenFiles(req, files0), SeenDirs(req, dirs0) + ImpliedParents(req)) <==> ParentsFit(req, files0, dirs0)
  {
    SeenIsThere(req, files0, dirs0, files, dirs);
    SeenIsValid(req, files0, dirs0);
    forall f, p | f in SeenFiles(req, files0) && p in ImpliedParents(req)
      ensures f != p && !Under(Lower(f), Lower(p))
    {
      NothingBeneathAFile(req, files0, dirs0, f, p);
    }
    ValidWithParents(SeenFiles(req, files0), SeenDirs(req, dirs0), ImpliedParents(req));
  }

  lemma ValidWithParents(files: set<Path>, dirs: set<Path>, parents: set<Path>)
    requires ValidSets(files, dirs)
    requires forall f, p | f in files && p in parents :: f != p && !Under(Lower(f), Lower(p))
    ensures ValidSets(files, dirs + parents) <==> forall a, p | a in parents && p in files + dirs + parents && Lower(a) == Lower(p) :: a == p
  {
    if ValidSets(files, dirs + parents) {
      forall a, p | a in parents && p in files + dirs + parents && Lower(a) == Lower(p) ensures a == p {
        assert a in files + (dirs + parents) && p in files + (dirs + parents);
      }
    }
  }

  lemma SeenIsValid(req: Request, files0: Files, dirs0: set<Path>)
    requires Acceptable(req, ListedFiles(files0).Keys, ListedDirs(dirs0))
    ensures ValidSets(SeenFiles(req, files0), SeenDirs(req, dirs0))
  {
    var files, dirs := ListedFiles(files0).Keys - DeletePaths(req) + WritePaths(req), ListedDirs(dirs0) - OldDirs(req) + NewDirs(req);
    assert ValidSets(files, dirs);
    assert SeenFiles(req, files0) <= files && SeenDirs(req, dirs0) == dirs;
  }

  lemma SeenIsThere(req: Request, files0: Files, dirs0: set<Path>, files: Files, dirs: set<Path>)
    requires ValidTree(RequestEntries(req)) && Performed(req, files0, dirs0, files, dirs)
    ensures SeenFiles(req, files0) == set p | p in files && (Listed(p) || p in WritePaths(req))
    ensures SeenDirs(req, dirs0) + ImpliedParents(req) == set d | d in dirs && (Listed(d) || d in NewDirs(req) || d in ImpliedParents(req))
  {
    RequestSets(req);
    forall p ensures p in files && (Listed(p) || p in WritePaths(req)) <==> p in SeenFiles(req, files0) {
      if p in WritePaths(req) {
        var w :| w in req.writes && w.path == p;
        assert At(files, p) == Some(w.content);
      } else if p !in DeletePaths(req) && p !in OldDirs(req) {
        assert At(files, p) == At(files0, p);
      }
    }
  }

  lemma NothingBeneathAFile(req: Request, files0: Files, dirs0: set<Path>, f: Path, p: Path)
    requires Acceptable(req, ListedFiles(files0).Keys, ListedDirs(dirs0))
    requires f in SeenFiles(req, files0) && p in ImpliedParents(req)
    ensures f != p && !Under(Lower(f), Lower(p))
  {
    var q :| (q in NewDirs(req) || q in WritePaths(req)) && p in Ancestors(q);
    RequestSets(req);
    AncestorsAreAbove(p, q);
    LowerKeepsUnder(p, q);
    if Under(Lower(f), Lower(p)) {
      UnderTransitive(Lower(f), Lower(p), Lower(q));
    }
  }

  // b is a directory at the top whose name differs in case only from a, the parent of x.
  ghost predicate TwoSpelled(a: Path, b: Path, x: Path) {
    && IsVaultPath(b) && IsVaultPath(x) && Listed(b) && Ancestors(b) == {} && Ancestors(x) == {a}
    && a != b && Lower(a) == Lower(b) && |b| < |x|
  }

  // The request writes a new file x, and nothing else.
  ghost predicate OnlyWrites(req: Request, x: Path) {
    && |req.writes| == 1 && req.writes[0].path == x && req.writes[0].expected == None && req.deletes == []
    && RequestEntries(req) == [Entry(x, true)]
    && WritePaths(req) == {x} && DeletePaths(req) == {} && NewDirs(req) == {} && OldDirs(req) == {}
  }

  // Writing x into a vault that has the other spelling of its parent goes through on a
  // healthy host, and leaves both spellings there.
  lemma ImpliedParentCanClash(req: Request, a: Path, b: Path, x: Path)
    requires TwoSpelled(a, b, x) && OnlyWrites(req, x)
    ensures Admissible(req, map[], {b}) && Fresh(req, map[]) && Unobstructed(req, map[], {b})
    ensures forall files, dirs | Performed(req, map[], {b}, files, dirs) :: !NoFoldClash(files.Keys + dirs)
  {
    WriteIsAdmitted(req, a, b, x);
    WriteHasRoom(req, a, b, x);
    forall files, dirs | Performed(req, map[], {b}, files, dirs) ensures !NoFoldClash(files.Keys + dirs) {
      BothSpellings(req, a, b, x, files, dirs);
    }
  }

  lemma BothSpellings(req: Request, a: Path, b: Path, x: Path, files: Files, dirs: set<Path>)
    requires TwoSpelled(a, b, x) && OnlyWrites(req, x) && Performed(req, map[], {b}, files, dirs)
    ensures !NoFoldClash(files.Keys + dirs)
  {
    assert a in Ancestors(x) && a in ParentsOf(WritePaths(req));
    assert a in dirs && b in dirs;
  }

  lemma WriteHasRoom(req: Request, a: Path, b: Path, x: Path)
    requires TwoSpelled(a, b, x) && OnlyWrites(req, x)
    ensures Fresh(req, map[]) && Unobstructed(req, map[], {b})
  {
    var w := req.writes[0];
    assert req.writes == [w];
    assert CanHoldFile(map[], {b}, x);
  }

  lemma WriteIsAdmitted(req: Request, a: Path, b: Path, x: Path)
    requires TwoSpelled(a, b, x) && OnlyWrites(req, x)
    ensures Admissible(req, map[], {b})
  {
    assert ListedFiles(map[]) == map[] && ListedDirs({b}) == {b} && |ListedDirs({b})| == 1;
    assert AllVaultPaths(req);
    assert Acceptable(req, {}, {b}) by {
      assert |Lower(x)| != |Lower(b)|;
      AncestorsAreAbove(b, x);
    }
  }

  lemma TwoSpellings()
    ensures TwoSpelled("docs", "Docs", "docs/x")
  {
    assert "docs"[0] != "Docs"[0];
    assert Lower("Docs") == "docs" == Lower("docs");
    assert "docs/x"[..4] == "docs" && Ancestors("docs/x") == {"docs"};
  }

  lemma SingleWrite(x: Path, content: Hash)
    ensures OnlyWrites(Request([WriteRequest(x, content, None)], [], [], [], false), x)
  {
    var req := Request([WriteRequest(x, content, None)], [], [], [], false);
    assert req.writes[0].path in WritePaths(req);
  }

  // A complete request changes only files it names with the hash it expects, exactly when
  // none of the directories it removes is a file.
  lemma OnlyNamedFilesChangeExactlyWhen(req: Request, files0: Files, dirs0: set<Path>, files: Files, dirs: set<Path>)
    requires ValidTree(RequestEntries(req)) && Performed(req, files0, dirs0, files, dirs)
    ensures (forall p | At(files, p) != At(files0, p) :: p in WritePaths(req) || p in DeletePaths(req)) <==> OldDirs(req) !! files0.Keys
  {
    RequestSets(req);
    if p :| p in OldDirs(req) && p in files0 {
      assert At(files, p) != At(files0, p);
    }
  }

  // The request deletes the directory d, and nothing else.
  ghost predicate OnlyDeletes(req: Request, d: Path) {
    && req.writes == [] && req.deletes == []
    && RequestEntries(req) == [Entry(d, false)]
    && WritePaths(req) == {} && DeletePaths(req) == {} && NewDirs(req) == {} && OldDirs(req) == {d}
  }

  lemma SingleDelete(d: Path)
    ensures OnlyDeletes(Request([], [], [], [d], false), d)
  {
    var req := Request([], [], [], [d], false);
    assert req.deleteDirectories[0] in OldDirs(req);
  }

  // f is a file at the top, and the only one.
  ghost predicate OneFile(f: Path, files: Files) {
    IsVaultPath(f) && Listed(f) && Ancestors(f) == {} && files.Keys == {f}
  }

  lemma DeleteIsAdmitted(req: Request, d: Path, f: Path, files: Files)
    requires OnlyDeletes(req, d) && IsVaultPath(d) && OneFile(f, files) && (d == f || Under(f, d))
    ensures WellFormed(files, {}) && Fresh(req, files) && Admissible(req, files, {})
  {
    assert ListedFiles(files) == files && |ListedFiles(files)| == 1 && ListedDirs({}) == {};
    assert AllVaultPaths(req);
    assert forall k | 0 <= k < |f| && f[k] == '/' :: f[..k] in Ancestors(f);
    assert Acceptable(req, {f}, {}) by {
      assert EmptiedBy(req, {f}, {}, d);
    }
  }

  // Deleting a directory where there is a file goes through on a healthy host, and removes
  // the file without naming its hash.
  lemma DirectoryDeleteCanTakeAFile(req: Request, f: Path, files0: Files)
    requires OnlyDeletes(req, f) && OneFile(f, files0)
    ensures Admissible(req, files0, {}) && Fresh(req, files0) && Unobstructed(req, files0, {})
    ensures forall files, dirs | Performed(req, files0, {}, files, dirs) :: f !in files
  {
    DeleteIsAdmitted(req, f, f, files0);
  }

  // Deleting a directory beneath a file passes every check too, and fails: the host does not
  // say that the directory is missing, but that something above it is no directory.
  lemma FileAboveFailsDirectory(req: Request, d: Path, f: Path, files: Files)
    requires OnlyDeletes(req, d) && IsVaultPath(d) && Listed(d) && OneFile(f, files) && Under(f, d)
    ensures Admissible(req, files, {}) && Fresh(req, files) && NamesListed(req) && !Unobstructed(req, files, {})
  {
    DeleteIsAdmitted(req, d, f, files);
    AncestorsAreAbove(f, d);
    assert !NoFileAbove(files, d);
  }

  lemma BeneathAFile()
    ensures OneFile("a", map["a" := "h"]) && IsVaultPath("a/b") && Listed("a/b") && Under("a", "a/b")
  {
    assert "a/b"[..1] == "a";
    assert forall name | name in UNLISTED_NAMES :: |name| >= 4;
  }

  // No name of the request is one a listing passes over.
  ghost predicate NamesListed(req: Request) {
    forall p | p in WritePaths(req) + DeletePaths(req) + NewDirs(req) + OldDirs(req) :: Listed(p)
  }

  // No entry that listings pass over lies beneath a directory to be deleted.
  ghost predicate NothingHidden(req: Request, files: Files, dirs: set<Path>) {
    forall d, p | d in OldDirs(req) && p in files.Keys + dirs && !Listed(p) :: !Under(d, p)
  }

  // The check sees only what is listed, and not what stands above. For a request made of
  // listed names that it accepts, nothing in the whole tree is in the way exactly when no
  // entry that is not listed lies beneath a directory to be deleted, and no file stands
  // above one.
  lemma UnobstructedExactlyWhen(req: Request, files: Files, dirs: set<Path>)
    requires WellFormed(files, dirs) && Admissible(req, files, dirs) && NamesListed(req)
    ensures Unobstructed(req, files, dirs) <==>
            NothingHidden(req, files, dirs) && forall d | d in OldDirs(req) :: NoFileAbove(files, d)
  {
    ListedNamesHaveRoom(req, files, dirs);
    HiddenExactlyWhen(req, files, dirs);
  }

  lemma HiddenExactlyWhen(req: Request, files: Files, dirs: set<Path>)
    requires Acceptable(req, ListedFiles(files).Keys, ListedDirs(dirs)) && NamesListed(req)
    ensures NothingHidden(req, files, dirs) <==>
            forall d, p | d in OldDirs(req) && p in files.Keys + dirs && Under(d, p) :: p in DeletePaths(req) || p in OldDirs(req)
  {
    forall d, p | d in OldDirs(req) && p in files.Keys + dirs && Under(d, p) && Listed(p)
      ensures p in DeletePaths(req) || p in OldDirs(req)
    {
      assert EmptiedBy(req, ListedFiles(files).Keys, ListedDirs(dirs), d);
    }
  }

  lemma ListedNamesHaveRoom(req: Request, files: Files, dirs: set<Path>)
    requires Admissible(req, files, dirs) && NamesListed(req)
    ensures HasRoom(req, files, dirs)
  {
    RequestSets(req);
    forall p, a | (p in NewDirs(req) || p in WritePaths(req)) && a in Ancestors(p) ensures a !in files {
      AncestorsAreAbove(a, p);
      LowerKeepsUnder(a, p);
      ListedAbove(a, p);
    }
    forall w | w in req.writes ensures CanHoldFile(files, dirs, w.path) {
      assert w.path in WritePaths(req);
    }
  }

  // A request that empties the directory d of the one file x it shows is accepted; but a
  // hidden file h in d keeps the directory, so even on a healthy host it is not applied.

  // The request deletes x at its hash and the directory d, and nothing else.
  ghost predicate IsEmptying(req: Request, d: Path, x: Path, hash: Hash) {
    && req.writes == [] && req.deletes == [DeleteRequest(x, hash)]
    && RequestEntries(req) == [Entry(x, true), Entry(d, false)]
    && WritePaths(req) == {} && DeletePaths(req) == {x} && NewDirs(req) == {} && OldDirs(req) == {d}
  }

  lemma EmptyingExists(d: Path, x: Path, hash: Hash)
    ensures IsEmptying(Request([], [DeleteRequest(x, hash)], [], [d], false), d, x, hash)
  {
    var req := Request([], [DeleteRequest(x, hash)], [], [d], false);
    assert req.deletes[0].path in DeletePaths(req) && req.deleteDirectories[0] in OldDirs(req);
  }

  // d is a directory at the top, with the file x and the hidden file h in it.
  ghost predicate OneHidden(d: Path, x: Path, h: Path) {
    && IsVaultPath(d) && IsVaultPath(x) && Listed(d) && Listed(x) && !Listed(h)
    && Under(d, x) && Under(d, h) && Ancestors(d) == {} && Ancestors(x) == {d} && Ancestors(h) == {d}
  }

  lemma HiddenFileKeepsDirectory(req: Request, d: Path, x: Path, h: Path, hash: Hash, files: Files)
    requires OneHidden(d, x, h) && IsEmptying(req, d, x, hash)
    requires files.Keys == {x, h} && files[x] == hash
    ensures WellFormed(files, {d}) && Fresh(req, files) && NamesListed(req)
    ensures Admissible(req, files, {d}) && !Unobstructed(req, files, {d})
  {
    HiddenTreeWellFormed(d, x, h, files);
    EmptyingAdmitted(req, d, x, h, hash, files);
    InTheWay(req, files, {d}, d, h);
    EmptyingFresh(req, d, x, hash, files);
  }

  lemma EmptyingFresh(req: Request, d: Path, x: Path, hash: Hash, files: Files)
    requires IsEmptying(req, d, x, hash) && At(files, x) == Some(hash) && Listed(x) && Listed(d)
    ensures Fresh(req, files) && NamesListed(req)
  {
  }

  lemma HiddenTreeWellFormed(d: Path, x: Path, h: Path, files: Files)
    requires OneHidden(d, x, h) && files.Keys == {x, h}
    ensures WellFormed(files, {d})
  {
    forall p, k | p in {x, h, d} && 0 <= k < |p| && p[k] == '/' ensures p[..k] == d {
      assert p[..k] in Ancestors(p);
    }
  }

  lemma EmptyingAdmitted(req: Request, d: Path, x: Path, h: Path, hash: Hash, files: Files)
    requires OneHidden(d, x, h) && IsEmptying(req, d, x, hash) && files.Keys == {x, h} && files[x] == hash
    ensures Admissible(req, files, {d})
  {
    EmptyingAcceptable(req, d, x, hash);
    OneFileShown(d, x, h, files);
    assert AllVaultPaths(req);
  }

  lemma OneFileShown(d: Path, x: Path, h: Path, files: Files)
    requires files.Keys == {x, h} && Listed(x) && !Listed(h) && Listed(d)
    ensures ListedFiles(files).Keys == {x} && |ListedFiles(files)| == 1
    ensures ListedDirs({d}) == {d} && |ListedDirs({d})| == 1
  {
    assert ListedFiles(files) == map[x := files[x]];
  }

  lemma InTheWay(req: Request, files: Files, dirs: set<Path>, d: Path, p: Path)
    requires d in OldDirs(req) && p in files && Under(d, p) && p !in DeletePaths(req) + OldDirs(req)
    ensures !Unobstructed(req, files, dirs)
  {
  }

  lemma EmptyingAcceptable(req: Request, d: Path, x: Path, hash: Hash)
    requires Under(d, x) && IsEmptying(req, d, x, hash)
    ensures Acceptable(req, {x}, {d})
  {
    assert |Lower(d)| < |Lower(x)|;
    assert EmptiedBy(req, {x}, {d}, d);
  }

  lemma HiddenNames()
    ensures OneHidden("d", "d/x", "d/.x")
  {
    assert ComponentStartsAt("d/.x", 2) && "d/.x"[2] == '.';
    assert "d/x"[..1] == "d" == "d/.x"[..1];
    assert forall name | name in UNLISTED_NAMES :: |name| >= 4;
  }

  // Such a request and such a vault.
  lemma HiddenFileExample(hash: Hash)
    ensures var req, files := Request([], [DeleteRequest("d/x", hash)], [], ["d"], false), map["d/x" := hash, "d/.x" := hash];
            && WellFormed(files, {"d"}) && Fresh(req, files) && NamesListed(req)
            && Admissible(req, files, {"d"}) && !Unobstructed(req, files, {"d"})
  {
    HiddenNames();
    EmptyingExists("d", "d/x", hash);
    HiddenFileKeepsDirectory(Request([], [DeleteRequest("d/x", hash)], [], ["d"], false), "d", "d/x", "d/.x", hash,
                             map["d/x" := hash, "d/.x" := hash]);
  }

  lemma FileAboveExample()
    ensures var req, files := Request([], [], [], ["a/b"], false), map["a" := "h"];
            Admissible(req, files, {}) && Fresh(req, files) && NamesListed(req) && !Unobstructed(req, files, {})
  {
    BeneathAFile();
    SingleDelete("a/b");
    FileAboveFailsDirectory(Request([], [], [], ["a/b"], false), "a/b", "a", map["a" := "h"]);
  }

  lemma TakenFileExample()
    ensures var req, files0: Files := Request([], [], [], ["a"], false), map["a" := "h"];
            && Admissible(req, files0, {}) && Fresh(req, files0) && Unobstructed(req, files0, {})
            && forall files, dirs | Performed(req, files0, {}, files, dirs) :: "a" !in files
  {
    BeneathAFile();
    SingleDelete("a");
    DirectoryDeleteCanTakeAFile(Request([], [], [], ["a"], false), "a", map["a" := "h"]);
  }

  lemma TwoSpellingsExample()
    ensures var req := Request([WriteRequest("docs/x", "h", None)], [], [], [], false);
            && Admissible(req, map[], {"Docs"}) && Fresh(req, map[]) && Unobstructed(req, map[], {"Docs"})
            && forall files, dirs | Performed(req, map[], {"Docs"}, files, dirs) :: !NoFoldClash(files.Keys + dirs)
  {
    TwoSpellings();
    SingleWrite("docs/x", "h");
    ImpliedParentCanClash(Request([WriteRequest("docs/x", "h", None)], [], [], [], false), "docs", "Docs", "docs/x");
  }
}
