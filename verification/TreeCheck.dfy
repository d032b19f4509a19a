// assertValidTree: a list of entries that can live together on a host whose file names
// may be case-insensitive.

module TreeCheck {
  import opened Paths
  import opened FileStore

  ghost predicate ValidTree(es: seq<Entry>) {
    && (forall i, j | 0 <= i < j < |es| :: Lower(es[i].path) != Lower(es[j].path))
    && (forall i, j | 0 <= i < |es| && 0 <= j < |es| && es[i].isFile :: !Under(Lower(es[i].path), Lower(es[j].path)))
  }

  // The same condition on a tree given as its files and its directories.
  ghost predicate ValidSets(files: set<Path>, dirs: set<Path>) {
    && files !! dirs
    && NoFoldClash(files + dirs)
    && (forall f, p | f in files && p in files + dirs :: !Under(Lower(f), Lower(p)))
  }

  ghost function FilesOf(es: seq<Entry>): set<Path> {
    set e | e in es && e.isFile :: e.path
  }

  ghost function DirsOf(es: seq<Entry>): set<Path> {
    set e | e in es && !e.isFile :: e.path
  }

  method AssertValidTree(es: seq<Entry>) returns (ok: bool)
    ensures ok <==> ValidTree(es)
  {
    var folded: map<Path, Entry> := map[];
    var files: set<Path> := {};
    for i := 0 to |es|
      invariant forall key :: key in folded <==> exists j | 0 <= j < i :: Lower(es[j].path) == key
      invariant forall key :: key in files <==> exists j | 0 <= j < i :: es[j].isFile && Lower(es[j].path) == key
      invariant forall j, k | 0 <= j < k < i :: Lower(es[j].path) != Lower(es[k].path)
    {
      var key := Lower(es[i].path);
      if key in folded {
        return false;
      }
      folded := folded[key := es[i]];
      if es[i].isFile {
        files := files + {key};
      }
    }
    for i := 0 to |es|
      invariant forall j, k | 0 <= j < |es| && 0 <= k < i && es[j].isFile :: !Under(Lower(es[j].path), Lower(es[k].path))
    {
      var lowered := Lower(es[i].path);
      for end := 0 to |lowered|
        invariant forall k | 0 <= k < end && lowered[k] == '/' :: lowered[..k] !in files
      {
        if lowered[end] == '/' && lowered[..end] in files {
          return false;
        }
      }
    }
    ok := true;
  }

  lemma ValidTreeHasNoRepeats(es: seq<Entry>)
    requires ValidTree(es)
    ensures NoRepeats(es)
  {
    forall i, j | 0 <= i < j < |es| ensures es[i] != es[j] {
      assert Lower(es[i].path) != Lower(es[j].path);
    }
  }

  // On a list without repeats the check looks only at which paths are files and which
  // are directories.
  lemma ValidTreeIsValidSets(es: seq<Entry>)
    requires NoRepeats(es)
    ensures ValidTree(es) <==> ValidSets(FilesOf(es), DirsOf(es))
  {
    if ValidTree(es) {
      TreeGivesSets(es);
    }
    if ValidSets(FilesOf(es), DirsOf(es)) {
      SetsGiveTree(es);
    }
  }

  lemma TreeGivesSets(es: seq<Entry>)
    requires ValidTree(es)
    ensures ValidSets(FilesOf(es), DirsOf(es))
  {
    var files, dirs := FilesOf(es), DirsOf(es);
    forall p, q | p in files + dirs && q in files + dirs && Lower(p) == Lower(q)
      ensures p == q && !(p in files && q in dirs)
    {
      forall i, j | 0 <= i < |es| && 0 <= j < |es| && es[i].path == p && es[j].path == q
        ensures i == j
      {
        assert Lower(es[i].path) == Lower(es[j].path);
      }
    }
    forall f, p | f in files && p in files + dirs
      ensures !Under(Lower(f), Lower(p))
    {
      var i :| 0 <= i < |es| && es[i].isFile && es[i].path == f;
      var j :| 0 <= j < |es| && es[j].path == p;
    }
  }

  lemma SetsGiveTree(es: seq<Entry>)
    requires NoRepeats(es) && ValidSets(FilesOf(es), DirsOf(es))
    ensures ValidTree(es)
  {
    forall i | 0 <= i < |es|
      ensures es[i].path in if es[i].isFile then FilesOf(es) else DirsOf(es)
    {
      assert es[i] in es;
    }
    forall i, j | 0 <= i < j < |es|
      ensures Lower(es[i].path) != Lower(es[j].path)
    {
      assert es[i] != es[j];
    }
  }
}
