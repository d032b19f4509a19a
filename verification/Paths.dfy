// Values shared by the models: optional values, results, and vault paths with the
// directory structure that their '/' separators give them.

module Wrappers {
  datatype Option<+T> = None | Some(value: T)

  // An exception of the source is an Err.
  datatype Result<+T> = Ok(value: T) | Err
}

module Paths {
  type Path = string

  // p lies strictly beneath dir: the source writes p.startsWith(`${dir}/`).
  predicate Under(dir: Path, p: Path) {
    |dir| < |p| && p[|dir|] == '/' && p[..|dir|] == dir
  }

  // The directories a path implies, one for each of its separators.
  function Ancestors(p: Path): set<Path> {
    set k | 0 <= k < |p| && p[k] == '/' :: p[..k]
  }

  lemma AncestorsAreAbove(d: Path, p: Path)
    ensures d in Ancestors(p) <==> Under(d, p)
  {
    if Under(d, p) {
      assert p[..|d|] in Ancestors(p);
    }
  }

  // The segments of a path, as split("/") gives them.
  function Segments(p: Path): (segments: seq<string>)
    ensures |segments| >= 1
    decreases |p|
  {
    var k := FirstSeparator(p);
    if k == |p| then [p] else [p[..k]] + Segments(p[k + 1..])
  }

  function FirstSeparator(p: Path): (k: nat)
    ensures k <= |p| && (forall i | 0 <= i < k :: p[i] != '/') && (k < |p| ==> p[k] == '/')
  {
    SeparatorFrom(p, 0)
  }

  function SeparatorFrom(p: Path, i: nat): (k: nat)
    requires i <= |p|
    ensures i <= k <= |p| && (forall j | i <= j < k :: p[j] != '/') && (k < |p| ==> p[k] == '/')
    decreases |p| - i
  {
    if i == |p| || p[i] == '/' then i else SeparatorFrom(p, i + 1)
  }

  function Join(segments: seq<string>): Path
    requires |segments| >= 1
  {
    if |segments| == 1 then segments[0] else segments[0] + "/" + Join(segments[1..])
  }

  // Splitting loses nothing, and leaves no separator.
  lemma {:induction false} SegmentsAreJoined(p: Path)
    ensures Join(Segments(p)) == p && forall s | s in Segments(p) :: '/' !in s
    decreases |p|
  {
    var k := FirstSeparator(p);
    if k < |p| {
      SegmentsAreJoined(p[k + 1..]);
      assert Segments(p)[1..] == Segments(p[k + 1..]);
      assert p == p[..k] + "/" + p[k + 1..];
    }
  }

  // The directories above a path are its shorter beginnings, segment by segment.
  lemma {:induction false} AboveIsShorter(d: Path, p: Path)
    ensures Under(d, p) <==> Segments(d) < Segments(p)
    decreases |p|
  {
    var j, k := FirstSeparator(d), FirstSeparator(p);
    if k == |p| {
      NothingAbove(d, p);
    } else if j == |d| {
      AboveFirst(d, p);
    } else {
      AboveIsShorter(d[j + 1..], p[k + 1..]);
      SplitsFirst(d);
      SplitsFirst(p);
      AboveRest(d, d[..j], d[j + 1..], p, p[..k], p[k + 1..]);
    }
  }

  lemma SplitsFirst(p: Path)
    requires FirstSeparator(p) < |p|
    ensures var k := FirstSeparator(p);
            '/' !in p[..k] && p == p[..k] + "/" + p[k + 1..] && Segments(p) == [p[..k]] + Segments(p[k + 1..])
  {
    SplitsAt(p, FirstSeparator(p));
  }

  lemma SplitsAt(p: Path, k: nat)
    requires k < |p| && p[k] == '/'
    ensures p == p[..k] + "/" + p[k + 1..]
  {
    assert p[..k + 1] == p[..k] + "/";
    assert p == p[..k + 1] + p[k + 1..];
  }

  lemma NothingAbove(d: Path, p: Path)
    requires FirstSeparator(p) == |p|
    ensures !Under(d, p) && !(Segments(d) < Segments(p))
  {
  }

  lemma AboveRest(d: Path, a: string, d': Path, p: Path, b: string, p': Path)
    requires '/' !in a && '/' !in b && Segments(d) == [a] + Segments(d') && Segments(p) == [b] + Segments(p')
    requires d == a + "/" + d' && p == b + "/" + p'
    requires Under(d', p') <==> Segments(d') < Segments(p')
    ensures Under(d, p) <==> Segments(d) < Segments(p)
  {
    SplitsAlike(a, d', b, p');
    ShorterAlike(a, Segments(d'), b, Segments(p'));
  }

  lemma ShorterAlike(a: string, s: seq<string>, b: string, t: seq<string>)
    ensures [a] + s < [b] + t <==> a == b && s < t
  {
    assert ([a] + s)[0] == a && ([b] + t)[0] == b;
    assert ([a] + s)[1..] == s && ([b] + t)[1..] == t;
    if [a] + s < [b] + t {
      assert forall i | 0 <= i < |s| :: s[i] == ([a] + s)[i + 1] == ([b] + t)[i + 1] == t[i];
    }
    if a == b && s < t {
      assert forall i | 0 < i <= |s| :: ([a] + s)[i] == s[i - 1] == t[i - 1] == ([b] + t)[i];
    }
  }

  lemma AboveFirst(d: Path, p: Path)
    requires FirstSeparator(d) == |d| && FirstSeparator(p) < |p|
    ensures Under(d, p) <==> Segments(d) < Segments(p)
  {
    var k := FirstSeparator(p);
    assert Segments(d) == [d] && Segments(p)[0] == p[..k];
    if Under(d, p) {
      assert forall i | 0 <= i < |d| :: p[i] == p[..|d|][i];
      assert |d| == k;
    }
  }

  // Splitting off the first segment of both: d == a/d' and p == b/p'.
  lemma SplitsAlike(a: string, d: Path, b: string, p: Path)
    requires '/' !in a && '/' !in b
    ensures Under(a + "/" + d, b + "/" + p) <==> a == b && Under(d, p)
  {
    var d', p' := a + "/" + d, b + "/" + p;
    assert d'[|a|] == '/' && p'[|b|] == '/';
    if Under(d', p') {
      assert forall i | 0 <= i <= |a| :: p'[i] == p'[..|d'|][i] == (a + "/")[i];
      assert forall i | 0 <= i < |b| :: p'[i] == b[i];
      assert |a| == |b|;
      assert a == d'[..|a|] == p'[..|d'|][..|a|] == p'[..|a|] == b;
      assert d == d'[|a| + 1..] == p'[..|d'|][|a| + 1..] == p[..|d|];
      assert p'[|d'|] == p[|d|];
    }
    if a == b && Under(d, p) {
      assert p'[..|d'|] == a + "/" + p[..|d|];
      assert p'[|d'|] == p[|d|];
    }
  }

  lemma AncestorsAreShorter(d: Path, p: Path)
    ensures d in Ancestors(p) <==> Segments(d) < Segments(p)
  {
    AncestorsAreAbove(d, p);
    AboveIsShorter(d, p);
  }

  lemma UnderTransitive(a: Path, b: Path, c: Path)
    requires Under(a, b) && Under(b, c)
    ensures Under(a, c)
  {
    assert c[..|b|][|a|] == c[|a|];
    assert c[..|b|][..|a|] == c[..|a|];
  }

  // Two directories above the same path lie on one line.
  lemma AboveSamePath(a: Path, b: Path, c: Path)
    requires Under(a, c) && Under(b, c) && |a| < |b|
    ensures Under(a, b)
  {
    assert c[..|b|][|a|] == c[|a|];
    assert c[..|b|][..|a|] == c[..|a|];
  }

  // How many segments a path has.
  function Depth(p: Path): nat {
    |Segments(p)|
  }

  lemma UnderIsDeeper(d: Path, p: Path)
    requires Under(d, p)
    ensures Depth(d) < Depth(p)
  {
    AboveIsShorter(d, p);
  }

  function LowerChar(c: char): char {
    if 'A' <= c <= 'Z' then (c as int + 32) as char else c
  }

  function Lower(p: Path): (r: Path)
    ensures |r| == |p|
  {
    seq(|p|, i requires 0 <= i < |p| => LowerChar(p[i]))
  }

  // Lower-casing identifies exactly the paths that differ in the case of letters only.
  lemma LowerForgetsCase(p: Path, q: Path)
    ensures Lower(Lower(p)) == Lower(p) && forall i | 0 <= i < |p| :: !('A' <= Lower(p)[i] <= 'Z')
    ensures Lower(p) == Lower(q) <==>
              && |p| == |q|
              && forall i | 0 <= i < |p| ::
                   || p[i] == q[i]
                   || ('A' <= p[i] <= 'Z' && q[i] as int == p[i] as int + 32)
                   || ('A' <= q[i] <= 'Z' && p[i] as int == q[i] as int + 32)
  {
    if |p| == |q| {
      forall i | 0 <= i < |p| && Lower(p)[i] == Lower(q)[i]
        ensures p[i] == q[i] || ('A' <= p[i] <= 'Z' && q[i] as int == p[i] as int + 32) || ('A' <= q[i] <= 'Z' && p[i] as int == q[i] as int + 32)
      {
        assert LowerChar(p[i]) == LowerChar(q[i]);
      }
    }
  }

  // No two of these paths differ in case only.
  ghost predicate NoFoldClash(paths: set<Path>) {
    forall p, q | p in paths && q in paths && Lower(p) == Lower(q) :: p == q
  }

  lemma LowerKeepsUnder(d: Path, p: Path)
    requires Under(d, p)
    ensures Under(Lower(d), Lower(p))
  {
    forall i | 0 <= i < |d| ensures Lower(d)[i] == Lower(p)[..|d|][i] {
      assert p[..|d|][i] == p[i];
    }
    assert Lower(p)[..|d|] == Lower(d);
  }

  predicate ComponentStartsAt(p: Path, i: int) {
    0 <= i <= |p| && (i == 0 || p[i - 1] == '/')
  }

  // A name component that may be synchronised starts at every separator: it is not
  // empty and not hidden. Backslashes and NUL never occur, and neither does a drive prefix.
  predicate IsVaultPath(p: Path) {
    && p != ""
    && (forall i | 0 <= i <= |p| && ComponentStartsAt(p, i) :: i < |p| && p[i] != '/' && p[i] != '.')
    && (forall i | 0 <= i < |p| :: p[i] != '\\' && p[i] != '\0')
    && !(|p| >= 3 && ('a' <= p[0] <= 'z' || 'A' <= p[0] <= 'Z') && p[1] == ':' && p[2] == '/')
  }

  lemma VaultPathAncestor(d: Path, p: Path)
    requires IsVaultPath(p) && Under(d, p)
    ensures IsVaultPath(d)
  {
    forall i | 0 <= i <= |d| && ComponentStartsAt(d, i)
      ensures i < |d| && d[i] != '/' && d[i] != '.'
    {
      assert ComponentStartsAt(p, i);
    }
    assert d != "" by {
      assert ComponentStartsAt(p, 0);
    }
    forall i | 0 <= i < |d| ensures d[i] != '\\' && d[i] != '\0' {
      assert d[i] == p[i];
    }
    assert |d| >= 3 ==> d[0] == p[0] && d[1] == p[1] && d[2] == p[2];
  }

  // A segment is what stands from one separator to the next.
  ghost predicate Stands(p: Path, s: string) {
    exists i :: ComponentStartsAt(p, i) && NameAt(p, i, s)
  }

  lemma {:induction false} SegmentsStand(p: Path, s: string)
    ensures s in Segments(p) <==> '/' !in s && Stands(p, s)
    decreases |p|
  {
    var k := FirstSeparator(p);
    FirstStands(p, s);
    assert ComponentStartsAt(p, 0);
    if k == |p| {
      assert p[..k] == p;
      forall i | ComponentStartsAt(p, i) ensures i == 0 {}
    } else {
      var rest := p[k + 1..];
      SegmentsStand(rest, s);
      SplitsFirst(p);
      if Stands(rest, s) {
        StandsBeyond(p, p[..k], rest, s);
      }
      if Stands(p, s) {
        StandsSomewhere(p, p[..k], rest, s);
      }
    }
  }

  lemma StandsBeyond(p: Path, first: string, rest: Path, s: string)
    requires p == first + "/" + rest && Stands(rest, s)
    ensures Stands(p, s)
  {
    var j :| ComponentStartsAt(rest, j) && NameAt(rest, j, s);
    LaterStands(p, first, rest, j, s);
  }

  lemma StandsSomewhere(p: Path, first: string, rest: Path, s: string)
    requires p == first + "/" + rest && '/' !in first && Stands(p, s)
    ensures NameAt(p, 0, s) || Stands(rest, s)
  {
    var i :| ComponentStartsAt(p, i) && NameAt(p, i, s);
    StartsInRest(p, first, rest, i);
    LaterStands(p, first, rest, i - |first| - 1, s);
  }

  lemma StartsInRest(p: Path, first: string, rest: Path, i: int)
    requires p == first + "/" + rest && '/' !in first && ComponentStartsAt(p, i)
    ensures i == 0 || i >= |first| + 1
  {
    assert forall k | 0 <= k < |first| :: p[k] == first[k];
  }

  lemma FirstStands(p: Path, s: string)
    ensures '/' !in s && NameAt(p, 0, s) <==> s == p[..FirstSeparator(p)]
  {
    var k := FirstSeparator(p);
    if '/' !in s && NameAt(p, 0, s) {
      assert forall i | 0 <= i < |s| :: p[i] == s[i];
      assert |s| == k;
    }
  }

  lemma LaterStands(p: Path, first: string, rest: Path, j: int, s: string)
    requires p == first + "/" + rest
    ensures j >= 0 ==> (ComponentStartsAt(p, |first| + 1 + j) <==> ComponentStartsAt(rest, j))
    ensures j >= 0 ==> (NameAt(p, |first| + 1 + j, s) <==> NameAt(rest, j, s))
  {
    var i := |first| + 1 + j;
    if j >= 0 && i + |s| <= |p| {
      assert p[i..i + |s|] == rest[j..j + |s|];
    }
  }

  // The rules for vault paths, as the source states them, segment by segment.
  ghost predicate HasVaultSegments(p: Path) {
    && (forall s | s in Segments(p) :: s != "" && s[0] != '.')
    && '\\' !in p && '\0' !in p
    && !(exists letter: char :: ('a' <= letter <= 'z' || 'A' <= letter <= 'Z') && [letter, ':', '/'] <= p)
  }

  lemma VaultPathsHaveVaultSegments(p: Path)
    ensures IsVaultPath(p) <==> HasVaultSegments(p)
  {
    if IsVaultPath(p) {
      forall s | s in Segments(p) ensures s != "" && s[0] != '.' {
        SegmentsStand(p, s);
        var i :| ComponentStartsAt(p, i) && NameAt(p, i, s);
        assert p[i..i + |s|] == s;
      }
    }
    if HasVaultSegments(p) {
      forall i | 0 <= i <= |p| && ComponentStartsAt(p, i) ensures i < |p| && p[i] != '/' && p[i] != '.' {
        var s := SegmentFrom(p, i);
        assert s == p[i..i + |s|];
      }
      assert ComponentStartsAt(p, 0);
      assert |p| >= 3 ==> p[..3] == [p[0], p[1], p[2]];
    }
  }

  // The segment that starts here.
  lemma SegmentFrom(p: Path, i: nat) returns (s: string)
    requires ComponentStartsAt(p, i)
    ensures '/' !in s && NameAt(p, i, s) && s in Segments(p)
  {
    var k := FirstSeparator(p[i..]);
    s := p[i..][..k];
    assert s == p[i..i + k];
    SegmentsStand(p, s);
  }

  // Names a directory listing passes over, with everything beneath them; so it does with
  // every name that starts with a dot.
  const UNLISTED_NAMES := {"node_modules", "venv", "__pycache__"}

  predicate NameAt(p: Path, i: int, name: string) {
    && 0 <= i && i + |name| <= |p| && p[i..i + |name|] == name
    && (i + |name| == |p| || p[i + |name|] == '/')
  }

  // A listing of the directory tree may show p.
  predicate Listed(p: Path) {
    forall i | 0 <= i < |p| && ComponentStartsAt(p, i) ::
      p[i] != '.' && forall name | name in UNLISTED_NAMES :: !NameAt(p, i, name)
  }

  // A path is listed exactly when none of its segments is passed over.
  ghost predicate HasListedSegments(p: Path) {
    forall s | s in Segments(p) :: (s == "" || s[0] != '.') && s !in {"node_modules", "venv", "__pycache__"}
  }

  lemma ListedPathsHaveListedSegments(p: Path)
    ensures Listed(p) <==> HasListedSegments(p)
  {
    if Listed(p) {
      forall s | s in Segments(p) ensures (s == "" || s[0] != '.') && s !in UNLISTED_NAMES {
        SegmentsStand(p, s);
        var i :| ComponentStartsAt(p, i) && NameAt(p, i, s);
        assert p[i..i + |s|] == s;
      }
    }
    if HasListedSegments(p) {
      forall i | 0 <= i < |p| && ComponentStartsAt(p, i)
        ensures p[i] != '.' && forall name | name in UNLISTED_NAMES :: !NameAt(p, i, name)
      {
        PassedOverAt(p, i);
      }
    }
  }

  lemma PassedOverAt(p: Path, i: int)
    requires HasListedSegments(p) && 0 <= i < |p| && ComponentStartsAt(p, i)
    ensures p[i] != '.' && forall name | name in UNLISTED_NAMES :: !NameAt(p, i, name)
  {
    var s := SegmentFrom(p, i);
    assert s == p[i..i + |s|];
    forall name | name in UNLISTED_NAMES ensures !NameAt(p, i, name) {
      NamesAreSegments(name);
      if NameAt(p, i, name) {
        SameSegment(p, i, s, name);
      }
    }
  }

  lemma NamesAreSegments(name: string)
    requires name in UNLISTED_NAMES
    ensures '/' !in name
  {
  }

  lemma SameSegment(p: Path, i: int, s: string, t: string)
    requires '/' !in s && '/' !in t && NameAt(p, i, s) && NameAt(p, i, t)
    ensures s == t
  {
    assert forall k | 0 <= k < |s| :: p[i + k] == p[i..i + |s|][k] == s[k];
    assert forall k | 0 <= k < |t| :: p[i + k] == p[i..i + |t|][k] == t[k];
    assert |s| == |t|;
  }

  lemma ListedAbove(d: Path, p: Path)
    requires Listed(p) && Under(d, p)
    ensures Listed(d)
  {
    forall i | 0 <= i < |d| && ComponentStartsAt(d, i)
      ensures d[i] != '.' && forall name | name in UNLISTED_NAMES :: !NameAt(d, i, name)
    {
      assert ComponentStartsAt(p, i);
      forall name | name in UNLISTED_NAMES ensures !NameAt(d, i, name) {
        assert !NameAt(p, i, name);
        if i + |name| <= |d| {
          assert d[i..i + |name|] == p[i..i + |name|];
        }
      }
    }
  }

  // What a pulled workspace covers.
  datatype Scope = All | File(path: Path) | Folder(path: Path)

  // The part of a vault a scope names: everything, one file, or a directory with all that
  // has it among the directories above.
  ghost predicate InSubtree(scope: Scope, p: Path) {
    match scope
    case All => true
    case File(path) => p == path
    case Folder(path) => p == path || path in Ancestors(p)
  }

  predicate ScopeContains(scope: Scope, p: Path): (r: bool)
    ensures r <==> InSubtree(scope, p)
  {
    assert scope.Folder? ==> (scope.path in Ancestors(p) <==> Under(scope.path, p)) by {
      if scope.Folder? {
        AncestorsAreAbove(scope.path, p);
      }
    }
    match scope
    case All => true
    case File(path) => p == path
    case Folder(path) => p == path || Under(path, p)
  }
}
