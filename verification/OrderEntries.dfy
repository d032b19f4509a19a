// orderEntries: the file tree of the Docs sidebar as one list, each directory directly
// followed by everything in it and siblings in a chosen order.

module OrderEntries {
  import opened Wrappers
  import opened Paths
  import opened FileStore
  import opened Sorting

  // The text before the last separator, or nothing.
  function Dirname(p: Path): (d: Path)
    ensures p != "" ==> |d| < |p|
  {
    if p == "" then ""
    else if p[|p| - 1] == '/' then p[..|p| - 1]
    else Dirname(p[..|p| - 1])
  }

  lemma {:induction false} DirnameIsAbove(p: Path)
    ensures Dirname(p) == "" || Under(Dirname(p), p)
  {
    if p != "" && p[|p| - 1] != '/' {
      var q := p[..|p| - 1];
      DirnameIsAbove(q);
      assert Dirname(q) != "" ==> p[..|Dirname(q)|] == q[..|Dirname(q)|];
    }
  }

  // Whatever lies above a path is its parent or lies above that.
  lemma {:induction false} DirnameIsNearest(a: Path, p: Path)
    requires Under(a, p)
    ensures a == Dirname(p) || Under(a, Dirname(p))
  {
    var q := p[..|p| - 1];
    if p[|p| - 1] != '/' {
      assert q[..|a|] == p[..|a|];
      DirnameIsNearest(a, q);
    } else if |a| < |p| - 1 {
      assert q[..|a|] == p[..|a|];
    }
  }

  // The text after the last separator.
  function Basename(p: Path): string {
    if p == "" || p[|p| - 1] == '/' then "" else Basename(p[..|p| - 1]) + [p[|p| - 1]]
  }

  // Directory and name are what stands on either side of the last separator.
  lemma {:induction false} SplitsAtTheLastSeparator(p: Path)
    ensures '/' !in Basename(p)
    ensures if '/' in p then p == Dirname(p) + "/" + Basename(p) else Dirname(p) == "" && Basename(p) == p
  {
    if p != "" {
      var q, c := p[..|p| - 1], p[|p| - 1];
      assert p == q + [c];
      if c != '/' {
        SplitsAtTheLastSeparator(q);
      }
    }
  }

  // How siblings compare: the recorded position of some files, and an order on names.
  datatype Comparator = Comparator(order: map<Path, nat>, nameLeq: (string, string) -> bool) {
    // Directories first; then files with a recorded position, by position; then by name.
    predicate Leq(l: Entry, r: Entry) {
      if l.isFile != r.isFile then !l.isFile
      else if l.isFile && (l.path in order || r.path in order) then
        if l.path !in order then false
        else if r.path !in order then true
        else if order[l.path] != order[r.path] then order[l.path] < order[r.path]
        else nameLeq(Basename(l.path), Basename(r.path))
      else nameLeq(Basename(l.path), Basename(r.path))
    }

    // The order on names is a total preorder (a locale's collation is one), and no two
    // paths have the same position.
    ghost predicate Valid() {
      && (forall a, b :: nameLeq(a, b) || nameLeq(b, a))
      && (forall a, b, c :: nameLeq(a, b) && nameLeq(b, c) ==> nameLeq(a, c))
      && (forall p, q | p in order && q in order && order[p] == order[q] :: p == q)
    }

    lemma IsTotalPreorder(a: Entry, b: Entry, c: Entry)
      requires Valid()
      ensures Leq(a, b) || Leq(b, a)
      ensures Leq(a, b) && Leq(b, c) ==> Leq(a, c)
    {
    }
  }

  // The entries whose parent is q, in their order.
  function ChildrenOf(es: seq<Entry>, q: Path): seq<Entry> {
    if es == [] then []
    else if Dirname(es[0].path) == q then [es[0]] + ChildrenOf(es[1..], q)
    else ChildrenOf(es[1..], q)
  }

  lemma {:induction false} InChildrenOf(es: seq<Entry>, q: Path, e: Entry)
    ensures e in ChildrenOf(es, q) <==> e in es && Dirname(e.path) == q
  {
    if es != [] {
      InChildrenOf(es[1..], q, e);
      assert e in es <==> e == es[0] || e in es[1..];
    }
  }

  lemma {:induction false} ChildrenOfConcat(a: seq<Entry>, b: seq<Entry>, q: Path)
    ensures ChildrenOf(a + b, q) == ChildrenOf(a, q) + ChildrenOf(b, q)
  {
    if a == [] {
      assert a + b == b;
    } else {
      ChildrenOfConcat(a[1..], b, q);
      assert (a + b)[1..] == a[1..] + b;
    }
  }

  lemma {:induction false} ChildrenOfCounts(es: seq<Entry>, e: Entry)
    ensures multiset(ChildrenOf(es, Dirname(e.path)))[e] == multiset(es)[e]
  {
    if es != [] {
      ChildrenOfCounts(es[1..], e);
      assert es == [es[0]] + es[1..];
    }
  }

  lemma ComparesAll(c: Comparator)
    requires c.Valid()
    ensures TotalPreorder(c.Leq)
  {
    forall x, y, z ensures (c.Leq(x, y) || c.Leq(y, x)) && (c.Leq(x, y) && c.Leq(y, z) ==> c.Leq(x, z)) {
      c.IsTotalPreorder(x, y, z);
    }
  }

  function Siblings(c: Comparator, es: seq<Entry>, parent: Path): seq<Entry> {
    Sort(c.Leq, ChildrenOf(es, parent))
  }

  // What the order of siblings means: directories first, files with a recorded position
  // by position and before those without, and the rest by name.
  lemma SiblingsOrder(c: Comparator, es: seq<Entry>, parent: Path, i: nat, j: nat)
    requires c.Valid() && i < j < |Siblings(c, es, parent)|
    ensures var l, r := Siblings(c, es, parent)[i], Siblings(c, es, parent)[j];
      && (l.isFile ==> r.isFile)
      && (l.isFile && r.path in c.order ==> l.path in c.order && c.order[l.path] <= c.order[r.path])
      && (l.isFile == r.isFile && (l.isFile ==> l.path !in c.order) ==> c.nameLeq(Basename(l.path), Basename(r.path)))
  {
    var s := Siblings(c, es, parent);
    ComparesAll(c);
    SortSorts(c.Leq, ChildrenOf(es, parent), s[i]);
    assert c.Leq(s[i], s[j]);
  }

  // The groups of siblings the walk reads, in whatever order.
  type Groups = map<Path, seq<Entry>>

  function Kids(g: Groups, parent: Path): seq<Entry> {
    if parent in g then g[parent] else []
  }

  ghost predicate Grouped(es: seq<Entry>, g: Groups) {
    forall q :: GroupedAt(es, g, q)
  }

  predicate GroupedAt(es: seq<Entry>, g: Groups, q: Path) {
    multiset(Kids(g, q)) == multiset(ChildrenOf(es, q))
  }

  // Where the walk stands: l is what is left of the siblings under parent.
  predicate AreChildren(es: seq<Entry>, parent: Path, l: seq<Entry>) {
    forall e | e in l :: e in es && Dirname(e.path) == parent
  }

  lemma KidsAreChildren(es: seq<Entry>, g: Groups, parent: Path)
    requires Grouped(es, g)
    ensures multiset(Kids(g, parent)) == multiset(ChildrenOf(es, parent))
    ensures AreChildren(es, parent, Kids(g, parent))
  {
    assert GroupedAt(es, g, parent);
    forall e | e in Kids(g, parent) ensures e in es && Dirname(e.path) == parent {
      assert e in multiset(Kids(g, parent));
      InChildrenOf(es, parent, e);
    }
  }

  function Longest(es: seq<Entry>): (n: nat)
    ensures forall e | e in es :: |e.path| <= n
  {
    if es == [] then 0
    else if |es[0].path| > Longest(es[1..]) then |es[0].path| else Longest(es[1..])
  }

  // The walk goes down only into directories that have a name.
  predicate Walkable(es: seq<Entry>) {
    forall e | e in es && !e.isFile :: e.path != ""
  }

  // What the walk appends for one parent, and for what is left of its children.

  function Visit(es: seq<Entry>, g: Groups, parent: Path): seq<Entry>
    requires Grouped(es, g) && Walkable(es) && |parent| <= Longest(es)
    decreases Longest(es) - |parent|, 1, 0
  {
    KidsAreChildren(es, g, parent);
    Flatten(es, g, parent, Kids(g, parent))
  }

  function Flatten(es: seq<Entry>, g: Groups, parent: Path, l: seq<Entry>): seq<Entry>
    requires Grouped(es, g) && Walkable(es) && |parent| <= Longest(es) && AreChildren(es, parent, l)
    decreases Longest(es) - |parent|, 0, |l|
  {
    if l == [] then [] else Block(es, g, l[0]) + Flatten(es, g, parent, l[1..])
  }

  function Block(es: seq<Entry>, g: Groups, d: Entry): seq<Entry>
    requires Grouped(es, g) && Walkable(es) && d in es
    decreases Longest(es) - |Dirname(d.path)|, 0, 0
  {
    [d] + if d.isFile then [] else Visit(es, g, d.path)
  }

  // Every path is there once and has a name.
  ghost predicate Distinct(es: seq<Entry>) {
    && NoRepeats(es)
    && (forall e | e in es :: e.path != "")
    && (forall d, e | d in es && e in es && d.path == e.path :: d == e)
  }

  // The parent of every entry is the vault itself or a directory of the list.
  ghost predicate ParentsListed(es: seq<Entry>) {
    forall e | e in es :: Dirname(e.path) == "" || Entry(Dirname(e.path), false) in es
  }

  // q is the directory d or lies beneath it.
  predicate Within(d: Path, q: Path) {
    q == d || Under(d, q)
  }

  // One of these directories holds q.
  ghost predicate Held(l: seq<Entry>, q: Path) {
    exists d | d in l :: !d.isFile && Within(d.path, q)
  }

  // Two entries with the same parent are never on one line.
  lemma SiblingsApart(d: Path, e: Path, q: Path)
    requires d != "" && e != "" && Dirname(d) == Dirname(e) && Within(d, q) && Within(e, q)
    ensures d == e
  {
    if |d| < |e| {
      WithinLonger(d, e, q);
      DirnameIsNearest(d, e);
    } else if |e| < |d| {
      WithinLonger(e, d, q);
      DirnameIsNearest(e, d);
    } else {
      assert d == q[..|d|] && e == q[..|e|];
    }
  }

  lemma WithinLonger(d: Path, e: Path, q: Path)
    requires Within(d, q) && Within(e, q) && |d| < |e|
    ensures Under(d, e)
  {
    if e != q {
      AboveSamePath(d, e, q);
    }
  }

  lemma WithinTransitive(a: Path, b: Path, q: Path)
    requires Within(a, b) && Within(b, q)
    ensures Within(a, q)
  {
    if Under(a, b) && Under(b, q) {
      UnderTransitive(a, b, q);
    }
  }

  // The children of q that lie below parent are reached through one child of parent.
  lemma {:induction false} ReachedThroughAChild(es: seq<Entry>, g: Groups, parent: Path, q: Path)
    requires Grouped(es, g) && Distinct(es) && ParentsListed(es)
    requires q != parent && (parent == "" || Within(parent, q)) && ChildrenOf(es, q) != []
    ensures Held(Kids(g, parent), q)
    decreases |q|
  {
    var e := ChildrenOf(es, q)[0];
    InChildrenOf(es, q, e);
    var d := Entry(q, false);
    assert q != "" && d in es;
    DirnameIsAbove(q);
    if parent != "" {
      DirnameIsNearest(parent, q);
    }
    InChildrenOf(es, Dirname(q), d);
    KidsAreChildren(es, g, parent);
    if Dirname(q) == parent {
      assert d in multiset(Kids(g, parent));
      assert d in Kids(g, parent);
    } else {
      ReachedThroughAChild(es, g, parent, Dirname(q));
      var t :| t in Kids(g, parent) && !t.isFile && Within(t.path, Dirname(q));
      assert t.path != "";
      WithinTransitive(t.path, Dirname(q), q);
    }
  }

  // The walk keeps every group of siblings whole and in its sorted order.

  lemma {:induction false} VisitGroups(es: seq<Entry>, g: Groups, parent: Path, q: Path)
    requires Grouped(es, g) && Distinct(es) && ParentsListed(es) && |parent| <= Longest(es)
    ensures ChildrenOf(Visit(es, g, parent), q)
         == if parent == "" || Within(parent, q) then Kids(g, q) else []
    decreases Longest(es) - |parent|, 1, 0
  {
    var l := Kids(g, parent);
    KidsAreChildren(es, g, parent);
    KidsAreChildren(es, g, q);
    KidsDistinct(es, g, parent);
    FlattenGroups(es, g, parent, l, q);
    if q != parent {
      if parent == "" || Within(parent, q) {
        if ChildrenOf(es, q) == [] {
          assert Kids(g, q) == [];
        } else {
          ReachedThroughAChild(es, g, parent, q);
        }
      } else if Held(l, q) {
        var d :| d in l && !d.isFile && Within(d.path, q);
        DirnameIsAbove(d.path);
        WithinTransitive(parent, d.path, q);
      }
    }
  }

  lemma KidsDistinct(es: seq<Entry>, g: Groups, parent: Path)
    requires Grouped(es, g) && Distinct(es)
    ensures NoRepeats(Kids(g, parent))
  {
    var l := Kids(g, parent);
    KidsAreChildren(es, g, parent);
    forall e | e in l ensures multiset(l)[e] <= 1 {
      ChildrenOfCounts(es, e);
      AtMostOnce(es, e);
    }
    OnceEach(l);
  }

  lemma {:induction false} OnceEach(l: seq<Entry>)
    requires forall e | e in l :: multiset(l)[e] <= 1
    ensures NoRepeats(l)
  {
    if l != [] {
      assert l == [l[0]] + l[1..];
      forall e | e in l[1..] ensures multiset(l[1..])[e] <= 1 && e != l[0] {
        assert multiset(l)[e] <= 1;
        assert e in multiset(l[1..]);
      }
      OnceEach(l[1..]);
      forall i, j | 0 <= i < j < |l| ensures l[i] != l[j] {
        assert l[j] == l[1..][j - 1] && l[j] in l[1..];
        assert i > 0 ==> l[i] == l[1..][i - 1];
      }
    }
  }

  lemma {:induction false} AtMostOnce(es: seq<Entry>, e: Entry)
    requires NoRepeats(es)
    ensures multiset(es)[e] <= 1
  {
    if es != [] {
      AtMostOnce(es[1..], e);
      assert es == [es[0]] + es[1..];
    }
  }

  lemma {:induction false} FlattenGroups(es: seq<Entry>, g: Groups, parent: Path, l: seq<Entry>, q: Path)
    requires Grouped(es, g) && Distinct(es) && ParentsListed(es) && |parent| <= Longest(es)
    requires AreChildren(es, parent, l) && NoRepeats(l)
    ensures ChildrenOf(Flatten(es, g, parent, l), q)
         == if q == parent then l else if Held(l, q) then Kids(g, q) else []
    decreases Longest(es) - |parent|, 0, |l|
  {
    if l != [] {
      var d, rest := l[0], l[1..];
      assert d in l && l == [d] + rest;
      ChildrenOfConcat(Block(es, g, d), Flatten(es, g, parent, rest), q);
      FlattenGroups(es, g, parent, rest, q);
      BlockGroups(es, g, d, q);
      if Within(d.path, q) {
        OnlyHeldOnce(es, parent, l, q);
      }
      assert Held(l, q) <==> (!d.isFile && Within(d.path, q)) || Held(rest, q);
    }
  }

  lemma {:induction false} BlockGroups(es: seq<Entry>, g: Groups, d: Entry, q: Path)
    requires Grouped(es, g) && Distinct(es) && ParentsListed(es) && d in es
    ensures ChildrenOf(Block(es, g, d), q)
         == if q == Dirname(d.path) then [d] else if !d.isFile && Within(d.path, q) then Kids(g, q) else []
    decreases Longest(es) - |Dirname(d.path)|, 0, 0
  {
    if !d.isFile {
      VisitGroups(es, g, d.path, q);
    }
  }

  lemma OnlyHeldOnce(es: seq<Entry>, parent: Path, l: seq<Entry>, q: Path)
    requires Distinct(es) && AreChildren(es, parent, l) && NoRepeats(l) && l != []
    requires Within(l[0].path, q)
    ensures !Held(l[1..], q)
  {
    if Held(l[1..], q) {
      var e :| e in l[1..] && !e.isFile && Within(e.path, q);
      assert l[0] in l && e in l;
      SiblingsApart(l[0].path, e.path, q);
    }
  }

  // Each directory comes right before everything beneath it, with nothing in between.
  ghost predicate PreOrder(s: seq<Entry>) {
    && (forall i, k | 0 <= i < |s| && 0 <= k < |s| && Under(s[i].path, s[k].path) :: i < k)
    && (forall i, j, k | 0 <= i < j < k < |s| && Under(s[i].path, s[k].path) :: Under(s[i].path, s[j].path))
  }

  // No path of one list is above a path of the other.
  ghost predicate Apart(a: seq<Entry>, b: seq<Entry>) {
    forall x, y | x in a && y in b :: !Under(x.path, y.path) && !Under(y.path, x.path)
  }

  lemma PreOrderConcat(a: seq<Entry>, b: seq<Entry>)
    requires PreOrder(a) && PreOrder(b) && Apart(a, b)
    ensures PreOrder(a + b)
  {
    var s := a + b;
    forall i, k | 0 <= i < |s| && 0 <= k < |s| && Under(s[i].path, s[k].path)
      ensures i < k && (forall j | i < j < k :: Under(s[i].path, s[j].path))
    {
      assert forall n | 0 <= n < |s| :: if n < |a| then s[n] in a && s[n] == a[n] else s[n] in b && s[n] == b[n - |a|];
    }
  }

  lemma PreOrderCons(d: Entry, s: seq<Entry>)
    requires PreOrder(s)
    requires forall e | e in s :: Under(d.path, e.path)
    ensures PreOrder([d] + s)
  {
    var t := [d] + s;
    forall i, k | 0 <= i < |t| && 0 <= k < |t| && Under(t[i].path, t[k].path)
      ensures i < k && (forall j | i < j < k :: Under(t[i].path, t[j].path))
    {
      assert forall n | 0 < n < |t| :: t[n] in s && t[n] == s[n - 1];
    }
  }

  // Everything the walk lists lies where the walk went.
  lemma VisitedWithin(es: seq<Entry>, g: Groups, parent: Path, e: Entry)
    requires Grouped(es, g) && Distinct(es) && ParentsListed(es) && |parent| <= Longest(es)
    requires e in Visit(es, g, parent)
    ensures parent == "" || Under(parent, e.path)
    ensures e in es
  {
    var q := Dirname(e.path);
    VisitGroups(es, g, parent, q);
    InChildrenOf(Visit(es, g, parent), q, e);
    KidsAreChildren(es, g, q);
    DirnameIsAbove(e.path);
    if parent != "" {
      WithinTransitive(parent, q, e.path);
    }
  }

  lemma FlattenedWithin(es: seq<Entry>, g: Groups, parent: Path, l: seq<Entry>, e: Entry)
    requires Grouped(es, g) && Distinct(es) && ParentsListed(es) && |parent| <= Longest(es)
    requires AreChildren(es, parent, l) && NoRepeats(l)
    requires e in Flatten(es, g, parent, l)
    ensures exists d | d in l :: Within(d.path, e.path)
  {
    var q := Dirname(e.path);
    FlattenGroups(es, g, parent, l, q);
    InChildrenOf(Flatten(es, g, parent, l), q, e);
    if q != parent {
      var d :| d in l && !d.isFile && Within(d.path, q);
      assert d.path != "";
      DirnameIsAbove(e.path);
      WithinTransitive(d.path, q, e.path);
    }
  }

  // What lies below one sibling is apart from what the walk lists for the later ones.
  lemma FlattenedApart(es: seq<Entry>, g: Groups, parent: Path, l: seq<Entry>, xs: seq<Entry>)
    requires Grouped(es, g) && Distinct(es) && ParentsListed(es) && |parent| <= Longest(es)
    requires AreChildren(es, parent, l) && NoRepeats(l) && l != []
    requires forall x | x in xs :: Within(l[0].path, x.path)
    ensures Apart(xs, Flatten(es, g, parent, l[1..]))
  {
    var d := l[0];
    assert d in l;
    forall x, y | x in xs && y in Flatten(es, g, parent, l[1..])
      ensures !Under(x.path, y.path) && !Under(y.path, x.path)
    {
      FlattenedWithin(es, g, parent, l[1..], y);
      var e :| e in l[1..] && Within(e.path, y.path);
      assert e in l && e.path != d.path;
      LinesApart(d.path, x.path, e.path, y.path);
    }
  }

  lemma LinesApart(d: Path, x: Path, e: Path, y: Path)
    requires d != "" && e != "" && d != e && Dirname(d) == Dirname(e) && Within(d, x) && Within(e, y)
    ensures !Under(x, y) && !Under(y, x)
  {
    if Under(x, y) {
      WithinTransitive(d, x, y);
      SiblingsApart(d, e, y);
    }
    if Under(y, x) {
      WithinTransitive(e, y, x);
      SiblingsApart(d, e, x);
    }
  }

  lemma {:induction false} VisitIsPreOrder(es: seq<Entry>, g: Groups, parent: Path)
    requires Grouped(es, g) && Distinct(es) && ParentsListed(es) && |parent| <= Longest(es)
    ensures PreOrder(Visit(es, g, parent))
    decreases Longest(es) - |parent|, 1, 0
  {
    KidsAreChildren(es, g, parent);
    KidsDistinct(es, g, parent);
    FlattenIsPreOrder(es, g, parent, Kids(g, parent));
  }

  lemma {:induction false} FlattenIsPreOrder(es: seq<Entry>, g: Groups, parent: Path, l: seq<Entry>)
    requires Grouped(es, g) && Distinct(es) && ParentsListed(es) && |parent| <= Longest(es)
    requires AreChildren(es, parent, l) && NoRepeats(l)
    ensures PreOrder(Flatten(es, g, parent, l))
    decreases Longest(es) - |parent|, 0, |l|
  {
    if l != [] {
      assert l[0] in l;
      BlockIsPreOrder(es, g, l[0]);
      FlattenIsPreOrder(es, g, parent, l[1..]);
      FlattenedApart(es, g, parent, l, Block(es, g, l[0]));
      PreOrderConcat(Block(es, g, l[0]), Flatten(es, g, parent, l[1..]));
    }
  }

  lemma {:induction false} BlockIsPreOrder(es: seq<Entry>, g: Groups, d: Entry)
    requires Grouped(es, g) && Distinct(es) && ParentsListed(es) && d in es
    ensures PreOrder(Block(es, g, d))
    ensures forall e | e in Block(es, g, d) :: Within(d.path, e.path)
    decreases Longest(es) - |Dirname(d.path)|, 0, 0
  {
    if !d.isFile {
      var below := Visit(es, g, d.path);
      VisitIsPreOrder(es, g, d.path);
      forall e | e in below ensures Under(d.path, e.path) {
        VisitedWithin(es, g, d.path, e);
      }
      PreOrderCons(d, below);
    }
  }

  // The list shown: every entry once, each directory right before its whole subtree, and
  // the children of every directory in the sorted order.
  lemma WholeTreeInOrder(es: seq<Entry>, g: Groups)
    requires Grouped(es, g) && Distinct(es) && ParentsListed(es)
    ensures multiset(Visit(es, g, "")) == multiset(es)
    ensures PreOrder(Visit(es, g, ""))
    ensures forall q :: ChildrenOf(Visit(es, g, ""), q) == Kids(g, q)
  {
    var out := Visit(es, g, "");
    VisitIsPreOrder(es, g, "");
    forall q ensures ChildrenOf(out, q) == Kids(g, q) {
      VisitGroups(es, g, "", q);
    }
    forall e ensures multiset(out)[e] == multiset(es)[e] {
      ChildrenOfCounts(out, e);
      ChildrenOfCounts(es, e);
      KidsAreChildren(es, g, Dirname(e.path));
    }
  }

  // An entry whose parent is not in the list is never shown, so the list is complete
  // exactly when every parent is in it.

  lemma {:induction false} VisitedParentsListed(es: seq<Entry>, g: Groups, parent: Path, e: Entry)
    requires Grouped(es, g) && Walkable(es) && |parent| <= Longest(es) && e in Visit(es, g, parent)
    ensures Dirname(e.path) == parent || Entry(Dirname(e.path), false) in es
    decreases Longest(es) - |parent|, 1, 0
  {
    KidsAreChildren(es, g, parent);
    FlattenedParentsListed(es, g, parent, Kids(g, parent), e);
  }

  lemma {:induction false} FlattenedParentsListed(es: seq<Entry>, g: Groups, parent: Path, l: seq<Entry>, e: Entry)
    requires Grouped(es, g) && Walkable(es) && |parent| <= Longest(es) && AreChildren(es, parent, l)
    requires e in Flatten(es, g, parent, l)
    ensures Dirname(e.path) == parent || Entry(Dirname(e.path), false) in es
    decreases Longest(es) - |parent|, 0, |l|
  {
    var d := l[0];
    assert d in l;
    if e in Flatten(es, g, parent, l[1..]) {
      FlattenedParentsListed(es, g, parent, l[1..], e);
    } else if e != d {
      assert e in Block(es, g, d);
      VisitedParentsListed(es, g, d.path, e);
      assert d == Entry(d.path, false);
    }
  }

  lemma CompleteExactlyWhen(es: seq<Entry>, g: Groups)
    requires Grouped(es, g) && Distinct(es)
    ensures multiset(Visit(es, g, "")) == multiset(es) <==> ParentsListed(es)
  {
    if ParentsListed(es) {
      WholeTreeInOrder(es, g);
    } else if multiset(Visit(es, g, "")) == multiset(es) {
      forall e | e in es ensures Dirname(e.path) == "" || Entry(Dirname(e.path), false) in es {
        assert e in multiset(es);
        VisitedParentsListed(es, g, "", e);
      }
    }
  }

  // The code: positions and children are collected in maps, each group is sorted, and a
  // recursive walk appends to the list.

  method OrderByPath(entryOrder: seq<Path>) returns (order: map<Path, nat>)
    ensures forall p :: p in order <==> p in entryOrder
    ensures forall p | p in order :: order[p] < |entryOrder| && entryOrder[order[p]] == p && p !in entryOrder[order[p] + 1..]
  {
    order := map[];
    for i := 0 to |entryOrder|
      invariant forall p :: p in order <==> p in entryOrder[..i]
      invariant forall p | p in order :: order[p] < i && entryOrder[order[p]] == p && p !in entryOrder[order[p] + 1..i]
    {
      order := order[entryOrder[i] := i];
    }
    assert entryOrder[..|entryOrder|] == entryOrder;
    forall p | p in order ensures p !in entryOrder[order[p] + 1..] {
      assert entryOrder[order[p] + 1..] == entryOrder[order[p] + 1..|entryOrder|];
    }
  }

  method GroupByParent(es: seq<Entry>) returns (children: Groups)
    ensures forall q :: Kids(children, q) == ChildrenOf(es, q)
  {
    children := map[];
    for i := 0 to |es|
      invariant forall q :: Kids(children, q) == ChildrenOf(es[..i], q)
    {
      var parent := Dirname(es[i].path);
      var siblings := if parent in children then children[parent] else [];
      ghost var before := children;
      children := children[parent := siblings + [es[i]]];
      forall q ensures Kids(children, q) == ChildrenOf(es[..i + 1], q) {
        assert es[..i + 1] == es[..i] + [es[i]];
        ChildrenOfConcat(es[..i], [es[i]], q);
        assert Kids(children, q) == Kids(before, q) + if q == parent then [es[i]] else [];
      }
    }
    assert es[..|es|] == es;
  }

  method SortGroups(c: Comparator, grouped: Groups) returns (children: Groups)
    ensures forall q :: Kids(children, q) == Sort(c.Leq, Kids(grouped, q))
  {
    children := grouped;
    var parents := children.Keys;
    while parents != {}
      invariant children.Keys == grouped.Keys && parents <= children.Keys
      invariant forall q | q in children :: children[q] == if q in parents then grouped[q] else Sort(c.Leq, grouped[q])
      decreases |parents|
    {
      var q :| q in parents;
      children := children[q := Sort(c.Leq, children[q])];
      parents := parents - {q};
    }
  }

  method VisitInto(ghost es: seq<Entry>, children: Groups, parent: Path, ordered0: seq<Entry>)
    returns (ordered: seq<Entry>)
    requires Grouped(es, children) && Walkable(es) && |parent| <= Longest(es)
    ensures ordered == ordered0 + Visit(es, children, parent)
    decreases Longest(es) - |parent|, 1
  {
    KidsAreChildren(es, children, parent);
    var siblings := if parent in children then children[parent] else [];
    ordered := ordered0;
    ghost var all := ordered0 + Visit(es, children, parent);
    ghost var left := siblings;
    for i := 0 to |siblings|
      invariant left == siblings[i..] && AreChildren(es, parent, left)
      invariant ordered + Flatten(es, children, parent, left) == all
    {
      assert siblings[i] == left[0] && left[0] in left;
      ghost var before := ordered;
      ordered := VisitEntry(es, children, siblings[i], ordered);
      FlattenNext(es, children, parent, left, before, ordered);
      left := left[1..];
    }
  }

  method VisitEntry(ghost es: seq<Entry>, children: Groups, entry: Entry, ordered0: seq<Entry>)
    returns (ordered: seq<Entry>)
    requires Grouped(es, children) && Walkable(es) && entry in es
    ensures ordered == ordered0 + Block(es, children, entry)
    decreases Longest(es) - |Dirname(entry.path)|, 0
  {
    ordered := ordered0 + [entry];
    if !entry.isFile {
      ordered := VisitInto(es, children, entry.path, ordered);
    }
  }

  lemma FlattenNext(es: seq<Entry>, g: Groups, parent: Path, l: seq<Entry>, before: seq<Entry>, after: seq<Entry>)
    requires Grouped(es, g) && Walkable(es) && |parent| <= Longest(es) && AreChildren(es, parent, l)
    requires l != [] && l[0] in es
    requires after == before + Block(es, g, l[0])
    ensures AreChildren(es, parent, l[1..])
    ensures after + Flatten(es, g, parent, l[1..]) == before + Flatten(es, g, parent, l)
  {
    Associative(before, Block(es, g, l[0]), Flatten(es, g, parent, l[1..]));
  }

  lemma Associative(a: seq<Entry>, b: seq<Entry>, c: seq<Entry>)
    ensures (a + b) + c == a + (b + c)
  {
  }

  method OrderEntries(es: seq<Entry>, entryOrder: seq<Path>, nameLeq: (string, string) -> bool)
    returns (ordered: seq<Entry>, ghost c: Comparator)
    requires Walkable(es)
    requires forall a, b :: nameLeq(a, b) || nameLeq(b, a)
    requires forall a, b, c :: nameLeq(a, b) && nameLeq(b, c) ==> nameLeq(a, c)
    ensures c.Valid() && c.nameLeq == nameLeq
    ensures forall p :: p in c.order <==> p in entryOrder
    ensures forall p | p in c.order :: c.order[p] < |entryOrder| && entryOrder[c.order[p]] == p
    ensures Distinct(es) ==> (multiset(ordered) == multiset(es) <==> ParentsListed(es))
    ensures Distinct(es) && ParentsListed(es) ==>
      PreOrder(ordered) && forall q :: ChildrenOf(ordered, q) == Siblings(c, es, q)
  {
    var order := OrderByPath(entryOrder);
    var cmp := Comparator(order, nameLeq);
    c := cmp;
    var grouped := GroupByParent(es);
    var children := SortGroups(cmp, grouped);
    SortedStaysGrouped(cmp, es, children);
    ordered := VisitInto(es, children, "", []);
    assert ordered == Visit(es, children, "");
    WalkShowsAll(cmp, es, children);
  }

  lemma WalkShowsAll(c: Comparator, es: seq<Entry>, g: Groups)
    requires Grouped(es, g) && Walkable(es) && forall q :: Kids(g, q) == Siblings(c, es, q)
    ensures Distinct(es) ==> (multiset(Visit(es, g, "")) == multiset(es) <==> ParentsListed(es))
    ensures Distinct(es) && ParentsListed(es) ==>
      PreOrder(Visit(es, g, "")) && forall q :: ChildrenOf(Visit(es, g, ""), q) == Siblings(c, es, q)
  {
    if Distinct(es) {
      CompleteExactlyWhen(es, g);
      if ParentsListed(es) {
        WholeTreeInOrder(es, g);
      }
    }
  }

  lemma SortedStaysGrouped(c: Comparator, es: seq<Entry>, g: Groups)
    requires c.Valid() && forall q :: Kids(g, q) == Siblings(c, es, q)
    ensures Grouped(es, g)
  {
    forall q ensures GroupedAt(es, g, q) {
      ComparesAll(c);
    SortSorts(c.Leq, ChildrenOf(es, q), Entry("", true));
    }
  }
}
