// simpleDiff: the one-hunk difference between two texts that status prints for a file.

module SimpleDiff {
  import opened Lines
  import opened Wrappers

  function Split(s: string): (r: seq<string>)
    ensures r != []
  {
    if s == "" then [""]
    else
      var rest := Split(s[1..]);
      if s[0] == '\n' then [""] + rest else [[s[0]] + rest[0]] + rest[1..]
  }

  lemma {:induction false} JoinSplit(s: string)
    ensures Join(Split(s)) == s
    ensures forall line | line in Split(s) :: '\n' !in line
  {
    if s != "" {
      JoinSplit(s[1..]);
      var rest := Split(s[1..]);
      if s[0] == '\n' {
        assert ([""] + rest)[1..] == rest;
      } else {
        assert ([[s[0]] + rest[0]] + rest[1..])[1..] == rest[1..];
      }
      assert s == [s[0]] + s[1..];
    }
  }

  // Lines that are joined are cut again where they were joined.
  lemma {:induction false} SplitJoin(lines: seq<string>)
    requires lines != [] && forall line | line in lines :: '\n' !in line
    ensures Split(Join(lines)) == lines
  {
    var line := lines[0];
    assert line in lines;
    if |lines| == 1 {
      SplitLine(line, "");
      assert line + "" == line && [line] + Split("")[1..] == lines;
    } else {
      var more := "\n" + Join(lines[1..]);
      SplitJoin(lines[1..]);
      SplitLine(line, more);
      assert more[0] == '\n' && more[1..] == Join(lines[1..]);
      assert Split(more) == [""] + lines[1..];
      assert line + "" == line && ([""] + lines[1..])[1..] == lines[1..];
      assert Join(lines) == line + more;
    }
  }

  lemma {:induction false} SplitLine(line: string, rest: string)
    requires '\n' !in line
    ensures Split(line + rest) == [line + Split(rest)[0]] + Split(rest)[1..]
  {
    var r := Split(rest);
    if line == "" {
      assert line + rest == rest && line + r[0] == r[0];
    } else {
      SplitLine(line[1..], rest);
      var s := line + rest;
      assert s[0] == line[0] && s[1..] == line[1..] + rest;
      var inner := [line[1..] + r[0]] + r[1..];
      assert inner[0] == line[1..] + r[0] && inner[1..] == r[1..];
      assert [line[0]] + (line[1..] + r[0]) == line + r[0];
    }
  }

  // Lines counted from 1: the removed lines start at `at`, the added ones take their place.
  datatype Hunk = Hunk(at: nat, removed: seq<string>, added: seq<string>)

  ghost predicate AppliesTo(h: Hunk, lines: seq<string>) {
    && 1 <= h.at && h.at - 1 + |h.removed| <= |lines|
    && lines[h.at - 1..h.at - 1 + |h.removed|] == h.removed
  }

  function Apply(h: Hunk, lines: seq<string>): seq<string>
    requires AppliesTo(h, lines)
  {
    lines[..h.at - 1] + h.added + lines[h.at - 1 + |h.removed|..]
  }

  // The same hunk read backwards.
  function Inverse(h: Hunk): Hunk {
    Hunk(h.at, h.added, h.removed)
  }

  // No line at either edge could have been left out of the hunk.
  ghost predicate Tight(h: Hunk) {
    h.removed != [] && h.added != [] ==>
      h.removed[0] != h.added[0] && h.removed[|h.removed| - 1] != h.added[|h.added| - 1]
  }

  // How many lines two texts share at the start and, of what is left, at the end.
  method SharedEdges(before: seq<string>, after: seq<string>) returns (prefix: nat, suffix: nat)
    ensures prefix + suffix <= |before| && prefix + suffix <= |after|
    ensures before[..prefix] == after[..prefix] && before[|before| - suffix..] == after[|after| - suffix..]
    ensures prefix + suffix < |before| && prefix + suffix < |after| ==>
      before[prefix] != after[prefix] && before[|before| - 1 - suffix] != after[|after| - 1 - suffix]
  {
    prefix := 0;
    while prefix < |before| && prefix < |after| && before[prefix] == after[prefix]
      invariant prefix <= |before| && prefix <= |after|
      invariant forall i | 0 <= i < prefix :: before[i] == after[i]
    {
      prefix := prefix + 1;
    }
    suffix := 0;
    while suffix < |before| - prefix && suffix < |after| - prefix
        && before[|before| - 1 - suffix] == after[|after| - 1 - suffix]
      invariant suffix <= |before| - prefix && suffix <= |after| - prefix
      invariant before[|before| - suffix..] == after[|after| - suffix..]
    {
      ghost var b, a := |before| - 1 - suffix, |after| - 1 - suffix;
      assert before[b..] == [before[b]] + before[b + 1..] && after[a..] == [after[a]] + after[a + 1..];
      suffix := suffix + 1;
    }
  }

  lemma OneHunk(before: seq<string>, after: seq<string>, prefix: nat, suffix: nat)
    requires prefix + suffix <= |before| && prefix + suffix <= |after|
    requires before[..prefix] == after[..prefix] && before[|before| - suffix..] == after[|after| - suffix..]
    ensures var h := Hunk(prefix + 1, before[prefix..|before| - suffix], after[prefix..|after| - suffix]);
      && AppliesTo(h, before) && Apply(h, before) == after
      && AppliesTo(Inverse(h), after) && Apply(Inverse(h), after) == before
      && (h.removed == [] && h.added == [] ==> before == after)
  {
    assert after == after[..prefix] + after[prefix..|after| - suffix] + after[|after| - suffix..];
    assert before == before[..prefix] + before[prefix..|before| - suffix] + before[|before| - suffix..];
  }

  // The hunk turns one list of lines into the other and back, and neither edge could be cut.
  ghost predicate Explains(h: Hunk, before: seq<string>, after: seq<string>) {
    && AppliesTo(h, before) && Apply(h, before) == after
    && AppliesTo(Inverse(h), after) && Apply(Inverse(h), after) == before
    && Tight(h)
  }

  method DiffLines(before: seq<string>, after: seq<string>) returns (h: Hunk)
    ensures Explains(h, before, after)
    ensures before != after ==> h.removed != [] || h.added != []
  {
    var prefix, suffix := SharedEdges(before, after);
    OneHunk(before, after, prefix, suffix);
    h := Hunk(prefix + 1, before[prefix..|before| - suffix], after[prefix..|after| - suffix]);
  }

  method Diff(base: string, local: string) returns (r: Option<Hunk>)
    ensures r.None? <==> base == local
    ensures r.Some? ==> Explains(r.value, Split(base), Split(local)) && (r.value.removed != [] || r.value.added != [])
  {
    if base == local {
      return None;
    }
    var h := DiffLines(Split(base), Split(local));
    SplitApart(base, local);
    r := Some(h);
  }

  lemma SplitApart(a: string, b: string)
    requires a != b
    ensures Split(a) != Split(b)
  {
    JoinSplit(a);
    JoinSplit(b);
  }

  // So patching the old text with the hunk gives the new text, and undoing it the old one.
  lemma PatchGivesText(h: Hunk, base: string, local: string)
    requires Explains(h, Split(base), Split(local))
    ensures Join(Apply(h, Split(base))) == local && Join(Apply(Inverse(h), Split(local))) == base
  {
    JoinSplit(base);
    JoinSplit(local);
  }
}
