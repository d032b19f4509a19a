// renderCatalog: as many memory lines as fit a fixed number of characters, with a footer
// that counts the rest.

module Catalog {
  import opened Lines

  const CATALOG_MAX_CHARS := 3_900

  const HEADER := "Memory index\n" +
    "The entries below are summaries, not full records. Use `kaioken memory search <query> --scope all --json` and " +
    "`kaioken memory get <id> --json` to progressively disclose details.\n" +
    "You may proactively save durable learning with `kaioken memory add`. Use project scope for repository-specific facts " +
    "and global scope only for broadly applicable user preferences or workflows. Never store secrets, transient status, " +
    "guesses, or rules already guaranteed by AGENTS.md.\n"

  const FOR_THE_REST := "; run `kaioken memory catalog --scope all --json` for the rest."

  const EMPTY_NOTE := "No memories are stored yet."

  // More rows than any database holds.
  const MAX_ROWS := 0x8000_0000_0000_0000

  function Digits(n: nat): string {
    if n < 10 then [('0' as int + n) as char] else Digits(n / 10) + [('0' as int + n % 10) as char]
  }

  // A number in decimal digits, without leading zeros.
  ghost predicate Spells(digits: string, n: nat) {
    && digits != "" && (forall c | c in digits :: '0' <= c <= '9') && ValueOf(digits) == n
    && (|digits| > 1 ==> digits[0] != '0')
  }

  ghost function ValueOf(digits: string): int {
    if digits == "" then 0 else 10 * ValueOf(digits[..|digits| - 1]) + (digits[|digits| - 1] as int - '0' as int)
  }

  lemma {:induction false} DigitsSpell(n: nat)
    ensures Spells(Digits(n), n)
  {
    if n >= 10 {
      var front := Digits(n / 10);
      DigitsSpell(n / 10);
      assert Digits(n)[..|front|] == front;
      if |front| == 1 {
        assert ValueOf(front[..0]) == 0;
      }
    } else {
      assert Digits(n)[..0] == "";
    }
  }

  function Footer(shown: nat, total: nat): string {
    if shown < total then "\nShowing " + Digits(shown) + " of " + Digits(total) + FOR_THE_REST else ""
  }

  // The footer as it depends on the number of lines shown.
  function FooterOf(total: nat): nat -> string {
    (shown: nat) => Footer(shown, total)
  }

  // The catalogue with the first k lines.
  function Page(header: string, lines: seq<string>, footer: nat -> string, k: nat): string
    requires k <= |lines|
  {
    header + Join(lines[..k]) + footer(k)
  }

  predicate Fits(header: string, lines: seq<string>, footer: nat -> string, k: nat)
    requires k <= |lines|
  {
    |Page(header, lines, footer, k)| <= CATALOG_MAX_CHARS
  }

  lemma {:induction false} JoinIsMonotone(lines: seq<string>, j: nat, k: nat)
    requires j <= k <= |lines|
    ensures |Join(lines[..j])| <= |Join(lines[..k])|
    decreases k - j
  {
    if j < k {
      JoinGrows(lines[..j], lines[j]);
      assert lines[..j + 1] == lines[..j] + [lines[j]];
      JoinIsMonotone(lines, j + 1, k);
    }
  }

  function Pow10(k: nat): nat {
    if k == 0 then 1 else 10 * Pow10(k - 1)
  }

  lemma {:induction false} DigitCount(n: nat, k: nat)
    requires k >= 1 && n < Pow10(k)
    ensures |Digits(n)| <= k
  {
    if n >= 10 {
      assert k > 1;
      DigitCount(n / 10, k - 1);
    }
  }

  lemma HeaderFits(total: nat)
    requires total <= MAX_ROWS
    ensures |HEADER| + |Footer(0, total)| <= CATALOG_MAX_CHARS
    ensures |HEADER| + |EMPTY_NOTE| <= CATALOG_MAX_CHARS
  {
    assert total < Pow10(19) by {
      assert Pow10(5) == 100_000;
      assert Pow10(10) == 10_000_000_000;
      assert Pow10(15) == 1_000_000_000_000_000;
      assert Pow10(19) == 10_000_000_000_000_000_000;
    }
    DigitCount(total, 19);
  }

  ghost predicate IsLongestPage(header: string, lines: seq<string>, footer: nat -> string, shown: nat, text: string) {
    && shown <= |lines|
    && text == Page(header, lines, footer, shown)
    && Fits(header, lines, footer, shown)
    && (forall k | shown < k <= |lines| :: !Fits(header, lines, footer, k))
  }

  // The page ends with how many of how many lines it shows, and how to see the rest.
  ghost predicate TellsTheRest(text: string, page: string, shown: nat, total: nat) {
    exists some, all | Spells(some, shown) && Spells(all, total) ::
      text == page + ("\nShowing " + some + " of " + all + "; run `kaioken memory catalog --scope all --json` for the rest.")
  }

  // lines holds one rendered line for each listed memory; total counts them all. The
  // result shows the longest prefix that fits together with its own footer, and the
  // footer is absent exactly when nothing is left out.
  method RenderCatalog(lines: seq<string>, total: nat) returns (text: string)
    requires |lines| <= total <= MAX_ROWS
    ensures |text| <= CATALOG_MAX_CHARS
    ensures lines == [] ==> text == HEADER + EMPTY_NOTE
    ensures lines != [] ==> exists shown: nat ::
      && IsLongestPage(HEADER, lines, FooterOf(total), shown, text)
      && (text == HEADER + Join(lines[..shown]) <==> shown == total)
      && (shown < total ==> TellsTheRest(text, HEADER + Join(lines[..shown]), shown, total))
  {
    HeaderFits(total);
    if lines == [] {
      text := HEADER + EMPTY_NOTE;
      return;
    }
    text := FillPage(HEADER, lines, FooterOf(total));
    ghost var shown: nat :| IsLongestPage(HEADER, lines, FooterOf(total), shown, text);
    assert |text| == |HEADER + Join(lines[..shown])| + |Footer(shown, total)|;
    DigitsSpell(shown);
    DigitsSpell(total);
    assert shown < total ==> TellsTheRest(text, HEADER + Join(lines[..shown]), shown, total) by {
      assert shown < total ==> text == HEADER + Join(lines[..shown]) + ("\nShowing " + Digits(shown) + " of " + Digits(total) + FOR_THE_REST);
    }
  }

  method FillPage(header: string, lines: seq<string>, footer: nat -> string) returns (text: string)
    requires |header| + |footer(0)| <= CATALOG_MAX_CHARS
    ensures exists shown: nat :: IsLongestPage(header, lines, footer, shown, text)
  {
    // Lines are kept while the page fits without a footer.
    var kept: seq<string> := [];
    while |kept| < |lines|
      invariant |kept| <= |lines| && kept == lines[..|kept|]
    {
      var longer := kept + [lines[|kept|]];
      assert longer == lines[..|kept| + 1];
      if |header + Join(longer)| > CATALOG_MAX_CHARS {
        NothingLongerFits(header, lines, footer, |kept|);
        break;
      }
      kept := longer;
    }
    // Lines are dropped again until the footer fits too.
    var final := kept;
    text := header + Join(final) + footer(|final|);
    while |text| > CATALOG_MAX_CHARS
      invariant |final| <= |kept| && final == lines[..|final|] && text == Page(header, lines, footer, |final|)
      invariant forall k | |final| < k <= |lines| :: !Fits(header, lines, footer, k)
      decreases |final|
    {
      NoLinesFit(header, lines, footer);
      assert !Fits(header, lines, footer, |final|);
      final := final[..|final| - 1];
      text := header + Join(final) + footer(|final|);
    }
    assert IsLongestPage(header, lines, footer, |final|, text);
  }

  lemma NoLinesFit(header: string, lines: seq<string>, footer: nat -> string)
    requires |header| + |footer(0)| <= CATALOG_MAX_CHARS
    ensures Fits(header, lines, footer, 0)
  {
    assert lines[..0] == [];
  }

  lemma NothingLongerFits(header: string, lines: seq<string>, footer: nat -> string, kept: nat)
    requires kept < |lines| && |header + Join(lines[..kept + 1])| > CATALOG_MAX_CHARS
    ensures forall k | kept < k <= |lines| :: !Fits(header, lines, footer, k)
  {
    forall k | kept < k <= |lines| ensures !Fits(header, lines, footer, k) {
      JoinIsMonotone(lines, kept + 1, k);
    }
  }
}
