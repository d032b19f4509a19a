// The search box of the GitHub plugin: how a query is cut into tokens and read, and what
// the suggestions insert into it.

module QueryLogic {
  import opened Wrappers
  import opened Paths

  // White space as the regular expressions of the source's language see it.
  predicate IsSpace(c: char) {
    || c == ' ' || c == '\t' || c == '\n' || c == '\r' || c == '\U{0b}' || c == '\U{0c}' || c == '\U{a0}' || c == '\U{feff}'
    || c == '\U{1680}' || '\U{2000}' <= c <= '\U{200a}' || c == '\U{2028}' || c == '\U{2029}'
    || c == '\U{202f}' || c == '\U{205f}' || c == '\U{3000}'
  }

  predicate IsPlain(c: char) {
    !IsSpace(c) && c != '"'
  }

  function IndexOf(s: string, c: char): (r: Option<nat>)
    ensures r.Some? ==> r.value < |s| && s[r.value] == c && c !in s[..r.value]
    ensures r.None? ==> c !in s
  {
    if s == "" then None
    else if s[0] == c then Some(0)
    else match IndexOf(s[1..], c)
      case None => None
      case Some(k) =>
        assert s[..k + 1] == [s[0]] + s[1..][..k];
        Some(k + 1)
  }

  // The length of the token at the start of q: runs of plain characters and closed quotes.
  // A quote that is never closed ends it.
  function TokenLength(q: string): (n: nat)
    ensures n <= |q|
  {
    if q == "" || IsSpace(q[0]) then 0
    else if q[0] != '"' then 1 + TokenLength(q[1..])
    else match IndexOf(q[1..], '"')
      case None => 0
      case Some(k) => k + 2 + TokenLength(q[k + 2..])
  }

  // The whole of t is plain characters and closed quotes: (?:[^\s"]+|"[^"]*")*
  ghost predicate FitsPattern(t: string)
    decreases |t|
  {
    || t == ""
    || (IsPlain(t[0]) && FitsPattern(t[1..]))
    || (exists k | 1 <= k < |t| :: QuotedUntil(t, k) && FitsPattern(t[k + 1..]))
  }

  predicate QuotedUntil(t: string, k: int) {
    1 <= k < |t| && t[0] == '"' && t[k] == '"' && forall i | 0 < i < k :: t[i] != '"'
  }

  // A token is the longest piece at the start of the text that fits the pattern.
  lemma {:induction false} TokenIsLongestMatch(q: string, m: nat)
    requires m <= |q|
    ensures FitsPattern(q[..TokenLength(q)])
    ensures FitsPattern(q[..m]) ==> m <= TokenLength(q)
    decreases |q|
  {
    var n := TokenLength(q);
    if q == "" || IsSpace(q[0]) {
    } else if q[0] != '"' {
      TokenIsLongestMatch(q[1..], if m > 0 then m - 1 else 0);
      assert q[..n][1..] == q[1..][..n - 1];
      assert m > 0 ==> q[..m][1..] == q[1..][..m - 1];
    } else {
      QuotedTokenIsLongestMatch(q, m);
    }
  }

  lemma {:induction false} QuotedTokenIsLongestMatch(q: string, m: nat)
    requires m <= |q| && q != "" && q[0] == '"'
    ensures FitsPattern(q[..TokenLength(q)])
    ensures FitsPattern(q[..m]) ==> m <= TokenLength(q)
    decreases |q|, 0
  {
    match IndexOf(q[1..], '"') {
      case None =>
        OpenQuoteFitsNothing(q, m);
        assert FitsPattern(q[..0]);
      case Some(i) =>
        var rest := q[i + 2..];
        TokenIsLongestMatch(rest, if m > i + 2 then m - (i + 2) else 0);
        QuoteThenRest(q, i, TokenLength(rest));
        NoLongerThanRest(q, i, m);
    }
  }

  lemma NoLongerThanRest(q: string, i: nat, m: nat)
    requires m <= |q| && q != "" && q[0] == '"' && IndexOf(q[1..], '"') == Some(i)
    requires m > i + 2 && FitsPattern(q[i + 2..][..m - (i + 2)]) ==> m - (i + 2) <= TokenLength(q[i + 2..])
    ensures FitsPattern(q[..m]) ==> m <= i + 2 + TokenLength(q[i + 2..])
  {
    if m > 0 && FitsPattern(q[..m]) {
      MatchClosesQuote(q, i, m);
    }
  }

  lemma OpenQuoteFitsNothing(q: string, m: nat)
    requires m <= |q| && q != "" && q[0] == '"' && IndexOf(q[1..], '"').None?
    ensures FitsPattern(q[..m]) ==> m == 0
  {
    ClosingQuote(q);
    if m > 0 {
      forall k ensures !QuotedUntil(q[..m], k) {
        assert QuotedUntil(q[..m], k) ==> QuotedUntil(q, k);
      }
    }
  }

  // A closed quote and a match after it are a match.
  lemma QuoteThenRest(q: string, i: nat, n: nat)
    requires q != "" && q[0] == '"' && IndexOf(q[1..], '"') == Some(i)
    requires i + 2 + n <= |q| && FitsPattern(q[i + 2..][..n])
    ensures FitsPattern(q[..i + 2 + n])
  {
    var t := q[..i + 2 + n];
    ClosingQuote(q);
    assert QuotedUntil(q, i + 1);
    assert QuotedUntil(t, i + 1);
    DropOfTake(q, i + 2, i + 2 + n);
  }

  // A match of a text that opens a quote goes as far as the closing one, and on from there.
  lemma MatchClosesQuote(q: string, i: nat, m: nat)
    requires 0 < m <= |q| && q[0] == '"' && IndexOf(q[1..], '"') == Some(i) && FitsPattern(q[..m])
    ensures i + 2 <= m && FitsPattern(q[i + 2..][..m - (i + 2)])
  {
    var k :| 1 <= k < m && QuotedUntil(q[..m], k) && FitsPattern(q[..m][k + 1..]);
    ClosingQuote(q);
    assert QuotedUntil(q, k);
    DropOfTake(q, i + 2, m);
  }

  // The quote that closes the one at the start is the next one.
  lemma ClosingQuote(q: string)
    requires q != "" && q[0] == '"'
    ensures match IndexOf(q[1..], '"')
      case None => forall k :: !QuotedUntil(q, k)
      case Some(i) => forall k :: QuotedUntil(q, k) <==> k == i + 1
  {
    var s := q[1..];
    assert forall k | 1 <= k < |q| :: q[k] == s[k - 1];
    match IndexOf(s, '"') {
      case None =>
      case Some(i) => assert forall j | 0 <= j < i :: s[j] == s[..i][j];
    }
  }

  lemma DropOfTake(q: string, a: nat, b: nat)
    requires a <= b <= |q|
    ensures q[..b][a..] == q[a..][..b - a]
  {
  }

  function TokenizeQuery(q: string): seq<string> {
    if q == "" then []
    else
      var n := TokenLength(q);
      if n > 0 then [q[..n]] + TokenizeQuery(q[n..]) else TokenizeQuery(q[1..])
  }

  // The tokens are the global match of the pattern: the first place where it matches
  // anything gives the first token, and the search goes on behind it.
  lemma FirstMatchComesFirst(q: string, i: nat)
    requires i < |q| && TokenLength(q[i..]) > 0 && forall j | 0 <= j < i :: TokenLength(q[j..]) == 0
    ensures var t := q[i..];
            TokenizeQuery(q) == [t[..TokenLength(t)]] + TokenizeQuery(t[TokenLength(t)..])
  {
    NoMatchIsPassedOver(q, i);
  }

  lemma {:induction false} NoMatchIsPassedOver(q: string, i: nat)
    requires i <= |q| && forall j | 0 <= j < i :: TokenLength(q[j..]) == 0
    ensures TokenizeQuery(q) == TokenizeQuery(q[i..])
  {
    assert q[0..] == q;
    if i > 0 {
      NoMatchIsPassedOver(q, i - 1);
      assert TokenLength(q[i - 1..]) == 0;
      assert q[i - 1..][1..] == q[i..];
    }
  }

  lemma NoMatchNoToken(q: string)
    requires forall j | 0 <= j < |q| :: TokenLength(q[j..]) == 0
    ensures TokenizeQuery(q) == []
  {
    NoMatchIsPassedOver(q, |q|);
  }

  function Unquote(s: string): string {
    if s == "" then "" else if s[0] == '"' then Unquote(s[1..]) else [s[0]] + Unquote(s[1..])
  }

  function UpperChar(c: char): char {
    if 'a' <= c <= 'z' then (c as int - 32) as char else c
  }

  function Upper(s: string): string {
    seq(|s|, i requires 0 <= i < |s| => UpperChar(s[i]))
  }

  function StateOf(value: string): string {
    var v := Lower(value);
    if v == "open" then "OPEN" else if v == "closed" then "CLOSED" else if v == "merged" then "MERGED" else Upper(value)
  }

  datatype Field = States | Assignees | Authors | Labels | Repos

  datatype ParsedQuery = ParsedQuery(states: seq<string>, assignees: seq<string>, authors: seq<string>,
    labels: seq<string>, repos: seq<string>, noAssignee: bool, noLabel: bool, text: seq<string>)
  {
    function Get(f: Field): seq<string> {
      match f
      case States => states
      case Assignees => assignees
      case Authors => authors
      case Labels => labels
      case Repos => repos
    }

    function Push(f: Field, value: string): ParsedQuery {
      match f
      case States => this.(states := states + [value])
      case Assignees => this.(assignees := assignees + [value])
      case Authors => this.(authors := authors + [value])
      case Labels => this.(labels := labels + [value])
      case Repos => this.(repos := repos + [value])
    }
  }

  const NOTHING := ParsedQuery([], [], [], [], [], false, false, [])

  function FieldOf(key: string): Option<Field> {
    if key == "is" || key == "state" then Some(States)
    else if key == "assignee" then Some(Assignees)
    else if key == "author" then Some(Authors)
    else if key == "label" then Some(Labels)
    else if key == "repo" then Some(Repos)
    else None
  }

  function ReadingOf(f: Field, value: string): string {
    if f == States then StateOf(value) else Lower(value)
  }

  // What one token adds to a query.

  function Absorb(p: ParsedQuery, token: string): ParsedQuery {
    match IndexOf(token, ':')
    case None => AbsorbText(p, token)
    case Some(idx) =>
      var value := Unquote(token[idx + 1..]);
      if idx == 0 then AbsorbText(p, token)
      else if value == "" then p
      else AbsorbQualifier(p, Lower(token[..idx]), value, token)
  }

  function AbsorbText(p: ParsedQuery, token: string): ParsedQuery {
    p.(text := p.text + [Lower(Unquote(token))])
  }

  function AbsorbQualifier(p: ParsedQuery, key: string, value: string, token: string): ParsedQuery {
    match FieldOf(key)
    case Some(f) => p.Push(f, ReadingOf(f, value))
    case None =>
      if key != "no" then AbsorbText(p, token)
      else
        p.(noAssignee := p.noAssignee || Lower(value) == "assignee", noLabel := p.noLabel || Lower(value) == "label")
  }

  function AbsorbAll(p: ParsedQuery, tokens: seq<string>): ParsedQuery
    decreases |tokens|
  {
    if tokens == [] then p else AbsorbAll(Absorb(p, tokens[0]), tokens[1..])
  }

  // What a qualifier says, for every qualifier there is. Its name may be in either case, and
  // quotes around its value, or in it, do not count.
  ghost predicate QualifierReadAs(before: ParsedQuery, key: string, value: string, text: string, after: ParsedQuery) {
    && (value == "" ==> after == before)
    && (value != "" ==>
          match key
          case "is" => StateReadAs(before, value, after)
          case "state" => StateReadAs(before, value, after)
          case "assignee" => after == before.(assignees := before.assignees + [Lower(value)])
          case "author" => after == before.(authors := before.authors + [Lower(value)])
          case "label" => after == before.(labels := before.labels + [Lower(value)])
          case "repo" => after == before.(repos := before.repos + [Lower(value)])
          case "no" =>
            && (Lower(value) == "assignee" ==> after == before.(noAssignee := true))
            && (Lower(value) == "label" ==> after == before.(noLabel := true))
            && (Lower(value) !in ["assignee", "label"] ==> after == before)
          case _ => after == before.(text := before.text + [text]))
  }

  ghost predicate StateReadAs(before: ParsedQuery, value: string, after: ParsedQuery) {
    exists state :: after == before.(states := before.states + [state]) &&
      match Lower(value)
      case "open" => state == "OPEN"
      case "closed" => state == "CLOSED"
      case "merged" => state == "MERGED"
      case _ => state == Upper(value)
  }

  lemma QualifierIsRead(before: ParsedQuery, key: string, raw: string)
    requires key != "" && ':' !in key
    ensures var token := key + ":" + raw;
            QualifierReadAs(before, Lower(key), Unquote(raw), Lower(Unquote(token)), Absorb(before, token))
  {
    var token, value := key + ":" + raw, Unquote(raw);
    FirstOccurrence(key, ':', raw);
    assert token == key + [':'] + raw && token[..|key|] == key && token[|key| + 1..] == raw;
    if value != "" && Lower(key) in ["is", "state"] {
      assert Absorb(before, token) == before.(states := before.states + [StateOf(value)]);
    }
  }

  lemma StartsWithColon(token: string)
    requires ':' !in token || token[0] == ':'
    ensures IndexOf(token, ':').None? || IndexOf(token, ':').value == 0
  {
  }

  // A token that is no qualifier is searched for as it is.
  lemma TextIsRead(before: ParsedQuery, token: string)
    requires ':' !in token || token[0] == ':'
    ensures Absorb(before, token) == before.(text := before.text + [Lower(Unquote(token))])
  {
    StartsWithColon(token);
  }

  // Taking the quotes out of a text: piece by piece, where a piece without quotes stays as
  // it is.
  lemma UnquoteTakesQuotes(a: string, b: string)
    ensures Unquote(a + b) == Unquote(a) + Unquote(b) && '"' !in Unquote(a) && ('"' !in a ==> Unquote(a) == a)
  {
    UnquoteJoins(a, b);
    UnquoteKeepsOut(a, '"');
    if '"' !in a {
      UnquotePlain(a);
    }
  }

  lemma {:induction false} UnquoteJoins(a: string, b: string)
    ensures Unquote(a + b) == Unquote(a) + Unquote(b)
  {
    if a == "" {
      assert a + b == b;
    } else {
      UnquoteJoins(a[1..], b);
      var s, x, y := a + b, Unquote(a[1..]), Unquote(b);
      assert s[0] == a[0] && s[1..] == a[1..] + b;
      assert Unquote(s) == if a[0] == '"' then x + y else [a[0]] + (x + y);
      assert [a[0]] + (x + y) == [a[0]] + x + y;
    }
  }

  // Upper-casing changes small letters, each to the capital, and nothing else.
  lemma UpperRaises(s: string, i: nat)
    requires i < |s|
    ensures |Upper(s)| == |s|
    ensures if 'a' <= s[i] <= 'z' then 'A' <= Upper(s)[i] <= 'Z' && Upper(s)[i] as int + 32 == s[i] as int else Upper(s)[i] == s[i]
  {
  }

  method ParseQuery(query: string) returns (parsed: ParsedQuery)
    ensures parsed == AbsorbAll(NOTHING, TokenizeQuery(query))
  {
    parsed := NOTHING;
    var tokens := TokenizeQuery(query);
    for i := 0 to |tokens|
      invariant AbsorbAll(parsed, tokens[i..]) == AbsorbAll(NOTHING, tokens)
    {
      assert tokens[i..][0] == tokens[i] && tokens[i..][1..] == tokens[i + 1..];
      parsed := ReadToken(parsed, tokens[i]);
    }
  }

  // The body of the loop.
  method ReadToken(before: ParsedQuery, token: string) returns (parsed: ParsedQuery)
    ensures parsed == Absorb(before, token)
  {
    parsed := before;
    var idx := IndexOf(token, ':');
    var key, value := "", "";
    if idx.Some? && idx.value > 0 {
      key, value := Lower(token[..idx.value]), Unquote(token[idx.value + 1..]);
      if value == "" {
        return;
      }
    }
    if key == "is" || key == "state" {
      parsed := parsed.(states := parsed.states + [StateOf(value)]);
    } else if key == "assignee" {
      parsed := parsed.(assignees := parsed.assignees + [Lower(value)]);
    } else if key == "author" {
      parsed := parsed.(authors := parsed.authors + [Lower(value)]);
    } else if key == "label" {
      parsed := parsed.(labels := parsed.labels + [Lower(value)]);
    } else if key == "repo" {
      parsed := parsed.(repos := parsed.repos + [Lower(value)]);
    } else if key == "no" {
      if Lower(value) == "assignee" {
        parsed := parsed.(noAssignee := true);
      }
      if Lower(value) == "label" {
        parsed := parsed.(noLabel := true);
      }
    } else {
      parsed := parsed.(text := parsed.text + [Lower(Unquote(token))]);
    }
  }

  // Suggestions.

  const QUALIFIERS := ["is:", "assignee:", "author:", "label:", "repo:", "no:"]

  // A value offered under a qualifier.
  datatype Pick = Pick(key: string, value: string)

  function QuoteValue(value: string): string {
    if exists i | 0 <= i < |value| :: IsSpace(value[i]) then "\"" + value + "\"" else value
  }

  function TokenOf(p: Pick): string {
    p.key + ":" + if p.key == "label" then QuoteValue(p.value) else p.value
  }

  function InsertOf(p: Pick): string {
    TokenOf(p) + " "
  }

  function QueryOf(picks: seq<Pick>): string {
    if picks == [] then "" else InsertOf(picks[0]) + QueryOf(picks[1..])
  }

  datatype Vocabulary = Vocabulary(users: seq<string>, labels: seq<string>, repos: seq<string>)

  // The values known for a qualifier; none for any other word.
  function Words(key: string, vocab: Vocabulary, isPullRequest: bool): seq<string> {
    if key == "is" || key == "state" then if isPullRequest then ["open", "closed", "merged"] else ["open", "closed"]
    else if key == "assignee" || key == "author" then ["@me"] + vocab.users
    else if key == "label" then vocab.labels
    else if key == "repo" then vocab.repos
    else if key == "no" then ["assignee", "label"]
    else []
  }

  predicate HasAt(s: string, part: string, i: int) {
    0 <= i <= |s| - |part| && s[i..i + |part|] == part
  }

  predicate Includes(s: string, part: string) {
    exists i | 0 <= i <= |s| :: HasAt(s, part, i)
  }

  function Matching(key: string, words: seq<string>, part: string): (r: seq<string>)
    ensures forall x :: x in r <==> exists v | v in words :: Includes(Lower(v), part) && x == InsertOf(Pick(key, v))
  {
    if words == [] then []
    else
      assert forall v :: v in words <==> v == words[0] || v in words[1..];
      (if Includes(Lower(words[0]), part) then [InsertOf(Pick(key, words[0]))] else []) + Matching(key, words[1..], part)
  }

  function Starting(keys: seq<string>, prefix: string): (r: seq<string>)
    ensures forall x :: x in r <==> x in keys && prefix <= x
  {
    if keys == [] then [] else (if prefix <= keys[0] then [keys[0]] else []) + Starting(keys[1..], prefix)
  }

  // The texts the suggestions for a token insert.
  function BuildSuggestions(token: string, vocab: Vocabulary, isPullRequest: bool): seq<string> {
    var idx := IndexOf(token, ':');
    if idx.None? || idx.value == 0 then Starting(QUALIFIERS, Lower(token))
    else
      var key := Lower(token[..idx.value]);
      Matching(key, Words(key, vocab, isPullRequest), Lower(Unquote(token[idx.value + 1..])))
  }

  // A pick the search box can read back.
  predicate Readable(p: Pick) {
    && (FieldOf(p.key).Some? || p.key == "no")
    && p.value != "" && '"' !in p.value
    && (p.key != "label" ==> forall c | c in p.value :: !IsSpace(c))
  }

  // The values picked for one field, in order, as the filter compares them.
  function Picked(picks: seq<Pick>, f: Field): seq<string> {
    if picks == [] then []
    else
      (if FieldOf(picks[0].key) == Some(f) then [ReadingOf(f, picks[0].value)] else []) + Picked(picks[1..], f)
  }

  predicate PickedNo(picks: seq<Pick>, word: string) {
    exists i | 0 <= i < |picks| :: picks[i].key == "no" && Lower(picks[i].value) == word
  }

  lemma {:induction false} PlainRun(a: string, q: string)
    requires forall c | c in a :: IsPlain(c)
    ensures TokenLength(a + q) == |a| + TokenLength(q)
  {
    if a == "" {
      assert a + q == q;
    } else {
      assert a[0] in a;
      PlainRun(a[1..], q);
      assert (a + q)[1..] == a[1..] + q;
    }
  }

  lemma {:induction false} FirstOccurrence(a: string, c: char, q: string)
    requires c !in a
    ensures IndexOf(a + [c] + q, c) == Some(|a|)
  {
    if a != "" {
      FirstOccurrence(a[1..], c, q);
      assert (a + [c] + q)[1..] == a[1..] + [c] + q;
    }
  }

  lemma {:induction false} UnquotePlain(a: string)
    requires '"' !in a
    ensures Unquote(a) == a && Unquote(a + "\"") == a
  {
    if a != "" {
      UnquotePlain(a[1..]);
      assert (a + "\"")[1..] == a[1..] + "\"";
    }
  }

  lemma QuotedValue(v: string, q: string)
    requires '"' !in v
    ensures Unquote("\"" + v + "\"") == v
    ensures TokenLength("\"" + v + "\"" + q) == |v| + 2 + TokenLength(q)
  {
    UnquotePlain(v);
    assert ("\"" + v + "\"")[1..] == v + "\"";
    FirstOccurrence(v, '"', q);
    var s := "\"" + v + "\"" + q;
    assert s[1..] == v + ['"'] + q;
    assert s[|v| + 2..] == q;
  }

  lemma KeysArePlain(key: string)
    requires FieldOf(key).Some? || key == "no"
    ensures forall c | c in key :: IsPlain(c) && c != ':'
    ensures key != "" && Lower(key) == key
  {
    forall i | 0 <= i < |key| ensures Lower(key)[i] == key[i] {}
  }

  // The token a pick becomes ends where its insert ends.
  lemma PickIsOneToken(p: Pick, rest: string)
    requires Readable(p)
    ensures TokenLength(InsertOf(p) + rest) == |TokenOf(p)|
  {
    KeysArePlain(p.key);
    var tail := " " + rest;
    var head := p.key + ":";
    var shown := if p.key == "label" then QuoteValue(p.value) else p.value;
    ShownValueEndsThere(p, rest);
    PlainRun(head, shown + tail);
    assert InsertOf(p) + rest == head + (shown + tail);
  }

  lemma ShownValueEndsThere(p: Pick, rest: string)
    requires Readable(p)
    ensures var shown := if p.key == "label" then QuoteValue(p.value) else p.value;
            TokenLength(shown + (" " + rest)) == |shown|
  {
    var shown := if p.key == "label" then QuoteValue(p.value) else p.value;
    var tail := " " + rest;
    assert TokenLength(tail) == 0;
    if shown == "\"" + p.value + "\"" {
      QuotedValue(p.value, tail);
    } else {
      PlainRun(shown, tail);
    }
  }

  lemma PickTokenized(p: Pick, rest: string)
    requires Readable(p)
    ensures TokenizeQuery(InsertOf(p) + rest) == [TokenOf(p)] + TokenizeQuery(rest)
  {
    PickIsOneToken(p, rest);
    var q, n := InsertOf(p) + rest, |TokenOf(p)|;
    assert q[..n] == TokenOf(p);
    assert q[n..] == " " + rest && (" " + rest)[1..] == rest;
  }

  lemma PickTokenRead(p: Pick, parsed: ParsedQuery)
    requires Readable(p)
    ensures Absorb(parsed, TokenOf(p)) == AbsorbQualifier(parsed, p.key, p.value, TokenOf(p))
  {
    KeysArePlain(p.key);
    var token := TokenOf(p);
    var shown := if p.key == "label" then QuoteValue(p.value) else p.value;
    FirstOccurrence(p.key, ':', shown);
    assert token == p.key + [':'] + shown;
    assert token[..|p.key|] == p.key && token[|p.key| + 1..] == shown;
    UnquotePlain(p.value);
    QuotedValue(p.value, "");
  }

  // What a query says for the picks read into it so far.
  ghost predicate Holds(r: ParsedQuery, before: ParsedQuery, picks: seq<Pick>) {
    && (forall f: Field :: r.Get(f) == before.Get(f) + Picked(picks, f))
    && r.noAssignee == (before.noAssignee || PickedNo(picks, "assignee"))
    && r.noLabel == (before.noLabel || PickedNo(picks, "label"))
    && r.text == before.text
  }

  lemma OnePicked(p: Pick, f: Field, word: string)
    ensures Picked([p], f) == if FieldOf(p.key) == Some(f) then [ReadingOf(f, p.value)] else []
    ensures PickedNo([p], word) <==> p.key == "no" && Lower(p.value) == word
  {
    assert [p][0] == p && [p][1..] == [];
    assert Picked([], f) == [];
  }

  lemma QualifierAbsorbed(before: ParsedQuery, key: string, value: string, token: string, f: Field)
    requires FieldOf(key).Some? || key == "no"
    ensures var r := AbsorbQualifier(before, key, value, token);
      && r.Get(f) == before.Get(f) + (if FieldOf(key) == Some(f) then [ReadingOf(f, value)] else [])
      && r.noAssignee == (before.noAssignee || (key == "no" && Lower(value) == "assignee"))
      && r.noLabel == (before.noLabel || (key == "no" && Lower(value) == "label"))
      && r.text == before.text
  {
  }

  lemma PickAbsorbed(p: Pick, before: ParsedQuery)
    requires Readable(p)
    ensures Holds(Absorb(before, TokenOf(p)), before, [p])
  {
    var r := Absorb(before, TokenOf(p));
    PickTokenRead(p, before);
    forall f: Field ensures r.Get(f) == before.Get(f) + Picked([p], f) {
      QualifierAbsorbed(before, p.key, p.value, TokenOf(p), f);
      OnePicked(p, f, "");
    }
    QualifierAbsorbed(before, p.key, p.value, TokenOf(p), States);
    OnePicked(p, States, "assignee");
    OnePicked(p, States, "label");
  }

  lemma {:induction false} PicksAbsorbed(picks: seq<Pick>, before: ParsedQuery)
    requires forall p | p in picks :: Readable(p)
    ensures Holds(AbsorbAll(before, TokenizeQuery(QueryOf(picks))), before, picks)
  {
    if picks != [] {
      var p, rest := picks[0], picks[1..];
      assert p in picks;
      PickTokenized(p, QueryOf(rest));
      var tokens := TokenizeQuery(QueryOf(rest));
      assert ([TokenOf(p)] + tokens)[1..] == tokens;
      var mid := Absorb(before, TokenOf(p));
      PickAbsorbed(p, before);
      PicksAbsorbed(rest, mid);
      HoldsInTurn(AbsorbAll(mid, tokens), mid, before, picks);
    }
  }

  lemma PickedInTurn(picks: seq<Pick>, f: Field)
    requires picks != []
    ensures Picked(picks, f) == Picked([picks[0]], f) + Picked(picks[1..], f)
  {
    OnePicked(picks[0], f, "");
  }

  lemma PickedNoInTurn(picks: seq<Pick>, word: string)
    requires picks != []
    ensures PickedNo(picks, word) <==> PickedNo([picks[0]], word) || PickedNo(picks[1..], word)
  {
    OnePicked(picks[0], States, word);
    var rest := picks[1..];
    assert forall i | 0 <= i < |rest| :: rest[i] == picks[i + 1];
    if PickedNo(picks, word) && !(picks[0].key == "no" && Lower(picks[0].value) == word) {
      var i :| 0 <= i < |picks| && picks[i].key == "no" && Lower(picks[i].value) == word;
      assert picks[i] == rest[i - 1];
    }
  }

  lemma HoldsInTurn(after: ParsedQuery, mid: ParsedQuery, before: ParsedQuery, picks: seq<Pick>)
    requires picks != [] && Holds(mid, before, [picks[0]]) && Holds(after, mid, picks[1..])
    ensures Holds(after, before, picks)
  {
    forall f: Field ensures after.Get(f) == before.Get(f) + Picked(picks, f) {
      PickedInTurn(picks, f);
    }
    PickedNoInTurn(picks, "assignee");
    PickedNoInTurn(picks, "label");
  }

  // Quoting round trip: whatever suggestions were picked, the query they spell is read
  // back as exactly those values, each under its own qualifier and in order.
  lemma PicksAreReadBack(picks: seq<Pick>)
    requires forall p | p in picks :: Readable(p)
    ensures var r := AbsorbAll(NOTHING, TokenizeQuery(QueryOf(picks)));
      && (forall f: Field :: r.Get(f) == Picked(picks, f))
      && r.noAssignee == PickedNo(picks, "assignee")
      && r.noLabel == PickedNo(picks, "label")
      && r.text == []
  {
    PicksAbsorbed(picks, NOTHING);
    var r := AbsorbAll(NOTHING, TokenizeQuery(QueryOf(picks)));
    forall f: Field ensures r.Get(f) == Picked(picks, f) {
      assert NOTHING.Get(f) == [];
    }
  }

  // A value with a quote, with white space outside a label, or with nothing in it is never
  // read back, so the conditions on a pick are exact.

  predicate Separates(b: char) {
    b == '"' || IsSpace(b)
  }

  lemma {:induction false} UnquoteKeepsOut(s: string, b: char)
    requires b == '"' || b !in s
    ensures b !in Unquote(s)
  {
    if s != "" {
      UnquoteKeepsOut(s[1..], b);
    }
  }

  lemma ReadingKeepsSeparators(f: Field, value: string, b: char)
    requires Separates(b)
    ensures b in ReadingOf(f, value) <==> b in value
  {
    forall i | 0 <= i < |value|
      ensures (Lower(value)[i] == b <==> value[i] == b) && (Upper(value)[i] == b <==> value[i] == b)
    {
    }
    assert b in Lower(value) <==> b in value;
    assert b in Upper(value) <==> b in value;
  }

  lemma AbsorbKeepsOut(p: ParsedQuery, token: string, b: char, f: Field)
    requires Separates(b) && (b == '"' || b !in token)
    requires forall v | v in p.Get(f) :: b !in v
    ensures forall v | v in Absorb(p, token).Get(f) :: b !in v
  {
    var idx := IndexOf(token, ':');
    if idx.Some? && idx.value > 0 {
      var value := Unquote(token[idx.value + 1..]);
      UnquoteKeepsOut(token[idx.value + 1..], b);
      ReadingKeepsSeparators(f, value, b);
      var key := Lower(token[..idx.value]);
      if value != "" && (FieldOf(key).Some? || key == "no") {
        QualifierAbsorbed(p, key, value, token, f);
      }
    }
  }

  lemma {:induction false} AbsorbAllKeepsOut(p: ParsedQuery, tokens: seq<string>, b: char, f: Field)
    requires Separates(b) && (b == '"' || forall t | t in tokens :: b !in t)
    requires forall v | v in p.Get(f) :: b !in v
    ensures forall v | v in AbsorbAll(p, tokens).Get(f) :: b !in v
    decreases |tokens|
  {
    if tokens != [] {
      assert tokens[0] in tokens;
      AbsorbKeepsOut(p, tokens[0], b, f);
      AbsorbAllKeepsOut(Absorb(p, tokens[0]), tokens[1..], b, f);
    }
  }

  lemma {:induction false} UnquotedTokenHasNoSpace(q: string, b: char)
    requires IsSpace(b) && '"' !in q
    ensures b !in q[..TokenLength(q)]
  {
    if q != "" && !IsSpace(q[0]) {
      assert q[0] in q;
      UnquotedTokenHasNoSpace(q[1..], b);
      assert q[..TokenLength(q)] == [q[0]] + q[1..][..TokenLength(q[1..])];
    }
  }

  lemma {:induction false} UnquotedTokensHaveNoSpace(q: string, b: char)
    requires IsSpace(b) && '"' !in q
    ensures forall t | t in TokenizeQuery(q) :: b !in t
    decreases |q|
  {
    if q != "" {
      var n := TokenLength(q);
      UnquotedTokenHasNoSpace(q, b);
      UnquotedTokensHaveNoSpace(if n > 0 then q[n..] else q[1..], b);
    }
  }

  lemma ValueKeepsOut(p: Pick, f: Field, b: char)
    requires FieldOf(p.key) == Some(f) && b in p.value
    requires b == '"' || (IsSpace(b) && p.key != "label" && '"' !in p.value)
    ensures AbsorbAll(NOTHING, TokenizeQuery(InsertOf(p))).Get(f) != [ReadingOf(f, p.value)]
  {
    var q := InsertOf(p);
    if b != '"' {
      KeysArePlain(p.key);
      assert '"' !in q;
      UnquotedTokensHaveNoSpace(q, b);
    }
    AbsorbAllKeepsOut(NOTHING, TokenizeQuery(q), b, f);
    ReadingKeepsSeparators(f, p.value, b);
    var x := ReadingOf(f, p.value);
    assert x in [x];
  }

  lemma NoValueNothingRead(p: Pick)
    requires FieldOf(p.key).Some? && p.value == ""
    ensures AbsorbAll(NOTHING, TokenizeQuery(InsertOf(p))) == NOTHING
  {
    KeysArePlain(p.key);
    var q, token := InsertOf(p), p.key + ":";
    PlainRun(token, " ");
    assert q == token + " " && TokenLength(" ") == 0;
    assert q[..|token|] == token && q[|token|..] == " " && " "[1..] == "";
    assert TokenizeQuery(q) == [token];
    FirstOccurrence(p.key, ':', "");
    assert p.key + [':'] + "" == token && token[|p.key| + 1..] == "";
  }

  lemma ReadBackExactlyWhen(p: Pick, f: Field)
    requires FieldOf(p.key) == Some(f)
    ensures AbsorbAll(NOTHING, TokenizeQuery(InsertOf(p))).Get(f) == [ReadingOf(f, p.value)] <==> Readable(p)
  {
    if Readable(p) {
      PicksAreReadBack([p]);
      OnePicked(p, f, "");
      assert [p][1..] == [] && QueryOf([p]) == InsertOf(p);
    } else if p.value == "" {
      NoValueNothingRead(p);
    } else if '"' in p.value {
      ValueKeepsOut(p, f, '"');
    } else {
      var b :| b in p.value && IsSpace(b);
      ValueKeepsOut(p, f, b);
    }
  }

  predicate IsWord(s: string) {
    s != "" && forall c | c in s :: IsPlain(c)
  }

  // Names of users and repositories are words; labels may hold white space.
  ghost predicate CleanNames(vocab: Vocabulary) {
    && (forall u | u in vocab.users :: IsWord(u))
    && (forall u | u in vocab.repos :: IsWord(u))
    && (forall l | l in vocab.labels :: l != "" && '"' !in l)
  }

  lemma FixedWords(key: string, isPullRequest: bool, v: string)
    requires key in ["is", "state", "no"] && v in Words(key, Vocabulary([], [], []), isPullRequest)
    ensures IsWord(v)
  {
    if key == "no" {
      NoWords(v);
    } else {
      StateWords(v);
    }
  }

  lemma NoWords(v: string)
    requires v in ["assignee", "label"]
    ensures IsWord(v)
  {
    assert IsWord("assignee");
    assert IsWord("label");
  }

  lemma StateWords(v: string)
    requires v in ["open", "closed", "merged"]
    ensures IsWord(v)
  {
    assert IsWord("open");
    assert IsWord("closed");
    assert IsWord("merged");
  }

  lemma KnownWordIsReadable(key: string, vocab: Vocabulary, isPullRequest: bool, v: string)
    requires CleanNames(vocab) && v in Words(key, vocab, isPullRequest)
    ensures Readable(Pick(key, v))
  {
    if key == "is" || key == "state" || key == "no" {
      FixedWords(key, isPullRequest, v);
    } else if key == "assignee" || key == "author" {
      assert v in vocab.users || v == "@me";
    }
  }

  // The values there are for each qualifier.
  ghost predicate Offered(key: string, v: string, vocab: Vocabulary, isPullRequest: bool) {
    || (key in ["is", "state"] && (v in ["open", "closed"] || (v == "merged" && isPullRequest)))
    || (key in ["assignee", "author"] && (v == "@me" || v in vocab.users))
    || (key == "label" && v in vocab.labels)
    || (key == "repo" && v in vocab.repos)
    || (key == "no" && v in ["assignee", "label"])
  }

  lemma WordsAreOffered(key: string, vocab: Vocabulary, isPullRequest: bool, v: string)
    ensures v in Words(key, vocab, isPullRequest) <==> Offered(key, v, vocab, isPullRequest)
  {
  }

  ghost predicate Contains(s: string, part: string) {
    exists before, after :: s == before + part + after
  }

  lemma IncludesIsContains(s: string, part: string)
    ensures Includes(s, part) <==> Contains(s, part)
  {
    if Includes(s, part) {
      var i :| 0 <= i <= |s| && HasAt(s, part, i);
      assert s == s[..i] + part + s[i + |part|..];
    }
    if Contains(s, part) {
      var before, after :| s == before + part + after;
      assert HasAt(s, part, |before|);
    }
  }

  // Before there is a qualifier, the qualifiers that begin like the token are suggested.
  lemma QualifiersAreSuggested(token: string, vocab: Vocabulary, isPullRequest: bool, x: string)
    requires ':' !in token || token[0] == ':'
    ensures x in BuildSuggestions(token, vocab, isPullRequest)
            <==> x in ["is:", "assignee:", "author:", "label:", "repo:", "no:"] && Lower(token) <= x
  {
    StartsWithColon(token);
  }

  // Every text the suggestions insert for a started qualifier is the insert of a known
  // value that contains what was typed so far; with clean names each is read back.
  lemma SuggestionsAreReadable(key: string, raw: string, vocab: Vocabulary, isPullRequest: bool, x: string)
    requires key != "" && ':' !in key && CleanNames(vocab)
    ensures x in BuildSuggestions(key + ":" + raw, vocab, isPullRequest)
            <==> exists v :: Suggested(Lower(key), Lower(Unquote(raw)), vocab, isPullRequest, v) && x == InsertOf(Pick(Lower(key), v))
  {
    var token, key', part := key + ":" + raw, Lower(key), Lower(Unquote(raw));
    FirstOccurrence(key, ':', raw);
    assert token == key + [':'] + raw && token[..|key|] == key && token[|key| + 1..] == raw;
    forall v ensures v in Words(key', vocab, isPullRequest) && Includes(Lower(v), part) <==> Suggested(key', part, vocab, isPullRequest, v) {
      WordsAreOffered(key', vocab, isPullRequest, v);
      IncludesIsContains(Lower(v), part);
      if v in Words(key', vocab, isPullRequest) {
        KnownWordIsReadable(key', vocab, isPullRequest, v);
      }
    }
  }

  // A value that is offered, contains what was typed, and can be read back.
  ghost predicate Suggested(key: string, part: string, vocab: Vocabulary, isPullRequest: bool, v: string) {
    Offered(key, v, vocab, isPullRequest) && Contains(Lower(v), part) && Readable(Pick(key, v))
  }
}
