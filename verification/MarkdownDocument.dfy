// parseMarkdownDocument: a Markdown file cut into its front matter and its body.

module MarkdownDocument {
  import opened Wrappers

  datatype Document = Document(frontmatter: string, body: string, title: Option<string>)

  datatype Line = Line(start: nat, nextStart: nat, text: string)

  // Reading the YAML between the delimiters: None when it does not parse or is not a
  // mapping, otherwise its title if it has one.
  type Metadata = string -> Option<Option<string>>

  // The first line feed from start on, or the end of the text.
  function LineFeed(content: string, start: nat): (end: nat)
    requires start <= |content|
    ensures start <= end <= |content| && forall j | start <= j < end :: content[j] != '\n'
    ensures end < |content| ==> content[end] == '\n'
    decreases |content| - start
  {
    if start == |content| || content[start] == '\n' then start else LineFeed(content, start + 1)
  }

  function ReadLine(content: string, start: nat): Line
    requires start <= |content|
  {
    var end := LineFeed(content, start);
    var textEnd := if end > start && content[end - 1] == '\r' then end - 1 else end;
    Line(start, if end == |content| then end else end + 1, content[start..textEnd])
  }

  predicate IsDelimiter(text: string) {
    text == "---" || text == "..."
  }

  const BOM: char := '\U{feff}'

  function FirstLine(content: string): Line {
    ReadLine(content, if content != "" && content[0] == BOM then 1 else 0)
  }

  // The line that closes the front matter.
  function ClosingLine(content: string, from: nat): Option<Line>
    requires from <= |content|
    decreases |content| - from
  {
    if from == |content| then None
    else
      var line := ReadLine(content, from);
      if IsDelimiter(line.text) then Some(line) else ClosingLine(content, line.nextStart)
  }

  function Unsplit(content: string): Document {
    Document("", content, None)
  }

  function Split(metadata: Metadata, content: string): Document {
    var first := FirstLine(content);
    if first.text != "---" then Unsplit(content)
    else match ClosingLine(content, first.nextStart)
      case None => Unsplit(content)
      case Some(line) =>
        ClosesAtFirstDelimiter(content, first.nextStart);
        match metadata(content[first.nextStart..line.start])
        case None => Unsplit(content)
        case Some(title) => Document(content[..line.nextStart], content[line.nextStart..], title)
  }

  lemma TakeAndDrop(content: string, n: nat)
    requires n <= |content|
    ensures content[..n] + content[n..] == content
  {
  }

  method ParseMarkdownDocument(metadata: Metadata, content: string) returns (doc: Document)
    ensures doc == Split(metadata, content)
    ensures doc.frontmatter + doc.body == content
  {
    var firstLine := FirstLine(content);
    if firstLine.text != "---" {
      return Unsplit(content);
    }
    var lineStart := firstLine.nextStart;
    while lineStart < |content|
      invariant firstLine.nextStart <= lineStart <= |content|
      invariant ClosingLine(content, firstLine.nextStart) == ClosingLine(content, lineStart)
    {
      var line := ReadLine(content, lineStart);
      if IsDelimiter(line.text) {
        match metadata(content[firstLine.nextStart..line.start]) {
          case None => break;
          case Some(title) =>
            TakeAndDrop(content, line.nextStart);
            return Document(content[..line.nextStart], content[line.nextStart..], title);
        }
      }
      if line.nextStart == lineStart {
        break;
      }
      lineStart := line.nextStart;
    }
    doc := Unsplit(content);
  }

  // i is the start of a line, counting from the line that starts at from.
  predicate StartsLine(content: string, from: int, i: int) {
    i == from || (0 <= from < i <= |content| && content[i - 1] == '\n')
  }

  predicate DelimiterAt(content: string, i: int) {
    0 <= i < |content| && IsDelimiter(ReadLine(content, i).text)
  }

  // The front matter closes at the first delimiter line, whatever that line is.
  lemma {:induction false} ClosesAtFirstDelimiter(content: string, from: nat)
    requires from <= |content|
    ensures match ClosingLine(content, from)
      case None => forall i | StartsLine(content, from, i) :: !DelimiterAt(content, i)
      case Some(line) =>
        && from <= line.start && StartsLine(content, from, line.start) && DelimiterAt(content, line.start)
        && line == ReadLine(content, line.start)
        && (forall i | i < line.start && StartsLine(content, from, i) :: !DelimiterAt(content, i))
    decreases |content| - from
  {
    if from < |content| {
      var line := ReadLine(content, from);
      if !IsDelimiter(line.text) {
        ClosesAtFirstDelimiter(content, line.nextStart);
        assert forall i | StartsLine(content, from, i) && i != from :: StartsLine(content, line.nextStart, i);
      }
    }
  }

  // In the characters of the text: at i there is this word and then a line break, or the end
  // of the text with or without a carriage return before it. The next line starts at next.
  ghost predicate WordOnLine(content: string, i: int, word: string, next: int) {
    && 0 <= i && i + |word| <= next <= |content| && content[i..i + |word|] == word
    && var rest := content[i + |word|..next];
       rest == "\n" || rest == "\r\n" || (next == |content| && (rest == "" || rest == "\r"))
  }

  lemma WordIsRead(content: string, i: nat, word: string, next: int)
    requires i <= |content| && word in ["---", "..."]
    ensures WordOnLine(content, i, word, next) <==> ReadLine(content, i).text == word && ReadLine(content, i).nextStart == next
  {
    if WordOnLine(content, i, word, next) {
      WordIsTheText(content, i, word, next);
    }
    if ReadLine(content, i).text == word {
      TextIsTheWord(content, i, word);
    }
  }

  lemma WordIsTheText(content: string, i: nat, word: string, next: int)
    requires i <= |content| && word in ["---", "..."] && WordOnLine(content, i, word, next)
    ensures ReadLine(content, i).text == word && ReadLine(content, i).nextStart == next
  {
    var rest := content[i + 3..next];
    assert content[i..i + 3][0] == content[i] && content[i..i + 3][1] == content[i + 1] && content[i..i + 3][2] == content[i + 2];
    assert rest != "" ==> rest[0] == content[i + 3];
    assert |rest| == 2 ==> rest[1] == content[i + 4];
  }

  lemma TextIsTheWord(content: string, i: nat, word: string)
    requires i <= |content| && word in ["---", "..."] && ReadLine(content, i).text == word
    ensures WordOnLine(content, i, word, ReadLine(content, i).nextStart)
  {
    var end, next := LineFeed(content, i), ReadLine(content, i).nextStart;
    var rest := content[i + 3..next];
    assert end == i + 3 || (end == i + 4 && content[i + 3] == '\r');
    assert rest == content[i + 3..end] + content[end..next];
  }

  // The front matter of a text, if it has one: after an optional byte order mark the first
  // line is ---, a later line is the first to be --- or ..., and the lines between parse.
  ghost predicate IsFrontMatter(metadata: Metadata, content: string, first: int, close: int, next: int) {
    && WordOnLine(content, if content != "" && content[0] == '\U{feff}' then 1 else 0, "---", first)
    && first <= close && Closes(content, first, close, next)
    && (forall i, n | first <= i < close :: !Closes(content, first, i, n))
    && metadata(content[first..close]).Some?
  }

  ghost predicate Closes(content: string, first: int, i: int, next: int) {
    && 0 < i <= |content| && (i == first || content[i - 1] == '\n')
    && (WordOnLine(content, i, "---", next) || WordOnLine(content, i, "...", next))
  }

  lemma ClosesIsDelimiter(content: string, first: nat, i: int)
    requires 0 < first <= |content| && first <= i
    ensures (exists next :: Closes(content, first, i, next)) <==> StartsLine(content, first, i) && DelimiterAt(content, i)
    ensures forall next | Closes(content, first, i, next) :: next == ReadLine(content, i).nextStart
  {
    forall next ensures i <= |content| ==>
        (Closes(content, first, i, next) <==> StartsLine(content, first, i) && DelimiterAt(content, i) && ReadLine(content, i).nextStart == next)
    {
      if i <= |content| {
        WordIsRead(content, i, "---", next);
        WordIsRead(content, i, "...", next);
      }
    }
    if StartsLine(content, first, i) && DelimiterAt(content, i) {
      assert Closes(content, first, i, ReadLine(content, i).nextStart);
    }
  }

  // A text is cut exactly where it has a front matter, and then front matter, body and title
  // are determined; a text without one is all body.
  lemma CutAtFrontMatter(metadata: Metadata, content: string, first: int, close: int, next: int)
    requires IsFrontMatter(metadata, content, first, close, next)
    ensures Split(metadata, content) == Document(content[..next], content[next..], metadata(content[first..close]).value)
  {
    WordIsRead(content, if content != "" && content[0] == BOM then 1 else 0, "---", first);
    ClosesAtFirstDelimiter(content, first);
    ClosesIsDelimiter(content, first, close);
    var line := ClosingLine(content, first).value;
    ClosesIsDelimiter(content, first, line.start);
    assert line.start == close;
  }

  lemma UncutWithoutFrontMatter(metadata: Metadata, content: string)
    requires forall first, close, next :: !IsFrontMatter(metadata, content, first, close, next)
    ensures Split(metadata, content) == Document("", content, None)
  {
    var line0 := FirstLine(content);
    var first := line0.nextStart;
    if line0.text == "---" && ClosingLine(content, first).Some? {
      var line := ClosingLine(content, first).value;
      WordIsRead(content, line0.start, "---", first);
      ClosesAtFirstDelimiter(content, first);
      ClosesIsDelimiter(content, first, line.start);
      forall i, n | first <= i < line.start ensures !Closes(content, first, i, n) {
        ClosesIsDelimiter(content, first, i);
      }
      var next :| Closes(content, first, line.start, next);
      assert !IsFrontMatter(metadata, content, first, line.start, next);
    }
  }

  // A line inside a prefix that ends in a line feed is read from the prefix alone.
  lemma {:induction false} LineFeedIsLocal(a: string, b: string, n: nat, start: nat)
    requires start < n <= |a| && n <= |b| && a[..n] == b[..n] && a[n - 1] == '\n'
    ensures LineFeed(a, start) == LineFeed(b, start) < n
    decreases n - start
  {
    assert a[..n][start] == b[..n][start];
    if a[start] != '\n' {
      LineFeedIsLocal(a, b, n, start + 1);
    }
  }

  lemma ReadLineIsLocal(a: string, b: string, n: nat, start: nat)
    requires start < n <= |a| && n <= |b| && a[..n] == b[..n] && a[n - 1] == '\n'
    ensures ReadLine(a, start) == ReadLine(b, start) && ReadLine(a, start).nextStart <= n
  {
    LineFeedIsLocal(a, b, n, start);
    var end := LineFeed(a, start);
    forall i | start <= i < n ensures a[i] == b[i] {
      assert a[..n][i] == b[..n][i];
    }
    assert a[start..end] == b[start..end];
  }

  lemma {:induction false} ClosingLineIsLocal(a: string, b: string, n: nat, from: nat)
    requires from < n <= |a| && n <= |b| && a[..n] == b[..n] && a[n - 1] == '\n'
    requires ClosingLine(a, from).Some? && ClosingLine(a, from).value.nextStart == n
    ensures ClosingLine(b, from) == ClosingLine(a, from)
    decreases n - from
  {
    ReadLineIsLocal(a, b, n, from);
    var line := ReadLine(a, from);
    if !IsDelimiter(line.text) {
      ClosesAtFirstDelimiter(a, line.nextStart);
      ClosingLineIsLocal(a, b, n, line.nextStart);
    }
  }

  predicate EndsInLineFeed(s: string) {
    s != "" && s[|s| - 1] == '\n'
  }

  // The front matter of a text is read from its own characters alone.
  lemma SameFrontMatter(content: string, b: string, n: nat)
    requires 0 < n <= |content| && n <= |b| && content[..n] == b[..n] && content[n - 1] == '\n'
    requires ClosingLine(content, FirstLine(content).nextStart).Some?
    requires ClosingLine(content, FirstLine(content).nextStart).value.nextStart == n
    ensures FirstLine(b) == FirstLine(content)
    ensures ClosingLine(b, FirstLine(b).nextStart) == ClosingLine(content, FirstLine(content).nextStart)
  {
    var first := FirstLine(content);
    ClosesAtFirstDelimiter(content, first.nextStart);
    SameText(content, b, n, 0, 1);
    ReadLineIsLocal(content, b, n, first.start);
    ClosingLineIsLocal(content, b, n, first.nextStart);
  }

  // Editing only the body: the same front matter comes back with exactly the new body.
  lemma BodyReplaced(metadata: Metadata, content: string, text: string)
    requires EndsInLineFeed(Split(metadata, content).frontmatter)
    ensures var doc := Split(metadata, content);
      Split(metadata, doc.frontmatter + text) == Document(doc.frontmatter, text, doc.title)
  {
    var front := Split(metadata, content).frontmatter;
    var b, n := front + text, |front|;
    var first := FirstLine(content);
    ClosesAtFirstDelimiter(content, first.nextStart);
    var line := ClosingLine(content, first.nextStart).value;
    assert content[..n] == front == b[..n];
    assert content[n - 1] == front[n - 1];
    SameFrontMatter(content, b, n);
    SameText(content, b, n, first.nextStart, line.start);
    assert b[n..] == text;
  }

  lemma SameText(a: string, b: string, n: nat, i: nat, j: nat)
    requires i <= j <= n <= |a| && n <= |b| && a[..n] == b[..n]
    ensures a[i..j] == b[i..j]
    ensures i < j ==> a[i] == b[i]
  {
    assert a[i..j] == a[..n][i..j] && b[i..j] == b[..n][i..j];
    assert i < j ==> a[i] == a[i..j][0] && b[i] == b[i..j][0];
  }

  lemma FollowedFrontMatterEndsInLineFeed(metadata: Metadata, content: string)
    ensures var front := Split(metadata, content).frontmatter;
      front == "" || front == content || EndsInLineFeed(front)
  {
    var first := FirstLine(content);
    ClosesAtFirstDelimiter(content, first.nextStart);
    match ClosingLine(content, first.nextStart) {
      case None =>
      case Some(line) => LineEndsInFeed(content, line.start);
    }
  }

  lemma LineEndsInFeed(content: string, start: nat)
    requires start <= |content|
    ensures var next := ReadLine(content, start).nextStart;
      start <= next <= |content| && (next < |content| ==> EndsInLineFeed(content[..next]))
  {
  }

  // That holds for every new body exactly when the front matter ends in a line feed. Where
  // the file ends with the closing delimiter, the new body runs into it.
  lemma BodyReplacedExactlyWhen(metadata: Metadata, content: string)
    requires Split(metadata, content).frontmatter != ""
    ensures var doc := Split(metadata, content);
      EndsInLineFeed(doc.frontmatter)
      <==> forall text :: Split(metadata, doc.frontmatter + text) == Document(doc.frontmatter, text, doc.title)
  {
    var doc := Split(metadata, content);
    if EndsInLineFeed(doc.frontmatter) {
      forall text ensures Split(metadata, doc.frontmatter + text) == Document(doc.frontmatter, text, doc.title) {
        BodyReplaced(metadata, content, text);
      }
    } else {
      var b := doc.frontmatter + "x";
      FollowedFrontMatterEndsInLineFeed(metadata, b);
      assert Split(metadata, b).frontmatter != doc.frontmatter;
    }
  }
}
