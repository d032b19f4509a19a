// Lines joined by line feeds.

module Lines {
  function Join(lines: seq<string>): string {
    if lines == [] then ""
    else if |lines| == 1 then lines[0]
    else lines[0] + "\n" + Join(lines[1..])
  }

  // A line more at the end makes the text longer, but for the first, which may be empty.
  lemma {:induction false} JoinGrows(lines: seq<string>, last: string)
    ensures |Join(lines + [last])| == if lines == [] then |last| else |Join(lines)| + 1 + |last|
  {
    if |lines| > 0 {
      JoinGrows(lines[1..], last);
      assert (lines + [last])[1..] == lines[1..] + [last];
    }
  }
}
