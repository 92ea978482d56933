/** Splitting text into lines, whatever characters end a line. */
module TextLines {

  /** No line ends within the string. */
  predicate Unbroken(s: string, breaks: char -> bool) { forall i :: 0 <= i < |s| ==> !breaks(s[i]) }

  predicate AllUnbroken(lines: seq<string>, breaks: char -> bool) {
    forall i :: 0 <= i < |lines| ==> Unbroken(lines[i], breaks)
  }

  /** Where the first line ends. */
  function LineEnd(text: string, breaks: char -> bool): (n: nat)
    ensures n <= |text| && (forall i :: 0 <= i < n ==> !breaks(text[i])) && (n < |text| ==> breaks(text[n]))
  {
    if text == [] || breaks(text[0]) then 0 else LineEnd(text[1..], breaks) + 1
  }

  /** The lines without what ends them; a carriage return and the newline after it end one line together. */
  function Split(text: string, breaks: char -> bool): (lines: seq<string>)
    ensures AllUnbroken(lines, breaks)
    decreases |text|
  {
    if text == [] then [] else
      var n := LineEnd(text, breaks);
      if n == |text| then [text]
      else
        var both := text[n] == '\r' && n + 1 < |text| && text[n + 1] == '\n';
        [text[..n]] + Split(text[n + if both then 2 else 1..], breaks)
  }

  /** Every line ended by a newline. */
  function Unlines(lines: seq<string>): string {
    if lines == [] then [] else lines[0] + ['\n'] + Unlines(lines[1..])
  }

  lemma LineEndAt(line: string, rest: string, breaks: char -> bool)
    requires Unbroken(line, breaks) && breaks('\n')
    ensures LineEnd(line + ['\n'] + rest, breaks) == |line|
  {
    var text := line + ['\n'] + rest;
    assert text[|line|] == '\n' && forall i :: 0 <= i < |line| ==> text[i] == line[i];
  }

  /** Lines without breaks are read back as they were written. */
  lemma {:induction false} SplitUnlines(lines: seq<string>, breaks: char -> bool)
    requires AllUnbroken(lines, breaks) && breaks('\n')
    ensures Split(Unlines(lines), breaks) == lines
  {
    if lines != [] {
      var rest := Unlines(lines[1..]);
      var text := lines[0] + ['\n'] + rest;
      LineEndAt(lines[0], rest, breaks);
      SplitUnlines(lines[1..], breaks);
      assert text[..|lines[0]|] == lines[0] && text[|lines[0]| + 1..] == rest;
    }
  }
}
