/** The `.env` file as lines, and the reader of one key. */
module EnvLines {

  import opened Common
  import opened EnvQuoting
  import opened Selection
  import opened Text
  import opened TextLines

  // ---- lines -----------------------------------------------------------------------------------------

  predicate IsBreak(c: char) { c == '\n' || c == '\r' }

  predicate OneLine(s: string) { forall i :: 0 <= i < |s| ==> !IsBreak(s[i]) }

  predicate AllOneLine(lines: seq<string>) { forall i :: 0 <= i < |lines| ==> OneLine(lines[i]) }

  function Breaks(): char -> bool { c => IsBreak(c) }

  /** `readlines()` of a text-mode file, the break ending each line (`\n`, `\r` or both) left off. */
  function ReadLines(text: string): (lines: seq<string>)
    ensures AllOneLine(lines)
  {
    Split(text, Breaks())
  }

  /** Lines without breaks are read back as they were written. */
  lemma ReadUnlines(lines: seq<string>)
    requires AllOneLine(lines)
    ensures ReadLines(Unlines(lines)) == lines
  {
    SplitUnlines(lines, Breaks());
  }

  // ---- entries ---------------------------------------------------------------------------------------

  /** `key=value` as found on a line: the key stripped, the value as it stands. */
  datatype Entry = Entry(key: string, value: string)

  function EqualsAt(s: string): (n: nat)
    requires '=' in s
    ensures n < |s| && s[n] == '=' && forall i :: 0 <= i < n ==> s[i] != '='
  {
    if s[0] == '=' then 0 else EqualsAt(s[1..]) + 1
  }

  /** Blank lines, comments and lines without `=` carry no entry. */
  function EntryOf(line: string): Option<Entry> { EntryIn(Strip(line)) }

  function EntryIn(s: string): Option<Entry> {
    if s == [] || s[0] == '#' || '=' !in s then None
    else Some(Entry(Strip(s[..EqualsAt(s)]), s[EqualsAt(s) + 1..]))
  }

  predicate HasKey(line: string, key: string) { EntryOf(line).Some? && EntryOf(line).value.key == key }

  /** The lines `HasKey` holds of. */
  function For(key: string): string -> bool { line => HasKey(line, key) }

  function ValueOn(line: string): Option<string> {
    var entry := EntryOf(line);
    if entry.None? then None else Some(Unquote(entry.value.value))
  }

  /** The value of the first entry for `key`. */
  function Lookup(lines: seq<string>, key: string): Option<string> {
    var found := Find(lines, For(key));
    if found.None? then None else ValueOn(found.value)
  }

  /** A file that cannot be read counts as one without lines. */
  function FileLines(file: Option<string>): (lines: seq<string>)
    ensures AllOneLine(lines)
  {
    if file.None? then [] else ReadLines(file.value)
  }

  function Read(file: Option<string>, key: string): Option<string> { Lookup(FileLines(file), key) }

  method ReadEnvVar(file: Option<string>, key: string) returns (value: Option<string>)
    ensures value == Read(file, key)
  {
    var raw := FileLines(file);
    for i := 0 to |raw|
      invariant Find(raw, For(key)) == Find(raw[i..], For(key))
    {
      var entry := EntryOf(raw[i]);
      if entry.Some? && entry.value.key == key { return Some(Unquote(entry.value.value)); }
    }
    return None;
  }

  // ---- what is written, is read ----------------------------------------------------------------------

  /** A key the reader can find again. */
  predicate WellFormedKey(key: string) {
    Tight(key) && OneLine(key) && '=' !in key && (key == [] || key[0] != '#')
  }

  function LineFor(key: string, text: string): string { key + ['='] + text }

  lemma StripWritten(key: string, text: string)
    requires WellFormedKey(key)
    ensures Strip(LineFor(key, text)) == LineFor(key, RStrip(text))
  {
    var start := key + ['='];
    RStripAppend(start, text);
    assert RStrip(start) == start;
    assert RStrip(LineFor(key, text)) == LineFor(key, RStrip(text)) by {
      assert RStrip(text) == [] ==> LineFor(key, RStrip(text)) == start;
    }
  }

  lemma EqualsAfterKey(key: string, text: string)
    requires WellFormedKey(key)
    ensures var s := LineFor(key, text); s[|key|] == '=' && EqualsAt(s) == |key|
  {
    var s := LineFor(key, text);
    assert s[|key|] == '=' && forall i :: 0 <= i < |key| ==> s[i] == key[i];
  }

  lemma WrittenEntry(key: string, text: string)
    requires WellFormedKey(key)
    ensures EntryOf(LineFor(key, text)) == Some(Entry(key, RStrip(text)))
  {
    StripWritten(key, text);
    StrippedEntry(key, RStrip(text));
  }

  lemma StrippedEntry(key: string, value: string)
    requires WellFormedKey(key)
    ensures EntryIn(LineFor(key, value)) == Some(Entry(key, value))
  {
    EqualsAfterKey(key, value);
    StripTight(key);
    var s := LineFor(key, value);
    assert s[..|key|] == key && s[|key| + 1..] == value;
  }

  /** The reader makes of a written line the unquoted text. */
  lemma WrittenValue(key: string, text: string)
    requires WellFormedKey(key)
    ensures HasKey(LineFor(key, text), key)
    ensures ValueOn(LineFor(key, text)) == Some(Unquote(text))
  {
    WrittenEntry(key, text);
    UnquoteRStrip(text);
  }

  /** A line has one key only. */
  lemma KeysDisjoint(key: string, other: string)
    requires key != other
    ensures Disjoint(For(key), For(other))
  {
  }

  // ---- values have no line breaks --------------------------------------------------------------------

  lemma UnquoteOneLine(text: string)
    requires OneLine(text)
    ensures OneLine(Unquote(text))
  {
    var v := Unquote(text);
    UnquoteChars(text);
    forall i | 0 <= i < |v| ensures !IsBreak(v[i]) { assert v[i] in text || v[i] == QUOTE || v[i] == BACKSLASH; }
  }

  lemma EntryOneLine(line: string)
    requires OneLine(line) && EntryOf(line).Some?
    ensures OneLine(EntryOf(line).value.value)
  {
    StripTight(line);
    var s := Strip(line);
    forall i | 0 <= i < |s| ensures !IsBreak(s[i]) { assert s[i] in line; }
  }

  /** No value with a line break is ever read. */
  lemma LookupOneLine(lines: seq<string>, key: string)
    requires AllOneLine(lines) && Lookup(lines, key).Some?
    ensures OneLine(Lookup(lines, key).value)
  {
    FindHits(lines, For(key));
    var line := Find(lines, For(key)).value;
    EntryOneLine(line);
    UnquoteOneLine(EntryOf(line).value.value);
  }
}
