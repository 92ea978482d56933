/** Setting or removing one key of the `.env` file. */
module EnvUpsert {

  import opened Common
  import opened EnvLines
  import opened EnvQuoting
  import opened Selection
  import opened Text
  import opened TextLines

  /** The new line takes the place of the first one for its key, or stands last; the key's other lines go. */
  function Edited(lines: seq<string>, key: string, text: string, keep: bool): seq<string> {
    Remaining(lines, For(key), LineFor(key, text), keep)
  }

  // ---- how lines become the file ---------------------------------------------------------------------

  /** `"\n".join(lines)`. */
  function Join(lines: seq<string>): string {
    if lines == [] then []
    else if |lines| == 1 then lines[0]
    else Join(lines[..|lines| - 1]) + ['\n'] + lines[|lines| - 1]
  }

  /** `rstrip("\n")`. */
  function DropNewlines(s: string): string {
    if s != [] && s[|s| - 1] == '\n' then DropNewlines(s[..|s| - 1]) else s
  }

  function Render(lines: seq<string>): string {
    var content := DropNewlines(Join(lines));
    if content == [] then [] else content + ['\n']
  }

  /** Without the empty lines at the end. */
  function TrimEmpty(lines: seq<string>): seq<string> {
    if lines != [] && lines[|lines| - 1] == [] then TrimEmpty(lines[..|lines| - 1]) else lines
  }

  function UpsertText(file: Option<string>, key: string, value: string, quote: bool): string {
    Render(Edited(FileLines(file), key, if quote then Quote(value) else value, value != []))
  }

  method UpsertEnvVar(file: Option<string>, key: string, value: string, quote: bool) returns (content: string)
    ensures content == UpsertText(file, key, value, quote)
  {
    var raw := FileLines(file);
    var newLine := LineFor(key, if quote then Quote(value) else value);
    var out := EditLines(raw, For(key), newLine, value != []);
    content := DropNewlines(Join(out));
    if content != [] { content := content + ['\n']; }
  }

  /** What the loop still adds, depending on whether it has yet to place the new line. */
  function Remaining(lines: seq<string>, hit: string -> bool, newLine: string, place: bool): seq<string> {
    if place then Put(lines, hit, newLine) else Without(lines, hit)
  }

  /** One line taken into `out`: what has been written and what remains make up the same whole. */
  lemma RemainingStep(raw: seq<string>, i: nat, hit: string -> bool, newLine: string, place: bool,
                      out: seq<string>, out': seq<string>, place': bool)
    requires i < |raw|
    requires place' == (place && !hit(raw[i]))
    requires out' == if !hit(raw[i]) then out + [raw[i]] else if place then out + [newLine] else out
    ensures out' + Remaining(raw[i + 1..], hit, newLine, place') == out + Remaining(raw[i..], hit, newLine, place)
  {
    var rest := raw[i + 1..];
    var step := if !hit(raw[i]) then [raw[i]] else if place then [newLine] else [];
    assert raw[i..] == [raw[i]] + rest;
    RemainingHead(raw[i], rest, hit, newLine, place);
    assert out' == out + step;
    assert (out + step) + Remaining(rest, hit, newLine, place') == out + (step + Remaining(rest, hit, newLine, place'));
  }

  lemma RemainingHead(x: string, rest: seq<string>, hit: string -> bool, newLine: string, place: bool)
    ensures Remaining([x] + rest, hit, newLine, place) ==
      (if !hit(x) then [x] else if place then [newLine] else []) + Remaining(rest, hit, newLine, place && !hit(x))
  {
    assert ([x] + rest)[1..] == rest;
  }

  /** The loop over the lines, `hit` telling those of the key. */
  method EditLines(raw: seq<string>, hit: string -> bool, newLine: string, keep: bool) returns (out: seq<string>)
    ensures out == Remaining(raw, hit, newLine, keep)
  {
    out := [];
    var replaced := false;
    for i := 0 to |raw|
      invariant replaced ==> keep
      invariant Remaining(raw, hit, newLine, keep) == out + Remaining(raw[i..], hit, newLine, keep && !replaced)
    {
      ghost var was, place := out, keep && !replaced;
      if hit(raw[i]) {
        if keep && !replaced {
          out := out + [newLine];
          replaced := true;
        }
      } else {
        out := out + [raw[i]];
      }
      RemainingStep(raw, i, hit, newLine, place, was, out, keep && !replaced);
    }
    if keep && !replaced { out := out + [newLine]; }
  }

  // ---- the text holds the lines ----------------------------------------------------------------------

  lemma {:induction false} UnlinesAppend(a: seq<string>, b: seq<string>)
    ensures Unlines(a + b) == Unlines(a) + Unlines(b)
  {
    if a == [] {
      assert a + b == b;
    } else {
      assert (a + b)[1..] == a[1..] + b;
      UnlinesAppend(a[1..], b);
    }
  }

  lemma {:induction false} JoinUnlines(lines: seq<string>)
    requires lines != []
    ensures Join(lines) + ['\n'] == Unlines(lines)
  {
    var n := |lines| - 1;
    if n == 0 {
      assert Unlines(lines[1..]) == [];
    } else {
      JoinUnlines(lines[..n]);
      UnlinesAppend(lines[..n], [lines[n]]);
      assert lines[..n] + [lines[n]] == lines;
      assert Unlines([lines[n]]) == lines[n] + ['\n'] + Unlines([]);
    }
  }

  lemma {:induction false} TrimmedOneLine(lines: seq<string>)
    requires AllOneLine(lines)
    ensures AllOneLine(TrimEmpty(lines))
  {
    if lines != [] && lines[|lines| - 1] == [] { TrimmedOneLine(lines[..|lines| - 1]); }
  }

  lemma {:induction false} RenderIsUnlines(lines: seq<string>)
    requires AllOneLine(lines)
    ensures Render(lines) == Unlines(TrimEmpty(lines))
  {
    if lines != [] {
      var n := |lines| - 1;
      var s := Join(lines);
      if lines[n] == [] {
        RenderIsUnlines(lines[..n]);
        if n > 0 { assert s[..|s| - 1] == Join(lines[..n]); }
      } else {
        assert s[|s| - 1] == lines[n][|lines[n]| - 1];
        JoinUnlines(lines);
      }
    }
  }

  /** Reading the written file gives the lines again, but for the empty ones at the end. */
  lemma ReadRendered(lines: seq<string>)
    requires AllOneLine(lines)
    ensures ReadLines(Render(lines)) == TrimEmpty(lines)
  {
    RenderIsUnlines(lines);
    TrimmedOneLine(lines);
    ReadUnlines(TrimEmpty(lines));
  }

  lemma EmptyHasNoEntry(key: string)
    ensures !HasKey([], key)
  {
  }

  lemma {:induction false} FindTrimmed(lines: seq<string>, hit: string -> bool)
    requires !hit([])
    ensures Find(TrimEmpty(lines), hit) == Find(lines, hit)
    ensures Count(TrimEmpty(lines), hit) == Count(lines, hit)
    ensures TrimEmpty(Without(TrimEmpty(lines), hit)) == TrimEmpty(Without(lines, hit))
  {
    if lines != [] && lines[|lines| - 1] == [] {
      var n := |lines| - 1;
      FindTrimmed(lines[..n], hit);
      FindAppend(lines[..n], [lines[n]], hit);
      WithoutAppend(lines[..n], [lines[n]], hit);
      assert lines[..n] + [lines[n]] == lines;
      var init := Without(lines[..n], hit);
      assert (init + [lines[n]])[..|init|] == init;
    }
  }

  // ---- the file after an upsert ----------------------------------------------------------------------

  lemma EditedOneLine(lines: seq<string>, key: string, text: string, keep: bool)
    requires AllOneLine(lines) && OneLine(LineFor(key, text))
    ensures AllOneLine(Edited(lines, key, text, keep))
  {
    var line: string -> bool := s => OneLine(s);
    WithoutKeeps(lines, For(key), line);
    PutKeeps(lines, For(key), LineFor(key, text), line);
    assert All(Edited(lines, key, text, keep), line);
  }

  lemma LineForOneLine(key: string, text: string)
    ensures OneLine(LineFor(key, text)) <==> OneLine(key) && OneLine(text)
  {
    var line := LineFor(key, text);
    assert forall i :: 0 <= i < |key| ==> line[i] == key[i];
    assert forall i :: 0 <= i < |text| ==> line[|key| + 1 + i] == text[i];
    if OneLine(line) {
      forall i | 0 <= i < |text| ensures !IsBreak(text[i]) { assert line[|key| + 1 + i] == text[i]; }
      forall i | 0 <= i < |key| ensures !IsBreak(key[i]) { assert line[i] == key[i]; }
    }
  }

  lemma QuoteOneLine(v: string)
    requires OneLine(v)
    ensures OneLine(Quote(v))
  {
    var q := Quote(v);
    QuoteChars(v);
    forall i | 0 <= i < |q| ensures !IsBreak(q[i]) { assert q[i] in v || q[i] == QUOTE || q[i] == BACKSLASH; }
  }

  /** The lines of the file an upsert writes. */
  lemma UpsertedFile(file: Option<string>, key: string, value: string, quote: bool)
    requires WellFormedKey(key) && OneLine(value)
    ensures var text := if quote then Quote(value) else value;
      FileLines(Some(UpsertText(file, key, value, quote))) == TrimEmpty(Edited(FileLines(file), key, text, value != []))
  {
    var text := if quote then Quote(value) else value;
    if quote { QuoteOneLine(value); }
    LineForOneLine(key, text);
    EditedOneLine(FileLines(file), key, text, value != []);
    ReadRendered(Edited(FileLines(file), key, text, value != []));
  }

  /** What the file reads for the key afterwards. */
  lemma ReadsEdited(file: Option<string>, key: string, value: string, quote: bool)
    requires WellFormedKey(key) && OneLine(value)
    ensures Read(Some(UpsertText(file, key, value, quote)), key) ==
      if value == [] then None else Some(if quote then value else Unquote(value))
  {
    var lines, text := FileLines(file), if quote then Quote(value) else value;
    UpsertedFile(file, key, value, quote);
    EmptyHasNoEntry(key);
    FindTrimmed(Edited(lines, key, text, value != []), For(key));
    WrittenValue(key, text);
    if value == [] {
      WithoutNone(lines, For(key));
      FindNone(Without(lines, For(key)), For(key));
    } else {
      PutOne(lines, For(key), LineFor(key, text));
    }
    RoundTrip(value);
  }

  /** A quoted value is read back exactly when it holds no line break; an empty one removes the key. */
  lemma ReadsBackIff(file: Option<string>, key: string, value: string)
    requires WellFormedKey(key)
    ensures value != [] ==>
      (Read(Some(UpsertText(file, key, value, true)), key) == Some(value) <==> OneLine(value))
    ensures value == [] ==> Read(Some(UpsertText(file, key, value, true)), key) == None
  {
    if OneLine(value) {
      ReadsEdited(file, key, value, true);
    } else {
      var after := FileLines(Some(UpsertText(file, key, value, true)));
      if Lookup(after, key) == Some(value) { LookupOneLine(after, key); }
    }
  }

  /** An unquoted value without line breaks is read back exactly when it is tight and not in quotes. */
  lemma RawReadsBackIff(file: Option<string>, key: string, value: string)
    requires WellFormedKey(key) && OneLine(value) && value != []
    ensures Read(Some(UpsertText(file, key, value, false)), key) == Some(value) <==> Tight(value) && !InQuotes(value)
  {
    ReadsEdited(file, key, value, false);
    UnquoteSameIff(value);
  }

  /**
    * Everything else an upsert of a value without line breaks does: its key has one line, or none when
    * the value is empty; every other key reads as before; the other lines stay, in their order, but for
    * empty ones at the end.
    */
  lemma KeepsTheRest(file: Option<string>, key: string, value: string, quote: bool, other: string)
    requires WellFormedKey(key) && OneLine(value) && other != key
    ensures var after := FileLines(Some(UpsertText(file, key, value, quote)));
      && Count(after, For(key)) == (if value == [] then 0 else 1)
      && Lookup(after, other) == Read(file, other)
      && TrimEmpty(Without(after, For(key))) == TrimEmpty(Without(FileLines(file), For(key)))
  {
    var lines, text := FileLines(file), if quote then Quote(value) else value;
    var edited := Edited(lines, key, text, value != []);
    UpsertedFile(file, key, value, quote);
    EmptyHasNoEntry(key);
    EmptyHasNoEntry(other);
    FindTrimmed(edited, For(key));
    FindTrimmed(edited, For(other));
    WrittenValue(key, text);
    KeysDisjoint(key, other);
    EditedRest(lines, For(key), For(other), LineFor(key, text), value != []);
  }

  lemma TrimAfter(a: seq<string>, x: string, b: seq<string>)
    requires x != []
    ensures TrimEmpty(a + [x] + b) == a + [x] + TrimEmpty(b)
  {
    if b != [] && b[|b| - 1] == [] {
      assert (a + [x] + b)[..|a + [x] + b| - 1] == a + [x] + b[..|b| - 1];
      TrimAfter(a, x, b[..|b| - 1]);
    }
  }

  /**
    * Where the new line stands: in the place of the key's first line, the `n`-th, or after all lines when
    * the key has none. Nothing before it changes, empty lines included.
    */
  lemma StandsInPlace(file: Option<string>, key: string, value: string, quote: bool, n: nat)
    requires WellFormedKey(key) && OneLine(value) && value != [] && n <= |FileLines(file)|
    requires NoneHit(FileLines(file)[..n], For(key)) && (n < |FileLines(file)| ==> HasKey(FileLines(file)[n], key))
    ensures var lines, text := FileLines(file), if quote then Quote(value) else value;
      FileLines(Some(UpsertText(file, key, value, quote))) ==
        lines[..n] + [LineFor(key, text)] + if n < |lines| then TrimEmpty(Without(lines[n + 1..], For(key))) else []
  {
    var lines, text := FileLines(file), if quote then Quote(value) else value;
    UpsertedFile(file, key, value, quote);
    PutStands(lines, For(key), LineFor(key, text), n);
  }

  lemma PutStands(lines: seq<string>, hit: string -> bool, line: string, n: nat)
    requires n <= |lines| && NoneHit(lines[..n], hit) && (n < |lines| ==> hit(lines[n])) && line != []
    ensures TrimEmpty(Put(lines, hit, line)) ==
      lines[..n] + [line] + if n < |lines| then TrimEmpty(Without(lines[n + 1..], hit)) else []
  {
    if n < |lines| {
      assert lines == lines[..n] + [lines[n]] + lines[n + 1..];
      PutInPlace(lines[..n], lines[n], lines[n + 1..], hit, line);
      TrimAfter(lines[..n], line, Without(lines[n + 1..], hit));
    } else {
      assert lines[..n] == lines;
      PutAtEnd(lines, hit, line);
      TrimAfter(lines, line, []);
      assert lines + [line] + [] == lines + [line];
    }
  }

  lemma EditedRest(lines: seq<string>, hit: string -> bool, other: string -> bool, line: string, keep: bool)
    requires hit(line) && Disjoint(hit, other)
    ensures var out := if keep then Put(lines, hit, line) else Without(lines, hit);
      && Count(out, hit) == (if keep then 1 else 0)
      && Without(out, hit) == Without(lines, hit)
      && Find(out, other) == Find(lines, other)
  {
    FindWithout(lines, hit, other);
    if keep {
      PutOne(lines, hit, line);
      FindWithout(Put(lines, hit, line), hit, other);
    } else {
      WithoutTwice(lines, hit);
    }
  }
}
