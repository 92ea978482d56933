/** The training lock: printed from a freeze by one program, parsed and compared by another. */
module TrainingLocks {

  import opened Common
  import opened NameOrder
  import opened PackageLines
  import opened Text
  import opened TextLines

  type Pins = map<string, string>

  datatype Parsed = Accepted(pins: Pins) | Refused

  /** What `str.splitlines` ends a line at. */
  function LineBreaks(): char -> bool {
    c =>
      var n := c as int;
      10 <= n <= 13 || 28 <= n <= 30 || n == 0x85 || n == 0x2028 || n == 0x2029
  }

  predicate IsComment(line: string) { line == [] || line[0] == '#' }

  // ---- reading line by line ------------------------------------------------------------------------------------

  /** What one line makes of the dictionary read so far. */
  type Step = (Pins, string) -> Parsed

  /** The dictionary after the first `n` lines. */
  function Fold(lines: seq<string>, n: nat, step: Step): Parsed
    requires n <= |lines|
  {
    if n == 0 then Accepted(map[])
    else
      var before := Fold(lines, n - 1, step);
      if before.Refused? then Refused else step(before.pins, lines[n - 1])
  }

  lemma FoldNext(lines: seq<string>, n: nat, step: Step, before: Pins)
    requires n < |lines| && Fold(lines, n, step) == Accepted(before)
    ensures Fold(lines, n + 1, step) == step(before, lines[n])
  {
  }

  lemma {:induction false} RefusedStays(lines: seq<string>, n: nat, m: nat, step: Step)
    requires n <= m <= |lines| && Fold(lines, n, step).Refused?
    ensures Fold(lines, m, step).Refused?
  {
    if n < m { RefusedStays(lines, n, m - 1, step); }
  }

  // ---- the freeze --------------------------------------------------------------------------------------------

  /** The text after the first mark, or all of it. */
  function AfterMark(text: string, mark: string): Option<string> {
    if mark <= text then Some(text[|mark|..])
    else if text == [] then None
    else AfterMark(text[1..], mark)
  }

  function FreezeText(text: string, mark: string): string {
    var after := AfterMark(text, mark);
    if after.Some? then after.value else text
  }

  /** One line of the freeze: the last of several pins counts, pip's own is left out. */
  function FreezeLine(pins: Pins, line: string): Parsed {
    if IsComment(line) then Accepted(pins)
    else
      var pin := ParsePin(line, false);
      if pin.None? then Refused
      else if Pep503(pin.value.name) == "pip" then Accepted(pins)
      else Accepted(pins[Pep503(pin.value.name) := pin.value.version])
  }

  function FreezeStep(): Step { (pins, raw) => FreezeLine(pins, Strip(raw)) }

  /** An empty result is refused too. */
  function Freeze(text: string, mark: string): Parsed {
    var lines := Split(FreezeText(text, mark), LineBreaks());
    var r := Fold(lines, |lines|, FreezeStep());
    if r.Accepted? && r.pins == map[] then Refused else r
  }

  /** The lines for `names`, in their order. */
  function Entries(names: seq<string>, pins: Pins): (r: seq<string>)
    requires forall i :: 0 <= i < |names| ==> names[i] in pins
    ensures |r| == |names| && forall i :: 0 <= i < |r| ==> r[i] == PinLine(Pin(names[i], pins[names[i]]))
  {
    seq(|names|, i requires 0 <= i < |names| => PinLine(Pin(names[i], pins[names[i]])))
  }

  /** The names of the dictionary, each once, in order. */
  ghost predicate Lists(names: seq<string>, pins: Pins) {
    Ascending(names) && forall x :: x in names <==> x in pins
  }

  lemma FreezeStepIs(pins: Pins, raw: string)
    ensures FreezeStep()(pins, raw) == FreezeLine(pins, Strip(raw))
  {
  }

  /** The loop over the freeze's lines. */
  method FreezePins(lines: seq<string>) returns (r: Parsed)
    ensures r == Fold(lines, |lines|, FreezeStep())
  {
    var out: Pins := map[];
    for i := 0 to |lines|
      invariant Fold(lines, i, FreezeStep()) == Accepted(out)
    {
      var line := Strip(lines[i]);
      FoldNext(lines, i, FreezeStep(), out);
      FreezeStepIs(out, lines[i]);
      if line != [] && line[0] != '#' {
        var pin := ParsePin(line, false);
        if pin.None? {
          RefusedStays(lines, i + 1, |lines|, FreezeStep());
          return Refused;
        }
        var name := Pep503(pin.value.name);
        if name != "pip" { out := out[name := pin.value.version]; }
      }
    }
    return Accepted(out);
  }

  method ParseFreeze(text: string, mark: string) returns (r: Option<seq<string>>, ghost names: seq<string>)
    ensures r.Some? <==> Freeze(text, mark).Accepted?
    ensures r.Some? ==>
      Lists(names, Freeze(text, mark).pins) && r.value == Entries(names, Freeze(text, mark).pins)
  {
    names := [];
    var parsed := FreezePins(Split(FreezeText(text, mark), LineBreaks()));
    if parsed.Refused? || parsed.pins == map[] { return None, names; }
    var sorted := Sorted(parsed.pins.Keys);
    names := sorted;
    return Some(Entries(sorted, parsed.pins)), names;
  }

  // ---- the lock file -------------------------------------------------------------------------------------------

  function Header(today: string): string {
    "# generated by " + "make_training_lock.py" + " on " + today + "; do not edit"
  }

  function RenderLock(entries: seq<string>, today: string): string { Header(today) + ['\n'] + Unlines(entries) }

  /** One line of the lock; a name may stand there only once. */
  function LockLine(pins: Pins, line: string): Parsed {
    if IsComment(line) then Accepted(pins)
    else
      var pin := ParsePin(line, true);
      if pin.None? || Pep503(pin.value.name) in pins then Refused
      else Accepted(pins[Pep503(pin.value.name) := pin.value.version])
  }

  function LockStep(): Step { (pins, raw) => LockLine(pins, Strip(raw)) }

  function Lock(text: string): Parsed {
    var lines := Split(text, LineBreaks());
    var r := Fold(lines, |lines|, LockStep());
    if r.Accepted? && r.pins == map[] then Refused else r
  }

  lemma LockStepIs(pins: Pins, raw: string)
    ensures LockStep()(pins, raw) == LockLine(pins, Strip(raw))
  {
  }

  /** The loop over the lock's lines. */
  method LockPins(lines: seq<string>) returns (r: Parsed)
    ensures r == Fold(lines, |lines|, LockStep())
  {
    var entries: Pins := map[];
    for i := 0 to |lines|
      invariant Fold(lines, i, LockStep()) == Accepted(entries)
    {
      var line := Strip(lines[i]);
      FoldNext(lines, i, LockStep(), entries);
      LockStepIs(entries, lines[i]);
      if line != [] && line[0] != '#' {
        var pin := ParsePin(line, true);
        if pin.None? || Pep503(pin.value.name) in entries {
          RefusedStays(lines, i + 1, |lines|, LockStep());
          return Refused;
        }
        entries := entries[Pep503(pin.value.name) := pin.value.version];
      }
    }
    return Accepted(entries);
  }

  method ReadLock(text: string) returns (r: Parsed)
    ensures r == Lock(text)
  {
    r := LockPins(Split(text, LineBreaks()));
    if r.Accepted? && r.pins == map[] { r := Refused; }
  }

  // ---- the round trip ------------------------------------------------------------------------------------------

  /** What a freeze puts in the dictionary: normal names other than pip, versions without whitespace. */
  predicate GoodPin(name: string, version: string) {
    IsName(name) && Pep503(name) == name && name != "pip" && IsVersion(version, false)
  }

  ghost predicate GoodPins(pins: Pins) { forall name :: name in pins ==> GoodPin(name, pins[name]) }

  lemma FreezeLineGood(pins: Pins, line: string)
    requires GoodPins(pins)
    ensures FreezeLine(pins, line).Accepted? ==> GoodPins(FreezeLine(pins, line).pins)
  {
    var pin := ParsePin(line, false);
    if pin.Some? {
      ParsedIsPinned(line, false);
      Pep503Name(pin.value.name);
      Pep503Idempotent(pin.value.name);
    }
  }

  lemma {:induction false} FreezeGood(lines: seq<string>, n: nat)
    requires n <= |lines|
    ensures Fold(lines, n, FreezeStep()).Accepted? ==> GoodPins(Fold(lines, n, FreezeStep()).pins)
  {
    if n > 0 {
      FreezeGood(lines, n - 1);
      var before := Fold(lines, n - 1, FreezeStep());
      if before.Accepted? { FreezeLineGood(before.pins, Strip(lines[n - 1])); }
    }
  }

  lemma BreaksAreSpaces(c: char)
    requires LineBreaks()(c)
    ensures IsSpace(c)
  {
  }

  lemma NameCharsShow(c: char)
    requires IsNameChar(c)
    ensures !IsSpace(c) && c != '#' && !LineBreaks()(c)
  {
  }

  /** An entry is one line, and the parser finds its pin on it. */
  lemma EntryParses(name: string, version: string)
    requires GoodPin(name, version)
    ensures var line := PinLine(Pin(name, version));
      && Unbroken(line, LineBreaks()) && Strip(line) == line && !IsComment(line)
      && ParsePin(line, true) == Some(Pin(name, version))
  {
    var line := PinLine(Pin(name, version));
    forall i | 0 <= i < |line| ensures !IsSpace(line[i]) && !LineBreaks()(line[i]) {
      if i < |name| { NameCharsShow(name[i]); }
      if i >= |name| + 2 { assert line[i] == version[i - |name| - 2]; }
      if LineBreaks()(line[i]) { BreaksAreSpaces(line[i]); }
    }
    StripTight(line);
    NameCharsShow(name[0]);
    ParsePinned(Pin(name, version), true);
  }

  lemma EntryLine(pins: Pins, name: string, version: string)
    requires GoodPin(name, version) && name !in pins
    ensures var line := PinLine(Pin(name, version)); LockLine(pins, Strip(line)) == Accepted(pins[name := version])
  {
    EntryParses(name, version);
  }

  lemma HeaderIsComment(today: string)
    requires Unbroken(today, LineBreaks())
    ensures Unbroken(Header(today), LineBreaks()) && IsComment(Strip(Header(today)))
  {
    var a, b, c, d := "# generated by ", "make_training_lock.py", " on ", "; do not edit";
    assert Unbroken(a, LineBreaks()) && Unbroken(b, LineBreaks()) && Unbroken(c, LineBreaks()) &&
      Unbroken(d, LineBreaks());
    var h := Header(today);
    assert h == a + b + c + today + d;
    assert a[0] == '#' && d[|d| - 1] == 't';
    assert h[0] == '#' && h[|h| - 1] == 't';
    StripTight(h);
  }

  /** The pins of the first `n` names. */
  function PinsUpTo(names: seq<string>, pins: Pins, n: nat): (r: Pins)
    requires n <= |names| && forall i :: 0 <= i < |names| ==> names[i] in pins
    ensures forall i :: 0 <= i < n ==> names[i] in r
    ensures forall x :: x in r ==> x in pins && r[x] == pins[x]
  {
    if n == 0 then map[] else PinsUpTo(names, pins, n - 1)[names[n - 1] := pins[names[n - 1]]]
  }

  lemma {:induction false} NewName(names: seq<string>, pins: Pins, n: nat, m: nat)
    requires n <= m < |names| && Ascending(names) && forall i :: 0 <= i < |names| ==> names[i] in pins
    ensures names[m] !in PinsUpTo(names, pins, n)
  {
    if n > 0 {
      NewName(names, pins, n - 1, m);
      LessTotal(names[n - 1], names[m]);
    }
  }

  /** A line adds its pin to whatever was read before, unless the name was there. */
  ghost predicate Adds(step: Step, line: string, name: string, version: string) {
    forall pins: Pins :: name !in pins ==> step(pins, line) == Accepted(pins[name := version])
  }

  lemma EntryAdds(name: string, version: string)
    requires GoodPin(name, version)
    ensures Adds(LockStep(), PinLine(Pin(name, version)), name, version)
  {
    forall pins: Pins | name !in pins
      ensures LockStep()(pins, PinLine(Pin(name, version))) == Accepted(pins[name := version])
    {
      EntryLine(pins, name, version);
    }
  }

  /** After a first line there is one line for each name, which adds its pin. */
  ghost predicate LinesAdd(lines: seq<string>, names: seq<string>, pins: Pins, step: Step) {
    && |lines| == |names| + 1 && (forall i :: 0 <= i < |names| ==> names[i] in pins)
    && forall i :: 0 <= i < |names| ==> Adds(step, lines[i + 1], names[i], pins[names[i]])
  }

  lemma LineAdds(lines: seq<string>, names: seq<string>, pins: Pins, step: Step, i: nat, before: Pins)
    requires LinesAdd(lines, names, pins, step) && i < |names| && names[i] !in before
    ensures step(before, lines[i + 1]) == Accepted(before[names[i] := pins[names[i]]])
  {
    assert Adds(step, lines[i + 1], names[i], pins[names[i]]);
  }

  lemma FirstParsed(lines: seq<string>, step: Step)
    requires lines != [] && step(map[], lines[0]) == Accepted(map[])
    ensures Fold(lines, 1, step) == Accepted(map[])
  {
    assert Fold(lines, 0, step) == Accepted(map[]);
  }

  /** A first line that adds nothing, then one line for each name. */
  lemma {:induction false} EntriesParse(lines: seq<string>, names: seq<string>, pins: Pins, n: nat, step: Step)
    requires Ascending(names) && LinesAdd(lines, names, pins, step) && n <= |names|
    requires step(map[], lines[0]) == Accepted(map[])
    ensures Fold(lines, n + 1, step) == Accepted(PinsUpTo(names, pins, n))
  {
    if n == 0 {
      FirstParsed(lines, step);
    } else {
      EntriesParse(lines, names, pins, n - 1, step);
      EntryParsed(lines, names, pins, n - 1, step);
    }
  }

  lemma EntryParsed(lines: seq<string>, names: seq<string>, pins: Pins, n: nat, step: Step)
    requires Ascending(names) && LinesAdd(lines, names, pins, step) && n < |names|
    requires Fold(lines, n + 1, step) == Accepted(PinsUpTo(names, pins, n))
    ensures Fold(lines, n + 2, step) == Accepted(PinsUpTo(names, pins, n + 1))
  {
    NewName(names, pins, n, n);
    FoldNext(lines, n + 1, step, PinsUpTo(names, pins, n));
    LineAdds(lines, names, pins, step, n, PinsUpTo(names, pins, n));
  }

  /** The printed lock, split into lines again. */
  lemma RenderedLines(names: seq<string>, pins: Pins, today: string)
    requires GoodPins(pins) && Unbroken(today, LineBreaks()) && forall i :: 0 <= i < |names| ==> names[i] in pins
    ensures Split(RenderLock(Entries(names, pins), today), LineBreaks()) == [Header(today)] + Entries(names, pins)
  {
    var entries := Entries(names, pins);
    HeaderIsComment(today);
    forall i | 0 <= i < |entries| ensures Unbroken(entries[i], LineBreaks()) {
      EntryParses(names[i], pins[names[i]]);
    }
    SplitHeaded(Header(today), entries);
  }

  lemma SplitHeaded(header: string, entries: seq<string>)
    requires Unbroken(header, LineBreaks()) && AllUnbroken(entries, LineBreaks())
    ensures Split(header + ['\n'] + Unlines(entries), LineBreaks()) == [header] + entries
  {
    var lines := [header] + entries;
    assert lines[1..] == entries;
    SplitUnlines(lines, LineBreaks());
  }

  lemma PinsUpToAll(names: seq<string>, pins: Pins)
    requires Lists(names, pins)
    ensures forall i :: 0 <= i < |names| ==> names[i] in pins
    ensures PinsUpTo(names, pins, |names|) == pins
  {
    var parsed := PinsUpTo(names, pins, |names|);
    forall x | x in pins ensures x in parsed {
      var i :| 0 <= i < |names| && names[i] == x;
    }
  }

  lemma HeaderAddsNothing(today: string)
    requires Unbroken(today, LineBreaks())
    ensures LockStep()(map[], Header(today)) == Accepted(map[])
  {
    HeaderIsComment(today);
  }

  /** Each entry adds the pin of its name. */
  ghost predicate EachAdds(entries: seq<string>, names: seq<string>, pins: Pins, step: Step) {
    && |entries| == |names|
    && forall i :: 0 <= i < |names| ==> names[i] in pins && Adds(step, entries[i], names[i], pins[names[i]])
  }

  lemma EntriesAdd(names: seq<string>, pins: Pins)
    requires GoodPins(pins) && forall i :: 0 <= i < |names| ==> names[i] in pins
    ensures EachAdds(Entries(names, pins), names, pins, LockStep())
  {
    forall i | 0 <= i < |names| ensures Adds(LockStep(), Entries(names, pins)[i], names[i], pins[names[i]]) {
      EntryAdds(names[i], pins[names[i]]);
    }
  }

  lemma HeadedAdds(header: string, entries: seq<string>, lines: seq<string>, names: seq<string>, pins: Pins, step: Step)
    requires EachAdds(entries, names, pins, step) && lines == [header] + entries
    ensures LinesAdd(lines, names, pins, step)
  {
    assert lines[1..] == entries;
    forall i | 0 <= i < |names| ensures Adds(step, lines[i + 1], names[i], pins[names[i]]) {
      assert lines[i + 1] == entries[i];
    }
  }

  lemma HeadedParse(header: string, entries: seq<string>, lines: seq<string>, names: seq<string>, pins: Pins,
                    step: Step)
    requires Lists(names, pins) && EachAdds(entries, names, pins, step)
    requires lines == [header] + entries && step(map[], header) == Accepted(map[])
    ensures Fold(lines, |lines|, step) == Accepted(pins)
  {
    HeadedAdds(header, entries, lines, names, pins, step);
    PinsUpToAll(names, pins);
    EntriesParse(lines, names, pins, |names|, step);
  }

  lemma PrintedAndParsed(names: seq<string>, pins: Pins, today: string)
    requires Lists(names, pins) && GoodPins(pins) && Unbroken(today, LineBreaks())
    ensures var lines := Split(RenderLock(Entries(names, pins), today), LineBreaks());
      Fold(lines, |lines|, LockStep()) == Accepted(pins)
  {
    var entries := Entries(names, pins);
    RenderedLines(names, pins, today);
    HeaderAddsNothing(today);
    EntriesAdd(names, pins);
    HeadedParse(Header(today), entries, Split(RenderLock(entries, today), LineBreaks()), names, pins, LockStep());
  }

  /**
    * What `parse_freeze` accepts, printed as a lock, is read back as exactly its dictionary, whose names
    * are normal, sorted and each listed once.
    */
  lemma RoundTrip(text: string, mark: string, names: seq<string>, today: string)
    requires Freeze(text, mark).Accepted? && Lists(names, Freeze(text, mark).pins)
    requires Unbroken(today, LineBreaks())
    ensures Lock(RenderLock(Entries(names, Freeze(text, mark).pins), today)) == Freeze(text, mark)
    ensures forall name :: name in names ==> IsNormal(name) && name != "pip"
  {
    var pins := Freeze(text, mark).pins;
    var lines := Split(FreezeText(text, mark), LineBreaks());
    FreezeGood(lines, |lines|);
    PrintedAndParsed(names, pins, today);
    forall name | name in names ensures IsNormal(name) && name != "pip" {
      assert GoodPin(name, pins[name]);
      Pep503Idempotent(name);
    }
  }
}
