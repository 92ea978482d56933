/** Rewriting the `.env` file: the owned keys written afresh, everything else carried over. */
module EnvRegenerate {

  import opened Common
  import opened EnvLines
  import opened EnvQuoting
  import opened EnvUpsert
  import opened Selection
  import opened Text
  import opened TextLines

  // ---- what is carried over --------------------------------------------------------------------------

  /** Which keys the generator drops when it reads the file, and the comment it puts above what it keeps. */
  datatype Policy = Policy(dropped: string -> bool, marker: string)

  predicate IsComment(line: string) { Tight(line) && OneLine(line) && line != [] && line[0] == '#' }

  /** Lines not carried over: entries of dropped keys, and the marker. */
  predicate Drops(line: string, policy: Policy) {
    var entry := EntryOf(line);
    if entry.None? then Strip(line) == policy.marker else policy.dropped(entry.value.key)
  }

  function Dropping(policy: Policy): string -> bool { line => Drops(line, policy) }

  function DropLeadingBlank(lines: seq<string>): seq<string> {
    if lines != [] && Strip(lines[0]) == [] then DropLeadingBlank(lines[1..]) else lines
  }

  function Preserved(lines: seq<string>, policy: Policy): seq<string> {
    DropLeadingBlank(Without(lines, Dropping(policy)))
  }

  method ReadUnmanagedLines(file: Option<string>, policy: Policy) returns (preserved: seq<string>)
    requires IsComment(policy.marker)
    ensures preserved == Preserved(FileLines(file), policy)
  {
    var raw := FileLines(file);
    preserved := [];
    ghost var drop := Dropping(policy);
    for i := 0 to |raw|
      invariant Without(raw, drop) == preserved + Without(raw[i..], drop)
    {
      ghost var was := preserved;
      var keep := Keep(raw[i], policy);
      if keep { preserved := preserved + [raw[i]]; }
      WithoutStep(raw, i, drop, was, preserved);
    }
    assert preserved == Without(raw, drop);
    preserved := StripLeading(preserved);
  }

  method Keep(line: string, policy: Policy) returns (keep: bool)
    requires IsComment(policy.marker)
    ensures keep == !Drops(line, policy)
  {
    var stripped := Strip(line);
    if stripped == [] || stripped[0] == '#' {
      keep := stripped != policy.marker;
    } else if '=' !in stripped {
      keep := true;
    } else {
      keep := !policy.dropped(Strip(stripped[..EqualsAt(stripped)]));
    }
  }

  method StripLeading(lines: seq<string>) returns (rest: seq<string>)
    ensures rest == DropLeadingBlank(lines)
  {
    rest := lines;
    while rest != [] && Strip(rest[0]) == []
      invariant DropLeadingBlank(rest) == DropLeadingBlank(lines)
    {
      rest := rest[1..];
    }
  }

  lemma WithoutStep(raw: seq<string>, i: nat, hit: string -> bool, was: seq<string>, now: seq<string>)
    requires i < |raw| && now == was + if hit(raw[i]) then [] else [raw[i]]
    ensures was + Without(raw[i..], hit) == now + Without(raw[i + 1..], hit)
  {
    assert raw[i..][1..] == raw[i + 1..];
  }

  lemma CommentHasNoEntry(line: string)
    requires IsComment(line)
    ensures EntryOf(line).None? && Strip(line) == line
  {
    StripTight(line);
  }

  // ---- the new file ----------------------------------------------------------------------------------

  /** A line the generator writes; a quoted value may be any text, a raw one stands as it is. */
  datatype Setting = Setting(key: string, value: string, quoted: bool)

  function TextOf(s: Setting): string { if s.quoted then Quote(s.value) else s.value }

  function LinesOf(settings: seq<Setting>): seq<string> {
    if settings == [] then [] else [LineFor(settings[0].key, TextOf(settings[0]))] + LinesOf(settings[1..])
  }

  function Tail(preserved: seq<string>, policy: Policy): seq<string> {
    if preserved == [] then [] else [[], policy.marker] + preserved
  }

  function NewLines(settings: seq<Setting>, preserved: seq<string>, policy: Policy): seq<string> {
    LinesOf(settings) + Tail(preserved, policy)
  }

  /** `"\n".join(lines + [""])`. */
  function Content(settings: seq<Setting>, preserved: seq<string>, policy: Policy): string {
    Join(NewLines(settings, preserved, policy) + [[]])
  }

  /** A raw value the reader leaves alone. */
  predicate Plain(v: string) { Tight(v) && (v == [] || v[0] != QUOTE) }

  predicate Sound(s: Setting, policy: Policy) {
    WellFormedKey(s.key) && OneLine(s.value) && policy.dropped(s.key) && (s.quoted || Plain(s.value))
  }

  /** The generator owns every key it writes, and writes it once. */
  ghost predicate Owned(settings: seq<Setting>, policy: Policy) {
    && IsComment(policy.marker)
    && (forall i :: 0 <= i < |settings| ==> Sound(settings[i], policy))
    && (forall i, j :: 0 <= i < j < |settings| ==> settings[i].key != settings[j].key)
  }

  ghost predicate HasSetting(settings: seq<Setting>, key: string) {
    exists i :: 0 <= i < |settings| && settings[i].key == key
  }

  lemma SoundLine(s: Setting, policy: Policy, key: string)
    requires Sound(s, policy)
    ensures var line := LineFor(s.key, TextOf(s));
      && OneLine(line) && Drops(line, policy)
      && (HasKey(line, key) <==> key == s.key)
      && ValueOn(line) == Some(s.value)
  {
    var text := TextOf(s);
    if s.quoted {
      QuoteOneLine(s.value);
      RoundTrip(s.value);
    } else {
      StripTight(s.value);
    }
    LineForOneLine(s.key, text);
    WrittenEntry(s.key, text);
    WrittenValue(s.key, text);
  }

  lemma OwnedTail(settings: seq<Setting>, policy: Policy)
    requires Owned(settings, policy) && settings != []
    ensures Owned(settings[1..], policy)
  {
  }

  /** The settings' lines are all dropped when the file is read again. */
  lemma {:induction false} SettingsDropped(settings: seq<Setting>, policy: Policy)
    requires Owned(settings, policy)
    ensures Without(LinesOf(settings), Dropping(policy)) == [] && AllOneLine(LinesOf(settings))
  {
    if settings != [] {
      SoundLine(settings[0], policy, []);
      OwnedTail(settings, policy);
      SettingsDropped(settings[1..], policy);
    }
  }

  /** Searching the lines looks at the first setting, then at the rest. */
  lemma FindFirst(settings: seq<Setting>, policy: Policy, key: string)
    requires Owned(settings, policy) && settings != []
    ensures Find(LinesOf(settings), For(key)) ==
      if key == settings[0].key then Some(LineFor(key, TextOf(settings[0]))) else Find(LinesOf(settings[1..]), For(key))
  {
    SoundLine(settings[0], policy, key);
    FindHead(LineFor(settings[0].key, TextOf(settings[0])), LinesOf(settings[1..]), For(key));
  }

  lemma {:induction false} SettingNotFound(settings: seq<Setting>, policy: Policy, key: string)
    requires Owned(settings, policy) && !HasSetting(settings, key)
    ensures Find(LinesOf(settings), For(key)) == None
  {
    if settings != [] {
      assert settings[0].key != key;
      OwnedTail(settings, policy);
      assert forall i :: 0 <= i < |settings| - 1 ==> settings[1..][i] == settings[i + 1];
      SettingNotFound(settings[1..], policy, key);
      FindFirst(settings, policy, key);
    }
  }

  lemma {:induction false} SettingFound(settings: seq<Setting>, policy: Policy, i: nat)
    requires Owned(settings, policy) && i < |settings|
    ensures Find(LinesOf(settings), For(settings[i].key)) == Some(LineFor(settings[i].key, TextOf(settings[i])))
  {
    FindFirst(settings, policy, settings[i].key);
    if i > 0 {
      assert settings[0].key != settings[i].key;
      OwnedTail(settings, policy);
      SettingFound(settings[1..], policy, i - 1);
    }
  }

  // ---- the carried lines -----------------------------------------------------------------------------

  lemma BlankHasNoEntry(line: string)
    requires Strip(line) == []
    ensures EntryOf(line).None?
  {
  }

  lemma {:induction false} LeadingBlankKeys(lines: seq<string>, key: string)
    ensures Find(DropLeadingBlank(lines), For(key)) == Find(lines, For(key))
  {
    if lines != [] && Strip(lines[0]) == [] {
      BlankHasNoEntry(lines[0]);
      LeadingBlankKeys(lines[1..], key);
    }
  }

  lemma {:induction false} LeadingBlankKeeps(lines: seq<string>, good: string -> bool)
    requires All(lines, good)
    ensures All(DropLeadingBlank(lines), good)
    ensures DropLeadingBlank(DropLeadingBlank(lines)) == DropLeadingBlank(lines)
  {
    if lines != [] && Strip(lines[0]) == [] { LeadingBlankKeeps(lines[1..], good); }
  }

  function Keeping(policy: Policy): string -> bool { line => OneLine(line) && !Drops(line, policy) }

  lemma {:induction false} WithoutDropped(lines: seq<string>, policy: Policy)
    requires AllOneLine(lines)
    ensures All(Without(lines, Dropping(policy)), Keeping(policy))
  {
    if lines != [] { WithoutDropped(lines[1..], policy); }
  }

  lemma {:induction false} NothingDropped(lines: seq<string>, policy: Policy)
    requires All(lines, Keeping(policy))
    ensures Without(lines, Dropping(policy)) == lines && AllOneLine(lines)
  {
    if lines != [] {
      assert Keeping(policy)(lines[0]);
      NothingDropped(lines[1..], policy);
    }
  }

  lemma PreservedKept(lines: seq<string>, policy: Policy)
    requires AllOneLine(lines)
    ensures var kept := Preserved(lines, policy);
      All(kept, Keeping(policy)) && DropLeadingBlank(kept) == kept
  {
    WithoutDropped(lines, policy);
    LeadingBlankKeeps(Without(lines, Dropping(policy)), Keeping(policy));
  }

  /** Carried lines say the same of every key that is not dropped, and nothing of one that is. */
  lemma PreservedFinds(lines: seq<string>, policy: Policy, key: string)
    requires AllOneLine(lines)
    ensures Find(Preserved(lines, policy), For(key)) == if policy.dropped(key) then None else Find(lines, For(key))
  {
    var kept := Without(lines, Dropping(policy));
    LeadingBlankKeys(lines := kept, key := key);
    if policy.dropped(key) {
      WithoutDropped(lines, policy);
      forall i | 0 <= i < |kept| ensures !HasKey(kept[i], key) { assert Keeping(policy)(kept[i]); }
      FindNone(kept, For(key));
    } else {
      FindWithout(lines, Dropping(policy), For(key));
    }
  }

  lemma TailFinds(preserved: seq<string>, policy: Policy, key: string)
    requires IsComment(policy.marker)
    ensures Find(Tail(preserved, policy), For(key)) == Find(preserved, For(key))
  {
    CommentHasNoEntry(policy.marker);
    BlankHasNoEntry([]);
    if preserved != [] {
      var tail := Tail(preserved, policy);
      assert tail[1..] == [policy.marker] + preserved && tail[1..][1..] == preserved;
      assert Find(tail[1..], For(key)) == Find(preserved, For(key));
    }
  }

  // ---- the file read again ---------------------------------------------------------------------------

  lemma ContentLines(settings: seq<Setting>, preserved: seq<string>, policy: Policy)
    requires Owned(settings, policy) && All(preserved, Keeping(policy))
    ensures FileLines(Some(Content(settings, preserved, policy))) == NewLines(settings, preserved, policy)
  {
    var lines := NewLines(settings, preserved, policy);
    SettingsDropped(settings, policy);
    NothingDropped(preserved, policy);
    assert AllOneLine(lines);
    ReadUnlines(lines);
    JoinEnded(lines);
  }

  lemma JoinEnded(lines: seq<string>)
    ensures Join(lines + [[]]) == Unlines(lines)
  {
    assert (lines + [[]])[..|lines|] == lines;
    if lines != [] { JoinUnlines(lines); }
  }

  /** Every setting reads back, every other dropped key is absent, all the rest reads as before. */
  lemma RegeneratedReads(file: Option<string>, settings: seq<Setting>, policy: Policy, key: string)
    requires Owned(settings, policy)
    ensures var after := Some(Content(settings, Preserved(FileLines(file), policy), policy));
      && (forall i :: 0 <= i < |settings| && settings[i].key == key ==> Read(after, key) == Some(settings[i].value))
      && (!HasSetting(settings, key) && policy.dropped(key) ==> Read(after, key) == None)
      && (!policy.dropped(key) ==> Read(after, key) == Read(file, key))
  {
    var lines := FileLines(file);
    var preserved := Preserved(lines, policy);
    PreservedKept(lines, policy);
    ContentLines(settings, preserved, policy);
    FindAppend(LinesOf(settings), Tail(preserved, policy), For(key));
    forall i | 0 <= i < |settings| && settings[i].key == key
      ensures Find(NewLines(settings, preserved, policy), For(key)) == Some(LineFor(key, TextOf(settings[i])))
      ensures ValueOn(LineFor(key, TextOf(settings[i]))) == Some(settings[i].value)
    {
      SettingFound(settings, policy, i);
      SoundLine(settings[i], policy, key);
    }
    if !HasSetting(settings, key) {
      SettingNotFound(settings, policy, key);
      TailFinds(preserved, policy, key);
      PreservedFinds(lines, policy, key);
    }
  }

  /** The same lines are carried over once more. */
  lemma PreservedAgain(file: Option<string>, settings: seq<Setting>, policy: Policy)
    requires Owned(settings, policy)
    ensures var preserved := Preserved(FileLines(file), policy);
      Preserved(FileLines(Some(Content(settings, preserved, policy))), policy) == preserved
  {
    var preserved := Preserved(FileLines(file), policy);
    PreservedKept(FileLines(file), policy);
    ContentLines(settings, preserved, policy);
    NewLinesAgain(settings, preserved, policy);
  }

  lemma FirstPartDropped(a: seq<string>, b: seq<string>, hit: string -> bool)
    requires Without(a, hit) == []
    ensures Without(a + b, hit) == Without(b, hit)
  {
    WithoutAppend(a, b, hit);
  }

  lemma NewLinesAgain(settings: seq<Setting>, preserved: seq<string>, policy: Policy)
    requires Owned(settings, policy)
    requires All(preserved, Keeping(policy)) && DropLeadingBlank(preserved) == preserved
    ensures Preserved(NewLines(settings, preserved, policy), policy) == preserved
  {
    SettingsDropped(settings, policy);
    FirstPartDropped(LinesOf(settings), Tail(preserved, policy), Dropping(policy));
    NothingDropped(preserved, policy);
    TailAgain(preserved, policy);
  }

  lemma WithoutSecond(a: string, b: string, rest: seq<string>, hit: string -> bool)
    requires !hit(a) && hit(b)
    ensures Without([a, b] + rest, hit) == [a] + Without(rest, hit)
  {
    var all := [a, b] + rest;
    assert all[1..] == [b] + rest && all[1..][1..] == rest;
  }

  lemma BlankDropped(rest: seq<string>)
    ensures DropLeadingBlank([[]] + rest) == DropLeadingBlank(rest)
  {
    assert ([[]] + rest)[1..] == rest;
  }

  lemma TailAgain(preserved: seq<string>, policy: Policy)
    requires IsComment(policy.marker)
    requires Without(preserved, Dropping(policy)) == preserved && DropLeadingBlank(preserved) == preserved
    ensures DropLeadingBlank(Without(Tail(preserved, policy), Dropping(policy))) == preserved
  {
    CommentHasNoEntry(policy.marker);
    BlankHasNoEntry([]);
    if preserved != [] {
      WithoutSecond([], policy.marker, preserved, Dropping(policy));
      BlankDropped(preserved);
    }
  }
}
