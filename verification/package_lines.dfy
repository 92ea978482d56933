/** Package names and `name==version` lines, as both sides of the training lock read them. */
module PackageLines {

  import opened Common
  import opened Text

  predicate IsSeparator(c: char) { c == '-' || c == '_' || c == '.' }

  predicate IsUpper(c: char) { 'A' <= c <= 'Z' }

  function Lower(c: char): char { if IsUpper(c) then c - 'A' + 'a' else c }

  function LowerAll(s: string): (r: string)
    ensures |r| == |s| && forall i :: 0 <= i < |s| ==> r[i] == Lower(s[i])
  {
    if s == [] then [] else [Lower(s[0])] + LowerAll(s[1..])
  }

  function SkipSeparators(s: string): (r: string)
    ensures |r| <= |s| && (r == [] || !IsSeparator(r[0]))
    ensures s != [] && IsSeparator(s[0]) ==> |r| < |s|
  {
    if s != [] && IsSeparator(s[0]) then SkipSeparators(s[1..]) else s
  }

  /** Every run of separators becomes one hyphen. */
  function Collapse(s: string): string
    decreases |s|
  {
    if s == [] then []
    else if IsSeparator(s[0]) then ['-'] + Collapse(SkipSeparators(s))
    else [s[0]] + Collapse(s[1..])
  }

  /** The normal form of a package name. */
  function Pep503(name: string): string { LowerAll(Collapse(name)) }

  /** Only single hyphens separate, nothing is upper case. */
  predicate IsNormal(s: string) {
    && (forall i :: 0 <= i < |s| ==> !IsUpper(s[i]) && (IsSeparator(s[i]) ==> s[i] == '-'))
    && (forall i :: 0 <= i < |s| - 1 && IsSeparator(s[i]) ==> !IsSeparator(s[i + 1]))
  }

  predicate Collapsed(s: string) {
    && (forall i :: 0 <= i < |s| && IsSeparator(s[i]) ==> s[i] == '-')
    && (forall i :: 0 <= i < |s| - 1 && IsSeparator(s[i]) ==> !IsSeparator(s[i + 1]))
  }

  lemma {:induction false} CollapseCollapses(s: string)
    ensures Collapsed(Collapse(s))
    ensures s != [] ==> Collapse(s) != [] && (IsSeparator(Collapse(s)[0]) <==> IsSeparator(s[0]))
    decreases |s|
  {
    if s != [] {
      if IsSeparator(s[0]) { CollapseCollapses(SkipSeparators(s)); } else { CollapseCollapses(s[1..]); }
    }
  }

  lemma {:induction false} CollapseFixed(s: string)
    requires Collapsed(s)
    ensures Collapse(s) == s
    decreases |s|
  {
    if s != [] {
      CollapseFixed(s[1..]);
      if IsSeparator(s[0]) {
        assert SkipSeparators(s[1..]) == s[1..];
        assert s == ['-'] + s[1..];
      }
    }
  }

  lemma Pep503Normal(name: string)
    ensures IsNormal(Pep503(name))
  {
    CollapseCollapses(name);
  }

  lemma NormalFixed(name: string)
    requires IsNormal(name)
    ensures Pep503(name) == name
  {
    CollapseFixed(name);
  }

  /** Normalising once is enough; the results are exactly the normal names. */
  lemma Pep503Idempotent(name: string)
    ensures Pep503(Pep503(name)) == Pep503(name)
    ensures IsNormal(name) <==> Pep503(name) == name
  {
    Pep503Normal(name);
    NormalFixed(Pep503(name));
    if IsNormal(name) { NormalFixed(name); }
  }

  // ---- lines -----------------------------------------------------------------------------------------------

  predicate IsAlnum(c: char) { 'a' <= c <= 'z' || 'A' <= c <= 'Z' || '0' <= c <= '9' }

  predicate IsNameChar(c: char) { IsAlnum(c) || IsSeparator(c) }

  predicate IsName(s: string) { s != [] && IsAlnum(s[0]) && forall i :: 0 <= i < |s| ==> IsNameChar(s[i]) }

  /** A version has no whitespace; pip's own output has no semicolon in it either. */
  predicate IsVersionChar(c: char, semicolons: bool) { !IsSpace(c) && (semicolons || c != ';') }

  predicate IsVersion(s: string, semicolons: bool) {
    s != [] && forall i :: 0 <= i < |s| ==> IsVersionChar(s[i], semicolons)
  }

  datatype Pin = Pin(name: string, version: string)

  /** How many name characters the line begins with. */
  function NameLength(line: string): (n: nat)
    ensures n <= |line| && (forall i :: 0 <= i < n ==> IsNameChar(line[i]))
    ensures n < |line| ==> !IsNameChar(line[n])
  {
    if line == [] || !IsNameChar(line[0]) then 0 else NameLength(line[1..]) + 1
  }

  /** The full match of `name==version`. */
  function ParsePin(line: string, semicolons: bool): Option<Pin> {
    var n := NameLength(line);
    if n > 0 && IsAlnum(line[0]) && n + 2 < |line| && line[n] == '=' && line[n + 1] == '=' &&
      IsVersion(line[n + 2..], semicolons)
    then Some(Pin(line[..n], line[n + 2..]))
    else None
  }

  function PinLine(pin: Pin): string { pin.name + ['=', '='] + pin.version }

  lemma ParsePinned(pin: Pin, semicolons: bool)
    requires IsName(pin.name) && IsVersion(pin.version, semicolons)
    ensures ParsePin(PinLine(pin), semicolons) == Some(pin)
  {
    var line, n := PinLine(pin), |pin.name|;
    assert line[n] == '=' && line[n + 1] == '=' && forall i :: 0 <= i < n ==> line[i] == pin.name[i];
    assert NameLength(line) == n;
    assert line[..n] == pin.name && line[n + 2..] == pin.version;
  }

  lemma ParsedIsPinned(line: string, semicolons: bool)
    requires ParsePin(line, semicolons).Some?
    ensures var pin := ParsePin(line, semicolons).value;
      IsName(pin.name) && IsVersion(pin.version, semicolons) && PinLine(pin) == line
  {
    var n := NameLength(line);
    assert line == line[..n] + ['=', '='] + line[n + 2..];
  }

  lemma {:induction false} CollapseNameChars(s: string)
    requires forall i :: 0 <= i < |s| ==> IsNameChar(s[i])
    ensures forall i :: 0 <= i < |Collapse(s)| ==> IsNameChar(Collapse(s)[i])
    decreases |s|
  {
    if s != [] {
      if IsSeparator(s[0]) {
        SkippedChars(s);
        CollapseNameChars(SkipSeparators(s));
      } else {
        CollapseNameChars(s[1..]);
      }
    }
  }

  lemma {:induction false} SkippedChars(s: string)
    requires forall i :: 0 <= i < |s| ==> IsNameChar(s[i])
    ensures forall i :: 0 <= i < |SkipSeparators(s)| ==> IsNameChar(SkipSeparators(s)[i])
  {
    if s != [] && IsSeparator(s[0]) { SkippedChars(s[1..]); }
  }

  lemma Pep503Name(name: string)
    requires IsName(name)
    ensures IsName(Pep503(name))
  {
    CollapseCollapses(name);
    CollapseNameChars(name);
    assert Collapse(name)[0] == name[0];
  }
}
