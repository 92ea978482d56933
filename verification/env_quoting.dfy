/** How a value is quoted for the `.env` file, and read back. */
module EnvQuoting {

  import opened Text

  const BACKSLASH := '\\'
  const QUOTE := '"'

  /** `value.replace('\\', '\\\\').replace('"', '\\"')`. */
  function Escape(v: string): string {
    Replace(Replace(v, [BACKSLASH], [BACKSLASH, BACKSLASH]), [QUOTE], [BACKSLASH, QUOTE])
  }

  /** The opposite replacements, the quotes first. */
  function Unescape(v: string): string {
    Replace(Replace(v, [BACKSLASH, QUOTE], [QUOTE]), [BACKSLASH, BACKSLASH], [BACKSLASH])
  }

  function Quote(v: string): string { [QUOTE] + Escape(v) + [QUOTE] }

  function Unquote(text: string): string { WithoutQuotes(Strip(text)) }

  predicate InQuotes(v: string) { |v| >= 2 && v[0] == QUOTE && v[|v| - 1] == QUOTE }

  function WithoutQuotes(v: string): string { if InQuotes(v) then Unescape(v[1..|v| - 1]) else v }

  // ---- the two replacements of each side, one character at a time ------------------------------------

  /** Backslashes doubled. */
  function Doubled(v: string): string { Replace(v, [BACKSLASH], [BACKSLASH, BACKSLASH]) }

  /** What one character of the value becomes. */
  function EscapedChar(c: char): string {
    if c == BACKSLASH then [BACKSLASH, BACKSLASH] else if c == QUOTE then [BACKSLASH, QUOTE] else [c]
  }

  lemma EscapeStep(v: string)
    requires v != []
    ensures Escape(v) == EscapedChar(v[0]) + Escape(v[1..])
    ensures Doubled(v) == (if v[0] == BACKSLASH then [BACKSLASH, BACKSLASH] else [v[0]]) + Doubled(v[1..])
  {
    var d := Doubled(v[1..]);
    if v[0] == BACKSLASH {
      assert Doubled(v) == [BACKSLASH, BACKSLASH] + d;
      var e := [BACKSLASH] + d;
      assert ([BACKSLASH, BACKSLASH] + d)[1..] == e && e[1..] == d;
      assert Replace(e, [QUOTE], [BACKSLASH, QUOTE]) == [BACKSLASH] + Replace(d, [QUOTE], [BACKSLASH, QUOTE]);
    } else {
      assert Doubled(v) == [v[0]] + d;
      assert ([v[0]] + d)[1..] == d;
    }
  }

  /** Undoing the quotes leaves the doubled backslashes: an escaped string never starts with a quote. */
  lemma {:induction false} QuotesUndone(v: string)
    ensures Replace(Escape(v), [BACKSLASH, QUOTE], [QUOTE]) == Doubled(v)
    ensures Escape(v) == [] || Escape(v)[0] != QUOTE
  {
    if v != [] {
      QuotesUndone(v[1..]);
      EscapeStep(v);
      var e, rest := Escape(v), Escape(v[1..]);
      if v[0] == BACKSLASH {
        assert e[1..] == [BACKSLASH] + rest && e[1..][1..] == rest;
        assert e[..2] == [BACKSLASH, BACKSLASH];
        assert e[..2] != [BACKSLASH, QUOTE] by { assert e[1] == BACKSLASH; }
        assert rest != [] ==> e[1..][..2][1] == rest[0];
      } else if v[0] == QUOTE {
        assert e[..2] == [BACKSLASH, QUOTE] && e[2..] == rest;
      } else {
        assert e[1..] == rest;
        assert |e| >= 2 ==> e[..2][0] == v[0];
      }
    }
  }

  lemma {:induction false} Undoubled(v: string)
    ensures Replace(Doubled(v), [BACKSLASH, BACKSLASH], [BACKSLASH]) == v
  {
    if v != [] {
      Undoubled(v[1..]);
      EscapeStep(v);
      var d, rest := Doubled(v), Doubled(v[1..]);
      if v[0] == BACKSLASH {
        assert d[..2] == [BACKSLASH, BACKSLASH] && d[2..] == rest;
      } else {
        assert d[1..] == rest;
        assert |d| >= 2 ==> d[..2][0] == v[0];
      }
    }
  }

  /** Every string survives being quoted and unquoted. */
  lemma RoundTrip(v: string)
    ensures Unquote(Quote(v)) == v
  {
    var q := Quote(v);
    StripTight(q);
    assert q[1..|q| - 1] == Escape(v);
    QuotesUndone(v);
    Undoubled(v);
  }

  /** Unquoting leaves alone exactly what has no blank at its ends and is not in quotes. */
  lemma UnquoteSameIff(v: string)
    ensures Unquote(v) == v <==> Tight(v) && !InQuotes(v)
  {
    var s := Strip(v);
    StripTight(v);
    RStripShorter(v);
    LStripShorter(RStrip(v));
    if InQuotes(s) {
      var inner := s[1..|s| - 1];
      ReplaceShorter(inner, [BACKSLASH, QUOTE], [QUOTE]);
      ReplaceShorter(Replace(inner, [BACKSLASH, QUOTE], [QUOTE]), [BACKSLASH, BACKSLASH], [BACKSLASH]);
      assert |Unquote(v)| < |v|;
    }
  }

  /** Whitespace after a value does not matter. */
  lemma UnquoteRStrip(text: string)
    ensures Unquote(RStrip(text)) == Unquote(text)
  {
    StripRStrip(text);
  }

  lemma UnquoteChars(text: string)
    ensures forall c :: c in Unquote(text) ==> c in text || c == QUOTE || c == BACKSLASH
  {
    StripTight(text);
  }

  lemma QuoteChars(v: string)
    ensures forall c :: c in Quote(v) ==> c in v || c == QUOTE || c == BACKSLASH
    ensures forall c :: c in v ==> c in Quote(v)
  {
    forall c | c in v ensures c in Quote(v) { EscapeKeeps(v, c); }
  }

  lemma {:induction false} EscapeKeeps(v: string, c: char)
    requires c in v
    ensures c in Escape(v)
  {
    EscapeStep(v);
    if c != v[0] { EscapeKeeps(v[1..], c); } else { assert c in EscapedChar(c); }
  }
}
