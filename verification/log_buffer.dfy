/** The training host's `training_log.txt` in memory: the first megabyte, then the newest lines. */
module LogBuffers {
  import opened Text
  import opened BoundedLog

  function CharSize(c: char): nat {
    if c as int < 0x80 then 1 else if c as int < 0x800 then 2 else if c as int < 0x10000 then 3 else 4
  }

  /** `len(s.encode("utf-8"))`. */
  function Size(s: string): nat {
    if s == "" then 0 else CharSize(s[0]) + Size(s[1..])
  }

  function Terminated(line: string): string {
    if |line| > 0 && line[|line| - 1] == '\n' then line else line + "\n"
  }

  function Concat(lines: seq<string>): string {
    if |lines| == 0 then "" else Concat(Init(lines)) + Last(lines)
  }

  function Marker(dropped: nat): string { "[... " + Decimal(dropped) + " lines omitted ...]\n" }

  function Render(b: Log<string>): string {
    Concat(b.head) + (if b.dropped > 0 then Marker(b.dropped) else "") + Concat(b.tail)
  }

  class LogBuffer {
    var head: seq<string>
    var headBytes: nat
    var tail: seq<string>
    var tailBytes: nat
    var dropped: nat

    function View(): Log<string>
      reads this
    {
      Log(head, tail, dropped)
    }

    ghost predicate Valid()
      reads this
    {
      headBytes == Total(Size, head) && tailBytes == Total(Size, tail) && headBytes <= LOG_HEAD_BYTES
    }

    constructor ()
      ensures Valid() && View() == Run(Size, [])
    {
      head, headBytes, tail, tailBytes, dropped := [], 0, [], 0, 0;
    }

    /** `add`. */
    method Append(line: string)
      requires Valid()
      modifies this
      ensures Valid() && View() == Add(Size, old(View()), Terminated(line))
    {
      var text := Terminated(line);
      var n := Size(text);
      if headBytes + n <= LOG_HEAD_BYTES && tail == [] {
        TotalBack(head, text);
        head := head + [text];
        headBytes := headBytes + n;
        return;
      }
      TotalBack(tail, text);
      AddsToTail(View(), text);
      tail := tail + [text];
      tailBytes := tailBytes + n;
      DropOldest();
    }

    static lemma AddsToTail(b: Log<string>, text: string)
      requires !ToHead(Size, b, text)
      ensures Add(Size, b, text) == Refit(Size, b.head, b.dropped, b.tail + [text])
    {
    }

    static lemma TotalBack(lines: seq<string>, x: string)
      ensures Total(Size, lines + [x]) == Total(Size, lines) + Size(x)
    {
      assert Init(lines + [x]) == lines;
    }

    /** The loop at the end of `add`. */
    method DropOldest()
      requires Valid()
      modifies this`tail, this`tailBytes, this`dropped
      ensures Valid() && View() == Refit(Size, head, old(dropped), old(tail))
    {
      ghost var waiting, room := tail, LOG_MAX_BYTES - headBytes;
      while tail != [] && headBytes + tailBytes > LOG_MAX_BYTES
        invariant tailBytes == Total(Size, tail)
        invariant Trim(Size, waiting, room) == Trim(Size, tail, room)
        invariant dropped == old(dropped) + |waiting| - |tail|
        decreases |tail|
      {
        TrimStep(tail, room);
        DropOne();
      }
      TrimStep(tail, room);
    }

    static lemma TrimStep(lines: seq<string>, room: int)
      ensures Trim(Size, lines, room)
        == if |lines| > 0 && Total(Size, lines) > room then Trim(Size, lines[1..], room) else lines
    {
    }

    method DropOne()
      requires tail != [] && tailBytes == Total(Size, tail)
      modifies this`tail, this`tailBytes, this`dropped
      ensures tail == old(tail)[1..] && tailBytes == Total(Size, tail) && dropped == old(dropped) + 1
    {
      TotalFront(Size, tail);
      var oldest := tail[0];
      tail := tail[1..];
      tailBytes := tailBytes - Size(oldest);
      dropped := dropped + 1;
    }

    /** `to_bytes`, before the encoding. */
    method ToText() returns (text: string)
      ensures text == Render(View())
    {
      text := Concat(head);
      if dropped > 0 { text := text + Marker(dropped); }
      text := text + Concat(tail);
    }
  }

  // ---- the size of the file ------------------------------------------------------------------------

  lemma {:induction false} SizeAppend(a: string, b: string)
    ensures Size(a + b) == Size(a) + Size(b)
  {
    if a == "" {
      assert a + b == b;
    } else {
      assert (a + b)[1..] == a[1..] + b;
      SizeAppend(a[1..], b);
    }
  }

  lemma {:induction false} AsciiSize(s: string)
    requires Ascii(s)
    ensures Size(s) == |s|
  {
    if s != "" { AsciiSize(s[1..]); }
  }

  lemma {:induction false} ConcatSize(lines: seq<string>)
    ensures Size(Concat(lines)) == Total(Size, lines)
  {
    if |lines| > 0 {
      ConcatSize(Init(lines));
      SizeAppend(Concat(Init(lines)), Last(lines));
    }
  }

  lemma MarkerSize(dropped: nat)
    ensures Size(Marker(dropped)) == 25 + |Decimal(dropped)|
  {
    Around("[... ", Decimal(dropped), " lines omitted ...]\n");
  }

  predicate Ascii(s: string) { forall i :: 0 <= i < |s| ==> s[i] as int < 128 }

  lemma Around(before: string, digits: string, after: string)
    requires Ascii(before) && Ascii(digits) && Ascii(after)
    ensures Size(before + digits + after) == |before| + |digits| + |after|
  {
    AsciiSize(before + digits + after);
  }

  /** The file of any run short of 10^65511 lines is at most 32 MiB. */
  lemma RenderFits(lines: seq<string>)
    requires |lines| < Pow10(65511)
    ensures Size(Render(Run(Size, lines))) <= 32 * 1024 * 1024
  {
    AlwaysInBounds(Size, lines);
    var b := Run(Size, lines);
    var marker := if b.dropped > 0 then Marker(b.dropped) else "";
    ConcatSize(b.head);
    ConcatSize(b.tail);
    SizeAppend(Concat(b.head), marker);
    SizeAppend(Concat(b.head) + marker, Concat(b.tail));
    MarkerSize(b.dropped);
    DecimalLength(b.dropped, 65511);
  }

  // ---- a line too long for the tail ----------------------------------------------------------------

  function Repeat(c: char, n: nat): (s: string)
    ensures |s| == n && forall i :: 0 <= i < n ==> s[i] == c
  {
    seq(n, _ => c)
  }

  /** A line of more than LOG_MAX_BYTES is dropped at once, and the next short line lands in the head
      although the long one came before it. */
  lemma LongLineBreaksShape()
    ensures var lines := [Repeat('a', LOG_MAX_BYTES) + "\n"] + ["b\n"];
      Run(Size, lines) == Log(["b\n"], [], 1) && !Shape(lines, Run(Size, lines))
  {
    var long := Repeat('a', LOG_MAX_BYTES) + "\n";
    assert Size(long) == LOG_MAX_BYTES + 1 by { AsciiSize(long); }
    assert Size("b\n") == 2 by { AsciiSize("b\n"); }
    LongThenShort(Size, long, "b\n");
    assert |long| != |"b\n"|;
    assert ["b\n"][0] != ([long] + ["b\n"])[..1][0];
  }
}
