/** The bounded head-and-tail log over lines of any kind with a size in bytes, and the log it should be. */
module BoundedLog {

  const LOG_MAX_BYTES := 32 * 1024 * 1024 - 64 * 1024
  const LOG_HEAD_BYTES := 1024 * 1024

  datatype Log<T> = Log(head: seq<T>, tail: seq<T>, dropped: nat)

  function Init<T>(s: seq<T>): seq<T>
    requires |s| > 0
  {
    s[..|s| - 1]
  }

  function Last<T>(s: seq<T>): T
    requires |s| > 0
  {
    s[|s| - 1]
  }

  function Total<T>(size: T -> nat, lines: seq<T>): nat {
    if |lines| == 0 then 0 else Total(size, Init(lines)) + size(Last(lines))
  }

  /** The drop loop: the oldest lines go until the rest fits, or none is left. */
  function Trim<T>(size: T -> nat, lines: seq<T>, room: int): (kept: seq<T>)
    ensures |kept| <= |lines|
  {
    if |lines| > 0 && Total(size, lines) > room then Trim(size, lines[1..], room) else lines
  }

  predicate FitsHead<T>(size: T -> nat, b: Log<T>, line: T) { Total(size, b.head) + size(line) <= LOG_HEAD_BYTES }

  predicate ToHead<T>(size: T -> nat, b: Log<T>, line: T) { FitsHead(size, b, line) && |b.tail| == 0 }

  /** A log that keeps `kept` of `count` lines behind its head. */
  function Held<T>(head: seq<T>, kept: seq<T>, count: nat): Log<T>
    requires |kept| <= count
  {
    Log(head, kept, count - |kept|)
  }

  /** The newest of the lines waiting for the tail, as many as fit. */
  function Refit<T>(size: T -> nat, head: seq<T>, dropped: nat, waiting: seq<T>): Log<T> {
    Held(head, Trim(size, waiting, LOG_MAX_BYTES - Total(size, head)), dropped + |waiting|)
  }

  function Add<T>(size: T -> nat, b: Log<T>, line: T): Log<T> {
    if ToHead(size, b, line) then Log(b.head + [line], b.tail, b.dropped)
    else Refit(size, b.head, b.dropped, b.tail + [line])
  }

  function Run<T>(size: T -> nat, lines: seq<T>): Log<T> {
    if |lines| == 0 then Log([], [], 0) else Add(size, Run(size, Init(lines)), Last(lines))
  }

  // ---- what the log should be --------------------------------------------------------------------

  /** How many lines from the front fit into `room` bytes, up to the first that does not. */
  function HeadLen<T>(size: T -> nat, lines: seq<T>, room: nat): (h: nat)
    ensures h <= |lines|
  {
    if |lines| == 0 then 0 else
      var h := HeadLen(size, Init(lines), room);
      if h == |lines| - 1 && Total(size, lines) <= room then |lines| else h
  }

  /** The longest run of newest lines that fits into `room` bytes. */
  function TailOf<T>(size: T -> nat, lines: seq<T>, room: int): (r: seq<T>)
    ensures |r| <= |lines|
  {
    if |lines| == 0 || size(Last(lines)) > room then []
    else TailOf(size, Init(lines), room - size(Last(lines))) + [Last(lines)]
  }

  function Headed<T>(size: T -> nat, lines: seq<T>): seq<T> { lines[..HeadLen(size, lines, LOG_HEAD_BYTES)] }

  function Rest<T>(size: T -> nat, lines: seq<T>): seq<T> { lines[HeadLen(size, lines, LOG_HEAD_BYTES)..] }

  function TailLog<T>(size: T -> nat, head: seq<T>, rest: seq<T>): Log<T> {
    Held(head, TailOf(size, rest, LOG_MAX_BYTES - Total(size, head)), |rest|)
  }

  /** First a head of at most LOG_HEAD_BYTES, then the newest lines that still fit LOG_MAX_BYTES; everything
      between them is counted as dropped. */
  function Ideal<T>(size: T -> nat, lines: seq<T>): Log<T> { TailLog(size, Headed(size, lines), Rest(size, lines)) }

  /** The buffer holds a prefix and a suffix of all lines, with exactly `dropped` lines between them. */
  ghost predicate Shape<T>(lines: seq<T>, b: Log<T>) {
    && |lines| == |b.head| + b.dropped + |b.tail|
    && b.head == lines[..|b.head|]
    && b.tail == lines[|b.head| + b.dropped..]
  }

  /** The branch that breaks the shape: after a drop has emptied the tail, a line small enough for the
      head is put there, past the lines already dropped. */
  predicate Misplaces<T>(size: T -> nat, b: Log<T>, line: T) { b.dropped > 0 && ToHead(size, b, line) }

  predicate NeverMisplaces<T>(size: T -> nat, lines: seq<T>) {
    |lines| == 0 ||
    (NeverMisplaces(size, Init(lines)) && !Misplaces(size, Run(size, Init(lines)), Last(lines)))
  }

  // ---- sizes -------------------------------------------------------------------------------------

  lemma {:induction false} TotalFront<T>(size: T -> nat, lines: seq<T>)
    requires |lines| > 0
    ensures Total(size, lines) == size(lines[0]) + Total(size, lines[1..])
    decreases |lines|
  {
    if |lines| > 1 {
      TotalFront(size, Init(lines));
      assert Init(lines)[1..] == Init(lines[1..]);
    }
  }

  lemma HeadFits<T>(size: T -> nat, lines: seq<T>, room: nat)
    ensures var h := HeadLen(size, lines, room);
      Total(size, lines[..h]) <= room && (h < |lines| ==> Total(size, lines[..h]) + size(lines[h]) > room)
  {
    if |lines| > 0 {
      var n := |lines| - 1;
      HeadFits(size, Init(lines), room);
      var h := HeadLen(size, Init(lines), room);
      assert Init(lines)[..h] == lines[..h];
      assert lines[..|lines|] == lines;
      if h == n { assert lines[..n] == Init(lines); }
    }
  }

  // ---- dropping from the front keeps the longest newest run ----------------------------------------

  lemma {:induction false} TailIsSuffix<T>(size: T -> nat, lines: seq<T>, room: int)
    ensures var t := TailOf(size, lines, room); t == lines[|lines| - |t|..]
  {
    if |lines| > 0 && size(Last(lines)) <= room { TailIsSuffix(size, Init(lines), room - size(Last(lines))); }
  }

  lemma {:induction false} TailShrinks<T>(size: T -> nat, lines: seq<T>, room: int, less: int)
    requires less <= room
    ensures TailOf(size, TailOf(size, lines, room), less) == TailOf(size, lines, less)
  {
    if |lines| > 0 && size(Last(lines)) <= room {
      var t := TailOf(size, lines, room);
      TailEnds(size, lines, room);
      if size(Last(lines)) <= less {
        TailShrinks(size, Init(lines), room - size(Last(lines)), less - size(Last(lines)));
        TailStarts(size, lines, less);
        TailStarts(size, t, less);
      }
    }
  }

  lemma TailStarts<T>(size: T -> nat, lines: seq<T>, room: int)
    requires |lines| > 0 && size(Last(lines)) <= room
    ensures TailOf(size, lines, room) == TailOf(size, Init(lines), room - size(Last(lines))) + [Last(lines)]
  {
  }

  lemma TailEnds<T>(size: T -> nat, lines: seq<T>, room: int)
    requires |lines| > 0 && size(Last(lines)) <= room
    ensures var t := TailOf(size, lines, room);
      |t| > 0 && Last(t) == Last(lines) && Init(t) == TailOf(size, Init(lines), room - size(Last(lines)))
  {
  }

  lemma {:induction false} TailWhole<T>(size: T -> nat, lines: seq<T>, room: int)
    requires room >= 0
    ensures Total(size, lines) <= room <==> TailOf(size, lines, room) == lines
  {
    if |lines| > 0 && size(Last(lines)) <= room {
      TailWhole(size, Init(lines), room - size(Last(lines)));
      assert lines == Init(lines) + [Last(lines)];
      TailEnds(size, lines, room);
    }
  }

  lemma {:induction false} TailDropsFront<T>(size: T -> nat, lines: seq<T>, room: int)
    requires room >= 0 && |lines| > 0 && Total(size, lines) > room
    ensures TailOf(size, lines, room) == TailOf(size, lines[1..], room)
    decreases |lines|
  {
    if |lines| > 1 && size(Last(lines)) <= room {
      assert Init(lines[1..]) == Init(lines)[1..];
      TailDropsFront(size, Init(lines), room - size(Last(lines)));
    }
  }

  lemma {:induction false} TrimIsTail<T>(size: T -> nat, lines: seq<T>, room: int)
    requires room >= 0
    ensures Trim(size, lines, room) == TailOf(size, lines, room)
  {
    TailWhole(size, lines, room);
    if |lines| > 0 && Total(size, lines) > room {
      TrimIsTail(size, lines[1..], room);
      TailDropsFront(size, lines, room);
    }
  }

  lemma {:induction false} TrimFits<T>(size: T -> nat, lines: seq<T>, room: int)
    requires room >= 0
    ensures Total(size, Trim(size, lines, room)) <= room
  {
    if |lines| > 0 && Total(size, lines) > room { TrimFits(size, lines[1..], room); }
  }

  lemma TailExtend<T>(size: T -> nat, rest: seq<T>, x: T, room: int)
    requires room >= 0
    ensures TailOf(size, rest + [x], room) == Trim(size, TailOf(size, rest, room) + [x], room)
  {
    var t := TailOf(size, rest, room) + [x];
    TrimIsTail(size, t, room);
    assert Init(rest + [x]) == rest && Init(t) == TailOf(size, rest, room);
    if size(x) <= room { TailShrinks(size, rest, room, room - size(x)); }
  }

  // ---- the buffer is the ideal log, as long as no line is misplaced ----------------------------------

  /** One more line either still belongs to the head, or leaves the head as it is. */
  lemma HeadStep<T>(size: T -> nat, past: seq<T>, x: T)
    ensures var grows := Rest(size, past) == [] && Total(size, past) + size(x) <= LOG_HEAD_BYTES;
      && Headed(size, past + [x]) == (if grows then Headed(size, past) + [x] else Headed(size, past))
      && Rest(size, past + [x]) == (if grows then [] else Rest(size, past) + [x])
  {
    var lines := past + [x];
    assert Init(lines) == past;
    if Rest(size, past) == [] { assert |past| == HeadLen(size, past, LOG_HEAD_BYTES); }
  }

  lemma IdealStep<T>(size: T -> nat, past: seq<T>, x: T, lines: seq<T>)
    requires lines == past + [x] && !Misplaces(size, Ideal(size, past), x)
    ensures Ideal(size, lines) == Add(size, Ideal(size, past), x)
  {
    var head, rest := Headed(size, past), Rest(size, past);
    HeadFits(size, past, LOG_HEAD_BYTES);
    HeadStep(size, past, x);
    if rest == [] { assert head == past; }
    if rest == [] && Total(size, past) + size(x) <= LOG_HEAD_BYTES {
      assert Init(head + [x]) == head;
    } else {
      assert !ToHead(size, Ideal(size, past), x);
      TailStep(size, head, rest, x);
    }
  }

  lemma TailStep<T>(size: T -> nat, head: seq<T>, rest: seq<T>, x: T)
    requires Total(size, head) <= LOG_HEAD_BYTES
    ensures var b := TailLog(size, head, rest);
      TailLog(size, head, rest + [x]) == Refit(size, head, b.dropped, b.tail + [x])
  {
    TailExtend(size, rest, x, LOG_MAX_BYTES - Total(size, head));
  }

  lemma {:induction false} RunIsIdeal<T>(size: T -> nat, lines: seq<T>)
    requires NeverMisplaces(size, lines)
    ensures Run(size, lines) == Ideal(size, lines)
  {
    if |lines| > 0 {
      RunIsIdeal(size, Init(lines));
      IdealStep(size, Init(lines), Last(lines), lines);
    }
  }

  lemma IdealShape<T>(size: T -> nat, lines: seq<T>)
    ensures Shape(lines, Ideal(size, lines))
  {
    var h := HeadLen(size, lines, LOG_HEAD_BYTES);
    TailIsSuffix(size, Rest(size, lines), LOG_MAX_BYTES - Total(size, Headed(size, lines)));
  }

  /** Line number `i` of the head is not line number `i` of the run. */
  ghost predicate Wrong<T>(lines: seq<T>, b: Log<T>, i: nat) {
    i < |b.head| && i < |lines| && b.head[i] != lines[i]
  }

  lemma {:induction false} BrokenHead<T>(size: T -> nat, lines: seq<T>) returns (i: nat)
    requires !NeverMisplaces(size, lines)
    ensures Wrong(lines, Run(size, lines), i)
  {
    var past := Init(lines);
    if NeverMisplaces(size, past) {
      RunIsIdeal(size, past);
      HeadFits(size, past, LOG_HEAD_BYTES);
      i := HeadLen(size, past, LOG_HEAD_BYTES);
    } else {
      i := BrokenHead(size, past);
    }
  }

  /** Exactly when the log keeps its promise: over any lines at all, it is a prefix and a suffix with the
      counted gap between them, and indeed the ideal log, if and only if no line was ever put into the head
      after a drop had emptied the tail. */
  lemma ShapeIff<T>(size: T -> nat, lines: seq<T>)
    ensures NeverMisplaces(size, lines) <==> Shape(lines, Run(size, lines))
    ensures NeverMisplaces(size, lines) <==> Run(size, lines) == Ideal(size, lines)
  {
    IdealShape(size, lines);
    if NeverMisplaces(size, lines) {
      RunIsIdeal(size, lines);
    } else {
      var i := BrokenHead(size, lines);
    }
  }

  /** Lines of at most LOG_MAX_BYTES - LOG_HEAD_BYTES bytes never break it. */
  lemma {:induction false} ShortLinesKeepShape<T>(size: T -> nat, lines: seq<T>)
    requires forall i :: 0 <= i < |lines| ==> size(lines[i]) <= LOG_MAX_BYTES - LOG_HEAD_BYTES
    ensures NeverMisplaces(size, lines) && Run(size, lines) == Ideal(size, lines)
    ensures Shape(lines, Run(size, lines))
  {
    if |lines| > 0 {
      var past := Init(lines);
      ShortLinesKeepShape(size, past);
      HeadFits(size, past, LOG_HEAD_BYTES);
    }
    ShapeIff(size, lines);
  }

  /** A line too long for the tail is dropped at once, and a short one after it lands in the head. */
  lemma LongThenShort<T>(size: T -> nat, long: T, short: T)
    requires size(long) > LOG_MAX_BYTES && size(short) <= LOG_HEAD_BYTES
    ensures Run(size, [long] + [short]) == Log([short], [], 1)
  {
    var nothing: Log<T>, dropped: Log<T> := Log([], [], 0), Log([], [], 1);
    assert Init([long]) == [] && Last([long]) == long && [long][1..] == [];
    assert Total(size, [long]) == size(long);
    assert Run(size, [long]) == Add(size, nothing, long) == Refit(size, [], 0, [] + [long]);
    assert Trim(size, [] + [long], LOG_MAX_BYTES) == [] by { assert [] + [long] == [long]; }
    assert Init([long] + [short]) == [long];
    assert Run(size, [long] + [short]) == Add(size, dropped, short);
  }

  ghost predicate InBounds<T>(size: T -> nat, b: Log<T>) {
    Total(size, b.head) <= LOG_HEAD_BYTES && Total(size, b.head) + Total(size, b.tail) <= LOG_MAX_BYTES
  }

  function Count<T>(b: Log<T>): nat { |b.head| + b.dropped + |b.tail| }

  lemma AddInBounds<T>(size: T -> nat, b: Log<T>, line: T)
    requires InBounds(size, b)
    ensures InBounds(size, Add(size, b, line)) && Count(Add(size, b, line)) == Count(b) + 1
  {
    if ToHead(size, b, line) {
      assert Init(b.head + [line]) == b.head;
    } else {
      TrimFits(size, b.tail + [line], LOG_MAX_BYTES - Total(size, b.head));
    }
  }

  /** Whatever the lines: those held are at most LOG_MAX_BYTES, and `dropped` counts exactly the others. */
  lemma {:induction false} AlwaysInBounds<T>(size: T -> nat, lines: seq<T>)
    ensures InBounds(size, Run(size, lines)) && Count(Run(size, lines)) == |lines|
  {
    if |lines| > 0 {
      AlwaysInBounds(size, Init(lines));
      AddInBounds(size, Run(size, Init(lines)), Last(lines));
    }
  }
}
