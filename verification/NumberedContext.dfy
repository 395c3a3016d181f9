/** A source text with line numbers, cut in the middle when it exceeds a budget. */
module NumberedContext {
  import Lines

  // ----- decimal numbers -----

  function Decimal(n: nat): (s: string)
    ensures s != ""
  {
    if n < 10 then [Digit(n)] else Decimal(n / 10) + [Digit(n % 10)]
  }

  function Digit(d: nat): char
    requires d < 10
  {
    "0123456789"[d]
  }

  function ZeroPadded(n: nat, width: nat): string {
    var s := Decimal(n);
    seq(if |s| < width then width - |s| else 0, _ => '0') + s
  }

  lemma {:induction false} DecimalGrows(m: nat, n: nat)
    requires m <= n
    ensures |Decimal(m)| <= |Decimal(n)|
  {
    if m >= 10 {
      DecimalGrows(m / 10, n / 10);
    }
  }

  /** The number that a text of digits stands for. */
  function Value(s: string): nat {
    if s == "" then 0 else 10 * Value(s[..|s| - 1]) + DigitValue(s[|s| - 1])
  }

  function DigitValue(c: char): nat {
    if '0' <= c <= '9' then c as nat - '0' as nat else 0
  }

  lemma {:induction false} DecimalReadsBack(n: nat)
    ensures Value(Decimal(n)) == n
  {
    var s := Decimal(n);
    if n < 10 {
      assert s[..0] == "" && s == [Digit(n)];
    } else {
      DecimalReadsBack(n / 10);
      assert s[..|s| - 1] == Decimal(n / 10) && s[|s| - 1] == Digit(n % 10);
    }
  }

  lemma {:induction false} LeadingZeros(k: nat, s: string)
    ensures Value(seq(k, _ => '0') + s) == Value(s)
    decreases k + |s|
  {
    var zeros := seq(k, _ => '0');
    if s != "" {
      assert (zeros + s)[..|zeros + s| - 1] == zeros + s[..|s| - 1];
      LeadingZeros(k, s[..|s| - 1]);
    } else if k > 0 {
      assert (zeros + s)[..|zeros + s| - 1] == seq(k - 1, _ => '0') + s;
      LeadingZeros(k - 1, s);
    }
  }

  /** A line number fills its column, and reads back as itself. */
  lemma {:induction false} NumberReadsBack(n: nat, width: nat)
    requires |Decimal(n)| <= width
    ensures |ZeroPadded(n, width)| == width && Value(ZeroPadded(n, width)) == n
  {
    DecimalReadsBack(n);
    LeadingZeros(width - |Decimal(n)|, Decimal(n));
  }

  // ----- rendering -----

  /** The text of a line, without its terminator. */
  function Body(line: string): string {
    if line == "" || !Lines.IsBreak(line[|line| - 1]) then line
    else if |line| > 1 && line[|line| - 1] == '\n' && line[|line| - 2] == '\r' then line[..|line| - 2]
    else line[..|line| - 1]
  }

  const LINE_MARKER := "[... line truncated ...]"

  function Budget(maxChars: int): nat {
    if maxChars < 512 then 512 else maxChars
  }

  function LineLimit(budget: nat): nat {
    var third := budget / 3;
    if third < 64 then 64 else if third > 256 then 256 else third
  }

  function Width(count: nat): nat {
    |Decimal(if count < 1 then 1 else count)|
  }

  function Render(number: nat, width: nat, line: string, limit: nat): string {
    var prefix := ZeroPadded(number, width) + "|";
    prefix + Fitted(line, |prefix|, limit)
  }

  /** What stands behind a prefix of length `used`: the line, or its shortened form. */
  function Fitted(line: string, used: nat, limit: nat): string {
    if used + |line| > limit then
      var room := limit - used - |LINE_MARKER|;
      Shortened(line, if room < 2 then 2 else room)
    else line
  }

  /** Two thirds of the retained characters from the beginning, the others from the end. */
  function Shortened(line: string, retained: nat): string {
    var head := retained * 2 / 3;
    Take(line, head) + LINE_MARKER + Last(line, retained - head)
  }

  /** Python's `line[:n]`. */
  function Take(s: string, n: nat): string {
    if n <= |s| then s[..n] else s
  }

  /** Python's `line[-n:]` for a positive `n`. */
  function Last(s: string, n: nat): string {
    if n <= |s| then s[|s| - n..] else s
  }

  function Rendered(source: string, budget: nat): seq<string> {
    var lines := Lines.SplitLines(source);
    seq(|lines|, i requires 0 <= i < |lines| =>
      Render(i + 1, Width(|lines|), Body(lines[i]), LineLimit(budget)))
  }

  /** Python's `"\n".join`. */
  function JoinLines(parts: seq<string>): string {
    if parts == [] then ""
    else if |parts| == 1 then parts[0]
    else parts[0] + "\n" + JoinLines(parts[1..])
  }

  /** The size of the parts when each is followed by a newline. */
  function Size(parts: seq<string>): nat {
    if parts == [] then 0 else |parts[0]| + 1 + Size(parts[1..])
  }

  function OmissionMarker(first: nat, last: nat): string {
    "... omitted source lines " + Decimal(first) + "-" + Decimal(last) + " ..."
  }

  lemma {:induction false} JoinSize(parts: seq<string>)
    ensures parts != [] ==> |JoinLines(parts)| == Size(parts) - 1
  {
    if |parts| > 1 {
      JoinSize(parts[1..]);
    }
  }

  lemma {:induction false} SizeAppend(a: seq<string>, b: seq<string>)
    ensures Size(a + b) == Size(a) + Size(b)
  {
    if a == [] {
      assert a + b == b;
    } else {
      SizeAppend(a[1..], b);
      assert (a + b)[1..] == a[1..] + b;
    }
  }

  lemma MarkerLength()
    ensures |LINE_MARKER| == 24
  {
  }

  /** `rest` is the two ends of a line around the marker, and it fills the room exactly. */
  ghost predicate ShowsEnds(rest: string, line: string, room: nat, head: nat, tail: nat) {
    && 0 < tail <= head && head + tail < |line| && |rest| == room
    && rest == line[..head] + LINE_MARKER + line[|line| - tail..]
  }

  /** `rest` is the line if there is room for it, and else both its ends. */
  ghost predicate ShowsWithin(rest: string, line: string, room: nat) {
    if |line| <= room then rest == line else ShowsBothEnds(rest, line, room)
  }

  ghost predicate ShowsBothEnds(rest: string, line: string, room: nat) {
    exists head, tail :: ShowsEnds(rest, line, room, head, tail)
  }

  lemma ShortenedShows(line: string, retained: nat)
    requires 6 <= retained < |line|
    ensures ShowsBothEnds(Shortened(line, retained), line, retained + |LINE_MARKER|)
  {
    var head := retained * 2 / 3;
    assert ShowsEnds(Shortened(line, retained), line, retained + |LINE_MARKER|, head, retained - head);
  }

  /** `shown` is a column with the number, a bar, and the line as far as there is room. */
  ghost predicate ShowsLine(shown: string, number: nat, width: nat, line: string, room: nat) {
    exists column, rest :: shown == column + "|" + rest
      && HoldsNumber(column, number, width) && ShowsWithin(rest, line, room)
  }

  ghost predicate HoldsNumber(column: string, number: nat, width: nat) {
    |column| == width && Value(column) == number
  }

  lemma FittedShows(line: string, used: nat, room: nat)
    requires room >= 52
    ensures ShowsWithin(Fitted(line, used, used + room), line, room)
  {
    MarkerLength();
    if |line| > room {
      ShortenedShows(line, room - 24);
    }
  }

  /** Every rendered line shows its line behind a number that reads back. */
  lemma {:induction false} RenderShows(number: nat, width: nat, line: string, room: nat)
    requires |Decimal(number)| <= width && room >= 52
    ensures ShowsLine(Render(number, width, line, width + 1 + room), number, width, line, room)
  {
    NumberReadsBack(number, width);
    FittedShows(line, width + 1, room);
    var column, rest := ZeroPadded(number, width), Fitted(line, width + 1, width + 1 + room);
    assert Render(number, width, line, width + 1 + room) == column + "|" + rest;
    assert HoldsNumber(column, number, width) && ShowsWithin(rest, line, room);
  }

  lemma {:induction false} RenderSize(number: nat, width: nat, line: string, limit: nat)
    requires |Decimal(number)| <= width <= 11 && limit >= 64
    ensures |Render(number, width, line, limit)| <= limit
  {
    RenderShows(number, width, line, limit - width - 1);
  }

  /** Line `i` of the view is line `i` of the source, behind the number `i + 1`, within the line limit. */
  lemma {:induction false} RenderedShows(source: string, budget: nat, i: nat)
    requires i < |Lines.SplitLines(source)| && Width(|Lines.SplitLines(source)|) <= 11
    ensures var shown, width := Rendered(source, budget)[i], Width(|Lines.SplitLines(source)|);
            && |shown| <= LineLimit(budget)
            && ShowsLine(shown, i + 1, width, Body(Lines.SplitLines(source)[i]), LineLimit(budget) - width - 1)
  {
    var lines := Lines.SplitLines(source);
    DecimalGrows(i + 1, |lines|);
    RenderSize(i + 1, Width(|lines|), Body(lines[i]), LineLimit(budget));
    RenderShows(i + 1, Width(|lines|), Body(lines[i]), LineLimit(budget) - Width(|lines|) - 1);
  }

  lemma {:induction false} MarkerSize(first: nat, last: nat, count: nat)
    requires first <= count && last <= count && |Decimal(count)| <= 11
    ensures |OmissionMarker(first, last)| <= 52
  {
    DecimalGrows(first, count);
    DecimalGrows(last, count);
    var intro := "... omitted source lines ";
    assert |intro| == 25;
    assert OmissionMarker(first, last) == intro + Decimal(first) + "-" + Decimal(last) + " ...";
  }

  /** At most one part, or parts within the budget. */
  ghost predicate WithinOrOne(parts: seq<string>, budget: nat) {
    |parts| <= 1 || Size(parts) <= budget
  }

  /** One part of at most the limit, or parts within the budget. */
  lemma {:induction false} PartsSize(parts: seq<string>, budget: nat, limit: nat)
    requires WithinOrOne(parts, budget) && limit + 1 <= 2 * budget
    requires forall i :: 0 <= i < |parts| ==> |parts[i]| <= limit
    ensures Size(parts) <= if limit + 1 > budget then limit + 1 else budget
  {
    if |parts| == 1 {
      assert Size(parts) == |parts[0]| + 1 + Size(parts[1..]);
    }
  }

  /** Two budgeted groups of lines leave room for a marker. */
  lemma BudgetAdds(budget: nat, head: nat, tail: nat)
    requires budget >= 512
    requires var limit, headBudget := LineLimit(budget), (budget - 80) * 2 / 3;
             var tailBudget := budget - 80 - headBudget;
             && head <= (if limit + 1 > headBudget then limit + 1 else headBudget)
             && tail <= (if limit + 1 > tailBudget then limit + 1 else tailBudget)
    ensures head + tail + 52 <= budget
  {
  }

  /** The first `head` lines, the marker for the missing ones, and the last `tail` lines. */
  function CutView(lines: seq<string>, head: nat, tail: nat): string
    requires head + tail <= |lines|
  {
    JoinLines(lines[..head] + [OmissionMarker(head + 1, |lines| - tail)] + lines[|lines| - tail..])
  }

  lemma {:induction false} CutSize(head: seq<string>, marker: string, tail: seq<string>)
    ensures |JoinLines(head + [marker] + tail)| == Size(head) + |marker| + 1 + Size(tail) - 1
  {
    assert [marker][1..] == [];
    assert Size([marker]) == |marker| + 1 + Size([]);
    SizeAppend(head, [marker]);
    SizeAppend(head + [marker], tail);
    JoinSize(head + [marker] + tail);
  }

  /** Head and tail as the two loops leave them, for lines that do not fit the budget. */
  ghost predicate LoopsDone(lines: seq<string>, budget: nat, head: seq<string>, tail: seq<string>) {
    var headBudget := (budget - 80) * 2 / 3;
    && budget >= 512 && |JoinLines(lines)| > budget
    && (forall i :: 0 <= i < |lines| ==> |lines[i]| <= LineLimit(budget))
    && |head| + |tail| <= |lines| && head == lines[..|head|] && tail == lines[|lines| - |tail|..]
    && head != [] && (tail != [] || |head| == |lines|)
    && WithinOrOne(head, headBudget) && WithinOrOne(tail, budget - 80 - headBudget)
  }

  lemma {:induction false} PartSizes(lines: seq<string>, budget: nat, head: seq<string>, tail: seq<string>)
    requires LoopsDone(lines, budget, head, tail)
    ensures Size(head) + Size(tail) + 52 <= budget
  {
    var headBudget := (budget - 80) * 2 / 3;
    PartsSize(head, headBudget, LineLimit(budget));
    PartsSize(tail, budget - 80 - headBudget, LineLimit(budget));
    BudgetAdds(budget, Size(head), Size(tail));
  }

  /** The cut does leave lines out. */
  lemma CutOmits(lines: seq<string>, budget: nat, head: seq<string>, tail: seq<string>)
    requires LoopsDone(lines, budget, head, tail)
    ensures tail != [] && |head| + |tail| < |lines|
  {
    PartSizes(lines, budget, head, tail);
    JoinSize(lines);
    SizeAppend(head, tail);
    assert |head| + |tail| == |lines| ==> head + tail == lines;
  }

  /** The cut view fits. */
  lemma {:induction false} CutFits(lines: seq<string>, budget: nat, head: nat, tail: nat)
    requires head + tail < |lines| && |Decimal(|lines|)| <= 11
    requires Size(lines[..head]) + Size(lines[|lines| - tail..]) + 52 <= budget
    ensures |CutView(lines, head, tail)| <= budget
  {
    MarkerSize(head + 1, |lines| - tail, |lines|);
    CutBound(lines[..head], OmissionMarker(head + 1, |lines| - tail), lines[|lines| - tail..], budget);
  }

  lemma {:induction false} CutBound(head: seq<string>, marker: string, tail: seq<string>, budget: nat)
    requires |marker| <= 52 && Size(head) + Size(tail) + 52 <= budget
    ensures |JoinLines(head + [marker] + tail)| <= budget
  {
    CutSize(head, marker, tail);
  }

  /** The first `h` lines are as many as the budget allows, but one at least. */
  ghost predicate HeadStops(lines: seq<string>, budget: nat, h: nat) {
    && h <= |lines| && WithinOrOne(lines[..h], budget)
    && (lines != [] ==> h > 0)
    && (h < |lines| ==> Size(lines[..h + 1]) > budget)
  }

  /** The last `t` lines are as many of the last `count` as the budget allows, but one at least. */
  ghost predicate TailStops(lines: seq<string>, count: nat, budget: nat, t: nat) {
    && t <= count <= |lines| && WithinOrOne(lines[|lines| - t..], budget)
    && (count > 0 ==> t > 0)
    && (t < count ==> Size(lines[|lines| - t - 1..]) > budget)
  }

  /** `text` shows the first `h` and the last `t` lines, which fill their shares of the budget. */
  ghost predicate ShowsCut(lines: seq<string>, budget: nat, h: nat, t: nat, text: string) {
    && budget >= 512 && h + t <= |lines| && text == CutView(lines, h, t)
    && HeadStops(lines, (budget - 80) * 2 / 3, h)
    && TailStops(lines, |lines| - h, budget - 80 - (budget - 80) * 2 / 3, t)
  }

  /** A cut view of lines that do not fit keeps both ends, leaves lines out between them, and fits. */
  lemma {:induction false} CutIsProper(lines: seq<string>, budget: nat, h: nat, t: nat, text: string)
    requires ShowsCut(lines, budget, h, t, text) && |JoinLines(lines)| > budget
    requires |Decimal(|lines|)| <= 11 && forall i :: 0 <= i < |lines| ==> |lines[i]| <= LineLimit(budget)
    ensures 0 < h && 0 < t && h + t < |lines| && |text| <= budget
  {
    assert lines != [];
    assert LoopsDone(lines, budget, lines[..h], lines[|lines| - t..]);
    CutOmits(lines, budget, lines[..h], lines[|lines| - t..]);
    PartSizes(lines, budget, lines[..h], lines[|lines| - t..]);
    CutFits(lines, budget, h, t);
  }

  /**
   * The numbered view of `source`: everything if it fits, otherwise a prefix and a suffix of the
   * numbered lines, each as long as its share allows, around a marker that names the missing ones.
   */
  method NumberedSourceContext(source: string, maxChars: int) returns (text: string)
    ensures var lines := Rendered(source, Budget(maxChars));
            if |JoinLines(lines)| <= Budget(maxChars) then text == JoinLines(lines)
            else exists h, t :: ShowsCut(lines, Budget(maxChars), h, t, text)
    ensures Width(|Lines.SplitLines(source)|) <= 11 ==> |text| <= Budget(maxChars)
  {
    var budget := Budget(maxChars);
    var rendered := Rendered(source, budget);
    var complete := JoinLines(rendered);
    if |complete| <= budget {
      return complete;
    }
    text := CutMiddle(rendered, budget);
    if Width(|Lines.SplitLines(source)|) <= 11 {
      forall i | 0 <= i < |rendered|
        ensures |rendered[i]| <= LineLimit(budget)
      {
        RenderedShows(source, budget, i);
      }
      ghost var h, t :| ShowsCut(rendered, budget, h, t, text);
      CutIsProper(rendered, budget, h, t, text);
    }
  }

  /** Numbered lines that do not fit: as much of both ends as the budget allows, around the marker. */
  method CutMiddle(rendered: seq<string>, budget: nat) returns (text: string)
    requires budget >= 512
    ensures exists h, t :: ShowsCut(rendered, budget, h, t, text)
  {
    var headBudget := (budget - 80) * 2 / 3;
    var tailBudget := budget - 80 - headBudget;
    var head := TakeHead(rendered, headBudget);
    var tail := TakeTail(rendered, |rendered| - |head|, tailBudget);
    var firstOmitted := |head| + 1;
    var lastOmitted := |rendered| - |tail|;
    text := JoinLines(head + [OmissionMarker(firstOmitted, lastOmitted)] + tail);
    assert ShowsCut(rendered, budget, |head|, |tail|, text);
  }

  /** As many first parts as the budget allows, but one at least. */
  method TakeHead(rendered: seq<string>, budget: nat) returns (head: seq<string>)
    ensures |head| <= |rendered| && head == rendered[..|head|] && HeadStops(rendered, budget, |head|)
  {
    head := [];
    var headSize := 0;
    while |head| < |rendered|
      invariant |head| <= |rendered| && head == rendered[..|head|]
      invariant headSize == Size(head) && WithinOrOne(head, budget)
      decreases |rendered| - |head|
    {
      var line := rendered[|head|];
      var size := |line| + 1;
      SizeAppend(head, [line]);
      assert Size([line]) == size + Size([]);
      assert rendered[..|head| + 1] == head + [line];
      if head != [] && headSize + size > budget {
        break;
      }
      head := head + [line];
      headSize := headSize + size;
    }
  }

  /** As many of the last parts, out of the last `count`, as the budget allows, but one at least. */
  method TakeTail(rendered: seq<string>, count: nat, budget: nat) returns (tail: seq<string>)
    requires count <= |rendered|
    ensures |tail| <= count && tail == rendered[|rendered| - |tail|..] && TailStops(rendered, count, budget, |tail|)
  {
    tail := [];
    var tailSize := 0;
    while |tail| < count
      invariant |tail| <= count && tail == rendered[|rendered| - |tail|..]
      invariant tailSize == Size(tail) && WithinOrOne(tail, budget)
      decreases count - |tail|
    {
      var line := rendered[|rendered| - |tail| - 1];
      var size := |line| + 1;
      SizeAppend([line], tail);
      assert Size([line]) == size + Size([]);
      assert rendered[|rendered| - |tail| - 1..] == [line] + tail;
      if tail != [] && tailSize + size > budget {
        break;
      }
      tail := [line] + tail;
      tailSize := tailSize + size;
    }
  }
}
