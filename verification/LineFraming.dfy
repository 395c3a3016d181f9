/** FTP and SMTP replies: a status line, or a status line with continuation lines. */
module LineFraming {
  import opened Prelude
  import opened Bytes
  import opened FrameChain

  const SPACE: byte := 32
  const DASH: byte := 45

  predicate StatusAt(data: bytes, p: nat) {
    && p + 4 <= |data| && LineStart(data, p)
    && Digit(data[p]) && Digit(data[p + 1]) && Digit(data[p + 2])
    && (data[p + 3] == SPACE || data[p + 3] == DASH)
  }

  /** The status line that the search finds first, or -1. */
  function SearchStatus(data: bytes, from: nat): (r: int)
    ensures r == -1 || (from <= r && StatusAt(data, r))
    decreases |data| - from
  {
    if from + 4 > |data| then -1
    else if StatusAt(data, from) then from
    else SearchStatus(data, from + 1)
  }

  /** The line that starts with `head` and is found first, or -1. */
  function SearchLine(data: bytes, head: bytes, from: nat): (r: int)
    ensures r == -1 || from <= r <= |data| - |head|
    decreases |data| - from
  {
    if from + |head| > |data| then -1
    else if LineStart(data, from) && data[from..from + |head|] == head then from
    else SearchLine(data, head, from + 1)
  }

  /** The end of the reply that starts at `c`. */
  function LineCut(data: bytes, c: nat): (r: Cut)
    ensures r.At? ==> c < r.end <= |data|
  {
    if !StatusAt(data, c) then Stop("no status line")
    else
      var lineEnd := Find(data, [LF], c + 4);
      if lineEnd < 0 then Stop("unterminated line")
      else if data[c + 3] != DASH then At(lineEnd + 1)
      else LastLineCut(data, data[c..c + 3] + [SPACE], lineEnd + 1)
  }

  /** The end of the first line from `from` on that starts with `head`. */
  function LastLineCut(data: bytes, head: bytes, from: nat): (r: Cut)
    requires |head| == 4
    ensures r.At? ==> from < r.end <= |data|
  {
    var terminal := SearchLine(data, head, from);
    if terminal < 0 then Stop("no terminal line")
    else
      var finalEnd := Find(data, [LF], terminal + 4);
      if finalEnd < 0 then Stop("unterminated terminal line") else At(finalEnd + 1)
  }

  /** One search for a boundary, as the loop makes it; -1 when there is none. */
  method NextBoundary(data: bytes, cursor: nat) returns (end: int)
    requires cursor < |data|
    ensures end == (if LineCut(data, cursor).At? then LineCut(data, cursor).end else -1)
  {
    var start := SearchStatus(data, cursor);
    if start == -1 || start > cursor {
      return -1;
    }
    var code, delimiter := data[cursor..cursor + 3], data[cursor + 3];
    var lineEnd := Find(data, [LF], cursor + 4);
    if lineEnd < 0 {
      return -1;
    }
    end := lineEnd + 1;
    if delimiter == DASH {
      var terminal := SearchLine(data, code + [SPACE], end);
      if terminal < 0 {
        return -1;
      }
      var finalEnd := Find(data, [LF], terminal + 4);
      if finalEnd < 0 {
        return -1;
      }
      end := finalEnd + 1;
    }
  }

  method LineFrames(data: bytes) returns (r: seq<Frame>)
    ensures Forward(LineCut)
    ensures r == FramesOrBatch(Cuts(LineCut, data, 0, []), data)
    ensures Tiles(data, r, 0)
  {
    CutsTile(LineCut, data, 0, []);
    var frames: seq<Frame> := [];
    var cursor := 0;
    while cursor < |data|
      invariant cursor <= |data|
      invariant Cuts(LineCut, data, 0, []) == Cuts(LineCut, data, cursor, frames)
      decreases |data| - cursor
    {
      var end := NextBoundary(data, cursor);
      if end < 0 {
        break;
      }
      frames := frames + [Frame(data[cursor..end], cursor, end, Framed)];
      cursor := end;
    }
    if cursor < |data| || frames == [] {
      return [Frame(data, 0, |data|, Framed)];
    }
    return frames;
  }

  /** A reply that stands alone: its own end is where it would be cut. */
  predicate IsReply(m: bytes) {
    m != [] && LineCut(m, 0) == At(|m|)
  }

  lemma {:induction false} SearchLineLocal(data: bytes, c: nat, m: bytes, head: bytes, from: nat)
    requires Holds(data, c, m) && from > 0 && SearchLine(m, head, from) >= 0
    ensures SearchLine(data, head, c + from) == c + SearchLine(m, head, from)
    decreases |m| - from
  {
    HoldsAt(data, c, m, from, from + |head|);
    HoldsAt(data, c, m, from - 1, from);
    if !(LineStart(m, from) && m[from..from + |head|] == head) {
      SearchLineLocal(data, c, m, head, from + 1);
    }
  }

  lemma StatusLocal(data: bytes, c: nat, m: bytes)
    requires Holds(data, c, m) && StatusAt(m, 0) && LineStart(data, c)
    ensures StatusAt(data, c) && data[c + 3] == m[3] && data[c..c + 3] == m[0..3]
  {
    HoldsAt(data, c, m, 0, 3);
    HoldsAt(data, c, m, 1, 1);
    HoldsAt(data, c, m, 2, 2);
    HoldsAt(data, c, m, 3, 3);
  }

  /** The positions that make a text a reply. */
  lemma ReplyParts(m: bytes) returns (lineEnd: nat, terminal: nat)
    requires IsReply(m)
    ensures StatusAt(m, 0) && lineEnd == Find(m, [LF], 4)
    ensures m[3] == DASH ==>
              && terminal == SearchLine(m, m[0..3] + [SPACE], lineEnd + 1)
              && Find(m, [LF], terminal + 4) == |m| - 1
    ensures m[3] != DASH ==> lineEnd == |m| - 1
  {
    lineEnd := Find(m, [LF], 4);
    terminal := if m[3] == DASH then SearchLine(m, m[0..3] + [SPACE], lineEnd + 1) else 0;
  }

  lemma MultiIsCut(data: bytes, c: nat, m: bytes, lineEnd: nat, terminal: nat)
    requires Holds(data, c, m) && StatusAt(m, 0) && m[3] == DASH && LineStart(data, c)
    requires lineEnd == Find(m, [LF], 4)
    requires terminal == SearchLine(m, m[0..3] + [SPACE], lineEnd + 1)
    requires Find(m, [LF], terminal + 4) == |m| - 1
    ensures LineCut(data, c) == At(c + |m|)
  {
    MultiInPlace(data, c, m, lineEnd, terminal);
    CutOfMulti(data, c, m[0..3] + [SPACE], c + lineEnd, c + terminal, c + |m| - 1);
  }

  /** The positions found in a reply are found at the same places in the batch. */
  lemma MultiInPlace(data: bytes, c: nat, m: bytes, lineEnd: nat, terminal: nat)
    requires Holds(data, c, m) && StatusAt(m, 0) && m[3] == DASH && LineStart(data, c)
    requires lineEnd == Find(m, [LF], 4)
    requires terminal == SearchLine(m, m[0..3] + [SPACE], lineEnd + 1)
    requires Find(m, [LF], terminal + 4) == |m| - 1
    ensures StatusAt(data, c) && data[c + 3] == DASH && data[c..c + 3] == m[0..3]
    ensures Find(data, [LF], c + 4) == c + lineEnd
    ensures SearchLine(data, m[0..3] + [SPACE], c + lineEnd + 1) == c + terminal
    ensures Find(data, [LF], c + terminal + 4) == c + |m| - 1
  {
    FirstLineLocal(data, c, m);
    TerminalLocal(data, c, m, m[0..3] + [SPACE], lineEnd, terminal);
  }

  lemma {:induction false} FirstLineLocal(data: bytes, c: nat, m: bytes)
    requires Holds(data, c, m) && StatusAt(m, 0) && LineStart(data, c) && Find(m, [LF], 4) >= 0
    ensures StatusAt(data, c) && data[c + 3] == m[3] && data[c..c + 3] == m[0..3]
    ensures Find(data, [LF], c + 4) == c + Find(m, [LF], 4)
  {
    StatusLocal(data, c, m);
    FindLocal(data, c, m, [LF], 4);
  }

  lemma TerminalLocal(data: bytes, c: nat, m: bytes, head: bytes, lineEnd: nat, terminal: nat)
    requires Holds(data, c, m) && SearchLine(m, head, lineEnd + 1) == terminal
    requires Find(m, [LF], terminal + 4) == |m| - 1 >= 0
    ensures SearchLine(data, head, c + lineEnd + 1) == c + terminal
    ensures Find(data, [LF], c + terminal + 4) == c + |m| - 1
  {
    SearchLineLocal(data, c, m, head, lineEnd + 1);
    FindLocal(data, c, m, [LF], terminal + 4);
  }

  /** A reply is cut off at its end wherever it stands at the start of a line. */
  lemma ReplyIsCut(data: bytes, c: nat, m: bytes)
    requires Holds(data, c, m) && IsReply(m) && LineStart(data, c)
    ensures LineCut(data, c) == At(c + |m|)
  {
    var lineEnd, terminal := ReplyParts(m);
    if m[3] == DASH {
      MultiIsCut(data, c, m, lineEnd, terminal);
    } else {
      FirstLineLocal(data, c, m);
    }
  }

  /** The cut of a continued reply, from the positions that the searches find. */
  lemma CutOfMulti(data: bytes, c: nat, head: bytes, lineEnd: nat, terminal: nat, finalEnd: nat)
    requires StatusAt(data, c) && data[c + 3] == DASH && head == data[c..c + 3] + [SPACE]
    requires Find(data, [LF], c + 4) == lineEnd
    requires SearchLine(data, head, lineEnd + 1) == terminal
    requires Find(data, [LF], terminal + 4) == finalEnd
    ensures LineCut(data, c) == At(finalEnd + 1)
  {
    assert LastLineCut(data, head, lineEnd + 1) == At(finalEnd + 1);
  }

  lemma ReplyEndsLine(m: bytes)
    requires IsReply(m)
    ensures m[|m| - 1] == LF
  {
    var lineEnd, terminal := ReplyParts(m);
    FindIsFirst(m, [LF], if m[3] == DASH then terminal + 4 else 4);
    assert OccursAt(m, [LF], |m| - 1);
    assert m[|m| - 1] == m[|m| - 1..|m| - 1 + 1][0];
  }

  lemma ReplyInPlace(ms: seq<bytes>, j: nat)
    requires j < |ms| && IsReply(ms[j]) && (j > 0 ==> IsReply(ms[j - 1]))
    ensures CutsAtEnd(LineCut, ms, j)
  {
    InPlace(ms, j);
    if j > 0 {
      assert ms[..j][|ms[..j]| - 1] == ms[j - 1];
      JoinEndsWith(ms[..j]);
      ReplyEndsLine(ms[j - 1]);
    }
    ReplyIsCut(Join(ms), |Join(ms[..j])|, ms[j]);
  }

  lemma {:induction false} JoinEndsWith(ms: seq<bytes>)
    requires ms != [] && ms[|ms| - 1] != []
    ensures Join(ms) != [] && Join(ms)[|Join(ms)| - 1] == ms[|ms| - 1][|ms[|ms| - 1]| - 1]
  {
  }

  /** Joined replies split back into exactly themselves. */
  lemma {:induction false} RepliesRoundTrip(ms: seq<bytes>)
    requires forall m :: m in ms ==> IsReply(m)
    ensures Forward(LineCut) && Cuts(LineCut, Join(ms), 0, []) == Whole(FramesOf(ms))
  {
    forall j | 0 <= j < |ms|
      ensures CutsAtEnd(LineCut, ms, j)
    {
      assert ms[j] in ms && (j > 0 ==> ms[j - 1] in ms);
      ReplyInPlace(ms, j);
    }
    GivenBackIff(LineCut, ms);
  }

  // ----- the grammar of replies -----

  /** What follows the code on the last line: a space and any text, or nothing but the line end. */
  datatype LastText = Spaced(text: bytes) | Bare(cr: bool)

  /** One line, or a first line, continuation lines, and a last line with the same code. */
  datatype Reply = Single(code: bytes, last: LastText)
                 | Multi(code: bytes, first: bytes, middle: seq<bytes>, last: LastText)

  predicate LineText(b: bytes) {
    LF !in b
  }

  predicate ThreeDigits(code: bytes) {
    |code| == 3 && Digit(code[0]) && Digit(code[1]) && Digit(code[2])
  }

  /** Continuation lines are any lines that do not start like a last one with a text. */
  predicate WellFormed(r: Reply) {
    && ThreeDigits(r.code) && LineText(Ending(r.last))
    && (r.Multi? ==> LineText(r.first) && Ordinary(r.middle, r.code + [SPACE]))
  }

  /** Lines that do not start like the last one. */
  predicate Ordinary(middle: seq<bytes>, head: bytes) {
    forall l :: l in middle ==> OrdinaryLine(l, head)
  }

  predicate OrdinaryLine(l: bytes, head: bytes) {
    LineText(l) && !(head <= l)
  }

  function Lines(ls: seq<bytes>): bytes {
    if ls == [] then [] else ls[0] + [LF] + Lines(ls[1..])
  }

  function Ending(last: LastText): bytes {
    match last
    case Spaced(text) => [SPACE] + text
    case Bare(cr) => if cr then [CR] else []
  }

  function Encode(r: Reply): bytes {
    match r
    case Single(code, last) => code + Ending(last) + [LF]
    case Multi(code, first, middle, last) =>
      (code + [DASH] + first + [LF]) + Lines(middle) + (code + Ending(last) + [LF])
  }

  /** The first newline behind a text without newlines. */
  lemma {:induction false} FindNewline(pre: bytes, text: bytes, post: bytes, k: nat)
    requires LineText(text) && k <= |text|
    ensures Find(pre + text + [LF] + post, [LF], |pre| + k) == |pre| + |text|
    decreases |text| - k
  {
    var data := pre + text + [LF] + post;
    assert data[|pre| + k..|pre| + k + 1] == [data[|pre| + k]];
    if k < |text| {
      assert data[|pre| + k] == text[k];
      FindNewline(pre, text, post, k + 1);
    }
  }

  /** No line start inside a line. */
  lemma {:induction false} SkipText(pre: bytes, text: bytes, post: bytes, head: bytes, k: nat)
    requires LineText(text) && 1 <= k <= |text| + 1
    ensures SearchLine(pre + text + [LF] + post, head, |pre| + k) ==
            SearchLine(pre + text + [LF] + post, head, |pre| + |text| + 1)
    decreases |text| + 1 - k
  {
    var data := pre + text + [LF] + post;
    if k <= |text| {
      assert data[|pre| + k - 1] == text[k - 1];
      SkipText(pre, text, post, head, k + 1);
      if |pre| + k + |head| > |data| {
        assert SearchLine(data, head, |pre| + k + 1) == -1;
      }
    }
  }

  /** A line that does not start with `head` leaves no room for `head`, which has no newline. */
  lemma HeadNotHere(pre: bytes, l: bytes, post: bytes, head: bytes)
    requires OrdinaryLine(l, head) && LF !in head
    ensures !OccursAt(pre + l + [LF] + post, head, |pre|)
  {
    var data := pre + l + [LF] + post;
    if |pre| + |head| <= |data| {
      var w := data[|pre|..|pre| + |head|];
      if |head| <= |l| {
        assert w == l[..|head|];
      } else {
        assert w[|l|] == data[|pre| + |l|] == LF;
      }
    }
  }

  lemma Regroup(pre: bytes, l: bytes, rest: bytes, tail: bytes)
    ensures pre + (l + [LF] + rest) + tail == pre + l + [LF] + (rest + tail) == (pre + l + [LF]) + rest + tail
  {
  }

  /** The search for the last line passes over one continuation line. */
  lemma {:induction false} SkipLine(pre: bytes, l: bytes, post: bytes, head: bytes)
    requires OrdinaryLine(l, head) && LF !in head && head != []
    ensures var data := pre + l + [LF] + post;
            SearchLine(data, head, |pre|) == SearchLine(data, head, |pre| + |l| + 1)
  {
    HeadNotHere(pre, l, post, head);
    SkipText(pre, l, post, head, 1);
  }

  /** The search for the last line passes over the continuation lines. */
  lemma {:induction false} PassLines(pre: bytes, middle: seq<bytes>, head: bytes, tail: bytes)
    requires Ordinary(middle, head)
    requires head != [] && LF !in head
    ensures var data := pre + Lines(middle) + tail;
            SearchLine(data, head, |pre|) == SearchLine(data, head, |pre| + |Lines(middle)|)
    decreases |middle|
  {
    if middle != [] {
      var l, rest := middle[0], Lines(middle[1..]);
      assert l in middle;
      Regroup(pre, l, rest, tail);
      SkipLine(pre, l, rest + tail, head);
      PassLines(pre + l + [LF], middle[1..], head, tail);
      assert |pre + l + [LF]| == |pre| + |l| + 1;
    }
  }

  lemma {:induction false} SkipLines(pre: bytes, middle: seq<bytes>, head: bytes, tail: bytes)
    requires Ordinary(middle, head)
    requires pre != [] && pre[|pre| - 1] == LF
    requires head != [] && LF !in head && head <= tail
    ensures SearchLine(pre + Lines(middle) + tail, head, |pre|) == |pre| + |Lines(middle)|
  {
    PassLines(pre, middle, head, tail);
    var lines := pre + Lines(middle);
    LinesEnd(pre, middle);
    assert (lines + tail)[|lines| - 1] == LF && (lines + tail)[|lines|..|lines| + |head|] == head;
  }

  lemma {:induction false} LinesEnd(pre: bytes, middle: seq<bytes>)
    requires pre != [] && pre[|pre| - 1] == LF
    ensures pre + Lines(middle) != [] && (pre + Lines(middle))[|pre + Lines(middle)| - 1] == LF
    decreases |middle|
  {
    if middle != [] {
      var l := middle[0];
      LinesEnd(pre + l + [LF], middle[1..]);
      assert pre + l + [LF] + Lines(middle[1..]) == pre + Lines(middle);
    }
  }

  /** Every well-formed reply with a space behind its last code is a reply, so such replies split back. */
  lemma GrammarGivesReplies(r: Reply)
    requires WellFormed(r) && r.last.Spaced?
    ensures IsReply(Encode(r))
  {
    SpaceIsText(r.last.text);
    RegroupSpaced(r.code, r.last.text);
    match r {
      case Single(code, last) => SingleIsReply(code, last.text);
      case Multi(code, first, middle, last) => MultiIsReply(code, first, middle, last.text);
    }
  }

  lemma RegroupSpaced(code: bytes, text: bytes)
    ensures code + ([SPACE] + text) + [LF] == code + [SPACE] + text + [LF]
  {
  }

  lemma SingleIsReply(code: bytes, text: bytes)
    requires ThreeDigits(code) && LineText(text)
    ensures IsReply(code + [SPACE] + text + [LF])
  {
    var m := code + [SPACE] + text + [LF];
    assert m == (code + [SPACE]) + text + [LF] + [];
    FindNewline(code + [SPACE], text, [], 0);
  }

  lemma SpaceIsText(text: bytes)
    ensures LineText([SPACE] + text) <==> LineText(text)
  {
    assert text == ([SPACE] + text)[1..];
  }

  lemma {:induction false} MultiIsReply(code: bytes, first: bytes, middle: seq<bytes>, last: bytes)
    requires ThreeDigits(code) && LineText(first) && LineText(last)
    requires Ordinary(middle, code + [SPACE])
    ensures IsReply((code + [DASH] + first + [LF]) + Lines(middle) + (code + [SPACE] + last + [LF]))
  {
    var m := (code + [DASH] + first + [LF]) + Lines(middle) + (code + [SPACE] + last + [LF]);
    var open := |code + [DASH] + first + [LF]|;
    MultiParts(code, first, middle, last);
    PartsAreReply(m, code, open, open + |Lines(middle)|);
  }

  lemma PartsAreReply(m: bytes, code: bytes, open: nat, terminal: nat)
    requires StatusAt(m, 0) && m[3] == DASH && m[0..3] == code && open > 0 && Find(m, [LF], 4) == open - 1
    requires SearchLine(m, code + [SPACE], open) == terminal && Find(m, [LF], terminal + 4) == |m| - 1
    ensures IsReply(m)
  {
    CutOfMulti(m, 0, code + [SPACE], open - 1, terminal, |m| - 1);
  }

  /** The positions that the searches find in a continued reply. */
  lemma {:induction false} MultiParts(code: bytes, first: bytes, middle: seq<bytes>, last: bytes)
    requires ThreeDigits(code) && LineText(first) && LineText(last)
    requires Ordinary(middle, code + [SPACE])
    ensures var m := (code + [DASH] + first + [LF]) + Lines(middle) + (code + [SPACE] + last + [LF]);
            var open := |code + [DASH] + first + [LF]|;
            var terminal := open + |Lines(middle)|;
            && StatusAt(m, 0) && m[3] == DASH && m[0..3] == code && Find(m, [LF], 4) == open - 1
            && SearchLine(m, code + [SPACE], open) == terminal && Find(m, [LF], terminal + 4) == |m| - 1
  {
    var open, head := code + [DASH] + first + [LF], code + [SPACE];
    Associative(open, Lines(middle), head + last + [LF]);
    MultiStarts(code, first, Lines(middle) + (head + last + [LF]));
    MultiMiddle(open, middle, head, last);
  }

  lemma {:induction false} MultiMiddle(open: bytes, middle: seq<bytes>, head: bytes, last: bytes)
    requires open != [] && open[|open| - 1] == LF && LineText(last) && |head| == 4 && LF !in head
    requires Ordinary(middle, head)
    ensures var m := open + Lines(middle) + (head + last + [LF]);
            && SearchLine(m, head, |open|) == |open| + |Lines(middle)|
            && Find(m, [LF], |open| + |Lines(middle)| + 4) == |m| - 1
  {
    SkipLines(open, middle, head, head + last + [LF]);
    MultiEnds(open + Lines(middle), head, last);
  }

  lemma {:induction false} MultiEnds(pre: bytes, head: bytes, last: bytes)
    requires LineText(last)
    ensures var m := pre + (head + last + [LF]);
            Find(m, [LF], |pre| + |head|) == |m| - 1
  {
    FindNewline(pre + head, last, [], 0);
    assert pre + (head + last + [LF]) == pre + head + last + [LF] + [];
  }

  lemma MultiStarts(code: bytes, first: bytes, rest: bytes)
    requires ThreeDigits(code) && LineText(first)
    ensures var m := code + [DASH] + first + [LF] + rest;
            && StatusAt(m, 0) && m[3] == DASH && m[0..3] == code
            && Find(m, [LF], 4) == 4 + |first|
  {
    FindNewline(code + [DASH], first, rest, 0);
  }

  // ----- replies whose last line is the code alone -----

  /** The line that a bare code makes does not start with the code and a space. */
  lemma BareLine(code: bytes, cr: bool)
    requires ThreeDigits(code)
    ensures OrdinaryLine(code + Ending(Bare(cr)), code + [SPACE])
  {
    var l := code + Ending(Bare(cr));
    assert forall i :: 0 <= i < |code| ==> l[i] == code[i] && Digit(code[i]);
    assert cr ==> l[3] == CR && (code + [SPACE])[3] == SPACE;
  }

  lemma SingleBareStops(pre: bytes, code: bytes, cr: bool, post: bytes)
    requires ThreeDigits(code)
    ensures LineCut(pre + Encode(Single(code, Bare(cr))) + post, |pre|).Stop?
  {
    var m := Encode(Single(code, Bare(cr)));
    assert (pre + m + post)[|pre| + 3] == m[3];
  }

  /** Behind such lines, a line with the head can only be found further on. */
  lemma {:induction false} BareSearch(pre: bytes, head: bytes, middle: seq<bytes>, l: bytes, post: bytes)
    requires head != [] && LF !in head && OrdinaryLine(l, head)
    requires Ordinary(middle, head)
    ensures var r := SearchLine(pre + Lines(middle) + (l + [LF] + post), head, |pre|);
            r == -1 || r >= |pre| + |Lines(middle)| + |l| + 1
  {
    PassLines(pre, middle, head, l + [LF] + post);
    SkipLine(pre + Lines(middle), l, post, head);
    RegroupFour(pre + Lines(middle), l, [LF], post);
  }

  /** If a last line can only be found behind `stop`, the cut comes after it. */
  lemma {:induction false} CutsLater(data: bytes, c: nat, head: bytes, from: nat, stop: nat)
    requires c + 4 <= |data| && data[c + 3] == DASH && head == data[c..c + 3] + [SPACE]
    requires from > 0 && Find(data, [LF], c + 4) == from - 1
    requires SearchLine(data, head, from) == -1 || SearchLine(data, head, from) >= stop
    ensures var cut := LineCut(data, c);
            cut.At? ==> cut.end > stop
  {
    var cut := LastLineCut(data, head, from);
    assert cut.At? ==> cut.end > stop;
  }

  lemma RegroupFirst(pre: bytes, code: bytes, first: bytes, rest: bytes)
    ensures pre + (code + [DASH] + first + [LF]) + rest == (pre + code + [DASH]) + first + [LF] + rest
    ensures pre + (code + [DASH] + first + [LF]) + rest == pre + code + ([DASH] + first + [LF] + rest)
  {
  }

  lemma PartsAt(pre: bytes, code: bytes, rest: bytes)
    requires rest != []
    ensures (pre + code + rest)[|pre|..|pre| + |code|] == code && (pre + code + rest)[|pre| + |code|] == rest[0]
  {
  }

  lemma {:induction false} FirstLine(pre: bytes, code: bytes, first: bytes, rest: bytes)
    requires |code| == 3 && LineText(first)
    ensures var data := pre + (code + [DASH] + first + [LF]) + rest;
            && data[|pre|..|pre| + 3] == code && data[|pre| + 3] == DASH
            && Find(data, [LF], |pre| + 4) == |pre| + 4 + |first|
  {
    RegroupFirst(pre, code, first, rest);
    FindNewline(pre + code + [DASH], first, rest, 0);
    PartsAt(pre, code, [DASH] + first + [LF] + rest);
  }

  lemma RegroupFive(pre: bytes, open: bytes, lines: bytes, l: bytes, post: bytes)
    ensures pre + (open + lines + (l + [LF])) + post == (pre + open) + lines + (l + [LF] + post)
    ensures pre + (open + lines + (l + [LF])) + post == pre + open + (lines + (l + [LF] + post))
  {
  }

  /** A continued reply without the space is cut off too late, or not at all. */
  lemma {:induction false} BareTooLate(pre: bytes, code: bytes, first: bytes, middle: seq<bytes>, l: bytes, post: bytes)
    requires ThreeDigits(code) && LineText(first) && OrdinaryLine(l, code + [SPACE])
    requires Ordinary(middle, code + [SPACE])
    ensures var m := (code + [DASH] + first + [LF]) + Lines(middle) + (l + [LF]);
            var cut := LineCut(pre + m + post, |pre|);
            cut.At? ==> cut.end > |pre| + |m|
  {
    var open, lines := code + [DASH] + first + [LF], Lines(middle);
    var data, c := pre + (open + lines + (l + [LF])) + post, |pre|;
    BareFirst(pre, code, first, lines, l, post);
    BareRest(pre, open, code + [SPACE], middle, l, post);
    CutsLater(data, c, code + [SPACE], c + |open|, c + |open| + |lines| + |l| + 1);
  }

  lemma {:induction false} BareFirst(pre: bytes, code: bytes, first: bytes, lines: bytes, l: bytes, post: bytes)
    requires |code| == 3 && LineText(first)
    ensures var data := pre + ((code + [DASH] + first + [LF]) + lines + (l + [LF])) + post;
            && data[|pre|..|pre| + 3] == code && data[|pre| + 3] == DASH
            && Find(data, [LF], |pre| + 4) == |pre| + |code + [DASH] + first + [LF]| - 1
  {
    RegroupFive(pre, code + [DASH] + first + [LF], lines, l, post);
    FirstLine(pre, code, first, lines + (l + [LF] + post));
  }

  lemma {:induction false} BareRest(pre: bytes, open: bytes, head: bytes, middle: seq<bytes>, l: bytes, post: bytes)
    requires head != [] && LF !in head && OrdinaryLine(l, head) && Ordinary(middle, head)
    ensures var r := SearchLine(pre + (open + Lines(middle) + (l + [LF])) + post, head, |pre| + |open|);
            r == -1 || r >= |pre| + |open| + |Lines(middle)| + |l| + 1
  {
    RegroupFive(pre, open, Lines(middle), l, post);
    BareSearch(pre + open, head, middle, l, post);
  }

  /** Such a reply is never cut off at its end, and standing alone it is not cut at all. */
  lemma BareIsNotCut(data: bytes, c: nat, r: Reply)
    requires WellFormed(r) && r.last.Bare? && Holds(data, c, Encode(r))
    ensures LineCut(data, c) != At(c + |Encode(r)|)
    ensures |data| == c + |Encode(r)| ==> LineCut(data, c).Stop?
  {
    var m := Encode(r);
    var pre, post := data[..c], data[c + |m|..];
    assert data == pre + m + post;
    match r {
      case Single(code, last) => SingleBareStops(pre, code, last.cr, post);
      case Multi(code, first, middle, last) =>
        BareLine(code, last.cr);
        BareTooLate(pre, code, first, middle, code + Ending(last), post);
    }
  }

  function Wire(rs: seq<Reply>): seq<bytes> {
    seq(|rs|, i requires 0 <= i < |rs| => Encode(rs[i]))
  }

  ghost predicate AllSpaced(rs: seq<Reply>) {
    forall i :: 0 <= i < |rs| ==> rs[i].last.Spaced?
  }

  lemma SpacedIsCut(rs: seq<Reply>, j: nat)
    requires j < |rs| && WellFormed(rs[j]) && rs[j].last.Spaced?
    requires j > 0 ==> WellFormed(rs[j - 1]) && rs[j - 1].last.Spaced?
    ensures CutsAtEnd(LineCut, Wire(rs), j)
  {
    GrammarGivesReplies(rs[j]);
    if j > 0 {
      GrammarGivesReplies(rs[j - 1]);
    }
    ReplyInPlace(Wire(rs), j);
  }

  lemma BareIsNotCutInPlace(rs: seq<Reply>, j: nat)
    requires j < |rs| && rs[j].last.Bare? && WellFormed(rs[j])
    ensures !CutsAtEnd(LineCut, Wire(rs), j)
  {
    InPlace(Wire(rs), j);
    BareIsNotCut(Join(Wire(rs)), |Join(Wire(rs)[..j])|, rs[j]);
  }

  /** Joined replies of the grammar are given back exactly when every last line has the space. */
  lemma {:induction false} RepliesCutIff(rs: seq<Reply>)
    requires forall r :: r in rs ==> WellFormed(r)
    ensures Forward(LineCut)
    ensures Cuts(LineCut, Join(Wire(rs)), 0, []) == Whole(FramesOf(Wire(rs))) <==> AllSpaced(rs)
  {
    GivenBackIff(LineCut, Wire(rs)) by {
      forall m | m in Wire(rs)
        ensures m != []
      {
      }
    }
    if AllSpaced(rs) {
      forall j | 0 <= j < |rs|
        ensures CutsAtEnd(LineCut, Wire(rs), j)
      {
        assert rs[j] in rs && (j > 0 ==> rs[j - 1] in rs);
        SpacedIsCut(rs, j);
      }
    } else {
      var j :| 0 <= j < |rs| && rs[j].last.Bare?;
      assert rs[j] in rs;
      BareIsNotCutInPlace(rs, j);
    }
  }

  /** The splitter returns the replies as frames exactly then, or when there is only one. */
  lemma {:induction false} RepliesSplitIff(rs: seq<Reply>)
    requires rs != [] && forall r :: r in rs ==> WellFormed(r)
    ensures Forward(LineCut)
    ensures FramesOrBatch(Cuts(LineCut, Join(Wire(rs)), 0, []), Join(Wire(rs))) == FramesOf(Wire(rs)) <==>
              |rs| == 1 || AllSpaced(rs)
  {
    RepliesCutIff(rs);
    FramesOfAt(Wire(rs), 0);
    if |rs| == 1 {
      assert Wire(rs) == [Encode(rs[0])];
      OneReply(rs[0]);
    }
  }

  lemma OneJoined(m: bytes)
    ensures Join([m]) == m && FramesOf([m]) == [Frame(m, 0, |m|, Framed)]
  {
    var none: seq<bytes> := [];
    assert [m][..0] == none;
    assert Join([m]) == Join(none) + m;
    assert FramesOf([m]) == FramesOf(none) + [Frame(m, |Join(none)|, |Join([m])|, Framed)];
  }

  lemma {:induction false} OneIsFramed(m: bytes)
    requires m != [] && Forward(LineCut)
    requires LineCut(m, 0).Stop? || LineCut(m, 0) == At(|m|)
    ensures FramesOrBatch(Cuts(LineCut, m, 0, []), m) == [Frame(m, 0, |m|, Framed)]
  {
    assert m[0..|m|] == m;
  }

  /** A single reply comes back as one frame in any case: cut off, or as the batch. */
  lemma OneReply(r: Reply)
    requires WellFormed(r)
    ensures Forward(LineCut)
    ensures FramesOrBatch(Cuts(LineCut, Join([Encode(r)]), 0, []), Join([Encode(r)])) == FramesOf([Encode(r)])
  {
    var m := Encode(r);
    if r.last.Spaced? {
      GrammarGivesReplies(r);
    } else {
      assert Holds(m, 0, m);
      BareIsNotCut(m, 0, r);
    }
    OneIsFramed(m);
    OneJoined(m);
  }

  lemma JoinTwo(m1: bytes, m2: bytes)
    ensures Join([m1, m2]) == m1 + m2
  {
    OneJoined(m1);
    assert [m1, m2][..1] == [m1];
  }

  /** `250 CR LF`, `250 ok CR LF`: two replies come back as one frame. */
  lemma BareCodeIsSwallowed()
    ensures var rs := [Single(CODE, Bare(true)), Single(CODE, Spaced([111, 107, 13]))];
            var batch := [50, 53, 48, 13, 10, 50, 53, 48, 32, 111, 107, 13, 10];
            && (forall r :: r in rs ==> WellFormed(r)) && Join(Wire(rs)) == batch && Forward(LineCut)
            && FramesOrBatch(Cuts(LineCut, batch, 0, []), batch) == [Frame(batch, 0, 13, Framed)]
  {
    var ok: bytes := [111, 107, 13];
    var rs := [Single(CODE, Bare(true)), Single(CODE, Spaced(ok))];
    var batch: bytes := [50, 53, 48, 13, 10, 50, 53, 48, 32, 111, 107, 13, 10];
    var m1: bytes, m2: bytes := [50, 53, 48, 13, 10], [50, 53, 48, 32, 111, 107, 13, 10];
    assert Encode(rs[0]) == m1 && Encode(rs[1]) == m2;
    assert Wire(rs) == [m1, m2];
    JoinTwo(m1, m2);
    assert m1 + m2 == batch;
    assert !StatusAt(batch, 0);
  }

  const CODE: bytes := [50, 53, 48]
}
