/** HTTP, SIP and RTSP messages: headers, a blank line, and a body of the declared length. */
module ContentLengthFraming {
  import opened Prelude
  import opened Bytes
  import opened FrameChain

  const CRLFCRLF: bytes := [13, 10, 13, 10]
  const LFLF: bytes := [10, 10]
  const NAME: bytes := [99, 111, 110, 116, 101, 110, 116, 45, 108, 101, 110, 103, 116, 104]  // "content-length"
  const COLON: byte := 58

  // ----- the header pattern, matched by hand -----

  predicate Space(b: byte) {
    b == 32 || 9 <= b <= 13
  }

  function Lower(b: byte): byte {
    if 65 <= b <= 90 then b + 32 else b
  }

  predicate NameAt(h: bytes, p: nat) {
    p + |NAME| <= |h| && forall i :: 0 <= i < |NAME| ==> Lower(h[p + i]) == NAME[i]
  }

  function SkipSpaces(h: bytes, i: nat): (r: nat)
    requires i <= |h|
    ensures i <= r <= |h|
    decreases |h| - i
  {
    if i < |h| && Space(h[i]) then SkipSpaces(h, i + 1) else i
  }

  function SkipDigits(h: bytes, i: nat): (r: nat)
    requires i <= |h|
    ensures i <= r <= |h|
    decreases |h| - i
  {
    if i < |h| && Digit(h[i]) then SkipDigits(h, i + 1) else i
  }

  function DigitValue(b: byte): nat {
    if Digit(b) then b - 48 else 0
  }

  function Number(digits: bytes): nat {
    if digits == [] then 0 else 10 * Number(digits[..|digits| - 1]) + DigitValue(digits[|digits| - 1])
  }

  /** After the digits only spaces may follow, up to the end of the headers or past a line end. */
  predicate LineEndsAfter(h: bytes, k: nat)
    requires k <= |h|
  {
    SkipSpaces(h, k) == |h| || LF in h[k..SkipSpaces(h, k)]
  }

  /** The pattern at a line start: the name, a colon and a number, with spaces between them. */
  function MatchAt(h: bytes, p: nat): Option<nat> {
    if !NameAt(h, p) then None
    else
      var i := SkipSpaces(h, p + |NAME|);
      if i == |h| || h[i] != COLON then None
      else
        var j := SkipSpaces(h, i + 1);
        var k := SkipDigits(h, j);
        if k > j && LineEndsAfter(h, k) then Some(Number(h[j..k])) else None
  }

  /** The first match from `p` on. */
  function DeclaredLength(h: bytes, p: nat): Option<nat>
    requires p <= |h|
    decreases |h| - p
  {
    if LineStart(h, p) && MatchAt(h, p).Some? then MatchAt(h, p)
    else if p == |h| then None
    else DeclaredLength(h, p + 1)
  }

  // ----- the splitter -----

  /** Where the headers end and how long the blank line is; CR LF anywhere ahead wins over LF. */
  function HeaderEnd(data: bytes, c: nat): (int, nat) {
    var crlf := Find(data, CRLFCRLF, c);
    if crlf >= 0 then (crlf, 4) else (Find(data, LFLF, c), 2)
  }

  /** The end of a message from its header end; without a declared length there is no body. */
  function BodyCut(data: bytes, c: nat, h: nat, size: nat): Cut
    requires c <= h <= |data|
  {
    match DeclaredLength(data[c..h], 0)
    case None => At(h + size)
    case Some(n) =>
      if h + size + n > |data| then Stop("declared_content_length_exceeds_receive_batch")
      else At(h + size + n)
  }

  function ContentCut(data: bytes, c: nat): Cut {
    var (h, size) := HeaderEnd(data, c);
    if h < 0 then Stop("missing_header_terminator") else BodyCut(data, c, h, size)
  }

  lemma ContentForward()
    ensures Forward(ContentCut)
  {
    forall data: bytes, c: nat | c < |data| && ContentCut(data, c).At?
      ensures c < ContentCut(data, c).end <= |data|
    {
      var (h, size) := HeaderEnd(data, c);
    }
  }

  /** One boundary, as the loop finds it. */
  method NextBoundary(data: bytes, cursor: nat) returns (cut: Cut)
    ensures cut == ContentCut(data, cursor)
  {
    var headerEnd := Find(data, CRLFCRLF, cursor);
    var separatorSize := 4;
    if headerEnd < 0 {
      headerEnd := Find(data, LFLF, cursor);
      separatorSize := 2;
    }
    if headerEnd < 0 {
      return Stop("missing_header_terminator");
    }
    var headers := data[cursor..headerEnd];
    var length := DeclaredLength(headers, 0);
    var end := headerEnd + separatorSize;
    if length.Some? {
      end := end + length.value;
      if end > |data| {
        return Stop("declared_content_length_exceeds_receive_batch");
      }
    }
    return At(end);
  }

  method ContentLengthFrames(data: bytes) returns (r: seq<Frame>)
    ensures Forward(ContentCut)
    ensures r == FramesOrIncomplete(Cuts(ContentCut, data, 0, []), data)
    ensures Tiles(data, r, 0)
  {
    ContentForward();
    CutsTile(ContentCut, data, 0, []);
    var frames: seq<Frame> := [];
    var cursor := 0;
    while cursor < |data|
      invariant cursor <= |data|
      invariant Cuts(ContentCut, data, 0, []) == Cuts(ContentCut, data, cursor, frames)
      decreases |data| - cursor
    {
      var cut := NextBoundary(data, cursor);
      if cut.Stop? {
        return [Frame(data, 0, |data|, Incomplete(cut.reason))];
      }
      frames := frames + [Frame(data[cursor..cut.end], cursor, cut.end, Framed)];
      cursor := cut.end;
    }
    if cursor < |data| || frames == [] {
      return [Frame(data, 0, |data|, Incomplete("trailing_data_without_complete_frame"))];
    }
    return frames;
  }

  // ----- round trips -----

  /** Headers that end at their first CR LF CR LF, and a body of the length they declare, if any. */
  predicate IsMessage(head: bytes, body: bytes) {
    && Find(head + CRLFCRLF, CRLFCRLF, 0) == |head|
    && match DeclaredLength(head, 0) {
         case None => body == []
         case Some(n) => |body| == n
       }
  }

  function Encode(head: bytes, body: bytes): bytes {
    head + CRLFCRLF + body
  }

  lemma HeadHolds(data: bytes, c: nat, head: bytes, separator: bytes, body: bytes)
    requires Holds(data, c, head + separator + body)
    ensures Holds(data, c, head + separator) && c + |head| <= |data| && data[c..c + |head|] == head
  {
    var m := head + separator + body;
    HoldsAt(data, c, m, 0, |head + separator|);
    HoldsAt(data, c, m, 0, |head|);
    assert m[0..|head + separator|] == head + separator && m[0..|head|] == head;
  }

  /** A message is cut off at its end wherever it stands, whatever its body holds. */
  lemma MessageIsCut(data: bytes, c: nat, head: bytes, body: bytes)
    requires IsMessage(head, body) && Holds(data, c, Encode(head, body))
    ensures ContentCut(data, c) == At(c + |Encode(head, body)|)
  {
    HeadHolds(data, c, head, CRLFCRLF, body);
    FindLocal(data, c, head + CRLFCRLF, CRLFCRLF, 0);
    assert HeaderEnd(data, c) == (c + |head|, 4);
  }

  /** Joined messages with arbitrary bodies split back into exactly themselves. */
  lemma MessagesRoundTrip(ms: seq<(bytes, bytes)>)
    requires forall i :: 0 <= i < |ms| ==> IsMessage(ms[i].0, ms[i].1)
    ensures var wire := seq(|ms|, i requires 0 <= i < |ms| => Encode(ms[i].0, ms[i].1));
            Forward(ContentCut) && Cuts(ContentCut, Join(wire), 0, []) == Whole(FramesOf(wire))
  {
    var wire := seq(|ms|, i requires 0 <= i < |ms| => Encode(ms[i].0, ms[i].1));
    ContentForward();
    forall j | 0 <= j < |wire|
      ensures CutsAtEnd(ContentCut, wire, j)
    {
      InPlace(wire, j);
      MessageIsCut(Join(wire), |Join(wire[..j])|, ms[j].0, ms[j].1);
    }
    GivenBackIff(ContentCut, wire);
  }

  // ----- messages with LF line ends -----

  lemma {:induction false} SpacesExtend(h: bytes, ext: bytes, i: nat)
    requires i <= |h| && (SkipSpaces(h, i) < |h| || ext == [] || !Space(ext[0]))
    ensures SkipSpaces(h + ext, i) == SkipSpaces(h, i)
    decreases |h| - i
  {
    if i < |h| && Space(h[i]) {
      SpacesExtend(h, ext, i + 1);
    }
  }

  lemma {:induction false} DigitsExtend(h: bytes, ext: bytes, i: nat)
    requires i <= |h| && (SkipDigits(h, i) < |h| || ext == [] || !Digit(ext[0]))
    ensures SkipDigits(h + ext, i) == SkipDigits(h, i)
    decreases |h| - i
  {
    if i < |h| && Digit(h[i]) {
      DigitsExtend(h, ext, i + 1);
    }
  }

  lemma {:induction false} SpacesStop(h: bytes, i: nat, q: nat)
    requires i <= q < |h| && !Space(h[q])
    ensures SkipSpaces(h, i) <= q
    decreases q - i
  {
    if i < q && Space(h[i]) {
      SpacesStop(h, i + 1, q);
    }
  }

  lemma {:induction false} DigitsStop(h: bytes, i: nat, q: nat)
    requires i <= q < |h| && !Digit(h[q])
    ensures SkipDigits(h, i) <= q
    decreases q - i
  {
    if i < q && Digit(h[i]) {
      DigitsStop(h, i + 1, q);
    }
  }

  lemma {:induction false} SpacesRunOn(h: bytes, ext: bytes, i: nat)
    requires i <= |h| && SkipSpaces(h, i) == |h| && ext != [] && Space(ext[0])
    ensures SkipSpaces(h + ext, i) > |h|
    decreases |h| - i
  {
    if i < |h| {
      SpacesRunOn(h, ext, i + 1);
    } else {
      assert (h + ext)[i] == ext[0];
    }
  }

  lemma LineEndExtends(h: bytes, ext: bytes, k: nat)
    requires k <= |h| && LineEndsAfter(h, k) && ext != [] && ext[0] == LF
    ensures LineEndsAfter(h + ext, k)
  {
    var e := SkipSpaces(h, k);
    if e < |h| {
      SpacesExtend(h, ext, k);
      assert (h + ext)[k..e] == h[k..e];
    } else {
      SpacesRunOn(h, ext, k);
      var w := (h + ext)[k..SkipSpaces(h + ext, k)];
      assert w[|h| - k] == LF;
    }
  }

  /** A match stays the same match when the headers go on with a new line. */
  lemma MatchExtends(h: bytes, ext: bytes, p: nat)
    requires MatchAt(h, p).Some? && ext != [] && ext[0] == LF
    ensures MatchAt(h + ext, p) == MatchAt(h, p)
  {
    var i := SkipSpaces(h, p + |NAME|);
    NameExtends(h, ext, p);
    SpacesExtend(h, ext, p + |NAME|);
    ValueExtends(h, ext, i + 1);
  }

  lemma NameExtends(h: bytes, ext: bytes, p: nat)
    requires NameAt(h, p)
    ensures NameAt(h + ext, p)
  {
  }

  /** The digits behind the colon, and the line end behind them, stay when a new line follows. */
  lemma {:induction false} ValueExtends(h: bytes, ext: bytes, i: nat)
    requires i <= |h| && ext != [] && ext[0] == LF
    requires var j := SkipSpaces(h, i);
             SkipDigits(h, j) > j && LineEndsAfter(h, SkipDigits(h, j))
    ensures var j := SkipSpaces(h, i);
            var k := SkipDigits(h, j);
            && SkipSpaces(h + ext, i) == j && SkipDigits(h + ext, j) == k
            && (h + ext)[j..k] == h[j..k] && LineEndsAfter(h + ext, k)
  {
    var j := SkipSpaces(h, i);
    SpacesExtend(h, ext, i);
    DigitsExtend(h, ext, j);
    LineEndExtends(h, ext, SkipDigits(h, j));
  }

  lemma NameHasNoLf(h: bytes, p: nat, x: nat)
    requires NameAt(h, p) && p <= x < p + |NAME|
    ensures h[x] != LF
  {
    assert Lower(h[p + (x - p)]) == NAME[x - p];
  }

  /** A failed match before a later one stays failed, for it fails before the later one starts. */
  lemma FailureExtends(h: bytes, ext: bytes, p: nat, q: nat)
    requires p < q && q <= |h| && LineStart(h, q) && NameAt(h, q) && MatchAt(h, p).None?
    ensures MatchAt(h + ext, p).None?
  {
    assert Lower(h[q]) == NAME[0];
    assert !Space(h[q]) && !Digit(h[q]) && h[q] != COLON;
    if NameAt(h, p) {
      if q - 1 < p + |NAME| {
        NameHasNoLf(h, p, q - 1);
      }
      SpacesStop(h, p + |NAME|, q);
      SpacesExtend(h, ext, p + |NAME|);
      var i := SkipSpaces(h, p + |NAME|);
      if h[i] == COLON {
        FailureAfterColon(h, ext, i, q);
      }
    }
  }

  lemma FailureAfterColon(h: bytes, ext: bytes, i: nat, q: nat)
    requires i < q < |h| && !Space(h[q]) && !Digit(h[q])
    ensures var j := SkipSpaces(h, i + 1);
            var k := SkipDigits(h, j);
            && SkipSpaces(h + ext, i + 1) == j && SkipDigits(h + ext, j) == k
            && (LineEndsAfter(h + ext, k) <==> LineEndsAfter(h, k))
  {
    SpacesStop(h, i + 1, q);
    SpacesExtend(h, ext, i + 1);
    var j := SkipSpaces(h, i + 1);
    DigitsStop(h, j, q);
    DigitsExtend(h, ext, j);
    var k := SkipDigits(h, j);
    SpacesStop(h, k, q);
    SpacesExtend(h, ext, k);
    assert (h + ext)[k..SkipSpaces(h, k)] == h[k..SkipSpaces(h, k)];
  }

  lemma {:induction false} MatchPosition(h: bytes, p: nat) returns (q: nat)
    requires p <= |h| && DeclaredLength(h, p).Some?
    ensures p <= q <= |h| && LineStart(h, q) && NameAt(h, q) && MatchAt(h, q).Some?
    decreases |h| - p
  {
    if LineStart(h, p) && MatchAt(h, p).Some? {
      q := p;
    } else {
      q := MatchPosition(h, p + 1);
    }
  }

  /** What headers declare does not change when more lines follow. */
  lemma {:induction false} DeclaredExtends(h: bytes, ext: bytes, p: nat)
    requires p <= |h| && DeclaredLength(h, p).Some? && ext != [] && ext[0] == LF
    ensures DeclaredLength(h + ext, p) == DeclaredLength(h, p)
    decreases |h| - p
  {
    assert LineStart(h + ext, p) <==> LineStart(h, p);
    if LineStart(h, p) && MatchAt(h, p).Some? {
      MatchExtends(h, ext, p);
    } else {
      var q := MatchPosition(h, p + 1);
      if LineStart(h, p) {
        FailureExtends(h, ext, p, q);
      }
      DeclaredExtends(h, ext, p + 1);
    }
  }

  lemma CrlfBytes(data: bytes, h: nat)
    requires OccursAt(data, CRLFCRLF, h)
    ensures data[h] == CR && data[h + 1] == LF && data[h + 2] == CR && data[h + 3] == LF
  {
    var w := data[h..h + 4];
    assert w[0] == data[h] && w[1] == data[h + 1] && w[2] == data[h + 2] && w[3] == data[h + 3];
  }

  /** CR LF CR LF cannot overlap the blank line of LF headers that do not contain it. */
  lemma {:induction false} CrlfComesLater(data: bytes, head: bytes, h: nat)
    requires |head| + 2 <= |data| && data[..|head| + 2] == head + LFLF
    requires data[|head|] == LF && data[|head| + 1] == LF
    requires Find(head + LFLF, CRLFCRLF, 0) == -1 && OccursAt(data, CRLFCRLF, h)
    ensures h >= |head| + 2
  {
    CrlfBytes(data, h);
    if h + 4 <= |head| + 2 {
      FindIsFirst(head + LFLF, CRLFCRLF, 0);
      assert data[..|head| + 2][h..h + 4] == data[h..h + 4];
      assert OccursAt(head + LFLF, CRLFCRLF, h);
    }
  }

  /** With CR LF CR LF ahead, the cut of an LF message comes too late. */
  lemma {:induction false} CutTooLate(data: bytes, head: bytes, body: bytes, h: nat)
    requires |head| + 2 <= h < |data| && data[..|head|] == head && data[|head|] == LF
    requires Find(data, CRLFCRLF, 0) == h
    requires match DeclaredLength(head, 0) { case None => body == [] case Some(n) => |body| == n }
    ensures ContentCut(data, 0) != At(|head| + 2 + |body|)
  {
    if DeclaredLength(head, 0).Some? {
      var ext := data[|head|..h];
      assert data[0..h] == head + ext && ext[0] == data[|head|];
      DeclaredExtends(head, ext, 0);
    }
  }

  /** LF headers that end at their first blank line and hold no other one, and a body as they declare. */
  predicate IsLfMessage(head: bytes, body: bytes) {
    && Find(head + LFLF, LFLF, 0) == |head| && Find(head + LFLF, CRLFCRLF, 0) == -1
    && match DeclaredLength(head, 0) { case None => body == [] case Some(n) => |body| == n }
  }

  /** Without it, the blank line ends the headers. */
  lemma {:induction false} CutInTime(data: bytes, c: nat, head: bytes, body: bytes)
    requires IsLfMessage(head, body) && Holds(data, c, head + LFLF + body)
    requires Find(data, CRLFCRLF, c) == -1
    ensures ContentCut(data, c) == At(c + |head + LFLF + body|)
  {
    HeadHolds(data, c, head, LFLF, body);
    LfHeaderEnd(data, c, head);
    CutAtHeaderEnd(data, c, c + |head|, 2);
    LfBody(data, c, head, body);
  }

  lemma {:induction false} CutAtHeaderEnd(data: bytes, c: nat, h: nat, size: nat)
    requires HeaderEnd(data, c) == (h, size) && c <= h <= |data|
    ensures ContentCut(data, c) == BodyCut(data, c, h, size)
  {
  }

  lemma {:induction false} LfBody(data: bytes, c: nat, head: bytes, body: bytes)
    requires c + |head| + 2 + |body| <= |data| && data[c..c + |head|] == head
    requires match DeclaredLength(head, 0) { case None => body == [] case Some(n) => |body| == n }
    ensures BodyCut(data, c, c + |head|, 2) == At(c + |head + LFLF + body|)
  {
    assert |head + LFLF + body| == |head| + 2 + |body|;
  }

  lemma {:induction false} LfHeaderEnd(data: bytes, c: nat, head: bytes)
    requires Holds(data, c, head + LFLF) && Find(head + LFLF, LFLF, 0) == |head|
    requires Find(data, CRLFCRLF, c) == -1
    ensures HeaderEnd(data, c) == (c + |head|, 2)
  {
    FindLocal(data, c, head + LFLF, LFLF, 0);
  }

  /**
   * A message with LF line ends is cut off at its end exactly when no CR LF CR LF follows anywhere in the
   * batch, be it in its own body or in a later message.
   */
  lemma {:induction false} LfMessageIff(head: bytes, body: bytes, rest: bytes)
    requires IsLfMessage(head, body)
    ensures var m := head + LFLF + body;
            ContentCut(m + rest, 0) == At(|m|) <==> Find(m + rest, CRLFCRLF, 0) == -1
  {
    var data := head + LFLF + body + rest;
    assert data[..|head| + 2] == head + LFLF;
    assert data[..|head|] == head && data[|head|] == LF && data[|head| + 1] == LF;
    var h := Find(data, CRLFCRLF, 0);
    if h >= 0 {
      FindIsFirst(data, CRLFCRLF, 0);
      CrlfComesLater(data, head, h);
      CutTooLate(data, head, body, h);
    } else {
      assert Holds(data, 0, head + LFLF + body);
      CutInTime(data, 0, head, body);
    }
  }

  lemma {:induction false} NoneLater(data: bytes, pat: bytes, c: nat)
    requires Find(data, pat, 0) == -1
    ensures Find(data, pat, c) == -1
  {
    FindIsFirst(data, pat, 0);
    FindIsFirst(data, pat, c);
  }

  function LfWire(ms: seq<(bytes, bytes)>): seq<bytes> {
    seq(|ms|, i requires 0 <= i < |ms| => ms[i].0 + LFLF + ms[i].1)
  }

  /** Joined messages with LF line ends split back exactly when no CR LF CR LF is anywhere in the batch. */
  lemma LfMessagesIff(ms: seq<(bytes, bytes)>)
    requires ms != [] && forall i :: 0 <= i < |ms| ==> IsLfMessage(ms[i].0, ms[i].1)
    ensures Forward(ContentCut)
    ensures Cuts(ContentCut, Join(LfWire(ms)), 0, []) == Whole(FramesOf(LfWire(ms))) <==>
              Find(Join(LfWire(ms)), CRLFCRLF, 0) == -1
  {
    var wire, data := LfWire(ms), Join(LfWire(ms));
    ContentForward();
    GivenBackIff(ContentCut, wire);
    if Find(data, CRLFCRLF, 0) == -1 {
      forall j | 0 <= j < |wire|
        ensures CutsAtEnd(ContentCut, wire, j)
      {
        LfInTime(wire, j, ms[j].0, ms[j].1);
      }
    } else {
      LfTooLate(wire, ms[0].0, ms[0].1);
      assert !CutsAtEnd(ContentCut, wire, 0);
    }
  }

  lemma {:induction false} LfInTime(wire: seq<bytes>, j: nat, head: bytes, body: bytes)
    requires j < |wire| && wire[j] == head + LFLF + body && IsLfMessage(head, body)
    requires Find(Join(wire), CRLFCRLF, 0) == -1
    ensures CutsAtEnd(ContentCut, wire, j)
  {
    InPlace(wire, j);
    NoneLater(Join(wire), CRLFCRLF, |Join(wire[..j])|);
    CutInTime(Join(wire), |Join(wire[..j])|, head, body);
  }

  lemma {:induction false} LfTooLate(wire: seq<bytes>, head: bytes, body: bytes)
    requires wire != [] && wire[0] == head + LFLF + body && IsLfMessage(head, body)
    requires Find(Join(wire), CRLFCRLF, 0) != -1
    ensures !CutsAtEnd(ContentCut, wire, 0)
  {
    FirstInPlace(wire);
    LfMessageIff(head, body, Join(wire)[|wire[0]|..]);
  }

  lemma {:induction false} FirstInPlace(ms: seq<bytes>)
    requires ms != []
    ensures Join(ms[..0]) == [] && Join(ms[..1]) == ms[0] && ms[0] <= Join(ms)
    ensures ms[0] + Join(ms)[|ms[0]|..] == Join(ms)
  {
    InPlace(ms, 0);
    assert ms[..1][..0] == ms[..0] == [];
    assert Join(ms[..1]) == Join(ms[..0]) + ms[0];
  }

  /** `H` and a blank line, both with LF, before CR LF CR LF: what follows becomes part of the message. */
  lemma LfMessageCutWrongly()
    ensures var m, rest := [72] + LFLF, CRLFCRLF;
            && IsLfMessage([72], []) && m == [72] + LFLF + []
            && ContentCut(m + rest, 0) == At(7) && |m| == 3
  {
    var m: bytes := [72, 10, 10];
    assert [72] + LFLF == m && [72] + LFLF + [] == m;
    var data: bytes := [72, 10, 10, 13, 10, 13, 10];
    assert m + CRLFCRLF == data;
    assert data[0..4] != CRLFCRLF && data[1..5] != CRLFCRLF && data[2..6] != CRLFCRLF by {
      assert data[0..4][0] == 72 && data[1..5][0] == 10 && data[2..6][0] == 10;
    }
    assert data[3..7] == CRLFCRLF;
    assert Find(data, CRLFCRLF, 0) == Find(data, CRLFCRLF, 1) == Find(data, CRLFCRLF, 2) == 3;
    assert m[0..2][0] == 72 && m[1..3] == LFLF;
    assert Find(m, LFLF, 0) == Find(m, LFLF, 1) == 1;
    assert Find(m, CRLFCRLF, 0) == -1;
    NothingDeclared([72], 0);
    assert data[0..3] == m;
    NothingDeclared(data[0..3], 0);
  }

  lemma {:induction false} NothingDeclared(h: bytes, p: nat)
    requires p <= |h| < 14
    ensures DeclaredLength(h, p) == None
    decreases |h| - p
  {
    if p < |h| {
      NothingDeclared(h, p + 1);
    }
  }
}
