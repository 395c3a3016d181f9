/** Python's `str.splitlines(keepends=True)`. */
module Lines {
  import opened Prelude

  /** The characters that end a line; a CR directly before a LF ends it together with the LF. */
  predicate IsBreak(c: char) {
    c in {'\n', '\r', '\U{0B}', '\U{0C}', '\U{1C}', '\U{1D}', '\U{1E}', '\U{85}', '\U{2028}', '\U{2029}'}
  }

  /** The length of the first line, its terminator included. */
  function FirstLine(s: string): (n: nat)
    requires s != ""
    ensures 0 < n <= |s|
  {
    if s[0] == '\r' && |s| > 1 && s[1] == '\n' then 2
    else if IsBreak(s[0]) || |s| == 1 then 1
    else 1 + FirstLine(s[1..])
  }

  function SplitLines(s: string): seq<string> {
    if s == "" then []
    else [s[..FirstLine(s)]] + SplitLines(s[FirstLine(s)..])
  }

  predicate EndsLine(s: string) {
    s != "" && IsBreak(s[|s| - 1])
  }

  /** Joining the two would turn a final CR and an initial LF into one terminator. */
  predicate Fuses(a: string, b: string) {
    a != "" && b != "" && a[|a| - 1] == '\r' && b[0] == '\n'
  }

  lemma {:induction false} JoinedLines(s: string)
    ensures Concat(SplitLines(s)) == s
  {
    if s != "" {
      JoinedLines(s[FirstLine(s)..]);
    }
  }

  /** The first line of `a + b` is that of `a`, unless `a` is one line and fuses with `b`. */
  lemma {:induction false} FirstLineOfJoin(a: string, b: string)
    requires EndsLine(a)
    ensures FirstLine(a + b) ==
            if FirstLine(a) == |a| && Fuses(a, b) then |a| + 1 else FirstLine(a)
  {
    if a[0] == '\r' && |a| > 1 && a[1] == '\n' {
    } else if IsBreak(a[0]) {
      if |a| > 1 {
        assert (a + b)[1] == a[1];
      }
    } else {
      assert |a| > 1;
      FirstLineOfJoin(a[1..], b);
      assert (a + b)[1..] == a[1..] + b;
    }
  }

  lemma {:induction false} FirstLineKeepsEnd(a: string)
    requires EndsLine(a) && FirstLine(a) < |a|
    ensures EndsLine(a[FirstLine(a)..])
    ensures forall b :: Fuses(a[FirstLine(a)..], b) <==> Fuses(a, b)
  {
  }

  lemma {:induction false} SplitBehind(a: string, b: string, n: nat)
    requires a != "" && n == FirstLine(a) == FirstLine(a + b)
    ensures SplitLines(a + b) == [a[..n]] + SplitLines(a[n..] + b)
    ensures SplitLines(a) == [a[..n]] + SplitLines(a[n..])
  {
    assert (a + b)[..n] == a[..n] && (a + b)[n..] == a[n..] + b;
  }

  /** Splitting after joining gives both parts' lines when the parts do not fuse. */
  lemma {:induction false} SplitOfJoin(a: string, b: string)
    requires EndsLine(a) && b != "" && !Fuses(a, b)
    ensures SplitLines(a + b) == SplitLines(a) + SplitLines(b)
    decreases |a|
  {
    FirstLineOfJoin(a, b);
    var n := FirstLine(a);
    SplitBehind(a, b, n);
    Associative([a[..n]], SplitLines(a[n..]), SplitLines(b));
    if n < |a| {
      FirstLineKeepsEnd(a);
      SplitOfJoin(a[n..], b);
    } else {
      assert a[n..] + b == b && SplitLines(a[n..]) + SplitLines(b) == SplitLines(b);
    }
  }

  /** When the parts fuse, the last line of the first part is lost. */
  lemma {:induction false} SplitOfFusion(a: string, b: string)
    requires EndsLine(a) && Fuses(a, b)
    ensures 0 < |SplitLines(a)| <= |SplitLines(a + b)|
    ensures |SplitLines(a + b)[|SplitLines(a)| - 1]| == |SplitLines(a)[|SplitLines(a)| - 1]| + 1
    decreases |a|
  {
    FirstLineOfJoin(a, b);
    var n := FirstLine(a);
    if n < |a| {
      assert (a + b)[..n] == a[..n] && (a + b)[n..] == a[n..] + b;
      FirstLineKeepsEnd(a);
      SplitOfFusion(a[n..], b);
    } else {
      assert a[..n] == a && SplitLines(a[n..]) == [];
    }
  }

  /** Every piece but the last ends a line, and none is empty. */
  predicate ProperPieces(pieces: seq<string>) {
    pieces == [] ||
    (pieces[0] != "" && (|pieces| > 1 ==> EndsLine(pieces[0])) && ProperPieces(pieces[1..]))
  }

  /** No two neighbours fuse. */
  predicate NoFusion(pieces: seq<string>) {
    |pieces| <= 1 || (!Fuses(pieces[0], pieces[1]) && NoFusion(pieces[1..]))
  }

  /** The lines of the pieces, each piece split on its own. */
  function LinesOf(pieces: seq<string>): seq<string> {
    if pieces == [] then [] else SplitLines(pieces[0]) + LinesOf(pieces[1..])
  }

  lemma {:induction false} FirstCharOfConcat(pieces: seq<string>)
    requires ProperPieces(pieces) && pieces != []
    ensures Concat(pieces) != "" && Concat(pieces)[0] == pieces[0][0]
  {
  }

  /** Joining proper pieces adds and loses no line break exactly when no two neighbours fuse. */
  lemma {:induction false} ResplitIffNoFusion(pieces: seq<string>)
    requires ProperPieces(pieces)
    ensures SplitLines(Concat(pieces)) == LinesOf(pieces) <==> NoFusion(pieces)
  {
    if |pieces| == 1 {
      assert Concat(pieces) == pieces[0] + "" == pieces[0];
      assert LinesOf(pieces) == SplitLines(pieces[0]) + [];
    } else if |pieces| > 1 {
      var a, rest := pieces[0], pieces[1..];
      var l := SplitLines(a);
      ResplitIffNoFusion(rest);
      FirstCharOfConcat(rest);
      if Fuses(a, pieces[1]) {
        SplitOfFusion(a, Concat(rest));
        assert LinesOf(pieces)[|l| - 1] == l[|l| - 1];
      } else {
        SplitOfJoin(a, Concat(rest));
        assert (l + SplitLines(Concat(rest)))[|l|..] == SplitLines(Concat(rest));
        assert (l + LinesOf(rest))[|l|..] == LinesOf(rest);
      }
    }
  }

  /** The lines of a text are proper pieces that do not fuse. */
  lemma {:induction false} LinesAreProper(s: string)
    ensures ProperPieces(SplitLines(s)) && NoFusion(SplitLines(s))
    ensures s != "" ==> SplitLines(s) != [] && SplitLines(s)[0] != "" && SplitLines(s)[0][0] == s[0]
    decreases |s|
  {
    if s != "" {
      LinesAreProper(s[FirstLine(s)..]);
      FirstLineShape(s);
    }
  }

  lemma {:induction false} FirstLineShape(s: string)
    requires s != ""
    ensures FirstLine(s) < |s| ==> EndsLine(s[..FirstLine(s)]) && !Fuses(s[..FirstLine(s)], s[FirstLine(s)..])
  {
    if !(s[0] == '\r' && |s| > 1 && s[1] == '\n') && !(IsBreak(s[0]) || |s| == 1) {
      FirstLineShape(s[1..]);
      var n := FirstLine(s[1..]);
      assert s[..n + 1] == [s[0]] + s[1..][..n];
      assert s[n + 1..] == s[1..][n..];
    }
  }
}
