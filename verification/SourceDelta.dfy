/** Line-range edits of a source text, applied in place from the back. */
module SourceDelta {
  import opened Prelude
  import opened Lines

  /** Replaces the lines `start` to `end`, counted from one, both included. */
  datatype Edit = Edit(start: int, end: int, replacement: string)

  datatype Delta = Delta(baseHash: string, action: string, reason: string, edits: seq<Edit>)

  datatype DeltaError =
    | HashMismatch | NoChangeWithEdits | InvalidReason | UnknownAction | NoEdits
    | EmptySource | OutOfRange | Overlap | MadeNoChange

  datatype DeltaResult = Applied(text: string, changed: bool) | Refused(error: DeltaError)

  const NO_CHANGE_REASONS := {"already_satisfies_goal", "insufficient_evidence", "no_safe_change"}

  // ----- validation -----

  predicate InRange(e: Edit, n: nat) {
    1 <= e.start <= e.end <= n
  }

  predicate AllInRange(edits: seq<Edit>, n: nat) {
    forall e :: e in edits ==> InRange(e, n)
  }

  /** The two ranges have no line in common. */
  predicate Apart(a: Edit, b: Edit) {
    a.end < b.start || b.end < a.start
  }

  predicate PairwiseApart(edits: seq<Edit>) {
    edits == [] || (AllApart(edits[0], edits[1..]) && PairwiseApart(edits[1..]))
  }

  /** The stable sort by first line. */
  function Insert(e: Edit, sorted: seq<Edit>): seq<Edit> {
    if sorted == [] || e.start <= sorted[0].start then [e] + sorted
    else [sorted[0]] + Insert(e, sorted[1..])
  }

  function SortByStart(edits: seq<Edit>): seq<Edit> {
    if edits == [] then [] else Insert(edits[0], SortByStart(edits[1..]))
  }

  predicate Ascending(edits: seq<Edit>) {
    |edits| <= 1 || (edits[0].start <= edits[1].start && Ascending(edits[1..]))
  }

  /** Every edit starts after `from` lines and after the edit before it has ended. */
  predicate Chain(edits: seq<Edit>, from: int) {
    edits == [] || (edits[0].start > from && Chain(edits[1..], edits[0].end))
  }

  lemma {:induction false} InsertMembers(e: Edit, sorted: seq<Edit>)
    ensures forall x :: x in Insert(e, sorted) <==> x == e || x in sorted
  {
    if !(sorted == [] || e.start <= sorted[0].start) {
      InsertMembers(e, sorted[1..]);
      assert sorted == [sorted[0]] + sorted[1..];
    }
  }

  lemma {:induction false} InsertAscending(e: Edit, sorted: seq<Edit>)
    requires Ascending(sorted)
    ensures Ascending(Insert(e, sorted))
  {
    if !(sorted == [] || e.start <= sorted[0].start) {
      InsertAscending(e, sorted[1..]);
    }
  }

  lemma {:induction false} SortKeeps(edits: seq<Edit>)
    ensures Ascending(SortByStart(edits))
    ensures forall e :: e in SortByStart(edits) <==> e in edits
  {
    if edits != [] {
      SortKeeps(edits[1..]);
      InsertAscending(edits[0], SortByStart(edits[1..]));
      InsertMembers(edits[0], SortByStart(edits[1..]));
      assert edits == [edits[0]] + edits[1..];
    }
  }

  predicate AllApart(e: Edit, edits: seq<Edit>) {
    forall x :: x in edits ==> Apart(e, x)
  }

  lemma {:induction false} InsertApart(e: Edit, sorted: seq<Edit>)
    ensures PairwiseApart(Insert(e, sorted)) <==> PairwiseApart(sorted) && AllApart(e, sorted)
  {
    if !(sorted == [] || e.start <= sorted[0].start) {
      var rest := sorted[1..];
      InsertApart(e, rest);
      InsertMembers(e, rest);
      assert AllApart(sorted[0], Insert(e, rest)) <==> Apart(sorted[0], e) && AllApart(sorted[0], rest) by {
        if AllApart(sorted[0], Insert(e, rest)) {
          assert e in Insert(e, rest);
        }
      }
      assert AllApart(e, sorted) <==> Apart(e, sorted[0]) && AllApart(e, rest) by {
        assert sorted == [sorted[0]] + rest;
        if AllApart(e, sorted) {
          assert sorted[0] in sorted;
        }
      }
    }
  }

  lemma {:induction false} SortApart(edits: seq<Edit>)
    ensures PairwiseApart(SortByStart(edits)) <==> PairwiseApart(edits)
  {
    if edits != [] {
      SortApart(edits[1..]);
      InsertApart(edits[0], SortByStart(edits[1..]));
      SortKeeps(edits[1..]);
    }
  }

  lemma {:induction false} AscendingChain(edits: seq<Edit>, n: nat, from: int)
    requires Ascending(edits) && AllInRange(edits, n)
    ensures Chain(edits, from) <==> PairwiseApart(edits) && forall e :: e in edits ==> e.start > from
  {
    if edits != [] {
      var rest := edits[1..];
      assert edits == [edits[0]] + rest;
      AscendingChain(rest, n, edits[0].end);
      AscendingBounds(edits);
      assert InRange(edits[0], n);
    }
  }

  lemma {:induction false} AscendingBounds(edits: seq<Edit>)
    requires Ascending(edits) && edits != []
    ensures forall e :: e in edits ==> edits[0].start <= e.start
  {
    assert edits == [edits[0]] + edits[1..];
    if |edits| > 1 {
      AscendingBounds(edits[1..]);
    }
  }

  /** The overlap test on the sorted edits fails exactly when two of the given ranges share a line. */
  lemma {:induction false} OverlapTestIsExact(edits: seq<Edit>, n: nat)
    requires AllInRange(edits, n)
    ensures Chain(SortByStart(edits), 0) <==> PairwiseApart(edits)
    ensures AllInRange(SortByStart(edits), n)
  {
    SortKeeps(edits);
    SortApart(edits);
    AscendingChain(SortByStart(edits), n, 0);
  }

  // ----- the simultaneous splice -----

  /** A line of the source that stays, or the text that an edit puts in place of its lines. */
  datatype Piece = Kept(at: nat) | New(at: nat, text: string)

  function Terminated(text: string, mustEndLine: bool, newline: string): string {
    if mustEndLine && !EndsInNewline(text) then text + newline else text
  }

  predicate EndsInNewline(s: string) {
    s != "" && (s[|s| - 1] == '\n' || s[|s| - 1] == '\r')
  }

  /** One forward pass over the `n` source lines from line `i` (counted from zero) on. */
  function Splice(n: nat, edits: seq<Edit>, i: nat, newline: string, finalNewline: bool): seq<Piece>
    requires i <= n && Chain(edits, i) && AllInRange(edits, n)
    decreases |edits|, n - i
  {
    if edits == [] then
      if i == n then [] else [Kept(i)] + Splice(n, edits, i + 1, newline, finalNewline)
    else
      assert InRange(edits[0], n);
      if i < edits[0].start - 1 then
        [Kept(i)] + Splice(n, edits, i + 1, newline, finalNewline)
      else
        var rest := Splice(n, edits[1..], edits[0].end, newline, finalNewline);
        if edits[0].replacement == "" then rest
        else [New(i, Terminated(edits[0].replacement, rest != [] || finalNewline, newline))] + rest
  }

  function TextOf(lines: seq<string>, p: Piece): string
    requires p.Kept? ==> p.at < |lines|
  {
    match p
    case Kept(i) => lines[i]
    case New(_, text) => text
  }

  predicate Within(pieces: seq<Piece>, n: nat) {
    forall p :: p in pieces && p.Kept? ==> p.at < n
  }

  function Texts(lines: seq<string>, pieces: seq<Piece>): seq<string>
    requires Within(pieces, |lines|)
  {
    seq(|pieces|, i requires 0 <= i < |pieces| => TextOf(lines, pieces[i]))
  }

  predicate Covered(edits: seq<Edit>, line: nat) {
    exists e :: e in edits && e.start - 1 <= line < e.end
  }

  /** `text` is what an edit that starts at line `at` puts there. */
  predicate Inserted(edits: seq<Edit>, at: nat, text: string, newline: string) {
    exists e :: e in edits && e.start - 1 == at && e.replacement != ""
      && (text == e.replacement || (text == e.replacement + newline && !EndsInNewline(e.replacement)))
  }

  /** The pieces stand in document order, between the lines `i` and `n`. */
  ghost predicate InOrder(pieces: seq<Piece>, i: nat, n: nat) {
    pieces == [] || (i <= pieces[0].at < n && InOrder(pieces[1..], pieces[0].at + 1, n))
  }

  lemma {:induction false} InOrderWeaken(pieces: seq<Piece>, i: nat, j: nat, n: nat)
    requires i <= j && InOrder(pieces, j, n)
    ensures InOrder(pieces, i, n)
  {
  }

  lemma {:induction false} InOrderBounds(pieces: seq<Piece>, i: nat, n: nat)
    requires InOrder(pieces, i, n)
    ensures forall p :: p in pieces ==> i <= p.at < n
  {
    if pieces != [] {
      InOrderBounds(pieces[1..], pieces[0].at + 1, n);
      assert pieces == [pieces[0]] + pieces[1..];
    }
  }

  /** Exactly the lines outside every range stay. */
  ghost predicate KeepsTheRest(pieces: seq<Piece>, n: nat, edits: seq<Edit>, i: nat) {
    forall l: nat :: StaysOrGoes(pieces, n, edits, i, l)
  }

  ghost predicate StaysOrGoes(pieces: seq<Piece>, n: nat, edits: seq<Edit>, i: nat, l: nat) {
    Kept(l) in pieces <==> i <= l < n && !Covered(edits, l)
  }

  /** Every new text is an edit's, and every edit that does not delete has one. */
  ghost predicate InsertsTheEdits(pieces: seq<Piece>, edits: seq<Edit>, newline: string) {
    && (forall p :: p in pieces && p.New? ==> Inserted(edits, p.at, p.text, newline))
    && (forall e :: e in edits && e.replacement != "" ==> InsertedAt(pieces, e.start - 1))
  }

  ghost predicate InsertedAt(pieces: seq<Piece>, at: int) {
    exists p :: p in pieces && p.New? && p.at == at
  }

  /** No two pieces stand at the same place. */
  ghost predicate StandOnce(pieces: seq<Piece>) {
    forall j, k :: 0 <= j < k < |pieces| ==> pieces[j].at < pieces[k].at
  }

  lemma {:induction false} OrderedStandOnce(pieces: seq<Piece>, i: nat, n: nat)
    requires InOrder(pieces, i, n)
    ensures StandOnce(pieces)
  {
    if pieces != [] {
      OrderedStandOnce(pieces[1..], pieces[0].at + 1, n);
      InOrderBounds(pieces[1..], pieces[0].at + 1, n);
      forall j, k | 0 <= j < k < |pieces|
        ensures pieces[j].at < pieces[k].at
      {
        assert pieces[k] == pieces[1..][k - 1];
        assert j > 0 ==> pieces[j] == pieces[1..][j - 1];
      }
    }
  }

  lemma {:induction false} SpliceInOrder(n: nat, edits: seq<Edit>, i: nat, newline: string, finalNewline: bool)
    requires i <= n && Chain(edits, i) && AllInRange(edits, n)
    ensures InOrder(Splice(n, edits, i, newline, finalNewline), i, n)
    decreases |edits|, n - i
  {
    if edits == [] {
      if i < n {
        SpliceInOrder(n, edits, i + 1, newline, finalNewline);
      }
    } else {
      assert InRange(edits[0], n);
      if i < edits[0].start - 1 {
        SpliceInOrder(n, edits, i + 1, newline, finalNewline);
      } else {
        var rest := Splice(n, edits[1..], edits[0].end, newline, finalNewline);
        SpliceInOrder(n, edits[1..], edits[0].end, newline, finalNewline);
        InOrderWeaken(rest, i, edits[0].end, n);
        InOrderWeaken(rest, i + 1, edits[0].end, n);
      }
    }
  }

  lemma {:induction false} ChainBounds(edits: seq<Edit>, i: nat, n: nat)
    requires Chain(edits, i) && AllInRange(edits, n)
    ensures forall e :: e in edits ==> i < e.start
  {
    if edits != [] {
      assert edits == [edits[0]] + edits[1..] && InRange(edits[0], n);
      ChainBounds(edits[1..], edits[0].end, n);
    }
  }

  lemma CoveredByFirst(edits: seq<Edit>, l: nat)
    requires edits != []
    ensures Covered(edits, l) <==> edits[0].start - 1 <= l < edits[0].end || Covered(edits[1..], l)
  {
    assert edits == [edits[0]] + edits[1..];
    if edits[0].start - 1 <= l < edits[0].end {
      assert edits[0] in edits;
    }
    if Covered(edits[1..], l) {
      var e :| e in edits[1..] && e.start - 1 <= l < e.end;
      assert e in edits;
    }
  }

  lemma {:induction false} SpliceKeepsTheRest(
    n: nat, edits: seq<Edit>, i: nat, newline: string, finalNewline: bool)
    requires i <= n && Chain(edits, i) && AllInRange(edits, n)
    ensures KeepsTheRest(Splice(n, edits, i, newline, finalNewline), n, edits, i)
    decreases |edits|, n - i
  {
    ChainBounds(edits, i, n);
    var pieces := Splice(n, edits, i, newline, finalNewline);
    if edits == [] && i == n {
      assert pieces == [];
    } else if edits == [] || i < edits[0].start - 1 {
      assert edits != [] ==> InRange(edits[0], n);
      var rest := Splice(n, edits, i + 1, newline, finalNewline);
      SpliceKeepsTheRest(n, edits, i + 1, newline, finalNewline);
      if edits != [] {
        ChainBounds(edits, i + 1, n);
      }
      assert !Covered(edits, i);
      forall l: nat
        ensures StaysOrGoes(pieces, n, edits, i, l)
      {
        assert StaysOrGoes(rest, n, edits, i + 1, l);
        assert pieces == [Kept(i)] + rest;
      }
    } else {
      assert InRange(edits[0], n);
      var rest := Splice(n, edits[1..], edits[0].end, newline, finalNewline);
      SpliceKeepsTheRest(n, edits[1..], edits[0].end, newline, finalNewline);
      ChainBounds(edits[1..], edits[0].end, n);
      forall l: nat
        ensures StaysOrGoes(pieces, n, edits, i, l)
      {
        assert StaysOrGoes(rest, n, edits[1..], edits[0].end, l);
        CoveredByFirst(edits, l);
        assert Covered(edits[1..], l) ==> edits[0].end <= l;
      }
    }
  }

  lemma {:induction false} InsertsFrom(
    n: nat, edits: seq<Edit>, i: nat, newline: string, finalNewline: bool)
    requires i <= n && Chain(edits, i) && AllInRange(edits, n)
    ensures InsertsTheEdits(Splice(n, edits, i, newline, finalNewline), edits, newline)
    decreases |edits|, n - i
  {
    if edits == [] && i == n {
      assert Splice(n, edits, i, newline, finalNewline) == [];
    } else if edits == [] || i < edits[0].start - 1 {
      assert edits != [] ==> InRange(edits[0], n);
      SpliceKept(n, edits, i, newline, finalNewline);
      InsertsFrom(n, edits, i + 1, newline, finalNewline);
      PrependKept(Splice(n, edits, i + 1, newline, finalNewline), edits, i, newline);
    } else {
      assert InRange(edits[0], n) && i == edits[0].start - 1;
      SpliceAtEdit(n, edits, newline, finalNewline);
      var rest := Splice(n, edits[1..], edits[0].end, newline, finalNewline);
      InsertsFrom(n, edits[1..], edits[0].end, newline, finalNewline);
      PrependEdit(rest, edits, i, newline, rest != [] || finalNewline);
    }
  }

  /** A line before the first edit is kept. */
  lemma {:induction false} SpliceKept(n: nat, edits: seq<Edit>, i: nat, newline: string, finalNewline: bool)
    requires i < n && Chain(edits, i) && AllInRange(edits, n) && (edits != [] ==> i < edits[0].start - 1)
    ensures Chain(edits, i + 1)
    ensures Splice(n, edits, i, newline, finalNewline) == [Kept(i)] + Splice(n, edits, i + 1, newline, finalNewline)
  {
    assert edits != [] ==> InRange(edits[0], n);
  }

  /** Every edit that does not delete has its text at its place, and nothing else stands there. */
  lemma {:induction false} SpliceInsertsTheEdits(
    n: nat, edits: seq<Edit>, i: nat, newline: string, finalNewline: bool)
    requires i <= n && Chain(edits, i) && AllInRange(edits, n)
    ensures InsertsTheEdits(Splice(n, edits, i, newline, finalNewline), edits, newline)
    ensures StandOnce(Splice(n, edits, i, newline, finalNewline))
  {
    InsertsFrom(n, edits, i, newline, finalNewline);
    SpliceInOrder(n, edits, i, newline, finalNewline);
    OrderedStandOnce(Splice(n, edits, i, newline, finalNewline), i, n);
  }

  lemma PrependKept(rest: seq<Piece>, edits: seq<Edit>, i: nat, newline: string)
    requires InsertsTheEdits(rest, edits, newline)
    ensures InsertsTheEdits([Kept(i)] + rest, edits, newline)
  {
    forall e | e in edits && e.replacement != ""
      ensures InsertedAt([Kept(i)] + rest, e.start - 1)
    {
      assert InsertedAt(rest, e.start - 1);
      var p :| p in rest && p.New? && p.at == e.start - 1;
      assert p in [Kept(i)] + rest;
    }
  }

  lemma PrependEdit(rest: seq<Piece>, edits: seq<Edit>, i: nat, newline: string, mustEnd: bool)
    requires edits != [] && i == edits[0].start - 1
    requires InsertsTheEdits(rest, edits[1..], newline)
    ensures var e := edits[0];
            InsertsTheEdits(
              if e.replacement == "" then rest
              else [New(i, Terminated(e.replacement, mustEnd, newline))] + rest,
              edits, newline)
  {
    var e := edits[0];
    var text := Terminated(e.replacement, mustEnd, newline);
    var pieces := if e.replacement == "" then rest else [New(i, text)] + rest;
    assert edits == [e] + edits[1..] && e in edits;
    forall p | p in pieces && p.New?
      ensures Inserted(edits, p.at, p.text, newline)
    {
      if p in rest {
        assert Inserted(edits[1..], p.at, p.text, newline);
      }
    }
    forall x | x in edits && x.replacement != ""
      ensures InsertedAt(pieces, x.start - 1)
    {
      if x in edits[1..] {
        assert InsertedAt(rest, x.start - 1);
        var p :| p in rest && p.New? && p.at == x.start - 1;
        assert p in pieces;
      } else {
        assert pieces[0] in pieces;
      }
    }
  }

  // ----- the text in place -----

  function Copies(i: nat, j: nat): seq<Piece>
    requires i <= j
  {
    seq(j - i, k requires 0 <= k < j - i => Kept(i + k))
  }

  lemma CopiesStep(i: nat, j: nat)
    requires i < j
    ensures Copies(i, j) == [Kept(i)] + Copies(i + 1, j)
  {
  }

  lemma {:induction false} SpliceCopies(n: nat, edits: seq<Edit>, i: nat, j: nat, newline: string, finalNewline: bool)
    requires i <= j <= n && Chain(edits, j) && AllInRange(edits, n)
    ensures Chain(edits, i)
    ensures Splice(n, edits, i, newline, finalNewline) == Copies(i, j) + Splice(n, edits, j, newline, finalNewline)
    decreases j - i
  {
    var rest := Splice(n, edits, j, newline, finalNewline);
    if i < j {
      SpliceCopies(n, edits, i + 1, j, newline, finalNewline);
      assert edits != [] ==> InRange(edits[0], n);
      CopiesStep(i, j);
      Associative([Kept(i)], Copies(i + 1, j), rest);
    } else {
      assert Copies(i, j) == [] && Copies(i, j) + rest == rest;
    }
  }

  lemma {:induction false} SpliceWithin(n: nat, edits: seq<Edit>, i: nat, newline: string, finalNewline: bool)
    requires i <= n && Chain(edits, i) && AllInRange(edits, n)
    ensures Within(Splice(n, edits, i, newline, finalNewline), n)
  {
    SpliceInOrder(n, edits, i, newline, finalNewline);
    InOrderBounds(Splice(n, edits, i, newline, finalNewline), i, n);
  }

  lemma TextsAppend(lines: seq<string>, a: seq<Piece>, b: seq<Piece>)
    requires Within(a, |lines|) && Within(b, |lines|)
    ensures Within(a + b, |lines|) && Texts(lines, a + b) == Texts(lines, a) + Texts(lines, b)
  {
  }

  lemma TextsCopied(lines: seq<string>, i: nat, j: nat)
    requires i <= j <= |lines|
    ensures Within(Copies(i, j), |lines|) && Texts(lines, Copies(i, j)) == lines[i..j]
  {
  }

  /** The texts of the splice from line `i` on. */
  ghost function SplicedTexts(lines: seq<string>, edits: seq<Edit>, i: nat, newline: string, finalNewline: bool)
    : (r: seq<string>)
    requires i <= |lines| && Chain(edits, i) && AllInRange(edits, |lines|)
  {
    SpliceWithin(|lines|, edits, i, newline, finalNewline);
    Texts(lines, Splice(|lines|, edits, i, newline, finalNewline))
  }

  lemma {:induction false} TextsOfCopies(
    lines: seq<string>, edits: seq<Edit>, i: nat, j: nat, newline: string, finalNewline: bool)
    requires i <= j <= |lines| && Chain(edits, j) && AllInRange(edits, |lines|)
    ensures Chain(edits, i)
    ensures SplicedTexts(lines, edits, i, newline, finalNewline) ==
            lines[i..j] + SplicedTexts(lines, edits, j, newline, finalNewline)
  {
    SpliceCopies(|lines|, edits, i, j, newline, finalNewline);
    SpliceWithin(|lines|, edits, j, newline, finalNewline);
    TextsCopied(lines, i, j);
    TextsAppend(lines, Copies(i, j), Splice(|lines|, edits, j, newline, finalNewline));
  }

  /** With no edits left, the rest of the source stays. */
  lemma TextsWithoutEdits(lines: seq<string>, i: nat, newline: string, finalNewline: bool)
    requires i <= |lines|
    ensures SplicedTexts(lines, [], i, newline, finalNewline) == lines[i..]
  {
    TextsOfCopies(lines, [], i, |lines|, newline, finalNewline);
    assert SplicedTexts(lines, [], |lines|, newline, finalNewline) == [];
  }

  /** Replacing the lines of the first edit, once everything after them is spliced, splices them too. */
  lemma {:induction false} TextsOfEdit(
    lines: seq<string>, edits: seq<Edit>, i: nat, newline: string, finalNewline: bool)
    requires edits != [] && Chain(edits, i) && AllInRange(edits, |lines|)
    ensures InRange(edits[0], |lines|) && i <= edits[0].start - 1
    ensures var e := edits[0];
            var rest := SplicedTexts(lines, edits[1..], e.end, newline, finalNewline);
            var text := Terminated(e.replacement, rest != [] || finalNewline, newline);
            SplicedTexts(lines, edits, i, newline, finalNewline) ==
            lines[i..e.start - 1] + (if e.replacement == "" then [] else [text]) + rest
  {
    var e := edits[0];
    assert e in edits;
    TextsOfCopies(lines, edits, i, e.start - 1, newline, finalNewline);
    TextsFromEdit(lines, edits, newline, finalNewline);
    var rest := SplicedTexts(lines, edits[1..], e.end, newline, finalNewline);
    var text := Terminated(e.replacement, rest != [] || finalNewline, newline);
    Associative(lines[i..e.start - 1], if e.replacement == "" then [] else [text], rest);
  }

  lemma {:induction false} TextsFromEdit(lines: seq<string>, edits: seq<Edit>, newline: string, finalNewline: bool)
    requires edits != [] && AllInRange(edits, |lines|) && InRange(edits[0], |lines|)
    requires Chain(edits, edits[0].start - 1)
    ensures var e := edits[0];
            var rest := SplicedTexts(lines, edits[1..], e.end, newline, finalNewline);
            var text := Terminated(e.replacement, rest != [] || finalNewline, newline);
            SplicedTexts(lines, edits, e.start - 1, newline, finalNewline) ==
            (if e.replacement == "" then [] else [text]) + rest
  {
    var e := edits[0];
    var rest := Splice(|lines|, edits[1..], e.end, newline, finalNewline);
    SpliceWithin(|lines|, edits[1..], e.end, newline, finalNewline);
    SpliceAtEdit(|lines|, edits, newline, finalNewline);
    if e.replacement != "" {
      TextsOfNew(lines, New(e.start - 1, Terminated(e.replacement, rest != [] || finalNewline, newline)), rest);
    }
  }

  /** At the first edit the splice puts its text and goes on behind its range. */
  lemma {:induction false} SpliceAtEdit(n: nat, edits: seq<Edit>, newline: string, finalNewline: bool)
    requires edits != [] && AllInRange(edits, n) && InRange(edits[0], n) && Chain(edits, edits[0].start - 1)
    ensures var e := edits[0];
            var rest := Splice(n, edits[1..], e.end, newline, finalNewline);
            Splice(n, edits, e.start - 1, newline, finalNewline) ==
            if e.replacement == "" then rest
            else [New(e.start - 1, Terminated(e.replacement, rest != [] || finalNewline, newline))] + rest
  {
  }

  lemma TextsOfNew(lines: seq<string>, piece: Piece, rest: seq<Piece>)
    requires piece.New? && Within(rest, |lines|)
    ensures Within([piece] + rest, |lines|) && Texts(lines, [piece] + rest) == [piece.text] + Texts(lines, rest)
  {
    TextsAppend(lines, [piece], rest);
    assert Texts(lines, [piece]) == [piece.text];
  }

  function Newline(source: string): string {
    if HasCrLf(source) then "\r\n" else "\n"
  }

  predicate HasCrLf(source: string) {
    exists i :: 0 <= i < |source| - 1 && source[i] == '\r' && source[i + 1] == '\n'
  }

  /** The number of source lines up to the end of the first `k` edits. */
  function EndBefore(edits: seq<Edit>, k: nat): int
    requires k <= |edits|
  {
    if k == 0 then 0 else edits[k - 1].end
  }

  lemma {:induction false} ChainSuffix(edits: seq<Edit>, k: nat, n: nat)
    requires k <= |edits| && Chain(edits, 0) && AllInRange(edits, n)
    ensures 0 <= EndBefore(edits, k) <= n
    ensures Chain(edits[k..], EndBefore(edits, k)) && AllInRange(edits[k..], n)
  {
    if k > 0 {
      ChainSuffix(edits, k - 1, n);
      assert edits[k - 1..][1..] == edits[k..] && InRange(edits[k - 1], n);
    } else {
      assert edits[0..] == edits;
    }
  }

  /** One slice assignment moves the splice to the front by one edit. */
  lemma {:induction false} AssignSlice(
    lines0: seq<string>, edits: seq<Edit>, i: nat, newline: string, finalNewline: bool, lines: seq<string>)
    requires edits != [] && i <= |lines0| && Chain(edits, i) && AllInRange(edits, |lines0|)
    requires InRange(edits[0], |lines0|)
    requires lines == lines0[..edits[0].end] + SplicedTexts(lines0, edits[1..], edits[0].end, newline, finalNewline)
    ensures var Edit(start, end, replacement) := edits[0];
            var mustEndLine := end < |lines| || (end == |lines| && finalNewline);
            var text := Terminated(replacement, mustEndLine, newline);
            lines[..start - 1] + (if replacement != "" then [text] else []) + lines[end..] ==
            lines0[..i] + SplicedTexts(lines0, edits, i, newline, finalNewline)
  {
    TextsOfEdit(lines0, edits, i, newline, finalNewline);
    var e := edits[0];
    var rest := SplicedTexts(lines0, edits[1..], e.end, newline, finalNewline);
    SliceParts(lines0, i, e.start - 1, e.end, rest);
    var text := Terminated(e.replacement, rest != [] || finalNewline, newline);
    var added := if e.replacement == "" then [] else [text];
    RegroupFour(lines0[..i], lines0[i..e.start - 1], added, rest);
  }

  lemma SliceParts<T>(s: seq<T>, i: nat, j: nat, end: nat, rest: seq<T>)
    requires i <= j <= end <= |s|
    ensures var t := s[..end] + rest;
            t[end..] == rest && t[..j] == s[..i] + s[i..j]
  {
  }

  lemma FirstOfSuffix(edits: seq<Edit>, k: nat, n: nat)
    requires k < |edits| && AllInRange(edits, n)
    ensures InRange(edits[k], n) && edits[k..] != [] && edits[k..][0] == edits[k] && edits[k..][1..] == edits[k + 1..]
  {
  }

  /** Slice assignment for each edit, last edit first; `lines` shrinks and grows on the way. */
  method EditInPlace(lines0: seq<string>, edits: seq<Edit>, newline: string, finalNewline: bool)
    returns (lines: seq<string>)
    requires Chain(edits, 0) && AllInRange(edits, |lines0|)
    ensures lines == SplicedTexts(lines0, edits, 0, newline, finalNewline)
  {
    lines := lines0;
    ghost var n := |lines0|;
    ChainSuffix(edits, |edits|, n);
    TextsWithoutEdits(lines0, EndBefore(edits, |edits|), newline, finalNewline);
    for k := |edits| downto 0
      invariant 0 <= EndBefore(edits, k) <= n
      invariant Chain(edits[k..], EndBefore(edits, k)) && AllInRange(edits[k..], n)
      invariant lines == lines0[..EndBefore(edits, k)]
                         + SplicedTexts(lines0, edits[k..], EndBefore(edits, k), newline, finalNewline)
    {
      ChainSuffix(edits, k, n);
      var Edit(start, end, replacement) := edits[k];
      FirstOfSuffix(edits, k, n);
      AssignSlice(lines0, edits[k..], EndBefore(edits, k), newline, finalNewline, lines);
      var mustEndLine := end < |lines| || (end == |lines| && finalNewline);
      if replacement != "" && mustEndLine && !EndsInNewline(replacement) {
        replacement := replacement + newline;
      }
      lines := lines[..start - 1] + (if replacement != "" then [replacement] else []) + lines[end..];
    }
    assert edits[0..] == edits && lines0[..0] == [];
  }

  // ----- the whole operation -----

  /** Why a delta is refused before any line is touched. */
  function Objection(source: string, delta: Delta, hash: string): (r: seq<DeltaError>)
  {
    if delta.baseHash != hash then [HashMismatch]
    else if delta.action == "no_change" then
      if delta.edits != [] then [NoChangeWithEdits]
      else if delta.reason !in NO_CHANGE_REASONS then [InvalidReason]
      else []
    else if delta.action != "patch" then [UnknownAction]
    else if delta.edits == [] then [NoEdits]
    else if source == "" then [EmptySource]
    else if !AllInRange(delta.edits, |SplitLines(source)|) then [OutOfRange]
    else if !PairwiseApart(delta.edits) then [Overlap]
    else []
  }

  /** The text a valid patch produces: the simultaneous splice of its edits into the source's lines. */
  ghost function PatchedText(source: string, edits: seq<Edit>): string
    requires AllInRange(edits, |SplitLines(source)|) && PairwiseApart(edits)
  {
    OverlapTestIsExact(edits, |SplitLines(source)|);
    Concat(SplicedTexts(SplitLines(source), SortByStart(edits), 0, Newline(source), EndsInNewline(source)))
  }

  /**
   * Applies a delta to the source it was made for (`hash` is the source's content hash), or refuses it.
   * A patch that leaves the text as it was is refused.
   */
  method ApplySourceDelta(source: string, delta: Delta, hash: string) returns (r: DeltaResult)
    ensures Objection(source, delta, hash) != [] ==> r == Refused(Objection(source, delta, hash)[0])
    ensures Objection(source, delta, hash) == [] && delta.action == "no_change" ==> r == Applied(source, false)
    ensures Objection(source, delta, hash) == [] && delta.action != "no_change" ==>
              var text := PatchedText(source, delta.edits);
              r == if text == source then Refused(MadeNoChange) else Applied(text, true)
  {
    if delta.baseHash != hash {
      return Refused(HashMismatch);
    }
    if delta.action == "no_change" {
      if delta.edits != [] {
        return Refused(NoChangeWithEdits);
      }
      if delta.reason !in NO_CHANGE_REASONS {
        return Refused(InvalidReason);
      }
      return Applied(source, false);
    }
    if delta.action != "patch" {
      return Refused(UnknownAction);
    }
    if delta.edits == [] {
      return Refused(NoEdits);
    }
    var lines := SplitLines(source);
    if lines == [] {
      return Refused(EmptySource);
    }
    for i := 0 to |delta.edits|
      invariant forall j :: 0 <= j < i ==> InRange(delta.edits[j], |lines|)
    {
      if delta.edits[i].start < 1 || delta.edits[i].end < delta.edits[i].start || delta.edits[i].end > |lines| {
        assert delta.edits[i] in delta.edits && !InRange(delta.edits[i], |lines|);
        return Refused(OutOfRange);
      }
    }
    var normalized := SortByStart(delta.edits);
    OverlapTestIsExact(delta.edits, |lines|);
    var previousEnd := 0;
    for i := 0 to |normalized|
      invariant Chain(normalized, 0) <==> Chain(normalized[i..], previousEnd)
    {
      if normalized[i].start <= previousEnd {
        return Refused(Overlap);
      }
      previousEnd := normalized[i].end;
      assert normalized[i..][1..] == normalized[i + 1..];
    }
    lines := EditInPlace(lines, normalized, Newline(source), EndsInNewline(source));
    var evolved := Concat(lines);
    return if evolved == source then Refused(MadeNoChange) else Applied(evolved, true);
  }

  // ----- no fusion -----

  /** Proper pieces behind proper pieces whose last one ends a line. */
  lemma {:induction false} ProperJoin(a: seq<string>, b: seq<string>)
    requires ProperPieces(a) && ProperPieces(b) && (a != [] && b != [] ==> EndsLine(a[|a| - 1]))
    ensures ProperPieces(a + b)
  {
    if a == [] {
      assert a + b == b;
    } else {
      ProperJoin(a[1..], b);
      assert (a + b)[1..] == a[1..] + b;
    }
  }

  lemma {:induction false} ProperSlice(pieces: seq<string>, i: nat, j: nat)
    requires i <= j <= |pieces| && ProperPieces(pieces)
    ensures ProperPieces(pieces[i..j])
    ensures i < j < |pieces| ==> EndsLine(pieces[i..j][j - i - 1])
  {
    if i > 0 {
      ProperSlice(pieces[1..], i - 1, j - 1);
      assert pieces[i..j] == pieces[1..][i - 1..j - 1];
    } else if j > 0 {
      ProperSlice(pieces[1..], 0, j - 1);
      assert pieces[0..j][1..] == pieces[1..][0..j - 1];
    }
  }

  predicate EndsInCr(s: string) {
    s != "" && s[|s| - 1] == '\r'
  }

  predicate StartsWithLf(s: string) {
    s != "" && s[0] == '\n'
  }

  /** Behind a text that ends in CR, as `cr` says, the lines from `i` up to `j` do not start with LF. */
  predicate LinesFree(lines: seq<string>, i: nat, j: nat, cr: bool)
    requires i <= j <= |lines|
  {
    i < j ==> !(cr && StartsWithLf(lines[i]))
  }

  predicate CrBehind(lines: seq<string>, i: nat, j: nat, cr: bool)
    requires i <= j <= |lines|
  {
    if i < j then EndsInCr(lines[j - 1]) else cr
  }

  /** Walking over the sorted edits from line `i` on, at no seam a LF follows a CR. */
  predicate SeamFree(lines: seq<string>, edits: seq<Edit>, i: nat, cr: bool)
    requires i <= |lines| && Chain(edits, i) && AllInRange(edits, |lines|)
    decreases |edits|
  {
    if edits == [] then LinesFree(lines, i, |lines|, cr)
    else
      assert InRange(edits[0], |lines|);
      var first, text := edits[0].start - 1, edits[0].replacement;
      && LinesFree(lines, i, first, cr)
      && if text == "" then SeamFree(lines, edits[1..], edits[0].end, CrBehind(lines, i, first, cr))
         else !(CrBehind(lines, i, first, cr) && StartsWithLf(text))
              && SeamFree(lines, edits[1..], edits[0].end, EndsInCr(text))
  }

  /** Behind a text that ends in CR, or does not, the pieces follow without a fusion. */
  predicate Clean(cr: bool, pieces: seq<string>) {
    NoFusion(pieces) && (pieces != [] ==> !(cr && StartsWithLf(pieces[0])))
  }

  /** Whether the last of the pieces ends in CR. */
  predicate CrAfter(cr: bool, pieces: seq<string>) {
    if pieces == [] then cr else EndsInCr(pieces[|pieces| - 1])
  }

  lemma {:induction false} CleanAppend(cr: bool, a: seq<string>, b: seq<string>)
    ensures Clean(cr, a + b) <==> Clean(cr, a) && Clean(CrAfter(cr, a), b)
    decreases |a|
  {
    if a == [] {
      assert a + b == b;
    } else {
      CleanAppend(EndsInCr(a[0]), a[1..], b);
      assert (a + b)[1..] == a[1..] + b;
      CleanCons(cr, a[0], a[1..] + b);
      CleanCons(cr, a[0], a[1..]);
      assert a == [a[0]] + a[1..] && a + b == [a[0]] + (a[1..] + b);
    }
  }

  lemma CleanCons(cr: bool, p: string, rest: seq<string>)
    ensures Clean(cr, [p] + rest) <==> !(cr && StartsWithLf(p)) && Clean(EndsInCr(p), rest)
  {
    assert ([p] + rest)[1..] == rest;
  }

  /** Neighbouring lines of a text do not fuse, so only what stands before them matters. */
  lemma {:induction false} CleanLines(lines: seq<string>, i: nat, j: nat, cr: bool)
    requires i <= j <= |lines| && NoFusion(lines)
    ensures Clean(cr, lines[i..j]) <==> LinesFree(lines, i, j, cr)
  {
    assert lines == lines[..i] + lines[i..j] + lines[j..];
    assert Clean(false, lines);
    CleanAppend(false, lines[..i] + lines[i..j], lines[j..]);
    CleanAppend(false, lines[..i], lines[i..j]);
  }

  /** The end that a line needs is added to texts that do not end in CR, and is no lone CR itself. */
  lemma TerminatedEnds(text: string, mustEndLine: bool, newline: string)
    requires text != "" && (newline == "\n" || newline == "\r\n")
    ensures var t := Terminated(text, mustEndLine, newline);
            EndsInCr(t) == EndsInCr(text) && StartsWithLf(t) == StartsWithLf(text)
  {
  }

  lemma CrAfterLines(lines: seq<string>, i: nat, j: nat, cr: bool)
    requires i <= j <= |lines|
    ensures CrAfter(cr, lines[i..j]) == CrBehind(lines, i, j, cr)
  {
    var kept := lines[i..j];
    assert i < j ==> kept[|kept| - 1] == lines[j - 1];
  }

  /** The kept lines and what follows them. */
  lemma {:induction false} CleanKept(lines: seq<string>, i: nat, j: nat, cr: bool, rest: seq<string>)
    requires i <= j <= |lines| && NoFusion(lines)
    ensures Clean(cr, lines[i..j] + rest) <==> LinesFree(lines, i, j, cr) && Clean(CrBehind(lines, i, j, cr), rest)
  {
    CleanLines(lines, i, j, cr);
    CleanAppend(cr, lines[i..j], rest);
    CrAfterLines(lines, i, j, cr);
  }

  /** The kept lines, a replacement and what follows it. */
  lemma {:induction false} CleanReplaced(lines: seq<string>, i: nat, j: nat, cr: bool, text: string, rest: seq<string>)
    requires i <= j <= |lines| && NoFusion(lines)
    ensures Clean(cr, lines[i..j] + [text] + rest) <==>
            && LinesFree(lines, i, j, cr)
            && !(CrBehind(lines, i, j, cr) && StartsWithLf(text)) && Clean(EndsInCr(text), rest)
  {
    Associative(lines[i..j], [text], rest);
    CleanKept(lines, i, j, cr, [text] + rest);
    CleanCons(CrBehind(lines, i, j, cr), text, rest);
  }

  lemma SeamFreeEdit(
    lines: seq<string>, edits: seq<Edit>, i: nat, cr: bool, newline: string, mustEnd: bool, rest: seq<string>)
    requires i <= |lines| && Chain(edits, i) && AllInRange(edits, |lines|)
    requires edits != [] && InRange(edits[0], |lines|)
    requires NoFusion(lines) && (newline == "\n" || newline == "\r\n")
    requires var e := edits[0];
             var behind := if e.replacement == "" then CrBehind(lines, i, e.start - 1, cr) else EndsInCr(e.replacement);
             SeamFree(lines, edits[1..], e.end, behind) <==> Clean(behind, rest)
    ensures var e := edits[0];
            var text := Terminated(e.replacement, mustEnd, newline);
            SeamFree(lines, edits, i, cr) <==>
            Clean(cr, lines[i..e.start - 1] + (if e.replacement == "" then [] else [text]) + rest)
  {
    var e := edits[0];
    if e.replacement == "" {
      assert lines[i..e.start - 1] + [] == lines[i..e.start - 1];
      CleanKept(lines, i, e.start - 1, cr, rest);
    } else {
      TerminatedEnds(e.replacement, mustEnd, newline);
      CleanReplaced(lines, i, e.start - 1, cr, Terminated(e.replacement, mustEnd, newline), rest);
    }
  }

  /** The walk over the edits decides whether the spliced texts fuse. */
  lemma {:induction false} SeamFreeIff(
    lines: seq<string>, edits: seq<Edit>, i: nat, cr: bool, newline: string, finalNewline: bool)
    requires i <= |lines| && Chain(edits, i) && AllInRange(edits, |lines|)
    requires NoFusion(lines) && (newline == "\n" || newline == "\r\n")
    ensures SeamFree(lines, edits, i, cr) <==> Clean(cr, SplicedTexts(lines, edits, i, newline, finalNewline))
    decreases |edits|
  {
    if edits == [] {
      TextsWithoutEdits(lines, i, newline, finalNewline);
      assert lines[i..|lines|] == lines[i..];
      CleanLines(lines, i, |lines|, cr);
    } else {
      TextsOfEdit(lines, edits, i, newline, finalNewline);
      var e := edits[0];
      var rest := SplicedTexts(lines, edits[1..], e.end, newline, finalNewline);
      var behind := if e.replacement == "" then CrBehind(lines, i, e.start - 1, cr) else EndsInCr(e.replacement);
      SeamFreeIff(lines, edits[1..], e.end, behind, newline, finalNewline);
      SeamFreeEdit(lines, edits, i, cr, newline, rest != [] || finalNewline, rest);
    }
  }

  /** Kept lines, a replacement that ends its line when it must, and the rest. */
  lemma {:induction false} ProperAtEdit(kept: seq<string>, text: string, mustEnd: bool, newline: string,
                                        rest: seq<string>)
    requires ProperPieces(kept) && ProperPieces(rest) && EndsLine(newline)
    requires (kept != [] ==> EndsLine(kept[|kept| - 1])) && (rest != [] ==> mustEnd)
    ensures ProperPieces(kept + (if text == "" then [] else [Terminated(text, mustEnd, newline)]) + rest)
  {
    if text == "" {
      assert kept + [] == kept;
      ProperJoin(kept, rest);
    } else {
      var t := Terminated(text, mustEnd, newline);
      assert mustEnd ==> EndsLine(t);
      assert ProperPieces([t]);
      ProperJoin([t], rest);
      ProperJoin(kept, [t] + rest);
      Associative(kept, [t], rest);
    }
  }

  /** However the later edits change the line count, every text but the last keeps its line end. */
  lemma {:induction false} SplicedTextsAreProper(
    lines: seq<string>, edits: seq<Edit>, i: nat, newline: string, finalNewline: bool)
    requires i <= |lines| && Chain(edits, i) && AllInRange(edits, |lines|)
    requires ProperPieces(lines) && EndsLine(newline)
    ensures ProperPieces(SplicedTexts(lines, edits, i, newline, finalNewline))
    decreases |edits|, |lines| - i
  {
    if edits == [] {
      TextsWithoutEdits(lines, i, newline, finalNewline);
      ProperSlice(lines, i, |lines|);
      assert lines[i..] == lines[i..|lines|];
    } else {
      TextsOfEdit(lines, edits, i, newline, finalNewline);
      var e := edits[0];
      var rest := SplicedTexts(lines, edits[1..], e.end, newline, finalNewline);
      SplicedTextsAreProper(lines, edits[1..], e.end, newline, finalNewline);
      ProperSlice(lines, i, e.start - 1);
      ProperAtEdit(lines[i..e.start - 1], e.replacement, rest != [] || finalNewline, newline, rest);
    }
  }

  /**
   * The patched text splits into exactly the surviving lines and the lines of the replacements, exactly
   * when the walk over the edits finds no seam where a LF follows a CR.
   */
  lemma {:induction false} PatchedLinesIff(source: string, edits: seq<Edit>)
    requires AllInRange(edits, |SplitLines(source)|) && PairwiseApart(edits)
    ensures Chain(SortByStart(edits), 0) && AllInRange(SortByStart(edits), |SplitLines(source)|)
    ensures var texts := SplicedTexts(SplitLines(source), SortByStart(edits), 0,
                                      Newline(source), EndsInNewline(source));
            SplitLines(PatchedText(source, edits)) == LinesOf(texts) <==>
            SeamFree(SplitLines(source), SortByStart(edits), 0, false)
  {
    OverlapTestIsExact(edits, |SplitLines(source)|);
    LinesAreProper(source);
    var lines, sorted := SplitLines(source), SortByStart(edits);
    SplicedTextsAreProper(lines, sorted, 0, Newline(source), EndsInNewline(source));
    ResplitIffNoFusion(SplicedTexts(lines, sorted, 0, Newline(source), EndsInNewline(source)));
    SeamFreeIff(lines, sorted, 0, false, Newline(source), EndsInNewline(source));
  }

  /** Every CR of the text is the first half of a CR LF. */
  predicate NoLoneCr(s: string) {
    forall i :: 0 <= i < |s| && s[i] == '\r' ==> i + 1 < |s| && s[i + 1] == '\n'
  }

  lemma FuseAt(s: string, n: nat)
    requires 0 < n <= |s|
    ensures n < |s| && s[n - 1] == '\r' && s[n] == '\n' ==> Fuses(s[..n], s[n..])
  {
  }

  lemma {:induction false} LinesHaveNoLoneCr(s: string)
    requires NoLoneCr(s)
    ensures forall l :: l in SplitLines(s) ==> NoLoneCr(l)
    decreases |s|
  {
    if s != "" {
      var n := FirstLine(s);
      FirstLineShape(s);
      FuseAt(s, n);
      assert NoLoneCr(s[..n]) && NoLoneCr(s[n..]) by {
        forall i | 0 <= i < n && s[i] == '\r'
          ensures i + 1 < n
        {
          assert s[i + 1] == '\n';
        }
      }
      LinesHaveNoLoneCr(s[n..]);
    }
  }

  lemma {:induction false} NoLoneCrNoFusion(pieces: seq<string>)
    requires forall p :: p in pieces ==> NoLoneCr(p)
    ensures NoFusion(pieces)
  {
    if |pieces| > 1 {
      NoLoneCrNoFusion(pieces[1..]);
      assert NoLoneCr(pieces[0]);
    }
  }

  lemma InsertedHasNoLoneCr(edits: seq<Edit>, at: nat, text: string, newline: string)
    requires Inserted(edits, at, text, newline) && (newline == "\n" || newline == "\r\n")
    requires forall e :: e in edits ==> NoLoneCr(e.replacement)
    ensures NoLoneCr(text)
  {
    var e :| e in edits && e.start - 1 == at && e.replacement != ""
             && (text == e.replacement || (text == e.replacement + newline && !EndsInNewline(e.replacement)));
    assert NoLoneCr(newline) && NoLoneCr(e.replacement);
    forall i | 0 <= i < |text| && text[i] == '\r'
      ensures i + 1 < |text| && text[i + 1] == '\n'
    {
      if i < |e.replacement| {
        assert e.replacement[i + 1] == '\n';
      } else {
        assert newline[i - |e.replacement| + 1] == '\n';
      }
    }
  }

  /** With LF and CR LF as the only line ends around, a patch never fuses lines. */
  lemma {:induction false} PatchKeepsLines(source: string, edits: seq<Edit>)
    requires AllInRange(edits, |SplitLines(source)|) && PairwiseApart(edits)
    requires NoLoneCr(source) && forall e :: e in edits ==> NoLoneCr(e.replacement)
    ensures Chain(SortByStart(edits), 0) && AllInRange(SortByStart(edits), |SplitLines(source)|)
    ensures SplitLines(PatchedText(source, edits)) ==
            LinesOf(SplicedTexts(SplitLines(source), SortByStart(edits), 0,
                                 Newline(source), EndsInNewline(source)))
  {
    PatchedLinesIff(source, edits);
    var lines, sorted, newline := SplitLines(source), SortByStart(edits), Newline(source);
    var pieces := Splice(|lines|, sorted, 0, newline, EndsInNewline(source));
    var texts := SplicedTexts(lines, sorted, 0, newline, EndsInNewline(source));
    LinesHaveNoLoneCr(source);
    SortKeeps(edits);
    SpliceInsertsTheEdits(|lines|, sorted, 0, newline, EndsInNewline(source));
    SpliceWithin(|lines|, sorted, 0, newline, EndsInNewline(source));
    forall t | t in texts
      ensures NoLoneCr(t)
    {
      var k :| 0 <= k < |texts| && texts[k] == t;
      assert pieces[k] in pieces;
      if pieces[k].Kept? {
        assert t == lines[pieces[k].at];
      } else {
        InsertedHasNoLoneCr(sorted, pieces[k].at, pieces[k].text, newline);
      }
    }
    NoLoneCrNoFusion(texts);
    LinesAreProper(source);
    SeamFreeIff(lines, sorted, 0, false, newline, EndsInNewline(source));
  }

  lemma TwoLines()
    ensures SplitLines("a\n\n") == ["a\n", "\n"] && SplitLines("x\r\n") == ["x\r\n"]
  {
    var source, result := "a\n\n", "x\r\n";
    assert source[1..] == "\n\n" && source[2..] == "\n" && source[..2] == "a\n";
    assert FirstLine(source) == 1 + FirstLine(source[1..]) == 2;
    var blank := "\n";
    assert FirstLine(blank) == 1 && blank[..1] == blank && blank[1..] == "";
    assert SplitLines(blank) == [blank];
    assert result[1..] == "\r\n" && result[..3] == result && result[3..] == "";
    assert FirstLine(result) == 1 + FirstLine(result[1..]) == 3;
  }

  lemma {:induction false} SpliceTwoLines(edits: seq<Edit>)
    requires edits == [Edit(1, 1, "x\r")]
    ensures Chain(edits, 0) && AllInRange(edits, 2) && SortByStart(edits) == edits
    ensures SplicedTexts(["a\n", "\n"], edits, 0, "\n", true) == ["x\r", "\n"]
  {
    assert edits[1..] == [] && SortByStart([]) == [];
    TextsOfEdit(["a\n", "\n"], edits, 0, "\n", true);
    TextsWithoutEdits(["a\n", "\n"], 1, "\n", true);
  }

  /** A lone CR does fuse: replacing the first of two lines by "x" CR swallows the empty second line. */
  lemma LoneCrSwallowsALine()
    ensures var source, edits := "a\n\n", [Edit(1, 1, "x\r")];
            && SplitLines(source) == ["a\n", "\n"]
            && AllInRange(edits, |SplitLines(source)|) && PairwiseApart(edits)
            && PatchedText(source, edits) == "x\r\n"
            && SplitLines(PatchedText(source, edits)) == ["x\r\n"]
  {
    var edits := [Edit(1, 1, "x\r")];
    TwoLines();
    SpliceTwoLines(edits);
    assert edits[1..] == [];
    assert !HasCrLf("a\n\n") && EndsInNewline("a\n\n");
    var texts := ["x\r", "\n"];
    assert texts[1..] == ["\n"] && ["\n"][1..] == [];
    assert Concat(texts[1..]) == "\n" + "" == "\n";
    assert Concat(texts) == "x\r" + "\n" == "x\r\n";
  }
}
