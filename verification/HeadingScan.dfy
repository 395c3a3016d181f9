/** From the document's text to its section tree: scanning lines for headings, filtering, building. */
module HeadingScan {
  import opened Prelude
  import Lines
  import opened SectionSpec
  import opened HeadingFilter
  import opened SectionTree

  /** White space as `str.strip` sees it. */
  predicate IsSpace(c: char) {
    || c == ' ' || '\t' <= c <= '\r' || '\U{1C}' <= c <= '\U{1F}' || c == '\U{85}' || c == '\U{A0}'
    || c == '\U{1680}' || '\U{2000}' <= c <= '\U{200A}' || c == '\U{2028}' || c == '\U{2029}' || c == '\U{202F}'
    || c == '\U{205F}' || c == '\U{3000}'
  }

  function LeadingSpaces(s: string): (n: nat)
    ensures n <= |s|
    ensures n < |s| ==> !IsSpace(s[n])
    ensures forall i :: 0 <= i < n ==> IsSpace(s[i])
  {
    if s == "" || !IsSpace(s[0]) then 0 else 1 + LeadingSpaces(s[1..])
  }

  /** The length without the trailing white space. */
  function TrimmedLength(s: string): (n: nat)
    ensures n <= |s|
    ensures n > 0 ==> !IsSpace(s[n - 1])
    ensures forall i :: n <= i < |s| ==> IsSpace(s[i])
  {
    if s == "" || !IsSpace(s[|s| - 1]) then |s| else TrimmedLength(s[..|s| - 1])
  }

  function Strip(s: string): string {
    if LeadingSpaces(s) == |s| then "" else s[LeadingSpaces(s)..TrimmedLength(s)]
  }

  /** The line without its trailing CR and LF characters. */
  function WithoutNewline(s: string): (r: string)
    ensures r <= s
  {
    if s != "" && (s[|s| - 1] == '\n' || s[|s| - 1] == '\r') then WithoutNewline(s[..|s| - 1]) else s
  }

  /** The first place of a character that is in the text. */
  function IndexOf(s: string, c: char): (i: nat)
    requires c in s
    ensures i < |s| && s[i] == c
    ensures forall j :: 0 <= j < i ==> s[j] != c
  {
    if s[0] == c then 0 else 1 + IndexOf(s[1..], c)
  }

  /** What parsing and scoring say about a line: its number, if any, and its score. */
  datatype Mark = Mark(number: string, numeric: bool, score: real)

  /** Parsing and scoring of a stripped line, its raw form, and whether its neighbours are blank. */
  type Classifier = (string, string, bool, bool) -> Option<Mark>

  predicate BlankLine(lines: seq<string>, k: int) {
    k < 0 || k >= |lines| || Strip(lines[k]) == ""
  }

  function MarkOf(lines: seq<string>, k: nat, classify: Classifier): Option<Mark>
    requires k < |lines|
  {
    var raw := WithoutNewline(lines[k]);
    if Strip(raw) == "" then None
    else classify(Strip(raw), raw, BlankLine(lines, k - 1), BlankLine(lines, k + 1))
  }

  lemma {:induction false} StripShape(s: string)
    requires Strip(s) != ""
    ensures LeadingSpaces(s) < TrimmedLength(s) && Strip(s) == s[LeadingSpaces(s)..TrimmedLength(s)]
    ensures Strip(s)[0] in s && IndexOf(s, Strip(s)[0]) == LeadingSpaces(s)
  {
    var n := LeadingSpaces(s);
    assert s[n] == Strip(s)[0];
  }

  /** The candidate of line `k`, which starts at `offset`. */
  function CandidateAt(lines: seq<string>, k: nat, offset: nat, classify: Classifier): Option<Candidate>
    requires k < |lines|
  {
    var raw, mark := WithoutNewline(lines[k]), MarkOf(lines, k, classify);
    if mark == None || mark.value.score < 0.65 then None
    else Some(Candidate(mark.value.number, mark.value.numeric, mark.value.score, offset + LeadingSpaces(raw),
                        Strip(raw)))
  }

  function Listed(c: Option<Candidate>): seq<Candidate> {
    if c == None then [] else [c.value]
  }

  /** The candidates among the first `k` lines. */
  function CandidatesOf(lines: seq<string>, k: nat, classify: Classifier): seq<Candidate>
    requires k <= |lines|
  {
    if k == 0 then []
    else
      var start := |Concat(lines[..k - 1])|;
      CandidatesOf(lines, k - 1, classify) + Listed(CandidateAt(lines, k - 1, start, classify))
  }

  /** Parses and scores one line. */
  method ScanLine(lines: seq<string>, k: nat, offset: nat, classify: Classifier) returns (r: Option<Candidate>)
    requires k < |lines|
    ensures r == CandidateAt(lines, k, offset, classify)
  {
    var rawLine := WithoutNewline(lines[k]);
    var stripped := Strip(rawLine);
    if stripped == "" {
      return None;
    }
    var mark := classify(stripped, rawLine, BlankLine(lines, k - 1), BlankLine(lines, k + 1));
    if mark == None || mark.value.score < 0.65 {
      return None;
    }
    StripShape(rawLine);
    var at := offset + IndexOf(rawLine, stripped[0]);
    return Some(Candidate(mark.value.number, mark.value.numeric, mark.value.score, at, stripped));
  }

  /** Reads the document line by line and keeps the position of each candidate's first character. */
  method ScanHeadingCandidates(doc: string, classify: Classifier) returns (candidates: seq<Candidate>)
    ensures candidates == CandidatesOf(Lines.SplitLines(doc), |Lines.SplitLines(doc)|, classify)
  {
    candidates := [];
    var offset := 0;
    var lines := Lines.SplitLines(doc);
    for lineNo := 0 to |lines|
      invariant offset == |Concat(lines[..lineNo])|
      invariant candidates == CandidatesOf(lines, lineNo, classify)
    {
      ConcatSnoc(lines, lineNo);
      var candidate := ScanLine(lines, lineNo, offset, classify);
      candidates := candidates + Listed(candidate);
      offset := offset + |lines[lineNo]|;
    }
  }

  /** The candidate's text stands in the document at its offset, in a line that ends by `limit`. */
  predicate StandsIn(doc: string, c: Candidate, limit: nat) {
    && c.raw != "" && c.offset + |c.raw| <= limit <= |doc| && doc[c.offset..c.offset + |c.raw|] == c.raw
  }

  predicate Placed(doc: string, cs: seq<Candidate>, limit: nat) {
    && (forall i :: 0 <= i < |cs| ==> StandsIn(doc, cs[i], limit))
    && (forall i, j :: 0 <= i < j < |cs| ==> cs[i].offset < cs[j].offset)
  }

  lemma SliceOfLine(doc: string, start: nat, line: string, i: nat, j: nat)
    requires start + |line| <= |doc| && doc[start..start + |line|] == line && i <= j <= |line|
    ensures doc[start + i..start + j] == line[i..j]
  {
    var a, b := doc[start + i..start + j], line[i..j];
    forall x | 0 <= x < j - i
      ensures a[x] == b[x]
    {
      assert doc[start..start + |line|][i + x] == doc[start + i + x];
    }
  }

  lemma {:induction false} StrippedSlice(s: string, line: string)
    requires s <= line && Strip(s) != ""
    ensures LeadingSpaces(s) < TrimmedLength(s) <= |line| && Strip(s) == line[LeadingSpaces(s)..TrimmedLength(s)]
  {
    StripShape(s);
    assert s == line[..|s|];
  }

  /** The stripped text of a line that stands in the document stands there too. */
  lemma {:induction false} StrippedInDocument(doc: string, start: nat, line: string, raw: string)
    requires start + |line| <= |doc| && doc[start..start + |line|] == line && raw <= line && Strip(raw) != ""
    ensures var i, n := LeadingSpaces(raw), |Strip(raw)|;
            i + n <= |line| && doc[start + i..start + i + n] == Strip(raw)
  {
    StrippedSlice(raw, line);
    SliceOfLine(doc, start, line, LeadingSpaces(raw), TrimmedLength(raw));
  }

  lemma {:induction false} WithoutNewlineIsPrefix(line: string)
    ensures WithoutNewline(line) <= line
  {
  }

  predicate Between(doc: string, c: Option<Candidate>, start: nat, limit: nat) {
    c.Some? ==> StandsIn(doc, c.value, limit) && c.value.offset >= start
  }

  lemma {:induction false} StrippedIsBetween(doc: string, c: Candidate, start: nat, line: string, raw: string)
    requires start + |line| <= |doc| && doc[start..start + |line|] == line && raw <= line
    requires c.raw == Strip(raw) != "" && c.offset == start + LeadingSpaces(raw)
    ensures Between(doc, Some(c), start, start + |line|)
  {
    StrippedInDocument(doc, start, line, raw);
  }

  /** A candidate of a line stands in that line. */
  lemma CandidateInLine(doc: string, lines: seq<string>, k: nat, start: nat, classify: Classifier)
    requires k < |lines| && start + |lines[k]| <= |doc| && doc[start..start + |lines[k]|] == lines[k]
    ensures Between(doc, CandidateAt(lines, k, start, classify), start, start + |lines[k]|)
  {
    var line, c := lines[k], CandidateAt(lines, k, start, classify);
    if c.Some? {
      var raw := WithoutNewline(line);
      WithoutNewlineIsPrefix(line);
      StrippedIsBetween(doc, c.value, start, line, raw);
    }
  }

  /** One more line adds its candidate, if any, behind the others. */
  lemma PlacedStep(doc: string, cs: seq<Candidate>, start: nat, c: Option<Candidate>, limit: nat, all: seq<Candidate>)
    requires Placed(doc, cs, start) && start <= limit <= |doc| && all == cs + Listed(c)
    requires Between(doc, c, start, limit)
    ensures Placed(doc, all, limit)
  {
    forall i | 0 <= i < |all|
      ensures StandsIn(doc, all[i], limit)
      ensures i < |cs| ==> all[i].offset < start
    {
      assert i < |cs| ==> StandsIn(doc, cs[i], start);
    }
  }

  /** Line `k` stands in the document behind the lines before it. */
  ghost predicate LineAt(doc: string, lines: seq<string>, k: nat)
    requires k < |lines|
  {
    var start := |Concat(lines[..k])|;
    start + |lines[k]| <= |doc| && doc[start..start + |lines[k]|] == lines[k]
  }

  /** The candidates of the first `k` lines are placed within them. */
  ghost predicate PlacedUpTo(doc: string, lines: seq<string>, k: nat, classify: Classifier)
    requires k <= |lines|
  {
    Placed(doc, CandidatesOf(lines, k, classify), |Concat(lines[..k])|)
  }

  lemma CandidatesSnoc(lines: seq<string>, k: nat, classify: Classifier)
    requires k < |lines|
    ensures CandidatesOf(lines, k + 1, classify) ==
            CandidatesOf(lines, k, classify) + Listed(CandidateAt(lines, k, |Concat(lines[..k])|, classify))
  {
  }

  lemma PlacedLine(doc: string, lines: seq<string>, k: nat, classify: Classifier)
    requires k < |lines| && LineAt(doc, lines, k) && PlacedUpTo(doc, lines, k, classify)
    ensures PlacedUpTo(doc, lines, k + 1, classify) && |Concat(lines[..k + 1])| <= |doc|
  {
    var start := |Concat(lines[..k])|;
    ConcatSnoc(lines, k);
    var c := CandidateAt(lines, k, start, classify);
    CandidateInLine(doc, lines, k, start, classify);
    CandidatesSnoc(lines, k, classify);
    var all, limit := CandidatesOf(lines, k + 1, classify), |Concat(lines[..k + 1])|;
    PlacedStep(doc, CandidatesOf(lines, k, classify), start, c, limit, all);
  }

  /** Every candidate's text is found at its offset, and the offsets ascend. */
  lemma {:induction false} CandidatesArePlaced(doc: string, lines: seq<string>, k: nat, classify: Classifier)
    requires k <= |lines| && forall j :: 0 <= j < k ==> LineAt(doc, lines, j)
    ensures PlacedUpTo(doc, lines, k, classify) && |Concat(lines[..k])| <= |doc|
  {
    if k == 0 {
      assert lines[..0] == [];
    } else {
      CandidatesArePlaced(doc, lines, k - 1, classify);
      PlacedLine(doc, lines, k - 1, classify);
    }
  }

  lemma Middle(a: string, b: string, c: string)
    ensures |a| + |b| <= |a + (b + c)| && (a + (b + c))[|a|..|a| + |b|] == b
  {
  }

  lemma {:induction false} LineInConcat(lines: seq<string>, k: nat)
    requires k < |lines|
    ensures LineAt(Concat(lines), lines, k)
  {
    ConcatSplit(lines, k);
    Middle(Concat(lines[..k]), lines[k..][0], Concat(lines[k..][1..]));
  }

  lemma {:induction false} LineInDocument(doc: string, k: nat)
    requires k < |Lines.SplitLines(doc)|
    ensures LineAt(doc, Lines.SplitLines(doc), k)
  {
    Lines.JoinedLines(doc);
    LineInConcat(Lines.SplitLines(doc), k);
  }

  lemma {:induction false} LevelsStartAtOne(number: string)
    ensures LevelOfNumber(number) >= 1
  {
    if number != "" {
      LevelsStartAtOne(number[1..]);
    }
  }

  lemma PlacedRest(doc: string, cs: seq<Candidate>, limit: nat)
    requires Placed(doc, cs, limit) && cs != []
    ensures StandsIn(doc, cs[0], limit) && Placed(doc, cs[1..], limit)
    ensures |cs| > 1 ==> cs[0].offset < cs[1].offset
  {
    var rest := cs[1..];
    forall i | 0 <= i < |rest|
      ensures rest[i] == cs[i + 1] && StandsIn(doc, rest[i], limit)
    {
    }
  }

  lemma PlacedFirst(doc: string, c: Candidate, rest: seq<Candidate>, limit: nat)
    requires StandsIn(doc, c, limit) && Placed(doc, rest, limit)
    requires rest != [] ==> c.offset < rest[0].offset
    ensures Placed(doc, [c] + rest, limit)
  {
    var cs := [c] + rest;
    forall i | 0 <= i < |cs|
      ensures cs[i] == (if i == 0 then c else rest[i - 1]) && StandsIn(doc, cs[i], limit)
    {
    }
  }

  /** Filtering keeps the order and the places. */
  lemma {:induction false} KeptStayPlaced(doc: string, cs: seq<Candidate>, seen: set<string>, limit: nat)
    requires Placed(doc, cs, limit)
    ensures Placed(doc, Kept(cs, seen), limit)
    ensures Kept(cs, seen) != [] ==> cs != [] && cs[0].offset <= Kept(cs, seen)[0].offset
  {
    if cs != [] {
      PlacedRest(doc, cs, limit);
      var c, rest := cs[0], cs[1..];
      if Passes(c, seen) {
        KeptStayPlaced(doc, rest, Noted(c, seen), limit);
        PlacedFirst(doc, c, Kept(rest, Noted(c, seen)), limit);
      } else {
        KeptStayPlaced(doc, rest, seen, limit);
      }
    }
  }

  lemma PlacedHeadings(doc: string, cs: seq<Candidate>, limit: nat)
    requires Placed(doc, cs, limit)
    ensures WellPlaced(Headings(cs), limit)
    ensures forall h :: h in Headings(cs) ==>
              h.offset + |h.name| <= limit <= |doc| && doc[h.offset..h.offset + |h.name|] == h.name
  {
    forall i | 0 <= i < |cs|
      ensures StandsIn(doc, cs[i], limit) && 1 <= ToHeading(cs[i]).level
    {
      LevelsStartAtOne(cs[i].number);
    }
  }

  /** So the headings satisfy what building the tree needs, but for the levels. */
  lemma {:induction false} FilterKeepsPlaces(doc: string, cs: seq<Candidate>, limit: nat)
    requires Placed(doc, cs, limit)
    ensures WellPlaced(Headings(Kept(cs, {})), limit)
    ensures forall h :: h in Headings(Kept(cs, {})) ==>
              h.offset + |h.name| <= limit <= |doc| && doc[h.offset..h.offset + |h.name|] == h.name
  {
    KeptStayPlaced(doc, cs, {}, limit);
    PlacedHeadings(doc, Kept(cs, {}), limit);
  }

  /**
   * The tree of a document: its headings are texts of the document in document order, and the tree is
   * theirs. It is built exactly when there are two headings at least and no level is skipped.
   */
  method ConstructTree(doc: string, classify: Classifier)
    returns (tree: SectionTree, headings: seq<Heading>, built: bool, failed: bool)
    ensures fresh(tree) && WellPlaced(headings, |doc|)
    ensures forall h :: h in headings ==>
              h.offset + |h.name| <= |doc| && doc[h.offset..h.offset + |h.name|] == h.name
    ensures built <==> |headings| >= 2 && StepwiseUpTo(headings, |headings|)
    ensures failed <==> |headings| >= 2 && !StepwiseUpTo(headings, |headings|)
    ensures built ==> Shape(headings, |headings|, tree.nodes) && tree.leafs == Leaves(headings, -1, |headings|)
  {
    var candidates := ScanHeadingCandidates(doc, classify);
    var n := |Lines.SplitLines(doc)|;
    forall k: nat | k < n
      ensures LineAt(doc, Lines.SplitLines(doc), k)
    {
      LineInDocument(doc, k);
    }
    CandidatesArePlaced(doc, Lines.SplitLines(doc), n, classify);
    assert Lines.SplitLines(doc)[..n] == Lines.SplitLines(doc);
    Lines.JoinedLines(doc);
    FilterKeepsPlaces(doc, candidates, |doc|);
    headings := FilterHeadingCandidates(candidates);
    tree := new SectionTree(|doc|);
    built, failed := tree.Build(headings);
  }
}
