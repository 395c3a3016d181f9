/** The heading filter, and why it does not protect the level table. */
module HeadingFilter {
  import opened SectionSpec

  /** A scored heading candidate; an empty number means that it has none. */
  datatype Candidate = Candidate(number: string, numeric: bool, score: real, offset: nat, raw: string)

  /** The level of a numbered heading: the parts of its number. */
  function LevelOfNumber(number: string): nat {
    if number == "" then 1
    else (if number[0] == '.' then 1 else 0) + LevelOfNumber(number[1..])
  }

  /** Everything before the last dot; empty when there is no dot. */
  function ParentNumber(number: string): string {
    if number == "" then ""
    else if number[|number| - 1] == '.' then number[..|number| - 1]
    else ParentNumber(number[..|number| - 1])
  }

  /** Whether a candidate passes, given the numbers seen so far. */
  predicate Passes(c: Candidate, seen: set<string>) {
    && (c.number != "" ==> c.number !in seen)
    && (c.numeric && ParentNumber(c.number) != "" && ParentNumber(c.number) !in seen ==> c.score - 0.2 >= 0.65)
  }

  function ToHeading(c: Candidate): Heading {
    Heading(if c.numeric then LevelOfNumber(c.number) else 1, c.offset, c.raw)
  }

  /** The numbers seen after a candidate that passes. */
  function Noted(c: Candidate, seen: set<string>): set<string> {
    if c.number != "" then seen + {c.number} else seen
  }

  /** The candidates that pass one after the other, given the numbers seen before them. */
  function Kept(cs: seq<Candidate>, seen: set<string>): seq<Candidate> {
    if cs == [] then []
    else if Passes(cs[0], seen) then [cs[0]] + Kept(cs[1..], Noted(cs[0], seen))
    else Kept(cs[1..], seen)
  }

  function Headings(cs: seq<Candidate>): seq<Heading> {
    seq(|cs|, i requires 0 <= i < |cs| => ToHeading(cs[i]))
  }

  /** Some candidate before position `i` has the number. */
  ghost predicate NumberBefore(cs: seq<Candidate>, i: nat, number: string)
    requires i <= |cs|
  {
    exists j :: 0 <= j < i && cs[j].number == number
  }

  /** Of the kept candidates no two have the same number, and a low score needs the parent before. */
  lemma {:induction false} KeptGuarantee(cs: seq<Candidate>, seen: set<string>, i: nat)
    requires i < |Kept(cs, seen)|
    ensures var kept := Kept(cs, seen);
            var c, parent := kept[i], ParentNumber(kept[i].number);
            && c in cs
            && (c.number != "" ==> c.number !in seen && !NumberBefore(kept, i, c.number))
            && (c.numeric && parent != "" && c.score < 0.85 ==> parent in seen || NumberBefore(kept, i, parent))
  {
    var kept := Kept(cs, seen);
    if !Passes(cs[0], seen) {
      KeptGuarantee(cs[1..], seen, i);
    } else if i > 0 {
      var rest := Kept(cs[1..], Noted(cs[0], seen));
      KeptGuarantee(cs[1..], Noted(cs[0], seen), i - 1);
      forall number
        ensures NumberBefore(kept, i, number) <==> cs[0].number == number || NumberBefore(rest, i - 1, number)
      {
        OneMoreBefore(cs[0], rest, i, number);
      }
    }
  }

  lemma OneMoreBefore(c: Candidate, rest: seq<Candidate>, i: nat, number: string)
    requires 0 < i <= |rest| + 1
    ensures NumberBefore([c] + rest, i, number) <==> c.number == number || NumberBefore(rest, i - 1, number)
  {
    if NumberBefore(rest, i - 1, number) {
      var j :| 0 <= j < i - 1 && rest[j].number == number;
      assert ([c] + rest)[j + 1].number == number;
    }
    if NumberBefore([c] + rest, i, number) {
      var j :| 0 <= j < i && ([c] + rest)[j].number == number;
      assert j > 0 ==> rest[j - 1].number == number;
    }
    assert c.number == number ==> ([c] + rest)[0].number == number;
  }

  /** A candidate is only dropped when its number is kept elsewhere, or its score is low without a parent. */
  lemma {:induction false} DroppedForCause(cs: seq<Candidate>, seen: set<string>, c: Candidate)
    requires c in cs && c !in Kept(cs, seen)
    ensures var kept := Kept(cs, seen);
            || (c.number != "" && (c.number in seen || NumberBefore(kept, |kept|, c.number)))
            || (c.numeric && ParentNumber(c.number) != "" && ParentNumber(c.number) !in seen && c.score < 0.85)
  {
    var kept, first := Kept(cs, seen), cs[0];
    if Passes(first, seen) {
      var rest := Kept(cs[1..], Noted(first, seen));
      assert kept == [first] + rest && c in cs[1..];
      DroppedForCause(cs[1..], Noted(first, seen), c);
      OneMoreBefore(first, rest, |kept|, c.number);
    } else if c in cs[1..] {
      DroppedForCause(cs[1..], seen, c);
    }
  }

  // ----- when the levels hold -----

  /** A number of a numbered heading is not empty and starts with a digit. */
  predicate ProperNumber(c: Candidate) {
    c.numeric ==> c.number != "" && c.number[0] != '.'
  }

  /** The parent of candidate `i`, if it has a parent number, is a numbered candidate before it. */
  ghost predicate ParentBefore(cs: seq<Candidate>, i: nat)
    requires i < |cs|
  {
    var parent := ParentNumber(cs[i].number);
    cs[i].numeric && parent != "" ==> exists j :: 0 <= j < i && cs[j].numeric && cs[j].number == parent
  }

  /** A number is one level deeper than its parent, and of level 1 without one. */
  lemma {:induction false} LevelOverParent(number: string)
    requires number != "" && number[0] != '.'
    ensures var parent := ParentNumber(number);
            LevelOfNumber(number) == if parent == "" then 1 else LevelOfNumber(parent) + 1
  {
    var n := |number| - 1;
    LevelSnoc(number[..n], number[n]);
    assert number == number[..n] + [number[n]];
    if number[n] != '.' {
      if n > 0 {
        LevelOverParent(number[..n]);
      }
    }
  }

  lemma {:induction false} LevelSnoc(number: string, c: char)
    ensures LevelOfNumber(number + [c]) == LevelOfNumber(number) + (if c == '.' then 1 else 0)
  {
    if number == "" {
      assert (number + [c])[1..] == "";
    } else {
      LevelSnoc(number[1..], c);
      assert (number + [c])[1..] == number[1..] + [c];
    }
  }

  lemma {:induction false} HeightCovers(hs: seq<Heading>, i: nat, j: nat)
    requires j < i <= |hs|
    ensures hs[j].level <= Height(hs, i)
  {
    if j < i - 1 {
      HeightCovers(hs, i - 1, j);
    }
  }

  /** If every numbered heading with a parent number comes after its parent, no level is skipped. */
  lemma ParentsKeepLevels(cs: seq<Candidate>)
    requires forall c :: c in cs ==> ProperNumber(c)
    requires forall i :: 0 <= i < |cs| ==> ParentBefore(cs, i)
    ensures StepwiseUpTo(Headings(cs), |cs|)
  {
    var hs := Headings(cs);
    forall i | 0 <= i < |cs|
      ensures StepAt(hs, i)
    {
      assert cs[i] in cs && ParentBefore(cs, i);
      if cs[i].numeric {
        LevelOverParent(cs[i].number);
        if ParentNumber(cs[i].number) != "" {
          var j :| 0 <= j < i && cs[j].numeric && cs[j].number == ParentNumber(cs[i].number);
          HeightCovers(hs, i, j);
        }
      }
    }
  }

  /** The number of a heading without a numeric one is no number of a numbered heading's parent. */
  ghost predicate OwnNumbers(cs: seq<Candidate>) {
    forall c, d :: c in cs && d in cs && c.numeric && !d.numeric ==> d.number != ParentNumber(c.number)
  }

  /**
   * What the filter keeps holds the levels, if every kept numbered heading with a parent number has a score
   * below 0.85 or its parent before it.
   */
  lemma {:induction false} FilterHoldsLevels(cs: seq<Candidate>)
    requires (forall c :: c in cs ==> ProperNumber(c)) && OwnNumbers(cs)
    requires var kept := Kept(cs, {});
             forall i :: 0 <= i < |kept| && kept[i].score >= 0.85 ==> ParentBefore(kept, i)
    ensures StepwiseUpTo(Headings(Kept(cs, {})), |Kept(cs, {})|)
  {
    var kept := Kept(cs, {});
    forall i | 0 <= i < |kept|
      ensures kept[i] in cs && ParentBefore(kept, i)
    {
      KeptGuarantee(cs, {}, i);
      var parent := ParentNumber(kept[i].number);
      if kept[i].score < 0.85 && kept[i].numeric && parent != "" {
        var j :| 0 <= j < i && kept[j].number == parent;
        KeptGuarantee(cs, {}, j);
      }
    }
    ParentsKeepLevels(kept);
  }

  /** Drops repeated numbers, and numbered headings whose parent is missing and whose score falls too low. */
  method FilterHeadingCandidates(candidates: seq<Candidate>) returns (filtered: seq<Heading>)
    ensures filtered == Headings(Kept(candidates, {}))
  {
    filtered := [];
    ghost var kept: seq<Candidate> := [];
    var seenNumbers: set<string> := {};
    for i := 0 to |candidates|
      invariant Kept(candidates, {}) == kept + Kept(candidates[i..], seenNumbers) && filtered == Headings(kept)
    {
      var candidate := candidates[i];
      assert candidates[i..][1..] == candidates[i + 1..];
      if candidate.number != "" && candidate.number in seenNumbers {
        continue;
      }
      if candidate.numeric {
        var parent := ParentNumber(candidate.number);
        if parent != "" && parent !in seenNumbers && candidate.score - 0.2 < 0.65 {
          continue;
        }
      }
      filtered := filtered + [ToHeading(candidate)];
      kept := kept + [candidate];
      if candidate.number != "" {
        seenNumbers := seenNumbers + {candidate.number};
      }
    }
  }

  /**
   * A numbered heading whose parent is missing loses 0.2 of its score, but a clean one starts with 1.05:
   * "1" followed by "2.1.1" passes the filter with levels 1 and 3, and the level table cannot hold it.
   */
  lemma FilterLetsLevelsJump()
    ensures var cs := [Candidate("1", true, 1.05, 0, "1 A"), Candidate("2.1.1", true, 1.05, 9, "2.1.1 B")];
            && Headings(Kept(cs, {})) == [Heading(1, 0, "1 A"), Heading(3, 9, "2.1.1 B")]
            && !StepwiseUpTo(Headings(Kept(cs, {})), 2)
  {
    var a, b := Candidate("1", true, 1.05, 0, "1 A"), Candidate("2.1.1", true, 1.05, 9, "2.1.1 B");
    var cs := [a, b];
    var n := b.number;
    assert n[1..] == ".1.1" && n[1..][1..] == "1.1" && n[1..][1..][1..] == ".1" && n[1..][1..][1..][1..] == "1";
    assert LevelOfNumber("1") == 1 by {
      assert "1"[1..] == "";
    }
    assert LevelOfNumber(".1") == 2;
    assert LevelOfNumber("1.1") == 2;
    assert LevelOfNumber(".1.1") == 3;
    assert LevelOfNumber(n) == 3;
    assert cs[1..] == [b] && [b][1..] == [];
    var hs := [ToHeading(a), ToHeading(b)];
    assert Passes(a, {}) && Passes(b, {"1"}) by {
      assert "1" != n;
    }
    assert Kept([b], {"1"}) == [b] + Kept([], {"1"} + {n}) == [b];
    assert Noted(a, {}) == {"1"};
    assert Kept(cs, {}) == [a] + Kept([b], {"1"}) == cs;
    assert Headings(cs) == hs;
    assert Height(hs, 1) == 1;
    assert !StepAt(hs, 1);
  }
}
