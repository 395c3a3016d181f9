/** The scheduler's access sequences: one shortest table prefix for each machine state it can reach. */
module AccessSequences {
  import opened Prelude
  import opened Automata
  import opened SystemUnderTest
  import opened ObservationTable
  import opened Hypothesis
  import opened Exactness
  import Learner

  /** The state after a word, greetings skipped; nothing when a transition is missing. */
  ghost function StateAfter(h: Machine, w: Word): Option<State> {
    if w == [] then Some(h.start)
    else
      var before, a := StateAfter(h, w[..|w| - 1]), w[|w| - 1];
      if before == None || a == "-" then before
      else if (before.value, a) in h.delta then Some(h.delta[(before.value, a)])
      else None
  }

  /** The requests in a word. */
  function Depth(w: Word): nat {
    if w == [] then 0 else Depth(w[..|w| - 1]) + (if w[|w| - 1] == "-" then 0 else 1)
  }

  /** The table has the cell that led to each longer prefix. */
  ghost predicate CellsPresent(S: set<Word>, T: Cells) {
    forall p :: p in S && |p| > 1 ==> Has(T, p[..|p| - 1], p[|p| - 1..])
  }

  /** The prefix passes the filter, which compares its leading cell with two abnormal symbols. */
  predicate Candidate(T: Cells, p: Word) {
    || |p| == 1
    || (&& |p| > 1 && Has(T, p[..|p| - 1], p[|p| - 1..])
        && Learner.Tuple(CellAt(T, p[..|p| - 1], p[|p| - 1..])) != Learner.Str("CRASH")
        && Learner.Tuple(CellAt(T, p[..|p| - 1], p[|p| - 1..])) != Learner.Str("TIMEOUT"))
  }

  function Candidates(S: set<Word>, T: Cells): set<Word> {
    set p | p in S && Candidate(T, p)
  }

  ghost predicate Reaches(h: Machine, p: Word, q: State) {
    StateAfter(h, p) == Some(q)
  }

  /** `access` holds, for every state that some word of `words` reaches, a shortest such word. */
  ghost predicate ShortestAccess(h: Machine, words: set<Word>, access: map<State, Word>) {
    && (forall q :: q in access ==> access[q] in words && Reaches(h, access[q], q))
    && (forall p, q {:trigger Reaches(h, p, q)} ::
          p in words && Reaches(h, p, q) ==> q in access && Depth(access[q]) <= Depth(p))
  }

  /** Runs the machine's transitions from its start. */
  method MachineStateAfter(h: MealyMachine, w: Word) returns (r: Option<State>)
    ensures r == StateAfter(h.Model(), w)
  {
    var q := h.start;
    for i := 0 to |w|
      invariant StateAfter(h.Model(), w[..i]) == Some(q)
    {
      assert w[..i + 1][..i] == w[..i];
      if w[i] != "-" {
        if (q, w[i]) !in h.delta {
          AbsentStaysAbsent(h.Model(), w, i + 1);
          return None;
        }
        q := h.delta[(q, w[i])];
      }
    }
    assert w[..|w|] == w;
    return Some(q);
  }

  lemma {:induction false} AbsentStaysAbsent(h: Machine, w: Word, k: nat)
    requires k <= |w| && StateAfter(h, w[..k]) == None
    ensures StateAfter(h, w) == None
  {
    if k == |w| {
      assert w[..k] == w;
    } else {
      assert w[..|w| - 1][..k] == w[..k];
      AbsentStaysAbsent(h, w[..|w| - 1], k);
    }
  }

  lemma {:induction false} LeastExists(words: set<Word>)
    requires words != {}
    ensures exists p :: p in words && forall r :: r in words ==> Depth(p) <= Depth(r)
    decreases |words|
  {
    var x :| x in words;
    var rest := words - {x};
    if rest == {} {
      assert words == {x};
    } else {
      LeastExists(rest);
      var p :| p in rest && forall r :: r in rest ==> Depth(p) <= Depth(r);
      var least := if Depth(x) <= Depth(p) then x else p;
      assert least in words && forall r :: r in words ==> Depth(least) <= Depth(r);
    }
  }

  /** A word no shorter than those looked at only adds a state that was not reached yet. */
  lemma {:induction false} AccessStep(h: Machine, words: set<Word>, access: map<State, Word>, p: Word)
    requires ShortestAccess(h, words, access) && forall r :: r in words ==> Depth(r) <= Depth(p)
    ensures var r := StateAfter(h, p);
            ShortestAccess(h, words + {p},
                           if r.Some? && r.value !in access then access[r.value := p] else access)
  {
    var r := StateAfter(h, p);
    if r.Some? && r.value !in access {
      assert Reaches(h, p, r.value);
    } else {
      forall q | Reaches(h, p, q)
        ensures q in access && Depth(access[q]) <= Depth(p)
      {
        assert access[q] in words;
      }
    }
  }

  /** Sorts the candidates by length and keeps the first one that reaches each state. */
  method SelectAccessSequences(h: MealyMachine, S: set<Word>, T: Cells)
    returns (access: map<State, Word>)
    requires CellsPresent(S, T)
    ensures ShortestAccess(h.Model(), Candidates(S, T), access)
  {
    var remaining := Candidates(S, T);
    access := map[];
    ghost var done: set<Word> := {};
    while remaining != {}
      invariant done !! remaining && done + remaining == Candidates(S, T)
      invariant forall p, r :: p in done && r in remaining ==> Depth(p) <= Depth(r)
      invariant ShortestAccess(h.Model(), done, access)
      decreases remaining
    {
      LeastExists(remaining);
      var p :| p in remaining && forall r :: r in remaining ==> Depth(p) <= Depth(r);
      AccessStep(h.Model(), done, access, p);
      var state := MachineStateAfter(h, p);
      if state.Some? && state.value !in access {
        access := access[state.value := p];
      }
      remaining := remaining - {p};
      done := done + {p};
    }
  }

  // ----- With a learned machine -----

  /** The filter compares a tuple with strings, so it keeps every prefix, also one that led to a crash. */
  lemma FilterKeepsAll(S: set<Word>, T: Cells)
    requires CellsPresent(S, T) && [] !in S
    ensures Candidates(S, T) == S
  {
    forall p | p in S
      ensures Candidate(T, p)
    {
      assert |p| > 1 ==> Has(T, p[..|p| - 1], p[|p| - 1..]);
    }
  }

  /** A prefix whose last request crashed the target is a candidate. */
  lemma CrashedPrefixIsKept()
    ensures var p, T: Cells := ["-", "a"], map[["-"] := map[["a"] := ["CRASH"]]];
            && CellsPresent({["-"], p}, T) && CellAt(T, ["-"], ["a"]) == ["CRASH"] && p in Candidates({["-"], p}, T)
  {
    var p, T: Cells := ["-", "a"], map[["-"] := map[["a"] := ["CRASH"]]];
    assert p[..1] == ["-"] && p[1..] == ["a"];
    assert Has(T, ["-"], ["a"]);
    FilterKeepsAll({["-"], p}, T);
  }

  lemma LearnedCellsPresent(sut: Sut, t: Table)
    requires Ready(sut, t)
    ensures CellsPresent(t.S, t.T) && [] !in t.S
  {
    forall p | p in t.S
      ensures p != [] && (|p| > 1 ==> Has(t.T, p[..|p| - 1], p[|p| - 1..]))
    {
      assert Rooted(t.S, t.alphabet, p);
      if |p| > 1 {
        assert p[|p| - 1..] == [p[|p| - 1]] && [p[|p| - 1]] in t.E;
        assert FullRow(t.T, t.E, p[..|p| - 1]);
        assert Has(t.T, p[..|p| - 1], [p[|p| - 1]]);
      }
    }
  }

  /** A prefix of the table leads the machine to its own state, at the depth of its requests. */
  lemma {:induction false} PrefixReachesItsState(sut: Sut, t: Table, h: Machine, names: map<Row, State>, s: Word)
    requires LearnedFrom(sut, t, h, names) && "-" !in t.alphabet && s in t.S
    ensures Named(names, t, s) && Reaches(h, s, IdOf(names, t, s)) && Depth(s) == |s| - 1
    decreases |s|
  {
    assert Rooted(t.S, t.alphabet, s) && Named(names, t, s);
    var p := s[..|s| - 1];
    if |s| == 1 {
      assert s == GREETING && p == [];
      assert StateAfter(h, p) == Some(h.start);
    } else {
      PrefixReachesItsState(sut, t, h, names, p);
      assert p + [s[|s| - 1]] == s;
      assert EdgeRead(h.delta, h.output, names, t, p, s[|s| - 1]);
    }
  }

  /**
   * From a learned machine the selection keeps every prefix of the table, one for each state of the
   * machine, although prefixes that led to an abnormal output were meant to be dropped.
   */
  lemma EveryPrefixIsKept(sut: Sut, t: Table, h: Machine, names: map<Row, State>, access: map<State, Word>)
    requires LearnedFrom(sut, t, h, names) && "-" !in t.alphabet
    requires ShortestAccess(h, Candidates(t.S, t.T), access)
    ensures access.Keys == h.states && access.Values == t.S && |access| == |t.S|
    ensures forall s :: s in t.S ==> Named(names, t, s) && access[IdOf(names, t, s)] == s
  {
    LearnedCellsPresent(sut, t);
    FilterKeepsAll(t.S, t.T);
    StatesArePrefixes(sut, t, h, names);
    forall s | s in t.S
      ensures Named(names, t, s) && IdOf(names, t, s) in access && access[IdOf(names, t, s)] == s
    {
      PrefixReachesItsState(sut, t, h, names, s);
      var other := access[IdOf(names, t, s)];
      PrefixReachesItsState(sut, t, h, names, other);
    }
    AccessIsPrefixes(sut, t, h, names, access);
  }

  lemma AccessIsPrefixes(sut: Sut, t: Table, h: Machine, names: map<Row, State>, access: map<State, Word>)
    requires LearnedFrom(sut, t, h, names) && "-" !in t.alphabet
    requires ShortestAccess(h, t.S, access)
    requires forall s :: s in t.S ==>
               Named(names, t, s) && IdOf(names, t, s) in access && access[IdOf(names, t, s)] == s
    ensures access.Keys == h.states && access.Values == t.S && |access| == |t.S|
  {
    forall q | q in access
      ensures access[q] in t.S && q == IdOf(names, t, access[q]) && q in h.states
    {
      PrefixReachesItsState(sut, t, h, names, access[q]);
    }
    forall q | q in h.states
      ensures q in access
    {
      var r :| r in names && names[r] == q;
      assert OwnRow(t, t.S, r);
      var s :| s in t.S && FullRow(t.T, t.E, s) && RowOf(t.T, t.E, s) == r;
    }
    forall s | s in t.S
      ensures s in access.Values
    {
      assert access[IdOf(names, t, s)] == s;
    }
    assert access.Keys == h.states && access.Values == t.S;
    InjectiveImage(access);
  }
}
