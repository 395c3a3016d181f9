/**
 * The order in which closing finds its prefixes, told of the system alone and of the tables, and for which
 * systems closing can give up on an open table because a request's name is empty.
 */
module ClosingOrder {
  import opened Automata
  import opened SystemUnderTest
  import opened ObservationTable

  // ----- the system alone -----

  /** After no known word do single requests draw the same outputs as after `w`. */
  ghost predicate IsNew(sut: Sut, alphabet: seq<Symbol>, known: set<Word>, w: Word) {
    forall u {:trigger SameSingles(sut, alphabet, u, w)} :: u in known ==> !SameSingles(sut, alphabet, u, w)
  }

  /** The first request, in the order of the alphabet, that leads from `s` to something new. */
  ghost predicate FirstNew(sut: Sut, alphabet: seq<Symbol>, known: set<Word>, s: Word, i: nat) {
    && s in known && i < |alphabet| && IsNew(sut, alphabet, known, s + [alphabet[i]])
    && forall k :: 0 <= k < i ==> !IsNew(sut, alphabet, known, s + [alphabet[k]])
  }

  ghost predicate Finds(sut: Sut, alphabet: seq<Symbol>, known: set<Word>, w: Word) {
    exists s, i: nat :: FirstNew(sut, alphabet, known, s, i) && alphabet[i] != "" && w == s + [alphabet[i]]
  }

  function Elements(ws: seq<Word>): set<Word> {
    set w | w in ws
  }

  /** From the greeting on, each word extends a known one by the first request that leads to something new. */
  ghost predicate Discovery(sut: Sut, alphabet: seq<Symbol>, ws: seq<Word>) {
    && ws != []
    && if |ws| == 1 then ws[0] == GREETING
       else Discovery(sut, alphabet, ws[..|ws| - 1])
            && Finds(sut, alphabet, Elements(ws[..|ws| - 1]), ws[|ws| - 1])
  }

  ghost predicate Stuck(sut: Sut, alphabet: seq<Symbol>, known: set<Word>) {
    exists s, i: nat :: FirstNew(sut, alphabet, known, s, i) && alphabet[i] == ""
  }

  /** Some discovery comes to a word from which the first request to something new has the empty name. */
  ghost predicate CanGetStuck(sut: Sut, alphabet: seq<Symbol>) {
    exists ws :: Discovery(sut, alphabet, ws) && Stuck(sut, alphabet, Elements(ws))
  }

  /** The word and its beginnings. */
  ghost function Beginnings(w: Word): set<Word> {
    if |w| <= 1 then {w} else Beginnings(w[..|w| - 1]) + {w}
  }

  /** Along the word, each request leads to something new. */
  ghost predicate Fresh(sut: Sut, alphabet: seq<Symbol>, w: Word) {
    w == GREETING
    || (|w| > 1 && Fresh(sut, alphabet, w[..|w| - 1]) && IsNew(sut, alphabet, Beginnings(w[..|w| - 1]), w))
  }

  /** From everywhere, the empty request leads back to what was seen on the way there. */
  ghost predicate LeadsBack(sut: Sut, alphabet: seq<Symbol>) {
    forall w :: Fresh(sut, alphabet, w) ==> !IsNew(sut, alphabet, Beginnings(w), w + [""])
  }

  lemma {:induction false} DiscoveredIsFresh(sut: Sut, alphabet: seq<Symbol>, ws: seq<Word>, s: Word)
    requires Discovery(sut, alphabet, ws) && s in ws
    ensures Fresh(sut, alphabet, s) && Beginnings(s) <= Elements(ws) && |s| > 0
  {
    if |ws| > 1 {
      var vs, w := ws[..|ws| - 1], ws[|ws| - 1];
      assert ws == vs + [w];
      if s in vs {
        DiscoveredIsFresh(sut, alphabet, vs, s);
      } else {
        var r, i: nat :| FirstNew(sut, alphabet, Elements(vs), r, i) && alphabet[i] != "" && w == r + [alphabet[i]];
        DiscoveredIsFresh(sut, alphabet, vs, r);
        assert w[..|w| - 1] == r;
      }
    }
  }

  /** Where the empty request leads back, no discovery gets stuck. */
  lemma LeadingBackIsNeverStuck(sut: Sut, alphabet: seq<Symbol>)
    requires LeadsBack(sut, alphabet)
    ensures !CanGetStuck(sut, alphabet)
  {
    forall ws, s, i: nat | Discovery(sut, alphabet, ws) && FirstNew(sut, alphabet, Elements(ws), s, i)
      ensures alphabet[i] != ""
    {
      DiscoveredIsFresh(sut, alphabet, ws, s);
      assert IsNew(sut, alphabet, Beginnings(s), s + [alphabet[i]]);
    }
  }

  // ----- tables -----

  /** What one look for an open place may report: any prefix, and its first request with a missing row. */
  ghost predicate Picks(t: Table, s: Word, i: nat) {
    && s in t.S && i < |t.alphabet| && !RowInS(t, s + [t.alphabet[i]])
    && forall k :: 0 <= k < i ==> RowInS(t, s + [t.alphabet[k]])
  }

  ghost predicate GivesUp(t: Table) {
    exists s, i: nat :: Picks(t, s, i) && t.alphabet[i] == ""
  }

  /** The rows behind the empty name, if the alphabet has one, are rows of prefixes. */
  ghost predicate EmptyNameKnown(t: Table) {
    "" in t.alphabet ==> forall s :: s in t.S ==> RowInS(t, s + [""])
  }

  /** One turn of the closing loop: the prefix picked becomes a prefix of the table, which is filled. */
  ghost predicate CloseStep(sut: Sut, t: Table, t': Table) {
    && t'.alphabet == t.alphabet && Ready(sut, t')
    && exists s, i: nat :: Picks(t, s, i) && t.alphabet[i] != "" && t'.S == t.S + {s + [t.alphabet[i]]}
  }

  /** The tables that a closing run has gone through, from the filled table of the greeting on. */
  ghost predicate ClosingRun(sut: Sut, alphabet: seq<Symbol>, ts: seq<Table>) {
    && ts != []
    && if |ts| == 1 then ts[0].alphabet == alphabet && ts[0].S == {GREETING} && Ready(sut, ts[0])
       else ClosingRun(sut, alphabet, ts[..|ts| - 1]) && CloseStep(sut, ts[|ts| - 2], ts[|ts| - 1])
  }

  ghost predicate Reached(sut: Sut, t: Table) {
    exists ts :: ClosingRun(sut, t.alphabet, ts) && ts[|ts| - 1] == t
  }

  lemma FirstIsReached(sut: Sut, t: Table)
    requires Ready(sut, t) && t.S == {GREETING}
    ensures Reached(sut, t)
  {
    assert ClosingRun(sut, t.alphabet, [t]);
  }

  lemma {:induction false} RunGrows(sut: Sut, alphabet: seq<Symbol>, ts: seq<Table>, t': Table)
    requires ClosingRun(sut, alphabet, ts) && CloseStep(sut, ts[|ts| - 1], t')
    ensures ClosingRun(sut, alphabet, ts + [t'])
  {
    assert (ts + [t'])[..|ts + [t']| - 1] == ts;
  }

  lemma StepIsReached(sut: Sut, t: Table, t': Table, s: Word, i: nat)
    requires Reached(sut, t) && Ready(sut, t') && Picks(t, s, i) && t.alphabet[i] != ""
    requires t'.alphabet == t.alphabet && t'.S == t.S + {s + [t.alphabet[i]]}
    ensures Reached(sut, t')
  {
    var ts :| ClosingRun(sut, t.alphabet, ts) && ts[|ts| - 1] == t;
    RunGrows(sut, t.alphabet, ts, t');
    assert (ts + [t'])[|ts + [t']| - 1] == t';
  }

  lemma MissingIffNew(sut: Sut, t: Table, s: Word, a: Symbol)
    requires Ready(sut, t) && s in t.S && a in t.alphabet
    ensures RowInS(t, s + [a]) <==> !IsNew(sut, t.alphabet, t.S, s + [a])
  {
    assert FullRow(t.T, t.E, s + [a]);
    forall u | u in t.S
      ensures TwinRows(t, u, s + [a]) <==> SameSingles(sut, t.alphabet, u, s + [a])
    {
      assert FullRow(t.T, t.E, u);
      EqualRowsIffSameSingles(sut, t, u, s + [a]);
    }
  }

  lemma PicksIffFirstNew(sut: Sut, t: Table, s: Word, i: nat)
    requires Ready(sut, t)
    ensures Picks(t, s, i) <==> FirstNew(sut, t.alphabet, t.S, s, i)
  {
    if s in t.S && i < |t.alphabet| {
      forall k | 0 <= k <= i
        ensures RowInS(t, s + [t.alphabet[k]]) <==> !IsNew(sut, t.alphabet, t.S, s + [t.alphabet[k]])
      {
        MissingIffNew(sut, t, s, t.alphabet[k]);
      }
    }
  }

  lemma {:induction false} RunReady(sut: Sut, alphabet: seq<Symbol>, ts: seq<Table>)
    requires ClosingRun(sut, alphabet, ts)
    ensures Ready(sut, ts[|ts| - 1]) && ts[|ts| - 1].alphabet == alphabet
  {
    if |ts| > 1 {
      RunReady(sut, alphabet, ts[..|ts| - 1]);
    }
  }

  lemma {:induction false} DiscoveryGrows(sut: Sut, alphabet: seq<Symbol>, ws: seq<Word>, w: Word)
    requires Discovery(sut, alphabet, ws) && Finds(sut, alphabet, Elements(ws), w)
    ensures Discovery(sut, alphabet, ws + [w]) && Elements(ws + [w]) == Elements(ws) + {w}
  {
    assert (ws + [w])[..|ws + [w]| - 1] == ws;
  }

  lemma StepFinds(sut: Sut, t: Table, t': Table) returns (w: Word)
    requires Ready(sut, t) && CloseStep(sut, t, t')
    ensures Finds(sut, t.alphabet, t.S, w) && t'.S == t.S + {w}
  {
    var s, i: nat :| Picks(t, s, i) && t.alphabet[i] != "" && t'.S == t.S + {s + [t.alphabet[i]]};
    PicksIffFirstNew(sut, t, s, i);
    w := s + [t.alphabet[i]];
  }

  /** The prefixes of a closing run are a discovery. */
  lemma {:induction false} RunDiscovers(sut: Sut, alphabet: seq<Symbol>, ts: seq<Table>) returns (ws: seq<Word>)
    requires ClosingRun(sut, alphabet, ts)
    ensures Discovery(sut, alphabet, ws) && Elements(ws) == ts[|ts| - 1].S
  {
    if |ts| == 1 {
      ws := [GREETING];
      assert Elements(ws) == {GREETING};
    } else {
      ws := RunDiscovers(sut, alphabet, ts[..|ts| - 1]);
      RunReady(sut, alphabet, ts[..|ts| - 1]);
      var w := StepFinds(sut, ts[|ts| - 2], ts[|ts| - 1]);
      DiscoveryGrows(sut, alphabet, ws, w);
      ws := ws + [w];
    }
  }

  ghost function Extensions(alphabet: seq<Symbol>, S: set<Word>): set<Word> {
    set s, a | s in S && a in alphabet :: s + [a]
  }

  /** The filled table with the prefixes `S`. */
  ghost function Filled(sut: Sut, alphabet: seq<Symbol>, S: set<Word>): Table {
    Table(alphabet, S, LetterSuffixes(alphabet),
          map s | s in S + Extensions(alphabet, S) && s != [] ::
            map e | e in LetterSuffixes(alphabet) :: [LastOut(sut, s + e)])
  }

  /** The filled table has exactly the cells of its rows, and they are true. */
  lemma FilledCell(sut: Sut, alphabet: seq<Symbol>, S: set<Word>, s: Word, e: Word)
    ensures var T := Filled(sut, alphabet, S).T;
            && (Has(T, s, e) <==> s in S + Extensions(alphabet, S) && s != [] && e in LetterSuffixes(alphabet))
            && (Has(T, s, e) ==> CellAt(T, s, e) == [LastOut(sut, s + e)])
  {
  }

  lemma FilledIsFaithful(sut: Sut, alphabet: seq<Symbol>, S: set<Word>)
    ensures Faithful(sut, Filled(sut, alphabet, S).T)
  {
    var T := Filled(sut, alphabet, S).T;
    forall s, e {:trigger Has(T, s, e)} | Has(T, s, e)
      ensures s != [] && |e| == 1 && CellAt(T, s, e) == [LastOut(sut, s + e)]
    {
      FilledCell(sut, alphabet, S, s, e);
    }
  }

  lemma FilledRow(sut: Sut, alphabet: seq<Symbol>, S: set<Word>, s: Word)
    requires s in S + Extensions(alphabet, S) && s != []
    ensures FullRow(Filled(sut, alphabet, S).T, LetterSuffixes(alphabet), s)
  {
    forall e | e in LetterSuffixes(alphabet)
      ensures Has(Filled(sut, alphabet, S).T, s, e)
    {
      FilledCell(sut, alphabet, S, s, e);
    }
  }

  lemma FilledHas(sut: Sut, alphabet: seq<Symbol>, S: set<Word>)
    requires [] !in S
    ensures Faithful(sut, Filled(sut, alphabet, S).T) && Complete(Filled(sut, alphabet, S))
  {
    var t := Filled(sut, alphabet, S);
    FilledIsFaithful(sut, alphabet, S);
    forall s | s in S
      ensures FullRow(t.T, t.E, s)
    {
      FilledRow(sut, alphabet, S, s);
    }
    forall s, a | s in S && a in alphabet
      ensures FullRow(t.T, t.E, s + [a])
    {
      assert s + [a] in Extensions(alphabet, S);
      FilledRow(sut, alphabet, S, s + [a]);
    }
  }

  /** A filled table with more prefixes has the cells of one with fewer. */
  lemma FilledGrows(sut: Sut, alphabet: seq<Symbol>, S: set<Word>, S': set<Word>)
    requires S <= S'
    ensures Extends(Filled(sut, alphabet, S).T, Filled(sut, alphabet, S').T)
  {
    var T, T' := Filled(sut, alphabet, S).T, Filled(sut, alphabet, S').T;
    assert Extensions(alphabet, S) <= Extensions(alphabet, S');
    forall s, e | Has(T, s, e)
      ensures Has(T', s, e) && CellAt(T', s, e) == CellAt(T, s, e)
    {
      FilledCell(sut, alphabet, S, s, e);
      FilledCell(sut, alphabet, S', s, e);
    }
  }

  /** Adding what a ready filled table misses gives the next filled table, in one step of closing. */
  lemma FilledStep(sut: Sut, alphabet: seq<Symbol>, known: set<Word>, s: Word, i: nat)
    requires Ready(sut, Filled(sut, alphabet, known))
    requires FirstNew(sut, alphabet, known, s, i) && alphabet[i] != ""
    ensures CloseStep(sut, Filled(sut, alphabet, known), Filled(sut, alphabet, known + {s + [alphabet[i]]}))
  {
    var t, t' := Filled(sut, alphabet, known), Filled(sut, alphabet, known + {s + [alphabet[i]]});
    PicksIffFirstNew(sut, t, s, i);
    assert !Rooted(known, alphabet, []);
    FilledHas(sut, alphabet, t'.S);
    FilledGrows(sut, alphabet, t.S, t'.S);
    AddPrefixKeepsReady(sut, t, t', s, alphabet[i]);
  }

  lemma {:induction false} FirstFilled(sut: Sut, alphabet: seq<Symbol>)
    requires Valid(sut)
    ensures ClosingRun(sut, alphabet, [Filled(sut, alphabet, {GREETING})])
  {
    FilledHas(sut, alphabet, {GREETING});
    assert Rooted({GREETING}, alphabet, GREETING);
  }

  lemma {:induction false} FilledRunGrows(sut: Sut, alphabet: seq<Symbol>, ts: seq<Table>, known: set<Word>, w: Word)
    requires ClosingRun(sut, alphabet, ts) && ts[|ts| - 1] == Filled(sut, alphabet, known)
    requires Finds(sut, alphabet, known, w)
    ensures ClosingRun(sut, alphabet, ts + [Filled(sut, alphabet, known + {w})])
  {
    RunReady(sut, alphabet, ts);
    var s, i: nat :| FirstNew(sut, alphabet, known, s, i) && alphabet[i] != "" && w == s + [alphabet[i]];
    FilledStep(sut, alphabet, known, s, i);
    RunGrows(sut, alphabet, ts, Filled(sut, alphabet, known + {w}));
  }

  /** Every discovery is the prefixes of some closing run. */
  lemma {:induction false} DiscoveryRuns(sut: Sut, alphabet: seq<Symbol>, ws: seq<Word>) returns (ts: seq<Table>)
    requires Valid(sut) && Discovery(sut, alphabet, ws)
    ensures ClosingRun(sut, alphabet, ts) && ts[|ts| - 1] == Filled(sut, alphabet, Elements(ws))
  {
    if |ws| == 1 {
      assert Elements(ws) == {GREETING};
      FirstFilled(sut, alphabet);
      ts := [Filled(sut, alphabet, {GREETING})];
    } else {
      var vs, w := ws[..|ws| - 1], ws[|ws| - 1];
      ts := DiscoveryRuns(sut, alphabet, vs);
      FilledRunGrows(sut, alphabet, ts, Elements(vs), w);
      DiscoveryGrows(sut, alphabet, vs, w);
      assert vs + [w] == ws;
      ts := ts + [Filled(sut, alphabet, Elements(vs) + {w})];
    }
  }

  /** Some closing run gives up on an open table exactly when some discovery gets stuck. */
  lemma GivesUpIffStuck(sut: Sut, alphabet: seq<Symbol>)
    requires Valid(sut)
    ensures (exists t: Table :: t.alphabet == alphabet && Reached(sut, t) && GivesUp(t)) <==> CanGetStuck(sut, alphabet)
  {
    forall t: Table | t.alphabet == alphabet && Reached(sut, t) && GivesUp(t)
      ensures CanGetStuck(sut, alphabet)
    {
      GivingUpIsStuck(sut, t);
    }
    if CanGetStuck(sut, alphabet) {
      var ws :| Discovery(sut, alphabet, ws) && Stuck(sut, alphabet, Elements(ws));
      var s, i: nat :| FirstNew(sut, alphabet, Elements(ws), s, i) && alphabet[i] == "";
      var ts := DiscoveryRuns(sut, alphabet, ws);
      RunReady(sut, alphabet, ts);
      var t := ts[|ts| - 1];
      PicksIffFirstNew(sut, t, s, i);
      assert Reached(sut, t) && GivesUp(t);
    }
  }

  /** A closing run that gives up shows a discovery that gets stuck. */
  lemma GivingUpIsStuck(sut: Sut, t: Table)
    requires Reached(sut, t) && GivesUp(t)
    ensures CanGetStuck(sut, t.alphabet)
  {
    var ts :| ClosingRun(sut, t.alphabet, ts) && ts[|ts| - 1] == t;
    RunReady(sut, t.alphabet, ts);
    var ws := RunDiscovers(sut, t.alphabet, ts);
    var s, i: nat :| Picks(t, s, i) && t.alphabet[i] == "";
    PicksIffFirstNew(sut, t, s, i);
    assert Stuck(sut, t.alphabet, Elements(ws));
  }

  // ----- a system that gets stuck -----

  /** Three states in a row; only the second, where the greeting leads, answers `x`. */
  const WITNESS := Sut(3, 0, (q: nat, a: Symbol) => if q < 2 then q + 1 else q,
                       (q: nat, a: Symbol) => if q == 1 then "x" else "y")

  /** With the empty name as its only request, closing gives up at once, and must. */
  lemma WitnessGivesUp(t: Table)
    requires t.alphabet == [""] && t.S == {GREETING} && Ready(WITNESS, t)
    ensures !RowInS(t, GREETING + [""]) && GivesUp(t)
    ensures Valid(WITNESS) && CanGetStuck(WITNESS, [""])
  {
    var s := GREETING + [""];
    assert s[..1] == GREETING && GREETING[..0] == [] && s[1] == "";
    assert ConfigAfter(WITNESS, []) == Live(0);
    assert ConfigAfter(WITNESS, GREETING) == Live(1);
    assert ConfigAfter(WITNESS, s) == Live(2);
    assert "" in [""] && [""][0] == "";
    assert Emit(WITNESS, Live(1), "") == "x" && Emit(WITNESS, Live(2), "") == "y";
    assert !SameSingles(WITNESS, [""], GREETING, s);
    MissingIffNew(WITNESS, t, GREETING, "");
    assert Picks(t, GREETING, 0);
    FirstIsReached(WITNESS, t);
    GivingUpIsStuck(WITNESS, t);
  }
}
