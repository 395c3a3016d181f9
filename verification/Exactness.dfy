/** What a learned hypothesis is worth: agreement with the table, minimality, and exactness. */
module Exactness {
  import opened Prelude
  import opened Automata
  import opened SystemUnderTest
  import opened ObservationTable
  import opened Hypothesis

  ghost function Letters(t: Table): set<Symbol> {
    set a | a in t.alphabet
  }

  /** The requests of a table word: everything after the greeting. */
  ghost function Requests(s: Word): Word
    requires s != []
  {
    s[1..]
  }

  lemma {:induction false} PrefixRequests(sut: Sut, t: Table, s: Word)
    requires Ready(sut, t) && s in t.S
    ensures s != [] && GREETING + Requests(s) == s && Over(Requests(s), Letters(t))
    decreases |s|
  {
    assert Rooted(t.S, t.alphabet, s);
    if |s| > 1 {
      PrefixRequests(sut, t, s[..|s| - 1]);
      assert Requests(s) == Requests(s[..|s| - 1]) + [s[|s| - 1]];
    }
  }

  lemma LearnedIsTotal(sut: Sut, t: Table, h: Machine, names: map<Row, State>)
    requires LearnedFrom(sut, t, h, names)
    ensures h.alphabet == Letters(t) && TotalOver(h, Letters(t))
  {
    forall q, a | q in h.states && a in Letters(t)
      ensures Defined(h, q, a)
    {
      var r :| r in names && names[r] == q;
      assert OwnRow(t, t.S, r);
      var s :| s in t.S && FullRow(t.T, t.E, s) && RowOf(t.T, t.E, s) == r;
      assert EdgeRead(h.delta, h.output, names, t, s, a);
    }
  }

  /** The state named after a full row emits, for every request, the cell the table shows. */
  lemma {:induction false} StateShowsRow(sut: Sut, t: Table, h: Machine, names: map<Row, State>, s: Word, a: Symbol)
    requires LearnedFrom(sut, t, h, names) && Named(names, t, s) && a in t.alphabet
    ensures Has(t.T, s, [a]) && Defined(h, IdOf(names, t, s), a)
    ensures CellAt(t.T, s, [a]) == [h.output[(IdOf(names, t, s), a)]] == [Emit(sut, ConfigAfter(sut, s), a)]
  {
    assert [a] in t.E;
    assert Has(t.T, s, [a]);
    assert OwnRow(t, t.S, RowOf(t.T, t.E, s));
    var r :| r in t.S && FullRow(t.T, t.E, r) && RowOf(t.T, t.E, r) == RowOf(t.T, t.E, s);
    assert EdgeRead(h.delta, h.output, names, t, r, a);
    assert RowOf(t.T, t.E, r)[[a]] == RowOf(t.T, t.E, s)[[a]];
    RowIsSingleOutputs(sut, t, s, a);
    LearnedIsTotal(sut, t, h, names);
    var o := Emit(sut, ConfigAfter(sut, s), a);
    assert Join([o]) == o + Join([]) == o;
  }

  /** Run from its start state, the hypothesis reaches the state of every prefix of the table. */
  lemma {:induction false} ReachesPrefix(sut: Sut, t: Table, h: Machine, names: map<Row, State>, s: Word)
    requires LearnedFrom(sut, t, h, names) && s in t.S
    ensures TotalOver(h, Letters(t)) && s != [] && Over(Requests(s), Letters(t)) && Named(names, t, s)
    ensures After(h, Letters(t), h.start, Requests(s)) == IdOf(names, t, s)
    decreases |s|
  {
    LearnedIsTotal(sut, t, h, names);
    PrefixRequests(sut, t, s);
    assert Rooted(t.S, t.alphabet, s) && Named(names, t, s);
    if |s| == 1 {
      assert s == GREETING;
    } else {
      var p, a := s[..|s| - 1], s[|s| - 1];
      ReachesPrefix(sut, t, h, names, p);
      assert Requests(s) == Requests(p) + [a] && Requests(s)[..|Requests(s)| - 1] == Requests(p);
      assert p + [a] == s;
      assert EdgeRead(h.delta, h.output, names, t, p, a);
    }
  }

  /**
   * Agreement: for every prefix `s` and requests `a`, `b` the hypothesis is in the state of row(s) after
   * `s` and of row(s + a) after `s + a`, and emits the table's cells, which are the system's outputs.
   */
  lemma {:induction false} Agreement(
    sut: Sut, t: Table, h: Machine, names: map<Row, State>, s: Word, a: Symbol, b: Symbol)
    requires LearnedFrom(sut, t, h, names) && s in t.S && a in t.alphabet && b in t.alphabet
    ensures TotalOver(h, Letters(t)) && s != [] && Over(Requests(s) + [a] + [b], Letters(t))
    ensures Over(Requests(s), Letters(t)) && Over(Requests(s) + [a], Letters(t))
    ensures Named(names, t, s) && Named(names, t, s + [a])
    ensures After(h, Letters(t), h.start, Requests(s)) == IdOf(names, t, s)
    ensures After(h, Letters(t), h.start, Requests(s) + [a]) == IdOf(names, t, s + [a])
    ensures Has(t.T, s, [a]) && Has(t.T, s + [a], [b])
    ensures CellAt(t.T, s, [a]) == [LastOutput(h, Letters(t), h.start, Requests(s) + [a])]
                                == [LastOut(sut, s + [a])]
    ensures CellAt(t.T, s + [a], [b]) == [LastOutput(h, Letters(t), h.start, Requests(s) + [a] + [b])]
                                      == [LastOut(sut, s + [a] + [b])]
  {
    ReachesPrefix(sut, t, h, names, s);
    assert EdgeRead(h.delta, h.output, names, t, s, a);
    var u := Requests(s);
    assert (u + [a])[..|u + [a]| - 1] == u;
    OutputsCell(sut, t, h, names, u, s, a);
    OutputsCell(sut, t, h, names, u + [a], s + [a], b);
  }

  /** A word that leads to the state of a full row makes the machine output that row's cells. */
  lemma {:induction false} OutputsCell(
    sut: Sut, t: Table, h: Machine, names: map<Row, State>, u: Word, s: Word, a: Symbol)
    requires LearnedFrom(sut, t, h, names) && Named(names, t, s) && a in t.alphabet
    requires TotalOver(h, Letters(t)) && Over(u, Letters(t))
    requires After(h, Letters(t), h.start, u) == IdOf(names, t, s)
    ensures Over(u + [a], Letters(t)) && Has(t.T, s, [a])
    ensures CellAt(t.T, s, [a]) == [LastOutput(h, Letters(t), h.start, u + [a])] == [LastOut(sut, s + [a])]
  {
    assert (u + [a])[..|u + [a]| - 1] == u;
    StateShowsRow(sut, t, h, names, s, a);
    AfterSnoc(sut, s, a);
  }

  /** The hypothesis has one state for each prefix, numbered from 1. */
  lemma StatesArePrefixes(sut: Sut, t: Table, h: Machine, names: map<Row, State>)
    requires LearnedFrom(sut, t, h, names)
    ensures |h.states| == |t.S| <= sut.size + 4
    ensures forall q :: q in h.states ==> 1 <= q <= |t.S|
    ensures forall s1, s2 ::
              s1 in t.S && s2 in t.S && Named(names, t, s1) && Named(names, t, s2)
              && IdOf(names, t, s1) == IdOf(names, t, s2) ==>
                s1 == s2
  {
    PrefixesBounded(sut, t);
    forall s | s in t.S
      ensures Named(names, t, s)
    {
    }
    var id := map s | s in t.S :: IdOf(names, t, s);
    forall s1, s2 | s1 in t.S && s2 in t.S && IdOf(names, t, s1) == IdOf(names, t, s2)
      ensures s1 == s2
    {
      SameRowIffEqual(t.T, t.E, s1, s2);
      assert TwinRows(t, s1, s2);
    }
    forall q | q in h.states
      ensures q in id.Values
    {
      var r :| r in names && names[r] == q;
      assert OwnRow(t, t.S, r);
      var s :| s in t.S && FullRow(t.T, t.E, s) && RowOf(t.T, t.E, s) == r;
      assert id[s] == q;
    }
    assert id.Values == h.states;
    InjectiveImage(id);
    assert id.Keys == t.S;
    assert |names| == |t.S| by {
      InjectiveImage(names);
    }
  }

  lemma {:induction false} InjectiveImage<K, V>(m: map<K, V>)
    requires forall k1, k2 :: k1 in m && k2 in m && m[k1] == m[k2] ==> k1 == k2
    ensures |m.Values| == |m.Keys| == |m|
    decreases |m|
  {
    if m != map[] {
      var k :| k in m;
      var m' := m - {k};
      assert m'.Keys == m.Keys - {k};
      InjectiveImage(m');
      forall v | v in m.Values && v != m[k]
        ensures v in m'.Values
      {
        var j :| j in m && m[j] == v;
        assert m'[j] == v;
      }
      assert m'.Values == m.Values - {m[k]};
    }
  }

  /** `m` answers every request after every prefix as the table says. */
  ghost predicate AgreesWithTable(m: Machine, sut: Sut, t: Table)
    requires TotalOver(m, Letters(t)) && Ready(sut, t)
  {
    forall s, a :: s in t.S && a in t.alphabet ==>
      && s != [] && Over(Requests(s) + [a], Letters(t)) && Has(t.T, s, [a])
      && CellAt(t.T, s, [a]) == [LastOutput(m, Letters(t), m.start, Requests(s) + [a])]
  }

  /** After a prefix, the machine's next outputs are the prefix's cells. */
  lemma {:induction false} AgreedCell(sut: Sut, t: Table, m: Machine, s: Word, a: Symbol)
    requires Ready(sut, t) && TotalOver(m, Letters(t)) && AgreesWithTable(m, sut, t) && s in t.S && a in t.alphabet
    requires s != [] && Over(Requests(s), Letters(t))
    ensures var q := After(m, Letters(t), m.start, Requests(s));
            Has(t.T, s, [a]) && (q, a) in m.output && CellAt(t.T, s, [a]) == [m.output[(q, a)]]
  {
    var w := Requests(s) + [a];
    assert w[..|w| - 1] == Requests(s) && w[|w| - 1] == a;
    assert Defined(m, After(m, Letters(t), m.start, Requests(s)), a);
    assert CellAt(t.T, s, [a]) == [LastOutput(m, Letters(t), m.start, w)];
  }

  /** A machine that agrees with the table is in different states after different prefixes. */
  lemma {:induction false} SameStateSamePrefix(sut: Sut, t: Table, m: Machine, s1: Word, s2: Word)
    requires Ready(sut, t) && TotalOver(m, Letters(t)) && AgreesWithTable(m, sut, t) && s1 in t.S && s2 in t.S
    requires s1 != [] && s2 != [] && Over(Requests(s1), Letters(t)) && Over(Requests(s2), Letters(t))
    requires After(m, Letters(t), m.start, Requests(s1)) == After(m, Letters(t), m.start, Requests(s2))
    ensures s1 == s2
  {
    assert FullRow(t.T, t.E, s1) && FullRow(t.T, t.E, s2);
    forall e | e in t.E
      ensures CellAt(t.T, s1, e) == CellAt(t.T, s2, e)
    {
      var a :| a in t.alphabet && e == [a];
      AgreedCell(sut, t, m, s1, a);
      AgreedCell(sut, t, m, s2, a);
    }
    assert TwinRows(t, s1, s2);
  }

  /** Minimality: no machine that agrees with the table has fewer states than the hypothesis. */
  lemma Minimal(sut: Sut, t: Table, h: Machine, names: map<Row, State>, m: Machine)
    requires LearnedFrom(sut, t, h, names)
    requires TotalOver(m, Letters(t)) && AgreesWithTable(m, sut, t)
    ensures |h.states| <= |m.states|
  {
    StatesArePrefixes(sut, t, h, names);
    forall s | s in t.S
      ensures s != [] && Over(Requests(s), Letters(t))
    {
      PrefixRequests(sut, t, s);
    }
    var reach := map s | s in t.S :: After(m, Letters(t), m.start, Requests(s));
    forall s1, s2 | s1 in t.S && s2 in t.S && reach[s1] == reach[s2]
      ensures s1 == s2
    {
      SameStateSamePrefix(sut, t, m, s1, s2);
    }
    InjectiveImage(reach);
    assert reach.Values <= m.states;
    SubsetSize(reach.Values, m.states);
    assert reach.Keys == t.S;
  }

  /** The hypothesis ends its answer to `w` as the (sink-completed) system does. */
  ghost predicate SameAnswer(h: Machine, sut: Sut, t: Table, w: Word)
    requires TotalOver(h, Letters(t)) && w != [] && Over(w, Letters(t))
  {
    LastOutput(h, Letters(t), h.start, w) == LastOut(sut, GREETING + w)
  }

  /** The hypothesis answers every word as the system does. */
  ghost predicate Exact(h: Machine, sut: Sut, t: Table)
    requires TotalOver(h, Letters(t))
  {
    forall w :: w != [] && Over(w, Letters(t)) ==> SameAnswer(h, sut, t, w)
  }

  ghost predicate SameLast(sut: Sut, u: Word, v: Word, w: Word)
    requires w != []
  {
    LastOut(sut, u + w) == LastOut(sut, v + w)
  }

  /** No continuation tells the two words apart. */
  ghost predicate SameFuture(sut: Sut, letters: set<Symbol>, u: Word, v: Word) {
    forall w {:trigger SameLast(sut, u, v, w)} :: w != [] && Over(w, letters) ==> SameLast(sut, u, v, w)
  }

  ghost predicate SingleTwins(sut: Sut, t: Table, u: Word, v: Word) {
    SameSingles(sut, t.alphabet, GREETING + u, GREETING + v)
  }

  ghost predicate FutureTwins(sut: Sut, t: Table, u: Word, v: Word) {
    SameFuture(sut, Letters(t), GREETING + u, GREETING + v)
  }

  /** Words that single requests do not tell apart are told apart by nothing. */
  ghost predicate SinglesSuffice(sut: Sut, t: Table) {
    forall u, v {:trigger FutureTwins(sut, t, u, v)} ::
      Over(u, Letters(t)) && Over(v, Letters(t)) && SingleTwins(sut, t, u, v) ==> FutureTwins(sut, t, u, v)
  }

  lemma SameFutureAfter(sut: Sut, letters: set<Symbol>, u: Word, v: Word, a: Symbol)
    requires SameFuture(sut, letters, u, v) && a in letters
    ensures LastOut(sut, u + [a]) == LastOut(sut, v + [a])
    ensures SameFuture(sut, letters, u + [a], v + [a])
  {
    assert SameLast(sut, u, v, [a]);
    forall w | w != [] && Over(w, letters)
      ensures SameLast(sut, u + [a], v + [a], w)
    {
      assert SameLast(sut, u, v, [a] + w);
      assert u + ([a] + w) == u + [a] + w && v + ([a] + w) == v + [a] + w;
    }
  }

  lemma SameFutureTransitive(sut: Sut, letters: set<Symbol>, u: Word, v: Word, x: Word)
    requires SameFuture(sut, letters, u, v) && SameFuture(sut, letters, v, x)
    ensures SameFuture(sut, letters, u, x)
  {
    forall w | w != [] && Over(w, letters)
      ensures SameLast(sut, u, x, w)
    {
      assert SameLast(sut, u, v, w) && SameLast(sut, v, x, w);
    }
  }

  /** An edge of the hypothesis leads to the state of a prefix that single requests do not tell apart. */
  lemma EdgeTarget(sut: Sut, t: Table, h: Machine, names: map<Row, State>, p: Word, a: Symbol)
    returns (s: Word)
    requires LearnedFrom(sut, t, h, names) && p in t.S && a in t.alphabet
    ensures TotalOver(h, Letters(t)) && Named(names, t, p) && s in t.S && Named(names, t, s)
    ensures Defined(h, IdOf(names, t, p), a)
    ensures h.delta[(IdOf(names, t, p), a)] == IdOf(names, t, s)
    ensures SameSingles(sut, t.alphabet, p + [a], s)
  {
    LearnedIsTotal(sut, t, h, names);
    assert EdgeRead(h.delta, h.output, names, t, p, a);
    assert OwnRow(t, t.S, RowOf(t.T, t.E, p + [a]));
    s :| s in t.S && FullRow(t.T, t.E, s) && RowOf(t.T, t.E, s) == RowOf(t.T, t.E, p + [a]);
    SameRowIffEqual(t.T, t.E, p + [a], s);
    EqualRowsIffSameSingles(sut, t, p + [a], s);
  }

  /** When single requests suffice, those of an edge's target have the same future as the edge. */
  lemma TwinHasFuture(sut: Sut, t: Table, p: Word, a: Symbol, s: Word)
    requires Ready(sut, t) && SinglesSuffice(sut, t) && p in t.S && s in t.S && a in t.alphabet
    requires SameSingles(sut, t.alphabet, p + [a], s)
    ensures SameFuture(sut, Letters(t), p + [a], s)
  {
    PrefixRequests(sut, t, p);
    PrefixRequests(sut, t, s);
    assert p + [a] == GREETING + (Requests(p) + [a]);
    assert SingleTwins(sut, t, Requests(p) + [a], Requests(s));
    assert FutureTwins(sut, t, Requests(p) + [a], Requests(s));
  }

  /** When single requests suffice, the hypothesis is always in the state of a prefix with the same future. */
  lemma {:induction false} TracksFuture(sut: Sut, t: Table, h: Machine, names: map<Row, State>, w: Word)
    returns (s: Word)
    requires LearnedFrom(sut, t, h, names) && SinglesSuffice(sut, t) && Over(w, Letters(t))
    ensures TotalOver(h, Letters(t)) && s in t.S && Named(names, t, s)
    ensures After(h, Letters(t), h.start, w) == IdOf(names, t, s)
    ensures SameFuture(sut, Letters(t), GREETING + w, s)
    decreases |w|
  {
    LearnedIsTotal(sut, t, h, names);
    if w == [] {
      s := GREETING;
      assert GREETING + w == GREETING;
    } else {
      var u, a := w[..|w| - 1], w[|w| - 1];
      var p := TracksFuture(sut, t, h, names, u);
      SameFutureAfter(sut, Letters(t), GREETING + u, p, a);
      assert GREETING + u + [a] == GREETING + w;
      s := EdgeTarget(sut, t, h, names, p, a);
      TwinHasFuture(sut, t, p, a, s);
      SameFutureTransitive(sut, Letters(t), GREETING + w, p + [a], s);
    }
  }

  /** After `w`, the hypothesis is in the state of some prefix. */
  lemma ReachesSomePrefix(sut: Sut, t: Table, h: Machine, names: map<Row, State>, w: Word) returns (s: Word)
    requires LearnedFrom(sut, t, h, names) && Over(w, Letters(t))
    ensures TotalOver(h, Letters(t)) && s in t.S && Named(names, t, s)
    ensures After(h, Letters(t), h.start, w) == IdOf(names, t, s)
  {
    LearnedIsTotal(sut, t, h, names);
    var q := After(h, Letters(t), h.start, w);
    var r :| r in names && names[r] == q;
    assert OwnRow(t, t.S, r);
    s :| s in t.S && FullRow(t.T, t.E, s) && RowOf(t.T, t.E, s) == r;
  }

  /** In an exact hypothesis, the state after `u` emits what the system emits after `u`. */
  lemma {:induction false} ExactSingle(sut: Sut, t: Table, h: Machine, u: Word, a: Symbol)
    requires TotalOver(h, Letters(t)) && Exact(h, sut, t) && Over(u, Letters(t)) && a in Letters(t)
    ensures var q := After(h, Letters(t), h.start, u);
            Defined(h, q, a) && h.output[(q, a)] == Emit(sut, ConfigAfter(sut, GREETING + u), a)
  {
    assert Defined(h, After(h, Letters(t), h.start, u), a);
    assert (u + [a])[..|u + [a]| - 1] == u && GREETING + (u + [a]) == GREETING + u + [a];
    assert SameAnswer(h, sut, t, u + [a]);
    AfterSnoc(sut, GREETING + u, a);
  }

  /** An exact hypothesis is in one state after any two words that single requests do not tell apart. */
  lemma {:induction false} ExactMergesTwins(sut: Sut, t: Table, h: Machine, names: map<Row, State>, u: Word, v: Word)
    requires LearnedFrom(sut, t, h, names) && Over(u, Letters(t)) && Over(v, Letters(t))
    requires TotalOver(h, Letters(t)) && Exact(h, sut, t) && SingleTwins(sut, t, u, v)
    ensures After(h, Letters(t), h.start, u) == After(h, Letters(t), h.start, v)
  {
    var s := ReachesSomePrefix(sut, t, h, names, u);
    var r := ReachesSomePrefix(sut, t, h, names, v);
    forall e | e in t.E
      ensures CellAt(t.T, s, e) == CellAt(t.T, r, e)
    {
      var a :| a in t.alphabet && e == [a];
      StateShowsRow(sut, t, h, names, s, a);
      StateShowsRow(sut, t, h, names, r, a);
      ExactSingle(sut, t, h, u, a);
      ExactSingle(sut, t, h, v, a);
    }
    assert TwinRows(t, s, r);
  }

  /** In an exact hypothesis, the state after `u` emits the system's answer to every continuation. */
  lemma {:induction false} ExactContinuation(sut: Sut, t: Table, h: Machine, u: Word, w: Word)
    requires TotalOver(h, Letters(t)) && Exact(h, sut, t)
    requires Over(u, Letters(t)) && w != [] && Over(w, Letters(t))
    ensures LastOut(sut, GREETING + u + w) == LastOutput(h, Letters(t), After(h, Letters(t), h.start, u), w)
  {
    var x := w[..|w| - 1];
    ConcatFacts(GREETING, u, w);
    AfterConcat(h, Letters(t), h.start, u, x);
    assert SameAnswer(h, sut, t, u + w);
  }

  /**
   * Exactness: learning without equivalence queries finds the system exactly when single requests
   * already tell apart every two reachable situations that anything tells apart.
   */
  lemma ExactIffSinglesSuffice(sut: Sut, t: Table, h: Machine, names: map<Row, State>)
    requires LearnedFrom(sut, t, h, names)
    ensures TotalOver(h, Letters(t))
    ensures Exact(h, sut, t) <==> SinglesSuffice(sut, t)
  {
    LearnedIsTotal(sut, t, h, names);
    if SinglesSuffice(sut, t) {
      forall w | w != [] && Over(w, Letters(t))
        ensures SameAnswer(h, sut, t, w)
      {
        var u, a := w[..|w| - 1], w[|w| - 1];
        var s := TracksFuture(sut, t, h, names, u);
        SameFutureAfter(sut, Letters(t), GREETING + u, s, a);
        assert GREETING + u + [a] == GREETING + w;
        StateShowsRow(sut, t, h, names, s, a);
        AfterSnoc(sut, s, a);
      }
    }
    if Exact(h, sut, t) {
      forall u, v | Over(u, Letters(t)) && Over(v, Letters(t)) && SingleTwins(sut, t, u, v)
        ensures FutureTwins(sut, t, u, v)
      {
        ExactMergesTwins(sut, t, h, names, u, v);
        forall w | w != [] && Over(w, Letters(t))
          ensures SameLast(sut, GREETING + u, GREETING + v, w)
        {
          ExactContinuation(sut, t, h, u, w);
          ExactContinuation(sut, t, h, v, w);
        }
      }
    }
  }
}
