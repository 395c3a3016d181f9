/** Observation tables as values, and what the learner keeps true of them. */
module ObservationTable {
  import opened Automata
  import opened SystemUnderTest

  type Cell = seq<Symbol>
  type Cells = map<Word, map<Word, Cell>>
  type Row = map<Word, Cell>

  const GREETING: Word := ["-"]

  datatype Table = Table(alphabet: seq<Symbol>, S: set<Word>, E: set<Word>, T: Cells)

  predicate Has(T: Cells, s: Word, e: Word) {
    s in T && e in T[s]
  }

  function CellAt(T: Cells, s: Word, e: Word): Cell
    requires Has(T, s, e)
  {
    T[s][e]
  }

  predicate FullRow(T: Cells, E: set<Word>, s: Word) {
    forall e {:trigger Has(T, s, e)} :: e in E ==> Has(T, s, e)
  }

  function RowOf(T: Cells, E: set<Word>, s: Word): Row
    requires FullRow(T, E, s)
  {
    map e | e in E :: CellAt(T, s, e)
  }

  ghost predicate SameRow(T: Cells, E: set<Word>, s1: Word, s2: Word)
    requires FullRow(T, E, s1) && FullRow(T, E, s2)
  {
    forall e :: e in E ==> CellAt(T, s1, e) == CellAt(T, s2, e)
  }

  lemma SameRowIffEqual(T: Cells, E: set<Word>, s1: Word, s2: Word)
    requires FullRow(T, E, s1) && FullRow(T, E, s2)
    ensures SameRow(T, E, s1, s2) <==> RowOf(T, E, s1) == RowOf(T, E, s2)
  {
    if RowOf(T, E, s1) == RowOf(T, E, s2) {
      forall e | e in E
        ensures CellAt(T, s1, e) == CellAt(T, s2, e)
      {
        assert RowOf(T, E, s1)[e] == RowOf(T, E, s2)[e];
      }
    }
  }

  function LetterSuffixes(alphabet: seq<Symbol>): set<Word> {
    set a | a in alphabet :: [a]
  }

  /** S holds the greeting, starts with it everywhere, and is closed under dropping the last request. */
  ghost predicate PrefixClosed(S: set<Word>, alphabet: seq<Symbol>) {
    && GREETING in S
    && forall s {:trigger Rooted(S, alphabet, s)} :: s in S ==> Rooted(S, alphabet, s)
  }

  ghost predicate Rooted(S: set<Word>, alphabet: seq<Symbol>, s: Word) {
    && s != [] && s[0] == "-"
    && (|s| > 1 ==> s[..|s| - 1] in S && s[|s| - 1] in alphabet)
  }

  /** The cell of the request that ends `s` is in the table. */
  ghost predicate LeadingCell(T: Cells, s: Word) {
    |s| > 1 ==> Has(T, s[..|s| - 1], s[|s| - 1..])
  }

  /** Every cell holds the one output the sink-completed system gives to the last request. */
  ghost predicate Faithful(sut: Sut, T: Cells) {
    forall s, e {:trigger Has(T, s, e)} ::
      Has(T, s, e) ==> s != [] && |e| == 1 && CellAt(T, s, e) == [LastOut(sut, s + e)]
  }

  /** Cells are only ever added. */
  ghost predicate Extends(T0: Cells, T1: Cells) {
    forall s, e {:trigger Has(T0, s, e)} {:trigger Has(T1, s, e)} ::
      Has(T0, s, e) ==> Has(T1, s, e) && CellAt(T1, s, e) == CellAt(T0, s, e)
  }

  /** A table between fills: the cell that led to each prefix is there. */
  ghost predicate Linked(sut: Sut, t: Table) {
    && Valid(sut)
    && t.E == LetterSuffixes(t.alphabet)
    && PrefixClosed(t.S, t.alphabet)
    && Faithful(sut, t.T)
    && (forall s {:trigger LeadingCell(t.T, s)} :: s in t.S ==> LeadingCell(t.T, s))
  }

  lemma LinkedStep(sut: Sut, t: Table, T: Cells)
    requires Linked(sut, t) && Faithful(sut, T) && Extends(t.T, T)
    ensures Linked(sut, t.(T := T))
  {
    forall s | s in t.S
      ensures LeadingCell(T, s)
    {
      assert LeadingCell(t.T, s);
    }
  }

  lemma ExtendsKeepsRows(T0: Cells, T1: Cells, T2: Cells, E: set<Word>)
    requires Extends(T0, T1) && Extends(T1, T2)
    ensures Extends(T0, T2)
    ensures forall s :: FullRow(T1, E, s) ==> FullRow(T2, E, s)
  {
  }

  /** Writing a true cell where there was none keeps the table faithful. */
  lemma PutCell(sut: Sut, T: Cells, s: Word, e: Word, c: Cell)
    requires Faithful(sut, T) && s in T && e !in T[s]
    requires s != [] && |e| == 1 && c == [LastOut(sut, s + e)]
    ensures Faithful(sut, T[s := T[s][e := c]]) && Extends(T, T[s := T[s][e := c]])
    ensures Has(T[s := T[s][e := c]], s, e)
  {
    var T' := T[s := T[s][e := c]];
    forall r, f
      ensures Has(T', r, f) <==> Has(T, r, f) || (r == s && f == e)
      ensures Has(T, r, f) ==> CellAt(T', r, f) == CellAt(T, r, f)
    {
    }
  }

  lemma PutEmptyRow(sut: Sut, T: Cells, s: Word)
    requires Faithful(sut, T) && s !in T
    ensures Faithful(sut, T[s := map[]]) && Extends(T, T[s := map[]])
  {
    var T' := T[s := map[]];
    forall r, e
      ensures Has(T', r, e) <==> Has(T, r, e)
      ensures Has(T, r, e) ==> CellAt(T', r, e) == CellAt(T, r, e)
    {
      assert r != s ==> (r in T' <==> r in T);
    }
  }

  ghost predicate RowsFull(T: Cells, E: set<Word>, S: set<Word>) {
    forall s {:trigger FullRow(T, E, s)} :: s in S ==> FullRow(T, E, s)
  }

  ghost predicate ExtensionsFull(T: Cells, E: set<Word>, alphabet: seq<Symbol>, S: set<Word>) {
    forall s, a {:trigger FullRow(T, E, s + [a])} :: s in S && a in alphabet ==> FullRow(T, E, s + [a])
  }

  lemma ExtensionsStep(T0: Cells, T1: Cells, T2: Cells, E: set<Word>, alphabet: seq<Symbol>, S: set<Word>, s: Word)
    requires Extends(T0, T1) && Extends(T1, T2)
    requires ExtensionsFull(T1, E, alphabet, S)
    requires forall a :: a in alphabet ==> FullRow(T2, E, s + [a])
    ensures Extends(T0, T2) && ExtensionsFull(T2, E, alphabet, S + {s})
  {
    ExtendsKeepsRows(T0, T1, T2, E);
    forall r, a | r in S + {s} && a in alphabet
      ensures FullRow(T2, E, r + [a])
    {
      assert r in S ==> FullRow(T1, E, r + [a]);
    }
  }

  /** The rows of S and of all its one-request extensions are full. */
  ghost predicate Complete(t: Table) {
    && RowsFull(t.T, t.E, t.S)
    && ExtensionsFull(t.T, t.E, t.alphabet, t.S)
  }

  /** No two prefixes of S have the same row. */
  ghost predicate Distinct(t: Table) {
    forall s1, s2 {:trigger TwinRows(t, s1, s2)} :: s1 in t.S && s2 in t.S && TwinRows(t, s1, s2) ==> s1 == s2
  }

  ghost predicate TwinRows(t: Table, s1: Word, s2: Word) {
    FullRow(t.T, t.E, s1) && FullRow(t.T, t.E, s2) && SameRow(t.T, t.E, s1, s2)
  }

  /** The invariant of a learning run. */
  ghost predicate Ready(sut: Sut, t: Table) {
    && Valid(sut)
    && t.E == LetterSuffixes(t.alphabet)
    && PrefixClosed(t.S, t.alphabet)
    && Faithful(sut, t.T)
    && Complete(t)
    && Distinct(t)
  }

  ghost predicate RowInS(t: Table, s: Word)
  {
    exists r {:trigger TwinRows(t, r, s)} :: r in t.S && TwinRows(t, r, s)
  }

  lemma RowInSIffRowFound(t: Table, s: Word)
    requires Complete(t) && FullRow(t.T, t.E, s)
    ensures RowInS(t, s) <==> exists r :: r in t.S && FullRow(t.T, t.E, r) && RowOf(t.T, t.E, r) == RowOf(t.T, t.E, s)
  {
    forall r | r in t.S
      ensures FullRow(t.T, t.E, r)
      ensures TwinRows(t, r, s) <==> RowOf(t.T, t.E, r) == RowOf(t.T, t.E, s)
    {
      SameRowIffEqual(t.T, t.E, r, s);
    }
  }

  ghost predicate Closed(t: Table) {
    forall s, a {:trigger RowInS(t, s + [a])} :: s in t.S && a in t.alphabet ==> RowInS(t, s + [a])
  }

  /** Prefixes with equal rows keep equal rows after every request. */
  ghost predicate Consistent(t: Table) {
    forall s1, s2, a {:trigger TwinRows(t, s1 + [a], s2 + [a])} ::
      s1 in t.S && s2 in t.S && a in t.alphabet && TwinRows(t, s1, s2) ==> TwinRows(t, s1 + [a], s2 + [a])
  }

  lemma DistinctRowsAreConsistent(t: Table)
    requires Complete(t) && Distinct(t)
    ensures Consistent(t)
  {
    forall s1, s2, a | s1 in t.S && s2 in t.S && a in t.alphabet && TwinRows(t, s1, s2)
      ensures TwinRows(t, s1 + [a], s2 + [a])
    {
      assert s1 == s2 && FullRow(t.T, t.E, s1 + [a]);
    }
  }

  /** In a faithful table, a row is what single requests draw from the configuration reached. */
  lemma {:induction false} RowIsSingleOutputs(sut: Sut, t: Table, s: Word, a: Symbol)
    requires Faithful(sut, t.T) && FullRow(t.T, t.E, s) && [a] in t.E
    ensures CellAt(t.T, s, [a]) == [Emit(sut, ConfigAfter(sut, s), a)]
  {
    assert Has(t.T, s, [a]);
    AfterSnoc(sut, s, a);
  }

  /** Single requests draw the same outputs after both words. */
  ghost predicate SameSingles(sut: Sut, alphabet: seq<Symbol>, s1: Word, s2: Word) {
    forall a :: a in alphabet ==> Emit(sut, ConfigAfter(sut, s1), a) == Emit(sut, ConfigAfter(sut, s2), a)
  }

  /** Equal rows if and only if single requests cannot tell the two configurations apart. */
  lemma EqualRowsIffSameSingles(sut: Sut, t: Table, s1: Word, s2: Word)
    requires Faithful(sut, t.T) && t.E == LetterSuffixes(t.alphabet)
    requires FullRow(t.T, t.E, s1) && FullRow(t.T, t.E, s2)
    ensures TwinRows(t, s1, s2) <==> SameSingles(sut, t.alphabet, s1, s2)
  {
    forall a | a in t.alphabet
      ensures [a] in t.E
      ensures CellAt(t.T, s1, [a]) == CellAt(t.T, s2, [a]) <==>
                Emit(sut, ConfigAfter(sut, s1), a) == Emit(sut, ConfigAfter(sut, s2), a)
    {
      assert [a] in t.E;
      RowIsSingleOutputs(sut, t, s1, a);
      RowIsSingleOutputs(sut, t, s2, a);
    }
  }

  lemma {:induction false} InjectionBound(sut: Sut, S: set<Word>, C: set<Config>)
    requires forall s :: s in S ==> ConfigAfter(sut, s) in C
    requires forall s1, s2 :: s1 in S && s2 in S && ConfigAfter(sut, s1) == ConfigAfter(sut, s2) ==> s1 == s2
    ensures |S| <= |C|
  {
    if S != {} {
      var s :| s in S;
      InjectionBound(sut, S - {s}, C - {ConfigAfter(sut, s)});
    }
  }

  /** Prefixes with distinct rows reach distinct configurations, so there are never too many. */
  lemma PrefixesBounded(sut: Sut, t: Table)
    requires Ready(sut, t)
    ensures |t.S| <= sut.size + 4
  {
    forall s1, s2 | s1 in t.S && s2 in t.S && ConfigAfter(sut, s1) == ConfigAfter(sut, s2)
      ensures s1 == s2
    {
      assert FullRow(t.T, t.E, s1) && FullRow(t.T, t.E, s2);
      EqualRowsIffSameSingles(sut, t, s1, s2);
      assert TwinRows(t, s1, s2);
    }
    forall s | s in t.S
      ensures ConfigAfter(sut, s) in Configs(sut)
    {
      AfterInConfigs(sut, s);
    }
    InjectionBound(sut, t.S, Configs(sut));
    ConfigCount(sut);
  }

  /**
   * The abnormal short-cut is the sink's answer: when the request that led to `s` drew the abnormal
   * cell `c`, every further request draws `c` too.
   */
  lemma {:induction false} AbnormalCellPersists(sut: Sut, T: Cells, s: Word, e: Word)
    requires Faithful(sut, T) && |s| > 1 && |e| == 1
    requires Has(T, s[..|s| - 1], s[|s| - 1..])
    ensures var c := T[s[..|s| - 1]][s[|s| - 1..]];
            if AbnormalCell(c) then c == [LastOut(sut, s + e)] else ConfigAfter(sut, s).Live?
  {
    assert s[..|s| - 1] + s[|s| - 1..] == s;
    assert (s + e)[..|s + e| - 1] == s;
    SunkIffAbnormal(sut, s);
  }

  predicate AbnormalCell(c: Cell) {
    || c == ["CLOSED"] || c == ["CRASH"] || c == ["TIMEOUT"] || c == ["POLLERR"]
  }

  /** Python's `out[-n:]`. */
  function LastEntries(out: seq<Symbol>, n: nat): seq<Symbol> {
    if n == 0 || n > |out| then out else out[|out| - n..]
  }

  /**
   * A query for `s` followed by one request either gives the true cell as its last entry; and it is
   * never shorter than `s` when no abnormal output came before, so the retry branch cannot be taken.
   */
  lemma {:induction false} QueryGivesCell(sut: Sut, s: Word, e: Word)
    requires s != [] && |e| == 1
    ensures var out := Answer(sut, s + e);
            && out != []
            && LastEntries(out, 1) == [LastOut(sut, s + e)]
            && (|s| == 1 || ConfigAfter(sut, s).Live? ==> |out| >= |s|)
  {
    assert (s + e)[..|s + e| - 1] == s;
    AnswerEndsWithLastOut(sut, s + e);
  }

  lemma ReadyIsLinked(sut: Sut, t: Table)
    requires Ready(sut, t)
    ensures Linked(sut, t)
  {
    forall r | r in t.S
      ensures LeadingCell(t.T, r)
    {
      assert Rooted(t.S, t.alphabet, r);
      if |r| > 1 {
        assert FullRow(t.T, t.E, r[..|r| - 1]);
        assert r[|r| - 1..] == [r[|r| - 1]] && r[|r| - 1..] in t.E;
      }
    }
  }

  /** A one-request extension of a prefix can become a prefix. */
  lemma AddPrefixLinked(sut: Sut, t: Table, s: Word, a: Symbol)
    requires Ready(sut, t) && s in t.S && a in t.alphabet
    ensures Linked(sut, t.(S := t.S + {s + [a]}))
  {
    var t' := t.(S := t.S + {s + [a]});
    ReadyIsLinked(sut, t);
    assert (s + [a])[..|s|] == s && (s + [a])[|s|..] == [a] && FullRow(t.T, t.E, s) && [a] in t.E;
    forall r | r in t'.S
      ensures Rooted(t'.S, t'.alphabet, r) && LeadingCell(t'.T, r)
    {
      assert Rooted(t.S, t.alphabet, if r == s + [a] then s else r);
      assert LeadingCell(t.T, if r == s + [a] then s else r);
    }
  }

  /** Closing keeps the rows of S pairwise distinct. */
  lemma AddPrefixKeepsReady(sut: Sut, t: Table, t': Table, s: Word, a: Symbol)
    requires Ready(sut, t) && s in t.S && a in t.alphabet && !RowInS(t, s + [a])
    requires t'.alphabet == t.alphabet && t'.E == t.E && t'.S == t.S + {s + [a]}
    requires Faithful(sut, t'.T) && Extends(t.T, t'.T) && Complete(t')
    ensures s + [a] !in t.S && Ready(sut, t')
  {
    AddPrefixLinked(sut, t, s, a);
    LinkedStep(sut, t.(S := t'.S), t'.T);
    assert FullRow(t.T, t.E, s + [a]);
    if s + [a] in t.S {
      assert TwinRows(t, s + [a], s + [a]);
    }
    forall s1, s2 | s1 in t'.S && s2 in t'.S && TwinRows(t', s1, s2)
      ensures s1 == s2
    {
      assert s1 in t.S ==> FullRow(t.T, t.E, s1);
      assert s2 in t.S ==> FullRow(t.T, t.E, s2);
      TwinRowsBefore(t, t', s1, s2);
      assert TwinRows(t, s2, s1);
    }
  }

  lemma TwinRowsBefore(t: Table, t': Table, s1: Word, s2: Word)
    requires t'.E == t.E && Extends(t.T, t'.T)
    requires FullRow(t.T, t.E, s1) && FullRow(t.T, t.E, s2) && TwinRows(t', s1, s2)
    ensures TwinRows(t, s1, s2)
  {
    forall e | e in t.E
      ensures CellAt(t.T, s1, e) == CellAt(t.T, s2, e)
    {
      assert Has(t.T, s1, e) && Has(t.T, s2, e);
    }
  }
}
