/** What it means for a machine to be read off an observation table. */
module Hypothesis {
  import opened Automata
  import opened SystemUnderTest
  import opened ObservationTable

  function Join(parts: seq<Symbol>): Symbol {
    if parts == [] then "" else parts[0] + Join(parts[1..])
  }

  ghost predicate Named(names: map<Row, State>, t: Table, s: Word) {
    FullRow(t.T, t.E, s) && RowOf(t.T, t.E, s) in names
  }

  ghost function IdOf(names: map<Row, State>, t: Table, s: Word): State
    requires Named(names, t, s)
  {
    names[RowOf(t.T, t.E, s)]
  }

  ghost predicate OwnRow(t: Table, done: set<Word>, r: Row) {
    exists s :: s in done && FullRow(t.T, t.E, s) && RowOf(t.T, t.E, s) == r
  }

  /** `names` numbers the rows of the prefixes in `done`, each once, from 1 up. */
  ghost predicate NumbersRows(names: map<Row, State>, t: Table, done: set<Word>) {
    && (forall s {:trigger Named(names, t, s)} :: s in done ==> Named(names, t, s))
    && (forall r {:trigger OwnRow(t, done, r)} :: r in names ==> OwnRow(t, done, r))
    && Numbering(names)
  }

  ghost predicate Numbering(names: map<Row, State>) {
    && (forall r1, r2 :: r1 in names && r2 in names && names[r1] == names[r2] ==> r1 == r2)
    && (forall r :: r in names ==> 1 <= names[r] <= |names|)
  }

  lemma NextNumber(names: map<Row, State>, r: Row)
    requires Numbering(names) && r !in names
    ensures Numbering(names[r := |names| + 1]) && |names[r := |names| + 1]| == |names| + 1
  {
    var names' := names[r := |names| + 1];
    assert names'.Keys == names.Keys + {r} && |names'.Keys| == |names.Keys| + 1;
  }

  lemma KnownRow(names: map<Row, State>, t: Table, done: set<Word>, s: Word)
    requires NumbersRows(names, t, done) && Named(names, t, s)
    ensures NumbersRows(names, t, done + {s})
  {
    forall r | r in names
      ensures OwnRow(t, done + {s}, r)
    {
      assert OwnRow(t, done, r);
    }
  }

  lemma NewRow(names: map<Row, State>, t: Table, done: set<Word>, s: Word)
    requires NumbersRows(names, t, done) && FullRow(t.T, t.E, s) && !Named(names, t, s)
    ensures NumbersRows(names[RowOf(t.T, t.E, s) := |names| + 1], t, done + {s})
    ensures |names[RowOf(t.T, t.E, s) := |names| + 1]| == |names| + 1
  {
    var r := RowOf(t.T, t.E, s);
    var names' := names[r := |names| + 1];
    NextNumber(names, r);
    assert Named(names', t, s);
    forall u | u in done
      ensures Named(names', t, u)
    {
      assert Named(names, t, u);
    }
    assert OwnRow(t, done + {s}, r);
    forall r0 | r0 in names
      ensures OwnRow(t, done + {s}, r0)
    {
      assert OwnRow(t, done, r0);
    }
  }

  /** The transition and the output for `a` in the state of `s` are those the table shows. */
  ghost predicate EdgeRead(delta: map<(State, Symbol), State>, output: map<(State, Symbol), Symbol>,
                           names: map<Row, State>, t: Table, s: Word, a: Symbol) {
    && Named(names, t, s) && Named(names, t, s + [a]) && Has(t.T, s, [a])
    && (IdOf(names, t, s), a) in delta && delta[(IdOf(names, t, s), a)] == IdOf(names, t, s + [a])
    && (IdOf(names, t, s), a) in output
    && output[(IdOf(names, t, s), a)] == Join(CellAt(t.T, s, [a]))
  }

  /** Writing one edge keeps every edge read before. */
  lemma WriteEdge(delta: map<(State, Symbol), State>, output: map<(State, Symbol), Symbol>,
                  names: map<Row, State>, t: Table, s: Word, a: Symbol)
    requires NumbersRows(names, t, t.S) && Distinct(t) && s in t.S
    requires Named(names, t, s) && Named(names, t, s + [a]) && Has(t.T, s, [a])
    ensures var k := (IdOf(names, t, s), a);
            var delta' := delta[k := IdOf(names, t, s + [a])];
            var output' := output[k := Join(CellAt(t.T, s, [a]))];
            && EdgeRead(delta', output', names, t, s, a)
            && (forall u, b :: u in t.S && EdgeRead(delta, output, names, t, u, b) ==>
                  EdgeRead(delta', output', names, t, u, b))
  {
    var k := (IdOf(names, t, s), a);
    var delta' := delta[k := IdOf(names, t, s + [a])];
    var output' := output[k := Join(CellAt(t.T, s, [a]))];
    forall u, b | u in t.S && EdgeRead(delta, output, names, t, u, b)
      ensures EdgeRead(delta', output', names, t, u, b)
    {
      if IdOf(names, t, u) == IdOf(names, t, s) {
        SameRowIffEqual(t.T, t.E, u, s);
        assert TwinRows(t, u, s);
      }
    }
  }

  ghost predicate EdgesRead(delta: map<(State, Symbol), State>, output: map<(State, Symbol), Symbol>,
                            names: map<Row, State>, t: Table, done: set<Word>) {
    && (forall s, a {:trigger EdgeRead(delta, output, names, t, s, a)} ::
          s in done && a in t.alphabet ==> EdgeRead(delta, output, names, t, s, a))
    && (forall k :: k in delta ==> k.0 in names.Values && k.1 in t.alphabet)
  }

  /** Prefixes share their row's edges only with themselves, so a finished row finishes its prefix. */
  lemma RowsDone(delta: map<(State, Symbol), State>, output: map<(State, Symbol), Symbol>,
                 names: map<Row, State>, t: Table, done: set<Word>, s: Word, rows: set<Row>)
    requires Complete(t) && Distinct(t) && s in t.S && FullRow(t.T, t.E, s)
    requires EdgesRead(delta, output, names, t, done + {s})
    requires forall u :: u in t.S && FullRow(t.T, t.E, u) && RowOf(t.T, t.E, u) !in rows ==> u in done
    ensures forall u ::
              u in t.S && FullRow(t.T, t.E, u) && RowOf(t.T, t.E, u) !in rows - {RowOf(t.T, t.E, s)} ==>
                u in done + {s}
  {
    forall u | u in t.S && FullRow(t.T, t.E, u) && RowOf(t.T, t.E, u) == RowOf(t.T, t.E, s)
      ensures u == s
    {
      SameRowIffEqual(t.T, t.E, u, s);
      assert TwinRows(t, u, s);
    }
  }

  /** The machine's states are the rows of S, and its edges and outputs are read off the table. */
  ghost predicate ReadsOff(h: Machine, names: map<Row, State>, t: Table) {
    && NumbersRows(names, t, t.S)
    && h.states == names.Values
    && h.alphabet == (set a | a in t.alphabet)
    && GREETING in t.S && Named(names, t, GREETING) && h.start == IdOf(names, t, GREETING)
    && EdgesRead(h.delta, h.output, names, t, t.S)
  }

  /** A finished learning run: a machine read off a closed table that keeps the learner's invariant. */
  ghost predicate LearnedFrom(sut: Sut, t: Table, h: Machine, names: map<Row, State>) {
    Ready(sut, t) && Closed(t) && ReadsOff(h, names, t)
  }

  /** An extension's row has a number exactly when some prefix has that row. */
  lemma NamedIffRowInS(names: map<Row, State>, t: Table, s: Word)
    requires Complete(t) && NumbersRows(names, t, t.S) && FullRow(t.T, t.E, s)
    ensures Named(names, t, s) <==> RowInS(t, s)
  {
    RowInSIffRowFound(t, s);
    if Named(names, t, s) {
      assert OwnRow(t, t.S, RowOf(t.T, t.E, s));
    }
    if RowInS(t, s) {
      var r :| r in t.S && FullRow(t.T, t.E, r) && RowOf(t.T, t.E, r) == RowOf(t.T, t.E, s);
      assert Named(names, t, r);
    }
  }
}
