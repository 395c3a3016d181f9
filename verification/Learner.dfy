/** The observation table as the learner updates it, and one learning run. */
module Learner {
  import opened Automata
  import opened SystemUnderTest
  import opened ObservationTable
  import opened ClosingOrder
  import opened Hypothesis

  /** Python values the closing loop compares: a tuple of strings never equals a string. */
  datatype PyValue = Str(s: Symbol) | Tuple(items: seq<Symbol>)

  const ABNORMAL_SYMBOLS: seq<PyValue> := [Str("CRASH"), Str("TIMEOUT"), Str("CLOSED"), Str("POLLERR")]

  class ObTable {
    const alphabet: seq<Symbol>
    const mq: MembershipOracle
    const signals: Signals
    const retries: int
    var S: set<Word>
    var E: set<Word>
    var T: Cells

    ghost function Snapshot(): Table
      reads this
    {
      Table(alphabet, S, E, T)
    }

    constructor (mq: MembershipOracle, retries: int)
      ensures this.mq == mq && alphabet == mq.alphabet && signals == mq.signals
      ensures S == {GREETING} && E == LetterSuffixes(alphabet) && T == map[]
    {
      this.mq := mq;
      this.alphabet := mq.alphabet;
      this.signals := mq.signals;
      this.retries := retries;
      this.S := {GREETING};
      this.E := LetterSuffixes(mq.alphabet);
      this.T := map[];
    }

    function Attempts(): nat {
      if retries > 1 then retries else 1
    }

    /** Repeats a query that came back empty, until it is answered, every attempt was used, or a stop is seen. */
    method QueryWithEmptyRetry(word: Word) returns (out: seq<Symbol>, ghost misses: nat)
      requires mq.signals == signals
      modifies signals
      ensures out == [] || out == Answer(mq.sut, word)
      ensures misses <= Attempts() && (out == [] ==> signals.stopSet || misses == Attempts())
      ensures old(signals.stopSet) ==> out == [] && misses == 0
      ensures old(signals.stopSet) ==> signals.stopSet
      ensures old(signals.thresholdReached) ==> signals.thresholdReached
    {
      misses := 0;
      for attempt := 0 to Attempts()
        invariant misses == attempt && (old(signals.stopSet) ==> attempt == 0)
        invariant old(signals.stopSet) ==> signals.stopSet
        invariant old(signals.thresholdReached) ==> signals.thresholdReached
      {
        signals.Poll();
        if signals.stopSet {
          return [], misses;
        }
        ghost var failures;
        out, failures := mq.Query(word);
        if out != [] {
          return;
        }
        misses := misses + 1;
      }
      return [], misses;
    }

    /**
     * Fills the row of one prefix `s`, given the cell of the request that led to it (none for the
     * greeting alone). Suffixes are taken in any order. The pass over the extensions looks for a stop
     * before every cell, the pass over the prefixes only before cells that are missing.
     */
    method FillRow(s: Word, leading: seq<Cell>, extension: bool) returns (stopped: bool)
      requires mq.signals == signals && E == LetterSuffixes(alphabet) && Faithful(mq.sut, T)
      requires s != [] && |leading| == (if |s| == 1 then 0 else 1)
      requires |s| > 1 ==> Has(T, s[..|s| - 1], s[|s| - 1..]) && leading[0] == T[s[..|s| - 1]][s[|s| - 1..]]
      modifies this`T, signals
      ensures Faithful(mq.sut, T) && Extends(old(T), T)
      ensures if stopped then signals.stopSet else FullRow(T, E, s)
      ensures old(signals.stopSet) ==> signals.stopSet
      ensures old(signals.thresholdReached) ==> signals.thresholdReached
    {
      ghost var T0 := T;
      var suffixes := E;
      while suffixes != {}
        invariant suffixes <= E
        invariant Faithful(mq.sut, T) && Extends(T0, T)
        invariant FullRow(T, E - suffixes, s)
        invariant old(signals.stopSet) ==> signals.stopSet
        invariant old(signals.thresholdReached) ==> signals.thresholdReached
        decreases suffixes
      {
        var e :| e in suffixes;
        suffixes := suffixes - {e};
        if s !in T {
          PutEmptyRow(mq.sut, T, s);
          T := T[s := map[]];
        }
        if !extension && e in T[s] {
          continue;
        }
        signals.Poll();
        if signals.stopSet {
          return true;
        }
        if e in T[s] {
          continue;
        }
        ghost var T1 := T;
        assert Faithful(mq.sut, T1) && Extends(T0, T1);
        var cell: Cell;
        if |s| != 1 && AbnormalCell(leading[0]) {
          AbnormalCellPersists(mq.sut, T, s, e);
          cell := leading[0];
        } else {
          cell := Ask(s, e, leading);
          if cell == [] {
            return true;
          }
        }
        PutCell(mq.sut, T, s, e, cell);
        T := T[s := T[s][e := cell]];
        ExtendsKeepsRows(T0, T1, T, E - suffixes - {e});
      }
      return false;
    }

    /** Queries one cell whose prefix drew no abnormal output; an empty cell means learning was stopped. */
    method Ask(s: Word, e: Word, leading: seq<Cell>) returns (cell: Cell)
      requires mq.signals == signals && Faithful(mq.sut, T)
      requires s != [] && |e| == 1 && |leading| == (if |s| == 1 then 0 else 1)
      requires |s| > 1 ==> Has(T, s[..|s| - 1], s[|s| - 1..]) && leading[0] == T[s[..|s| - 1]][s[|s| - 1..]]
      requires |s| > 1 ==> !AbnormalCell(leading[0])
      modifies signals
      ensures if cell == [] then signals.stopSet else cell == [LastOut(mq.sut, s + e)]
      ensures old(signals.stopSet) ==> signals.stopSet
      ensures old(signals.thresholdReached) ==> signals.thresholdReached
    {
      if |s| > 1 {
        AbnormalCellPersists(mq.sut, T, s, e);
      }
      QueryGivesCell(mq.sut, s, e);
      var out, misses := QueryWithEmptyRetry(s + e);
      if out == [] {
        signals.RaiseStop();
        return [];
      }
      if out[|out| - 1] == "TIMEOUT" && |out| < |s| {
        assert false;  // a too short answer needs an abnormal output before `s` ended
      }
      return LastEntries(out, |e|);
    }

    /** The rows of S; the cell that led to a prefix is already there. */
    method FillPrefixRows() returns (stopped: bool)
      requires mq.signals == signals && Linked(mq.sut, Snapshot())
      modifies this`T, signals
      ensures Faithful(mq.sut, T) && Extends(old(T), T)
      ensures if stopped then signals.stopSet else RowsFull(T, E, S)
      ensures old(signals.stopSet) ==> signals.stopSet
      ensures old(signals.thresholdReached) ==> signals.thresholdReached
    {
      ghost var T0 := T;
      var prefixes := S;
      while prefixes != {}
        invariant prefixes <= S && Faithful(mq.sut, T) && Extends(T0, T)
        invariant RowsFull(T, E, S - prefixes)
        invariant old(signals.stopSet) ==> signals.stopSet
        invariant old(signals.thresholdReached) ==> signals.thresholdReached
        decreases prefixes
      {
        var s :| s in prefixes;
        prefixes := prefixes - {s};
        assert LeadingCell(T0, s) && Rooted(S, alphabet, s);
        ghost var T1 := T;
        stopped := FillRow(s, if |s| == 1 then [] else [T[s[..|s| - 1]][s[|s| - 1..]]], false);
        ExtendsKeepsRows(T0, T1, T, E);
        if stopped {
          return;
        }
      }
      return false;
    }

    /** The rows of the one-request extensions of `s`. */
    method FillExtensionRows(s: Word) returns (stopped: bool)
      requires mq.signals == signals && E == LetterSuffixes(alphabet) && Faithful(mq.sut, T)
      requires s != [] && FullRow(T, E, s)
      modifies this`T, signals
      ensures Faithful(mq.sut, T) && Extends(old(T), T)
      ensures if stopped then signals.stopSet else forall a :: a in alphabet ==> FullRow(T, E, s + [a])
      ensures old(signals.stopSet) ==> signals.stopSet
      ensures old(signals.thresholdReached) ==> signals.thresholdReached
    {
      ghost var T0 := T;
      for i := 0 to |alphabet|
        invariant Faithful(mq.sut, T) && Extends(T0, T)
        invariant forall j :: 0 <= j < i ==> FullRow(T, E, s + [alphabet[j]])
        invariant old(signals.stopSet) ==> signals.stopSet
        invariant old(signals.thresholdReached) ==> signals.thresholdReached
      {
        var si := s + [alphabet[i]];
        assert [alphabet[i]] in E && Has(T0, s, [alphabet[i]]);
        assert si[..|si| - 1] == s && si[|si| - 1..] == [alphabet[i]];
        ghost var T1 := T;
        stopped := FillRow(si, [T[s][[alphabet[i]]]], true);
        ExtendsKeepsRows(T0, T1, T, E);
        if stopped {
          return;
        }
        forall j | 0 <= j < i + 1
          ensures FullRow(T, E, s + [alphabet[j]])
        {
          assert j < i ==> FullRow(T1, E, s + [alphabet[j]]);
          assert j == i ==> s + [alphabet[j]] == si;
        }
      }
      return false;
    }

    /** The rows of the one-request extensions of every prefix. */
    method FillAllExtensionRows() returns (stopped: bool)
      requires mq.signals == signals && E == LetterSuffixes(alphabet) && Faithful(mq.sut, T)
      requires RowsFull(T, E, S) && [] !in S
      modifies this`T, signals
      ensures Faithful(mq.sut, T) && Extends(old(T), T)
      ensures if stopped then signals.stopSet else ExtensionsFull(T, E, alphabet, S)
      ensures old(signals.stopSet) ==> signals.stopSet
      ensures old(signals.thresholdReached) ==> signals.thresholdReached
    {
      ghost var T0 := T;
      var prefixes := S;
      ghost var done: set<Word> := {};
      while prefixes != {}
        invariant prefixes <= S && S == prefixes + done && Faithful(mq.sut, T) && Extends(T0, T)
        invariant ExtensionsFull(T, E, alphabet, done)
        invariant old(signals.stopSet) ==> signals.stopSet
        invariant old(signals.thresholdReached) ==> signals.thresholdReached
        decreases prefixes
      {
        var s :| s in prefixes;
        prefixes := prefixes - {s};
        assert FullRow(T0, E, s);
        ghost var T1 := T;
        stopped := FillExtensionRows(s);
        if stopped {
          ExtendsKeepsRows(T0, T1, T, E);
          return;
        }
        ExtensionsStep(T0, T1, T, E, alphabet, done, s);
        done := done + {s};
      }
      assert done == S;
      return false;
    }

    /** Queries every missing cell of S and of its one-request extensions, in any order. */
    method FillTable() returns (stopped: bool)
      requires mq.signals == signals && Linked(mq.sut, Snapshot())
      modifies this`T, signals
      ensures Faithful(mq.sut, T) && Extends(old(T), T)
      ensures if stopped then signals.stopSet else Complete(Snapshot())
      ensures old(signals.stopSet) ==> signals.stopSet
      ensures old(signals.thresholdReached) ==> signals.thresholdReached
    {
      ghost var T0 := T;
      stopped := FillPrefixRows();
      if !stopped {
        ghost var T1 := T;
        assert !Rooted(S, alphabet, []);
        stopped := FillAllExtensionRows();
        ExtendsKeepsRows(T0, T1, T, E);
      }
    }

    /** Looks for an extension whose row no prefix has: prefixes in any order, requests in the alphabet's. */
    method IsClosed() returns (closed: bool, s: Word, a: Symbol, ghost i: nat)
      requires Complete(Snapshot())
      ensures closed ==> Closed(Snapshot())
      ensures !closed ==> Picks(Snapshot(), s, i) && a == alphabet[i]
    {
      ghost var t := Snapshot();
      forall r | r in S
        ensures FullRow(T, E, r)
      {
      }
      var rows := set r | r in S :: RowOf(T, E, r);
      var prefixes := S;
      while prefixes != {}
        invariant prefixes <= S
        invariant forall r, b {:trigger RowInS(t, r + [b])} ::
                    r in S - prefixes && b in alphabet ==> RowInS(t, r + [b])
        decreases prefixes
      {
        s :| s in prefixes;
        prefixes := prefixes - {s};
        for j := 0 to |alphabet|
          invariant forall k :: 0 <= k < j ==> RowInS(t, s + [alphabet[k]])
        {
          assert FullRow(T, E, s + [alphabet[j]]);
          RowInSIffRowFound(t, s + [alphabet[j]]);
          if RowOf(T, E, s + [alphabet[j]]) !in rows {
            return false, s, alphabet[j], j;
          }
        }
      }
      return true, [], "", 0;
    }

    /** One turn of closing: an extension with a new row becomes a prefix, and the table is filled. */
    method AddPrefix(s: Word, a: Symbol, ghost i: nat) returns (stopped: bool)
      requires mq.signals == signals && Ready(mq.sut, Snapshot())
      requires Picks(Snapshot(), s, i) && a == alphabet[i] && a != ""
      modifies this`S, this`T, signals
      ensures stopped ==> signals.stopSet
      ensures !stopped ==>
                && Ready(mq.sut, Snapshot()) && Extends(old(T), T)
                && S == old(S) + {s + [a]} && old(|S|) < |S| <= mq.sut.size + 4
                && (old(Reached(mq.sut, Snapshot())) ==> Reached(mq.sut, Snapshot()))
      ensures old(signals.stopSet) ==> signals.stopSet
      ensures old(signals.thresholdReached) ==> signals.thresholdReached
    {
      ghost var t := Snapshot();
      AddPrefixLinked(mq.sut, t, s, a);
      S := S + {s + [a]};
      stopped := FillTable();
      if !stopped {
        AddPrefixKeepsReady(mq.sut, t, Snapshot(), s, a);
        PrefixesBounded(mq.sut, Snapshot());
        if old(Reached(mq.sut, Snapshot())) {
          StepIsReached(mq.sut, t, Snapshot(), s, i);
        }
      }
    }

    /**
     * Adds prefixes until every extension's row is the row of a prefix. It also returns, with a table that
     * is still ready, as soon as a stop or the no-growth gate is seen, or when the missing row it looks at
     * belongs to a request whose name is empty: the table is then open, and otherwise it is closed.
     */
    method MakeClose() returns (stopped: bool)
      requires mq.signals == signals && Ready(mq.sut, Snapshot())
      modifies this`S, this`T, signals
      ensures stopped ==> signals.stopSet
      ensures !stopped ==>
                && Ready(mq.sut, Snapshot()) && Extends(old(T), T) && old(S) <= S
                && (old(Reached(mq.sut, Snapshot())) ==> Reached(mq.sut, Snapshot()))
      ensures !stopped && !signals.stopSet && !signals.thresholdReached ==>
                && (Closed(Snapshot()) <==> EmptyNameKnown(Snapshot()))
                && (Closed(Snapshot()) <==> !GivesUp(Snapshot()))
      ensures old(signals.stopSet) ==> signals.stopSet
      ensures old(signals.thresholdReached) ==> signals.thresholdReached
    {
      ghost var T0 := T;
      PrefixesBounded(mq.sut, Snapshot());
      while true
        invariant Ready(mq.sut, Snapshot()) && |S| <= mq.sut.size + 4
        invariant Extends(T0, T) && old(S) <= S
        invariant old(Reached(mq.sut, Snapshot())) ==> Reached(mq.sut, Snapshot())
        invariant old(signals.stopSet) ==> signals.stopSet
        invariant old(signals.thresholdReached) ==> signals.thresholdReached
        decreases mq.sut.size + 4 - |S|
      {
        signals.Poll();
        if signals.stopSet || signals.thresholdReached {
          return false;
        }
        var closed, s, a, i := IsClosed();
        if !closed {
          ReadyIsLinked(mq.sut, Snapshot());
          assert LeadingCell(T, s);
        }
        if closed || a == "" || (|s| > 1 && Tuple(T[s[..|s| - 1]][s[|s| - 1..]]) in ABNORMAL_SYMBOLS) {
          return false;
        }
        ghost var T1 := T;
        stopped := AddPrefix(s, a, i);
        if stopped {
          return;
        }
        ExtendsKeepsRows(T0, T1, T, E);
        if signals.thresholdReached {
          return false;
        }
      }
    }

    /** Looks for two prefixes with equal rows that a request and a suffix tell apart, in any order. */
    method IsConsistent() returns (ok: bool, a: Symbol, e: Word)
      requires Complete(Snapshot())
      ensures ok <==> Consistent(Snapshot())
    {
      ghost var t := Snapshot();
      forall r | r in S
        ensures FullRow(T, E, r)
      {
      }
      var firsts := S;
      while firsts != {}
        invariant firsts <= S
        invariant forall r1, r2, b {:trigger TwinRows(t, r1 + [b], r2 + [b])} ::
                    r1 in S - firsts && r2 in S && b in alphabet && TwinRows(t, r1, r2) ==>
                      TwinRows(t, r1 + [b], r2 + [b])
        decreases firsts
      {
        var s1 :| s1 in firsts;
        firsts := firsts - {s1};
        var seconds := S;
        while seconds != {}
          invariant seconds <= S
          invariant forall r2, b {:trigger TwinRows(t, s1 + [b], r2 + [b])} ::
                      r2 in S - seconds && b in alphabet && TwinRows(t, s1, r2) ==>
                        TwinRows(t, s1 + [b], r2 + [b])
          decreases seconds
        {
          var s2 :| s2 in seconds;
          seconds := seconds - {s2};
          SameRowIffEqual(T, E, s1, s2);
          if RowOf(T, E, s1) == RowOf(T, E, s2) {
            ok, a, e := SuccessorRowsAgree(s1, s2);
            if !ok {
              assert TwinRows(t, s1, s2) && !TwinRows(t, s1 + [a], s2 + [a]);
              return;
            }
          }
        }
      }
      return true, "", [];
    }

    method SuccessorRowsAgree(s1: Word, s2: Word) returns (ok: bool, a: Symbol, e: Word)
      requires Complete(Snapshot()) && s1 in S && s2 in S
      ensures ok ==> forall b :: b in alphabet ==> TwinRows(Snapshot(), s1 + [b], s2 + [b])
      ensures !ok ==> a in alphabet && e in E && !TwinRows(Snapshot(), s1 + [a], s2 + [a])
    {
      for i := 0 to |alphabet|
        invariant forall j :: 0 <= j < i ==> TwinRows(Snapshot(), s1 + [alphabet[j]], s2 + [alphabet[j]])
      {
        a := alphabet[i];
        assert FullRow(T, E, s1 + [a]) && FullRow(T, E, s2 + [a]);
        var suffixes := E;
        while suffixes != {}
          invariant suffixes <= E
          invariant forall f :: f in E - suffixes ==> CellAt(T, s1 + [a], f) == CellAt(T, s2 + [a], f)
          decreases suffixes
        {
          e :| e in suffixes;
          suffixes := suffixes - {e};
          if CellAt(T, s1 + [a], e) != CellAt(T, s2 + [a], e) {
            return false, a, e;
          }
        }
      }
      return true, "", [];
    }

    /** With distinct rows the table is consistent as it stands: no suffix is ever added. */
    method MakeConsistent() returns (stopped: bool)
      requires mq.signals == signals && Ready(mq.sut, Snapshot())
      modifies signals
      ensures stopped <==> signals.stopSet
      ensures old(signals.stopSet) ==> signals.stopSet
      ensures old(signals.thresholdReached) ==> signals.thresholdReached
    {
      signals.Poll();
      if signals.stopSet {
        return true;
      }
      if signals.thresholdReached {
        return false;
      }
      var ok, a, e := IsConsistent();
      DistinctRowsAreConsistent(Snapshot());
      if !ok {
        assert false;  // the source would add the suffix [a] + e and fill the table again
      }
      return false;
    }

    /** Numbers the rows of S, in any order. */
    method NumberRows() returns (states: map<Row, State>)
      requires Complete(Snapshot())
      ensures NumbersRows(states, Snapshot(), S)
    {
      ghost var t := Snapshot();
      states := map[];
      var sid := 1;
      var prefixes := S;
      ghost var done: set<Word> := {};
      while prefixes != {}
        invariant prefixes <= S && S == prefixes + done
        invariant sid == |states| + 1 && NumbersRows(states, t, done)
        decreases prefixes
      {
        var s :| s in prefixes;
        assert FullRow(T, E, s);
        var r := RowOf(T, E, s);
        prefixes := prefixes - {s};
        if r in states {
          KnownRow(states, t, done, s);
        } else {
          NewRow(states, t, done, s);
          states := states[r := sid];
          sid := sid + 1;
        }
        done := done + {s};
      }
      assert done == S;
    }

    /** The edges of one prefix; `ok` is false when a successor's row has no number. */
    method ReadEdges(states: map<Row, State>, s: Word, ghost done: set<Word>,
                     delta0: map<(State, Symbol), State>, output0: map<(State, Symbol), Symbol>)
      returns (ok: bool, delta: map<(State, Symbol), State>, output: map<(State, Symbol), Symbol>)
      requires Complete(Snapshot()) && Distinct(Snapshot()) && E == LetterSuffixes(alphabet)
      requires NumbersRows(states, Snapshot(), S) && s in S && done <= S && FullRow(T, E, s)
      requires EdgesRead(delta0, output0, states, Snapshot(), done)
      ensures if ok then EdgesRead(delta, output, states, Snapshot(), done + {s}) else !Closed(Snapshot())
    {
      ghost var t := Snapshot();
      delta, output := delta0, output0;
      for i := 0 to |alphabet|
        invariant EdgesRead(delta, output, states, t, done)
        invariant forall j :: 0 <= j < i ==> EdgeRead(delta, output, states, t, s, alphabet[j])
      {
        var a := alphabet[i];
        assert [a] in E && Has(T, s, [a]);
        assert FullRow(T, E, s + [a]) && Named(states, t, s);
        NamedIffRowInS(states, t, s + [a]);
        var r2 := RowOf(T, E, s + [a]);
        if r2 !in states {
          return false, delta, output;
        }
        WriteEdge(delta, output, states, t, s, a);
        delta := delta[(states[RowOf(T, E, s)], a) := states[r2]];
        output := output[(states[RowOf(T, E, s)], a) := Join(CellAt(T, s, [a]))];
      }
      return true, delta, output;
    }

    /**
     * Numbers the rows of S and reads the transitions and outputs off the table. A row that no prefix
     * has is the lookup error of the source.
     */
    method BuildHypothesis(id: string) returns (h: MealyMachine?, ghost names: map<Row, State>)
      requires Complete(Snapshot()) && Distinct(Snapshot()) && GREETING in S
      requires E == LetterSuffixes(alphabet)
      ensures h == null <==> !Closed(Snapshot())
      ensures h != null ==> fresh(h) && h.id == id && ReadsOff(h.Model(), names, Snapshot())
    {
      ghost var t := Snapshot();
      forall r | r in S
        ensures FullRow(T, E, r)
      {
      }
      var states := NumberRows();
      names := states;
      var delta: map<(State, Symbol), State> := map[];
      var output: map<(State, Symbol), Symbol> := map[];
      var rows := states.Keys;
      ghost var done: set<Word> := {};
      forall u | u in S
        ensures Named(states, t, u)
      {
      }
      while rows != {}
        invariant rows <= states.Keys && done <= S
        invariant forall u :: u in S && RowOf(T, E, u) !in rows ==> u in done
        invariant EdgesRead(delta, output, states, t, done)
        decreases rows
      {
        var r :| r in rows;
        assert OwnRow(t, S, r);
        var s :| s in S && RowOf(T, E, s) == r;
        var ok;
        ok, delta, output := ReadEdges(states, s, done, delta, output);
        if !ok {
          return null, names;
        }
        RowsDone(delta, output, states, t, done, s, rows);
        rows := rows - {r};
        done := done + {s};
      }
      assert done == S;
      h := new MealyMachine(id, states.Values, (set a | a in alphabet), delta, output,
                            states[RowOf(T, E, GREETING)]);
      forall s, a | s in S && a in alphabet
        ensures RowInS(t, s + [a])
      {
        assert EdgeRead(delta, output, states, t, s, a);
        NamedIffRowInS(states, t, s + [a]);
      }
    }
  }

  /** How a learning run ends: with a machine, or with one of the exceptions of the source. */
  datatype Outcome = Learned(h: MealyMachine) | Stopped | ThresholdReached | LookupFailed

  class MealyLstar {
    const table: ObTable

    constructor (mq: MembershipOracle, retries: int)
      ensures fresh(table) && table.mq == mq && table.signals == mq.signals && table.alphabet == mq.alphabet
      ensures table.S == {GREETING} && table.E == LetterSuffixes(mq.alphabet) && table.T == map[]
    {
      table := new ObTable(mq, retries);
    }

    /**
     * Closes once, makes consistent once, and builds. A machine is only returned from a table that is
     * closed, consistent and faithful, although closing may return early without saying so. Unless the run
     * is stopped or gated, it ends with the lookup error exactly when closing gave up at an empty name.
     */
    method Run(id: string) returns (r: Outcome, ghost names: map<Row, State>)
      requires table.mq.signals == table.signals && Ready(table.mq.sut, table.Snapshot())
      modifies table`S, table`T, table.signals
      ensures r.Learned? ==>
                && fresh(r.h) && r.h.id == id && Consistent(table.Snapshot())
                && LearnedFrom(table.mq.sut, table.Snapshot(), r.h.Model(), names)
      ensures r.Stopped? ==> table.signals.stopSet
      ensures r.ThresholdReached? ==> table.signals.thresholdReached
      ensures !r.Stopped? && !r.ThresholdReached? ==>
                && (r.LookupFailed? <==> !EmptyNameKnown(table.Snapshot()))
                && (r.LookupFailed? <==> GivesUp(table.Snapshot()))
                && (old(Reached(table.mq.sut, table.Snapshot())) ==> Reached(table.mq.sut, table.Snapshot()))
    {
      names := map[];
      if table.signals.thresholdReached {
        return ThresholdReached, names;
      }
      var stopped := table.MakeClose();
      if stopped {
        return Stopped, names;
      }
      if table.signals.thresholdReached {
        return ThresholdReached, names;
      }
      stopped := table.MakeConsistent();
      if stopped {
        return Stopped, names;
      }
      if table.signals.thresholdReached {
        return ThresholdReached, names;
      }
      DistinctRowsAreConsistent(table.Snapshot());
      var h;
      h, names := table.BuildHypothesis(id);
      r := if h == null then LookupFailed else Learned(h);
    }
  }

  /** One learning iteration: a fresh table, its first fill, and the run. */
  method Learn(mq: MembershipOracle, retries: int, id: string)
    returns (r: Outcome, ghost t: Table, ghost names: map<Row, State>)
    requires Valid(mq.sut)
    modifies mq.signals
    ensures r.Learned? ==>
              && fresh(r.h) && r.h.id == id && t.alphabet == mq.alphabet
              && LearnedFrom(mq.sut, t, r.h.Model(), names)
    ensures r.Stopped? ==> mq.signals.stopSet
    ensures r.ThresholdReached? ==> mq.signals.thresholdReached
    ensures !r.Stopped? && !r.ThresholdReached? ==>
              && t.alphabet == mq.alphabet && Reached(mq.sut, t)
              && (r.LookupFailed? <==> !EmptyNameKnown(t)) && (r.LookupFailed? <==> GivesUp(t))
    ensures r.LookupFailed? ==> CanGetStuck(mq.sut, mq.alphabet)
  {
    var l := new MealyLstar(mq, retries);
    InitialTable(mq.sut, mq.alphabet);
    var stopped := l.table.FillTable();
    t, names := l.table.Snapshot(), map[];
    if stopped {
      return Stopped, t, names;
    }
    FirstIsReached(mq.sut, t);
    r, names := l.Run(id);
    t := l.table.Snapshot();
    if r.LookupFailed? {
      GivingUpIsStuck(mq.sut, t);
    }
  }

  lemma InitialTable(sut: Sut, alphabet: seq<Symbol>)
    requires Valid(sut)
    ensures Linked(sut, Table(alphabet, {GREETING}, LetterSuffixes(alphabet), map[]))
  {
    assert Rooted({GREETING}, alphabet, GREETING);
  }
}
