/** Breadth-first comparison of two Mealy machines. */
module EquOracle {
  import opened Prelude
  import opened Automata

  datatype Entry = Entry(left: State, right: State, path: Word)

  /** Reading `w` in both machines ends with two different outputs. */
  ghost predicate Differs(m1: Machine, m2: Machine, w: Word)
    requires Comparable(m1, m2) && Over(w, m1.alphabet) && w != []
  {
    LastOutput(m1, m1.alphabet, m1.start, w) != LastOutput(m2, m1.alphabet, m2.start, w)
  }

  /** What the comparison looks up: both machines are total over the first one's alphabet. */
  ghost predicate Comparable(m1: Machine, m2: Machine) {
    TotalOver(m1, m1.alphabet) && TotalOver(m2, m1.alphabet)
  }

  /** The pair of states both machines are in after `w`. */
  ghost function PairAfter(m1: Machine, m2: Machine, w: Word): (State, State)
    requires Comparable(m1, m2) && Over(w, m1.alphabet)
  {
    (After(m1, m1.alphabet, m1.start, w), After(m2, m1.alphabet, m2.start, w))
  }

  ghost predicate InStates(m1: Machine, m2: Machine, p: (State, State)) {
    p.0 in m1.states && p.1 in m2.states
  }

  ghost function Successor(m1: Machine, m2: Machine, p: (State, State), a: Symbol): (State, State)
    requires Comparable(m1, m2) && a in m1.alphabet && InStates(m1, m2, p)
  {
    assert Defined(m1, p.0, a) && Defined(m2, p.1, a);
    (m1.delta[(p.0, a)], m2.delta[(p.1, a)])
  }

  ghost predicate AgreeOn(m1: Machine, m2: Machine, p: (State, State), a: Symbol)
    requires Comparable(m1, m2) && a in m1.alphabet && InStates(m1, m2, p)
  {
    assert Defined(m1, p.0, a) && Defined(m2, p.1, a);
    m1.output[(p.0, a)] == m2.output[(p.1, a)]
  }

  /** Entries carry a word that leads both machines to the entry's states. */
  ghost predicate EntryOk(m1: Machine, m2: Machine, e: Entry)
    requires Comparable(m1, m2)
  {
    && Over(e.path, m1.alphabet)
    && PairAfter(m1, m2, e.path) == (e.left, e.right)
  }

  /** The queue is ordered by path length, spans two lengths at most, and starts no earlier than `low`. */
  ghost predicate QueueOk(m1: Machine, m2: Machine, q: seq<Entry>, low: nat)
    requires Comparable(m1, m2)
  {
    && (forall i :: 0 <= i < |q| ==> EntryOk(m1, m2, q[i]))
    && (forall i :: 0 <= i < |q| ==> low <= |q[i].path| <= low + 1)
    && (forall i, j :: 0 <= i < j < |q| ==> |q[i].path| <= |q[j].path|)
  }

  /** `p` was expanded, or waits in the queue, at a path length of at most `k`. */
  ghost predicate Scheduled(depth: map<(State, State), nat>, q: seq<Entry>, p: (State, State), k: nat) {
    || (p in depth && depth[p] <= k)
    || (exists i :: 0 <= i < |q| && (q[i].left, q[i].right) == p && |q[i].path| <= k)
  }

  /** Every expanded pair other than `open` has all its successors scheduled; `open` has those in `done`. */
  ghost predicate Expanded(m1: Machine, m2: Machine, depth: map<(State, State), nat>, q: seq<Entry>,
                           open: set<(State, State)>, done: set<Symbol>)
    requires Comparable(m1, m2)
  {
    forall p, a :: p in depth && a in m1.alphabet && (p in open ==> a in done) ==>
      && InStates(m1, m2, p)
      && AgreeOn(m1, m2, p, a)
      && Scheduled(depth, q, Successor(m1, m2, p, a), depth[p] + 1)
  }

  /** With nothing half expanded, every word's pair is scheduled no later than the word's length. */
  lemma {:induction false} EveryWordScheduled(
    m1: Machine, m2: Machine, depth: map<(State, State), nat>, q: seq<Entry>, w: Word)
    requires Comparable(m1, m2) && Over(w, m1.alphabet)
    requires Expanded(m1, m2, depth, q, {}, {})
    requires Scheduled(depth, q, (m1.start, m2.start), 0)
    ensures Scheduled(depth, q, PairAfter(m1, m2, w), |w|)
      || (exists i :: 0 <= i < |q| && |q[i].path| <= |w|)
    decreases |w|
  {
    if w != [] {
      var u, a := w[..|w| - 1], w[|w| - 1];
      EveryWordScheduled(m1, m2, depth, q, u);
      if PairAfter(m1, m2, u) in depth && depth[PairAfter(m1, m2, u)] <= |u| {
        assert Successor(m1, m2, PairAfter(m1, m2, u), a) == PairAfter(m1, m2, w);
      }
    }
  }

  /** A queue that starts at length `low` leaves no difference of length `low` or less. */
  lemma NoShortDifference(m1: Machine, m2: Machine, depth: map<(State, State), nat>, q: seq<Entry>, w: Word)
    requires Comparable(m1, m2) && Over(w, m1.alphabet) && w != []
    requires Expanded(m1, m2, depth, q, {}, {})
    requires Scheduled(depth, q, (m1.start, m2.start), 0)
    requires forall i :: 0 <= i < |q| ==> |w| <= |q[i].path|
    ensures !Differs(m1, m2, w)
  {
    var u, a := w[..|w| - 1], w[|w| - 1];
    EveryWordScheduled(m1, m2, depth, q, u);
    assert AgreeOn(m1, m2, PairAfter(m1, m2, u), a);
  }

  /** The whole loop invariant: see its parts. `open` is the pair under expansion, if any. */
  ghost predicate Invariant(m1: Machine, m2: Machine, depth: map<(State, State), nat>, q: seq<Entry>,
                            low: nat, open: set<(State, State)>, done: set<Symbol>)
    requires Comparable(m1, m2)
  {
    && QueueOk(m1, m2, q, low)
    && (forall p :: p in depth ==> depth[p] <= low)
    && Expanded(m1, m2, depth, q, open, done)
    && Scheduled(depth, q, (m1.start, m2.start), 0)
  }

  lemma Initially(m1: Machine, m2: Machine)
    requires Comparable(m1, m2)
    ensures Invariant(m1, m2, map[], [Entry(m1.start, m2.start, [])], 0, {}, {})
  {
    var q := [Entry(m1.start, m2.start, [])];
    assert (q[0].left, q[0].right) == (m1.start, m2.start);
  }

  /** Removing a queue entry whose pair is already expanded loses no schedule. */
  lemma DropVisited(m1: Machine, m2: Machine, depth: map<(State, State), nat>, q: seq<Entry>, low: nat)
    requires Comparable(m1, m2) && q != [] && Invariant(m1, m2, depth, q, low, {}, {})
    requires (q[0].left, q[0].right) in depth
    ensures Invariant(m1, m2, depth, q[1..], |q[0].path|, {}, {})
  {
    forall p, k: nat | Scheduled(depth, q, p, k)
      ensures Scheduled(depth, q[1..], p, k)
    {
      if !(p in depth && depth[p] <= k) {
        var i :| 0 <= i < |q| && (q[i].left, q[i].right) == p && |q[i].path| <= k;
        if i > 0 {
          assert q[1..][i - 1] == q[i];
        }
      }
    }
  }

  /** Moving the first entry from the queue to the expanded pairs keeps every schedule. */
  lemma PopUnvisited(m1: Machine, m2: Machine, depth: map<(State, State), nat>, q: seq<Entry>, low: nat)
    requires Comparable(m1, m2) && q != [] && Invariant(m1, m2, depth, q, low, {}, {})
    requires (q[0].left, q[0].right) !in depth
    ensures var p := (q[0].left, q[0].right);
            Invariant(m1, m2, depth[p := |q[0].path|], q[1..], |q[0].path|, {p}, {})
  {
    var depth' := depth[(q[0].left, q[0].right) := |q[0].path|];
    forall p, k: nat | Scheduled(depth, q, p, k)
      ensures Scheduled(depth', q[1..], p, k)
    {
      if !(p in depth && depth[p] <= k) {
        var i :| 0 <= i < |q| && (q[i].left, q[i].right) == p && |q[i].path| <= k;
        if i > 0 {
          assert q[1..][i - 1] == q[i];
        }
      }
    }
  }

  /** What was scheduled stays so when the queue grows. */
  lemma ScheduledStays(depth: map<(State, State), nat>, q: seq<Entry>, more: Entry, r: (State, State), k: nat)
    requires Scheduled(depth, q, r, k)
    ensures Scheduled(depth, q + [more], r, k)
  {
    if !(r in depth && depth[r] <= k) {
      var i :| 0 <= i < |q| && (q[i].left, q[i].right) == r && |q[i].path| <= k;
      assert (q + [more])[i] == q[i];
    }
  }

  lemma PushedIsOk(m1: Machine, m2: Machine, q: seq<Entry>, a: Symbol, path: Word)
    requires Comparable(m1, m2) && a in m1.alphabet && Over(path, m1.alphabet) && QueueOk(m1, m2, q, |path|)
    ensures var n := Successor(m1, m2, PairAfter(m1, m2, path), a);
            QueueOk(m1, m2, q + [Entry(n.0, n.1, path + [a])], |path|)
  {
    assert (path + [a])[..|path|] == path;
  }

  /** Appending the entry for the successor under `a` completes `a` for the open pair. */
  lemma PushSuccessor(m1: Machine, m2: Machine, depth: map<(State, State), nat>, q: seq<Entry>,
                      p: (State, State), done: set<Symbol>, a: Symbol, path: Word)
    requires Comparable(m1, m2) && a in m1.alphabet && Over(path, m1.alphabet)
    requires PairAfter(m1, m2, path) == p && p in depth && depth[p] == |path| && AgreeOn(m1, m2, p, a)
    requires Invariant(m1, m2, depth, q, |path|, {p}, done)
    ensures var n := Successor(m1, m2, p, a);
            Invariant(m1, m2, depth, q + [Entry(n.0, n.1, path + [a])], |path|, {p}, done + {a})
  {
    var n := Successor(m1, m2, p, a);
    var q' := q + [Entry(n.0, n.1, path + [a])];
    PushedIsOk(m1, m2, q, a, path);
    assert (q'[|q|].left, q'[|q|].right) == n;
    forall r, k: nat | Scheduled(depth, q, r, k)
      ensures Scheduled(depth, q', r, k)
    {
      ScheduledStays(depth, q, Entry(n.0, n.1, path + [a]), r, k);
    }
  }

  /** Once every letter is done, the open pair is an expanded pair like the others. */
  lemma CloseExpansion(m1: Machine, m2: Machine, depth: map<(State, State), nat>, q: seq<Entry>,
                       low: nat, p: (State, State))
    requires Comparable(m1, m2) && Invariant(m1, m2, depth, q, low, {p}, m1.alphabet)
    ensures Invariant(m1, m2, depth, q, low, {}, {})
  {
  }

  /** A difference found while expanding the first entry is a difference of minimum length. */
  lemma FirstDifference(m1: Machine, m2: Machine, depth: map<(State, State), nat>, q: seq<Entry>,
                        low: nat, a: Symbol)
    requires Comparable(m1, m2) && q != [] && a in m1.alphabet
    requires Invariant(m1, m2, depth, q, low, {}, {})
    requires !AgreeOn(m1, m2, (q[0].left, q[0].right), a)
    ensures Over(q[0].path + [a], m1.alphabet) && Differs(m1, m2, q[0].path + [a])
    ensures forall w :: w != [] && Over(w, m1.alphabet) && |w| <= |q[0].path| ==> !Differs(m1, m2, w)
  {
    assert (q[0].path + [a])[..|q[0].path|] == q[0].path;
    forall w | w != [] && Over(w, m1.alphabet) && |w| <= |q[0].path|
      ensures !Differs(m1, m2, w)
    {
      NoShortDifference(m1, m2, depth, q, w);
    }
  }

  /** An empty queue means that no word makes the machines differ. */
  lemma NoDifference(m1: Machine, m2: Machine, depth: map<(State, State), nat>, low: nat)
    requires Comparable(m1, m2) && Invariant(m1, m2, depth, [], low, {}, {})
    ensures forall w :: w != [] && Over(w, m1.alphabet) ==> !Differs(m1, m2, w)
  {
    forall w | w != [] && Over(w, m1.alphabet)
      ensures !Differs(m1, m2, w)
    {
      NoShortDifference(m1, m2, depth, [], w);
    }
  }

  ghost function AllPairs(m1: Machine, m2: Machine): set<(State, State)> {
    set p, r | p in m1.states && r in m2.states :: (p, r)
  }

  /**
   * Finds a shortest word on which the machines differ, or reports that there is none. The inner loop
   * takes the alphabet's symbols in any order.
   */
  method CompareMealy(m1: MealyMachine, m2: MealyMachine) returns (r: Option<Word>)
    requires Comparable(m1.Model(), m2.Model())
    ensures r.None? ==>
              forall w :: w != [] && Over(w, m1.alphabet) ==> !Differs(m1.Model(), m2.Model(), w)
    ensures r.Some? ==>
              && r.value != [] && Over(r.value, m1.alphabet)
              && Differs(m1.Model(), m2.Model(), r.value)
              && forall w :: w != [] && Over(w, m1.alphabet) && |w| < |r.value| ==>
                   !Differs(m1.Model(), m2.Model(), w)
  {
    ghost var g1, g2 := m1.Model(), m2.Model();
    var visited: set<(State, State)> := {};
    var q := [Entry(m1.start, m2.start, [])];
    ghost var depth: map<(State, State), nat> := map[];
    ghost var low: nat := 0;
    Initially(g1, g2);

    while q != []
      invariant visited == depth.Keys && visited <= AllPairs(g1, g2)
      invariant Invariant(g1, g2, depth, q, low, {}, {})
      decreases AllPairs(g1, g2) - visited, |q|
    {
      var Entry(s1, s2, path) := q[0];
      ghost var q0, depth0, low0 := q, depth, low;
      assert EntryOk(g1, g2, q[0]);
      q := q[1..];
      low := |path|;
      if (s1, s2) in visited {
        DropVisited(g1, g2, depth, q0, low0);
        continue;
      }
      visited := visited + {(s1, s2)};
      depth := depth[(s1, s2) := |path|];
      PopUnvisited(g1, g2, depth0, q0, low0);

      var todo := m1.alphabet;
      while todo != {}
        invariant todo <= m1.alphabet
        invariant Invariant(g1, g2, depth, q, low, {(s1, s2)}, m1.alphabet - todo)
        decreases todo
      {
        var a :| a in todo;
        ghost var done := m1.alphabet - todo;
        todo := todo - {a};
        assert Defined(g1, s1, a) && Defined(g2, s2, a);
        var n1, o1 := m1.delta[(s1, a)], m1.output[(s1, a)];
        var n2, o2 := m2.delta[(s2, a)], m2.output[(s2, a)];
        if o1 != o2 {
          FirstDifference(g1, g2, depth0, q0, low0, a);
          return Some(path + [a]);
        }
        PushSuccessor(g1, g2, depth, q, (s1, s2), done, a, path);
        assert done + {a} == m1.alphabet - todo;
        q := q + [Entry(n1, n2, path + [a])];
      }
      assert m1.alphabet - todo == m1.alphabet;
      CloseExpansion(g1, g2, depth, q, low, (s1, s2));
    }
    NoDifference(g1, g2, depth, low);
    return None;
  }
}
