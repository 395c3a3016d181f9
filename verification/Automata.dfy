/** Mealy machines as the learner, the equivalence oracle and the scheduler use them. */
module Automata {

  type Symbol = string
  type Word = seq<Symbol>
  type State = int

  /** The part of a Mealy machine that decides its behaviour. */
  datatype Machine = Machine(
    states: set<State>,
    alphabet: set<Symbol>,
    delta: map<(State, Symbol), State>,
    output: map<(State, Symbol), Symbol>,
    start: State)

  /** `m` looks up both an output and a successor of its own for `a` in `q`. */
  ghost predicate Defined(m: Machine, q: State, a: Symbol) {
    (q, a) in m.delta && (q, a) in m.output && m.delta[(q, a)] in m.states
  }

  /** Every state of `m` has a successor in `m` and an output for every symbol of `letters`. */
  ghost predicate TotalOver(m: Machine, letters: set<Symbol>) {
    && m.start in m.states
    && forall q, a :: q in m.states && a in letters ==> Defined(m, q, a)
  }

  ghost predicate Over(w: Word, letters: set<Symbol>) {
    forall i :: 0 <= i < |w| ==> w[i] in letters
  }

  /** The state reached from `q` by reading `w`. */
  ghost function After(m: Machine, letters: set<Symbol>, q: State, w: Word): (r: State)
    requires TotalOver(m, letters) && q in m.states && Over(w, letters)
    ensures r in m.states
  {
    if w == [] then q
    else
      assert Defined(m, After(m, letters, q, w[..|w| - 1]), w[|w| - 1]);
      m.delta[(After(m, letters, q, w[..|w| - 1]), w[|w| - 1])]
  }

  /** The output emitted for the last symbol of `w` when `w` is read from `q`. */
  ghost function LastOutput(m: Machine, letters: set<Symbol>, q: State, w: Word): Symbol
    requires TotalOver(m, letters) && q in m.states && Over(w, letters) && w != []
  {
    assert Defined(m, After(m, letters, q, w[..|w| - 1]), w[|w| - 1]);
    m.output[(After(m, letters, q, w[..|w| - 1]), w[|w| - 1])]
  }

  lemma ConcatFacts<T>(u: seq<T>, v: seq<T>, w: seq<T>)
    requires w != []
    ensures (v + w)[..|v + w| - 1] == v + w[..|w| - 1] && (v + w)[|v + w| - 1] == w[|w| - 1]
    ensures u + (v + w) == u + v + w
  {
  }

  lemma {:induction false} AfterConcat(m: Machine, letters: set<Symbol>, q: State, u: Word, v: Word)
    requires TotalOver(m, letters) && q in m.states && Over(u, letters) && Over(v, letters)
    ensures After(m, letters, q, u + v) == After(m, letters, After(m, letters, q, u), v)
    decreases |v|
  {
    if v == [] {
      assert u + v == u;
    } else {
      AfterConcat(m, letters, q, u, v[..|v| - 1]);
      assert (u + v)[..|u + v| - 1] == u + v[..|v| - 1];
    }
  }

  /** A machine object; the learner fills its tables and never changes them again. */
  class MealyMachine {
    var id: string
    var states: set<State>
    var alphabet: set<Symbol>
    var delta: map<(State, Symbol), State>
    var output: map<(State, Symbol), Symbol>
    var start: State

    ghost function Model(): Machine
      reads this
    {
      Machine(states, alphabet, delta, output, start)
    }

    constructor (id: string, states: set<State>, alphabet: set<Symbol>,
                 delta: map<(State, Symbol), State>, output: map<(State, Symbol), Symbol>, start: State)
      ensures Model() == Machine(states, alphabet, delta, output, start) && this.id == id
    {
      this.id := id;
      this.states := states;
      this.alphabet := alphabet;
      this.delta := delta;
      this.output := output;
      this.start := start;
    }

    /** Runs the machine on a word: one output per symbol, each the output for the prefix ending there. */
    method Run(word: Word) returns (outputs: seq<Symbol>)
      requires TotalOver(Model(), alphabet) && Over(word, alphabet)
      ensures |outputs| == |word|
      ensures forall i :: 0 <= i < |word| ==>
                outputs[i] == LastOutput(Model(), alphabet, start, word[..i + 1])
    {
      var state := start;
      outputs := [];
      for i := 0 to |word|
        invariant |outputs| == i
        invariant state == After(Model(), alphabet, start, word[..i])
        invariant forall j :: 0 <= j < i ==>
                    outputs[j] == LastOutput(Model(), alphabet, start, word[..j + 1])
      {
        assert word[..i + 1][..i] == word[..i];
        assert Defined(Model(), state, word[i]);
        outputs := outputs + [output[(state, word[i])]];
        state := delta[(state, word[i])];
      }
      assert word[..|word|] == word;
    }
  }
}
