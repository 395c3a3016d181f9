/**
 * The system under test as the learner sees it: a deterministic machine whose answer to a word stops
 * at the first abnormal output, and the oracle that asks it.
 */
module SystemUnderTest {
  import opened Prelude
  import opened Automata

  /** A deterministic system: states 0..size-1, a successor and one output for every request. */
  datatype Sut = Sut(size: nat, start: nat, next: (nat, Symbol) -> nat, out: (nat, Symbol) -> Symbol)

  ghost predicate Valid(sut: Sut) {
    && sut.start < sut.size
    && forall q: nat, a :: q < sut.size ==> sut.next(q, a) < sut.size
  }

  /** The sink completion: after an abnormal output `x` the conversation is over and stays at `x`. */
  datatype Config = Live(q: nat) | Sunk(x: Symbol)

  ghost function Emit(sut: Sut, c: Config, a: Symbol): Symbol {
    match c
    case Live(q) => sut.out(q, a)
    case Sunk(x) => x
  }

  ghost function Step(sut: Sut, c: Config, a: Symbol): Config {
    match c
    case Live(q) => if sut.out(q, a) in ABNORMAL then Sunk(sut.out(q, a)) else Live(sut.next(q, a))
    case Sunk(x) => c
  }

  ghost function ConfigAfter(sut: Sut, w: Word): Config {
    if w == [] then Live(sut.start) else Step(sut, ConfigAfter(sut, w[..|w| - 1]), w[|w| - 1])
  }

  /** The completed system's output for the last symbol of `w`. */
  ghost function LastOut(sut: Sut, w: Word): Symbol
    requires w != []
  {
    Emit(sut, ConfigAfter(sut, w[..|w| - 1]), w[|w| - 1])
  }

  /** What a membership query returns: one output a symbol, up to and including the first abnormal one. */
  ghost function Answer(sut: Sut, w: Word): seq<Symbol> {
    if w == [] then []
    else
      var u := w[..|w| - 1];
      match ConfigAfter(sut, u)
      case Live(q) => Answer(sut, u) + [sut.out(q, w[|w| - 1])]
      case Sunk(_) => Answer(sut, u)
  }

  lemma {:induction false} AfterSnoc(sut: Sut, w: Word, a: Symbol)
    ensures ConfigAfter(sut, w + [a]) == Step(sut, ConfigAfter(sut, w), a)
    ensures LastOut(sut, w + [a]) == Emit(sut, ConfigAfter(sut, w), a)
  {
    assert (w + [a])[..|w|] == w;
  }

  /** After a word, the completed system is sunk exactly when the last output was abnormal. */
  lemma {:induction false} SunkIffAbnormal(sut: Sut, w: Word)
    requires w != []
    ensures ConfigAfter(sut, w).Sunk? <==> LastOut(sut, w) in ABNORMAL
    ensures ConfigAfter(sut, w).Sunk? ==> ConfigAfter(sut, w).x == LastOut(sut, w)
  {
    var u := w[..|w| - 1];
    if u == [] {
      assert ConfigAfter(sut, u) == Live(sut.start);
    } else {
      SunkIffAbnormal(sut, u);
    }
  }

  /**
   * The last entry of a query's answer is the completed system's last output, however early the
   * conversation ended; and the answer is full length as long as the prefix before the last symbol
   * drew no abnormal output.
   */
  lemma {:induction false} AnswerEndsWithLastOut(sut: Sut, w: Word)
    requires w != []
    ensures 0 < |Answer(sut, w)| <= |w|
    ensures Answer(sut, w)[|Answer(sut, w)| - 1] == LastOut(sut, w)
    ensures ConfigAfter(sut, w[..|w| - 1]).Live? ==> |Answer(sut, w)| == |w|
  {
    var u := w[..|w| - 1];
    if u != [] {
      AnswerEndsWithLastOut(sut, u);
      SunkIffAbnormal(sut, u);
    }
  }

  /** One completed configuration a state, and one for each abnormal symbol. */
  ghost function Configs(sut: Sut): set<Config> {
    (set q: nat | q < sut.size :: Live(q)) + (set x | x in ABNORMAL :: Sunk(x))
  }

  lemma {:induction false} AfterInConfigs(sut: Sut, w: Word)
    requires Valid(sut)
    ensures ConfigAfter(sut, w) in Configs(sut)
  {
    if w != [] {
      AfterInConfigs(sut, w[..|w| - 1]);
      if ConfigAfter(sut, w).Sunk? && ConfigAfter(sut, w[..|w| - 1]).Live? {
        assert ConfigAfter(sut, w).x in ABNORMAL;
      }
    }
  }

  lemma {:induction false} LiveCount(n: nat)
    ensures |set q: nat | q < n :: Live(q)| == n
  {
    var s := set q: nat | q < n :: Live(q);
    if n == 0 {
      assert s == {};
    } else {
      LiveCount(n - 1);
      assert s == (set q: nat | q < n - 1 :: Live(q)) + {Live(n - 1)};
    }
  }

  /** The sink completion has four configurations more than the system has states. */
  lemma ConfigCount(sut: Sut)
    ensures |Configs(sut)| == sut.size + 4
  {
    LiveCount(sut.size);
    var sinks := set x | x in ABNORMAL :: Sunk(x);
    assert sinks == {Sunk("CRASH"), Sunk("TIMEOUT"), Sunk("CLOSED"), Sunk("POLLERR")};
    assert "CRASH"[1] != "CLOSED"[1];
    assert |sinks| == 4;
  }

  /** Flags other threads raise while the learner runs; once raised they stay raised. */
  class Signals {
    var stopSet: bool
    var thresholdReached: bool

    constructor ()
    {
      stopSet, thresholdReached := *, *;
    }

    /** The watcher thread, the deadline and the no-growth gate may act at any time. */
    method Poll()
      modifies this
      ensures old(stopSet) ==> stopSet
      ensures old(thresholdReached) ==> thresholdReached
    {
      if * {
        stopSet := true;
      }
      if * {
        thresholdReached := true;
      }
    }

    method RaiseStop()
      modifies this`stopSet
      ensures stopSet
    {
      stopSet := true;
    }
  }

  class MembershipOracle {
    const sut: Sut
    const alphabet: seq<Symbol>
    const signals: Signals

    constructor (sut: Sut, alphabet: seq<Symbol>, signals: Signals)
      ensures this.sut == sut && this.alphabet == alphabet && this.signals == signals
    {
      this.sut := sut;
      this.alphabet := alphabet;
      this.signals := signals;
    }

    /** Sends `word`, one request at a time, until an abnormal response ends the conversation. */
    method Interact(word: Word) returns (out: seq<Symbol>)
      ensures out == Answer(sut, word)
    {
      out := [];
      var q := sut.start;
      for i := 0 to |word|
        invariant ConfigAfter(sut, word[..i]) == Live(q)
        invariant out == Answer(sut, word[..i])
      {
        assert word[..i + 1][..i] == word[..i];
        var o := sut.out(q, word[i]);
        out := out + [o];
        if o in ABNORMAL {
          AnswerStopsGrowing(sut, word[..i + 1], word[i + 1..]);
          assert word[..i + 1] + word[i + 1..] == word;
          return;
        }
        q := sut.next(q, word[i]);
      }
      assert word[..|word|] == word;
    }

    /** One membership query: three attempts, any of which may fail to produce a conversation. */
    method Query(word: Word) returns (out: seq<Symbol>, ghost failures: nat)
      modifies signals
      ensures failures <= 3 && out == if failures == 3 then [] else Answer(sut, word)
      ensures old(signals.stopSet) ==> signals.stopSet
      ensures old(signals.thresholdReached) ==> signals.thresholdReached
    {
      failures := 0;
      for i := 0 to 3
        invariant failures == i
        invariant old(signals.stopSet) ==> signals.stopSet
        invariant old(signals.thresholdReached) ==> signals.thresholdReached
      {
        signals.Poll();
        if * {
          out := Interact(word);
          return;
        }
        failures := failures + 1;
      }
      return [], failures;
    }
  }

  /** Once the conversation has ended, further requests add nothing to the answer. */
  lemma {:induction false} AnswerStopsGrowing(sut: Sut, u: Word, v: Word)
    requires ConfigAfter(sut, u).Sunk?
    ensures ConfigAfter(sut, u + v) == ConfigAfter(sut, u) && Answer(sut, u + v) == Answer(sut, u)
    decreases |v|
  {
    if v == [] {
      assert u + v == u;
    } else {
      AnswerStopsGrowing(sut, u, v[..|v| - 1]);
      assert (u + v)[..|u + v| - 1] == u + v[..|v| - 1];
    }
  }
}
