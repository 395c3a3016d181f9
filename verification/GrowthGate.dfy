/** The no-growth gate of model learning, over whole runs of membership queries. */
module GrowthGate {
  import opened Prelude
  import opened Bytes
  import opened PartialGuidance

  // ----- The threshold -----

  /** The product, as repeated addition. */
  function Times(a: nat, b: nat): nat {
    if a == 0 then 0 else Times(a - 1, b) + b
  }

  lemma {:induction false} TimesIs(a: nat, b: nat)
    ensures Times(a, b) == a * b
  {
    if a > 0 {
      TimesIs(a - 1, b);
      assert a * b == (a - 1) * b + b;
    }
  }

  lemma {:induction false} TimesMonotone(a: nat, b: nat, c: nat, d: nat)
    requires a <= c && b <= d
    ensures Times(a, b) <= Times(c, d)
    decreases c
  {
    if a < c {
      TimesMonotone(a, b, c - 1, d);
    } else if a > 0 {
      TimesMonotone(a - 1, b, c - 1, d);
    }
  }

  /** The first `r` at or above `from` whose square reaches `n`. */
  function CeilSqrtFrom(n: nat, from: nat): nat
    decreases n - from
  {
    if from >= n || Times(from, from) >= n then from else CeilSqrtFrom(n, from + 1)
  }

  function CeilSqrt(n: nat): nat {
    CeilSqrtFrom(n, 0)
  }

  lemma {:induction false} CeilSqrtFromIsLeast(n: nat, from: nat)
    requires from == 0 || Times(from - 1, from - 1) < n
    ensures var r := CeilSqrtFrom(n, from);
            Times(r, r) >= n && (r == 0 || Times(r - 1, r - 1) < n)
    decreases n - from
  {
    if from >= n {
      if from > 0 {
        TimesMonotone(1, from, from, from);
        assert Times(1, from) == Times(0, from) + from == from;
      }
    } else if Times(from, from) < n {
      CeilSqrtFromIsLeast(n, from + 1);
    }
  }

  /** The square root rounded up. */
  lemma CeilSqrtIsLeast(n: nat)
    ensures CeilSqrt(n) * CeilSqrt(n) >= n
    ensures CeilSqrt(n) > 0 ==> (CeilSqrt(n) - 1) * (CeilSqrt(n) - 1) < n
  {
    CeilSqrtFromIsLeast(n, 0);
    var r := CeilSqrt(n);
    TimesIs(r, r);
    if r > 0 {
      TimesIs(r - 1, r - 1);
    }
  }

  lemma CeilSqrtMonotone(m: nat, n: nat)
    requires m <= n
    ensures CeilSqrt(m) <= CeilSqrt(n)
  {
    CeilSqrtFromIsLeast(m, 0);
    CeilSqrtFromIsLeast(n, 0);
    var a, b := CeilSqrt(m), CeilSqrt(n);
    if b < a {
      TimesMonotone(b, b, a - 1, a - 1);
    }
  }

  /** The least `k` such that 2 to the power of `k` reaches `n`. */
  function CeilLog2(n: nat): (k: nat)
    ensures n <= 1 <==> k == 0
  {
    if n <= 1 then 0 else 1 + CeilLog2((n + 1) / 2)
  }

  lemma {:induction false} CeilLog2IsLeast(n: nat)
    ensures Power2(CeilLog2(n)) >= n
    ensures CeilLog2(n) > 0 ==> Power2(CeilLog2(n) - 1) < n
  {
    if n > 1 {
      CeilLog2IsLeast((n + 1) / 2);
    }
  }

  lemma {:induction false} CeilLog2Monotone(m: nat, n: nat)
    requires m <= n
    ensures CeilLog2(m) <= CeilLog2(n)
  {
    if m > 1 {
      CeilLog2Monotone((m + 1) / 2, (n + 1) / 2);
    }
  }

  function RoundSize(inputs: nat, outputs: nat): nat {
    Max(inputs, CeilSqrt(Times(inputs, outputs)))
  }

  function Rounds(inputs: nat, outputs: nat): nat {
    Min(10, Max(4, CeilLog2(Times(inputs, outputs) + 1)))
  }

  /** The threshold for this many inputs and outputs, each counted as at least one. */
  function ThresholdFor(inputs: nat, outputs: nat): nat {
    Times(Rounds(Max(1, inputs), Max(1, outputs)), RoundSize(Max(1, inputs), Max(1, outputs)))
  }

  lemma RoundSizeMonotone(i: nat, o: nat, p: nat)
    requires o <= p
    ensures RoundSize(i, o) <= RoundSize(i, p)
  {
    TimesMonotone(i, o, i, p);
    CeilSqrtMonotone(Times(i, o), Times(i, p));
  }

  lemma RoundsMonotone(i: nat, o: nat, p: nat)
    requires o <= p
    ensures Rounds(i, o) <= Rounds(i, p)
  {
    TimesMonotone(i, o, i, p);
    CeilLog2Monotone(Times(i, o) + 1, Times(i, p) + 1);
  }

  /** More outputs never lower the threshold. */
  lemma ThresholdMonotone(inputs: nat, outputs: nat, more: nat)
    requires outputs <= more
    ensures ThresholdFor(inputs, outputs) <= ThresholdFor(inputs, more)
  {
    var i, o, p := Max(1, inputs), Max(1, outputs), Max(1, more);
    RoundSizeMonotone(i, o, p);
    RoundsMonotone(i, o, p);
    TimesMonotone(Rounds(i, o), RoundSize(i, o), Rounds(i, p), RoundSize(i, p));
  }

  lemma {:induction false} RoundsBetween(rounds: nat, size: nat, inputs: nat)
    requires 4 <= rounds <= 10 && inputs <= size
    ensures 4 * inputs <= Times(rounds, size) <= 10 * size
  {
    TimesMonotone(4, inputs, rounds, size);
    TimesMonotone(rounds, size, 10, size);
    TimesIs(4, inputs);
    TimesIs(10, size);
  }

  /** The threshold is between four and ten rounds, and a round has room for every request. */
  lemma ThresholdBounds(inputs: nat, outputs: nat)
    ensures 4 * Max(1, inputs) <= ThresholdFor(inputs, outputs)
    ensures ThresholdFor(inputs, outputs) <= 10 * RoundSize(Max(1, inputs), Max(1, outputs))
  {
    var i, o := Max(1, inputs), Max(1, outputs);
    RoundsBetween(Rounds(i, o), RoundSize(i, o), i);
  }

  // ----- One observation -----

  datatype Gate = Gate(alphabet: set<Symbol>, noGrowth: nat, reached: bool, threshold: nat, roundSize: nat,
                       rounds: nat)

  function Fresh(alphabet: set<Symbol>): Gate {
    Gate(alphabet - {"-"}, 0, false, 0, 0, 0)
  }

  function Updated(g: Gate, evidence: Graph, grew: bool): Gate {
    if g.reached || !(g.alphabet <= evidence.executedSymbols) then g
    else
      var inputs, outputs := Max(1, |g.alphabet|), Max(1, |evidence.responseSymbols|);
      var noGrowth := if grew then 0 else g.noGrowth + 1;
      var threshold := ThresholdFor(|g.alphabet|, |evidence.responseSymbols|);
      Gate(g.alphabet, noGrowth, noGrowth >= threshold, threshold, RoundSize(inputs, outputs),
           Rounds(inputs, outputs))
  }

  class ModelLearningThreshold {
    const alphabet: set<Symbol>
    var noGrowthMq: nat
    var reached: bool
    var threshold: nat
    var roundSize: nat
    var rounds: nat

    ghost function State(): Gate
      reads this
    {
      Gate(alphabet, noGrowthMq, reached, threshold, roundSize, rounds)
    }

    constructor (symbols: set<Symbol>)
      ensures State() == Fresh(symbols)
    {
      alphabet := symbols - {"-"};
      noGrowthMq, reached, threshold, roundSize, rounds := 0, false, 0, 0, 0;
    }

    /** Counts a query without growth once every request was sent, and closes at the threshold. */
    method Observe(recorder: PartialTraceRecorder, pairGrew: bool) returns (r: bool)
      modifies this
      ensures State() == Updated(old(State()), recorder.Evidence(), pairGrew) && r == reached
    {
      if reached {
        return true;
      }
      if !(alphabet <= recorder.executedSymbols) {
        return false;
      }
      roundSize, rounds, threshold := Scale(Max(1, |alphabet|), Max(1, |recorder.responseSymbols|));
      if pairGrew {
        noGrowthMq := 0;
      } else {
        noGrowthMq := noGrowthMq + 1;
      }
      reached := noGrowthMq >= threshold;
      return reached;
    }
  }

  /** The size of a round, the number of rounds, and their product. */
  method Scale(inputCount: nat, outputCount: nat) returns (roundSize: nat, rounds: nat, threshold: nat)
    ensures roundSize == RoundSize(inputCount, outputCount) && rounds == Rounds(inputCount, outputCount)
    ensures threshold == Times(rounds, roundSize)
  {
    TimesIs(inputCount, outputCount);
    var pairSpace := inputCount * outputCount;
    roundSize := Max(inputCount, CeilSqrt(pairSpace));
    rounds := Min(10, Max(4, CeilLog2(pairSpace + 1)));
    TimesIs(rounds, roundSize);
    threshold := roundSize * rounds;
  }

  /** One successful membership query: the recorder looks first, then the gate. */
  method ObserveQuery(recorder: PartialTraceRecorder, gate: ModelLearningThreshold, c: Conversation)
    modifies recorder, gate
    ensures recorder.Evidence() == Observed(old(recorder.Evidence()), c)
    ensures gate.State() == Updated(old(gate.State()), recorder.Evidence(), Grew(old(recorder.Evidence()), c))
  {
    var grew := recorder.Observe(c);
    var _ := gate.Observe(recorder, grew);
  }

  // ----- Runs -----

  ghost function EvidenceAfter(run: seq<Conversation>): Graph {
    if run == [] then Graph([], {}, {}, {})
    else Observed(EvidenceAfter(run[..|run| - 1]), run[|run| - 1])
  }

  ghost function GateAfter(alphabet: set<Symbol>, run: seq<Conversation>): Gate {
    if run == [] then Fresh(alphabet)
    else
      var before := run[..|run| - 1];
      Updated(GateAfter(alphabet, before), EvidenceAfter(run), LastGrew(run))
  }

  ghost predicate LastGrew(run: seq<Conversation>)
    requires run != []
  {
    Grew(EvidenceAfter(run[..|run| - 1]), run[|run| - 1])
  }

  /** Every request of the alphabet was sent by the end of the run. */
  ghost predicate Covered(alphabet: set<Symbol>, run: seq<Conversation>) {
    alphabet - {"-"} <= EvidenceAfter(run).executedSymbols
  }

  ghost function CurrentThreshold(alphabet: set<Symbol>, run: seq<Conversation>): nat {
    ThresholdFor(|alphabet - {"-"}|, |EvidenceAfter(run).responseSymbols|)
  }

  /** The queries since coverage, at the end of the run, in which nothing grew. */
  ghost function QuietTail(alphabet: set<Symbol>, run: seq<Conversation>): nat {
    if run == [] || !Covered(alphabet, run) || LastGrew(run) then 0
    else 1 + QuietTail(alphabet, run[..|run| - 1])
  }

  /** The queries observed with every request sent, and those among them that grew. */
  ghost function CoveredQueries(alphabet: set<Symbol>, run: seq<Conversation>): nat {
    if run == [] then 0
    else CoveredQueries(alphabet, run[..|run| - 1]) + (if Covered(alphabet, run) then 1 else 0)
  }

  ghost function Growths(alphabet: set<Symbol>, run: seq<Conversation>): nat {
    if run == [] then 0
    else Growths(alphabet, run[..|run| - 1]) + (if Covered(alphabet, run) && LastGrew(run) then 1 else 0)
  }

  /** Some moment of the run saw a full threshold of covered queries without growth. */
  ghost predicate Exhausted(alphabet: set<Symbol>, run: seq<Conversation>) {
    run != [] &&
    (|| Exhausted(alphabet, run[..|run| - 1])
     || (Covered(alphabet, run) && QuietTail(alphabet, run) >= CurrentThreshold(alphabet, run)))
  }

  /** While the gate is open, its counter is the quiet tail and its threshold the current one. */
  lemma {:induction false} OpenGate(alphabet: set<Symbol>, run: seq<Conversation>)
    ensures var g := GateAfter(alphabet, run);
            && g.alphabet == alphabet - {"-"}
            && (!g.reached ==>
                  && g.noGrowth == QuietTail(alphabet, run)
                  && (run != [] && Covered(alphabet, run) ==>
                        g.threshold == CurrentThreshold(alphabet, run) && g.noGrowth < g.threshold))
  {
    if run != [] {
      var before := run[..|run| - 1];
      OpenGate(alphabet, before);
      CoverageStays(alphabet, run);
    }
  }

  lemma {:induction false} CoverageStays(alphabet: set<Symbol>, run: seq<Conversation>)
    requires run != []
    ensures Covered(alphabet, run[..|run| - 1]) ==> Covered(alphabet, run)
    ensures !Covered(alphabet, run) ==> QuietTail(alphabet, run[..|run| - 1]) == 0
    ensures EvidenceAfter(run[..|run| - 1]).responseSymbols <= EvidenceAfter(run).responseSymbols
    ensures EvidenceAfter(run[..|run| - 1]).pairs <= EvidenceAfter(run).pairs
  {
  }

  /** The gate is reached exactly when some moment of the run was exhausted. */
  lemma {:induction false} ReachedIffExhausted(alphabet: set<Symbol>, run: seq<Conversation>)
    ensures GateAfter(alphabet, run).reached <==> Exhausted(alphabet, run)
  {
    if run != [] {
      var before := run[..|run| - 1];
      ReachedIffExhausted(alphabet, before);
      OpenGate(alphabet, before);
      CoverageStays(alphabet, run);
    }
  }

  /** The gate is never reached before every request was sent. */
  lemma {:induction false} NeverBeforeCoverage(alphabet: set<Symbol>, run: seq<Conversation>)
    requires GateAfter(alphabet, run).reached
    ensures Covered(alphabet, run)
  {
    if run != [] {
      OpenGate(alphabet, run[..|run| - 1]);
      CoverageStays(alphabet, run);
      if GateAfter(alphabet, run[..|run| - 1]).reached {
        NeverBeforeCoverage(alphabet, run[..|run| - 1]);
      }
    }
  }

  /** One more query leaves a reached gate alone and never lowers the threshold. */
  lemma {:induction false} GateStep(alphabet: set<Symbol>, run: seq<Conversation>)
    requires run != []
    ensures var g := GateAfter(alphabet, run[..|run| - 1]);
            && (g.reached ==> GateAfter(alphabet, run) == g)
            && g.threshold <= GateAfter(alphabet, run).threshold
  {
    var before := run[..|run| - 1];
    OpenGate(alphabet, before);
    CurrentGrows(alphabet, run);
    GateThresholdIsPast(alphabet, before);
  }

  /** Once reached the gate stays as it is, and its threshold never falls before that. */
  lemma {:induction false} GateLatches(alphabet: set<Symbol>, run: seq<Conversation>, k: nat)
    requires k <= |run|
    ensures GateAfter(alphabet, run[..k]).reached ==> GateAfter(alphabet, run) == GateAfter(alphabet, run[..k])
    ensures GateAfter(alphabet, run[..k]).threshold <= GateAfter(alphabet, run).threshold
  {
    if k == |run| {
      assert run[..k] == run;
    } else {
      var before := run[..|run| - 1];
      GateLatches(alphabet, before, k);
      assert before[..k] == run[..k];
      GateStep(alphabet, run);
    }
  }

  lemma CurrentGrows(alphabet: set<Symbol>, run: seq<Conversation>)
    requires run != []
    ensures CurrentThreshold(alphabet, run[..|run| - 1]) <= CurrentThreshold(alphabet, run)
  {
    CoverageStays(alphabet, run);
    SubsetSize(EvidenceAfter(run[..|run| - 1]).responseSymbols, EvidenceAfter(run).responseSymbols);
    ThresholdMonotone(|alphabet - {"-"}|, |EvidenceAfter(run[..|run| - 1]).responseSymbols|,
                      |EvidenceAfter(run).responseSymbols|);
  }

  /** The gate's threshold was current at some earlier moment, so it is at most the current one. */
  lemma {:induction false} GateThresholdIsPast(alphabet: set<Symbol>, run: seq<Conversation>)
    ensures GateAfter(alphabet, run).threshold <= CurrentThreshold(alphabet, run)
  {
    if run != [] {
      GateThresholdIsPast(alphabet, run[..|run| - 1]);
      OpenGate(alphabet, run[..|run| - 1]);
      CurrentGrows(alphabet, run);
    }
  }

  /** What one more query does to the three counts. */
  lemma CountStep(alphabet: set<Symbol>, run: seq<Conversation>)
    requires run != []
    ensures var before := run[..|run| - 1];
            var c, g, q := CoveredQueries(alphabet, before), Growths(alphabet, before), QuietTail(alphabet, before);
            var c', g', q' := CoveredQueries(alphabet, run), Growths(alphabet, run), QuietTail(alphabet, run);
            || (c' == c + 1 && g' == g + 1 && q' == 0)
            || (c' == c + 1 && g' == g && q' == q + 1)
            || (c' == c && g' == g && q' == q == 0)
  {
    CoverageStays(alphabet, run);
  }

  lemma {:induction false} FewStep(c: nat, g: nat, q: nat, t: nat, c': nat, g': nat, q': nat, t': nat)
    requires c <= Times(g, t) + q && q < t <= t'
    requires || (c' == c + 1 && g' == g + 1 && q' == 0)
             || (c' == c + 1 && g' == g && q' == q + 1)
             || (c' == c && g' == g && q' == q == 0)
    ensures c' <= Times(g', t') + q'
  {
    TimesMonotone(g, t, g, t');
  }

  /** While the gate is open, the covered queries are few: each growth pays for less than one threshold. */
  lemma {:induction false} OpenMeansFew(alphabet: set<Symbol>, run: seq<Conversation>)
    requires !GateAfter(alphabet, run).reached
    ensures CoveredQueries(alphabet, run)
            <= Times(Growths(alphabet, run), CurrentThreshold(alphabet, run)) + QuietTail(alphabet, run)
  {
    if run != [] {
      var before := run[..|run| - 1];
      OpenMeansFew(alphabet, before);
      CurrentGrows(alphabet, run);
      TailBelowThreshold(alphabet, before);
      CountStep(alphabet, run);
      FewStep(CoveredQueries(alphabet, before), Growths(alphabet, before), QuietTail(alphabet, before),
              CurrentThreshold(alphabet, before),
              CoveredQueries(alphabet, run), Growths(alphabet, run), QuietTail(alphabet, run),
              CurrentThreshold(alphabet, run));
    }
  }

  lemma {:induction false} TailBelowThreshold(alphabet: set<Symbol>, run: seq<Conversation>)
    requires !GateAfter(alphabet, run).reached
    ensures QuietTail(alphabet, run) < CurrentThreshold(alphabet, run)
  {
    OpenGate(alphabet, run);
    ThresholdBounds(|alphabet - {"-"}|, |EvidenceAfter(run).responseSymbols|);
  }

  /** Every growth adds a pair, so there are at most as many growths as distinct pairs. */
  lemma {:induction false} GrowthsAddPairs(alphabet: set<Symbol>, run: seq<Conversation>)
    ensures Growths(alphabet, run) <= |EvidenceAfter(run).pairs|
  {
    if run != [] {
      var before := run[..|run| - 1];
      GrowthsAddPairs(alphabet, before);
      CoverageStays(alphabet, run);
      SubsetSize(EvidenceAfter(before).pairs, EvidenceAfter(run).pairs);
      if LastGrew(run) {
        GrowthCount(EvidenceAfter(before).pairs, PairsOf(Kept(run[|run| - 1])));
      }
    }
  }

  /**
   * The gate is reached in time: while it is open, the covered queries make up less than one threshold
   * for each growth and one more, and so less than one for each distinct pair and one more.
   */
  lemma {:induction false} ReachedInTime(alphabet: set<Symbol>, run: seq<Conversation>)
    requires !GateAfter(alphabet, run).reached
    ensures Young(CoveredQueries(alphabet, run), Growths(alphabet, run), CurrentThreshold(alphabet, run),
                  |EvidenceAfter(run).pairs|)
  {
    var c, g, q := CoveredQueries(alphabet, run), Growths(alphabet, run), QuietTail(alphabet, run);
    var t, p := CurrentThreshold(alphabet, run), |EvidenceAfter(run).pairs|;
    assert c <= Times(g, t) + q && q < t && g <= p by {
      OpenMeansFew(alphabet, run);
      TailBelowThreshold(alphabet, run);
      GrowthsAddPairs(alphabet, run);
    }
    Few(c, g, q, t, p);
  }

  /** Fewer than a threshold `t` for each growth and one more, and for each pair and one more. */
  ghost predicate Young(queries: nat, growths: nat, t: nat, pairs: nat) {
    queries < (growths + 1) * t && queries < (pairs + 1) * t
  }

  lemma {:induction false} Few(c: nat, g: nat, q: nat, t: nat, p: nat)
    requires c <= Times(g, t) + q && q < t && g <= p
    ensures Young(c, g, t, p)
  {
    TimesIs(g + 1, t);
    TimesIs(p + 1, t);
    TimesMonotone(g + 1, t, p + 1, t);
  }
}
