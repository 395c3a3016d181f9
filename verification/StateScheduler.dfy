/** The scheduler's statistics for machine states: priority scores, selection, and reward feedback. */
module StateScheduler {
  import opened Prelude
  import opened Automata
  import opened SystemUnderTest
  import opened ObservationTable
  import opened Hypothesis
  import opened Exactness
  import opened AccessSequences

  datatype StateStats = StateStats(
    stateId: State,
    depth: nat,
    callCount: nat,
    totalReward: real,
    outDegree: nat,
    covered: set<Symbol>,
    lastScore: real)

  type Explore = (nat, nat) -> real

  /** The exploration term of the source is a square root, which is never negative. */
  ghost predicate NonNegative(explore: Explore) {
    forall total, calls {:trigger explore(total, calls)} :: explore(total, calls) >= 0.0
  }

  function Outgoing(m: Machine, q: State): set<Symbol> {
    set k | k in m.delta.Keys && k.0 == q :: k.1
  }

  /** The states a run of the machine can be in. */
  function KnownStates(m: Machine): set<State> {
    {m.start} + m.delta.Values
  }

  function RequestsOf(w: Word): Word {
    if w == [] then []
    else RequestsOf(w[..|w| - 1]) + (if w[|w| - 1] == "-" then [] else [w[|w| - 1]])
  }

  // ----- Scores -----

  function MaxReal(a: real, b: real): real {
    if a < b then b else a
  }

  /** The largest of some values that are not negative, and 0 for none. */
  function Largest(values: seq<real>): (r: real)
    ensures r >= 0.0
    ensures forall i :: 0 <= i < |values| ==> values[i] <= r
    ensures r == 0.0 || r in values
  {
    if values == [] then 0.0
    else
      var r := Largest(values[..|values| - 1]);
      if r < values[|values| - 1] then values[|values| - 1] else r
  }

  function AverageReward(s: StateStats): real {
    s.totalReward / Max(s.callCount, 1) as real
  }

  function TotalCalls(all: seq<StateStats>): nat {
    if all == [] then 0 else TotalCalls(all[..|all| - 1]) + all[|all| - 1].callCount
  }

  function Averages(all: seq<StateStats>): seq<real> {
    seq(|all|, i requires 0 <= i < |all| => AverageReward(all[i]))
  }

  function Explorations(all: seq<StateStats>, explore: Explore): seq<real> {
    var total := TotalCalls(all);
    seq(|all|, i requires 0 <= i < |all| => explore(total, all[i].callCount))
  }

  function Depths(all: seq<StateStats>): seq<real> {
    seq(|all|, i requires 0 <= i < |all| => all[i].depth as real)
  }

  function OutDegrees(all: seq<StateStats>): seq<real> {
    seq(|all|, i requires 0 <= i < |all| => all[i].outDegree as real)
  }

  /** A value relative to the largest, 0 when nothing is positive. */
  function Normalized(x: real, largest: real): real {
    if largest > 0.0 then x / largest else 0.0
  }

  function Structure(s: StateStats, all: seq<StateStats>): real {
    var depth := s.depth as real / MaxReal(Largest(Depths(all)), 1.0);
    var uncovered := (s.outDegree - |s.covered|) as real / MaxReal(Largest(OutDegrees(all)), 1.0);
    (depth + uncovered) / 2.0
  }

  /** Reward, exploration and structure, equally weighted. */
  function Score(s: StateStats, all: seq<StateStats>, explore: Explore): real {
    (Normalized(AverageReward(s), Largest(Averages(all)))
     + Normalized(explore(TotalCalls(all), s.callCount), Largest(Explorations(all, explore)))
     + Structure(s, all)) / 3.0
  }

  lemma RatioIsUnit(x: real, y: real)
    requires 0.0 <= x <= y && 0.0 < y
    ensures 0.0 <= x / y <= 1.0
  {
    assert x / y <= y / y == 1.0;
  }

  lemma NormalizedIsUnit(x: real, largest: real)
    requires 0.0 <= x <= largest
    ensures 0.0 <= Normalized(x, largest) <= 1.0
  {
    if largest > 0.0 {
      RatioIsUnit(x, largest);
    }
  }

  predicate SaneStats(s: StateStats) {
    s.totalReward >= 0.0 && |s.covered| <= s.outDegree
  }

  lemma StructureIsUnit(all: seq<StateStats>, k: nat)
    requires k < |all| && SaneStats(all[k])
    ensures 0.0 <= Structure(all[k], all) <= 1.0
  {
    var s := all[k];
    var deepest, widest := MaxReal(Largest(Depths(all)), 1.0), MaxReal(Largest(OutDegrees(all)), 1.0);
    assert Depths(all)[k] <= deepest && OutDegrees(all)[k] <= widest;
    RatioIsUnit(s.depth as real, deepest);
    RatioIsUnit((s.outDegree - |s.covered|) as real, widest);
  }

  lemma AverageNotNegative(s: StateStats)
    requires SaneStats(s)
    ensures AverageReward(s) >= 0.0
  {
    var n := Max(s.callCount, 1) as real;
    assert n > 0.0 && s.totalReward / n >= 0.0;
  }

  /** Every priority score lies between 0 and 1. */
  lemma ScoreIsUnit(all: seq<StateStats>, k: nat, explore: Explore)
    requires k < |all| && SaneStats(all[k]) && NonNegative(explore)
    ensures 0.0 <= Score(all[k], all, explore) <= 1.0
  {
    var s, total := all[k], TotalCalls(all);
    AverageNotNegative(s);
    assert Averages(all)[k] == AverageReward(s) && Explorations(all, explore)[k] == explore(total, s.callCount);
    NormalizedIsUnit(AverageReward(s), Largest(Averages(all)));
    NormalizedIsUnit(explore(total, s.callCount), Largest(Explorations(all, explore)));
    StructureIsUnit(all, k);
  }

  /** A part of a score is full when it reaches the largest of its kind, and that is not zero. */
  predicate Full(x: real, largest: real) {
    x == largest && largest > 0.0
  }

  lemma FullIffOne(x: real, largest: real)
    requires 0.0 <= x <= largest
    ensures Normalized(x, largest) == 1.0 <==> Full(x, largest)
  {
    if largest > 0.0 {
      assert x / largest == 1.0 <==> x == largest;
    }
  }

  /** The state is the deepest and the one with most uncovered requests, covers none, and neither is zero. */
  predicate FullStructure(s: StateStats, all: seq<StateStats>) {
    && Full(s.depth as real, Largest(Depths(all)))
    && s.covered == {} && Full(s.outDegree as real, Largest(OutDegrees(all)))
  }

  lemma RatioIsOne(x: real, largest: real)
    requires 0.0 <= x <= largest && (largest == 0.0 || largest >= 1.0)
    ensures 0.0 <= x / MaxReal(largest, 1.0) <= 1.0
    ensures x / MaxReal(largest, 1.0) == 1.0 <==> Full(x, largest)
  {
    RatioIsUnit(x, MaxReal(largest, 1.0));
    if largest > 0.0 {
      assert x / largest == 1.0 <==> x == largest;
    }
  }

  lemma {:induction false} LargestIsCount(values: seq<real>)
    requires forall i :: 0 <= i < |values| ==> values[i] == 0.0 || values[i] >= 1.0
    ensures Largest(values) == 0.0 || Largest(values) >= 1.0
  {
  }

  /** The largest depth and the largest number of requests are whole numbers that bound a state's own. */
  lemma LargestCounts(all: seq<StateStats>, k: nat)
    requires k < |all|
    ensures var d, w := Largest(Depths(all)), Largest(OutDegrees(all));
            && (d == 0.0 || d >= 1.0) && all[k].depth as real <= d
            && (w == 0.0 || w >= 1.0) && all[k].outDegree as real <= w
  {
    assert Depths(all)[k] == all[k].depth as real && OutDegrees(all)[k] == all[k].outDegree as real;
    LargestIsCount(Depths(all));
    LargestIsCount(OutDegrees(all));
  }

  lemma UncoveredIsFull(s: StateStats, widest: real)
    requires SaneStats(s) && s.outDegree as real <= widest
    ensures 0.0 <= (s.outDegree - |s.covered|) as real <= widest
    ensures Full((s.outDegree - |s.covered|) as real, widest) <==> s.covered == {} && Full(s.outDegree as real, widest)
  {
    assert |s.covered| == 0 <==> s.covered == {};
  }

  lemma HalvesAreOne(a: real, b: real, fullA: bool, fullB: bool)
    requires 0.0 <= a <= 1.0 && 0.0 <= b <= 1.0 && (a == 1.0 <==> fullA) && (b == 1.0 <==> fullB)
    ensures (a + b) / 2.0 == 1.0 <==> fullA && fullB
  {
  }

  lemma FullStructureIffOne(all: seq<StateStats>, k: nat)
    requires k < |all| && SaneStats(all[k])
    ensures Structure(all[k], all) == 1.0 <==> FullStructure(all[k], all)
  {
    var s := all[k];
    var depth, uncovered := s.depth as real, (s.outDegree - |s.covered|) as real;
    var d, w := Largest(Depths(all)), Largest(OutDegrees(all));
    LargestCounts(all, k);
    UncoveredIsFull(s, w);
    RatioIsOne(depth, d);
    RatioIsOne(uncovered, w);
    HalvesAreOne(depth / MaxReal(d, 1.0), uncovered / MaxReal(w, 1.0), Full(depth, d), Full(uncovered, w));
  }

  /** A state scores 1 exactly when it is best in reward, in exploration, in depth and in uncovered requests. */
  lemma {:induction false} ScoreIsOneIffBest(all: seq<StateStats>, k: nat, explore: Explore)
    requires k < |all| && SaneStats(all[k]) && NonNegative(explore)
    ensures Score(all[k], all, explore) == 1.0 <==>
            && Full(AverageReward(all[k]), Largest(Averages(all)))
            && Full(explore(TotalCalls(all), all[k].callCount), Largest(Explorations(all, explore)))
            && FullStructure(all[k], all)
  {
    var s, total := all[k], TotalCalls(all);
    AverageNotNegative(s);
    assert Averages(all)[k] == AverageReward(s) && Explorations(all, explore)[k] == explore(total, s.callCount);
    NormalizedIsUnit(AverageReward(s), Largest(Averages(all)));
    NormalizedIsUnit(explore(total, s.callCount), Largest(Explorations(all, explore)));
    StructureIsUnit(all, k);
    FullIffOne(AverageReward(s), Largest(Averages(all)));
    FullIffOne(explore(total, s.callCount), Largest(Explorations(all, explore)));
    FullStructureIffOne(all, k);
  }

  // ----- The scheduler -----

  /** `math.isclose` with a relative and an absolute tolerance of one in a million million. */
  predicate IsClose(a: real, b: real) {
    var gap := if a < b then b - a else a - b;
    var size := MaxReal(if a < 0.0 then -a else a, if b < 0.0 then -b else b);
    gap <= MaxReal(TOLERANCE * size, TOLERANCE)
  }

  const TOLERANCE := 0.000000000001

  lemma CloseScores(a: real, best: real)
    requires IsClose(a, best) && 0.0 <= a <= 1.0 && 0.0 <= best <= 1.0
    ensures a >= best - TOLERANCE
  {
  }

  /** What one round of feedback reports about a state. */
  datatype Feedback = Feedback(requests: Word, prefixLength: nat, transitionIncrement: int, responseIncrement: int,
                               responses: set<Symbol>, bugSignal: bool)

  function Reward(discovered: bool, f: Feedback): real {
    var crashed := "CRASH" in f.responses;
    (if discovered then 1.0 else 0.0)
    + (if f.transitionIncrement > 0 then 0.7 else 0.0)
    + (if f.responseIncrement > 0 then 0.5 else 0.0)
    + (if crashed then 2.0 else 0.0)
    + (if crashed || f.bugSignal then 5.0 else 0.0)
  }

  predicate ShowsBug(f: Feedback) {
    "CRASH" in f.responses || f.bugSignal
  }

  /**
   * Whatever else a round brought, a bug is worth more than everything a round without one can bring
   * together, a crash more than a bug signal, and a discovery more than either kind of growth.
   */
  lemma BugsOutweigh(d: bool, f: Feedback, e: bool, g: Feedback)
    ensures 0.0 <= Reward(d, f) <= 9.2
    ensures ShowsBug(f) && !ShowsBug(g) ==> Reward(d, f) > 2.0 * Reward(e, g)
    ensures "CRASH" in f.responses && "CRASH" !in g.responses && d == e
            && f.transitionIncrement == g.transitionIncrement && f.responseIncrement == g.responseIncrement ==>
              Reward(d, f) >= Reward(e, g) + 2.0
    ensures !ShowsBug(f) && !ShowsBug(g) && d && !e && (g.transitionIncrement <= 0 || g.responseIncrement <= 0) ==>
              Reward(d, f) > Reward(e, g)
  {
  }

  /** The requests sent begin with the ones that lead to the selected state. */
  predicate TargetReached(state: Word, f: Feedback) {
    f.requests[..if f.prefixLength <= |f.requests| then f.prefixLength else |f.requests|] == RequestsOf(state)
  }

  /** The states this round showed to be reached: the selected one and the one its next request leads to. */
  function Shown(m: Machine, q: State, f: Feedback): set<State> {
    {q} + (if f.prefixLength < |f.requests| && (q, f.requests[f.prefixLength]) in m.delta
           then {m.delta[(q, f.requests[f.prefixLength])]} else {})
  }

  function NewlyCovered(m: Machine, q: State, f: Feedback): set<Symbol> {
    if f.prefixLength < |f.requests| && f.requests[f.prefixLength] in Outgoing(m, q)
    then {f.requests[f.prefixLength]} else {}
  }

  /** The statistics kept for an access sequence. */
  ghost predicate StatsOf(m: Machine, w: Word, s: StateStats) {
    && Reaches(m, w, s.stateId) && s.depth == Depth(w)
    && s.covered <= Outgoing(m, s.stateId) && s.outDegree == |Outgoing(m, s.stateId)|
    && s.totalReward >= 0.0
  }

  predicate Listed(states: seq<Word>, stats: map<Word, StateStats>) {
    && (forall w :: w in states ==> w in stats)
    && (forall w :: w in stats ==> w in states)
  }

  function StatsList(states: seq<Word>, stats: map<Word, StateStats>): (all: seq<StateStats>)
    requires Listed(states, stats)
  {
    seq(|states|, i requires 0 <= i < |states| && states[i] in stats => stats[states[i]])
  }

  /** Statistics are kept for exactly the listed states, and fit the machine. */
  ghost predicate StatsValid(m: Machine, states: seq<Word>, stats: map<Word, StateStats>) {
    && Listed(states, stats)
    && forall w {:trigger StatsOf(m, w, stats[w])} :: w in stats ==> StatsOf(m, w, stats[w])
  }

  lemma UpdateValid(m: Machine, states: seq<Word>, stats: map<Word, StateStats>, w: Word, s: StateStats)
    requires StatsValid(m, states, stats) && w in stats && StatsOf(m, w, s)
    ensures StatsValid(m, states, stats[w := s])
  {
    forall u | u in stats
      ensures StatsOf(m, u, stats[w := s][u])
    {
      assert StatsOf(m, u, stats[u]);
    }
  }

  /** The score of `w` among all the statistics. */
  function ScoreAmong(states: seq<Word>, stats: map<Word, StateStats>, w: Word, explore: Explore): real
    requires Listed(states, stats) && w in stats
  {
    Score(stats[w], StatsList(states, stats), explore)
  }

  lemma ScoreAmongIsUnit(m: Machine, states: seq<Word>, stats: map<Word, StateStats>, w: Word, explore: Explore)
    requires StatsValid(m, states, stats) && w in stats && NonNegative(explore)
    ensures 0.0 <= ScoreAmong(states, stats, w, explore) <= 1.0
  {
    var k :| 0 <= k < |states| && states[k] == w;
    StatsAreSane(m, w, stats[w]);
    ScoreIsUnit(StatsList(states, stats), k, explore);
  }

  lemma RescoredScores(m: Machine, states: seq<Word>, before: map<Word, StateStats>, after: map<Word, StateStats>,
                       w: Word, explore: Explore)
    requires StatsValid(m, states, before) && Rescored(before, after) && w in before
    ensures StatsValid(m, states, after)
    ensures ScoreAmong(states, after, w, explore) == ScoreAmong(states, before, w, explore)
  {
    forall u | u in after
      ensures StatsOf(m, u, after[u])
    {
      assert StatsOf(m, u, before[u]) && SameButScore(before[u], after[u]);
    }
    var all, now := StatsList(states, before), StatsList(states, after);
    forall i | 0 <= i < |all|
      ensures SameButScore(all[i], now[i])
    {
    }
    ScoreIgnoresScores(all, now, before[w], after[w], explore);
  }

  /** The scores of the words, in order. */
  ghost predicate Scored(scores: seq<real>, ws: seq<Word>, states: seq<Word>, stats: map<Word, StateStats>,
                         explore: Explore)
    requires Listed(states, stats)
    decreases |ws|
  {
    && |scores| == |ws|
    && (ws == [] ||
        (&& ws[|ws| - 1] in stats && scores[|ws| - 1] == ScoreAmong(states, stats, ws[|ws| - 1], explore)
         && Scored(scores[..|ws| - 1], ws[..|ws| - 1], states, stats, explore)))
  }

  /** No state's score is better by more than the tolerance. */
  ghost predicate BestAmong(states: seq<Word>, stats: map<Word, StateStats>, best: Word, explore: Explore)
    requires Listed(states, stats) && best in stats
  {
    forall w :: w in states ==>
      ScoreAmong(states, stats, best, explore) >= ScoreAmong(states, stats, w, explore) - TOLERANCE
  }

  lemma {:induction false} ScoredAt(scores: seq<real>, ws: seq<Word>, states: seq<Word>, stats: map<Word, StateStats>,
                                    explore: Explore, j: nat)
    requires Listed(states, stats) && Scored(scores, ws, states, stats, explore) && j < |ws|
    ensures ws[j] in stats && scores[j] == ScoreAmong(states, stats, ws[j], explore)
    decreases |ws|
  {
    if j < |ws| - 1 {
      ScoredAt(scores[..|ws| - 1], ws[..|ws| - 1], states, stats, explore, j);
    }
  }

  lemma {:induction false} ScoresAreUnit(
    m: Machine, states: seq<Word>, stats: map<Word, StateStats>, scores: seq<real>, explore: Explore)
    requires StatsValid(m, states, stats) && NonNegative(explore) && Scored(scores, states, states, stats, explore)
    ensures forall j :: 0 <= j < |scores| ==> 0.0 <= scores[j] <= 1.0
  {
    forall j | 0 <= j < |scores|
      ensures 0.0 <= scores[j] <= 1.0
    {
      ScoredAt(scores, states, states, stats, explore, j);
      ScoreAmongIsUnit(m, states, stats, states[j], explore);
    }
  }

  lemma {:induction false} BestPicked(
    states: seq<Word>, stats: map<Word, StateStats>, scores: seq<real>, k: nat, explore: Explore)
    requires Listed(states, stats) && Scored(scores, states, states, stats, explore) && k < |scores|
    requires forall j :: 0 <= j < |scores| ==> scores[k] >= scores[j] - TOLERANCE
    ensures BestAmong(states, stats, states[k], explore)
  {
    ScoredAt(scores, states, states, stats, explore, k);
    forall w | w in states
      ensures ScoreAmong(states, stats, states[k], explore) >= ScoreAmong(states, stats, w, explore) - TOLERANCE
    {
      var j :| 0 <= j < |states| && states[j] == w;
      ScoredAt(scores, states, states, stats, explore, j);
    }
  }

  class Berserker {
    const machine: Machine
    const explore: Explore
    var states: seq<Word>
    var stateStats: map<Word, StateStats>
    var selected: Option<Word>
    var visited: set<State>
    /** How many times the discovery bonus was paid. */
    ghost var paid: nat

    ghost predicate Valid()
      reads this
    {
      && NonNegative(explore)
      && StatsValid(machine, states, stateStats)
      && (selected.Some? ==> selected.value in stateStats)
      && machine.start in visited && visited <= KnownStates(machine)
      && paid < |visited|
    }

    constructor (machine: Machine, access: map<State, Word>, explore: Explore)
      requires NonNegative(explore)
      requires forall q :: q in access ==> Reaches(machine, access[q], q)
      ensures Valid() && this.machine == machine && this.explore == explore && selected == None && paid == 0
      ensures stateStats.Keys == access.Values && visited == {machine.start}
    {
      this.machine := machine;
      this.explore := explore;
      selected := None;
      visited := {machine.start};
      paid := 0;
      states, stateStats := [], map[];
      new;
      states, stateStats := StartStats(machine, access);
    }

    /** The score of one state, kept in its statistics. */
    method CalculateStatePriority(state: Word) returns (score: real)
      requires Valid() && state in stateStats
      modifies `stateStats
      ensures Valid() && 0.0 <= score <= 1.0
      ensures score == ScoreAmong(states, old(stateStats), state, explore)
      ensures stateStats == old(stateStats)[state := old(stateStats)[state].(lastScore := score)]
    {
      score := ScoreAmong(states, stateStats, state, explore);
      ScoreAmongIsUnit(machine, states, stateStats, state, explore);
      assert StatsOf(machine, state, stateStats[state]);
      UpdateValid(machine, states, stateStats, state, stateStats[state].(lastScore := score));
      stateStats := stateStats[state := stateStats[state].(lastScore := score)];
    }

    /** Scores one more state; scores taken before do not matter. */
    method ScoreNext(ghost before: map<Word, StateStats>, state: Word) returns (score: real)
      requires Valid() && Rescored(before, stateStats) && StatsValid(machine, states, before) && state in before
      modifies `stateStats
      ensures Valid() && Rescored(before, stateStats)
      ensures score == ScoreAmong(states, before, state, explore)
    {
      RescoredScores(machine, states, before, stateStats, state, explore);
      score := CalculateStatePriority(state);
    }

    /** Scores every state, and picks one whose score is as good as the best. */
    method SelectPriorityState() returns (r: Option<Word>)
      requires Valid()
      modifies `stateStats
      ensures Valid() && Rescored(old(stateStats), stateStats)
      ensures r == None <==> states == []
      ensures r.Some? ==> r.value in states && BestAmong(states, old(stateStats), r.value, explore)
    {
      if states == [] {
        return None;
      }
      ghost var stats := stateStats;
      var scores: seq<real> := [];
      for i := 0 to |states|
        invariant Valid() && Rescored(stats, stateStats)
        invariant Scored(scores, states[..i], states, stats, explore)
      {
        assert states[..i + 1][..i] == states[..i];
        var score := ScoreNext(stats, states[i]);
        assert (scores + [score])[..i] == scores;
        scores := scores + [score];
      }
      assert states[..|states|] == states;
      ScoresAreUnit(machine, states, stats, scores, explore);
      var k := PickBest(scores);
      BestPicked(states, stats, scores, k, explore);
      return Some(states[k]);
    }

    /** Makes a state the base of this round. */
    method UseMachineState(state: Word)
      requires Valid() && state in stateStats
      modifies `selected, `stateStats
      ensures Valid() && selected == Some(state)
      ensures var s := old(stateStats)[state];
              stateStats == old(stateStats)[state := s.(callCount := s.callCount + 1)]
    {
      var s := stateStats[state];
      assert StatsOf(machine, state, s);
      UpdateValid(machine, states, stateStats, state, s.(callCount := s.callCount + 1));
      selected := Some(state);
      stateStats := stateStats[state := s.(callCount := s.callCount + 1)];
    }

    /** Marks one state; the first time is a discovery. */
    method Visit(state: State) returns (discovered: bool)
      modifies `visited
      ensures visited == old(visited) + {state} && discovered == (state !in old(visited))
    {
      discovered := state !in visited;
      visited := visited + {state};
    }

    /** Marks what a round showed; a state not visited before is a discovery, and each one is counted. */
    method MarkVisited(stateId: State, f: Feedback) returns (discovered: bool, covered: set<Symbol>)
      requires visited <= KnownStates(machine) && paid < |visited| && stateId in KnownStates(machine)
      modifies `visited, `paid
      ensures visited == old(visited) + Shown(machine, stateId, f) && visited <= KnownStates(machine)
      ensures covered == NewlyCovered(machine, stateId, f)
      ensures discovered <==> !(Shown(machine, stateId, f) <= old(visited))
      ensures paid == old(paid) + (if discovered then 1 else 0) && paid < |visited|
    {
      ghost var before := visited;
      covered := {};
      discovered := Visit(stateId);
      if f.prefixLength < |f.requests| {
        var symbol := f.requests[f.prefixLength];
        OutgoingIff(machine, stateId, symbol);
        if symbol in Outgoing(machine, stateId) {
          covered := {symbol};
          var next := Visit(machine.delta[(stateId, symbol)]);
          discovered := discovered || next;
        }
      }
      MoreVisited(before, visited);
      if discovered {
        paid := paid + 1;
      }
    }

    /**
     * Rewards the selected state when its requests were the ones sent, and covers the request that left
     * it. The discovery bonus is paid exactly when a state not visited before was shown.
     */
    method UpdateStateFeedback(f: Feedback)
      requires Valid()
      modifies `stateStats, `visited, `paid
      ensures Valid()
      ensures selected == None || !TargetReached(selected.value, f) ==>
                stateStats == old(stateStats) && visited == old(visited) && paid == old(paid)
      ensures selected.Some? && TargetReached(selected.value, f) ==>
                var s := old(stateStats)[selected.value];
                var discovered := !(Shown(machine, s.stateId, f) <= old(visited));
                && visited == old(visited) + Shown(machine, s.stateId, f)
                && paid == old(paid) + (if discovered then 1 else 0)
                && stateStats == old(stateStats)[selected.value := Rewarded(machine, s, discovered, f)]
    {
      if selected == None || !TargetReached(selected.value, f) {
        return;
      }
      var state := selected.value;
      var stats := stateStats[state];
      assert StatsOf(machine, state, stats);
      KnownAfter(machine, state);
      var discovered, covered := MarkVisited(stats.stateId, f);
      stats := stats.(covered := stats.covered + covered, totalReward := stats.totalReward + Reward(discovered, f));
      UpdateValid(machine, states, stateStats, state, stats);
      stateStats := stateStats[state := stats];
    }
  }

  /** A state's statistics after its feedback. */
  function Rewarded(m: Machine, s: StateStats, discovered: bool, f: Feedback): StateStats {
    s.(covered := s.covered + NewlyCovered(m, s.stateId, f), totalReward := s.totalReward + Reward(discovered, f))
  }

  /** Fresh statistics for every access sequence. */
  method StartStats(machine: Machine, access: map<State, Word>)
    returns (states: seq<Word>, stats: map<Word, StateStats>)
    requires forall q :: q in access ==> Reaches(machine, access[q], q)
    ensures StatsValid(machine, states, stats) && stats.Keys == access.Values
    ensures forall w :: w in stats ==> stats[w].callCount == 0 && stats[w].covered == {} && stats[w].totalReward == 0.0
  {
    states, stats := [], map[];
    var rest := access.Keys;
    while rest != {}
      invariant rest <= access.Keys && StatsValid(machine, states, stats)
      invariant forall w :: w in stats ==>
                  stats[w].callCount == 0 && stats[w].covered == {} && stats[w].totalReward == 0.0
      invariant forall w :: w in stats ==> w in access.Values
      invariant forall q :: q in access.Keys && q !in rest ==> access[q] in stats
      decreases rest
    {
      var q :| q in rest;
      var w := access[q];
      assert Reaches(machine, w, q);
      states, stats := AddStats(machine, states, stats, w, q);
      rest := rest - {q};
    }
    assert stats.Keys == access.Values;
  }

  method AddStats(machine: Machine, states0: seq<Word>, stats0: map<Word, StateStats>, w: Word, q: State)
    returns (states: seq<Word>, stats: map<Word, StateStats>)
    requires StatsValid(machine, states0, stats0) && Reaches(machine, w, q)
    ensures StatsValid(machine, states, stats)
    ensures stats == stats0[w := StateStats(q, Depth(w), 0, 0.0, |Outgoing(machine, q)|, {}, 0.0)]
  {
    states := states0 + [w];
    stats := stats0[w := StateStats(q, Depth(w), 0, 0.0, |Outgoing(machine, q)|, {}, 0.0)];
    forall u | u in stats
      ensures StatsOf(machine, u, stats[u]) && u in states
    {
      if u != w {
        assert StatsOf(machine, u, stats0[u]);
      }
    }
  }

  /** An index whose score is close to the largest, and so within the tolerance of every score. */
  method PickBest(scores: seq<real>) returns (k: nat)
    requires scores != [] && forall j :: 0 <= j < |scores| ==> 0.0 <= scores[j] <= 1.0
    ensures k < |scores| && forall j :: 0 <= j < |scores| ==> scores[k] >= scores[j] - TOLERANCE
  {
    var best := Largest(scores);
    BestIsScored(scores);
    k :| 0 <= k < |scores| && IsClose(scores[k], best);
    CloseScores(scores[k], best);
  }

  lemma OutgoingIff(m: Machine, q: State, a: Symbol)
    ensures a in Outgoing(m, q) <==> (q, a) in m.delta
  {
    if (q, a) in m.delta {
      assert (q, a) in m.delta.Keys;
    }
  }

  lemma MoreVisited(before: set<State>, after: set<State>)
    requires before <= after
    ensures before != after ==> |before| < |after|
  {
    assert after == before + (after - before) && |after| == |before| + |after - before|;
  }

  /** Scoring changes nothing but the last scores. */
  predicate Rescored(before: map<Word, StateStats>, after: map<Word, StateStats>) {
    && after.Keys == before.Keys
    && forall w :: w in before ==> SameButScore(before[w], after[w])
  }

  predicate SameButScore(a: StateStats, b: StateStats) {
    b == a.(lastScore := b.lastScore)
  }

  /** Last scores do not enter into new ones. */
  lemma ScoreIgnoresScores(all: seq<StateStats>, now: seq<StateStats>, s: StateStats, t: StateStats, explore: Explore)
    requires |all| == |now| && SameButScore(s, t)
    requires forall i :: 0 <= i < |all| ==> SameButScore(all[i], now[i])
    ensures Score(s, all, explore) == Score(t, now, explore)
  {
    assert Averages(all) == Averages(now) && Depths(all) == Depths(now) && OutDegrees(all) == OutDegrees(now);
    CallsIgnoreScores(all, now);
    assert Explorations(all, explore) == Explorations(now, explore);
  }

  lemma {:induction false} CallsIgnoreScores(all: seq<StateStats>, now: seq<StateStats>)
    requires |all| == |now| && forall i :: 0 <= i < |all| ==> SameButScore(all[i], now[i])
    ensures TotalCalls(all) == TotalCalls(now)
  {
    if all != [] {
      CallsIgnoreScores(all[..|all| - 1], now[..|now| - 1]);
      assert SameButScore(all[|all| - 1], now[|now| - 1]);
    }
  }

  lemma {:induction false} BestIsScored(scores: seq<real>)
    requires scores != [] && forall j :: 0 <= j < |scores| ==> 0.0 <= scores[j] <= 1.0
    ensures 0.0 <= Largest(scores) <= 1.0
    ensures exists k :: 0 <= k < |scores| && IsClose(scores[k], Largest(scores))
  {
    assert Largest(scores) in scores by {
      assert scores[0] in scores;
    }
    var k :| 0 <= k < |scores| && scores[k] == Largest(scores);
    assert IsClose(scores[k], Largest(scores));
  }

  lemma StatsAreSane(m: Machine, w: Word, s: StateStats)
    requires StatsOf(m, w, s)
    ensures SaneStats(s)
  {
    var all := Outgoing(m, s.stateId);
    assert all == s.covered + (all - s.covered) && |all| == |s.covered| + |all - s.covered|;
  }

  /** Over any run the discovery bonus is paid at most once for every known state but the first. */
  lemma BonusesAreFew(b: Berserker)
    requires b.Valid()
    ensures b.paid <= |KnownStates(b.machine)| - 1
  {
    MoreVisited(b.visited, KnownStates(b.machine));
  }

  /** A learned machine never leaves its states. */
  lemma LearnedStatesKnown(sut: Sut, t: Table, h: Machine, names: map<Row, State>)
    requires LearnedFrom(sut, t, h, names)
    ensures KnownStates(h) <= h.states
  {
    LearnedIsTotal(sut, t, h, names);
    forall k | k in h.delta
      ensures h.delta[k] in h.states
    {
      assert Defined(h, k.0, k.1);
    }
  }

  /** With a learned machine the bonus is paid at most once for every prefix of the table but the first. */
  lemma BonusesBelowPrefixes(b: Berserker, sut: Sut, t: Table, names: map<Row, State>)
    requires b.Valid() && LearnedFrom(sut, t, b.machine, names)
    ensures b.paid <= |b.machine.states| - 1 == |t.S| - 1
  {
    LearnedStatesKnown(sut, t, b.machine, names);
    StatesArePrefixes(sut, t, b.machine, names);
    BonusesAreFew(b);
    MoreVisited(KnownStates(b.machine), b.machine.states);
  }

  /** A word that leads somewhere leads to a known state. */
  lemma {:induction false} KnownAfter(m: Machine, w: Word)
    ensures StateAfter(m, w).Some? ==> StateAfter(m, w).value in KnownStates(m)
  {
    if w != [] {
      KnownAfter(m, w[..|w| - 1]);
    }
  }
}
