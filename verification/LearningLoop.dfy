/** The outer learning loop: repeated learning rounds, the best hypothesis, and its equipment. */
module LearningLoop {
  import opened Prelude

  /** Versions of the generators by message type, and of the response parser. */
  type Generators = map<string, nat>
  type Parser = nat

  datatype Equipment = Equipment(generators: Generators, parser: Option<Parser>)
  datatype Hypothesis = Hypothesis(id: nat, transitions: nat)

  datatype Reason = Deadline | LearningFailure | Other

  /** How regenerating the generators ends. */
  datatype Evolution = Evolved | EvolutionDeadline | EvolutionFailed

  /**
   * What one learning round does: its outcome, and what happens while it is handled. A stop may come while
   * the learner fills its first table, before the learner is bound to its variable.
   */
  datatype Event =
    | Completed(transitions: nat, equipment: Equipment, overBudget: bool, evolution: Evolution)
    | Threshold(evolution: Evolution)
    | LlmDeadline
    | LearnerStopped(stopReason: Option<Reason>, hasTraces: bool, firstFill: bool)
    | Failed

  /** A round as the loop meets it: the stop event and the learning deadline are read before it starts. */
  datatype Round = Round(stopSet: bool, deadlinePassed: bool, event: Event)

  datatype LearningOutcome =
    | OutcomeCompleted | BudgetExceeded | CompleteAfterRetries | PartialAfterRetries
    | PartialWithoutEvolution | DeadlinePartial

  /** The way the loop was left. */
  datatype Exit =
    | Running | StopEvent | BudgetSpent | BudgetSpentInRound | AcceptedFinal | RetriesExhausted
    | NoEvolution | DeadlineReached | StoppedInside | Raised | NoLearner

  datatype Result = Returned(h: Option<Hypothesis>) | RaisedError

  // ----- What a history of rounds means -----

  /** The round completed a hypothesis in time. */
  predicate InBudget(r: Round) {
    r.event.Completed? && !r.event.overBudget
  }

  function Count(rounds: nat -> Round, i: nat): nat {
    if rounds(i).event.Completed? then rounds(i).event.transitions else 0
  }

  /** The rounds among the first `n` that beat every round completed in time before them. */
  ghost function Records(rounds: nat -> Round, n: nat): seq<nat> {
    if n == 0 then []
    else
      var before := Records(rounds, n - 1);
      if InBudget(rounds(n - 1)) && (before == [] || Count(rounds, before[|before| - 1]) < Count(rounds, n - 1))
      then before + [n - 1]
      else before
  }

  /** The rounds completed in time that were no record. */
  ghost function Misses(rounds: nat -> Round, n: nat): nat {
    if n == 0 then 0
    else Misses(rounds, n - 1) +
         (if InBudget(rounds(n - 1)) && Records(rounds, n) == Records(rounds, n - 1) then 1 else 0)
  }

  /** How many rounds in a row, up to round `n`, ended at the threshold. */
  ghost function Streak(rounds: nat -> Round, n: nat): (k: nat)
    ensures k <= n
  {
    if n > 0 && rounds(n - 1).event.Threshold? then 1 + Streak(rounds, n - 1) else 0
  }

  ghost function Last(recs: seq<nat>): nat
    requires recs != []
  {
    recs[|recs| - 1]
  }

  /** Every round of a streak ended at the threshold. */
  lemma {:induction false} StreakIsThresholds(rounds: nat -> Round, n: nat, i: nat)
    requires n - Streak(rounds, n) <= i < n
    ensures rounds(i).event.Threshold?
  {
    if i < n - 1 {
      StreakIsThresholds(rounds, n - 1, i);
    }
  }

  lemma {:induction false} RecordsAreInBudget(rounds: nat -> Round, n: nat, i: nat)
    requires i < |Records(rounds, n)|
    ensures Records(rounds, n)[i] < n && InBudget(rounds(Records(rounds, n)[i]))
  {
    if i < |Records(rounds, n - 1)| {
      RecordsAreInBudget(rounds, n - 1, i);
    }
  }

  /** The counts of the records strictly increase. */
  lemma {:induction false} RecordsIncrease(rounds: nat -> Round, n: nat, i: nat, j: nat)
    requires i < j < |Records(rounds, n)|
    ensures Records(rounds, n)[i] < Records(rounds, n)[j]
    ensures Count(rounds, Records(rounds, n)[i]) < Count(rounds, Records(rounds, n)[j])
  {
    var before := Records(rounds, n - 1);
    if i < |before| {
      RecordsAreInBudget(rounds, n - 1, i);
    }
    if j < |before| {
      RecordsIncrease(rounds, n - 1, i, j);
    } else if i < |before| - 1 {
      RecordsIncrease(rounds, n - 1, i, |before| - 1);
    }
  }

  /** The last record is the first of the rounds completed in time with the largest count. */
  lemma {:induction false} LastRecordIsFirstMaximum(rounds: nat -> Round, n: nat, i: nat)
    requires i < n && InBudget(rounds(i))
    ensures Records(rounds, n) != []
    ensures Count(rounds, i) <= Count(rounds, Last(Records(rounds, n)))
    ensures i < Last(Records(rounds, n)) ==> Count(rounds, i) < Count(rounds, Last(Records(rounds, n)))
  {
    if i < n - 1 {
      LastRecordIsFirstMaximum(rounds, n - 1, i);
    }
    RecordsAreInBudget(rounds, n, |Records(rounds, n)| - 1);
  }

  /** Counts start at zero and grow, so there is at most one record more than the last count. */
  lemma {:induction false} RecordsBounded(rounds: nat -> Round, n: nat)
    ensures Records(rounds, n) != [] ==> |Records(rounds, n)| <= Count(rounds, Last(Records(rounds, n))) + 1
  {
    if n > 0 {
      RecordsBounded(rounds, n - 1);
    }
  }

  ghost predicate Bounded(rounds: nat -> Round, most: nat) {
    forall i {:trigger Count(rounds, i)} :: 0 <= i ==> Count(rounds, i) <= most
  }

  ghost function HypothesisOf(rounds: nat -> Round, first: nat, i: nat): Hypothesis {
    Hypothesis(first + i, Count(rounds, i))
  }

  // ----- What the loop promises about a history -----

  /** Partial guidance: the traces of an iteration, with the table of the learner of an iteration. */
  datatype Guidance = Guidance(iteration: nat, table: nat)

  /** The fields of the fuzzer that the loop writes. */
  datatype Fields = Fields(outcome: LearningOutcome, partial: Option<Guidance>, stopReason: Option<Reason>,
                           active: Option<Equipment>, saved: Option<(Hypothesis, Equipment)>)

  function FirstReason(before: Option<Reason>, reason: Reason): Option<Reason> {
    if before == None then Some(reason) else before
  }

  /** The reason that the handler of a stopped learner sees. */
  function Seen(before: Option<Reason>, observed: Option<Reason>): Option<Reason> {
    if before == None then observed else before
  }

  predicate DeadlineStop(e: Event, before: Option<Reason>) {
    e.LearnerStopped? && Seen(before, e.stopReason) == Some(Deadline)
  }

  /** A stop by the deadline in the first fill of round `n`, when no earlier round has bound a learner. */
  predicate FindsNoLearner(e: Event, before: Option<Reason>, n: nat) {
    DeadlineStop(e, before) && e.firstFill && n == 0
  }

  /** The guidance while the loop runs: that of the last round that ended at the threshold. */
  ghost function Guided(rounds: nat -> Round, first: nat, n: nat, before: Option<Guidance>): Option<Guidance> {
    if n == 0 then before
    else if rounds(n - 1).event.Threshold? then Some(Guidance(first + n - 1, first + n - 1))
    else Guided(rounds, first, n - 1, before)
  }

  /** The last round was stopped by the deadline and left traces. */
  ghost predicate KeepsTraces(f0: Fields, rounds: nat -> Round, used: nat) {
    used > 0 && DeadlineStop(rounds(used - 1).event, f0.stopReason) && rounds(used - 1).event.hasTraces
  }

  /** The learner that is bound when the last round is stopped: in its first fill, that of the round before. */
  ghost function BoundLearner(rounds: nat -> Round, first: nat, used: nat): nat
    requires used > 0 && rounds(used - 1).event.LearnerStopped?
  {
    if rounds(used - 1).event.firstFill && used > 1 then first + used - 2 else first + used - 1
  }

  ghost function OutcomeLeft(f0: Fields, rounds: nat -> Round, used: nat, exit: Exit): LearningOutcome {
    match exit
    case BudgetSpent => BudgetExceeded
    case BudgetSpentInRound => BudgetExceeded
    case RetriesExhausted => if Records(rounds, used) != [] then CompleteAfterRetries else PartialAfterRetries
    case NoEvolution => PartialWithoutEvolution
    case StoppedInside => if KeepsTraces(f0, rounds, used) then DeadlinePartial else OutcomeCompleted
    case _ => OutcomeCompleted
  }

  ghost function GuidanceLeft(f0: Fields, rounds: nat -> Round, first: nat, used: nat, exit: Exit)
    : Option<Guidance>
  {
    if exit == RetriesExhausted && Records(rounds, used) != [] then None
    else if exit == StoppedInside && KeepsTraces(f0, rounds, used)
    then Some(Guidance(first + used - 1, BoundLearner(rounds, first, used)))
    else Guided(rounds, first, used, f0.partial)
  }

  ghost function ReasonLeft(f0: Fields, rounds: nat -> Round, used: nat, exit: Exit): Option<Reason> {
    if exit == DeadlineReached then FirstReason(f0.stopReason, Deadline)
    else if used > 0 && rounds(used - 1).event.LearnerStopped? && (exit == StoppedInside || exit == NoLearner)
    then FirstReason(Seen(f0.stopReason, rounds(used - 1).event.stopReason), LearningFailure)
    else f0.stopReason
  }

  /** A record's model is saved and active with the equipment of its own round. */
  ghost predicate Restored(f: Fields, rounds: nat -> Round, first: nat, i: nat) {
    && rounds(i).event.Completed? && rounds(i).event.equipment.parser.Some?
    && f.active == Some(rounds(i).event.equipment)
    && f.saved == Some((HypothesisOf(rounds, first, i), rounds(i).event.equipment))
  }

  /** How each exit leaves the fields: two of them finalize the last record, and the others nothing. */
  ghost predicate Settled(f0: Fields, f: Fields, rounds: nat -> Round, first: nat, used: nat, exit: Exit) {
    var recs := Records(rounds, used);
    && f.outcome == OutcomeLeft(f0, rounds, used, exit)
    && f.partial == GuidanceLeft(f0, rounds, first, used, exit)
    && (exit != Raised ==> f.stopReason == ReasonLeft(f0, rounds, used, exit))
    && if exit == AcceptedFinal || (exit == RetriesExhausted && recs != [])
       then recs != [] && Restored(f, rounds, first, Last(recs))
       else f.active == f0.active && f.saved == f0.saved
  }

  /** When each exit is taken. */
  ghost predicate Due(rounds: nat -> Round, used: nat, exit: Exit, limit: nat) {
    && (exit == AcceptedFinal ==> Misses(rounds, used) == 3)
    && (exit != AcceptedFinal && exit != Raised ==> Misses(rounds, used) < 3)
    && (exit == RetriesExhausted ==> Streak(rounds, used) == limit + 1)
    && (exit != RetriesExhausted && exit != Raised ==> Streak(rounds, used) <= limit)
    && (exit == BudgetSpentInRound ==> used > 0)
  }

  /** Every round before `n` was allowed to start, and completed in time or ended at the threshold. */
  ghost predicate Quiet(rounds: nat -> Round, n: nat) {
    n == 0 ||
    (&& Quiet(rounds, n - 1) && !rounds(n - 1).stopSet && !rounds(n - 1).deadlinePassed
     && (InBudget(rounds(n - 1)) || rounds(n - 1).event.Threshold?))
  }

  /** Regenerating the generators ended this way in a round that regenerates them. */
  predicate EvolutionIs(e: Event, v: Evolution, specKnowledge: bool) {
    specKnowledge && (e.Completed? || e.Threshold?) && e.evolution == v
  }

  ghost predicate LacksParser(rounds: nat -> Round, recs: seq<nat>) {
    recs != [] && rounds(Last(recs)).event.Completed? && rounds(Last(recs)).event.equipment.parser == None
  }

  /** The event of the last round explains the exit. */
  ghost predicate Explains(e: Event, exit: Exit, specKnowledge: bool, lacksParser: bool, unbound: bool) {
    match exit
    case BudgetSpentInRound => e.Completed? && e.overBudget
    case NoEvolution => e.Threshold? && !specKnowledge
    case DeadlineReached => e.LlmDeadline? || EvolutionIs(e, EvolutionDeadline, specKnowledge)
    case StoppedInside => e.LearnerStopped? && !unbound
    case NoLearner => unbound
    case Raised =>
      || e.Failed? || EvolutionIs(e, EvolutionFailed, specKnowledge)
      || ((e.Completed? || e.Threshold?) && lacksParser)
    case AcceptedFinal => e.Completed? && !e.overBudget
    case RetriesExhausted => e.Threshold?
    case _ => false
  }

  /** What happened last, for each exit: the loop is left for no other cause, and never goes on past one. */
  ghost predicate Caused(f0: Fields, rounds: nat -> Round, used: nat, exit: Exit, specKnowledge: bool) {
    if exit == StopEvent then Quiet(rounds, used) && rounds(used).stopSet
    else if exit == BudgetSpent then Quiet(rounds, used) && !rounds(used).stopSet && rounds(used).deadlinePassed
    else
      && used > 0 && Quiet(rounds, used - 1) && !rounds(used - 1).stopSet && !rounds(used - 1).deadlinePassed
      && Explains(rounds(used - 1).event, exit, specKnowledge, LacksParser(rounds, Records(rounds, used)),
                  FindsNoLearner(rounds(used - 1).event, f0.stopReason, used - 1))
  }

  /** The loop's variables describe the rounds it went through. */
  ghost predicate Describes(p: Progress, rounds: nat -> Round, first: nat, used: nat, limit: nat) {
    var recs := Records(rounds, used);
    && Tracks(p, rounds, first, recs)
    && p.tryLimit == 3 - Misses(rounds, used) && p.tryLimit >= 1
    && p.streak == Streak(rounds, used) <= limit
    && p.learner == (if used == 0 then None else Some(first + used - 1))
    && Quiet(rounds, used)
    && used <= Spent(|recs| + Misses(rounds, used), limit) + p.streak
  }

  // ----- The loop -----

  class Fuzzer {
    const specKnowledge: bool
    const relearnLimit: nat
    var iter: nat
    var learningOutcome: LearningOutcome
    var partialGuidance: Option<Guidance>
    var stopReason: Option<Reason>
    /** The equipment in use and the one saved with its model. */
    var active: Option<Equipment>
    var saved: Option<(Hypothesis, Equipment)>

    constructor (specKnowledge: bool, relearnLimit: nat)
      ensures this.specKnowledge == specKnowledge && this.relearnLimit == relearnLimit
      ensures iter == 0 && active == None && saved == None && partialGuidance == None && stopReason == None
    {
      this.specKnowledge := specKnowledge;
      this.relearnLimit := relearnLimit;
      iter := 0;
      learningOutcome := OutcomeCompleted;
      partialGuidance := None;
      stopReason := None;
      active := None;
      saved := None;
    }

    ghost function State(): Fields
      reads this
    {
      Fields(learningOutcome, partialGuidance, stopReason, active, saved)
    }

    /** The first reason stays. */
    method RequestStop(reason: Reason)
      modifies `stopReason
      ensures stopReason == FirstReason(old(stopReason), reason)
    {
      if stopReason == None {
        stopReason := Some(reason);
      }
    }

    /** Saves and activates a model with its own equipment; without a parser this is an error. */
    method FinalizeBestHypothesis(h: Hypothesis, equipment: Equipment) returns (ok: bool)
      modifies `active, `saved
      ensures ok <==> equipment.parser.Some?
      ensures ok ==> active == Some(equipment) && saved == Some((h, equipment))
      ensures !ok ==> active == old(active) && saved == old(saved)
    {
      if equipment.parser == None {
        return false;
      }
      saved := Some((h, equipment));
      active := Some(equipment);
      return true;
    }

    /**
     * Keeps the traces of a stopped round when the stop was the deadline, with the table of the learner that is
     * bound; `ok` is false when none is.
     */
    method HandleStopped(observed: Option<Reason>, hasTraces: bool, current: nat, learner: Option<nat>)
      returns (ok: bool)
      modifies `stopReason, `partialGuidance, `learningOutcome
      ensures var seen := Seen(old(stopReason), observed);
              var kept := seen == Some(Deadline) && learner.Some? && hasTraces;
              && (ok <==> seen != Some(Deadline) || learner.Some?)
              && stopReason == FirstReason(seen, LearningFailure)
              && partialGuidance == (if kept then Some(Guidance(current, learner.value)) else old(partialGuidance))
              && learningOutcome == (if kept then DeadlinePartial else old(learningOutcome))
    {
      if observed.Some? {
        RequestStop(observed.value);
      }
      if stopReason == Some(Deadline) {
        if learner == None {
          return false;
        }
        if hasTraces {
          partialGuidance := Some(Guidance(current, learner.value));
          learningOutcome := DeadlinePartial;
        }
      } else if stopReason == None {
        RequestStop(LearningFailure);
      }
      return true;
    }

    /** A hypothesis that is no better than the last one uses up a try; the third one accepts the last. */
    method HandleMiss(p: Progress, current: nat, ghost f0: Fields,
                      ghost rounds: nat -> Round, ghost first: nat, ghost n: nat)
      returns (q: Progress, exit: Exit)
      requires InBudget(rounds(n)) && current == first + n
      requires !rounds(n).stopSet && !rounds(n).deadlinePassed
      requires GoesOn(p, f0, State(), rounds, first, n, relearnLimit)
      requires p.hs != [] && LastCount(p.hs) >= Count(rounds, n)
      modifies `active, `saved, `stopReason
      ensures q == p.(streak := 0, tryLimit := p.tryLimit - 1, learner := Some(current))
      ensures exit != Running || GoesOn(q, f0, State(), rounds, first, n + 1, relearnLimit)
      ensures || exit == Running
              || Accounts(q.hs, f0, State(), rounds, first, n + 1, exit, relearnLimit, specKnowledge)
    {
      ghost var f := State();
      q := p.(streak := 0, tryLimit := p.tryLimit - 1, learner := Some(current));
      exit := Running;
      if q.tryLimit <= 0 {
        var ok := FinalizeBestHypothesis(p.hs[|p.hs| - 1], p.best);
        if ok {
          exit := AcceptedFinal;
        } else {
          RequestStop(LearningFailure);
          exit := Raised;
        }
      }
      MissAccounts(p, f0, f, State(), rounds, first, n, exit, relearnLimit, specKnowledge);
    }

    /** A first or better hypothesis is taken with its equipment, and the generators are evolved from it. */
    method HandleRecord(p: Progress, current: nat, event: Event, ghost f0: Fields,
                        ghost rounds: nat -> Round, ghost first: nat, ghost n: nat)
      returns (q: Progress, exit: Exit)
      requires InBudget(rounds(n)) && event == rounds(n).event && current == first + n
      requires !rounds(n).stopSet && !rounds(n).deadlinePassed
      requires GoesOn(p, f0, State(), rounds, first, n, relearnLimit)
      requires p.hs == [] || LastCount(p.hs) < Count(rounds, n)
      modifies `stopReason
      ensures q == Progress(p.hs + [Hypothesis(current, event.transitions)], event.equipment, p.tryLimit, 0,
                            Some(current))
      ensures exit != Running || GoesOn(q, f0, State(), rounds, first, n + 1, relearnLimit)
      ensures || exit == Running
              || Accounts(q.hs, f0, State(), rounds, first, n + 1, exit, relearnLimit, specKnowledge)
    {
      ghost var f := State();
      q := Progress(p.hs + [Hypothesis(current, event.transitions)], event.equipment, p.tryLimit, 0, Some(current));
      exit := Running;
      if specKnowledge {
        match event.evolution {
          case Evolved =>
          case EvolutionDeadline =>
            RequestStop(Deadline);
            exit := DeadlineReached;
          case EvolutionFailed =>
            RequestStop(LearningFailure);
            exit := Raised;
        }
      }
      RecordAccounts(p, f0, f, State(), rounds, first, n, exit, relearnLimit, specKnowledge);
    }

    /** What a round completed in time does: a third miss accepts, a record is taken and evolved from. */
    method HandleCompleted(p: Progress, current: nat, event: Event, ghost f0: Fields,
                           ghost rounds: nat -> Round, ghost first: nat, ghost n: nat)
      returns (q: Progress, exit: Exit)
      requires event.Completed? && !event.overBudget && event == rounds(n).event && current == first + n
      requires !rounds(n).stopSet && !rounds(n).deadlinePassed
      requires GoesOn(p, f0, State(), rounds, first, n, relearnLimit)
      modifies `active, `saved, `stopReason
      ensures exit != Running || GoesOn(q, f0, State(), rounds, first, n + 1, relearnLimit)
      ensures exit != Running || Raises(p, q)
      ensures || exit == Running
              || Accounts(q.hs, f0, State(), rounds, first, n + 1, exit, relearnLimit, specKnowledge)
    {
      if p.hs != [] && LastCount(p.hs) >= event.transitions {
        q, exit := HandleMiss(p, current, f0, rounds, first, n);
      } else {
        q, exit := HandleRecord(p, current, event, f0, rounds, first, n);
      }
    }

    /** One threshold too many: the last accepted hypothesis is restored, or the partial evidence is kept. */
    method HandleExhausted(p: Progress, current: nat) returns (exit: Exit)
      modifies `active, `saved, `partialGuidance, `learningOutcome
      ensures exit == if p.hs != [] && p.best.parser == None then Raised else RetriesExhausted
      ensures State() == if exit == Raised then old(State())
                         else if p.hs == [] then old(State()).(outcome := PartialAfterRetries)
                         else old(State()).(outcome := CompleteAfterRetries, partial := None, active := Some(p.best),
                                            saved := Some((p.hs[|p.hs| - 1], p.best)))
    {
      if p.hs != [] {
        var ok := FinalizeBestHypothesis(p.hs[|p.hs| - 1], p.best);
        if !ok {
          return Raised;
        }
        partialGuidance := None;
        learningOutcome := CompleteAfterRetries;
      } else {
        learningOutcome := PartialAfterRetries;
      }
      return RetriesExhausted;
    }

    /** What a round that ended at the threshold does: retry with evolved components, within the limit. */
    method HandleThreshold(p: Progress, current: nat, event: Event, ghost f0: Fields,
                           ghost rounds: nat -> Round, ghost first: nat, ghost n: nat)
      returns (q: Progress, exit: Exit)
      requires event.Threshold? && event == rounds(n).event && current == first + n
      requires !rounds(n).stopSet && !rounds(n).deadlinePassed
      requires GoesOn(p, f0, State(), rounds, first, n, relearnLimit)
      modifies `active, `saved, `stopReason, `partialGuidance, `learningOutcome
      ensures q == p.(streak := p.streak + 1, learner := Some(current))
      ensures exit != Running || GoesOn(q, f0, State(), rounds, first, n + 1, relearnLimit)
      ensures || exit == Running
              || Accounts(q.hs, f0, State(), rounds, first, n + 1, exit, relearnLimit, specKnowledge)
    {
      ghost var f := State();
      partialGuidance := Some(Guidance(current, current));
      q := p.(streak := p.streak + 1, learner := Some(current));
      if q.streak > relearnLimit {
        exit := HandleExhausted(p, current);
        ExhaustedAccounts(p, f0, f, State(), rounds, first, n, exit, relearnLimit, specKnowledge);
        return;
      }
      exit := Running;
      if !specKnowledge {
        learningOutcome := PartialWithoutEvolution;
        exit := NoEvolution;
      } else if event.evolution == EvolutionDeadline {
        RequestStop(Deadline);
        exit := DeadlineReached;
      } else if event.evolution == EvolutionFailed {
        exit := Raised;
      }
      RetryAccounts(p, f0, f, State(), rounds, first, n, exit, relearnLimit, specKnowledge);
    }

    /** A round that left no hypothesis in time and did not end at the threshold always ends the loop. */
    method HandleOther(p: Progress, current: nat, event: Event, ghost f0: Fields,
                       ghost rounds: nat -> Round, ghost first: nat, ghost n: nat)
      returns (q: Progress, exit: Exit)
      requires !event.Threshold? && !InBudget(rounds(n)) && event == rounds(n).event && current == first + n
      requires !rounds(n).stopSet && !rounds(n).deadlinePassed
      requires GoesOn(p, f0, State(), rounds, first, n, relearnLimit)
      modifies `stopReason, `partialGuidance, `learningOutcome
      ensures exit != Running
      ensures || exit == Running
              || Accounts(q.hs, f0, State(), rounds, first, n + 1, exit, relearnLimit, specKnowledge)
    {
      ghost var f := State();
      q := p;
      match event {
        case Completed(transitions, equipment, _, _) =>
          q := q.(streak := 0, learner := Some(current));
          if p.hs == [] {
            q := q.(hs := [Hypothesis(current, transitions)], best := equipment);
          }
          learningOutcome := BudgetExceeded;
          exit := BudgetSpentInRound;
          LateAccounts(p, f0, f, State(), rounds, first, n, exit, relearnLimit, specKnowledge);
        case LlmDeadline =>
          RequestStop(Deadline);
          exit := DeadlineReached;
          EndedAccounts(p, f0, f, State(), rounds, first, n, exit, relearnLimit, specKnowledge);
        case LearnerStopped(observed, hasTraces, firstFill) =>
          var ok := HandleStopped(observed, hasTraces, current, if firstFill then p.learner else Some(current));
          if ok {
            exit := StoppedInside;
            StoppedAccounts(p, f0, f, State(), rounds, first, n, exit, relearnLimit, specKnowledge);
          } else {
            exit := NoLearner;
            UnboundAccounts(p, f0, f, State(), rounds, first, n, exit, relearnLimit, specKnowledge);
          }
        case Failed =>
          RequestStop(LearningFailure);
          exit := Raised;
          EndedAccounts(p, f0, f, State(), rounds, first, n, exit, relearnLimit, specKnowledge);
      }
    }

    /** Dispatches on what the round did. */
    method HandleEvent(p: Progress, current: nat, event: Event, ghost f0: Fields,
                       ghost rounds: nat -> Round, ghost first: nat, ghost n: nat, ghost most: nat)
      returns (q: Progress, exit: Exit)
      requires event == rounds(n).event && current == first + n && Bounded(rounds, most)
      requires !rounds(n).stopSet && !rounds(n).deadlinePassed
      requires GoesOn(p, f0, State(), rounds, first, n, relearnLimit)
      modifies `active, `saved, `stopReason, `partialGuidance, `learningOutcome
      ensures exit != Running || GoesOn(q, f0, State(), rounds, first, n + 1, relearnLimit)
      ensures exit != Running || Advances(p, q, most)
      ensures || exit == Running
              || Accounts(q.hs, f0, State(), rounds, first, n + 1, exit, relearnLimit, specKnowledge)
    {
      if event.Completed? && !event.overBudget {
        q, exit := HandleCompleted(p, current, event, f0, rounds, first, n);
      } else if event.Threshold? {
        q, exit := HandleThreshold(p, current, event, f0, rounds, first, n);
      } else {
        q, exit := HandleOther(p, current, event, f0, rounds, first, n);
      }
      if exit == Running {
        RunningAdvances(p, q, rounds, first, n + 1, relearnLimit, most);
      }
    }

    /** Before a round starts, the stop event or the learning deadline ends the loop. */
    method LoopHead(p: Progress, round: Round, ghost f0: Fields, ghost rounds: nat -> Round, ghost first: nat,
                    ghost n: nat)
      returns (exit: Exit)
      requires GoesOn(p, f0, State(), rounds, first, n, relearnLimit)
      requires round == rounds(n) && (round.stopSet || round.deadlinePassed)
      modifies `learningOutcome
      ensures exit != Running
      ensures || exit == Running
              || Accounts(p.hs, f0, State(), rounds, first, n, exit, relearnLimit, specKnowledge)
    {
      ghost var f := State();
      exit := StopEvent;
      if !round.stopSet {
        learningOutcome := BudgetExceeded;
        exit := BudgetSpent;
      }
      HeadAccounts(p, f0, f, State(), rounds, first, n, exit, relearnLimit, specKnowledge);
    }

    /** One pass of the loop; `m` counts the rounds gone through after it. */
    method Pass(p: Progress, n: nat, rounds: nat -> Round, ghost f0: Fields, ghost first: nat, ghost most: nat)
      returns (q: Progress, m: nat, exit: Exit)
      requires GoesOn(p, f0, State(), rounds, first, n, relearnLimit) && iter == first + n && Bounded(rounds, most)
      modifies this
      ensures exit != Running || GoesOn(q, f0, State(), rounds, first, m, relearnLimit)
      ensures exit == Running ==> iter == first + m
      ensures exit != Running || Advances(p, q, most)
      ensures n <= m <= n + 1
      ensures || exit == Running
              || Accounts(q.hs, f0, State(), rounds, first, m, exit, relearnLimit, specKnowledge)
    {
      var round := rounds(n);
      if round.stopSet || round.deadlinePassed {
        q, m := p, n;
        exit := LoopHead(p, round, f0, rounds, first, n);
      } else {
        q, m, exit := RunRound(p, n, round, f0, rounds, first, most);
      }
    }

    method NextIteration() returns (current: nat)
      modifies `iter
      ensures current == old(iter) && iter == current + 1 && State() == old(State())
    {
      current := iter;
      iter := iter + 1;
    }

    /** One round: the next iteration and what comes of it. */
    method RunRound(p: Progress, n: nat, round: Round, ghost f0: Fields, ghost rounds: nat -> Round,
                    ghost first: nat, ghost most: nat)
      returns (q: Progress, m: nat, exit: Exit)
      requires round == rounds(n) && !round.stopSet && !round.deadlinePassed
      requires GoesOn(p, f0, State(), rounds, first, n, relearnLimit) && iter == first + n && Bounded(rounds, most)
      modifies this
      ensures m == n + 1 && iter == first + m
      ensures exit != Running || GoesOn(q, f0, State(), rounds, first, m, relearnLimit)
      ensures exit != Running || Advances(p, q, most)
      ensures || exit == Running
              || Accounts(q.hs, f0, State(), rounds, first, m, exit, relearnLimit, specKnowledge)
    {
      var current := NextIteration();
      m := n + 1;
      q, exit := HandleEvent(p, current, round.event, f0, rounds, first, n, most);
    }

    /**
     * Runs learning rounds until one of the exits. The result is the first hypothesis with the largest
     * count completed in time, the last of the accepted list `hs`, along which counts strictly increase;
     * and its own equipment is restored on the two exits that finalize.
     */
    method ModelLearning(rounds: nat -> Round, ghost most: nat)
      returns (r: Result, ghost used: nat, exit: Exit, ghost hs: seq<Hypothesis>)
      requires Bounded(rounds, most)
      modifies this
      ensures used <= (most + 4) * (relearnLimit + 1) && exit != Running && Increasing(hs)
      ensures r == if exit == Raised || exit == NoLearner then RaisedError else Returned(LastOf(hs))
      ensures LastOf(hs) == Best(rounds, old(iter), used, exit)
      ensures || exit == Running
              || Accounts(hs, old(State()), State(), rounds, old(iter), used, exit, relearnLimit, specKnowledge)
    {
      ghost var first, f0 := iter, State();
      var p := Progress([], Equipment(map[], None), 3, 0, None);
      var n: nat := 0;
      learningOutcome := OutcomeCompleted;
      exit := Running;
      while exit == Running
        invariant exit != Running || GoesOn(p, f0, State(), rounds, first, n, relearnLimit)
        invariant exit == Running ==> iter == first + n
        invariant exit != Running ==> n <= Spent(most + 4, relearnLimit)
        invariant || exit == Running
                  || Accounts(p.hs, f0, State(), rounds, first, n, exit, relearnLimit, specKnowledge)
        decreases exit == Running, p.hs == [], most - LastCount(p.hs), p.tryLimit, relearnLimit - p.streak
      {
        RoundsLeft(p, rounds, first, n, relearnLimit, most);
        p, n, exit := Pass(p, n, rounds, f0, first, most);
      }
      SpentIs(most + 4, relearnLimit);
      used, hs := n, p.hs;
      AcceptedIncrease(hs, rounds, first, used, exit);
      r := if exit == Raised || exit == NoLearner then RaisedError else Returned(LastOf(p.hs));
    }
  }

  /** A hypothesis was added with a larger count, or a try was used up. */
  predicate Raises(p: Progress, q: Progress) {
    && q.hs != []
    && (p.hs == [] || LastCount(p.hs) < LastCount(q.hs) || (p.hs == q.hs && q.tryLimit < p.tryLimit))
  }

  /** Some part of the measure went down: a first hypothesis, a larger count, a try, or a retry. */
  predicate Advances(p: Progress, q: Progress, most: nat) {
    && (q.hs == [] ==> p.hs == [])
    && LastCount(q.hs) <= most
    && (|| (p.hs == [] && q.hs != [])
        || LastCount(p.hs) < LastCount(q.hs)
        || (LastCount(p.hs) == LastCount(q.hs) && q.tryLimit < p.tryLimit)
        || (LastCount(p.hs) == LastCount(q.hs) && q.tryLimit == p.tryLimit && p.streak < q.streak))
  }

  /** A pass that goes on raised something, or was one more threshold retry. */
  lemma RunningAdvances(p: Progress, q: Progress, rounds: nat -> Round, first: nat, m: nat, limit: nat, most: nat)
    requires Bounded(rounds, most) && Describes(q, rounds, first, m, limit)
    requires Raises(p, q) || (q.hs == p.hs && q.tryLimit == p.tryLimit && q.streak == p.streak + 1)
    ensures Advances(p, q, most)
  {
    CountsBounded(q, rounds, first, m, most);
  }

  lemma {:induction false} CountsBounded(q: Progress, rounds: nat -> Round, first: nat, m: nat, most: nat)
    requires Bounded(rounds, most) && Tracks(q, rounds, first, Records(rounds, m))
    ensures LastCount(q.hs) <= most
  {
    if q.hs != [] {
      assert Count(rounds, Last(Records(rounds, m))) <= most;
    }
  }

  /**
   * The variables of the loop: accepted hypotheses, captured equipment, tries left, threshold streak, and the
   * iteration whose learner is bound.
   */
  datatype Progress = Progress(hs: seq<Hypothesis>, best: Equipment, tryLimit: int, streak: nat, learner: Option<nat>)

  /** The accepted hypotheses are those of the records, and the equipment was captured in the last one's round. */
  ghost predicate Tracks(p: Progress, rounds: nat -> Round, first: nat, recs: seq<nat>) {
    && AreRecords(p.hs, rounds, first, recs)
    && (recs != [] ==>
          && rounds(Last(recs)).event.Completed? && p.best == rounds(Last(recs)).event.equipment)
  }

  ghost predicate AreRecords(hs: seq<Hypothesis>, rounds: nat -> Round, first: nat, recs: seq<nat>) {
    && |hs| == |recs|
    && forall i {:trigger hs[i]} :: 0 <= i < |recs| ==> hs[i] == HypothesisOf(rounds, first, recs[i])
  }

  /** What the list holds at an exit: the records; without one, a round completed too late, if it was the last. */
  ghost predicate Accepts(hs: seq<Hypothesis>, rounds: nat -> Round, first: nat, used: nat, exit: Exit) {
    if Records(rounds, used) == [] && exit == BudgetSpentInRound then
      used > 0 && hs == [HypothesisOf(rounds, first, used - 1)]
    else AreRecords(hs, rounds, first, Records(rounds, used))
  }

  /** The list, the fields and the exit are those that the rounds gone through explain. */
  ghost predicate Accounts(hs: seq<Hypothesis>, f0: Fields, f: Fields, rounds: nat -> Round, first: nat, used: nat,
                           exit: Exit, limit: nat, specKnowledge: bool) {
    && Accepts(hs, rounds, first, used, exit)
    && Due(rounds, used, exit, limit) && Caused(f0, rounds, used, exit, specKnowledge)
    && Settled(f0, f, rounds, first, used, exit)
  }

  /** Counts and identifiers strictly increase along the list. */
  ghost predicate Increasing(hs: seq<Hypothesis>) {
    forall i, j :: 0 <= i < j < |hs| ==> hs[i].transitions < hs[j].transitions && hs[i].id < hs[j].id
  }

  lemma {:induction false} AcceptedIncrease(hs: seq<Hypothesis>, rounds: nat -> Round, first: nat, used: nat,
                                            exit: Exit)
    requires Accepts(hs, rounds, first, used, exit)
    ensures Increasing(hs) && LastOf(hs) == Best(rounds, first, used, exit)
  {
    forall i, j | 0 <= i < j < |hs|
      ensures hs[i].transitions < hs[j].transitions && hs[i].id < hs[j].id
    {
      RecordsIncrease(rounds, used, i, j);
    }
  }

  /** The loop goes on: its variables describe the rounds gone through, and only guidance was kept. */
  ghost predicate GoesOn(p: Progress, f0: Fields, f: Fields, rounds: nat -> Round, first: nat, used: nat,
                         limit: nat) {
    && Describes(p, rounds, first, used, limit)
    && f == f0.(outcome := OutcomeCompleted, partial := Guided(rounds, first, used, f0.partial))
  }

  /** Leaving before a round starts. */
  lemma HeadAccounts(p: Progress, f0: Fields, f1: Fields, f: Fields, rounds: nat -> Round, first: nat,
                     n: nat, exit: Exit, limit: nat, specKnowledge: bool)
    requires GoesOn(p, f0, f1, rounds, first, n, limit)
    requires if rounds(n).stopSet then exit == StopEvent && f == f1
             else rounds(n).deadlinePassed && exit == BudgetSpent && f == f1.(outcome := BudgetExceeded)
    ensures Accounts(p.hs, f0, f, rounds, first, n, exit, limit, specKnowledge)
  {
  }

  /** The ways a hypothesis that is no better is dealt with. */
  lemma MissAccounts(p: Progress, f0: Fields, f1: Fields, f: Fields, rounds: nat -> Round, first: nat,
                     n: nat, exit: Exit, limit: nat, specKnowledge: bool)
    requires GoesOn(p, f0, f1, rounds, first, n, limit)
    requires !rounds(n).stopSet && !rounds(n).deadlinePassed
    requires InBudget(rounds(n)) && p.hs != [] && LastCount(p.hs) >= Count(rounds, n)
    requires exit == if p.tryLimit > 1 then Running else if p.best.parser.Some? then AcceptedFinal else Raised
    requires match exit
             case AcceptedFinal => f == f1.(active := Some(p.best), saved := Some((p.hs[|p.hs| - 1], p.best)))
             case Raised => f == f1.(stopReason := f.stopReason)
             case _ => f == f1
    ensures var q := p.(streak := 0, tryLimit := p.tryLimit - 1, learner := Some(first + n));
            && (exit != Running || GoesOn(q, f0, f, rounds, first, n + 1, limit))
            && (exit == Running || Accounts(q.hs, f0, f, rounds, first, n + 1, exit, limit, specKnowledge))
  {
    RecordStep(rounds, n);
  }

  /** The ways a first or better hypothesis is dealt with. */
  lemma RecordAccounts(p: Progress, f0: Fields, f1: Fields, f: Fields, rounds: nat -> Round, first: nat,
                       n: nat, exit: Exit, limit: nat, specKnowledge: bool)
    requires GoesOn(p, f0, f1, rounds, first, n, limit)
    requires !rounds(n).stopSet && !rounds(n).deadlinePassed
    requires InBudget(rounds(n)) && (p.hs == [] || LastCount(p.hs) < Count(rounds, n))
    requires exit == AfterEvolution(rounds(n).event.evolution, specKnowledge, Running)
    requires match exit
             case DeadlineReached => f == f1.(stopReason := FirstReason(f1.stopReason, Deadline))
             case Raised => f == f1.(stopReason := f.stopReason)
             case _ => f == f1
    ensures var e := rounds(n).event;
            var q := Progress(p.hs + [Hypothesis(first + n, e.transitions)], e.equipment, p.tryLimit, 0,
                              Some(first + n));
            && (exit != Running || GoesOn(q, f0, f, rounds, first, n + 1, limit))
            && (exit == Running || Accounts(q.hs, f0, f, rounds, first, n + 1, exit, limit, specKnowledge))
  {
    RecordStep(rounds, n);
  }

  /** The exit after regenerating the generators, when there is specification knowledge to do it. */
  function AfterEvolution(evolution: Evolution, specKnowledge: bool, otherwise: Exit): Exit {
    if !specKnowledge then otherwise
    else
      match evolution
      case Evolved => Running
      case EvolutionDeadline => DeadlineReached
      case EvolutionFailed => Raised
  }

  /** The ways a threshold within the limit is dealt with. */
  lemma RetryAccounts(p: Progress, f0: Fields, f1: Fields, f: Fields, rounds: nat -> Round, first: nat,
                      n: nat, exit: Exit, limit: nat, specKnowledge: bool)
    requires GoesOn(p, f0, f1, rounds, first, n, limit)
    requires !rounds(n).stopSet && !rounds(n).deadlinePassed
    requires rounds(n).event.Threshold? && p.streak + 1 <= limit
    requires exit == AfterEvolution(rounds(n).event.evolution, specKnowledge, NoEvolution)
    requires var g := f1.(partial := Some(Guidance(first + n, first + n)));
             match exit
             case NoEvolution => f == g.(outcome := PartialWithoutEvolution)
             case DeadlineReached => f == g.(stopReason := FirstReason(f1.stopReason, Deadline))
             case _ => f == g
    ensures var q := p.(streak := p.streak + 1, learner := Some(first + n));
            && (exit != Running || GoesOn(q, f0, f, rounds, first, n + 1, limit))
            && (exit == Running || Accounts(q.hs, f0, f, rounds, first, n + 1, exit, limit, specKnowledge))
  {
    RecordStep(rounds, n);
  }

  /** The ways a threshold past the limit is dealt with. */
  lemma ExhaustedAccounts(p: Progress, f0: Fields, f1: Fields, f: Fields, rounds: nat -> Round, first: nat,
                          n: nat, exit: Exit, limit: nat, specKnowledge: bool)
    requires GoesOn(p, f0, f1, rounds, first, n, limit)
    requires !rounds(n).stopSet && !rounds(n).deadlinePassed
    requires rounds(n).event.Threshold? && p.streak + 1 > limit
    requires exit == if p.hs != [] && p.best.parser == None then Raised else RetriesExhausted
    requires var g := f1.(partial := Some(Guidance(first + n, first + n)));
             f == if exit == Raised then g
                  else if p.hs == [] then g.(outcome := PartialAfterRetries)
                  else g.(outcome := CompleteAfterRetries, partial := None, active := Some(p.best),
                          saved := Some((p.hs[|p.hs| - 1], p.best)))
    ensures Accounts(p.hs, f0, f, rounds, first, n + 1, exit, limit, specKnowledge)
  {
    RecordStep(rounds, n);
  }

  /** A round completed too late ends the loop; its hypothesis counts only when there is no other. */
  lemma LateAccounts(p: Progress, f0: Fields, f1: Fields, f: Fields, rounds: nat -> Round, first: nat,
                     n: nat, exit: Exit, limit: nat, specKnowledge: bool)
    requires GoesOn(p, f0, f1, rounds, first, n, limit)
    requires !rounds(n).stopSet && !rounds(n).deadlinePassed
    requires rounds(n).event.Completed? && rounds(n).event.overBudget
    requires exit == BudgetSpentInRound && f == f1.(outcome := BudgetExceeded)
    ensures var hs := if p.hs == [] then [Hypothesis(first + n, rounds(n).event.transitions)] else p.hs;
            Accounts(hs, f0, f, rounds, first, n + 1, exit, limit, specKnowledge)
  {
    RecordStep(rounds, n);
  }

  /** A stop by the deadline that finds no learner ends the loop by an exception. */
  lemma UnboundAccounts(p: Progress, f0: Fields, f1: Fields, f: Fields, rounds: nat -> Round, first: nat,
                        n: nat, exit: Exit, limit: nat, specKnowledge: bool)
    requires GoesOn(p, f0, f1, rounds, first, n, limit)
    requires !rounds(n).stopSet && !rounds(n).deadlinePassed
    requires DeadlineStop(rounds(n).event, f1.stopReason) && rounds(n).event.firstFill && p.learner == None
    requires exit == NoLearner && f == f1.(stopReason := Some(Deadline))
    ensures Accounts(p.hs, f0, f, rounds, first, n + 1, exit, limit, specKnowledge)
  {
    RecordStep(rounds, n);
  }

  /** Every other stop of a learner ends the loop with a reason, and by the deadline with the traces. */
  lemma StoppedAccounts(p: Progress, f0: Fields, f1: Fields, f: Fields, rounds: nat -> Round, first: nat,
                        n: nat, exit: Exit, limit: nat, specKnowledge: bool)
    requires GoesOn(p, f0, f1, rounds, first, n, limit)
    requires !rounds(n).stopSet && !rounds(n).deadlinePassed
    requires rounds(n).event.LearnerStopped? && exit == StoppedInside
    requires var LearnerStopped(observed, hasTraces, firstFill) := rounds(n).event;
             var seen := Seen(f1.stopReason, observed);
             var learner := if firstFill then p.learner else Some(first + n);
             var g := f1.(stopReason := FirstReason(seen, LearningFailure));
             && (seen == Some(Deadline) ==> learner.Some?)
             && f == if seen == Some(Deadline) && hasTraces
                     then g.(partial := Some(Guidance(first + n, learner.value)), outcome := DeadlinePartial) else g
    ensures Accounts(p.hs, f0, f, rounds, first, n + 1, exit, limit, specKnowledge)
  {
    RecordStep(rounds, n);
  }

  /** The ways an exhausted language model or a failure ends the loop. */
  lemma EndedAccounts(p: Progress, f0: Fields, f1: Fields, f: Fields, rounds: nat -> Round, first: nat,
                      n: nat, exit: Exit, limit: nat, specKnowledge: bool)
    requires GoesOn(p, f0, f1, rounds, first, n, limit)
    requires !rounds(n).stopSet && !rounds(n).deadlinePassed
    requires if rounds(n).event.LlmDeadline? then
               exit == DeadlineReached && f == f1.(stopReason := FirstReason(f1.stopReason, Deadline))
             else rounds(n).event.Failed? && exit == Raised && f == f1.(stopReason := f.stopReason)
    ensures Accounts(p.hs, f0, f, rounds, first, n + 1, exit, limit, specKnowledge)
  {
    RecordStep(rounds, n);
  }

  // ----- a stop by the deadline in the first fill -----

  lemma {:induction false} QuietAt(rounds: nat -> Round, n: nat, i: nat)
    requires Quiet(rounds, n) && i < n
    ensures !rounds(i).stopSet && !rounds(i).deadlinePassed && (InBudget(rounds(i)) || rounds(i).event.Threshold?)
  {
    if i < n - 1 {
      QuietAt(rounds, n - 1, i);
    }
  }

  /**
   * The loop fails to find a learner exactly when its first round was stopped by the deadline in the first fill;
   * every other stop by the deadline returns.
   */
  lemma NoLearnerIff(hs: seq<Hypothesis>, f0: Fields, f: Fields, rounds: nat -> Round, first: nat, used: nat,
                     exit: Exit, limit: nat, specKnowledge: bool)
    requires Accounts(hs, f0, f, rounds, first, used, exit, limit, specKnowledge)
    ensures exit == NoLearner <==> used == 1 && FindsNoLearner(rounds(0).event, f0.stopReason, 0)
    ensures used > 0 && DeadlineStop(rounds(used - 1).event, f0.stopReason) && exit != NoLearner ==>
              exit == StoppedInside
  {
  }

  /** The table kept with the traces of a stopped round is the round's own exactly when the stop came later. */
  lemma OwnTableIff(hs: seq<Hypothesis>, f0: Fields, f: Fields, rounds: nat -> Round, first: nat, used: nat,
                    exit: Exit, limit: nat, specKnowledge: bool)
    requires Accounts(hs, f0, f, rounds, first, used, exit, limit, specKnowledge)
    requires exit == StoppedInside && KeepsTraces(f0, rounds, used)
    ensures f.partial.Some? && f.partial.value.iteration == first + used - 1
    ensures f.partial.value.table == f.partial.value.iteration <==> !rounds(used - 1).event.firstFill
    ensures rounds(used - 1).event.firstFill ==> used > 1 && f.partial.value.table == f.partial.value.iteration - 1
  {
  }

  /** A first round that the deadline stops in its first fill: an exception, and its traces are not kept. */
  lemma FirstFillRaises(hs: seq<Hypothesis>, f0: Fields, f: Fields, rounds: nat -> Round, first: nat, used: nat,
                        exit: Exit, limit: nat, specKnowledge: bool)
    requires Accounts(hs, f0, f, rounds, first, used, exit, limit, specKnowledge)
    requires rounds(0) == Round(false, false, LearnerStopped(Some(Deadline), true, true)) && f0.stopReason == None
    ensures used == 1 && exit == NoLearner && hs == [] && f.partial == f0.partial
  {
    if used > 1 {
      QuietAt(rounds, used - 1, 0);
    }
    assert Guided(rounds, first, 1, f0.partial) == Guided(rounds, first, 0, f0.partial) == f0.partial;
  }

  /** The hypothesis of the last record; without one, that of a round completed too late. */
  ghost function Best(rounds: nat -> Round, first: nat, used: nat, exit: Exit): Option<Hypothesis> {
    var recs := Records(rounds, used);
    if recs != [] then Some(HypothesisOf(rounds, first, Last(recs)))
    else if exit == BudgetSpentInRound && used > 0 then Some(HypothesisOf(rounds, first, used - 1))
    else None
  }

  function LastOf(hs: seq<Hypothesis>): Option<Hypothesis> {
    if hs == [] then None else Some(hs[|hs| - 1])
  }

  function LastCount(hs: seq<Hypothesis>): nat {
    if hs == [] then 0 else hs[|hs| - 1].transitions
  }

  /** One round's effect on the records, the misses and the streak. */
  lemma RecordStep(rounds: nat -> Round, n: nat)
    ensures var recs := Records(rounds, n);
            && (InBudget(rounds(n)) && (recs == [] || Count(rounds, Last(recs)) < Count(rounds, n)) ==>
                  Records(rounds, n + 1) == recs + [n] && Misses(rounds, n + 1) == Misses(rounds, n))
            && (InBudget(rounds(n)) && recs != [] && Count(rounds, Last(recs)) >= Count(rounds, n) ==>
                  Records(rounds, n + 1) == recs && Misses(rounds, n + 1) == Misses(rounds, n) + 1)
            && (!InBudget(rounds(n)) ==>
                  Records(rounds, n + 1) == recs && Misses(rounds, n + 1) == Misses(rounds, n))
    ensures Streak(rounds, n + 1) == if rounds(n).event.Threshold? then Streak(rounds, n) + 1 else 0
  {
  }

  /** The rounds that `c` completed rounds take when each comes after as many threshold retries as allowed. */
  ghost function Spent(c: nat, limit: nat): nat {
    if c == 0 then 0 else Spent(c - 1, limit) + limit + 1
  }

  lemma {:induction false} SpentIs(c: nat, limit: nat)
    ensures Spent(c, limit) == c * (limit + 1)
  {
    if c > 0 {
      SpentIs(c - 1, limit);
      assert c * (limit + 1) == (c - 1) * (limit + 1) + (limit + 1);
    }
  }

  lemma {:induction false} SpentGrows(c: nat, d: nat, limit: nat)
    requires c <= d
    ensures Spent(c, limit) <= Spent(d, limit)
  {
    if c < d {
      SpentGrows(c, d - 1, limit);
    }
  }

  /** One more round fits into the bound, whatever it does. */
  lemma {:induction false} RoundsLeft(p: Progress, rounds: nat -> Round, first: nat, n: nat, limit: nat, most: nat)
    requires Bounded(rounds, most) && Describes(p, rounds, first, n, limit)
    ensures n + 1 <= Spent(most + 4, limit)
  {
    RecordsBounded(rounds, n);
    if Records(rounds, n) != [] {
      assert Count(rounds, Last(Records(rounds, n))) <= most;
    }
    SpentGrows(|Records(rounds, n)| + Misses(rounds, n), most + 3, limit);
  }
}
