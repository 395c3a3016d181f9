/** The backward walk along recorded dependencies that builds a request sequence. */
module DependencyWalk {

  type Symbol = string
  type Dependencies = map<Symbol, seq<Symbol>>

  datatype WalkResult = Sequence(requests: seq<Symbol>) | NothingToChoose

  /** Each request after the first has the one before it among its recorded dependencies. */
  predicate Chained(deps: Dependencies, s: seq<Symbol>) {
    forall i {:trigger DependsOn(deps, s, i)} :: 0 < i < |s| ==> DependsOn(deps, s, i)
  }

  predicate DependsOn(deps: Dependencies, s: seq<Symbol>, i: nat)
    requires 0 < i < |s|
  {
    s[i] in deps && s[i - 1] in deps[s[i]]
  }

  predicate NoRepeats(s: seq<Symbol>) {
    forall i, j :: 0 <= i < j < |s| ==> s[i] != s[j]
  }

  /** Where the walk stops: at a request without dependencies, or at one it has passed already. */
  predicate Ended(deps: Dependencies, s: seq<Symbol>) {
    s != [] && (s[0] !in deps || s[0] in s[1..])
  }

  lemma ChainStep(deps: Dependencies, s: seq<Symbol>, a: Symbol)
    requires Chained(deps, s) && (s == [] || (s[0] in deps && a in deps[s[0]]))
    ensures Chained(deps, [a] + s)
  {
    var t := [a] + s;
    forall i | 0 < i < |t|
      ensures DependsOn(deps, t, i)
    {
      if i > 1 {
        assert DependsOn(deps, s, i - 1);
      }
    }
  }

  lemma {:induction false} DistinctAreFew(s: seq<Symbol>, all: set<Symbol>)
    requires NoRepeats(s) && forall i :: 0 <= i < |s| ==> s[i] in all
    ensures |s| <= |all|
  {
    if s != [] {
      DistinctAreFew(s[1..], all - {s[0]});
    }
  }

  /** The requests a walk still may pass. */
  ghost function Unseen(deps: Dependencies, s: seq<Symbol>): set<Symbol> {
    deps.Keys - (set a | a in s)
  }

  /**
   * Walks back from `start`, at each step to any recorded dependency, until a request has none or comes
   * up again. It fails only when a recorded request has nothing to choose from.
   */
  method WalkDependencies(deps: Dependencies, start: Symbol) returns (r: WalkResult)
    requires start in deps
    ensures r.NothingToChoose? ==> exists a :: a in deps && deps[a] == []
    ensures r.Sequence? ==>
              && r.requests != [] && r.requests[|r.requests| - 1] == start
              && Chained(deps, r.requests) && Ended(deps, r.requests)
              && NoRepeats(r.requests[1..]) && |r.requests| <= |deps| + 1
  {
    var reqSeq: seq<Symbol> := [];
    var cur := start;
    while true
      invariant NoRepeats(reqSeq) && forall i :: 0 <= i < |reqSeq| ==> reqSeq[i] in deps
      invariant Chained(deps, reqSeq)
      invariant if reqSeq == [] then cur == start
                else reqSeq[|reqSeq| - 1] == start && cur in deps[reqSeq[0]]
      decreases Unseen(deps, reqSeq)
    {
      ChainStep(deps, reqSeq, cur);
      if cur in reqSeq || cur !in deps {
        DistinctAreFew(reqSeq, deps.Keys);
        assert ([cur] + reqSeq)[1..] == reqSeq;
        return Sequence([cur] + reqSeq);
      }
      ghost var before := reqSeq;
      reqSeq := [cur] + reqSeq;
      assert cur in Unseen(deps, before) && cur !in Unseen(deps, reqSeq);
      assert Unseen(deps, reqSeq) <= Unseen(deps, before);
      var choices := deps[cur];
      if choices == [] {
        return NothingToChoose;
      }
      var k :| 0 <= k < |choices|;
      cur := choices[k];
    }
  }
}
