/** Traces kept from membership queries, and the gate that ends learning when they stop growing. */
module PartialGuidance {
  import opened Prelude
  import opened Bytes

  type Symbol = string
  type Pair = (Symbol, Symbol)

  const UNKNOWN_RESPONSES: set<Symbol> := {"", "-", "UNKNOWN", "PARSE_FAILURE"}

  datatype Conversation = Conversation(
    reqSeq: seq<Symbol>,
    resSeq: seq<Symbol>,
    content: seq<(bytes, bytes)>)

  datatype PartialTrace = PartialTrace(messages: seq<(Symbol, bytes)>, responses: seq<Symbol>)

  function Symbols(t: PartialTrace): (s: seq<Symbol>)
    ensures |s| == |t.messages|
  {
    SymbolsOf(t.messages)
  }

  function SymbolsOf(messages: seq<(Symbol, bytes)>): (s: seq<Symbol>)
    ensures |s| == |messages|
    ensures forall i :: 0 <= i < |s| ==> s[i] == messages[i].0
  {
    if messages == [] then [] else [messages[0].0] + SymbolsOf(messages[1..])
  }

  /** The recorder's evidence as a value. */
  datatype Graph = Graph(
    traces: seq<PartialTrace>,
    pairs: set<Pair>,
    responseSymbols: set<Symbol>,
    executedSymbols: set<Symbol>)

  // ----- Which part of a conversation counts -----

  /** A greeting, or a request with its bytes and a normal response with its bytes. */
  predicate UsableAt(c: Conversation, i: nat) {
    && i < |c.resSeq| && i < |c.reqSeq|
    && (c.reqSeq[i] == "-" ||
        (&& c.resSeq[i] !in ABNORMAL && c.resSeq[i] !in UNKNOWN_RESPONSES
         && i < |c.content| && c.content[i].0 != [] && c.content[i].1 != []))
  }

  /** The first `n` entries are all usable. */
  predicate Usable(c: Conversation, n: nat) {
    n == 0 || (UsableAt(c, n - 1) && Usable(c, n - 1))
  }

  function Snoc(t: PartialTrace, symbol: Symbol, request: bytes, response: Symbol): PartialTrace {
    PartialTrace(t.messages + [(symbol, request)], t.responses + [response])
  }

  /** The trace of the first `n` entries, greetings left out. */
  function TraceOf(c: Conversation, n: nat): (t: PartialTrace)
    requires Usable(c, n)
    ensures |t.messages| == |t.responses|
  {
    if n == 0 then PartialTrace([], [])
    else if c.reqSeq[n - 1] == "-" then TraceOf(c, n - 1)
    else Snoc(TraceOf(c, n - 1), c.reqSeq[n - 1], c.content[n - 1].0, c.resSeq[n - 1])
  }

  /** How many of the first `n` entries come before the first unusable one. */
  function UsableCount(c: Conversation, n: nat): (k: nat)
    ensures k <= n && Usable(c, k)
  {
    if n == 0 then 0
    else if UsableCount(c, n - 1) == n - 1 && UsableAt(c, n - 1) then n
    else UsableCount(c, n - 1)
  }

  function Kept(c: Conversation): PartialTrace {
    TraceOf(c, UsableCount(c, |c.resSeq|))
  }

  /** The conversation is recorded as a trace: every entry is usable and there is a request in it. */
  predicate Recorded(c: Conversation) {
    UsableCount(c, |c.resSeq|) == |c.resSeq| && Kept(c).messages != []
  }

  function PairsOf(t: PartialTrace): set<Pair> {
    set i | 0 <= i < |t.messages| && i < |t.responses| :: (t.messages[i].0, t.responses[i])
  }

  function SymbolSet(t: PartialTrace): set<Symbol> {
    set i | 0 <= i < |t.messages| :: t.messages[i].0
  }

  function ResponseSet(t: PartialTrace): set<Symbol> {
    set i | 0 <= i < |t.responses| :: t.responses[i]
  }

  /** The evidence after one more conversation: its usable part counts even when it is not recorded. */
  function Observed(g: Graph, c: Conversation): Graph {
    Graph(
      if Recorded(c) then g.traces + [Kept(c)] else g.traces,
      g.pairs + PairsOf(Kept(c)),
      g.responseSymbols + ResponseSet(Kept(c)),
      g.executedSymbols + SymbolSet(Kept(c)))
  }

  /** The recorder reports growth: a recorded conversation with a pair not seen before. */
  predicate Grew(g: Graph, c: Conversation) {
    Recorded(c) && !(PairsOf(Kept(c)) <= g.pairs)
  }

  /** The evidence with a trace's pairs and symbols added, the traces left as they are. */
  function Supported(g: Graph, t: PartialTrace): Graph {
    Graph(g.traces, g.pairs + PairsOf(t), g.responseSymbols + ResponseSet(t), g.executedSymbols + SymbolSet(t))
  }

  lemma SnocSets(t: PartialTrace, symbol: Symbol, request: bytes, response: Symbol)
    requires |t.messages| == |t.responses|
    ensures var u := Snoc(t, symbol, request, response);
            && PairsOf(u) == PairsOf(t) + {(symbol, response)}
            && SymbolSet(u) == SymbolSet(t) + {symbol}
            && ResponseSet(u) == ResponseSet(t) + {response}
  {
    var u, n := Snoc(t, symbol, request, response), |t.messages|;
    assert u.messages[n] == (symbol, request) && u.responses[n] == response;
    forall i | 0 <= i < n
      ensures u.messages[i] == t.messages[i] && u.responses[i] == t.responses[i]
    {
    }
  }

  lemma SupportedStep(g: Graph, t: PartialTrace, symbol: Symbol, request: bytes, response: Symbol)
    requires |t.messages| == |t.responses|
    ensures var h := Supported(g, t);
            Supported(g, Snoc(t, symbol, request, response))
            == Graph(h.traces, h.pairs + {(symbol, response)}, h.responseSymbols + {response},
                     h.executedSymbols + {symbol})
  {
    SnocSets(t, symbol, request, response);
  }

  lemma {:induction false} UsableUpTo(c: Conversation, n: nat, k: nat)
    requires k <= n && Usable(c, k)
    requires k < n ==> !UsableAt(c, k)
    ensures UsableCount(c, n) == k
  {
    if k < n {
      UsableUpTo(c, n - 1, k);
    } else if n > 0 {
      UsableUpTo(c, n - 1, n - 1);
    }
  }

  lemma GrowthCount(before: set<Pair>, more: set<Pair>)
    ensures |before + more| > |before| <==> !(more <= before)
  {
    var extra := more - before;
    assert before + more == before + extra && |before + extra| == |before| + |extra|;
    assert extra == {} <==> more <= before;
  }

  /** The first unusable entry ends the observation: what came before it counts, and no growth is reported. */
  lemma {:induction false} Dropped(g: Graph, c: Conversation, index: nat)
    requires index < |c.resSeq| && Usable(c, index) && !UsableAt(c, index)
    ensures Observed(g, c) == Supported(g, TraceOf(c, index)) && !Grew(g, c)
  {
    UsableUpTo(c, |c.resSeq|, index);
  }

  /** A conversation without an unusable entry is recorded unless it has no request. */
  lemma {:induction false} Finished(g: Graph, c: Conversation)
    requires Usable(c, |c.resSeq|)
    ensures var t := TraceOf(c, |c.resSeq|);
            var h := Supported(g, t);
            && Observed(g, c) == (if t.messages == [] then h else h.(traces := g.traces + [t]))
            && Grew(g, c) == (t.messages != [] && |h.pairs| > |g.pairs|)
  {
    UsableUpTo(c, |c.resSeq|, |c.resSeq|);
    GrowthCount(g.pairs, PairsOf(Kept(c)));
  }

  class PartialTraceRecorder {
    var traces: seq<PartialTrace>
    var pairs: set<Pair>
    var responseSymbols: set<Symbol>
    var executedSymbols: set<Symbol>

    ghost function Evidence(): Graph
      reads this
    {
      Graph(traces, pairs, responseSymbols, executedSymbols)
    }

    constructor ()
      ensures Evidence() == Graph([], {}, {}, {})
    {
      traces, pairs, responseSymbols, executedSymbols := [], {}, {}, {};
    }

    /**
     * Records a conversation and reports growth. A conversation that is dropped half way has still
     * left the pairs and symbols of its first half.
     */
    method Observe(c: Conversation) returns (grew: bool)
      modifies this
      ensures Evidence() == Observed(old(Evidence()), c)
      ensures grew == Grew(old(Evidence()), c)
    {
      var messages: seq<(Symbol, bytes)> := [];
      var responses: seq<Symbol> := [];
      var pairsBefore := |pairs|;
      ghost var g := Evidence();
      for index := 0 to |c.resSeq|
        invariant Usable(c, index) && PartialTrace(messages, responses) == TraceOf(c, index)
        invariant Evidence() == Supported(g, TraceOf(c, index))
      {
        var response := c.resSeq[index];
        if index >= |c.reqSeq| {
          Dropped(g, c, index);
          return false;
        }
        var symbol := c.reqSeq[index];
        if symbol == "-" {
          continue;
        }
        if response in ABNORMAL || response in UNKNOWN_RESPONSES || index >= |c.content| {
          Dropped(g, c, index);
          return false;
        }
        var (request, rawResponse) := c.content[index];
        if request == [] || rawResponse == [] {
          Dropped(g, c, index);
          return false;
        }
        SupportedStep(g, TraceOf(c, index), symbol, request, response);
        messages := messages + [(symbol, request)];
        responses := responses + [response];
        executedSymbols := executedSymbols + {symbol};
        responseSymbols := responseSymbols + {response};
        pairs := pairs + {(symbol, response)};
      }
      Finished(g, c);
      if messages == [] {
        return false;
      }
      traces := traces + [PartialTrace(messages, responses)];
      return |pairs| > pairsBefore;
    }
  }

  /** A request with a normal response and then a crash: a new pair is added, and no growth is reported. */
  lemma DroppedHalfWay()
    ensures var c := Conversation(["A", "B"], ["ok", "CRASH"], [([1], [1]), ([2], [2])]);
            var g := Graph([], {}, {}, {});
            && !Recorded(c) && !Grew(g, c)
            && ("A", "ok") !in g.pairs && ("A", "ok") in Observed(g, c).pairs && Observed(g, c).traces == []
  {
    var c := Conversation(["A", "B"], ["ok", "CRASH"], [([1], [1]), ([2], [2])]);
    assert "A" != "-" && "B" != "-" && "ok"[0] == 'o';
    assert UsableAt(c, 0) && !UsableAt(c, 1);
    assert Usable(c, 0) && Usable(c, 1);
    UsableUpTo(c, 2, 1);
    var t := TraceOf(c, 1);
    assert t == Snoc(TraceOf(c, 0), "A", [1], "ok");
    assert t.messages[0] == ("A", [1]) && t.responses[0] == "ok";
  }

  // ----- The frontier -----

  /** The last requests of the traces that extend `prefix` by one request. */
  function SeenAfter(traces: seq<PartialTrace>, prefix: seq<Symbol>): set<Symbol> {
    set i | 0 <= i < |traces| && traces[i].messages != []
            && Symbols(traces[i])[..|traces[i].messages| - 1] == prefix
          :: Symbols(traces[i])[|traces[i].messages| - 1]
  }

  function FrontierFor(traces: seq<PartialTrace>, trace: PartialTrace, alphabet: set<Symbol>): set<Symbol> {
    alphabet - SeenAfter(traces, Symbols(trace))
  }

  /** A request is in the frontier of a trace exactly when no trace is that trace and then the request. */
  lemma FrontierIff(traces: seq<PartialTrace>, trace: PartialTrace, alphabet: set<Symbol>, a: Symbol)
    ensures a in FrontierFor(traces, trace, alphabet) <==>
            a in alphabet && forall i :: 0 <= i < |traces| ==> Symbols(traces[i]) != Symbols(trace) + [a]
  {
    var prefix := Symbols(trace);
    forall i | 0 <= i < |traces|
      ensures Symbols(traces[i]) == prefix + [a] <==>
              traces[i].messages != [] && Symbols(traces[i])[..|traces[i].messages| - 1] == prefix
              && Symbols(traces[i])[|traces[i].messages| - 1] == a
    {
      var s := Symbols(traces[i]);
      if s != [] {
        assert s == s[..|s| - 1] + [s[|s| - 1]];
      }
    }
    if a in SeenAfter(traces, prefix) {
      var i :| 0 <= i < |traces| && traces[i].messages != []
               && Symbols(traces[i])[..|traces[i].messages| - 1] == prefix
               && a == Symbols(traces[i])[|traces[i].messages| - 1];
      assert Symbols(traces[i]) == prefix + [a];
    }
  }
}
