/** The byte stream a replay seed's digest is computed from. */
module SeedDigest {
  import opened Prelude
  import opened Bytes

  /** A conversation: encoded request and response symbols, and the raw byte pairs. */
  datatype Conversation = Conversation(reqSeq: seq<bytes>, resSeq: seq<bytes>, content: seq<(bytes, bytes)>)

  const LIMIT := 0x1_0000_0000_0000_0000

  /** What eight bytes of length can say; the source raises an error for anything longer. */
  predicate Small(c: Conversation) {
    && |c.reqSeq| < LIMIT && |c.resSeq| < LIMIT && |c.content| < LIMIT
    && (forall i :: 0 <= i < |c.reqSeq| ==> |c.reqSeq[i]| < LIMIT)
    && (forall i :: 0 <= i < |c.resSeq| ==> |c.resSeq[i]| < LIMIT)
    && (forall i :: 0 <= i < |c.content| ==> |c.content[i].0| < LIMIT && |c.content[i].1| < LIMIT)
  }

  /** Collects what the running digest is fed. */
  class Digest {
    var fed: bytes

    constructor ()
      ensures fed == []
    {
      fed := [];
    }

    method Update(b: bytes)
      modifies this
      ensures fed == old(fed) + b
    {
      fed := fed + b;
    }
  }

  const CRASH_LABEL: bytes := [99, 114, 97, 115, 104, 61]  // "crash="

  function CrashFlag(crash: bool): bytes {
    CRASH_LABEL + (if crash then [49] else [48]) + [0]
  }

  function Field(b: bytes): bytes {
    Big(|b|, 8) + b
  }

  function Fields(items: seq<bytes>): bytes {
    if items == [] then [] else Fields(items[..|items| - 1]) + Field(items[|items| - 1])
  }

  function Pairs(items: seq<(bytes, bytes)>): seq<bytes> {
    if items == [] then []
    else Pairs(items[..|items| - 1]) + [items[|items| - 1].0, items[|items| - 1].1]
  }

  /** A count, and behind it the fields. */
  function Counted(count: nat, items: seq<bytes>): bytes {
    Big(count, 8) + Fields(items)
  }

  function Stream(c: Conversation, crash: bool): bytes {
    CrashFlag(crash)
    + Counted(|c.reqSeq|, c.reqSeq) + Counted(|c.resSeq|, c.resSeq) + Counted(|c.content|, Pairs(c.content))
  }

  /** Feeds the digest as the source does: label, both symbol sequences, and the pairs. */
  method FeedSeed(c: Conversation, crash: bool) returns (fed: bytes)
    ensures fed == Stream(c, crash)
  {
    var digest := new Digest();
    digest.Update(CRASH_LABEL + (if crash then [49] else [48]) + [0]);
    FeedSymbols(digest, c.reqSeq);
    FeedSymbols(digest, c.resSeq);
    FeedPairs(digest, c.content);
    fed := digest.fed;
  }

  method FeedSymbols(digest: Digest, symbols: seq<bytes>)
    modifies digest
    ensures digest.fed == old(digest.fed) + Counted(|symbols|, symbols)
  {
    ghost var start := digest.fed + Big(|symbols|, 8);
    digest.Update(Big(|symbols|, 8));
    for i := 0 to |symbols|
      invariant digest.fed == start + Fields(symbols[..i])
    {
      assert symbols[..i + 1][..i] == symbols[..i];
      digest.Update(Big(|symbols[i]|, 8));
      digest.Update(symbols[i]);
      Associative(start + Fields(symbols[..i]), Big(|symbols[i]|, 8), symbols[i]);
      Associative(start, Fields(symbols[..i]), Field(symbols[i]));
    }
    assert symbols[..|symbols|] == symbols;
    Associative(old(digest.fed), Big(|symbols|, 8), Fields(symbols));
  }

  method FeedPairs(digest: Digest, content: seq<(bytes, bytes)>)
    modifies digest
    ensures digest.fed == old(digest.fed) + Counted(|content|, Pairs(content))
  {
    ghost var start := digest.fed + Big(|content|, 8);
    digest.Update(Big(|content|, 8));
    for i := 0 to |content|
      invariant digest.fed == start + Fields(Pairs(content[..i]))
    {
      var (request, response) := content[i];
      ghost var soFar := Fields(Pairs(content[..i]));
      FieldsOfPair(content[..i], (request, response));
      assert content[..i + 1] == content[..i] + [(request, response)];
      digest.Update(Big(|request|, 8));
      digest.Update(request);
      digest.Update(Big(|response|, 8));
      digest.Update(response);
      Associative(start + soFar, Big(|request|, 8), request);
      Associative(start, soFar, Field(request));
      Associative(start + (soFar + Field(request)), Big(|response|, 8), response);
      Associative(start, soFar + Field(request), Field(response));
    }
    assert content[..|content|] == content;
    Associative(old(digest.fed), Big(|content|, 8), Fields(Pairs(content)));
  }

  lemma {:induction false} FieldsOfPair(items: seq<(bytes, bytes)>, p: (bytes, bytes))
    ensures Fields(Pairs(items + [p])) == Fields(Pairs(items)) + Field(p.0) + Field(p.1)
  {
    var ps := Pairs(items);
    assert (items + [p])[..|items|] == items;
    assert Pairs(items + [p]) == ps + [p.0, p.1];
    assert (ps + [p.0, p.1])[..|ps| + 1] == ps + [p.0];
    assert (ps + [p.0])[..|ps|] == ps;
  }

  // ----- injectivity -----

  lemma RangeOfEight()
    ensures Range(8) == LIMIT
  {
    assert Range(2) == 0x1_0000 && Range(4) == 0x1_0000_0000 && Range(6) == 0x1_0000_0000_0000;
  }

  lemma FieldPrefixFree(a: bytes, x: bytes, b: bytes, y: bytes)
    requires |a| < LIMIT && |b| < LIMIT && Field(a) + x == Field(b) + y
    ensures a == b && x == y
  {
    Associative(Big(|a|, 8), a, x);
    Associative(Big(|b|, 8), b, y);
    SplitEqual(Big(|a|, 8), a + x, Big(|b|, 8), b + y);
    RangeOfEight();
    BigRoundTrip(|a|, 8);
    BigRoundTrip(|b|, 8);
    SplitEqual(a, x, b, y);
  }

  predicate AllSmall(items: seq<bytes>) {
    forall i :: 0 <= i < |items| ==> |items[i]| < LIMIT
  }

  lemma {:induction false} FieldsFromFront(items: seq<bytes>)
    requires items != []
    ensures Fields(items) == Field(items[0]) + Fields(items[1..])
  {
    if |items| == 1 {
      assert Fields([]) == [];
    } else {
      var p := items[..|items| - 1];
      FieldsFromFront(p);
      assert items[1..][..|items| - 2] == p[1..];
      Associative(Field(items[0]), Fields(p[1..]), Field(items[|items| - 1]));
    }
  }

  /** Equally many fields, with anything behind them, are read back one by one. */
  lemma {:induction false} FieldsPrefixFree(a: seq<bytes>, x: bytes, b: seq<bytes>, y: bytes)
    requires |a| == |b| && AllSmall(a) && AllSmall(b) && Fields(a) + x == Fields(b) + y
    ensures a == b && x == y
    decreases |a|
  {
    if a == [] {
      assert [] + x == x && [] + y == y;
    } else {
      FieldsFromFront(a);
      FieldsFromFront(b);
      Associative(Field(a[0]), Fields(a[1..]), x);
      Associative(Field(b[0]), Fields(b[1..]), y);
      FieldPrefixFree(a[0], Fields(a[1..]) + x, b[0], Fields(b[1..]) + y);
      FieldsPrefixFree(a[1..], x, b[1..], y);
      assert a == [a[0]] + a[1..] && b == [b[0]] + b[1..];
    }
  }

  lemma CountedPrefixFree(m: nat, a: seq<bytes>, x: bytes, n: nat, b: seq<bytes>, y: bytes)
    requires m < LIMIT && n < LIMIT && AllSmall(a) && AllSmall(b) && (m == n ==> |a| == |b|)
    requires Counted(m, a) + x == Counted(n, b) + y
    ensures m == n && a == b && x == y
  {
    Associative(Big(m, 8), Fields(a), x);
    Associative(Big(n, 8), Fields(b), y);
    SplitEqual(Big(m, 8), Fields(a) + x, Big(n, 8), Fields(b) + y);
    RangeOfEight();
    BigRoundTrip(m, 8);
    BigRoundTrip(n, 8);
    FieldsPrefixFree(a, x, b, y);
  }

  lemma {:induction false} PairsShape(items: seq<(bytes, bytes)>)
    ensures |Pairs(items)| == 2 * |items|
    ensures forall i :: 0 <= i < |items| ==> Pairs(items)[2 * i] == items[i].0 && Pairs(items)[2 * i + 1] == items[i].1
  {
    if items != [] {
      PairsShape(items[..|items| - 1]);
    }
  }

  lemma PairsSmall(c: Conversation)
    requires Small(c)
    ensures |Pairs(c.content)| == 2 * |c.content| && AllSmall(Pairs(c.content))
  {
    PairsShape(c.content);
    forall i | 0 <= i < |Pairs(c.content)|
      ensures |Pairs(c.content)[i]| < LIMIT
    {
      var k := i / 2;
      assert i == 2 * k || i == 2 * k + 1;
      assert Pairs(c.content)[2 * k] == c.content[k].0 && Pairs(c.content)[2 * k + 1] == c.content[k].1;
    }
  }

  lemma {:induction false} ContentsEqual(c: seq<(bytes, bytes)>, d: seq<(bytes, bytes)>)
    requires Pairs(c) == Pairs(d)
    ensures c == d
  {
    PairsShape(c);
    PairsShape(d);
    forall i | 0 <= i < |c|
      ensures c[i] == d[i]
    {
      assert Pairs(c)[2 * i] == Pairs(d)[2 * i] && Pairs(c)[2 * i + 1] == Pairs(d)[2 * i + 1];
    }
  }

  lemma FlagsEqual(crash: bool, x: bytes, crash': bool, y: bytes)
    requires CrashFlag(crash) + x == CrashFlag(crash') + y
    ensures crash == crash' && x == y
  {
    SplitEqual(CrashFlag(crash), x, CrashFlag(crash'), y);
    assert CrashFlag(crash)[6] == CrashFlag(crash')[6];
  }

  lemma PartsEqual(c: Conversation, d: Conversation)
    requires Small(c) && Small(d)
    requires Counted(|c.reqSeq|, c.reqSeq) + (Counted(|c.resSeq|, c.resSeq) + Counted(|c.content|, Pairs(c.content)))
          == Counted(|d.reqSeq|, d.reqSeq) + (Counted(|d.resSeq|, d.resSeq) + Counted(|d.content|, Pairs(d.content)))
    ensures c.reqSeq == d.reqSeq && c.resSeq == d.resSeq && Pairs(c.content) == Pairs(d.content)
  {
    var cr, cs := Counted(|c.resSeq|, c.resSeq), Counted(|c.content|, Pairs(c.content));
    var dr, ds := Counted(|d.resSeq|, d.resSeq), Counted(|d.content|, Pairs(d.content));
    PairsSmall(c);
    PairsSmall(d);
    CountedPrefixFree(|c.reqSeq|, c.reqSeq, cr + cs, |d.reqSeq|, d.reqSeq, dr + ds);
    CountedPrefixFree(|c.resSeq|, c.resSeq, cs, |d.resSeq|, d.resSeq, ds);
    assert cs + [] == cs && ds + [] == ds;
    CountedPrefixFree(|c.content|, Pairs(c.content), [], |d.content|, Pairs(d.content), []);
  }

  /** Two seeds are fed as the same bytes only if they are the same seed. */
  lemma StreamInjective(c: Conversation, crash: bool, d: Conversation, crash': bool)
    requires Small(c) && Small(d) && Stream(c, crash) == Stream(d, crash')
    ensures crash == crash' && c == d
  {
    var cq, cr := Counted(|c.reqSeq|, c.reqSeq), Counted(|c.resSeq|, c.resSeq);
    var dq, dr := Counted(|d.reqSeq|, d.reqSeq), Counted(|d.resSeq|, d.resSeq);
    var cs, ds := Counted(|c.content|, Pairs(c.content)), Counted(|d.content|, Pairs(d.content));
    RegroupFour(CrashFlag(crash), cq, cr, cs);
    RegroupFour(CrashFlag(crash'), dq, dr, ds);
    FlagsEqual(crash, cq + (cr + cs), crash', dq + (dr + ds));
    PartsEqual(c, d);
    ContentsEqual(c.content, d.content);
  }
}
