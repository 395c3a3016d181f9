/** DAAP atoms: a four-byte tag, a big-endian length, and a body of that length. */
module DaapFraming {
  import opened Bytes
  import opened FrameChain

  function DaapCut(data: bytes, c: nat): Cut {
    if c + 8 > |data| then Stop("no atom header")
    else
      var end := c + 8 + BigValue(data[c + 4..c + 8]);
      if end > |data| then Stop("atom exceeds the batch") else At(end)
  }

  lemma DaapForward()
    ensures Forward(DaapCut)
  {
  }

  method DaapFrames(data: bytes) returns (r: seq<Frame>)
    ensures Forward(DaapCut)
    ensures r == FramesOrBatch(Cuts(DaapCut, data, 0, []), data)
    ensures Tiles(data, r, 0)
  {
    DaapForward();
    CutsTile(DaapCut, data, 0, []);
    var frames: seq<Frame> := [];
    var cursor := 0;
    while cursor + 8 <= |data|
      invariant cursor <= |data|
      invariant Cuts(DaapCut, data, 0, []) == Cuts(DaapCut, data, cursor, frames)
      decreases |data| - cursor
    {
      var length := BigValue(data[cursor + 4..cursor + 8]);
      var end := cursor + 8 + length;
      if end > |data| {
        break;
      }
      frames := frames + [Frame(data[cursor..end], cursor, end, Framed)];
      cursor := end;
    }
    if cursor < |data| || frames == [] {
      return [Frame(data, 0, |data|, Framed)];
    }
    return frames;
  }

  // ----- the independent plausibility check -----

  predicate TagByte(b: byte) {
    65 <= b <= 90 || 97 <= b <= 122 || 48 <= b <= 57
  }

  datatype Plausibility = Valid(reason: string) | Invalid(reason: string)

  /** The check on one frame; the tag pattern's `$` never sees a newline in four tag bytes. */
  function DaapPlausibility(response: bytes): Plausibility {
    if |response| < 8 then Invalid("truncated_daap_header")
    else if exists i :: 0 <= i < 4 && !TagByte(response[i]) then Invalid("invalid_daap_tag")
    else if BigValue(response[4..8]) != |response| - 8 then Invalid("daap_length_mismatch")
    else Valid("daap_atom")
  }

  /** What makes a frame an atom: the header is there and declares exactly the rest. */
  predicate IsAtom(m: bytes) {
    |m| >= 8 && BigValue(m[4..8]) == |m| - 8
  }

  function Atom(tag: bytes, body: bytes): bytes
    requires |tag| == 4
  {
    tag + Big(|body|, 4) + body
  }

  /** Every tag with every body of a length that four bytes can hold makes an atom, and nothing else does. */
  lemma AtomsAre(m: bytes)
    ensures IsAtom(m) <==> exists tag, body :: |tag| == 4 && |body| < Range(4) && m == Atom(tag, body)
  {
    if IsAtom(m) {
      BigOfValue(m[4..8]);
      assert m == m[..4] + m[4..8] + m[8..];
      assert m == Atom(m[..4], m[8..]);
    }
    if exists tag, body :: |tag| == 4 && |body| < Range(4) && m == Atom(tag, body) {
      var tag, body :| |tag| == 4 && |body| < Range(4) && m == Atom(tag, body);
      BigRoundTrip(|body|, 4);
      assert m[4..8] == Big(|body|, 4);
    }
  }

  lemma AtomIsCut(data: bytes, c: nat, m: bytes)
    requires IsAtom(m) && Holds(data, c, m)
    ensures DaapCut(data, c) == At(c + |m|)
  {
    HoldsAt(data, c, m, 4, 8);
  }

  /** Joined atoms split back into exactly themselves. */
  lemma {:induction false} AtomsRoundTrip(ms: seq<bytes>)
    requires forall m :: m in ms ==> IsAtom(m)
    ensures Forward(DaapCut) && Cuts(DaapCut, Join(ms), 0, []) == Whole(FramesOf(ms))
  {
    DaapForward();
    forall j | 0 <= j < |ms|
      ensures DaapCut(Join(ms), |Join(ms[..j])|) == At(|Join(ms[..j + 1])|)
    {
      InPlace(ms, j);
      assert ms[j] in ms;
      AtomIsCut(Join(ms), |Join(ms[..j])|, ms[j]);
    }
    CutsGiveBack(DaapCut, ms, 0);
    assert ms[..0] == [];
  }

  lemma {:induction false} CutFramesAreAtoms(data: bytes, c: nat, done: seq<Frame>)
    requires Forward(DaapCut) && c <= |data| && forall f :: f in done ==> IsAtom(f.data)
    ensures Cuts(DaapCut, data, c, done).Whole? ==>
              forall f :: f in Cuts(DaapCut, data, c, done).frames ==> IsAtom(f.data)
    decreases |data| - c
  {
    if c < |data| && DaapCut(data, c).At? {
      var end := DaapCut(data, c).end;
      assert data[c..end][4..8] == data[c + 4..c + 8];
      CutFramesAreAtoms(data, end, done + [Frame(data[c..end], c, end, Framed)]);
    }
  }

  /** Frames that were cut pass the independent check, unless their tag is odd. */
  lemma {:induction false} CutFramesArePlausible(data: bytes, f: Frame)
    requires Forward(DaapCut) && Cuts(DaapCut, data, 0, []).Whole? && f in Cuts(DaapCut, data, 0, []).frames
    ensures DaapPlausibility(f.data) in {Valid("daap_atom"), Invalid("invalid_daap_tag")}
    ensures DaapPlausibility(f.data).Valid? <==> forall i :: 0 <= i < 4 ==> i < |f.data| && TagByte(f.data[i])
  {
    CutFramesAreAtoms(data, 0, []);
  }
}
