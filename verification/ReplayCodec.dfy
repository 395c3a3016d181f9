/** The AFLNet replay format: messages behind little-endian 32-bit lengths. */
module ReplayCodec {
  import opened Prelude
  import opened Bytes

  predicate Encodable(messages: seq<bytes>) {
    forall m :: m in messages ==> |m| < 0x1_0000_0000
  }

  function EncodeOne(m: bytes): bytes {
    Little(|m|, 4) + m
  }

  /** The join over all messages; packing a length of 2^32 or more is an error of the source. */
  function EncodeReplay(messages: seq<bytes>): bytes
    requires Encodable(messages)
  {
    if messages == [] then [] else EncodeOne(messages[0]) + EncodeReplay(messages[1..])
  }

  datatype DecodeResult =
    | Decoded(messages: seq<bytes>)
    | TruncatedLength(at: nat)
    | TruncatedPayload(at: nat, declared: nat, remaining: nat)
    | NoMessages

  lemma RangeOfFour()
    ensures Range(4) == 0x1_0000_0000
  {
    assert Range(1) == 256 && Range(2) == 0x1_0000 && Range(3) == 0x100_0000;
  }

  /** A message's encoding tells where it ends. */
  lemma OneIsPrefixFree(a: bytes, x: bytes, b: bytes, y: bytes)
    requires |a| < 0x1_0000_0000 && |b| < 0x1_0000_0000
    requires EncodeOne(a) + x == EncodeOne(b) + y
    ensures a == b && x == y
  {
    RangeOfFour();
    Associative(Little(|a|, 4), a, x);
    Associative(Little(|b|, 4), b, y);
    SplitEqual(Little(|a|, 4), a + x, Little(|b|, 4), b + y);
    LittleRoundTrip(|a|, 4);
    LittleRoundTrip(|b|, 4);
    SplitEqual(a, x, b, y);
  }

  /** The code is uniquely decodable: an encoding that starts with another encodes an extension of it. */
  lemma {:induction false} PrefixDecodes(a: seq<bytes>, x: bytes, b: seq<bytes>)
    requires Encodable(a) && Encodable(b) && EncodeReplay(a) + x == EncodeReplay(b)
    ensures |a| <= |b| && b[..|a|] == a && Encodable(b[|a|..]) && EncodeReplay(b[|a|..]) == x
  {
    if a == [] {
      assert b[0..] == b && [] + x == x;
    } else {
      Associative(EncodeOne(a[0]), EncodeReplay(a[1..]), x);
      assert b != [];
      OneIsPrefixFree(a[0], EncodeReplay(a[1..]) + x, b[0], EncodeReplay(b[1..]));
      PrefixDecodes(a[1..], x, b[1..]);
      assert b[1..][|a| - 1..] == b[|a|..];
      assert a == [a[0]] + a[1..];
    }
  }

  lemma {:induction false} EncodeAppend(a: seq<bytes>, m: bytes)
    requires Encodable(a) && |m| < 0x1_0000_0000
    ensures Encodable(a + [m]) && EncodeReplay(a + [m]) == EncodeReplay(a) + EncodeOne(m)
  {
    if a == [] {
      assert [m][1..] == [] && [] + [m] == [m];
      assert EncodeOne(m) + [] == EncodeOne(m) && [] + EncodeOne(m) == EncodeOne(m);
    } else {
      EncodeAppend(a[1..], m);
      assert (a + [m])[1..] == a[1..] + [m];
      Associative(EncodeOne(a[0]), EncodeReplay(a[1..]), EncodeOne(m));
    }
  }

  lemma {:induction false} FirstMessageFits(ms: seq<bytes>)
    requires ms != [] && Encodable(ms)
    ensures var x := EncodeReplay(ms);
            |x| >= 4 && LittleValue(x[..4]) == |ms[0]| <= |x| - 4
  {
    RangeOfFour();
    LittleRoundTrip(|ms[0]|, 4);
    assert EncodeReplay(ms)[..4] == Little(|ms[0]|, 4);
  }

  /** A rest that is not empty and does not start with a complete message has no encoding. */
  lemma {:induction false} NothingDecodes(a: seq<bytes>, x: bytes, data: bytes)
    requires Encodable(a) && EncodeReplay(a) + x == data && x != []
    requires |x| < 4 || |x| - 4 < LittleValue(x[..4])
    ensures forall ms :: Encodable(ms) ==> EncodeReplay(ms) != data
  {
    forall ms | Encodable(ms)
      ensures EncodeReplay(ms) != data
    {
      if EncodeReplay(ms) == data {
        PrefixDecodes(a, x, ms);
        FirstMessageFits(ms[|a|..]);
      }
    }
  }

  /** Reading one message extends the decoded part by its encoding. */
  lemma {:induction false} ReadOne(messages: seq<bytes>, data: bytes, offset: nat, length: nat)
    requires Encodable(messages) && offset + 4 + length <= |data|
    requires EncodeReplay(messages) == data[..offset] && length == LittleValue(data[offset..offset + 4])
    ensures var m := data[offset + 4..offset + 4 + length];
            Encodable(messages + [m]) && EncodeReplay(messages + [m]) == data[..offset + 4 + length]
  {
    var m := data[offset + 4..offset + 4 + length];
    LittleOfValue(data[offset..offset + 4]);
    RangeOfFour();
    EncodeAppend(messages, m);
    assert data[..offset + 4 + length] == data[..offset] + (data[offset..offset + 4] + m);
  }

  lemma {:induction false} OnlyDecoding(messages: seq<bytes>)
    requires Encodable(messages)
    ensures forall ms :: Encodable(ms) && EncodeReplay(ms) == EncodeReplay(messages) ==> ms == messages
  {
    forall ms | Encodable(ms) && EncodeReplay(ms) == EncodeReplay(messages)
      ensures ms == messages
    {
      assert EncodeReplay(messages) + [] == EncodeReplay(ms);
      PrefixDecodes(messages, [], ms);
      if |ms| > |messages| {
        FirstMessageFits(ms[|messages|..]);
      }
    }
  }

  /**
   * Decoding inverts encoding in both directions: it succeeds exactly on the encodings of non-empty
   * message lists, with that list. An error names the offset behind the last complete message.
   */
  method DecodeReplay(data: bytes) returns (r: DecodeResult)
    ensures r.Decoded? ==> r.messages != [] && Encodable(r.messages) && EncodeReplay(r.messages) == data
    ensures forall ms :: ms != [] && Encodable(ms) && EncodeReplay(ms) == data ==> r == Decoded(ms)
    ensures r.NoMessages? <==> data == []
    ensures r.TruncatedLength? ==> r.at <= |data| < r.at + 4
    ensures r.TruncatedPayload? ==>
              && 4 <= r.at <= |data| && r.remaining == |data| - r.at < r.declared
              && r.declared == LittleValue(data[r.at - 4..r.at])
  {
    var messages: seq<bytes> := [];
    var offset := 0;
    while offset < |data|
      invariant offset <= |data| && Encodable(messages) && EncodeReplay(messages) == data[..offset]
      invariant messages == [] ==> offset == 0
    {
      ghost var rest := data[offset..];
      assert EncodeReplay(messages) + rest == data;
      if |data| - offset < 4 {
        NothingDecodes(messages, rest, data);
        return TruncatedLength(offset);
      }
      assert rest[..4] == data[offset..offset + 4];
      var length := LittleValue(data[offset..offset + 4]);
      if length > |data| - offset - 4 {
        NothingDecodes(messages, rest, data);
        return TruncatedPayload(offset + 4, length, |data| - offset - 4);
      }
      ReadOne(messages, data, offset, length);
      messages := messages + [data[offset + 4..offset + 4 + length]];
      offset := offset + 4 + length;
    }
    assert data[..offset] == data;
    if messages == [] {
      return NoMessages;
    }
    OnlyDecoding(messages);
    return Decoded(messages);
  }
}
