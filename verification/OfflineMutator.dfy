/** The offline mutator: bounded random changes to the packets of a sequence. */
module OfflineMutator {
  import opened Prelude
  import opened Bytes
  import opened BitFlips
  import opened MutationOperators

  // ----- Random choices -----

  method RandRange(n: nat) returns (k: nat)
    requires n > 0
    ensures k < n
  {
    k :| 0 <= k < n;
  }

  method Choice<T(==)>(s: seq<T>) returns (x: T)
    requires s != []
    ensures x in s
  {
    var i := RandRange(|s|);
    x := s[i];
  }

  method RandBytes(n: nat) returns (b: bytes)
    ensures |b| == n
  {
    b := [];
    for i := 0 to n
      invariant |b| == i
    {
      var x := RandRange(256);
      b := b + [x];
    }
  }

  // ----- Operators -----

  lemma {:induction false} XorByteIs(b: byte, start: nat, width: nat)
    requires start + width <= 8
    ensures Xor(b, Mask(start, width)) < 256
    ensures FlipBits([b], start, width) == [Xor(b, Mask(start, width))]
  {
    FlipFits([b], start, width);
    assert Range(1) == 256;
    assert LittleValue([b]) == b;
    var x := Xor(b, Mask(start, width));
    assert Little(x, 1) == [x % 256] + Little(x / 256, 0);
  }

  /** One bit of a message whose byte `pos` was replaced by that byte with bits flipped. */
  lemma BitInPlace(data: bytes, pos: nat, flipped: bytes, start: nat, width: nat, i: nat, j: nat)
    requires pos < |data| && i < |data| && j < 8 && start + width <= 8
    requires BitsFlipped([data[pos]], flipped, start, width)
    ensures FlippedAt(data, data[pos := flipped[0]], 8 * pos + start, width, 8 * i + j)
  {
    assert (8 * i + j) / 8 == i && (8 * i + j) % 8 == j;
    if i == pos {
      assert FlippedAt([data[pos]], flipped, start, width, j);
    }
  }

  /** Flipping bits of one byte in place flips those bits of the message, which start at bit `from`. */
  lemma ByteInPlace(data: bytes, pos: nat, start: nat, width: nat, from: nat)
    requires pos < |data| && start + width <= 8 && from == 8 * pos + start
    ensures BitsFlipped(data, data[pos := FlipBits([data[pos]], start, width)[0]], from, width)
  {
    var flipped := FlipBits([data[pos]], start, width);
    var out := data[pos := flipped[0]];
    FlipBitsFlips([data[pos]], start, width);
    forall k {:trigger FlippedAt(data, out, from, width, k)} | 0 <= k < 8 * |data|
      ensures FlippedAt(data, out, from, width, k)
    {
      BitInPlace(data, pos, flipped, start, width, k / 8, k % 8);
    }
  }

  lemma FlipsJoin(data: bytes, mid: bytes, out: bytes, start: nat, w1: nat, w2: nat)
    requires BitsFlipped(data, mid, start, w1) && BitsFlipped(mid, out, start + w1, w2)
    ensures BitsFlipped(data, out, start, w1 + w2)
  {
    forall k {:trigger FlippedAt(data, out, start, w1 + w2, k)} | 0 <= k < 8 * |data|
      ensures FlippedAt(data, out, start, w1 + w2, k)
    {
      assert FlippedAt(data, mid, start, w1, k) && FlippedAt(mid, out, start + w1, w2, k);
    }
  }

  /** Inverts `count` bytes one after the other. */
  method InvertBytes(data: bytes, pos: nat, count: nat) returns (out: bytes)
    requires pos + count <= |data|
    ensures BitsFlipped(data, out, 8 * pos, 8 * count)
  {
    out := data;
    for i := 0 to count
      invariant BitsFlipped(data, out, 8 * pos, 8 * i)
    {
      XorByteIs(out[pos + i], 0, 8);
      ByteInPlace(out, pos + i, 0, 8, 8 * pos + 8 * i);
      var next := out[pos + i := Xor(out[pos + i], Mask(0, 8))];
      FlipsJoin(data, out, next, 8 * pos, 8 * i, 8);
      out := next;
    }
  }

  /** Inverts one bit of one byte. */
  method InvertBit(data: bytes, pos: nat, bit: nat) returns (out: bytes)
    requires pos < |data| && bit < 8
    ensures BitsFlipped(data, out, 8 * pos + bit, 1)
  {
    XorByteIs(data[pos], bit, 1);
    ByteInPlace(data, pos, bit, 1, 8 * pos + bit);
    out := data[pos := Xor(data[pos], Mask(bit, 1))];
  }

  method PutWindow(data: bytes, pos: nat, window: bytes) returns (out: bytes)
    requires pos + |window| <= |data|
    ensures Overwritten(data, out, pos, window)
  {
    out := data[..pos] + window + data[pos + |window|..];
  }

  method PutToken(data: bytes, pos: nat, token: bytes) returns (out: bytes)
    requires pos <= |data|
    ensures Inserted(data, out, pos, token)
  {
    out := data[..pos] + token + data[pos..];
  }

  /** Adds one of the deltas to the number in a window of `width` bytes, wrapping. */
  method AddDelta(data: bytes, pos: nat, width: nat, little: bool, deltas: seq<int>, ghost allowed: set<int>)
    returns (out: bytes)
    requires pos + width <= |data| && deltas != [] && forall i :: 0 <= i < |deltas| ==> deltas[i] in allowed
    ensures ArithEffect(data, out, width, allowed)
  {
    var value := Read(data[pos..pos + width], little);
    var delta := Choice(deltas);
    var window := Write((value + delta) % Range(width), width, little);
    ReadWrite((value + delta) % Range(width), width, little);
    out := PutWindow(data, pos, window);
    assert Moved(data[pos..pos + width], window, little, delta);
  }

  /** A window of `width` bytes and the end from which its number is read. */
  method Window(length: nat, width: nat) returns (pos: nat, little: bool)
    requires width <= length
    ensures pos + width <= length
  {
    pos := RandRange(length - width + 1);
    little := true;
    if width > 1 {
      little := Choice([true, false]);
    }
  }

  lemma {:induction false} InterestingFits(width: nat, i: nat)
    requires width in {1, 2, 4} && i < |Interesting(width)|
    ensures Interesting(width)[i] < Range(width)
  {
    assert Range(1) == 256;
    assert Range(2) == 256 * Range(1);
    assert Range(3) == 256 * Range(2) && Range(4) == 256 * Range(3);
  }

  method PutInteresting(data: bytes, width: nat) returns (out: bytes)
    requires width in {1, 2, 4} && width <= |data|
    ensures OverwriteEffect(data, out,
              iset w: bytes, little: bool | |w| == width && Read(w, little) in Interesting(width) :: w)
  {
    var pos, little := Window(|data|, width);
    var i := RandRange(|Interesting(width)|);
    InterestingFits(width, i);
    var window := Write(Interesting(width)[i], width, little);
    ReadWrite(Interesting(width)[i], width, little);
    out := PutWindow(data, pos, window);
  }

  method LengthExtremeOp(l: Limits, data: bytes) returns (out: bytes)
    requires data != []
    ensures Effect(l, LengthExtreme, data, out)
  {
    if * {
      return data[..1];
    }
    var padding := RandBytes(if |data| <= l.extremeLength then l.extremeLength - |data| else 0);
    out := data + padding;
  }

  /** Overwrites with, or inserts, a token of the dictionary. */
  method DictionaryMutation(l: Limits, data: bytes, insert: bool) returns (r: Option<bytes>)
    requires data != []
    ensures r == None ==> Inapplicable(l, if insert then DictInsert else DictOverwrite, data)
    ensures r.Some? ==> Effect(l, if insert then DictInsert else DictOverwrite, data, r.value)
  {
    if l.dictionary == [] {
      return None;
    }
    var token := Choice(l.dictionary);
    if insert {
      var pos := RandRange(|data| + 1);
      var out := PutToken(data, pos, token);
      return Some(out);
    }
    if |token| > |data| {
      return None;
    }
    var pos := RandRange(|data| - |token| + 1);
    var out := PutWindow(data, pos, token);
    return Some(out);
  }

  predicate Known(op: Op) {
    match op
    case AflBitFlip(n) => n == 1 || n == 2 || n == 4
    case AflByteFlip(n) => n == 1 || n == 2 || n == 4
    case AflArith(n) => n == 1 || n == 2 || n == 4
    case AflInterest(n) => n == 1 || n == 2 || n == 4
    case _ => true
  }

  /** The plain operators, on a message that is not empty. */
  method ApplyPlain(l: Limits, op: Op, data: bytes) returns (out: bytes)
    requires ValidLimits(l) && data != [] && op in OPERATORS
    ensures Effect(l, op, data, out)
  {
    var pos := RandRange(|data|);
    match op
    case BitFlip =>
      var bit := RandRange(8);
      out := InvertBit(data, pos, bit);
    case ByteFlip =>
      out := InvertBytes(data, pos, 1);
    case Arithmetic =>
      out := AddDelta(data, pos, 1, true, [-1, 1, -16, 16], {-1, 1, -16, 16});
    case Insert =>
      var token := RandBytes(1);
      out := PutToken(data, pos, token);
    case Delete =>
      out := data[..pos] + data[pos + 1..];
      assert Inserted(out, data, pos, [data[pos]]);
    case Duplicate =>
      out := PutToken(data, pos, data[pos..pos + 1]);
    case BlockReplace =>
      var size := RandRange(4);
      size := if |data| - pos <= size + 1 then |data| - pos else size + 1;
      var window := RandBytes(size);
      out := PutWindow(data, pos, window);
    case Boundary =>
      var b := Choice([0, 1, 127, 128, 254, 255]);
      out := PutWindow(data, pos, [b]);
    case LengthExtreme =>
      out := LengthExtremeOp(l, data);
  }

  /** The operators of the single-packet stage, without the stacked one. */
  method ApplyStage(l: Limits, op: Op, data: bytes) returns (r: Option<bytes>)
    requires ValidLimits(l) && data != [] && Known(op) && op !in OPERATORS && op != Havoc
    ensures r == None ==> Inapplicable(l, op, data)
    ensures r.Some? ==> Effect(l, op, data, r.value)
  {
    match op
    case AflBitFlip(bits) =>
      if |data| * 8 < bits {
        return None;
      }
      var start := RandRange(|data| * 8 - bits + 1);
      FlipBitsFlips(data, start, bits);
      return Some(FlipBits(data, start, bits));
    case AflByteFlip(count) =>
      if |data| < count {
        return None;
      }
      var pos := RandRange(|data| - count + 1);
      var out := InvertBytes(data, pos, count);
      return Some(out);
    case AflArith(width) =>
      if |data| < width {
        return None;
      }
      var pos, little := Window(|data|, width);
      var out := AddDelta(data, pos, width, little, [-35, -16, -1, 1, 16, 35], {-35, -16, -1, 1, 16, 35});
      return Some(out);
    case AflInterest(width) =>
      if |data| < width {
        return None;
      }
      var out := PutInteresting(data, width);
      return Some(out);
    case DictOverwrite =>
      r := DictionaryMutation(l, data, false);
    case DictInsert =>
      r := DictionaryMutation(l, data, true);
  }

  /** Havoc stacks the other operators and never itself, so it stacks at most its configured number. */
  function Stages(ops: seq<Op>): (s: seq<Op>)
    ensures forall op :: op in s <==> op in ops && op != LengthExtreme && op != Havoc
  {
    if ops == [] then []
    else (if ops[0] == LengthExtreme || ops[0] == Havoc then [] else [ops[0]]) + Stages(ops[1..])
  }

  lemma OperatorsKnown(l: Limits, op: Op)
    requires op in Operators(l)
    ensures Known(op)
  {
  }

  /** Applies one operator; it only fails when it cannot be applied to this message. */
  method Apply(l: Limits, op: Op, data: bytes) returns (r: Option<bytes>)
    requires ValidLimits(l) && op in Operators(l)
    ensures r == None ==> Inapplicable(l, op, data)
    ensures r.Some? ==> data != [] && Effect(l, op, data, r.value)
    decreases if op == Havoc then 1 else 0, 1
  {
    if data == [] {
      return None;
    }
    if op in OPERATORS {
      var out := ApplyPlain(l, op, data);
      return Some(out);
    }
    OperatorsKnown(l, op);
    if op == Havoc {
      var out := ApplyHavoc(l, data);
      return Some(out);
    }
    r := ApplyStage(l, op, data);
  }

  method ApplyHavoc(l: Limits, data: bytes) returns (result: bytes)
    requires ValidLimits(l) && data != []
    ensures Effect(l, Havoc, data, result)
    decreases 1, 0
  {
    var stages := Stages(Operators(l));
    assert Stages(Operators(l))[0] == BitFlip;
    result := data;
    ghost var ops: seq<Op> := [];
    var rounds := RandRange(l.havocStack - 1);
    for i := 0 to rounds + 2
      invariant |ops| <= i && Stacked(l, ops, data, result)
    {
      var stage := Choice(stages);
      var candidate := Apply(l, stage, result);
      if candidate.Some? && candidate.value != [] && |candidate.value| <= l.maxMessageLength {
        StackedStep(l, ops, data, result, stage, candidate.value);
        result := candidate.value;
        ops := ops + [stage];
      }
    }
  }
}
