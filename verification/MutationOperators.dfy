/** The byte-level mutation operators: what each may do to one message. */
module MutationOperators {
  import opened Bytes
  import opened BitFlips

  datatype Op =
    | BitFlip | ByteFlip | Arithmetic | Insert | Delete | Duplicate | BlockReplace | Boundary | LengthExtreme
    | AflBitFlip(bits: nat) | AflByteFlip(count: nat) | AflArith(width: nat) | AflInterest(width: nat)
    | DictOverwrite | DictInsert | Havoc

  const OPERATORS: seq<Op> := [
    BitFlip, ByteFlip, Arithmetic, Insert, Delete, Duplicate, BlockReplace, Boundary, LengthExtreme]

  const AFLNET_OPERATORS: seq<Op> := [
    AflBitFlip(1), AflBitFlip(2), AflBitFlip(4),
    AflByteFlip(1), AflByteFlip(2), AflByteFlip(4),
    AflArith(1), AflArith(2), AflArith(4),
    AflInterest(1), AflInterest(2), AflInterest(4),
    DictOverwrite, DictInsert, Havoc]

  const INTERESTING_8: seq<nat> := [0, 1, 16, 32, 64, 100, 127, 128, 255]
  const INTERESTING_16: seq<nat> := [0, 1, 16, 32, 64, 100, 127, 128, 255, 256, 512, 1000, 1024, 32767, 32768, 65535]
  const INTERESTING_32: seq<nat> := [
    0, 1, 16, 32, 64, 100, 127, 128, 255, 256, 512, 1000, 1024, 65535, 65536, 100663045, 2147483647,
    2147483648, 4294967295]

  function Interesting(width: nat): seq<nat> {
    if width == 1 then INTERESTING_8 else if width == 2 then INTERESTING_16 else INTERESTING_32
  }

  /** The operators' bounds and dictionary. */
  datatype Limits = Limits(maxMessageLength: nat, extremeLength: nat, dictionary: seq<bytes>, havocStack: nat,
                           aflnet: bool)

  predicate ValidLimits(l: Limits) {
    && 1 <= l.extremeLength <= l.maxMessageLength && l.havocStack >= 2
    && forall i :: 0 <= i < |l.dictionary| ==> l.dictionary[i] != []
  }

  function Operators(l: Limits): seq<Op> {
    OPERATORS + (if l.aflnet then AFLNET_OPERATORS else [])
  }

  // ----- What an operator may do -----

  /** `out` is `data` with the bytes from `pos` to `pos + width` replaced by `window`. */
  predicate Overwritten(data: bytes, out: bytes, pos: nat, window: bytes) {
    pos + |window| <= |data| && out == data[..pos] + window + data[pos + |window|..]
  }

  /** `long` is `short` with `token` put in at `pos`. */
  predicate Inserted(short: bytes, long: bytes, pos: nat, token: bytes) {
    pos <= |short| && long == short[..pos] + token + short[pos..]
  }

  /** The number a window stands for, read from either end. */
  function Read(window: bytes, little: bool): nat {
    if little then LittleValue(window) else BigValue(window)
  }

  function Write(n: nat, width: nat, little: bool): (w: bytes)
    ensures |w| == width
  {
    if little then Little(n, width) else Big(n, width)
  }

  lemma {:induction false} ReadWrite(n: nat, width: nat, little: bool)
    requires n < Range(width)
    ensures Read(Write(n, width, little), little) == n
  {
    LittleRoundTrip(n, width);
    BigRoundTrip(n, width);
  }

  /** The window's number moved by `delta`, wrapping at its width. */
  predicate Moved(before: bytes, after: bytes, little: bool, delta: int) {
    |after| == |before| && Read(after, little) == (Read(before, little) + delta) % Range(|before|)
  }

  ghost predicate ArithEffect(data: bytes, out: bytes, width: nat, deltas: set<int>) {
    exists pos: nat, window, little, delta
      {:trigger Overwritten(data, out, pos, window), Moved(data[pos..pos + width], window, little, delta)} ::
      && delta in deltas && |window| == width && Overwritten(data, out, pos, window)
      && Moved(data[pos..pos + width], window, little, delta)
  }

  ghost predicate OverwriteEffect(data: bytes, out: bytes, windows: iset<bytes>) {
    exists pos: nat, window {:trigger Overwritten(data, out, pos, window)} ::
      window in windows && Overwritten(data, out, pos, window)
  }

  ghost predicate FlipEffect(data: bytes, out: bytes, width: nat) {
    exists start: nat :: BitsFlipped(data, out, start, width)
  }

  ghost predicate InsertEffect(short: bytes, long: bytes, tokens: iset<bytes>) {
    exists pos: nat, token {:trigger Inserted(short, long, pos, token)} ::
      token in tokens && Inserted(short, long, pos, token)
  }

  /** What an operator other than the stacked one does to a message it changes. */
  ghost predicate SingleEffect(l: Limits, op: Op, data: bytes, out: bytes) {
    match op
    case BitFlip => FlipEffect(data, out, 1)
    case ByteFlip => FlipEffect(data, out, 8)
    case Arithmetic => ArithEffect(data, out, 1, {-1, 1, -16, 16})
    case Insert => InsertEffect(data, out, iset t: bytes | |t| == 1)
    case Delete => InsertEffect(out, data, iset t: bytes | |t| == 1)
    case Duplicate => InsertEffect(data, out, iset t: bytes | |t| == 1 && t[0] in data)
    case BlockReplace => OverwriteEffect(data, out, iset w: bytes | 1 <= |w| <= 4)
    case Boundary => OverwriteEffect(data, out, iset w: bytes | |w| == 1 && w[0] in {0, 1, 127, 128, 254, 255})
    case LengthExtreme =>
      || (data != [] && out == data[..1])
      || (data <= out && |out| == if |data| <= l.extremeLength then l.extremeLength else |data|)
    case AflBitFlip(bits) => FlipEffect(data, out, bits)
    case AflByteFlip(count) => FlipEffect(data, out, 8 * count)
    case AflArith(width) => ArithEffect(data, out, width, {-35, -16, -1, 1, 16, 35})
    case AflInterest(width) =>
      OverwriteEffect(data, out,
        iset w: bytes, little: bool | |w| == width && Read(w, little) in Interesting(width) :: w)
    case DictOverwrite => OverwriteEffect(data, out, iset t | t in l.dictionary)
    case DictInsert => InsertEffect(data, out, iset t | t in l.dictionary)
    case Havoc => false
  }

  predicate Stackable(l: Limits, op: Op) {
    op in Operators(l) && op != LengthExtreme && op != Havoc
  }

  /** A chain of effects of stackable operators, each of which left a message that is not empty or too long. */
  ghost predicate Stacked(l: Limits, ops: seq<Op>, data: bytes, out: bytes)
    decreases |ops|
  {
    if ops == [] then out == data
    else
      && Stackable(l, ops[|ops| - 1]) && out != [] && |out| <= l.maxMessageLength
      && exists mid {:trigger Stacked(l, ops[..|ops| - 1], data, mid)} ::
           Stacked(l, ops[..|ops| - 1], data, mid) && SingleEffect(l, ops[|ops| - 1], mid, out)
  }

  /** What the operator does to a message it changes; the stacked one chains at most its number of the others. */
  ghost predicate Effect(l: Limits, op: Op, data: bytes, out: bytes) {
    if op == Havoc then exists ops :: |ops| <= l.havocStack && Stacked(l, ops, data, out)
    else SingleEffect(l, op, data, out)
  }

  lemma {:induction false} StackedStep(l: Limits, ops: seq<Op>, data: bytes, mid: bytes, op: Op, out: bytes)
    requires Stacked(l, ops, data, mid) && Stackable(l, op) && Effect(l, op, mid, out)
    requires out != [] && |out| <= l.maxMessageLength
    ensures Stacked(l, ops + [op], data, out)
  {
    assert (ops + [op])[..|ops + [op]| - 1] == ops;
  }

  /** The operator has nothing it could do to this message. */
  predicate Inapplicable(l: Limits, op: Op, data: bytes) {
    || data == []
    || (op.AflBitFlip? && 8 * |data| < op.bits)
    || (op.AflByteFlip? && |data| < op.count)
    || (op.AflArith? && |data| < op.width)
    || (op.AflInterest? && |data| < op.width)
    || ((op.DictOverwrite? || op.DictInsert?) && l.dictionary == [])
    || (op.DictOverwrite? && exists i :: 0 <= i < |l.dictionary| && |l.dictionary[i]| > |data|)
  }

  /** What an operator of fixed length change adds. */
  function LengthChange(op: Op): int {
    if op.Insert? || op.Duplicate? then 1 else if op.Delete? then -1 else 0
  }

  lemma ArithLength(data: bytes, out: bytes, width: nat, deltas: set<int>)
    requires ArithEffect(data, out, width, deltas)
    ensures |out| == |data|
  {
    var pos: nat, window, little, delta :|
      && delta in deltas && |window| == width && Overwritten(data, out, pos, window)
      && Moved(data[pos..pos + width], window, little, delta);
  }

  /** Three operators may change the length freely; every other one by its fixed amount. */
  lemma LengthEffect(l: Limits, op: Op, data: bytes, out: bytes)
    requires Effect(l, op, data, out) && !op.LengthExtreme? && !op.DictInsert? && !op.Havoc?
    ensures |out| - |data| == LengthChange(op)
  {
    match op
    case Arithmetic => ArithLength(data, out, 1, {-1, 1, -16, 16});
    case AflArith(width) => ArithLength(data, out, width, {-35, -16, -1, 1, 16, 35});
    case _ =>
  }

  /** Only deleting its one byte leaves a message empty. */
  lemma EmptyEffect(l: Limits, op: Op, data: bytes, out: bytes)
    requires Effect(l, op, data, out) && ValidLimits(l) && data != [] && out == []
    ensures op == Delete && |data| == 1
  {
    if !op.LengthExtreme? && !op.DictInsert? && !op.Havoc? {
      LengthEffect(l, op, data, out);
    }
  }
}
