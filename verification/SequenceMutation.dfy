/** Mutating a packet sequence: which packets may change, by how much, and what the counters record. */
module SequenceMutation {
  import opened Prelude
  import opened Bytes
  import opened MutationOperators
  import opened OfflineMutator

  type Packet = (string, bytes)

  /** One accepted mutation: the packet, the operator, and how far the packet's length is from the original. */
  datatype Change = Change(index: nat, op: Op, delta: int)

  datatype Stats = Stats(attempts: nat, applied: nat, bytesAdded: nat, bytesRemoved: nat, operators: multiset<Op>)

  /** The counters grew by exactly the logged mutations, whose lengths add up to `growth`. */
  ghost predicate Accounts(before: Stats, after: Stats, log: seq<Change>, growth: int) {
    && after.attempts == before.attempts
    && after.applied == before.applied + |log|
    && after.operators == before.operators + OpsOf(log)
    && after.bytesAdded - after.bytesRemoved == before.bytesAdded - before.bytesRemoved + growth
  }

  lemma AccountsJoin(c0: Stats, c1: Stats, c2: Stats, a: seq<Change>, b: seq<Change>, g: int, h: int)
    requires Accounts(c0, c1, a, g) && Accounts(c1, c2, b, h)
    ensures Accounts(c0, c2, a + b, g + h)
  {
    OpsOfConcat(a, b);
  }

  function Abs(n: int): nat {
    if n < 0 then -n else n
  }

  function OpsOf(log: seq<Change>): multiset<Op> {
    if log == [] then multiset{} else OpsOf(log[..|log| - 1]) + multiset{log[|log| - 1].op}
  }

  function TotalLength(s: seq<Packet>): nat {
    if s == [] then 0 else TotalLength(s[..|s| - 1]) + |s[|s| - 1].1|
  }

  /** The entries of one packet, in order. */
  function EntriesFor(log: seq<Change>, index: nat): seq<Change> {
    if log == [] then []
    else EntriesFor(log[..|log| - 1], index) + (if log[|log| - 1].index == index then [log[|log| - 1]] else [])
  }

  /** Every entry is of packet `index`, and keeps within `maxDelta` unless its operator is the extreme one. */
  predicate EntriesOf(log: seq<Change>, index: nat, maxDelta: nat) {
    log == [] ||
    (&& log[|log| - 1].index == index
     && (log[|log| - 1].op != LengthExtreme ==> Abs(log[|log| - 1].delta) <= maxDelta)
     && EntriesOf(log[..|log| - 1], index, maxDelta))
  }

  /** A packet after its accepted mutations: unchanged without one, otherwise within every bound. */
  predicate PacketWithin(original: bytes, mutated: bytes, log: seq<Change>, maxLength: nat, maxDelta: nat) {
    if log == [] then mutated == original
    else
      var last := log[|log| - 1];
      && mutated != [] && |mutated| <= maxLength
      && last.delta == |mutated| - |original|
      && (last.op != LengthExtreme ==> Abs(|mutated| - |original|) <= maxDelta)
  }

  /** The log is a true history: each entry's operator led from the packet before it to the one after. */
  ghost predicate Derives(l: Limits, original: bytes, mutated: bytes, log: seq<Change>)
    decreases |log|
  {
    if log == [] then mutated == original
    else
      exists mid {:trigger Derives(l, original, mid, log[..|log| - 1])} ::
        Derives(l, original, mid, log[..|log| - 1]) && Effect(l, log[|log| - 1].op, mid, mutated)
  }

  lemma {:induction false} TotalUpdate(s: seq<Packet>, i: nat, p: Packet)
    requires i < |s|
    ensures TotalLength(s[i := p]) == TotalLength(s) - |s[i].1| + |p.1|
  {
    var t := s[i := p];
    if i == |s| - 1 {
      assert t[..|t| - 1] == s[..|s| - 1];
    } else {
      assert t[..|t| - 1] == s[..|s| - 1][i := p];
      TotalUpdate(s[..|s| - 1], i, p);
    }
  }

  lemma {:induction false} OpsOfConcat(a: seq<Change>, b: seq<Change>)
    ensures OpsOf(a + b) == OpsOf(a) + OpsOf(b)
    decreases |b|
  {
    if b == [] {
      assert a + b == a;
    } else {
      assert (a + b)[..|a + b| - 1] == a + b[..|b| - 1];
      OpsOfConcat(a, b[..|b| - 1]);
    }
  }

  /** The entries of one packet added to a log are found under that packet and under no other. */
  lemma {:induction false} EntriesForConcat(log: seq<Change>, more: seq<Change>, index: nat, maxDelta: nat, i: nat)
    requires EntriesOf(more, index, maxDelta)
    ensures EntriesFor(log + more, i) == EntriesFor(log, i) + (if i == index then more else [])
    decreases |more|
  {
    if more == [] {
      assert log + more == log;
    } else {
      assert (log + more)[..|log + more| - 1] == log + more[..|more| - 1];
      EntriesForConcat(log, more[..|more| - 1], index, maxDelta, i);
      assert more == more[..|more| - 1] + [more[|more| - 1]];
    }
  }

  /** The packets that differ. */
  ghost function Differing(a: seq<Packet>, b: seq<Packet>): set<nat>
    requires |a| == |b|
  {
    set i: nat | i < |a| && a[i] != b[i]
  }

  /** What every mutation of a sequence keeps, packet by packet. */
  ghost predicate Kept(m: Mutator, s: seq<Packet>, t: seq<Packet>, touched: set<nat>, log: seq<Change>) {
    && |t| == |s|
    && forall i: nat {:trigger PacketKept(m, s, t, touched, log, i)} :: i < |s| ==> PacketKept(m, s, t, touched, log, i)
  }

  ghost predicate PacketKept(m: Mutator, s: seq<Packet>, t: seq<Packet>, touched: set<nat>, log: seq<Change>, i: nat)
    requires i < |s| == |t|
  {
    && t[i].0 == s[i].0
    && (i !in touched ==> t[i] == s[i] && EntriesFor(log, i) == [])
    && EntriesOf(EntriesFor(log, i), i, m.maxDelta)
    && PacketWithin(s[i].1, t[i].1, EntriesFor(log, i), m.limits.maxMessageLength, m.maxDelta)
    && Derives(m.limits, s[i].1, t[i].1, EntriesFor(log, i))
  }

  /** Putting one mutated packet into the sequence keeps what holds of the others. */
  lemma {:induction false} KeptStep(
    m: Mutator, s: seq<Packet>, t: seq<Packet>, touched: set<nat>, log: seq<Change>, index: nat,
    mutated: bytes, more: seq<Change>)
    requires Kept(m, s, t, touched, log) && index < |s| && index !in touched
    requires EntriesOf(more, index, m.maxDelta)
    requires PacketWithin(s[index].1, mutated, more, m.limits.maxMessageLength, m.maxDelta)
    requires Derives(m.limits, s[index].1, mutated, more)
    ensures Kept(m, s, t[index := (s[index].0, mutated)], touched + {index}, log + more)
  {
    var u := t[index := (s[index].0, mutated)];
    forall i: nat | i < |s|
      ensures PacketKept(m, s, u, touched + {index}, log + more, i)
    {
      assert PacketKept(m, s, t, touched, log, i) && PacketKept(m, s, t, touched, log, index);
      EntriesForConcat(log, more, index, m.maxDelta, i);
      assert EntriesFor(log, index) + more == more;
      assert EntriesFor(log, i) + [] == EntriesFor(log, i);
    }
  }

  lemma {:induction false} DerivesStep(
    l: Limits, original: bytes, mid: bytes, mutated: bytes, log: seq<Change>, entry: Change)
    requires Derives(l, original, mid, log) && Effect(l, entry.op, mid, mutated)
    ensures Derives(l, original, mutated, log + [entry])
  {
    var more := log + [entry];
    assert more[..|more| - 1] == log && more[|more| - 1] == entry;
  }

  /** An accepted candidate extends the log and keeps the packet within its bounds. */
  lemma {:induction false} AcceptStep(original: bytes, mutated: bytes, log: seq<Change>, entry: Change,
                                      maxLength: nat, maxDelta: nat)
    requires EntriesOf(log, entry.index, maxDelta)
    requires mutated != [] && |mutated| <= maxLength && entry.delta == |mutated| - |original|
    requires entry.op != LengthExtreme ==> Abs(entry.delta) <= maxDelta
    ensures EntriesOf(log + [entry], entry.index, maxDelta)
    ensures PacketWithin(original, mutated, log + [entry], maxLength, maxDelta)
    ensures OpsOf(log + [entry]) == OpsOf(log) + multiset{entry.op}
  {
    assert (log + [entry])[..|log + [entry]| - 1] == log;
  }

  lemma DifferingFew(m: Mutator, s: seq<Packet>, t: seq<Packet>, touched: set<nat>, log: seq<Change>)
    requires Kept(m, s, t, touched, log)
    ensures Differing(s, t) <= touched && |Differing(s, t)| <= |touched|
  {
    forall i: nat | i < |s| && s[i] != t[i]
      ensures i in touched
    {
      assert PacketKept(m, s, t, touched, log, i);
    }
    var d := Differing(s, t);
    assert touched == d + (touched - d) && |touched| == |d| + |touched - d|;
  }

  class Mutator {
    const enabled: bool
    const maxPackets: nat
    const maxMutations: nat
    const maxDelta: nat
    const mutateImported: bool
    const protectedTypes: set<string>
    const limits: Limits
    var attempts: nat
    var applied: nat
    var bytesAdded: nat
    var bytesRemoved: nat
    var operators: multiset<Op>

    ghost function Counters(): Stats
      reads this
    {
      Stats(attempts, applied, bytesAdded, bytesRemoved, operators)
    }

    /** Settings out of range are moved into it, and empty dictionary tokens are dropped. */
    constructor (enabled: bool, maxPackets: int, maxMutations: int, maxDelta: int, mutateImported: bool,
                 protectedTypes: set<string>, maxMessageLength: int, extremeLength: int, aflnet: bool,
                 dictionary: seq<bytes>, havocStack: int)
      ensures ValidLimits(limits) && this.enabled == enabled && this.protectedTypes == protectedTypes
      ensures this.mutateImported == mutateImported && limits.aflnet == aflnet
      ensures IsClamped(this.maxPackets, maxPackets, 0) && IsClamped(this.maxMutations, maxMutations, 0)
      ensures IsClamped(this.maxDelta, maxDelta, 0) && IsClamped(limits.havocStack, havocStack, 2)
      ensures IsClamped(limits.maxMessageLength, maxMessageLength, 1)
      ensures limits.extremeLength <= limits.maxMessageLength
      ensures extremeLength > limits.maxMessageLength ==> limits.extremeLength == limits.maxMessageLength
      ensures extremeLength <= limits.maxMessageLength ==> IsClamped(limits.extremeLength, extremeLength, 1)
      ensures forall t :: t in limits.dictionary <==> t in dictionary && t != []
      ensures Counters() == Stats(0, 0, 0, 0, multiset{})
    {
      this.enabled := enabled;
      this.maxPackets := if maxPackets < 0 then 0 else maxPackets;
      this.maxMutations := if maxMutations < 0 then 0 else maxMutations;
      this.maxDelta := if maxDelta < 0 then 0 else maxDelta;
      this.mutateImported := mutateImported;
      this.protectedTypes := protectedTypes;
      var maxLength := if maxMessageLength < 1 then 1 else maxMessageLength;
      var extreme := if extremeLength < 1 then 1 else extremeLength;
      limits := Limits(maxLength, if extreme < maxLength then extreme else maxLength, NonEmpty(dictionary),
                       if havocStack < 2 then 2 else havocStack, aflnet);
      attempts, applied, bytesAdded, bytesRemoved, operators := 0, 0, 0, 0, multiset{};
    }

    /** Counts one accepted mutation of a packet. */
    method Count(index: nat, op: Op, delta: int, before: nat, after: nat)
      modifies this
      ensures Accounts(old(Counters()), Counters(), [Change(index, op, delta)], after - before)
    {
      assert [Change(index, op, delta)][..0] == [];
      applied := applied + 1;
      operators := operators + multiset{op};
      bytesAdded := bytesAdded + if after > before then after - before else 0;
      bytesRemoved := bytesRemoved + if before > after then before - after else 0;
    }

    /** A candidate is acceptable: not empty, not too long, and near the original unless from the extreme operator. */
    predicate Acceptable(original: bytes, op: Op, candidate: bytes) {
      && candidate != [] && |candidate| <= limits.maxMessageLength
      && (op != LengthExtreme ==> Abs(|candidate| - |original|) <= maxDelta)
    }

    /** One operator is drawn and applied; it gives nothing only when it cannot apply or its candidate is refused. */
    method Propose(original: bytes, current: bytes) returns (op: Op, r: Option<bytes>)
      requires ValidLimits(limits)
      ensures op in Operators(limits)
      ensures r.Some? ==> Effect(limits, op, current, r.value) && Acceptable(original, op, r.value)
      ensures r.None? ==>
                || Inapplicable(limits, op, current)
                || exists c :: Effect(limits, op, current, c) && !Acceptable(original, op, c)
    {
      op := Choice(Operators(limits));
      r := Apply(limits, op, current);
      if r == None {
        return;
      }
      if r.value == [] || |r.value| > limits.maxMessageLength {
        return op, None;
      }
      if op != LengthExtreme && Abs(|r.value| - |original|) > maxDelta {
        return op, None;
      }
    }

    /** Mutates one packet up to `maxMutations` times; a candidate out of bounds is dropped. */
    method MutatePacket(index: nat, original: bytes) returns (mutated: bytes, log: seq<Change>)
      requires ValidLimits(limits) && maxMutations > 0
      modifies this
      ensures PacketWithin(original, mutated, log, limits.maxMessageLength, maxDelta)
      ensures Derives(limits, original, mutated, log)
      ensures EntriesOf(log, index, maxDelta) && |log| <= maxMutations
      ensures Accounts(old(Counters()), Counters(), log, |mutated| - |original|)
    {
      mutated := original;
      log := [];
      var rounds := RandRange(maxMutations);
      for i := 0 to rounds + 1
        invariant PacketWithin(original, mutated, log, limits.maxMessageLength, maxDelta)
        invariant Derives(limits, original, mutated, log)
        invariant EntriesOf(log, index, maxDelta) && |log| <= i
        invariant Accounts(old(Counters()), Counters(), log, |mutated| - |original|)
      {
        var op, r := Propose(original, mutated);
        if r.Some? {
          var entry := Change(index, op, |r.value| - |original|);
          DerivesStep(limits, original, mutated, r.value, log, entry);
          AcceptStep(original, r.value, log, entry, limits.maxMessageLength, maxDelta);
          ghost var before := Counters();
          Count(index, op, entry.delta, |mutated|, |r.value|);
          AccountsJoin(old(Counters()), before, Counters(), log, [entry], |mutated| - |original|,
                       |r.value| - |mutated|);
          mutated := r.value;
          log := log + [entry];
        }
      }
    }

    /** Mutates one packet that was not touched yet. */
    method MutateOne(ghost sequence: seq<Packet>, current: seq<Packet>, ghost changed: seq<Change>,
                     ghost touched: set<nat>, index: nat)
      returns (result: seq<Packet>, log: seq<Change>)
      requires ValidLimits(limits) && maxMutations > 0
      requires Kept(this, sequence, current, touched, changed) && index < |sequence| && index !in touched
      modifies this
      ensures Kept(this, sequence, result, touched + {index}, changed + log)
      ensures Accounts(old(Counters()), Counters(), log, TotalLength(result) - TotalLength(current))
    {
      assert PacketKept(this, sequence, current, touched, changed, index);
      var (msgType, original) := current[index];
      var mutated;
      mutated, log := MutatePacket(index, original);
      KeptStep(this, sequence, current, touched, changed, index, mutated, log);
      TotalUpdate(current, index, (msgType, mutated));
      result := current[index := (msgType, mutated)];
    }

    /** Mutates packets drawn without repetition from the candidates. */
    method MutateCandidates(sequence: seq<Packet>, candidates: set<nat>, packetCount: nat)
      returns (result: seq<Packet>, changed: seq<Change>, ghost touched: set<nat>)
      requires ValidLimits(limits) && maxMutations > 0
      requires packetCount <= |candidates| && forall i :: i in candidates ==> i < |sequence|
      modifies this
      ensures Kept(this, sequence, result, touched, changed)
      ensures touched <= candidates && |touched| == packetCount
      ensures Accounts(old(Counters()), Counters(), changed, TotalLength(result) - TotalLength(sequence))
    {
      result := sequence;
      changed := [];
      var remaining := candidates;
      touched := {};
      KeptAtStart(this, sequence);
      for k := 0 to packetCount
        invariant Kept(this, sequence, result, touched, changed)
        invariant remaining == candidates - touched && touched <= candidates
        invariant |touched| == k && |remaining| == |candidates| - k
        invariant Accounts(old(Counters()), Counters(), changed, TotalLength(result) - TotalLength(sequence))
      {
        var index :| index in remaining;
        remaining := remaining - {index};
        ghost var before, length := Counters(), TotalLength(result);
        var log;
        result, log := MutateOne(sequence, result, changed, touched, index);
        AccountsJoin(old(Counters()), before, Counters(), changed, log, length - TotalLength(sequence),
                     TotalLength(result) - length);
        changed := changed + log;
        touched := touched + {index};
      }
    }

    /**
     * Mutates some packets after the prefix. Types, the prefix and protected packets stay; few packets
     * change, each within the bounds; and the counters account for every accepted mutation.
     */
    method MutateSequence(sequence: seq<Packet>, prefixLength: int, imported: bool)
      returns (result: seq<Packet>, changed: seq<Change>, ghost touched: set<nat>)
      requires ValidLimits(limits)
      modifies this
      ensures Kept(this, sequence, result, touched, changed)
      ensures forall i :: i in touched ==> prefixLength <= i < |sequence| && sequence[i].0 !in protectedTypes
      ensures |Differing(sequence, result)| <= |touched| <= maxPackets
      ensures attempts == old(attempts) || attempts == old(attempts) + 1
      ensures Accounts(old(Counters()).(attempts := attempts), Counters(), changed,
                       TotalLength(result) - TotalLength(sequence))
      ensures !enabled || (imported && !mutateImported) || maxMutations == 0 ==>
                result == sequence && changed == [] && Counters() == old(Counters())
    {
      KeptAtStart(this, sequence);
      DifferingFew(this, sequence, sequence, {}, []);
      touched := {};
      var skip := *;
      if !enabled || sequence == [] || maxPackets <= 0 || maxMutations <= 0 || (imported && !mutateImported) || skip {
        return sequence, [], touched;
      }
      attempts := attempts + 1;
      var candidates := set i: nat | i < |sequence| && prefixLength <= i && sequence[i].0 !in protectedTypes;
      if candidates == {} {
        return sequence, [], touched;
      }
      var packetCount := RandRange(if maxPackets < |candidates| then maxPackets else |candidates|);
      result, changed, touched := MutateCandidates(sequence, candidates, packetCount + 1);
      DifferingFew(this, sequence, result, touched, changed);
    }
  }

  /** A setting: the value asked for, or the least allowed one if that is more. */
  predicate IsClamped(setting: nat, asked: int, least: nat) {
    setting >= asked && setting >= least && (setting == asked || setting == least)
  }

  function NonEmpty(tokens: seq<bytes>): (r: seq<bytes>)
    ensures forall i :: 0 <= i < |r| ==> r[i] != [] && r[i] in tokens
    ensures forall t :: t in tokens && t != [] ==> t in r
  {
    if tokens == [] then []
    else (if tokens[0] == [] then [] else [tokens[0]]) + NonEmpty(tokens[1..])
  }

  lemma KeptAtStart(m: Mutator, s: seq<Packet>)
    ensures Kept(m, s, s, {}, [])
  {
    forall i: nat | i < |s|
      ensures PacketKept(m, s, s, {}, [], i)
    {
    }
  }
}
