/** Cutting a receive batch into consecutive frames, one boundary at a time. */
module FrameChain {
  import opened Prelude
  import opened Bytes

  datatype Status = Framed | Incomplete(reason: string)

  datatype Frame = Frame(data: bytes, start: nat, end: nat, status: Status)

  /** The next boundary behind a cursor, or why there is none. */
  datatype Cut = At(end: nat) | Stop(reason: string)

  datatype Chain = Whole(frames: seq<Frame>) | Broken(reason: string)

  type Cutter = (bytes, nat) -> Cut

  /** A boundary lies behind the cursor and inside the batch. */
  ghost predicate Forward(f: Cutter) {
    forall data: bytes, c: nat :: c < |data| && f(data, c).At? ==> c < f(data, c).end <= |data|
  }

  /** Cuts from `c` on, behind the frames in `done`. */
  ghost function Cuts(f: Cutter, data: bytes, c: nat, done: seq<Frame>): Chain
    requires Forward(f) && c <= |data|
    decreases |data| - c
  {
    if c == |data| then Whole(done)
    else
      match f(data, c)
      case Stop(reason) => Broken(reason)
      case At(end) => Cuts(f, data, end, done + [Frame(data[c..end], c, end, Framed)])
  }

  /** The frames of a chain that reached the end, and otherwise the batch as one frame. */
  function FramesOrBatch(chain: Chain, data: bytes): seq<Frame> {
    if chain.Whole? && chain.frames != [] then chain.frames else [Frame(data, 0, |data|, Framed)]
  }

  /** The same, but a batch that could not be cut is marked as incomplete. */
  function FramesOrIncomplete(chain: Chain, data: bytes): seq<Frame> {
    match chain
    case Whole(frames) =>
      if frames == [] then [Frame(data, 0, |data|, Incomplete("trailing_data_without_complete_frame"))] else frames
    case Broken(reason) => [Frame(data, 0, |data|, Incomplete(reason))]
  }

  /** Frames that lie one behind the other from `from` to the end, each with its slice of the batch. */
  predicate Tiles(data: bytes, frames: seq<Frame>, from: nat) {
    if frames == [] then from == |data|
    else
      && frames[0].start == from <= frames[0].end <= |data|
      && frames[0].data == data[frames[0].start..frames[0].end]
      && Tiles(data, frames[1..], frames[0].end)
  }

  /** What was cut so far and the rest of the batch. */
  predicate TilesTo(data: bytes, frames: seq<Frame>, to: nat)
    decreases |frames|
  {
    if frames == [] then to == 0
    else
      var f := frames[|frames| - 1];
      && f.end == to <= |data| && f.start <= f.end && f.data == data[f.start..f.end]
      && TilesTo(data, frames[..|frames| - 1], f.start)
  }

  lemma {:induction false} TilesFromFront(data: bytes, frames: seq<Frame>, rest: seq<Frame>, to: nat)
    requires TilesTo(data, frames, to) && Tiles(data, rest, to)
    ensures Tiles(data, frames + rest, 0)
    decreases |frames|
  {
    if frames == [] {
      assert frames + rest == rest;
    } else {
      var f := frames[|frames| - 1];
      assert ([f] + rest)[1..] == rest;
      TilesFromFront(data, frames[..|frames| - 1], [f] + rest, f.start);
      assert frames + rest == frames[..|frames| - 1] + ([f] + rest);
    }
  }

  lemma {:induction false} CutsTile(f: Cutter, data: bytes, c: nat, done: seq<Frame>)
    requires Forward(f) && c <= |data| && TilesTo(data, done, c)
    ensures Cuts(f, data, c, done).Whole? ==> Tiles(data, Cuts(f, data, c, done).frames, 0)
    decreases |data| - c
  {
    if c == |data| {
      TilesFromFront(data, done, [], c);
      assert done + [] == done;
    } else if f(data, c).At? {
      var end := f(data, c).end;
      var done' := done + [Frame(data[c..end], c, end, Framed)];
      assert done'[..|done|] == done;
      CutsTile(f, data, end, done');
    }
  }

  function Join(ms: seq<bytes>): bytes {
    if ms == [] then [] else Join(ms[..|ms| - 1]) + ms[|ms| - 1]
  }

  /** The frames that hold exactly the messages `ms`, in order. */
  function FramesOf(ms: seq<bytes>): seq<Frame> {
    if ms == [] then []
    else
      var p := ms[..|ms| - 1];
      FramesOf(p) + [Frame(ms[|ms| - 1], |Join(p)|, |Join(ms)|, Framed)]
  }

  lemma {:induction false} JoinSplit(ms: seq<bytes>, k: nat)
    requires k <= |ms|
    ensures Join(ms) == Join(ms[..k]) + Join(ms[k..])
    decreases |ms|
  {
    if k == |ms| {
      assert ms[..k] == ms && ms[k..] == [];
    } else {
      var p := ms[..|ms| - 1];
      JoinSplit(p, k);
      assert p[..k] == ms[..k] && ms[k..][..|ms| - 1 - k] == p[k..];
      Associative(Join(ms[..k]), Join(p[k..]), ms[|ms| - 1]);
    }
  }

  /** If every message's end is the cut at its start, cutting the joined messages gives them back. */
  lemma {:induction false} CutsGiveBack(f: Cutter, ms: seq<bytes>, k: nat)
    requires Forward(f) && k <= |ms|
    requires forall m :: m in ms ==> m != []
    requires forall j :: k <= j < |ms| ==> f(Join(ms), |Join(ms[..j])|) == At(|Join(ms[..j + 1])|)
    ensures |Join(ms[..k])| <= |Join(ms)|
    ensures Cuts(f, Join(ms), |Join(ms[..k])|, FramesOf(ms[..k])) == Whole(FramesOf(ms))
    decreases |ms| - k
  {
    JoinSplit(ms, k);
    if k == |ms| {
      assert ms[..k] == ms;
    } else {
      JoinSplit(ms, k + 1);
      assert ms[..k + 1][..k] == ms[..k];
      assert Join(ms[..k + 1]) == Join(ms[..k]) + ms[k];
      var c, e := |Join(ms[..k])|, |Join(ms[..k + 1])|;
      assert ms[k] in ms;
      assert Join(ms)[c..e] == ms[k];
      CutsGiveBack(f, ms, k + 1);
    }
  }

  lemma {:induction false} CutsKeep(f: Cutter, data: bytes, c: nat, done: seq<Frame>)
    requires Forward(f) && c <= |data|
    ensures Cuts(f, data, c, done).Whole? ==> done <= Cuts(f, data, c, done).frames
    decreases |data| - c
  {
    if c < |data| && f(data, c).At? {
      var end := f(data, c).end;
      CutsKeep(f, data, end, done + [Frame(data[c..end], c, end, Framed)]);
    }
  }

  lemma {:induction false} FramesOfAt(ms: seq<bytes>, k: nat)
    requires k < |ms|
    ensures |FramesOf(ms)| == |ms| && FramesOf(ms)[k] == Frame(ms[k], |Join(ms[..k])|, |Join(ms[..k + 1])|, Framed)
  {
    var p := ms[..|ms| - 1];
    if p != [] {
      FramesOfAt(p, if k < |p| then k else 0);
    }
    if k < |p| {
      assert p[..k] == ms[..k] && p[..k + 1] == ms[..k + 1];
    } else {
      assert ms[..k] == p && ms[..k + 1] == ms;
    }
  }

  /** In the joined messages, the cut at the start of message `j` is its end. */
  ghost predicate CutsAtEnd(f: Cutter, ms: seq<bytes>, j: nat)
    requires j < |ms|
  {
    f(Join(ms), |Join(ms[..j])|) == At(|Join(ms[..j + 1])|)
  }

  /** The messages from `k` on are given back only if each is cut off at its end. */
  lemma {:induction false} GivenBackIsCut(f: Cutter, ms: seq<bytes>, k: nat, j: nat)
    requires Forward(f) && k <= j < |ms|
    requires forall m :: m in ms ==> m != []
    requires |Join(ms[..k])| <= |Join(ms)|
    requires Cuts(f, Join(ms), |Join(ms[..k])|, FramesOf(ms[..k])) == Whole(FramesOf(ms))
    ensures CutsAtEnd(f, ms, j)
    decreases j - k
  {
    var data, c := Join(ms), |Join(ms[..k])|;
    InPlace(ms, k);
    assert ms[k] in ms;
    var done, end := FramesOf(ms[..k]), f(data, c).end;
    var frame := Frame(data[c..end], c, end, Framed);
    CutsKeep(f, data, end, done + [frame]);
    FramesOfAt(ms, k);
    assert |done| == k by {
      if k > 0 {
        FramesOfAt(ms[..k], 0);
      }
    }
    assert (done + [frame])[k] == FramesOf(ms)[k];
    if k < j {
      assert ms[..k + 1][..k] == ms[..k];
      GivenBackIsCut(f, ms, k + 1, j);
    }
  }

  /** Joined messages are given back exactly when each is cut off at its end. */
  lemma {:induction false} GivenBackIff(f: Cutter, ms: seq<bytes>)
    requires Forward(f) && forall m :: m in ms ==> m != []
    ensures Cuts(f, Join(ms), 0, []) == Whole(FramesOf(ms)) <==>
              forall j {:trigger CutsAtEnd(f, ms, j)} :: 0 <= j < |ms| ==> CutsAtEnd(f, ms, j)
  {
    assert ms[..0] == [];
    if Cuts(f, Join(ms), 0, []) == Whole(FramesOf(ms)) {
      forall j | 0 <= j < |ms|
        ensures CutsAtEnd(f, ms, j)
      {
        GivenBackIsCut(f, ms, 0, j);
      }
    } else if forall j {:trigger CutsAtEnd(f, ms, j)} :: 0 <= j < |ms| ==> CutsAtEnd(f, ms, j) {
      forall j | 0 <= j < |ms|
        ensures f(Join(ms), |Join(ms[..j])|) == At(|Join(ms[..j + 1])|)
      {
        assert CutsAtEnd(f, ms, j);
      }
      CutsGiveBack(f, ms, 0);
    }
  }

  /** A message in its place among the others. */
  lemma InPlace(ms: seq<bytes>, j: nat)
    requires j < |ms|
    ensures Holds(Join(ms), |Join(ms[..j])|, ms[j])
    ensures |Join(ms[..j + 1])| == |Join(ms[..j])| + |ms[j]|
    ensures Join(ms[..j]) <= Join(ms)
  {
    JoinSplit(ms, j + 1);
    assert ms[..j + 1][..j] == ms[..j];
  }

  // ----- searching -----

  /** The position `^` matches in multi-line mode. */
  predicate LineStart(data: bytes, p: nat)
    requires p <= |data|
  {
    p == 0 || data[p - 1] == LF
  }

  /** Python's `bytes.find` from a position: the first occurrence, or -1. */
  function Find(data: bytes, pat: bytes, from: nat): (r: int)
    ensures r == -1 || from <= r <= |data| - |pat|
    decreases |data| - from
  {
    if from + |pat| > |data| then -1
    else if data[from..from + |pat|] == pat then from
    else Find(data, pat, from + 1)
  }

  predicate OccursAt(data: bytes, pat: bytes, i: nat) {
    i + |pat| <= |data| && data[i..i + |pat|] == pat
  }

  lemma {:induction false} FindIsFirst(data: bytes, pat: bytes, from: nat)
    ensures var r := Find(data, pat, from);
            && (r >= 0 ==> OccursAt(data, pat, r))
            && (forall i {:trigger OccursAt(data, pat, i)} ::
                  from <= i && (r >= 0 ==> i < r) ==> !OccursAt(data, pat, i))
    decreases |data| - from
  {
    if from + |pat| <= |data| && data[from..from + |pat|] != pat {
      FindIsFirst(data, pat, from + 1);
    }
  }

  /** `m` stands in `data` at `c`. */
  predicate Holds(data: bytes, c: nat, m: bytes) {
    c + |m| <= |data| && data[c..c + |m|] == m
  }

  lemma HoldsAt(data: bytes, c: nat, m: bytes, i: nat, j: nat)
    requires Holds(data, c, m) && i <= j <= |m|
    ensures data[c + i..c + j] == m[i..j]
    ensures i < |m| ==> data[c + i] == m[i]
  {
    var w := data[c..c + |m|];
    forall k | 0 <= k < |m|
      ensures w[k] == data[c + k]
    {
    }
    assert m[i..j] == data[c + i..c + j];
  }

  /** An occurrence that is found in a part is found at the same place in the whole. */
  lemma {:induction false} FindLocal(data: bytes, c: nat, m: bytes, pat: bytes, from: nat)
    requires Holds(data, c, m) && Find(m, pat, from) >= 0
    ensures Find(data, pat, c + from) == c + Find(m, pat, from)
    decreases |m| - from
  {
    HoldsAt(data, c, m, from, from + |pat|);
    if m[from..from + |pat|] != pat {
      FindLocal(data, c, m, pat, from + 1);
    }
  }
}
