/** The section tree of a document as its headings determine it. Heading -1 stands for the root. */
module SectionSpec {
  import opened Prelude

  datatype Heading = Heading(level: nat, offset: nat, name: string)

  /** Headings stand in document order, inside the document, at level one or deeper. */
  predicate WellPlaced(hs: seq<Heading>, length: nat) {
    && (forall i :: 0 <= i < |hs| ==> 1 <= hs[i].level && hs[i].offset < length)
    && (forall i, j :: 0 <= i < j < |hs| ==> hs[i].offset < hs[j].offset)
  }

  predicate Index(hs: seq<Heading>, k: int) {
    -1 <= k < |hs|
  }

  function Level(hs: seq<Heading>, k: int): nat
    requires Index(hs, k)
  {
    if k == -1 then 0 else hs[k].level
  }

  function Start(hs: seq<Heading>, k: int): nat
    requires Index(hs, k)
  {
    if k == -1 then 0 else hs[k].offset
  }

  function Name(hs: seq<Heading>, k: int): string
    requires Index(hs, k)
  {
    if k == -1 then "0." else hs[k].name
  }

  /** Where the next heading starts; a node's own text ends there. */
  function NextStart(hs: seq<Heading>, k: int, length: nat): nat
    requires Index(hs, k)
  {
    if k + 1 < |hs| then hs[k + 1].offset else length
  }

  /** The nearest heading before `j` of a level below `level`, or the root. */
  function NearestAbove(hs: seq<Heading>, j: nat, level: nat): (p: int)
    requires j <= |hs|
    ensures -1 <= p < j
  {
    if j == 0 then -1
    else if hs[j - 1].level < level then j - 1
    else NearestAbove(hs, j - 1, level)
  }

  lemma {:induction false} NearestAboveIs(hs: seq<Heading>, j: nat, level: nat)
    requires j <= |hs|
    ensures var p := NearestAbove(hs, j, level);
            && (p >= 0 ==> hs[p].level < level)
            && (forall k :: p < k < j ==> hs[k].level >= level)
  {
    if j > 0 && hs[j - 1].level >= level {
      NearestAboveIs(hs, j - 1, level);
    }
  }

  function Parent(hs: seq<Heading>, i: int): int
    requires 0 <= i < |hs|
  {
    NearestAbove(hs, i, hs[i].level)
  }

  /** The children of `k` among the headings from `lo` up to `hi`, in order. */
  function Kids(hs: seq<Heading>, k: int, lo: nat, hi: nat): (r: seq<int>)
    requires hi <= |hs|
    ensures forall j :: 0 <= j < |r| ==> lo <= r[j] < hi
  {
    if hi <= lo then []
    else Kids(hs, k, lo, hi - 1) + (if Parent(hs, hi - 1) == k then [hi - 1 as int] else [])
  }

  lemma {:induction false} KidsSplit(hs: seq<Heading>, k: int, lo: nat, mid: nat, hi: nat)
    requires lo <= mid <= hi <= |hs|
    ensures Kids(hs, k, lo, hi) == Kids(hs, k, lo, mid) + Kids(hs, k, mid, hi)
    decreases hi - mid
  {
    if mid < hi {
      KidsSplit(hs, k, lo, mid, hi - 1);
    }
  }

  lemma {:induction false} NoKids(hs: seq<Heading>, k: int, lo: nat, hi: nat)
    requires hi <= |hs| && forall i :: lo <= i < hi ==> Parent(hs, i) != k
    ensures Kids(hs, k, lo, hi) == []
  {
    if lo < hi {
      NoKids(hs, k, lo, hi - 1);
    }
  }

  /** The first heading from `j` on whose level is at most `level`, or the end. */
  function Next(hs: seq<Heading>, j: nat, level: nat): (m: nat)
    requires j <= |hs|
    ensures j <= m <= |hs|
    ensures m < |hs| ==> hs[m].level <= level
    ensures forall k :: j <= k < m ==> hs[k].level > level
    decreases |hs| - j
  {
    if j == |hs| || hs[j].level <= level then j else Next(hs, j + 1, level)
  }

  /** The end of the subtree of `k`: its headings are those from `k` up to here. */
  function SubtreeEnd(hs: seq<Heading>, k: int): (m: nat)
    requires Index(hs, k)
    ensures k < m <= |hs|
  {
    Next(hs, k + 1, Level(hs, k))
  }

  lemma ParentOf(hs: seq<Heading>, i: nat, p: int)
    requires i < |hs| && -1 <= p < i && Level(hs, p) < hs[i].level
    requires forall k :: p < k < i ==> hs[k].level >= hs[i].level
    ensures Parent(hs, i) == p
  {
    NearestAboveIs(hs, i, hs[i].level);
  }

  /** After the subtree of a child comes the next child, or the end of the parent's subtree. */
  lemma AfterChild(hs: seq<Heading>, length: nat, k: int, c: nat)
    requires WellPlaced(hs, length) && Index(hs, k) && k < c < |hs| && Parent(hs, c) == k
    ensures var m := SubtreeEnd(hs, c);
            && (forall x :: c < x < m ==> Parent(hs, x) != k)
            && (m < |hs| && Level(hs, k) < hs[m].level ==> Parent(hs, m) == k)
            && (m == |hs| || hs[m].level <= Level(hs, k) ==> m == SubtreeEnd(hs, k))
  {
    var m := SubtreeEnd(hs, c);
    NearestAboveIs(hs, c, hs[c].level);
    assert Level(hs, k) < hs[c].level;
    assert forall x :: k < x < m ==> hs[x].level >= hs[c].level;
    forall x | c < x < m
      ensures Parent(hs, x) != k
    {
      NearestAboveIs(hs, x, hs[x].level);
      assert hs[c].level < hs[x].level;
    }
    if m < |hs| && Level(hs, k) < hs[m].level {
      ParentOf(hs, m, k);
    }
    if m == |hs| || hs[m].level <= Level(hs, k) {
      var e := SubtreeEnd(hs, k);
      assert e >= m;
      assert m < |hs| ==> e <= m;
    }
  }

  /** No heading from the end of a subtree on is a child of its root. */
  lemma {:induction false} NoLateKids(hs: seq<Heading>, length: nat, k: int)
    requires WellPlaced(hs, length) && Index(hs, k)
    ensures Kids(hs, k, SubtreeEnd(hs, k), |hs|) == []
  {
    var e := SubtreeEnd(hs, k);
    forall x | e <= x < |hs|
      ensures Parent(hs, x) != k
    {
      NearestAboveIs(hs, x, hs[x].level);
      assert hs[e].level <= Level(hs, k) && 1 <= hs[x].level;
    }
    NoKids(hs, k, e, |hs|);
  }

  /** The children of a node come after it; the first of them, if any, is the very next heading. */
  lemma InnerKids(hs: seq<Heading>, k: int, hi: nat)
    requires Index(hs, k) && Inner(hs, k) && k + 1 < hi <= |hs|
    ensures Kids(hs, k, (k + 1) as nat, hi) == [k + 1] + Kids(hs, k, (k + 2) as nat, hi)
  {
    KidsSplit(hs, k, (k + 1) as nat, (k + 2) as nat, hi);
    assert Kids(hs, k, (k + 1) as nat, (k + 1) as nat) == [];
  }

  lemma {:induction false} KidsComeAfter(hs: seq<Heading>, k: int, hi: nat)
    requires Index(hs, k) && k + 1 <= hi <= |hs|
    ensures Kids(hs, k, 0, hi) == Kids(hs, k, (k + 1) as nat, hi)
  {
    NoKids(hs, k, 0, (k + 1) as nat);
    KidsSplit(hs, k, 0, (k + 1) as nat, hi);
  }

  lemma {:induction false} NotInner(hs: seq<Heading>, length: nat, k: int)
    requires WellPlaced(hs, length) && Index(hs, k) && !Inner(hs, k)
    ensures SubtreeEnd(hs, k) == k + 1 && Kids(hs, k, (k + 1) as nat, |hs|) == []
  {
    if k + 1 < |hs| && Level(hs, k) < hs[k + 1].level {
      ParentOf(hs, (k + 1) as nat, k);
    }
    NoLateKids(hs, length, k);
  }

  predicate Inner(hs: seq<Heading>, k: int)
    requires Index(hs, k)
  {
    k + 1 < |hs| && Parent(hs, k + 1) == k
  }

  /** An inner node whose own text is long keeps it in a padding leaf. */
  predicate Padded(hs: seq<Heading>, k: int)
    requires Index(hs, k)
  {
    Inner(hs, k) && Start(hs, k + 1) - Start(hs, k) > |Name(hs, k)| + 5
  }

  // ----- leaves -----

  /** A node of the tree: a heading's own node, or the padding leaf of an inner node. */
  datatype Ref = Own(k: int) | Pad(k: int)

  /** The leaf that holds the own text of `k`, if there is one. */
  function LeafOf(hs: seq<Heading>, k: int): seq<Ref>
    requires Index(hs, k)
  {
    if !Inner(hs, k) then [Own(k)] else if Padded(hs, k) then [Pad(k)] else []
  }

  /** The leaves for the headings from `lo` up to `hi`, in document order. */
  function Leaves(hs: seq<Heading>, lo: int, hi: int): (r: seq<Ref>)
    requires -1 <= lo && hi <= |hs|
    ensures forall j :: 0 <= j < |r| ==> lo <= r[j].k < hi && r[j] in LeafOf(hs, r[j].k)
    decreases hi - lo
  {
    if hi <= lo then [] else LeafOf(hs, lo) + Leaves(hs, lo + 1, hi)
  }

  lemma {:induction false} LeavesSplit(hs: seq<Heading>, lo: int, mid: int, hi: int)
    requires -1 <= lo <= mid <= hi <= |hs|
    ensures Leaves(hs, lo, hi) == Leaves(hs, lo, mid) + Leaves(hs, mid, hi)
    decreases mid - lo
  {
    if lo < mid {
      LeavesSplit(hs, lo + 1, mid, hi);
      Associative(LeafOf(hs, lo), Leaves(hs, lo + 1, mid), Leaves(hs, mid, hi));
    }
  }

  lemma {:induction false} LeavesAscend(hs: seq<Heading>, lo: int, hi: int)
    requires -1 <= lo && hi <= |hs|
    ensures forall i, j :: 0 <= i < j < |Leaves(hs, lo, hi)| ==> Leaves(hs, lo, hi)[i].k < Leaves(hs, lo, hi)[j].k
    decreases hi - lo
  {
    if lo < hi {
      LeavesAscend(hs, lo + 1, hi);
    }
  }

  lemma {:induction false} LeavesHaveAll(hs: seq<Heading>, lo: int, hi: int, k: int)
    requires -1 <= lo <= k < hi <= |hs|
    ensures forall r :: r in LeafOf(hs, k) ==> r in Leaves(hs, lo, hi)
    decreases k - lo
  {
    if lo < k {
      LeavesHaveAll(hs, lo + 1, hi, k);
    }
  }

  predicate InSpan(hs: seq<Heading>, length: nat, k: int, c: nat)
    requires Index(hs, k)
  {
    Start(hs, k) <= c < NextStart(hs, k, length)
  }

  /** The leaves of the whole document are disjoint and in document order. */
  lemma {:induction false} LeavesDisjoint(hs: seq<Heading>, length: nat, i: nat, j: nat)
    requires WellPlaced(hs, length) && i < j < |Leaves(hs, -1, |hs|)|
    ensures var leaves := Leaves(hs, -1, |hs|);
            NextStart(hs, leaves[i].k, length) <= Start(hs, leaves[j].k)
  {
    LeavesAscend(hs, -1, |hs|);
  }

  lemma {:induction false} SomeSpan(hs: seq<Heading>, length: nat, c: nat, n: nat) returns (k: int)
    requires WellPlaced(hs, length) && n <= |hs| && c < length && (n < |hs| ==> c < hs[n].offset)
    ensures Index(hs, k) && k < n && InSpan(hs, length, k, c)
  {
    if n == 0 {
      k := -1;
    } else if hs[n - 1].offset <= c {
      k := n - 1;
    } else {
      k := SomeSpan(hs, length, c, n - 1);
    }
  }

  /** Every character is in a leaf, or in the short own text of exactly that inner node. */
  lemma LeavesCover(hs: seq<Heading>, length: nat, c: nat) returns (k: int)
    requires WellPlaced(hs, length) && c < length
    ensures Index(hs, k) && InSpan(hs, length, k, c)
    ensures || (LeafOf(hs, k) != [] && LeafOf(hs, k)[0] in Leaves(hs, -1, |hs|))
            || (Inner(hs, k) && NextStart(hs, k, length) - Start(hs, k) <= |Name(hs, k)| + 5)
  {
    k := SomeSpan(hs, length, c, |hs|);
    LeavesHaveAll(hs, -1, |hs|, k);
  }

  // ----- levels the level table accepts -----

  /** The height of the level table after the first `i` headings. */
  function Height(hs: seq<Heading>, i: nat): nat
    requires i <= |hs|
  {
    if i == 0 then 0 else
      var h := Height(hs, i - 1);
      if hs[i - 1].level > h then hs[i - 1].level else h
  }

  /** No heading is more than one level deeper than everything before it. */
  predicate StepwiseUpTo(hs: seq<Heading>, n: nat)
    requires n <= |hs|
  {
    forall i {:trigger StepAt(hs, i)} :: 0 <= i < n ==> StepAt(hs, i)
  }

  predicate StepAt(hs: seq<Heading>, i: nat)
    requires i < |hs|
  {
    hs[i].level <= Height(hs, i) + 1
  }

  /** A child and what follows its subtree: the later children, the next of which comes right there. */
  lemma {:induction false} KidStep(hs: seq<Heading>, length: nat, k: int, c: nat)
    requires WellPlaced(hs, length) && Index(hs, k) && k < c < |hs| && Parent(hs, c) == k
    ensures var m := SubtreeEnd(hs, c);
            && Kids(hs, k, c, |hs|) == [c as int] + Kids(hs, k, m, |hs|)
            && (m == SubtreeEnd(hs, k) || (m < |hs| && Parent(hs, m) == k))
  {
    AfterChild(hs, length, k, c);
    KidsFrom(hs, k, c, SubtreeEnd(hs, c));
  }

  lemma {:induction false} KidsFrom(hs: seq<Heading>, k: int, c: nat, m: nat)
    requires c < m <= |hs| && Parent(hs, c) == k && forall x :: c < x < m ==> Parent(hs, x) != k
    ensures Kids(hs, k, c, |hs|) == [c as int] + Kids(hs, k, m, |hs|)
  {
    NoKids(hs, k, c + 1, m);
    KidsSplit(hs, k, c + 1, m, |hs|);
    KidHead(hs, k, c);
  }

  lemma KidHead(hs: seq<Heading>, k: int, c: nat)
    requires c < |hs| && Parent(hs, c) == k
    ensures Kids(hs, k, c, |hs|) == [c as int] + Kids(hs, k, c + 1, |hs|)
  {
    KidsSplit(hs, k, c, c + 1, |hs|);
    assert Kids(hs, k, c, c) == [];
  }

  /** The first child of a node is the heading right after it. */
  lemma {:induction false} FirstOfKids(hs: seq<Heading>, length: nat, k: int, i: nat)
    requires WellPlaced(hs, length) && i < |hs| && k == Parent(hs, i)
    ensures Inner(hs, k)
    ensures Kids(hs, k, 0, i) == [] <==> i == k + 1
  {
    KidsComeAfter(hs, k, i);
    NearestAboveIs(hs, i, hs[i].level);
    if k + 1 < i {
      assert hs[k + 1].level >= hs[i].level > Level(hs, k);
      ParentOf(hs, (k + 1) as nat, k);
      InnerKids(hs, k, i);
    }
  }

  /** The headings of level `l` among the first `i`. */
  function Layer(hs: seq<Heading>, i: nat, l: nat): seq<Ref>
    requires i <= |hs|
  {
    if i == 0 then []
    else Layer(hs, i - 1, l) + (if hs[i - 1].level == l then [Own(i - 1)] else [])
  }

  lemma {:induction false} NoLayer(hs: seq<Heading>, i: nat, l: nat)
    requires i <= |hs| && l > Height(hs, i)
    ensures Layer(hs, i, l) == []
  {
    if i > 0 {
      NoLayer(hs, i - 1, l);
    }
  }
}
