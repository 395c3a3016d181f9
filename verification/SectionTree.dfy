/**
 * The section tree as it is built: a table of nodes, updated in place, whose entries refer to each
 * other by reference values.
 */
module SectionTree {
  import opened Prelude
  import opened SectionSpec

  datatype Node = Node(level: nat, start: nat, end: nat, name: string,
                       subsection: seq<Ref>, isLeaf: bool, upper: Option<Ref>)

  type Nodes = map<Ref, Node>

  const ROOT: Ref := Own(-1)

  /** The references that are in use once the first `i` headings are placed. */
  ghost predicate There(hs: seq<Heading>, i: nat, r: Ref)
    requires i <= |hs|
  {
    match r
    case Own(k) => -1 <= k < i
    case Pad(k) => -1 <= k && k + 1 < i && Padded(hs, k)
  }

  function OwnRefs(ks: seq<int>): seq<Ref> {
    seq(|ks|, j requires 0 <= j < |ks| => Own(ks[j]))
  }

  /** The children of a node once the first `i` headings are placed: padding first. */
  ghost function Subsections(hs: seq<Heading>, i: nat, r: Ref): seq<Ref>
    requires i <= |hs| && There(hs, i, r)
  {
    if r.Pad? then []
    else (if There(hs, i, Pad(r.k)) then [Pad(r.k)] else []) + OwnRefs(Kids(hs, r.k, 0, i))
  }

  /** The node a reference stands for, but for its end and its leaf mark. */
  ghost predicate NodeIs(hs: seq<Heading>, i: nat, r: Ref, n: Node)
    requires i <= |hs| && There(hs, i, r)
  {
    && n.start == Start(hs, r.k)
    && n.subsection == Subsections(hs, i, r)
    && match r {
         case Own(k) =>
           && n.level == Level(hs, k) && n.name == Name(hs, k)
           && n.upper == (if k == -1 then None else Some(Own(Parent(hs, k))))
         case Pad(k) =>
           && n.level == Level(hs, k + 1) && n.name == "\t" + Name(hs, k) + "[PADDING]"
           && n.upper == Some(Own(k)) && n.end == Start(hs, k + 1)
       }
  }

  ghost predicate EntryIs(hs: seq<Heading>, i: nat, m: Nodes, r: Ref)
    requires i <= |hs|
  {
    (r in m <==> There(hs, i, r)) && (r in m ==> NodeIs(hs, i, r, m[r]))
  }

  /** The table holds exactly the tree of the first `i` headings. */
  ghost predicate Shape(hs: seq<Heading>, i: nat, m: Nodes)
    requires i <= |hs|
  {
    forall r {:trigger EntryIs(hs, i, m, r)} :: EntryIs(hs, i, m, r)
  }

  /** The level table holds the root and, level by level, the first `i` headings. */
  ghost predicate TableIs(hs: seq<Heading>, i: nat, tree: seq<seq<Ref>>)
    requires i <= |hs|
  {
    && |tree| == Height(hs, i) + 1 && tree[0] == [ROOT]
    && forall l :: 1 <= l < |tree| ==> tree[l] == Layer(hs, i, l)
  }

  /** The stack runs from the root to heading `top`, from parent to child. */
  ghost predicate StackIs(hs: seq<Heading>, stack: seq<Ref>, top: int)
    requires -1 <= top < |hs|
    decreases |stack|
  {
    && stack != [] && stack[|stack| - 1] == Own(top)
    && (if top == -1 then |stack| == 1 else StackIs(hs, stack[..|stack| - 1], Parent(hs, top)))
  }

  class SectionTree {
    const docLength: nat
    var nodes: Nodes
    var tree: seq<seq<Ref>>
    var height: nat
    var leafs: seq<Ref>

    constructor (docLength: nat)
      ensures this.docLength == docLength && leafs == [] && height == 0 && tree == [[ROOT]]
      ensures nodes == map[ROOT := Node(0, 0, docLength, "0.", [], false, None)]
    {
      this.docLength := docLength;
      this.nodes := map[ROOT := Node(0, 0, docLength, "0.", [], false, None)];
      this.tree := [[ROOT]];
      this.height := 0;
      this.leafs := [];
    }

    /** Appends to the node's level, opening at most one new level; false is the index error of the source. */
    method AddSection(r: Ref, level: nat) returns (ok: bool)
      requires |tree| == height + 1
      modifies this`tree, this`height
      ensures ok <==> level <= old(height) + 1
      ensures |tree| == height + 1
      ensures height == if level > old(height) then old(height) + 1 else old(height)
      ensures ok ==>
                var grown := if level > old(height) then old(tree) + [[]] else old(tree);
                tree == grown[level := grown[level] + [r]]
    {
      if level > height {
        height := height + 1;
        tree := tree + [[]];
      }
      if level >= |tree| {
        return false;
      }
      tree := tree[level := tree[level] + [r]];
      return true;
    }

    /** Appends a child; before the first child, a long own text becomes a padding leaf. */
    method AddSubsection(parent: Ref, child: Ref)
      requires parent in nodes && child in nodes && parent.Own? && child.Own?
      modifies this`nodes
      ensures nodes == HungBelow(old(nodes), parent, child)
    {
      var p, c := nodes[parent], nodes[child];
      if p.subsection == [] && c.start - p.start > |p.name| + 5 {
        var ovNode := Node(c.level, p.start, c.start, "\t" + p.name + "[PADDING]", [], false, Some(parent));
        nodes := nodes[Pad(parent.k) := ovNode];
        p := p.(subsection := p.subsection + [Pad(parent.k)]);
        assert p.subsection + [child] == [Pad(parent.k), child];
      }
      nodes := nodes[parent := p.(subsection := p.subsection + [child])];
    }

    /** Pops the stack down to the nearest earlier heading of a lower level. */
    method PopToParent(hs: seq<Heading>, i: nat, stack0: seq<Ref>) returns (stack: seq<Ref>)
      requires WellPlaced(hs, docLength) && i < |hs| && Shape(hs, i, nodes)
      requires StackIs(hs, stack0, i - 1)
      ensures StackIs(hs, stack, Parent(hs, i))
    {
      stack := stack0;
      ghost var top := i - 1;
      LevelOf(hs, i, nodes, top);
      while stack != [] && nodes[stack[|stack| - 1]].level >= hs[i].level
        invariant -1 <= top < i && StackIs(hs, stack, top) && Own(top) in nodes
        invariant nodes[Own(top)].level == Level(hs, top)
        invariant AllAtLeast(hs, top + 1, i, hs[i].level)
        decreases |stack|
      {
        PopStep(hs, i, top);
        stack := stack[..|stack| - 1];
        top := Parent(hs, top);
        LevelOf(hs, i, nodes, top);
      }
      ParentOf(hs, i, top);
    }

    /** Hangs heading `i` below the nearest earlier heading of a lower level and stacks it. */
    method PlaceNode(hs: seq<Heading>, i: nat, stack0: seq<Ref>) returns (stack: seq<Ref>)
      requires WellPlaced(hs, docLength) && i < |hs| && Shape(hs, i, nodes) && NoMarks(nodes)
      requires StackIs(hs, stack0, i - 1)
      modifies this`nodes
      ensures Shape(hs, i + 1, nodes) && StackIs(hs, stack, i) && NoMarks(nodes)
    {
      var node := Own(i);
      stack := PopToParent(hs, i, stack0);
      var parent := stack[|stack| - 1];
      ghost var before := nodes;
      LevelOf(hs, i, nodes, Parent(hs, i));
      nodes := nodes[node := Node(hs[i].level, hs[i].offset, docLength, hs[i].name, [], false, Some(parent))];
      AddSubsection(parent, node);
      ShapeStep(hs, docLength, i, before, nodes);
      assert (stack + [node])[..|stack|] == stack;
      stack := stack + [node];
    }

    /** Places heading `i` in its level and in the tree; false is the index error of the level table. */
    method AddHeading(hs: seq<Heading>, i: nat, stack0: seq<Ref>) returns (ok: bool, stack: seq<Ref>)
      requires WellPlaced(hs, docLength) && i < |hs| && Shape(hs, i, nodes) && NoMarks(nodes)
      requires height == Height(hs, i) && TableIs(hs, i, tree)
      requires StackIs(hs, stack0, i - 1)
      modifies this`tree, this`height, this`nodes
      ensures ok <==> StepAt(hs, i)
      ensures ok ==> height == Height(hs, i + 1) && TableIs(hs, i + 1, tree)
      ensures ok ==> Shape(hs, i + 1, nodes) && StackIs(hs, stack, i) && NoMarks(nodes)
    {
      stack := stack0;
      ghost var tree0 := tree;
      ok := AddSection(Own(i), hs[i].level);
      if ok {
        TableStep(hs, i, tree0, tree);
        stack := PlaceNode(hs, i, stack0);
      }
    }

    /**
     * Builds the tree: each node goes into its level, hangs below the nearest earlier heading of a lower
     * level, and ends where the next heading starts. It fails exactly when some heading is more than one
     * level deeper than every heading before it.
     */
    method ConstructTree(hs: seq<Heading>) returns (ok: bool)
      requires WellPlaced(hs, docLength) && height == 0 && tree == [[ROOT]]
      requires nodes == map[ROOT := Node(0, 0, docLength, "0.", [], false, None)]
      modifies this`tree, this`height, this`nodes
      ensures ok <==> StepwiseUpTo(hs, |hs|)
      ensures ok ==> Shape(hs, |hs|, nodes) && EndsAre(hs, docLength, nodes) && NoMarks(nodes)
      ensures ok ==> TableIs(hs, |hs|, tree)
    {
      var stack := [ROOT];
      EmptyShape(hs, nodes);
      for i := 0 to |hs|
        invariant Shape(hs, i, nodes) && StackIs(hs, stack, i - 1)
        invariant height == Height(hs, i) && TableIs(hs, i, tree) && StepwiseUpTo(hs, i)
        invariant NoMarks(nodes)
      {
        ok, stack := AddHeading(hs, i, stack);
        if !ok {
          return;
        }
      }
      SetEnds(hs);
      ok := true;
    }

    /** Collects and marks the leaves below a node, children in order. */
    method IdentifyLeaf(ghost hs: seq<Heading>, r: Ref)
      requires WellPlaced(hs, docLength) && Shape(hs, |hs|, nodes) && EndsAre(hs, docLength, nodes)
      requires There(hs, |hs|, r)
      modifies this`leafs, this`nodes
      ensures Shape(hs, |hs|, nodes) && EndsAre(hs, docLength, nodes)
      ensures leafs == old(leafs) + LeavesUnder(hs, r)
      ensures nodes == Marked(old(nodes), LeavesUnder(hs, r))
      decreases |hs| - r.k, if r.Own? then 2 else 0, 0
    {
      assert EntryIs(hs, |hs|, nodes, r);
      if nodes[r].subsection == [] {
        NoSubsections(hs, docLength, r);
        MarkLeaf(hs, r);
      } else {
        HasSubsections(hs, docLength, r);
        IdentifyBelow(hs, r);
      }
    }

    method MarkLeaf(ghost hs: seq<Heading>, r: Ref)
      requires Shape(hs, |hs|, nodes) && EndsAre(hs, docLength, nodes) && r in nodes
      modifies this`leafs, this`nodes
      ensures Shape(hs, |hs|, nodes) && EndsAre(hs, docLength, nodes)
      ensures leafs == old(leafs) + [r] && nodes == Marked(old(nodes), [r])
    {
      MarkKeepsShape(hs, docLength, nodes, r);
      assert Marked(nodes, [r]) == Mark(Marked(nodes, []), r);
      nodes := nodes[r := nodes[r].(isLeaf := true)];
      leafs := leafs + [r];
    }

    /** The children of an inner node, one after the other. */
    method IdentifyBelow(ghost hs: seq<Heading>, r: Ref)
      requires WellPlaced(hs, docLength) && Shape(hs, |hs|, nodes) && EndsAre(hs, docLength, nodes)
      requires There(hs, |hs|, r) && r.Own? && Inner(hs, r.k)
      modifies this`leafs, this`nodes
      ensures Shape(hs, |hs|, nodes) && EndsAre(hs, docLength, nodes)
      ensures leafs == old(leafs) + LeavesUnder(hs, r)
      ensures nodes == Marked(old(nodes), LeavesUnder(hs, r))
      decreases |hs| - r.k, 1, 0
    {
      ghost var before, collected, k := nodes, leafs, r.k;
      VisitStarts(hs, docLength, k);
      ghost var pos := if Padded(hs, k) then k else k + 1;
      assert r in nodes && nodes[r].subsection == Subsections(hs, |hs|, r) by {
        assert EntryIs(hs, |hs|, nodes, r);
      }
      var subs := nodes[r].subsection;
      assert nodes == Marked(before, []);
      for j := 0 to |subs|
        invariant Shape(hs, |hs|, nodes) && EndsAre(hs, docLength, nodes)
        invariant Due(hs, k, pos) && subs[j..] == Rest(hs, k, pos)
        invariant Collected(hs, k, pos, before, collected)
      {
        assert subs[j] == subs[j..][0] && subs[j..][1..] == subs[j + 1..];
        pos := VisitNext(hs, k, pos, subs[j], before, collected);
      }
      VisitEnds(hs, docLength, k, pos);
    }

    /** The leaves before `pos` are collected and marked. */
    ghost predicate Collected(hs: seq<Heading>, k: int, pos: int, before: Nodes, collected: seq<Ref>)
      requires -1 <= k && pos <= |hs|
      reads this
    {
      leafs == collected + Leaves(hs, k, pos) && nodes == Marked(before, Leaves(hs, k, pos))
    }

    method VisitNext(ghost hs: seq<Heading>, ghost k: int, ghost pos: int, child: Ref,
                     ghost before: Nodes, ghost collected: seq<Ref>)
      returns (ghost next: int)
      requires WellPlaced(hs, docLength) && Shape(hs, |hs|, nodes) && EndsAre(hs, docLength, nodes)
      requires Index(hs, k) && Inner(hs, k) && Due(hs, k, pos)
      requires Rest(hs, k, pos) != [] && child == Rest(hs, k, pos)[0]
      requires Collected(hs, k, pos, before, collected)
      modifies this`leafs, this`nodes
      ensures Shape(hs, |hs|, nodes) && EndsAre(hs, docLength, nodes)
      ensures Due(hs, k, next) && Rest(hs, k, pos)[1..] == Rest(hs, k, next)
      ensures Collected(hs, k, next, before, collected)
      decreases |hs| - k, 0, 1
    {
      next := VisitStep(hs, docLength, k, pos);
      ghost var soFar, below, later := Leaves(hs, k, pos), LeavesUnder(hs, child), Leaves(hs, k, next);
      assert later == soFar + below;
      MarkedTwice(before, soFar, below);
      IdentifyLeaf(hs, child);
      assert nodes == Marked(Marked(before, soFar), below) == Marked(before, later);
      Associative(collected, soFar, below);
    }

    /**
     * The whole tree: fewer than two headings build nothing, a level jump is the index error, and otherwise
     * the collected leaves are those of the document, in order, and they alone are marked.
     */
    method Build(hs: seq<Heading>) returns (built: bool, failed: bool)
      requires WellPlaced(hs, docLength) && height == 0 && tree == [[ROOT]] && leafs == []
      requires nodes == map[ROOT := Node(0, 0, docLength, "0.", [], false, None)]
      modifies this
      ensures built <==> |hs| >= 2 && StepwiseUpTo(hs, |hs|)
      ensures failed <==> |hs| >= 2 && !StepwiseUpTo(hs, |hs|)
      ensures built ==>
                && Shape(hs, |hs|, nodes) && EndsAre(hs, docLength, nodes) && TableIs(hs, |hs|, tree)
                && leafs == Leaves(hs, -1, |hs|)
                && (forall r :: r in leafs ==>
                      && r in nodes && nodes[r].start == Start(hs, r.k)
                      && nodes[r].end == NextStart(hs, r.k, docLength))
                && (forall r :: r in nodes ==> (nodes[r].isLeaf <==> r in leafs))
    {
      if |hs| < 2 {
        return false, false;
      }
      var ok := ConstructTree(hs);
      if !ok {
        return false, true;
      }
      RootSpansAll(hs, docLength);
      MarkedIs(nodes, Leaves(hs, -1, |hs|));
      IdentifyLeaf(hs, ROOT);
      forall r | r in leafs
        ensures r in nodes && nodes[r].start == Start(hs, r.k) && nodes[r].end == NextStart(hs, r.k, docLength)
      {
        LeafIs(hs, docLength, nodes, r);
      }
      return true, false;
    }

    /** Every heading's node ends where the next one starts, and the root with the document. */
    method SetEnds(hs: seq<Heading>)
      requires Shape(hs, |hs|, nodes) && NoMarks(nodes)
      modifies this`nodes
      ensures Shape(hs, |hs|, nodes) && EndsAre(hs, docLength, nodes) && NoMarks(nodes)
    {
      for index := 0 to |hs|
        invariant Shape(hs, |hs|, nodes) && NoMarks(nodes)
        invariant forall k :: 0 <= k < index ==> EndIs(hs, docLength, nodes, k)
      {
        assert EntryIs(hs, |hs|, nodes, Own(index)) && (index + 1 < |hs| ==> EntryIs(hs, |hs|, nodes, Own(index + 1)));
        var end := if index + 1 < |hs| then nodes[Own(index + 1)].start else docLength;
        EndStep(hs, nodes, Own(index), end);
        ghost var before := nodes;
        nodes := nodes[Own(index) := nodes[Own(index)].(end := end)];
        forall k | 0 <= k < index + 1
          ensures EndIs(hs, docLength, nodes, k)
        {
          assert k < index ==> EndIs(hs, docLength, before, k);
        }
      }
      ghost var before := nodes;
      assert EntryIs(hs, |hs|, nodes, ROOT);
      EndStep(hs, nodes, ROOT, docLength);
      nodes := nodes[ROOT := nodes[ROOT].(end := docLength)];
      forall k | 0 <= k < |hs|
        ensures EndIs(hs, docLength, nodes, k)
      {
        assert EndIs(hs, docLength, before, k);
      }
    }
  }

  lemma TableStep(hs: seq<Heading>, i: nat, tree: seq<seq<Ref>>, tree': seq<seq<Ref>>)
    requires i < |hs| && 1 <= hs[i].level && StepAt(hs, i) && TableIs(hs, i, tree)
    requires var grown := if hs[i].level > Height(hs, i) then tree + [[]] else tree;
             tree' == grown[hs[i].level := grown[hs[i].level] + [Own(i)]]
    ensures TableIs(hs, i + 1, tree')
  {
    forall l | 1 <= l < |tree'|
      ensures tree'[l] == Layer(hs, i + 1, l)
    {
      if l > Height(hs, i) {
        NoLayer(hs, i, l);
      }
    }
  }

  lemma LevelOf(hs: seq<Heading>, i: nat, m: Nodes, k: int)
    requires i <= |hs| && Shape(hs, i, m) && -1 <= k < i
    ensures Own(k) in m && m[Own(k)].level == Level(hs, k)
  {
    assert EntryIs(hs, i, m, Own(k));
  }

  /** The table with some entries marked as leaves. */
  ghost function Marked(m: Nodes, marks: seq<Ref>): Nodes {
    if marks == [] then m else Mark(Marked(m, marks[..|marks| - 1]), marks[|marks| - 1])
  }

  ghost function Mark(m: Nodes, r: Ref): Nodes {
    if r in m then m[r := m[r].(isLeaf := true)] else m
  }

  ghost predicate NoMarks(m: Nodes) {
    forall r :: r in m ==> !m[r].isLeaf
  }

  /** Marking touches the leaf marks of the given references and nothing else. */
  lemma {:induction false} MarkedIs(m: Nodes, marks: seq<Ref>)
    requires NoMarks(m)
    ensures Marked(m, marks).Keys == m.Keys
    ensures forall r :: r in m ==> Marked(m, marks)[r] == m[r].(isLeaf := r in marks)
  {
    if marks != [] {
      MarkedIs(m, marks[..|marks| - 1]);
      assert marks == marks[..|marks| - 1] + [marks[|marks| - 1]];
    }
  }

  lemma {:induction false} MarkedTwice(m: Nodes, a: seq<Ref>, b: seq<Ref>)
    ensures Marked(Marked(m, a), b) == Marked(m, a + b)
    decreases |b|
  {
    if b == [] {
      assert a + b == a;
    } else {
      MarkedTwice(m, a, b[..|b| - 1]);
      assert (a + b)[..|a + b| - 1] == a + b[..|b| - 1];
    }
  }

  lemma MarkKeepsShape(hs: seq<Heading>, length: nat, m: Nodes, r: Ref)
    requires Shape(hs, |hs|, m) && EndsAre(hs, length, m) && r in m
    ensures Shape(hs, |hs|, Mark(m, r)) && EndsAre(hs, length, Mark(m, r))
  {
    var n, m' := |hs|, Mark(m, r);
    forall x {:trigger EntryIs(hs, n, m', x)}
      ensures EntryIs(hs, n, m', x)
    {
      assert EntryIs(hs, n, m, x);
    }
    forall k | 0 <= k < |hs|
      ensures EndIs(hs, length, m', k)
    {
      assert EndIs(hs, length, m, k);
    }
  }

  /** The leaves below a node, in document order. */
  ghost function LeavesUnder(hs: seq<Heading>, r: Ref): seq<Ref>
    requires Index(hs, r.k)
  {
    match r
    case Own(k) => Leaves(hs, k, SubtreeEnd(hs, k))
    case Pad(_) => [r]
  }

  /** The children of `k` that are still to visit once the leaves before `pos` are collected. */
  ghost function Rest(hs: seq<Heading>, k: int, pos: int): seq<Ref>
    requires Index(hs, k) && k <= pos <= |hs|
  {
    if pos == k then [Pad(k)] + OwnRefs(Kids(hs, k, (k + 1) as nat, |hs|))
    else OwnRefs(Kids(hs, k, pos as nat, |hs|))
  }

  /** `pos` is where the padding, the next child or the end of the subtree is due. */
  ghost predicate Due(hs: seq<Heading>, k: int, pos: int)
    requires Index(hs, k)
  {
    if pos == k then Padded(hs, k)
    else k < pos <= |hs| && (pos == SubtreeEnd(hs, k) || (pos < |hs| && Parent(hs, pos) == k))
  }

  /** The visit of an inner node starts with its padding, or else with the next heading. */
  lemma {:induction false} VisitStarts(hs: seq<Heading>, length: nat, k: int)
    requires WellPlaced(hs, length) && Index(hs, k) && Inner(hs, k)
    ensures var pos := if Padded(hs, k) then k else k + 1;
            && Due(hs, k, pos) && Leaves(hs, k, pos) == []
            && Subsections(hs, |hs|, Own(k)) == Rest(hs, k, pos)
  {
    KidsComeAfter(hs, k, |hs|);
    if !Padded(hs, k) {
      assert Leaves(hs, k, k + 1) == LeafOf(hs, k) + Leaves(hs, k + 1, k + 1);
    }
  }

  lemma {:induction false} VisitPad(hs: seq<Heading>, length: nat, k: int)
    requires WellPlaced(hs, length) && Index(hs, k) && Inner(hs, k) && Padded(hs, k)
    ensures Rest(hs, k, k)[1..] == Rest(hs, k, k + 1)
    ensures Leaves(hs, k, k + 1) == Leaves(hs, k, k) + [Pad(k)]
  {
    assert Leaves(hs, k, k) == [];
    assert Leaves(hs, k, k + 1) == LeafOf(hs, k) + Leaves(hs, k + 1, k + 1);
  }

  lemma {:induction false} VisitChild(hs: seq<Heading>, length: nat, k: int, c: int)
    requires WellPlaced(hs, length) && Index(hs, k) && k < c < |hs| && Parent(hs, c) == k
    ensures var next := SubtreeEnd(hs, c);
            && Due(hs, k, next)
            && Rest(hs, k, c) != [] && Rest(hs, k, c)[0] == Own(c) && Rest(hs, k, c)[1..] == Rest(hs, k, next)
            && Leaves(hs, k, next) == Leaves(hs, k, c) + Leaves(hs, c, next)
  {
    var next := SubtreeEnd(hs, c);
    KidStep(hs, length, k, c as nat);
    var kids := Kids(hs, k, next as nat, |hs|);
    assert OwnRefs([c] + kids) == [Own(c)] + OwnRefs(kids);
    LeavesSplit(hs, k, c, next);
  }

  /** Visiting the next child moves on to the heading after its subtree. */
  lemma VisitStep(hs: seq<Heading>, length: nat, k: int, pos: int) returns (next: int)
    requires WellPlaced(hs, length) && Index(hs, k) && Inner(hs, k) && Due(hs, k, pos)
    requires Rest(hs, k, pos) != []
    ensures var r := Rest(hs, k, pos)[0];
            && There(hs, |hs|, r) && (if r.Pad? then r.k == k else r.k > k)
            && Due(hs, k, next) && next > k
            && Rest(hs, k, pos)[1..] == Rest(hs, k, next)
            && Leaves(hs, k, next) == Leaves(hs, k, pos) + LeavesUnder(hs, r)
  {
    if pos == k {
      next := k + 1;
      VisitPad(hs, length, k);
    } else {
      if pos == SubtreeEnd(hs, k) {
        NoLateKids(hs, length, k);
      }
      next := SubtreeEnd(hs, pos);
      VisitChild(hs, length, k, pos);
    }
  }

  /** When no child is left, all leaves of the subtree are collected. */
  lemma VisitEnds(hs: seq<Heading>, length: nat, k: int, pos: int)
    requires WellPlaced(hs, length) && Index(hs, k) && Due(hs, k, pos) && Rest(hs, k, pos) == []
    ensures pos == SubtreeEnd(hs, k)
  {
    if pos != SubtreeEnd(hs, k) {
      KidHead(hs, k, pos as nat);
    }
  }

  lemma RootSpansAll(hs: seq<Heading>, length: nat)
    requires WellPlaced(hs, length)
    ensures SubtreeEnd(hs, -1) == |hs|
  {
  }

  ghost predicate AllAtLeast(hs: seq<Heading>, lo: int, hi: int, level: nat)
    requires 0 <= lo && hi <= |hs|
  {
    forall x :: lo <= x < hi ==> hs[x].level >= level
  }

  /** Popping a heading that is not lower leaves only headings that are not lower behind. */
  lemma PopStep(hs: seq<Heading>, i: nat, top: int)
    requires i < |hs| && -1 <= top < i && 1 <= hs[i].level <= Level(hs, top)
    requires AllAtLeast(hs, top + 1, i, hs[i].level)
    ensures top >= 0 && AllAtLeast(hs, Parent(hs, top) + 1, i, hs[i].level)
  {
    NearestAboveIs(hs, top, hs[top].level);
  }

  ghost predicate EndIs(hs: seq<Heading>, length: nat, m: Nodes, k: int)
    requires 0 <= k < |hs|
  {
    Own(k) in m && m[Own(k)].end == NextStart(hs, k, length)
  }

  ghost predicate EndsAre(hs: seq<Heading>, length: nat, m: Nodes) {
    && (forall k :: 0 <= k < |hs| ==> EndIs(hs, length, m, k))
    && ROOT in m && m[ROOT].end == length
  }

  lemma NoSubsections(hs: seq<Heading>, length: nat, r: Ref)
    requires WellPlaced(hs, length) && There(hs, |hs|, r) && Subsections(hs, |hs|, r) == []
    ensures LeavesUnder(hs, r) == [r]
  {
    if r.Own? {
      var k := r.k;
      KidsComeAfter(hs, k, |hs|);
      if Inner(hs, k) {
        InnerKids(hs, k, |hs|);
      }
      assert !Inner(hs, k);
      NotInner(hs, length, k);
      assert Leaves(hs, k, k + 1) == LeafOf(hs, k) + Leaves(hs, k + 1, k + 1);
    }
  }

  lemma HasSubsections(hs: seq<Heading>, length: nat, r: Ref)
    requires WellPlaced(hs, length) && There(hs, |hs|, r) && Subsections(hs, |hs|, r) != []
    ensures r.Own? && Inner(hs, r.k)
  {
    if r.Own? && !Inner(hs, r.k) {
      OuterHasNoSubsections(hs, length, r.k);
    }
  }

  lemma OuterHasNoSubsections(hs: seq<Heading>, length: nat, k: int)
    requires WellPlaced(hs, length) && Index(hs, k) && !Inner(hs, k)
    ensures Subsections(hs, |hs|, Own(k)) == []
  {
    KidsComeAfter(hs, k, |hs|);
    NotInner(hs, length, k);
    assert OwnRefs([]) == [];
  }

  lemma {:induction false} LeafIs(hs: seq<Heading>, length: nat, m: Nodes, r: Ref)
    requires Shape(hs, |hs|, m) && EndsAre(hs, length, m) && |hs| >= 2
    requires WellPlaced(hs, length) && r in Leaves(hs, -1, |hs|)
    ensures r in m && m[r].start == Start(hs, r.k) && m[r].end == NextStart(hs, r.k, length)
  {
    assert r in LeafOf(hs, r.k);
    assert EntryIs(hs, |hs|, m, r);
    if r.Own? {
      KidsComeAfter(hs, -1, |hs|);
      assert r.k >= 0;
      assert EndIs(hs, length, m, r.k);
    }
  }

  lemma EndStep(hs: seq<Heading>, m: Nodes, r: Ref, end: nat)
    requires Shape(hs, |hs|, m) && r in m && r.Own?
    ensures Shape(hs, |hs|, m[r := m[r].(end := end)])
  {
    var n := |hs|;
    var m' := m[r := m[r].(end := end)];
    forall x {:trigger EntryIs(hs, n, m', x)}
      ensures EntryIs(hs, n, m', x)
    {
      assert EntryIs(hs, n, m, x);
    }
  }

  lemma EmptyShape(hs: seq<Heading>, m: Nodes)
    requires m.Keys == {ROOT} && m[ROOT].level == 0 && m[ROOT].start == 0 && m[ROOT].name == "0."
    requires m[ROOT].subsection == [] && m[ROOT].upper == None
    ensures Shape(hs, 0, m)
  {
    forall x {:trigger EntryIs(hs, 0, m, x)}
      ensures EntryIs(hs, 0, m, x)
    {
    }
  }

  /** Hanging heading `i` below its parent turns the tree of `i` headings into that of `i + 1`. */
  lemma ShapeStep(hs: seq<Heading>, length: nat, i: nat, m: Nodes, m': Nodes)
    requires WellPlaced(hs, length) && i < |hs| && Shape(hs, i, m)
    requires var p := Parent(hs, i);
             var own := Node(hs[i].level, hs[i].offset, length, hs[i].name, [], false, Some(Own(p)));
             Own(p) in m && m' == HungBelow(m[Own(i) := own], Own(p), Own(i))
    ensures Shape(hs, i + 1, m')
  {
    var n := i + 1;
    forall x {:trigger EntryIs(hs, n, m', x)}
      ensures EntryIs(hs, n, m', x)
    {
      if x == Own(Parent(hs, i)) {
        ParentEntry(hs, length, i, m, m');
      } else {
        OtherEntry(hs, length, i, m, m', x);
      }
    }
  }

  lemma ParentEntry(hs: seq<Heading>, length: nat, i: nat, m: Nodes, m': Nodes)
    requires WellPlaced(hs, length) && i < |hs| && Shape(hs, i, m)
    requires var p := Parent(hs, i);
             var own := Node(hs[i].level, hs[i].offset, length, hs[i].name, [], false, Some(Own(p)));
             Own(p) in m && m' == HungBelow(m[Own(i) := own], Own(p), Own(i))
    ensures EntryIs(hs, i + 1, m', Own(Parent(hs, i)))
  {
    var p := Parent(hs, i);
    assert EntryIs(hs, i, m, Own(p));
    ParentGrows(hs, length, i);
    var n, n' := m[Own(p)], m'[Own(p)];
    assert n' == n.(subsection := n'.subsection);
    assert n'.subsection == Subsections(hs, i + 1, Own(p));
  }

  /** The parent of heading `i` gets it as its last child, after a padding leaf if it needs one. */
  lemma ParentGrows(hs: seq<Heading>, length: nat, i: nat)
    requires WellPlaced(hs, length) && i < |hs|
    ensures var p := Parent(hs, i);
            var before, after := Subsections(hs, i, Own(p)), Subsections(hs, i + 1, Own(p));
            && Inner(hs, p) && (before == [] <==> i == p + 1)
            && after == (if i == p + 1 && Padded(hs, p) then [Pad(p)] else before) + [Own(i)]
  {
    var p := Parent(hs, i);
    FirstOfKids(hs, length, p, i);
    var kids := Kids(hs, p, 0, i);
    OwnRefsSnoc(kids, i);
    var pad := if There(hs, i + 1, Pad(p)) then [Pad(p)] else [];
    Associative(pad, OwnRefs(kids), [Own(i)]);
    if i == p + 1 {
      assert pad + OwnRefs([]) == pad;
      assert [] + OwnRefs([]) == [];
    }
  }

  lemma OwnRefsSnoc(ks: seq<int>, k: int)
    ensures OwnRefs(ks + [k]) == OwnRefs(ks) + [Own(k)]
  {
  }

  lemma OtherEntry(hs: seq<Heading>, length: nat, i: nat, m: Nodes, m': Nodes, x: Ref)
    requires WellPlaced(hs, length) && i < |hs| && Shape(hs, i, m) && x != Own(Parent(hs, i))
    requires var p := Parent(hs, i);
             var own := Node(hs[i].level, hs[i].offset, length, hs[i].name, [], false, Some(Own(p)));
             Own(p) in m && m' == HungBelow(m[Own(i) := own], Own(p), Own(i))
    ensures EntryIs(hs, i + 1, m', x)
  {
    var p := Parent(hs, i);
    FirstOfKids(hs, length, p, i);
    assert EntryIs(hs, i, m, x) && EntryIs(hs, i, m, Own(p)) && EntryIs(hs, i, m, Pad(p));
    match x {
      case Pad(k) =>
      case Own(k) =>
        if k == i {
          NoKids(hs, i, 0, i + 1);
        } else if -1 <= k < i {
          OthersKeepKids(hs, length, i, k);
        }
    }
  }

  /** A heading changes the children of its parent only. */
  lemma OthersKeepKids(hs: seq<Heading>, length: nat, i: nat, k: int)
    requires WellPlaced(hs, length) && i < |hs| && -1 <= k < i && k != Parent(hs, i)
    ensures Subsections(hs, i + 1, Own(k)) == Subsections(hs, i, Own(k))
  {
    assert Kids(hs, k, 0, i + 1) == Kids(hs, k, 0, i) + [];
    assert k + 1 == i ==> !Inner(hs, k);
    assert There(hs, i + 1, Pad(k)) <==> There(hs, i, Pad(k));
  }

  /** The table after `AddSubsection`. */
  function HungBelow(m: Nodes, parent: Ref, child: Ref): Nodes
    requires parent in m && child in m
  {
    var p, c := m[parent], m[child];
    if p.subsection == [] && c.start - p.start > |p.name| + 5
    then
      var pad := Node(c.level, p.start, c.start, "\t" + p.name + "[PADDING]", [], false, Some(parent));
      m[Pad(parent.k) := pad][parent := p.(subsection := [Pad(parent.k), child])]
    else m[parent := p.(subsection := p.subsection + [child])]
  }
}
