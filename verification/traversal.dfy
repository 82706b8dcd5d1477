/** The two walks of `src/domCollector.ts` over the document: the
    breadth-first collection of directive-bearing elements, and the pre-order
    walk over text nodes that gathers unlabelled text. */
module Traversal {
  import opened Wrappers
  import opened Strings
  import opened Dom
  import opened Seqs

  // ---------------------------------------------------------------------------
  // collectAiElements

  /** The trimmed directive is non-blank and not `exclude`: the element is
      collected. */
  predicate Collected(e: Element) {
    Directive(e).Some? && Directive(e).value != [] && Directive(e).value != "exclude"
  }

  /** The trimmed directive is `exclude`: the subtree is pruned. */
  predicate Prunes(e: Element) {
    Directive(e) == Some("exclude")
  }

  /** A collected element is not excluded, and has a directive. */
  lemma {:induction false} CollectedNotExcluded(e: Element)
    requires Collected(e)
    ensures !IsExcluded(e) && !Prunes(e) && HasDataAi(e)
  {
    if IsExcluded(e) {
      ExcludedHasDataAi(e);
    }
  }

  /** What one dequeued element contributes to the result. */
  function Keep(e: Element): seq<Element> {
    if Collected(e) then [e] else []
  }

  /** What one dequeued element adds to the queue. */
  function Expand(e: Element): (r: seq<Element>)
    ensures SizeOf(r) < Size(e)
  {
    if Prunes(e) then [] else Children(e.nodes)
  }

  /** Dequeuing the head and enqueuing its expansion shrinks the queue. */
  lemma {:induction false} DequeueSmaller(queue: seq<Element>)
    requires queue != []
    ensures SizeOf(queue[1..] + Expand(queue[0])) < SizeOf(queue)
  {
    SizeOfAppend(queue[1..], Expand(queue[0]));
  }

  /** The queue loop of `collectAiElements`, as a function of the queue. */
  function Bfs(queue: seq<Element>): seq<Element>
    decreases SizeOf(queue)
  {
    if queue == [] then []
    else
      DequeueSmaller(queue);
      Keep(queue[0]) + Bfs(queue[1..] + Expand(queue[0]))
  }

  /** The elements of a level that are collected, in order. */
  function KeptAll(level: seq<Element>): seq<Element>
    decreases |level|
  {
    if level == [] then [] else Keep(level[0]) + KeptAll(level[1..])
  }

  /** `KeptAll` keeps exactly the collected elements of the level. */
  lemma {:induction false} KeptAllMembers(level: seq<Element>)
    ensures forall x :: x in KeptAll(level) <==> x in level && Collected(x)
    decreases |level|
  {
    if level != [] {
      KeptAllMembers(level[1..]);
      assert forall x :: x in level <==> x == level[0] || x in level[1..];
    }
  }

  /** The next level: the children of the level's unpruned elements, in order. */
  function Next(level: seq<Element>): (r: seq<Element>)
    ensures SizeOf(r) + |level| <= SizeOf(level)
    decreases |level|
  {
    if level == [] then []
    else
      var r := Expand(level[0]) + Next(level[1..]);
      SizeOfAppend(Expand(level[0]), Next(level[1..]));
      r
  }

  /** Level-order reference: the collected elements of each level, level after
      level, where a pruned element has no children. */
  function LevelOrder(level: seq<Element>): seq<Element>
    decreases SizeOf(level)
  {
    if level == [] then [] else KeptAll(level) + LevelOrder(Next(level))
  }

  /** One dequeue, unfolded. */
  lemma {:induction false} BfsUnfold(queue: seq<Element>)
    requires queue != []
    ensures Bfs(queue) == Keep(queue[0]) + Bfs(queue[1..] + Expand(queue[0]))
  {
  }

  lemma {:induction false} BfsSplitStep(q: seq<Element>, m: seq<Element>)
    requires q != []
    requires Bfs(q[1..] + (m + Expand(q[0]))) == KeptAll(q[1..]) + Bfs((m + Expand(q[0])) + Next(q[1..]))
    ensures Bfs(q + m) == KeptAll(q) + Bfs(m + Next(q))
  {
    var e := Expand(q[0]);
    BfsUnfold(q + m);
    TailAppend(q, m);
    AppendAssoc(q[1..], m, e);
    AppendAssoc(m, e, Next(q[1..]));
    AppendAssoc(Keep(q[0]), KeptAll(q[1..]), Bfs(m + Next(q)));
  }

  /** Draining a queue `q + m`: first everything `q` keeps, then the drain of
      `m` followed by what `q` enqueued. */
  lemma {:induction false} BfsSplit(q: seq<Element>, m: seq<Element>)
    ensures Bfs(q + m) == KeptAll(q) + Bfs(m + Next(q))
    decreases |q|
  {
    if q == [] {
      AppendEmpty(m);
    } else {
      BfsSplit(q[1..], m + Expand(q[0]));
      BfsSplitStep(q, m);
    }
  }

  /** The queue visits the tree level by level. */
  lemma {:induction false} BfsIsLevelOrder(level: seq<Element>)
    ensures Bfs(level) == LevelOrder(level)
    decreases SizeOf(level)
  {
    if level != [] {
      BfsSplit(level, []);
      assert level + [] == level && [] + Next(level) == Next(level);
      BfsIsLevelOrder(Next(level));
    }
  }

  /** Every element reachable from the forest `es` without entering the
      children of a pruned element, in pre-order (pruned elements themselves
      included). */
  function Reach(es: seq<Element>): seq<Element>
    decreases SizeOf(es)
  {
    if es == [] then []
    else
      assert SizeOf(es) == Size(es[0]) + SizeOf(es[1..]);
      [es[0]] + Reach(Expand(es[0])) + Reach(es[1..])
  }

  lemma {:induction false} KeptAllAppend(a: seq<Element>, b: seq<Element>)
    ensures KeptAll(a + b) == KeptAll(a) + KeptAll(b)
    decreases |a|
  {
    if a == [] {
      assert a + b == b;
    } else {
      assert (a + b)[1..] == a[1..] + b;
      KeptAllAppend(a[1..], b);
    }
  }

  lemma {:induction false} ReachAppend(a: seq<Element>, b: seq<Element>)
    ensures Reach(a + b) == Reach(a) + Reach(b)
    decreases |a|
  {
    if a == [] {
      assert a + b == b;
    } else {
      assert (a + b)[0] == a[0] && (a + b)[1..] == a[1..] + b;
      ReachAppend(a[1..], b);
    }
  }

  /** The queue collects exactly the collected elements of the pruned
      pre-order walk, with the same multiplicities. */
  lemma {:induction false} BfsCollectsReach(queue: seq<Element>)
    ensures multiset(Bfs(queue)) == multiset(KeptAll(Reach(queue)))
    decreases SizeOf(queue)
  {
    if queue != [] {
      var e := Expand(queue[0]);
      var rest := queue[1..];
      DequeueSmaller(queue);
      BfsCollectsReach(rest + e);
      ReachAppend(rest, e);
      KeptAllAppend(Reach(rest), Reach(e));
      KeptAllAppend([queue[0]] + Reach(e), Reach(rest));
      KeptAllAppend([queue[0]], Reach(e));
    }
  }

  /** What the queue drain from `root` is: the level order, and exactly the
      collected elements of the pruned walk, none of them excluded. */
  lemma {:induction false} BfsFromRoot(root: Element)
    ensures Bfs([root]) == LevelOrder([root])
    ensures multiset(Bfs([root])) == multiset(KeptAll(Reach([root])))
    ensures forall k :: 0 <= k < |Bfs([root])| ==> Collected(Bfs([root])[k]) && !IsExcluded(Bfs([root])[k])
  {
    var b := Bfs([root]);
    BfsIsLevelOrder([root]);
    BfsCollectsReach([root]);
    KeptAllMembers(Reach([root]));
    forall k | 0 <= k < |b|
      ensures Collected(b[k]) && !IsExcluded(b[k])
    {
      assert b[k] in multiset(b);
      CollectedNotExcluded(b[k]);
    }
  }

  /** `collectAiElements(root)`. */
  method CollectAiElements(root: Element) returns (elements: seq<Element>)
    ensures elements == LevelOrder([root])
    ensures multiset(elements) == multiset(KeptAll(Reach([root])))
    ensures forall k :: 0 <= k < |elements| ==> Collected(elements[k]) && !IsExcluded(elements[k])
  {
    elements := [];
    var queue := [root];
    while queue != []
      invariant elements + Bfs(queue) == Bfs([root])
      decreases SizeOf(queue)
    {
      var el := queue[0];
      DequeueSmaller(queue);
      BfsUnfold(queue);
      ghost var rest := Bfs(queue[1..] + Expand(el));
      AppendAssoc(elements, Keep(el), rest);
      AppendEmpty(queue[1..]);
      AppendEmpty(rest);
      queue := queue[1..];
      var trimmed := Directive(el);
      var isExclude := trimmed == Some("exclude");
      if trimmed.Some? && trimmed.value != [] && !isExclude {
        assert Keep(el) == [el];
        elements := elements + [el];
      } else {
        assert Keep(el) == [];
      }
      assert elements + rest == Bfs([root]);
      if isExclude {
        assert Expand(el) == [];
        assert Bfs(queue) == rest;
        continue;
      }
      assert Expand(el) == Children(el.nodes);
      queue := queue + Children(el.nodes);
      assert Bfs(queue) == rest;
    }
    AppendEmpty(elements);
    BfsFromRoot(root);
  }

  /** An excluded root yields nothing: exclusion covers the whole subtree. */
  lemma {:induction false} ExcludedRootCollectsNothing(root: Element)
    requires Prunes(root)
    ensures Bfs([root]) == []
  {
    assert [root][1..] + Expand(root) == [];
  }

  // ---------------------------------------------------------------------------
  // collectFallbackText

  /** The text of `nodes`, children of `chain[0]`, in document order: each
      text node whose parent's chain has neither an excluded element nor an
      element with a directive, trimmed, when not blank. */
  function FallbackFrom(nodes: seq<Node>, chain: seq<Element>): seq<string>
    decreases NodesSize(nodes)
  {
    if nodes == [] then []
    else
      assert NodesSize(nodes) == NodeSize(nodes[0]) + NodesSize(nodes[1..]);
      var head := match nodes[0]
        case TextNode(d) =>
          if chain != [] && !InExcludedSubtree(chain) && !InLabeledSubtree(chain) && Trim(d) != []
          then [Trim(d)]
          else []
        case ElementNode(e) =>
          assert NodeSize(nodes[0]) == 1 + NodesSize(e.nodes);
          FallbackFrom(e.nodes, [e] + chain);
      head + FallbackFrom(nodes[1..], chain)
  }

  /** Every part is non-blank and already trimmed. */
  predicate AllTrimmed(parts: seq<string>) {
    forall k :: 0 <= k < |parts| ==> parts[k] != [] && Trim(parts[k]) == parts[k]
  }

  lemma {:induction false} AllTrimmedAppend(a: seq<string>, b: seq<string>)
    requires AllTrimmed(a) && AllTrimmed(b)
    ensures AllTrimmed(a + b)
  {
    forall k | 0 <= k < |a + b|
      ensures (a + b)[k] != [] && Trim((a + b)[k]) == (a + b)[k]
    {
      if k < |a| {
        assert (a + b)[k] == a[k];
      } else {
        assert (a + b)[k] == b[k - |a|];
      }
    }
  }

  /** Every gathered part is non-blank and already trimmed. */
  lemma {:induction false} FallbackTrimmed(nodes: seq<Node>, chain: seq<Element>)
    ensures AllTrimmed(FallbackFrom(nodes, chain))
    decreases NodesSize(nodes)
  {
    if nodes != [] {
      assert NodesSize(nodes) == NodeSize(nodes[0]) + NodesSize(nodes[1..]);
      FallbackTrimmed(nodes[1..], chain);
      var head := match nodes[0]
        case TextNode(d) =>
          if chain != [] && !InExcludedSubtree(chain) && !InLabeledSubtree(chain) && Trim(d) != []
          then [Trim(d)]
          else []
        case ElementNode(e) => FallbackFrom(e.nodes, [e] + chain);
      assert FallbackFrom(nodes, chain) == head + FallbackFrom(nodes[1..], chain);
      match nodes[0] {
        case TextNode(d) =>
          TrimIdempotent(d);
        case ElementNode(e) =>
          assert NodeSize(nodes[0]) == 1 + NodesSize(e.nodes);
          FallbackTrimmed(e.nodes, [e] + chain);
      }
      AllTrimmedAppend(head, FallbackFrom(nodes[1..], chain));
    }
  }

  /** `collectFallbackText(root)`, with `outer` the chain of `root`'s
      ancestors above it. */
  function CollectFallbackText(root: Element, outer: seq<Element>): seq<string> {
    FallbackFrom(root.nodes, [root] + outer)
  }

  /** Under an element with a directive (or an excluded one) no text is
      gathered: that text belongs to the directive's element. */
  lemma {:induction false} LabeledChainNoFallback(nodes: seq<Node>, chain: seq<Element>)
    requires InLabeledSubtree(chain)
    ensures FallbackFrom(nodes, chain) == []
    decreases NodesSize(nodes)
  {
    if nodes != [] {
      assert NodesSize(nodes) == NodeSize(nodes[0]) + NodesSize(nodes[1..]);
      match nodes[0] {
        case TextNode(d) =>
        case ElementNode(e) =>
          assert NodeSize(nodes[0]) == 1 + NodesSize(e.nodes);
          SubtreeMonotone(e, chain);
          LabeledChainNoFallback(e.nodes, [e] + chain);
      }
      LabeledChainNoFallback(nodes[1..], chain);
    }
  }

  /** The exclusion test of the fallback walk is subsumed by the label test:
      dropping it changes nothing. */
  lemma {:induction false} ExclusionTestRedundant(chain: seq<Element>)
    ensures (!InExcludedSubtree(chain) && !InLabeledSubtree(chain)) <==> !InLabeledSubtree(chain)
  {
    if InExcludedSubtree(chain) {
      ExcludedSubtreeIsLabeled(chain);
    }
  }

  /** A root with a directive, or under one, contributes no fallback text. */
  lemma {:induction false} LabeledRootNoFallback(root: Element, outer: seq<Element>)
    requires InLabeledSubtree([root] + outer)
    ensures CollectFallbackText(root, outer) == []
  {
    LabeledChainNoFallback(root.nodes, [root] + outer);
  }
}
