/** The document as an immutable tree, and the attribute predicates of
    `src/utils/domUtils.ts`. */
module Dom {
  import opened Wrappers
  import opened Strings

  /** An element: its `data-ai` and `data-ai-label` attributes (absent or
      present), the text `extractText` would read from it, and its child nodes
      in document order. */
  datatype Element = Element(dataAi: Option<string>, aiLabel: Option<string>, text: string, nodes: seq<Node>)

  /** A child node: a text node with its data, or an element. */
  datatype Node = TextNode(data: string) | ElementNode(element: Element)

  // ---------------------------------------------------------------------------
  // Sizes and element children

  /** Number of nodes in the subtree of `e`, counting `e`. */
  function Size(e: Element): (n: nat)
    ensures n >= 1
    decreases e, 1
  {
    1 + NodesSize(e.nodes)
  }

  function NodesSize(ns: seq<Node>): nat
    decreases ns, 0
  {
    if ns == [] then 0 else NodeSize(ns[0]) + NodesSize(ns[1..])
  }

  function NodeSize(n: Node): (k: nat)
    ensures k >= 1
    decreases n, 2
  {
    match n
    case TextNode(_) => 1
    case ElementNode(e) => Size(e)
  }

  /** Total size of a list of subtrees. */
  function SizeOf(es: seq<Element>): nat
    decreases |es|
  {
    if es == [] then 0 else Size(es[0]) + SizeOf(es[1..])
  }

  lemma {:induction false} SizeOfAppend(a: seq<Element>, b: seq<Element>)
    ensures SizeOf(a + b) == SizeOf(a) + SizeOf(b)
    decreases |a|
  {
    if a == [] {
      assert a + b == b;
    } else {
      assert (a + b)[1..] == a[1..] + b;
      SizeOfAppend(a[1..], b);
    }
  }

  /** `Element.children`: the element nodes among `nodes`, in order. */
  function Children(nodes: seq<Node>): (r: seq<Element>)
    ensures SizeOf(r) <= NodesSize(nodes)
    ensures forall k :: 0 <= k < |r| ==> ElementNode(r[k]) in nodes
    decreases |nodes|
  {
    if nodes == [] then []
    else
      var head := match nodes[0] case TextNode(_) => [] case ElementNode(e) => [e];
      var rest := Children(nodes[1..]);
      SizeOfAppend(head, rest);
      head + rest
  }

  // ---------------------------------------------------------------------------
  // Attribute predicates

  /** `el.getAttribute("data-ai")?.trim()`: the directive with surrounding
      whitespace removed, or `None` when the attribute is absent. */
  function Directive(e: Element): (d: Option<string>)
    ensures d.Some? <==> e.dataAi.Some?
  {
    match e.dataAi
    case None => None
    case Some(v) => Some(Trim(v))
  }

  /** `hasDataAi`: the attribute is present and not blank. */
  predicate HasDataAi(e: Element) {
    e.dataAi.Some? && Trim(e.dataAi.value) != []
  }

  /** `isExcluded`: the attribute is exactly `exclude`, untrimmed. */
  predicate IsExcluded(e: Element) {
    e.dataAi == Some("exclude")
  }

  /** `hasDataAi` is a non-blank trimmed directive. */
  lemma {:induction false} HasDataAiIsDirective(e: Element)
    ensures HasDataAi(e) <==> Directive(e).Some? && Directive(e).value != []
  {
  }

  /** `exclude` is already trimmed. */
  lemma {:induction false} TrimExclude()
    ensures Trim("exclude") == "exclude"
  {
    TrimNoWhitespace("exclude");
  }

  /** An excluded element has a directive. */
  lemma {:induction false} ExcludedHasDataAi(e: Element)
    requires IsExcluded(e)
    ensures HasDataAi(e)
    ensures Directive(e) == Some("exclude")
  {
    TrimExclude();
  }

  // ---------------------------------------------------------------------------
  // Walks up the parent chain

  /* A chain lists an element and then its ancestors, nearest first:
     `chain[0]` is the element and `chain[i + 1]` is the parent of `chain[i]`.
     The walks of the source follow `parentElement` until it is null, so the
     chain ends at the top of the document. */

  /** `isInExcludedSubtree(chain[0])`: walks up the chain until an excluded
      element or the top. */
  function InExcludedSubtree(chain: seq<Element>): bool
    decreases |chain|
  {
    if chain == [] then false
    else if IsExcluded(chain[0]) then true
    else InExcludedSubtree(chain[1..])
  }

  /** `isInLabeledSubtree(chain[0])`: walks up the chain until an element with
      a directive or the top. */
  function InLabeledSubtree(chain: seq<Element>): bool
    decreases |chain|
  {
    if chain == [] then false
    else if HasDataAi(chain[0]) then true
    else InLabeledSubtree(chain[1..])
  }

  /** The excluded-subtree walk succeeds exactly when the element or one of its
      ancestors is excluded. */
  lemma {:induction false} InExcludedSubtreeIff(chain: seq<Element>)
    ensures InExcludedSubtree(chain) <==> exists i :: 0 <= i < |chain| && IsExcluded(chain[i])
    decreases |chain|
  {
    if chain != [] && !IsExcluded(chain[0]) {
      InExcludedSubtreeIff(chain[1..]);
      assert forall i :: 1 <= i < |chain| ==> chain[i] == chain[1..][i - 1];
    }
  }

  /** The labelled-subtree walk succeeds exactly when the element or one of its
      ancestors has a directive. */
  lemma {:induction false} InLabeledSubtreeIff(chain: seq<Element>)
    ensures InLabeledSubtree(chain) <==> exists i :: 0 <= i < |chain| && HasDataAi(chain[i])
    decreases |chain|
  {
    if chain != [] && !HasDataAi(chain[0]) {
      InLabeledSubtreeIff(chain[1..]);
      assert forall i :: 1 <= i < |chain| ==> chain[i] == chain[1..][i - 1];
    }
  }

  /** Being inside an excluded subtree implies being inside a labelled one. */
  lemma {:induction false} ExcludedSubtreeIsLabeled(chain: seq<Element>)
    requires InExcludedSubtree(chain)
    ensures InLabeledSubtree(chain)
  {
    InExcludedSubtreeIff(chain);
    InLabeledSubtreeIff(chain);
    var i :| 0 <= i < |chain| && IsExcluded(chain[i]);
    ExcludedHasDataAi(chain[i]);
  }

  /** Both walks are inherited: what holds for a parent's chain holds for the
      chain of each of its children. */
  lemma {:induction false} SubtreeMonotone(child: Element, chain: seq<Element>)
    ensures InExcludedSubtree(chain) ==> InExcludedSubtree([child] + chain)
    ensures InLabeledSubtree(chain) ==> InLabeledSubtree([child] + chain)
  {
    assert ([child] + chain)[1..] == chain;
  }
}
