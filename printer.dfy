/** PrintSpanTree: builds the forest, sorts it, and writes one rendered box
    per root. The writer is modelled by the sequence of boxes handed to
    fmt.Fprintln, in order; Output gives the characters that makes. */
module Printer {
  import opened Spans
  import opened Forest
  import opened Render

  /** A depth measure on the input: along every valid parent link the
      child's key ranks strictly below the parent's key. Such a measure
      exists exactly when the parent links of the whole input have no
      cycle, whether or not a root reaches it. */
  ghost predicate DepthMeasure(spans: seq<Span>, rank: map<string, nat>)
  {
    forall s :: s in spans && IsValid(s.parent) ==>
      Hex(s.parent) in rank && Hex(s.id) in rank && rank[Hex(s.id)] < rank[Hex(s.parent)]
  }

  /** A span that names itself as its parent (its ID equals its valid
      parent ID) is never a root, and it is in the child list looked up
      under its own ID. It rules out every depth measure, so the
      precondition of PrintSpanTree excludes it, also where no root
      reaches it and the source would stop. */
  lemma SelfParentHasNoDepthMeasure(spans: seq<Span>, rank: map<string, nat>, s: Span)
    requires s in spans && IsValid(s.parent) && s.id == s.parent
    ensures s !in RootsOf(spans)
    ensures s in ChildrenOf(spans, Hex(s.id))
    ensures !DepthMeasure(spans, rank)
  {
    EachSpanPlacedOnce(spans, s, Hex(s.id));
  }

  /** A self-parented span that a root reaches: when a root has the ID x
      and a span has both ID and parent x, the root's child list holds the
      span, and so does the span's own. buildSpanBox on that root calls
      itself on the span, which calls itself on the span again with the
      same arguments, without end. */
  lemma SelfParentUnderRootLoops(spans: seq<Span>, children: map<string, seq<Span>>, r: Span, s: Span)
    requires IsSortedChildrenMap(spans, children)
    requires r in spans && !IsValid(r.parent)
    requires s in spans && IsValid(s.parent) && s.id == s.parent && r.id == s.id
    ensures r in RootsOf(spans)
    ensures s in KidsOf(r, children) && s in KidsOf(s, children)
  {
    var k := Hex(s.id);
    EachSpanPlacedOnce(spans, r, k);
    EachSpanPlacedOnce(spans, s, k);
    assert k in children;
    assert multiset(children[k]) == multiset(ChildrenOf(spans, k));
    assert s in multiset(children[k]);
  }

  /** A member of a sorted child list is an input span whose valid parent
      has the list's key. */
  lemma SortedChildMember(spans: seq<Span>, children: map<string, seq<Span>>, p: string, c: Span)
    requires IsSortedChildrenMap(spans, children)
    requires p in children && c in children[p]
    ensures c in spans && IsValid(c.parent) && Hex(c.parent) == p
  {
    assert multiset(children[p])[c] > 0;
    ChildrenOfCount(spans, p, c);
  }

  /** The sorted children map inherits the input's depth measure, and every
      list holds input spans keyed by their parent. */
  lemma SortedChildrenMapRanked(spans: seq<Span>, children: map<string, seq<Span>>, rank: map<string, nat>)
    requires IsSortedChildrenMap(spans, children) && DepthMeasure(spans, rank)
    ensures Ranked(children, rank) && KeyedBy(children, spans)
  {
    forall p | p in children ensures p in rank {
      var c0 := children[p][0];
      SortedChildMember(spans, children, p, c0);
    }
    forall p, c | p in children && c in children[p]
      ensures c in spans && IsValid(c.parent) && Hex(c.parent) == p
    {
      SortedChildMember(spans, children, p, c);
    }
  }

  /** PrintSpanTree. Empty input writes nothing; otherwise the children map
      is built and each list sorted, the roots are collected and sorted, and
      each root's box is written, in root order. The ghost results expose
      the sorted roots and children map the boxes were built from. */
  method PrintSpanTree(spans: seq<Span>, ghost rank: map<string, nat>)
    returns (written: seq<Box>, ghost roots: seq<Span>, ghost children: map<string, seq<Span>>)
    requires DepthMeasure(spans, rank)
    ensures spans == [] ==> written == []
    ensures SortedPermutation(roots, RootsOf(spans))
    ensures IsSortedChildrenMap(spans, children)
    ensures Ranked(children, rank)
    ensures |written| == |roots|
    ensures forall i :: 0 <= i < |roots| ==> written[i] == SpanBox(roots[i], children, rank)
  {
    if |spans| == 0 {
      written, roots, children := [], [], map[];
      return;
    }

    var childrenMap := BuildChildrenMap(spans);
    ghost var unsorted := childrenMap;
    childrenMap := SortChildLists(childrenMap);
    assert IsSortedChildrenMap(spans, childrenMap) by {
      forall k | k in childrenMap ensures SortedPermutation(childrenMap[k], ChildrenOf(spans, k)) {
        assert unsorted[k] == ChildrenOf(spans, k);
      }
    }
    SortedChildrenMapRanked(spans, childrenMap, rank);

    var rootList := CollectRoots(spans);
    rootList := SortSlice(rootList);

    written := [];
    for i := 0 to |rootList|
      invariant |written| == i
      invariant forall k :: 0 <= k < i ==> written[k] == SpanBox(rootList[k], childrenMap, rank)
    {
      var treeStr := BuildSpanBox(rootList[i], childrenMap, rank);
      written := written + [treeStr];
    }
    roots, children := rootList, childrenMap;
  }

  /** The characters written: each box's text followed by a newline, as
      fmt.Fprintln writes it. Nothing at all for no boxes. */
  function Output(written: seq<Box>, f: Formats): (r: string)
    ensures r == [] <==> written == []
  {
    if written == [] then [] else BoxText(written[0], f) + "\n" + Output(written[1..], f)
  }

  /** The roots are a reordering of exactly the input spans without a valid
      parent, each as often as it occurs in the input. */
  lemma RootsAreInvalidParentSpans(spans: seq<Span>, roots: seq<Span>, s: Span)
    requires SortedPermutation(roots, RootsOf(spans))
    ensures multiset(roots)[s] == if !IsValid(s.parent) then multiset(spans)[s] else 0
  {
    RootsOfCount(spans, s);
  }

  /** Every child list of the sorted map is a reordering of exactly the
      input spans whose parent is the key's identifier; a key is present
      only when some span names it. */
  lemma ChildListsAreChildren(spans: seq<Span>, children: map<string, seq<Span>>, p: SpanId, s: Span)
    requires IsSortedChildrenMap(spans, children) && IsValid(p)
    ensures Hex(p) in children ==>
              multiset(children[Hex(p)])[s] == if s.parent == p then multiset(spans)[s] else 0
    ensures Hex(p) !in children ==> forall t :: t in spans ==> t.parent != p
  {
    ChildrenOfCount(spans, Hex(p), s);
    HexInjective(s.parent, p);
    if Hex(p) !in children {
      forall t | t in spans ensures t.parent != p {
        ChildrenOfParent(spans, p, t);
      }
    }
  }

  /** A span whose parent is valid but is the ID of no input span is never
      reached from any root, so its box is never written. */
  lemma OrphanNeverRendered(spans: seq<Span>, rank: map<string, nat>, roots: seq<Span>,
                            children: map<string, seq<Span>>, t: Span)
    requires DepthMeasure(spans, rank)
    requires SortedPermutation(roots, RootsOf(spans)) && IsSortedChildrenMap(spans, children)
    requires IsValid(t.parent) && forall u :: u in spans ==> u.id != t.parent
    ensures Ranked(children, rank)
    ensures forall r :: r in roots ==> !Reaches(r, t, children, rank)
  {
    SortedChildrenMapRanked(spans, children, rank);
    forall r | r in roots ensures !Reaches(r, t, children, rank) {
      RootsOfCount(spans, r);
      assert multiset(roots)[r] > 0;
      if Reaches(r, t, children, rank) {
        ReachedHasReachedParent(r, children, rank, spans, t);
        var u :| Reaches(r, u, children, rank) && t.parent == u.id;
        if u != r {
          ReachedHasReachedParent(r, children, rank, spans, u);
        }
        assert false;
      }
    }
  }
}
