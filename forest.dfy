/** The forest builder of PrintSpanTree: the parent-key to children map,
    the root list, and the start-time sort applied to both. */
module Forest {
  import opened Spans

  /** The spans appended to childrenMap[key]: those whose parent is valid
      and whose parent key is `key`, in input order. */
  function ChildrenOf(spans: seq<Span>, key: string): seq<Span>
  {
    if spans == [] then []
    else
      var last := spans[|spans| - 1];
      ChildrenOf(spans[..|spans| - 1], key)
        + (if IsValid(last.parent) && Hex(last.parent) == key then [last] else [])
  }

  /** The spans appended to roots: those without a valid parent, in input
      order. */
  function RootsOf(spans: seq<Span>): seq<Span>
  {
    if spans == [] then []
    else
      var last := spans[|spans| - 1];
      RootsOf(spans[..|spans| - 1]) + (if !IsValid(last.parent) then [last] else [])
  }

  /** Non-decreasing by start time. */
  predicate SortedByStart(s: seq<Span>)
  {
    forall i, j :: 0 <= i < j < |s| ==> s[i].start <= s[j].start
  }

  /** `r` is `s` reordered by start time. */
  predicate SortedPermutation(r: seq<Span>, s: seq<Span>)
  {
    SortedByStart(r) && multiset(r) == multiset(s)
  }

  /** `m` is childrenMap right after the append loop: a key is present
      exactly when some span names it as parent, and its list is that
      key's children in input order. */
  ghost predicate IsChildrenMap(spans: seq<Span>, m: map<string, seq<Span>>)
  {
    && (forall k :: k in m <==> ChildrenOf(spans, k) != [])
    && (forall k :: k in m ==> m[k] == ChildrenOf(spans, k))
  }

  /** `m` is childrenMap after every list has been sorted. */
  ghost predicate IsSortedChildrenMap(spans: seq<Span>, m: map<string, seq<Span>>)
  {
    && (forall k :: k in m <==> ChildrenOf(spans, k) != [])
    && (forall k :: k in m ==> SortedPermutation(m[k], ChildrenOf(spans, k)))
  }

  /** A span occurs in childrenMap[key] exactly as often as in the input
      when its valid parent has that key, and not at all otherwise. */
  lemma {:induction false} ChildrenOfCount(spans: seq<Span>, key: string, s: Span)
    ensures multiset(ChildrenOf(spans, key))[s]
         == if IsValid(s.parent) && Hex(s.parent) == key then multiset(spans)[s] else 0
  {
    if spans != [] {
      var init, last := spans[..|spans| - 1], spans[|spans| - 1];
      ChildrenOfCount(init, key, s);
      assert spans == init + [last];
    }
  }

  /** A span occurs in roots exactly as often as in the input when its
      parent is invalid, and not at all otherwise. */
  lemma {:induction false} RootsOfCount(spans: seq<Span>, s: Span)
    ensures multiset(RootsOf(spans))[s] == if !IsValid(s.parent) then multiset(spans)[s] else 0
  {
    if spans != [] {
      var init, last := spans[..|spans| - 1], spans[|spans| - 1];
      RootsOfCount(init, s);
      assert spans == init + [last];
    }
  }

  /** Every input span lands in exactly one place: the roots when its parent
      is invalid, otherwise the child list of its parent's key and no other. */
  lemma EachSpanPlacedOnce(spans: seq<Span>, s: Span, key: string)
    requires s in spans
    ensures s in RootsOf(spans) <==> !IsValid(s.parent)
    ensures s in ChildrenOf(spans, key) <==> IsValid(s.parent) && Hex(s.parent) == key
  {
    RootsOfCount(spans, s);
    ChildrenOfCount(spans, key, s);
  }

  /** The list under the key of parent identifier `p` holds exactly the
      spans whose parent is `p`. */
  lemma ChildrenOfParent(spans: seq<Span>, p: SpanId, s: Span)
    requires IsValid(p)
    ensures s in ChildrenOf(spans, Hex(p)) <==> s in spans && s.parent == p
  {
    ChildrenOfCount(spans, Hex(p), s);
    HexInjective(s.parent, p);
  }

  /** The first n spans of `s` are non-decreasing by start time. */
  ghost predicate SortedPrefix(s: seq<Span>, n: int)
    requires 0 <= n <= |s|
  {
    forall k, l :: 0 <= k < l < n ==> s[k].start <= s[l].start
  }

  /** Exchanges two neighbouring elements. */
  method SwapAdjacent(a: array<Span>, j: int)
    requires 0 < j < a.Length
    modifies a
    ensures a[..] == old(a[..])[j - 1 := old(a[j])][j := old(a[j - 1])]
    ensures multiset(a[..]) == old(multiset(a[..]))
  {
    a[j - 1], a[j] := a[j], a[j - 1];
  }

  /** One insertion step: moves a[i] left until the first i + 1 elements
      are in order; the elements after i are untouched. */
  method InsertIntoPrefix(a: array<Span>, i: int)
    requires 0 <= i < a.Length
    requires SortedPrefix(a[..], i)
    modifies a
    ensures SortedPrefix(a[..], i + 1)
    ensures multiset(a[..]) == old(multiset(a[..]))
    ensures a[i + 1..] == old(a[i + 1..])
  {
    var j := i;
    while j > 0 && a[j].start < a[j - 1].start
      invariant 0 <= j <= i
      invariant forall k, l :: 0 <= k < l <= i && k != j && l != j ==> a[k].start <= a[l].start
      invariant forall l :: j < l <= i ==> a[j].start <= a[l].start
      invariant multiset(a[..]) == old(multiset(a[..]))
      invariant a[i + 1..] == old(a[i + 1..])
    {
      SwapAdjacent(a, j);
      j := j - 1;
    }
  }

  /** sort.Slice on a slice of spans, less = StartTime.Before, modelled as
      an in-place insertion sort. The source's sort is not stable, so only
      the order by start time and the multiset of spans are promised. */
  method SortByStart(a: array<Span>)
    modifies a
    ensures SortedByStart(a[..])
    ensures multiset(a[..]) == old(multiset(a[..]))
  {
    var i := 0;
    while i < a.Length
      invariant 0 <= i <= a.Length
      invariant SortedPrefix(a[..], i)
      invariant multiset(a[..]) == old(multiset(a[..]))
    {
      InsertIntoPrefix(a, i);
      i := i + 1;
    }
  }

  /** Sorts a slice's contents in place and hands back the sorted slice. */
  method SortSlice(s: seq<Span>) returns (r: seq<Span>)
    ensures SortedPermutation(r, s)
  {
    var a := new Span[|s|](i requires 0 <= i < |s| => s[i]);
    assert a[..] == s;
    SortByStart(a);
    r := a[..];
  }

  /** The append loop: childrenMap[parentID] = append(childrenMap[parentID], s)
      for every span with a valid parent. */
  method BuildChildrenMap(spans: seq<Span>) returns (m: map<string, seq<Span>>)
    ensures IsChildrenMap(spans, m)
  {
    m := map[];
    for i := 0 to |spans|
      invariant IsChildrenMap(spans[..i], m)
    {
      var s := spans[i];
      assert spans[..i + 1][..i] == spans[..i];
      if IsValid(s.parent) {
        var parentId := Hex(s.parent);
        m := m[parentId := (if parentId in m then m[parentId] else []) + [s]];
      }
    }
    assert spans[..|spans|] == spans;
  }

  /** The loop that sorts every child list by start time. */
  method SortChildLists(m: map<string, seq<Span>>) returns (r: map<string, seq<Span>>)
    ensures r.Keys == m.Keys
    ensures forall k :: k in r ==> SortedPermutation(r[k], m[k])
  {
    r := m;
    var todo := m.Keys;
    while todo != {}
      invariant todo <= m.Keys && r.Keys == m.Keys
      invariant forall k :: k in m && k !in todo ==> SortedPermutation(r[k], m[k])
      invariant forall k :: k in todo ==> r[k] == m[k]
      decreases todo
    {
      var pid :| pid in todo;
      var sorted := SortSlice(r[pid]);
      r := r[pid := sorted];
      todo := todo - {pid};
    }
  }

  /** The loop that collects the spans without a valid parent. */
  method CollectRoots(spans: seq<Span>) returns (roots: seq<Span>)
    ensures roots == RootsOf(spans)
  {
    roots := [];
    for i := 0 to |spans|
      invariant roots == RootsOf(spans[..i])
    {
      assert spans[..i + 1][..i] == spans[..i];
      if !IsValid(spans[i].parent) {
        roots := roots + [spans[i]];
      }
    }
    assert spans[..|spans|] == spans;
  }
}
