/** Pairing of the edges that start on a scanline into active edge pairs
    (insertActiveEdgePairs). Edges are arena indices; the arena itself is not changed by
    pairing, only the candidate list, the polygon's pool of unpaired edges and the list of
    new pairs. */
module EdgePairing {
  import opened HelperTools
  import opened ZBufferRecords

  datatype Option<T> = None | Some(value: T)

  /** The multiset of the edge an optional pointer holds. */
  function OptSet(o: Option<nat>): multiset<nat>
  {
    if o.Some? then multiset{o.value} else multiset{}
  }

  /** Every index in the list refers to an edge of the arena. */
  predicate AllIn(list: seq<nat>, n: nat)
  {
    forall i :: 0 <= i < |list| ==> list[i] < n
  }

  /** The list without its i-th element (vector::erase). */
  function Remove(s: seq<nat>, i: nat): (r: seq<nat>)
    requires i < |s|
    ensures |r| == |s| - 1
    ensures multiset(s) == multiset(r) + multiset{s[i]}
    ensures forall k :: 0 <= k < |r| ==> r[k] == if k < i then s[k] else s[k + 1]
  {
    assert s == s[..i] + [s[i]] + s[i+1..];
    s[..i] + s[i+1..]
  }

  /** Removing an edge from a list of edges of the arena leaves edges of the arena. */
  lemma RemoveInArena(s: seq<nat>, i: nat, n: nat)
    requires i < |s| && AllIn(s, n)
    ensures AllIn(Remove(s, i), n)
  {
  }

  // ---------------------------------------------------------------------------
  // Edges beginning at the current line
  // ---------------------------------------------------------------------------

  /** Whether an edge starts on the given row. */
  predicate StartsAt(edges: seq<ZEdge>, line: int, e: nat)
  {
    e < |edges| && edges[e].y == line
  }

  /** The polygon's edges that start on the row, in the polygon's order. */
  function EdgesAt(list: seq<nat>, edges: seq<ZEdge>, line: int): (r: seq<nat>)
    ensures AllIn(r, |edges|)
  {
    var keep := e => StartsAt(edges, line, e);
    FilterMembers(list, keep);
    var r := Filter(list, keep);
    assert forall i :: 0 <= i < |r| ==> r[i] in r;
    r
  }

  /** The edges collected for a row are exactly the listed edges that start on it. */
  lemma EdgesAtMembers(list: seq<nat>, edges: seq<ZEdge>, line: int)
    ensures forall e :: e in EdgesAt(list, edges, line) <==> e in list && StartsAt(edges, line, e)
  {
    FilterMembers(list, e => StartsAt(edges, line, e));
  }

  /** The first loop of insertActiveEdgePairs: collect the edges whose y is the row. */
  method CollectEdgesAt(list: seq<nat>, edges: seq<ZEdge>, line: int) returns (r: seq<nat>)
    requires AllIn(list, |edges|)
    ensures r == EdgesAt(list, edges, line)
    ensures forall e :: e in r <==> e in list && edges[e].y == line
    ensures multiset(r) <= multiset(list)
  {
    r := [];
    var i := 0;
    while i < |list|
      invariant 0 <= i <= |list|
      invariant r == EdgesAt(list[..i], edges, line)
    {
      assert list[..i + 1] == list[..i] + [list[i]];
      FilterAppend(list[..i], [list[i]], e => StartsAt(edges, line, e));
      if edges[list[i]].y == line {
        r := r + [list[i]];
      }
      i := i + 1;
    }
    assert list[..i] == list;
    forall e: nat
      ensures e in r <==> e in list && edges[e].y == line
    {
      FilterMembership(list, e => StartsAt(edges, line, e), e);
    }
    FilterMultiset(list, e => StartsAt(edges, line, e));
  }

  // ---------------------------------------------------------------------------
  // Sorting by decreasing x
  // ---------------------------------------------------------------------------

  /** The list is ordered by non-increasing starting x. */
  predicate DescendingX(s: seq<nat>, edges: seq<ZEdge>)
    requires AllIn(s, |edges|)
  {
    forall i, j :: 0 <= i < j < |s| ==> edges[s[i]].x >= edges[s[j]].x
  }

  /** No edge of the list starts right of v. */
  predicate AllAtMost(s: seq<nat>, v: real, edges: seq<ZEdge>)
    requires AllIn(s, |edges|)
  {
    forall k :: 0 <= k < |s| ==> edges[s[k]].x <= v
  }

  /** Insertion of one edge into a list ordered by decreasing x, before the first edge
      that does not start right of it. */
  function InsertDesc(e: nat, s: seq<nat>, edges: seq<ZEdge>): seq<nat>
    requires e < |edges| && AllIn(s, |edges|)
  {
    if s == [] then [e]
    else if edges[e].x >= edges[s[0]].x then [e] + s
    else [s[0]] + InsertDesc(e, s[1..], edges)
  }

  /** Insertion adds exactly the one edge. */
  lemma {:induction false} InsertDescAdds(e: nat, s: seq<nat>, edges: seq<ZEdge>)
    requires e < |edges| && AllIn(s, |edges|)
    ensures multiset(InsertDesc(e, s, edges)) == multiset(s) + multiset{e}
    ensures AllIn(InsertDesc(e, s, edges), |edges|)
  {
    if s != [] && edges[e].x < edges[s[0]].x {
      assert s == [s[0]] + s[1..];
      InsertDescAdds(e, s[1..], edges);
    }
  }

  /** Insertion keeps every edge at most v when the inserted one is. */
  lemma {:induction false} InsertDescBounded(e: nat, s: seq<nat>, edges: seq<ZEdge>, v: real)
    requires e < |edges| && AllIn(s, |edges|)
    requires AllAtMost(s, v, edges) && edges[e].x <= v
    ensures AllIn(InsertDesc(e, s, edges), |edges|)
    ensures AllAtMost(InsertDesc(e, s, edges), v, edges)
  {
    InsertDescAdds(e, s, edges);
    if s != [] && edges[e].x < edges[s[0]].x {
      var rest := InsertDesc(e, s[1..], edges);
      InsertDescBounded(e, s[1..], edges, v);
      assert InsertDesc(e, s, edges) == [s[0]] + rest;
    }
  }

  /** Insertion keeps a list ordered by decreasing x. */
  lemma {:induction false} InsertDescOrdered(e: nat, s: seq<nat>, edges: seq<ZEdge>)
    requires e < |edges| && AllIn(s, |edges|) && DescendingX(s, edges)
    ensures AllIn(InsertDesc(e, s, edges), |edges|)
    ensures DescendingX(InsertDesc(e, s, edges), edges)
  {
    InsertDescAdds(e, s, edges);
    if s == [] {
    } else if edges[e].x >= edges[s[0]].x {
      ConsDescending(e, s, edges);
    } else {
      var rest := InsertDesc(e, s[1..], edges);
      InsertDescOrdered(e, s[1..], edges);
      InsertDescBounded(e, s[1..], edges, edges[s[0]].x);
      ConsDescending(s[0], rest, edges);
    }
  }

  /** An edge in front of an ordered list of edges starting no further right keeps it
      ordered. */
  lemma ConsDescending(e: nat, s: seq<nat>, edges: seq<ZEdge>)
    requires e < |edges| && AllIn(s, |edges|) && DescendingX(s, edges)
    requires AllAtMost(s, edges[e].x, edges)
    ensures AllIn([e] + s, |edges|) && DescendingX([e] + s, edges)
  {
    var r := [e] + s;
    forall i, j | 0 <= i < j < |r|
      ensures edges[r[i]].x >= edges[r[j]].x
    {
      assert r[j] == s[j - 1];
      if i > 0 {
        assert r[i] == s[i - 1];
      }
    }
  }

  /** std::sort with the comparator a->x > b->x. The source's sort is not stable, so the
      order among edges starting at the same x is one of the orders it may produce. */
  function SortByXDesc(s: seq<nat>, edges: seq<ZEdge>): (r: seq<nat>)
    requires AllIn(s, |edges|)
    ensures multiset(r) == multiset(s)
    ensures AllIn(r, |edges|) && DescendingX(r, edges)
  {
    if s == [] then []
    else
      assert s == [s[0]] + s[1..];
      var rest := SortByXDesc(s[1..], edges);
      InsertDescAdds(s[0], rest, edges);
      InsertDescOrdered(s[0], rest, edges);
      InsertDesc(s[0], rest, edges)
  }

  // ---------------------------------------------------------------------------
  // Searches
  // ---------------------------------------------------------------------------

  /** Whether the edge starts within half a pixel of x. */
  predicate NearX(edges: seq<ZEdge>, e: nat, x: real)
    requires e < |edges|
  {
    Abs(edges[e].x - x) < SAME_PIXEL_LIMIT
  }

  /** The index of the first edge at or after `from` that starts within half a pixel of x,
      or -1 when there is none. */
  function FirstNear(list: seq<nat>, edges: seq<ZEdge>, x: real, from: nat): (i: int)
    requires AllIn(list, |edges|) && from <= |list|
    ensures i == -1 || from <= i < |list|
    ensures i >= 0 ==> NearX(edges, list[i], x)
    ensures forall j :: from <= j < |list| && (i < 0 || j < i) ==> !NearX(edges, list[j], x)
    decreases |list| - from
  {
    if from == |list| then -1
    else if NearX(edges, list[from], x) then from
    else FirstNear(list, edges, x, from + 1)
  }

  /** The search loop of insertActiveEdgePairs and drawEdgePair: the first edge of the list
      that starts within half a pixel of x, or -1. */
  method FindNearX(list: seq<nat>, edges: seq<ZEdge>, x: real) returns (i: int)
    requires AllIn(list, |edges|)
    ensures i == FirstNear(list, edges, x, 0)
    ensures -1 <= i < |list|
    ensures i >= 0 ==> NearX(edges, list[i], x)
  {
    i := 0;
    while i < |list|
      invariant 0 <= i <= |list|
      invariant FirstNear(list, edges, x, 0) == FirstNear(list, edges, x, i)
    {
      if Abs(edges[list[i]].x - x) < SAME_PIXEL_LIMIT {
        return;
      }
      i := i + 1;
    }
    i := -1;
  }

  /** The index of the first edge at or after `from` that starts on row y, or -1 when there
      is none. */
  function FirstOnRow(list: seq<nat>, edges: seq<ZEdge>, y: int, from: nat): (i: int)
    requires AllIn(list, |edges|) && from <= |list|
    ensures i == -1 || from <= i < |list|
    ensures i >= 0 ==> edges[list[i]].y == y
    ensures forall j :: from <= j < |list| && (i < 0 || j < i) ==> edges[list[j]].y != y
    decreases |list| - from
  {
    if from == |list| then -1
    else if edges[list[from]].y == y then from
    else FirstOnRow(list, edges, y, from + 1)
  }

  /** The first edge of the list that starts on the same row as y, or -1. The source
      compares the integer rows' distance with half a pixel, which means equality. */
  method FindSameRow(list: seq<nat>, edges: seq<ZEdge>, y: int) returns (i: int)
    requires AllIn(list, |edges|)
    ensures i == FirstOnRow(list, edges, y, 0)
    ensures -1 <= i < |list|
    ensures i >= 0 ==> edges[list[i]].y == y
    ensures forall j :: 0 <= j < |list| && (i < 0 || j < i) ==> edges[list[j]].y != y
  {
    i := 0;
    while i < |list|
      invariant 0 <= i <= |list|
      invariant FirstOnRow(list, edges, y, 0) == FirstOnRow(list, edges, y, i)
    {
      if Abs((edges[list[i]].y - y) as real) < SAME_PIXEL_LIMIT {
        return;
      }
      i := i + 1;
    }
    i := -1;
  }

  // ---------------------------------------------------------------------------
  // Pairing
  // ---------------------------------------------------------------------------

  /** The partner search of insertActiveEdgePairs for edge l, starting from x: the first
      edge of the list that starts within half a pixel of x is taken; a one-row (horizontal)
      edge among the two is discarded and the search goes on with the other one from the
      discarded edge's ending x. The result is the edge left over (none once every edge
      met was horizontal), its partner, and the rest of the list. */
  function Partner(l: nat, list: seq<nat>, x: real, edges: seq<ZEdge>)
    : (r: (Option<nat>, Option<nat>, seq<nat>))
    requires l < |edges| && AllIn(list, |edges|)
    ensures |r.2| <= |list| && AllIn(r.2, |edges|)
    ensures r.0.Some? ==> r.0.value < |edges| && edges[r.0.value].dy != 1
    ensures r.1.Some? ==> r.0.Some? && r.1.value < |edges| && edges[r.1.value].dy != 1
    decreases |list|
  {
    var i := FirstNear(list, edges, x, 0);
    if i < 0 then
      (if edges[l].dy != 1 then Some(l) else None, None, list)
    else
      var r, rest := list[i], Remove(list, i);
      RemoveInArena(list, i, |edges|);
      if edges[r].dy == 1 then Partner(l, rest, edges[r].dx, edges)
      else if edges[l].dy == 1 then Partner(r, rest, edges[l].dx, edges)
      else (Some(l), Some(r), rest)
  }

  /** The x and the list of the last search Partner makes. */
  ghost function LastSearch(l: nat, list: seq<nat>, x: real, edges: seq<ZEdge>): (r: (real, seq<nat>))
    requires l < |edges| && AllIn(list, |edges|)
    ensures AllIn(r.1, |edges|) && multiset(r.1) <= multiset(list)
    decreases |list|
  {
    var i := FirstNear(list, edges, x, 0);
    if i < 0 then (x, list)
    else
      var r, rest := list[i], Remove(list, i);
      if edges[r].dy == 1 then LastSearch(l, rest, edges[r].dx, edges)
      else if edges[l].dy == 1 then LastSearch(r, rest, edges[l].dx, edges)
      else (x, list)
  }

  /** The partner rule: the partner Partner finds is the first edge of the last searched
      list that starts within half a pixel of the x searched from, and an edge left without
      a partner has no such edge in the rest of the list. */
  lemma {:induction false} PartnerRule(l: nat, list: seq<nat>, x: real, edges: seq<ZEdge>)
    requires l < |edges| && AllIn(list, |edges|)
    ensures var r := Partner(l, list, x, edges);
            var s := LastSearch(l, list, x, edges);
            var i := FirstNear(s.1, edges, s.0, 0);
            && (r.1.Some? ==> 0 <= i && r.1.value == s.1[i] && r.2 == Remove(s.1, i))
            && (r.0.Some? && r.1.None? ==> i < 0 && r.2 == s.1)
    decreases |list|
  {
    var i := FirstNear(list, edges, x, 0);
    if i >= 0 {
      var r, rest := list[i], Remove(list, i);
      if edges[r].dy == 1 {
        PartnerRule(l, rest, edges[r].dx, edges);
      } else if edges[l].dy == 1 {
        PartnerRule(r, rest, edges[l].dx, edges);
      }
    }
  }

  /** The x the last search starts from is the x the search started from, or the ending x
      of a horizontal edge it discarded: the next partner starts where that edge ends. */
  lemma {:induction false} SearchFrom(l: nat, list: seq<nat>, x: real, edges: seq<ZEdge>)
    requires l < |edges| && AllIn(list, |edges|)
    ensures var x' := LastSearch(l, list, x, edges).0;
            x' == x || exists h :: h in multiset(list) + multiset{l} && edges[h].dy == 1 && x' == edges[h].dx
    decreases |list|
  {
    var i := FirstNear(list, edges, x, 0);
    if i >= 0 {
      var r, rest := list[i], Remove(list, i);
      assert multiset(rest) + multiset{r} == multiset(list);
      if edges[r].dy == 1 {
        SearchFrom(l, rest, edges[r].dx, edges);
        WidenSearch(LastSearch(l, rest, edges[r].dx, edges).0, edges[r].dx, multiset(rest) + multiset{l},
                    multiset(list) + multiset{l}, r, edges);
      } else if edges[l].dy == 1 {
        SearchFrom(r, rest, edges[l].dx, edges);
        WidenSearch(LastSearch(r, rest, edges[l].dx, edges).0, edges[l].dx, multiset(rest) + multiset{r},
                    multiset(list) + multiset{l}, l, edges);
      }
    }
  }

  /** A search started from the ending x of a horizontal edge g of m' starts from the ending
      x of a horizontal edge of m', and so does one that went on from an edge of a smaller m. */
  lemma WidenSearch(x': real, y: real, m: multiset<nat>, m': multiset<nat>, g: nat, edges: seq<ZEdge>)
    requires forall h :: h in m' ==> h < |edges|
    requires m <= m' && g in m' && edges[g].dy == 1 && y == edges[g].dx
    requires x' == y || exists h :: h in m && edges[h].dy == 1 && x' == edges[h].dx
    ensures exists h :: h in m' && edges[h].dy == 1 && x' == edges[h].dx
  {
    if x' != y {
      var h :| h in m && edges[h].dy == 1 && x' == edges[h].dx;
      assert h in m';
    }
  }

  /** The inner do-while loop of insertActiveEdgePairs for one popped edge: look for an edge
      starting at the same x; a one-row (horizontal) edge is discarded and the search goes
      on from its ending x. It ends with no edge left, with an edge and no partner, or with
      an edge and its partner. Every edge it is given is accounted for exactly once. */
  method FindPartner(left0: nat, list0: seq<nat>, edges: seq<ZEdge>)
    returns (left: Option<nat>, right: Option<nat>, list: seq<nat>, ghost discarded: seq<nat>)
    requires left0 < |edges| && AllIn(list0, |edges|)
    ensures multiset{left0} + multiset(list0) ==
            multiset(list) + OptSet(left) + OptSet(right) + multiset(discarded)
    ensures |list| <= |list0| && AllIn(list, |edges|)
    ensures left.Some? ==> left.value < |edges| && edges[left.value].dy != 1
    ensures right.Some? ==> left.Some? && right.value < |edges| && edges[right.value].dy != 1
    ensures forall e :: e in discarded ==> e < |edges| && edges[e].dy == 1
    ensures (left, right, list) == Partner(left0, list0, edges[left0].x, edges)
    ensures var s := LastSearch(left0, list0, edges[left0].x, edges);
            var i := FirstNear(s.1, edges, s.0, 0);
            && (right.Some? ==> 0 <= i && right.value == s.1[i] && list == Remove(s.1, i))
            && (left.Some? && right.None? ==> i < 0 && list == s.1)
  {
    left, right, list, discarded := Some(left0), None, list0, [];
    var xLeft := edges[left0].x;
    var done := false;
    while !done
      invariant !done ==> left.Some? && right.None?
      invariant AllIn(list, |edges|) && |list| <= |list0|
      invariant left.Some? ==> left.value < |edges|
      invariant done ==> (left.Some? ==> edges[left.value].dy != 1)
      invariant done ==> (right.Some? ==> left.Some? && right.value < |edges| && edges[right.value].dy != 1)
      invariant multiset{left0} + multiset(list0) ==
                multiset(list) + OptSet(left) + OptSet(right) + multiset(discarded)
      invariant forall e :: e in discarded ==> e < |edges| && edges[e].dy == 1
      invariant !done ==> Partner(left0, list0, edges[left0].x, edges) == Partner(left.value, list, xLeft, edges)
      invariant done ==> Partner(left0, list0, edges[left0].x, edges) == (left, right, list)
      decreases |list| + (if left.Some? then 1 else 0) + (if done then 0 else 1)
    {
      ghost var (list1, left1, discarded1) := (list, left, discarded);
      assert OptSet(right) == multiset{};
      ghost var thrown;
      left, right, list, xLeft, done, thrown := PartnerStep(left.value, list, xLeft, edges);
      discarded := discarded + thrown;
      Stepped(multiset{left0} + multiset(list0), multiset(list1), OptSet(left1),
              multiset(discarded1), multiset(list), OptSet(left), OptSet(right),
              multiset(thrown), multiset(discarded));
    }
    PartnerRule(left0, list0, edges[left0].x, edges);
  }

  /** One pass of the do-while: search the list for an edge starting near x, then skip a
      one-row edge. The loop stops when no partner is found for a sloped edge, when a pair
      is complete or when no edge is left. */
  method PartnerStep(l: nat, list0: seq<nat>, x0: real, edges: seq<ZEdge>)
    returns (left: Option<nat>, right: Option<nat>, list: seq<nat>, x: real, done: bool,
             ghost thrown: seq<nat>)
    requires l < |edges| && AllIn(list0, |edges|)
    ensures multiset{l} + multiset(list0) ==
            multiset(list) + OptSet(left) + OptSet(right) + multiset(thrown)
    ensures AllIn(list, |edges|) && |list| <= |list0|
    ensures |list| + (if left.Some? then 1 else 0) + (if done then 0 else 1) < |list0| + 2
    ensures !done ==> left.Some? && right.None?
    ensures left.Some? ==> left.value < |edges|
    ensures done ==> (left.Some? ==> edges[left.value].dy != 1)
    ensures done ==> (right.Some? ==> left.Some? && right.value < |edges| && edges[right.value].dy != 1)
    ensures forall e :: e in thrown ==> e < |edges| && edges[e].dy == 1
    ensures done ==> (left, right, list) == Partner(l, list0, x0, edges)
    ensures !done ==> Partner(l, list0, x0, edges) == Partner(left.value, list, x, edges)
  {
    left, right, list, x, done, thrown := Some(l), None, list0, x0, false, [];
    var i := FindNearX(list, edges, x);
    if i >= 0 {
      right := Some(list[i]);
      list := Remove(list, i);
    }
    assert multiset{l} + multiset(list0) == multiset(list) + OptSet(left) + OptSet(right) + multiset{};
    if edges[l].dy != 1 && right.None? {
      done := true;
    } else {
      ghost var right1 := right;
      left, right, x, thrown := SkipHorizontal(l, right, x, edges);
      assert multiset{l} + OptSet(right1) == OptSet(left) + OptSet(right) + multiset(thrown);
      Skipped(multiset{l} + multiset(list0), multiset(list), OptSet(Some(l)), OptSet(right1),
              multiset{}, OptSet(left), OptSet(right), multiset(thrown), multiset(thrown));
      done := right.Some? || left.None?;
    }
  }

  /** Multiset bookkeeping of FindPartner: one step replaces the left pointer and the list
      by what PartnerStep returns. */
  lemma Stepped(total: multiset<nat>, list1: multiset<nat>, left1: multiset<nat>,
                discarded1: multiset<nat>, list: multiset<nat>, left: multiset<nat>,
                right: multiset<nat>, thrown: multiset<nat>, discarded: multiset<nat>)
    requires total == list1 + left1 + multiset{} + discarded1
    requires left1 + list1 == list + left + right + thrown
    requires discarded == discarded1 + thrown
    ensures total == list + left + right + discarded
  {
    forall x
      ensures total[x] == (list + left + right + discarded)[x]
    {
      assert total[x] == (list1 + left1 + multiset{} + discarded1)[x];
      assert (left1 + list1)[x] == (list + left + right + thrown)[x];
    }
  }

  /** Multiset bookkeeping of FindPartner: SkipHorizontal moves edges from the pointers to
      the discarded ones. */
  lemma Skipped(total: multiset<nat>, list: multiset<nat>, left1: multiset<nat>,
                right1: multiset<nat>, discarded1: multiset<nat>, left: multiset<nat>,
                right: multiset<nat>, thrown: multiset<nat>, discarded: multiset<nat>)
    requires total == list + left1 + right1 + discarded1
    requires left1 + right1 == left + right + thrown
    requires discarded == discarded1 + thrown
    ensures total == list + left + right + discarded
  {
    forall x
      ensures total[x] == (list + left + right + discarded)[x]
    {
      assert total[x] == (list + left1 + right1 + discarded1)[x];
      assert (left1 + right1)[x] == (left + right + thrown)[x];
    }
  }

  /** The body of the do-while after the search: a one-row edge among the two is taken
      first (SWAP), and a one-row left edge is discarded, its ending x becoming the x to
      search from. */
  method SkipHorizontal(l: nat, r: Option<nat>, x0: real, edges: seq<ZEdge>)
    returns (left: Option<nat>, right: Option<nat>, x: real, ghost thrown: seq<nat>)
    requires l < |edges| && (r.Some? ==> r.value < |edges|)
    requires edges[l].dy == 1 || r.Some?
    ensures multiset{l} + OptSet(r) == OptSet(left) + OptSet(right) + multiset(thrown)
    ensures left.Some? ==> left.value < |edges|
    ensures right.Some? ==> left == Some(l) && right == r && thrown == []
    ensures right.Some? ==> edges[l].dy != 1 && edges[r.value].dy != 1
    ensures right.None? ==> |thrown| == 1 && (r.None? ==> left.None?)
    ensures forall e :: e in thrown ==> e < |edges| && edges[e].dy == 1
    ensures r.Some? && edges[r.value].dy == 1 ==> left == Some(l) && right.None? && x == edges[r.value].dx
    ensures r.Some? && edges[r.value].dy != 1 && edges[l].dy == 1 ==>
              left == r && right.None? && x == edges[l].dx
    ensures r.Some? && edges[r.value].dy != 1 && edges[l].dy != 1 ==> left == Some(l) && right == r && x == x0
    ensures r.None? ==> left.None? && right.None? && x == edges[l].dx
  {
    left, right, x, thrown := Some(l), r, x0, [];
    if right.Some? && edges[right.value].dy == 1 {
      left, right := right, left;
    }
    if edges[left.value].dy == 1 {
      x := edges[left.value].dx;
      thrown := [left.value];
      left := right;
      right := None;
    }
  }

  /** The edges the pairs refer to, left then right, pair by pair. */
  function PairedEdges(pairs: seq<ActiveEdgePair>): seq<nat>
  {
    if pairs == [] then []
    else PairedEdges(pairs[..|pairs| - 1]) + [pairs[|pairs| - 1].leftEdge, pairs[|pairs| - 1].rightEdge]
  }

  /** Where an edge handled by pairing may come from: the polygon's pool as it was, or the
      row's candidates, in which case it is not a one-row edge. */
  predicate FromPoolOrSloped(e: nat, pool0: seq<nat>, candidates: seq<nat>, edges: seq<ZEdge>)
  {
    e < |edges| && (e in pool0 || (e in candidates && edges[e].dy != 1))
  }

  /** A pair as insertActiveEdgePairs makes it. */
  ghost predicate PairMadeBy(p: ActiveEdgePair, pool0: seq<nat>, candidates: seq<nat>,
                             edges: seq<ZEdge>, plane: Vec4, polygon: nat, zeroLimit: real)
    requires zeroLimit > 0.0
  {
    && FromPoolOrSloped(p.leftEdge, pool0, candidates, edges)
    && FromPoolOrSloped(p.rightEdge, pool0, candidates, edges)
    && PairOrdered(edges[p.leftEdge], edges[p.rightEdge], zeroLimit)
    && p == GenerateEdgePair(p.leftEdge, p.rightEdge, edges, plane, polygon, zeroLimit)
  }

  /** The edges a newly made pair holds, if any. */
  function PairSet(o: Option<ActiveEdgePair>): multiset<nat>
  {
    if o.Some? then multiset{o.value.leftEdge, o.value.rightEdge} else multiset{}
  }

  /** The fallback of insertActiveEdgePairs for an edge without a partner: take the first
      pooled edge that starts on the same row out of the pool. */
  method TakeSameRow(pool0: seq<nat>, edges: seq<ZEdge>, y: int)
    returns (right: Option<nat>, pool: seq<nat>)
    requires AllIn(pool0, |edges|)
    ensures multiset(pool0) == OptSet(right) + multiset(pool)
    ensures AllIn(pool, |edges|) && forall e :: e in pool ==> e in pool0
    ensures right.Some? ==> right.value in pool0 && edges[right.value].y == y
    ensures right.None? ==> pool == pool0 && forall e :: e in pool0 ==> edges[e].y != y
    ensures var i := FirstOnRow(pool0, edges, y, 0);
            if i < 0 then right.None? && pool == pool0
            else right == Some(pool0[i]) && pool == Remove(pool0, i)
  {
    var i := FindSameRow(pool0, edges, y);
    if i < 0 {
      return None, pool0;
    }
    right := Some(pool0[i]);
    pool := Remove(pool0, i);
    forall e | e in pool
      ensures e in pool0
    {
      assert e in multiset(pool);
    }
  }

  /** The pair insertActiveEdgePairs inserts for two partner edges: swapped when the left
      one starts right of the other, or at the same x but steeper to the right. */
  function OrderedPair(l: nat, r: nat, edges: seq<ZEdge>, plane: Vec4, polygon: nat,
                       zeroLimit: real): (p: ActiveEdgePair)
    requires zeroLimit > 0.0 && l < |edges| && r < |edges|
    ensures (p.leftEdge, p.rightEdge) == (l, r) || (p.leftEdge, p.rightEdge) == (r, l)
    ensures PairOrdered(edges[p.leftEdge], edges[p.rightEdge], zeroLimit)
    ensures p == GenerateEdgePair(p.leftEdge, p.rightEdge, edges, plane, polygon, zeroLimit)
  {
    SwapOrders(edges[l], edges[r], zeroLimit);
    var (a, b) := if NeedsSwap(edges[l], edges[r], zeroLimit) then Swap((l, r)) else (l, r);
    GenerateEdgePair(a, b, edges, plane, polygon, zeroLimit)
  }

  /** How insertActiveEdgePairs settles edge l after the search: with a partner right the
      ordered pair is made and the pool is unchanged; without one, the first pooled edge
      starting on l's row becomes the partner and leaves the pool, and when there is none l
      joins the pool. */
  function Settle(l: nat, right: Option<nat>, pool: seq<nat>, edges: seq<ZEdge>, plane: Vec4,
                  polygon: nat, zeroLimit: real): (r: (Option<ActiveEdgePair>, seq<nat>))
    requires zeroLimit > 0.0 && l < |edges| && (right.Some? ==> right.value < |edges|)
    requires AllIn(pool, |edges|)
    ensures AllIn(r.1, |edges|)
    ensures right.Some? ==> r.0.Some? && r.1 == pool
    ensures right.None? ==> (r.0.Some? <==> exists e :: e in pool && edges[e].y == edges[l].y)
    ensures r.0.None? ==> r.1 == pool + [l]
  {
    if right.Some? then
      (Some(OrderedPair(l, right.value, edges, plane, polygon, zeroLimit)), pool)
    else
      var i := FirstOnRow(pool, edges, edges[l].y, 0);
      if i < 0 then (None, pool + [l])
      else (Some(OrderedPair(l, pool[i], edges, plane, polygon, zeroLimit)), Remove(pool, i))
  }

  /** The end of a round for an edge l that found no partner among the candidates, or the
      partner right: fall back to the pool for an edge on the same row, and either make the
      ordered pair or keep l in the pool. */
  method SettleEdge(l: nat, right0: Option<nat>, pool0: seq<nat>, edges: seq<ZEdge>, plane: Vec4,
                    polygon: nat, zeroLimit: real, ghost origPool: seq<nat>, ghost sorted: seq<nat>)
    returns (pair: Option<ActiveEdgePair>, pool: seq<nat>)
    requires zeroLimit > 0.0
    requires FromPoolOrSloped(l, origPool, sorted, edges)
    requires right0.Some? ==> FromPoolOrSloped(right0.value, origPool, sorted, edges)
    requires AllIn(pool0, |edges|)
    requires forall e :: e in pool0 ==> FromPoolOrSloped(e, origPool, sorted, edges)
    ensures multiset{l} + OptSet(right0) + multiset(pool0) == PairSet(pair) + multiset(pool)
    ensures AllIn(pool, |edges|)
    ensures forall e :: e in pool ==> FromPoolOrSloped(e, origPool, sorted, edges)
    ensures pair.Some? ==> PairMadeBy(pair.value, origPool, sorted, edges, plane, polygon, zeroLimit)
    ensures (pair, pool) == Settle(l, right0, pool0, edges, plane, polygon, zeroLimit)
    ensures right0.Some? ==> pair.Some? && pool == pool0
    ensures right0.None? ==> (pair.Some? <==> exists e :: e in pool0 && edges[e].y == edges[l].y)
  {
    if right0.None? {
      pair, pool := SettleFromPool(l, pool0, edges, plane, polygon, zeroLimit, origPool, sorted);
    } else {
      OrderedPairMadeBy(l, right0.value, edges, plane, polygon, zeroLimit, origPool, sorted);
      pair, pool := Some(OrderedPair(l, right0.value, edges, plane, polygon, zeroLimit)), pool0;
    }
  }

  /** SettleEdge for an edge l without a partner among the candidates. */
  method SettleFromPool(l: nat, pool0: seq<nat>, edges: seq<ZEdge>, plane: Vec4, polygon: nat,
                        zeroLimit: real, ghost origPool: seq<nat>, ghost sorted: seq<nat>)
    returns (pair: Option<ActiveEdgePair>, pool: seq<nat>)
    requires zeroLimit > 0.0
    requires FromPoolOrSloped(l, origPool, sorted, edges)
    requires AllIn(pool0, |edges|)
    requires forall e :: e in pool0 ==> FromPoolOrSloped(e, origPool, sorted, edges)
    ensures multiset{l} + OptSet(None) + multiset(pool0) == PairSet(pair) + multiset(pool)
    ensures AllIn(pool, |edges|)
    ensures forall e :: e in pool ==> FromPoolOrSloped(e, origPool, sorted, edges)
    ensures pair.Some? ==> PairMadeBy(pair.value, origPool, sorted, edges, plane, polygon, zeroLimit)
    ensures (pair, pool) == Settle(l, None, pool0, edges, plane, polygon, zeroLimit)
  {
    var right;
    right, pool := TakeSameRow(pool0, edges, edges[l].y);
    if right.None? {
      pool := pool0 + [l];
      PoolGains(l, pool0, edges, origPool, sorted);
      return None, pool;
    }
    var r := right.value;
    assert FromPoolOrSloped(r, origPool, sorted, edges);
    PooledPartner(l, r, pool0, pool, edges, plane, polygon, zeroLimit, origPool, sorted);
    pair := Some(OrderedPair(l, r, edges, plane, polygon, zeroLimit));
  }

  /** An edge left without a partner joins the pool. */
  lemma PoolGains(l: nat, pool0: seq<nat>, edges: seq<ZEdge>, origPool: seq<nat>, sorted: seq<nat>)
    requires FromPoolOrSloped(l, origPool, sorted, edges)
    requires AllIn(pool0, |edges|)
    requires forall e :: e in pool0 ==> FromPoolOrSloped(e, origPool, sorted, edges)
    ensures multiset{l} + OptSet(None) + multiset(pool0) == multiset(pool0 + [l])
    ensures AllIn(pool0 + [l], |edges|)
    ensures forall e :: e in pool0 + [l] ==> FromPoolOrSloped(e, origPool, sorted, edges)
  {
    assert forall e :: e in pool0 + [l] ==> e in pool0 || e == l;
  }

  /** The pair SettleEdge makes with a partner r taken out of the pool. */
  lemma PooledPartner(l: nat, r: nat, pool0: seq<nat>, pool: seq<nat>, edges: seq<ZEdge>,
                      plane: Vec4, polygon: nat, zeroLimit: real, origPool: seq<nat>,
                      sorted: seq<nat>)
    requires zeroLimit > 0.0
    requires FromPoolOrSloped(l, origPool, sorted, edges)
    requires forall e :: e in pool0 ==> FromPoolOrSloped(e, origPool, sorted, edges)
    requires FromPoolOrSloped(r, origPool, sorted, edges)
    requires forall e :: e in pool ==> e in pool0
    requires multiset(pool0) == multiset{r} + multiset(pool)
    ensures var p := OrderedPair(l, r, edges, plane, polygon, zeroLimit);
            && multiset{l} + OptSet(None) + multiset(pool0) == PairSet(Some(p)) + multiset(pool)
            && PairMadeBy(p, origPool, sorted, edges, plane, polygon, zeroLimit)
    ensures forall e :: e in pool ==> FromPoolOrSloped(e, origPool, sorted, edges)
  {
    OrderedPairMadeBy(l, r, edges, plane, polygon, zeroLimit, origPool, sorted);
    assert OptSet(None) == multiset{};
  }

  /** A pair made from two edges of the pool or the candidates is one insertActiveEdgePairs
      may make, and holds the same two edges. */
  lemma OrderedPairMadeBy(l: nat, r: nat, edges: seq<ZEdge>, plane: Vec4, polygon: nat,
                          zeroLimit: real, origPool: seq<nat>, sorted: seq<nat>)
    requires zeroLimit > 0.0
    requires FromPoolOrSloped(l, origPool, sorted, edges)
    requires FromPoolOrSloped(r, origPool, sorted, edges)
    ensures PairMadeBy(OrderedPair(l, r, edges, plane, polygon, zeroLimit), origPool, sorted,
                       edges, plane, polygon, zeroLimit)
    ensures PairSet(Some(OrderedPair(l, r, edges, plane, polygon, zeroLimit))) == multiset{l, r}
  {
    var p := OrderedPair(l, r, edges, plane, polygon, zeroLimit);
    if (p.leftEdge, p.rightEdge) == (l, r) {
      assert p.leftEdge == l && p.rightEdge == r;
    } else {
      assert p.leftEdge == r && p.rightEdge == l;
    }
  }

  /** One round of the pairing loop for the popped candidate: the partner search from its
      x, then settling the edge left over. Returns the pair made, if any, the rest of the
      candidates and the new pool. */
  function Round(popped: nat, list: seq<nat>, pool: seq<nat>, edges: seq<ZEdge>, plane: Vec4,
                 polygon: nat, zeroLimit: real): (r: (Option<ActiveEdgePair>, seq<nat>, seq<nat>))
    requires zeroLimit > 0.0 && popped < |edges| && AllIn(list, |edges|) && AllIn(pool, |edges|)
    ensures |r.1| <= |list| && AllIn(r.1, |edges|) && AllIn(r.2, |edges|)
  {
    var found := Partner(popped, list, edges[popped].x, edges);
    if found.0.None? then (None, found.2, pool)
    else
      var settled := Settle(found.0.value, found.1, pool, edges, plane, polygon, zeroLimit);
      (settled.0, found.2, settled.1)
  }

  /** The pairs an optional pair contributes. */
  function OptPairs(o: Option<ActiveEdgePair>): seq<ActiveEdgePair>
  {
    if o.Some? then [o.value] else []
  }

  /** The pairing loop of insertActiveEdgePairs: rounds for the last candidate of the list
      until the list is empty. Returns the new pairs in order and the final pool. */
  function Pairing(list: seq<nat>, pool: seq<nat>, edges: seq<ZEdge>, plane: Vec4, polygon: nat,
                   zeroLimit: real): (r: (seq<ActiveEdgePair>, seq<nat>))
    requires zeroLimit > 0.0 && AllIn(list, |edges|) && AllIn(pool, |edges|)
    ensures AllIn(r.1, |edges|)
    decreases |list|
  {
    if list == [] then ([], pool)
    else
      var round := Round(list[|list| - 1], list[..|list| - 1], pool, edges, plane, polygon, zeroLimit);
      var rest := Pairing(round.1, round.2, edges, plane, polygon, zeroLimit);
      (OptPairs(round.0) + rest.0, rest.1)
  }

  /** One round of the pairing loop for the popped (leftmost) candidate: find its partner
      among the candidates, then settle it. */
  method PairRound(popped: nat, list0: seq<nat>, pool0: seq<nat>, edges: seq<ZEdge>, plane: Vec4,
                   polygon: nat, zeroLimit: real, ghost origPool: seq<nat>, ghost sorted: seq<nat>)
    returns (pair: Option<ActiveEdgePair>, list: seq<nat>, pool: seq<nat>, ghost thrown: seq<nat>)
    requires zeroLimit > 0.0
    requires popped < |edges| && AllIn(list0, |edges|) && AllIn(pool0, |edges|)
    requires multiset(list0) + multiset{popped} <= multiset(sorted)
    requires forall e :: e in pool0 ==> FromPoolOrSloped(e, origPool, sorted, edges)
    ensures multiset{popped} + multiset(list0) + multiset(pool0) ==
            multiset(list) + PairSet(pair) + multiset(pool) + multiset(thrown)
    ensures multiset(list) <= multiset(sorted) && |list| <= |list0|
    ensures AllIn(list, |edges|) && AllIn(pool, |edges|)
    ensures forall e :: e in thrown ==> e < |edges| && edges[e].dy == 1 && e in sorted
    ensures forall e :: e in pool ==> FromPoolOrSloped(e, origPool, sorted, edges)
    ensures pair.Some? ==> PairMadeBy(pair.value, origPool, sorted, edges, plane, polygon, zeroLimit)
    ensures (pair, list, pool) == Round(popped, list0, pool0, edges, plane, polygon, zeroLimit)
  {
    var left, right;
    left, right, list, thrown := FindPartner(popped, list0, edges);
    InSortedFromMultiset(popped, list0, list, left, right, thrown, sorted);
    if left.None? {
      pair, pool := None, pool0;
      assert OptSet(left) + OptSet(right) + multiset(pool0) == PairSet(pair) + multiset(pool);
    } else {
      pair, pool := SettleEdge(left.value, right, pool0, edges, plane, polygon, zeroLimit,
                               origPool, sorted);
      assert OptSet(left) == multiset{left.value};
    }
    Regroup(multiset{popped} + multiset(list0), multiset(list), OptSet(left), OptSet(right),
            multiset(thrown), multiset(pool0), PairSet(pair), multiset(pool));
  }

  /** Multiset bookkeeping of PairRound: the edges FindPartner hands over are settled. */
  lemma Regroup(a: multiset<nat>, list: multiset<nat>, left: multiset<nat>, right: multiset<nat>,
                thrown: multiset<nat>, pool0: multiset<nat>, pair: multiset<nat>, pool: multiset<nat>)
    requires a == list + left + right + thrown
    requires left + right + pool0 == pair + pool
    ensures a + pool0 == list + pair + pool + thrown
  {
    forall x
      ensures (a + pool0)[x] == (list + pair + pool + thrown)[x]
    {
      assert a[x] == (list + left + right + thrown)[x];
      assert (left + right + pool0)[x] == (pair + pool)[x];
    }
  }

  /** Multiset bookkeeping of PairEdges: one round keeps the conservation law. */
  lemma RoundConserves(all: multiset<nat>, list1: multiset<nat>, paired1: multiset<nat>,
                       pool1: multiset<nat>, discarded1: multiset<nat>, list: multiset<nat>,
                       pair: multiset<nat>, pool: multiset<nat>, thrown: multiset<nat>,
                       paired: multiset<nat>, discarded: multiset<nat>)
    requires all == list1 + paired1 + pool1 + discarded1
    requires list1 + pool1 == list + pair + pool + thrown
    requires paired == paired1 + pair && discarded == discarded1 + thrown
    ensures all == list + paired + pool + discarded
  {
    forall x
      ensures all[x] == (list + paired + pool + discarded)[x]
    {
      assert all[x] == (list1 + paired1 + pool1 + discarded1)[x];
      assert (list1 + pool1)[x] == (list + pair + pool + thrown)[x];
    }
  }

  /** The pairing loop of insertActiveEdgePairs over the row's candidates sorted by
      decreasing x, one PairRound per popped edge. Each candidate and each pooled edge ends
      up exactly once in a new pair, in the pool or among the discarded one-row edges. */
  method PairEdges(sorted: seq<nat>, pool0: seq<nat>, edges: seq<ZEdge>, plane: Vec4,
                   polygon: nat, zeroLimit: real)
    returns (pairs: seq<ActiveEdgePair>, pool: seq<nat>, ghost discarded: seq<nat>)
    requires zeroLimit > 0.0
    requires AllIn(sorted, |edges|) && AllIn(pool0, |edges|)
    ensures multiset(sorted) + multiset(pool0) ==
            multiset(PairedEdges(pairs)) + multiset(pool) + multiset(discarded)
    ensures AllIn(pool, |edges|)
    ensures forall e :: e in discarded ==> e in sorted && edges[e].dy == 1
    ensures forall e :: e in pool ==> FromPoolOrSloped(e, pool0, sorted, edges)
    ensures forall p :: p in pairs ==> PairMadeBy(p, pool0, sorted, edges, plane, polygon, zeroLimit)
    ensures (pairs, pool) == Pairing(sorted, pool0, edges, plane, polygon, zeroLimit)
  {
    pairs, pool, discarded := [], pool0, [];
    var list := sorted;
    assert [] + Pairing(list, pool, edges, plane, polygon, zeroLimit).0 ==
           Pairing(list, pool, edges, plane, polygon, zeroLimit).0;
    while list != []
      invariant multiset(list) <= multiset(sorted)
      invariant AllIn(list, |edges|) && AllIn(pool, |edges|)
      invariant multiset(sorted) + multiset(pool0) ==
                multiset(list) + multiset(PairedEdges(pairs)) + multiset(pool) + multiset(discarded)
      invariant forall e :: e in discarded ==> e in sorted && edges[e].dy == 1
      invariant forall e :: e in pool ==> FromPoolOrSloped(e, pool0, sorted, edges)
      invariant forall p :: p in pairs ==> PairMadeBy(p, pool0, sorted, edges, plane, polygon, zeroLimit)
      invariant var rest := Pairing(list, pool, edges, plane, polygon, zeroLimit);
                Pairing(sorted, pool0, edges, plane, polygon, zeroLimit) == (pairs + rest.0, rest.1)
      decreases |list|
    {
      var popped := list[|list| - 1];
      var front := list[..|list| - 1];
      PopLast(list);
      ghost var (list1, pool1, pairs1, discarded1) := (list, pool, pairs, discarded);
      var pair;
      ghost var thrown;
      pair, list, pool, thrown := PairRound(popped, front, pool, edges, plane,
                                            polygon, zeroLimit, pool0, sorted);
      discarded := discarded + thrown;
      PairedEdgesAppend(pairs, pair);
      PairingAccumulates(list1, pool1, pairs1, pair, list, pool, edges, plane, polygon, zeroLimit);
      pairs := pairs + OptPairs(pair);
      RoundConserves(multiset(sorted) + multiset(pool0), multiset(list1),
                     multiset(PairedEdges(pairs1)), multiset(pool1), multiset(discarded1),
                     multiset(list), PairSet(pair), multiset(pool), multiset(thrown),
                     multiset(PairedEdges(pairs)), multiset(discarded));
    }
    assert pairs + Pairing(list, pool, edges, plane, polygon, zeroLimit).0 == pairs;
  }

  /** Popping the last candidate off a list. */
  lemma PopLast(list: seq<nat>)
    requires list != []
    ensures multiset(list) == multiset{list[|list| - 1]} + multiset(list[..|list| - 1])
    ensures |list[..|list| - 1]| < |list|
  {
    assert list == list[..|list| - 1] + [list[|list| - 1]];
  }

  /** Appending the pair of a round adds its two edges to the paired ones. */
  lemma PairedEdgesAppend(pairs: seq<ActiveEdgePair>, pair: Option<ActiveEdgePair>)
    ensures multiset(PairedEdges(pairs + OptPairs(pair))) == multiset(PairedEdges(pairs)) + PairSet(pair)
    ensures pair.Some? ==> pair.value in pairs + OptPairs(pair)
    ensures forall p :: p in pairs + OptPairs(pair) ==> p in pairs || pair == Some(p)
  {
    if pair.Some? {
      var p := pair.value;
      assert (pairs + [p])[..|pairs|] == pairs;
      assert PairedEdges(pairs + [p]) == PairedEdges(pairs) + [p.leftEdge, p.rightEdge];
    } else {
      assert pairs + OptPairs(pair) == pairs;
    }
  }

  /** Pairing a non-empty list is one round for its last candidate followed by the pairing
      of what the round leaves: the pairs made so far followed by the pairing of the rest
      stay the same over a round. */
  lemma PairingAccumulates(list1: seq<nat>, pool1: seq<nat>, pairs1: seq<ActiveEdgePair>,
                           pair: Option<ActiveEdgePair>, list: seq<nat>, pool: seq<nat>,
                           edges: seq<ZEdge>, plane: Vec4, polygon: nat, zeroLimit: real)
    requires zeroLimit > 0.0 && AllIn(list1, |edges|) && AllIn(pool1, |edges|) && list1 != []
    requires (pair, list, pool) ==
             Round(list1[|list1| - 1], list1[..|list1| - 1], pool1, edges, plane, polygon, zeroLimit)
    ensures AllIn(list, |edges|) && AllIn(pool, |edges|)
    ensures var rest1 := Pairing(list1, pool1, edges, plane, polygon, zeroLimit);
            var rest := Pairing(list, pool, edges, plane, polygon, zeroLimit);
            (pairs1 + rest1.0, rest1.1) == ((pairs1 + OptPairs(pair)) + rest.0, rest.1)
  {
    PairingUnfolds(list1, pool1, edges, plane, polygon, zeroLimit);
    PrefixShift(pairs1, OptPairs(pair), Pairing(list1, pool1, edges, plane, polygon, zeroLimit),
                Pairing(list, pool, edges, plane, polygon, zeroLimit));
  }

  /** Moving a prefix of the rest onto the pairs made so far keeps the whole. */
  lemma PrefixShift<T, U>(made: seq<T>, a: seq<T>, r1: (seq<T>, U), r: (seq<T>, U))
    requires r1 == (a + r.0, r.1)
    ensures (made + r1.0, r1.1) == ((made + a) + r.0, r.1)
  {
    assert made + (a + r.0) == (made + a) + r.0;
  }

  lemma PairingUnfolds(list: seq<nat>, pool: seq<nat>, edges: seq<ZEdge>, plane: Vec4, polygon: nat,
                       zeroLimit: real)
    requires zeroLimit > 0.0 && AllIn(list, |edges|) && AllIn(pool, |edges|) && list != []
    ensures var round := Round(list[|list| - 1], list[..|list| - 1], pool, edges, plane, polygon, zeroLimit);
            var rest := Pairing(round.1, round.2, edges, plane, polygon, zeroLimit);
            Pairing(list, pool, edges, plane, polygon, zeroLimit) == (OptPairs(round.0) + rest.0, rest.1)
  {
  }

  /** insertActiveEdgePairs for one polygon on values: the polygon's edges starting at the
      row, sorted by decreasing x, are paired against its pool. Returns the new pairs in
      order and the polygon's new pool. */
  function PolygonPairing(poly: ZPolygon, edges: seq<ZEdge>, line: int, q: nat, zeroLimit: real)
    : (r: (seq<ActiveEdgePair>, seq<nat>))
    requires zeroLimit > 0.0 && AllIn(poly.unpairedEdges, |edges|)
    ensures AllIn(r.1, |edges|)
  {
    Pairing(SortByXDesc(EdgesAt(poly.edges, edges, line), edges), poly.unpairedEdges, edges,
            poly.depthPlane, q, zeroLimit)
  }

  /** Bookkeeping for one round of PairEdges: what FindPartner returns came from the round's
      edges, which all came from the sorted candidates. */
  lemma InSortedFromMultiset(popped: nat, before: seq<nat>, rest: seq<nat>, left: Option<nat>,
                             right: Option<nat>, thrown: seq<nat>, sorted: seq<nat>)
    requires multiset(before) + multiset{popped} <= multiset(sorted)
    requires multiset{popped} + multiset(before) ==
             multiset(rest) + OptSet(left) + OptSet(right) + multiset(thrown)
    ensures multiset(rest) <= multiset(sorted)
    ensures left.Some? ==> left.value in sorted
    ensures right.Some? ==> right.value in sorted
    ensures forall e :: e in thrown ==> e in sorted
  {
    var m := multiset{popped} + multiset(before);
    assert multiset(rest) <= m && OptSet(left) <= m && OptSet(right) <= m && multiset(thrown) <= m;
    if left.Some? {
      assert left.value in OptSet(left);
      assert left.value in multiset(sorted);
    }
    if right.Some? {
      assert right.value in OptSet(right);
      assert right.value in multiset(sorted);
    }
    forall e | e in thrown
      ensures e in sorted
    {
      assert e in multiset(thrown);
      assert e in multiset(sorted);
    }
  }
}
