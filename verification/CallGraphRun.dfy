/** The run of call-chain clustering: the loop over sections by density, and the final order. */
module CallGraphRun {
  import opened Collections
  import opened Words
  import opened Options
  import opened CallGraph

  // ------------------------------------------------------------------ the stable sorts

  /** Stands for the library's stable sort by decreasing density. */
  function SortByDensity(dens: Density, cs: seq<Cluster>, s: seq<nat>): (r: seq<nat>)
    requires Within(s, |cs|)
    ensures Within(r, |cs|) && multiset(r) == multiset(s)
  {
    if s == [] then []
    else
      assert s == [s[0]] + s[1..];
      Insert(dens, cs, s[0], SortByDensity(dens, cs, s[1..]))
  }

  function Insert(dens: Density, cs: seq<Cluster>, x: nat, s: seq<nat>): (r: seq<nat>)
    requires Within(s, |cs|) && x < |cs|
    ensures Within(r, |cs|) && multiset(r) == multiset(s) + multiset{x}
  {
    if s == [] || GetDensity(dens, cs[x]) >= GetDensity(dens, cs[s[0]]) then [x] + s
    else
      assert s == [s[0]] + s[1..];
      [s[0]] + Insert(dens, cs, x, s[1..])
  }

  ghost predicate Descending(dens: Density, cs: seq<Cluster>, s: seq<nat>)
    requires Within(s, |cs|)
  {
    forall i, j :: 0 <= i < j < |s| ==> GetDensity(dens, cs[s[i]]) >= GetDensity(dens, cs[s[j]])
  }

  lemma {:induction false} InsertDescends(dens: Density, cs: seq<Cluster>, x: nat, s: seq<nat>)
    requires Within(s, |cs|) && x < |cs| && Descending(dens, cs, s)
    ensures Descending(dens, cs, Insert(dens, cs, x, s))
  {
    if s != [] && GetDensity(dens, cs[x]) < GetDensity(dens, cs[s[0]]) {
      InsertDescends(dens, cs, x, s[1..]);
      var rest := Insert(dens, cs, x, s[1..]);
      forall j | 0 <= j < |rest| ensures GetDensity(dens, cs[s[0]]) >= GetDensity(dens, cs[rest[j]]) {
        assert rest[j] in multiset(rest);
        assert rest[j] == x || rest[j] in s[1..];
      }
    }
  }

  lemma {:induction false} SortDescends(dens: Density, cs: seq<Cluster>, s: seq<nat>)
    requires Within(s, |cs|)
    ensures Descending(dens, cs, SortByDensity(dens, cs, s))
  {
    if s != [] {
      SortDescends(dens, cs, s[1..]);
      InsertDescends(dens, cs, s[0], SortByDensity(dens, cs, s[1..]));
    }
  }

  /** The clusters of one density. */
  function OfDensity(dens: Density, cs: seq<Cluster>, s: seq<nat>, d: real): seq<nat>
    requires Within(s, |cs|)
  {
    if s == [] then []
    else (if (if cs[s[0]].size == 0 then 0.0 else dens(cs[s[0]].weight, cs[s[0]].size)) == d then [s[0]] else [])
         + OfDensity(dens, cs, s[1..], d)
  }

  /** The sort is by weight for size, a cluster of size zero counting zero, and clusters of equal
      density stay in order. */
  lemma {:induction false} SortStable(dens: Density, cs: seq<Cluster>, s: seq<nat>, d: real)
    requires Within(s, |cs|)
    ensures OfDensity(dens, cs, SortByDensity(dens, cs, s), d) == OfDensity(dens, cs, s, d)
    ensures var r := SortByDensity(dens, cs, s);
      forall i, j :: 0 <= i < j < |r| ==>
        (if cs[r[i]].size == 0 then 0.0 else dens(cs[r[i]].weight, cs[r[i]].size)) >=
        (if cs[r[j]].size == 0 then 0.0 else dens(cs[r[j]].weight, cs[r[j]].size))
  {
    SortDescends(dens, cs, s);
    if s != [] {
      SortStable(dens, cs, s[1..], d);
      InsertStable(dens, cs, s[0], SortByDensity(dens, cs, s[1..]), d);
      OfCons(dens, cs, s[0], SortByDensity(dens, cs, s[1..]), d);
    }
  }

  lemma {:induction false} InsertStable(dens: Density, cs: seq<Cluster>, x: nat, s: seq<nat>, d: real)
    requires Within(s, |cs|) && x < |cs|
    ensures OfDensity(dens, cs, Insert(dens, cs, x, s), d) == OfDensity(dens, cs, [x] + s, d)
  {
    if s != [] && GetDensity(dens, cs[x]) < GetDensity(dens, cs[s[0]]) {
      var y, rest := s[0], s[1..];
      var r := Insert(dens, cs, x, rest);
      InsertStable(dens, cs, x, rest, d);
      assert s == [y] + rest;
      OfCons(dens, cs, y, r, d);
      OfCons(dens, cs, x, rest, d);
      OfCons(dens, cs, x, s, d);
    }
  }

  lemma OfCons(dens: Density, cs: seq<Cluster>, x: nat, s: seq<nat>, d: real)
    requires Within(s, |cs|) && x < |cs|
    ensures OfDensity(dens, cs, [x] + s, d) ==
      (if (if cs[x].size == 0 then 0.0 else dens(cs[x].weight, cs[x].size)) == d then [x] else [])
      + OfDensity(dens, cs, s, d)
  {
    var all := [x] + s;
    assert all[0] == x && all[1..] == s;
  }

  lemma DistinctPermutes(s: seq<nat>, t: seq<nat>)
    requires Distinct(s) && multiset(s) == multiset(t)
    ensures Distinct(t)
  {
    forall i, j | 0 <= i < j < |t| ensures t[i] != t[j] {
      DistinctCounts(s, t[i]);
      assert t == t[..j] + t[j..];
      assert t[..j][i] == t[i] && t[j..][0] == t[j];
      assert multiset(t) == multiset(t[..j]) + multiset(t[j..]);
      assert t[i] in multiset(t[..j]) && t[j] in multiset(t[j..]);
      assert multiset(t)[t[i]] <= 1;
    }
  }

  function Identity(n: nat): (r: seq<nat>)
    ensures |r| == n && forall i :: 0 <= i < n ==> r[i] == i
  {
    seq(n, i requires 0 <= i < n => i)
  }

  // ------------------------------------------------------------------ the final order

  /** Members of the given clusters, one cluster after the other. */
  ghost function Flatten(lists: seq<seq<nat>>, sorted: seq<nat>): seq<nat> {
    if sorted == [] then []
    else
      var front, last := sorted[..|sorted| - 1], sorted[|sorted| - 1];
      Flatten(lists, front) + if last < |lists| then lists[last] else []
  }

  /** `orderMap` gives the sections at positions of `layout` consecutive numbers from the least int on. */
  ghost predicate Numbered(orderMap: map<nat, int>, sections: seq<nat>, layout: seq<nat>) {
    Within(layout, |sections|) &&
    (forall i :: 0 <= i < |layout| ==>
       sections[layout[i]] in orderMap && orderMap[sections[layout[i]]] == INT_MIN + i) &&
    forall x :: x in orderMap ==> exists i :: 0 <= i < |layout| && sections[layout[i]] == x
  }

  lemma NumberNext(before: map<nat, int>, sections: seq<nat>, layout: seq<nat>, x: nat)
    requires Numbered(before, sections, layout) && Distinct(sections) && x < |sections| && x !in layout
    ensures Numbered(before[sections[x] := INT_MIN + |layout|], sections, layout + [x])
  {
    var after, all := before[sections[x] := INT_MIN + |layout|], layout + [x];
    forall i | 0 <= i < |all| ensures sections[all[i]] in after && after[sections[all[i]]] == INT_MIN + i {
      assert i < |layout| ==> all[i] == layout[i] && layout[i] in layout;
    }
    forall y | y in after ensures exists i :: 0 <= i < |all| && sections[all[i]] == y {
      if y == sections[x] {
        assert all[|layout|] == x;
      } else {
        var i :| 0 <= i < |layout| && sections[layout[i]] == y;
        assert all[i] == layout[i];
      }
    }
  }

  /** The clusters of distinct leaders have no member in common. */
  lemma {:induction false} FlattenMembers(c0: seq<Cluster>, s: State, sorted: seq<nat>, x: nat)
    requires StateOk(c0, s) && Within(sorted, |c0|) && forall i :: 0 <= i < |sorted| ==> s.g.rep[sorted[i]] == sorted[i]
    ensures x in Flatten(s.g.lists, sorted) <==> x < |c0| && s.g.rep[x] in sorted
    decreases |sorted|
  {
    if sorted != [] {
      var n := |sorted| - 1;
      var l := sorted[n];
      FlattenMembers(c0, s, sorted[..n], x);
      assert sorted == sorted[..n] + [l];
      assert VertexOk(c0, s.cs, s.g, l);
      assert x in s.g.lists[l] ==> x < |c0| && s.g.rep[x] == l;
      if x < |c0| && s.g.rep[x] == l {
        assert VertexOk(c0, s.cs, s.g, x);
      }
    }
  }

  lemma ByDensityOk(dens: Density, c0: seq<Cluster>, order: seq<nat>)
    requires order == SortByDensity(dens, c0, Identity(|c0|))
    ensures Within(order, |c0|) && Distinct(order) && |order| == |c0|
  {
    DistinctPermutes(Identity(|c0|), order);
    assert |multiset(order)| == |multiset(Identity(|c0|))|;
  }

  /** The clusters after all nodes have been processed, in order of density. */
  ghost function Clustered(dens: Density, c0: seq<Cluster>, start: State): (s: State)
    requires Singletons(c0) && IsStart(c0, start)
    ensures StateOk(c0, s) && SizesSmall(s.cs)
  {
    var order := SortByDensity(dens, c0, Identity(|c0|));
    ByDensityOk(dens, c0, order);
    Steps(dens, c0, start, order, |order|)
  }

  /** The members of all non-empty clusters, clusters in order of density. */
  ghost function LayoutOf(dens: Density, s: State): seq<nat> {
    Flatten(s.g.lists, LeadersByDensity(dens, s.cs))
  }

  lemma StepsNext(dens: Density, c0: seq<Cluster>, start: State, order: seq<nat>, k: nat, next: nat)
    requires Singletons(c0) && IsStart(c0, start) && Within(order, |c0|) && Distinct(order) && k < |order| &&
      next == k + 1
    ensures var s := Steps(dens, c0, start, order, k);
      s.g.rep[order[k]] == order[k] && Steps(dens, c0, start, order, next) == Step(dens, c0, s, order[k], k)
  {
  }

  lemma StepRanked(dens: Density, c0: seq<Cluster>, s: State, l: nat, k: nat, next: nat)
    requires StateOk(c0, s) && l < |c0| && s.g.rep[l] == l && Edges(c0) && Ranked(s.g, k) && k < |c0| && next == k + 1
    ensures Ranked(Step(dens, c0, s, l, k).g, next)
  {
    if Likely(s.cs[l]) {
      PredIsRoot(c0, s, l);
    }
  }

  lemma RingNext(cs: seq<Cluster>, ring: seq<nat>, n: nat, next: nat)
    requires Ring(cs, ring) && n < |ring| && next == n + 1
    ensures cs[ring[n]].next == if next < |ring| then ring[next] else ring[0]
    ensures cs[ring[n]].next == ring[0] <==> next == |ring|
  {
    if next < |ring| {
      assert Linked(cs, ring[next - 1], ring[next]) && ring[0] != ring[next];
    }
  }

  /** The clusters that have a size. */
  function NonEmpty(cs: seq<Cluster>, n: nat): (r: seq<nat>)
    requires n <= |cs|
    ensures Within(r, n) && Within(r, |cs|) && Distinct(r) && forall x :: x in r <==> 0 <= x < n && cs[x].size > 0
  {
    if n == 0 then [] else NonEmpty(cs, n - 1) + if cs[n - 1].size > 0 then [n - 1] else []
  }

  function LeadersByDensity(dens: Density, cs: seq<Cluster>): seq<nat> {
    SortByDensity(dens, cs, NonEmpty(cs, |cs|))
  }

  lemma LeadersDistinct(dens: Density, c0: seq<Cluster>, s: State, sorted: seq<nat>)
    requires StateOk(c0, s) && sorted == LeadersByDensity(dens, s.cs)
    ensures Distinct(sorted) && Within(sorted, |c0|)
    ensures forall x: nat :: x in sorted <==> x < |c0| && s.cs[x].size > 0
    ensures forall i :: 0 <= i < |sorted| ==> s.g.rep[sorted[i]] == sorted[i]
  {
    var ne := NonEmpty(s.cs, |s.cs|);
    DistinctPermutes(ne, sorted);
    forall x: nat ensures x in sorted <==> x < |c0| && s.cs[x].size > 0 {
      assert x in multiset(sorted) <==> x in multiset(ne);
    }
    forall i | 0 <= i < |sorted| ensures s.g.rep[sorted[i]] == sorted[i] {
      assert sorted[i] in sorted;
      assert VertexOk(c0, s.cs, s.g, sorted[i]);
    }
  }

  lemma NextRing(c0: seq<Cluster>, s: State, sorted: seq<nat>, k: nat)
    requires StateOk(c0, s) && Within(sorted, |c0|) && Distinct(sorted) && k < |sorted|
    requires forall i :: 0 <= i < |sorted| ==> s.g.rep[sorted[i]] == sorted[i]
    ensures var ring := s.g.lists[sorted[k]];
      Ring(s.cs, ring) && ring[0] == sorted[k] &&
      forall i :: 0 <= i < |ring| ==> ring[i] !in Flatten(s.g.lists, sorted[..k])
  {
    assert VertexOk(c0, s.cs, s.g, sorted[k]);
    var ring := s.g.lists[sorted[k]];
    forall i | 0 <= i < |ring| ensures ring[i] !in Flatten(s.g.lists, sorted[..k]) {
      FlattenMembers(c0, s, sorted[..k], ring[i]);
      assert sorted[k] !in sorted[..k];
    }
  }

  // ------------------------------------------------------------------ what the order is worth

  lemma {:induction false} LayoutDistinct(c0: seq<Cluster>, s: State, sorted: seq<nat>)
    requires StateOk(c0, s) && Within(sorted, |c0|) && Distinct(sorted)
    requires forall i :: 0 <= i < |sorted| ==> s.g.rep[sorted[i]] == sorted[i]
    ensures Distinct(Flatten(s.g.lists, sorted))
    decreases |sorted|
  {
    if sorted != [] {
      var n := |sorted| - 1;
      LayoutDistinct(c0, s, sorted[..n]);
      NextRing(c0, s, sorted, n);
      var before, ring := Flatten(s.g.lists, sorted[..n]), s.g.lists[sorted[n]];
      forall i, j | 0 <= i < |before| && 0 <= j < |ring| ensures before[i] != ring[j] {
        assert before[i] in before;
      }
    }
  }

  /** Exactly the members of clusters of positive size are numbered. */
  lemma OrderedSections(dens: Density, c0: seq<Cluster>, s: State, sections: seq<nat>, orderMap: map<nat, int>,
                        layout: seq<nat>, v: nat)
    requires StateOk(c0, s) && |sections| == |c0| && Distinct(sections) && v < |c0|
    requires layout == LayoutOf(dens, s) && Numbered(orderMap, sections, layout)
    ensures s.g.rep[v] < |c0| && (sections[v] in orderMap <==> s.cs[s.g.rep[v]].size > 0)
  {
    var sorted := LeadersByDensity(dens, s.cs);
    LeadersDistinct(dens, c0, s, sorted);
    FlattenMembers(c0, s, sorted, v);
    assert VertexOk(c0, s.cs, s.g, v);
    if sections[v] in orderMap {
      var i :| 0 <= i < |layout| && sections[layout[i]] == sections[v];
      assert layout[i] == v;
    }
    forall i | 0 <= i < |layout| && layout[i] == v ensures sections[v] in orderMap {
    }
  }

  lemma {:induction false} MemberSize(c0: seq<Cluster>, s: seq<nat>, i: nat)
    requires i < |s| && s[i] < |c0|
    ensures c0[s[i]].size <= SumSize(c0, s)
    decreases |s|
  {
    if i < |s| - 1 {
      MemberSize(c0, s[..|s| - 1], i);
    }
  }

  /** So every section that has a size is. */
  lemma SizedSectionsOrdered(dens: Density, c0: seq<Cluster>, s: State, sections: seq<nat>, orderMap: map<nat, int>,
                             layout: seq<nat>, v: nat)
    requires StateOk(c0, s) && |sections| == |c0| && Distinct(sections) && v < |c0| && c0[v].size > 0
    requires layout == LayoutOf(dens, s) && Numbered(orderMap, sections, layout)
    ensures sections[v] in orderMap
  {
    OrderedSections(dens, c0, s, sections, orderMap, layout, v);
    var r := s.g.rep[v];
    assert VertexOk(c0, s.cs, s.g, v);
    assert VertexOk(c0, s.cs, s.g, r);
    var i: nat :| i < |s.g.lists[r]| && s.g.lists[r][i] == v;
    MemberSize(c0, s.g.lists[r], i);
  }

  /** No two sections get the same number, so the map is a bijection onto consecutive numbers. */
  lemma OrderIsInjective(dens: Density, c0: seq<Cluster>, s: State, sections: seq<nat>, orderMap: map<nat, int>,
                         layout: seq<nat>, x: nat, y: nat)
    requires StateOk(c0, s) && |sections| == |c0| && Distinct(sections)
    requires layout == LayoutOf(dens, s) && Numbered(orderMap, sections, layout)
    requires x in orderMap && y in orderMap && x != y
    ensures orderMap[x] != orderMap[y] && -0x8000_0000 <= orderMap[x] < -0x8000_0000 + |layout| && Distinct(layout)
  {
    LeadersDistinct(dens, c0, s, LeadersByDensity(dens, s.cs));
    LayoutDistinct(c0, s, LeadersByDensity(dens, s.cs));
    NumbersDiffer(sections, orderMap, layout, x, y);
  }

  lemma NumbersDiffer(sections: seq<nat>, orderMap: map<nat, int>, layout: seq<nat>, x: nat, y: nat)
    requires Numbered(orderMap, sections, layout) && x in orderMap && y in orderMap && x != y
    ensures orderMap[x] != orderMap[y] && INT_MIN <= orderMap[x] < INT_MIN + |layout|
  {
    var i :| 0 <= i < |layout| && sections[layout[i]] == x;
    var j :| 0 <= j < |layout| && sections[layout[j]] == y;
  }

  /** Each cluster is contiguous in the order, its leader first. */
  lemma {:induction false} ClustersContiguous(c0: seq<Cluster>, s: State, sorted: seq<nat>, k: nat) returns (at: nat)
    requires StateOk(c0, s) && Within(sorted, |c0|) && k < |sorted|
    requires forall i :: 0 <= i < |sorted| ==> s.g.rep[sorted[i]] == sorted[i]
    ensures var ring, layout := s.g.lists[sorted[k]], Flatten(s.g.lists, sorted);
      ring != [] && ring[0] == sorted[k] && at + |ring| <= |layout| && layout[at..at + |ring|] == ring
    decreases |sorted|
  {
    var front, last := sorted[..|sorted| - 1], sorted[|sorted| - 1];
    var before, ring := Flatten(s.g.lists, front), s.g.lists[sorted[k]];
    assert VertexOk(c0, s.cs, s.g, sorted[k]);
    if k == |front| {
      at := |before|;
      SliceAfter(before, ring, Flatten(s.g.lists, sorted));
    } else {
      at := ClustersContiguous(c0, s, front, k);
      assert front[k] == sorted[k];
      SliceBefore(before, s.g.lists[last], Flatten(s.g.lists, sorted), at, ring);
    }
  }

  lemma SliceAfter(before: seq<nat>, ring: seq<nat>, whole: seq<nat>)
    requires whole == before + ring
    ensures |before| + |ring| <= |whole| && whole[|before|..|before| + |ring|] == ring
  {
  }

  lemma SliceBefore(before: seq<nat>, more: seq<nat>, whole: seq<nat>, at: nat, ring: seq<nat>)
    requires whole == before + more && at + |ring| <= |before| && before[at..at + |ring|] == ring
    ensures at + |ring| <= |whole| && whole[at..at + |ring|] == ring
  {
  }

  // ------------------------------------------------------------------ building the graph

  /** A profiled call between two sections. */
  datatype Call = Call(from: nat, to: nat, weight: nat)

  /** What the graph is built from: the size and the output section of every section. */
  datatype Sections = Sections(size: nat -> nat, out: nat -> nat)

  predicate Kept(e: Sections, c: Call) {
    e.out(c.from) == e.out(c.to)
  }

  /** The calls into `s` that stay inside its output section, those from itself included. */
  function WeightInto(e: Sections, calls: seq<Call>, s: nat): (w: nat)
    ensures w < TWO_64
  {
    if calls == [] then 0
    else
      var c := calls[|calls| - 1];
      (WeightInto(e, calls[..|calls| - 1], s) + if Kept(e, c) && c.to == s then c.weight else 0) % TWO_64
  }

  /** The heaviest of these calls from another section, the first one among equals. */
  function BestInto(e: Sections, calls: seq<Call>, s: nat): Option<Edge> {
    if calls == [] then None
    else
      var c, best := calls[|calls| - 1], BestInto(e, calls[..|calls| - 1], s);
      if Kept(e, c) && c.to == s && c.from != s && (best.None? || best.value.weight < c.weight)
        then Some(Edge(c.from, c.weight))
      else best
  }

  ghost predicate CallsInto(e: Sections, c: Call, s: nat) {
    Kept(e, c) && c.to == s && c.from != s
  }

  /** Call `k` is the heaviest one into `s`, and no earlier one is as heavy. */
  ghost predicate Heaviest(e: Sections, calls: seq<Call>, s: nat, k: nat) {
    k < |calls| && CallsInto(e, calls[k], s) &&
    (forall i :: 0 <= i < |calls| && CallsInto(e, calls[i], s) ==> calls[i].weight <= calls[k].weight) &&
    forall i :: 0 <= i < k && CallsInto(e, calls[i], s) ==> calls[i].weight < calls[k].weight
  }

  lemma {:induction false} BestIsHeaviest(e: Sections, calls: seq<Call>, s: nat) returns (k: nat)
    ensures var best := BestInto(e, calls, s);
      if best.None? then forall i :: 0 <= i < |calls| ==> !CallsInto(e, calls[i], s)
      else Heaviest(e, calls, s, k) && best.value == Edge(calls[k].from, calls[k].weight)
    decreases |calls|
  {
    k := 0;
    if calls != [] {
      var n := |calls| - 1;
      k := BestIsHeaviest(e, calls[..n], s);
      assert forall i :: 0 <= i < n ==> calls[..n][i] == calls[i];
      assert CallsInto(e, calls[n], s) || !CallsInto(e, calls[n], s);
      if BestInto(e, calls, s) != BestInto(e, calls[..n], s) {
        k := n;
      }
    }
  }

  /** The graph under construction. */
  datatype Graph = Graph(nodes: map<nat, nat>, sections: seq<nat>, cs: seq<Cluster>)

  /** Every section has one node, which knows its number, its size and what the calls say about it. */
  ghost predicate GraphOk(e: Sections, calls: seq<Call>, g: Graph) {
    |g.sections| == |g.cs| &&
    (forall s :: s in g.nodes ==> g.nodes[s] < |g.sections| && g.sections[g.nodes[s]] == s) &&
    forall i :: 0 <= i < |g.sections| ==>
      g.sections[i] in g.nodes && g.nodes[g.sections[i]] == i && NodeOf(e, calls, g, i)
  }

  /** The sections in the calls that count. */
  ghost predicate Mentioned(e: Sections, calls: seq<Call>, s: nat) {
    exists j :: 0 <= j < |calls| && Kept(e, calls[j]) && (calls[j].from == s || calls[j].to == s)
  }

  ghost predicate NodeOf(e: Sections, calls: seq<Call>, g: Graph, i: nat)
    requires i < |g.sections| == |g.cs|
  {
    var s, c := g.sections[i], g.cs[i];
    c.next == i && c.prev == i && c.size == e.size(s) && c.weight == WeightInto(e, calls, s) &&
    BestOf(g.nodes, c.best, BestInto(e, calls, s))
  }

  /** The stored edge is the heaviest one, with its origin by node number. */
  ghost predicate BestOf(nodes: map<nat, nat>, stored: Option<Edge>, best: Option<Edge>) {
    if best.None? then stored.None?
    else stored.Some? && best.value.from in nodes && stored.value == Edge(nodes[best.value.from], best.value.weight)
  }

  /** Nothing has been said yet about sections without a node. */
  ghost predicate Unsaid(e: Sections, calls: seq<Call>, g: Graph) {
    forall s :: s !in g.nodes ==> WeightInto(e, calls, s) == 0 && BestInto(e, calls, s).None?
  }

  lemma NodesKept(e: Sections, calls: seq<Call>, c: Call, g: Graph)
    requires GraphOk(e, calls, g) && Unsaid(e, calls, g) && !Kept(e, c)
    ensures GraphOk(e, calls + [c], g) && Unsaid(e, calls + [c], g)
  {
    assert (calls + [c])[..|calls|] == calls;
    forall i | 0 <= i < |g.sections| ensures NodeOf(e, calls + [c], g, i) {
      assert NodeOf(e, calls, g, i);
    }
  }

  lemma CallAdded(e: Sections, calls: seq<Call>, c: Call, g: Graph, h: Graph, to: nat)
    requires GraphOk(e, calls, g) && Unsaid(e, calls, g) && Kept(e, c) && c.from in g.nodes && c.to in g.nodes
    requires to == g.nodes[c.to] && h.nodes == g.nodes && h.sections == g.sections && |h.cs| == |g.cs|
    requires forall i :: 0 <= i < |g.cs| && i != to ==> h.cs[i] == g.cs[i]
    requires var n := g.cs[to].(weight := (g.cs[to].weight + c.weight) % TWO_64);
      h.cs[to] == if g.nodes[c.from] != to && (n.best.None? || n.best.value.weight < c.weight)
                  then n.(best := Some(Edge(g.nodes[c.from], c.weight))) else n
    ensures GraphOk(e, calls + [c], h) && Unsaid(e, calls + [c], h)
  {
    var more := calls + [c];
    assert more[..|calls|] == calls && more[|calls|] == c;
    forall i | 0 <= i < |h.sections| ensures NodeOf(e, more, h, i) {
      assert NodeOf(e, calls, g, i);
      if i == to {
        CallCounted(e, calls, c, more, g, h, to);
      } else {
        CallElsewhere(e, calls, c, more, g.sections[i]);
      }
    }
  }

  /** A call changes nothing for other sections. */
  lemma CallElsewhere(e: Sections, calls: seq<Call>, c: Call, more: seq<Call>, s: nat)
    requires more == calls + [c] && (!Kept(e, c) || c.to != s) && WeightInto(e, calls, s) < TWO_64
    ensures WeightInto(e, more, s) == WeightInto(e, calls, s) && BestInto(e, more, s) == BestInto(e, calls, s)
  {
    assert more[..|calls|] == calls && more[|calls|] == c;
  }

  lemma CallCounted(e: Sections, calls: seq<Call>, c: Call, more: seq<Call>, g: Graph, h: Graph, to: nat)
    requires GraphOk(e, calls, g) && Kept(e, c) && c.from in g.nodes && c.to in g.nodes && more == calls + [c]
    requires to == g.nodes[c.to] && h.nodes == g.nodes && h.sections == g.sections && |h.cs| == |g.cs|
    requires var n := g.cs[to].(weight := (g.cs[to].weight + c.weight) % TWO_64);
      h.cs[to] == if g.nodes[c.from] != to && (n.best.None? || n.best.value.weight < c.weight)
                  then n.(best := Some(Edge(g.nodes[c.from], c.weight))) else n
    ensures NodeOf(e, more, h, to)
  {
    assert more[..|calls|] == calls && more[|calls|] == c;
    assert NodeOf(e, calls, g, to);
  }

  // ------------------------------------------------------------------ the graph in terms of the calls

  /** All calls into `s` from sections of its output section, `s` itself included. */
  function TotalInto(e: Sections, calls: seq<Call>, s: nat): nat {
    if calls == [] then 0
    else (if e.out(calls[0].from) == e.out(calls[0].to) && calls[0].to == s then calls[0].weight else 0)
         + TotalInto(e, calls[1..], s)
  }

  lemma {:induction false} TotalSnoc(e: Sections, calls: seq<Call>, c: Call, s: nat)
    ensures TotalInto(e, calls + [c], s) ==
      TotalInto(e, calls, s) + if e.out(c.from) == e.out(c.to) && c.to == s then c.weight else 0
  {
    if calls == [] {
      assert calls + [c] == [c] && [c][1..] == [];
    } else {
      assert (calls + [c])[1..] == calls[1..] + [c];
      TotalSnoc(e, calls[1..], c, s);
    }
  }

  lemma {:induction false} WeightIsTotal(e: Sections, calls: seq<Call>, s: nat)
    ensures WeightInto(e, calls, s) == TotalInto(e, calls, s) % 0x1_0000_0000_0000_0000
  {
    if calls != [] {
      var front, c := calls[..|calls| - 1], calls[|calls| - 1];
      assert calls == front + [c];
      WeightIsTotal(e, front, s);
      TotalSnoc(e, front, c, s);
    }
  }

  /** A call into `s` from another section of its output section. */
  ghost predicate Enters(e: Sections, c: Call, s: nat) {
    c.to == s && c.from != s && e.out(c.from) == e.out(s)
  }

  /** A node has the size of its section, the total weight of the calls into it modulo 2^64, and, if
      another section calls it, the first heaviest of these calls. */
  lemma NodeSpelledOut(e: Sections, calls: seq<Call>, g: Graph, i: nat) returns (k: nat)
    requires GraphOk(e, calls, g) && i < |g.cs|
    ensures g.cs[i].size == e.size(g.sections[i])
    ensures g.cs[i].weight == TotalInto(e, calls, g.sections[i]) % 0x1_0000_0000_0000_0000
    ensures if g.cs[i].best.None? then forall j :: 0 <= j < |calls| ==> !Enters(e, calls[j], g.sections[i])
      else k < |calls| && Enters(e, calls[k], g.sections[i]) && calls[k].from in g.nodes &&
           g.cs[i].best.value == Edge(g.nodes[calls[k].from], calls[k].weight) &&
           (forall j :: 0 <= j < |calls| && Enters(e, calls[j], g.sections[i]) ==>
              calls[j].weight <= calls[k].weight) &&
           forall j :: 0 <= j < k && Enters(e, calls[j], g.sections[i]) ==> calls[j].weight < calls[k].weight
  {
    var s := g.sections[i];
    assert NodeOf(e, calls, g, i);
    WeightIsTotal(e, calls, s);
    k := BestIsHeaviest(e, calls, s);
    assert forall j :: 0 <= j < |calls| ==> (Enters(e, calls[j], s) <==> CallsInto(e, calls[j], s));
  }

  /** A section has a node exactly if some call between sections of one output section names it. */
  lemma MentionedSpelledOut(e: Sections, calls: seq<Call>, s: nat)
    ensures Mentioned(e, calls, s) <==>
      exists j :: 0 <= j < |calls| && e.out(calls[j].from) == e.out(calls[j].to) && s in {calls[j].from, calls[j].to}
  {
  }

  lemma GraphSingletons(e: Sections, calls: seq<Call>, g: Graph)
    requires GraphOk(e, calls, g) && forall s :: e.size(s) < TWO_32
    ensures Singletons(g.cs) && Distinct(g.sections)
  {
    forall v | 0 <= v < |g.cs|
      ensures g.cs[v].next == v && g.cs[v].prev == v && g.cs[v].weight < TWO_64 && g.cs[v].size < TWO_32
      ensures g.cs[v].best.Some? ==> g.cs[v].best.value.from < |g.cs|
    {
      assert NodeOf(e, calls, g, v);
    }
  }

  lemma MentionedNext(e: Sections, calls: seq<Call>, c: Call)
    ensures forall s :: Mentioned(e, calls + [c], s) <==>
      Mentioned(e, calls, s) || (Kept(e, c) && (s == c.from || s == c.to))
  {
    forall s
      ensures Mentioned(e, calls + [c], s) <==> Mentioned(e, calls, s) || (Kept(e, c) && (s == c.from || s == c.to)) {
      if Mentioned(e, calls, s) {
        var j :| 0 <= j < |calls| && Kept(e, calls[j]) && (calls[j].from == s || calls[j].to == s);
        assert (calls + [c])[j] == calls[j];
      }
      assert (calls + [c])[|calls|] == c;
    }
  }

  // ------------------------------------------------------------------ clustering and building

  class CallGraphSort {
    const sections: seq<nat>
    var clusters: seq<Cluster>

    constructor (secs: seq<nat>, cs: seq<Cluster>)
      ensures sections == secs && clusters == cs
    {
      sections, clusters := secs, cs;
    }

    /** Processes one node: its cluster may join the one of its best predecessor. */
    method Process(dens: Density, leaders: array<nat>, l: nat, ghost c0: seq<Cluster>, ghost s: State, ghost k: nat)
      requires StateOk(c0, s) && s.cs == clusters && SizesSmall(s.cs) && Edges(c0) && Ranked(s.g, k) && k < |c0|
      requires l < |c0| && s.g.rep[l] == l && Forest(leaders[..], s.g.rep, s.g.rank)
      modifies this`clusters, leaders
      ensures var r := Step(dens, c0, s, l, k);
        clusters == r.cs && Forest(leaders[..], r.g.rep, r.g.rank)
    {
      var c := clusters[l];
      if c.best.None? || (c.best.value.weight * 10) % TWO_64 <= c.initialWeight {
        return;
      }
      PredIsRoot(c0, s, l);
      var p := GetLeader(leaders, c.best.value.from, s.g.rep, s.g.rank);
      if l == p {
        return;
      }
      if (c.size + clusters[p].size) % TWO_64 > MAX_CLUSTER_SIZE {
        return;
      }
      if NewDensityBad(dens, clusters[p], c) {
        return;
      }
      MergeKeepsForest(leaders[..], s.g, l, p, k);
      leaders[l] := p;
      clusters := MergeClusters(clusters, p, l);
    }

    /** Processes the nodes in `order`. */
    method Cluster(dens: Density, order: seq<nat>, ghost start: State)
      requires Singletons(clusters) && IsStart(clusters, start) && Within(order, |clusters|) && Distinct(order)
      requires |order| == |clusters|
      modifies this`clusters
      ensures clusters == Steps(dens, old(clusters), start, order, |order|).cs
    {
      ghost var c0, s := clusters, start;
      StartOk(c0, s);
      var leaders := new nat[|clusters|](i => i);
      assert Forest(leaders[..], s.g.rep, s.g.rank) by {
        forall v | 0 <= v < |c0| ensures NodeOk(leaders[..], s.g.rep, s.g.rank, v) {
        }
      }
      var k := 0;
      while k < |order|
        invariant k <= |order| && s == Steps(dens, c0, start, order, k) && clusters == s.cs
        invariant Forest(leaders[..], s.g.rep, s.g.rank) && Ranked(s.g, k)
      {
        var l, next := order[k], k + 1;
        StepsNext(dens, c0, start, order, k, next);
        Process(dens, leaders, l, c0, s, k);
        StepRanked(dens, c0, s, l, k, next);
        s := Step(dens, c0, s, l, k);
        k := next;
      }
      assert k == |order|;
    }

    /** Numbers the members of one cluster, going round its circular list from the leader. */
    method NumberRing(leader: nat, cur0: int, orderMap0: map<nat, int>, ghost ring: seq<nat>, ghost layout: seq<nat>)
      returns (cur: int, orderMap: map<nat, int>)
      requires Ring(clusters, ring) && ring[0] == leader && |sections| == |clusters| && Distinct(sections)
      requires Numbered(orderMap0, sections, layout) && cur0 == INT_MIN + |layout|
      requires forall i :: 0 <= i < |ring| ==> ring[i] !in layout
      ensures Numbered(orderMap, sections, layout + ring) && cur == INT_MIN + |layout + ring|
    {
      cur, orderMap := cur0, orderMap0;
      var i := leader;
      ghost var n, all := 0, layout;
      while true
        invariant n < |ring| && i == ring[n] && all == layout + ring[..n] && Numbered(orderMap, sections, all)
        invariant cur == INT_MIN + |all|
        decreases |ring| - n
      {
        assert i !in ring[..n] by {
          assert forall j :: 0 <= j < n ==> ring[j] != ring[n];
        }
        NumberNext(orderMap, sections, all, i);
        orderMap := orderMap[sections[i] := cur];
        cur := cur + 1;
        ghost var next := n + 1;
        all := all + [i];
        assert all == layout + ring[..next];
        RingNext(clusters, ring, n, next);
        i := clusters[i].next;
        if i == leader {
          assert next == |ring|;
          assert ring[..next] == ring;
          return;
        }
        n := next;
      }
    }

    /** The clusters in order of density, and their members' numbers. */
    method Order(dens: Density, ghost c0: seq<Cluster>, ghost s: State)
      returns (orderMap: map<nat, int>)
      requires StateOk(c0, s) && s.cs == clusters && |sections| == |clusters| && Distinct(sections)
      ensures Numbered(orderMap, sections, LayoutOf(dens, s))
    {
      var leaders := NonEmpty(clusters, |clusters|);
      var order := SortByDensity(dens, clusters, leaders);
      ghost var layout: seq<nat> := [];
      orderMap := map[];
      LeadersDistinct(dens, c0, s, order);
      var cur := INT_MIN;
      var k := 0;
      while k < |order|
        invariant k <= |order| && layout == Flatten(s.g.lists, order[..k])
        invariant Numbered(orderMap, sections, layout) && cur == INT_MIN + |layout|
      {
        var next := k + 1;
        ghost var ring := s.g.lists[order[k]];
        NextRing(c0, s, order, k);
        cur, orderMap := NumberRing(order[k], cur, orderMap, ring, layout);
        assert order[..next][..|order[..next]| - 1] == order[..k];
        layout := layout + ring;
        k := next;
      }
      assert k == |order|;
      assert order[..k] == order;
    }

    /** Clusters the sections by density and numbers them. */
    method Run(dens: Density, ghost start: State) returns (orderMap: map<nat, int>)
      requires Singletons(clusters) && IsStart(clusters, start) && |sections| == |clusters| && Distinct(sections)
      modifies this`clusters
      ensures clusters == Clustered(dens, old(clusters), start).cs
      ensures Numbered(orderMap, sections, LayoutOf(dens, Clustered(dens, old(clusters), start)))
    {
      ghost var c0 := clusters;
      var byDensity := SortByDensity(dens, clusters, Identity(|clusters|));
      ByDensityOk(dens, clusters, byDensity);
      Cluster(dens, byDensity, start);
      orderMap := Order(dens, c0, Clustered(dens, c0, start));
    }
  }

  /** The node of a section, made when first asked for. */
  method GetOrCreateNode(e: Sections, g: Graph, s: nat, ghost calls: seq<Call>) returns (h: Graph, i: nat)
    requires GraphOk(e, calls, g) && Unsaid(e, calls, g)
    ensures GraphOk(e, calls, h) && Unsaid(e, calls, h) && i < |h.sections| && h.sections[i] == s
    ensures forall x :: x in h.nodes <==> x in g.nodes || x == s
  {
    if s in g.nodes {
      h, i := g, g.nodes[s];
    } else {
      i := |g.cs|;
      h := Graph(g.nodes[s := i], g.sections + [s], g.cs + [Cluster(i, i, e.size(s), 0, 0, None)]);
      forall k | 0 <= k < |h.sections|
        ensures h.sections[k] in h.nodes && h.nodes[h.sections[k]] == k && NodeOf(e, calls, h, k) {
        assert k < i ==> NodeOf(e, calls, g, k);
      }
    }
  }

  /** Adds a call to the graph. */
  method AddCall(e: Sections, g0: Graph, c: Call, ghost calls: seq<Call>) returns (g: Graph)
    requires GraphOk(e, calls, g0) && Unsaid(e, calls, g0) && c.weight < TWO_64
    ensures GraphOk(e, calls + [c], g) && Unsaid(e, calls + [c], g)
    ensures forall x :: x in g.nodes <==> x in g0.nodes || (Kept(e, c) && (x == c.from || x == c.to))
  {
    assert (calls + [c])[..|calls|] == calls;
    g := g0;
    if !Kept(e, c) {
      NodesKept(e, calls, c, g);
      return;
    }
    var from, to;
    g, from := GetOrCreateNode(e, g, c.from, calls);
    g, to := GetOrCreateNode(e, g, c.to, calls);
    from := g.nodes[c.from];
    var node := g.cs[to].(weight := (g.cs[to].weight + c.weight) % TWO_64);
    if from != to && (node.best.None? || node.best.value.weight < c.weight) {
      node := node.(best := Some(Edge(from, c.weight)));
    }
    ghost var before := g;
    g := g.(cs := g.cs[to := node]);
    CallAdded(e, calls, c, before, g, to);
  }

  /** Builds the graph of a profile: one singleton cluster per section. */
  method Build(e: Sections, calls: seq<Call>) returns (g: Graph)
    requires (forall i :: 0 <= i < |calls| ==> calls[i].weight < TWO_64) && forall s :: e.size(s) < TWO_32
    ensures GraphOk(e, calls, g) && Singletons(g.cs) && Distinct(g.sections)
    ensures forall i :: 0 <= i < |g.cs| ==> g.cs[i].initialWeight == g.cs[i].weight
    ensures forall s :: s in g.sections <==> Mentioned(e, calls, s)
  {
    g := Graph(map[], [], []);
    var k := 0;
    while k < |calls|
      invariant k <= |calls| && GraphOk(e, calls[..k], g) && Unsaid(e, calls[..k], g)
      invariant forall s :: s in g.nodes <==> Mentioned(e, calls[..k], s)
    {
      var next := k + 1;
      assert calls[..next] == calls[..k] + [calls[k]];
      ghost var before := g;
      g := AddCall(e, g, calls[k], calls[..k]);
      MentionedNext(e, calls[..k], calls[k]);
      k := next;
    }
    assert k == |calls|;
    assert calls[..k] == calls;
    ghost var built := g;
    var i := 0;
    while i < |g.cs|
      invariant i <= |g.cs| == |built.cs| && g.nodes == built.nodes && g.sections == built.sections
      invariant forall j :: 0 <= j < |g.cs| ==>
        g.cs[j] == if j < i then built.cs[j].(initialWeight := built.cs[j].weight) else built.cs[j]
    {
      g := g.(cs := g.cs[i := g.cs[i].(initialWeight := g.cs[i].weight)]);
      i := i + 1;
    }
    assert i == |g.cs|;
    forall j | 0 <= j < |g.cs| ensures NodeOf(e, calls, g, j) {
      assert NodeOf(e, calls, built, j);
    }
    GraphSingletons(e, calls, g);
    forall s ensures s in g.sections <==> s in g.nodes {
      if s in g.sections {
        var j: nat :| j < |g.sections| && g.sections[j] == s;
      }
    }
  }
}
