/** Call-chain clustering: union-find with path halving beside circular lists of cluster members. */
module CallGraph {
  import opened Collections
  import opened Words
  import opened Options

  const MAX_CLUSTER_SIZE: nat := 1024 * 1024
  const MAX_DENSITY_DEGRADATION: nat := 8
  const INT_MIN: int := -0x8000_0000

  /** The heaviest edge into a section, if there is one. */
  datatype Edge = Edge(from: nat, weight: nat)

  datatype Cluster = Cluster(next: nat, prev: nat, size: nat, weight: nat, initialWeight: nat, best: Option<Edge>)

  /** Density is a quotient of two 64-bit numbers in floating point; nothing here depends on its value. */
  type Density = (nat, nat) -> real

  // ------------------------------------------------------------------ union-find

  /** `rep` names the leader of every node; following the stored leaders keeps it and raises `rank`. */
  ghost predicate Forest(leaders: seq<nat>, rep: seq<nat>, rank: seq<nat>) {
    |leaders| == |rep| == |rank| && forall v :: 0 <= v < |leaders| ==> NodeOk(leaders, rep, rank, v)
  }

  ghost predicate NodeOk(leaders: seq<nat>, rep: seq<nat>, rank: seq<nat>, v: nat)
    requires |leaders| == |rep| == |rank| && v < |leaders|
  {
    leaders[v] < |leaders| && rep[v] < |leaders| && rank[v] <= |leaders| && rep[leaders[v]] == rep[v] &&
      rep[rep[v]] == rep[v] &&
    (leaders[v] == v <==> rep[v] == v) && (leaders[v] != v ==> rank[v] < rank[leaders[v]])
  }

  /** Path halving ends, returns the leader, and changes the leader of no node. */
  method GetLeader(leaders: array<nat>, v0: nat, ghost rep: seq<nat>, ghost rank: seq<nat>) returns (v: nat)
    requires Forest(leaders[..], rep, rank) && v0 < leaders.Length
    modifies leaders
    ensures Forest(leaders[..], rep, rank) && v == rep[v0] && v < leaders.Length && leaders[v] == v
  {
    v := v0;
    while leaders[v] != v
      invariant v < leaders.Length && rep[v] == rep[v0] && Forest(leaders[..], rep, rank)
      decreases |rank| - rank[v]
    {
      HalvingKeepsForest(leaders[..], rep, rank, v);
      leaders[v] := leaders[leaders[v]];
      v := leaders[v];
      assert NodeOk(leaders[..], rep, rank, v);
    }
    assert NodeOk(leaders[..], rep, rank, v);
  }

  lemma HalvingKeepsForest(leaders: seq<nat>, rep: seq<nat>, rank: seq<nat>, v: nat)
    requires Forest(leaders, rep, rank) && v < |leaders| && leaders[v] != v
    ensures leaders[v] < |leaders| && leaders[leaders[v]] < |leaders|
    ensures Forest(leaders[v := leaders[leaders[v]]], rep, rank)
    ensures rank[leaders[leaders[v]]] > rank[v] && rep[leaders[leaders[v]]] == rep[v]
  {
    assert NodeOk(leaders, rep, rank, v);
    assert NodeOk(leaders, rep, rank, leaders[v]) && NodeOk(leaders, rep, rank, rep[v]);
    assert NodeOk(leaders, rep, rank, leaders[leaders[v]]);
    var now := leaders[v := leaders[leaders[v]]];
    forall x | 0 <= x < |now| ensures NodeOk(now, rep, rank, x) {
      assert NodeOk(leaders, rep, rank, x);
    }
  }

  /** The representatives after the cluster of `l` has joined that of `p`. */
  ghost function Joined(rep: seq<nat>, l: nat, p: nat): (r: seq<nat>)
    ensures |r| == |rep| && forall x :: 0 <= x < |rep| ==> r[x] == if rep[x] == l then p else rep[x]
  {
    seq(|rep|, x requires 0 <= x < |rep| => if rep[x] == l then p else rep[x])
  }

  lemma UnionKeepsForest(leaders: seq<nat>, rep: seq<nat>, rank: seq<nat>, l: nat, p: nat, k: nat)
    requires Forest(leaders, rep, rank) && l < |rep| && p < |rep| && l != p && rep[l] == l && rep[p] == p
    requires k < rank[p] && forall x :: 0 <= x < |rep| && leaders[x] == l && x != l ==> rank[x] < k
    ensures Forest(leaders[l := p], Joined(rep, l, p), rank[l := k])
  {
    var now, rep', rank' := leaders[l := p], Joined(rep, l, p), rank[l := k];
    assert NodeOk(leaders, rep, rank, l) && NodeOk(leaders, rep, rank, p);
    forall x | 0 <= x < |now| ensures NodeOk(now, rep', rank', x) {
      assert NodeOk(leaders, rep, rank, x);
    }
  }

  // ------------------------------------------------------------------ circular lists

  /** `s` lists the members of the circular list of its first element, in order. */
  ghost predicate Ring(cs: seq<Cluster>, s: seq<nat>) {
    s != [] && Distinct(s) && (forall i :: 0 <= i < |s| ==> s[i] < |cs|) &&
    (forall i :: 0 < i < |s| ==> Linked(cs, s[i - 1], s[i])) && Linked(cs, s[|s| - 1], s[0])
  }

  ghost predicate Linked(cs: seq<Cluster>, a: nat, b: nat) {
    a < |cs| && b < |cs| && cs[a].next == b && cs[b].prev == a
  }

  /** `mergeClusters`: splices two circular lists and moves size and weight over. */
  function MergeClusters(cs: seq<Cluster>, into: nat, from: nat): (r: seq<Cluster>)
    requires into < |cs| && from < |cs| && into != from && cs[into].prev < |cs| && cs[from].prev < |cs|
    ensures |r| == |cs|
  {
    var tail1, tail2 := cs[into].prev, cs[from].prev;
    var a := cs[into := cs[into].(prev := tail2)];
    var b := a[tail2 := a[tail2].(next := into)];
    var c := b[from := b[from].(prev := tail1)];
    var d := c[tail1 := c[tail1].(next := from)];
    var e := d[into := d[into].(size := (d[into].size + d[from].size) % TWO_64,
      weight := (d[into].weight + d[from].weight) % TWO_64)];
    e[from := e[from].(size := 0, weight := 0)]
  }

  lemma MergedLinks(cs: seq<Cluster>, into: nat, from: nat, x: nat)
    requires into < |cs| && from < |cs| && into != from && cs[into].prev < |cs| && cs[from].prev < |cs| && x < |cs|
    requires cs[into].prev != cs[from].prev
    ensures var r := MergeClusters(cs, into, from);
      r[x].next == (if x == cs[into].prev then from else if x == cs[from].prev then into else cs[x].next) &&
      r[x].prev == (if x == into then cs[from].prev else if x == from then cs[into].prev else cs[x].prev)
  {
  }

  /** Two disjoint rings become one, the second after the first. */
  lemma SpliceRings(cs: seq<Cluster>, s: seq<nat>, t: seq<nat>)
    requires Ring(cs, s) && Ring(cs, t) && forall i, j :: 0 <= i < |s| && 0 <= j < |t| ==> s[i] != t[j]
    ensures cs[s[0]].prev < |cs| && cs[t[0]].prev < |cs| && s[0] != t[0]
    ensures Ring(MergeClusters(cs, s[0], t[0]), s + t)
  {
    var r, u, m, n := MergeClusters(cs, s[0], t[0]), s + t, |s|, |s| + |t|;
    forall x: nat | x < |cs| {
      MergedLinks(cs, s[0], t[0], x);
    }
    forall i | 0 < i < n ensures Linked(r, u[i - 1], u[i]) {
      if i < m {
        assert Linked(cs, s[i - 1], s[i]) && s[i - 1] != s[m - 1] && s[i] != s[0];
      } else if i > m {
        assert Linked(cs, t[i - 1 - m], t[i - m]) && t[i - 1 - m] != t[|t| - 1] && t[i - m] != t[0];
      }
    }
  }

  /** Rings that take no part stay as they are. */
  lemma OtherRings(cs: seq<Cluster>, s: seq<nat>, t: seq<nat>, u: seq<nat>)
    requires Ring(cs, s) && Ring(cs, t) && Ring(cs, u) && s[0] != t[0]
    requires forall i, j :: 0 <= i < |s| && 0 <= j < |u| ==> s[i] != u[j]
    requires forall i, j :: 0 <= i < |t| && 0 <= j < |u| ==> t[i] != u[j]
    ensures cs[s[0]].prev < |cs| && cs[t[0]].prev < |cs| && Ring(MergeClusters(cs, s[0], t[0]), u)
  {
  }

  // ------------------------------------------------------------------ clusters

  /** The leader of every node, the order in which nodes stopped being leaders, and the members of
      every leader's cluster. */
  datatype Groups = Groups(rep: seq<nat>, rank: seq<nat>, lists: seq<seq<nat>>)

  ghost function SumSize(c0: seq<Cluster>, s: seq<nat>): nat {
    if s == [] then 0 else SumSize(c0, s[..|s| - 1]) + if s[|s| - 1] < |c0| then c0[s[|s| - 1]].size else 0
  }

  /** Weights are added modulo 2^64. */
  ghost function SumWeight(c0: seq<Cluster>, s: seq<nat>): nat {
    if s == [] then 0
      else (SumWeight(c0, s[..|s| - 1]) + if s[|s| - 1] < |c0| then c0[s[|s| - 1]].weight else 0) % TWO_64
  }

  lemma {:induction false} SizesAppend(c0: seq<Cluster>, s: seq<nat>, t: seq<nat>)
    ensures SumSize(c0, s + t) == SumSize(c0, s) + SumSize(c0, t)
    decreases |t|
  {
    if t == [] {
      assert s + t == s;
    } else {
      var u, st := t[..|t| - 1], s + t;
      assert st[..|st| - 1] == s + u && st[|st| - 1] == t[|t| - 1];
      SizesAppend(c0, s, u);
    }
  }

  lemma {:induction false} WeightsAppend(c0: seq<Cluster>, s: seq<nat>, t: seq<nat>)
    ensures SumWeight(c0, s + t) == (SumWeight(c0, s) + SumWeight(c0, t)) % TWO_64
    decreases |t|
  {
    if t == [] {
      assert s + t == s;
      WeightSmall(c0, s);
    } else {
      var n := |t| - 1;
      var u, st := t[..n], s + t;
      assert st[..|st| - 1] == s + u && st[|st| - 1] == t[n];
      WeightsAppend(c0, s, u);
      var w := if t[n] < |c0| then c0[t[n]].weight else 0;
      AddModulo(SumWeight(c0, s) + SumWeight(c0, u), SumWeight(c0, s), SumWeight(c0, u), w);
    }
  }

  lemma AddModulo(ab: nat, a: nat, b: nat, w: nat)
    requires ab == a + b
    ensures (ab % TWO_64 + w) % TWO_64 == (a + (b + w) % TWO_64) % TWO_64
  {
  }

  lemma {:induction false} WeightSmall(c0: seq<Cluster>, s: seq<nat>)
    ensures SumWeight(c0, s) < TWO_64
  {
  }

  /** A leader's cluster: its members form a circular list that starts with it, they follow no
      other leader, size and weight are the sums over them, and a merged cluster is not too big. */
  ghost predicate RootOk(c0: seq<Cluster>, cs: seq<Cluster>, g: Groups, r: nat)
    requires r < |g.lists|
  {
    var s := g.lists[r];
    Ring(cs, s) && s[0] == r && (forall i :: 0 <= i < |s| ==> s[i] < |g.rep| && g.rep[s[i]] == r) &&
    cs[r].size == SumSize(c0, s) && cs[r].weight == SumWeight(c0, s) && (|s| == 1 || cs[r].size <= MAX_CLUSTER_SIZE)
  }

  ghost predicate VertexOk(c0: seq<Cluster>, cs: seq<Cluster>, g: Groups, v: nat)
    requires v < |c0| == |cs| == |g.rep| == |g.lists|
  {
    (if g.rep[v] == v then RootOk(c0, cs, g, v) else cs[v].size == 0 && cs[v].weight == 0) &&
    g.rep[v] < |g.lists| && g.rep[g.rep[v]] == g.rep[v] && v in g.lists[g.rep[v]] &&
    cs[v].best == c0[v].best && cs[v].initialWeight == c0[v].initialWeight
  }

  ghost function Merged(g: Groups, l: nat, p: nat, k: nat): Groups
    requires l < |g.rank| == |g.lists| && p < |g.lists|
  {
    Groups(Joined(g.rep, l, p), g.rank[l := k], g.lists[p := g.lists[p] + g.lists[l]])
  }

  /** Members of different clusters differ. */
  lemma ListsDisjoint(c0: seq<Cluster>, cs: seq<Cluster>, g: Groups, p: nat, q: nat)
    requires p < |g.lists| && q < |g.lists| && RootOk(c0, cs, g, p) && RootOk(c0, cs, g, q) && p != q
    ensures forall i, j :: 0 <= i < |g.lists[p]| && 0 <= j < |g.lists[q]| ==> g.lists[p][i] != g.lists[q][j]
  {
  }

  /** The cluster that has grown. */
  lemma MergedRoot(c0: seq<Cluster>, cs: seq<Cluster>, g: Groups, l: nat, p: nat, k: nat)
    requires |g.rep| == |g.rank| == |g.lists| == |cs| && l < |cs| && p < |cs| && l != p
    requires RootOk(c0, cs, g, l) && RootOk(c0, cs, g, p) && cs[l].size + cs[p].size <= MAX_CLUSTER_SIZE
    ensures cs[l].prev < |cs| && cs[p].prev < |cs| && RootOk(c0, MergeClusters(cs, p, l), Merged(g, l, p, k), p)
  {
    var s, t := g.lists[p], g.lists[l];
    ListsDisjoint(c0, cs, g, p, l);
    SpliceRings(cs, s, t);
    MergedMembers(g, l, p, k);
    MergedRootSums(c0, cs, s, t);
  }

  lemma MergedMembers(g: Groups, l: nat, p: nat, k: nat)
    requires |g.rep| == |g.rank| == |g.lists| && l < |g.rep| && p < |g.rep| && l != p
    requires forall i :: 0 <= i < |g.lists[l]| ==> g.lists[l][i] < |g.rep| && g.rep[g.lists[l][i]] == l
    requires forall i :: 0 <= i < |g.lists[p]| ==> g.lists[p][i] < |g.rep| && g.rep[g.lists[p][i]] == p
    ensures var h := Merged(g, l, p, k);
      h.lists[p] == g.lists[p] + g.lists[l] &&
      forall i :: 0 <= i < |h.lists[p]| ==> h.lists[p][i] < |h.rep| && h.rep[h.lists[p][i]] == p
  {
  }

  lemma MergedRootSums(c0: seq<Cluster>, cs: seq<Cluster>, s: seq<nat>, t: seq<nat>)
    requires s != [] && t != [] && s[0] < |cs| && t[0] < |cs| && s[0] != t[0] && cs[s[0]].prev < |cs| &&
      cs[t[0]].prev < |cs|
    requires cs[s[0]].size == SumSize(c0, s) && cs[s[0]].weight == SumWeight(c0, s)
    requires cs[t[0]].size == SumSize(c0, t) && cs[t[0]].weight == SumWeight(c0, t)
    requires cs[s[0]].size + cs[t[0]].size <= MAX_CLUSTER_SIZE
    ensures var now := MergeClusters(cs, s[0], t[0]);
      now[s[0]].size == SumSize(c0, s + t) <= MAX_CLUSTER_SIZE && now[s[0]].weight == SumWeight(c0, s + t)
  {
    SizesAppend(c0, s, t);
    WeightsAppend(c0, s, t);
    MergedSums(cs, s[0], t[0]);
  }

  lemma MergedSums(cs: seq<Cluster>, p: nat, l: nat)
    requires p < |cs| && l < |cs| && p != l && cs[p].prev < |cs| && cs[l].prev < |cs|
    ensures var r := MergeClusters(cs, p, l);
      r[p].size == (cs[p].size + cs[l].size) % TWO_64 && r[p].weight == (cs[p].weight + cs[l].weight) % TWO_64 &&
      r[l].size == 0 && r[l].weight == 0 &&
      (forall x :: 0 <= x < |cs| && x != p && x != l ==> r[x].size == cs[x].size && r[x].weight == cs[x].weight) &&
      forall x :: 0 <= x < |cs| ==> r[x].best == cs[x].best && r[x].initialWeight == cs[x].initialWeight
  {
  }

  /** A cluster that takes no part. */
  lemma OtherRoot(c0: seq<Cluster>, cs: seq<Cluster>, g: Groups, l: nat, p: nat, k: nat, q: nat)
    requires |g.rep| == |g.rank| == |g.lists| == |cs| && l < |cs| && p < |cs| && q < |cs| && l != p && q != l && q != p
    requires RootOk(c0, cs, g, l) && RootOk(c0, cs, g, p) && RootOk(c0, cs, g, q)
    ensures cs[l].prev < |cs| && cs[p].prev < |cs| && RootOk(c0, MergeClusters(cs, p, l), Merged(g, l, p, k), q)
  {
    ListsDisjoint(c0, cs, g, p, q);
    ListsDisjoint(c0, cs, g, l, q);
    OtherRings(cs, g.lists[p], g.lists[l], g.lists[q]);
    MergedSums(cs, p, l);
  }

  /** Merging two clusters keeps the partition. */
  lemma MergeKeepsVertices(c0: seq<Cluster>, cs: seq<Cluster>, g: Groups, l: nat, p: nat, k: nat)
    requires |c0| == |cs| == |g.rep| == |g.rank| == |g.lists| && forall v :: 0 <= v < |c0| ==> VertexOk(c0, cs, g, v)
    requires l < |cs| && p < |cs| && l != p && g.rep[l] == l && g.rep[p] == p
    requires cs[l].size + cs[p].size <= MAX_CLUSTER_SIZE
    ensures cs[l].prev < |cs| && cs[p].prev < |cs|
    ensures forall v :: 0 <= v < |c0| ==> VertexOk(c0, MergeClusters(cs, p, l), Merged(g, l, p, k), v)
  {
    assert VertexOk(c0, cs, g, l) && VertexOk(c0, cs, g, p);
    MergedRoot(c0, cs, g, l, p, k);
    MergedSums(cs, p, l);
    var h := Merged(g, l, p, k);
    forall v | 0 <= v < |c0| ensures VertexOk(c0, MergeClusters(cs, p, l), h, v) {
      assert VertexOk(c0, cs, g, v);
      if g.rep[v] == v && v != l && v != p {
        OtherRoot(c0, cs, g, l, p, k, v);
      }
      assert g.rep[v] == l ==> v in g.lists[p] + g.lists[l];
    }
  }

  /** And so does its agreement with the forest, if ranks are given out in order. */
  lemma MergeKeepsForest(leaders: seq<nat>, g: Groups, l: nat, p: nat, k: nat)
    requires Forest(leaders, g.rep, g.rank) && |g.lists| == |g.rep| && l < |g.rep| && p < |g.rep| && l != p
    requires g.rep[l] == l && g.rep[p] == p && Ranked(g, k) && k < |g.rep|
    ensures Forest(leaders[l := p], Joined(g.rep, l, p), g.rank[l := k])
  {
    forall x | 0 <= x < |g.rep| && leaders[x] == l && x != l ensures g.rank[x] < k {
      assert NodeOk(leaders, g.rep, g.rank, x);
    }
    UnionKeepsForest(leaders, g.rep, g.rank, l, p, k);
  }

  /** Nodes that are no longer leaders stopped being so before step `k`. */
  ghost predicate Ranked(g: Groups, k: nat) {
    |g.rank| == |g.rep| && k <= |g.rep| &&
    forall x :: 0 <= x < |g.rep| ==> if g.rep[x] == x then g.rank[x] == |g.rep| else g.rank[x] < k
  }

  // ------------------------------------------------------------------ the clustering, by value

  /** Clusters and groups, without the union-find array. */
  datatype State = State(cs: seq<Cluster>, g: Groups)

  function GetDensity(dens: Density, c: Cluster): real {
    if c.size == 0 then 0.0 else dens(c.weight, c.size)
  }

  /** A quotient by a zero size compares false. */
  predicate NewDensityBad(dens: Density, a: Cluster, b: Cluster) {
    a.size + b.size != 0 &&
    dens((a.weight + b.weight) % TWO_64, a.size + b.size) < GetDensity(dens, a) / (MAX_DENSITY_DEGRADATION as real)
  }

  /** Whether the edge that leads to `c` from the cluster `pred` is worth following. */
  predicate Wanted(dens: Density, c: Cluster, pred: Cluster) {
    (c.size + pred.size) % TWO_64 <= MAX_CLUSTER_SIZE && !NewDensityBad(dens, pred, c)
  }

  predicate Likely(c: Cluster) {
    c.best.Some? && (c.best.value.weight * 10) % TWO_64 > c.initialWeight
  }

  ghost predicate StateOk(c0: seq<Cluster>, s: State) {
    |c0| == |s.cs| == |s.g.rep| == |s.g.rank| == |s.g.lists| && forall v :: 0 <= v < |c0| ==> VertexOk(c0, s.cs, s.g, v)
  }

  /** What processing node `l` as number `k` does: its cluster joins the one of its best predecessor. */
  ghost function Step(dens: Density, c0: seq<Cluster>, s: State, l: nat, k: nat): (r: State)
    requires StateOk(c0, s) && l < |c0| && s.g.rep[l] == l && Edges(c0)
  {
    assert VertexOk(c0, s.cs, s.g, l);
    if !Likely(s.cs[l]) then s
    else
      assert c0[l].best == s.cs[l].best;
      var p := s.g.rep[s.cs[l].best.value.from];
      PredIsRoot(c0, s, l);
      if p == l || !Wanted(dens, s.cs[l], s.cs[p]) then s
      else State(MergeClusters(s.cs, p, l), Merged(s.g, l, p, k))
  }

  /** Edges come from nodes, and sections are smaller than 4 GiB. */
  ghost predicate Edges(c0: seq<Cluster>) {
    forall v :: 0 <= v < |c0| ==> c0[v].size < TWO_32 && (c0[v].best.Some? ==> c0[v].best.value.from < |c0|)
  }

  lemma PredIsRoot(c0: seq<Cluster>, s: State, l: nat)
    requires StateOk(c0, s) && l < |c0| && s.g.rep[l] == l && Edges(c0) && Likely(s.cs[l])
    ensures s.cs[l].best.value.from < |c0|
    ensures var p := s.g.rep[s.cs[l].best.value.from];
      p < |c0| && s.g.rep[p] == p && RootOk(c0, s.cs, s.g, p) && RootOk(c0, s.cs, s.g, l) &&
      s.cs[p].prev < |c0| && s.cs[l].prev < |c0|
  {
    assert VertexOk(c0, s.cs, s.g, l);
    var f := s.cs[l].best.value.from;
    assert VertexOk(c0, s.cs, s.g, f);
    var p := s.g.rep[f];
    var i: nat :| i < |s.g.lists[p]| && s.g.lists[p][i] == f;
    assert VertexOk(c0, s.cs, s.g, p);
  }

  lemma StepOk(dens: Density, c0: seq<Cluster>, s: State, l: nat, k: nat)
    requires StateOk(c0, s) && l < |c0| && s.g.rep[l] == l && Edges(c0) && SizesSmall(s.cs)
    ensures StateOk(c0, Step(dens, c0, s, l, k)) && SizesSmall(Step(dens, c0, s, l, k).cs)
    ensures forall v :: 0 <= v < |c0| && v != l && s.g.rep[v] == v ==> Step(dens, c0, s, l, k).g.rep[v] == v
  {
    if Likely(s.cs[l]) {
      PredIsRoot(c0, s, l);
      var p := s.g.rep[s.cs[l].best.value.from];
      if p != l && Wanted(dens, s.cs[l], s.cs[p]) {
        assert s.cs[l].size < TWO_32 && s.cs[p].size < TWO_32;
        MergeKeepsVertices(c0, s.cs, s.g, l, p, k);
        MergedSums(s.cs, p, l);
      }
    }
  }

  /** The cluster of `l` joins another one exactly if it has a best edge of more than a tenth of its
      initial weight, the caller belongs to another cluster, the two are together at most 1 MiB, and
      the density of the union is at least an eighth of that of the caller's cluster. */
  ghost predicate Joinable(dens: Density, cs: seq<Cluster>, rep: seq<nat>, l: nat)
    requires l < |cs| == |rep|
  {
    cs[l].best.Some? && cs[l].best.value.from < |rep| && rep[cs[l].best.value.from] < |cs| &&
    (cs[l].best.value.weight * 10) % 0x1_0000_0000_0000_0000 > cs[l].initialWeight &&
    rep[cs[l].best.value.from] != l &&
    var leader := cs[rep[cs[l].best.value.from]];
    leader.size + cs[l].size <= 1048576 &&
    (leader.size + cs[l].size == 0 ||
     dens((leader.weight + cs[l].weight) % 0x1_0000_0000_0000_0000, leader.size + cs[l].size) >=
       (if leader.size == 0 then 0.0 else dens(leader.weight, leader.size)) / 8.0)
  }

  lemma JoinableIs(dens: Density, c0: seq<Cluster>, s: State, l: nat)
    requires StateOk(c0, s) && l < |c0| && s.g.rep[l] == l && Edges(c0) && SizesSmall(s.cs)
    ensures Joinable(dens, s.cs, s.g.rep, l) <==>
      Likely(s.cs[l]) && s.cs[l].best.value.from < |c0| &&
      var p := s.g.rep[s.cs[l].best.value.from];
      p < |c0| && p != l && Wanted(dens, s.cs[l], s.cs[p])
  {
    if Likely(s.cs[l]) {
      PredIsRoot(c0, s, l);
      var p := s.g.rep[s.cs[l].best.value.from];
      assert s.cs[l].size < TWO_32 && s.cs[p].size < TWO_32;
    }
  }

  /** Then its members follow the caller's leader, after the members that do so already; otherwise
      nothing happens. */
  lemma StepJoinsIff(dens: Density, c0: seq<Cluster>, s: State, l: nat, k: nat)
    requires StateOk(c0, s) && l < |c0| && s.g.rep[l] == l && Edges(c0) && SizesSmall(s.cs)
    ensures var r := Step(dens, c0, s, l, k);
      (r.g.rep[l] != l <==> Joinable(dens, s.cs, s.g.rep, l)) &&
      (!Joinable(dens, s.cs, s.g.rep, l) ==> r == s) &&
      (Joinable(dens, s.cs, s.g.rep, l) ==>
         var p := s.g.rep[s.cs[l].best.value.from];
         |r.g.rep| == |r.g.lists| == |c0| && p < |r.g.lists| && r.g.lists[p] == s.g.lists[p] + s.g.lists[l] &&
         forall x :: 0 <= x < |c0| ==> r.g.rep[x] == if s.g.rep[x] == l then p else s.g.rep[x])
  {
    JoinableIs(dens, c0, s, l);
    if Likely(s.cs[l]) {
      PredIsRoot(c0, s, l);
    }
  }

  ghost predicate SizesSmall(cs: seq<Cluster>) {
    forall v :: 0 <= v < |cs| ==> cs[v].size < TWO_32
  }

  /** Every node a cluster of its own. */
  ghost predicate IsStart(c0: seq<Cluster>, s: State) {
    s.cs == c0 && |s.g.rep| == |s.g.rank| == |s.g.lists| == |c0| &&
    forall v :: 0 <= v < |c0| ==> s.g.rep[v] == v && s.g.rank[v] == |c0| && s.g.lists[v] == [v]
  }

  ghost predicate Singletons(c0: seq<Cluster>) {
    Edges(c0) && forall v :: 0 <= v < |c0| ==> c0[v].next == v && c0[v].prev == v && c0[v].weight < TWO_64
  }

  lemma StartOk(c0: seq<Cluster>, s: State)
    requires IsStart(c0, s) && Singletons(c0)
    ensures StateOk(c0, s) && SizesSmall(s.cs)
  {
    forall v | 0 <= v < |c0| ensures VertexOk(c0, s.cs, s.g, v) {
      assert s.g.lists[v] == [v];
      assert SumSize(c0, [v][..0]) == 0 && SumWeight(c0, [v][..0]) == 0;
    }
  }

  /** The clustering after the first `k` nodes of `order`. */
  ghost function Steps(dens: Density, c0: seq<Cluster>, start: State, order: seq<nat>, k: nat): (r: State)
    requires Singletons(c0) && IsStart(c0, start) && Within(order, |c0|) && Distinct(order) && k <= |order|
    ensures StateOk(c0, r) && SizesSmall(r.cs) && forall j :: k <= j < |order| ==> r.g.rep[order[j]] == order[j]
  {
    StartOk(c0, start);
    if k == 0 then start
    else
      var j := k - 1;
      var l, s := order[j], Steps(dens, c0, start, order, j);
      StepOk(dens, c0, s, l, j);
      assert forall i :: k <= i < |order| ==> order[i] != l;
      Step(dens, c0, s, l, j)
  }
}
