/** Directed graphs over node names, given by an adjacency map: walks, cycles, longest walks. */
module Graphs {

  type Graph = map<string, set<string>>

  /** Every edge leads to a node of the graph. */
  ghost predicate Closed(g: Graph) {
    forall n, c :: n in g && c in g[n] ==> c in g
  }

  /** A non-empty sequence of nodes, each one reached by an edge from the one before it. */
  ghost predicate Walk(g: Graph, p: seq<string>) {
    && |p| > 0
    && (forall i :: 0 <= i < |p| ==> p[i] in g)
    && (forall i, j :: 0 <= i < |p| && j == i + 1 < |p| ==> p[j] in g[p[i]])
  }

  /** No walk of one step or more returns to the node it started from. */
  ghost predicate Acyclic(g: Graph) {
    forall p :: Walk(g, p) && |p| >= 2 ==> p[0] != p[|p| - 1]
  }

  /** Some walk of exactly `steps` edges starts at n. */
  ghost predicate HasWalk(g: Graph, n: string, steps: int) {
    exists p :: Walk(g, p) && p[0] == n && |p| == steps + 1
  }

  /** Some walk has `steps` edges or more. */
  ghost predicate HasLongWalk(g: Graph, steps: int) {
    exists p :: Walk(g, p) && |p| >= steps + 1
  }

  /** The longest walk that starts at n has exactly `steps` edges. */
  ghost predicate LongestFrom(g: Graph, n: string, steps: int) {
    && HasWalk(g, n, steps)
    && forall p :: Walk(g, p) && p[0] == n ==> |p| <= steps + 1
  }

  /** Each rank is the length of the longest caller-to-callee walk from its node. */
  ghost predicate LongestRanks(g: Graph, rank: map<string, int>) {
    && rank.Keys == g.Keys
    && forall n {:trigger rank[n]} :: n in g ==> LongestFrom(g, n, rank[n])
  }

  /** Every caller outranks each of its callees. */
  ghost predicate Quiescent(g: Graph, rank: map<string, int>) {
    && g.Keys <= rank.Keys
    && (forall n :: n in g ==> rank[n] >= 0)
    && (forall n, c :: n in g && c in g[n] && c in g ==> rank[n] > rank[c])
  }

  lemma WalkStep(g: Graph, p: seq<string>, i: nat)
    requires Walk(g, p)
    ensures i + 1 < |p| ==> p[i] in g && p[i + 1] in g[p[i]]
  {
  }

  lemma WalkPrepend(g: Graph, n: string, p: seq<string>)
    requires Walk(g, p) && n in g && p[0] in g[n]
    ensures Walk(g, [n] + p)
  {
    var q := [n] + p;
    forall i, j | 0 <= i < |q| && j == i + 1 < |q|
      ensures q[i] in g && q[j] in g[q[i]]
    {
      if i > 0 {
        assert q[i] == p[i - 1] && q[j] == p[i];
      }
    }
  }

  lemma WalkSlice(g: Graph, p: seq<string>, i: nat, j: nat)
    requires Walk(g, p) && i < j <= |p|
    ensures Walk(g, p[i..j]) && p[i..j][0] == p[i] && p[i..j][j - i - 1] == p[j - 1]
  {
    var q := p[i..j];
    forall k, m | 0 <= k < |q| && m == k + 1 < |q|
      ensures q[m] in g[q[k]]
    {
      assert q[k] == p[i + k] && q[m] == p[i + m];
    }
  }

  /** A walk without repetitions has at most as many nodes as the graph. */
  lemma {:induction false} DistinctIsShort(p: seq<string>, nodes: set<string>)
    requires forall i, j :: 0 <= i < j < |p| ==> p[i] != p[j]
    requires forall i :: 0 <= i < |p| ==> p[i] in nodes
    ensures |p| <= |nodes|
  {
    if p != [] {
      forall i | 0 <= i < |p[1..]|
        ensures p[1..][i] in nodes - {p[0]}
      {
        assert p[1..][i] == p[i + 1];
      }
      DistinctIsShort(p[1..], nodes - {p[0]});
    }
  }

  lemma AcyclicNeverRepeats(g: Graph, p: seq<string>, i: nat, j: nat)
    requires Acyclic(g) && Walk(g, p) && i < j < |p|
    ensures p[i] != p[j]
  {
    WalkSlice(g, p, i, j + 1);
    assert |p[i..j + 1]| == j + 1 - i;
  }

  /** In an acyclic graph a walk never repeats a node, so its length is bounded by the node count. */
  lemma AcyclicBoundsWalks(g: Graph, steps: int)
    requires Acyclic(g) && HasLongWalk(g, steps)
    ensures steps < |g|
  {
    var p :| Walk(g, p) && |p| >= steps + 1;
    forall i, j | 0 <= i < j < |p|
      ensures p[i] != p[j]
    {
      AcyclicNeverRepeats(g, p, i, j);
    }
    DistinctIsShort(p, g.Keys);
  }

  /** Ranks that fall along every edge bound the walks from a node by its rank. */
  lemma {:induction false} RankBoundsWalk(g: Graph, rank: map<string, int>, p: seq<string>)
    requires Quiescent(g, rank) && Walk(g, p)
    ensures |p| - 1 + rank[p[|p| - 1]] <= rank[p[0]]
  {
    if |p| > 1 {
      WalkSlice(g, p, 1, |p|);
      RankBoundsWalk(g, rank, p[1..]);
      assert p[1] in g[p[0]];
    }
  }

  /** A graph with a cycle has no quiescent ranking: on it the promotion loop never stops. */
  lemma CyclicNeverQuiescent(g: Graph, rank: map<string, int>, p: seq<string>)
    requires Walk(g, p) && |p| >= 2 && p[0] == p[|p| - 1]
    ensures !Quiescent(g, rank)
  {
    if Quiescent(g, rank) {
      RankBoundsWalk(g, rank, p);
    }
  }
  // ---- the ranking by longest walks ----

  /** The longest walk of at most k edges from n. */
  ghost function LongestUpTo(g: Graph, n: string, k: nat): nat {
    if k == 0 || HasWalk(g, n, k) then k else LongestUpTo(g, n, k - 1)
  }

  /** Each node with the length of the longest walk from it. */
  ghost function LongestRanking(g: Graph): map<string, int> {
    map n | n in g :: LongestUpTo(g, n, |g|)
  }

  lemma {:induction false} LongestUpToIsLongest(g: Graph, n: string, k: nat)
    requires n in g && forall p :: Walk(g, p) && p[0] == n ==> |p| <= k + 1
    ensures LongestFrom(g, n, LongestUpTo(g, n, k))
  {
    if k == 0 {
      assert Walk(g, [n]) && [n][0] == n;
    } else if !HasWalk(g, n, k) {
      LongestUpToIsLongest(g, n, k - 1);
    }
  }

  lemma LongestRankingIsLongest(g: Graph, n: string)
    requires Acyclic(g) && n in g
    ensures LongestFrom(g, n, LongestRanking(g)[n])
  {
    hide LongestFrom, Acyclic, LongestUpTo;
    forall p | Walk(g, p) && p[0] == n
      ensures |p| <= |g| + 1
    {
      assert HasLongWalk(g, |p| - 1);
      AcyclicBoundsWalks(g, |p| - 1);
    }
    LongestUpToIsLongest(g, n, |g|);
  }

  /** An acyclic graph has exactly one ranking by longest walks. */
  lemma LongestRankingIsTheOne(g: Graph, rank: map<string, int>)
    requires Acyclic(g)
    ensures LongestRanks(g, rank) <==> rank == LongestRanking(g)
  {
    hide LongestFrom, Acyclic, LongestUpTo;
    forall n | n in g
      ensures LongestFrom(g, n, LongestRanking(g)[n])
    {
      LongestRankingIsLongest(g, n);
    }
    if LongestRanks(g, rank) {
      forall n | n in g
        ensures rank[n] == LongestRanking(g)[n]
      {
        SameLongest(g, n, rank[n], LongestRanking(g)[n]);
      }
    }
  }

  lemma SameLongest(g: Graph, n: string, a: int, b: int)
    requires LongestFrom(g, n, a) && LongestFrom(g, n, b)
    ensures a == b
  {
    var p :| Walk(g, p) && p[0] == n && |p| == a + 1;
    var q :| Walk(g, q) && q[0] == n && |q| == b + 1;
  }

  lemma LongestIsQuiescent(g: Graph, rank: map<string, int>)
    requires LongestRanks(g, rank)
    ensures Quiescent(g, rank)
  {
    forall n | n in g
      ensures rank[n] >= 0
    {
      assert LongestFrom(g, n, rank[n]);
    }
    forall n, c | n in g && c in g[n] && c in g
      ensures rank[n] > rank[c]
    {
      assert LongestFrom(g, c, rank[c]) && LongestFrom(g, n, rank[n]);
      var p :| Walk(g, p) && p[0] == c && |p| == rank[c] + 1;
      WalkPrepend(g, n, p);
      assert ([n] + p)[0] == n;
    }
  }

  // ---- nodes that are their own callees ----

  /** Every node with the callees other than itself. */
  ghost function Others(g: Graph): Graph {
    map n | n in g :: g[n] - {n}
  }

  /** The callees that are looked at when callees are visited by address and a node that meets itself
      looks no further. */
  ghost function Followed(g: Graph, address: string -> int): Graph {
    map n | n in g :: set c | c in g[n] && (n in g[n] ==> address(c) < address(n))
  }

  /** A node that is its own callee has no other. */
  ghost predicate LoneSelfCallees(g: Graph) {
    forall n :: n in g && n in g[n] ==> g[n] == {n}
  }

  lemma LoneSelfCalleesAllFollowed(g: Graph, address: string -> int)
    requires LoneSelfCallees(g)
    ensures Followed(g, address) == Others(g)
  {
    forall n | n in g
      ensures Followed(g, address)[n] == Others(g)[n]
    {
      assert n in g[n] ==> g[n] == {n};
    }
  }

  /** Fewer edges make no cycle. */
  lemma FollowedIsAcyclic(g: Graph, address: string -> int)
    requires Acyclic(Others(g))
    ensures Acyclic(Followed(g, address))
  {
    var f, o := Followed(g, address), Others(g);
    forall p | Walk(f, p) && |p| >= 2
      ensures p[0] != p[|p| - 1]
    {
      assert forall n :: n in f ==> n in o && f[n] <= o[n];
      assert Walk(o, p);
    }
  }
}

/** The call-graph view: a node per factory, ranked so that callers sit above their callees. */
module CallGraph {
  import opened Graphs

  /** A node of the drawing. `address` is where the allocator put it: it fixes the order in
      which a set of node pointers is walked. */
  class CGobj {
    const nametag: string
    const address: int
    var rank: int
    var callees: set<CGobj>

    constructor (nametag: string, address: int)
      ensures this.nametag == nametag && this.address == address
      ensures rank == 0 && callees == {}
    {
      this.nametag, this.address := nametag, address;
      rank, callees := 0, {};
    }
  }

  type Nodes = map<string, CGobj>

  /** The node table is keyed by nametag, callees are in the table and addresses are distinct. */
  ghost predicate Valid(cg: Nodes)
    reads cg.Values`callees
  {
    && (forall n :: n in cg ==> cg[n].nametag == n)
    && (forall n, c :: n in cg && c in cg[n].callees ==> c.nametag in cg && cg[c.nametag] == c)
    && (forall m, n :: m in cg && n in cg && m != n ==> cg[m].address != cg[n].address)
  }

  /** The callees the promotion loop looks at: all of them, or, when the node is listed as its
      own callee, those that come before it in address order. */
  ghost function Promoting(o: CGobj): set<CGobj>
    reads o`callees
  {
    set c | c in o.callees && (o in o.callees ==> c.address < o.address)
  }

  /** The call graph by name, as far as the promotion loop follows it. */
  ghost function GraphOf(cg: Nodes): Graph
    reads cg.Values`callees
  {
    map n | n in cg :: set c | c in Promoting(cg[n]) :: c.nametag
  }

  ghost function Ranks(cg: Nodes): map<string, int>
    reads cg.Values`rank
  {
    map n | n in cg :: cg[n].rank
  }

  lemma LeastAddress(s: set<CGobj>)
    requires s != {}
    ensures exists c :: c in s && forall d :: d in s ==> c.address <= d.address
  {
    var c :| c in s;
    if s != {c} {
      LeastAddress(s - {c});
      var e :| e in s - {c} && forall d :: d in s - {c} ==> e.address <= d.address;
      if c.address <= e.address {
        assert forall d :: d in s ==> c.address <= d.address;
      } else {
        assert forall d :: d in s ==> e.address <= d.address;
      }
    } else {
      assert forall d :: d in s ==> c.address <= d.address;
    }
  }

  /** One node's turn: raise it just above every callee looked at. */
  method Promote(o: CGobj) returns (changed: bool)
    requires forall c, d :: c in o.callees + {o} && d in o.callees + {o} && c != d ==> c.address != d.address
    modifies o`rank
    ensures changed <==> o.rank != old(o.rank)
    ensures o.rank >= old(o.rank)
    ensures forall c :: c in Promoting(o) ==> o.rank > c.rank
    ensures o.rank == old(o.rank) || exists c :: c in Promoting(o) && o.rank == c.rank + 1
  {
    changed := false;
    var todo := o.callees;
    while todo != {}
      invariant todo <= o.callees
      invariant forall c, d :: c in o.callees - todo && d in todo ==> c.address < d.address
      invariant o !in o.callees - todo
      invariant changed <==> o.rank != old(o.rank)
      invariant o.rank >= old(o.rank)
      invariant forall c :: c in o.callees - todo ==> o.rank > c.rank
      invariant o.rank == old(o.rank) || exists c :: c in Promoting(o) && o.rank == c.rank + 1
      decreases todo
    {
      LeastAddress(todo);
      var c :| c in todo && forall d :: d in todo ==> c.address <= d.address;
      if c == o {
        break; // listed as our own callee: the rest is not looked at
      }
      if c.rank >= o.rank {
        assert c in Promoting(o);
        o.rank := c.rank + 1;
        changed := true;
      }
      todo := todo - {c};
    }
  }

  /** Every rank is the length of some walk from its node. */
  ghost predicate Sound(g: Graph, rank: map<string, int>) {
    && rank.Keys == g.Keys
    && forall n {:trigger HasWalk(g, n, rank[n])} :: n in rank ==> HasWalk(g, n, rank[n])
  }

  /** Every walk of at most `steps` edges is accounted for in the rank of its head. */
  ghost predicate Covers(g: Graph, rank: map<string, int>, steps: int) {
    && rank.Keys == g.Keys
    && forall p :: Walk(g, p) && |p| <= steps + 1 ==> rank[p[0]] >= |p| - 1
  }

  /** What one pass does to the ranks: none falls, and each node ends above every rank that one
      of its callees had when the pass began. */
  ghost predicate PassMoves(g: Graph, before: map<string, int>, after: map<string, int>) {
    && before.Keys == g.Keys && after.Keys == g.Keys
    && (forall n :: n in g ==> after[n] >= before[n])
    && (forall n, c :: n in g && c in g[n] && c in g ==> after[n] > before[c])
  }

  lemma AllZero(g: Graph, rank: map<string, int>)
    requires rank.Keys == g.Keys && forall n :: n in rank ==> rank[n] == 0
    ensures Sound(g, rank) && Covers(g, rank, 0)
  {
    forall n | n in g
      ensures HasWalk(g, n, 0)
    {
      assert Walk(g, [n]) && [n][0] == n;
    }
  }

  lemma PassCoversOneMore(g: Graph, before: map<string, int>, after: map<string, int>, steps: nat)
    requires PassMoves(g, before, after) && Covers(g, before, steps) && Sound(g, before)
    ensures Covers(g, after, steps + 1)
  {
    forall p | Walk(g, p) && |p| <= steps + 2
      ensures after[p[0]] >= |p| - 1
    {
      assert p[0] in g;
      if |p| > 1 {
        WalkSlice(g, p, 1, |p|);
        var q := p[1..];
        assert q[0] == p[1] && p[1] in g[p[0]] && p[1] in g;
        assert before[q[0]] >= |q| - 1;
      } else {
        assert HasWalk(g, p[0], before[p[0]]);
      }
    }
  }

  /** A rank that still grows, once all walks of `steps` edges are accounted for, shows a walk
      that is longer than all of those. */
  lemma GrowthShowsLongerWalk(g: Graph, before: map<string, int>, after: map<string, int>, n: string, steps: nat)
    requires Covers(g, before, steps) && Sound(g, after) && n in g && after[n] > before[n]
    ensures HasLongWalk(g, steps + 1)
  {
    assert HasWalk(g, n, after[n]);
    var p :| Walk(g, p) && p[0] == n && |p| == after[n] + 1;
    assert |p| >= steps + 2;
  }

  lemma QuietPassIsQuiescent(g: Graph, before: map<string, int>, rank: map<string, int>)
    requires PassMoves(g, before, rank) && before == rank && Sound(g, rank)
    ensures Quiescent(g, rank)
  {
    forall n | n in g
      ensures rank[n] >= 0
    {
      assert HasWalk(g, n, rank[n]);
    }
  }

  lemma QuiescentIsLongest(g: Graph, rank: map<string, int>)
    requires Sound(g, rank) && Quiescent(g, rank)
    ensures LongestRanks(g, rank)
  {
    forall n, p | n in g && Walk(g, p) && p[0] == n
      ensures |p| <= rank[n] + 1
    {
      assert HasWalk(g, n, rank[n]);
      RankBoundsWalk(g, rank, p);
    }
  }

  /** What one node's turn does to the ranks. */
  ghost predicate Promoted(g: Graph, before: map<string, int>, after: map<string, int>, n: string) {
    && n in g && before.Keys == g.Keys && after.Keys == g.Keys
    && after == before[n := after[n]]
    && after[n] >= before[n]
    && (forall c :: c in g[n] && c in g ==> after[n] > before[c])
    && (after[n] == before[n] || exists c :: c in g[n] && c in g && after[n] == before[c] + 1)
  }

  lemma PromotedStaysSound(g: Graph, before: map<string, int>, after: map<string, int>, n: string)
    requires Sound(g, before) && Promoted(g, before, after, n)
    ensures Sound(g, after)
  {
    if after[n] != before[n] {
      var c :| c in g[n] && c in g && after[n] == before[c] + 1;
      assert HasWalk(g, c, before[c]);
      var p :| Walk(g, p) && p[0] == c && |p| == before[c] + 1;
      WalkPrepend(g, n, p);
      assert ([n] + p)[0] == n && |[n] + p| == after[n] + 1;
    }
  }

  lemma EdgesOf(cg: Nodes, n: string)
    requires Valid(cg) && n in cg
    ensures GraphOf(cg).Keys == cg.Keys
    ensures forall c :: c in GraphOf(cg)[n] ==> c in cg && cg[c] in Promoting(cg[n])
    ensures forall o :: o in Promoting(cg[n]) ==> o.nametag in GraphOf(cg)[n] && o.nametag in cg && cg[o.nametag] == o
  {
  }

  lemma OneOfTheNodes(cg: Nodes, n: string)
    requires Valid(cg) && n in cg
    ensures forall c, d :: c in cg[n].callees + {cg[n]} && d in cg[n].callees + {cg[n]} && c != d ==>
            c.address != d.address
    ensures forall m :: m in cg && m != n ==> cg[m] != cg[n]
  {
    assert forall c :: c in cg[n].callees + {cg[n]} ==> c.nametag in cg && cg[c.nametag] == c;
  }

  /** Promote, seen as a move of the rank table. */
  method PromoteNode(cg: Nodes, name: string) returns (changed: bool)
    requires Valid(cg) && name in cg
    modifies {cg[name]}`rank
    ensures Valid(cg) && GraphOf(cg) == old(GraphOf(cg))
    ensures Promoted(GraphOf(cg), old(Ranks(cg)), Ranks(cg), name)
    ensures changed <==> Ranks(cg)[name] > old(Ranks(cg))[name]
  {
    hide Promoting, GraphOf;
    var o := cg[name];
    OneOfTheNodes(cg, name);
    EdgesOf(cg, name);
    changed := Promote(o);
    assert Ranks(cg) == old(Ranks(cg))[name := o.rank];
    if changed {
      ghost var c :| c in Promoting(o) && o.rank == c.rank + 1;
      assert c.nametag in GraphOf(cg)[name];
    }
  }

  /** A pass under way: the first `done` of the names have had their turn. */
  ghost predicate PassUnderWay(g: Graph, names: seq<string>, done: nat,
                               start: map<string, int>, now: map<string, int>) {
    && done <= |names| && start.Keys == g.Keys && now.Keys == g.Keys
    && (forall n :: n in g ==> now[n] >= start[n])
    && (forall n, c :: n in names[..done] && n in g && c in g[n] && c in g ==> now[n] > start[c])
  }

  lemma PassGoesOn(g: Graph, names: seq<string>, done: nat, start: map<string, int>, now: map<string, int>,
                   next: map<string, int>)
    requires PassUnderWay(g, names, done, start, now) && done < |names|
    requires Promoted(g, now, next, names[done])
    ensures PassUnderWay(g, names, done + 1, start, next)
  {
    assert names[..done + 1] == names[..done] + [names[done]];
  }

  /** One pass over all nodes in the order of their names. */
  method Pass(cg: Nodes, names: seq<string>) returns (changed: bool)
    requires Valid(cg) && (set n | n in names) == cg.Keys
    requires Sound(GraphOf(cg), Ranks(cg))
    modifies cg.Values`rank
    ensures Valid(cg) && GraphOf(cg) == old(GraphOf(cg))
    ensures Sound(GraphOf(cg), Ranks(cg))
    ensures PassMoves(GraphOf(cg), old(Ranks(cg)), Ranks(cg))
    ensures !changed ==> Ranks(cg) == old(Ranks(cg))
    ensures changed ==> exists n :: n in cg && Ranks(cg)[n] > old(Ranks(cg))[n]
  {
    changed := false;
    ghost var g, start := GraphOf(cg), Ranks(cg);
    var i := 0;
    while i < |names|
      invariant 0 <= i <= |names|
      invariant Valid(cg) && GraphOf(cg) == g
      invariant Sound(g, Ranks(cg)) && PassUnderWay(g, names, i, start, Ranks(cg))
      invariant !changed ==> Ranks(cg) == start
      invariant changed ==> exists n :: n in g && Ranks(cg)[n] > start[n]
    {
      assert names[i] in cg.Keys;
      ghost var now := Ranks(cg);
      var raised := PromoteNode(cg, names[i]);
      ghost var next := Ranks(cg);
      PromotedStaysSound(g, now, next, names[i]);
      PassGoesOn(g, names, i, start, now, next);
      changed := changed || raised;
      i := i + 1;
    }
    assert names[..i] == names;
  }

  /** The promotion loop: passes until one changes nothing. */
  method PromoteCallers(cg: Nodes, names: seq<string>) returns (passes: nat)
    requires Valid(cg) && (set n | n in names) == cg.Keys
    requires forall n :: n in cg ==> cg[n].rank == 0
    requires Acyclic(GraphOf(cg))
    modifies cg.Values`rank
    ensures Quiescent(GraphOf(cg), Ranks(cg))
    ensures LongestRanks(GraphOf(cg), Ranks(cg))
    ensures passes >= 1 && (passes > 1 ==> HasLongWalk(GraphOf(cg), passes - 1))
  {
    passes := 0;
    ghost var g := GraphOf(cg);
    AllZero(g, Ranks(cg));
    var nothingChanged := false;
    while !nothingChanged
      invariant Valid(cg) && GraphOf(cg) == g && Sound(g, Ranks(cg))
      invariant !nothingChanged ==> Covers(g, Ranks(cg), passes)
      invariant !nothingChanged && passes > 0 ==> HasLongWalk(g, passes)
      invariant nothingChanged ==> passes >= 1 && Quiescent(g, Ranks(cg))
      invariant nothingChanged && passes > 1 ==> HasLongWalk(g, passes - 1)
      decreases !nothingChanged, |g| - passes
    {
      ghost var before := Ranks(cg);
      var changed := Pass(cg, names);
      ghost var after := Ranks(cg);
      if changed {
        ghost var n :| n in cg && after[n] > before[n];
        GrowthShowsLongerWalk(g, before, after, n, passes);
        AcyclicBoundsWalks(g, passes + 1);
        PassCoversOneMore(g, before, after, passes);
      } else {
        QuietPassIsQuiescent(g, before, after);
      }
      nothingChanged := !changed;
      passes := passes + 1;
    }
    QuiescentIsLongest(g, Ranks(cg));
  }

  /** The nodes with all their callees, by name. */
  ghost function Adjacency(cg: Nodes): Graph
    reads cg.Values`callees
  {
    map n | n in cg :: CalleeNames(cg[n])
  }

  ghost function CalleeNames(o: CGobj): set<string>
    reads o`callees
  {
    set c | c in o.callees :: c.nametag
  }

  /** The promotion loop follows a node's callees as Followed says. */
  lemma GraphIsFollowed(cg: Nodes, address: string -> int)
    requires Valid(cg) && forall n :: n in cg ==> cg[n].address == address(n)
    ensures GraphOf(cg) == Followed(Adjacency(cg), address)
  {
    forall n | n in cg
      ensures GraphOf(cg)[n] == Followed(Adjacency(cg), address)[n]
    {
      NodeFollows(cg, address, n);
    }
  }

  lemma NodeFollows(cg: Nodes, address: string -> int, n: string)
    requires Valid(cg) && n in cg && forall m :: m in cg ==> cg[m].address == address(m)
    ensures GraphOf(cg)[n] == Followed(Adjacency(cg), address)[n]
  {
    assert forall c :: c in cg[n].callees ==> c.nametag in cg && cg[c.nametag] == c && c.address == address(c.nametag);
    assert n in Adjacency(cg)[n] <==> cg[n] in cg[n].callees;
  }

  lemma EdgelessRanks(g: Graph, rank: map<string, int>)
    requires LongestRanks(g, rank) && forall n :: n in g ==> g[n] == {}
    ensures forall n :: n in g ==> rank[n] == 0
  {
    var zero := map n | n in g :: 0;
    assert Quiescent(g, zero);
    forall n | n in g
      ensures rank[n] == 0
    {
      assert HasWalk(g, n, rank[n]);
      var p :| Walk(g, p) && p[0] == n && |p| == rank[n] + 1;
      RankBoundsWalk(g, zero, p);
    }
  }
}
