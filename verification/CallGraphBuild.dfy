/** From the event loop's call stack to a ranked call graph. */
module CallGraphBuild {
  import opened Arith
  import opened Graphs
  import opened CallGraph

  /** One entry of the call stack. */
  datatype Call = Call(callerName: string, callerTag: string, calleeName: string, calleeTag: string)
  {
    function Caller(): string { MakeNametag(callerName, callerTag) }
    function Callee(): string { MakeNametag(calleeName, calleeTag) }
  }

  function MakeNametag(name: string, tag: string): string {
    if |tag| > 0 then name + ":" + tag else name
  }

  /** A call enters the graph. A call of a factory to itself that is the first entry to mention it
      leaves no edge: the node that gets the edge is replaced at once by a second new node. */
  ghost function WithCall(g: Graph, caller: string, callee: string): Graph {
    if caller == callee && caller !in g then
      g[caller := {}]
    else
      var callees := if caller in g then g[caller] else {};
      (if callee in g then g else g[callee := {}])[caller := callees + {callee}]
  }

  /** The graph that a call stack describes. */
  ghost function Recorded(stack: seq<Call>): Graph {
    if stack == [] then map[]
    else
      var last := stack[|stack| - 1];
      var g := Recorded(stack[..|stack| - 1]);
      if last.Caller() == "<ignore>" then g else WithCall(g, last.Caller(), last.Callee())
  }

  /** Entry k names b as a callee of a, and is not a first mention of a factory calling itself. */
  ghost predicate EntryCalls(stack: seq<Call>, k: nat, a: string, b: string)
    requires k < |stack|
  {
    && stack[k].Caller() == a && stack[k].Callee() == b && a != "<ignore>"
    && (a == b ==> a in Recorded(stack[..k]))
  }

  lemma WithCallEdge(g: Graph, caller: string, callee: string, a: string, b: string)
    requires Closed(g)
    ensures Closed(WithCall(g, caller, callee))
    ensures (a in WithCall(g, caller, callee) && b in WithCall(g, caller, callee)[a]) <==>
            (a in g && b in g[a]) || (a == caller && b == callee && (a == b ==> a in g))
  {
  }

  lemma EntryCallsPrefix(stack: seq<Call>, n: nat, k: nat, a: string, b: string)
    requires k < n <= |stack|
    ensures EntryCalls(stack[..n], k, a, b) <==> EntryCalls(stack, k, a, b)
  {
    hide Recorded;
    assert stack[..n][..k] == stack[..k];
  }

  ghost predicate SomeEntryCalls(stack: seq<Call>, a: string, b: string) {
    exists k :: 0 <= k < |stack| && EntryCalls(stack, k, a, b)
  }

  lemma OneMoreEntry(stack: seq<Call>, a: string, b: string)
    requires stack != []
    ensures SomeEntryCalls(stack, a, b) <==>
            SomeEntryCalls(stack[..|stack| - 1], a, b) || EntryCalls(stack, |stack| - 1, a, b)
  {
    hide EntryCalls;
    var n := |stack| - 1;
    forall k | 0 <= k < n
      ensures EntryCalls(stack[..n], k, a, b) <==> EntryCalls(stack, k, a, b)
    {
      EntryCallsPrefix(stack, n, k, a, b);
    }
    if SomeEntryCalls(stack[..n], a, b) {
      var k :| 0 <= k < n && EntryCalls(stack[..n], k, a, b);
      assert EntryCalls(stack, k, a, b);
    }
    if SomeEntryCalls(stack, a, b) && !EntryCalls(stack, n, a, b) {
      var k :| 0 <= k < |stack| && EntryCalls(stack, k, a, b);
      assert EntryCalls(stack[..n], k, a, b);
    }
  }

  /** b is recorded as a callee of a exactly when some entry of the stack says so. */
  lemma {:induction false} RecordedEdge(stack: seq<Call>, a: string, b: string)
    ensures Closed(Recorded(stack))
    ensures (a in Recorded(stack) && b in Recorded(stack)[a]) <==> SomeEntryCalls(stack, a, b)
    decreases |stack|
  {
    hide WithCall, Closed;
    if stack == [] {
      NoEdges();
    } else {
      var n := |stack| - 1;
      RecordedEdge(stack[..n], a, b);
      OneMoreEntry(stack, a, b);
      WithCallEdge(Recorded(stack[..n]), stack[n].Caller(), stack[n].Callee(), a, b);
    }
  }

  lemma NoEdges()
    ensures Closed(map[])
  {
  }

  // ---- building the nodes ----

  ghost predicate PlacedBy(cg: Nodes, address: string -> int)
    reads cg.Values`rank
  {
    forall n :: n in cg ==> cg[n].address == address(n) && cg[n].rank == 0
  }

  ghost predicate Injective(address: string -> int) {
    forall m, n :: address(m) == address(n) ==> m == n
  }

  /** A node that nobody calls is put into the table, over an older one of the same name. */
  method AddNode(cg0: Nodes, name: string, address: string -> int) returns (cg: Nodes)
    requires Injective(address) && Valid(cg0) && PlacedBy(cg0, address)
    requires forall n :: n in cg0 ==> name !in Adjacency(cg0)[n]
    ensures name in cg && cg == cg0[name := cg[name]] && fresh(cg[name])
    ensures Valid(cg) && PlacedBy(cg, address)
    ensures Adjacency(cg) == Adjacency(cg0)[name := {}]
  {
    var o := new CGobj(name, address(name));
    cg := cg0[name := o];
    forall n, c | n in cg && c in cg[n].callees
      ensures c.nametag in cg && cg[c.nametag] == c
    {
      if n in cg0 && n != name {
        assert c.nametag in Adjacency(cg0)[n];
      }
    }
    forall n | n in cg && n != name
      ensures Adjacency(cg)[n] == Adjacency(cg0)[n]
    {
    }
    assert Adjacency(cg)[name] == {};
  }

  lemma OnlyName(cg: Nodes, o: CGobj)
    requires Valid(cg)
    ensures forall n :: n in cg && cg[n] == o ==> n == o.nametag
  {
  }

  method AddCallee(o: CGobj, c: CGobj)
    modifies o`callees
    ensures o.callees == old(o.callees) + {c} && CalleeNames(o) == old(CalleeNames(o)) + {c.nametag}
  {
    o.callees := o.callees + {c};
  }

  /** An edge for a node of the table; an edge of a node that is not in the table is not seen. */
  method InsertCallee(cg: Nodes, o: CGobj, c: CGobj)
    requires Valid(cg) && c.nametag in cg && cg[c.nametag] == c
    modifies o`callees
    ensures Valid(cg)
    ensures Adjacency(cg) ==
            if o.nametag in cg && cg[o.nametag] == o
            then old(Adjacency(cg))[o.nametag := old(Adjacency(cg))[o.nametag] + {c.nametag}]
            else old(Adjacency(cg))
  {
    hide CalleeNames;
    ghost var before := Adjacency(cg);
    OnlyName(cg, o);
    AddCallee(o, c);
    assert Valid(cg);
    ghost var after := Adjacency(cg);
    forall n | n in cg
      ensures after[n] == if cg[n] == o then before[n] + {c.nametag} else before[n]
    {
    }
    if o.nametag in cg && cg[o.nametag] == o {
      assert after == before[o.nametag := before[o.nametag] + {c.nametag}];
    } else {
      assert after == before;
    }
  }

  lemma UncalledUnlessThere(cg: Nodes, name: string)
    requires Valid(cg) && name !in cg
    ensures forall n :: n in cg ==> name !in Adjacency(cg)[n]
  {
  }

  /** The two nodes of a call, before the edge between them. */
  ghost function WithNodes(g: Graph, caller: string, callee: string): Graph {
    var h := if caller in g then g else g[caller := {}];
    if callee in g then h else h[callee := {}]
  }

  lemma NodesThenEdge(g: Graph, caller: string, callee: string)
    ensures var h := WithNodes(g, caller, callee);
            && caller in h && callee in h
            && WithCall(g, caller, callee) ==
               if caller == callee && callee !in g then h else h[caller := h[caller] + {callee}]
  {
  }

  lemma SameKeys(cg: Nodes)
    ensures Adjacency(cg).Keys == cg.Keys
  {
  }

  lemma NodeName(cg: Nodes, n: string)
    requires Valid(cg) && n in cg
    ensures cg[n].nametag == n
  {
  }

  /** The nodes of a call. The caller's node is looked up before the callee's may be added. */
  method AddNodes(cg0: Nodes, caller: string, callee: string, address: string -> int)
    returns (cg: Nodes, callerObj: CGobj, calleeObj: CGobj)
    requires Injective(address) && Valid(cg0) && PlacedBy(cg0, address)
    ensures Valid(cg) && PlacedBy(cg, address) && cg0.Keys <= cg.Keys
    ensures forall n :: n in cg ==> (n in cg0 && cg[n] == cg0[n]) || fresh(cg[n])
    ensures Adjacency(cg) == WithNodes(Adjacency(cg0), caller, callee)
    ensures callee in cg && cg[callee] == calleeObj && caller in cg
    ensures callerObj.nametag == caller && (callerObj in cg0.Values || fresh(callerObj))
    ensures callerObj == cg[caller] <==> !(caller == callee && callee !in cg0)
  {
    hide Adjacency, Valid, PlacedBy, Injective;
    cg := cg0;
    SameKeys(cg);
    var missing := callee !in cg;
    if missing {
      UncalledUnlessThere(cg, callee);
    }
    if caller !in cg {
      UncalledUnlessThere(cg, caller);
      cg := AddNode(cg, caller, address);
    }
    callerObj := cg[caller];
    NodeName(cg, caller);
    if missing {
      cg := AddNode(cg, callee, address);
    }
    calleeObj := cg[callee];
  }

  /** One entry of the stack. */
  method AddCall(cg0: Nodes, caller: string, callee: string, address: string -> int) returns (cg: Nodes)
    requires Injective(address) && Valid(cg0) && PlacedBy(cg0, address)
    modifies cg0.Values`callees
    ensures Valid(cg) && PlacedBy(cg, address)
    ensures forall n :: n in cg ==> (n in cg0 && cg[n] == cg0[n]) || fresh(cg[n])
    ensures Adjacency(cg) == WithCall(old(Adjacency(cg0)), caller, callee)
  {
    hide Adjacency, Valid, PlacedBy, Injective, WithCall, WithNodes;
    ghost var g := Adjacency(cg0);
    SameKeys(cg0);
    NodesThenEdge(g, caller, callee);
    var callerObj, calleeObj;
    cg, callerObj, calleeObj := AddNodes(cg0, caller, callee, address);
    NodeName(cg, callee);
    InsertCallee(cg, callerObj, calleeObj);
  }

  /** The node table of a call stack. */
  method MakeNodes(stack: seq<Call>, address: string -> int) returns (cg: Nodes)
    requires Injective(address)
    ensures Valid(cg) && PlacedBy(cg, address) && fresh(cg.Values)
    ensures Adjacency(cg) == Recorded(stack)
  {
    hide Adjacency, Valid, PlacedBy, Injective, WithCall;
    cg := map[];
    NoNodes(address);
    var i := 0;
    while i < |stack|
      invariant 0 <= i <= |stack|
      invariant Valid(cg) && PlacedBy(cg, address) && fresh(cg.Values)
      invariant Adjacency(cg) == Recorded(stack[..i])
    {
      assert stack[..i + 1][..i] == stack[..i];
      if stack[i].Caller() != "<ignore>" {
        cg := AddCall(cg, stack[i].Caller(), stack[i].Callee(), address);
      }
      i := i + 1;
    }
    assert stack[..i] == stack;
  }

  lemma NoNodes(address: string -> int)
    ensures Valid(map[]) && PlacedBy(map[], address) && Adjacency(map[]) == map[]
  {
  }

  ghost predicate Distinct(names: seq<string>) {
    forall i, j :: 0 <= i < j < |names| ==> names[i] != names[j]
  }

  /** The names of the table, each once; the promotion loop needs no particular order. */
  method Names(cg: Nodes) returns (names: seq<string>)
    ensures (set n | n in names) == cg.Keys && Distinct(names)
  {
    names := [];
    var todo := cg.Keys;
    while todo != {}
      invariant todo <= cg.Keys
      invariant (forall m :: m in names <==> m in cg.Keys && m !in todo) && Distinct(names)
      decreases todo
    {
      var n :| n in todo;
      assert forall m :: m in names + [n] <==> m in names || m == n;
      names := names + [n];
      todo := todo - {n};
    }
  }

  /** From a call stack to ranks. Factories may call themselves; apart from that the calls go round in no
      circle. Every factory ends at the length of its longest chain of followed calls, above everything
      it is followed to, after at most one pass more than the longest such chain has calls. */
  method RankCallStack(stack: seq<Call>, address: string -> int)
    returns (cg: Nodes, names: seq<string>, passes: nat)
    requires Injective(address) && Acyclic(Others(Recorded(stack)))
    ensures (forall n :: n in names <==> n in cg) && Distinct(names) && cg.Keys == Recorded(stack).Keys
    ensures Ranks(cg) == LongestRanking(Followed(Recorded(stack), address))
    ensures Quiescent(Followed(Recorded(stack), address), Ranks(cg))
    ensures passes >= 1 && (passes > 1 ==> HasLongWalk(Followed(Recorded(stack), address), passes - 1))
  {
    hide Recorded, Acyclic, LongestRanks, LongestRanking, Quiescent, HasLongWalk, GraphOf, Injective, Valid, Adjacency;
    hide Distinct, Followed, Others;
    cg := MakeNodes(stack, address);
    GraphIsFollowed(cg, address);
    FollowedIsAcyclic(Recorded(stack), address);
    SameKeys(cg);
    names := Names(cg);
    assert forall n :: n in names <==> n in (set m | m in names);
    passes := PromoteCallers(cg, names);
    LongestRankingIsTheOne(GraphOf(cg), Ranks(cg));
  }

  // ---- when every caller ends above its other callees ----

  /** Another number for every name. */
  function NameNumber(s: string): nat {
    if s == "" then 0 else 1 + s[0] as int + 0x11_0001 * NameNumber(s[1..])
  }

  lemma {:induction false} NameNumberIsInjective(s: string, t: string)
    requires NameNumber(s) == NameNumber(t)
    ensures s == t
    decreases |s|
  {
    if s != "" && t != "" {
      QuotientIs(NameNumber(s), 0x11_0001, NameNumber(s[1..]), 1 + s[0] as int);
      QuotientIs(NameNumber(t), 0x11_0001, NameNumber(t[1..]), 1 + t[0] as int);
      NameNumberIsInjective(s[1..], t[1..]);
      assert s == [s[0]] + s[1..] && t == [t[0]] + t[1..];
    }
  }

  /** An allocator that puts the node of one name first. */
  function Lowest(name: string): string -> int {
    n => if n == name then -1 else NameNumber(n)
  }

  lemma LowestIsInjective(name: string)
    ensures Injective(Lowest(name))
  {
    forall m, n | Lowest(name)(m) == Lowest(name)(n)
      ensures m == n
    {
      if m != name && n != name {
        NameNumberIsInjective(m, n);
      }
    }
  }

  /** The lowest node follows nothing when it is its own callee, and ends at rank 0. */
  lemma LowestSelfCalleeStays(g: Graph, n: string)
    requires Acyclic(Others(g)) && n in g && n in g[n]
    ensures LongestRanking(Followed(g, Lowest(n)))[n] == 0
    ensures Followed(g, Lowest(n))[n] == {}
  {
    var f := Followed(g, Lowest(n));
    var rank := LongestRanking(f);
    assert forall m :: m != n ==> Lowest(n)(m) >= 0;
    assert f[n] == {};
    FollowedIsAcyclic(g, Lowest(n));
    LongestRankingIsTheOne(f, rank);
    assert LongestFrom(f, n, rank[n]);
    var p :| Walk(f, p) && p[0] == n && |p| == rank[n] + 1;
    WalkStep(f, p, 0);
  }

  /** Whatever addresses the nodes get, each factory ends above all other factories it calls, exactly
      when no factory that calls itself calls another one too. */
  lemma CallersEndAboveExactlyWhen(stack: seq<Call>)
    requires Acyclic(Others(Recorded(stack)))
    ensures (forall address :: Injective(address) ==>
               Quiescent(Others(Recorded(stack)), LongestRanking(Followed(Recorded(stack), address))))
            <==> LoneSelfCallees(Recorded(stack))
  {
    var g := Recorded(stack);
    RecordedEdge(stack, "", "");
    hide Recorded, Acyclic, Injective, Quiescent, LongestRanking;
    if LoneSelfCallees(g) {
      forall address | Injective(address)
        ensures Quiescent(Others(g), LongestRanking(Followed(g, address)))
      {
        LoneSelfCalleesAllFollowed(g, address);
        LongestRankingIsTheOne(Others(g), LongestRanking(Others(g)));
        LongestIsQuiescent(Others(g), LongestRanking(Others(g)));
      }
    } else {
      var n :| n in g && n in g[n] && g[n] != {n};
      var c :| c in g[n] && c != n;
      LowestIsInjective(n);
      LowestSelfCalleeSinks(g, n, c);
    }
  }

  lemma LowestSelfCalleeSinks(g: Graph, n: string, c: string)
    requires Acyclic(Others(g)) && Closed(g) && n in g && n in g[n] && c in g[n] && c != n
    ensures !Quiescent(Others(g), LongestRanking(Followed(g, Lowest(n))))
  {
    LowestSelfCalleeStays(g, n);
    hide LongestRanking, Acyclic;
    assert c in Others(g)[n] && c in Others(g);
  }

  lemma OneCalleeIsAcyclic(g: Graph, a: string, b: string)
    requires a != b && forall n :: n in g ==> g[n] == if n == a then {b} else {}
    ensures Acyclic(g)
  {
    forall p | Walk(g, p) && |p| >= 2
      ensures p[0] != p[|p| - 1]
    {
      WalkStep(g, p, 0);
      WalkStep(g, p, 1);
    }
  }

  lemma LowestOfTwoSinks(g: Graph, a: string, b: string)
    requires a != b && g == map[a := {a, b}, b := {}]
    ensures Acyclic(Others(g)) && b in Others(g)[a]
    ensures LongestRanking(Followed(g, Lowest(a))) == map[a := 0, b := 0]
  {
    hide LongestRanking, LongestRanks, Acyclic, Lowest;
    OneCalleeIsAcyclic(Others(g), a, b);
    var f := Followed(g, Lowest(a));
    LowestSelfCalleeStays(g, a);
    assert f[b] == {};
    FollowedIsAcyclic(g, Lowest(a));
    LongestRankingIsTheOne(f, LongestRanking(f));
    EdgelessRanks(f, LongestRanking(f));
    RankingKeys(f);
  }

  lemma RankingKeys(g: Graph)
    ensures LongestRanking(g).Keys == g.Keys
  {
  }

  /** Factory a calls b and then itself, and its node lies lower than that of b: both end at rank 0. */
  lemma SelfCallSinksCaller(stack: seq<Call>)
    requires stack == [Call("a", "", "b", ""), Call("a", "", "a", "")]
    ensures Acyclic(Others(Recorded(stack))) && Injective(Lowest("a"))
    ensures "a" in Recorded(stack) && "b" in Others(Recorded(stack))["a"]
    ensures LongestRanking(Followed(Recorded(stack), Lowest("a"))) == map["a" := 0, "b" := 0]
  {
    TwoNames();
    RecordedExample(stack[0], stack[1]);
    assert stack == [stack[0], stack[1]];
    hide Recorded, LongestRanking, Acyclic, Followed, Injective;
    LowestIsInjective("a");
    LowestOfTwoSinks(Recorded(stack), "a", "b");
  }

  lemma TwoNames()
    ensures "a" != "b" && "a" != "<ignore>"
  {
    assert "a"[0] != "b"[0] && |"a"| < |"<ignore>"|;
  }

  lemma RecordedExample(a: Call, b: Call)
    requires a == Call("a", "", "b", "") && b == Call("a", "", "a", "")
    ensures Recorded([a, b]) == map["a" := {"a", "b"}, "b" := {}]
  {
    TwoNames();
    assert [a, b][..1] == [a] && [a][..0] == [];
    assert {} + {"b"} == {"b"} && {"b"} + {"a"} == {"a", "b"};
    assert Recorded([a]) == WithCall(map[], "a", "b");
    assert Recorded([a]) == map["b" := {}]["a" := {"b"}];
    assert Recorded([a, b]) == WithCall(Recorded([a]), "a", "a");
  }
}
