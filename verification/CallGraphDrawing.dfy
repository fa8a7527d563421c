/** From ranks to columns, and from a call stack to its drawing. */
module CallGraphDrawing {
  import opened Graphs
  import opened CallGraph
  import opened CallGraphBuild
  import opened CallGraphFactories
  import opened CallGraphLayout

  /** The names of one rank, in the order of the table. */
  function WithRank(names: seq<string>, rank: map<string, int>, r: int): seq<string>
    requires forall n :: n in names ==> n in rank
  {
    if names == [] then []
    else
      var last := names[|names| - 1];
      WithRank(names[..|names| - 1], rank, r) + if rank[last] == r then [last] else []
  }

  lemma {:induction false} WithRankHolds(names: seq<string>, rank: map<string, int>, r: int)
    requires forall n :: n in names ==> n in rank
    ensures forall n :: n in WithRank(names, rank, r) <==> n in names && rank[n] == r
    ensures Distinct(names) ==> Distinct(WithRank(names, rank, r))
  {
    if names != [] {
      var init, last := names[..|names| - 1], names[|names| - 1];
      WithRankHolds(init, rank, r);
      assert names == init + [last];
      assert Distinct(names) ==> last !in init;
    }
  }

  /** Columns of names by rank: every name is in the column of its rank, the ranks ascend. */
  ghost predicate ByRank(names: seq<string>, rank: map<string, int>, ranks: seq<int>, members: seq<seq<string>>)
    requires forall n :: n in names ==> n in rank
  {
    && Ascending(ranks) && Filed(names, rank, ranks, members)
    && (forall n :: n in names ==> rank[n] in ranks)
  }

  /** Collects the names of each rank. */
  method CollectRanks(names: seq<string>, rank: map<string, int>) returns (byRank: map<int, seq<string>>)
    requires forall n :: n in names ==> n in rank
    ensures forall n :: n in names ==> rank[n] in byRank
    ensures forall r :: r in byRank ==> byRank[r] == WithRank(names, rank, r)
  {
    byRank := map[];
    var k := 0;
    while k < |names|
      invariant 0 <= k <= |names|
      invariant forall i :: 0 <= i < k ==> rank[names[i]] in byRank
      invariant forall r :: NamesOf(byRank, r) == WithRank(names[..k], rank, r)
    {
      var n := names[k];
      assert names[..k + 1][..k] == names[..k];
      byRank := byRank[rank[n] := (if rank[n] in byRank then byRank[rank[n]] else []) + [n]];
      k := k + 1;
    }
    assert names[..k] == names;
    forall r | r in byRank
      ensures byRank[r] == WithRank(names, rank, r)
    {
      assert NamesOf(byRank, r) == byRank[r];
    }
  }

  /** The names of a rank so far. */
  function NamesOf(byRank: map<int, seq<string>>, r: int): seq<string> {
    if r in byRank then byRank[r] else []
  }

  lemma LeastRank(todo: set<string>, rank: map<string, int>) returns (least: string)
    requires todo != {} && todo <= rank.Keys
    ensures least in todo && forall n :: n in todo ==> rank[least] <= rank[n]
  {
    var n :| n in todo;
    assert forall m :: m in todo <==> m == n || m in todo - {n};
    if todo - {n} == {} {
      least := n;
    } else {
      var m := LeastRank(todo - {n}, rank);
      least := if rank[n] <= rank[m] then n else m;
    }
  }

  ghost predicate Ascending(ranks: seq<int>) {
    forall i, j :: 0 <= i < j < |ranks| ==> ranks[i] < ranks[j]
  }

  lemma AscendingAppend(ranks: seq<int>, r: int)
    requires Ascending(ranks) && forall q :: q in ranks ==> q < r
    ensures Ascending(ranks + [r])
  {
    assert forall i :: 0 <= i < |ranks| ==> ranks[i] in ranks;
  }

  ghost predicate Filed(names: seq<string>, rank: map<string, int>, ranks: seq<int>, members: seq<seq<string>>)
    requires forall n :: n in names ==> n in rank
  {
    |members| == |ranks| && forall i :: 0 <= i < |ranks| ==> members[i] == WithRank(names, rank, ranks[i])
  }

  /** The columns in the order of their ranks. */
  method RankColumns(names: seq<string>, rank: map<string, int>) returns (ranks: seq<int>, members: seq<seq<string>>)
    requires forall n :: n in names ==> n in rank
    ensures ByRank(names, rank, ranks, members)
  {
    hide WithRank, Ascending;
    var byRank := CollectRanks(names, rank);
    ranks, members := [], [];
    var todo := set n | n in names;
    NoneAscend();
    while todo != {}
      invariant todo <= rank.Keys && Ascending(ranks) && Filed(names, rank, ranks, members)
      invariant forall n :: n in todo ==> n in names
      invariant forall n :: n in names ==> n in todo || rank[n] in ranks
      invariant forall q, n :: q in ranks && n in todo ==> q < rank[n]
      decreases todo
    {
      ghost var least := LeastRank(todo, rank);
      var n :| n in todo && forall m :: m in todo ==> rank[n] <= rank[m];
      var r := rank[n];
      AscendingAppend(ranks, r);
      assert forall q :: q in ranks + [r] <==> q in ranks || q == r;
      ranks, members := ranks + [r], members + [byRank[r]];
      todo := set m | m in todo && rank[m] != r;
      assert n !in todo;
    }
  }

  lemma NoneAscend()
    ensures Ascending([])
  {
  }

  /** The labels of the columns. */
  function Labels(members: seq<seq<string>>, labelOf: string -> Label): (cols: Columns)
    ensures |cols| == |members| && forall i :: 0 <= i < |cols| ==> |cols[i]| == |members[i]|
    ensures forall i, j :: 0 <= i < |cols| && 0 <= j < |cols[i]| ==> cols[i][j] == labelOf(members[i][j])
  {
    seq(|members|, i requires 0 <= i < |members| =>
      seq(|members[i]|, j requires 0 <= j < |members[i]| => labelOf(members[i][j])))
  }

  ghost predicate SameShape(members: seq<seq<string>>, boxes: seq<seq<Box>>) {
    |members| == |boxes| && forall i :: 0 <= i < |boxes| ==> |members[i]| == |boxes[i]|
  }

  /** Every factory of the graph has exactly one place in the drawing. */
  ghost predicate EachOnce(g: Graph, members: seq<seq<string>>) {
    && (forall n :: n in g ==> exists i, j :: 0 <= i < |members| && 0 <= j < |members[i]| && members[i][j] == n)
    && (forall i, j :: 0 <= i < |members| && 0 <= j < |members[i]| ==> members[i][j] in g)
    && (forall i, j, k, m ::
          0 <= i < |members| && 0 <= j < |members[i]| && 0 <= k < |members| && 0 <= m < |members[k]| ==>
          (i, j) != (k, m) ==> members[i][j] != members[k][m])
  }

  lemma ByRankIsEachOnce(g: Graph, names: seq<string>, rank: map<string, int>, ranks: seq<int>,
                         members: seq<seq<string>>)
    requires (forall n :: n in names <==> n in g) && Distinct(names) && g.Keys == rank.Keys
    requires ByRank(names, rank, ranks, members)
    ensures EachOnce(g, members)
  {
    hide WithRank, Distinct, Ascending;
    forall i | 0 <= i < |ranks|
      ensures (forall n :: n in members[i] <==> n in names && rank[n] == ranks[i]) && Distinct(members[i])
    {
      WithRankHolds(names, rank, ranks[i]);
    }
    forall n | n in g
      ensures exists i, j :: 0 <= i < |members| && 0 <= j < |members[i]| && members[i][j] == n
    {
      assert rank[n] in ranks;
      var i :| 0 <= i < |ranks| && ranks[i] == rank[n];
      assert n in members[i];
      var j :| 0 <= j < |members[i]| && members[i][j] == n;
    }
    forall i, j, k, m | 0 <= i < |members| && 0 <= j < |members[i]| && 0 <= k < |members| && 0 <= m < |members[k]|
        && (i, j) != (k, m)
      ensures members[i][j] != members[k][m]
    {
      assert members[i][j] in members[i] && members[k][m] in members[k];
      if i == k {
        DistinctAt(members[i], j, m);
      } else {
        AscendingAt(ranks, i, k);
      }
    }
  }

  lemma DistinctAt(names: seq<string>, j: nat, m: nat)
    requires Distinct(names) && j < |names| && m < |names| && j != m
    ensures names[j] != names[m]
  {
  }

  /** A caller stands in a later column than each of its callees. */
  lemma CallerIsLater(g: Graph, names: seq<string>, rank: map<string, int>, ranks: seq<int>,
                      members: seq<seq<string>>, i: nat, j: nat, k: nat, m: nat)
    requires Quiescent(g, rank) && (forall n :: n in names <==> n in g) && g.Keys == rank.Keys
    requires ByRank(names, rank, ranks, members)
    requires i < |members| && j < |members[i]| && k < |members| && m < |members[k]|
    requires members[i][j] in g && members[k][m] in g[members[i][j]]
    ensures k < i
  {
    WithRankHolds(names, rank, ranks[i]);
    WithRankHolds(names, rank, ranks[k]);
    assert members[i][j] in members[i] && members[k][m] in members[k];
    assert rank[members[i][j]] == ranks[i] && rank[members[k][m]] == ranks[k];
    AscendingAt(ranks, k, i);
  }

  lemma AscendingAt(ranks: seq<int>, k: nat, i: nat)
    requires Ascending(ranks) && k < |ranks| && i < |ranks|
    ensures ranks[k] < ranks[i] <==> k < i
    ensures ranks[k] == ranks[i] <==> k == i
  {
  }

  /** The drawing of a call stack in which calls go round in no circle, apart from factories that call
      themselves. Every factory has exactly one box, written with its name and tag, and the box of a caller
      stands clear to the right of the boxes of the callees that the ranking follows, which are all its
      other callees when no factory that calls itself calls another one too. The boxes are inside the
      canvas and apart exactly when the columns are roomy, as they are when all labels have one height. */
  method DrawCallStack(stack: seq<Call>, address: string -> int, labelOf: string -> Label, fw: int, fh: int,
                       ghost h: nat)
    returns (cwidth: int, cheight: int, members: seq<seq<string>>, boxes: seq<seq<Box>>)
    requires Injective(address) && Acyclic(Others(Recorded(stack)))
    ensures SameShape(members, boxes) && EachOnce(Recorded(stack), members)
    ensures PlainStack(stack) ==> FactoriesShown(stack, members)
    ensures PlainStack(stack) && LoneSelfCallees(Recorded(stack)) ==> CallsPointLeft(stack, members, boxes)
    ensures CalleesToTheLeft(Followed(Recorded(stack), address), members, boxes)
    ensures LoneSelfCallees(Recorded(stack)) ==> CalleesToTheLeft(Others(Recorded(stack)), members, boxes)
    ensures CleanDrawing(boxes, cwidth, cheight) <==> Roomy(Labels(members, labelOf), cheight)
    ensures h > 0 && (forall n :: n in Recorded(stack) ==> labelOf(n).h == h) ==> CleanDrawing(boxes, cwidth, cheight)
  {
    hide Recorded, Acyclic, LongestRanking, Quiescent, Injective, ByRank, BoxAt, EachOnce, Followed;
    hide CleanDrawing, Roomy, PlainStack, FactoriesShown, CallsPointLeft;
    var cg, names, passes := RankCallStack(stack, address);
    ghost var g, f := Recorded(stack), Followed(Recorded(stack), address);
    var rank := map n | n in cg :: cg[n].rank;
    assert rank == Ranks(cg);
    var ranks;
    ranks, members := RankColumns(names, rank);
    FollowedKeys(g, address);
    ByRankIsEachOnce(g, names, rank, ranks, members);
    var cols := Labels(members, labelOf);
    cwidth, cheight, boxes := Layout(cols, fw, fh);
    forall i, j | 0 <= i < |members| && 0 <= j < |members[i]|
      ensures members[i][j] in f
    {
      PlacedIsInGraph(g, members, i, j);
    }
    forall i, j, k, m | 0 <= i < |members| && 0 <= j < |members[i]| && 0 <= k < |members| && 0 <= m < |members[k]|
                        && members[k][m] in f[members[i][j]]
      ensures boxes[k][m].x2 < boxes[i][j].x1
    {
      CallerIsLater(f, names, rank, ranks, members, i, j, k, m);
      DifferentColumnsApart(cols, fw, fh, k, m, i, j);
    }
    if LoneSelfCallees(g) {
      LoneSelfCalleesAllFollowed(g, address);
      assert CalleesToTheLeft(Others(g), members, boxes);
    }
    if PlainStack(stack) {
      DrawnFactories(stack, members);
      if LoneSelfCallees(g) {
        DrawnCalls(stack, members, boxes);
      }
    }
    LayoutIsCleanExactlyWhen(cols, fw, fh, boxes);
    if h > 0 && forall n :: n in g ==> labelOf(n).h == h {
      CommonHeightIsRoomy(cols, h, fh);
    }
  }

  /** The callee of an entry, unless ignored or its own caller, is drawn clear to the left of the caller. */
  ghost predicate CallsPointLeft(stack: seq<Call>, members: seq<seq<string>>, boxes: seq<seq<Box>>)
    requires SameShape(members, boxes)
  {
    forall a, b, i, j, k, m ::
      0 <= i < |members| && 0 <= j < |members[i]| && 0 <= k < |members| && 0 <= m < |members[k]| ==>
      SomeCall(stack, a, b) && a != b && Written(members[i][j], a) && Written(members[k][m], b) ==>
      boxes[k][m].x2 < boxes[i][j].x1
  }

  /** Some entry that is not ignored has a as its caller and b as its callee. */
  ghost predicate SomeCall(stack: seq<Call>, a: Factory, b: Factory) {
    exists k :: 0 <= k < |stack| && !Ignored(stack[k]) && CallerIs(stack[k], a) && CalleeIs(stack[k], b)
  }

  lemma DrawnFactories(stack: seq<Call>, members: seq<seq<string>>)
    requires PlainStack(stack) && EachOnce(Recorded(stack), members)
    ensures FactoriesShown(stack, members)
  {
    hide Plain, Written, Mentioned, PlainStack, Recorded;
    assert forall x :: Shown(members, x) <==> x in Recorded(stack);
    forall f, x | Plain(f) && Written(x, f)
      ensures Shown(members, x) <==> Mentioned(stack, f)
    {
      RecordedFactory(stack, f, x);
    }
    forall x | Shown(members, x)
      ensures exists f :: Plain(f) && Written(x, f)
    {
      var f := NodeIsFactory(stack, x);
    }
  }

  lemma SomeCallIsOther(stack: seq<Call>, a: Factory, b: Factory, x: string, y: string)
    requires PlainStack(stack) && SomeCall(stack, a, b) && a != b && Written(x, a) && Written(y, b)
    ensures x in Others(Recorded(stack)) && y in Others(Recorded(stack))[x]
  {
    hide Recorded, Written, Mentioned, CallerIs, CalleeIs, Ignored;
    var k :| 0 <= k < |stack| && !Ignored(stack[k]) && CallerIs(stack[k], a) && CalleeIs(stack[k], b);
    EntryIsPlain(stack, k, a, b);
    RecordedCall(stack, a, b, x, y);
    LabelsEqualExactlyWhen(a, b, x, y);
  }

  lemma EntryIsPlain(stack: seq<Call>, k: nat, a: Factory, b: Factory)
    requires PlainStack(stack) && k < |stack| && CallerIs(stack[k], a) && CalleeIs(stack[k], b)
    ensures Plain(a) && Plain(b)
  {
    assert a == Factory(stack[k].callerName, stack[k].callerTag);
    assert b == Factory(stack[k].calleeName, stack[k].calleeTag);
  }

  lemma DrawnCalls(stack: seq<Call>, members: seq<seq<string>>, boxes: seq<seq<Box>>)
    requires PlainStack(stack) && SameShape(members, boxes)
    requires CalleesToTheLeft(Others(Recorded(stack)), members, boxes)
    ensures CallsPointLeft(stack, members, boxes)
  {
    hide Recorded, Others, Written, SomeCall, PlainStack;
    forall a, b, i, j, k, m |
        0 <= i < |members| && 0 <= j < |members[i]| && 0 <= k < |members| && 0 <= m < |members[k]|
        && SomeCall(stack, a, b) && a != b && Written(members[i][j], a) && Written(members[k][m], b)
      ensures boxes[k][m].x2 < boxes[i][j].x1
    {
      SomeCallIsOther(stack, a, b, members[i][j], members[k][m]);
    }
  }

  lemma FollowedKeys(g: Graph, address: string -> int)
    ensures Followed(g, address).Keys == g.Keys
  {
  }

  /** The boxes of callees are clear to the left of their caller's box. */
  ghost predicate CalleesToTheLeft(g: Graph, members: seq<seq<string>>, boxes: seq<seq<Box>>)
    requires SameShape(members, boxes)
  {
    forall i, j, k, m :: 0 <= i < |members| && 0 <= j < |members[i]| && 0 <= k < |members| && 0 <= m < |members[k]| ==>
      members[i][j] in g && (members[k][m] in g[members[i][j]] ==> boxes[k][m].x2 < boxes[i][j].x1)
  }

  lemma PlacedIsInGraph(g: Graph, members: seq<seq<string>>, i: nat, j: nat)
    requires EachOnce(g, members) && i < |members| && j < |members[i]|
    ensures members[i][j] in g
  {
  }

  /** All boxes inside the canvas, no two overlapping. */
  ghost predicate CleanDrawing(boxes: seq<seq<Box>>, cwidth: int, cheight: int) {
    && (forall i, j :: 0 <= i < |boxes| && 0 <= j < |boxes[i]| ==> Inside(boxes[i][j], cwidth, cheight))
    && (forall i, j, k, m ::
          0 <= i < |boxes| && 0 <= j < |boxes[i]| && 0 <= k < |boxes| && 0 <= m < |boxes[k]| && (i, j) != (k, m) ==>
          Apart(boxes[i][j], boxes[k][m]))
  }

  ghost predicate LaidOut(cols: Columns, fw: int, fh: int, boxes: seq<seq<Box>>) {
    && |boxes| == |cols| && (forall i :: 0 <= i < |cols| ==> |boxes[i]| == |cols[i]|)
    && (forall i, j :: 0 <= i < |cols| && 0 <= j < |cols[i]| ==>
          boxes[i][j] == BoxAt(cols, CanvasWidth(cols, fw), CanvasHeight(cols, fh), i, j))
  }

  lemma RoomyRowSpacing(cols: Columns, fh: int, i: nat)
    requires Roomy(cols, CanvasHeight(cols, fh)) && i < |cols| && cols[i] != []
    ensures YSpace(cols[i], CanvasHeight(cols, fh)) >= PAD
  {
    hide YSpace, CanvasHeight;
    if |cols[i]| == 1 {
      OneRowSpacing(cols, fh, i);
    }
  }

  lemma RoomyBoxesApart(cols: Columns, fw: int, fh: int, i: nat, j: nat, k: nat, m: nat)
    requires Roomy(cols, CanvasHeight(cols, fh))
    requires i < |cols| && j < |cols[i]| && k < |cols| && m < |cols[k]| && (i, j) != (k, m)
    ensures var cw, ch := CanvasWidth(cols, fw), CanvasHeight(cols, fh);
            Apart(BoxAt(cols, cw, ch, i, j), BoxAt(cols, cw, ch, k, m))
  {
    hide BoxAt, YSpace, CanvasHeight, CanvasWidth;
    if i < k {
      DifferentColumnsApart(cols, fw, fh, i, j, k, m);
    } else if k < i {
      DifferentColumnsApart(cols, fw, fh, k, m, i, j);
    } else if j < m {
      RoomyColumnIsClean(cols, fw, fh, i, j, m);
    } else {
      RoomyColumnIsClean(cols, fw, fh, i, m, j);
    }
  }

  /** A drawing is clean exactly when every column of two rows or more has room for the padding. */
  lemma LayoutIsCleanExactlyWhen(cols: Columns, fw: int, fh: int, boxes: seq<seq<Box>>)
    requires LaidOut(cols, fw, fh, boxes)
    ensures CleanDrawing(boxes, CanvasWidth(cols, fw), CanvasHeight(cols, fh)) <==> Roomy(cols, CanvasHeight(cols, fh))
  {
    hide BoxAt, Inside, Apart, YSpace, CanvasHeight, CanvasWidth;
    if Roomy(cols, CanvasHeight(cols, fh)) {
      forall i, j | 0 <= i < |boxes| && 0 <= j < |boxes[i]|
        ensures Inside(boxes[i][j], CanvasWidth(cols, fw), CanvasHeight(cols, fh))
      {
        RoomyRowSpacing(cols, fh, i);
        BoxInside(cols, fw, fh, i, j);
      }
      forall i, j, k, m | 0 <= i < |boxes| && 0 <= j < |boxes[i]| && 0 <= k < |boxes| && 0 <= m < |boxes[k]|
          && (i, j) != (k, m)
        ensures Apart(boxes[i][j], boxes[k][m])
      {
        RoomyBoxesApart(cols, fw, fh, i, j, k, m);
      }
    }
    if CleanDrawing(boxes, CanvasWidth(cols, fw), CanvasHeight(cols, fh)) {
      forall i | 0 <= i < |cols| && |cols[i]| >= 2
        ensures YSpace(cols[i], CanvasHeight(cols, fh)) >= 2 * PAD
      {
        assert Apart(boxes[i][0], boxes[i][1]);
        RowsApartExactlyWhen(cols, fw, fh, i, 0);
      }
    }
  }

  lemma CommonHeightIsRoomy(cols: Columns, h: nat, fh: int)
    requires CommonHeight(cols, h) && h > 0
    ensures Roomy(cols, CanvasHeight(cols, fh))
  {
    hide YSpace, CanvasHeight;
    forall i | 0 <= i < |cols| && |cols[i]| >= 2
      ensures YSpace(cols[i], CanvasHeight(cols, fh)) >= 2 * PAD
    {
      CommonHeightSpacing(cols, h, fh, i);
    }
  }
}
