/** Factories by name and tag: what the names of the nodes stand for. */
module CallGraphFactories {
  import opened Graphs
  import opened CallGraphBuild

  datatype Factory = Factory(name: string, tag: string)

  /** Names and tags hold no colon. */
  predicate Plain(f: Factory) { ':' !in f.name && ':' !in f.tag }

  predicate PlainStack(stack: seq<Call>) {
    forall k :: 0 <= k < |stack| ==>
      Plain(Factory(stack[k].callerName, stack[k].callerTag)) && Plain(Factory(stack[k].calleeName, stack[k].calleeTag))
  }

  /** The label a factory is drawn with: its name, and its tag behind a colon when it has one. */
  predicate Written(text: string, f: Factory) {
    text == f.name + if f.tag == "" then "" else ":" + f.tag
  }

  predicate CallerIs(c: Call, f: Factory) { c.callerName == f.name && c.callerTag == f.tag }

  predicate CalleeIs(c: Call, f: Factory) { c.calleeName == f.name && c.calleeTag == f.tag }

  predicate Ignored(c: Call) { c.callerName == "<ignore>" && c.callerTag == "" }

  /** Some entry that is not ignored has the factory as its caller or its callee. */
  ghost predicate Mentioned(stack: seq<Call>, f: Factory) {
    exists k :: 0 <= k < |stack| && !Ignored(stack[k]) && (CallerIs(stack[k], f) || CalleeIs(stack[k], f))
  }

  lemma NametagIsWritten(f: Factory)
    ensures Written(MakeNametag(f.name, f.tag), f)
  {
    assert f.name + "" == f.name;
  }

  /** The label tells name and tag apart. */
  lemma LabelsEqualExactlyWhen(a: Factory, b: Factory, x: string, y: string)
    requires Plain(a) && Plain(b) && Written(x, a) && Written(y, b)
    ensures x == y <==> a == b
  {
    if x == y {
      SplitAtColon(a, x);
      SplitAtColon(b, y);
      assert ':' in x <==> a.tag != "";
      if a.tag != "" {
        FirstColonIs(x, |a.name|, |b.name|);
      }
    }
  }

  lemma SplitAtColon(f: Factory, x: string)
    requires Plain(f) && Written(x, f)
    ensures ':' in x <==> f.tag != ""
    ensures |f.name| <= |x| && x[..|f.name|] == f.name && ':' !in x[..|f.name|]
    ensures if f.tag == "" then |x| == |f.name| else |x| > |f.name| && x[|f.name|] == ':' && x[|f.name| + 1..] == f.tag
  {
    if f.tag == "" {
      assert x == f.name;
    } else {
      assert x[|f.name|] == ':';
    }
  }

  lemma FirstColonIs(x: string, i: nat, j: nat)
    requires i < |x| && j < |x| && x[i] == ':' && x[j] == ':' && ':' !in x[..i] && ':' !in x[..j]
    ensures i == j
  {
    InPrefix(x, i, j);
    InPrefix(x, j, i);
  }

  lemma InPrefix(x: string, i: nat, j: nat)
    requires j <= |x|
    ensures i < j ==> x[i] in x[..j]
  {
    if i < j {
      assert x[..j][i] == x[i];
    }
  }

  /** Two factories have one nametag exactly when they have one name and one tag. */
  lemma NametagsEqualExactlyWhen(a: Factory, b: Factory)
    requires Plain(a) && Plain(b)
    ensures MakeNametag(a.name, a.tag) == MakeNametag(b.name, b.tag) <==> a == b
  {
    NametagIsWritten(a);
    NametagIsWritten(b);
    LabelsEqualExactlyWhen(a, b, MakeNametag(a.name, a.tag), MakeNametag(b.name, b.tag));
  }

  /** With a colon in a name two factories may have one nametag. */
  lemma ColonNamesCollide()
    ensures MakeNametag("a:b", "") == MakeNametag("a", "b")
  {
    assert "a" + ":" + "b" == "a:b";
  }

  /** The names an entry puts into the graph are those of its caller and its callee. */
  lemma EntryNames(c: Call, f: Factory, x: string)
    requires Plain(Factory(c.callerName, c.callerTag)) && Plain(Factory(c.calleeName, c.calleeTag))
    requires Plain(f) && Written(x, f)
    ensures c.Caller() == x <==> CallerIs(c, f)
    ensures c.Callee() == x <==> CalleeIs(c, f)
    ensures c.Caller() == "<ignore>" <==> Ignored(c)
  {
    var caller, callee, none :=
      Factory(c.callerName, c.callerTag), Factory(c.calleeName, c.calleeTag), Factory("<ignore>", "");
    NametagIsWritten(caller);
    NametagIsWritten(callee);
    LabelsEqualExactlyWhen(caller, f, c.Caller(), x);
    LabelsEqualExactlyWhen(callee, f, c.Callee(), x);
    assert Plain(none) && Written("<ignore>", none);
    LabelsEqualExactlyWhen(caller, none, c.Caller(), "<ignore>");
  }

  lemma WithCallNode(g: Graph, caller: string, callee: string, n: string)
    ensures n in WithCall(g, caller, callee) <==> n in g || n == caller || n == callee
  {
  }

  /** A factory has a node exactly when some entry mentions it. */
  lemma {:induction false} RecordedFactory(stack: seq<Call>, f: Factory, x: string)
    requires PlainStack(stack) && Plain(f) && Written(x, f)
    ensures x in Recorded(stack) <==> Mentioned(stack, f)
    decreases |stack|
  {
    hide WithCall, Plain, Written, CallerIs, CalleeIs, Ignored;
    if stack != [] {
      var n := |stack| - 1;
      RecordedFactory(stack[..n], f, x);
      OneMoreMention(stack, f);
      EntryNames(stack[n], f, x);
      WithCallNode(Recorded(stack[..n]), stack[n].Caller(), stack[n].Callee(), x);
    }
  }

  lemma OneMoreMention(stack: seq<Call>, f: Factory)
    requires stack != []
    ensures var last := stack[|stack| - 1];
            Mentioned(stack, f) <==>
            Mentioned(stack[..|stack| - 1], f) || (!Ignored(last) && (CallerIs(last, f) || CalleeIs(last, f)))
  {
    hide CallerIs, CalleeIs, Ignored;
    var n := |stack| - 1;
    assert forall k :: 0 <= k < n ==> stack[..n][k] == stack[k];
  }

  /** Factory b has an edge from factory a exactly when some entry that is not ignored has a as its caller
      and b as its callee, and, if they are the same, an earlier entry mentions the factory. */
  lemma RecordedCall(stack: seq<Call>, a: Factory, b: Factory, x: string, y: string)
    requires PlainStack(stack) && Plain(a) && Plain(b) && Written(x, a) && Written(y, b)
    ensures (x in Recorded(stack) && y in Recorded(stack)[x]) <==>
            exists k :: 0 <= k < |stack| && !Ignored(stack[k]) && CallerIs(stack[k], a) && CalleeIs(stack[k], b)
                        && (a == b ==> Mentioned(stack[..k], a))
  {
    hide Recorded, Plain, Written, CallerIs, CalleeIs, Ignored, Mentioned;
    RecordedEdge(stack, x, y);
    LabelsEqualExactlyWhen(a, b, x, y);
    forall k | 0 <= k < |stack|
      ensures EntryCalls(stack, k, x, y) <==>
              !Ignored(stack[k]) && CallerIs(stack[k], a) && CalleeIs(stack[k], b)
              && (a == b ==> Mentioned(stack[..k], a))
    {
      EntryNames(stack[k], a, x);
      EntryNames(stack[k], b, y);
      RecordedFactory(stack[..k], a, x);
    }
  }

  ghost predicate Shown(members: seq<seq<string>>, x: string) {
    exists i, j :: 0 <= i < |members| && 0 <= j < |members[i]| && members[i][j] == x
  }

  /** The labels written are those of the factories that the stack mentions. */
  ghost predicate FactoriesShown(stack: seq<Call>, members: seq<seq<string>>) {
    && (forall f, x :: Plain(f) && Written(x, f) ==> (Shown(members, x) <==> Mentioned(stack, f)))
    && (forall x :: Shown(members, x) ==> exists f :: Plain(f) && Written(x, f))
  }

  /** Every node stands for a mentioned factory. */
  lemma {:induction false} NodeIsFactory(stack: seq<Call>, x: string) returns (f: Factory)
    requires PlainStack(stack) && x in Recorded(stack)
    ensures Mentioned(stack, f) && Plain(f) && Written(x, f)
    decreases |stack|
  {
    var n := |stack| - 1;
    var c := stack[n];
    var caller, callee := Factory(c.callerName, c.callerTag), Factory(c.calleeName, c.calleeTag);
    NametagIsWritten(caller);
    NametagIsWritten(callee);
    EntryNames(c, caller, c.Caller());
    EntryNames(c, callee, c.Callee());
    hide Plain, Written, WithCall;
    WithCallNode(Recorded(stack[..n]), c.Caller(), c.Callee(), x);
    if x in Recorded(stack[..n]) {
      f := NodeIsFactory(stack[..n], x);
    } else {
      f := if x == c.Caller() then caller else callee;
    }
    OneMoreMention(stack, f);
  }

  lemma MentionedIsPlain(stack: seq<Call>, f: Factory)
    requires PlainStack(stack) && Mentioned(stack, f)
    ensures Plain(f)
  {
    var k :|
      0 <= k < |stack| && !Ignored(stack[k]) && (CallerIs(stack[k], f) || CalleeIs(stack[k], f));
    var c := stack[k];
    assert f == Factory(c.callerName, c.callerTag) || f == Factory(c.calleeName, c.calleeTag);
  }

  /** A stack with a factory in two tags: four nodes, and each caller has the one it calls. */
  lemma TaggedExample(a: Call, b: Call)
    requires a == Call("TEvent", "", "IntVetoDigiHit", "") && b == Call("IntVetoHit", "", "IntVetoDigiHit", "MC")
    ensures Recorded([a, b]) ==
            map["TEvent" := {"IntVetoDigiHit"}, "IntVetoDigiHit" := {},
                "IntVetoHit" := {"IntVetoDigiHit:MC"}, "IntVetoDigiHit:MC" := {}]
  {
    var digi := "IntVetoDigiHit";
    assert digi + ":" + "MC" == "IntVetoDigiHit:MC";
    assert |"TEvent"| == 6 && |digi| == 14 && |"IntVetoHit"| == 10 && |"IntVetoDigiHit:MC"| == 17 && |"<ignore>"| == 8;
    assert [a, b][..1] == [a] && [a][..0] == [];
    assert {} + {digi} == {digi} && {} + {"IntVetoDigiHit:MC"} == {"IntVetoDigiHit:MC"};
    assert Recorded([a]) == WithCall(map[], "TEvent", digi);
    assert Recorded([a]) == map["TEvent" := {digi}, digi := {}];
    assert Recorded([a, b]) == WithCall(Recorded([a]), "IntVetoHit", "IntVetoDigiHit:MC");
  }
}
