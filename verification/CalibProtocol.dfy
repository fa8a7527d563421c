/** Handlers of many threads, registered by table: who reads the database and who copies. */
module CalibProtocol {
  import opened Options
  import opened CalibTable

  /** `readCount` counts the database reads of a table since it was last cleared, `lastRead` is what the
      last read gave; both are kept for the statements only. */
  datatype State<H> = State(registry: map<string, seq<H>>, handlers: map<H, Handler>,
                            readCount: map<string, nat>, lastRead: map<string, Table>)

  /** One call. New creates a handler; the data of Update are what the database would give for its table
      at that moment; LookUp is what a factory does with its handler in between. */
  datatype Action<H> =
    | New(h: H, table: string, nIds: nat)
    | Register(h: H)
    | Update(h: H, data: Table)
    | Clear(h: H)
    | LookUp(h: H, index: Key)

  function Listed<H(==)>(s: State<H>, name: string): seq<H> {
    if name in s.registry then s.registry[name] else []
  }

  function Reads<H(==)>(s: State<H>, name: string): nat {
    if name in s.readCount then s.readCount[name] else 0
  }

  predicate AllKnown<H(==)>(handlers: map<H, Handler>, list: seq<H>) {
    forall i :: 0 <= i < |list| ==> list[i] in handlers
  }

  predicate AllLoaded<H(==)>(handlers: map<H, Handler>, list: seq<H>)
    requires AllKnown(handlers, list)
  {
    forall i :: 0 <= i < |list| ==> handlers[list[i]].loaded
  }

  /** The position of the last loaded handler of a list, or -1. */
  function LastLoaded<H(==)>(handlers: map<H, Handler>, list: seq<H>): (i: int)
    requires AllKnown(handlers, list)
    ensures -1 <= i < |list| && (i >= 0 ==> handlers[list[i]].loaded)
    ensures forall j :: i < j < |list| ==> !handlers[list[j]].loaded
  {
    if list == [] then -1
    else if handlers[list[|list| - 1]].loaded then |list| - 1
    else LastLoaded(handlers, list[..|list| - 1])
  }

  /** A handler filled and marked as loaded. */
  function Loaded(h: Handler, data: Table): Handler {
    h.Fill(data).(loaded := true)
  }

  function FillUnloaded<H>(handlers: map<H, Handler>, list: seq<H>, data: Table): map<H, Handler> {
    map k | k in handlers :: if k in list && !handlers[k].loaded then Loaded(handlers[k], data) else handlers[k]
  }

  function Unload<H>(handlers: map<H, Handler>, list: seq<H>): map<H, Handler> {
    map k | k in handlers :: if k in list then handlers[k].(loaded := false) else handlers[k]
  }

  /** The effect of one call. Calls for handlers that are not registered change nothing. */
  function Step<H(==)>(s: State<H>, a: Action<H>): State<H> {
    match a
    case New(h, table, nIds) =>
      if h in s.handlers then s
      else s.(handlers := s.handlers[h := Handler(table, nIds, false, [], map[], [], [])])
    case Register(h) =>
      if h !in s.handlers then s
      else
        var name := s.handlers[h].table;
        s.(registry := s.registry[name := Listed(s, name) + [h]])
    case Update(h, data) =>
      if h !in s.handlers then s
      else
        var name := s.handlers[h].table;
        var list := Listed(s, name);
        if h !in list || !AllKnown(s.handlers, list) || AllLoaded(s.handlers, list) then s
        else
          var source := LastLoaded(s.handlers, list);
          if source >= 0 then s.(handlers := FillUnloaded(s.handlers, list, s.handlers[list[source]].raw))
          else
            s.(handlers := FillUnloaded(s.handlers, list, data),
               readCount := s.readCount[name := Reads(s, name) + 1],
               lastRead := s.lastRead[name := data])
    case Clear(h) =>
      if h !in s.handlers then s
      else
        var name := s.handlers[h].table;
        var list := Listed(s, name);
        if h !in list then s
        else s.(handlers := Unload(s.handlers, list), readCount := s.readCount[name := 0])
    case LookUp(h, index) =>
      if h !in s.handlers || !s.handlers[h].Valid() then s
      else s.(handlers := s.handlers[h := s.handlers[h].Remember(index)])
  }

  /** The four outcomes of an update. */
  lemma UpdateOutcome<H>(s: State<H>, h: H, data: Table)
    requires h in s.handlers && AllKnown(s.handlers, Listed(s, s.handlers[h].table))
    ensures var t, name := Step(s, Update(h, data)), s.handlers[h].table;
            var list := Listed(s, name);
            if h !in list || AllLoaded(s.handlers, list) then t == s
            else if LastLoaded(s.handlers, list) >= 0 then
              t == s.(handlers := FillUnloaded(s.handlers, list, s.handlers[list[LastLoaded(s.handlers, list)]].raw))
            else
              t == s.(handlers := FillUnloaded(s.handlers, list, data),
                      readCount := s.readCount[name := Reads(s, name) + 1],
                      lastRead := s.lastRead[name := data])
  {
  }

  // ---- invariants ----

  ghost predicate RegistryOkay<H>(s: State<H>) {
    forall name :: name in s.registry ==>
      forall i :: 0 <= i < |s.registry[name]| ==>
        s.registry[name][i] in s.handlers && s.handlers[s.registry[name][i]].table == name
  }

  /** A loaded handler is registered, holds what the database gave at the last read of its table, and
      has the map built from that. */
  ghost predicate HandlerOkay<H>(s: State<H>, h: H)
    requires h in s.handlers
  {
    var v := s.handlers[h];
    && v.Valid()
    && (v.loaded ==>
          && h in Listed(s, v.table) && v.table in s.lastRead
          && v.raw == s.lastRead[v.table] && v.calib == Build(v.raw, v.nIds))
  }

  ghost predicate HandlersOkay<H>(s: State<H>) {
    forall h :: h in s.handlers ==> HandlerOkay(s, h)
  }

  ghost predicate SomeLoaded<H>(s: State<H>, name: string) {
    exists i :: 0 <= i < |Listed(s, name)| && Listed(s, name)[i] in s.handlers && s.handlers[Listed(s, name)[i]].loaded
  }

  /** The database has been read at most once since the last clear, and if it has, some handler of the
      table is loaded. */
  ghost predicate ReadsOkay<H>(s: State<H>, name: string) {
    Reads(s, name) <= 1 && (Reads(s, name) == 1 ==> SomeLoaded(s, name))
  }

  ghost predicate Inv<H>(s: State<H>) {
    RegistryOkay(s) && HandlersOkay(s) && forall name :: ReadsOkay(s, name)
  }

  lemma KnownList<H>(s: State<H>, name: string)
    requires RegistryOkay(s)
    ensures AllKnown(s.handlers, Listed(s, name))
    ensures forall k :: k in Listed(s, name) ==> k in s.handlers && s.handlers[k].table == name
  {
  }

  lemma NewKeepsInv<H>(s: State<H>, h: H, table: string, nIds: nat)
    requires Inv(s)
    ensures Inv(Step(s, New(h, table, nIds)))
  {
    hide Build;
    var t := Step(s, New(h, table, nIds));
    if h !in s.handlers {
      forall name
        ensures ReadsOkay(t, name)
      {
        assert ReadsOkay(s, name);
        if Reads(s, name) == 1 {
          var i :| 0 <= i < |Listed(s, name)| && Listed(s, name)[i] in s.handlers
              && s.handlers[Listed(s, name)[i]].loaded;
          assert t.handlers[Listed(t, name)[i]].loaded;
        }
      }
      forall k | k in t.handlers
        ensures HandlerOkay(t, k)
      {
        assert k != h ==> HandlerOkay(s, k);
      }
    }
  }

  lemma RegisterKeepsInv<H>(s: State<H>, h: H)
    requires Inv(s)
    ensures Inv(Step(s, Register(h)))
  {
    hide Build;
    var t := Step(s, Register(h));
    forall name
      ensures ReadsOkay(t, name)
    {
      assert ReadsOkay(s, name);
      if Reads(s, name) == 1 {
        var i :| 0 <= i < |Listed(s, name)| && Listed(s, name)[i] in s.handlers
            && s.handlers[Listed(s, name)[i]].loaded;
        assert Listed(t, name)[i] == Listed(s, name)[i];
      }
    }
    forall k | k in t.handlers
      ensures HandlerOkay(t, k)
    {
      assert HandlerOkay(s, k);
      var name := s.handlers[k].table;
      assert k in Listed(s, name) ==> k in Listed(t, name);
    }
  }

  lemma ClearKeepsInv<H>(s: State<H>, h: H)
    requires Inv(s)
    ensures Inv(Step(s, Clear(h)))
  {
    hide Build;
    var t := Step(s, Clear(h));
    if h in s.handlers && h in Listed(s, s.handlers[h].table) {
      var cleared := s.handlers[h].table;
      KnownList(s, cleared);
      forall name
        ensures ReadsOkay(t, name)
      {
        assert ReadsOkay(s, name);
        KnownList(s, name);
        if name != cleared && Reads(s, name) == 1 {
          var i :| 0 <= i < |Listed(s, name)| && Listed(s, name)[i] in s.handlers
              && s.handlers[Listed(s, name)[i]].loaded;
          assert t.handlers[Listed(t, name)[i]].loaded;
        }
      }
      forall k | k in t.handlers
        ensures HandlerOkay(t, k)
      {
        assert HandlerOkay(s, k);
      }
    }
  }

  /** After an update every registered handler of the table is loaded, with one and the same table: the
      one that was in use, or, when none was loaded, the one now read from the database. */
  lemma UpdateLoadsAll<H>(s: State<H>, h: H, data: Table)
    requires Inv(s) && h in s.handlers && h in Listed(s, s.handlers[h].table)
    ensures var t, name := Step(s, Update(h, data)), s.handlers[h].table;
            && Listed(t, name) == Listed(s, name) && name in t.lastRead
            && (forall k :: k in Listed(s, name) ==>
                k in t.handlers && t.handlers[k].loaded && t.handlers[k].raw == t.lastRead[name])
            && t.lastRead[name] == if SomeLoaded(s, name) then s.lastRead[name] else data
  {
    hide Build;
    var name := s.handlers[h].table;
    var list := Listed(s, name);
    KnownList(s, name);
    var source := LastLoaded(s.handlers, list);
    if source >= 0 {
      assert HandlerOkay(s, list[source]);
    }
    forall k | k in list
      ensures HandlerOkay(s, k)
    {
    }
    assert s.handlers[h].loaded || !AllLoaded(s.handlers, list);
  }

  lemma UpdateKeepsHandlers<H>(s: State<H>, h: H, data: Table)
    requires Inv(s) && h in s.handlers && h in Listed(s, s.handlers[h].table)
    ensures HandlersOkay(Step(s, Update(h, data))) && RegistryOkay(Step(s, Update(h, data)))
  {
    hide Build;
    var t, name := Step(s, Update(h, data)), s.handlers[h].table;
    KnownList(s, name);
    UpdateLoadsAll(s, h, data);
    forall k | k in t.handlers
      ensures HandlerOkay(t, k)
    {
      assert HandlerOkay(s, k);
      if k in Listed(s, name) {
        assert t.handlers[k].loaded;
      } else {
        assert t.handlers[k] == s.handlers[k];
      }
    }
  }

  lemma UpdateKeepsReads<H>(s: State<H>, h: H, data: Table, name: string)
    requires Inv(s) && h in s.handlers && h in Listed(s, s.handlers[h].table)
    ensures ReadsOkay(Step(s, Update(h, data)), name)
  {
    hide Build;
    var t := Step(s, Update(h, data));
    assert ReadsOkay(s, name);
    KnownList(s, name);
    KnownList(s, s.handlers[h].table);
    if name == s.handlers[h].table {
      UpdateLoadsAll(s, h, data);
      var i :| 0 <= i < |Listed(s, name)| && Listed(s, name)[i] == h;
      assert t.handlers[Listed(t, name)[i]].loaded;
      if Reads(s, name) == 1 {
        var j :| 0 <= j < |Listed(s, name)| && Listed(s, name)[j] in s.handlers
            && s.handlers[Listed(s, name)[j]].loaded;
        assert LastLoaded(s.handlers, Listed(s, name)) >= 0;
      }
    } else if Reads(s, name) == 1 {
      var i :| 0 <= i < |Listed(s, name)| && Listed(s, name)[i] in s.handlers && s.handlers[Listed(s, name)[i]].loaded;
      assert t.handlers[Listed(t, name)[i]] == s.handlers[Listed(s, name)[i]];
    }
  }

  lemma LookUpKeepsInv<H>(s: State<H>, h: H, index: Key)
    requires Inv(s)
    ensures Inv(Step(s, LookUp(h, index)))
  {
    hide Build;
    var t := Step(s, LookUp(h, index));
    if h in s.handlers && s.handlers[h].Valid() {
      forall name
        ensures ReadsOkay(t, name)
      {
        assert ReadsOkay(s, name);
        if Reads(s, name) == 1 {
          var i :| 0 <= i < |Listed(s, name)| && Listed(s, name)[i] in s.handlers
              && s.handlers[Listed(s, name)[i]].loaded;
          assert t.handlers[Listed(t, name)[i]].loaded;
        }
      }
      forall k | k in t.handlers
        ensures HandlerOkay(t, k)
      {
        assert HandlerOkay(s, k);
      }
    }
  }

  lemma StepKeepsInv<H>(s: State<H>, a: Action<H>)
    requires Inv(s)
    ensures Inv(Step(s, a))
  {
    match a
    case New(h, table, nIds) => NewKeepsInv(s, h, table, nIds);
    case Register(h) => RegisterKeepsInv(s, h);
    case Clear(h) => ClearKeepsInv(s, h);
    case LookUp(h, index) => LookUpKeepsInv(s, h, index);
    case Update(h, data) =>
      if h in s.handlers && h in Listed(s, s.handlers[h].table) {
        UpdateKeepsHandlers(s, h, data);
        forall name
          ensures ReadsOkay(Step(s, a), name)
        {
          UpdateKeepsReads(s, h, data, name);
        }
      }
  }

  // ---- runs ----

  function Run<H(==)>(s: State<H>, actions: seq<Action<H>>): State<H>
    decreases |actions|
  {
    if actions == [] then s else Run(Step(s, actions[0]), actions[1..])
  }

  lemma {:induction false} RunKeepsInv<H>(s: State<H>, actions: seq<Action<H>>)
    requires Inv(s)
    ensures Inv(Run(s, actions))
    decreases |actions|
  {
    if actions != [] {
      StepKeepsInv(s, actions[0]);
      RunKeepsInv(Step(s, actions[0]), actions[1..]);
    }
  }

  function Start<H>(): State<H> { State(map[], map[], map[], map[]) }

  /** In every interleaving of calls from the start: any two loaded handlers of one table hold equal raw
      data, each has the map built from them, and the database has been read for the table at most
      once since it was last cleared. */
  lemma EveryInterleavingAgrees<H>(actions: seq<Action<H>>, g: H, h: H)
    requires g in Run(Start(), actions).handlers && h in Run(Start(), actions).handlers
    requires Run(Start(), actions).handlers[g].table == Run(Start(), actions).handlers[h].table
    requires Run(Start(), actions).handlers[g].loaded && Run(Start(), actions).handlers[h].loaded
    ensures var s := Run(Start(), actions);
            && s.handlers[g].raw == s.handlers[h].raw
            && s.handlers[g].calib == Build(s.handlers[g].raw, s.handlers[g].nIds)
            && Reads(s, s.handlers[g].table) <= 1
  {
    hide Build, Step;
    var start: State<H> := Start();
    assert Inv(start);
    RunKeepsInv(start, actions);
    var s := Run(start, actions);
    assert HandlerOkay(s, g) && HandlerOkay(s, h) && ReadsOkay(s, s.handlers[g].table);
  }

  // ---- database reads along a run ----

  /** The call makes the processor ask the database for the table: an update for a registered handler
      when no handler of the table is loaded. */
  ghost predicate ReadsDatabase<H>(s: State<H>, a: Action<H>, name: string) {
    && a.Update? && a.h in s.handlers && s.handlers[a.h].table == name
    && a.h in Listed(s, name) && !SomeLoaded(s, name)
  }

  ghost predicate ClearsTable<H>(s: State<H>, a: Action<H>, name: string) {
    a.Clear? && a.h in s.handlers && s.handlers[a.h].table == name
  }

  /** How often a run asks the database for a table. */
  ghost function DatabaseReads<H>(s: State<H>, actions: seq<Action<H>>, name: string): nat
    decreases |actions|
  {
    if actions == [] then 0
    else (if ReadsDatabase(s, actions[0], name) then 1 else 0) + DatabaseReads(Step(s, actions[0]), actions[1..], name)
  }

  ghost predicate NeverClears<H>(s: State<H>, actions: seq<Action<H>>, name: string)
    decreases |actions|
  {
    actions != [] ==> !ClearsTable(s, actions[0], name) && NeverClears(Step(s, actions[0]), actions[1..], name)
  }

  lemma SomeLoadedIsFound<H>(s: State<H>, name: string)
    requires Inv(s)
    ensures AllKnown(s.handlers, Listed(s, name))
    ensures SomeLoaded(s, name) <==> LastLoaded(s.handlers, Listed(s, name)) >= 0
  {
    hide Build;
    KnownList(s, name);
    var i := LastLoaded(s.handlers, Listed(s, name));
    assert i >= 0 ==> Listed(s, name)[i] in s.handlers;
  }

  /** The counter of the state counts what DatabaseReads counts. */
  lemma StepCountsRead<H>(s: State<H>, a: Action<H>, name: string)
    requires Inv(s) && !ClearsTable(s, a, name)
    ensures Reads(Step(s, a), name) == Reads(s, name) + if ReadsDatabase(s, a, name) then 1 else 0
  {
    hide Build, Inv, SomeLoaded, LastLoaded, FillUnloaded;
    if a.Update? && a.h in s.handlers {
      var table := s.handlers[a.h].table;
      SomeLoadedIsFound(s, table);
      UpdateOutcome(s, a.h, a.data);
      var list := Listed(s, table);
      if a.h in list && AllLoaded(s.handlers, list) {
        var i :| 0 <= i < |list| && list[i] == a.h;
        assert LastLoaded(s.handlers, list) >= i;
      }
    }
  }

  lemma {:induction false} RunCountsReads<H>(s: State<H>, actions: seq<Action<H>>, name: string)
    requires Inv(s) && NeverClears(s, actions, name)
    ensures Reads(Run(s, actions), name) == Reads(s, name) + DatabaseReads(s, actions, name)
    decreases |actions|
  {
    hide Inv, Step, Reads, ReadsDatabase, ClearsTable;
    if actions != [] {
      StepCountsRead(s, actions[0], name);
      StepKeepsInv(s, actions[0]);
      RunCountsReads(Step(s, actions[0]), actions[1..], name);
    }
  }

  /** However the threads' calls interleave, between two clears of a table the database is asked for
      it at most once. */
  lemma OneReadBetweenClears<H>(before: seq<Action<H>>, actions: seq<Action<H>>, name: string)
    requires NeverClears(Run(Start(), before), actions, name)
    ensures DatabaseReads(Run(Start(), before), actions, name) <= 1
  {
    hide Step, HandlersOkay, RegistryOkay;
    var start: State<H> := Start();
    assert Inv(start) by {
      EmptyIsOkay<H>();
    }
    RunKeepsInv(start, before);
    var s := Run(start, before);
    RunKeepsInv(s, actions);
    RunCountsReads(s, actions, name);
    assert ReadsOkay(Run(s, actions), name);
  }

  lemma EmptyIsOkay<H>()
    ensures Inv(Start<H>())
  {
  }

  // ---- what handlers answer along a run ----

  /** What one call does to the contents of a handler. */
  ghost function Received<H>(s: State<H>, a: Action<H>, h: H): seq<Access>
    requires h in s.handlers
  {
    if a.LookUp? && a.h == h then [Access.Lookup(a.index)]
    else if a.Update? && !s.handlers[h].loaded && h in Step(s, a).handlers && Step(s, a).handlers[h].loaded
    then [Refill(Step(s, a).handlers[h].raw)]
    else []
  }

  /** The refills and lookups of a handler in a run. */
  ghost function HistoryOf<H>(s: State<H>, actions: seq<Action<H>>, h: H): seq<Access>
    requires h in s.handlers
    decreases |actions|
  {
    if actions == [] then []
    else
      HandlersStay(s, actions[0], h);
      Received(s, actions[0], h) + HistoryOf(Step(s, actions[0]), actions[1..], h)
  }

  lemma HandlersStay<H>(s: State<H>, a: Action<H>, h: H)
    requires h in s.handlers
    ensures h in Step(s, a).handlers && Step(s, a).handlers[h].nIds == s.handlers[h].nIds
    ensures Step(s, a).handlers[h].table == s.handlers[h].table
  {
    hide Build, LastLoaded, AllLoaded;
  }

  /** A step treats the contents of a handler as Received says. */
  lemma StepIsReceived<H>(s: State<H>, a: Action<H>, h: H)
    requires Inv(s) && h in s.handlers && s.handlers[h].Valid()
    ensures h in Step(s, a).handlers
    ensures var t := Step(s, a).handlers[h]; After(s.handlers[h], Received(s, a, h)).(loaded := t.loaded) == t
  {
    hide Build, LastLoaded, AllLoaded, Inv;
    HandlersStay(s, a, h);
    var r := Received(s, a, h);
    assert r != [] ==> r[1..] == [];
  }

  lemma {:induction false} LoadedIsNoContent(h: Handler, b: bool, history: seq<Access>)
    requires h.Valid()
    ensures After(h.(loaded := b), history) == After(h, history).(loaded := b)
    decreases |history|
  {
    hide Build;
    if history != [] {
      match history[0]
      case Refill(data) => LoadedIsNoContent(h.Fill(data), b, history[1..]);
      case Lookup(index) => LoadedIsNoContent(h.Remember(index), b, history[1..]);
    }
  }

  lemma {:induction false} AfterBoth(h: Handler, first: seq<Access>, rest: seq<Access>)
    requires h.Valid()
    ensures After(h, first + rest) == After(After(h, first), rest)
    decreases |first|
  {
    hide Build;
    if first == [] {
      assert first + rest == rest;
    } else {
      assert (first + rest)[0] == first[0] && (first + rest)[1..] == first[1..] + rest;
      match first[0]
      case Refill(data) => AfterBoth(h.Fill(data), first[1..], rest);
      case Lookup(index) => AfterBoth(h.Remember(index), first[1..], rest);
    }
  }

  /** Along a run the contents of a handler are those its history leaves. */
  lemma {:induction false} RunIsHistory<H>(s: State<H>, actions: seq<Action<H>>, h: H)
    requires Inv(s) && h in s.handlers && s.handlers[h].Valid()
    ensures h in Run(s, actions).handlers
    ensures var t := Run(s, actions).handlers[h];
            After(s.handlers[h], HistoryOf(s, actions, h)).(loaded := t.loaded) == t
    decreases |actions|
  {
    hide Build, Step, Inv, Received, After;
    if actions == [] {
      AfterNothing(s.handlers[h]);
    } else {
      var u := Step(s, actions[0]);
      StepKeepsInv(s, actions[0]);
      StepIsReceived(s, actions[0], h);
      var first, rest := Received(s, actions[0], h), HistoryOf(u, actions[1..], h);
      RunIsHistory(u, actions[1..], h);
      AfterBoth(s.handlers[h], first, rest);
      LoadedIsNoContent(After(s.handlers[h], first), u.handlers[h].loaded, rest);
    }
  }

  lemma AfterNothing(h: Handler)
    requires h.Valid()
    ensures After(h, []) == h
  {
  }

  lemma {:induction false} AfterMap(h: Handler, history: seq<Access>)
    requires h.Valid()
    ensures After(h, history).calib == LastMap(h.calib, h.nIds, history) && After(h, history).nIds == h.nIds
    decreases |history|
  {
    hide Build;
    if history != [] {
      match history[0]
      case Refill(data) => AfterMap(h.Fill(data), history[1..]);
      case Lookup(index) => AfterMap(h.Remember(index), history[1..]);
    }
  }

  /** What a handler remembers of an index at the end of a run: the value of its first successful lookup. */
  ghost function Remembered<H>(s: State<H>, actions: seq<Action<H>>, h: H, index: Key): Option<seq<real>>
    requires h in s.handlers
  {
    FirstHit(s.handlers[h].calib, s.handlers[h].nIds, HistoryOf(s, actions, h), index)
  }

  function OrElse(v: Option<seq<real>>, w: seq<real>): seq<real> {
    match v
    case Some(x) => x
    case None => w
  }

  lemma AnswerInRun<H>(s: State<H>, actions: seq<Action<H>>, h: H, index: Key)
    requires Inv(s) && h in s.handlers && s.handlers[h].Valid() && index !in s.handlers[h].cacheIndex
    ensures h in Run(s, actions).handlers && Run(s, actions).handlers[h].Valid()
    ensures var t := Run(s, actions).handlers[h];
            && t.Find(index) == OrElse(Remembered(s, actions, h, index), Plain(t.calib, index))
            && t.nIds == s.handlers[h].nIds
  {
    hide Build, Step, Inv, Received, After, HistoryOf, Run, FirstHit, LastMap;
    var v, history := s.handlers[h], HistoryOf(s, actions, h);
    RunIsHistory(s, actions, h);
    CacheKeepsFirstHit(v, history, index);
    AfterMap(v, history);
  }

  /** Two loaded handlers of one table answer an index alike exactly when what each of them remembers of
      it, or else finds in the map they share, is the same: by its own first successful lookup, however
      often the table was cleared and loaded since. */
  lemma LoadedAnswerAlikeExactlyWhen<H>(s: State<H>, actions: seq<Action<H>>, g: H, h: H, index: Key)
    requires Inv(s) && g in s.handlers && h in s.handlers
    requires s.handlers[g].table == s.handlers[h].table && s.handlers[g].nIds == s.handlers[h].nIds
    requires index !in s.handlers[g].cacheIndex && index !in s.handlers[h].cacheIndex
    requires g in Run(s, actions).handlers && Run(s, actions).handlers[g].loaded
    requires h in Run(s, actions).handlers && Run(s, actions).handlers[h].loaded
    ensures var t := Run(s, actions);
            && t.handlers[g].Valid() && t.handlers[h].Valid()
            && t.handlers[g].calib == t.handlers[h].calib
            && var shared := Plain(t.handlers[g].calib, index);
               t.handlers[g].Find(index) == t.handlers[h].Find(index) <==>
               OrElse(Remembered(s, actions, g, index), shared) == OrElse(Remembered(s, actions, h, index), shared)
  {
    hide Build, Step, Run, Remembered, ReadsOkay, RegistryOkay;
    assert HandlerOkay(s, g) && HandlerOkay(s, h);
    RunKeepsInv(s, actions);
    var t := Run(s, actions);
    assert HandlerOkay(t, g) && HandlerOkay(t, h);
    AnswerInRun(s, actions, g, index);
    AnswerInRun(s, actions, h, index);
    RunKeepsTables(s, actions, g);
    RunKeepsTables(s, actions, h);
  }

  lemma {:induction false} RunKeepsTables<H>(s: State<H>, actions: seq<Action<H>>, h: H)
    requires h in s.handlers
    ensures h in Run(s, actions).handlers && Run(s, actions).handlers[h].table == s.handlers[h].table
    decreases |actions|
  {
    hide Step;
    if actions != [] {
      HandlersStay(s, actions[0], h);
      RunKeepsTables(Step(s, actions[0]), actions[1..], h);
    }
  }

  /** Two loaded handlers of one table, of which one finds an index; then the table is cleared and loaded
      anew with other data. Both are loaded, with the same map, and give different answers. */
  lemma ReloadedHandlersDisagree<H>(s: State<H>, g: H, h: H, index: Key, data: Table)
    requires Inv(s) && g in s.handlers && h in s.handlers && g != h
    requires s.handlers[g].table == s.handlers[h].table && s.handlers[g].nIds == s.handlers[h].nIds
    requires s.handlers[g].loaded && s.handlers[h].loaded
    requires index !in s.handlers[g].cacheIndex && index !in s.handlers[h].cacheIndex
    requires index in s.handlers[g].calib && index in Build(data, s.handlers[g].nIds)
    requires s.handlers[g].calib[index] != Build(data, s.handlers[g].nIds)[index]
    ensures var t := Step(Step(Step(s, LookUp(g, index)), Clear(g)), Update(g, data));
            && g in t.handlers && h in t.handlers && t.handlers[g].loaded && t.handlers[h].loaded
            && t.handlers[g].Valid() && t.handlers[h].Valid()
            && t.handlers[g].calib == t.handlers[h].calib
            && t.handlers[g].Find(index) == s.handlers[g].calib[index]
            && t.handlers[h].Find(index) == Build(data, s.handlers[g].nIds)[index]
  {
    hide Build;
    assert HandlerOkay(s, g) && HandlerOkay(s, h);
    var name := s.handlers[g].table;
    var a := Step(s, LookUp(g, index));
    var b := Step(a, Clear(g));
    LookUpKeepsInv(s, g, index);
    ClearKeepsInv(a, g);
    KnownList(a, name);
    KnownList(b, name);
    assert !SomeLoaded(b, name);
    SomeLoadedIsFound(b, name);
    UpdateOutcome(b, g, data);
  }

  /** From the start: two handlers of one table, loaded with a first version of it; handler 0 finds the
      index 0; the table is cleared, and loaded with a second version. */
  function DisagreeingRun(): seq<Action<int>> {
    [New(0, "t", 1), New(1, "t", 1), Register(0), Register(1), Update(0, [[0.0, 1.0]])]
    + [LookUp(0, [0]), Clear(0), Update(0, [[0.0, 2.0]])]
  }

  lemma OneRowBuilds(x: real)
    ensures Build([[0.0, x]], 1) == map[[0] := [x]]
  {
    var rows := [[0.0, x]];
    assert rows[..|rows| - 1] == [] && AddRows(map[], [], 1) == map[];
    assert ToId(0.0) == 0 && KeyOf(rows[0], 1)[0] == 0;
    assert KeyOf(rows[0], 1) == [0];
    assert rows[0][1..] == [x];
    assert Regular(rows, 1) && AddRows(map[], rows, 1) == map[][[0] := [x]];
  }

  lemma {:induction false} RunAppend<H>(s: State<H>, x: seq<Action<H>>, y: seq<Action<H>>)
    ensures Run(s, x + y) == Run(Run(s, x), y)
    decreases |x|
  {
    hide Step;
    if x == [] {
      assert x + y == y;
    } else {
      assert (x + y)[0] == x[0] && (x + y)[1..] == x[1..] + y;
      RunAppend(Step(s, x[0]), x[1..], y);
    }
  }

  lemma ThreeSteps<H>(s: State<H>, a: Action<H>, b: Action<H>, c: Action<H>)
    ensures Run(s, [a, b, c]) == Step(Step(Step(s, a), b), c)
  {
    hide Step;
    assert [a, b, c][1..] == [b, c] && [b, c][1..] == [c] && [c][1..] == [];
    assert Run(Step(s, a), [b, c]) == Run(Step(Step(s, a), b), [c]);
  }

  /** A handler that is not filled. */
  function Unfilled(): Handler { Handler("t", 1, false, [], map[], [], []) }

  /** Two handlers after New and Register, in between and at the end. */
  function TwoHandlers(listed: map<string, seq<int>>): State<int> {
    State(listed, map[0 := Unfilled(), 1 := Unfilled()], map[], map[])
  }

  lemma TwoHandlersRegister()
    ensures Step(Step(Start(), New(0, "t", 1)), New(1, "t", 1)) == TwoHandlers(map[])
    ensures Step(TwoHandlers(map[]), Register(0)) == TwoHandlers(map["t" := [0]])
    ensures Step(TwoHandlers(map["t" := [0]]), Register(1)) == TwoHandlers(map["t" := [0, 1]])
  {
    var start: State<int> := Start();
    assert Step(start, New(0, "t", 1)) == start.(handlers := map[0 := Unfilled()]);
    assert Step(start.(handlers := map[0 := Unfilled()]), New(1, "t", 1)) == TwoHandlers(map[]);
    assert [] + [0] == [0] && [0] + [1] == [0, 1];
  }

  lemma TwoHandlersUpdate()
    ensures var x := Handler("t", 1, true, [[0.0, 1.0]], map[[0] := [1.0]], [], []);
            Step(TwoHandlers(map["t" := [0, 1]]), Update(0, [[0.0, 1.0]])).handlers == map[0 := x, 1 := x]
  {
    var s := TwoHandlers(map["t" := [0, 1]]);
    hide Build, Step;
    OneRowBuilds(1.0);
    assert Listed(s, "t") == [0, 1];
    assert LastLoaded(s.handlers, [0, 1]) == -1;
    assert !AllLoaded(s.handlers, [0, 1]) && 0 in [0, 1];
    UpdateOutcome(s, 0, [[0.0, 1.0]]);
  }

  lemma TwoHandlersLoad()
    ensures var x := Handler("t", 1, true, [[0.0, 1.0]], map[[0] := [1.0]], [], []);
            Run(Start(), DisagreeingRun()[..5]).handlers == map[0 := x, 1 := x]
  {
    var first, last: seq<Action<int>> :=
      [New(0, "t", 1), New(1, "t", 1), Register(0)], [Register(1), Update(0, [[0.0, 1.0]])];
    assert DisagreeingRun()[..5] == first + last;
    hide Step, DisagreeingRun;
    RunAppend(Start(), first, last);
    ThreeSteps(Start(), New(0, "t", 1), New(1, "t", 1), Register(0));
    TwoHandlersRegister();
    assert last[1..] == [Update(0, [[0.0, 1.0]])] && last[1..][1..] == [];
    assert Run(TwoHandlers(map["t" := [0]]), last) ==
           Run(Step(TwoHandlers(map["t" := [0]]), Register(1)), last[1..]);
    TwoHandlersUpdate();
  }

  /** At its end both handlers are loaded with the same map, and look up index 0 as 1.0 and as 2.0. */
  lemma DisagreeingRunDisagrees()
    ensures var t := Run(Start(), DisagreeingRun()).handlers;
            && t.Keys == {0, 1} && t[0].loaded && t[1].loaded && t[0].Valid() && t[1].Valid()
            && t[0].calib == t[1].calib == map[[0] := [2.0]]
            && t[0].Find([0]) == [1.0] && t[1].Find([0]) == [2.0]
  {
    var actions := DisagreeingRun();
    assert actions == actions[..5] + [LookUp(0, [0]), Clear(0), Update(0, [[0.0, 2.0]])];
    hide Step, DisagreeingRun;
    RunAppend(Start(), actions[..5], [LookUp(0, [0]), Clear(0), Update(0, [[0.0, 2.0]])]);
    TwoHandlersLoad();
    var s := Run(Start(), actions[..5]);
    EmptyIsOkay<int>();
    RunKeepsInv(Start(), actions[..5]);
    OneRowBuilds(2.0);
    ReloadedHandlersDisagree(s, 0, 1, [0], [[0.0, 2.0]]);
    ThreeSteps(s, LookUp(0, [0]), Clear(0), Update(0, [[0.0, 2.0]]));
    ReloadedHandlersHold(s, 0, 1, [0], [[0.0, 2.0]]);
  }

  lemma ReloadedHandlersHold<H>(s: State<H>, g: H, h: H, index: Key, data: Table)
    requires Inv(s) && g in s.handlers && h in s.handlers && s.handlers[g].loaded
    ensures var t := Step(Step(Step(s, LookUp(g, index)), Clear(g)), Update(g, data));
            && t.handlers.Keys == s.handlers.Keys && t.handlers[g].calib == Build(data, s.handlers[g].nIds)
  {
    hide Build;
    var name := s.handlers[g].table;
    assert HandlerOkay(s, g);
    var a := Step(s, LookUp(g, index));
    var b := Step(a, Clear(g));
    LookUpKeepsInv(s, g, index);
    ClearKeepsInv(a, g);
    KnownList(a, name);
    KnownList(b, name);
    assert !SomeLoaded(b, name);
    SomeLoadedIsFound(b, name);
    UpdateOutcome(b, g, data);
  }

  // ---- before a table is cleared ----

  function Refills(history: seq<Access>): nat {
    if history == [] then 0 else (if history[0].Refill? then 1 else 0) + Refills(history[1..])
  }

  lemma {:induction false} RefillsConcat(a: seq<Access>, b: seq<Access>)
    ensures Refills(a + b) == Refills(a) + Refills(b)
  {
    if a == [] {
      assert a + b == b;
    } else {
      assert (a + b)[0] == a[0] && (a + b)[1..] == a[1..] + b;
      RefillsConcat(a[1..], b);
    }
  }

  /** With one refill of an empty map, what was found is what the map holds. */
  lemma {:induction false} OneRefillIsPlain(calib: map<Key, seq<real>>, nIds: nat, history: seq<Access>, index: Key)
    requires Refills(history) <= 1 && (calib == map[] || Refills(history) == 0)
    ensures var hit, last := FirstHit(calib, nIds, history, index), LastMap(calib, nIds, history);
            && (Refills(history) == 0 ==> last == calib)
            && (hit.Some? ==> index in last && hit.value == last[index])
    decreases |history|
  {
    hide Build;
    if history != [] {
      match history[0]
      case Refill(data) => OneRefillIsPlain(Build(data, nIds), nIds, history[1..], index);
      case Lookup(i) => OneRefillIsPlain(calib, nIds, history[1..], index);
    }
  }

  lemma LoadedStays<H>(s: State<H>, a: Action<H>, h: H)
    requires Inv(s) && h in s.handlers && s.handlers[h].loaded && !ClearsTable(s, a, s.handlers[h].table)
    ensures h in Step(s, a).handlers && Step(s, a).handlers[h].loaded
  {
    hide Build, LastLoaded, AllLoaded;
    if a.Clear? && a.h in s.handlers {
      KnownList(s, s.handlers[a.h].table);
    }
  }

  /** While its table is not cleared a handler is filled at most once, and not at all once it is loaded. */
  lemma {:induction false} FilledAtMostOnce<H>(s: State<H>, actions: seq<Action<H>>, h: H)
    requires Inv(s) && h in s.handlers && NeverClears(s, actions, s.handlers[h].table)
    ensures Refills(HistoryOf(s, actions, h)) <= if s.handlers[h].loaded then 0 else 1
    decreases |actions|
  {
    hide Step, Inv, ClearsTable;
    if actions != [] {
      HandlersStay(s, actions[0], h);
      StepKeepsInv(s, actions[0]);
      if s.handlers[h].loaded {
        LoadedStays(s, actions[0], h);
      }
      FilledAtMostOnce(Step(s, actions[0]), actions[1..], h);
      RefillsConcat(Received(s, actions[0], h), HistoryOf(Step(s, actions[0]), actions[1..], h));
      ReceivedRefills(s, actions[0], h);
    }
  }

  lemma ReceivedRefills<H>(s: State<H>, a: Action<H>, h: H)
    requires h in s.handlers
    ensures Refills(Received(s, a, h)) <= 1
    ensures Refills(Received(s, a, h)) == 1 ==>
              !s.handlers[h].loaded && h in Step(s, a).handlers && Step(s, a).handlers[h].loaded
  {
    hide Step;
    var r := Received(s, a, h);
    assert r != [] ==> r[1..] == [];
  }

  /** A handler that has not been filled since it was created. */
  predicate Fresh(h: Handler) {
    !h.loaded && h.calib == map[] && h.cacheIndex == [] && h.cache == []
  }

  lemma FreshAnswersPlain<H>(s: State<H>, actions: seq<Action<H>>, h: H, index: Key)
    requires Inv(s) && h in s.handlers && Fresh(s.handlers[h]) && NeverClears(s, actions, s.handlers[h].table)
    ensures h in Run(s, actions).handlers && Run(s, actions).handlers[h].Valid()
    ensures Run(s, actions).handlers[h].Find(index) == Plain(Run(s, actions).handlers[h].calib, index)
  {
    hide Build, Step, Inv, Received, After, HistoryOf, Run, FirstHit, LastMap, NeverClears, Refills;
    var v, history := s.handlers[h], HistoryOf(s, actions, h);
    RunIsHistory(s, actions, h);
    CacheKeepsFirstHit(v, history, index);
    AfterMap(v, history);
    FilledAtMostOnce(s, actions, h);
    OneRefillIsPlain(v.calib, v.nIds, history, index);
  }

  /** As long as a table is not cleared, its handlers answer every index by plain lookup in their maps, so
      any two loaded ones answer alike, however the calls and lookups of the threads interleave. */
  lemma LoadedAgreeUntilCleared<H>(s: State<H>, actions: seq<Action<H>>, g: H, h: H, index: Key)
    requires Inv(s) && g in s.handlers && h in s.handlers && Fresh(s.handlers[g]) && Fresh(s.handlers[h])
    requires s.handlers[g].table == s.handlers[h].table && s.handlers[g].nIds == s.handlers[h].nIds
    requires NeverClears(s, actions, s.handlers[g].table)
    requires g in Run(s, actions).handlers && Run(s, actions).handlers[g].loaded
    requires h in Run(s, actions).handlers && Run(s, actions).handlers[h].loaded
    ensures Run(s, actions).handlers[g].Valid() && Run(s, actions).handlers[h].Valid()
    ensures Run(s, actions).handlers[g].Find(index) == Plain(Run(s, actions).handlers[g].calib, index)
    ensures Run(s, actions).handlers[g].Find(index) == Run(s, actions).handlers[h].Find(index)
  {
    hide Build, Step, Inv, Run, Remembered, NeverClears;
    FreshAnswersPlain(s, actions, g, index);
    FreshAnswersPlain(s, actions, h, index);
    LoadedAnswerAlikeExactlyWhen(s, actions, g, h, index);
  }
}
