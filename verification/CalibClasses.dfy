/** The calibration classes: handlers that are filled and looked up in place, and the processor that
    keeps them in step. */
module CalibClasses {
  import opened CalibTable
  import opened CalibProtocol

  class CalibrationHandler {
    const table: string
    const nIds: nat
    var loaded: bool
    var raw: Table
    var calib: map<Key, seq<real>>
    var cacheIndex: seq<Key>
    var cache: seq<seq<real>>

    ghost function State(): Handler
      reads this
    {
      Handler(table, nIds, loaded, raw, calib, cacheIndex, cache)
    }

    constructor (table: string, nIds: nat)
      ensures State() == Handler(table, nIds, false, [], map[], [], [])
    {
      this.table, this.nIds := table, nIds;
      loaded, raw, calib, cacheIndex, cache := false, [], map[], [], [];
    }

    /** Takes over a table row by row; a row of the wrong length empties the map and ends the work. */
    method FillCalib(data: Table) returns (ok: bool)
      modifies this
      ensures State() == old(State()).Fill(data)
      ensures ok <==> Regular(data, nIds)
    {
      calib := map[];
      raw := data;
      var nData, prevNdata, irow := 0, 0, 0;
      while irow < |data|
        invariant 0 <= irow <= |data| && raw == data
        invariant loaded == old(loaded) && cacheIndex == old(cacheIndex) && cache == old(cache)
        invariant forall i :: 0 <= i < irow ==> |data[i]| == |data[0]| && |data[i]| > nIds
        invariant irow > 0 ==> nData == |data[0]| - nIds
        invariant calib == AddRows(map[], data[..irow], nIds)
      {
        if irow > 0 {
          prevNdata := nData;
        }
        nData := |data[irow]| - nIds;
        if nData <= 0 {
          calib := map[];
          return false;
        }
        if nData != prevNdata && irow != 0 {
          calib := map[];
          return false;
        }
        assert data[..irow + 1][..irow] == data[..irow];
        var index := KeyOf(data[irow], nIds);
        if index !in calib {
          calib := calib[index := data[irow][nIds..]];
        }
        irow := irow + 1;
      }
      assert data[..irow] == data;
      ok := true;
    }

    /** Looks up the cache first, then the map; what is found in the map is added to the cache. */
    method GetCalib(index: Key) returns (ret: seq<real>)
      requires State().Valid()
      modifies this
      ensures ret == old(State()).Find(index)
      ensures State() == old(State()).Remember(index) && State().Valid()
    {
      var pos := 0;
      while pos < |cacheIndex| && cacheIndex[pos] != index
        modifies {}
        invariant 0 <= pos <= |cacheIndex|
        invariant index !in cacheIndex[..pos]
      {
        pos := pos + 1;
      }
      if pos != |cacheIndex| {
        FirstAtIs(cacheIndex, index, pos);
        return cache[pos];
      }
      assert cacheIndex[..pos] == cacheIndex;
      if index !in calib {
        return [];
      }
      ret := calib[index];
      cacheIndex := cacheIndex + [index];
      cache := cache + [ret];
    }

    /** The one value of an index, or zero when there is not exactly one. */
    method GetCalibSingle(index: Key) returns (x: real)
      requires State().Valid()
      modifies this
      ensures x == if |old(State()).Find(index)| == 1 then old(State()).Find(index)[0] else 0.0
      ensures State() == old(State()).Remember(index) && State().Valid()
    {
      var data := GetCalib(index);
      x := if |data| == 1 then data[0] else 0.0;
    }
  }

  lemma FirstAtIs(s: seq<Key>, k: Key, i: nat)
    requires i < |s| && s[i] == k && k !in s[..i]
    ensures k in s && FirstAt(s, k) == i
  {
    NotBefore(s, k, i);
    NotBefore(s, k, FirstAt(s, k));
  }

  lemma NotBefore(s: seq<Key>, k: Key, i: nat)
    requires i <= |s| && k !in s[..i]
    ensures forall j :: 0 <= j < i ==> s[j] != k
  {
    assert forall j :: 0 <= j < i ==> s[..i][j] == s[j];
  }

  /** The statement's record of the database reads. */
  datatype Log = Log(readCount: map<string, nat>, lastRead: map<string, Table>)

  class BDXEventProcessor {
    var calibrations: map<string, seq<CalibrationHandler>>
    ghost var known: set<CalibrationHandler>

    ghost function States(): map<CalibrationHandler, Handler>
      reads this`known, known
    {
      map h | h in known :: h.State()
    }

    /** What the methods need to know about how often, and with what outcome, the database was read. */
    ghost function Abs(log: Log): State<CalibrationHandler>
      reads this, known
    {
      State(calibrations, States(), log.readCount, log.lastRead)
    }

    constructor ()
      ensures Abs(Log(map[], map[])) == Start() && known == {}
    {
      calibrations, known := map[], {};
    }

    /** Registers a handler that is new, or one that has been registered before. */
    method AddCalibration(cal: CalibrationHandler, ghost log: Log)
      requires cal in known || cal.State() == Handler(cal.table, cal.nIds, false, [], map[], [], [])
      modifies this
      ensures known == old(known) + {cal}
      ensures Abs(log) == Step(Step(old(Abs(log)), New(cal, cal.table, cal.nIds)), Register(cal))
    {
      var list := if cal.table in calibrations then calibrations[cal.table] else [];
      calibrations := calibrations[cal.table := list + [cal]];
      known := known + {cal};
      assert States() == if cal in old(known) then old(States()) else old(States())[cal := cal.State()];
    }

    method ClearCalibration(cal: CalibrationHandler, ghost log: Log) returns (ghost newLog: Log)
      requires cal in known && RegistryOkay(Abs(log))
      modifies known`loaded
      ensures Abs(newLog) == Step(old(Abs(log)), Clear(cal))
    {
      newLog := log;
      if cal.table !in calibrations {
        return;
      }
      var list := calibrations[cal.table];
      if cal !in list {
        return;
      }
      KnownList(Abs(log), cal.table);
      assert forall k :: k in list ==> k in known;
      var i := 0;
      while i < |list|
        invariant 0 <= i <= |list|
        invariant forall k :: k in known ==> k.loaded == (old(k.loaded) && k !in list[..i])
      {
        assert list[i] in list;
        list[i].loaded := false;
        i := i + 1;
      }
      assert list[..i] == list;
      newLog := log.(readCount := log.readCount[cal.table := 0]);
      assert States() == Unload(old(States()), list);
    }

    /** `data` is what the database would give for the table. The return code of filling is not looked
        at: a handler counts as loaded even when the table was irregular. */
    method UpdateCalibration(cal: CalibrationHandler, data: Table, ghost log: Log) returns (ghost newLog: Log)
      requires cal in known && RegistryOkay(Abs(log))
      modifies known
      ensures Abs(newLog) == Step(old(Abs(log)), Update(cal, data))
    {
      newLog := log;
      hide Build, FillUnloaded, AllLoaded, LastLoaded, Step;
      KnownList(Abs(log), cal.table);
      UpdateOutcome(Abs(log), cal, data);
      if cal.table !in calibrations {
        return;
      }
      var list := calibrations[cal.table];
      if cal !in list {
        return;
      }
      ghost var before := Abs(log);
      assert forall k :: k in list ==> k in known;
      var flagAll, calibratedOne := ScanLoaded(list);
      if flagAll {
        return;
      } else if calibratedOne != -1 {
        assert list[calibratedOne] in list;
        assert list[calibratedOne].raw == before.handlers[list[calibratedOne]].raw;
        FillOthers(list, list[calibratedOne].raw);
      } else {
        FillAll(list, data);
        newLog := Log(log.readCount[cal.table := Reads(before, cal.table) + 1], log.lastRead[cal.table := data]);
      }
    }

    /** Whether all handlers of a list are loaded, and the position of the last loaded one, or -1. */
    method ScanLoaded(list: seq<CalibrationHandler>) returns (flagAll: bool, calibratedOne: int)
      requires forall k :: k in list ==> k in known
      ensures AllKnown(States(), list)
      ensures flagAll <==> AllLoaded(States(), list)
      ensures calibratedOne == LastLoaded(States(), list)
      ensures calibratedOne == -1 ==> forall k :: k in list ==> !k.loaded
    {
      flagAll, calibratedOne := true, -1;
      var i := 0;
      while i < |list|
        invariant 0 <= i <= |list| && -1 <= calibratedOne < i
        invariant flagAll <==> forall j :: 0 <= j < i ==> list[j].loaded
        invariant calibratedOne >= 0 ==> list[calibratedOne].loaded
        invariant forall j :: calibratedOne < j < i ==> !list[j].loaded
      {
        if !list[i].loaded {
          flagAll := false;
        } else {
          calibratedOne := i;
        }
        i := i + 1;
      }
    }

    /** Copies to every handler of the list that is not loaded. The source itself is loaded and so is
        passed over. */
    method FillOthers(list: seq<CalibrationHandler>, data: Table)
      requires forall k :: k in list ==> k in known
      modifies known
      ensures States() == FillUnloaded(old(States()), list, data)
    {
      hide Build;
      var i := 0;
      while i < |list|
        modifies known
        invariant 0 <= i <= |list|
        invariant forall k :: k in known ==>
                    k.State() == if k in list[..i] && !old(k.loaded) then Loaded(old(k.State()), data)
                                 else old(k.State())
      {
        assert list[i] in list;
        if !list[i].loaded {
          var ok := list[i].FillCalib(data);
          list[i].loaded := true;
        }
        i := i + 1;
      }
      assert list[..i] == list;
      assert States() == FillUnloaded(old(States()), list, data);
    }

    /** Fills every handler of a list none of which is loaded. */
    method FillAll(list: seq<CalibrationHandler>, data: Table)
      requires forall k :: k in list ==> k in known && !k.loaded
      modifies known
      ensures States() == FillUnloaded(old(States()), list, data)
    {
      hide Build;
      var i := 0;
      while i < |list|
        modifies known
        invariant 0 <= i <= |list|
        invariant forall k :: k in known ==>
                    k.State() == if k in list[..i] then Loaded(old(k.State()), data) else old(k.State())
      {
        assert list[i] in list;
        var ok := list[i].FillCalib(data);
        list[i].loaded := true;
        i := i + 1;
      }
      assert list[..i] == list;
      assert States() == FillUnloaded(old(States()), list, data);
    }
  }
}
