/** One calibration handler: the table it was filled with, the map built from it, and a cache. */
module CalibTable {
  import opened Options

  type Table = seq<seq<real>>
  type Key = seq<int>

  /** A table value turned into an index field: the fraction is cut off. */
  function ToId(x: real): int {
    if x >= 0.0 then x.Floor else -((-x).Floor)
  }

  function KeyOf(row: seq<real>, nIds: nat): (k: Key)
    requires nIds <= |row|
    ensures |k| == nIds
  {
    seq(nIds, i requires 0 <= i < nIds => ToId(row[i]))
  }

  /** All rows have one common length, above the number of index fields. */
  predicate Regular(t: Table, nIds: nat) {
    forall i :: 0 <= i < |t| ==> |t[i]| == |t[0]| && |t[i]| > nIds
  }

  /** Adds the rows to a map; a key that is there already keeps its data. */
  function AddRows(m: map<Key, seq<real>>, rows: Table, nIds: nat): map<Key, seq<real>>
    requires forall i :: 0 <= i < |rows| ==> |rows[i]| > nIds
  {
    if rows == [] then m
    else
      var before := AddRows(m, rows[..|rows| - 1], nIds);
      var row := rows[|rows| - 1];
      if KeyOf(row, nIds) in before then before else before[KeyOf(row, nIds) := row[nIds..]]
  }

  /** The map that filling with a table leaves; an irregular table leaves none. */
  function Build(t: Table, nIds: nat): map<Key, seq<real>> {
    if Regular(t, nIds) then AddRows(map[], t, nIds) else map[]
  }

  /** Row i is the first one with key k. */
  ghost predicate IsFirstRow(rows: Table, nIds: nat, i: nat, k: Key)
    requires i < |rows| && forall j :: 0 <= j < |rows| ==> |rows[j]| > nIds
  {
    KeyOf(rows[i], nIds) == k && forall j :: 0 <= j < i ==> KeyOf(rows[j], nIds) != k
  }

  /** The first row of each key gives its data, and there are no other keys. */
  lemma {:induction false} FirstRowWins(rows: Table, nIds: nat, k: Key)
    requires forall i :: 0 <= i < |rows| ==> |rows[i]| > nIds
    ensures var m := AddRows(map[], rows, nIds);
            && (k in m <==> exists i :: 0 <= i < |rows| && KeyOf(rows[i], nIds) == k)
            && (forall i :: 0 <= i < |rows| && IsFirstRow(rows, nIds, i, k) ==> m[k] == rows[i][nIds..])
  {
    if rows != [] {
      var n := |rows| - 1;
      var init := rows[..n];
      FirstRowWins(init, nIds, k);
      assert forall i :: 0 <= i < n ==> init[i] == rows[i];
      assert forall i :: 0 <= i < n ==> (IsFirstRow(init, nIds, i, k) <==> IsFirstRow(rows, nIds, i, k));
      if KeyOf(rows[n], nIds) == k && k in AddRows(map[], init, nIds) {
        var i :| 0 <= i < |init| && KeyOf(init[i], nIds) == k;
        assert KeyOf(rows[i], nIds) == k;
      }
    }
  }

  // ---- the handler as a value ----

  datatype Handler = Handler(table: string, nIds: nat, loaded: bool, raw: Table, calib: map<Key, seq<real>>,
                             cacheIndex: seq<Key>, cache: seq<seq<real>>)
  {
    predicate Valid() { |cacheIndex| == |cache| }

    /** What fillCalib does: the cache stays. */
    function Fill(data: Table): Handler {
      this.(raw := data, calib := Build(data, nIds))
    }

    /** What getCalib returns. */
    function Find(index: Key): seq<real>
      requires Valid()
    {
      if index in cacheIndex then cache[FirstAt(cacheIndex, index)]
      else if index in calib then calib[index]
      else []
    }

    /** The handler after getCalib: a first successful lookup is remembered. */
    function Remember(index: Key): Handler
      requires Valid()
    {
      if index !in cacheIndex && index in calib
      then this.(cacheIndex := cacheIndex + [index], cache := cache + [calib[index]])
      else this
    }
  }

  // ---- lookup, over the table itself ----

  /** n is x with its fraction cut off, towards zero. */
  predicate CutTo(x: real, n: int) {
    if x >= 0.0 then n as real <= x < (n + 1) as real else (n - 1) as real < x <= n as real
  }

  /** The first columns of a row are the index, field by field. */
  predicate Matches(row: seq<real>, k: Key, nIds: nat) {
    |k| == nIds <= |row| && forall j :: 0 <= j < nIds ==> CutTo(row[j], k[j])
  }

  predicate FirstMatch(rows: Table, nIds: nat, i: nat, k: Key)
    requires i < |rows|
  {
    Matches(rows[i], k, nIds) && forall j :: 0 <= j < i ==> !Matches(rows[j], k, nIds)
  }

  lemma CutToIs(x: real, n: int)
    ensures CutTo(x, n) <==> n == ToId(x)
  {
    if x < 0.0 && CutTo(x, n) {
      assert (-n) as real <= -x < (-n + 1) as real;
      assert (-x).Floor == -n;
    }
  }

  lemma MatchesIs(row: seq<real>, k: Key, nIds: nat)
    requires nIds <= |row|
    ensures Matches(row, k, nIds) <==> KeyOf(row, nIds) == k
  {
    hide CutTo, ToId;
    forall j | 0 <= j < nIds && j < |k|
      ensures CutTo(row[j], k[j]) <==> k[j] == KeyOf(row, nIds)[j]
    {
      CutToIs(row[j], k[j]);
    }
  }

  /** With whole numbers in the index columns a row is found under just these numbers. */
  lemma WholeColumnsMatch(row: seq<real>, k: Key, nIds: nat)
    requires nIds <= |row| && forall j :: 0 <= j < nIds ==> row[j] == row[j].Floor as real
    ensures Matches(row, k, nIds) <==> |k| == nIds && forall j :: 0 <= j < nIds ==> row[j] == k[j] as real
  {
    hide CutTo;
    forall j | 0 <= j < nIds && j < |k|
      ensures CutTo(row[j], k[j]) <==> row[j] == k[j] as real
    {
      WholeCut(row[j], k[j]);
    }
  }

  lemma WholeCut(x: real, n: int)
    requires x == x.Floor as real
    ensures CutTo(x, n) <==> x == n as real
  {
    if CutTo(x, n) {
      assert n == x.Floor;
    }
  }

  /** Filling with a regular table makes a handler that remembers nothing under an index answer with the
      data of the first row that matches it, and with nothing when no row does or the table is irregular. */
  lemma FilledAnswers(h: Handler, rows: Table, k: Key)
    requires h.Valid() && k !in h.cacheIndex
    ensures var r := h.Fill(rows).Find(k);
            && (forall i :: 0 <= i < |rows| && Regular(rows, h.nIds) && FirstMatch(rows, h.nIds, i, k) ==>
                  r == rows[i][h.nIds..] && r != [])
            && ((!Regular(rows, h.nIds) || forall i :: 0 <= i < |rows| ==> !Matches(rows[i], k, h.nIds)) <==> r == [])
  {
    hide Matches, KeyOf;
    if Regular(rows, h.nIds) {
      forall i | 0 <= i < |rows|
        ensures Matches(rows[i], k, h.nIds) <==> KeyOf(rows[i], h.nIds) == k
        ensures FirstMatch(rows, h.nIds, i, k) <==> IsFirstRow(rows, h.nIds, i, k)
      {
        SameFirst(rows, h.nIds, i, k);
      }
      FirstRowWins(rows, h.nIds, k);
      if i :| 0 <= i < |rows| && KeyOf(rows[i], h.nIds) == k {
        var first := FirstMatchBelow(rows, h.nIds, i, k);
      }
    }
  }

  lemma SameFirst(rows: Table, nIds: nat, i: nat, k: Key)
    requires i < |rows| && forall j :: 0 <= j < |rows| ==> |rows[j]| > nIds
    ensures Matches(rows[i], k, nIds) <==> KeyOf(rows[i], nIds) == k
    ensures FirstMatch(rows, nIds, i, k) <==> IsFirstRow(rows, nIds, i, k)
  {
    hide Matches, KeyOf;
    forall j | 0 <= j < |rows|
      ensures Matches(rows[j], k, nIds) <==> KeyOf(rows[j], nIds) == k
    {
      MatchesIs(rows[j], k, nIds);
    }
  }

  lemma {:induction false} FirstMatchBelow(rows: Table, nIds: nat, i: nat, k: Key) returns (first: nat)
    requires i < |rows| && Matches(rows[i], k, nIds)
    ensures first <= i && FirstMatch(rows, nIds, first, k)
  {
    hide Matches;
    if j :| 0 <= j < i && Matches(rows[j], k, nIds) {
      first := FirstMatchBelow(rows, nIds, j, k);
    } else {
      first := i;
    }
  }

  /** Two index fields: their order counts. */
  lemma TwoFields(h: Handler)
    requires h.nIds == 2 && h.Valid() && h.cacheIndex == []
    ensures var filled := h.Fill([[1.0, 2.0, 10.0], [2.0, 1.0, 20.0], [1.5, 2.9, 30.0]]);
            filled.Find([1, 2]) == [10.0] && filled.Find([2, 1]) == [20.0] && filled.Find([1, 1]) == []
  {
    var rows := [[1.0, 2.0, 10.0], [2.0, 1.0, 20.0], [1.5, 2.9, 30.0]];
    TwoFieldsMatch(1.0, 2.0, 10.0);
    TwoFieldsMatch(2.0, 1.0, 20.0);
    TwoFieldsMatch(1.5, 2.9, 30.0);
    hide Build, Matches;
    FilledAnswers(h, rows, [1, 2]);
    FilledAnswers(h, rows, [2, 1]);
    FilledAnswers(h, rows, [1, 1]);
    assert rows[0][2..] == [10.0] && rows[1][2..] == [20.0];
  }

  lemma TwoFieldsMatch(a: real, b: real, x: real)
    ensures forall m, n :: Matches([a, b, x], [m, n], 2) <==> CutTo(a, m) && CutTo(b, n)
  {
    hide CutTo;
    forall m, n
      ensures Matches([a, b, x], [m, n], 2) <==> CutTo(a, m) && CutTo(b, n)
    {
      var row, k := [a, b, x], [m, n];
      assert CutTo(row[0], k[0]) <==> CutTo(a, m);
      assert CutTo(row[1], k[1]) <==> CutTo(b, n);
    }
  }

  /** The position of the first occurrence. */
  function FirstAt(s: seq<Key>, k: Key): (i: nat)
    requires k in s
    ensures i < |s| && s[i] == k && k !in s[..i]
  {
    if s[0] == k then 0 else 1 + FirstAt(s[1..], k)
  }

  // ---- histories of one handler ----

  datatype Access = Refill(data: Table) | Lookup(index: Key)

  function After(h: Handler, history: seq<Access>): (r: Handler)
    requires h.Valid()
    ensures r.Valid()
    decreases |history|
  {
    if history == [] then h
    else
      match history[0]
      case Refill(data) => After(h.Fill(data), history[1..])
      case Lookup(index) => After(h.Remember(index), history[1..])
  }

  /** The value of the first lookup of `index` that succeeded in the map of its time, without any
      cache: `calib` is the map at the start. */
  function FirstHit(calib: map<Key, seq<real>>, nIds: nat, history: seq<Access>, index: Key): Option<seq<real>>
    decreases |history|
  {
    if history == [] then None
    else
      match history[0]
      case Refill(data) => FirstHit(Build(data, nIds), nIds, history[1..], index)
      case Lookup(i) =>
        if i == index && i in calib then Some(calib[i]) else FirstHit(calib, nIds, history[1..], index)
  }

  /** The map that the last refill of a history left. */
  function LastMap(calib: map<Key, seq<real>>, nIds: nat, history: seq<Access>): map<Key, seq<real>>
    decreases |history|
  {
    if history == [] then calib
    else if history[0].Refill? then LastMap(Build(history[0].data, nIds), nIds, history[1..])
    else LastMap(calib, nIds, history[1..])
  }

  /** Plain lookup in a map. */
  function Plain(calib: map<Key, seq<real>>, index: Key): seq<real> {
    if index in calib then calib[index] else []
  }

  /** Over any history of refills and lookups a handler that starts with no cached entry for `index`
      answers with the value of the first successful lookup of it; before there is one, with plain
      lookup in the map of the last refill. Refills do not reach a remembered value. */
  lemma {:induction false} CacheKeepsFirstHit(h: Handler, history: seq<Access>, index: Key)
    requires h.Valid() && index !in h.cacheIndex
    ensures After(h, history).Find(index) ==
            match FirstHit(h.calib, h.nIds, history, index)
            case Some(v) => v
            case None => Plain(LastMap(h.calib, h.nIds, history), index)
    decreases |history|
  {
    hide Build;
    if history != [] {
      match history[0]
      case Refill(data) => CacheKeepsFirstHit(h.Fill(data), history[1..], index);
      case Lookup(i) =>
        if i == index && i in h.calib {
          CachedStays(h.Remember(i), history[1..], index);
        } else {
          CacheKeepsFirstHit(h.Remember(i), history[1..], index);
        }
    }
  }

  /** A cached entry answers for ever. */
  lemma {:induction false} CachedStays(h: Handler, history: seq<Access>, index: Key)
    requires h.Valid() && index in h.cacheIndex
    ensures After(h, history).Find(index) == h.Find(index)
    decreases |history|
  {
    hide Build;
    if history != [] {
      match history[0]
      case Refill(data) => CachedStays(h.Fill(data), history[1..], index);
      case Lookup(i) =>
        RememberKeepsOthers(h, i, index);
        CachedStays(h.Remember(i), history[1..], index);
    }
  }

  lemma RememberKeepsOthers(h: Handler, i: Key, index: Key)
    requires h.Valid() && index in h.cacheIndex
    ensures index in h.Remember(i).cacheIndex && h.Remember(i).Find(index) == h.Find(index)
  {
    var r := h.Remember(i);
    if r != h {
      FirstAtAppend(h.cacheIndex, [i], index);
    }
  }

  lemma {:induction false} FirstAtAppend(s: seq<Key>, t: seq<Key>, k: Key)
    requires k in s
    ensures k in s + t && FirstAt(s + t, k) == FirstAt(s, k)
  {
    assert (s + t)[0] == s[0];
    if s[0] != k {
      assert (s + t)[1..] == s[1..] + t;
      FirstAtAppend(s[1..], t, k);
    }
  }

  predicate NoRefill(history: seq<Access>) {
    forall i :: 0 <= i < |history| ==> history[i].Lookup?
  }

  /** Between refills the cache is invisible: after a refill of a handler that has nothing cached, and
      any lookups, every answer is plain lookup in the map. */
  lemma {:induction false} BetweenRefillsCacheIsInvisible(h: Handler, history: seq<Access>, index: Key)
    requires h.Valid() && index !in h.cacheIndex && NoRefill(history)
    ensures After(h, history).Find(index) == Plain(h.calib, index)
    decreases |history|
  {
    CacheKeepsFirstHit(h, history, index);
    LookupsFindPlain(h.calib, h.nIds, history, index);
  }

  lemma {:induction false} LookupsFindPlain(calib: map<Key, seq<real>>, nIds: nat, history: seq<Access>, index: Key)
    requires NoRefill(history)
    ensures LastMap(calib, nIds, history) == calib
    ensures var hit := FirstHit(calib, nIds, history, index); hit.Some? ==> index in calib && hit.value == calib[index]
    decreases |history|
  {
    if history != [] {
      assert history[0].Lookup?;
      LookupsFindPlain(calib, nIds, history[1..], index);
    }
  }

  /** After a refill with another value for an index that has been looked up, the old value is still
      returned. */
  lemma StaleAfterRefill(h: Handler, index: Key, a: Table, b: Table)
    requires h.Valid() && index !in h.cacheIndex
    requires index in Build(a, h.nIds) && index in Build(b, h.nIds)
    ensures var history := [Refill(a), Lookup(index), Refill(b)];
            After(h, history).calib == Build(b, h.nIds) && After(h, history).Find(index) == Build(a, h.nIds)[index]
  {
    hide Build;
    var history := [Refill(a), Lookup(index), Refill(b)];
    assert history[1..] == [Lookup(index), Refill(b)] && history[1..][1..] == [Refill(b)] && [Refill(b)][1..] == [];
    CacheKeepsFirstHit(h, history, index);
    assert After(h, history) == After(h.Fill(a), history[1..]);
    assert After(h.Fill(a), history[1..]) == After(h.Fill(a).Remember(index), [Refill(b)]);
    assert After(h.Fill(a).Remember(index), [Refill(b)]) == h.Fill(a).Remember(index).Fill(b);
    assert FirstHit(h.calib, h.nIds, history, index) == FirstHit(Build(a, h.nIds), h.nIds, history[1..], index);
  }
}
