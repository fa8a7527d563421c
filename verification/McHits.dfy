/** Turning simulated veto hits into one digitised hit per readout. */
module McHits {

  datatype Version = CataniaV1 | CataniaV2 | FullV1 | FullV2 | JLabFluxV1 | BDXminiV1

  type Eight = s: seq<int> | |s| == 8 witness [0, 0, 0, 0, 0, 0, 0, 0]

  /** A simulated hit: `adc` and `tdc` are the eight fields adc1 to adc8 and tdc1 to tdc8. */
  datatype McHit = McHit(system: int, sector: int, channel: int, adc: Eight, tdc: Eight)

  datatype Channel = Channel(sector: int, layer: int, component: int, readout: int)

  datatype DigiHit = DigiHit(channel: Channel, qphe: int, aphe: int, t: int)

  /** The fields of an index are eight bits wide. */
  function Int8(x: int): int { (x + 128) % 256 - 128 }

  /** The detector component of a simulation channel, -1 for none. */
  function ComponentOf(v: Version, channel: int): int {
    match v
    case JLabFluxV1 => channel
    case BDXminiV1 => if channel == 9 then 10 else if channel == 10 then 9 else if channel == 1 then 1 else -1
    case CataniaV2 =>
      if channel == 1 then 0 else if channel == 2 then 3 else if channel == 3 then 4 else if channel == 4 then 5
      else if channel == 5 then 1 else if channel == 6 then 2 else -1
    case _ =>
      if channel == 1 then 0 else if channel == 2 then 3 else if channel == 3 then 4 else if channel == 4 then 5
      else if channel == 5 then 2 else if channel == 6 then 1 else -1
  }

  /** The volume a hit belongs to: the key of its group. */
  function VolumeOf(v: Version, h: McHit): Channel {
    Channel(Int8(h.sector), if v == BDXminiV1 && h.system == 8 then 1 else 0, Int8(ComponentOf(v, h.channel)), 0)
  }

  // ---- the two tables ----

  /** The readouts created for a volume: each with its label and the adc field it starts from. */
  function Created(v: Version, c: Channel): seq<(Channel, nat)> {
    match v
    case JLabFluxV1 => [(c.(readout := 1), 0)]
    case BDXminiV1 =>
      if c.component == 9 || c.component == 10 then [(c, 0)]
      else if c.component == 1 then
        [(c.(component := 1), 0), (c.(component := 2), 1), (c.(component := 3), 2), (c.(component := 4), 3),
         (c.(component := 5), 4), (c.(component := 6), 5), (c.(component := 7), 6), (c.(component := 8), 7)]
      else []
    case _ =>
      if c.component == 0 then
        [(c.(readout := 1), 0), (c.(readout := 2), 1), (c.(readout := 3), 2), (c.(readout := 4), 3)]
      else if c.component == 1 || c.component == 2 then
        [(c.(readout := 1), 3), (c.(readout := 2), 2), (c.(readout := 3), 1), (c.(readout := 4), 0)]
      else if c.component == 3 then
        if v == CataniaV1 then
          [(c.(readout := 1), 0), (c.(readout := 2), 3), (c.(readout := 3), 2), (c.(readout := 4), 1)]
        else [(c.(readout := 1), 0), (c.(readout := 2), 1), (c.(readout := 3), 2), (c.(readout := 4), 3)]
      else if c.component == 4 || c.component == 5 then [(c.(readout := 1), 0)]
      else []
  }

  /** The adc fields that a further hit adds to the readouts of an existing group, by position. */
  function Added(v: Version, component: int): seq<nat> {
    match v
    case JLabFluxV1 => [0]
    case BDXminiV1 =>
      if component == 9 || component == 10 then [0]
      else if component == 1 then [0, 1, 2, 3, 4, 5, 6, 7]
      else []
    case _ =>
      if component == 0 then [0, 1, 2, 3]
      else if component == 1 || component == 2 then [3, 2, 1, 0]
      else if component == 3 then (if v == CataniaV1 then [0, 3, 2, 1] else [0, 1, 2, 3])
      else if component == 4 || component == 5 then [0]
      else []
  }

  /** Creating and accumulating use the same assignment of fields to readouts, the readouts of a group
      have different labels, and no field is used twice in a group. */
  lemma TablesAgree(v: Version, c: Channel)
    ensures |Added(v, c.component)| == |Created(v, c)| <= 8
    ensures forall i :: 0 <= i < |Created(v, c)| ==> Created(v, c)[i].1 == Added(v, c.component)[i] < 8
    ensures forall i, j :: 0 <= i < j < |Created(v, c)| ==>
              Created(v, c)[i].0 != Created(v, c)[j].0 && Created(v, c)[i].1 != Created(v, c)[j].1
  {
  }

  // ---- the loop ----

  type Groups = map<Channel, seq<DigiHit>>

  /** The time is that of the hit that created the readout, in picoseconds. */
  function NewGroup(v: Version, h: McHit): (g: seq<DigiHit>)
    ensures |g| == |Created(v, VolumeOf(v, h))|
  {
    var created := Created(v, VolumeOf(v, h));
    seq(|created|, i requires 0 <= i < |created| =>
      TablesAgree(v, VolumeOf(v, h));
      DigiHit(created[i].0, h.adc[created[i].1], h.adc[created[i].1], h.tdc[created[i].1]))
  }

  method Evnt(v: Version, hits: seq<McHit>) returns (groups: Groups)
    ensures GroupsOf(v, hits, groups)
  {
    hide Created, VolumeOf, Added, TimesOkay;
    groups := map[];
    var it := 0;
    while it < |hits|
      invariant 0 <= it <= |hits|
      invariant forall c :: c in groups <==> Created(v, c) != [] && exists k :: 0 <= k < it && VolumeOf(v, hits[k]) == c
      invariant forall c :: c in groups ==> GroupOkay(v, hits[..it], c, groups[c])
      invariant forall c :: c in groups ==> TimesOkay(v, hits[..it], c, groups[c])
    {
      var h := hits[it];
      var c := VolumeOf(v, h);
      assert hits[..it + 1] == hits[..it] + [h];
      forall d | d in groups && d != c
        ensures GroupOkay(v, hits[..it + 1], d, groups[d])
      {
        OtherVolume(v, hits[..it], h, d, groups[d]);
      }
      forall d | d in groups && d != c
        ensures TimesOkay(v, hits[..it + 1], d, groups[d])
      {
        TimesStay(v, hits[..it], h, d, groups[d], groups[d]);
      }
      TablesAgree(v, c);
      if c !in groups {
        if Created(v, c) != [] {
          FirstOfVolume(v, hits[..it], h);
          FirstTimes(v, hits[..it], h);
          groups := groups[c := NewGroup(v, h)];
        }
      } else {
        var group := AddHit(v, h, groups[c]);
        NextOfVolume(v, hits[..it], h, groups[c], group);
        NotTheFirst(v, hits, it);
        TimesStay(v, hits[..it], h, c, groups[c], group);
        groups := groups[c := group];
      }
      it := it + 1;
    }
    assert hits[..it] == hits;
  }

  /** Adds the charges of a further hit to the readouts of its group. */
  method AddHit(v: Version, h: McHit, group0: seq<DigiHit>) returns (group: seq<DigiHit>)
    requires |group0| == |Added(v, VolumeOf(v, h).component)|
    ensures |group| == |group0|
    ensures forall i :: 0 <= i < |group| ==> Added(v, VolumeOf(v, h).component)[i] < 8
    ensures forall i :: 0 <= i < |group| ==>
              var a := h.adc[Added(v, VolumeOf(v, h).component)[i]];
              group[i] == group0[i].(qphe := group0[i].qphe + a, aphe := group0[i].aphe + a)
  {
    TablesAgree(v, VolumeOf(v, h));
    hide VolumeOf, Added;
    var fields := Added(v, VolumeOf(v, h).component);
    group := group0;
    var i := 0;
    while i < |fields|
      invariant 0 <= i <= |fields| && |group| == |group0|
      invariant forall j :: 0 <= j < i ==>
                  var a := h.adc[fields[j]];
                  group[j] == group0[j].(qphe := group0[j].qphe + a, aphe := group0[j].aphe + a)
      invariant forall j :: i <= j < |group| ==> group[j] == group0[j]
    {
      var a := h.adc[fields[i]];
      group := group[i := group[i].(qphe := group[i].qphe + a, aphe := group[i].aphe + a)];
      i := i + 1;
    }
  }

  // ---- charges ----

  /** The sum of one adc field over the hits of a volume. */
  function Charge(v: Version, hits: seq<McHit>, c: Channel, field: nat): int
    requires field < 8
  {
    if hits == [] then 0
    else
      var last := hits[|hits| - 1];
      Charge(v, hits[..|hits| - 1], c, field) + if VolumeOf(v, last) == c then last.adc[field] else 0
  }

  /** A group has the readouts of its volume, each with the charge of the one field assigned to it. */
  ghost predicate GroupOkay(v: Version, hits: seq<McHit>, c: Channel, group: seq<DigiHit>) {
    && |group| == |Created(v, c)|
    && forall i :: 0 <= i < |group| ==>
         && Created(v, c)[i].1 < 8
         && group[i].channel == Created(v, c)[i].0
         && group[i].qphe == group[i].aphe == Charge(v, hits, c, Created(v, c)[i].1)
  }

  lemma ChargeOfOneMore(v: Version, hits: seq<McHit>, h: McHit, c: Channel, field: nat)
    requires field < 8
    ensures Charge(v, hits + [h], c, field) ==
            Charge(v, hits, c, field) + if VolumeOf(v, h) == c then h.adc[field] else 0
  {
    assert (hits + [h])[..|hits|] == hits;
  }

  lemma OtherVolume(v: Version, hits: seq<McHit>, h: McHit, c: Channel, group: seq<DigiHit>)
    requires VolumeOf(v, h) != c && GroupOkay(v, hits, c, group)
    ensures GroupOkay(v, hits + [h], c, group)
  {
    hide Created, VolumeOf;
    forall i | 0 <= i < |group|
      ensures group[i].qphe == Charge(v, hits + [h], c, Created(v, c)[i].1)
    {
      ChargeOfOneMore(v, hits, h, c, Created(v, c)[i].1);
    }
  }

  lemma {:induction false} NoCharge(v: Version, hits: seq<McHit>, c: Channel, field: nat)
    requires field < 8 && forall k :: 0 <= k < |hits| ==> VolumeOf(v, hits[k]) != c
    ensures Charge(v, hits, c, field) == 0
  {
    if hits != [] {
      NoCharge(v, hits[..|hits| - 1], c, field);
    }
  }

  lemma FirstOfVolume(v: Version, hits: seq<McHit>, h: McHit)
    requires forall k :: 0 <= k < |hits| ==> VolumeOf(v, hits[k]) != VolumeOf(v, h)
    ensures GroupOkay(v, hits + [h], VolumeOf(v, h), NewGroup(v, h))
  {
    var c := VolumeOf(v, h);
    TablesAgree(v, c);
    hide Created, VolumeOf;
    forall i | 0 <= i < |Created(v, c)|
      ensures NewGroup(v, h)[i].qphe == Charge(v, hits + [h], c, Created(v, c)[i].1)
    {
      NoCharge(v, hits, c, Created(v, c)[i].1);
      ChargeOfOneMore(v, hits, h, c, Created(v, c)[i].1);
    }
  }

  lemma NextOfVolume(v: Version, hits: seq<McHit>, h: McHit, before: seq<DigiHit>, group: seq<DigiHit>)
    requires GroupOkay(v, hits, VolumeOf(v, h), before)
    requires |group| == |before| == |Added(v, VolumeOf(v, h).component)|
    requires forall i :: 0 <= i < |group| ==> Added(v, VolumeOf(v, h).component)[i] < 8
    requires forall i :: 0 <= i < |group| ==>
              var a := h.adc[Added(v, VolumeOf(v, h).component)[i]];
              group[i] == before[i].(qphe := before[i].qphe + a, aphe := before[i].aphe + a)
    ensures GroupOkay(v, hits + [h], VolumeOf(v, h), group)
  {
    var c := VolumeOf(v, h);
    TablesAgree(v, c);
    hide Created, VolumeOf, Added;
    forall i | 0 <= i < |group|
      ensures group[i].qphe == Charge(v, hits + [h], c, Created(v, c)[i].1)
    {
      ChargeOfOneMore(v, hits, h, c, Created(v, c)[i].1);
    }
  }

  // ---- times ----

  /** Hit k is the first one of a volume. */
  ghost predicate FirstHit(v: Version, hits: seq<McHit>, c: Channel, k: nat) {
    k < |hits| && VolumeOf(v, hits[k]) == c && forall j :: 0 <= j < k ==> VolumeOf(v, hits[j]) != c
  }

  /** Each readout of a group has the time that the first hit of the volume has in the assigned field. */
  ghost predicate TimesOkay(v: Version, hits: seq<McHit>, c: Channel, group: seq<DigiHit>) {
    && |group| == |Created(v, c)|
    && forall k: nat :: FirstHit(v, hits, c, k) ==>
         forall i :: 0 <= i < |group| ==> Created(v, c)[i].1 < 8 && group[i].t == hits[k].tdc[Created(v, c)[i].1]
  }

  lemma TimesStay(v: Version, hits: seq<McHit>, h: McHit, c: Channel, before: seq<DigiHit>, group: seq<DigiHit>)
    requires TimesOkay(v, hits, c, before) && |group| == |before|
    requires forall i :: 0 <= i < |group| ==> group[i].t == before[i].t
    requires VolumeOf(v, h) != c || exists k: nat :: k < |hits| && VolumeOf(v, hits[k]) == c
    ensures TimesOkay(v, hits + [h], c, group)
  {
    hide Created, VolumeOf;
    forall k: nat | FirstHit(v, hits + [h], c, k)
      ensures FirstHit(v, hits, c, k) && (hits + [h])[k] == hits[k]
    {
      assert forall j :: 0 <= j < |hits| ==> (hits + [h])[j] == hits[j];
    }
  }

  lemma NotTheFirst(v: Version, hits: seq<McHit>, it: nat)
    requires it < |hits| && exists k :: 0 <= k < it && VolumeOf(v, hits[k]) == VolumeOf(v, hits[it])
    ensures exists k: nat :: k < |hits[..it]| && VolumeOf(v, hits[..it][k]) == VolumeOf(v, hits[it])
  {
    hide VolumeOf;
    var k :| 0 <= k < it && VolumeOf(v, hits[k]) == VolumeOf(v, hits[it]);
    assert hits[..it][k] == hits[k];
  }

  lemma FirstTimes(v: Version, hits: seq<McHit>, h: McHit)
    requires forall k :: 0 <= k < |hits| ==> VolumeOf(v, hits[k]) != VolumeOf(v, h)
    ensures TimesOkay(v, hits + [h], VolumeOf(v, h), NewGroup(v, h))
  {
    var c := VolumeOf(v, h);
    TablesAgree(v, c);
    hide Created, VolumeOf;
    forall k: nat | FirstHit(v, hits + [h], c, k)
      ensures (hits + [h])[k] == h
    {
      assert forall j :: 0 <= j < |hits| ==> (hits + [h])[j] == hits[j];
    }
  }

  // ---- the tables, written out ----

  /** The components of the simulation channels 1 to 6, and of the three that BDX-MINI has. */
  lemma ComponentsAre(v: Version, channel: int)
    ensures v == JLabFluxV1 ==> ComponentOf(v, channel) == channel
    ensures v == BDXminiV1 ==> ComponentOf(BDXminiV1, 1) == 1 && ComponentOf(BDXminiV1, 9) == 10
                               && ComponentOf(BDXminiV1, 10) == 9
    ensures v == BDXminiV1 && channel !in {1, 9, 10} ==> ComponentOf(v, channel) == -1
    ensures v == CataniaV2 && 1 <= channel <= 6 ==> ComponentOf(v, channel) == [0, 3, 4, 5, 1, 2][channel - 1]
    ensures v in {CataniaV1, FullV1, FullV2} && 1 <= channel <= 6 ==>
              ComponentOf(v, channel) == [0, 3, 4, 5, 2, 1][channel - 1]
    ensures v in {CataniaV1, CataniaV2, FullV1, FullV2} && !(1 <= channel <= 6) ==> ComponentOf(v, channel) == -1
  {
  }

  /** The fields of the readouts of a volume, in the order of the readouts. */
  lemma FieldsAre(v: Version, c: Channel)
    ensures v == JLabFluxV1 ==> Added(v, c.component) == [0]
    ensures v == BDXminiV1 ==>
              Added(v, c.component) ==
              if c.component == 1 then [0, 1, 2, 3, 4, 5, 6, 7] else if c.component in {9, 10} then [0] else []
    ensures v in {CataniaV1, CataniaV2, FullV1, FullV2} ==>
              && (c.component == 0 ==> Added(v, c.component) == [0, 1, 2, 3])
              && (c.component in {1, 2} ==> Added(v, c.component) == [3, 2, 1, 0])
              && (c.component in {4, 5} ==> Added(v, c.component) == [0])
              && (c.component !in {0, 1, 2, 3, 4, 5} ==> Added(v, c.component) == [])
              && (c.component == 3 ==> Added(v, c.component) == if v == CataniaV1 then [0, 3, 2, 1] else [0, 1, 2, 3])
  {
  }

  /** Readouts are numbered from 1, in BDX-MINI by the component and otherwise by the readout; the single
      ones of BDX-MINI keep the label of their volume. */
  lemma LabelsAre(v: Version, c: Channel, i: nat)
    requires i < |Created(v, c)|
    ensures v != BDXminiV1 ==> Created(v, c)[i].0 == Channel(c.sector, c.layer, c.component, i + 1)
    ensures v == BDXminiV1 && c.component == 1 ==> Created(v, c)[i].0 == Channel(c.sector, c.layer, i + 1, c.readout)
    ensures v == BDXminiV1 && c.component != 1 ==> Created(v, c)[i].0 == c
  {
  }

  /** An index field holds the signed number with the same low eight bits. */
  lemma Int8Is(x: int, y: int)
    ensures y == Int8(x) <==> -128 <= y < 128 && (x - y) % 256 == 0
  {
  }

  /** Hits of one volume are those of one sector, layer and component. */
  lemma VolumeIs(v: Version, h: McHit)
    requires -128 <= h.sector < 128 && -128 <= ComponentOf(v, h.channel) < 128
    ensures VolumeOf(v, h).sector == h.sector && VolumeOf(v, h).component == ComponentOf(v, h.channel)
    ensures VolumeOf(v, h).layer == (if v == BDXminiV1 && h.system == 8 then 1 else 0) && VolumeOf(v, h).readout == 0
  {
  }

  /** Two hits of the simulation channel 5 in the full detector: component 2, whose four readouts take
      the fields in reverse, with the times of the first hit. */
  lemma TwoHits(a: McHit, b: McHit, groups: Groups)
    requires a == McHit(0, 3, 5, [1, 2, 3, 4, 0, 0, 0, 0], [11, 12, 13, 14, 0, 0, 0, 0])
    requires b == McHit(0, 3, 5, [10, 20, 30, 40, 0, 0, 0, 0], [5, 6, 7, 8, 0, 0, 0, 0])
    requires GroupsOf(FullV1, [a, b], groups)
    ensures Channel(3, 0, 2, 0) in groups
    ensures groups[Channel(3, 0, 2, 0)] ==
            [DigiHit(Channel(3, 0, 2, 1), 44, 44, 14), DigiHit(Channel(3, 0, 2, 2), 33, 33, 13),
             DigiHit(Channel(3, 0, 2, 3), 22, 22, 12), DigiHit(Channel(3, 0, 2, 4), 11, 11, 11)]
  {
    var c, hits := Channel(3, 0, 2, 0), [a, b];
    assert VolumeOf(FullV1, a) == c && VolumeOf(FullV1, b) == c;
    assert Created(FullV1, c) ==
           [(c.(readout := 1), 3), (c.(readout := 2), 2), (c.(readout := 3), 1), (c.(readout := 4), 0)];
    hide VolumeOf, Created, Charge;
    assert hits[0] == a;
    assert c in groups;
    var g := groups[c];
    assert FirstHit(FullV1, hits, c, 0);
    assert GroupOkay(FullV1, hits, c, g) && TimesOkay(FullV1, hits, c, g);
    TwoCharges(a, b, c, 0);
    TwoCharges(a, b, c, 1);
    TwoCharges(a, b, c, 2);
    TwoCharges(a, b, c, 3);
    assert g[0] == DigiHit(Channel(3, 0, 2, 1), 44, 44, 14) && g[1] == DigiHit(Channel(3, 0, 2, 2), 33, 33, 13);
    assert g[2] == DigiHit(Channel(3, 0, 2, 3), 22, 22, 12) && g[3] == DigiHit(Channel(3, 0, 2, 4), 11, 11, 11);
  }

  lemma TwoCharges(a: McHit, b: McHit, c: Channel, field: nat)
    requires VolumeOf(FullV1, a) == c && VolumeOf(FullV1, b) == c && field < 8
    ensures Charge(FullV1, [a, b], c, field) == a.adc[field] + b.adc[field]
  {
    hide VolumeOf;
    assert [a, b] == [a] + [b] && [a] == [] + [a];
    ChargeOfOneMore(FullV1, [a], b, c, field);
    ChargeOfOneMore(FullV1, [], a, c, field);
  }

  // ---- order ----

  lemma {:induction false} ChargeWithout(v: Version, hits: seq<McHit>, i: nat, c: Channel, field: nat)
    requires field < 8 && i < |hits|
    ensures Charge(v, hits, c, field) ==
            Charge(v, hits[..i] + hits[i + 1..], c, field) + if VolumeOf(v, hits[i]) == c then hits[i].adc[field] else 0
    decreases |hits|
  {
    hide VolumeOf;
    var n := |hits| - 1;
    var init, last := hits[..n], hits[n];
    if i == n {
      assert hits[..i] + hits[i + 1..] == init;
    } else {
      ChargeWithout(v, init, i, c, field);
      assert hits[..i] + hits[i + 1..] == (init[..i] + init[i + 1..]) + [last];
      ChargeOfOneMore(v, init[..i] + init[i + 1..], last, c, field);
    }
  }

  /** The charges do not depend on the order of the hits. */
  lemma {:induction false} ChargeIgnoresOrder(v: Version, a: seq<McHit>, b: seq<McHit>, c: Channel, field: nat)
    requires field < 8 && multiset(a) == multiset(b)
    ensures Charge(v, a, c, field) == Charge(v, b, c, field)
    decreases |a|
  {
    hide VolumeOf;
    if a == [] {
      assert |multiset(b)| == |b|;
    } else {
      var n := |a| - 1;
      Without(a, n);
      assert a[n] in multiset(b);
      var i :| 0 <= i < |b| && b[i] == a[n];
      Without(b, i);
      ChargeIgnoresOrder(v, a[..n] + a[n + 1..], b[..i] + b[i + 1..], c, field);
      ChargeWithout(v, a, n, c, field);
      ChargeWithout(v, b, i, c, field);
    }
  }

  lemma Without(s: seq<McHit>, i: nat)
    requires i < |s|
    ensures multiset(s[..i] + s[i + 1..]) == multiset(s) - multiset{s[i]} && |s[..i] + s[i + 1..]| < |s|
  {
    assert s == s[..i] + [s[i]] + s[i + 1..];
  }

  /** What the loop makes of a list of hits: a group for every volume that was hit and has readouts. */
  ghost predicate GroupsOf(v: Version, hits: seq<McHit>, groups: Groups) {
    && (forall c :: c in groups <==> Created(v, c) != [] && exists k :: 0 <= k < |hits| && VolumeOf(v, hits[k]) == c)
    && (forall c :: c in groups ==> GroupOkay(v, hits, c, groups[c]) && TimesOkay(v, hits, c, groups[c]))
  }

  lemma SameVolumes(v: Version, a: seq<McHit>, b: seq<McHit>, c: Channel)
    requires multiset(a) == multiset(b) && exists k :: 0 <= k < |a| && VolumeOf(v, a[k]) == c
    ensures exists k :: 0 <= k < |b| && VolumeOf(v, b[k]) == c
  {
    hide VolumeOf;
    var k :| 0 <= k < |a| && VolumeOf(v, a[k]) == c;
    assert a[k] in multiset(a);
    assert a[k] in multiset(b);
    var m :| 0 <= m < |b| && b[m] == a[k];
  }

  lemma GroupIgnoresOrder(v: Version, a: seq<McHit>, b: seq<McHit>, c: Channel, g: seq<DigiHit>, h: seq<DigiHit>)
    requires multiset(a) == multiset(b) && GroupOkay(v, a, c, g) && GroupOkay(v, b, c, h)
    ensures SameCharges(g, h)
  {
    hide Created, VolumeOf;
    forall i | 0 <= i < |g|
      ensures g[i].qphe == h[i].qphe
    {
      ChargeIgnoresOrder(v, a, b, c, Created(v, c)[i].1);
    }
  }

  /** The same labels with the same charges in the same places. */
  ghost predicate SameCharges(g: seq<DigiHit>, h: seq<DigiHit>) {
    && |g| == |h|
    && forall i :: 0 <= i < |g| ==> g[i].channel == h[i].channel && g[i].qphe == h[i].qphe && g[i].aphe == h[i].aphe
  }

  /** Two orders of the same hits give groups for the same volumes, with the same charges in the same
      readouts. */
  lemma GroupsIgnoreOrder(v: Version, a: seq<McHit>, b: seq<McHit>, ga: Groups, gb: Groups)
    requires multiset(a) == multiset(b) && GroupsOf(v, a, ga) && GroupsOf(v, b, gb)
    ensures ga.Keys == gb.Keys
    ensures forall c :: c in ga ==> SameCharges(ga[c], gb[c])
  {
    hide Created, VolumeOf, SameCharges, GroupOkay, TimesOkay;
    forall c
      ensures c in ga <==> c in gb
    {
      if c in ga {
        SameVolumes(v, a, b, c);
      }
      if c in gb {
        SameVolumes(v, b, a, c);
      }
    }
    forall c | c in ga
      ensures SameCharges(ga[c], gb[c])
    {
      GroupIgnoresOrder(v, a, b, c, ga[c], gb[c]);
    }
  }
}
