/** The event source over a reader: handing out events one by one, and lining up their waveforms. */
module TridasSource {
  import opened Options
  import opened Seqs
  import opened TimeStamp
  import opened PtFile
  import opened PtParse

  // ---- iteration ----

  function AllEvents(slices: seq<TimeSlice>): seq<Event> {
    if slices == [] then [] else slices[0].events + AllEvents(slices[1..])
  }

  /** A time slice is read twice when the source moves to it, once for its number of events and once to
      keep; on a stream that the first reading left failed, the second does not seek. */
  function LoadSlice(bytes: seq<nat>, failed: bool, pos: nat, at: nat, mode: Mode): Result<TimeSlice> {
    match ReadSlice(bytes, if failed then pos else at, mode)
    case Err(e) => Err(e)
    case Ok(_, end, bad) => ReadSlice(bytes, if bad then end else at, mode)
  }

  /** Walks the time slices of a reader, holding the current one and a position in it. */
  class EventSource {
    const reader: PtFileReader
    var slicePos: nat
    var current: TimeSlice
    var eventPos: nat
    var exhausted: bool

    ghost predicate Valid()
      reads this
    {
      !exhausted ==> slicePos < |reader.tsPos| && eventPos <= |current.events|
    }

    /** What moving to slice i gives. */
    ghost function Load(i: nat): Result<TimeSlice>
      requires i < |reader.tsPos|
      reads this, reader.stream
    {
      LoadSlice(reader.stream.bytes, reader.stream.failed, reader.stream.pos, reader.tsPos[i], reader.mode)
    }

    constructor (reader: PtFileReader, first: TimeSlice)
      requires reader.tsPos != []
      ensures Valid() && this.reader == reader && !exhausted
      ensures slicePos == 0 && current == first && eventPos == 0
    {
      this.reader, slicePos, current, eventPos, exhausted := reader, 0, first, 0, false;
    }

    /** The source on a reader, at its first slice. */
    static method Open(reader: PtFileReader) returns (r: Outcome<EventSource>)
      requires reader.tsPos != []
      modifies reader.stream
      ensures match LoadSlice(reader.stream.bytes, old(reader.stream.failed), old(reader.stream.pos),
                              reader.tsPos[0], reader.mode)
              case Err(e) => r == Thrown(e)
              case Ok(slice, end, bad) =>
                && r.Good? && fresh(r.value) && r.value.Valid() && r.value.reader == reader && !r.value.exhausted
                && r.value.slicePos == 0 && r.value.current == slice && r.value.eventPos == 0
                && reader.stream.pos == end && reader.stream.failed == bad
    {
      hide ReadSlice;
      var probe := reader.At(0);
      if probe.Thrown? {
        return Thrown(probe.error);
      }
      var slice := reader.At(0);
      if slice.Thrown? {
        return Thrown(slice.error);
      }
      var source := new EventSource(reader, slice.value);
      r := Good(source);
    }

    /** Hands out the next event; None when every slice has been read. The first event of a slice is
        taken without looking whether there is one. A slice that does not read ends the source. */
    method GetEvent() returns (r: Outcome<Option<Event>>)
      requires Valid() && !exhausted
      requires eventPos == |current.events| && slicePos + 1 < |reader.tsPos| && Load(slicePos + 1).Ok? ==>
                 Load(slicePos + 1).value.events != []
      modifies this, reader.stream
      ensures Valid()
      ensures old(eventPos) < |old(current).events| ==>
                && r == Good(Some(old(current).events[old(eventPos)])) && !exhausted && current == old(current)
                && slicePos == old(slicePos) && eventPos == old(eventPos) + 1 && unchanged(reader.stream)
      ensures old(eventPos) == |old(current).events| && old(slicePos) + 1 == |reader.tsPos| ==>
                r == Good(None) && exhausted && unchanged(reader.stream)
      ensures old(eventPos) == |old(current).events| && old(slicePos) + 1 < |reader.tsPos| ==>
                match old(Load(slicePos + 1))
                case Err(e) => r == Thrown(e) && exhausted
                case Ok(slice, end, bad) =>
                  && r == Good(Some(slice.events[0])) && !exhausted && current == slice
                  && slicePos == old(slicePos) + 1 && eventPos == 1
                  && reader.stream.pos == end && reader.stream.failed == bad
    {
      hide ReadSlice;
      if eventPos == |current.events| {
        slicePos := slicePos + 1;
        if slicePos == |reader.tsPos| {
          exhausted := true;
          return Good(None);
        }
        var probe := reader.At(slicePos);
        if probe.Thrown? {
          exhausted := true;
          return Thrown(probe.error);
        }
        var slice := reader.At(slicePos);
        if slice.Thrown? {
          exhausted := true;
          return Thrown(slice.error);
        }
        current := slice.value;
        eventPos := 0;
      }
      r := Good(Some(current.events[eventPos]));
      eventPos := eventPos + 1;
    }
  }

  /** The slices of a reader all read, without running into the end of the file, and have events. */
  ghost predicate Holds(reader: PtFileReader, slices: seq<TimeSlice>) {
    && |reader.tsPos| == |slices|
    && forall i :: 0 <= i < |slices| ==>
         slices[i].events != [] && var r := ReadSlice(reader.stream.bytes, reader.tsPos[i], reader.mode);
                                   r.Ok? && r.value == slices[i] && !r.failed
  }

  /** Calling for events until there are no more hands out the events of all slices, once each and in file
      order. */
  method HandOut(reader: PtFileReader, ghost slices: seq<TimeSlice>) returns (events: seq<Event>)
    requires Holds(reader, slices) && slices != [] && !reader.stream.failed
    modifies reader.stream
    ensures events == AllEvents(slices)
  {
    hide ReadSlice, Pending, LoadSlice, Holds, AllEvents;
    HeldSlices(reader, slices);
    HeldSliceLoads(reader, slices, 0, reader.stream.pos);
    var start := EventSource.Open(reader);
    var source := start.value;
    events := [];
    AllPending(slices);
    while !source.exhausted
      invariant source.Valid() && source.reader == reader && !reader.stream.failed && fresh(source)
      invariant !source.exhausted ==> source.current == slices[source.slicePos]
      invariant AllEvents(slices) ==
                events + if source.exhausted then [] else Pending(slices, source.slicePos, source.eventPos)
      decreases !source.exhausted, |slices| - source.slicePos, |source.current.events| - source.eventPos
    {
      ghost var before := events;
      NextPending(slices, source.slicePos, source.eventPos);
      HeldSliceLoads(reader, slices, source.slicePos + 1, reader.stream.pos);
      var next := source.GetEvent();
      if next.value.Some? {
        events := events + [next.value.value];
        Regroup(before, [next.value.value], Pending(slices, source.slicePos, source.eventPos));
      }
    }
    assert events + [] == events;
  }

  lemma HeldSlices(reader: PtFileReader, slices: seq<TimeSlice>)
    requires Holds(reader, slices)
    ensures |reader.tsPos| == |slices| && forall k :: 0 <= k < |slices| ==> slices[k].events != []
  {
    hide ReadSlice;
  }

  lemma HeldSliceLoads(reader: PtFileReader, slices: seq<TimeSlice>, i: nat, pos: nat)
    requires Holds(reader, slices)
    ensures i < |slices| ==>
              |reader.tsPos| == |slices| &&
              var r := LoadSlice(reader.stream.bytes, false, pos, reader.tsPos[i], reader.mode);
              r.Ok? && r.value == slices[i] && !r.failed
  {
    hide ReadSlice;
  }

  /** The events from position j of slice i on. */
  ghost function Pending(slices: seq<TimeSlice>, i: nat, j: nat): seq<Event>
    requires i < |slices| && j <= |slices[i].events|
  {
    slices[i].events[j..] + AllEvents(slices[i + 1..])
  }

  lemma AllPending(slices: seq<TimeSlice>)
    requires slices != []
    ensures AllEvents(slices) == Pending(slices, 0, 0)
  {
    assert slices[0].events[0..] == slices[0].events;
  }

  lemma NextPending(slices: seq<TimeSlice>, i: nat, j: nat)
    requires i < |slices| && j <= |slices[i].events| && forall k :: 0 <= k < |slices| ==> slices[k].events != []
    ensures Pending(slices, i, j) ==
            if j < |slices[i].events| then [slices[i].events[j]] + Pending(slices, i, j + 1)
            else if i + 1 < |slices| then [slices[i + 1].events[0]] + Pending(slices, i + 1, 1)
            else []
  {
    if j < |slices[i].events| {
      var event, rest := slices[i].events[j], slices[i].events[j + 1..];
      assert slices[i].events[j..] == [event] + rest;
      assert ([event] + rest) + AllEvents(slices[i + 1..]) == [event] + (rest + AllEvents(slices[i + 1..]));
    } else if i + 1 < |slices| {
      var event, rest := slices[i + 1].events[0], slices[i + 1].events[1..];
      assert slices[i + 1].events == [event] + rest;
      assert slices[i + 1..][1..] == slices[i + 2..];
      assert ([event] + rest) + AllEvents(slices[i + 2..]) == [event] + (rest + AllEvents(slices[i + 2..]));
    }
  }

  // ---- waveform alignment ----

  /** The absolute time, in 4 ns ticks, of sample k of a hit: one sample a tick from the time of its
      first frame. */
  ghost function SampleTime(hit: Hit, k: nat): nat
    requires hit.heads != []
  {
    GetFullTime(hit.heads[0]) + k
  }

  ghost predicate Usable(hits: seq<Hit>) {
    forall i :: 0 <= i < |hits| ==> hits[i].heads != [] && hits[i].samples != []
  }

  /** Every sample taken at absolute time t stands at index t - minTime of the waveform, and the
      indices before the first sample repeat it. */
  ghost predicate Aligned(hit: Hit, minTime: nat, wave: seq<nat>)
    requires hit.heads != [] && hit.samples != [] && minTime <= SampleTime(hit, 0)
  {
    && |wave| == SampleTime(hit, |hit.samples|) - minTime
    && (forall k :: 0 <= k < |hit.samples| ==> wave[SampleTime(hit, k) - minTime] == hit.samples[k])
    && (forall i :: 0 <= i < SampleTime(hit, 0) - minTime ==> wave[i] == hit.samples[0])
  }

  /** The earliest time of the hits of an event. */
  method EarliestTime(hits: seq<Hit>) returns (minTime: nat)
    requires hits != [] && Usable(hits)
    ensures forall i :: 0 <= i < |hits| ==> minTime <= SampleTime(hits[i], 0)
    ensures exists i :: 0 <= i < |hits| && minTime == SampleTime(hits[i], 0)
  {
    hide GetFullTime;
    minTime := GetFullTime(hits[0].heads[0]);
    var it := 0;
    assert minTime == SampleTime(hits[0], 0);
    while it < |hits|
      invariant 0 <= it <= |hits|
      invariant forall i :: 0 <= i < it ==> minTime <= SampleTime(hits[i], 0)
      invariant exists i :: 0 <= i < |hits| && minTime == SampleTime(hits[i], 0)
    {
      var absTime := GetFullTime(hits[it].heads[0]);
      if absTime < minTime {
        minTime := absTime;
        assert minTime == SampleTime(hits[it], 0);
      }
      it := it + 1;
    }
  }

  /** The samples of a hit behind copies of its first sample, one for each tick of delay. */
  method PadWaveform(hit: Hit, delay: nat) returns (raw: seq<nat>)
    requires hit.samples != []
    ensures |raw| == delay + |hit.samples|
    ensures forall k :: 0 <= k < |hit.samples| ==> raw[delay + k] == hit.samples[k]
    ensures forall i :: 0 <= i < delay ==> raw[i] == hit.samples[0]
  {
    raw := [];
    var ii := 0;
    while ii < delay
      invariant 0 <= ii <= delay && |raw| == ii
      invariant forall i :: 0 <= i < ii ==> raw[i] == hit.samples[0]
    {
      raw := raw + [hit.samples[0]];
      ii := ii + 1;
    }
    var it := 0;
    while it < |hit.samples|
      invariant 0 <= it <= |hit.samples| && |raw| == delay + it
      invariant forall i :: 0 <= i < delay ==> raw[i] == hit.samples[0]
      invariant forall k :: 0 <= k < it ==> raw[delay + k] == hit.samples[k]
    {
      raw := raw + [hit.samples[it]];
      it := it + 1;
    }
  }

  /** The waveforms of an event on one time axis, which starts at the earliest hit; the waveform of
      some hit needs no padding. */
  method AlignWaveforms(hits: seq<Hit>) returns (minTime: nat, waves: seq<seq<nat>>)
    requires hits != [] && Usable(hits)
    ensures |waves| == |hits|
    ensures forall h :: 0 <= h < |hits| ==> minTime <= SampleTime(hits[h], 0)
    ensures exists h :: 0 <= h < |hits| && minTime == SampleTime(hits[h], 0) && waves[h] == hits[h].samples
    ensures forall h :: 0 <= h < |hits| ==> Aligned(hits[h], minTime, waves[h])
  {
    hide GetFullTime;
    minTime := EarliestTime(hits);
    waves := [];
    var it := 0;
    while it < |hits|
      invariant 0 <= it <= |hits| && |waves| == it
      invariant forall h :: 0 <= h < it ==> Aligned(hits[h], minTime, waves[h])
    {
      var absTime := GetFullTime(hits[it].heads[0]);
      assert minTime <= SampleTime(hits[it], 0);
      var raw := PadWaveform(hits[it], absTime - minTime);
      waves := waves + [raw];
      it := it + 1;
    }
    ghost var first :| 0 <= first < |hits| && minTime == SampleTime(hits[first], 0);
    assert Aligned(hits[first], minTime, waves[first]);
    assert forall k :: 0 <= k < |hits[first].samples| ==> SampleTime(hits[first], k) - minTime == k;
    assert waves[first] == hits[first].samples;
  }
}
