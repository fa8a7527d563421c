/** The reader itself: a stream with a position and a failure flag, and the loops that use it. */
module PtFile {
  import opened TimeStamp
  import opened PtFormat
  import opened PtParse

  /** A value, or the exception that was thrown instead. */
  datatype Outcome<+T> = Good(value: T) | Thrown(error: Error)

  /** An input file stream over a file of known bytes. */
  class InputStream {
    const bytes: seq<nat>
    var pos: nat
    var failed: bool

    constructor (bytes: seq<nat>)
      ensures this.bytes == bytes && pos == 0 && !failed
    {
      this.bytes, pos, failed := bytes, 0, false;
    }

    /** Reads up to n bytes; fewer than n set the failure flag, and a failed stream reads none. */
    method Read(n: nat) returns (got: seq<nat>)
      modifies this
      ensures if old(failed) || old(pos) > |bytes| then got == []
              else got == bytes[old(pos)..Min(old(pos) + n, |bytes|)]
      ensures pos == old(pos) + |got| && failed == (old(failed) || |got| < n)
    {
      got := [];
      if !failed && pos <= |bytes| {
        got := bytes[pos..Min(pos + n, |bytes|)];
        pos := pos + |got|;
      }
      failed := failed || |got| < n;
    }

    /** Skips up to n bytes; reaching the end is no failure. */
    method Ignore(n: int)
      modifies this
      ensures failed == old(failed)
      ensures pos == if failed || n <= 0 || old(pos) > |bytes| then old(pos) else Min(old(pos) + n, |bytes|)
    {
      if !failed && n > 0 && pos <= |bytes| {
        pos := Min(pos + n, |bytes|);
      }
    }

    /** Seeking does nothing on a failed stream. */
    method Seek(p: nat)
      modifies this
      ensures failed == old(failed) && pos == if failed then old(pos) else p
    {
      if !failed {
        pos := p;
      }
    }

    method Clear()
      modifies this
      ensures !failed && pos == old(pos)
    {
      failed := false;
    }

    method ReadHeader(size: nat) returns (r: Outcome<seq<nat>>)
      requires size > 0
      modifies this
      ensures if old(failed) || old(pos) + size > |bytes| then r == Thrown(TruncatedHeader) && failed
              else r == Good(bytes[old(pos)..old(pos) + size]) && pos == old(pos) + size && !failed
    {
      var got := Read(size);
      r := if |got| != size then Thrown(TruncatedHeader) else Good(got);
    }

    /** Reads one sample into a variable that was zero; `at` is where it would begin in a longer file. */
    method ReadSample(ghost at: nat, wide: bool) returns (sample: nat, size: nat)
      requires pos == Min(at, |bytes|) && failed == (at > |bytes|)
      modifies this
      ensures sample == SampleAt(bytes, at, wide)
      ensures pos == Min(at + Width(wide), |bytes|) && failed == (at + Width(wide) > |bytes|)
      ensures size == pos - old(pos)
    {
      var s := Read(Width(wide));
      var low, high := if |s| > 0 then s[0] else 0, if |s| > 1 then s[1] else 0;
      sample, size := low + 256 * high, |s|;
    }

    /** Reads n samples one after the other. */
    method ReadSampleLoop(n: nat, wide: bool) returns (samples: seq<nat>, readSize: nat)
      requires !failed && pos <= |bytes|
      modifies this
      ensures samples == ReadSamples(bytes, old(pos), n, wide)
      ensures readSize == Min(SamplesSize(n, wide), |bytes| - old(pos)) && pos == old(pos) + readSize
      ensures failed == (readSize < SamplesSize(n, wide))
    {
      hide ReadSamples, SampleAt;
      samples, readSize := [], 0;
      ghost var start, at := pos, pos;
      var i := 0;
      while i < n
        invariant 0 <= i <= n && at == start + SamplesSize(i, wide)
        invariant pos == Min(at, |bytes|) && failed == (at > |bytes|)
        invariant readSize == pos - start
        invariant ReadSamples(bytes, start, n, wide) == samples + ReadSamples(bytes, at, n - i, wide)
      {
        OneSample(bytes, at, n - i, wide);
        var sample, size := ReadSample(at, wide);
        ghost var rest := ReadSamples(bytes, at + Width(wide), n - i - 1, wide);
        assert samples + ([sample] + rest) == (samples + [sample]) + rest;
        samples := samples + [sample];
        readSize := readSize + size;
        at := at + Width(wide);
        i := i + 1;
      }
    }

    /** The body of the parse_event loops: one frame. The three overloads differ in how they treat
        the payload. */
    method ReadFrameBody(mode: Mode, ghost start: nat, head: DataFrameHeader) returns (samples: seq<nat>, used: nat)
      requires !failed && pos == start + FRAME_SIZE <= |bytes| && head == FrameFromBytes(bytes[start..pos])
      requires mode.Compressed? ==> head.zipFlag != 0
      modifies this
      ensures ReadFrame(bytes, start, mode) == FrameOk(Frame(head, samples), FRAME_SIZE + used, pos, failed)
    {
      hide ReadSamples, FrameFromBytes;
      var payload := PayloadSize(head);
      if mode.NoSamples? {
        samples := [];
        Ignore(payload);
        used := payload;
      } else {
        var wide := mode.Uncompressed? && head.zipFlag == 0;
        var readSize;
        samples, readSize := ReadSampleLoop(head.nDataSamples, wide);
        var diff := payload - SamplesSize(head.nDataSamples, wide);
        Ignore(diff);
        used := readSize + diff;
      }
    }

    /** One turn of the parse_event loops up to the grouping: a header and its payload. */
    method NextFrame(mode: Mode) returns (r: Outcome<(Frame, nat)>)
      requires !failed
      modifies this
      ensures match ReadFrame(bytes, old(pos), mode)
              case FrameOk(f, used, next, bad) => r == Good((f, used)) && pos == next && failed == bad
              case FrameErr(e) => r == Thrown(e) && (e == TruncatedHeader ==> failed)
    {
      hide FrameFromBytes, ReadSamples;
      ghost var start := pos;
      var header := ReadHeader(FRAME_SIZE);
      if header.Thrown? {
        return Thrown(header.error);
      }
      var head := FrameFromBytes(header.value);
      if mode.Compressed? && head.zipFlag == 0 {
        return Thrown(NotCompressed);
      }
      var samples, used := ReadFrameBody(mode, start, head);
      r := Good((Frame(head, samples), FRAME_SIZE + used));
    }

    /** The parse_event loops: `current` is the hit being filled, of a vector of nhits hits. */
    method ParseEvent(nhits: nat, eventSize: int, mode: Mode) returns (r: Outcome<seq<Hit>>)
      requires !failed
      modifies this
      ensures match ParseHits(bytes, old(pos), eventSize, mode, nhits, [])
              case Ok(hits, end, bad) => r == Good(Padded(hits, nhits)) && pos == end && failed == bad
              case Err(e) => r == Thrown(e)
      ensures r == Thrown(TruncatedHeader) ==> failed
    {
      hide ReadFrame, Padded, AddFrame;
      ghost var used: seq<Hit> := [];
      var hits := Padded([], nhits);
      var current, rest, more := 0, eventSize, true;
      while more
        invariant hits == Padded(used, nhits) && |used| <= nhits && Used(used)
        invariant current == if used == [] then 0 else |used| - 1
        invariant more ==> !failed && ParseHits(bytes, old(pos), eventSize, mode, nhits, []) ==
                                      ParseHits(bytes, pos, rest, mode, nhits, used)
        invariant !more ==> ParseHits(bytes, old(pos), eventSize, mode, nhits, []) ==
                            if rest != 0 then Err(IncompleteEvent) else Ok(used, pos, failed)
        decreases more, rest
      {
        var next := NextFrame(mode);
        if next.Thrown? {
          return Thrown(next.error);
        }
        var (frame, size) := next.value;
        rest := rest - size;
        PutFrame(used, nhits, frame);
        used := AddFrame(used, frame);
        if current < |hits| && hits[current].heads != [] && frame.head.fragFlag == 0 {
          current := current + 1;
        }
        if current >= |hits| {
          return Thrown(BeyondHits);
        }
        hits := hits[current := Hit(hits[current].heads + [frame.head], hits[current].samples + frame.samples)];
        more := !failed && rest > 0;
      }
      if rest != 0 {
        return Thrown(IncompleteEvent);
      }
      r := Good(hits);
    }
  }

  /** The first of n samples, from the bytes that are there. */
  lemma OneSample(bytes: seq<nat>, at: nat, n: nat, wide: bool)
    requires n > 0
    ensures ReadSamples(bytes, at, n, wide) ==
            [SampleAt(bytes, at, wide)] + ReadSamples(bytes, at + Width(wide), n - 1, wide)
  {
  }

  /** Hits in use have frames. */
  ghost predicate Used(hits: seq<Hit>) {
    forall i :: 0 <= i < |hits| ==> hits[i].heads != []
  }

  /** Adding a frame to the hits in use is adding it to the current hit of the whole vector. */
  lemma PutFrame(used: seq<Hit>, nhits: nat, f: Frame)
    requires |used| <= nhits
    ensures |Padded(used, nhits)| == nhits
    ensures Used(used) ==> Used(AddFrame(used, f))
    ensures |AddFrame(used, f)| == if used == [] || f.head.fragFlag == 0 then |used| + 1 else |used|
    ensures var hits, current := Padded(used, nhits), if used == [] then 0 else |used| - 1;
            Used(used) ==>
              && (current < nhits ==> (hits[current].heads != [] <==> used != []))
              && (|AddFrame(used, f)| <= nhits ==>
                    var at := |AddFrame(used, f)| - 1;
                    Padded(AddFrame(used, f), nhits) ==
                    hits[at := Hit(hits[at].heads + [f.head], hits[at].samples + f.samples)])
  {
    if Used(used) && |AddFrame(used, f)| <= nhits {
      var at := |AddFrame(used, f)| - 1;
      var hits := Padded(used, nhits);
      assert [] + [f.head] == [f.head] && [] + f.samples == f.samples;
      assert Padded(AddFrame(used, f), nhits) ==
          hits[at := Hit(hits[at].heads + [f.head], hits[at].samples + f.samples)];
    }
  }

  /** A file opened for one sample type. */
  class PtFileReader {
    const stream: InputStream
    const head: PTHeader
    const mode: Mode
    const tsPos: seq<nat>

    constructor (stream: InputStream, head: PTHeader, mode: Mode, tsPos: seq<nat>)
      ensures this.stream == stream && this.head == head && this.mode == mode && this.tsPos == tsPos
    {
      this.stream, this.head, this.mode, this.tsPos := stream, head, mode, tsPos;
    }

    /** Opens a file and records where its time slices begin. */
    static method Open(bytes: seq<nat>, mode: Mode) returns (r: Outcome<PtFileReader>)
      ensures match Index(bytes)
              case Err(e) => r == Thrown(e)
              case Ok(positions, _, _) =>
                && r.Good? && fresh(r.value) && fresh(r.value.stream) && r.value.mode == mode
                && r.value.tsPos == positions && r.value.stream.bytes == bytes && !r.value.stream.failed
    {
      hide SliceFromBytes, FileFromBytes;
      var stream := new InputStream(bytes);
      var header := stream.ReadHeader(FILE_SIZE);
      if header.Thrown? {
        return Thrown(header.error);
      }
      var head := FileFromBytes(header.value);
      stream.Seek(stream.pos + head.datacardSize);
      var positions: seq<nat>, more := [], true;
      while more
        invariant fresh(stream) && !stream.failed && stream.bytes == bytes
        invariant more ==> |positions| < head.numberOfTimeslices || positions == []
        invariant more ==> Index(bytes) == IndexFrom(bytes, stream.pos, positions, head.numberOfTimeslices)
        invariant !more ==> Index(bytes) == Ok(positions, stream.pos, false)
        decreases more, head.numberOfTimeslices - |positions|
      {
        positions := positions + [stream.pos];
        var slice := stream.ReadHeader(SLICE_SIZE);
        if slice.Thrown? {
          return Thrown(slice.error);
        }
        stream.Ignore(SliceFromBytes(slice.value).tsSize - SLICE_SIZE);
        more := |positions| < head.numberOfTimeslices;
      }
      stream.Seek(0);
      stream.Clear();
      var reader := new PtFileReader(stream, head, mode, positions);
      r := Good(reader);
    }

    method ReadOneEvent() returns (r: Outcome<Event>)
      modifies stream
      ensures match ReadEvent(stream.bytes, old(stream.pos), old(stream.failed), mode)
              case Ok(event, end, bad) => r == Good(event) && stream.pos == end && stream.failed == bad
              case Err(e) => r == Thrown(e)
      ensures r == Thrown(TruncatedHeader) ==> stream.failed
    {
      hide ParseHits, Padded, EventFromBytes;
      var header := stream.ReadHeader(EVENT_SIZE);
      if header.Thrown? {
        return Thrown(header.error);
      }
      var h := EventFromBytes(header.value);
      var hits := stream.ParseEvent(h.nHit, h.eventL - EVENT_SIZE, mode);
      if hits.Thrown? {
        return Thrown(hits.error);
      }
      r := Good(Event(h, hits.value));
    }

    /** Random access: the stream is sent to the recorded position, which a stream that is still in
        a failed state ignores; the state is cleared only afterwards. */
    method At(i: nat) returns (r: Outcome<TimeSlice>)
      requires i < |tsPos|
      modifies stream
      ensures match ReadSlice(stream.bytes, if old(stream.failed) then old(stream.pos) else tsPos[i], mode)
              case Ok(slice, end, bad) => r == Good(slice) && stream.pos == end && stream.failed == bad
              case Err(e) => r == Thrown(e)
      ensures r == Thrown(TruncatedHeader) ==> stream.failed
    {
      hide ReadEvent, SliceFromBytes;
      stream.Seek(tsPos[i]);
      stream.Clear();
      var header := stream.ReadHeader(SLICE_SIZE);
      if header.Thrown? {
        return Thrown(header.error);
      }
      var h := SliceFromBytes(header.value);
      var events: seq<Event>, k := [], 0;
      AfterNone(ReadEvents(stream.bytes, stream.pos, false, h.nEvents, mode));
      ghost var spec := ReadEvents(stream.bytes, stream.pos, false, h.nEvents, mode);
      while k < h.nEvents
        invariant 0 <= k <= h.nEvents
        invariant spec == After(events, ReadEvents(stream.bytes, stream.pos, stream.failed, h.nEvents - k, mode))
      {
        ghost var pos, failed := stream.pos, stream.failed;
        var event := ReadOneEvent();
        if event.Thrown? {
          return Thrown(event.error);
        }
        AfterOne(events, stream.bytes, pos, failed, h.nEvents - k, mode);
        events := events + [event.value];
        k := k + 1;
      }
      assert events + [] == events;
      r := Good(TimeSlice(h, events));
    }
  }

  /** The events read so far, followed by what the rest of the slice gives. */
  ghost function After(events: seq<Event>, rest: Result<seq<Event>>): Result<seq<Event>> {
    match rest
    case Err(e) => Err(e)
    case Ok(more, end, bad) => Ok(events + more, end, bad)
  }

  lemma AfterNone(rest: Result<seq<Event>>)
    ensures After([], rest) == rest
  {
    if rest.Ok? {
      assert [] + rest.value == rest.value;
    }
  }

  lemma AfterOne(events: seq<Event>, bytes: seq<nat>, pos: nat, failed: bool, n: nat, mode: Mode)
    requires n > 0
    ensures var r := ReadEvent(bytes, pos, failed, mode);
            After(events, ReadEvents(bytes, pos, failed, n, mode)) ==
            if r.Err? then Err(r.error) else After(events + [r.value], ReadEvents(bytes, r.pos, r.failed, n - 1, mode))
  {
    hide ReadEvent;
    var r := ReadEvent(bytes, pos, failed, mode);
    if r.Ok? {
      var rest := ReadEvents(bytes, r.pos, r.failed, n - 1, mode);
      if rest.Ok? {
        assert events + ([r.value] + rest.value) == (events + [r.value]) + rest.value;
      }
    }
  }
}
