/** Printing post-trigger files, and reading them back. */
module PtRoundTrip {
  import opened PtFormat
  import opened PtParse
  import opened Seqs

  /** An event as it lies in the file: its header and its frames in stream order. */
  datatype EventRecord = EventRecord(head: TEHeader, frames: seq<Frame>)
  datatype SliceRecord = SliceRecord(head: TimeSliceHeader, events: seq<EventRecord>)
  datatype FileRecord = FileRecord(head: PTHeader, datacard: seq<nat>, slices: seq<SliceRecord>)

  // ---- printing ----

  function PrintSamples(s: seq<nat>, wide: bool): seq<nat> {
    if s == [] then [] else (if wide then [s[0] % 256, s[0] / 256] else [s[0]]) + PrintSamples(s[1..], wide)
  }

  function Zeros(n: nat): (z: seq<nat>)
    ensures |z| == n
  {
    if n == 0 then [] else [0] + Zeros(n - 1)
  }

  /** A frame that the compression flag marks has one byte a sample. The payload is padded. */
  function PrintFrame(f: Frame): seq<nat> {
    var body := PrintSamples(f.samples, f.head.zipFlag == 0);
    var size := PayloadSize(f.head);
    FrameBytes(f.head) + body + Zeros(if size > |body| then size - |body| else 0)
  }

  function PrintFrames(frames: seq<Frame>): seq<nat> {
    if frames == [] then [] else PrintFrame(frames[0]) + PrintFrames(frames[1..])
  }

  function PrintEvent(e: EventRecord): seq<nat>
  {
    EventBytes(e.head) + PrintFrames(e.frames)
  }

  function PrintEvents(events: seq<EventRecord>): seq<nat>
  {
    if events == [] then [] else PrintEvent(events[0]) + PrintEvents(events[1..])
  }

  function PrintSlice(s: SliceRecord): seq<nat>
  {
    SliceBytes(s.head) + PrintEvents(s.events)
  }

  function PrintSlices(slices: seq<SliceRecord>): seq<nat>
  {
    if slices == [] then [] else PrintSlice(slices[0]) + PrintSlices(slices[1..])
  }

  function PrintFile(f: FileRecord): seq<nat>
  {
    FileBytes(f.head) + f.datacard + PrintSlices(f.slices)
  }

  // ---- well-formed records ----

  /** Headers fit their fields and announce the sizes and counts of what follows them. */
  ghost predicate FrameOkay(f: Frame, mode: Mode) {
    && FrameFits(f.head)
    && |f.samples| == f.head.nDataSamples
    && (forall i :: 0 <= i < |f.samples| ==> f.samples[i] < if f.head.zipFlag == 0 then 0x1_0000 else 0x100)
    && (mode == Compressed ==> f.head.zipFlag != 0)
  }

  ghost predicate EventOkay(e: EventRecord, mode: Mode) {
    && EventFits(e.head)
    && e.frames != [] && (forall i :: 0 <= i < |e.frames| ==> FrameOkay(e.frames[i], mode))
    && e.head.eventL == EVENT_SIZE + |PrintFrames(e.frames)|
    && |Group([], e.frames)| <= e.head.nHit
  }

  ghost predicate SliceOkay(s: SliceRecord, mode: Mode) {
    && SliceFits(s.head)
    && (forall i :: 0 <= i < |s.events| ==> EventOkay(s.events[i], mode))
    && s.head.nEvents == |s.events|
    && s.head.tsSize == |PrintSlice(s)|
  }

  ghost predicate FileOkay(f: FileRecord, mode: Mode) {
    && FileFits(f.head)
    && f.slices != [] && (forall k :: 0 <= k < |f.slices| ==> SliceOkay(f.slices[k], mode))
    && f.head.datacardSize == |f.datacard| && f.head.numberOfTimeslices == |f.slices|
  }

  // ---- what the reader is to find ----

  /** A frame as a reader of the given sample type sees it. */
  function SeenFrame(f: Frame, mode: Mode): Frame {
    if mode == NoSamples then Frame(f.head, []) else f
  }

  function SeenFrames(frames: seq<Frame>, mode: Mode): seq<Frame> {
    if frames == [] then [] else [SeenFrame(frames[0], mode)] + SeenFrames(frames[1..], mode)
  }

  function SeenEvent(e: EventRecord, mode: Mode): Event {
    Event(e.head, Padded(Group([], SeenFrames(e.frames, mode)), e.head.nHit))
  }

  function SeenEvents(events: seq<EventRecord>, mode: Mode): seq<Event> {
    if events == [] then [] else [SeenEvent(events[0], mode)] + SeenEvents(events[1..], mode)
  }

  function SeenSlice(s: SliceRecord, mode: Mode): TimeSlice {
    TimeSlice(s.head, SeenEvents(s.events, mode))
  }

  // ---- reading back ----

  lemma {:induction false} PrintSamplesSize(s: seq<nat>, wide: bool)
    ensures |PrintSamples(s, wide)| == SamplesSize(|s|, wide)
  {
    if s != [] {
      PrintSamplesSize(s[1..], wide);
    }
  }

  lemma {:induction false} SamplesReadBack(bytes: seq<nat>, pos: nat, s: seq<nat>, wide: bool)
    requires Lies(bytes, pos, PrintSamples(s, wide))
    ensures ReadSamples(bytes, pos, |s|, wide) == s
    decreases |s|
  {
    if s != [] {
      var first := if wide then [s[0] % 256, s[0] / 256] else [s[0]];
      LiesSplit(bytes, pos, first, PrintSamples(s[1..], wide));
      LiesAt(bytes, pos, first, 0);
      LiesAt(bytes, pos, first, |first| - 1);
      SamplesReadBack(bytes, pos + Width(wide), s[1..], wide);
      assert SampleAt(bytes, pos, wide) == s[0];
    }
  }

  lemma PrintFrameSize(f: Frame, mode: Mode)
    requires FrameOkay(f, mode)
    ensures |PrintFrame(f)| == FrameSize(f.head)
  {
    PrintSamplesSize(f.samples, f.head.zipFlag == 0);
    FrameRoundTrip(f.head);
  }

  lemma FrameReadsBack(bytes: seq<nat>, pos: nat, f: Frame, mode: Mode)
    requires FrameOkay(f, mode) && Lies(bytes, pos, PrintFrame(f))
    ensures var n := |PrintFrame(f)|;
            n >= FRAME_SIZE && ReadFrame(bytes, pos, mode) == FrameOk(SeenFrame(f, mode), n, pos + n, false)
  {
    hide FrameBytes, FrameFromBytes, FrameFits, ReadSamples, PrintSamples;
    var wide := f.head.zipFlag == 0;
    var body := PrintSamples(f.samples, wide);
    var pad := Zeros(PayloadSize(f.head) - |body|) by {
      PrintSamplesSize(f.samples, wide);
    }
    PrintFrameSize(f, mode);
    FrameRoundTrip(f.head);
    LiesSplit(bytes, pos, FrameBytes(f.head) + body, pad);
    LiesSplit(bytes, pos, FrameBytes(f.head), body);
    SamplesReadBack(bytes, pos + FRAME_SIZE, f.samples, wide);
  }

  lemma {:induction false} PrintFramesPositive(frames: seq<Frame>, mode: Mode)
    requires forall i :: 0 <= i < |frames| ==> FrameOkay(frames[i], mode)
    ensures |PrintFrames(frames)| > 0 <==> frames != []
  {
    if frames != [] {
      PrintFrameSize(frames[0], mode);
    }
  }

  lemma {:induction false} FramesReadBack(bytes: seq<nat>, pos: nat, frames: seq<Frame>, mode: Mode, nhits: nat,
                                          hits: seq<Hit>)
    requires frames != [] && forall i :: 0 <= i < |frames| ==> FrameOkay(frames[i], mode)
    requires Lies(bytes, pos, PrintFrames(frames))
    requires |Group(hits, SeenFrames(frames, mode))| <= nhits
    ensures ParseHits(bytes, pos, |PrintFrames(frames)|, mode, nhits, hits) ==
            Ok(Group(hits, SeenFrames(frames, mode)), pos + |PrintFrames(frames)|, false)
    decreases |frames|
  {
    hide ReadFrame, PrintFrame, AddFrame, FrameOkay;
    var f, rest := frames[0], frames[1..];
    LiesSplit(bytes, pos, PrintFrame(f), PrintFrames(rest));
    FrameReadsBack(bytes, pos, f, mode);
    PrintFramesPositive(rest, mode);
    var seen := SeenFrames(frames, mode);
    assert seen[1..] == SeenFrames(rest, mode);
    if rest != [] {
      FramesReadBack(bytes, pos + |PrintFrame(f)|, rest, mode, nhits, AddFrame(hits, seen[0]));
    }
  }

  /** The grouping sees only the headers, so the hit count does not depend on the sample type. */
  lemma {:induction false} SeenHitCount(g: seq<Hit>, h: seq<Hit>, frames: seq<Frame>, mode: Mode)
    requires |g| == |h|
    ensures |Group(g, SeenFrames(frames, mode))| == |Group(h, frames)|
    decreases |frames|
  {
    if frames != [] {
      var seen := SeenFrames(frames, mode);
      assert seen[1..] == SeenFrames(frames[1..], mode);
      SeenHitCount(AddFrame(g, seen[0]), AddFrame(h, frames[0]), frames[1..], mode);
    }
  }

  lemma EventReadsBack(bytes: seq<nat>, pos: nat, e: EventRecord, mode: Mode)
    requires EventOkay(e, mode) && Lies(bytes, pos, PrintEvent(e))
    ensures ReadEvent(bytes, pos, false, mode) == Ok(SeenEvent(e, mode), pos + |PrintEvent(e)|, false)
  {
    hide EventBytes, EventFromBytes, EventFits, ParseHits, FrameOkay, Padded, PrintFrames, Group, SeenFrames;
    LiesSplit(bytes, pos, EventBytes(e.head), PrintFrames(e.frames));
    EventRoundTrip(e.head);
    SeenHitCount([], [], e.frames, mode);
    FramesReadBack(bytes, pos + EVENT_SIZE, e.frames, mode, e.head.nHit, []);
  }

  lemma {:induction false} EventsReadBack(bytes: seq<nat>, pos: nat, events: seq<EventRecord>, mode: Mode)
    requires forall i :: 0 <= i < |events| ==> EventOkay(events[i], mode)
    requires Lies(bytes, pos, PrintEvents(events))
    ensures ReadEvents(bytes, pos, false, |events|, mode) ==
            Ok(SeenEvents(events, mode), pos + |PrintEvents(events)|, false)
    decreases |events|
  {
    hide ReadEvent, PrintEvent, SeenEvent, EventOkay;
    if events != [] {
      LiesSplit(bytes, pos, PrintEvent(events[0]), PrintEvents(events[1..]));
      EventReadsBack(bytes, pos, events[0], mode);
      EventsReadBack(bytes, pos + |PrintEvent(events[0])|, events[1..], mode);
    }
  }

  /** A printed time slice reads back as itself, and leaves the stream where the next one begins. */
  lemma SliceReadsBack(bytes: seq<nat>, pos: nat, s: SliceRecord, mode: Mode)
    requires SliceOkay(s, mode) && Lies(bytes, pos, PrintSlice(s))
    ensures ReadSlice(bytes, pos, mode) == Ok(SeenSlice(s, mode), pos + s.head.tsSize, false)
  {
    hide SliceBytes, SliceFromBytes, SliceFits, ReadEvents, PrintEvents, EventOkay, SeenEvents;
    LiesSplit(bytes, pos, SliceBytes(s.head), PrintEvents(s.events));
    SliceRoundTrip(s.head);
    EventsReadBack(bytes, pos + SLICE_SIZE, s.events, mode);
  }

  // ---- the index ----

  /** The sum of the sizes of the first i slices, as their headers give them. */
  function SizeBefore(slices: seq<SliceRecord>, i: nat): nat
    requires i <= |slices|
  {
    if i == 0 then 0 else SizeBefore(slices, i - 1) + slices[i - 1].head.tsSize
  }

  /** The positions where the slices begin, the first of them at `pos`. */
  function Positions(pos: nat, slices: seq<SliceRecord>): (p: seq<nat>)
    ensures |p| == |slices|
    decreases |slices|
  {
    if slices == [] then [] else [pos] + Positions(pos + slices[0].head.tsSize, slices[1..])
  }

  lemma {:induction false} SizeBeforeShift(slices: seq<SliceRecord>, i: nat)
    requires 0 < i <= |slices|
    ensures SizeBefore(slices, i) == slices[0].head.tsSize + SizeBefore(slices[1..], i - 1)
  {
    if i > 1 {
      SizeBeforeShift(slices, i - 1);
    }
  }

  /** Each position is the start plus the sizes of the slices before. */
  lemma {:induction false} PositionsArePrefixSums(pos: nat, slices: seq<SliceRecord>, i: nat)
    requires i < |slices|
    ensures Positions(pos, slices)[i] == pos + SizeBefore(slices, i)
    decreases i
  {
    if i > 0 {
      PositionsArePrefixSums(pos + slices[0].head.tsSize, slices[1..], i - 1);
      SizeBeforeShift(slices, i);
    }
  }

  lemma {:induction false} SliceLies(bytes: seq<nat>, pos: nat, slices: seq<SliceRecord>, mode: Mode, i: nat)
    requires i < |slices| && forall k :: 0 <= k < |slices| ==> SliceOkay(slices[k], mode)
    requires Lies(bytes, pos, PrintSlices(slices))
    ensures Lies(bytes, pos + SizeBefore(slices, i), PrintSlice(slices[i]))
    decreases |slices|
  {
    hide PrintSlice;
    LiesSplit(bytes, pos, PrintSlice(slices[0]), PrintSlices(slices[1..]));
    assert SliceOkay(slices[0], mode);
    if i > 0 {
      SizeBeforeShift(slices, i);
      SliceLies(bytes, pos + slices[0].head.tsSize, slices[1..], mode, i - 1);
    }
  }

  lemma SliceHeaderLies(bytes: seq<nat>, pos: nat, s: SliceRecord, mode: Mode)
    requires SliceOkay(s, mode) && Lies(bytes, pos, PrintSlice(s))
    ensures pos + SLICE_SIZE <= pos + s.head.tsSize <= |bytes|
    ensures SliceFromBytes(bytes[pos..pos + SLICE_SIZE]) == s.head
  {
    hide SliceBytes, SliceFromBytes, SliceFits, PrintEvents, EventOkay;
    LiesSplit(bytes, pos, SliceBytes(s.head), PrintEvents(s.events));
    SliceRoundTrip(s.head);
  }

  lemma {:induction false} SlicesIndexed(bytes: seq<nat>, pos: nat, slices: seq<SliceRecord>, mode: Mode,
                                         found: seq<nat>, n: nat)
    requires slices != [] && forall k :: 0 <= k < |slices| ==> SliceOkay(slices[k], mode)
    requires Lies(bytes, pos, PrintSlices(slices)) && n == |found| + |slices|
    ensures IndexFrom(bytes, pos, found, n).Ok?
            && IndexFrom(bytes, pos, found, n).value == found + Positions(pos, slices)
    decreases |slices|
  {
    hide PrintSlice, SliceFromBytes, SliceOkay, Lies;
    LiesSplit(bytes, pos, PrintSlice(slices[0]), PrintSlices(slices[1..]));
    SliceHeaderLies(bytes, pos, slices[0], mode);
    assert |PrintSlice(slices[0])| == slices[0].head.tsSize by { SliceSize(slices[0], mode); }
    if |slices| > 1 {
      SlicesIndexed(bytes, pos + slices[0].head.tsSize, slices[1..], mode, found + [pos], n);
      assert found + [pos] + Positions(pos + slices[0].head.tsSize, slices[1..]) == found + Positions(pos, slices);
    } else {
      assert Positions(pos, slices) == [pos];
    }
  }

  lemma SliceSize(s: SliceRecord, mode: Mode)
    requires SliceOkay(s, mode)
    ensures |PrintSlice(s)| == s.head.tsSize
  {
  }

  /** Opening a printed file indexes its slices by prefix sums of their sizes, and reading at each
      indexed position gives the slice that was printed there and ends at the next position: random
      access and reading on from slice to slice agree. */
  lemma FileReadsBack(f: FileRecord, mode: Mode, i: nat)
    requires FileOkay(f, mode) && i < |f.slices|
    ensures var bytes, start := PrintFile(f), FILE_SIZE + |f.datacard|;
            && Index(bytes).Ok?
            && |Index(bytes).value| == |f.slices|
            && Index(bytes).value[i] == start + SizeBefore(f.slices, i)
            && ReadSlice(bytes, Index(bytes).value[i], mode) ==
                 Ok(SeenSlice(f.slices[i], mode), start + SizeBefore(f.slices, i + 1), false)
  {
    hide FileBytes, FileFromBytes, FileFits, PrintSlices, PrintSlice, SliceOkay, IndexFrom, ReadSlice, SeenSlice;
    var bytes, start := PrintFile(f), FILE_SIZE + |f.datacard|;
    FileRoundTrip(f.head);
    assert Lies(bytes, 0, bytes);
    LiesSplit(bytes, 0, FileBytes(f.head) + f.datacard, PrintSlices(f.slices));
    LiesSplit(bytes, 0, FileBytes(f.head), f.datacard);
    assert bytes[..FILE_SIZE] == bytes[0..FILE_SIZE];
    SlicesIndexed(bytes, start, f.slices, mode, [], |f.slices|);
    PositionsArePrefixSums(start, f.slices, i);
    SliceLies(bytes, start, f.slices, mode, i);
    SliceReadsBack(bytes, start + SizeBefore(f.slices, i), f.slices[i], mode);
  }
}
