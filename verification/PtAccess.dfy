/** Reading printed files with the reader itself. */
module PtAccess {
  import opened PtParse
  import opened PtFile
  import opened PtRoundTrip
  import opened TridasSource

  /** A printed file is opened, and its time slices are taken in any order and as often as wished: each
      access gives the slice that was printed, whatever was read before it. */
  method ReadInOrder(f: FileRecord, mode: Mode, order: seq<nat>) returns (slices: seq<TimeSlice>)
    requires FileOkay(f, mode) && forall k :: 0 <= k < |order| ==> order[k] < |f.slices|
    ensures |slices| == |order|
    ensures forall k :: 0 <= k < |order| ==> slices[k] == SeenSlice(f.slices[order[k]], mode)
  {
    hide PrintFile, Index, ReadSlice, SeenSlice, SliceOkay, SizeBefore;
    slices := [];
    FileReadsBack(f, mode, 0);
    var file := PtFileReader.Open(PrintFile(f), mode);
    var reader := file.value;
    while |slices| < |order|
      invariant |slices| <= |order|
      invariant reader == file.value && !reader.stream.failed
      invariant reader.tsPos == Index(PrintFile(f)).value
      invariant forall k :: 0 <= k < |slices| ==> slices[k] == SeenSlice(f.slices[order[k]], mode)
    {
      var i := order[|slices|];
      FileReadsBack(f, mode, i);
      var slice := reader.At(i);
      slices := slices + [slice.value];
    }
  }

  /** The events of a file as they were printed, in order. */
  function PrintedEvents(slices: seq<SliceRecord>, mode: Mode): seq<Event> {
    if slices == [] then [] else SeenEvents(slices[0].events, mode) + PrintedEvents(slices[1..], mode)
  }

  function SeenSlices(slices: seq<SliceRecord>, mode: Mode): (seen: seq<TimeSlice>)
    ensures |seen| == |slices| && forall i :: 0 <= i < |seen| ==> seen[i] == SeenSlice(slices[i], mode)
  {
    seq(|slices|, i requires 0 <= i < |slices| => SeenSlice(slices[i], mode))
  }

  lemma {:induction false} SeenSlicesHoldPrinted(slices: seq<SliceRecord>, mode: Mode)
    ensures AllEvents(SeenSlices(slices, mode)) == PrintedEvents(slices, mode)
    decreases |slices|
  {
    hide SeenEvents;
    if slices != [] {
      SeenSlicesHoldPrinted(slices[1..], mode);
      assert SeenSlices(slices, mode)[1..] == SeenSlices(slices[1..], mode);
    }
  }

  lemma {:induction false} SeenEventsSize(events: seq<EventRecord>, mode: Mode)
    ensures |SeenEvents(events, mode)| == |events|
  {
    if events != [] {
      SeenEventsSize(events[1..], mode);
    }
  }

  /** From a printed file to its events: opened by the reader and walked by the event source, it gives each
      printed event once, in order, and then the end. */
  method HandOutPrinted(f: FileRecord, mode: Mode) returns (events: seq<Event>)
    requires FileOkay(f, mode) && forall k :: 0 <= k < |f.slices| ==> f.slices[k].events != []
    ensures events == PrintedEvents(f.slices, mode)
  {
    hide PrintFile, Index, ReadSlice, SliceOkay, SizeBefore, SeenEvents;
    FileReadsBack(f, mode, 0);
    var file := PtFileReader.Open(PrintFile(f), mode);
    var reader := file.value;
    ghost var slices := SeenSlices(f.slices, mode);
    forall i | 0 <= i < |slices|
      ensures slices[i].events != []
      ensures var r := ReadSlice(reader.stream.bytes, reader.tsPos[i], reader.mode);
              r.Ok? && r.value == slices[i] && !r.failed
    {
      FileReadsBack(f, mode, i);
      SeenEventsSize(f.slices[i].events, mode);
    }
    SeenSlicesHoldPrinted(f.slices, mode);
    events := HandOut(reader, slices);
  }
}
