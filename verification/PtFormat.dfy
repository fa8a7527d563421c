/** The records of a post-trigger file and their bytes. */
module PtFormat {
  import opened BitFields
  import opened TimeStamp

  datatype PTHeader = PTHeader(runNumber: nat, fileNumber: nat, runStartTime: nat, datacardSize: nat,
                               numberOfEvents: nat, numberOfTimeslices: nat, effectiveFileSize: nat)

  datatype TimeSliceHeader = TimeSliceHeader(tsId: nat, nEvents: nat, tsSize: nat)

  const N_COUNTERS := 21

  type Counters = c: seq<nat> | |c| == N_COUNTERS witness seq(N_COUNTERS, _ => 0)

  /** `counters` are the seeds per trigger (5), the trigger types (8) and the seeds per plugin (8). */
  datatype TEHeader = TEHeader(eventTag: nat, eventId: nat, eventL: nat, nHit: nat, startTime: nat,
                               tsCompleted: nat, counters: Counters)

  const FRAME_SIZE := 16
  const EVENT_SIZE := 112
  const SLICE_SIZE := 16
  const FILE_SIZE := 32

  const ID_BITS: seq<nat> := [4, 5, 7, 16]
  const TIME_BITS: seq<nat> := [16, 13, 17, 10, 8]
  const HIT_BITS: seq<nat> := [7, 1, 22, 1, 1]
  const SLICE_BITS: seq<nat> := [64, 32, 32]
  const FILE_BITS: seq<nat> := [32, 32, 64, 32, 32, 32, 32]

  function FrameBits(): seq<nat> { ID_BITS + TIME_BITS + HIT_BITS }
  function EventBits(): seq<nat> { [32, 32, 32, 32, 64, 32] + Repeat(N_COUNTERS, 32) }

  function FrameFields(h: DataFrameHeader): seq<nat> {
    [h.pmtId, h.efcmId, h.towerId, h.syncBytes, h.t4ns, h.frameCounter, h.seconds, h.days, h.years,
     h.nDataSamples, h.fifoFull, h.charge, h.fragFlag, h.zipFlag]
  }

  function FrameFromFields(v: seq<nat>): DataFrameHeader
    requires |v| == 14
  {
    DataFrameHeader(v[0], v[1], v[2], v[3], v[4], v[5], v[6], v[7], v[8], v[9], v[10], v[11], v[12], v[13])
  }

  function EventFields(h: TEHeader): seq<nat> {
    [h.eventTag, h.eventId, h.eventL, h.nHit, h.startTime, h.tsCompleted] + h.counters
  }

  function EventFromFields(v: seq<nat>): TEHeader
    requires |v| == 6 + N_COUNTERS
  {
    TEHeader(v[0], v[1], v[2], v[3], v[4], v[5], v[6..])
  }

  function SliceFields(h: TimeSliceHeader): seq<nat> { [h.tsId, h.nEvents, h.tsSize] }

  function SliceFromFields(v: seq<nat>): TimeSliceHeader
    requires |v| == 3
  {
    TimeSliceHeader(v[0], v[1], v[2])
  }

  function FileFields(h: PTHeader): seq<nat> {
    [h.runNumber, h.fileNumber, h.runStartTime, h.datacardSize,
     h.numberOfEvents, h.numberOfTimeslices, h.effectiveFileSize]
  }

  function FileFromFields(v: seq<nat>): PTHeader
    requires |v| == 7
  {
    PTHeader(v[0], v[1], v[2], v[3], v[4], v[5], v[6])
  }

  /** Every field fits its width. */
  ghost predicate FrameFits(h: DataFrameHeader) { Fits(FrameFields(h), FrameBits()) }
  ghost predicate EventFits(h: TEHeader) { Fits(EventFields(h), EventBits()) }
  ghost predicate SliceFits(h: TimeSliceHeader) { Fits(SliceFields(h), SLICE_BITS) }
  ghost predicate FileFits(h: PTHeader) { Fits(FileFields(h), FILE_BITS) }

  function FrameBytes(h: DataFrameHeader): seq<nat> { Encode(FrameFields(h), FrameBits(), FRAME_SIZE) }
  function SliceBytes(h: TimeSliceHeader): seq<nat> { Encode(SliceFields(h), SLICE_BITS, SLICE_SIZE) }
  function FileBytes(h: PTHeader): seq<nat> { Encode(FileFields(h), FILE_BITS, FILE_SIZE) }
  function EventBytes(h: TEHeader): seq<nat> { Encode(EventFields(h), EventBits(), EVENT_SIZE) }

  function FrameFromBytes(s: seq<nat>): DataFrameHeader { FrameFromFields(Decode(s, FrameBits())) }
  function EventFromBytes(s: seq<nat>): TEHeader { EventFromFields(Decode(s, EventBits())) }
  function SliceFromBytes(s: seq<nat>): TimeSliceHeader { SliceFromFields(Decode(s, SLICE_BITS)) }
  function FileFromBytes(s: seq<nat>): PTHeader { FileFromFields(Decode(s, FILE_BITS)) }

  lemma Sum3(a: nat, b: nat, c: nat)
    ensures Sum([a, b, c]) == a + b + c
  {
    var s := [a, b, c];
    assert s[1..] == [b, c] && [b, c][1..] == [c] && [c][1..] == [];
    assert Sum([c]) == c && Sum([b, c]) == b + c;
  }

  lemma Sum6(a: nat, b: nat, c: nat, d: nat, e: nat, f: nat)
    ensures Sum([a, b, c, d, e, f]) == a + b + c + d + e + f
  {
    assert [a, b, c, d, e, f] == [a, b, c] + [d, e, f];
    SumConcat([a, b, c], [d, e, f]);
    Sum3(a, b, c);
    Sum3(d, e, f);
  }

  lemma FrameBitsSum()
    ensures Sum(FrameBits()) == 8 * FRAME_SIZE
  {
    var u, v, w := [4, 5, 7, 16, 16, 13], [17, 10, 8, 7, 1, 22], [1, 1];
    assert FrameBits() == u + v + w;
    SumConcat(u + v, w);
    SumConcat(u, v);
    Sum6(4, 5, 7, 16, 16, 13);
    Sum6(17, 10, 8, 7, 1, 22);
    assert w[1..] == [1] && [1][1..] == [];
  }

  lemma FileBitsSum()
    ensures Sum(FILE_BITS) == 8 * FILE_SIZE
  {
    assert FILE_BITS == [32, 32, 64, 32, 32, 32] + [32];
    SumConcat([32, 32, 64, 32, 32, 32], [32]);
    Sum6(32, 32, 64, 32, 32, 32);
    assert [32][1..] == [];
  }

  lemma EventBitsSum()
    ensures Sum(EventBits()) == 8 * EVENT_SIZE
  {
    SumConcat([32, 32, 32, 32, 64, 32], Repeat(N_COUNTERS, 32));
    Sum6(32, 32, 32, 32, 64, 32);
    SumOfRepeat(N_COUNTERS, 32);
  }

  /** Reading the bytes of a header gives the header. */
  lemma FrameRoundTrip(h: DataFrameHeader)
    requires FrameFits(h)
    ensures |FrameBytes(h)| == FRAME_SIZE && FrameFromBytes(FrameBytes(h)) == h
  {
    FrameBitsSum();
    DecodeEncode(FrameFields(h), FrameBits(), FRAME_SIZE);
  }

  lemma EventRoundTrip(h: TEHeader)
    requires EventFits(h)
    ensures |EventBytes(h)| == EVENT_SIZE && EventFromBytes(EventBytes(h)) == h
  {
    EventBitsSum();
    DecodeEncode(EventFields(h), EventBits(), EVENT_SIZE);
    assert EventFields(h)[6..] == h.counters;
  }

  lemma SliceRoundTrip(h: TimeSliceHeader)
    requires SliceFits(h)
    ensures |SliceBytes(h)| == SLICE_SIZE && SliceFromBytes(SliceBytes(h)) == h
  {
    Sum3(64, 32, 32);
    DecodeEncode(SliceFields(h), SLICE_BITS, SLICE_SIZE);
  }

  lemma FileRoundTrip(h: PTHeader)
    requires FileFits(h)
    ensures |FileBytes(h)| == FILE_SIZE && FileFromBytes(FileBytes(h)) == h
  {
    FileBitsSum();
    DecodeEncode(FileFields(h), FILE_BITS, FILE_SIZE);
  }
}
