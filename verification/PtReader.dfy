/** Reading events, time slices and files, as functions of the file's bytes and a position. */
module PtParse {
  import opened TimeStamp
  import opened PtFormat

  /** The three sample types that a reader can be made for. */
  datatype Mode = NoSamples | Compressed | Uncompressed

  datatype Error = TruncatedHeader | NotCompressed | BeyondHits | IncompleteEvent

  /** What was read, and the stream's position and failure flag afterwards. */
  datatype Result<+T> = Ok(value: T, pos: nat, failed: bool) | Err(error: Error)

  datatype Frame = Frame(head: DataFrameHeader, samples: seq<nat>)
  datatype Hit = Hit(heads: seq<DataFrameHeader>, samples: seq<nat>)
  datatype Event = Event(head: TEHeader, hits: seq<Hit>)
  datatype TimeSlice = TimeSlice(head: TimeSliceHeader, events: seq<Event>)

  function Min(a: int, b: int): int { if a < b then a else b }

  // ---- one frame ----

  /** Two bytes a sample, padded to whole 32-bit words. */
  function PayloadSize(h: DataFrameHeader): nat {
    h.nDataSamples * 2 + if h.nDataSamples % 2 == 0 then 0 else 2
  }

  function FrameSize(h: DataFrameHeader): nat { FRAME_SIZE + PayloadSize(h) }

  /** Bytes that reading past the end does not fill stay zero. */
  function ByteAt(bytes: seq<nat>, i: nat): nat {
    if i < |bytes| then bytes[i] else 0
  }

  function SampleAt(bytes: seq<nat>, at: nat, wide: bool): nat {
    if wide then ByteAt(bytes, at) + 256 * ByteAt(bytes, at + 1) else ByteAt(bytes, at)
  }

  function Width(wide: bool): nat { if wide then 2 else 1 }

  function SamplesSize(n: nat, wide: bool): nat { if wide then 2 * n else n }

  function ReadSamples(bytes: seq<nat>, at: nat, n: nat, wide: bool): (s: seq<nat>)
    ensures |s| == n
    decreases n
  {
    if n == 0 then [] else [SampleAt(bytes, at, wide)] + ReadSamples(bytes, at + Width(wide), n - 1, wide)
  }

  /** Samples are two bytes wide only for a header without the compression flag. */
  function Wide(mode: Mode, h: DataFrameHeader): bool {
    mode.Uncompressed? && h.zipFlag == 0
  }

  /** A frame, how much of the event size it accounts for, and the stream afterwards. */
  datatype FrameResult = FrameOk(frame: Frame, used: nat, pos: nat, failed: bool) | FrameErr(error: Error)

  function ReadFrame(bytes: seq<nat>, pos: nat, mode: Mode): (r: FrameResult)
    ensures r.FrameOk? ==> FRAME_SIZE <= r.used && pos <= r.pos <= |bytes|
  {
    if pos + FRAME_SIZE > |bytes| then FrameErr(TruncatedHeader)
    else
      var head := FrameFromBytes(bytes[pos..pos + FRAME_SIZE]);
      var body, payload := pos + FRAME_SIZE, PayloadSize(head);
      if mode.Compressed? && head.zipFlag == 0 then FrameErr(NotCompressed)
      else if mode.NoSamples? then
        FrameOk(Frame(head, []), FRAME_SIZE + payload, Min(body + payload, |bytes|), false)
      else
        var wide := Wide(mode, head);
        var want := SamplesSize(head.nDataSamples, wide);
        var got := Min(want, |bytes| - body);
        var failed := got < want;
        FrameOk(Frame(head, ReadSamples(bytes, body, head.nDataSamples, wide)),
                FRAME_SIZE + got + (payload - want),
                if failed then body + got else Min(body + payload, |bytes|),
                failed)
  }

  // ---- grouping frames into hits ----

  /** A frame without the fragmentation flag opens a new hit once the first hit has a frame. */
  function AddFrame(hits: seq<Hit>, f: Frame): (r: seq<Hit>)
    ensures |hits| <= |r| <= |hits| + 1 && r != []
  {
    if hits == [] || f.head.fragFlag == 0 then hits + [Hit([f.head], f.samples)]
    else
      var last := hits[|hits| - 1];
      hits[..|hits| - 1] + [Hit(last.heads + [f.head], last.samples + f.samples)]
  }

  function Group(hits: seq<Hit>, frames: seq<Frame>): (r: seq<Hit>)
    ensures |hits| <= |r|
    decreases |frames|
  {
    if frames == [] then hits else Group(AddFrame(hits, frames[0]), frames[1..])
  }

  /** The vector of hits has the size that the event header gives; unused hits stay empty. */
  function Padded(hits: seq<Hit>, n: nat): seq<Hit> {
    hits + seq(if n >= |hits| then n - |hits| else 0, _ => Hit([], []))
  }

  // ---- one event ----

  /** The frames of an event of `size` bytes after its header. */
  function ParseFrames(bytes: seq<nat>, pos: nat, size: int, mode: Mode): (r: Result<seq<Frame>>)
    ensures r.Ok? ==> r.value != []
    decreases if size > 0 then size else 0
  {
    match ReadFrame(bytes, pos, mode)
    case FrameErr(e) => Err(e)
    case FrameOk(frame, used, next, failed) =>
      var rest := size - used;
      if !failed && rest > 0 then
        match ParseFrames(bytes, next, rest, mode)
        case Err(e) => Err(e)
        case Ok(frames, end, bad) => Ok([frame] + frames, end, bad)
      else if rest != 0 then Err(IncompleteEvent)
      else Ok([frame], next, failed)
  }

  /** The event as the loop builds it: a frame is put into its hit before the next is read. */
  function ParseHits(bytes: seq<nat>, pos: nat, size: int, mode: Mode, nhits: nat,
                     hits: seq<Hit>): (r: Result<seq<Hit>>)
    decreases if size > 0 then size else 0
  {
    match ReadFrame(bytes, pos, mode)
    case FrameErr(e) => Err(e)
    case FrameOk(frame, used, next, failed) =>
      var more := AddFrame(hits, frame);
      var rest := size - used;
      if |more| > nhits then Err(BeyondHits)
      else if !failed && rest > 0 then ParseHits(bytes, next, rest, mode, nhits, more)
      else if rest != 0 then Err(IncompleteEvent)
      else Ok(more, next, failed)
  }

  function ReadEvent(bytes: seq<nat>, pos: nat, failed: bool, mode: Mode): Result<Event> {
    if failed || pos + EVENT_SIZE > |bytes| then Err(TruncatedHeader)
    else
      var head := EventFromBytes(bytes[pos..pos + EVENT_SIZE]);
      match ParseHits(bytes, pos + EVENT_SIZE, head.eventL - EVENT_SIZE, mode, head.nHit, [])
      case Err(e) => Err(e)
      case Ok(hits, end, bad) => Ok(Event(head, Padded(hits, head.nHit)), end, bad)
  }

  // ---- time slices and files ----

  function ReadEvents(bytes: seq<nat>, pos: nat, failed: bool, n: nat, mode: Mode): Result<seq<Event>>
    decreases n
  {
    if n == 0 then Ok([], pos, failed)
    else
      match ReadEvent(bytes, pos, failed, mode)
      case Err(e) => Err(e)
      case Ok(event, next, bad) =>
        match ReadEvents(bytes, next, bad, n - 1, mode)
        case Err(e) => Err(e)
        case Ok(events, end, worse) => Ok([event] + events, end, worse)
  }

  function ReadSlice(bytes: seq<nat>, pos: nat, mode: Mode): Result<TimeSlice> {
    if pos + SLICE_SIZE > |bytes| then Err(TruncatedHeader)
    else
      var head := SliceFromBytes(bytes[pos..pos + SLICE_SIZE]);
      match ReadEvents(bytes, pos + SLICE_SIZE, false, head.nEvents, mode)
      case Err(e) => Err(e)
      case Ok(events, end, bad) => Ok(TimeSlice(head, events), end, bad)
  }

  /** The positions of the time slices from `pos` on, at least one of them; a slice size below that
      of its header skips nothing. */
  function IndexFrom(bytes: seq<nat>, pos: nat, found: seq<nat>, n: nat): (r: Result<seq<nat>>)
    decreases n - |found|
  {
    if pos + SLICE_SIZE > |bytes| then Err(TruncatedHeader)
    else
      var head := SliceFromBytes(bytes[pos..pos + SLICE_SIZE]);
      var skip := if head.tsSize > SLICE_SIZE then head.tsSize - SLICE_SIZE else 0;
      var next := Min(pos + SLICE_SIZE + skip, |bytes|);
      if |found| + 1 < n then IndexFrom(bytes, next, found + [pos], n) else Ok(found + [pos], next, false)
  }

  function Index(bytes: seq<nat>): Result<seq<nat>> {
    if FILE_SIZE > |bytes| then Err(TruncatedHeader)
    else
      var head := FileFromBytes(bytes[..FILE_SIZE]);
      IndexFrom(bytes, FILE_SIZE + head.datacardSize, [], head.numberOfTimeslices)
  }
}

/** What the parsers do on every input. */
module PtProperties {
  import opened Seqs
  import opened TimeStamp
  import opened PtFormat
  import opened PtParse

  function Heads(frames: seq<Frame>): seq<DataFrameHeader> {
    if frames == [] then [] else [frames[0].head] + Heads(frames[1..])
  }

  function AllSamples(frames: seq<Frame>): seq<nat> {
    if frames == [] then [] else frames[0].samples + AllSamples(frames[1..])
  }

  function HitHeads(hits: seq<Hit>): seq<DataFrameHeader> {
    if hits == [] then [] else HitHeads(hits[..|hits| - 1]) + hits[|hits| - 1].heads
  }

  function HitSamples(hits: seq<Hit>): seq<nat> {
    if hits == [] then [] else HitSamples(hits[..|hits| - 1]) + hits[|hits| - 1].samples
  }

  function TotalSize(frames: seq<Frame>): nat {
    if frames == [] then 0 else FrameSize(frames[0].head) + TotalSize(frames[1..])
  }

  /** Every hit has frames; all but the first frame of a hit carry the fragmentation flag, and so
      no hit but the first starts with a flagged one. */
  ghost predicate WellGrouped(hits: seq<Hit>) {
    && (forall i :: 0 <= i < |hits| ==> hits[i].heads != [])
    && (forall i :: 1 <= i < |hits| ==> hits[i].heads[0].fragFlag == 0)
    && (forall i, j :: 0 <= i < |hits| && 1 <= j < |hits[i].heads| ==> hits[i].heads[j].fragFlag != 0)
  }

  lemma LastHit(hits: seq<Hit>, h: Hit)
    ensures HitHeads(hits + [h]) == HitHeads(hits) + h.heads && HitSamples(hits + [h]) == HitSamples(hits) + h.samples
  {
    assert (hits + [h])[..|hits|] == hits;
  }

  lemma AddFrameKeepsGroups(hits: seq<Hit>, f: Frame)
    requires WellGrouped(hits)
    ensures WellGrouped(AddFrame(hits, f))
  {
  }

  lemma AddFrameAppends(hits: seq<Hit>, f: Frame)
    ensures HitHeads(AddFrame(hits, f)) == HitHeads(hits) + [f.head]
    ensures HitSamples(AddFrame(hits, f)) == HitSamples(hits) + f.samples
  {
    hide HitHeads, HitSamples;
    if hits == [] || f.head.fragFlag == 0 {
      LastHit(hits, Hit([f.head], f.samples));
    } else {
      var init, last := hits[..|hits| - 1], hits[|hits| - 1];
      assert init + [last] == hits;
      LastHit(init, last);
      LastHit(init, Hit(last.heads + [f.head], last.samples + f.samples));
      Regroup(HitHeads(init), last.heads, [f.head]);
      Regroup(HitSamples(init), last.samples, f.samples);
    }
  }

  /** Grouping keeps all frames and samples in stream order and breaks exactly at the unfragmented
      frames after the first. */
  lemma {:induction false} GroupKeepsOrder(hits: seq<Hit>, frames: seq<Frame>)
    requires WellGrouped(hits)
    ensures WellGrouped(Group(hits, frames))
    ensures HitHeads(Group(hits, frames)) == HitHeads(hits) + Heads(frames)
    ensures HitSamples(Group(hits, frames)) == HitSamples(hits) + AllSamples(frames)
    decreases |frames|
  {
    hide AddFrame, HitHeads, HitSamples, WellGrouped;
    if frames != [] {
      var f, more := frames[0], AddFrame(hits, frames[0]);
      AddFrameKeepsGroups(hits, f);
      AddFrameAppends(hits, f);
      GroupKeepsOrder(more, frames[1..]);
      Regroup(HitHeads(hits), [f.head], Heads(frames[1..]));
      Regroup(HitSamples(hits), f.samples, AllSamples(frames[1..]));
    }
  }

  lemma GroupCons(hits: seq<Hit>, f: Frame, frames: seq<Frame>)
    ensures Group(hits, [f] + frames) == Group(AddFrame(hits, f), frames)
    ensures [f] + [] == [f]
  {
    assert ([f] + frames)[1..] == frames;
  }

  /** The loop that fills hits as it reads gives the grouping of the frames. */
  lemma {:induction false} ParseHitsGroupsFrames(bytes: seq<nat>, pos: nat, size: int, mode: Mode, nhits: nat,
                                                 hits: seq<Hit>)
    requires ParseHits(bytes, pos, size, mode, nhits, hits).Ok?
    ensures var r, q := ParseHits(bytes, pos, size, mode, nhits, hits), ParseFrames(bytes, pos, size, mode);
            q.Ok? && r.value == Group(hits, q.value) && |r.value| <= nhits && r.pos == q.pos && r.failed == q.failed
    decreases if size > 0 then size else 0
  {
    hide ReadFrame;
    var f := ReadFrame(bytes, pos, mode);
    if !f.failed && size - f.used > 0 {
      var q := ParseFrames(bytes, f.pos, size - f.used, mode);
      ParseHitsGroupsFrames(bytes, f.pos, size - f.used, mode, nhits, AddFrame(hits, f.frame));
      GroupCons(hits, f.frame, q.value);
    } else {
      GroupCons(hits, f.frame, []);
    }
  }

  /** It succeeds wherever the frames parse into no more hits than the event header announces. */
  lemma {:induction false} ParseHitsSucceeds(bytes: seq<nat>, pos: nat, size: int, mode: Mode, nhits: nat,
                                             hits: seq<Hit>)
    requires ParseFrames(bytes, pos, size, mode).Ok?
    requires |Group(hits, ParseFrames(bytes, pos, size, mode).value)| <= nhits
    ensures ParseHits(bytes, pos, size, mode, nhits, hits).Ok?
    decreases if size > 0 then size else 0
  {
    hide ReadFrame;
    var f := ReadFrame(bytes, pos, mode);
    if !f.failed && size - f.used > 0 {
      var q := ParseFrames(bytes, f.pos, size - f.used, mode);
      GroupCons(hits, f.frame, q.value);
      ParseHitsSucceeds(bytes, f.pos, size - f.used, mode, nhits, AddFrame(hits, f.frame));
    } else {
      GroupCons(hits, f.frame, []);
    }
  }

  /** A frame accounts for its header and padded payload, and for less when the file ends inside it. */
  lemma FrameIsAccountedFor(bytes: seq<nat>, pos: nat, mode: Mode)
    ensures var r := ReadFrame(bytes, pos, mode);
            r.FrameOk? ==> if r.failed then r.used < FrameSize(r.frame.head) else r.used == FrameSize(r.frame.head)
  {
    hide FrameFromBytes, ReadSamples;
  }

  /** When an event is accepted, headers and padded payloads sum to its size exactly, unless the
      file ended inside the samples of the last frame; then they sum to more. */
  lemma {:induction false} SizesSumToEvent(bytes: seq<nat>, pos: nat, size: int, mode: Mode)
    ensures var q := ParseFrames(bytes, pos, size, mode);
            q.Ok? ==> if q.failed then TotalSize(q.value) > size else TotalSize(q.value) == size
    decreases if size > 0 then size else 0
  {
    hide ReadFrame, FrameSize;
    match ReadFrame(bytes, pos, mode)
    case FrameErr(e) =>
    case FrameOk(frame, used, next, failed) =>
      FrameIsAccountedFor(bytes, pos, mode);
      var rest := size - used;
      if !failed && rest > 0 {
        SizesSumToEvent(bytes, next, rest, mode);
        var q := ParseFrames(bytes, next, rest, mode);
        if q.Ok? {
          assert ([frame] + q.value)[1..] == q.value;
        }
      } else {
        assert [frame][1..] == [];
      }
  }

  /** A frame that is cut short accounts for bytes up to the end of the file or beyond; otherwise the
      stream moves on by what the frame accounts for, as far as the file goes. */
  lemma FrameEnd(bytes: seq<nat>, pos: nat, mode: Mode)
    ensures var r := ReadFrame(bytes, pos, mode);
            r.FrameOk? ==> if r.failed then pos + r.used >= |bytes| else r.pos == Min(pos + r.used, |bytes|)
    ensures var r := ReadFrame(bytes, pos, mode);
            mode != Uncompressed && r.FrameOk? && r.failed ==> pos + r.used > |bytes|
  {
    hide FrameFromBytes, ReadSamples;
  }

  /** An event that is announced to end before the file does, or, unless full-width samples are read,
      where the file does: when it is accepted, headers and padded payloads sum to its size exactly and
      the stream stands right behind it. */
  lemma {:induction false} EventBeforeEndSums(bytes: seq<nat>, pos: nat, size: int, mode: Mode)
    requires pos + size < |bytes| || (pos + size == |bytes| && mode != Uncompressed)
    ensures var q := ParseFrames(bytes, pos, size, mode);
            q.Ok? ==> !q.failed && TotalSize(q.value) == size && q.pos == pos + size
    decreases if size > 0 then size else 0
  {
    hide ReadFrame, FrameSize;
    SizesSumToEvent(bytes, pos, size, mode);
    FrameEnd(bytes, pos, mode);
    var r := ReadFrame(bytes, pos, mode);
    if r.FrameOk? && !r.failed && size - r.used > 0 {
      EventBeforeEndSums(bytes, r.pos, size - r.used, mode);
    }
  }

  /** The frames as a reader without samples sees them. */
  function HeadsOnly(frames: seq<Frame>): seq<Frame> {
    if frames == [] then [] else [Frame(frames[0].head, [])] + HeadsOnly(frames[1..])
  }

  lemma CompressedFrameAgrees(bytes: seq<nat>, pos: nat)
    ensures var r := ReadFrame(bytes, pos, Compressed);
            r.FrameOk? ==> ReadFrame(bytes, pos, Uncompressed) == r
  {
    hide FrameFromBytes, ReadSamples;
  }

  /** Where the reader of compressed samples succeeds, the general reader gives the same. */
  lemma {:induction false} CompressedAgrees(bytes: seq<nat>, pos: nat, size: int)
    requires ParseFrames(bytes, pos, size, Compressed).Ok?
    ensures ParseFrames(bytes, pos, size, Uncompressed) == ParseFrames(bytes, pos, size, Compressed)
    decreases if size > 0 then size else 0
  {
    hide ReadFrame;
    var r := ReadFrame(bytes, pos, Compressed);
    CompressedFrameAgrees(bytes, pos);
    if !r.failed && size - r.used > 0 {
      CompressedAgrees(bytes, r.pos, size - r.used);
    }
  }

  lemma HeadsOnlyCons(f: Frame, frames: seq<Frame>)
    ensures HeadsOnly([f] + frames) == [Frame(f.head, [])] + HeadsOnly(frames)
    ensures [f] + [] == [f] && [Frame(f.head, [])] + HeadsOnly([]) == [Frame(f.head, [])]
  {
    assert ([f] + frames)[1..] == frames;
  }

  lemma FrameAgrees(bytes: seq<nat>, pos: nat)
    ensures var r, s := ReadFrame(bytes, pos, Uncompressed), ReadFrame(bytes, pos, NoSamples);
            && (r.FrameOk? <==> s.FrameOk?)
            && (r.FrameOk? ==> s.frame == Frame(r.frame.head, []) && !s.failed && s.used >= r.used)
            && (r.FrameOk? ==> if r.failed then s.used > r.used else s.used == r.used && s.pos == r.pos)
  {
    hide FrameFromBytes, ReadSamples;
  }

  /** Where the general reader succeeds, the reader without samples succeeds, with the same frames,
      exactly when the file did not end inside the samples. */
  lemma {:induction false} NoSamplesAgrees(bytes: seq<nat>, pos: nat, size: int)
    requires ParseFrames(bytes, pos, size, Uncompressed).Ok?
    ensures ParseFrames(bytes, pos, size, NoSamples).Ok? <==> !ParseFrames(bytes, pos, size, Uncompressed).failed
    ensures pos + size < |bytes| ==> ParseFrames(bytes, pos, size, NoSamples).Ok?
    ensures var u, n := ParseFrames(bytes, pos, size, Uncompressed), ParseFrames(bytes, pos, size, NoSamples);
            n.Ok? ==> n.value == HeadsOnly(u.value) && n.pos == u.pos && !n.failed
    decreases if size > 0 then size else 0
  {
    hide ReadFrame, HeadsOnly, TotalSize;
    if pos + size < |bytes| {
      EventBeforeEndSums(bytes, pos, size, Uncompressed);
    }
    var r, s := ReadFrame(bytes, pos, Uncompressed), ReadFrame(bytes, pos, NoSamples);
    FrameAgrees(bytes, pos);
    if !r.failed && size - r.used > 0 {
      NoSamplesAgrees(bytes, r.pos, size - r.used);
      var u := ParseFrames(bytes, r.pos, size - r.used, Uncompressed);
      HeadsOnlyCons(r.frame, u.value);
    } else {
      HeadsOnlyCons(r.frame, []);
    }
  }

  /** Heads decide the grouping: dropping the samples of the frames drops those of the hits. */
  lemma {:induction false} GroupingIgnoresSamples(h: seq<Hit>, g: seq<Hit>, frames: seq<Frame>)
    requires |h| == |g| && forall i :: 0 <= i < |h| ==> g[i] == Hit(h[i].heads, [])
    ensures var a, b := Group(h, frames), Group(g, HeadsOnly(frames));
            |a| == |b| && forall i :: 0 <= i < |a| ==> b[i] == Hit(a[i].heads, [])
    decreases |frames|
  {
    if frames != [] {
      var bare := HeadsOnly(frames);
      assert bare[0] == Frame(frames[0].head, []) && bare[1..] == HeadsOnly(frames[1..]);
      GroupingIgnoresSamples(AddFrame(h, frames[0]), AddFrame(g, bare[0]), frames[1..]);
    }
  }

  /** Headers in stream order determine the hits: two well-grouped lists with the same headers have
      the same number of hits and the same headers in each. */
  lemma {:induction false} HeadsDetermineHits(a: seq<Hit>, b: seq<Hit>)
    requires WellGrouped(a) && WellGrouped(b) && HitHeads(a) == HitHeads(b)
    ensures |a| == |b| && forall i :: 0 <= i < |a| ==> a[i].heads == b[i].heads
    decreases |a|
  {
    if a != [] && b != [] {
      var a', b' := a[..|a| - 1], b[..|b| - 1];
      var x, y := a[|a| - 1].heads, b[|b| - 1].heads;
      LastHitNotLonger(a, b);
      LastHitNotLonger(b, a);
      var h := HitHeads(a);
      assert x == h[|h| - |x|..] == y;
      assert HitHeads(a') == h[..|h| - |x|] == HitHeads(b');
      HeadsDetermineHits(a', b');
    }
  }

  lemma LastHitNotLonger(a: seq<Hit>, b: seq<Hit>)
    requires WellGrouped(a) && WellGrouped(b) && HitHeads(a) == HitHeads(b) && a != [] && b != []
    ensures |a[|a| - 1].heads| <= |b[|b| - 1].heads|
  {
    var x, y, h := a[|a| - 1].heads, b[|b| - 1].heads, HitHeads(a);
    // Were b's last hit shorter, its first header would lie inside a's last hit and be fragmented;
    // b would then have no other hit, and fewer headers than a.
    assert b[..0] == [];
    assert y[0] == h[|h| - |y|];
  }

  /** The three readers on one event: the compressed one, where it succeeds, gives the same hits as
      the general one; where that succeeds, the one without samples does too exactly when the file
      did not end inside the samples, which no event that is announced to end before the file does, and
      then finds the same headers in the same hits. */
  lemma ReadersAgree(bytes: seq<nat>, pos: nat, size: int, nhits: nat)
    ensures var c := ParseHits(bytes, pos, size, Compressed, nhits, []);
            var u := ParseHits(bytes, pos, size, Uncompressed, nhits, []);
            c.Ok? ==> u == c
    ensures var u := ParseHits(bytes, pos, size, Uncompressed, nhits, []);
            var n := ParseHits(bytes, pos, size, NoSamples, nhits, []);
            u.Ok? ==>
              && (n.Ok? <==> !u.failed)
              && (pos + size < |bytes| ==> n.Ok?)
              && (n.Ok? ==>
                    && n.pos == u.pos && |n.value| == |u.value|
                    && forall i :: 0 <= i < |u.value| ==> n.value[i] == Hit(u.value[i].heads, []))
  {
    hide ReadFrame, AddFrame;
    var c := ParseHits(bytes, pos, size, Compressed, nhits, []);
    var u := ParseHits(bytes, pos, size, Uncompressed, nhits, []);
    if c.Ok? {
      ParseHitsGroupsFrames(bytes, pos, size, Compressed, nhits, []);
      CompressedAgrees(bytes, pos, size);
      ParseHitsSucceeds(bytes, pos, size, Uncompressed, nhits, []);
      ParseHitsGroupsFrames(bytes, pos, size, Uncompressed, nhits, []);
    }
    if u.Ok? {
      ParseHitsGroupsFrames(bytes, pos, size, Uncompressed, nhits, []);
      NoSamplesAgrees(bytes, pos, size);
      var frames := ParseFrames(bytes, pos, size, Uncompressed).value;
      GroupingIgnoresSamples([], [], frames);
      if ParseFrames(bytes, pos, size, NoSamples).Ok? {
        ParseHitsSucceeds(bytes, pos, size, NoSamples, nhits, []);
      }
      if ParseHits(bytes, pos, size, NoSamples, nhits, []).Ok? {
        ParseHitsGroupsFrames(bytes, pos, size, NoSamples, nhits, []);
      }
    }
  }
}
