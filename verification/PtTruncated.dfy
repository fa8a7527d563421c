/** Events at the end of a file: when the announced size is what the frames take. */
module PtTruncated {
  import opened BitFields
  import opened Seqs
  import opened TimeStamp
  import opened PtFormat
  import opened PtParse
  import opened PtProperties
  import opened PtRoundTrip

  // ---- sizes of one frame ----

  /** The bytes of n samples, one each behind a header with the compression flag and two otherwise. */
  function Want(n: nat, zip: nat): nat { if zip == 0 then 2 * n else n }

  /** The bytes of padding behind them. */
  function Pad(n: nat, zip: nat): nat { 2 * n + (if n % 2 == 0 then 0 else 2) - Want(n, zip) }

  /** The most sample bytes that a frame can announce whose padding takes d bytes. */
  function MostWanted(d: int): nat {
    if d == 0 then 252
    else if d == 2 then 254
    else if 4 <= d <= 126 && d % 2 == 0 then d
    else if 3 <= d <= 129 && d % 2 == 1 then d - 2
    else 0
  }

  lemma WantedAtMost(n: nat, zip: nat)
    requires n < 128
    ensures Want(n, zip) <= MostWanted(Pad(n, zip))
  {
  }

  /** A frame that announces as much. */
  function Wanting(d: nat): (nz: (nat, nat))
    requires MostWanted(d) > 0
    ensures nz.0 < 128 && nz.1 < 2 && Pad(nz.0, nz.1) == d && Want(nz.0, nz.1) == MostWanted(d)
  {
    if d == 0 then (126, 0) else if d == 2 then (127, 0) else if d % 2 == 0 then (d, 1) else (d - 2, 1)
  }

  // ---- what a broken sum needs ----

  lemma SampleCountIsSmall(s: seq<nat>)
    ensures FrameFromBytes(s).nDataSamples < 128
  {
    UnpackBelow(Pack(s, Bytes(|s|)), FrameBits(), 9);
    assert FrameBits()[9] == 7 && Pow2(7) == 128;
  }

  /** A frame, cut short or not, in terms of its header. */
  lemma FrameSizes(bytes: seq<nat>, pos: nat)
    ensures var r := ReadFrame(bytes, pos, Uncompressed);
            r.FrameOk? ==>
              var n, zip, body := r.frame.head.nDataSamples, r.frame.head.zipFlag, pos + FRAME_SIZE;
              && n < 128 && body <= |bytes| && r.failed == (|bytes| - body < Want(n, zip))
              && r.used == FRAME_SIZE + Pad(n, zip) + (if r.failed then |bytes| - body else Want(n, zip))
  {
    hide FrameFromBytes, ReadSamples;
    if pos + FRAME_SIZE <= |bytes| {
      SampleCountIsSmall(bytes[pos..pos + FRAME_SIZE]);
    }
  }

  /** What whole frames before the last one may take. */
  predicate Front(s: nat) { s == 0 || (s >= FRAME_SIZE && s % 4 == 0) }

  /** An accepted event that ran into the end of the file: s bytes of whole frames, a header, and fewer
      bytes than a frame can want whose padding is what the event is announced to take beyond the file. */
  lemma {:induction false} BreakNeeds(bytes: seq<nat>, pos: nat, size: int) returns (s: nat)
    requires var q := ParseFrames(bytes, pos, size, Uncompressed); q.Ok? && q.failed
    ensures Front(s) && pos + s + FRAME_SIZE <= |bytes|
    ensures |bytes| - pos - s - FRAME_SIZE < MostWanted(pos + size - |bytes|)
    decreases if size > 0 then size else 0
  {
    hide ReadFrame, MostWanted;
    var r := ReadFrame(bytes, pos, Uncompressed);
    FrameSizes(bytes, pos);
    FrameEnd(bytes, pos, Uncompressed);
    WantedAtMost(r.frame.head.nDataSamples, r.frame.head.zipFlag);
    if r.failed {
      s := 0;
    } else {
      var rest := BreakNeeds(bytes, r.pos, size - r.used);
      s := r.used + rest;
    }
  }

  /** What is left of g bytes behind whole frames that take as much of them as frames can. */
  function Leftover(g: nat): nat { if g < FRAME_SIZE then g else g % 4 }

  lemma LeftoverIsLeast(g: nat, s: nat)
    requires Front(s) && s <= g
    ensures Leftover(g) <= g - s && Front(g - Leftover(g))
  {
  }

  /** An event is announced with `held` bytes before the end of the file and d bytes beyond it, and there
      are bytes for which it is accepted without its frames taking as much. */
  predicate CanBreak(held: int, d: int) {
    held >= FRAME_SIZE && Leftover(held - FRAME_SIZE) < MostWanted(d)
  }

  // ---- bytes that break it ----

  /** A header that announces n samples. */
  function HeadOf(n: nat, zip: nat): DataFrameHeader {
    DataFrameHeader(0, 0, 0, 0, 0, 0, 0, 0, 0, n, 0, 0, 0, zip)
  }

  lemma HeadFits(n: nat, zip: nat)
    requires n < 128 && zip < 2
    ensures FrameFits(HeadOf(n, zip))
  {
    assert Pow2(7) == 128 && Pow2(1) == 2;
    hide Pow2;
    var values, widths := FrameFields(HeadOf(n, zip)), FrameBits();
    assert values[9] == n && widths[9] == 7 && values[13] == zip && widths[13] == 1;
    forall i | 0 <= i < |values|
      ensures values[i] < Pow2(widths[i])
    {
      assert i == 9 || i == 13 || values[i] == 0;
    }
  }

  lemma HeadReads(bytes: seq<nat>, pos: nat, n: nat, zip: nat)
    requires n < 128 && zip < 2 && Lies(bytes, pos, FrameBytes(HeadOf(n, zip)))
    ensures |FrameBytes(HeadOf(n, zip))| == FRAME_SIZE && pos + FRAME_SIZE <= |bytes|
    ensures FrameFromBytes(bytes[pos..pos + FRAME_SIZE]) == HeadOf(n, zip)
  {
    hide FrameBytes, FrameFromBytes, FrameFits;
    HeadFits(n, zip);
    FrameRoundTrip(HeadOf(n, zip));
  }

  /** The frame that a header in the file announces. */
  lemma FrameUnder(bytes: seq<nat>, pos: nat, n: nat, zip: nat)
    requires pos + FRAME_SIZE <= |bytes| && FrameFromBytes(bytes[pos..pos + FRAME_SIZE]) == HeadOf(n, zip)
    ensures var body, want := pos + FRAME_SIZE, Want(n, zip);
            var got := Min(want, |bytes| - body);
            ReadFrame(bytes, pos, Uncompressed) ==
            FrameOk(Frame(HeadOf(n, zip), ReadSamples(bytes, body, n, zip == 0)), FRAME_SIZE + got + Pad(n, zip),
                    if got < want then body + got else Min(body + want + Pad(n, zip), |bytes|), got < want)
  {
    hide FrameFromBytes, ReadSamples;
  }

  /** Whole frames of even numbers of two-byte samples, then a header and g bytes. */
  function CutEvent(ms: seq<nat>, n: nat, zip: nat, g: nat): seq<nat> {
    if ms == [] then FrameBytes(HeadOf(n, zip)) + Zeros(g)
    else FrameBytes(HeadOf(ms[0], 0)) + Zeros(2 * ms[0]) + CutEvent(ms[1..], n, zip, g)
  }

  predicate Evens(ms: seq<nat>) {
    forall i :: 0 <= i < |ms| ==> ms[i] < 128 && ms[i] % 2 == 0
  }

  function FrontSize(ms: seq<nat>): nat {
    if ms == [] then 0 else FRAME_SIZE + 2 * ms[0] + FrontSize(ms[1..])
  }

  lemma {:induction false} CutEventIsBytes(ms: seq<nat>, n: nat, zip: nat, g: nat)
    requires Evens(ms) && n < 128 && zip < 2
    ensures AllBytes(CutEvent(ms, n, zip, g)) && |CutEvent(ms, n, zip, g)| == FrontSize(ms) + FRAME_SIZE + g
    decreases |ms|
  {
    hide FrameBytes, AllBytes;
    if ms == [] {
      HeadIsBytes(n, zip);
      ZerosAreBytes(g);
      BytesConcat(FrameBytes(HeadOf(n, zip)), Zeros(g));
    } else {
      HeadIsBytes(ms[0], 0);
      ZerosAreBytes(2 * ms[0]);
      BytesConcat(FrameBytes(HeadOf(ms[0], 0)), Zeros(2 * ms[0]));
      CutEventIsBytes(ms[1..], n, zip, g);
      BytesConcat(FrameBytes(HeadOf(ms[0], 0)) + Zeros(2 * ms[0]), CutEvent(ms[1..], n, zip, g));
    }
  }

  lemma {:induction false} CutEventIsAccepted(bytes: seq<nat>, pos: nat, ms: seq<nat>, n: nat, zip: nat, g: nat)
    requires Evens(ms) && n < 128 && zip < 2 && g < Want(n, zip)
    requires Lies(bytes, pos, CutEvent(ms, n, zip, g)) && |bytes| == pos + FrontSize(ms) + FRAME_SIZE + g
    ensures var q := ParseFrames(bytes, pos, FrontSize(ms) + FRAME_SIZE + g + Pad(n, zip), Uncompressed);
            q.Ok? && q.failed
    decreases |ms|
  {
    hide FrameBytes, ReadFrame, FrameFromBytes, ReadSamples, Lies;
    if ms == [] {
      LiesSplit(bytes, pos, FrameBytes(HeadOf(n, zip)), Zeros(g));
      HeadReads(bytes, pos, n, zip);
      FrameUnder(bytes, pos, n, zip);
    } else {
      var frame, rest := FrameBytes(HeadOf(ms[0], 0)) + Zeros(2 * ms[0]), CutEvent(ms[1..], n, zip, g);
      LiesSplit(bytes, pos, frame, rest);
      LiesSplit(bytes, pos, FrameBytes(HeadOf(ms[0], 0)), Zeros(2 * ms[0]));
      HeadReads(bytes, pos, ms[0], 0);
      FrameUnder(bytes, pos, ms[0], 0);
      CutEventIsAccepted(bytes, pos + FRAME_SIZE + 2 * ms[0], ms[1..], n, zip, g);
    }
  }

  lemma HeadIsBytes(n: nat, zip: nat)
    requires n < 128 && zip < 2
    ensures AllBytes(FrameBytes(HeadOf(n, zip))) && |FrameBytes(HeadOf(n, zip))| == FRAME_SIZE
  {
    hide FrameFits, AllBytes, Pow2;
    HeadFits(n, zip);
    FrameFitsIs(HeadOf(n, zip));
    FrameBitsSum();
    DecodeEncode(FrameFields(HeadOf(n, zip)), FrameBits(), FRAME_SIZE);
  }

  lemma FrameFitsIs(h: DataFrameHeader)
    requires FrameFits(h)
    ensures Fits(FrameFields(h), FrameBits())
  {
  }

  lemma {:induction false} ZerosAreBytes(n: nat)
    ensures AllBytes(Zeros(n))
  {
    if n > 0 {
      ZerosAreBytes(n - 1);
    }
  }

  lemma BytesConcat(s: seq<nat>, t: seq<nat>)
    requires AllBytes(s) && AllBytes(t)
    ensures AllBytes(s + t)
  {
  }

  /** k frames without samples. */
  function Empties(k: nat): (ms: seq<nat>)
    ensures Evens(ms)
  {
    if k == 0 then [] else [0] + Empties(k - 1)
  }

  lemma {:induction false} EmptiesSize(k: nat)
    ensures FrontSize(Empties(k)) == FRAME_SIZE * k
  {
    if k > 0 {
      EmptiesSize(k - 1);
      assert Empties(k)[1..] == Empties(k - 1);
    }
  }

  lemma OddBytes(s: nat)
    requires s >= FRAME_SIZE && s % 4 == 0
    ensures var m, k := s % FRAME_SIZE / 2, s / FRAME_SIZE - 1;
            m < 8 && m % 2 == 0 && k >= 0 && FRAME_SIZE + 2 * m + FRAME_SIZE * k == s
  {
  }

  /** Frames that take s bytes: one with the odd bytes, the others without samples. */
  lemma FrontOf(s: nat) returns (ms: seq<nat>)
    requires Front(s)
    ensures Evens(ms) && FrontSize(ms) == s
  {
    hide Evens;
    NoneEven();
    if s == 0 {
      ms := [];
    } else {
      var m, k := s % FRAME_SIZE / 2, s / FRAME_SIZE - 1;
      OddBytes(s);
      EmptiesSize(k);
      ms := [m] + Empties(k);
      assert ms[1..] == Empties(k);
      EvensCons(m, Empties(k));
    }
  }

  lemma NoneEven()
    ensures Evens([])
  {
  }

  lemma EvensCons(m: nat, ms: seq<nat>)
    requires m < 128 && m % 2 == 0 && Evens(ms)
    ensures Evens([m] + ms)
  {
  }

  // ---- the sum ----

  /** If the event is accepted, its headers and padded payloads sum to its announced size. */
  ghost predicate SumsIfAccepted(bytes: seq<nat>, pos: nat, size: int) {
    var q := ParseFrames(bytes, pos, size, Uncompressed);
    q.Ok? ==> TotalSize(q.value) == size
  }

  lemma BrokenSumCanBreak(bytes: seq<nat>, pos: nat, size: int)
    requires !SumsIfAccepted(bytes, pos, size)
    ensures CanBreak(|bytes| - pos, pos + size - |bytes|)
  {
    hide ParseFrames, TotalSize, MostWanted, Front, Leftover;
    SizesSumToEvent(bytes, pos, size, Uncompressed);
    var s := BreakNeeds(bytes, pos, size);
    LeftoverIsLeast(|bytes| - pos - FRAME_SIZE, s);
  }

  lemma SomeBytesBreak(length: nat, pos: nat, size: int) returns (bytes: seq<nat>)
    requires CanBreak(length - pos, pos + size - length)
    ensures |bytes| == length && AllBytes(bytes) && !SumsIfAccepted(bytes, pos, size)
  {
    hide ParseFrames, TotalSize, CutEvent, AllBytes, MostWanted, Leftover;
    var held, d := length - pos, pos + size - length;
    var g := Leftover(held - FRAME_SIZE);
    LeftoverIsLeast(held - FRAME_SIZE, 0);
    WantedOnlyBeyond(d);
    var (n, zip) := Wanting(d);
    var ms := FrontOf(held - FRAME_SIZE - g);
    CutEventIsBytes(ms, n, zip, g);
    ZerosAreBytes(pos);
    BytesConcat(Zeros(pos), CutEvent(ms, n, zip, g));
    bytes := Zeros(pos) + CutEvent(ms, n, zip, g);
    assert Lies(bytes, pos, CutEvent(ms, n, zip, g));
    CutEventIsAccepted(bytes, pos, ms, n, zip, g);
    SizesSumToEvent(bytes, pos, size, Uncompressed);
  }

  lemma WantedOnlyBeyond(d: int)
    ensures MostWanted(d) > 0 ==> d >= 0
  {
  }

  /** An event announced with a size at a position in a file of a given length: whatever the bytes, an
      accepted event sums to its size exactly when there is no room for a frame whose samples the file
      cuts short and whose padding is what the event is announced to take beyond it. */
  lemma SumsExactlyWhen(length: nat, pos: nat, size: int)
    ensures (forall bytes :: |bytes| == length && AllBytes(bytes) ==> SumsIfAccepted(bytes, pos, size)) <==>
            !CanBreak(length - pos, pos + size - length)
  {
    hide SumsIfAccepted, CanBreak, AllBytes;
    if CanBreak(length - pos, pos + size - length) {
      var bytes := SomeBytesBreak(length, pos, size);
      assert !SumsIfAccepted(bytes, pos, size);
    } else {
      forall bytes: seq<nat> | |bytes| == length && AllBytes(bytes)
        ensures SumsIfAccepted(bytes, pos, size)
      {
        if !SumsIfAccepted(bytes, pos, size) {
          BrokenSumCanBreak(bytes, pos, size);
        }
      }
    }
  }

  /** For an event announced to end within the file: exactly when that is before its end, or the event is
      announced to be shorter than one header. */
  lemma SumsExactlyWhenBeforeEnd(length: nat, pos: nat, size: nat)
    requires pos + size <= length
    ensures (forall bytes :: |bytes| == length && AllBytes(bytes) ==> SumsIfAccepted(bytes, pos, size)) <==>
            pos + size < length || size < FRAME_SIZE
  {
    SumsExactlyWhen(length, pos, size);
    hide SumsIfAccepted, AllBytes;
  }

  /** Announced to end 1, 128 or more than 129 bytes beyond the file, no event can break the sum. */
  lemma NoBreakFarBeyondEnd(length: nat, pos: nat, size: int)
    requires var d := pos + size - length; d == 1 || d == 128 || d > 129
    ensures forall bytes :: |bytes| == length && AllBytes(bytes) ==> SumsIfAccepted(bytes, pos, size)
  {
    SumsExactlyWhen(length, pos, size);
    hide SumsIfAccepted, AllBytes;
  }

  /** For the bytes of one event: it sums exactly when the reader that skips the samples accepts it. */
  lemma SumsExactlyWhenHeadersFit(bytes: seq<nat>, pos: nat, size: int)
    requires ParseFrames(bytes, pos, size, Uncompressed).Ok?
    ensures SumsIfAccepted(bytes, pos, size) <==> ParseFrames(bytes, pos, size, NoSamples).Ok?
  {
    SizesSumToEvent(bytes, pos, size, Uncompressed);
    NoSamplesAgrees(bytes, pos, size);
  }

  /** A frame of two samples of which the file holds one: the event is accepted as complete, with a
      sample of zero that is not in the file, although its frame takes two bytes more than announced. */
  lemma CutEventGetsInventedSample(bytes: seq<nat>, x: nat, y: nat)
    requires bytes == FrameBytes(HeadOf(2, 0)) + [x, y]
    ensures ParseHits(bytes, 0, 18, Uncompressed, 1, []) == Ok([Hit([HeadOf(2, 0)], [x + 256 * y, 0])], 18, true)
    ensures ParseFrames(bytes, 0, 18, Uncompressed) == Ok([Frame(HeadOf(2, 0), [x + 256 * y, 0])], 18, true)
    ensures TotalSize([Frame(HeadOf(2, 0), [x + 256 * y, 0])]) == 20 && !SumsIfAccepted(bytes, 0, 18)
  {
    hide FrameBytes, FrameFromBytes, ReadFrame;
    HeadIsBytes(2, 0);
    assert Lies(bytes, 0, FrameBytes(HeadOf(2, 0)));
    HeadReads(bytes, 0, 2, 0);
    FrameUnder(bytes, 0, 2, 0);
    CutSamples(bytes, 16, x, y);
    var f := Frame(HeadOf(2, 0), [x + 256 * y, 0]);
    assert AddFrame([], f) == [Hit([HeadOf(2, 0)], f.samples)];
    assert [f][1..] == [];
  }

  lemma CutSamples(bytes: seq<nat>, at: nat, x: nat, y: nat)
    requires |bytes| == at + 2 && bytes[at] == x && bytes[at + 1] == y
    ensures ReadSamples(bytes, at, 2, true) == [x + 256 * y, 0]
  {
    assert ReadSamples(bytes, at + 2, 1, true) == [0] + ReadSamples(bytes, at + 4, 0, true);
  }
}
